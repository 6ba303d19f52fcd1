/**
  Three members running PaxosKV for one key.  Messages may be lost, repeated, delayed and
  reordered; a write to the store may fail; a member may lose its proposer at any time; the log
  forgets old instances.  Member i is written with index i here and carries the id i + 1.
 */
module KvProtocol {
  import opened PropNum
  import opened KvInstance
  import opened KvLog
  import opened VoteBook

  // The server behind each member.  They are three different servers.
  datatype Config = Config(servers: seq<nat>)

  ghost predicate ValidConfig(c: Config) {
    |c.servers| == 3 && c.servers[0] != c.servers[1] && c.servers[0] != c.servers[2] && c.servers[1] != c.servers[2]
  }

  datatype Node = Node(log: Log, alive: Option<Alive>)

  datatype State = State(
    nodes: seq<Node>,
    sent: set<Msg>,
    books: map<nat, Book<Entry>>)       // per index: what the members stored amounts to

  function SelfId(i: nat): ProposerId
    requires i < 3
  {
    i + 1
  }

  ghost function BookOf(books: map<nat, Book<Entry>>, index: nat): Book<Entry> {
    if index in books then books[index] else Empty(3, {})
  }

  ghost predicate Init(s: State) {
    s.nodes == [Node([], None), Node([], None), Node([], None)] && s.sent == {} && s.books == map[]
  }

  datatype Step =
    | Receive(i: nat, msg: Msg, writeOk: bool)
    | SetValue(i: nat, v: Entry, fast: bool)
    | Redo(i: nat, writeOk: bool)
    | LoseAlive(i: nat)
    | AskChosen(msg: Msg)

  // The kinds that travel between members.
  predicate OnWire(kind: MsgType) {
    kind in {Noop, Prop, PropRsp, Accpt, AccptRsp, FastAccpt, FastAccptRsp, ChosenMsg, GetChosen}
  }

  // The proposer in memory is handed to a step only for its own index.
  function AliveFor(alive: Option<Alive>, index: nat): Option<Alive> {
    if alive.Some? && alive.value.index == index then alive else None
  }

  ghost function ReceiveOutcome(s: State, i: nat, msg: Msg): Outcome<LogReply>
    requires |s.nodes| == 3 && i < 3
  {
    LogStep(SelfId(i), s.nodes[i].log, AliveFor(s.nodes[i].alive, msg.index), msg.(to := SelfId(i)))
  }

  ghost function SetOutcome(c: Config, s: State, i: nat, v: Entry, fast: bool): Outcome<LogReply>
    requires |s.nodes| == 3 && i < 3 && |c.servers| == 3
  {
    Set(SelfId(i), c.servers[i], s.nodes[i].log, v, fast)
  }

  ghost function RedoOutcome(s: State, i: nat): Outcome<LogReply>
    requires |s.nodes| == 3 && i < 3 && s.nodes[i].alive.Some?
  {
    RedoProp(SelfId(i), s.nodes[i].log, s.nodes[i].alive.value)
  }

  ghost predicate Enabled(c: Config, s: State, e: Step)
    requires ValidConfig(c) && |s.nodes| == 3
  {
    match e
    case Receive(i, msg, _) =>
      && i < 3 && msg in s.sent && OnWire(msg.kind)
      && (msg.to == SelfId(i) || (msg.to == 0 && msg.from != SelfId(i)))
      && ReceiveOutcome(s, i, msg).Done?
    case SetValue(i, v, fast) =>
      i < 3 && SetOutcome(c, s, i, v, fast).Done? && SetOutcome(c, s, i, v, fast).value.code == 0
      && SetOutcome(c, s, i, v, fast).value.rsp.Some? && SetOutcome(c, s, i, v, fast).value.write
      && SetOutcome(c, s, i, v, fast).value.alive.Some?
    case Redo(i, _) => i < 3 && s.nodes[i].alive.Some? && RedoOutcome(s, i).Done?
    case LoseAlive(i) => i < 3
    case AskChosen(msg) => msg.kind == GetChosen && 1 <= msg.from <= 3 && msg.from != msg.to
  }

  // What storing instance ins of member i adds to the book of its index.  A decision adds
  // nothing: a learner's own number is no vote.
  ghost function RecordIns(b: Book<Entry>, i: nat, ins: Instance): Book<Entry>
    requires i < |b.floor|
  {
    if ins.chosen then b
    else
      var b1 :=
        if ins.accepted.None? || ins.accepted.value.num in b.proposed then b
        else
          var num := ins.accepted.value.num;
          var p := Propose(b, num, ins.accepted.value.value);
          if CntOf(num) == 0 then Close(p, {1, 2, 3} - {num}) else p;
      var b2 := Raise(b1, i, PromisedNum(ins));
      if ins.accepted.Some? then Vote(b2, i, ins.accepted.value.num) else b2
  }

  // The proposer that stays in memory.
  function Keep(before: Option<Alive>, handed: Option<Alive>, back: Option<Alive>): Option<Alive> {
    if handed.None? then before
    else if back.Some? && back.value.state == StateChosen then None
    else back
  }

  ghost function Record(books: map<nat, Book<Entry>>, i: nat, r: LogReply): map<nat, Book<Entry>>
    requires i < 3
  {
    if !r.write || r.stepped.None? then books
    else
      var index := r.stepped.value.index;
      var b := BookOf(books, index);
      if |b.floor| != 3 then books else books[index := RecordIns(b, i, r.stepped.value)]
  }

  // What a step of member i amounts to.  When the write fails, the log stays, the answer is not
  // sent, and only the proposer in memory has moved.
  ghost function Effect(s: State, i: nat, handed: Option<Alive>, r: LogReply, writeOk: bool): State
    requires |s.nodes| == 3 && i < 3
  {
    var d := s.nodes[i];
    if r.write && !writeOk then
      s.(nodes := s.nodes[i := d.(alive := if handed.None? then d.alive else r.alive)])
    else
      s.(nodes := s.nodes[i := Node(if r.write then r.log else d.log, Keep(d.alive, handed, r.alive))],
         sent := if r.rsp.Some? then s.sent + {r.rsp.value} else s.sent,
         books := Record(s.books, i, r))
  }

  ghost function After(c: Config, s: State, e: Step): State
    requires ValidConfig(c) && |s.nodes| == 3 && Enabled(c, s, e)
  {
    match e
    case Receive(i, msg, writeOk) =>
      Effect(s, i, AliveFor(s.nodes[i].alive, msg.index), ReceiveOutcome(s, i, msg).value, writeOk)
    case SetValue(i, v, fast) =>
      var r := SetOutcome(c, s, i, v, fast).value;
      Effect(s, i, r.alive, r, true)
    case Redo(i, writeOk) => Effect(s, i, s.nodes[i].alive, RedoOutcome(s, i).value, writeOk)
    case LoseAlive(i) => s.(nodes := s.nodes[i := s.nodes[i].(alive := None)])
    case AskChosen(msg) => s.(sent := s.sent + {msg})
  }

  ghost predicate Next(c: Config, s: State, s': State) {
    ValidConfig(c) && |s.nodes| == 3 && exists e :: Enabled(c, s, e) && s' == After(c, s, e)
  }

  ghost predicate Run(c: Config, run: seq<State>) {
    && ValidConfig(c) && run != [] && Init(run[0])
    && forall k :: 0 <= k < |run| - 1 ==> Next(c, run[k], run[k + 1])
  }
}
