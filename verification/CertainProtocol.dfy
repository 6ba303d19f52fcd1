/**
  One log entry run by n acceptors.  The only message is a snapshot of an acceptor's own stored
  record with its view of the receiver's; values the receiver is believed to hold are elided on
  the way and put back from its table.  The network may lose, repeat, delay and reorder messages,
  and an acceptor may lose its memory and reload its stored record at any time.

  A handler works on the machine in memory and asks for the local record to be stored; nothing
  else touches the machine, and nothing leaves it, until the store has come back.  A message that
  arrives before that, or before a record is reloaded, is restored at once and waits.
 */
module CertainProtocol {
  import opened EntryRecord
  import opened EntryMachine
  import opened PaxosCommand
  import opened VoteBook

  // At most one acceptor, pre, is pre-authorised for the entry (none, when pre >= n).
  datatype Config = Config(n: nat, pre: nat)

  datatype Reading = Idle | Asking(uuid: nat, empties: set<nat>)

  // Ready: memory and store agree.  Otherwise the store is being written or read.
  datatype Phase = Ready | Storing | Loading

  // waiting: per peer, the record of the last message that arrived at a bad time.
  datatype Node = Node(machine: Machine, phase: Phase, reading: Reading, waiting: map<nat, Record>)

  // What had been decided when a read was issued.
  datatype Issue = Issue(book: Book<Payload>, history: seq<seq<Record>>)

  datatype State = State(
    nodes: seq<Node>,
    history: seq<seq<Record>>,            // per acceptor: everything it ever stored, in order
    book: Book<Payload>,                  // what those records amount to
    sent: set<Cmd>,                       // messages as they were made, before eliding
    issued: map<(nat, nat), Issue>,       // reads by (reader, uuid)
    replies: set<(nat, nat, nat)>,        // (acceptor, reader, uuid): "my record is empty"
    emptyReads: set<(nat, nat)>           // reads that succeeded
  )

  // The first n numbers serve the pre-authorised acceptor alone.
  ghost function ClosedNumbers(c: Config): set<nat> {
    Upto(c.n + 1) - {0, c.pre + 1}
  }

  function Stored(s: State, i: nat): Record
    requires i < |s.history| && s.history[i] != []
  {
    s.history[i][|s.history[i]| - 1]
  }

  ghost predicate Shape(c: Config, s: State) {
    && 2 <= c.n
    && |s.nodes| == |s.history| == |s.book.floor| == c.n
    && (forall i :: 0 <= i < c.n ==> s.nodes[i].machine.me == i && |s.nodes[i].machine.table| == c.n)
    && (forall i :: 0 <= i < c.n ==> s.history[i] != [] && s.history[i][0] == BLANK)
  }

  ghost predicate Init(c: Config, s: State) {
    && 2 <= c.n
    && s.nodes == seq(c.n, i requires 0 <= i => Node(Fresh(c.n, i), Ready, Idle, map[]))
    && s.history == seq(c.n, _ => [BLANK])
    && s.book == Empty(c.n, ClosedNumbers(c))
    && s.sent == {} && s.issued == map[] && s.replies == {} && s.emptyReads == {}
  }

  // ---- what the handlers make of a machine ----

  // A client's write: promise a new number and, when pre-authorised, accept at once.  The
  // number in use becomes the value id.
  function WriteCmd(m: Machine, preAuth: bool, value: string, uuids: seq<nat>): Machine
    requires m.me < |m.table|
  {
    var m1 := Promise(m, preAuth).1;
    if Acceptable(m1) then Accept(m1, Payload(m1.Local().promised, value, uuids)).1 else m1
  }

  // A peer's snapshot: update, and accept when it completes a majority of promises.
  function PeerCmd(m: Machine, j: nat, r: Record, value: string, uuids: seq<nat>): (m': Machine)
    requires m.me < |m.table|
    ensures m'.me == m.me && |m'.table| == |m.table|
  {
    var m1 := Update(m, j, r).1;
    if m1.state == MajorityPromise then Accept(m1, Payload(m1.Local().promised, value, uuids)).1 else m1
  }

  // What a message says of its sender once it has arrived: elided, switched and restored.
  function Restored(t: seq<Record>, cmd: Cmd): Record {
    RestoreCmd(t, Switch(Elide(cmd))).peer
  }

  function Reload(n: nat, i: nat, stored: Record): Machine
    requires i < n
  {
    Update(Fresh(n, i), i, stored).1
  }

  // ---- the steps ----

  datatype Step =
    | Write(i: nat, preAuth: bool, value: string, uuids: seq<nat>)
    | Send(i: nat, j: nat)
    | Receive(i: nat, cmd: Cmd, value: string, uuids: seq<nat>)
    | HandleWaiting(i: nat, j: nat, value: string, uuids: seq<nat>)
    | Persist(i: nat)
    | Crash(i: nat)
    | Load(i: nat)
    | StartRead(i: nat, uuid: nat)
    | AnswerEmpty(j: nat, i: nat, uuid: nat)
    | CollectEmpty(i: nat, j: nat)
    | GiveUpRead(i: nat)

  ghost predicate Enabled(c: Config, s: State, e: Step)
    requires Shape(c, s)
  {
    match e
    case Write(i, preAuth, _, _) =>
      i < c.n && s.nodes[i].phase.Ready? && !s.nodes[i].machine.Local().chosen && (preAuth ==> i == c.pre)
    case Send(i, j) => i < c.n && j < c.n && i != j && s.nodes[i].phase.Ready?
    case Receive(i, cmd, _, _) =>
      i < c.n && cmd in s.sent && cmd.peerId == i && cmd.localId < c.n && cmd.localId != i
    case HandleWaiting(i, j, _, _) =>
      i < c.n && s.nodes[i].phase.Ready? && j in s.nodes[i].waiting && j < c.n && j != i
    case Persist(i) => i < c.n && s.nodes[i].phase.Storing?
    case Crash(i) => i < c.n
    case Load(i) => i < c.n && s.nodes[i].phase.Loading?
    case StartRead(i, uuid) =>
      i < c.n && s.nodes[i].phase.Ready? && s.nodes[i].machine.state == Normal && (i, uuid) !in s.issued
    case AnswerEmpty(j, i, uuid) =>
      j < c.n && j != i && s.nodes[j].phase.Ready? && (i, uuid) in s.issued
      && !IsNewer(BLANK, s.nodes[j].machine.Local())
    case CollectEmpty(i, j) =>
      i < c.n && j < c.n && s.nodes[i].phase.Ready? && s.nodes[i].reading.Asking?
      && (j, i, s.nodes[i].reading.uuid) in s.replies
    case GiveUpRead(i) => i < c.n
  }

  // What storing the record r of acceptor i adds to the book.
  function Entered(b: Book<Payload>, i: nat, r: Record): Book<Payload>
    requires i < |b.floor|
  {
    var b1 := if r.accepted > 0 && r.accepted !in b.proposed then Propose(b, r.accepted, Content(r)) else b;
    var b2 := Raise(b1, i, r.promised);
    if r.accepted > 0 && r.accepted == r.promised then Vote(b2, i, r.accepted) else b2
  }

  function SetNode(s: State, i: nat, d: Node): State
    requires i < |s.nodes|
  {
    s.(nodes := s.nodes[i := d])
  }

  // A node that has handled a peer's record; the local record is stored when it became newer.
  function Updated(d: Node, j: nat, r: Record, value: string, uuids: seq<nat>): Node
    requires d.machine.me < |d.machine.table|
  {
    var m := PeerCmd(d.machine, j, r, value, uuids);
    d.(machine := m, phase := if IsNewer(d.machine.Local(), m.Local()) then Storing else Ready)
  }

  ghost function After(c: Config, s: State, e: Step): State
    requires Shape(c, s) && Enabled(c, s, e)
  {
    match e
    case Write(i, preAuth, value, uuids) =>
      SetNode(s, i, s.nodes[i].(machine := WriteCmd(s.nodes[i].machine, preAuth, value, uuids),
                                phase := Storing, reading := Idle))
    case Send(i, j) =>
      var m := s.nodes[i].machine;
      s.(sent := s.sent + {Cmd(i, j, m.Local(), m.table[j])})
    case Receive(i, cmd, value, uuids) =>
      var d := s.nodes[i];
      var r := Restored(d.machine.table, cmd);
      SetNode(s, i, if d.phase.Ready? then Updated(d, cmd.localId, r, value, uuids)
                    else d.(waiting := d.waiting[cmd.localId := r]))
    case HandleWaiting(i, j, value, uuids) =>
      var d := s.nodes[i];
      SetNode(s, i, Updated(d, j, d.waiting[j], value, uuids).(waiting := d.waiting - {j}))
    case Persist(i) =>
      var r := s.nodes[i].machine.Local();
      SetNode(s, i, s.nodes[i].(phase := Ready))
        .(history := s.history[i := s.history[i] + [r]], book := Entered(s.book, i, r))
    case Crash(i) =>
      SetNode(s, i, Node(Fresh(c.n, i), Loading, Idle, map[]))
    case Load(i) =>
      SetNode(s, i, s.nodes[i].(machine := Reload(c.n, i, Stored(s, i)), phase := Ready))
    case StartRead(i, uuid) =>
      SetNode(s, i, s.nodes[i].(reading := Asking(uuid, {i})))
        .(issued := s.issued[(i, uuid) := Issue(s.book, s.history)])
    case AnswerEmpty(j, i, uuid) =>
      s.(replies := s.replies + {(j, i, uuid)})
    case CollectEmpty(i, j) =>
      var d := s.nodes[i];
      if d.machine.state != Normal then SetNode(s, i, d.(reading := Idle))
      else
        var up := d.reading.empties + {j};
        if |up| > c.n / 2 then
          SetNode(s, i, d.(reading := Idle)).(emptyReads := s.emptyReads + {(i, d.reading.uuid)})
        else SetNode(s, i, d.(reading := d.reading.(empties := up)))
    case GiveUpRead(i) => SetNode(s, i, s.nodes[i].(reading := Idle))
  }

  ghost predicate Next(c: Config, s: State, s': State) {
    Shape(c, s) && exists e :: Enabled(c, s, e) && s' == After(c, s, e)
  }

  // ---- when a message keeps its value ----

  // A message's own record comes through whole: it was not elided, the receiver's table holds
  // the value id, or there was nothing to lose.  When it is not, the source falls back to a
  // record without its value.
  ghost predicate ComesWhole(t: seq<Record>, cmd: Cmd) {
    || cmd.peer.valueId == 0 || cmd.local.valueId != cmd.peer.valueId
    || Holds(t, cmd.local.valueId) || IsBare(cmd.local)
  }

  // The fallback is not taken, or what it made is stale and ignored.
  ghost predicate Intact(c: Config, s: State, e: Step)
    requires Shape(c, s) && Enabled(c, s, e)
  {
    e.Receive? ==>
      var d := s.nodes[e.i];
      || ComesWhole(d.machine.table, e.cmd)
      || (d.phase.Ready? && !IsNewer(d.machine.table[e.cmd.localId], Restored(d.machine.table, e.cmd)))
  }

  ghost predicate IntactNext(c: Config, s: State, s': State) {
    Shape(c, s) && exists e :: Enabled(c, s, e) && Intact(c, s, e) && s' == After(c, s, e)
  }

  // A run in which no value is lost on the way.
  ghost predicate IntactRun(c: Config, run: seq<State>) {
    && run != [] && Init(c, run[0])
    && forall k :: 0 <= k < |run| - 1 ==> IntactNext(c, run[k], run[k + 1])
  }

  ghost predicate Run(c: Config, run: seq<State>) {
    && run != [] && Init(c, run[0])
    && forall k :: 0 <= k < |run| - 1 ==> Next(c, run[k], run[k + 1])
  }

  // ---- the invariant ----

  // What a stored record of acceptor q tells about the book.
  ghost predicate RecordOk(c: Config, b: Book<Payload>, q: nat, r: Record)
    requires 0 < c.n && q < |b.floor|
  {
    && IsWhole(r)
    && r.promised <= b.floor[q]
    && (r.prepared > 0 ==> Owns(q, r.prepared, c.n) && r.prepared !in b.closed)
    && (r.accepted > 0 ==> r.accepted in b.proposed && b.proposed[r.accepted] == Content(r))
    && (r.accepted > 0 && !r.chosen ==> (q, r.accepted) in b.votes)
    && (r.chosen ==> Chosen(b, r.accepted))
    && (!r.chosen ==> forall k :: r.accepted < k < r.promised ==> (q, k) !in b.votes)
  }

  // What is also true of the record stored last.
  ghost predicate LastOk(c: Config, b: Book<Payload>, q: nat, r: Record)
    requires 0 < c.n && q < |b.floor|
  {
    && b.floor[q] == r.promised
    && (!r.chosen ==> forall k :: (q, k) in b.votes ==> k <= r.accepted)
    && (!r.chosen ==> forall k :: k in b.proposed && Owns(q, k, c.n) ==> k <= r.accepted)
  }

  // A value this acceptor has accepted under its own number, not stored yet.
  ghost predicate FreshProposal(c: Config, b: Book<Payload>, q: nat, r: Record)
    requires 0 < c.n
  {
    && r.accepted > 0 && r.accepted == r.promised && !r.chosen
    && Owns(q, r.accepted, c.n) && r.accepted !in b.proposed && r.accepted !in b.closed
    && SafeAt(b, r.accepted, Content(r))
    && (r.valueId == r.accepted || (r.valueId in b.proposed && b.proposed[r.valueId] == Content(r)))
  }

  ghost predicate VotedButFor(b: Book<Payload>, s: set<nat>, q: nat, k: nat) {
    forall i :: i in s && i != q ==> (i, k) in b.votes
  }

  // Chosen at k, once acceptor q's own vote is counted.
  ghost predicate ChosenWith(b: Book<Payload>, q: nat, k: nat) {
    exists s :: Quorum(s, |b.floor|) && VotedButFor(b, s, q, k)
  }

  // What is true of the record in memory, stored or not.
  ghost predicate MemoryOk(c: Config, b: Book<Payload>, q: nat, r: Record, stored: Record)
    requires 0 < c.n && q < |b.floor|
  {
    && (r != stored ==> IsNewer(stored, r))
    && stored.prepared <= r.prepared && stored.promised <= r.promised
    && (!r.chosen ==> stored.accepted <= r.accepted)
    && (r.prepared > 0 ==> Owns(q, r.prepared, c.n) && r.prepared !in b.closed)
    && (r.accepted > 0 ==>
          || (r.accepted in b.proposed && b.proposed[r.accepted] == Content(r))
          || FreshProposal(c, b, q, r))
    && (r.accepted > 0 && !r.chosen ==> r.accepted == r.promised || (q, r.accepted) in b.votes)
    && (r.chosen ==>
          && r.accepted in b.proposed
          && (Chosen(b, r.accepted) || (r.accepted == r.promised && ChosenWith(b, q, r.accepted))))
  }

  ghost predicate TableOk(h: seq<seq<Record>>, m: Machine) {
    |m.table| == |h| && forall j :: 0 <= j < |h| && j != m.me ==> m.table[j] in h[j]
  }

  ghost predicate WaitingOk(h: seq<seq<Record>>, i: nat, waiting: map<nat, Record>) {
    forall j :: j in waiting ==> j < |h| && j != i && waiting[j] in h[j]
  }

  // Whoever made a message had stored its own record, and knew a stored record of the receiver.
  ghost predicate SentOk(h: seq<seq<Record>>, sent: set<Cmd>) {
    forall cmd :: cmd in sent ==>
      && cmd.localId < |h| && cmd.peerId < |h| && cmd.localId != cmd.peerId
      && cmd.local in h[cmd.localId] && cmd.peer in h[cmd.peerId]
  }

  ghost predicate NodeOk(c: Config, b: Book<Payload>, h: seq<seq<Record>>, i: nat, d: Node)
    requires 0 < c.n && i < |b.floor| && i < |h| && h[i] != []
  {
    var stored := h[i][|h[i]| - 1];
    && d.machine.me == i && WellFormed(d.machine) && Leads(d.machine) && TableOk(h, d.machine)
    && WaitingOk(h, i, d.waiting)
    && if d.phase.Loading? then d.machine == Fresh(|h|, i)
       else (d.phase.Storing? <==> d.machine.Local() != stored) && MemoryOk(c, b, i, d.machine.Local(), stored)
  }

  // A value id names the number it was first proposed under.
  ghost predicate Origins(b: Book<Payload>) {
    forall k :: k in b.proposed ==>
      b.proposed[k].valueId in b.proposed && b.proposed[b.proposed[k].valueId] == b.proposed[k]
  }

  ghost predicate HistoryOk(c: Config, b: Book<Payload>, q: nat, h: seq<Record>)
    requires 0 < c.n && q < |b.floor|
  {
    && h != []
    && (forall r :: r in h ==> RecordOk(c, b, q, r))
    && LastOk(c, b, q, h[|h| - 1])
    && (forall x, y :: 0 <= x < y < |h| ==> IsNewer(h[x], h[y]) && !IsNewer(h[y], h[x]))
    && (forall x :: 0 <= x < |h| - 1 ==> !h[x].chosen)
  }

  ghost predicate ReadsOk(c: Config, s: State)
    requires Shape(c, s)
  {
    && (forall k :: k in s.issued ==>
          && Consistent(s.issued[k].book) && Extends(s.issued[k].book, s.book)
          && (forall q, r :: 0 <= q < |s.issued[k].history| && r in s.issued[k].history[q] && r.chosen ==>
                Chosen(s.issued[k].book, r.accepted)))
    && (forall j, i, u :: (j, i, u) in s.replies ==>
          (i, u) in s.issued && j < c.n && s.issued[(i, u)].book.floor[j] == 0)
    && (forall i :: 0 <= i < c.n && s.nodes[i].reading.Asking? ==>
          && (i, s.nodes[i].reading.uuid) in s.issued
          && (forall j :: j in s.nodes[i].reading.empties ==>
                j < c.n && s.issued[(i, s.nodes[i].reading.uuid)].book.floor[j] == 0))
    && (forall k :: k in s.emptyReads ==>
          k in s.issued && forall b :: !Chosen(s.issued[k].book, b))
  }

  ghost predicate NodesOk(c: Config, b: Book<Payload>, h: seq<seq<Record>>, nodes: seq<Node>)
    requires 0 < c.n && c.n == |b.floor| == |h| && forall i :: 0 <= i < c.n ==> h[i] != []
  {
    |nodes| == c.n && forall i :: 0 <= i < c.n ==> NodeOk(c, b, h, i, nodes[i])
  }

  ghost predicate HistoriesOk(c: Config, b: Book<Payload>, h: seq<seq<Record>>)
    requires 0 < c.n && c.n == |b.floor|
  {
    |h| == c.n && forall q :: 0 <= q < c.n ==> HistoryOk(c, b, q, h[q])
  }

  ghost predicate BookOk(c: Config, b: Book<Payload>) {
    Consistent(b) && Origins(b) && b.closed == ClosedNumbers(c)
  }

  ghost predicate Inv(c: Config, s: State) {
    && Shape(c, s)
    && BookOk(c, s.book)
    && HistoriesOk(c, s.book, s.history)
    && NodesOk(c, s.book, s.history, s.nodes)
    && SentOk(s.history, s.sent)
    && ReadsOk(c, s)
  }
}
