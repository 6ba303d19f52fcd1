/**
  PaxosKV's instance and proposer as values: what each message makes of the stored instance and
  of the proposer's state in memory.  The classes of module PaxosInstance are proved against
  these functions.  An assertion that fails stops the process: the outcome is Abort.
 */
module KvInstance {
  import opened PropNum

  datatype Option<+T> = None | Some(value: T)

  datatype Outcome<+T> = Done(value: T) | Abort

  datatype Entry = Entry(reqid: nat, data: string)

  datatype Accepted = Accepted(num: nat, value: Entry)

  datatype Instance = Instance(
    index: nat,
    proposed: nat,
    promised: Option<nat>,
    accepted: Option<Accepted>,
    chosen: bool)

  datatype MsgType =
    | Noop | Prop | PropRsp | Accpt | AccptRsp | FastAccpt | FastAccptRsp | ChosenMsg | GetChosen
    | BeginProp | BeginFastProp | TryProp | TryRedoProp

  // A message to 0 goes to both other members.
  datatype Msg = Msg(
    kind: MsgType, from: nat, to: nat, index: nat,
    proposed: nat, promised: Option<nat>, accepted: Option<nat>, value: Option<Entry>)

  datatype PropState = Nil | Prepare | WaitPrepare | Accept | WaitAccept | StateChosen | Frozen

  const MAX_PROP_CNT := 3
  const MAJOR_CNT := 2

  datatype Alive = Alive(
    index: nat,
    gen: Gen,
    state: PropState,
    activeCnt: nat,
    beginNum: nat,
    acceptedHint: nat,          // the largest accepted number the value comes from
    maxHint: nat,
    votes: map<nat, bool>,
    proposing: Option<Entry>)

  function Blank(index: nat): Instance {
    Instance(index, 0, None, None, false)
  }

  function NewAlive(index: nat, num: nat): Alive {
    Alive(index, FromNum(num), Nil, 0, 0, 0, 0, map[], None)
  }

  function Max(a: nat, b: nat): nat {
    if a < b then b else a
  }

  function PromisedNum(ins: Instance): nat {
    if ins.promised.Some? then ins.promised.value else 0
  }

  // ---- the acceptor ----

  function UpdatePromised(num: nat, ins: Instance): (bool, Instance) {
    if ins.promised.Some? && ins.promised.value > num then (false, ins)
    else (true, ins.(promised := Some(num)))
  }

  function UpdateAccepted(num: nat, v: Entry, fast: bool, ins: Instance): (bool, Instance) {
    if ins.promised.Some? && ins.promised.value > num then (false, ins)
    else if fast && ins.accepted.Some? then (false, ins)
    else (true, ins.(promised := Some(num), accepted := Some(Accepted(num, v))))
  }

  // ---- the proposer ----

  // What a proposer step leaves behind, whether the instance must be written, and the type of
  // the message to send.
  datatype Move = Move(alive: Alive, ins: Instance, write: bool, kind: MsgType)

  function BeginPrepare(a: Alive, ins: Instance): (r: Outcome<Move>)
  {
    if a.activeCnt + 1 > MAX_PROP_CNT then
      Done(Move(a.(activeCnt := a.activeCnt + 1, state := Frozen), ins, false, Noop))
    else
      var gen1 := if ins.promised.Some? then Past(a.gen, ins.promised.value) else a.gen;
      var gen := Raised(gen1, Max(a.maxHint, a.acceptedHint));
      var num := gen.Get();
      if a.proposing.None? || num <= ins.proposed || num <= PromisedNum(ins) then Abort
      else
        var own := ins.accepted.Some? && a.acceptedHint < ins.accepted.value.num;
        Done(Move(
          a.(activeCnt := a.activeCnt + 1, gen := gen, state := WaitPrepare, votes := map[],
             acceptedHint := if own then ins.accepted.value.num else a.acceptedHint,
             proposing := if own then Some(ins.accepted.value.value) else a.proposing),
          ins.(proposed := num, promised := Some(num)),
          true, Prop))
  }

  function BeginAccept(a: Alive, ins: Instance): (r: Outcome<Move>)
  {
    if a.proposing.None? then Abort
    else
      var (ok, ins') := UpdateAccepted(a.gen.Get(), a.proposing.value, false, ins);
      if !ok then BeginPrepare(a, ins)
      else Done(Move(a.(state := WaitAccept, votes := map[]), ins', true, Accpt))
  }

  function Enter(next: PropState, a: Alive, ins: Instance): Outcome<Move>
  {
    match next
    case WaitPrepare => Done(Move(a.(state := WaitPrepare), ins, false, Noop))
    case WaitAccept => Done(Move(a.(state := WaitAccept), ins, false, Noop))
    case StateChosen => Done(Move(a.(state := StateChosen, votes := map[], proposing := None), ins, false, ChosenMsg))
    case Prepare => BeginPrepare(a, ins)
    case Accept => BeginAccept(a, ins)
    case _ => Abort
  }

  function VotesFor(votes: map<nat, bool>, vote: bool): set<nat> {
    set p | p in votes && votes[p] == vote
  }

  // A member votes once per round; a second, different vote stops the process.
  function AddVote(votes: map<nat, bool>, peer: nat, vote: bool): Outcome<map<nat, bool>> {
    if peer == 0 || (peer in votes && votes[peer] != vote) then Abort
    else Done(votes[peer := vote])
  }

  // A value that comes with a prepare response, promise or rejection, replaces the proposer's
  // own when its number beats every number seen so far.
  function TakeHint(a: Alive, num: nat, value: Option<Entry>): Outcome<Alive> {
    if value.None? then Done(a)
    else if num == 0 then Abort
    else if num > a.acceptedHint then Done(a.(acceptedHint := num, proposing := value))
    else if num == a.acceptedHint && a.proposing != value then Abort
    else Done(a)
  }

  function StepPrepareRsp(a: Alive, peer: nat, promised: nat, accepted: nat, value: Option<Entry>):
    Outcome<(Alive, PropState)>
  {
    if a.proposing.None? || promised < a.gen.Get() then Abort
    else match AddVote(a.votes, peer, promised == a.gen.Get())
      case Abort => Abort
      case Done(votes) =>
        match TakeHint(a.(votes := votes), accepted, value)
        case Abort => Abort
        case Done(a') =>
          Done((a',
            if |VotesFor(votes, false)| >= MAJOR_CNT then Prepare
            else if |VotesFor(votes, true)| + 1 >= MAJOR_CNT then Accept
            else WaitPrepare))
  }

  function StepAcceptRsp(a: Alive, peer: nat, accepted: nat): Outcome<(Alive, PropState)>
  {
    match AddVote(a.votes, peer, a.gen.Get() == accepted)
    case Abort => Abort
    case Done(votes) =>
      Done((a.(votes := votes),
        if |VotesFor(votes, false)| >= MAJOR_CNT then Prepare
        else if |VotesFor(votes, true)| + 1 >= MAJOR_CNT then StateChosen
        else WaitAccept))
  }

  // Before the decision is announced the stored value must be the proposed one.
  predicate DecisionChecks(a: Alive, ins: Instance, num: nat) {
    && ins.promised.Some? && num <= ins.promised.value
    && ins.accepted.Some? && num <= ins.accepted.value.num
    && a.proposing == Some(ins.accepted.value.value)
  }

  function Or0(n: Option<nat>): nat {
    if n.Some? then n.value else 0
  }

  function OnPropRsp(a: Alive, ins: Instance, msg: Msg): Outcome<Move>
  {
    if a.proposing.None? then Abort
    else if a.state != WaitPrepare || ins.proposed != msg.proposed then Done(Move(a, ins, false, Noop))
    else if a.gen.Get() != msg.proposed then
      // an earlier write failed: propose again
      if a.gen.Get() < msg.proposed then Abort else Enter(Prepare, a, ins)
    else
      match StepPrepareRsp(a, msg.from, Or0(msg.promised), Or0(msg.accepted), msg.value)
      case Abort => Abort
      case Done((a', next)) => Enter(next, a', ins)
  }

  function OnAccptRsp(a: Alive, ins: Instance, msg: Msg): Outcome<Move>
  {
    if a.proposing.None? then Abort
    else if a.state != WaitAccept || ins.proposed != msg.proposed then Done(Move(a, ins, false, Noop))
    else if a.gen.Get() != msg.proposed || msg.accepted.None? || msg.value.Some? then Abort
    else
      match StepAcceptRsp(a, msg.from, msg.accepted.value)
      case Abort => Abort
      case Done((a', next)) =>
        if next == StateChosen && !DecisionChecks(a', ins, msg.proposed) then Abort
        else
          match Enter(next, a', ins)
          case Abort => Abort
          case Done(m) =>
            Done(m.(alive := m.alive.(maxHint := Max(Max(m.alive.maxHint, Or0(msg.promised)), msg.accepted.value))))
  }

  function OnTryProp(a: Alive, ins: Instance, msg: Msg): Outcome<Move>
  {
    if msg.value.None? then Abort
    else
      var hint := if CntOf(msg.proposed) == 0 then Compose(0, 1) else msg.proposed;
      var a' := a.(gen := Raised(a.gen, hint), activeCnt := 0, acceptedHint := 0,
                   proposing := msg.value, votes := map[]);
      match Enter(Prepare, a', ins)
      case Abort => Abort
      case Done(m) => Done(m.(alive := m.alive.(beginNum := m.ins.proposed)))
  }

  function OnBeginProp(a: Alive, ins: Instance, msg: Msg): Outcome<Move>
  {
    if a.proposing.Some? || a.activeCnt != 0 || a.acceptedHint != 0 || msg.value.None? then Abort
    else if ins.promised.Some? then Done(Move(a, ins, false, Noop))
    else if a.state != Nil || ins.accepted.Some? then Abort
    else
      var hint := if msg.kind == BeginProp then Compose(0, 1) else 0;
      var a' := a.(gen := Raised(a.gen, hint), proposing := msg.value);
      match Enter(Prepare, a', ins)
      case Abort => Abort
      case Done(m) =>
        if msg.kind == BeginProp then Done(m.(alive := m.alive.(beginNum := m.ins.proposed)))
        else
          // the fast way: no prepare round
          match Enter(Accept, m.alive, m.ins)
          case Abort => Abort
          case Done(m') =>
            if CntOf(m'.ins.proposed) != 0 then Abort
            else Done(m'.(kind := FastAccpt, alive := m'.alive.(beginNum := m'.ins.proposed)))
  }

  function AliveStep(a: Alive, ins: Instance, msg: Msg): Outcome<Move>
  {
    if a.index != msg.index || a.state == StateChosen then Abort
    else match msg.kind
      case PropRsp => OnPropRsp(a, ins, msg)
      case AccptRsp => OnAccptRsp(a, ins, msg)
      case FastAccptRsp => OnAccptRsp(a, ins, msg)
      case TryProp => OnTryProp(a, ins, msg)
      case TryRedoProp => OnTryProp(a, ins, msg)
      case BeginProp => OnBeginProp(a, ins, msg)
      case BeginFastProp => OnBeginProp(a, ins, msg)
      case _ => Abort
  }

  // ---- the instance ----

  // What a message makes of an instance and of the proposer that looks after it, if any.
  datatype Reply = Reply(alive: Option<Alive>, ins: Instance, write: bool, rsp: Option<Msg>)

  function MarkChosen(a: Alive): Alive {
    a.(state := StateChosen, votes := map[], proposing := None)
  }

  function SameEntry(ins: Instance, v: Option<Entry>): bool {
    ins.accepted.Some? && v == Some(ins.accepted.value.value)
  }

  function StepChosen(alive: Option<Alive>, ins: Instance, msg: Msg): Outcome<Reply>
  {
    if ins.promised.None? || ins.accepted.None? then Abort
    else match msg.kind
      case ChosenMsg =>
        if msg.value.Some? && !SameEntry(ins, msg.value) then Abort
        else Done(Reply(alive, ins, false, None))
      case GetChosen => Done(Reply(alive, ins, false, Some(ChosenReply(ins, msg))))
      case Prop => Done(Reply(alive, ins, false, Some(ChosenReply(ins, msg))))
      case Accpt => Done(Reply(alive, ins, false, Some(ChosenReply(ins, msg))))
      case FastAccpt => Done(Reply(alive, ins, false, Some(ChosenReply(ins, msg))))
      case _ => Done(Reply(alive, ins, false, None))
  }

  function ChosenReply(ins: Instance, msg: Msg): Msg
    requires ins.accepted.Some? && ins.promised.Some?
  {
    Msg(ChosenMsg, msg.to, msg.from, msg.index, ins.proposed, ins.promised,
        Some(ins.accepted.value.num), Some(ins.accepted.value.value))
  }

  // The number a learner gives itself, above everything it and the message have used.
  function RolledNum(ins: Instance, msg: Msg): nat {
    Past(Gen(0, 100), Max(Max(msg.proposed, PromisedNum(ins)), ins.proposed)).Get()
  }

  function OnChosen(alive: Option<Alive>, ins: Instance, msg: Msg): Outcome<Reply> {
    if msg.value.None? then Abort
    else
      var alive' := if alive.Some? then Some(MarkChosen(alive.value)) else None;
      if ins.accepted.Some? && msg.proposed == ins.accepted.value.num then
        if !SameEntry(ins, msg.value) then Abort
        else Done(Reply(alive', ins.(chosen := true), false, None))
      else
        var num := RolledNum(ins, msg);
        Done(Reply(alive',
          ins.(proposed := num, promised := Some(num),
               accepted := Some(Accepted(num, msg.value.value)), chosen := true),
          true, None))
  }

  // The fields a response starts from.
  function RspTo(msg: Msg, kind: MsgType): Msg {
    Msg(kind, msg.to, 0, msg.index, msg.proposed, None, None, None)
  }

  function PropRspOf(ins: Instance, msg: Msg): Msg {
    var m := RspTo(msg, PropRsp).(to := msg.from, promised := Some(PromisedNum(ins)));
    if ins.accepted.Some? then
      m.(accepted := Some(ins.accepted.value.num), value := Some(ins.accepted.value.value))
    else m
  }

  function AccptRspOf(ins: Instance, msg: Msg, kind: MsgType): Msg {
    var num := if ins.accepted.Some? then ins.accepted.value.num else 0;
    RspTo(msg, kind).(to := msg.from, accepted := Some(num),
      promised := if num != msg.proposed && num == 0 then Some(PromisedNum(ins)) else None)
  }

  // What the proposer sends; the kinds it never sends are not defined.
  function Announce(a: Alive, ins: Instance, msg: Msg, kind: MsgType): Outcome<Option<Msg>>
  {
    match kind
    case Noop => Done(None)
    case Prop =>
      if CntOf(ins.proposed) == 0 then Abort
      else Done(Some(RspTo(msg, Prop).(proposed := ins.proposed)))
    case Accpt => AnnounceAccept(a, ins, msg, kind)
    case FastAccpt => AnnounceAccept(a, ins, msg, kind)
    case ChosenMsg =>
      if ins.promised.None? || ins.accepted.None? then Abort
      else Done(Some(RspTo(msg, ChosenMsg).(proposed := ins.proposed, value := Some(ins.accepted.value.value))))
    case _ => Abort
  }

  function AnnounceAccept(a: Alive, ins: Instance, msg: Msg, kind: MsgType): Outcome<Option<Msg>>
  {
    if ins.promised.None? || ins.accepted.None? || ins.proposed != a.gen.Get()
       || a.proposing != Some(ins.accepted.value.value)
       || (kind == Accpt) != (CntOf(a.gen.Get()) > 0)
    then Abort
    else Done(Some(RspTo(msg, kind).(proposed := a.gen.Get(), value := a.proposing)))
  }

  function ByProposer(alive: Option<Alive>, ins: Instance, msg: Msg): Outcome<Reply>
  {
    if alive.None? then Done(Reply(alive, ins, false, None))
    else match AliveStep(alive.value, ins, msg)
      case Abort => Abort
      case Done(m) =>
        match Announce(m.alive, m.ins, msg, m.kind)
          case Abort => Abort
          case Done(rsp) =>
            if m.kind == ChosenMsg
            then Done(Reply(Some(MarkChosen(m.alive)), m.ins.(chosen := true), m.write, rsp))
            else Done(Reply(Some(m.alive), m.ins, m.write, rsp))
  }

  function StepNotChosen(alive: Option<Alive>, ins: Instance, msg: Msg): Outcome<Reply>
  {
    match msg.kind
    case Noop => Done(Reply(alive, ins, false, None))
    case GetChosen => Done(Reply(alive, ins, false, None))
    case ChosenMsg => OnChosen(alive, ins, msg)
    case Prop =>
      var (ok, ins') := UpdatePromised(msg.proposed, ins);
      Done(Reply(alive, ins', ok, Some(PropRspOf(ins', msg))))
    case Accpt => OnAccpt(alive, ins, msg)
    case FastAccpt => OnAccpt(alive, ins, msg)
    case _ => ByProposer(alive, ins, msg)
  }

  function OnAccpt(alive: Option<Alive>, ins: Instance, msg: Msg): Outcome<Reply> {
    if msg.value.None? then Abort
    else
      var fast := msg.kind == FastAccpt;
      var (ok, ins') := UpdateAccepted(msg.proposed, msg.value.value, fast, ins);
      if ins'.promised.None? then Abort
      else Done(Reply(alive, ins', ok,
             Some(AccptRspOf(ins', msg, if fast then FastAccptRsp else AccptRsp))))
  }

  function InsStep(alive: Option<Alive>, ins: Instance, msg: Msg): Outcome<Reply>
  {
    if ins.chosen then StepChosen(alive, ins, msg) else StepNotChosen(alive, ins, msg)
  }
}
