/** PaxosKV's log of at most two instances, and the operations of a member on it. */
module KvLog {
  import opened PropNum
  import opened KvInstance

  type Log = seq<Instance>

  function MinIndex(log: Log): nat {
    if log == [] then 0 else log[0].index
  }

  function MaxIndex(log: Log): nat {
    if log == [] then 0 else log[|log| - 1].index
  }

  function LastChosen(log: Log): Option<Instance> {
    if log == [] then None
    else if log[|log| - 1].chosen then Some(log[|log| - 1])
    else LastChosen(log[..|log| - 1])
  }

  predicate KeepsPrevious(prev: Instance, ins: Instance) {
    && !ins.chosen && prev.index + 1 == ins.index && prev.accepted.Some?
    && (prev.chosen || ins.accepted.None?)
  }

  predicate IsSlim(log: Log) {
    |log| < 2 || (|log| == 2 && KeepsPrevious(log[0], log[1]))
  }

  function Shrink(log: Log): (r: Log)
    ensures IsSlim(r)
    ensures MaxIndex(r) == MaxIndex(log) && forall ins :: ins in r ==> ins in log
  {
    if IsSlim(log) then log
    else
      var prev, ins := log[|log| - 2], log[|log| - 1];
      if KeepsPrevious(prev, ins) then [prev, ins] else [ins]
  }

  // The first position that holds the index.
  function Position(log: Log, index: nat): (k: nat)
    ensures k <= |log|
    ensures k < |log| ==> log[k].index == index
    ensures forall i :: 0 <= i < k ==> log[i].index != index
  {
    if log == [] || log[0].index == index then 0 else 1 + Position(log[1..], index)
  }

  // The stored instance of an index, when the log still holds it.
  function Lookup(log: Log, index: nat): Option<Instance> {
    var k := Position(log, index);
    if k < |log| then Some(log[k]) else None
  }

  // What a step leaves behind; stepped is the instance the message was applied to, if any.
  datatype LogReply = LogReply(
    code: int, log: Log, alive: Option<Alive>, rsp: Option<Msg>, write: bool, stepped: Option<Instance>)

  function Unchanged(code: int, log: Log, alive: Option<Alive>, rsp: Option<Msg>): LogReply {
    LogReply(code, log, alive, rsp, false, None)
  }

  const BUSY := -100

  // A message for an index the log has passed.
  function StepInvalidIndex(log: Log, alive: Option<Alive>, msg: Msg): Outcome<LogReply> {
    if log == [] then Done(Unchanged(0, log, alive, None))
    else if msg.index >= MaxIndex(log) then Abort
    else match msg.kind
      case GetChosen => TellLastChosen(log, alive, msg)
      case Prop => TellLastChosen(log, alive, msg)
      case Accpt => TellLastChosen(log, alive, msg)
      case FastAccpt => TellLastChosen(log, alive, msg)
      case ChosenMsg =>
        // the program would put a blank instance before the last one, and its own check of the
        // result fails
        if msg.index + 1 != MaxIndex(log) || log[|log| - 1].chosen then Done(Unchanged(0, log, alive, None))
        else Abort
      case _ => Done(Unchanged(0, log, alive, None))
  }

  function TellLastChosen(log: Log, alive: Option<Alive>, msg: Msg): Outcome<LogReply> {
    var ins := LastChosen(log);
    if ins.None? then Done(Unchanged(0, log, alive, None))
    else if msg.index >= ins.value.index then Abort
    else match StepChosen(None, ins.value, msg.(kind := GetChosen, index := ins.value.index))
      case Abort => Abort
      case Done(r) => Done(Unchanged(0, log, alive, r.rsp))
  }

  function StepAt(log: Log, k: nat, alive: Option<Alive>, msg: Msg): Outcome<LogReply>
    requires k < |log|
  {
    match InsStep(alive, log[k], msg)
    case Abort => Abort
    case Done(r) =>
      var log' := log[k := r.ins];
      Done(LogReply(0, Shrink(log'), r.alive, r.rsp,
                    r.write || (!log[k].chosen && r.ins.chosen) || !IsSlim(log'), Some(r.ins)))
  }

  function LogStep(self: nat, log: Log, alive: Option<Alive>, msg: Msg): Outcome<LogReply> {
    if msg.index == 0 && msg.kind == GetChosen then StepInvalidIndex(log, alive, msg)
    else if msg.index == 0 || msg.to != self then Done(Unchanged(-1, log, alive, None))
    else if msg.index != MinIndex(log) && msg.index != MaxIndex(log) then
      if msg.index < MaxIndex(log) then StepInvalidIndex(log, alive, msg)
      else StepAt(log + [Blank(msg.index)], |log|, None, msg)
    else
      var k := Position(log, msg.index);
      if k == |log| then Abort else StepAt(log, k, alive, msg)
  }

  function ToSelf(kind: MsgType, self: nat, index: nat, num: nat, v: Entry): Msg {
    Msg(kind, self, self, index, num, None, None, Some(v))
  }

  // May this member propose without a prepare round?  Only when the value chosen last is one
  // that its own server issued.
  predicate CanDoFast(log: Log, member: nat) {
    log != [] && log[|log| - 1].chosen && log[|log| - 1].accepted.Some?
    && BelongsTo(log[|log| - 1].accepted.value.value.reqid, member)
  }

  // A proposal that has nothing to send fails the program's check of the answer.
  function Answered(o: Outcome<LogReply>): Outcome<LogReply> {
    if o.Done? && o.value.rsp.None? then Abort else o
  }

  function NormalSet(self: ProposerId, member: nat, log: Log, v: Entry, fast: bool): Outcome<LogReply> {
    var index := MaxIndex(log) + 1;
    var num := Compose(self, 0);
    var msg := ToSelf(if fast && CanDoFast(log, member) then BeginFastProp else BeginProp, self, index, num, v);
    if log != [] && !log[|log| - 1].chosen then Done(Unchanged(BUSY, log, None, None))
    else Answered(LogStep(self, log + [Blank(index)], Some(NewAlive(index, num)), msg))
  }

  function PreemptSet(self: ProposerId, log: Log, v: Entry): Outcome<LogReply> {
    if log == [] then Done(Unchanged(-11, log, None, None))
    else
      var ins := log[|log| - 1];
      var chosen := LastChosen(log);
      var num := Past(Gen(self, 0), ins.proposed).Get();
      if (chosen.None? || ins.index != chosen.value.index + 1) && ins.index != 1
      then Done(Unchanged(-11, log, None, None))
      else if ins.chosen || ins.index == 0 then Abort
      else Answered(LogStep(self, log, Some(NewAlive(ins.index, num)), ToSelf(TryProp, self, ins.index, num, v)))
  }

  function Set(self: ProposerId, member: nat, log: Log, v: Entry, fast: bool): Outcome<LogReply> {
    if log == [] || log[|log| - 1].chosen then NormalSet(self, member, log, v, fast)
    else PreemptSet(self, log, v)
  }

  // Propose again: the value in hand, else the accepted one, else the last chosen data under
  // no request id.
  function RedoProp(self: ProposerId, log: Log, alive: Alive): Outcome<LogReply> {
    if log == [] || log[|log| - 1].chosen then Done(Unchanged(1, log, Some(alive), None))
    else
      var ins := log[|log| - 1];
      var num := Past(Gen(self, 0), ins.proposed).Get();
      var chosen := LastChosen(log);
      if alive.index != ins.index then Abort
      else if alive.proposing.Some? then
        LogStep(self, log, Some(alive), ToSelf(TryRedoProp, self, ins.index, num, alive.proposing.value))
      else if ins.accepted.Some? then
        LogStep(self, log, Some(alive), ToSelf(TryRedoProp, self, ins.index, num, ins.accepted.value.value))
      else if chosen.None? || chosen.value.index + 1 != ins.index || chosen.value.accepted.None? then
        Done(Unchanged(-21, log, Some(alive), None))
      else
        LogStep(self, log, Some(alive), ToSelf(TryRedoProp, self, ins.index, num,
                                               Entry(0, chosen.value.accepted.value.value.data)))
  }
}
