/**
  What a member of PaxosKV's log comes to: that a majority heard of decides, in every run; what is
  proposed anew, at which index and by which way; and what the log keeps.
 */
module KvProgress {
  import opened PropNum
  import opened KvInstance
  import opened KvLog
  import opened KvDecisions
  import opened KvProtocol
  import opened VoteBook
  import opened KvInstanceProof
  import opened KvStepProof
  import opened KvAgreement

  // ---- a message at its instance ----

  // In a slim log the entries are in order, and a message for one of them reaches it.
  lemma ReachesEntry(self: nat, log: Log, k: nat, alive: Option<Alive>, msg: Msg)
    requires IsSlim(log) && k < |log| && log[k].index == msg.index > 0 && msg.to == self
    ensures LogStep(self, log, alive, msg) == StepAt(log, k, alive, msg)
  {
    hide InsStep;
    SlimIsOrdered(log);
    PositionIs(log, msg.index, k);
  }

  // An accept response that makes a majority is handled, in every reachable state: the member
  // stores the decision, tells everybody its value, and needs no proposer any more.
  lemma MajorityDecides(c: Config, run: seq<State>, n: nat, i: nat, k: nat, a: Alive, msg: Msg)
    requires Run(c, run) && n < |run| && i < 3 && i < |run[n].nodes| && run[n].nodes[i].alive == Some(a)
    requires k < |run[n].nodes[i].log| && run[n].nodes[i].log[k].index == a.index == msg.index
    requires var ins := run[n].nodes[i].log[k];
      !ins.chosen && ins.proposed == msg.proposed == a.gen.Get() && a.state == WaitAccept
    requires msg in run[n].sent && msg.to == i + 1 && msg.kind in {AccptRsp, FastAccptRsp}
    requires var vote := msg.accepted == Some(a.gen.Get());
      KeepsVote(a.votes, msg.from, vote) && MostSayYes(i + 1, a.votes, msg.from, vote)
    ensures |run[n].nodes| == 3 && Enabled(c, run[n], Receive(i, msg, true))
    ensures var s', ins := After(c, run[n], Receive(i, msg, true)), run[n].nodes[i].log[k];
      && |s'.nodes| == 3 && ins.(chosen := true) in s'.nodes[i].log && s'.nodes[i].alive == None
      && ins.accepted.Some? && a.proposing == Some(ins.accepted.value.value)
      && Msg(ChosenMsg, i + 1, 0, msg.index, ins.proposed, None, None, a.proposing) in s'.sent
  {
    hide Consistent, InsStep, MostSayYes, KeepsVote, LogStep, Record, FastBacked;
    RunKeeps(c, run, n);
    var s := run[n];
    var log := s.nodes[i].log;
    var ins := log[k];
    assert ins in log;
    assert MsgOk(BookOf(s.books, msg.index), msg);
    assert LogOk(s.books, i, log) && AliveFits(s.books, i, s.nodes[i].alive, log);
    MajorityIsAnswered(BookOf(s.books, msg.index), i, a, ins, msg);
    ReachesEntry(i + 1, log, k, Some(a), msg);
    assert msg.(to := SelfId(i)) == msg;
    DecidedIsKept(log, k);
  }

  lemma MajorityIsAnswered(b: Book<Entry>, i: nat, a: Alive, ins: Instance, msg: Msg)
    requires BookOk(b) && i < 3 && InsOk(b, i, ins) && !ins.chosen && AliveOk(b, i, a, ins)
    requires MsgOk(b, msg) && (msg.kind == AccptRsp || msg.kind == FastAccptRsp) && msg.from != i + 1
    requires a.index == msg.index && a.state == WaitAccept && ins.proposed == msg.proposed == a.gen.Get()
    requires var vote := msg.accepted == Some(a.gen.Get());
      KeepsVote(a.votes, msg.from, vote) && MostSayYes(i + 1, a.votes, msg.from, vote)
    ensures InsStep(Some(a), ins, msg).Done?
    ensures var r := InsStep(Some(a), ins, msg).value;
      && r.alive.Some? && r.alive.value.state == StateChosen && r.ins == ins.(chosen := true)
      && r.rsp == Some(Msg(ChosenMsg, msg.to, 0, msg.index, ins.proposed, None, None, a.proposing))
      && ins.accepted.Some? && a.proposing == Some(ins.accepted.value.value)
  {
    hide Consistent, Decided, Gap, InsStep, MostSayYes, StepAcceptRsp;
    AcceptRspDecides(i + 1, a, msg.from, msg.accepted.value);
    DecisionNeverAborts(b, i, a, ins, msg);
    AcceptRspIsAnswered(i + 1, a, ins, msg);
  }

  // An instance that gets decided stays in the log.
  lemma DecidedIsKept(log: Log, k: nat)
    requires IsSlim(log) && k < |log| && !log[k].chosen
    ensures log[k].(chosen := true) in Shrink(log[k := log[k].(chosen := true)])
  {
    var log' := log[k := log[k].(chosen := true)];
    assert log'[k] in log';
  }

  // ---- what the log keeps ----

  // The last instance always stays.  The one before it stays exactly as long as the last is open
  // and it is the instance just before, with a decided value, or with an accepted one that
  // nothing has been accepted after.
  lemma ShrinkKeeps(log: Log)
    ensures var r := Shrink(log);
      && (log == [] ==> r == [])
      && (|log| == 1 ==> r == log)
      && (|log| >= 2 ==>
            var prev, last := log[|log| - 2], log[|log| - 1];
            var needed := !last.chosen && prev.index + 1 == last.index && prev.accepted.Some?
              && (prev.chosen || last.accepted.None?);
            r == if needed then [prev, last] else [last])
  {
  }

  // ---- proposing again ----

  ghost predicate IsOpen(log: Log) {
    log != [] && !log[|log| - 1].chosen && log[|log| - 1].index > 0 && InLine(log[|log| - 1])
    && (log[|log| - 1].accepted.Some? ==> log[|log| - 1].accepted.value.num > 0)
  }

  // What there is to propose again: the value in hand, else the one accepted, else the data of
  // the instance before, decided, under no request id.
  function ToRedo(log: Log, a: Alive): Option<Entry>
    requires log != []
  {
    var last := log[|log| - 1];
    if a.proposing.Some? then a.proposing
    else if last.accepted.Some? then Some(last.accepted.value.value)
    else if |log| == 2 && log[0].chosen && log[0].accepted.Some? then Some(Entry(0, log[0].accepted.value.value.data))
    else None
  }

  lemma LastChosenIs(log: Log)
    requires IsSlim(log) && log != [] && !log[|log| - 1].chosen
    ensures LastChosen(log) == if |log| == 2 && log[0].chosen then Some(log[0]) else None
  {
    if |log| == 2 {
      assert log[..1] == [log[0]];
      assert LastChosen(log) == LastChosen([log[0]]);
      assert [log[0]][..0] == [];
    } else {
      assert log[..0] == [];
    }
  }

  // The message carries that value; with a value accepted here, that is what is asked for.
  lemma RedoProposes(self: ProposerId, log: Log, a: Alive) returns (msg: Msg)
    requires IsSlim(log) && IsOpen(log) && a.index == log[|log| - 1].index && a.state != StateChosen
    ensures ToRedo(log, a).None? ==> RedoProp(self, log, a) == Done(LogReply(-21, log, Some(a), None, false, None))
    ensures ToRedo(log, a).Some? ==>
      && RedoProp(self, log, a) == LogStep(self, log, Some(a), msg)
      && msg.kind == TryRedoProp && msg.index == a.index && msg.value == ToRedo(log, a) && msg.proposed > log[|log| - 1].proposed
    ensures ToRedo(log, a).Some? ==>
      var last := log[|log| - 1];
      && RedoProp(self, log, a).Done? && var r := RedoProp(self, log, a).value;
      && r.code == 0 && r.alive.Some? && r.alive.value.activeCnt == 1 && r.rsp.Some? && r.rsp.value.kind == Prop
      && r.alive.value.proposing == if last.accepted.Some? then Some(last.accepted.value.value) else ToRedo(log, a)
  {
    hide InsStep, LogStep;
    var last := log[|log| - 1];
    LastChosenIs(log);
    var v := ToRedo(log, a);
    var num := Past(Gen(self, 0), last.proposed).Get();
    msg := ToSelf(TryRedoProp, self, last.index, num, if v.Some? then v.value else Entry(0, ""));
    if v.Some? {
      ReachesEntry(self, log, |log| - 1, Some(a), msg);
      TryPropProposes(a, last, msg);
    }
  }

  // ---- a new value ----

  // May the prepare round be skipped?  Only when it is asked for and the value decided last was
  // issued by this very server.
  predicate GoesFast(log: Log, server: nat, fast: bool) {
    && fast && log != [] && log[|log| - 1].chosen && log[|log| - 1].accepted.Some?
    && var reqid := log[|log| - 1].accepted.value.value.reqid;
       reqid > 0 && reqid / 0x1_0000_0000_0000 % 0x1_0000 == server
  }

  // Where nothing is open, a value goes to the next index: accepted at once and asked to be, or
  // asked for a promise first.
  lemma SetStartsNext(self: ProposerId, server: nat, log: Log, v: Entry, fast: bool)
    requires self > 0 && IsSlim(log) && (log == [] || log[|log| - 1].chosen)
    ensures Set(self, server, log, v, fast).Done?
    ensures var r := Set(self, server, log, v, fast).value;
      && r.code == 0 && r.write && r.alive.Some? && r.alive.value.proposing == Some(v) && r.rsp.Some? && r.stepped.Some?
      && r.rsp.value.index == r.alive.value.index == r.stepped.value.index == (if log == [] then 1 else log[|log| - 1].index + 1)
      && r.rsp.value.to == 0
      && (if GoesFast(log, server, fast) then
            && r.rsp.value.kind == FastAccpt && r.rsp.value.value == Some(v) && r.rsp.value.proposed == self
            && r.stepped.value.accepted == Some(Accepted(self, v)) && r.alive.value.state == WaitAccept
          else
            && r.rsp.value.kind == Prop && r.rsp.value.proposed == Compose(self, 1)
            && r.stepped.value.accepted == None && r.stepped.value.promised == Some(Compose(self, 1))
            && r.alive.value.state == WaitPrepare)
  {
    hide InsStep, LogStep;
    var index := MaxIndex(log) + 1;
    var kind := if GoesFast(log, server, fast) then BeginFastProp else BeginProp;
    var msg := ToSelf(kind, self, index, Compose(self, 0), v);
    OpenedReaches(self, log, Some(NewAlive(index, Compose(self, 0))), msg);
    BeginIsAnswered(self, Blank(index), msg);
  }

  lemma OpenedReaches(self: nat, log: Log, alive: Option<Alive>, msg: Msg)
    requires IsSlim(log) && (log == [] || log[|log| - 1].chosen) && msg.index == MaxIndex(log) + 1 && msg.to == self
    ensures LogStep(self, log + [Blank(msg.index)], alive, msg) == StepAt(log + [Blank(msg.index)], |log|, alive, msg)
  {
    hide InsStep;
    var log' := log + [Blank(msg.index)];
    assert |log| <= 1;
    assert Ordered(log');
    PositionIs(log', msg.index, |log|);
  }

  lemma BeginIsAnswered(self: ProposerId, ins: Instance, msg: Msg)
    requires self > 0 && ins == Blank(msg.index) && msg.to == self && msg.value.Some? && msg.proposed == Compose(self, 0)
    requires msg.kind == BeginProp || msg.kind == BeginFastProp
    ensures var a := NewAlive(msg.index, msg.proposed); InsStep(Some(a), ins, msg).Done?
    ensures var r := InsStep(Some(NewAlive(msg.index, msg.proposed)), ins, msg).value;
      && r.alive.Some? && r.alive.value.proposing == msg.value && r.alive.value.index == msg.index && r.write
      && r.rsp.Some? && r.rsp.value.index == r.ins.index == msg.index && r.rsp.value.to == 0 && !r.ins.chosen
      && (if msg.kind == BeginFastProp then
            && r.rsp.value.kind == FastAccpt && r.rsp.value.value == msg.value && r.rsp.value.proposed == self
            && r.ins.accepted == Some(Accepted(self, msg.value.value)) && r.alive.value.state == WaitAccept
          else
            && r.rsp.value.kind == Prop && r.rsp.value.proposed == Compose(self, 1)
            && r.ins.accepted == None && r.ins.promised == Some(Compose(self, 1)) && r.alive.value.state == WaitPrepare)
  {
    assert FromNum(Compose(self, 0)) == Gen(self, 0);
    assert Raised(Gen(self, 0), Compose(0, 1)) == Gen(self, 1);
    assert Compose(self, 1) > 0 && CntOf(Compose(self, 1)) == 1;
  }

  // Where an instance is open, a value competes for it, if it is the first or follows a decided
  // one; otherwise it is refused.
  lemma SetCompetes(self: ProposerId, server: nat, log: Log, v: Entry, fast: bool)
    requires self > 0 && IsSlim(log) && IsOpen(log)
    ensures Set(self, server, log, v, fast).Done?
    ensures var r, last := Set(self, server, log, v, fast).value, log[|log| - 1];
      if last.index == 1 || (|log| == 2 && log[0].chosen) then
        && r.code == 0 && r.write && r.alive.Some? && r.stepped.Some? && r.rsp.Some? && r.rsp.value.kind == Prop
        && r.stepped.value.index == last.index && r.stepped.value.accepted == last.accepted
        && r.rsp.value.proposed > PromisedNum(last)
        && r.alive.value.proposing == if last.accepted.Some? then Some(last.accepted.value.value) else Some(v)
      else r == LogReply(-11, log, None, None, false, None)
  {
    hide InsStep, LogStep;
    var last := log[|log| - 1];
    LastChosenIs(log);
    if last.index == 1 || (|log| == 2 && log[0].chosen) {
      var num := Past(Gen(self, 0), last.proposed).Get();
      var msg := ToSelf(TryProp, self, last.index, num, v);
      ReachesEntry(self, log, |log| - 1, Some(NewAlive(last.index, num)), msg);
      TryPropProposes(NewAlive(last.index, num), last, msg);
    }
  }

  // ---- indexes the log has passed ----

  // The instance decided last, if the log holds one.
  function DecidedLast(log: Log): Option<Instance> {
    if log == [] then None
    else if log[|log| - 1].chosen then Some(log[|log| - 1])
    else if |log| == 2 && log[0].chosen then Some(log[0])
    else None
  }

  // Whoever asks about, or proposes at, an index the log has passed is told what was decided last,
  // and nothing changes.
  lemma PassedIsTold(self: nat, log: Log, alive: Option<Alive>, msg: Msg)
    requires IsSlim(log) && log != [] && msg.to == self && msg.kind in {GetChosen, Prop, Accpt, FastAccpt}
    requires msg.index < log[0].index && (msg.index == 0 ==> msg.kind == GetChosen)
    requires DecidedLast(log).Some? ==> DecidedLast(log).value.accepted.Some? && DecidedLast(log).value.promised.Some?
    ensures var last := DecidedLast(log);
      LogStep(self, log, alive, msg) == Done(LogReply(0, log, alive,
        if last.None? then None
        else Some(Msg(ChosenMsg, self, msg.from, last.value.index, last.value.proposed, last.value.promised,
                      Some(last.value.accepted.value.num), Some(last.value.accepted.value.value))),
        false, None))
  {
    if !log[|log| - 1].chosen {
      LastChosenIs(log);
    }
  }
}
