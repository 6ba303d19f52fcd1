/**
  PaxosKV's instance and proposer in the form the program gives them: a stored instance and a
  proposer state that the message handlers overwrite.  Every method is tied to the function of
  module KvInstance that says what it computes; ok is false exactly when an assertion of the
  program would have failed.
 */
module PaxosInstance {
  import opened PropNum
  import opened KvInstance

  class PaxosInstance {
    const index: nat
    var proposed: nat
    var promised: Option<nat>
    var accepted: Option<Accepted>
    var chosen: bool

    function View(): Instance
      reads this
    {
      Instance(index, proposed, promised, accepted, chosen)
    }

    constructor (ins: Instance)
      ensures View() == ins
    {
      index, proposed, promised, accepted, chosen :=
        ins.index, ins.proposed, ins.promised, ins.accepted, ins.chosen;
    }

    method UpdatePromised(num: nat) returns (done: bool)
      modifies this
      ensures (done, View()) == KvInstance.UpdatePromised(num, old(View()))
    {
      if promised.Some? && promised.value > num {
        return false;
      }
      promised := Some(num);
      return true;
    }

    method UpdateAccepted(num: nat, value: Entry, fast: bool) returns (done: bool)
      modifies this
      ensures (done, View()) == KvInstance.UpdateAccepted(num, value, fast, old(View()))
    {
      if promised.Some? && promised.value > num {
        return false;
      }
      assert promised.None? || promised.value <= num;
      if fast && accepted.Some? {
        return false;
      }
      promised := Some(num);
      accepted := Some(Accepted(num, value));
      return true;
    }
  }

  lemma CountedOnceMore(s: set<nat>, left: set<nat>, p: nat)
    requires p in left
    ensures |s - (left - {p})| == |s - left| + if p in s then 1 else 0
  {
    assert s - (left - {p}) == (s - left) + ({p} * s);
    assert {p} * s == if p in s then {p} else {};
  }

  method CountVotes(votes: map<nat, bool>) returns (trueCnt: nat, falseCnt: nat)
    ensures trueCnt == |VotesFor(votes, true)| && falseCnt == |VotesFor(votes, false)|
  {
    trueCnt, falseCnt := 0, 0;
    var left := votes.Keys;
    ghost var yes, no := VotesFor(votes, true), VotesFor(votes, false);
    assert yes - left == {} && no - left == {};
    while left != {}
      invariant left <= votes.Keys
      invariant trueCnt == |yes - left| && falseCnt == |no - left|
      decreases left
    {
      var p :| p in left;
      CountedOnceMore(yes, left, p);
      CountedOnceMore(no, left, p);
      if votes[p] {
        trueCnt := trueCnt + 1;
      } else {
        falseCnt := falseCnt + 1;
      }
      left := left - {p};
    }
    assert yes - left == yes && no - left == no;
  }

  class PInsAliveState {
    const index: nat
    const gen: PropNumGen
    var state: PropState
    var activeCnt: nat
    var beginNum: nat
    var acceptedHint: nat
    var maxHint: nat
    var votes: map<nat, bool>
    var proposing: Option<Entry>

    function View(): Alive
      reads this, gen
    {
      Alive(index, gen.View(), state, activeCnt, beginNum, acceptedHint, maxHint, votes, proposing)
    }

    constructor (index: nat, proposedNum: nat)
      ensures View() == NewAlive(index, proposedNum) && fresh(gen)
    {
      this.index := index;
      gen := new PropNumGen.FromNumber(proposedNum);
      state, activeCnt, beginNum, acceptedHint, maxHint, votes, proposing := Nil, 0, 0, 0, 0, map[], None;
    }

    method MarkChosen()
      modifies this
      ensures View() == KvInstance.MarkChosen(old(View()))
    {
      state := StateChosen;
      votes := map[];
      proposing := None;
    }

    method UpdateRspVotes(peer: nat, vote: bool) returns (ok: bool)
      modifies this`votes
      ensures ok <==> AddVote(old(votes), peer, vote).Done?
      ensures ok ==> votes == AddVote(old(votes), peer, vote).value
    {
      if peer == 0 {
        return false;
      }
      if peer in votes {
        return votes[peer] == vote;
      }
      votes := votes[peer := vote];
      return true;
    }

    method TakeAcceptedHint(num: nat, value: Option<Entry>) returns (ok: bool)
      requires proposing.Some?
      modifies this`acceptedHint, this`proposing
      ensures ok <==> TakeHint(old(View()), num, value).Done?
      ensures ok ==> View() == TakeHint(old(View()), num, value).value
    {
      if value.None? {
        return true;
      }
      if num == 0 {
        return false;
      }
      if num >= acceptedHint {
        if num > acceptedHint {
          acceptedHint := num;
          proposing := value;
        } else if proposing != value {
          return false;
        }
      }
      return true;
    }

    method PrepareRsp(peer: nat, peerPromised: nat, peerAccepted: nat, value: Option<Entry>)
      returns (ok: bool, next: PropState)
      modifies this
      ensures ok <==> KvInstance.StepPrepareRsp(old(View()), peer, peerPromised, peerAccepted, value).Done?
      ensures ok ==> (View(), next) == KvInstance.StepPrepareRsp(old(View()), peer, peerPromised, peerAccepted, value).value
    {
      next := Nil;
      var proposedNum := gen.Get();
      if proposing.None? || proposedNum > peerPromised {
        return false, next;
      }
      ok := UpdateRspVotes(peer, proposedNum == peerPromised);
      if !ok {
        return;
      }
      ok := TakeAcceptedHint(peerAccepted, value);
      if !ok {
        return;
      }
      var promisedCnt, rejectCnt := CountVotes(votes);
      if rejectCnt >= MAJOR_CNT {
        next := Prepare;
      } else if promisedCnt + 1 >= MAJOR_CNT {
        next := Accept;
      } else {
        next := WaitPrepare;
      }
    }

    method AcceptRsp(peer: nat, peerAccepted: nat) returns (ok: bool, next: PropState)
      modifies this`votes
      ensures ok <==> KvInstance.StepAcceptRsp(old(View()), peer, peerAccepted).Done?
      ensures ok ==> (View(), next) == KvInstance.StepAcceptRsp(old(View()), peer, peerAccepted).value
    {
      next := Nil;
      var proposedNum := gen.Get();
      ok := UpdateRspVotes(peer, proposedNum == peerAccepted);
      if !ok {
        return;
      }
      var acceptCnt, rejectCnt := CountVotes(votes);
      if rejectCnt >= MAJOR_CNT {
        next := Prepare;
      } else if acceptCnt + 1 >= MAJOR_CNT {
        next := StateChosen;
      } else {
        next := WaitAccept;
      }
    }

    // Enter the prepare phase: count the attempt, move the number past everything heard of, and
    // promise it to oneself.
    method EnterPrepare(ins: PaxosInstance) returns (ok: bool, write: bool, kind: MsgType)
      modifies this, gen, ins
      ensures ok <==> BeginPrepare(old(View()), old(ins.View())).Done?
      ensures ok ==> Move(View(), ins.View(), write, kind) == BeginPrepare(old(View()), old(ins.View())).value
    {
      write, kind := false, Noop;
      state := Prepare;
      activeCnt := activeCnt + 1;
      if activeCnt > MAX_PROP_CNT {
        state := Frozen;
        return true, false, Noop;
      }
      if ins.promised.Some? {
        var _ := gen.Next(ins.promised.value);
      }
      var _ := gen.Update(Max(maxHint, acceptedHint));
      var num := gen.Get();
      if proposing.None? || num <= ins.proposed || num <= PromisedNum(ins.View()) {
        return false, false, Noop;
      }
      ins.proposed := num;
      if ins.accepted.Some? && acceptedHint < ins.accepted.value.num {
        acceptedHint := ins.accepted.value.num;
        proposing := Some(ins.accepted.value.value);
      }
      var done := ins.UpdatePromised(num);
      assert done;
      votes := map[];
      state := WaitPrepare;
      return true, true, Prop;
    }

    method EnterAccept(ins: PaxosInstance) returns (ok: bool, write: bool, kind: MsgType)
      modifies this, gen, ins
      ensures ok <==> BeginAccept(old(View()), old(ins.View())).Done?
      ensures ok ==> Move(View(), ins.View(), write, kind) == BeginAccept(old(View()), old(ins.View())).value
    {
      if proposing.None? {
        return false, false, Noop;
      }
      var done := ins.UpdateAccepted(gen.Get(), proposing.value, false);
      if !done {
        ok, write, kind := EnterPrepare(ins);
        return;
      }
      votes := map[];
      state := WaitAccept;
      return true, true, Accpt;
    }

    method UpdatePropState(next: PropState, ins: PaxosInstance) returns (ok: bool, write: bool, kind: MsgType)
      modifies this, gen, ins
      ensures ok <==> Enter(next, old(View()), old(ins.View())).Done?
      ensures ok ==> Move(View(), ins.View(), write, kind) == Enter(next, old(View()), old(ins.View())).value
    {
      match next
      case WaitPrepare => state := next; return true, false, Noop;
      case WaitAccept => state := next; return true, false, Noop;
      case StateChosen =>
        MarkChosen();
        return true, false, ChosenMsg;
      case Prepare => ok, write, kind := EnterPrepare(ins);
      case Accept => ok, write, kind := EnterAccept(ins);
      case _ => return false, false, Noop;
    }

    method OnPropRsp(ins: PaxosInstance, msg: Msg) returns (ok: bool, write: bool, kind: MsgType)
      modifies this, gen, ins
      ensures ok <==> KvInstance.OnPropRsp(old(View()), old(ins.View()), msg).Done?
      ensures ok ==> Move(View(), ins.View(), write, kind) == KvInstance.OnPropRsp(old(View()), old(ins.View()), msg).value
    {
      if proposing.None? {
        return false, false, Noop;
      }
      if state != WaitPrepare || ins.proposed != msg.proposed {
        return true, false, Noop;
      }
      var next := Prepare;
      if gen.Get() != msg.proposed {
        if gen.Get() < msg.proposed {
          return false, false, Noop;
        }
      } else {
        ok, next := PrepareRsp(msg.from, Or0(msg.promised), Or0(msg.accepted), msg.value);
        if !ok {
          return false, false, Noop;
        }
      }
      ok, write, kind := UpdatePropState(next, ins);
    }

    method OnAccptRsp(ins: PaxosInstance, msg: Msg) returns (ok: bool, write: bool, kind: MsgType)
      modifies this, gen, ins
      ensures ok <==> KvInstance.OnAccptRsp(old(View()), old(ins.View()), msg).Done?
      ensures ok ==> Move(View(), ins.View(), write, kind) == KvInstance.OnAccptRsp(old(View()), old(ins.View()), msg).value
    {
      if proposing.None? {
        return false, false, Noop;
      }
      if state != WaitAccept || ins.proposed != msg.proposed {
        return true, false, Noop;
      }
      if gen.Get() != msg.proposed || msg.accepted.None? || msg.value.Some? {
        return false, false, Noop;
      }
      var next: PropState;
      ok, next := AcceptRsp(msg.from, msg.accepted.value);
      if !ok || (next == StateChosen && !DecisionChecks(View(), ins.View(), msg.proposed)) {
        return false, false, Noop;
      }
      ok, write, kind := UpdatePropState(next, ins);
      if ok {
        if msg.promised.Some? {
          maxHint := Max(maxHint, msg.promised.value);
        }
        maxHint := Max(maxHint, msg.accepted.value);
      }
    }

    method OnTryProp(ins: PaxosInstance, msg: Msg) returns (ok: bool, write: bool, kind: MsgType)
      modifies this, gen, ins
      ensures ok <==> KvInstance.OnTryProp(old(View()), old(ins.View()), msg).Done?
      ensures ok ==> Move(View(), ins.View(), write, kind) == KvInstance.OnTryProp(old(View()), old(ins.View()), msg).value
    {
      var hint := msg.proposed;
      if CntOf(hint) == 0 {
        hint := Compose(0, 1);
      }
      if msg.value.None? {
        return false, false, Noop;
      }
      var _ := gen.Update(hint);
      activeCnt := 0;
      acceptedHint := 0;
      proposing := msg.value;
      votes := map[];
      ok, write, kind := UpdatePropState(Prepare, ins);
      if ok {
        beginNum := ins.proposed;
      }
    }

    method OnBeginProp(ins: PaxosInstance, msg: Msg) returns (ok: bool, write: bool, kind: MsgType)
      modifies this, gen, ins
      ensures ok <==> KvInstance.OnBeginProp(old(View()), old(ins.View()), msg).Done?
      ensures ok ==> Move(View(), ins.View(), write, kind) == KvInstance.OnBeginProp(old(View()), old(ins.View()), msg).value
    {
      if proposing.Some? || activeCnt != 0 || acceptedHint != 0 || msg.value.None? {
        return false, false, Noop;
      }
      if ins.promised.Some? {
        return true, false, Noop;
      }
      if state != Nil || ins.accepted.Some? {
        return false, false, Noop;
      }
      var hint := 0;
      if msg.kind == BeginProp {
        hint := Compose(0, 1);
      }
      var _ := gen.Update(hint);
      proposing := msg.value;
      ok, write, kind := UpdatePropState(Prepare, ins);
      if !ok {
        return;
      }
      if msg.kind != BeginProp {
        ok, write, kind := UpdatePropState(Accept, ins);
        if !ok || CntOf(ins.proposed) != 0 {
          return false, false, Noop;
        }
        kind := FastAccpt;
      }
      beginNum := ins.proposed;
    }

    method Step(ins: PaxosInstance, msg: Msg) returns (ok: bool, write: bool, kind: MsgType)
      modifies this, gen, ins
      ensures ok <==> AliveStep(old(View()), old(ins.View()), msg).Done?
      ensures ok ==> Move(View(), ins.View(), write, kind) == AliveStep(old(View()), old(ins.View()), msg).value
    {
      if index != msg.index || state == StateChosen {
        return false, false, Noop;
      }
      match msg.kind
      case PropRsp => ok, write, kind := OnPropRsp(ins, msg);
      case AccptRsp => ok, write, kind := OnAccptRsp(ins, msg);
      case FastAccptRsp => ok, write, kind := OnAccptRsp(ins, msg);
      case TryProp => ok, write, kind := OnTryProp(ins, msg);
      case TryRedoProp => ok, write, kind := OnTryProp(ins, msg);
      case BeginProp => ok, write, kind := OnBeginProp(ins, msg);
      case BeginFastProp => ok, write, kind := OnBeginProp(ins, msg);
      case _ => return false, false, Noop;
    }
  }

  // An instance together with the proposer that looks after it, if there is one.
  class PInsWrapper {
    const alive: PInsAliveState?
    const ins: PaxosInstance

    constructor (alive: PInsAliveState?, ins: PaxosInstance)
      ensures this.alive == alive && this.ins == ins
    {
      this.alive, this.ins := alive, ins;
    }

    function Proposer(): Option<Alive>
      reads this, alive, if alive == null then {} else {alive.gen}
    {
      if alive == null then None else Some(alive.View())
    }

    method MarkChosen()
      modifies ins`chosen, alive
      ensures ins.View() == old(ins.View()).(chosen := true)
      ensures Proposer() == if old(Proposer()).None? then None else Some(KvInstance.MarkChosen(old(Proposer()).value))
    {
      ins.chosen := true;
      if alive != null {
        alive.MarkChosen();
      }
    }

    method OnChosen(msg: Msg) returns (ok: bool, write: bool)
      modifies ins, alive
      ensures var o := KvInstance.OnChosen(old(Proposer()), old(ins.View()), msg);
        (ok <==> o.Done?) && (ok ==> Reply(Proposer(), ins.View(), write, None) == o.value)
    {
      write := false;
      if msg.value.None? {
        return false, false;
      }
      if ins.accepted.Some? && msg.proposed == ins.accepted.value.num {
        if ins.accepted.value.value != msg.value.value {
          return false, false;
        }
      } else {
        write := true;
        var gen := new PropNumGen(0, 100);
        var hint := Max(msg.proposed, PromisedNum(ins.View()));
        hint := Max(hint, ins.proposed);
        var num := gen.Next(hint);
        assert num > msg.proposed && num > PromisedNum(ins.View()) && num > ins.proposed;
        ins.proposed := num;
        var done := ins.UpdatePromised(num);
        assert done;
        done := ins.UpdateAccepted(num, msg.value.value, false);
        assert done;
      }
      MarkChosen();
      ok := true;
    }

    method OnAccpt(msg: Msg) returns (ok: bool, write: bool, rsp: Option<Msg>)
      modifies ins
      ensures var o := KvInstance.OnAccpt(old(Proposer()), old(ins.View()), msg);
        (ok <==> o.Done?) && (ok ==> Reply(old(Proposer()), ins.View(), write, rsp) == o.value)
    {
      if msg.value.None? {
        return false, false, None;
      }
      var fast := msg.kind == FastAccpt;
      write := ins.UpdateAccepted(msg.proposed, msg.value.value, fast);
      if ins.promised.None? {
        return false, write, None;
      }
      return true, write, Some(AccptRspOf(ins.View(), msg, if fast then FastAccptRsp else AccptRsp));
    }

    method ByProposer(msg: Msg) returns (ok: bool, write: bool, rsp: Option<Msg>)
      modifies ins, alive, if alive == null then {} else {alive.gen}
      ensures var o := KvInstance.ByProposer(old(Proposer()), old(ins.View()), msg);
        (ok <==> o.Done?) && (ok ==> Reply(Proposer(), ins.View(), write, rsp) == o.value)
    {
      if alive == null {
        return true, false, None;
      }
      var kind: MsgType;
      ok, write, kind := alive.Step(ins, msg);
      if !ok {
        return false, false, None;
      }
      var out := Announce(alive.View(), ins.View(), msg, kind);
      if out.Abort? {
        return false, false, None;
      }
      rsp := out.value;
      if kind == ChosenMsg {
        MarkChosen();
      }
    }

    method Step(msg: Msg) returns (ok: bool, write: bool, rsp: Option<Msg>)
      modifies ins, alive, if alive == null then {} else {alive.gen}
      ensures var o := InsStep(old(Proposer()), old(ins.View()), msg);
        (ok <==> o.Done?) && (ok ==> Reply(Proposer(), ins.View(), write, rsp) == o.value)
    {
      write, rsp := false, None;
      if ins.chosen {
        var out := StepChosen(Proposer(), ins.View(), msg);
        if out.Abort? {
          return false, false, None;
        }
        return true, false, out.value.rsp;
      }
      match msg.kind
      case Noop => ok := true;
      case GetChosen => ok := true;
      case ChosenMsg => ok, write := OnChosen(msg);
      case Prop =>
        write := ins.UpdatePromised(msg.proposed);
        return true, write, Some(PropRspOf(ins.View(), msg));
      case Accpt => ok, write, rsp := OnAccpt(msg);
      case FastAccpt => ok, write, rsp := OnAccpt(msg);
      case _ => ok, write, rsp := ByProposer(msg);
    }
  }
}
