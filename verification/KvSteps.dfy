/** What every message to one instance of PaxosKV keeps. */
module KvStepProof {
  import opened PropNum
  import opened KvInstance
  import opened KvProtocol
  import opened VoteBook
  import opened KvInstanceProof

  // No proposal appears that skipped the prepare round.
  ghost predicate NoNewFast(b: Book<Entry>, b': Book<Entry>) {
    forall k :: k in b'.proposed ==> k in b.proposed || CntOf(k) > 0
  }

  // A proposer's move: whether its write succeeds or fails, the proposer is left in order.
  ghost predicate MoveOk(b: Book<Entry>, i: nat, ins: Instance, m: Move)
    requires |b.floor| == 3 && i < 3
  {
    var b' := RecordIns(b, i, m.ins);
    && BookOk(b') && MovedBy(b, b', i)
    && InsOk(b', i, m.ins) && !m.ins.chosen && m.ins.index == ins.index
    && (!m.write ==> m.ins == ins)
    && AliveOk(b', i, m.alive, m.ins) && AliveOk(b, i, m.alive, ins)
    && (m.kind == Accpt || m.kind == FastAccpt ==> m.alive.gen.Get() in b'.proposed && m.alive.state == WaitAccept)
    && (m.kind == ChosenMsg ==> m.ins.accepted.Some? && Decided(b, m.ins.accepted.value.value))
    && OnWire(m.kind)
  }

  ghost predicate OtherMembers(votes: map<nat, bool>, i: nat) {
    forall p :: p in votes ==> 1 <= p <= 3 && p != i + 1
  }

  // ---- the prepare phase ----

  lemma PrepareNumber(a: Alive, ins: Instance)
    requires BeginPrepare(a, ins).Done? && BeginPrepare(a, ins).value.write
    requires CntOf(a.gen.Get()) > 0 || a.gen.Get() <= PromisedNum(ins)
    ensures var m := BeginPrepare(a, ins).value; var num := m.alive.gen.Get();
      && m.alive.gen.id == a.gen.id && CntOf(num) > 0 && num > PromisedNum(ins) && num > ins.proposed
      && m.ins == ins.(proposed := num, promised := Some(num))
  {
    NumbersAreLexicographic(a.gen.Get(), BeginPrepare(a, ins).value.alive.gen.Get());
  }

  // A number above the own promise has never been proposed: its only proposer is this member.
  lemma OwnNumberIsNew(b: Book<Entry>, i: nat, ins: Instance, num: nat)
    requires BookOk(b) && i < 3 && InsOk(b, i, ins) && !ins.chosen
    requires num > PromisedNum(ins) && IdOf(num) == i + 1
    ensures num !in b.proposed
  {
  }

  lemma PreparedAliveOk(b: Book<Entry>, b': Book<Entry>, i: nat, a: Alive, ins: Instance)
    requires |b.floor| == 3 && |b'.floor| == 3 && i < 3 && a.votes == map[] && a.gen.id == i + 1
    requires InsOk(b', i, ins) && !ins.chosen && PromisedNum(ins) == a.gen.Get() && CntOf(a.gen.Get()) > 0
    requires a.gen.Get() !in b'.proposed && HintOk(b', a.acceptedHint, a.proposing)
    requires ins.accepted.Some? ==> ins.accepted.value.num <= a.acceptedHint
    ensures AliveOk(b', i, a, ins)
  {
  }

  lemma PrepareOk(b: Book<Entry>, i: nat, a: Alive, ins: Instance)
    requires BookOk(b) && i < 3 && InsOk(b, i, ins) && !ins.chosen
    requires a.gen.id == i + 1 && HintOk(b, a.acceptedHint, a.proposing) && OtherMembers(a.votes, i)
    requires CntOf(a.gen.Get()) > 0 || a.gen.Get() <= PromisedNum(ins)
    requires BeginPrepare(a, ins).Done?
    ensures MoveOk(b, i, ins, BeginPrepare(a, ins).value)
    ensures RecordIns(b, i, BeginPrepare(a, ins).value.ins).proposed == b.proposed
    ensures BeginPrepare(a, ins).value.alive.index == a.index
  {
    var m := BeginPrepare(a, ins).value;
    RecordAgain(b, i, ins);
    if m.write {
      PrepareNumber(a, ins);
      var num := m.alive.gen.Get();
      RecordPromise(b, i, ins, num, num);
      OwnNumberIsNew(b, i, ins, num);
      PreparedAliveOk(b, RecordIns(b, i, m.ins), i, m.alive, m.ins);
    }
  }

  // ---- the accept phase ----

  lemma AcceptOk(b: Book<Entry>, i: nat, a: Alive, ins: Instance)
    requires BookOk(b) && i < 3 && InsOk(b, i, ins) && !ins.chosen
    requires a.gen.id == i + 1 && HintOk(b, a.acceptedHint, a.proposing) && OtherMembers(a.votes, i)
    requires CntOf(a.gen.Get()) > 0 && a.gen.Get() !in b.proposed && SafeAt(b, a.gen.Get(), a.proposing.value)
    requires BeginAccept(a, ins).Done?
    ensures MoveOk(b, i, ins, BeginAccept(a, ins).value)
    ensures NoNewFast(b, RecordIns(b, i, BeginAccept(a, ins).value.ins))
    ensures BeginAccept(a, ins).value.alive.index == a.index
  {
    var num := a.gen.Get();
    if ins.promised.Some? && ins.promised.value > num {
      PrepareOk(b, i, a, ins);
    } else {
      RecordProposal(b, i, ins, num, a.proposing.value);
    }
  }

  // Two members that promised the number make the hint's value safe to propose, even when the
  // hint came with a rejection and lies above the number.
  lemma HintIsSafe(b: Book<Entry>, i: nat, p: nat, hint: nat, num: nat, v: Entry)
    requires BookOk(b) && i < 3 && p < 3 && i != p
    requires HintOk(b, hint, Some(v)) && Promises(b, i, hint, num) && Promises(b, p, hint, num)
    ensures SafeAt(b, num, v)
  {
    if hint >= num {
      forall k | 0 < k < num ensures Harmless(b, k, v) {
        assert SafeAt(b, hint, v);
      }
    } else {
      assert Quorum({i, p}, |b.floor|);
      PreparedIsSafe(b, {i, p}, num, hint, v);
    }
  }

  lemma TakeHintOk(b: Book<Entry>, i: nat, a: Alive, own: Instance, num: nat, value: Option<Entry>)
    requires |b.floor| == 3 && i < 3 && HintOk(b, a.acceptedHint, a.proposing) && PreparedOk(b, i, a, own)
    requires (value.Some? ==> HintOk(b, num, value)) && TakeHint(a, num, value).Done?
    ensures var a' := TakeHint(a, num, value).value;
      && HintOk(b, a'.acceptedHint, a'.proposing) && PreparedOk(b, i, a', own)
      && a' == a.(acceptedHint := a'.acceptedHint, proposing := a'.proposing)
      && a'.acceptedHint >= a.acceptedHint && (value.Some? ==> a'.acceptedHint >= num)
  {
  }

  lemma CountedVote(votes: map<nat, bool>, vote: bool) returns (p: nat)
    requires |VotesFor(votes, vote)| >= 1
    ensures p in votes && votes[p] == vote
  {
    p :| p in VotesFor(votes, vote);
  }

  lemma PromiseHeard(b: Book<Entry>, msg: Msg, hint: nat)
    requires |b.floor| == 3 && MsgOk(b, msg) && msg.kind == PropRsp && hint >= Or0(msg.accepted)
    ensures Promises(b, msg.from - 1, hint, msg.promised.value)
  {
  }

  // The promise of one more member.
  lemma OneMorePromise(b: Book<Entry>, i: nat, a: Alive, own: Instance, p: nat, vote: bool)
    requires |b.floor| == 3 && i < 3 && PreparedOk(b, i, a, own) && 1 <= p <= 3
    requires vote ==> Promises(b, p - 1, a.acceptedHint, a.gen.Get())
    ensures PreparedOk(b, i, a.(votes := a.votes[p := vote]), own)
  {
  }

  // The promise that comes with a response, once the response's own accepted number is a hint.
  lemma PrepareVoteOk(b: Book<Entry>, i: nat, a: Alive, own: Instance, msg: Msg)
    requires BookOk(b) && i < 3 && AliveOk(b, i, a, own) && a.state == WaitPrepare
    requires MsgOk(b, msg) && msg.kind == PropRsp && msg.from != i + 1
    requires StepPrepareRsp(a, msg.from, Or0(msg.promised), Or0(msg.accepted), msg.value).Done?
    ensures var (a', next) := StepPrepareRsp(a, msg.from, Or0(msg.promised), Or0(msg.accepted), msg.value).value;
      && AliveOk(b, i, a', own) && a'.state == WaitPrepare && a'.gen == a.gen && a'.index == a.index
      && next in {Prepare, Accept, WaitPrepare}
      && (next == Accept ==> |VotesFor(a'.votes, true)| >= 1)
  {
    hide Consistent, Decided, AcceptedOk, Gap, Promises;
    var vote := msg.promised.value == a.gen.Get();
    var a1 := a.(votes := a.votes[msg.from := vote]);
    var a2 := TakeHint(a, Or0(msg.accepted), msg.value).value;
    TakeHintOk(b, i, a, own, Or0(msg.accepted), msg.value);
    PromiseHeard(b, msg, a2.acceptedHint);
    OneMorePromise(b, i, a2, own, msg.from, vote);
    assert TakeHint(a1, Or0(msg.accepted), msg.value).value == a2.(votes := a1.votes);
  }

  lemma OnPropRspOk(b: Book<Entry>, i: nat, a: Alive, ins: Instance, msg: Msg)
    requires BookOk(b) && i < 3 && InsOk(b, i, ins) && !ins.chosen && AliveOk(b, i, a, ins)
    requires MsgOk(b, msg) && msg.kind == PropRsp && msg.from != i + 1 && a.state != StateChosen
    requires OnPropRsp(a, ins, msg).Done?
    ensures MoveOk(b, i, ins, OnPropRsp(a, ins, msg).value)
    ensures NoNewFast(b, RecordIns(b, i, OnPropRsp(a, ins, msg).value.ins))
    ensures OnPropRsp(a, ins, msg).value.alive.index == a.index
  {
    RecordAgain(b, i, ins);
    if a.state == WaitPrepare && ins.proposed == msg.proposed {
      if a.gen.Get() != msg.proposed {
        PrepareOk(b, i, a, ins);
      } else {
        PrepareVoteOk(b, i, a, ins, msg);
        var (a', next) := StepPrepareRsp(a, msg.from, Or0(msg.promised), Or0(msg.accepted), msg.value).value;
        if next == Prepare {
          PrepareOk(b, i, a', ins);
        } else if next == Accept {
          var p := CountedVote(a'.votes, true);
          HintIsSafe(b, i, p - 1, a'.acceptedHint, a'.gen.Get(), a'.proposing.value);
          AcceptOk(b, i, a', ins);
        }
      }
    }
  }

  // ---- the decision ----

  // When one other member accepted the proposer's number, the number is chosen, and whatever
  // the proposer has accepted since carries the same value.
  lemma AcceptedByPeer(b: Book<Entry>, i: nat, a: Alive, ins: Instance, p: nat)
    requires BookOk(b) && i < 3 && InsOk(b, i, ins) && !ins.chosen && AliveOk(b, i, a, ins)
    requires a.state == WaitAccept && p in a.votes && a.votes[p]
    ensures a.gen.Get() in b.proposed && Chosen(b, a.gen.Get())
    ensures DecisionChecks(a, ins, a.gen.Get())
    ensures Decided(b, ins.accepted.value.value)
  {
    var num := a.gen.Get();
    assert (p - 1, num) in b.votes;
    assert (i, num) in b.votes;
    assert Quorum({i, p - 1}, |b.floor|) && VotedBy(b, {i, p - 1}, num);
    if num < ins.accepted.value.num {
      ChosenIsFinal(b, num, ins.accepted.value.num);
    }
  }

  lemma AcceptVoteOk(b: Book<Entry>, i: nat, a: Alive, own: Instance, msg: Msg)
    requires BookOk(b) && i < 3 && AliveOk(b, i, a, own) && a.state == WaitAccept
    requires MsgOk(b, msg) && (msg.kind == AccptRsp || msg.kind == FastAccptRsp) && msg.from != i + 1
    requires StepAcceptRsp(a, msg.from, msg.accepted.value).Done? && a.gen.Get() > 0
    ensures var (a', next) := StepAcceptRsp(a, msg.from, msg.accepted.value).value;
      && AliveOk(b, i, a', own) && a'.state == WaitAccept && a'.gen == a.gen && a'.index == a.index
      && next in {Prepare, StateChosen, WaitAccept}
      && (next == StateChosen ==> |VotesFor(a'.votes, true)| >= 1)
  {
    hide Consistent, Decided, Gap, Promises, PreparedOk;
  }

  // The checks before a decision is announced never fail.
  lemma DecisionNeverAborts(b: Book<Entry>, i: nat, a: Alive, ins: Instance, msg: Msg)
    requires BookOk(b) && i < 3 && InsOk(b, i, ins) && !ins.chosen && AliveOk(b, i, a, ins)
    requires MsgOk(b, msg) && (msg.kind == AccptRsp || msg.kind == FastAccptRsp) && msg.from != i + 1
    requires a.state == WaitAccept && ins.proposed == msg.proposed == a.gen.Get()
    requires StepAcceptRsp(a, msg.from, msg.accepted.value).Done?
    ensures var (a', next) := StepAcceptRsp(a, msg.from, msg.accepted.value).value;
      next == StateChosen ==> DecisionChecks(a', ins, msg.proposed) && Decided(b, ins.accepted.value.value)
  {
    AcceptVoteOk(b, i, a, ins, msg);
    var (a', next) := StepAcceptRsp(a, msg.from, msg.accepted.value).value;
    if next == StateChosen {
      var p := CountedVote(a'.votes, true);
      AcceptedByPeer(b, i, a', ins, p);
    }
  }

  lemma OnAccptRspOk(b: Book<Entry>, i: nat, a: Alive, ins: Instance, msg: Msg)
    requires BookOk(b) && i < 3 && InsOk(b, i, ins) && !ins.chosen && AliveOk(b, i, a, ins)
    requires MsgOk(b, msg) && (msg.kind == AccptRsp || msg.kind == FastAccptRsp) && msg.from != i + 1
    requires OnAccptRsp(a, ins, msg).Done? && a.state != StateChosen
    ensures MoveOk(b, i, ins, OnAccptRsp(a, ins, msg).value)
    ensures NoNewFast(b, RecordIns(b, i, OnAccptRsp(a, ins, msg).value.ins))
    ensures OnAccptRsp(a, ins, msg).value.alive.index == a.index
  {
    hide Consistent, MovedBy, RecordIns, Promises, Decided;
    SameMoves(b, i);
    RecordAgain(b, i, ins);
    if a.state == WaitAccept && ins.proposed == msg.proposed {
      AcceptVoteOk(b, i, a, ins, msg);
      DecisionNeverAborts(b, i, a, ins, msg);
      var (a', next) := StepAcceptRsp(a, msg.from, msg.accepted.value).value;
      if next == Prepare {
        PrepareOk(b, i, a', ins);
        var m := OnAccptRsp(a, ins, msg).value;
        HintAside(b, i, ins, BeginPrepare(a', ins).value, m.alive.maxHint, m.alive.beginNum);
      }
    }
  }

  // The largest number heard of and the first number tried matter to no promise and no vote.
  lemma HintAside(b: Book<Entry>, i: nat, ins: Instance, m: Move, hint: nat, begin: nat)
    requires |b.floor| == 3 && i < 3 && MoveOk(b, i, ins, m)
    ensures MoveOk(b, i, ins, m.(alive := m.alive.(maxHint := hint, beginNum := begin)))
  {
    hide BookOk, MovedBy, InsOk, RecordIns, HintOk, Promises, Decided;
  }

  // ---- starting a proposal ----

  lemma OnTryPropOk(b: Book<Entry>, i: nat, a: Alive, ins: Instance, msg: Msg)
    requires BookOk(b) && i < 3 && InsOk(b, i, ins) && !ins.chosen && a.gen.id == i + 1
    requires OnTryProp(a, ins, msg).Done?
    ensures MoveOk(b, i, ins, OnTryProp(a, ins, msg).value)
    ensures NoNewFast(b, RecordIns(b, i, OnTryProp(a, ins, msg).value.ins))
    ensures OnTryProp(a, ins, msg).value.alive.index == a.index
  {
    hide Consistent, InsOk, MoveOk, RecordIns, BeginPrepare;
    var hint := if CntOf(msg.proposed) == 0 then Compose(0, 1) else msg.proposed;
    NumbersAreLexicographic(Raised(a.gen, hint).Get(), hint);
    var a' := a.(gen := Raised(a.gen, hint), activeCnt := 0, acceptedHint := 0,
                 proposing := msg.value, votes := map[]);
    PrepareOk(b, i, a', ins);
    var m := BeginPrepare(a', ins).value;
    HintAside(b, i, ins, m, m.alive.maxHint, m.ins.proposed);
  }

  lemma OnBeginPropOk(b: Book<Entry>, i: nat, a: Alive, ins: Instance, msg: Msg)
    requires BookOk(b) && i < 3 && InsOk(b, i, ins) && !ins.chosen && AliveOk(b, i, a, ins)
    requires OnBeginProp(a, ins, msg).Done? && msg.kind == BeginProp
    ensures MoveOk(b, i, ins, OnBeginProp(a, ins, msg).value)
    ensures NoNewFast(b, RecordIns(b, i, OnBeginProp(a, ins, msg).value.ins))
    ensures OnBeginProp(a, ins, msg).value.alive.index == a.index
  {
    RecordAgain(b, i, ins);
    if ins.promised.None? {
      var g := Raised(a.gen, Compose(0, 1));
      NumbersAreLexicographic(g.Get(), Compose(0, 1));
      PrepareOk(b, i, a.(gen := g, proposing := msg.value, votes := map[]), ins);
      assert BeginPrepare(a.(gen := g, proposing := msg.value, votes := map[]), ins)
          == BeginPrepare(a.(gen := g, proposing := msg.value), ins);
    }
  }

  // A new proposer on a blank instance takes its own round-free number.
  lemma FastNumber(b: Book<Entry>, i: nat, index: nat, ins: Instance, msg: Msg)
    requires |b.floor| == 3 && i < 3 && ins == Blank(index)
    requires var a := NewAlive(index, Compose(i + 1, 0));
      OnBeginProp(a, ins, msg).Done? && msg.kind == BeginFastProp
    ensures msg.value.Some?
    ensures var a := NewAlive(index, Compose(i + 1, 0)); var m := OnBeginProp(a, ins, msg).value;
      && m.alive.gen.Get() == i + 1 && m.alive.gen.id == i + 1 && m.alive.state == WaitAccept
      && m.alive.votes == map[] && m.alive.proposing == msg.value && m.alive.acceptedHint == 0
      && m.ins == ins.(proposed := i + 1, promised := Some(i + 1), accepted := Some(Accepted(i + 1, msg.value.value)))
      && m.write && m.kind == FastAccpt && m.alive.index == index
  {
    assert FromNum(Compose(i + 1, 0)) == Gen(i + 1, 0);
  }

  // A blank instance fits a member that has left no trace.
  lemma BlankIsOk(b: Book<Entry>, i: nat, index: nat)
    requires |b.floor| == 3 && i < 3 && NoTrace(b, i)
    ensures InsOk(b, i, Blank(index))
  {
  }

  // Promising and voting in one write is recorded like one after the other.
  lemma FastRecorded(b: Book<Entry>, i: nat, ins: Instance, v: Entry)
    requires BookOk(b) && i < 3 && InsOk(b, i, ins) && !ins.chosen && ins.promised.None? && ins.accepted.None?
    requires forall k :: k in b.proposed ==> CntOf(k) > 0
    ensures var ins' := ins.(proposed := i + 1, promised := Some(i + 1), accepted := Some(Accepted(i + 1, v)));
      var b' := RecordIns(b, i, ins');
      BookOk(b') && MovedBy(b, b', i) && InsOk(b', i, ins') && b'.proposed == b.proposed[i + 1 := v]
  {
    hide Consistent, Decided;
    var ins1 := ins.(promised := Some(i + 1), proposed := i + 1);
    var ins2 := ins1.(accepted := Some(Accepted(i + 1, v)));
    assert IdOf(i + 1) == i + 1 && CntOf(i + 1) == 0;
    RecordPromise(b, i, ins, i + 1, i + 1);
    var b1 := RecordIns(b, i, ins1);
    RecordFastProposal(b1, i, ins1, i + 1, v);
    assert b1 == Raise(b, i, i + 1);
    ExtendsTransitive(b, b1, RecordIns(b1, i, ins2));
    assert RecordIns(b1, i, ins2) == RecordIns(b, i, ins2);
  }

  lemma FastAliveOk(b: Book<Entry>, i: nat, a: Alive, own: Instance)
    requires |b.floor| == 3 && i < 3 && a.gen.id == i + 1 && a.state == WaitAccept && a.votes == map[]
    requires a.acceptedHint == 0 && a.proposing.Some?
    requires a.gen.Get() in b.proposed ==> b.proposed[a.gen.Get()] == a.proposing.value
    ensures AliveOk(b, i, a, own)
  {
  }

  lemma OnBeginFastOk(b: Book<Entry>, i: nat, index: nat, ins: Instance, msg: Msg)
    requires BookOk(b) && i < 3 && NoTrace(b, i) && ins == Blank(index)
    requires forall k :: k in b.proposed ==> CntOf(k) > 0
    requires var a := NewAlive(index, Compose(i + 1, 0));
      OnBeginProp(a, ins, msg).Done? && msg.kind == BeginFastProp
    ensures var m := OnBeginProp(NewAlive(index, Compose(i + 1, 0)), ins, msg).value;
      && MoveOk(b, i, ins, m) && m.alive.index == index
      && RecordIns(b, i, m.ins).proposed == b.proposed[i + 1 := msg.value.value]
  {
    hide OnBeginProp, Consistent, Decided, AliveOk, MovedBy, InsOk;
    FastNumber(b, i, index, ins, msg);
    var m := OnBeginProp(NewAlive(index, Compose(i + 1, 0)), ins, msg).value;
    assert IdOf(i + 1) == i + 1 && CntOf(i + 1) == 0;
    BlankIsOk(b, i, index);
    FastRecorded(b, i, ins, msg.value.value);
    FastAliveOk(b, i, m.alive, ins);
    FastAliveOk(RecordIns(b, i, m.ins), i, m.alive, m.ins);
  }

  // ---- a message to an instance ----

  // What a reply leaves behind, whether its write succeeds or fails.
  ghost predicate ReplyOk(b: Book<Entry>, i: nat, ins: Instance, r: Reply)
    requires |b.floor| == 3 && i < 3
  {
    var b' := RecordIns(b, i, r.ins);
    && BookOk(b') && MovedBy(b, b', i) && InsOk(b', i, r.ins) && r.ins.index == ins.index
    && (!r.write ==> r.ins == ins || (r.ins.chosen && !ins.chosen))
    && (ins.chosen ==> r.ins == ins)
    && (r.rsp.Some? ==> MsgOk(b', r.rsp.value) && r.rsp.value.index == ins.index)
    && (r.alive.Some? ==>
          && r.alive.value.index == ins.index
          && AliveOk(b', i, r.alive.value, r.ins) && AliveOk(b, i, r.alive.value, ins))
  }

  // The proposer handed to a step is in order and belongs to the index.
  ghost predicate HandedOk(b: Book<Entry>, i: nat, alive: Option<Alive>, ins: Instance)
    requires |b.floor| == 3 && i < 3
  {
    alive.Some? ==> alive.value.index == ins.index && AliveOk(b, i, alive.value, ins)
  }

  // A message from another member, addressed to this one.
  ghost predicate Arrives(b: Book<Entry>, i: nat, msg: Msg)
    requires |b.floor| == 3
  {
    MsgOk(b, msg) && msg.to == i + 1
  }

  lemma ChosenReplyOk(b: Book<Entry>, i: nat, ins: Instance, msg: Msg)
    requires |b.floor| == 3 && i < 3 && InsOk(b, i, ins) && ins.chosen
    requires msg.to == i + 1 && msg.from != msg.to
    ensures MsgOk(b, ChosenReply(ins, msg))
  {
  }

  // A decided instance only ever tells its decision.
  lemma StepChosenShape(alive: Option<Alive>, ins: Instance, msg: Msg)
    requires StepChosen(alive, ins, msg).Done?
    ensures ins.accepted.Some? && ins.promised.Some?
    ensures var r := StepChosen(alive, ins, msg).value;
      && r == Reply(alive, ins, false, r.rsp)
      && (r.rsp.Some? ==> msg.kind in {GetChosen, Prop, Accpt, FastAccpt} && r.rsp.value == ChosenReply(ins, msg))
  {
  }

  lemma StepChosenOk(b: Book<Entry>, i: nat, alive: Option<Alive>, ins: Instance, msg: Msg)
    requires BookOk(b) && i < 3 && InsOk(b, i, ins) && ins.chosen && HandedOk(b, i, alive, ins)
    requires msg.index == ins.index && msg.to == i + 1 && StepChosen(alive, ins, msg).Done?
    requires msg.kind in {GetChosen, Prop, Accpt, FastAccpt} ==> msg.from != msg.to
    ensures ReplyOk(b, i, ins, StepChosen(alive, ins, msg).value)
  {
    RecordAgain(b, i, ins);
    StepChosenShape(alive, ins, msg);
    if StepChosen(alive, ins, msg).value.rsp.Some? {
      ChosenReplyOk(b, i, ins, msg);
    }
  }

  // What a proposer knows of its own instance is what it proposed there.
  lemma SameProposal(b: Book<Entry>, i: nat, a: Alive, own: Instance, own': Instance)
    requires |b.floor| == 3 && i < 3 && AliveOk(b, i, a, own)
    requires own.proposed == own'.proposed && own.chosen == own'.chosen
    ensures AliveOk(b, i, a, own')
  {
  }

  lemma SameMoves(b: Book<Entry>, i: nat)
    ensures MovedBy(b, b, i)
  {
  }

  lemma PropRspOk(b: Book<Entry>, i: nat, ins: Instance, msg: Msg)
    requires |b.floor| == 3 && i < 3 && InsOk(b, i, ins) && !ins.chosen && ins.promised.Some?
    requires msg.to == i + 1 && msg.from != msg.to
    ensures MsgOk(b, PropRspOf(ins, msg)) && PropRspOf(ins, msg).index == msg.index
  {
  }

  lemma AccptRspOk(b: Book<Entry>, i: nat, ins: Instance, msg: Msg, kind: MsgType)
    requires |b.floor| == 3 && i < 3 && InsOk(b, i, ins) && !ins.chosen && kind in {AccptRsp, FastAccptRsp}
    requires msg.to == i + 1 && msg.from != msg.to
    ensures MsgOk(b, AccptRspOf(ins, msg, kind)) && AccptRspOf(ins, msg, kind).index == msg.index
  {
  }

  lemma OnPropOk(b: Book<Entry>, i: nat, alive: Option<Alive>, ins: Instance, msg: Msg)
    requires BookOk(b) && i < 3 && InsOk(b, i, ins) && !ins.chosen && HandedOk(b, i, alive, ins)
    requires Arrives(b, i, msg) && msg.kind == Prop && msg.index == ins.index
    ensures StepNotChosen(alive, ins, msg).Done? && ReplyOk(b, i, ins, StepNotChosen(alive, ins, msg).value)
    ensures RecordIns(b, i, StepNotChosen(alive, ins, msg).value.ins).proposed == b.proposed
  {
    hide Consistent, MovedBy, RecordIns, AliveOk, HintOk, Decided, Gap, PropRspOf;
    SameMoves(b, i);
    RecordAgain(b, i, ins);
    var r := StepNotChosen(alive, ins, msg).value;
    if UpdatePromised(msg.proposed, ins).0 {
      RecordPromise(b, i, ins, msg.proposed, ins.proposed);
      if alive.Some? {
        var ins' := ins.(promised := Some(msg.proposed));
        AliveOkStays(b, RecordIns(b, i, ins'), i, alive.value, ins);
        SameProposal(RecordIns(b, i, ins'), i, alive.value, ins, ins');
      }
    }
    PropRspOk(RecordIns(b, i, r.ins), i, r.ins, msg);
  }

  lemma OnAccptOk(b: Book<Entry>, i: nat, alive: Option<Alive>, ins: Instance, msg: Msg)
    requires BookOk(b) && i < 3 && InsOk(b, i, ins) && !ins.chosen && HandedOk(b, i, alive, ins)
    requires Arrives(b, i, msg) && msg.kind in {Accpt, FastAccpt} && msg.index == ins.index
    requires OnAccpt(alive, ins, msg).Done?
    ensures ReplyOk(b, i, ins, OnAccpt(alive, ins, msg).value)
    ensures RecordIns(b, i, OnAccpt(alive, ins, msg).value.ins).proposed == b.proposed
  {
    hide Consistent, MovedBy, RecordIns, AliveOk, Decided, AccptRspOf;
    SameMoves(b, i);
    RecordAgain(b, i, ins);
    var r := OnAccpt(alive, ins, msg).value;
    if UpdateAccepted(msg.proposed, msg.value.value, msg.kind == FastAccpt, ins).0 {
      RecordVote(b, i, ins, msg.proposed);
      if alive.Some? {
        var ins' := ins.(promised := Some(msg.proposed), accepted := Some(Accepted(msg.proposed, msg.value.value)));
        AliveOkStays(b, RecordIns(b, i, ins'), i, alive.value, ins);
        SameProposal(RecordIns(b, i, ins'), i, alive.value, ins, ins');
      }
    }
    AccptRspOk(RecordIns(b, i, r.ins), i, r.ins, msg, if msg.kind == FastAccpt then FastAccptRsp else AccptRsp);
  }

  lemma OnChosenOk(b: Book<Entry>, i: nat, alive: Option<Alive>, ins: Instance, msg: Msg)
    requires BookOk(b) && i < 3 && InsOk(b, i, ins) && !ins.chosen && HandedOk(b, i, alive, ins)
    requires Arrives(b, i, msg) && msg.kind == ChosenMsg && msg.index == ins.index
    requires OnChosen(alive, ins, msg).Done?
    ensures ReplyOk(b, i, ins, OnChosen(alive, ins, msg).value)
    ensures OnChosen(alive, ins, msg).value.ins.chosen
  {
    hide Decided, Consistent, Gap, Promises, HintOk;
  }

  lemma AliveStepOk(b: Book<Entry>, i: nat, a: Alive, ins: Instance, msg: Msg)
    requires BookOk(b) && i < 3 && InsOk(b, i, ins) && !ins.chosen && AliveOk(b, i, a, ins)
    requires msg.kind in {PropRsp, AccptRsp, FastAccptRsp} ==> Arrives(b, i, msg)
    requires msg.kind != BeginFastProp && AliveStep(a, ins, msg).Done?
    ensures MoveOk(b, i, ins, AliveStep(a, ins, msg).value)
    ensures NoNewFast(b, RecordIns(b, i, AliveStep(a, ins, msg).value.ins))
    ensures AliveStep(a, ins, msg).value.alive.index == a.index
  {
    match msg.kind
    case PropRsp => OnPropRspOk(b, i, a, ins, msg);
    case AccptRsp => OnAccptRspOk(b, i, a, ins, msg);
    case FastAccptRsp => OnAccptRspOk(b, i, a, ins, msg);
    case TryProp => OnTryPropOk(b, i, a, ins, msg);
    case TryRedoProp => OnTryPropOk(b, i, a, ins, msg);
    case BeginProp => OnBeginPropOk(b, i, a, ins, msg);
    case _ =>
  }

  lemma AnnounceOk(b: Book<Entry>, i: nat, ins: Instance, m: Move, msg: Msg)
    requires |b.floor| == 3 && i < 3 && MoveOk(b, i, ins, m) && msg.to == i + 1 && msg.index == ins.index
    requires Announce(m.alive, m.ins, msg, m.kind).Done? && Announce(m.alive, m.ins, msg, m.kind).value.Some?
    requires m.kind == ChosenMsg ==> !m.write && RecordIns(b, i, m.ins) == b
    ensures var rsp := Announce(m.alive, m.ins, msg, m.kind).value.value;
      MsgOk(RecordIns(b, i, m.ins), rsp) && rsp.index == ins.index
  {
  }

  lemma MoveIsReply(b: Book<Entry>, i: nat, alive: Option<Alive>, ins: Instance, msg: Msg)
    requires BookOk(b) && i < 3 && InsOk(b, i, ins) && !ins.chosen && alive.Some? && alive.value.index == ins.index
    requires msg.to == i + 1 && msg.index == ins.index && ByProposer(alive, ins, msg).Done?
    requires MoveOk(b, i, ins, AliveStep(alive.value, ins, msg).value)
    requires AliveStep(alive.value, ins, msg).value.alive.index == alive.value.index
    requires AliveStep(alive.value, ins, msg).value.kind == ChosenMsg ==> !AliveStep(alive.value, ins, msg).value.write
    ensures ReplyOk(b, i, ins, ByProposer(alive, ins, msg).value)
    ensures ByProposer(alive, ins, msg).value.ins.(chosen := false) == AliveStep(alive.value, ins, msg).value.ins
  {
    var m := AliveStep(alive.value, ins, msg).value;
    RecordAgain(b, i, ins);
    if Announce(m.alive, m.ins, msg, m.kind).value.Some? {
      AnnounceOk(b, i, ins, m, msg);
    }
  }

  // Only a decision is announced without a write.
  lemma DecisionWritesNothing(a: Alive, ins: Instance, msg: Msg)
    requires AliveStep(a, ins, msg).Done? && AliveStep(a, ins, msg).value.kind == ChosenMsg
    ensures !AliveStep(a, ins, msg).value.write && AliveStep(a, ins, msg).value.ins == ins
  {
  }

  lemma ByProposerOk(b: Book<Entry>, i: nat, alive: Option<Alive>, ins: Instance, msg: Msg)
    requires BookOk(b) && i < 3 && InsOk(b, i, ins) && !ins.chosen && HandedOk(b, i, alive, ins)
    requires msg.kind in {PropRsp, AccptRsp, FastAccptRsp} ==> Arrives(b, i, msg)
    requires msg.kind != BeginFastProp && msg.to == i + 1 && msg.index == ins.index
    requires ByProposer(alive, ins, msg).Done?
    ensures ReplyOk(b, i, ins, ByProposer(alive, ins, msg).value)
    ensures NoNewFast(b, RecordIns(b, i, ByProposer(alive, ins, msg).value.ins))
  {
    RecordAgain(b, i, ins);
    if alive.Some? {
      AliveStepOk(b, i, alive.value, ins, msg);
      if AliveStep(alive.value, ins, msg).value.kind == ChosenMsg {
        DecisionWritesNothing(alive.value, ins, msg);
      }
      MoveIsReply(b, i, alive, ins, msg);
    }
  }

  // Every message that may reach an instance, except the start of a fast proposal.
  ghost predicate Acceptable(b: Book<Entry>, i: nat, msg: Msg)
    requires |b.floor| == 3
  {
    msg.to == i + 1 && (Arrives(b, i, msg) || msg.kind in {BeginProp, TryProp, TryRedoProp})
  }

  lemma InsStepOk(b: Book<Entry>, i: nat, alive: Option<Alive>, ins: Instance, msg: Msg)
    requires BookOk(b) && i < 3 && InsOk(b, i, ins) && HandedOk(b, i, alive, ins)
    requires Acceptable(b, i, msg) && msg.index == ins.index && InsStep(alive, ins, msg).Done?
    ensures ReplyOk(b, i, ins, InsStep(alive, ins, msg).value)
    ensures NoNewFast(b, RecordIns(b, i, InsStep(alive, ins, msg).value.ins))
  {
    RecordAgain(b, i, ins);
    if ins.chosen {
      StepChosenOk(b, i, alive, ins, msg);
    } else {
      match msg.kind
      case Noop =>
      case GetChosen =>
      case ChosenMsg => OnChosenOk(b, i, alive, ins, msg);
      case Prop => OnPropOk(b, i, alive, ins, msg);
      case Accpt => OnAccptOk(b, i, alive, ins, msg);
      case FastAccpt => OnAccptOk(b, i, alive, ins, msg);
      case _ => ByProposerOk(b, i, alive, ins, msg);
    }
  }

  // The start of a fast proposal on a blank instance.
  lemma FastStepOk(b: Book<Entry>, i: nat, index: nat, ins: Instance, msg: Msg)
    requires BookOk(b) && i < 3 && NoTrace(b, i) && ins == Blank(index)
    requires forall k :: k in b.proposed ==> CntOf(k) > 0
    requires msg.kind == BeginFastProp && msg.to == i + 1 && msg.index == index
    requires InsStep(Some(NewAlive(index, Compose(i + 1, 0))), ins, msg).Done?
    ensures var r := InsStep(Some(NewAlive(index, Compose(i + 1, 0))), ins, msg).value;
      && ReplyOk(b, i, ins, r) && msg.value.Some?
      && RecordIns(b, i, r.ins).proposed == b.proposed[i + 1 := msg.value.value]
  {
    OnBeginFastOk(b, i, index, ins, msg);
    FastNumber(b, i, index, ins, msg);
    MoveIsReply(b, i, Some(NewAlive(index, Compose(i + 1, 0))), ins, msg);
  }

  // ---- the checks that guard against two values never fail ----

  // An acceptor that holds the number of a CHOSEN message holds its value: its proposer voted
  // first, so the two of them chose the number.
  lemma ChosenIsConsistent(b: Book<Entry>, i: nat, ins: Instance, msg: Msg)
    requires BookOk(b) && i < 3 && InsOk(b, i, ins) && Arrives(b, i, msg) && msg.kind == ChosenMsg
    requires ins.chosen || (ins.accepted.Some? && ins.accepted.value.num == msg.proposed)
    ensures SameEntry(ins, msg.value)
  {
    hide Consistent;
    if ins.chosen {
      DecidedOnce(b, ins.accepted.value.value, msg.value.value);
    } else {
      var num := msg.proposed;
      var p := msg.from - 1;
      assert (i, num) in b.votes && (IdOf(num) - 1, num) in b.votes;
      assert Quorum({i, p}, |b.floor|) && VotedBy(b, {i, p}, num);
      assert Decided(b, b.proposed[num]);
      DecidedOnce(b, b.proposed[num], msg.value.value);
    }
  }
}
