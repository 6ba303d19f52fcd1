/**
  What a message to one instance of PaxosKV comes to, told by the members that have answered: when
  a proposer goes on, decides or starts again, what it then announces, and what an acceptor grants.
 */
module KvDecisions {
  import opened PropNum
  import opened KvInstance

  predicate IsMember(p: nat) {
    1 <= p <= 3
  }

  ghost function Others(self: nat): set<nat> {
    {1, 2, 3} - {self}
  }

  ghost predicate FromOthers(votes: map<nat, bool>, self: nat) {
    forall p :: p in votes ==> p in Others(self)
  }

  // The members that have said so, the one that answers now among them.
  ghost function Saying(votes: map<nat, bool>, peer: nat, vote: bool, what: bool): set<nat> {
    (set p | p in votes && votes[p] == what) + if vote == what then {peer} else {}
  }

  // Together with the proposer itself, more than half of three.
  ghost predicate MostSayYes(self: nat, votes: map<nat, bool>, peer: nat, vote: bool) {
    2 * |{self} + Saying(votes, peer, vote, true)| > 3
  }

  ghost predicate BothRefuse(self: nat, votes: map<nat, bool>, peer: nat, vote: bool) {
    Others(self) <= Saying(votes, peer, vote, false)
  }

  // A member does not change its mind within a round.
  predicate KeepsVote(votes: map<nat, bool>, peer: nat, vote: bool) {
    peer in votes ==> votes[peer] == vote
  }

  lemma {:induction false} PartIsSmaller(a: set<nat>, b: set<nat>)
    requires a <= b
    ensures |a| <= |b| && (|a| == |b| ==> a == b)
  {
    if a != b {
      assert b == a + (b - a) && a !! (b - a);
      assert b - a != {};
    }
  }

  lemma VotesAre(votes: map<nat, bool>, peer: nat, vote: bool, what: bool)
    requires KeepsVote(votes, peer, vote)
    ensures VotesFor(votes[peer := vote], what) == Saying(votes, peer, vote, what)
  {
  }

  lemma NobodySaysBoth(self: nat, votes: map<nat, bool>, peer: nat, vote: bool)
    requires peer in Others(self) && FromOthers(votes, self) && KeepsVote(votes, peer, vote)
    ensures Saying(votes, peer, vote, true) <= Others(self) && Saying(votes, peer, vote, false) <= Others(self)
    ensures Saying(votes, peer, vote, true) !! Saying(votes, peer, vote, false)
  {
  }

  lemma Counted(self: nat, votes: map<nat, bool>, peer: nat, vote: bool)
    requires IsMember(self) && peer in Others(self) && FromOthers(votes, self) && KeepsVote(votes, peer, vote)
    ensures |VotesFor(votes[peer := vote], true)| >= 1 <==> MostSayYes(self, votes, peer, vote)
    ensures |VotesFor(votes[peer := vote], false)| >= 2 <==> BothRefuse(self, votes, peer, vote)
    ensures !(MostSayYes(self, votes, peer, vote) && BothRefuse(self, votes, peer, vote))
  {
    hide VotesFor, Saying, Others;
    var yes, no := Saying(votes, peer, vote, true), Saying(votes, peer, vote, false);
    VotesAre(votes, peer, vote, true);
    VotesAre(votes, peer, vote, false);
    NobodySaysBoth(self, votes, peer, vote);
    TwoOthers(self);
    assert |{self} + yes| == 1 + |yes|;
    PartIsSmaller(no, Others(self));
    if BothRefuse(self, votes, peer, vote) {
      assert no == Others(self);
      assert yes == {} && |{self} + yes| == 1;
    }
  }

  lemma TwoOthers(self: nat)
    requires IsMember(self)
    ensures |Others(self)| == 2 && self !in Others(self)
  {
    assert self == 1 ==> Others(self) == {2, 3};
    assert self == 2 ==> Others(self) == {1, 3};
    assert self == 3 ==> Others(self) == {1, 2};
  }

  // ---- the proposer's phases ----

  // An accept response decides if and only if the proposer and those that accepted its number are
  // most of the members; it starts the proposer again if and only if both others have refused.
  lemma AcceptRspDecides(self: nat, a: Alive, peer: nat, accepted: nat)
    requires IsMember(self) && peer in Others(self) && FromOthers(a.votes, self)
    ensures var vote := accepted == a.gen.Get();
      StepAcceptRsp(a, peer, accepted).Done? <==> KeepsVote(a.votes, peer, vote)
    ensures StepAcceptRsp(a, peer, accepted).Done? ==>
      var vote := accepted == a.gen.Get();
      var (a', next) := StepAcceptRsp(a, peer, accepted).value;
      && a' == a.(votes := a.votes[peer := vote])
      && (next == StateChosen <==> MostSayYes(self, a.votes, peer, vote))
      && (next == Prepare <==> BothRefuse(self, a.votes, peer, vote))
      && next in {StateChosen, Prepare, WaitAccept}
  {
    hide MostSayYes, BothRefuse, VotesFor;
    if KeepsVote(a.votes, peer, accepted == a.gen.Get()) {
      Counted(self, a.votes, peer, accepted == a.gen.Get());
    }
  }

  // The value that comes with a response is one the proposer can make sense of.
  predicate HintFits(a: Alive, accepted: nat, value: Option<Entry>) {
    value.Some? ==> accepted > 0 && (accepted == a.acceptedHint ==> a.proposing == value)
  }

  // The same for a prepare response, with the promise in place of the vote; and of the values
  // heard of, the one accepted highest is what will be proposed.
  lemma PrepareRspDecides(self: nat, a: Alive, peer: nat, promised: nat, accepted: nat, value: Option<Entry>)
    requires IsMember(self) && peer in Others(self) && FromOthers(a.votes, self)
    ensures var vote := promised == a.gen.Get();
      StepPrepareRsp(a, peer, promised, accepted, value).Done? <==>
        a.proposing.Some? && promised >= a.gen.Get() && KeepsVote(a.votes, peer, vote) && HintFits(a, accepted, value)
    ensures StepPrepareRsp(a, peer, promised, accepted, value).Done? ==>
      var vote := promised == a.gen.Get();
      var (a', next) := StepPrepareRsp(a, peer, promised, accepted, value).value;
      var better := value.Some? && accepted > a.acceptedHint;
      && a' == a.(votes := a.votes[peer := vote],
                  acceptedHint := if better then accepted else a.acceptedHint,
                  proposing := if better then value else a.proposing)
      && (next == Accept <==> MostSayYes(self, a.votes, peer, vote))
      && (next == Prepare <==> BothRefuse(self, a.votes, peer, vote))
      && next in {Accept, Prepare, WaitPrepare}
  {
    hide MostSayYes, BothRefuse, VotesFor;
    if KeepsVote(a.votes, peer, promised == a.gen.Get()) {
      Counted(self, a.votes, peer, promised == a.gen.Get());
    }
  }

  // ---- starting a prepare phase ----

  // A number of the proposer's own that clears all it has promised or heard of.
  predicate Clears(a: Alive, ins: Instance, num: nat) {
    && num >= a.gen.Get() && num >= a.maxHint && num >= a.acceptedHint
    && (ins.promised.Some? ==> num > ins.promised.value)
  }

  // What an instance knows is nothing the proposer will stumble over.
  predicate InLine(ins: Instance) {
    ins.proposed <= PromisedNum(ins)
  }

  // What is proposed next: the value accepted highest of all heard of and one's own.
  function BestValue(a: Alive, ins: Instance): Option<Entry> {
    if ins.accepted.Some? && ins.accepted.value.num > a.acceptedHint then Some(ins.accepted.value.value) else a.proposing
  }

  // After three attempts the proposer stops.  Else it promises itself the least number of its own
  // that clears everything, and asks for it.
  lemma PrepareIs(a: Alive, ins: Instance)
    requires InLine(ins) && a.gen.Get() > 0 && a.proposing.Some?
    ensures BeginPrepare(a, ins).Done? && BeginPrepare(a, ins).value.alive.maxHint == a.maxHint
    ensures var m := BeginPrepare(a, ins).value;
      if a.activeCnt >= 3 then
        m.alive.state == Frozen && m.ins == ins && !m.write && m.kind == Noop
      else
        var num := m.alive.gen.Get();
        && m.alive.gen.id == a.gen.id && Clears(a, ins, num)
        && (forall cnt :: Clears(a, ins, Compose(a.gen.id, cnt)) ==> num <= Compose(a.gen.id, cnt))
        && m.ins == ins.(proposed := num, promised := Some(num)) && m.write && m.kind == Prop
        && m.alive.state == WaitPrepare && m.alive.votes == map[] && m.alive.proposing == BestValue(a, ins)
        && m.alive.index == a.index && m.alive.activeCnt == a.activeCnt + 1
  {
    var hint := Max(a.maxHint, a.acceptedHint);
    var gen1 := if ins.promised.Some? then Past(a.gen, ins.promised.value) else a.gen;
    if a.activeCnt < 3 {
      forall cnt | Clears(a, ins, Compose(a.gen.id, cnt))
        ensures Raised(gen1, hint).Get() <= Compose(a.gen.id, cnt)
      {
        LeastOfBoth(a.gen, ins.promised, hint, cnt);
      }
    }
  }

  lemma LeastOfBoth(g: Gen, promised: Option<nat>, hint: nat, cnt: nat)
    requires Compose(g.id, cnt) >= g.Get() && Compose(g.id, cnt) >= hint
    requires promised.Some? ==> Compose(g.id, cnt) > promised.value
    ensures Raised(if promised.Some? then Past(g, promised.value) else g, hint).Get() <= Compose(g.id, cnt)
  {
    var g1 := if promised.Some? then Past(g, promised.value) else g;
    SameIdOrder(g.id, g.cnt, cnt);
    if promised.Some? {
      PastIsLeast(g, promised.value, cnt);
    }
    SameIdOrder(g.id, g1.cnt, cnt);
    RaisedIsLeast(g1, hint, cnt);
  }

  lemma SameIdOrder(id: ProposerId, a: nat, b: nat)
    ensures Compose(id, a) <= Compose(id, b) <==> a <= b
  {
    NumbersAreLexicographic(Compose(id, a), Compose(id, b));
  }

  // ---- what a response leads to ----

  // A proposer that waits, for the number the message is about.
  predicate Waits(a: Alive, ins: Instance, msg: Msg, state: PropState) {
    && a.state == state && a.index == msg.index && a.proposing.Some?
    && msg.proposed == ins.proposed == a.gen.Get() > 0 && InLine(ins) && !ins.chosen
  }

  // The instance still holds what the proposer proposed.
  predicate StillHolds(a: Alive, ins: Instance) {
    && ins.promised.Some? && a.gen.Get() <= ins.promised.value
    && ins.accepted.Some? && a.gen.Get() <= ins.accepted.value.num && Some(ins.accepted.value.value) == a.proposing
  }

  // An accept response that makes a majority decides: the instance is chosen, and everybody is
  // told the value.  One that makes both others refuse starts the proposer again, above all it
  // has heard of before.  Any other is counted.
  lemma AcceptRspIsAnswered(self: nat, a: Alive, ins: Instance, msg: Msg)
    requires IsMember(self) && msg.from in Others(self) && FromOthers(a.votes, self)
    requires msg.kind == AccptRsp || msg.kind == FastAccptRsp
    requires Waits(a, ins, msg, WaitAccept) && StillHolds(a, ins) && msg.accepted.Some? && msg.value.None?
    requires KeepsVote(a.votes, msg.from, msg.accepted.value == a.gen.Get())
    ensures InsStep(Some(a), ins, msg).Done?
    ensures var r := InsStep(Some(a), ins, msg).value;
      var vote, hint := msg.accepted.value == a.gen.Get(), Max(Max(a.maxHint, Or0(msg.promised)), msg.accepted.value);
      && r.alive.Some?
      && (if MostSayYes(self, a.votes, msg.from, vote) then
            && r.ins == ins.(chosen := true) && r.alive.value.state == StateChosen
            && r.rsp == Some(Msg(ChosenMsg, msg.to, 0, msg.index, ins.proposed, None, None, a.proposing))
          else if BothRefuse(self, a.votes, msg.from, vote) then
            && !r.ins.chosen && r.alive.value.maxHint == hint
            && if a.activeCnt >= 3 then r.alive.value.state == Frozen && r.ins == ins && r.rsp == None
               else r.alive.value.state == WaitPrepare && Clears(a, ins, r.ins.proposed)
          else
            && r.ins == ins && r.rsp == None
            && r.alive.value == a.(votes := a.votes[msg.from := vote], maxHint := hint))
  {
    hide MostSayYes, BothRefuse, VotesFor, BeginPrepare;
    var vote := msg.accepted.value == a.gen.Get();
    AcceptRspDecides(self, a, msg.from, msg.accepted.value);
    var (a', next) := StepAcceptRsp(a, msg.from, msg.accepted.value).value;
    Counted(self, a.votes, msg.from, vote);
    if next == Prepare {
      PrepareIs(a', ins);
      SameClears(a, a', ins);
      if a.activeCnt < 3 {
        HigherIsNotFirst(a.gen, BeginPrepare(a', ins).value.alive.gen);
      }
    }
  }

  lemma HigherIsNotFirst(g: Gen, g': Gen)
    requires g'.id == g.id && g'.Get() > g.Get()
    ensures CntOf(g'.Get()) > 0
  {
    SameIdOrder(g.id, g'.cnt, g.cnt);
  }

  lemma SameClears(a: Alive, a': Alive, ins: Instance)
    requires a'.gen == a.gen && a'.maxHint == a.maxHint && a'.acceptedHint >= a.acceptedHint
    ensures forall num :: Clears(a', ins, num) ==> Clears(a, ins, num)
  {
  }

  // A prepare response that makes a majority lets the proposer accept, and ask for, the value
  // accepted highest of all heard of.  With a higher number promised since, or refused by both
  // others, it starts again, above all it has heard of.  Any other response is counted.
  lemma PrepareRspIsAnswered(self: nat, a: Alive, ins: Instance, msg: Msg)
    requires IsMember(self) && msg.from in Others(self) && FromOthers(a.votes, self) && msg.kind == PropRsp
    requires Waits(a, ins, msg, WaitPrepare) && CntOf(a.gen.Get()) > 0
    requires Or0(msg.promised) >= a.gen.Get() && HintFits(a, Or0(msg.accepted), msg.value)
    requires KeepsVote(a.votes, msg.from, Or0(msg.promised) == a.gen.Get())
    ensures InsStep(Some(a), ins, msg).Done?
    ensures var r := InsStep(Some(a), ins, msg).value;
      var num, vote := a.gen.Get(), Or0(msg.promised) == a.gen.Get();
      var better := msg.value.Some? && Or0(msg.accepted) > a.acceptedHint;
      var v := if better then msg.value else a.proposing;
      var most := MostSayYes(self, a.votes, msg.from, vote);
      && r.alive.Some?
      && (if most && PromisedNum(ins) <= num then
            && r.ins == ins.(promised := Some(num), accepted := Some(Accepted(num, v.value))) && r.write
            && r.alive.value.state == WaitAccept && r.alive.value.votes == map[] && r.alive.value.proposing == v
            && r.rsp == Some(Msg(Accpt, msg.to, 0, msg.index, num, None, None, v))
          else if most || BothRefuse(self, a.votes, msg.from, vote) then
            && r.ins.accepted == ins.accepted
            && if a.activeCnt >= 3 then r.alive.value.state == Frozen && r.ins == ins && r.rsp == None
               else r.alive.value.state == WaitPrepare && Clears(a, ins, r.ins.proposed)
          else
            && r.ins == ins && r.rsp == None
            && r.alive.value == a.(votes := a.votes[msg.from := vote], proposing := v,
                                   acceptedHint := if better then Or0(msg.accepted) else a.acceptedHint))
  {
    hide MostSayYes, BothRefuse, VotesFor, BeginPrepare;
    PrepareRspDecides(self, a, msg.from, Or0(msg.promised), Or0(msg.accepted), msg.value);
    var (a', next) := StepPrepareRsp(a, msg.from, Or0(msg.promised), Or0(msg.accepted), msg.value).value;
    Counted(self, a.votes, msg.from, Or0(msg.promised) == a.gen.Get());
    PrepareIs(a', ins);
    SameClears(a, a', ins);
    if a.activeCnt < 3 {
      AboveIsNotFirst(a.gen.Get(), BeginPrepare(a', ins).value.alive.gen.Get());
    }
  }

  // A proposal made again: three new attempts, for the value the member itself has accepted if
  // there is one, else for the one asked for.
  lemma TryPropProposes(a: Alive, ins: Instance, msg: Msg)
    requires !ins.chosen && (msg.kind == TryProp || msg.kind == TryRedoProp) && msg.value.Some?
    requires a.index == msg.index && a.state != StateChosen && InLine(ins)
    requires ins.accepted.Some? ==> ins.accepted.value.num > 0
    ensures InsStep(Some(a), ins, msg).Done?
    ensures var r := InsStep(Some(a), ins, msg).value;
      && r.alive.Some? && r.alive.value.state == WaitPrepare && r.alive.value.activeCnt == 1
      && r.alive.value.proposing == (if ins.accepted.Some? then Some(ins.accepted.value.value) else msg.value)
      && r.ins == ins.(proposed := r.ins.proposed, promised := Some(r.ins.proposed)) && r.write
      && r.ins.proposed > PromisedNum(ins) && r.ins.proposed >= msg.proposed && IdOf(r.ins.proposed) == a.gen.id
      && r.rsp == Some(Msg(Prop, msg.to, 0, msg.index, r.ins.proposed, None, None, None))
  {
    hide BeginPrepare;
    var hint := if CntOf(msg.proposed) == 0 then Compose(0, 1) else msg.proposed;
    var a' := a.(gen := Raised(a.gen, hint), activeCnt := 0, acceptedHint := 0, proposing := msg.value, votes := map[]);
    NumbersAreLexicographic(msg.proposed, Compose(0, 1));
    PrepareIs(a', ins);
    AboveIsNotFirst(hint, BeginPrepare(a', ins).value.alive.gen.Get());
  }

  lemma AboveIsNotFirst(hint: nat, num: nat)
    requires CntOf(hint) > 0 && num >= hint
    ensures CntOf(num) > 0
  {
    NumbersAreLexicographic(hint, num);
    NumbersAreLexicographic(num, hint);
  }

  // ---- the acceptor ----

  // A promise is given if and only if no higher one has been, and the answer says which promise
  // stands and what has been accepted.
  lemma PropIsAnswered(alive: Option<Alive>, ins: Instance, msg: Msg)
    requires !ins.chosen && msg.kind == Prop
    ensures InsStep(alive, ins, msg).Done?
    ensures var r := InsStep(alive, ins, msg).value;
      var granted := ins.promised.Some? ==> ins.promised.value <= msg.proposed;
      && r.alive == alive && r.write == granted
      && r.ins == (if granted then ins.(promised := Some(msg.proposed)) else ins)
      && r.rsp == Some(Msg(PropRsp, msg.to, msg.from, msg.index, msg.proposed, Some(PromisedNum(r.ins)),
           if ins.accepted.Some? then Some(ins.accepted.value.num) else None,
           if ins.accepted.Some? then Some(ins.accepted.value.value) else None))
  {
  }

  // A value is accepted if and only if no higher promise has been given and, without a prepare
  // round, nothing has been accepted; the answer tells what stands accepted.
  lemma AccptIsAnswered(alive: Option<Alive>, ins: Instance, msg: Msg)
    requires !ins.chosen && (msg.kind == Accpt || msg.kind == FastAccpt) && msg.value.Some?
    requires ins.accepted.Some? ==> ins.promised.Some?
    ensures InsStep(alive, ins, msg).Done?
    ensures var r := InsStep(alive, ins, msg).value;
      var taken := (ins.promised.Some? ==> ins.promised.value <= msg.proposed) && (msg.kind == FastAccpt ==> ins.accepted.None?);
      && r.alive == alive && r.write == taken
      && r.ins == (if taken then ins.(promised := Some(msg.proposed), accepted := Some(Accepted(msg.proposed, msg.value.value)))
                   else ins)
      && r.rsp.Some? && r.rsp.value.to == msg.from && r.rsp.value.proposed == msg.proposed
      && r.rsp.value.kind == (if msg.kind == FastAccpt then FastAccptRsp else AccptRsp) && r.rsp.value.value.None?
      && r.rsp.value.accepted == Some(if r.ins.accepted.Some? then r.ins.accepted.value.num else 0)
      // a member that has nothing to show says what it has promised
      && (r.ins.accepted.None? && msg.proposed > 0 ==> r.rsp.value.promised == Some(PromisedNum(ins)))
  {
  }

  // ---- decisions that are known ----

  // Whoever asks, proposes or wants a value accepted where one is chosen is told the chosen value.
  lemma ChosenAnswers(alive: Option<Alive>, ins: Instance, msg: Msg)
    requires ins.chosen && ins.accepted.Some? && ins.promised.Some?
    requires msg.kind in {GetChosen, Prop, Accpt, FastAccpt}
    ensures var r := InsStep(alive, ins, msg);
      && r.Done? && r.value.ins == ins && r.value.alive == alive && !r.value.write
      && r.value.rsp.Some? && r.value.rsp.value.kind == ChosenMsg && r.value.rsp.value.to == msg.from
      && r.value.rsp.value.from == msg.to && r.value.rsp.value.index == msg.index
      && r.value.rsp.value.value == Some(ins.accepted.value.value) && r.value.rsp.value.proposed == ins.proposed
  {
  }

  // Whoever is told a decision takes it: under the number it has accepted, when that is the one
  // decided, else under one above all it and the teller have used.
  lemma ChosenIsLearned(alive: Option<Alive>, ins: Instance, msg: Msg)
    requires !ins.chosen && msg.kind == ChosenMsg && msg.value.Some? && InLine(ins)
    ensures var same := ins.accepted.Some? && ins.accepted.value.num == msg.proposed;
      InsStep(alive, ins, msg).Done? <==> (same ==> Some(ins.accepted.value.value) == msg.value)
    ensures InsStep(alive, ins, msg).Done? ==>
      var r := InsStep(alive, ins, msg).value;
      && r.ins.chosen && r.ins.accepted.Some? && Some(r.ins.accepted.value.value) == msg.value && r.rsp == None
      && (if ins.accepted.Some? && ins.accepted.value.num == msg.proposed then r.ins == ins.(chosen := true)
          else
            && r.ins.accepted.value.num == r.ins.proposed == PromisedNum(r.ins)
            && r.ins.proposed > msg.proposed && r.ins.proposed > PromisedNum(ins))
      && (alive.Some? ==> r.alive.Some? && r.alive.value.state == StateChosen)
  {
  }

  // ---- responses that come at the wrong time ----

  predicate IsRsp(msg: Msg) {
    msg.kind == PropRsp || msg.kind == AccptRsp || msg.kind == FastAccptRsp
  }

  // A response to another number, or in another phase, changes nothing; and with no proposer in
  // memory none does.
  lemma RspIsIgnored(a: Alive, ins: Instance, msg: Msg)
    requires !ins.chosen && IsRsp(msg) && a.index == msg.index && a.proposing.Some? && a.state != StateChosen
    requires a.state != (if msg.kind == PropRsp then WaitPrepare else WaitAccept) || ins.proposed != msg.proposed
    ensures InsStep(Some(a), ins, msg) == Done(Reply(Some(a), ins, false, None))
    ensures InsStep(None, ins, msg) == Done(Reply(None, ins, false, None))
  {
  }

  // A proposer whose write failed has a number the store does not know: it proposes again.
  lemma LostNumberStartsAgain(a: Alive, ins: Instance, msg: Msg)
    requires InLine(ins) && !ins.chosen && msg.kind == PropRsp && a.index == msg.index && a.proposing.Some?
    requires a.state == WaitPrepare && ins.proposed == msg.proposed < a.gen.Get() && CntOf(a.gen.Get()) > 0
    ensures InsStep(Some(a), ins, msg).Done?
    ensures var r := InsStep(Some(a), ins, msg).value;
      && r.alive.Some?
      && if a.activeCnt >= 3 then r.alive.value.state == Frozen && r.ins == ins && r.rsp == None
         else r.alive.value.state == WaitPrepare && Clears(a, ins, r.ins.proposed) && r.ins.accepted == ins.accepted
  {
    hide BeginPrepare;
    PrepareIs(a, ins);
    if a.activeCnt < 3 {
      AboveIsNotFirst(a.gen.Get(), BeginPrepare(a, ins).value.alive.gen.Get());
    }
  }
}
