/** What every message keeps of one index of PaxosKV. */
module KvInstanceProof {
  import opened PropNum
  import opened KvInstance
  import opened KvProtocol
  import opened VoteBook

  // ---- what a book of PaxosKV looks like ----

  // Some chosen ballot carries the value.
  ghost predicate Decided(b: Book<Entry>, v: Entry) {
    exists k :: Chosen(b, k) && k in b.proposed && b.proposed[k] == v
  }

  // A proposer votes for its own proposal first.  A proposal without a prepare round closes the
  // round-free numbers of the two other members.
  ghost predicate BookOk(b: Book<Entry>) {
    && Consistent(b) && |b.floor| == 3 && b.closed <= {1, 2, 3}
    && (forall k :: k in b.proposed ==>
          1 <= IdOf(k) <= 3 && (IdOf(k) - 1, k) in b.votes
          && (CntOf(k) == 0 ==> b.closed == {1, 2, 3} - {k}))
    && (b.closed != {} ==> exists k :: k in b.proposed && CntOf(k) == 0)
  }

  // The book moved by a step of member i only.
  ghost predicate MovedBy(b: Book<Entry>, b': Book<Entry>, i: nat) {
    && Extends(b, b')
    && (forall k :: 0 <= k < |b.floor| && k != i ==> b'.floor[k] == b.floor[k])
    && (forall q, k :: (q, k) in b'.votes && q != i ==> (q, k) in b.votes)
    && (forall k :: k in b'.proposed && k !in b.proposed ==> IdOf(k) == i + 1)
  }

  // Member i has voted nowhere strictly between the two numbers.
  ghost predicate Gap(b: Book<Entry>, i: nat, lo: nat, hi: nat) {
    forall k :: lo < k < hi ==> (i, k) !in b.votes
  }

  // ---- what is true of instances, proposers and messages ----

  ghost predicate InsOk(b: Book<Entry>, i: nat, ins: Instance)
    requires |b.floor| == 3 && i < 3
  {
    && ins.proposed <= PromisedNum(ins)
    && (ins.proposed > 0 ==> IdOf(ins.proposed) == i + 1 || IdOf(ins.proposed) == 0)
    && (ins.accepted.Some? ==> ins.promised.Some? && 0 < ins.accepted.value.num <= ins.promised.value)
    && (ins.chosen ==> ins.accepted.Some? && Decided(b, ins.accepted.value.value))
    && (!ins.chosen ==>
          && b.floor[i] == PromisedNum(ins)
          && (ins.accepted.Some? ==>
                && (i, ins.accepted.value.num) in b.votes
                && ins.accepted.value.num in b.proposed
                && b.proposed[ins.accepted.value.num] == ins.accepted.value.value)
          && (forall k :: (i, k) in b.votes ==> ins.accepted.Some? && k <= ins.accepted.value.num))
  }

  // Member i has done nothing at this index.
  ghost predicate NoTrace(b: Book<Entry>, i: nat)
    requires |b.floor| == 3 && i < 3
  {
    b.floor[i] == 0 && forall k :: (i, k) !in b.votes
  }

  ghost predicate HintOk(b: Book<Entry>, hint: nat, v: Option<Entry>) {
    v.Some? && (hint > 0 ==> hint in b.proposed && b.proposed[hint] == v.value)
  }

  // The member has promised the number and voted nowhere between the hint and the number.
  ghost predicate Promises(b: Book<Entry>, p: nat, hint: nat, num: nat)
    requires |b.floor| == 3 && p < 3
  {
    b.floor[p] >= num && Gap(b, p, hint, num)
  }

  ghost predicate PreparedOk(b: Book<Entry>, i: nat, a: Alive, own: Instance)
    requires |b.floor| == 3 && i < 3
  {
    var num := a.gen.Get();
    && (forall p :: p in a.votes && a.votes[p] ==> 1 <= p <= 3 && Promises(b, p - 1, a.acceptedHint, num))
    && (own.proposed == num && !own.chosen ==> Promises(b, i, a.acceptedHint, num) && num !in b.proposed)
  }

  ghost predicate AcceptedOk(b: Book<Entry>, a: Alive) {
    var num := a.gen.Get();
    && (forall p :: p in a.votes && a.votes[p] ==> 1 <= p && (p - 1, num) in b.votes)
    && (num in b.proposed ==> a.proposing == Some(b.proposed[num]))
  }

  ghost predicate AliveOk(b: Book<Entry>, i: nat, a: Alive, own: Instance)
    requires |b.floor| == 3 && i < 3
  {
    && a.gen.id == i + 1
    && (a.state != StateChosen && a.state != Nil ==>
          && HintOk(b, a.acceptedHint, a.proposing)
          && (forall p :: p in a.votes ==> 1 <= p <= 3 && p != i + 1)
          && (a.state == WaitPrepare ==> CntOf(a.gen.Get()) > 0 && PreparedOk(b, i, a, own))
          && (a.state == WaitAccept ==> AcceptedOk(b, a)))
  }

  ghost predicate MsgOk(b: Book<Entry>, m: Msg)
    requires |b.floor| == 3
  {
    && 1 <= m.from <= 3 && m.from != m.to
    && (m.kind == PropRsp ==>
          && m.promised.Some? && m.promised.value <= b.floor[m.from - 1]
          && (m.value.Some? ==> m.accepted.Some? && m.accepted.value > 0 && HintOk(b, m.accepted.value, m.value))
          && (m.value.None? ==> m.accepted.None?)
          && Gap(b, m.from - 1, Or0(m.accepted), m.promised.value))
    && (m.kind == AccptRsp || m.kind == FastAccptRsp ==>
          && m.accepted.Some? && m.value.None?
          && (m.accepted.value > 0 ==> (m.from - 1, m.accepted.value) in b.votes))
    && (m.kind == Accpt || m.kind == FastAccpt ==>
          m.proposed in b.proposed && m.value == Some(b.proposed[m.proposed]))
    && (m.kind == ChosenMsg ==>
          && m.value.Some? && Decided(b, m.value.value)
          && (m.proposed > 0 ==> IdOf(m.proposed) == m.from || IdOf(m.proposed) == 0))
    && OnWire(m.kind)
  }

  // ---- these facts outlive other members' steps ----

  lemma DecidedStays(b: Book<Entry>, b': Book<Entry>, v: Entry)
    requires Extends(b, b') && Decided(b, v)
    ensures Decided(b', v)
  {
    var k :| Chosen(b, k) && k in b.proposed && b.proposed[k] == v;
    ChosenStays(b, b', k);
  }

  lemma DecidedOnce(b: Book<Entry>, v: Entry, w: Entry)
    requires Consistent(b) && Decided(b, v) && Decided(b, w)
    ensures v == w
  {
    var k :| Chosen(b, k) && k in b.proposed && b.proposed[k] == v;
    var l :| Chosen(b, l) && l in b.proposed && b.proposed[l] == w;
    Agreement(b, k, l);
  }

  lemma GapStays(b: Book<Entry>, b': Book<Entry>, i: nat, lo: nat, hi: nat)
    requires Extends(b, b') && i < |b.floor| && b.floor[i] >= hi && Gap(b, i, lo, hi)
    ensures Gap(b', i, lo, hi)
  {
  }

  lemma InsOkStays(b: Book<Entry>, b': Book<Entry>, i: nat, j: nat, ins: Instance)
    requires |b.floor| == 3 && |b'.floor| == 3 && i < 3 && i != j
    requires MovedBy(b, b', j) && InsOk(b, i, ins)
    ensures InsOk(b', i, ins)
  {
    if ins.chosen {
      DecidedStays(b, b', ins.accepted.value.value);
    }
  }

  lemma ChosenInsOkStays(b: Book<Entry>, b': Book<Entry>, i: nat, ins: Instance)
    requires |b.floor| == 3 && |b'.floor| == 3 && i < 3 && ins.chosen
    requires Extends(b, b') && InsOk(b, i, ins)
    ensures InsOk(b', i, ins)
  {
    DecidedStays(b, b', ins.accepted.value.value);
  }

  lemma MsgOkStays(b: Book<Entry>, b': Book<Entry>, m: Msg)
    requires |b.floor| == 3 && |b'.floor| == 3 && Extends(b, b') && MsgOk(b, m)
    ensures MsgOk(b', m)
  {
    if m.kind == ChosenMsg {
      DecidedStays(b, b', m.value.value);
    }
  }

  lemma PreparedOkStays(b: Book<Entry>, b': Book<Entry>, i: nat, a: Alive, own: Instance)
    requires |b.floor| == 3 && |b'.floor| == 3 && i < 3 && Extends(b, b') && PreparedOk(b, i, a, own)
    requires a.gen.Get() in b'.proposed ==> a.gen.Get() in b.proposed
    ensures PreparedOk(b', i, a, own)
  {
    var num := a.gen.Get();
    forall p | p in a.votes && a.votes[p] ensures 1 <= p <= 3 && Promises(b', p - 1, a.acceptedHint, num) {
      GapStays(b, b', p - 1, a.acceptedHint, num);
    }
    if own.proposed == num && !own.chosen {
      GapStays(b, b', i, a.acceptedHint, num);
    }
  }

  lemma AliveOkStays(b: Book<Entry>, b': Book<Entry>, i: nat, a: Alive, own: Instance)
    requires |b.floor| == 3 && |b'.floor| == 3 && i < 3 && Extends(b, b') && AliveOk(b, i, a, own)
    requires a.gen.Get() in b'.proposed ==> a.gen.Get() in b.proposed
    ensures AliveOk(b', i, a, own)
  {
    if a.state == WaitPrepare {
      PreparedOkStays(b, b', i, a, own);
    }
  }

  // ---- storing an instance ----

  // Writing down what is already written down changes nothing.
  lemma RecordAgain(b: Book<Entry>, i: nat, ins: Instance)
    requires |b.floor| == 3 && i < 3 && InsOk(b, i, ins)
    ensures RecordIns(b, i, ins) == b
  {
    if !ins.chosen && ins.accepted.Some? {
      assert b.votes + {(i, ins.accepted.value.num)} == b.votes;
    }
  }

  // A higher promise.
  lemma RecordPromise(b: Book<Entry>, i: nat, ins: Instance, num: nat, proposed: nat)
    requires BookOk(b) && i < 3 && InsOk(b, i, ins) && !ins.chosen && PromisedNum(ins) <= num
    requires proposed == ins.proposed || (proposed == num && IdOf(num) == i + 1)
    ensures var ins' := ins.(promised := Some(num), proposed := proposed); var b' := RecordIns(b, i, ins');
      BookOk(b') && MovedBy(b, b', i) && InsOk(b', i, ins') && b'.proposed == b.proposed
  {
    var ins' := ins.(promised := Some(num), proposed := proposed);
    var b' := RecordIns(b, i, ins');
    RaiseKeeps(b, i, num);
    if ins.accepted.Some? {
      assert b'.votes == b.votes;
    }
    assert b' == Raise(b, i, num);
  }

  // A vote for a proposal made before.
  lemma RecordVote(b: Book<Entry>, i: nat, ins: Instance, num: nat)
    requires BookOk(b) && i < 3 && InsOk(b, i, ins) && !ins.chosen && PromisedNum(ins) <= num
    requires num in b.proposed
    ensures var ins' := ins.(promised := Some(num), accepted := Some(Accepted(num, b.proposed[num])));
      var b' := RecordIns(b, i, ins');
      BookOk(b') && MovedBy(b, b', i) && InsOk(b', i, ins') && b'.proposed == b.proposed
  {
    var ins' := ins.(promised := Some(num), accepted := Some(Accepted(num, b.proposed[num])));
    RaiseKeeps(b, i, num);
    VoteKeeps(Raise(b, i, num), i, num);
    ExtendsTransitive(b, Raise(b, i, num), RecordIns(b, i, ins'));
  }

  // The book after member i proposed the value and voted for it.
  ghost function WithProposal(b: Book<Entry>, i: nat, num: nat, v: Entry, closing: set<nat>): Book<Entry>
    requires |b.floor| == 3 && i < 3
  {
    Book(b.proposed[num := v], b.votes + {(i, num)},
         b.floor[i := Max(b.floor[i], num)], b.closed + closing)
  }

  lemma WithProposalMoves(b: Book<Entry>, i: nat, num: nat, v: Entry, closing: set<nat>)
    requires Consistent(b) && |b.floor| == 3 && i < 3 && b.floor[i] <= num
    requires num > 0 && IdOf(num) == i + 1 && num !in b.proposed && num !in b.closed + closing
    requires forall k :: k in closing ==> k !in b.proposed
    requires SafeAt(Close(b, closing), num, v)
    ensures var b' := WithProposal(b, i, num, v, closing); Consistent(b') && MovedBy(b, b', i)
  {
    var b0 := Close(b, closing);
    CloseKeeps(b, closing);
    ProposeKeeps(b0, num, v);
    var b1 := Propose(b0, num, v);
    ExtendsTransitive(b, b0, b1);
    VoteKeeps(b1, i, num);
    ExtendsTransitive(b, b1, Vote(b1, i, num));
    assert Vote(b1, i, num) == WithProposal(b, i, num, v, closing);
  }

  lemma WithProposalInsOk(b: Book<Entry>, i: nat, ins: Instance, num: nat, v: Entry, closing: set<nat>)
    requires |b.floor| == 3 && i < 3 && InsOk(b, i, ins) && !ins.chosen && PromisedNum(ins) <= num && num > 0
    ensures InsOk(WithProposal(b, i, num, v, closing), i,
                  ins.(promised := Some(num), accepted := Some(Accepted(num, v))))
  {
  }

  lemma WithProposalIsRecorded(b: Book<Entry>, i: nat, ins: Instance, num: nat, v: Entry)
    requires |b.floor| == 3 && i < 3 && !ins.chosen && num !in b.proposed
    ensures RecordIns(b, i, ins.(promised := Some(num), accepted := Some(Accepted(num, v))))
         == WithProposal(b, i, num, v, if CntOf(num) == 0 then {1, 2, 3} - {num} else {})
  {
    assert b.closed + {} == b.closed;
  }

  lemma WithProposalBookOk(b: Book<Entry>, i: nat, num: nat, v: Entry)
    requires BookOk(b) && i < 3 && IdOf(num) == i + 1 && CntOf(num) > 0 && num !in b.proposed
    requires Consistent(WithProposal(b, i, num, v, {}))
    ensures BookOk(WithProposal(b, i, num, v, {}))
  {
    var b' := WithProposal(b, i, num, v, {});
    assert b'.closed == b.closed;
    if b.closed != {} {
      var k :| k in b.proposed && CntOf(k) == 0;
      assert k in b'.proposed;
    }
  }

  // A member's own proposal, which it votes for at once.
  lemma RecordProposal(b: Book<Entry>, i: nat, ins: Instance, num: nat, v: Entry)
    requires BookOk(b) && i < 3 && InsOk(b, i, ins) && !ins.chosen && PromisedNum(ins) <= num
    requires num > 0 && IdOf(num) == i + 1 && num !in b.proposed && CntOf(num) > 0 && SafeAt(b, num, v)
    ensures var ins' := ins.(promised := Some(num), accepted := Some(Accepted(num, v)));
      var b' := RecordIns(b, i, ins');
      BookOk(b') && MovedBy(b, b', i) && InsOk(b', i, ins') && b'.proposed == b.proposed[num := v]
  {
    ComposeBack(num);
    assert Close(b, {}) == b;
    WithProposalMoves(b, i, num, v, {});
    WithProposalBookOk(b, i, num, v);
    WithProposalInsOk(b, i, ins, num, v, {});
    WithProposalIsRecorded(b, i, ins, num, v);
  }

  lemma FirstFastBookOk(b: Book<Entry>, i: nat, num: nat, v: Entry)
    requires BookOk(b) && i < 3 && num == i + 1
    requires forall k :: k in b.proposed ==> CntOf(k) > 0
    requires Consistent(WithProposal(b, i, num, v, {1, 2, 3} - {num}))
    ensures BookOk(WithProposal(b, i, num, v, {1, 2, 3} - {num}))
  {
    var b' := WithProposal(b, i, num, v, {1, 2, 3} - {num});
    assert num in b'.proposed && CntOf(num) == 0 && IdOf(num) == num;
    assert b.closed == {};
    assert b'.closed == {1, 2, 3} - {num};
  }

  // The proposal of a member that skips the prepare round.
  lemma RecordFastProposal(b: Book<Entry>, i: nat, ins: Instance, num: nat, v: Entry)
    requires BookOk(b) && i < 3 && InsOk(b, i, ins) && !ins.chosen && PromisedNum(ins) <= num
    requires num == i + 1 && forall k :: k in b.proposed ==> CntOf(k) > 0
    ensures var ins' := ins.(promised := Some(num), accepted := Some(Accepted(num, v)));
      var b' := RecordIns(b, i, ins');
      BookOk(b') && MovedBy(b, b', i) && InsOk(b', i, ins') && b'.proposed == b.proposed[num := v]
  {
    var others := {1, 2, 3} - {num};
    assert CntOf(num) == 0 && IdOf(num) == num;
    assert b.closed == {};
    assert SafeAt(Close(b, others), num, v);
    WithProposalMoves(b, i, num, v, others);
    FirstFastBookOk(b, i, num, v);
    WithProposalInsOk(b, i, ins, num, v, others);
    WithProposalIsRecorded(b, i, ins, num, v);
  }
}
