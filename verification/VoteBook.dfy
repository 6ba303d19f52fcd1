/**
  The reference model of agreement that both Paxos implementations are proved against.

  A book records, for one decision, which value each ballot proposes, which acceptor voted
  at which ballot, the promise floor of every acceptor, and the ballots that are closed for
  ever.  Neither implementation stores a book: it is the history that their steps write.
 */
module VoteBook {

  datatype Book<V> = Book(
    proposed: map<nat, V>,
    votes: set<(nat, nat)>,     // (acceptor, ballot)
    floor: seq<nat>,            // per acceptor: no vote below this ballot any more
    closed: set<nat>            // ballots that no one may propose at
  )

  function Empty<V>(n: nat, closed: set<nat>): Book<V> {
    Book(map[], {}, seq(n, _ => 0), closed)
  }

  ghost predicate Quorum(q: set<nat>, n: nat) {
    (forall i :: i in q ==> i < n) && 2 * |q| > n
  }

  // Everybody in the quorum voted at the ballot.
  ghost predicate VotedBy<V>(b: Book<V>, q: set<nat>, c: nat) {
    forall i :: i in q ==> (i, c) in b.votes
  }

  ghost predicate Chosen<V>(b: Book<V>, c: nat) {
    exists q :: Quorum(q, |b.floor|) && VotedBy(b, q, c)
  }

  // Nobody in the quorum voted at the ballot, and nobody in it ever will.
  ghost predicate ShutBy<V>(b: Book<V>, q: set<nat>, c: nat) {
    forall i :: i in q && i < |b.floor| ==> b.floor[i] > c && (i, c) !in b.votes
  }

  ghost predicate Blocked<V>(b: Book<V>, c: nat) {
    exists q :: Quorum(q, |b.floor|) && ShutBy(b, q, c)
  }

  // Ballot c cannot have chosen, and never will choose, anything but v.
  ghost predicate Harmless<V>(b: Book<V>, c: nat, v: V) {
    (c in b.proposed && b.proposed[c] == v) || Blocked(b, c) || c in b.closed
  }

  ghost predicate SafeAt<V>(b: Book<V>, ballot: nat, v: V) {
    forall c :: 0 < c < ballot ==> Harmless(b, c, v)
  }

  ghost predicate Consistent<V>(b: Book<V>) {
    && (forall q, c :: (q, c) in b.votes ==> q < |b.floor| && c <= b.floor[q] && c in b.proposed)
    && (forall c :: c in b.proposed ==> 0 < c && c !in b.closed && SafeAt(b, c, b.proposed[c]))
  }

  // The later book is a possible future of the earlier one.
  ghost predicate Extends<V>(b: Book<V>, b': Book<V>) {
    && |b'.floor| == |b.floor|
    && (forall i :: 0 <= i < |b.floor| ==> b.floor[i] <= b'.floor[i])
    && (forall c :: c in b.proposed ==> c in b'.proposed && b'.proposed[c] == b.proposed[c])
    && b.votes <= b'.votes
    && (forall q, c :: (q, c) in b'.votes && (q, c) !in b.votes && q < |b.floor| ==> b.floor[q] <= c)
    && b.closed <= b'.closed
  }

  lemma EmptyIsConsistent<V>(n: nat, closed: set<nat>)
    ensures Consistent(Empty<V>(n, closed))
  {
  }

  ghost function Upto(n: nat): (r: set<nat>)
    ensures |r| == n
    ensures forall i :: i in r <==> 0 <= i < n
  {
    if n == 0 then {} else Upto(n - 1) + {n - 1}
  }

  // Two majorities of the same acceptors share one of them.
  lemma QuorumsMeet(q: set<nat>, r: set<nat>, n: nat) returns (i: nat)
    requires Quorum(q, n) && Quorum(r, n)
    ensures i in q && i in r && i < n
  {
    SubsetSize(q + r, Upto(n));
    assert |q + r| == |q| + |r| - |q * r|;
    i :| i in q * r;
  }

  lemma {:induction false} SubsetSize(a: set<nat>, b: set<nat>)
    requires a <= b
    ensures |a| <= |b|
  {
    if a != {} {
      var x :| x in a;
      SubsetSize(a - {x}, b - {x});
    }
  }

  lemma ExtendsTransitive<V>(a: Book<V>, b: Book<V>, c: Book<V>)
    requires Extends(a, b) && Extends(b, c)
    ensures Extends(a, c)
  {
  }

  lemma BlockedStays<V>(b: Book<V>, b': Book<V>, c: nat)
    requires Extends(b, b') && Blocked(b, c)
    ensures Blocked(b', c)
  {
    var q :| Quorum(q, |b.floor|) && ShutBy(b, q, c);
    assert ShutBy(b', q, c);
  }

  lemma ChosenStays<V>(b: Book<V>, b': Book<V>, c: nat)
    requires Extends(b, b') && Chosen(b, c)
    ensures Chosen(b', c)
  {
    var q :| Quorum(q, |b.floor|) && VotedBy(b, q, c);
    assert VotedBy(b', q, c);
  }

  lemma SafeStays<V>(b: Book<V>, b': Book<V>, ballot: nat, v: V)
    requires Extends(b, b') && SafeAt(b, ballot, v)
    ensures SafeAt(b', ballot, v)
  {
    forall c | 0 < c < ballot ensures Harmless(b', c, v) {
      assert Harmless(b, c, v);
      if Blocked(b, c) {
        BlockedStays(b, b', c);
      }
    }
  }

  // The agreement theorem: whatever ballots are chosen, they are chosen for one value.
  lemma Agreement<V>(b: Book<V>, c: nat, d: nat)
    requires Consistent(b) && Chosen(b, c) && Chosen(b, d)
    ensures c in b.proposed && d in b.proposed && b.proposed[c] == b.proposed[d]
  {
    if c < d {
      ChosenIsFinal(b, c, d);
    } else if d < c {
      ChosenIsFinal(b, d, c);
    } else {
      ChosenIsProposed(b, c);
    }
  }

  lemma ChosenIsProposed<V>(b: Book<V>, c: nat)
    requires Consistent(b) && Chosen(b, c)
    ensures c in b.proposed
  {
    var q :| Quorum(q, |b.floor|) && VotedBy(b, q, c);
    var i := QuorumsMeet(q, q, |b.floor|);
    assert (i, c) in b.votes;
  }

  // Once a ballot is chosen, every higher proposal repeats its value, chosen or not.
  lemma ChosenIsFinal<V>(b: Book<V>, c: nat, d: nat)
    requires Consistent(b) && Chosen(b, c) && c < d && d in b.proposed
    ensures c in b.proposed && b.proposed[c] == b.proposed[d]
  {
    ChosenIsProposed(b, c);
    assert SafeAt(b, d, b.proposed[d]);
    assert Harmless(b, c, b.proposed[d]);
    if Blocked(b, c) {
      var q :| Quorum(q, |b.floor|) && ShutBy(b, q, c);
      var r :| Quorum(r, |b.floor|) && VotedBy(b, r, c);
      var _ := QuorumsMeet(q, r, |b.floor|);
    }
  }

  // ---- the moves a book allows ----

  function Raise<V>(b: Book<V>, q: nat, to: nat): (b': Book<V>)
    requires q < |b.floor|
  {
    b.(floor := b.floor[q := if b.floor[q] < to then to else b.floor[q]])
  }

  lemma RaiseKeeps<V>(b: Book<V>, q: nat, to: nat)
    requires Consistent(b) && q < |b.floor|
    ensures Consistent(Raise(b, q, to)) && Extends(b, Raise(b, q, to))
  {
    var b' := Raise(b, q, to);
    assert Extends(b, b');
    forall c | c in b'.proposed ensures SafeAt(b', c, b'.proposed[c]) {
      SafeStays(b, b', c, b.proposed[c]);
    }
  }

  function Vote<V>(b: Book<V>, q: nat, c: nat): (b': Book<V>)
    requires q < |b.floor|
  {
    Raise(b, q, c).(votes := b.votes + {(q, c)})
  }

  lemma VoteKeeps<V>(b: Book<V>, q: nat, c: nat)
    requires Consistent(b) && q < |b.floor| && c in b.proposed && b.floor[q] <= c
    ensures Consistent(Vote(b, q, c)) && Extends(b, Vote(b, q, c))
  {
    var b' := Vote(b, q, c);
    assert Extends(b, b');
    forall d | d in b'.proposed ensures SafeAt(b', d, b'.proposed[d]) {
      SafeStays(b, b', d, b.proposed[d]);
    }
  }

  function Propose<V>(b: Book<V>, c: nat, v: V): (b': Book<V>) {
    b.(proposed := b.proposed[c := v])
  }

  lemma ProposeKeeps<V>(b: Book<V>, c: nat, v: V)
    requires Consistent(b) && 0 < c && c !in b.proposed && c !in b.closed && SafeAt(b, c, v)
    ensures Consistent(Propose(b, c, v)) && Extends(b, Propose(b, c, v))
  {
    var b' := Propose(b, c, v);
    assert Extends(b, b');
    forall d | d in b'.proposed ensures SafeAt(b', d, b'.proposed[d]) {
      if d == c {
        SafeStays(b, b', c, v);
      } else {
        SafeStays(b, b', d, b.proposed[d]);
      }
    }
  }

  function Close<V>(b: Book<V>, cs: set<nat>): (b': Book<V>) {
    b.(closed := b.closed + cs)
  }

  lemma CloseKeeps<V>(b: Book<V>, cs: set<nat>)
    requires Consistent(b) && forall c :: c in cs ==> c !in b.proposed
    ensures Consistent(Close(b, cs)) && Extends(b, Close(b, cs))
  {
    var b' := Close(b, cs);
    assert Extends(b, b');
    forall d | d in b'.proposed ensures SafeAt(b', d, b'.proposed[d]) {
      SafeStays(b, b', d, b.proposed[d]);
    }
  }

  // What a prepare phase establishes.  Every member of the quorum has promised the ballot and
  // voted nowhere between the hint and the ballot; the hint's own value is the one proposed.
  lemma PreparedIsSafe<V>(b: Book<V>, q: set<nat>, ballot: nat, hint: nat, v: V)
    requires Consistent(b) && Quorum(q, |b.floor|)
    requires forall i :: i in q && i < |b.floor| ==> b.floor[i] >= ballot
    requires forall i, c :: i in q && hint < c < ballot ==> (i, c) !in b.votes
    requires hint > 0 ==> hint in b.proposed && b.proposed[hint] == v
    ensures SafeAt(b, ballot, v)
  {
    forall c | 0 < c < ballot ensures Harmless(b, c, v) {
      if hint < c {
        assert ShutBy(b, q, c);
      } else if c < hint {
        assert SafeAt(b, hint, v);
      }
    }
  }
}
