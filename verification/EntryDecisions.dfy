/**
  What an acceptor's operations come to, told by the records of its table alone: when a majority
  decides or promises, which value is accepted and whose it is, when a peer's value is taken over,
  and which number is proposed next.
 */
module EntryDecisions {
  import opened EntryRecord
  import opened EntryMachine

  ghost predicate AllWhole(t: seq<Record>) {
    forall i :: 0 <= i < |t| ==> IsWhole(t[i])
  }

  // The entry is known to be decided, or more than half of the table has accepted what the
  // acceptor itself has.
  ghost predicate IsDecided(t: seq<Record>, me: nat)
    requires me < |t|
  {
    t[me].chosen || (t[me].accepted > 0 && 2 * |AcceptedBy(t, t[me].accepted)| > |t|)
  }

  ghost predicate IsPromised(t: seq<Record>, me: nat)
    requires me < |t|
  {
    2 * |PromisedBy(t, t[me].promised)| > |t|
  }

  // The number in use is the acceptor's own and nothing is accepted under it.
  predicate IsProposing(r: Record) {
    r.promised > 0 && r.prepared == r.promised && r.accepted < r.promised
  }

  // Every state, by the fields of the local record and the two majorities.
  lemma StateIs(m: Machine)
    requires m.me < |m.table| && AllWhole(m.table)
    ensures var r, t, s := m.Local(), m.table, Calc(m).state;
      && (s == IsChosen <==> IsDecided(t, m.me))
      && (s == MajorityPromise <==> !IsDecided(t, m.me) && IsProposing(r) && IsPromised(t, m.me))
      && (s == PromiseLocal <==> !IsDecided(t, m.me) && IsProposing(r) && !IsPromised(t, m.me))
      && (s == AcceptLocal <==> !IsDecided(t, m.me) && 0 < r.prepared == r.promised == r.accepted)
      && (s == PromiseRemote <==> !IsDecided(t, m.me) && r.prepared < r.promised && r.accepted < r.promised)
      && (s == AcceptRemote <==> !IsDecided(t, m.me) && r.prepared < r.promised == r.accepted)
      && (s == Normal <==> !IsDecided(t, m.me) && r.promised == 0)
    // only the decision is written down
    ensures Calc(m).me == m.me && |Calc(m).table| == |m.table|
    ensures Calc(m).Local() == m.Local().(chosen := IsDecided(m.table, m.me))
    ensures forall i :: 0 <= i < |m.table| && i != m.me ==> Calc(m).table[i] == m.table[i]
  {
    assert IsWhole(m.table[m.me]);
    CountAcceptedIsSize(m.table, m.Local().accepted);
    CountPromisedIsSize(m.table, m.Local().promised);
  }

  // ---- accepting ----

  ghost predicate NoneAccepted(t: seq<Record>) {
    forall i :: 0 <= i < |t| ==> t[i].accepted == 0
  }

  // The first of the records with the largest accepted number.
  ghost predicate IsBest(t: seq<Record>, k: nat) {
    && k < |t|
    && (forall i :: 0 <= i < |t| ==> t[i].accepted <= t[k].accepted)
    && (forall i :: 0 <= i < k ==> t[i].accepted < t[k].accepted)
  }

  // An acceptor may accept while it is proposing, once a majority has promised the number or when
  // the number is among the first n.
  lemma AcceptableIs(m: Machine)
    requires WellFormed(m)
    ensures Acceptable(m) <==>
      && !IsDecided(m.table, m.me) && IsProposing(m.Local())
      && (IsPromised(m.table, m.me) || m.Local().promised <= |m.table|)
  {
    StateIs(m);
  }

  // The caller is told the truth: its own value was taken exactly when nobody in the table had
  // accepted anything, and otherwise the value is that of a record accepted highest.
  lemma AcceptTells(m: Machine, p: Payload) returns (k: nat)
    requires WellFormed(m)
    ensures Accept(m, p).0 == Ok <==> Acceptable(m)
    ensures Accept(m, p).0 != Ok ==> Accept(m, p) == (InvalidEntryState, m, false)
    ensures IsBest(m.table, k)
    ensures var (code, m', taken) := Accept(m, p);
      code == Ok ==>
        && (taken <==> NoneAccepted(m.table))
        && m'.me == m.me && |m'.table| == |m.table|
        && m'.Local().accepted == m.Local().promised == m'.Local().promised && m'.Local().prepared == m.Local().prepared
        && Content(m'.Local()) == (if NoneAccepted(m.table) then p else Content(m.table[k]))
        && forall i :: 0 <= i < |m.table| && i != m.me ==> m'.table[i] == m.table[i]
  {
    k := Selected(m.table);
    if Acceptable(m) {
      var best := m.table[k];
      var q := if best.accepted > 0 then Content(best) else p;
      var r := m.Local().(accepted := m.Local().promised, valueId := q.valueId, value := q.value, uuids := q.uuids);
      CalcKeeps(m.(table := m.table[m.me := r]));
      if best.accepted > 0 {
        assert !NoneAccepted(m.table);
      }
    }
  }

  lemma FlagTells(m: Machine, p: Payload)
    requires WellFormed(m)
    ensures Accept(m, p).0 == Ok ==> (Accept(m, p).2 <==> NoneAccepted(m.table))
  {
    var _ := AcceptTells(m, p);
  }

  lemma CalcKeeps(m: Machine)
    requires m.me < |m.table|
    ensures Calc(m).me == m.me && |Calc(m).table| == |m.table|
    ensures Calc(m).Local().(chosen := false) == m.Local().(chosen := false)
    ensures forall i :: 0 <= i < |m.table| && i != m.me ==> Calc(m).table[i] == m.table[i]
  {
  }

  // ---- taking over from a peer ----

  // A peer's accepted number and value are taken over when the peer knows the decision, or when
  // its number is above the local one and nobody of the two has promised more.
  ghost predicate TakesOver(r: Record, peer: Record) {
    peer.chosen || (peer.accepted > r.accepted && peer.accepted >= r.promised && peer.accepted >= peer.promised)
  }

  lemma MergeTakes(r: Record, peer: Record)
    ensures var m := Merge(r, peer);
      && m.prepared == r.prepared && m.idOnly == r.idOnly
      && m.promised >= r.promised && m.promised >= peer.promised && m.promised in {r.promised, peer.promised}
      && (if TakesOver(r, peer) then
            && m.accepted == peer.accepted && m.chosen == peer.chosen && m.valueId == peer.valueId
            && Content(m) == if r.valueId == peer.valueId then Content(r) else Content(peer)
          else m.accepted == r.accepted && m.chosen == r.chosen && Content(m) == Content(r))
  {
  }

  // A peer's valid record that is newer than the one known is kept, whole; one that is not, or
  // not valid, or of nobody, changes nothing.
  lemma UpdateTakes(m: Machine, peer: nat, r: Record)
    requires WellFormed(m) && peer != m.me
    ensures Update(m, peer, r).0 ==
      if peer >= |m.table| then InvalidAcceptorId else if !IsWhole(r) then InvalidRecord else Ok
    ensures var m' := Update(m, peer, r).1;
      if peer < |m.table| && IsWhole(r) && IsNewer(m.table[peer], r) then
        && m'.me == m.me && |m'.table| == |m.table| && m'.table[peer] == r
        && (forall i :: 0 <= i < |m.table| && i != m.me && i != peer ==> m'.table[i] == m.table[i])
        && (if m.Local().chosen then m'.Local() == m.Local()
            else
              var local := Merge(m.Local(), r);
              m'.Local() == local.(chosen := IsDecided(m.table[peer := r][m.me := local], m.me)))
      else m' == m
  {
    StateTells(m);
    if peer < |m.table| && IsWhole(r) && IsNewer(m.table[peer], r) && !m.Local().chosen {
      MergeIsWhole(m.Local(), r);
      StateIs(m.(table := m.table[peer := r][m.me := Merge(m.Local(), r)]));
    }
  }

  // ---- proposing ----

  // The next number is the acceptor's own in the first round of n numbers that the promise has
  // not come into; the very first round is left to the pre-authorised acceptor.
  lemma NextNumberIs(promised: nat, n: nat, me: nat, preAuth: bool)
    requires me < n
    ensures var pn := NextNumber(promised, n, me, preAuth);
      && pn >= me + 1 && (pn - me - 1) % n == 0
      && (if promised == 0 && !preAuth then pn - me - 1 == n
          else promised <= pn - me - 1 < promised + n)
  {
    var k := (promised + n - 1) / n;
    RoundedUp(promised, n);
    ModOffset(k, n, 0);
    ModOffset(1, n, 0);
    assert promised + n - 1 == k * n + (promised + n - 1) % n;
  }
}
