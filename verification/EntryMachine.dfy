/**
  The entry state machine as a value: what each operation makes of the acceptor's table.
  The class EntryStateMachine is proved against these functions.
 */
module EntryMachine {
  import opened EntryRecord

  datatype EntryState =
    | Normal | PromiseLocal | PromiseRemote | MajorityPromise | AcceptRemote | AcceptLocal | IsChosen

  datatype Code = Ok | NotFound | InvalidAcceptorId | InvalidRecord | InvalidEntryState

  // The table holds this acceptor's own record at index me, and the newest known record of
  // every peer at the others.
  datatype Machine = Machine(me: nat, table: seq<Record>, state: EntryState) {
    function Local(): Record
      requires me < |table|
    {
      table[me]
    }
  }

  function Fresh(n: nat, me: nat): Machine {
    Machine(me, seq(n, _ => BLANK), Normal)
  }

  // ---- counting and selecting over the table ----

  function CountAccepted(t: seq<Record>, num: nat): nat {
    if t == [] then 0
    else CountAccepted(t[..|t| - 1], num) + (if t[|t| - 1].accepted == num then 1 else 0)
  }

  function CountPromised(t: seq<Record>, num: nat): nat {
    if t == [] then 0
    else CountPromised(t[..|t| - 1], num) + (if t[|t| - 1].promised == num then 1 else 0)
  }

  // The first index that holds the largest accepted number.
  function Selected(t: seq<Record>): (k: nat)
    requires |t| > 0
    ensures k < |t|
    ensures forall i :: 0 <= i < |t| ==> t[i].accepted <= t[k].accepted
    ensures forall i :: 0 <= i < k ==> t[i].accepted < t[k].accepted
  {
    if |t| == 1 then 0
    else
      var k := Selected(t[..|t| - 1]);
      if t[k].accepted < t[|t| - 1].accepted then |t| - 1 else k
  }

  predicate Majority(count: nat, n: nat) {
    count >= n / 2 + 1
  }

  // ---- the operations ----

  function StateOf(m: Machine): EntryState
    requires m.me < |m.table|
  {
    var r := m.Local();
    if r.chosen then IsChosen
    else if r.accepted > 0 && Majority(CountAccepted(m.table, r.accepted), |m.table|) then IsChosen
    else if r.promised > r.prepared then
      if r.accepted == r.promised then AcceptRemote else PromiseRemote
    else if r.promised == 0 then Normal
    else if r.accepted == r.promised then AcceptLocal
    else if Majority(CountPromised(m.table, r.promised), |m.table|) then MajorityPromise
    else PromiseLocal
  }

  function Calc(m: Machine): Machine
    requires m.me < |m.table|
  {
    var s := StateOf(m);
    m.(state := s, table := if s == IsChosen then m.table[m.me := m.Local().(chosen := true)] else m.table)
  }

  // How the local record moves when a peer's newer record arrives.
  function Merge(r: Record, peer: Record): Record {
    var promised := if r.promised < peer.promised then peer.promised else r.promised;
    if peer.chosen || (promised <= peer.accepted && r.accepted < peer.accepted) then
      var r' := r.(promised := promised, accepted := peer.accepted, chosen := peer.chosen);
      if r.valueId != peer.valueId then
        r'.(valueId := peer.valueId, value := peer.value, uuids := peer.uuids)
      else r'
    else r.(promised := promised)
  }

  function Update(m: Machine, peer: nat, r: Record): (Code, Machine)
    requires m.me < |m.table|
  {
    if peer >= |m.table| then (InvalidAcceptorId, m)
    else if r.idOnly || !IsValid(r) then (InvalidRecord, m)
    else if !IsNewer(m.table[peer], r) then (Ok, m)
    else
      var t := m.table[peer := r];
      if peer == m.me then (Ok, Calc(m.(table := t)))
      else if m.state == IsChosen then (Ok, m.(table := t))
      else (Ok, Calc(m.(table := t[m.me := Merge(m.Local(), r)])))
  }

  function NextNumber(promised: nat, n: nat, me: nat, preAuth: bool): nat
    requires n > 0
  {
    var pn := (promised + n - 1) / n * n + me + 1;
    if !preAuth && pn <= n then pn + n else pn
  }

  function Promise(m: Machine, preAuth: bool): (Code, Machine)
    requires m.me < |m.table|
  {
    var pn := NextNumber(m.Local().promised, |m.table|, m.me, preAuth);
    var m' := Calc(m.(table := m.table[m.me := m.Local().(prepared := pn, promised := pn)]));
    (if m'.state != PromiseLocal then InvalidEntryState else Ok, m')
  }

  predicate Acceptable(m: Machine)
    requires m.me < |m.table|
  {
    m.state == MajorityPromise || (m.state == PromiseLocal && m.Local().promised <= |m.table|)
  }

  // The third component tells whether the caller's own value was taken.
  function Accept(m: Machine, p: Payload): (Code, Machine, bool)
    requires m.me < |m.table|
  {
    if !Acceptable(m) then (InvalidEntryState, m, false)
    else
      var best := m.table[Selected(m.table)];
      var q := if best.accepted > 0 then Content(best) else p;
      var r := m.Local().(accepted := m.Local().promised,
                          valueId := q.valueId, value := q.value, uuids := q.uuids);
      (Ok, Calc(m.(table := m.table[m.me := r])), best.accepted == 0)
  }

  // The lowest index that holds the value id, if any.
  function FindValueId(t: seq<Record>, id: nat): (k: nat)
    ensures k <= |t|
    ensures k < |t| ==> t[k].valueId == id
    ensures forall i :: 0 <= i < k ==> t[i].valueId != id
  {
    if t == [] || t[0].valueId == id then 0 else 1 + FindValueId(t[1..], id)
  }

  // Put an elided value back from the table.  When the table does not hold the value id, the
  // record keeps its numbers and its value id and loses everything else.
  function Restore(t: seq<Record>, r: Record): Record
  {
    var k := FindValueId(t, r.valueId);
    if k < |t| then r.(idOnly := false, value := t[k].value, uuids := t[k].uuids)
    else r.(idOnly := false, value := "", uuids := [], chosen := false)
  }

  // ---- what the machine keeps ----

  ghost predicate WellFormed(m: Machine) {
    && m.me < |m.table|
    && (forall i :: 0 <= i < |m.table| ==> IsWhole(m.table[i]))
    && Calc(m) == m
  }

  // While undecided, the local promise covers every promise known of a peer.
  ghost predicate Leads(m: Machine)
    requires m.me < |m.table|
  {
    !m.Local().chosen ==>
      forall i :: 0 <= i < |m.table| ==> !m.table[i].chosen && m.table[i].promised <= m.Local().promised
  }

  lemma CalcSettles(m: Machine)
    requires m.me < |m.table|
    requires forall i :: 0 <= i < |m.table| ==> IsWhole(m.table[i])
    ensures WellFormed(Calc(m))
  {
    var r := m.Local();
    if !r.chosen && r.accepted > 0 && Majority(CountAccepted(m.table, r.accepted), |m.table|) {
      assert Calc(m).Local() == r.(chosen := true);
    }
  }

  // What the state says of the local record.
  lemma StateTells(m: Machine)
    requires WellFormed(m)
    ensures m.state == IsChosen <==> m.Local().chosen
    ensures Acceptable(m) ==> m.Local().promised > 0 && m.Local().accepted < m.Local().promised
  {
    assert m.state == StateOf(m) && IsWhole(m.Local());
  }

  // Merging keeps a record whole and never lowers a number unless the entry gets decided.
  lemma MergeIsWhole(r: Record, peer: Record)
    requires IsWhole(r) && IsWhole(peer) && !r.chosen
    ensures IsWhole(Merge(r, peer))
    ensures Merge(r, peer).prepared == r.prepared
    ensures Merge(r, peer).promised >= r.promised && Merge(r, peer).promised >= peer.promised
    ensures Merge(r, peer).chosen == peer.chosen
    ensures !peer.chosen ==> Merge(r, peer).accepted >= r.accepted
    ensures Merge(r, peer) != r ==> IsNewer(r, Merge(r, peer))
  {
  }

  lemma UpdateKeeps(m: Machine, peer: nat, r: Record)
    requires WellFormed(m)
    ensures WellFormed(Update(m, peer, r).1)
    ensures Leads(m) && (peer != m.me || forall i :: 0 <= i < |m.table| ==> m.table[i] == BLANK)
            ==> Leads(Update(m, peer, r).1)
  {
    if peer < |m.table| && IsWhole(r) && IsNewer(m.table[peer], r) {
      var t := m.table[peer := r];
      if peer == m.me {
        CalcSettles(m.(table := t));
      } else if m.state == IsChosen {
        assert m.Local().chosen;
      } else {
        MergeIsWhole(m.Local(), r);
        CalcSettles(m.(table := t[m.me := Merge(m.Local(), r)]));
      }
    }
  }

  lemma PromiseKeeps(m: Machine, preAuth: bool)
    requires WellFormed(m)
    ensures WellFormed(Promise(m, preAuth).1)
    ensures Leads(m) ==> Leads(Promise(m, preAuth).1)
  {
    NextNumberGrows(m.Local().promised, |m.table|, m.me, preAuth);
    var pn := NextNumber(m.Local().promised, |m.table|, m.me, preAuth);
    CalcSettles(m.(table := m.table[m.me := m.Local().(prepared := pn, promised := pn)]));
  }

  lemma AcceptKeeps(m: Machine, p: Payload)
    requires WellFormed(m) && p.valueId > 0
    ensures WellFormed(Accept(m, p).1)
    ensures Leads(m) ==> Leads(Accept(m, p).1)
  {
    if Acceptable(m) {
      var best := m.table[Selected(m.table)];
      var q := if best.accepted > 0 then Content(best) else p;
      var r := m.Local().(accepted := m.Local().promised,
                          valueId := q.valueId, value := q.value, uuids := q.uuids);
      assert IsWhole(r);
      CalcSettles(m.(table := m.table[m.me := r]));
    }
  }

  lemma {:induction false} FindIsFirst(t: seq<Record>, id: nat, k: nat)
    requires k <= |t| && (k < |t| ==> t[k].valueId == id)
    requires forall i :: 0 <= i < k ==> t[i].valueId != id
    ensures FindValueId(t, id) == k
  {
    if k > 0 {
      FindIsFirst(t[1..], id, k - 1);
    }
  }

  // ---- where Promise and Accept land ----

  // A new promise of an undecided acceptor that covers its peers is known to nobody else yet.
  lemma PromiseLandsLocal(m: Machine, preAuth: bool)
    requires WellFormed(m) && Leads(m) && |m.table| >= 2 && !m.Local().chosen
    ensures Promise(m, preAuth).0 == Ok && Promise(m, preAuth).1.state == PromiseLocal
    ensures var pn := NextNumber(m.Local().promised, |m.table|, m.me, preAuth);
      Promise(m, preAuth).1.table == m.table[m.me := m.Local().(prepared := pn, promised := pn)]
  {
    var n := |m.table|;
    var pn := NextNumber(m.Local().promised, n, m.me, preAuth);
    NextNumberGrows(m.Local().promised, n, m.me, preAuth);
    var t := m.table[m.me := m.Local().(prepared := pn, promised := pn)];
    CountAcceptedIsSize(m.table, m.Local().accepted);
    CountAcceptedIsSize(t, m.Local().accepted);
    assert AcceptedBy(t, m.Local().accepted) == AcceptedBy(m.table, m.Local().accepted);
    CountPromisedIsSize(t, pn);
    assert PromisedBy(t, pn) == {m.me};
  }

  lemma AcceptLandsLocal(m: Machine, p: Payload)
    requires WellFormed(m) && |m.table| >= 2 && Acceptable(m)
    requires forall i :: 0 <= i < |m.table| && i != m.me ==> m.table[i].accepted != m.Local().promised
    ensures Accept(m, p).0 == Ok && Accept(m, p).1.state == AcceptLocal
    ensures !Accept(m, p).1.Local().chosen
  {
    var best := m.table[Selected(m.table)];
    var q := if best.accepted > 0 then Content(best) else p;
    var num := m.Local().promised;
    var t := m.table[m.me := m.Local().(accepted := num, valueId := q.valueId, value := q.value,
                                        uuids := q.uuids)];
    CountAcceptedIsSize(t, num);
    assert AcceptedBy(t, num) == {m.me};
  }

  // ---- proposal numbers ----

  predicate Owns(me: nat, num: nat, n: nat)
    requires n > 0
  {
    num > 0 && (num - 1) % n == me
  }

  // A new number is above the promise, carries its owner's residue, and is one of the first n
  // only for a pre-authorised first proposal.
  lemma NextNumberGrows(promised: nat, n: nat, me: nat, preAuth: bool)
    requires me < n
    ensures NextNumber(promised, n, me, preAuth) > promised
    ensures Owns(me, NextNumber(promised, n, me, preAuth), n)
    ensures NextNumber(promised, n, me, preAuth) <= n <==> preAuth && promised == 0
  {
    RoundedUp(promised, n);
    var k := (promised + n - 1) / n;
    ModOffset(k, n, me);
    ModOffset(k + 1, n, me);
    assert (k + 1) * n == k * n + n;
  }

  lemma RoundedUp(p: nat, n: nat)
    requires n > 0
    ensures var k := (p + n - 1) / n; p <= k * n && (p == 0 ==> k == 0) && (p > 0 ==> k * n >= n)
  {
    var k := (p + n - 1) / n;
    assert p + n - 1 == k * n + (p + n - 1) % n;
    if p > 0 {
      MulMonotone(1, k, n);
    }
  }

  lemma ModOffset(k: nat, n: nat, r: nat)
    requires r < n
    ensures (k * n + r) % n == r
  {
    var x := k * n + r;
    var q := x / n;
    assert x == q * n + x % n;
    MulMonotone(k + 1, q, n);
    MulMonotone(q + 1, k, n);
  }

  lemma MulMonotone(a: nat, b: nat, n: nat)
    ensures a <= b ==> a * n <= b * n
  {
  }

  // ---- counts and sets of acceptors ----

  ghost function AcceptedBy(t: seq<Record>, num: nat): (s: set<nat>) {
    set i: nat | i < |t| && t[i].accepted == num
  }

  ghost function PromisedBy(t: seq<Record>, num: nat): (s: set<nat>) {
    set i: nat | i < |t| && t[i].promised == num
  }

  lemma {:induction false} CountAcceptedIsSize(t: seq<Record>, num: nat)
    ensures CountAccepted(t, num) == |AcceptedBy(t, num)|
  {
    if t != [] {
      var last := |t| - 1;
      CountAcceptedIsSize(t[..last], num);
      assert AcceptedBy(t, num) ==
             AcceptedBy(t[..last], num) + (if t[last].accepted == num then {last} else {});
    }
  }

  lemma {:induction false} CountPromisedIsSize(t: seq<Record>, num: nat)
    ensures CountPromised(t, num) == |PromisedBy(t, num)|
  {
    if t != [] {
      var last := |t| - 1;
      CountPromisedIsSize(t[..last], num);
      assert PromisedBy(t, num) ==
             PromisedBy(t[..last], num) + (if t[last].promised == num then {last} else {});
    }
  }
}
