/** A queue of elements by deadline, ties in the order they were added. */
module DeadlineQueue {

  datatype Item<T> = Item(elt: T, due: nat)

  predicate Sorted<T>(q: seq<Item<T>>) {
    forall i, j :: 0 <= i < j < |q| ==> q[i].due <= q[j].due
  }

  predicate Distinct<T(==)>(q: seq<Item<T>>) {
    forall i, j :: 0 <= i < j < |q| ==> q[i].elt != q[j].elt
  }

  predicate Has<T(==)>(q: seq<Item<T>>, elt: T) {
    exists i :: 0 <= i < |q| && q[i].elt == elt
  }

  // Behind everything that is due no later.
  function Insert<T>(q: seq<Item<T>>, x: Item<T>): seq<Item<T>> {
    if q == [] || x.due < q[0].due then [x] + q else [q[0]] + Insert(q[1..], x)
  }

  function Without<T(==)>(q: seq<Item<T>>, elt: T): seq<Item<T>> {
    if q == [] then [] else if q[0].elt == elt then q[1..] else [q[0]] + Without(q[1..], elt)
  }

  // The item of an element, if it is there.
  function ItemOf<T(==)>(q: seq<Item<T>>, elt: T): seq<Item<T>> {
    if q == [] then [] else if q[0].elt == elt then [q[0]] else ItemOf(q[1..], elt)
  }

  lemma {:induction false} WithoutTakes<T>(q: seq<Item<T>>, elt: T)
    ensures multiset(q) == multiset(Without(q, elt)) + multiset(ItemOf(q, elt))
  {
    if q != [] {
      assert q == [q[0]] + q[1..];
      if q[0].elt != elt {
        WithoutTakes(q[1..], elt);
      }
    }
  }

  lemma {:induction false} InsertAt<T>(a: seq<Item<T>>, b: seq<Item<T>>, x: Item<T>)
    requires forall i :: 0 <= i < |a| ==> a[i].due <= x.due
    requires forall i :: 0 <= i < |b| ==> x.due < b[i].due
    ensures Insert(a + b, x) == a + [x] + b
  {
    if a == [] {
      assert a + b == b;
    } else {
      assert (a + b)[1..] == a[1..] + b;
      InsertAt(a[1..], b, x);
      assert a == [a[0]] + a[1..];
    }
  }

  lemma {:induction false} InsertAdds<T>(q: seq<Item<T>>, x: Item<T>)
    ensures multiset(Insert(q, x)) == multiset(q) + multiset{x} && |Insert(q, x)| == |q| + 1
  {
    if q != [] && x.due >= q[0].due {
      InsertAdds(q[1..], x);
      assert q == [q[0]] + q[1..];
    }
  }

  lemma {:induction false} InsertIn<T>(q: seq<Item<T>>, x: Item<T>, i: nat)
    requires i < |Insert(q, x)|
    ensures Insert(q, x)[i] == x || Insert(q, x)[i] in q
  {
    if q != [] && x.due >= q[0].due && i > 0 {
      InsertIn(q[1..], x, i - 1);
    }
  }

  lemma {:induction false} InsertKeeps<T>(q: seq<Item<T>>, x: Item<T>)
    requires Sorted(q)
    ensures Sorted(Insert(q, x))
  {
    if q != [] && x.due >= q[0].due {
      InsertKeeps(q[1..], x);
      var r := Insert(q[1..], x);
      forall i, j | 0 <= i < j < |r| + 1 ensures ([q[0]] + r)[i].due <= ([q[0]] + r)[j].due {
        if i == 0 {
          InsertIn(q[1..], x, j - 1);
        }
      }
    }
  }

  lemma {:induction false} WithoutAt<T>(a: seq<Item<T>>, x: Item<T>, b: seq<Item<T>>)
    requires forall i :: 0 <= i < |a| ==> a[i].elt != x.elt
    ensures Without(a + [x] + b, x.elt) == a + b
  {
    if a == [] {
      assert (a + [x] + b)[1..] == b;
      assert a + b == b;
    } else {
      assert (a + [x] + b)[1..] == a[1..] + [x] + b;
      WithoutAt(a[1..], x, b);
      assert a == [a[0]] + a[1..];
    }
  }

  lemma {:induction false} NotThere<T>(q: seq<Item<T>>, elt: T)
    requires !Has(q, elt)
    ensures Without(q, elt) == q
  {
    if q != [] {
      assert q[0].elt != elt;
      assert !Has(q[1..], elt) by {
        forall i | 0 <= i < |q[1..]| ensures q[1..][i].elt != elt {
          assert q[1..][i] == q[i + 1];
        }
      }
      NotThere(q[1..], elt);
    }
  }

  // One item taken out of the middle.
  lemma OneOut<T>(q: seq<Item<T>>, a: seq<Item<T>>, x: Item<T>, b: seq<Item<T>>)
    requires Sorted(q) && Distinct(q) && q == a + [x] + b
    ensures Without(q, x.elt) == a + b && Sorted(a + b) && Distinct(a + b) && |a + b| == |q| - 1
    ensures !Has(a + b, x.elt)
  {
    hide Without;
    forall i | 0 <= i < |a| ensures a[i].elt != x.elt {
      assert q[i] == a[i] && q[|a|] == x;
    }
    forall i | 0 <= i < |b| ensures b[i].elt != x.elt {
      assert q[|a| + 1 + i] == b[i] && q[|a|] == x;
    }
    WithoutAt(a, x, b);
    var r := a + b;
    forall i | 0 <= i < |r| ensures r[i] == q[if i < |a| then i else i + 1] {
    }
  }

  // ---- what such a queue guarantees over a run ----

  // The queue, how much of its front has been found due, the clock, and what has been added,
  // taken and removed so far.
  datatype Timer<T> = Timer(
    q: seq<Item<T>>, ready: nat, clock: nat, added: seq<Item<T>>, taken: seq<Item<T>>, removed: seq<Item<T>>)

  datatype Op<T> = Add(elt: T, timeout: nat, now: nat) | Remove(elt: T) | Take(now: nat)

  // How many elements at the front are due by the clock.
  function DueBy<T>(q: seq<Item<T>>, clock: nat): (n: nat)
    ensures n <= |q| && (forall i :: 0 <= i < n ==> q[i].due <= clock) && (n < |q| ==> clock < q[n].due)
  {
    if q == [] || clock < q[0].due then 0 else 1 + DueBy(q[1..], clock)
  }

  ghost predicate IsReady<T>(t: Timer<T>, elt: T) {
    exists i :: 0 <= i < |t.q| && i < t.ready && t.q[i].elt == elt
  }

  function Later(clock: nat, now: nat): nat {
    if clock < now then now else clock
  }

  // An element is put behind those that are due by now.  The clock is looked at to take one only
  // when none is ready.
  ghost function Apply<T>(t: Timer<T>, op: Op<T>): Timer<T> {
    match op
    case Add(elt, timeout, now) =>
      if Has(t.q, elt) then t
      else
        var x := Item(elt, Later(t.clock, now) + timeout);
        var clock := Later(t.clock, now);
        t.(q := Insert(t.q, x), ready := DueBy(t.q, clock), clock := clock, added := t.added + [x])
    case Remove(elt) =>
      t.(q := Without(t.q, elt), ready := if IsReady(t, elt) then t.ready - 1 else t.ready,
         removed := t.removed + ItemOf(t.q, elt))
    case Take(now) =>
      var clock := if t.ready > 0 then t.clock else Later(t.clock, now);
      var ready := if t.ready > 0 then t.ready else DueBy(t.q, clock);
      if ready == 0 || t.q == [] then t.(ready := ready, clock := clock)
      else t.(q := t.q[1..], ready := ready - 1, clock := clock, taken := t.taken + [t.q[0]])
  }

  function New<T>(clock: nat): Timer<T> {
    Timer([], 0, clock, [], [], [])
  }

  ghost function ApplyAll<T>(clock: nat, ops: seq<Op<T>>): Timer<T> {
    if ops == [] then New(clock) else Apply(ApplyAll(clock, ops[..|ops| - 1]), ops[|ops| - 1])
  }

  ghost predicate InOrder<T>(t: Timer<T>) {
    && Sorted(t.q) && Sorted(t.taken)
    && t.ready <= |t.q| && (forall i :: 0 <= i < t.ready ==> t.q[i].due <= t.clock)
    && (forall i :: 0 <= i < |t.taken| ==> t.taken[i].due <= t.clock)
    && (forall i, j :: 0 <= i < |t.taken| && 0 <= j < |t.q| ==> t.taken[i].due <= t.q[j].due)
  }

  ghost predicate AllThere<T>(t: Timer<T>) {
    multiset(t.added) == multiset(t.q) + multiset(t.taken) + multiset(t.removed)
  }

  lemma {:induction false} WithoutIsPart<T>(q: seq<Item<T>>, elt: T)
    requires Sorted(q)
    ensures Sorted(Without(q, elt)) && forall i :: 0 <= i < |Without(q, elt)| ==> Without(q, elt)[i] in q
  {
    if q != [] && q[0].elt != elt {
      WithoutIsPart(q[1..], elt);
      var r := Without(q[1..], elt);
      forall i, j | 0 <= i < j < |Without(q, elt)| ensures Without(q, elt)[i].due <= Without(q, elt)[j].due {
        if i == 0 {
          assert r[j - 1] in q[1..];
        }
      }
    }
  }

  // What is due no later stays in front.
  lemma {:induction false} InsertBehind<T>(q: seq<Item<T>>, x: Item<T>, n: nat)
    requires n <= |q| && forall i :: 0 <= i < n ==> q[i].due <= x.due
    ensures |Insert(q, x)| == |q| + 1 && Insert(q, x)[..n] == q[..n]
  {
    if q != [] && x.due >= q[0].due {
      InsertBehind(q[1..], x, if n > 0 then n - 1 else 0);
    }
  }

  // The first place of an element, and the queue without it.
  lemma {:induction false} WithoutSplits<T>(q: seq<Item<T>>, elt: T) returns (k: nat)
    requires Has(q, elt)
    ensures k < |q| && q[k].elt == elt && Without(q, elt) == q[..k] + q[k + 1..]
    ensures forall i :: 0 <= i < k ==> q[i].elt != elt
  {
    if q[0].elt == elt {
      k := 0;
    } else {
      var i :| 0 <= i < |q| && q[i].elt == elt;
      assert q[1..][i - 1].elt == elt;
      k := WithoutSplits(q[1..], elt);
      assert [q[0]] + (q[1..][..k] + q[1..][k + 1..]) == q[..k + 1] + q[k + 2..];
      k := k + 1;
    }
  }

  lemma RemoveKeepsReady<T>(t: Timer<T>, elt: T)
    requires InOrder(t)
    ensures var t' := Apply(t, Op.Remove(elt));
      t'.ready <= |t'.q| && forall i :: 0 <= i < t'.ready ==> t'.q[i].due <= t'.clock
  {
    if Has(t.q, elt) {
      var k := WithoutSplits(t.q, elt);
    } else {
      NotThere(t.q, elt);
    }
  }

  lemma AddKeepsOrder<T>(t: Timer<T>, x: Item<T>, clock: nat)
    requires InOrder(t) && t.clock <= clock <= x.due
    ensures InOrder(t.(q := Insert(t.q, x), ready := DueBy(t.q, clock), clock := clock, added := t.added + [x]))
  {
    InsertKeeps(t.q, x);
    InsertBehind(t.q, x, DueBy(t.q, clock));
    forall j | 0 <= j < |Insert(t.q, x)| ensures Insert(t.q, x)[j] == x || Insert(t.q, x)[j] in t.q {
      InsertIn(t.q, x, j);
    }
  }

  lemma OpKeepsOrder<T>(t: Timer<T>, op: Op<T>)
    requires InOrder(t)
    ensures InOrder(Apply(t, op)) && t.clock <= Apply(t, op).clock
  {
    hide Insert, Without, ItemOf;
    match op
    case Add(elt, timeout, now) =>
      AddKeepsOrder(t, Item(elt, Later(t.clock, now) + timeout), Later(t.clock, now));
    case Remove(elt) =>
      WithoutIsPart(t.q, elt);
      RemoveKeepsReady(t, elt);
    case Take(now) =>
  }

  lemma HeadTaken<T>(q: seq<T>)
    requires q != []
    ensures multiset(q) == multiset(q[1..]) + multiset{q[0]}
  {
    assert q == [q[0]] + q[1..];
  }

  lemma AddLosesNothing<T>(t: Timer<T>, x: Item<T>, ready: nat, clock: nat)
    requires AllThere(t)
    ensures AllThere(t.(q := Insert(t.q, x), ready := ready, clock := clock, added := t.added + [x]))
  {
    InsertAdds(t.q, x);
  }

  lemma TakeLosesNothing<T>(t: Timer<T>, ready: nat, clock: nat)
    requires AllThere(t) && t.q != []
    ensures AllThere(t.(q := t.q[1..], ready := ready, clock := clock, taken := t.taken + [t.q[0]]))
  {
    HeadTaken(t.q);
  }

  lemma RemoveLosesNothing<T>(t: Timer<T>, elt: T, ready: nat)
    requires AllThere(t)
    ensures AllThere(t.(q := Without(t.q, elt), ready := ready, removed := t.removed + ItemOf(t.q, elt)))
  {
    hide Without, ItemOf;
    WithoutTakes(t.q, elt);
  }

  lemma OpLosesNothing<T>(t: Timer<T>, op: Op<T>)
    requires AllThere(t)
    ensures AllThere(Apply(t, op))
  {
    hide Insert, Without, ItemOf;
    match op
    case Add(elt, timeout, now) =>
      var clock := Later(t.clock, now);
      AddLosesNothing(t, Item(elt, clock + timeout), DueBy(t.q, clock), clock);
    case Remove(elt) => RemoveLosesNothing(t, elt, Apply(t, op).ready);
    case Take(now) =>
      if t.q != [] {
        TakeLosesNothing(t, Apply(t, op).ready, Apply(t, op).clock);
      }
  }

  // An element is handed out if and only if the earliest is due by the later of the two clocks,
  // and it is the earliest.
  lemma TakeAnswers<T>(t: Timer<T>, now: nat)
    requires InOrder(t)
    ensures var t' := Apply(t, Take(now));
      && (if t.q != [] && t.q[0].due <= Later(t.clock, now) then t'.taken == t.taken + [t.q[0]] && t'.q == t.q[1..]
          else t'.taken == t.taken && t'.q == t.q)
      && t'.clock == (if t.ready > 0 then t.clock else Later(t.clock, now))
    ensures forall i :: 0 <= i < |t.q| ==> t.q[0].due <= t.q[i].due
  {
  }

  // A new element is queued, due a timeout after the later of the two clocks; one that is there
  // stays as it is.
  lemma AddAnswers<T>(t: Timer<T>, elt: T, timeout: nat, now: nat)
    ensures var t' := Apply(t, Op.Add(elt, timeout, now));
      if Has(t.q, elt) then t' == t
      else
        && multiset(t'.q) == multiset(t.q) + multiset{Item(elt, Later(t.clock, now) + timeout)}
        && t'.added == t.added + [Item(elt, Later(t.clock, now) + timeout)]
        && t'.clock == Later(t.clock, now) && t'.taken == t.taken && t'.removed == t.removed
  {
    InsertAdds(t.q, Item(elt, Later(t.clock, now) + timeout));
  }

  // An element that is removed is queued no more, and every other stays.
  lemma RemoveAnswers<T>(t: Timer<T>, elt: T)
    requires Distinct(t.q)
    ensures var t' := Apply(t, Op.Remove(elt));
      && !Has(t'.q, elt) && multiset(t.q) == multiset(t'.q) + multiset(ItemOf(t.q, elt))
      && t'.taken == t.taken && t'.clock == t.clock && (!Has(t.q, elt) ==> t'.q == t.q)
  {
    WithoutTakes(t.q, elt);
    if Has(t.q, elt) {
      var k := WithoutSplits(t.q, elt);
      forall i | 0 <= i < |Without(t.q, elt)| ensures Without(t.q, elt)[i].elt != elt {
        assert Without(t.q, elt)[i] == t.q[if i < k then i else i + 1];
      }
    } else {
      NotThere(t.q, elt);
    }
  }

  // Whatever is added, removed and taken, and however the clock jumps: elements come out in the
  // order of their deadlines and never before them, and each that was added comes out once,
  // unless it is removed or still there.
  lemma {:induction false} TakenInOrder<T>(clock: nat, ops: seq<Op<T>>)
    ensures var t := ApplyAll(clock, ops);
      && InOrder(t) && AllThere(t)
      && forall i, j :: 0 <= i < j < |t.taken| ==> t.taken[i].due <= t.taken[j].due <= t.clock
  {
    if ops != [] {
      var t := ApplyAll(clock, ops[..|ops| - 1]);
      TakenInOrder(clock, ops[..|ops| - 1]);
      OpKeepsOrder(t, ops[|ops| - 1]);
      OpLosesNothing(t, ops[|ops| - 1]);
    }
  }
}

/**
  Certain's timer: a wheel of lists, one for each millisecond up to the largest timeout, and a
  list of what is ready.  It is a deadline queue, for any reading of the clock.
 */
module ArrayTimer {
  import opened DeadlineQueue

  const READY := -1

  // Position i of the wheel counted from the current one.
  function Slot(curr: nat, i: nat, max: nat): (k: nat)
    requires curr <= max && i <= max
    ensures k <= max
  {
    if curr + i >= max + 1 then curr + i - (max + 1) else curr + i
  }

  // A list is written from its last element, where it is taken, to its first, where it grows.
  function Due<T>(list: seq<T>, due: nat): (q: seq<Item<T>>)
    ensures |q| == |list| && forall k :: 0 <= k < |q| ==> q[k] == Item(list[k], due)
  {
    seq(|list|, k requires 0 <= k < |list| => Item(list[k], due))
  }

  function Ready<T>(list: seq<T>, dues: seq<nat>): (q: seq<Item<T>>)
    requires |list| == |dues|
    ensures |q| == |list| && forall k :: 0 <= k < |q| ==> q[k] == Item(list[k], dues[k])
  {
    seq(|list|, k requires 0 <= k < |list| => Item(list[k], dues[k]))
  }

  // The wheel from position i on, in the order of its deadlines.
  function Wheel<T>(lists: seq<seq<T>>, max: nat, curr: nat, time: nat, i: nat): seq<Item<T>>
    requires |lists| == max + 1 && curr <= max && i <= max + 1
    decreases max + 1 - i
  {
    if i == max + 1 then [] else Due(lists[Slot(curr, i, max)], time + i) + Wheel(lists, max, curr, time, i + 1)
  }

  // ---- the wheel ----

  lemma {:induction false} WheelSame<T>(lists: seq<seq<T>>, lists': seq<seq<T>>, max: nat, curr: nat, time: nat, i: nat)
    requires |lists| == |lists'| == max + 1 && curr <= max && i <= max + 1
    requires forall j :: i <= j <= max ==> lists[Slot(curr, j, max)] == lists'[Slot(curr, j, max)]
    ensures Wheel(lists, max, curr, time, i) == Wheel(lists', max, curr, time, i)
    decreases max + 1 - i
  {
    if i <= max {
      WheelSame(lists, lists', max, curr, time, i + 1);
    }
  }

  lemma {:induction false} WheelEmpty<T>(lists: seq<seq<T>>, max: nat, curr: nat, time: nat, i: nat)
    requires |lists| == max + 1 && curr <= max && i <= max + 1
    requires forall j :: i <= j <= max ==> lists[Slot(curr, j, max)] == []
    ensures Wheel(lists, max, curr, time, i) == []
    decreases max + 1 - i
  {
    if i <= max {
      WheelEmpty(lists, max, curr, time, i + 1);
    }
  }

  // Turning the wheel past emptied positions keeps what is left on it.
  lemma {:induction false} WheelTurns<T>(lists: seq<seq<T>>, max: nat, curr: nat, time: nat, range: nat, i: nat)
    requires |lists| == max + 1 && curr <= max && range <= max && i <= max + 1 - range
    requires forall j :: 0 <= j <= range ==> lists[Slot(curr, j, max)] == []
    ensures Wheel(lists, max, Slot(curr, range, max), time + range, i) == Wheel(lists, max, curr, time, i + range)
    decreases max + 1 - i
  {
    var next := Slot(curr, range, max);
    if i + range <= max {
      WheelTurns(lists, max, curr, time, range, i + 1);
      assert Slot(next, i, max) == Slot(curr, i + range, max);
    } else {
      forall j | i <= j <= max ensures lists[Slot(next, j, max)] == [] {
        assert Slot(next, j, max) == Slot(curr, j + range - (max + 1), max);
      }
      WheelEmpty(lists, max, next, time + range, i);
    }
  }

  lemma {:induction false} WheelDues<T>(lists: seq<seq<T>>, max: nat, curr: nat, time: nat, i: nat)
    requires |lists| == max + 1 && curr <= max && i <= max + 1
    ensures forall k :: 0 <= k < |Wheel(lists, max, curr, time, i)| ==> time + i <= Wheel(lists, max, curr, time, i)[k].due
    decreases max + 1 - i
  {
    if i <= max {
      WheelDues(lists, max, curr, time, i + 1);
    }
  }

  // Emptying one position empties no other and keeps what is behind it.
  lemma Emptied<T>(lists: seq<seq<T>>, max: nat, curr: nat, time: nat, i: nat)
    requires |lists| == max + 1 && curr <= max && i <= max
    ensures var lists' := lists[Slot(curr, i, max) := []];
      && Wheel(lists', max, curr, time, i + 1) == Wheel(lists, max, curr, time, i + 1)
      && forall j :: 0 <= j <= max && j != i ==> lists'[Slot(curr, j, max)] == lists[Slot(curr, j, max)]
  {
    WheelSame(lists, lists[Slot(curr, i, max) := []], max, curr, time, i + 1);
  }

  // The wheel around position m: what is before the list there and what is behind it.
  lemma {:induction false} WheelAround<T>(lists: seq<seq<T>>, list: seq<T>, max: nat, curr: nat, time: nat, m: nat, i: nat)
    returns (a: seq<Item<T>>, b: seq<Item<T>>)
    requires |lists| == max + 1 && curr <= max && i <= m <= max
    ensures var k := Slot(curr, m, max);
      && Wheel(lists, max, curr, time, i) == a + Due(lists[k], time + m) + b
      && Wheel(lists[k := list], max, curr, time, i) == a + Due(list, time + m) + b
    ensures forall k :: 0 <= k < |a| ==> a[k].due < time + m
    ensures forall k :: 0 <= k < |b| ==> time + m < b[k].due
    decreases max + 1 - i
  {
    var k := Slot(curr, m, max);
    if i == m {
      a, b := [], Wheel(lists, max, curr, time, m + 1);
      WheelSame(lists, lists[k := list], max, curr, time, m + 1);
      WheelDues(lists, max, curr, time, m + 1);
      assert a + Due(lists[k], time + m) == Due(lists[k], time + m) && a + Due(list, time + m) == Due(list, time + m);
    } else {
      a, b := WheelAround(lists, list, max, curr, time, m, i + 1);
      var here := Due(lists[Slot(curr, i, max)], time + i);
      assert here + (a + Due(lists[k], time + m) + b) == (here + a) + Due(lists[k], time + m) + b;
      assert here + (a + Due(list, time + m) + b) == (here + a) + Due(list, time + m) + b;
      a := here + a;
    }
  }

  lemma WheelStep<T>(lists: seq<seq<T>>, max: nat, curr: nat, time: nat, i: nat)
    requires |lists| == max + 1 && curr <= max && i <= max
    ensures Wheel(lists, max, curr, time, i) ==
            Due(lists[Slot(curr, i, max)], time + i) + Wheel(lists, max, curr, time, i + 1)
  {
  }

  lemma {:induction false} WheelHolds<T>(lists: seq<seq<T>>, max: nat, curr: nat, time: nat, i: nat, n: nat)
    returns (k: nat, p: nat)
    requires |lists| == max + 1 && curr <= max && i <= max + 1 && n < |Wheel(lists, max, curr, time, i)|
    ensures k <= max && p < |lists[k]| && Wheel(lists, max, curr, time, i)[n].elt == lists[k][p]
    decreases max + 1 - i
  {
    k := Slot(curr, i, max);
    if n < |lists[k]| {
      p := n;
    } else {
      k, p := WheelHolds(lists, max, curr, time, i + 1, n - |lists[k]|);
    }
  }

  lemma BackIsDistinct<T>(q: seq<Item<T>>, a: seq<Item<T>>, b: seq<Item<T>>)
    requires Distinct(q) && q == a + b
    ensures Distinct(b)
  {
    forall i, j | 0 <= i < j < |b| ensures b[i].elt != b[j].elt {
      assert q[|a| + i] == b[i] && q[|a| + j] == b[j];
    }
  }

  lemma OneIn<T>(a: seq<Item<T>>, x: Item<T>, b: seq<Item<T>>)
    requires Distinct(a + b) && !Has(a + b, x.elt)
    ensures Distinct(a + [x] + b)
  {
    var q, r := a + b, a + [x] + b;
    forall i, j | 0 <= i < j < |r| ensures r[i].elt != r[j].elt {
      var i', j' := if i < |a| then i else i - 1, if j < |a| then j else j - 1;
      assert i != |a| ==> r[i] == q[i'];
      assert j != |a| ==> r[j] == q[j'];
    }
  }

  lemma PlacedWith<T(!new)>(lists: seq<seq<T>>, ready: seq<T>, index: map<T, int>, k: nat, elt: T)
    requires PlacedIn(lists, ready, index) && k < |lists| && elt !in index
    ensures PlacedIn(lists[k := lists[k] + [elt]], ready, index[elt := k])
  {
  }

  lemma DueSplits<T>(list: seq<T>, p: nat, due: nat)
    requires p < |list|
    ensures Due(list, due) == Due(list[..p], due) + [Item(list[p], due)] + Due(list[p + 1..], due)
    ensures Due(list[..p] + list[p + 1..], due) == Due(list[..p], due) + Due(list[p + 1..], due)
  {
  }

  // Every element knows the list it is in.
  ghost predicate PlacedIn<T(!new)>(lists: seq<seq<T>>, ready: seq<T>, index: map<T, int>) {
    && (forall k, e :: 0 <= k < |lists| && e in lists[k] ==> e in index && index[e] == k)
    && (forall e :: e in ready ==> e in index && index[e] == READY)
    && (forall e :: e in index ==>
          if index[e] == READY then e in ready else 0 <= index[e] < |lists| && e in lists[index[e]])
  }

  ghost predicate NoneTwice<T>(list: seq<T>) {
    forall p, q :: 0 <= p < q < |list| ==> list[p] != list[q]
  }

  lemma PartNoneTwice<T>(q: seq<Item<T>>, a: seq<Item<T>>, part: seq<Item<T>>, list: seq<T>, b: seq<Item<T>>)
    requires Distinct(q) && q == a + (part + b)
    requires |part| == |list| && forall k :: 0 <= k < |list| ==> part[k].elt == list[k]
    ensures NoneTwice(list)
  {
    forall i, j | 0 <= i < j < |list| ensures list[i] != list[j] {
      assert q[|a| + i] == part[i] && q[|a| + j] == part[j];
    }
  }

  lemma OneLess<T(!new)>(list: seq<T>, p: nat)
    requires NoneTwice(list) && p < |list|
    ensures forall e :: e in list[..p] + list[p + 1..] <==> e in list && e != list[p]
  {
    var rest := list[..p] + list[p + 1..];
    forall e | e in list && e != list[p] ensures e in rest {
      var i :| 0 <= i < |list| && list[i] == e;
      assert rest[if i < p then i else i - 1] == e;
    }
    forall e | e in rest ensures e in list && e != list[p] {
      var i :| 0 <= i < |rest| && rest[i] == e;
      assert list[if i < p then i else i + 1] == e;
    }
  }

  lemma ReadyWithout<T(!new)>(lists: seq<seq<T>>, ready: seq<T>, index: map<T, int>, p: nat)
    requires PlacedIn(lists, ready, index) && NoneTwice(ready) && p < |ready|
    ensures PlacedIn(lists, ready[..p] + ready[p + 1..], index - {ready[p]})
  {
    OneLess(ready, p);
    forall k, e | 0 <= k < |lists| && e in lists[k] ensures e != ready[p] {
      assert index[e] == k && ready[p] in ready;
    }
  }

  lemma ListWithout<T(!new)>(lists: seq<seq<T>>, ready: seq<T>, index: map<T, int>, k: nat, p: nat)
    requires PlacedIn(lists, ready, index) && k < |lists| && NoneTwice(lists[k]) && p < |lists[k]|
    ensures PlacedIn(lists[k := lists[k][..p] + lists[k][p + 1..]], ready, index - {lists[k][p]})
  {
    OneLess(lists[k], p);
    forall e | e in ready ensures e != lists[k][p] {
      assert index[e] == READY && lists[k][p] in lists[k];
    }
    forall j, e | 0 <= j < |lists| && j != k && e in lists[j] ensures e != lists[k][p] {
      assert index[e] == j && lists[k][p] in lists[k];
    }
  }

  // The wheel around one element.
  lemma WheelLess<T(!new)>(lists: seq<seq<T>>, max: nat, curr: nat, time: nat, m: nat, p: nat)
    returns (a: seq<Item<T>>, b: seq<Item<T>>)
    requires |lists| == max + 1 && curr <= max && m <= max && p < |lists[Slot(curr, m, max)]|
    requires Distinct(Wheel(lists, max, curr, time, 0))
    ensures var k := Slot(curr, m, max); var list := lists[k];
      && Wheel(lists, max, curr, time, 0) == a + [Item(list[p], time + m)] + b
      && Wheel(lists[k := list[..p] + list[p + 1..]], max, curr, time, 0) == a + b
      && NoneTwice(list)
  {
    hide Wheel, Distinct, NoneTwice, Slot;
    var list := lists[Slot(curr, m, max)];
    var rest := list[..p] + list[p + 1..];
    var due := time + m;
    var a0, b0 := WheelAround(lists, rest, max, curr, time, m, 0);
    DueSplits(list, p, due);
    Grouped(a0, Due(list[..p], due), [Item(list[p], due)], Due(list[p + 1..], due), b0);
    PartNoneTwice(Wheel(lists, max, curr, time, 0), a0, Due(list, due), list, b0);
    a, b := a0 + Due(list[..p], due), Due(list[p + 1..], due) + b0;
  }

  lemma Grouped<T>(a: seq<T>, b: seq<T>, c: seq<T>, d: seq<T>, e: seq<T>)
    ensures a + (b + c + d) + e == (a + b) + c + (d + e) && a + (b + d) + e == (a + b) + (d + e)
    ensures a + (b + c + d) + e == a + ((b + c + d) + e)
  {
  }

  class ArrayTimer<T(==,!new)> {
    const maxTimeout: nat
    var timerCnt: nat
    var readyCnt: nat
    var currIndex: nat
    var currTime: nat
    var lists: seq<seq<T>>
    var ready: seq<T>
    var index: map<T, int>      // where each element is
    ghost var dues: seq<nat>    // the deadlines of the ready elements
    ghost var timer: Timer<T>   // the deadline queue this timer is, with its history

    ghost predicate Shaped()
      reads this
    {
      |lists| == maxTimeout + 1 && currIndex <= maxTimeout && |dues| == |ready|
    }

    // The elements in the order they will come out.
    ghost function View(): seq<Item<T>>
      reads this
      requires Shaped()
    {
      Ready(ready, dues) + Wheel(lists, maxTimeout, currIndex, currTime, 0)
    }

    ghost predicate Placed()
      reads this`lists, this`ready, this`index
    {
      PlacedIn(lists, ready, index)
    }

    ghost predicate Sound()
      reads this
    {
      && Shaped() && Placed() && Sorted(View()) && Distinct(View())
      && readyCnt == |ready| && timerCnt == |Wheel(lists, maxTimeout, currIndex, currTime, 0)|
      && forall p :: 0 <= p < |dues| ==> dues[p] <= currTime
    }

    // The wheel is the deadline queue, which is in order and has lost nothing.
    ghost predicate Valid()
      reads this
    {
      && Sound() && timer.q == View() && timer.ready == |ready| && timer.clock == currTime
      && InOrder(timer) && AllThere(timer)
    }

    constructor (maxTimeout: nat, now: nat)
      ensures Valid() && timer == New(now) && this.maxTimeout == maxTimeout
    {
      this.maxTimeout := maxTimeout;
      timerCnt, readyCnt, currIndex, currTime := 0, 0, 0, now;
      lists, ready, index, dues, timer := seq(maxTimeout + 1, _ => []), [], map[], [], New(now);
      new;
      WheelEmpty(lists, maxTimeout, 0, now, 0);
    }

    predicate Exist(elt: T)
      reads this
    {
      elt in index
    }

    // The oldest element of a list becomes ready.
    method MoveOne(k: nat, ghost due: nat)
      requires Shaped() && Placed() && k <= maxTimeout && lists[k] != [] && NoneTwice(lists[k])
      modifies this`lists, this`ready, this`index, this`dues
      ensures Shaped() && Placed() && lists == old(lists)[k := old(lists[k])[1..]]
      ensures ready == old(ready) + [old(lists[k])[0]] && dues == old(dues) + [due]
    {
      var last := lists[k][0];
      lists := lists[k := lists[k][1..]];
      index := index[last := READY];
      ready := ready + [last];
      dues := dues + [due];
    }

    // Everything in one list becomes ready, the oldest first.
    method MoveTimerToReadyListByIndex(k: nat, ghost due: nat) returns (moved: nat)
      requires Shaped() && Placed() && k <= maxTimeout && NoneTwice(lists[k])
      modifies this`lists, this`ready, this`index, this`dues
      ensures Shaped() && Placed() && moved == |old(lists[k])|
      ensures lists == old(lists)[k := []] && ready == old(ready) + old(lists[k])
      ensures dues == old(dues) + seq(moved, _ => due)
      ensures Ready(ready, dues) == old(Ready(ready, dues)) + Due(old(lists[k]), due)
    {
      hide Placed;
      moved := 0;
      ghost var list := lists[k];
      while lists[k] != []
        invariant Shaped() && Placed() && moved <= |list|
        invariant lists == old(lists)[k := list[moved..]] && ready == old(ready) + list[..moved]
        invariant dues == old(dues) + seq(moved, _ => due)
        decreases |lists[k]|
      {
        assert lists[k][0] == list[moved] && lists[k][1..] == list[moved + 1..];
        MoveOne(k, due);
        moved := moved + 1;
      }
      assert list[..moved] == list;
    }

    // The lists of so many positions become ready, one after the other.
    method MoveLists(range: nat, ghost to: nat) returns (at: nat, moved: nat)
      requires Sound() && range <= maxTimeout && currTime + range <= to
      modifies this`lists, this`ready, this`index, this`dues
      ensures Shaped() && Placed() && at == Slot(currIndex, range, maxTimeout)
      ensures Ready(ready, dues) + Wheel(lists, maxTimeout, currIndex, currTime, range + 1) == old(View())
      ensures forall j :: 0 <= j <= range ==> lists[Slot(currIndex, j, maxTimeout)] == []
      ensures (forall p :: 0 <= p < |dues| ==> dues[p] <= to) && |ready| == readyCnt + moved
    {
      hide Wheel, Placed, Sorted, Distinct, NoneTwice, Slot;
      ghost var q, curr, time := View(), currIndex, currTime;
      at, moved := currIndex, 0;
      var i := 0;
      while i <= range
        invariant i <= range + 1 && Shaped() && Placed()
        invariant Ready(ready, dues) + Wheel(lists, maxTimeout, curr, time, i) == q
        invariant forall j :: 0 <= j < i ==> lists[Slot(curr, j, maxTimeout)] == []
        invariant forall p :: 0 <= p < |dues| ==> dues[p] <= to
        invariant i > 0 ==> at == Slot(curr, i - 1, maxTimeout)
        invariant |ready| == readyCnt + moved
      {
        at := Slot(currIndex, i, maxTimeout);
        ghost var before, list := lists, lists[at];
        WheelStep(lists, maxTimeout, curr, time, i);
        PartNoneTwice(q, Ready(ready, dues), Due(list, time + i), list, Wheel(lists, maxTimeout, curr, time, i + 1));
        var n := MoveTimerToReadyListByIndex(at, time + i);
        Emptied(before, maxTimeout, curr, time, i);
        moved := moved + n;
        i := i + 1;
      }
    }

    // Everything that is due becomes ready.  A clock that went back is taken as it was; one that
    // jumped ahead empties the wheel.
    method MoveTimerToReadyList(now: nat)
      requires Sound()
      modifies this
      ensures Sound() && View() == old(View()) && timer == old(timer) && currTime == Later(old(currTime), now)
        && lists[currIndex] == []
    {
      hide Wheel, Placed, Sorted, Distinct, NoneTwice, Slot;
      var to := if now < currTime then currTime else now;
      var range := if to - currTime > maxTimeout then maxTimeout else to - currTime;
      var at, moved := MoveLists(range, to);
      Turned(to, range);
      readyCnt := readyCnt + moved;
      timerCnt := timerCnt - moved;
      currTime := to;
      currIndex := at;
    }

    // Turning the wheel changes no deadline.
    lemma Turned(to: nat, range: nat)
      requires Shaped() && currTime <= to && range == if to - currTime > maxTimeout then maxTimeout else to - currTime
      requires forall j :: 0 <= j <= range ==> lists[Slot(currIndex, j, maxTimeout)] == []
      ensures Wheel(lists, maxTimeout, Slot(currIndex, range, maxTimeout), to, 0) ==
              Wheel(lists, maxTimeout, currIndex, currTime, range + 1)
    {
      if to > currTime + range {
        EmptyFromAnywhere(Slot(currIndex, range, maxTimeout));
        WheelEmpty(lists, maxTimeout, Slot(currIndex, range, maxTimeout), to, 0);
      } else {
        WheelTurns(lists, maxTimeout, currIndex, currTime, range, 0);
      }
    }

    lemma EmptyFromAnywhere(from: nat)
      requires Shaped() && from <= maxTimeout
      requires forall j :: 0 <= j <= maxTimeout ==> lists[Slot(currIndex, j, maxTimeout)] == []
      ensures forall j :: 0 <= j <= maxTimeout ==> lists[Slot(from, j, maxTimeout)] == []
    {
      forall j | 0 <= j <= maxTimeout ensures lists[Slot(from, j, maxTimeout)] == [] {
        var k := Slot(from, j, maxTimeout);
        var m := OffsetOf(k);
        assert Slot(currIndex, m, maxTimeout) == k;
        assert lists[Slot(currIndex, m, maxTimeout)] == [];
      }
    }

    // An element exists exactly when it is queued.
    lemma ExistsInView(elt: T)
      requires Shaped() && Placed()
      ensures Has(View(), elt) <==> elt in index
      ensures elt in index && index[elt] != READY ==> 0 <= index[elt] <= maxTimeout
    {
      hide Wheel;
      if elt in index {
        IndexedIsQueued(elt);
      }
      if Has(View(), elt) {
        var i :| 0 <= i < |View()| && View()[i].elt == elt;
        QueuedIsIndexed(i);
      }
    }

    lemma IndexedIsQueued(elt: T)
      requires Shaped() && Placed() && elt in index
      ensures Has(View(), elt)
    {
      hide Wheel;
      if index[elt] == READY {
        var p :| 0 <= p < |ready| && ready[p] == elt;
        assert View()[p] == Ready(ready, dues)[p];
      } else {
        var k := index[elt];
        var p :| 0 <= p < |lists[k]| && lists[k][p] == elt;
        var a, b := WheelAround(lists, [], maxTimeout, currIndex, currTime, OffsetOf(k), 0);
        assert View()[|ready| + |a| + p] == (a + Due(lists[k], currTime + OffsetOf(k)) + b)[|a| + p];
      }
    }

    lemma QueuedIsIndexed(i: nat)
      requires Shaped() && Placed() && i < |View()|
      ensures View()[i].elt in index
    {
      hide Wheel;
      if i < |ready| {
        assert View()[i] == Ready(ready, dues)[i];
      } else {
        var k, p := WheelHolds(lists, maxTimeout, currIndex, currTime, 0, i - |ready|);
        assert View()[i].elt == lists[k][p];
      }
    }

    function OffsetOf(k: nat): (m: nat)
      reads this
      requires currIndex <= maxTimeout && k <= maxTimeout
      ensures m <= maxTimeout && Slot(currIndex, m, maxTimeout) == k
    {
      if k >= currIndex then k - currIndex else k + maxTimeout + 1 - currIndex
    }

    method Remove(elt: T) returns (removed: bool)
      requires Valid()
      modifies this
      ensures Valid() && timer == Apply(old(timer), Op.Remove(elt)) && (removed <==> Has(old(timer).q, elt))
    {
      hide Wheel, Sorted, Distinct, Without, Has, Placed, InOrder, AllThere, Apply;
      OpKeepsOrder(timer, Op.Remove(elt));
      OpLosesNothing(timer, Op.Remove(elt));
      ghost var t := Apply(timer, Op.Remove(elt));
      RemoveIs(elt);
      removed := Detach(elt);
      timer := t;
    }

    // What a removal makes of the abstract queue.
    lemma RemoveIs(elt: T)
      requires Valid()
      ensures var t := Apply(timer, Op.Remove(elt));
        && t.q == Without(View(), elt) && t.clock == currTime
        && t.ready == |ready| - if elt in index && index[elt] == READY then 1 else 0
    {
      hide Wheel, Without;
      if elt in index && index[elt] == READY {
        var p :| 0 <= p < |ready| && ready[p] == elt;
        assert timer.q[p].elt == elt;
      }
    }

    // Take an element out of the list it is in.
    method Detach(elt: T) returns (removed: bool)
      requires Sound()
      modifies this
      ensures Sound() && View() == Without(old(View()), elt) && currTime == old(currTime) && timer == old(timer)
      ensures removed <==> Has(old(View()), elt)
      ensures |ready| == |old(ready)| - if elt in old(index) && old(index)[elt] == READY then 1 else 0
    {
      hide Wheel, Sorted, Distinct, Without, Has, Placed;
      ExistsInView(elt);
      if elt !in index {
        NotThere(View(), elt);
        return false;
      }
      if index[elt] == READY {
        RemoveReady(elt);
        readyCnt := readyCnt - 1;
      } else {
        RemoveWaiting(elt, index[elt]);
        timerCnt := timerCnt - 1;
      }
      return true;
    }

    method RemoveReady(elt: T)
      requires Sound() && elt in index && index[elt] == READY
      modifies this`ready, this`dues, this`index
      ensures Shaped() && Placed() && View() == Without(old(View()), elt) && |ready| == |old(ready)| - 1
      ensures Sorted(View()) && Distinct(View()) && forall p :: 0 <= p < |dues| ==> dues[p] <= currTime
    {
      hide Wheel, Sorted, Distinct, Without, NoneTwice;
      var p :| 0 <= p < |ready| && ready[p] == elt;
      hide PlacedIn;
      ghost var q, r := View(), Ready(ready, dues);
      ghost var a, b := r[..p], r[p + 1..] + Wheel(lists, maxTimeout, currIndex, currTime, 0);
      assert q == a + [Item(elt, dues[p])] + b;
      OneOut(q, a, Item(elt, dues[p]), b);
      PartNoneTwice(q, [], r, ready, Wheel(lists, maxTimeout, currIndex, currTime, 0));
      ReadyWithout(lists, ready, index, p);
      ready := ready[..p] + ready[p + 1..];
      dues := dues[..p] + dues[p + 1..];
      index := index - {elt};
      assert Ready(ready, dues) == r[..p] + r[p + 1..];
      assert View() == a + b;
    }

    method RemoveWaiting(elt: T, k: nat)
      requires Sound() && elt in index && index[elt] == k
      modifies this`lists, this`index
      ensures Shaped() && Placed() && View() == Without(old(View()), elt) && |View()| == |old(View())| - 1
      ensures Sorted(View()) && Distinct(View())
    {
      hide Wheel, Sorted, Distinct, Without, NoneTwice;
      var p :| 0 <= p < |lists[k]| && lists[k][p] == elt;
      hide PlacedIn;
      ghost var q, m, front := View(), OffsetOf(k), Ready(ready, dues);
      BackIsDistinct(q, front, Wheel(lists, maxTimeout, currIndex, currTime, 0));
      ghost var a, b := WheelLess(lists, maxTimeout, currIndex, currTime, m, p);
      assert q == (front + a) + [Item(elt, currTime + m)] + b;
      OneOut(q, front + a, Item(elt, currTime + m), b);
      ListWithout(lists, ready, index, k, p);
      lists := lists[k := lists[k][..p] + lists[k][p + 1..]];
      index := index - {elt};
      assert View() == (front + a) + b;
    }

    method Add(elt: T, timeout: nat, now: nat) returns (added: bool)
      requires Valid() && timeout <= maxTimeout
      modifies this
      ensures Valid() && timer == Apply(old(timer), Op.Add(elt, timeout, now)) && (added <==> !Has(old(timer).q, elt))
    {
      hide Wheel, Sorted, Distinct, Insert, Has, Placed, InOrder, AllThere;
      ExistsInView(elt);
      if Exist(elt) {
        return false;
      }
      OpKeepsOrder(timer, Op.Add(elt, timeout, now));
      OpLosesNothing(timer, Op.Add(elt, timeout, now));
      MoveTimerToReadyList(now);
      ExistsInView(elt);
      AllDueAreReady();
      Put(elt, timeout, Slot(currIndex, timeout, maxTimeout));
      timerCnt := timerCnt + 1;
      timer := Apply(timer, Op.Add(elt, timeout, now));
      return true;
    }

    // Once the wheel has moved, what is due is ready.
    lemma AllDueAreReady()
      requires Sound() && lists[currIndex] == []
      ensures DueBy(View(), currTime) == |ready|
    {
      WheelDues(lists, maxTimeout, currIndex, currTime, 1);
      assert Wheel(lists, maxTimeout, currIndex, currTime, 0) ==
             Due(lists[Slot(currIndex, 0, maxTimeout)], currTime) + Wheel(lists, maxTimeout, currIndex, currTime, 1);
      var q, n := View(), DueBy(View(), currTime);
      forall i | 0 <= i < |ready| ensures q[i].due <= currTime {
        assert q[i] == Ready(ready, dues)[i];
      }
      if |ready| < |q| {
        assert q[|ready|] == Wheel(lists, maxTimeout, currIndex, currTime, 1)[0];
      }
    }

    method Put(elt: T, timeout: nat, k: nat)
      requires Sound() && timeout <= maxTimeout && k == Slot(currIndex, timeout, maxTimeout) && elt !in index
      modifies this`lists, this`index
      ensures Shaped() && Placed() && View() == Insert(old(View()), Item(elt, currTime + timeout))
      ensures Sorted(View()) && Distinct(View()) && |View()| == |old(View())| + 1
    {
      hide Wheel, Sorted, Distinct, Insert, Has;
      ExistsInView(elt);
      PlacedWith(lists, ready, index, k, elt);
      hide PlacedIn;
      ghost var q, list, due := View(), lists[k], currTime + timeout;
      ghost var a0, b := WheelAround(lists, list + [elt], maxTimeout, currIndex, currTime, timeout, 0);
      ghost var a := Ready(ready, dues) + a0 + Due(list, due);
      lists := lists[k := lists[k] + [elt]];
      index := index[elt := k];
      assert Due(list + [elt], due) == Due(list, due) + [Item(elt, due)];
      assert View() == a + [Item(elt, due)] + b && q == a + b;
      InsertAt(a, b, Item(elt, due));
      InsertKeeps(q, Item(elt, due));
      OneIn(a, Item(elt, due), b);
    }

    method TakeTimerElt(now: nat) returns (taken: seq<T>)
      requires Valid()
      modifies this
      ensures Valid() && timer == Apply(old(timer), Take(now))
      ensures taken == if timer.taken == old(timer).taken then [] else [timer.taken[|timer.taken| - 1].elt]
    {
      hide Wheel, InOrder, AllThere, Without, Sorted, Distinct, Placed;
      OpKeepsOrder(timer, Take(now));
      OpLosesNothing(timer, Take(now));
      ghost var t := Apply(timer, Take(now));
      taken := [];
      if readyCnt == 0 {
        MoveTimerToReadyList(now);
        AllDueAreReady();
        if readyCnt == 0 {
          timer := t;
          return;
        }
      }
      var elt := ready[0];
      ReadyFirst();
      var removed := Detach(elt);
      assert removed;
      timer := t;
      taken := [elt];
    }

    lemma ReadyFirst()
      requires Sound() && ready != []
      ensures View() != [] && View()[0] == Item(ready[0], dues[0]) && dues[0] <= currTime
      ensures Without(View(), ready[0]) == View()[1..] && Has(View(), ready[0])
      ensures ready[0] in index && index[ready[0]] == READY
    {
      assert View()[0] == Ready(ready, dues)[0];
    }
  }
}
