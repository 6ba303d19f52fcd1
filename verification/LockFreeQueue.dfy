/**
  Certain's ring queue under any interleaving of any number of pushers and one popper.  A step is
  one atomic access: a load, a compare-and-swap of the head, a swap or a move of a slot, an
  increment of the tail.  It refines a queue whose items are in the order of the successful
  compare-and-swaps.
 */
module LockFreeQueue {
  import opened Arithmetic

  datatype Option<+T> = None | Some(value: T)

  // Where a pusher is: out, having loaded the tail, having loaded the head as well, or owning a
  // ticket and about to swap its item in.
  datatype PushPc = Out | GotTail(t: nat) | GotHead(t: nat, h: nat) | Won(ticket: nat)

  datatype Pusher<T> = Pusher(pc: PushPc, item: Option<T>, tries: nat, retryTimes: int)

  // The popper: out, having loaded the tail, having loaded the head, or having moved an item out.
  datatype PopPc = Idle | HasTail(t: nat) | HasHead(t: nat, h: nat) | Took(t: nat)

  datatype State<T> = State(
    capacity: nat,
    head: nat,
    tail: nat,
    items: seq<Option<T>>,
    pushers: seq<Pusher<T>>,
    popper: PopPc,
    claimed: seq<T>,            // the items in the order of their tickets
    popped: seq<T>)             // what the popper got, in order

  ghost predicate Init<T>(s: State<T>) {
    && s.capacity > 0 && s.head == 0 && s.tail == 0
    && s.items == seq(s.capacity, _ => None)
    && s.popper == Idle && s.claimed == [] && s.popped == []
    && forall p :: 0 <= p < |s.pushers| ==> s.pushers[p].pc == Out && s.pushers[p].item.None?
  }

  datatype Step<T> =
    | StartPush(p: nat, item: T, retryTimes: int)
    | RefusePush(p: nat)
    | LoadTail(p: nat)
    | LoadHead(p: nat)
    | CompareAndSwap(p: nat)
    | SwapIn(p: nat)
    | PopLoadTail
    | PopLoadHead
    | PopMove
    | PopAdvance

  predicate MayTry<T>(q: Pusher<T>) {
    q.retryTimes == -1 || q.tries < q.retryTimes
  }

  ghost predicate Enabled<T>(s: State<T>, e: Step<T>) {
    && s.capacity > 0 && |s.items| == s.capacity
    && match e
       case StartPush(p, _, _) => p < |s.pushers| && s.pushers[p].pc == Out && s.pushers[p].item.None?
       case RefusePush(p) => p < |s.pushers| && s.pushers[p].pc == Out && s.pushers[p].item.Some? && !MayTry(s.pushers[p])
       case LoadTail(p) => p < |s.pushers| && s.pushers[p].pc == Out && s.pushers[p].item.Some? && MayTry(s.pushers[p])
       case LoadHead(p) => p < |s.pushers| && s.pushers[p].pc.GotTail?
       case CompareAndSwap(p) =>
         p < |s.pushers| && s.pushers[p].pc.GotHead? && s.pushers[p].item.Some?
       case SwapIn(p) => p < |s.pushers| && s.pushers[p].pc.Won?
       case PopLoadTail => s.popper == Idle
       case PopLoadHead => s.popper.HasTail?
       case PopMove => s.popper.HasHead?
       case PopAdvance => s.popper.Took?
  }

  // What each call that ends answers.
  datatype Answer<T> = Nothing | Pushed(back: Option<T>) | QueueFull | Conflict | QueueEmpty | Popped(item: T)

  function SetPusher<T>(s: State<T>, p: nat, q: Pusher<T>): State<T>
    requires p < |s.pushers|
  {
    s.(pushers := s.pushers[p := q])
  }

  ghost function After<T>(s: State<T>, e: Step<T>): (State<T>, Answer<T>)
    requires Enabled(s, e)
  {
    match e
    case StartPush(p, item, retryTimes) =>
      (SetPusher(s, p, Pusher(Out, Some(item), 0, retryTimes)), Nothing)
    case RefusePush(p) =>
      // no try was asked for
      (SetPusher(s, p, s.pushers[p].(item := None)), Conflict)
    case LoadTail(p) => (SetPusher(s, p, s.pushers[p].(pc := GotTail(s.tail))), Nothing)
    case LoadHead(p) =>
      var q := s.pushers[p];
      // no room as far as the two loads tell
      if s.head - q.pc.t >= s.capacity then (SetPusher(s, p, q.(pc := Out, item := None)), QueueFull)
      else (SetPusher(s, p, q.(pc := GotHead(q.pc.t, s.head))), Nothing)
    case CompareAndSwap(p) =>
      var q := s.pushers[p];
      if s.head == q.pc.h then
        (SetPusher(s, p, q.(pc := Won(s.head))).(head := s.head + 1, claimed := s.claimed + [q.item.value]), Nothing)
      else if MayTry(q.(tries := q.tries + 1)) then (SetPusher(s, p, q.(pc := Out, tries := q.tries + 1)), Nothing)
      else (SetPusher(s, p, q.(pc := Out, item := None, tries := q.tries + 1)), Conflict)
    case SwapIn(p) =>
      var q := s.pushers[p];
      var k := q.pc.ticket % s.capacity;
      (SetPusher(s, p, q.(pc := Out, item := None)).(items := s.items[k := q.item]), Pushed(s.items[k]))
    case PopLoadTail => (s.(popper := HasTail(s.tail)), Nothing)
    case PopLoadHead =>
      if s.head == s.popper.t then (s.(popper := Idle), QueueEmpty)
      else (s.(popper := HasHead(s.popper.t, s.head)), Nothing)
    case PopMove =>
      var k := s.popper.t % s.capacity;
      if s.items[k].None? then (s.(popper := Idle), Conflict)
      else (s.(popper := Took(s.popper.t), items := s.items[k := None], popped := s.popped + [s.items[k].value]),
            Popped(s.items[k].value))
    case PopAdvance => (s.(popper := Idle, tail := s.tail + 1), Nothing)
  }

  ghost predicate Next<T(!new)>(s: State<T>, s': State<T>) {
    exists e :: Enabled(s, e) && s' == After(s, e).0
  }

  ghost predicate Run<T(!new)>(run: seq<State<T>>) {
    run != [] && Init(run[0]) && forall k :: 0 <= k < |run| - 1 ==> Next(run[k], run[k + 1])
  }

  // ---- the invariant ----

  // The first ticket whose item has not been moved out.
  function First<T>(s: State<T>): nat {
    if s.popper.Took? then s.tail + 1 else s.tail
  }

  ghost predicate Owns<T>(s: State<T>, p: nat, k: nat) {
    p < |s.pushers| && s.pushers[p].pc == Won(k)
  }

  ghost predicate Pending<T>(s: State<T>, k: nat) {
    exists p :: Owns(s, p, k)
  }

  // A ticket's slot holds its item, or is empty while a pusher still owns the ticket.
  ghost predicate TicketOk<T>(s: State<T>, k: nat)
    requires s.capacity > 0 && |s.items| == s.capacity && k < |s.claimed|
  {
    if Pending(s, k) then s.items[k % s.capacity].None? else s.items[k % s.capacity] == Some(s.claimed[k])
  }

  ghost predicate PusherOk<T>(s: State<T>, q: Pusher<T>) {
    match q.pc
    case Out => true
    case GotTail(t) => t <= s.tail && q.item.Some?
    case GotHead(t, h) => t <= s.tail && h <= s.head && h - t < s.capacity && q.item.Some?
    case Won(k) => First(s) <= k < s.head && s.head == |s.claimed| && q.item == Some(s.claimed[k])
  }

  ghost predicate Inv<T>(s: State<T>) {
    && s.capacity > 0 && |s.items| == s.capacity
    && s.head == |s.claimed| && First(s) <= s.head <= s.tail + s.capacity
    && s.popped == s.claimed[..First(s)]
    && (match s.popper
        case Idle => true
        case HasTail(t) => t == s.tail
        case HasHead(t, h) => t == s.tail && t < h <= s.head
        case Took(t) => t == s.tail)
    && (forall p :: 0 <= p < |s.pushers| ==> PusherOk(s, s.pushers[p]))
    && (forall p, p', k :: Owns(s, p, k) && Owns(s, p', k) ==> p == p')
    && (forall k :: First(s) <= k < s.head ==> TicketOk(s, k))
    && (forall k :: s.head <= k < First(s) + s.capacity ==> s.items[k % s.capacity].None?)
  }

  // Tickets less than a round apart have different slots, and a round apart the same.
  lemma SlotsDiffer(a: nat, b: nat, capacity: nat)
    requires capacity > 0 && a < b < a + capacity
    ensures a % capacity != b % capacity
  {
    var i, j := a / capacity, b / capacity;
    assert a == i * capacity + a % capacity && b == j * capacity + b % capacity;
    NextProduct(i, j, capacity);
    NextProduct(j, i, capacity);
  }

  lemma SameSlot(k: nat, capacity: nat)
    requires capacity > 0
    ensures (k + capacity) % capacity == k % capacity
  {
    DivUnique(capacity, capacity, 1, 0);
    AddMultiple(k, capacity, capacity);
  }

  // ---- every step keeps it ----

  // A step of pusher p that neither wins a ticket nor gives one up.
  lemma PusherMoves<T>(s: State<T>, p: nat, q: Pusher<T>)
    requires Inv(s) && p < |s.pushers| && !s.pushers[p].pc.Won? && !q.pc.Won? && PusherOk(s, q)
    ensures Inv(SetPusher(s, p, q))
  {
    var s' := SetPusher(s, p, q);
    forall i, k ensures Owns(s', i, k) <==> Owns(s, i, k) {
    }
    forall k | First(s') <= k < s'.head ensures TicketOk(s', k) {
      assert TicketOk(s, k);
      SamePending(s, s', k);
    }
  }

  lemma SamePending<T>(s: State<T>, s': State<T>, k: nat)
    requires forall i :: Owns(s', i, k) <==> Owns(s, i, k)
    ensures Pending(s', k) <==> Pending(s, k)
  {
    if Pending(s, k) {
      var i :| Owns(s, i, k);
      assert Owns(s', i, k);
    }
    if Pending(s', k) {
      var i :| Owns(s', i, k);
      assert Owns(s, i, k);
    }
  }

  lemma NotIssued<T>(s: State<T>, p: nat)
    requires Inv(s)
    ensures !Owns(s, p, s.head)
  {
    if p < |s.pushers| {
      assert PusherOk(s, s.pushers[p]);
    }
  }

  lemma WinKeeps<T>(s: State<T>, p: nat)
    requires Inv(s) && Enabled(s, CompareAndSwap(p)) && s.head == s.pushers[p].pc.h
    ensures Inv(After(s, CompareAndSwap(p)).0)
  {
    var s' := After(s, CompareAndSwap(p)).0;
    var n := s.head;
    assert PusherOk(s, s.pushers[p]);
    assert s'.popped == s'.claimed[..First(s')];
    assert Owns(s', p, n);
    forall i, k ensures Owns(s', i, k) <==> Owns(s, i, k) || (i == p && k == n) {
    }
    forall i | 0 <= i < |s'.pushers| ensures PusherOk(s', s'.pushers[i]) {
      assert PusherOk(s, s.pushers[i]);
    }
    forall i: nat ensures !Owns(s, i, n) {
      NotIssued(s, i);
    }
    forall k | First(s') <= k < s'.head ensures TicketOk(s', k) {
      if k < n {
        assert TicketOk(s, k);
        SamePending(s, s', k);
      } else {
        assert s.items[n % s.capacity].None?;
      }
    }
  }

  lemma SwapKeeps<T>(s: State<T>, p: nat)
    requires Inv(s) && Enabled(s, SwapIn(p))
    ensures Inv(After(s, SwapIn(p)).0)
    ensures After(s, SwapIn(p)).1 == Pushed(None)
  {
    var s' := After(s, SwapIn(p)).0;
    var n := s.pushers[p].pc.ticket;
    assert PusherOk(s, s.pushers[p]) && Owns(s, p, n) && Pending(s, n) && TicketOk(s, n);
    forall i, k ensures Owns(s', i, k) <==> Owns(s, i, k) && i != p {
    }
    forall i | 0 <= i < |s'.pushers| ensures PusherOk(s', s'.pushers[i]) {
      assert PusherOk(s, s.pushers[i]);
    }
    forall k | First(s') <= k < s'.head ensures TicketOk(s', k) {
      assert TicketOk(s, k);
      if k == n {
        forall i: nat ensures !Owns(s', i, n) {
          assert Owns(s, i, n) && Owns(s, p, n) ==> i == p;
        }
      } else {
        OtherSlot(s, k, n);
        forall i ensures Owns(s', i, k) <==> Owns(s, i, k) {
        }
        SamePending(s, s', k);
      }
    }
    forall k | s'.head <= k < First(s') + s'.capacity ensures s'.items[k % s'.capacity].None? {
      OtherSlot(s, k, n);
    }
  }

  lemma OtherSlot<T>(s: State<T>, a: nat, b: nat)
    requires s.capacity > 0 && a != b && First(s) <= a < First(s) + s.capacity && First(s) <= b < First(s) + s.capacity
    ensures a % s.capacity != b % s.capacity
  {
    if a < b {
      SlotsDiffer(a, b, s.capacity);
    } else {
      SlotsDiffer(b, a, s.capacity);
    }
  }

  lemma MoveKeeps<T>(s: State<T>)
    requires Inv(s) && Enabled(s, PopMove)
    ensures Inv(After(s, PopMove).0)
    ensures After(s, PopMove).1 == (if Pending(s, s.tail) then Conflict else Popped(s.claimed[s.tail]))
  {
    var s' := After(s, PopMove).0;
    var n := s.tail;
    assert TicketOk(s, n);
    if s.items[n % s.capacity].Some? {
      assert s'.popped == s'.claimed[..First(s')];
      forall i, k ensures Owns(s', i, k) <==> Owns(s, i, k) {
      }
      forall i | 0 <= i < |s'.pushers| ensures PusherOk(s', s'.pushers[i]) {
        assert PusherOk(s, s.pushers[i]);
        if s.pushers[i].pc == Won(n) {
          assert Owns(s, i, n) && Pending(s, n);
        }
      }
      forall k | First(s') <= k < s'.head ensures TicketOk(s', k) {
        assert TicketOk(s, k);
        OtherSlot(s, k, n);
        SamePending(s, s', k);
      }
      forall k | s'.head <= k < First(s') + s'.capacity ensures s'.items[k % s'.capacity].None? {
        if k == n + s.capacity {
          SameSlot(n, s.capacity);
        } else {
          OtherSlot(s, k, n);
        }
      }
    } else {
      QuietStep(s, s');
    }
  }

  // A step of the popper that moves no item.
  lemma QuietStep<T>(s: State<T>, s': State<T>)
    requires Inv(s) && s' == s.(popper := s'.popper, tail := s'.tail) && First(s') == First(s) && s'.tail >= s.tail
    requires match s'.popper
      case Idle => true
      case HasTail(t) => t == s'.tail
      case HasHead(t, h) => t == s'.tail && t < h <= s'.head
      case Took(t) => t == s'.tail
    ensures Inv(s')
  {
    forall i, k ensures Owns(s', i, k) <==> Owns(s, i, k) {
    }
    forall i | 0 <= i < |s'.pushers| ensures PusherOk(s', s'.pushers[i]) {
      assert PusherOk(s, s.pushers[i]);
    }
    forall k | First(s') <= k < s'.head ensures TicketOk(s', k) {
      assert TicketOk(s, k);
      SamePending(s, s', k);
    }
  }

  lemma StepKeeps<T>(s: State<T>, e: Step<T>)
    requires Inv(s) && Enabled(s, e)
    ensures Inv(After(s, e).0)
  {
    var s' := After(s, e).0;
    match e
    case StartPush(p, _, _) => PusherMoves(s, p, s'.pushers[p]);
    case RefusePush(p) => PusherMoves(s, p, s'.pushers[p]);
    case LoadTail(p) => PusherMoves(s, p, s'.pushers[p]);
    case LoadHead(p) =>
      assert PusherOk(s, s.pushers[p]);
      PusherMoves(s, p, s'.pushers[p]);
    case CompareAndSwap(p) =>
      if s.head == s.pushers[p].pc.h {
        WinKeeps(s, p);
      } else {
        PusherMoves(s, p, s'.pushers[p]);
      }
    case SwapIn(p) => SwapKeeps(s, p);
    case PopLoadTail => QuietStep(s, s');
    case PopLoadHead => QuietStep(s, s');
    case PopMove => MoveKeeps(s);
    case PopAdvance => QuietStep(s, s');
  }

  lemma InitKeeps<T>(s: State<T>)
    requires Init(s)
    ensures Inv(s)
  {
  }

  lemma {:induction false} RunKeeps<T(!new)>(run: seq<State<T>>, k: nat)
    requires Run(run) && k < |run|
    ensures Inv(run[k])
  {
    if k == 0 {
      InitKeeps(run[0]);
    } else {
      RunKeeps(run, k - 1);
      assert Next(run[k - 1], run[k]);
      var e :| Enabled(run[k - 1], e) && run[k] == After(run[k - 1], e).0;
      StepKeeps(run[k - 1], e);
    }
  }

  // ---- what it guarantees ----

  // The queue it stands for.
  function Contents<T>(s: State<T>): seq<T>
    requires First(s) <= |s.claimed|
  {
    s.claimed[First(s)..]
  }

  // Refinement: a step leaves the queue as it is, adds one item at its end, or takes the item at
  // its front, which is what the popper answers.
  lemma RefinesQueue<T>(s: State<T>, e: Step<T>)
    requires Inv(s) && Enabled(s, e)
    ensures var (s', a) := After(s, e);
      && Inv(s')
      && match a
         case Popped(x) => Contents(s) == [x] + Contents(s') && s'.popped == s.popped + [x]
         case _ =>
           && s'.popped == s.popped
           && if e.CompareAndSwap? && s'.head == s.head + 1
              then Contents(s') == Contents(s) + [s.pushers[e.p].item.value]
              else Contents(s') == Contents(s)
  {
    StepKeeps(s, e);
    var s' := After(s, e).0;
    if e.PopMove? {
      MoveKeeps(s);
      if s'.popper.Took? {
        assert s.claimed[First(s)..] == [s.claimed[First(s)]] + s.claimed[First(s) + 1..];
      }
    }
  }

  // In every run what has been popped is a prefix of the items in the order of the successful
  // compare-and-swaps: none lost, none twice, none out of order.
  lemma PoppedIsPrefix<T(!new)>(run: seq<State<T>>, k: nat)
    requires Run(run) && k < |run|
    ensures run[k].popped <= run[k].claimed && |run[k].claimed| == run[k].head
    ensures |run[k].claimed| - |run[k].popped| <= run[k].capacity
  {
    RunKeeps(run, k);
  }

  // Two pushers never own one slot.
  lemma OwnersHaveTheirSlots<T(!new)>(run: seq<State<T>>, k: nat, p: nat, p': nat)
    requires Run(run) && k < |run| && p != p' && p < |run[k].pushers| && p' < |run[k].pushers|
    requires run[k].pushers[p].pc.Won? && run[k].pushers[p'].pc.Won?
    ensures run[k].capacity > 0
    ensures run[k].pushers[p].pc.ticket % run[k].capacity != run[k].pushers[p'].pc.ticket % run[k].capacity
  {
    RunKeeps(run, k);
    var s := run[k];
    assert PusherOk(s, s.pushers[p]) && PusherOk(s, s.pushers[p']);
    assert Owns(s, p, s.pushers[p].pc.ticket) && Owns(s, p', s.pushers[p'].pc.ticket);
    OtherSlot(s, s.pushers[p].pc.ticket, s.pushers[p'].pc.ticket);
  }

  // What the popper answers is so: empty if and only if everything pushed has been popped, and a
  // conflict if and only if some pusher has the next ticket and has not put its item in.
  lemma PopperIsRight<T>(s: State<T>, e: Step<T>)
    requires Inv(s) && Enabled(s, e)
    ensures After(s, e).1 == QueueEmpty <==> e.PopLoadHead? && Contents(s) == []
    ensures After(s, e).1 == QueueEmpty ==> s.popped == s.claimed
    ensures e.PopMove? ==> (After(s, e).1 == Conflict <==> Pending(s, s.tail))
  {
    if e.PopMove? {
      MoveKeeps(s);
    }
  }

  // What a pusher is answered is so.  Full: if and only if capacity tickets lie behind the tail it
  // loaded, which, while the tail stands, is a queue with no slot free.  Conflict: if and only if
  // it may not try, or somebody else took the ticket it tried for and it may not try again.
  lemma PusherIsRight<T>(s: State<T>, e: Step<T>)
    requires Inv(s) && Enabled(s, e) && (e.LoadHead? || e.CompareAndSwap? || e.RefusePush?)
    ensures e.LoadHead? ==>
      var t := s.pushers[e.p].pc.t;
      && (After(s, e).1 == QueueFull <==> |s.claimed[t..]| >= s.capacity)
      && (t == s.tail ==> (After(s, e).1 == QueueFull <==> |s.claimed| == s.tail + s.capacity))
      && (t == s.tail && After(s, e).1 == QueueFull && !s.popper.Took? ==> |Contents(s)| == s.capacity)
    ensures After(s, e).1 == Conflict <==>
      var q := s.pushers[e.p];
      || e.RefusePush?
      || (e.CompareAndSwap? && |s.claimed| != q.pc.h && q.retryTimes != -1 && q.tries + 1 >= q.retryTimes)
    ensures e.RefusePush? ==> s.pushers[e.p].retryTimes != -1 && s.pushers[e.p].tries >= s.pushers[e.p].retryTimes
    ensures After(s, e).1 in {Nothing, QueueFull, Conflict}
  {
    assert PusherOk(s, s.pushers[e.p]);
  }

  // A pusher that finds room and is not disturbed wins the next ticket and puts its item in.
  lemma UndisturbedPushWins<T>(s: State<T>, p: nat)
    requires Inv(s) && Enabled(s, LoadHead(p)) && |s.claimed[s.pushers[p].pc.t..]| < s.capacity
    ensures var s1 := After(s, LoadHead(p)).0;
      && After(s, LoadHead(p)).1 == Nothing && Enabled(s1, CompareAndSwap(p))
      && var s2 := After(s1, CompareAndSwap(p)).0;
      && After(s1, CompareAndSwap(p)).1 == Nothing && Enabled(s2, SwapIn(p))
      && s2.claimed == s.claimed + [s.pushers[p].item.value]
      && After(s2, SwapIn(p)).1 == Pushed(None)
  {
    assert PusherOk(s, s.pushers[p]);
    StepKeeps(s, LoadHead(p));
    var s1 := After(s, LoadHead(p)).0;
    StepKeeps(s1, CompareAndSwap(p));
    SwapKeeps(After(s1, CompareAndSwap(p)).0, p);
  }
}
