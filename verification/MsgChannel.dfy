/** Messages on a stream of bytes: a header with the length, then the body. */
module MsgStream {

  type Byte = b: nat | b < 256
  type Bytes = seq<Byte>

  const MAGIC := 0xac81
  const HEADER_SIZE := 14
  const LEN_SPAN := 0x1_0000_0000

  datatype Msg = Msg(id: Byte, body: Bytes)

  // Header and body fit the 32 bits the program counts them in.
  ghost predicate Fits(m: Msg) {
    HEADER_SIZE + |m.body| < LEN_SPAN
  }

  // Numbers in network order.
  function BE2(n: nat): (s: Bytes)
    ensures |s| == 2
  {
    [n / 256 % 256, n % 256]
  }

  function BE4(n: nat): (s: Bytes)
    ensures |s| == 4
  {
    BE2(n / 0x1_0000) + BE2(n % 0x1_0000)
  }

  function FromBE4(s: Bytes): nat
    requires |s| == 4
  {
    var a: nat, b: nat, c: nat, d: nat := s[0], s[1], s[2], s[3];
    ((a * 256 + b) * 256 + c) * 256 + d
  }

  lemma BE4Back(n: nat)
    requires n < LEN_SPAN
    ensures FromBE4(BE4(n)) == n
  {
  }

  function Header(id: Byte, len: nat): (s: Bytes)
    ensures |s| == HEADER_SIZE
  {
    BE2(MAGIC) + [id] + [0] + BE4(len) + BE4(0) + BE2(0)
  }

  function Encode(m: Msg): (s: Bytes)
    ensures |s| == HEADER_SIZE + |m.body|
  {
    Header(m.id, |m.body|) + m.body
  }

  function EncodeAll(ms: seq<Msg>): Bytes {
    if ms == [] then [] else Encode(ms[0]) + EncodeAll(ms[1..])
  }

  // ---- parsing ----

  // The length field of a header, wherever it lies.
  function LengthOf(mem: Bytes): nat
    requires |mem| >= HEADER_SIZE
  {
    FromBE4(mem[4..8])
  }

  // The program's own test, that n bytes hold the message whose header is read from memory: it
  // adds in 32 bits, and it does not look whether the header is among the n bytes.
  predicate TakesFirst(mem: Bytes, n: nat)
    requires |mem| >= HEADER_SIZE
  {
    (LengthOf(mem) + HEADER_SIZE) % LEN_SPAN <= n
  }

  // The sum wraps around to no more than n bytes.
  predicate Wraps(mem: Bytes, n: nat)
    requires |mem| >= HEADER_SIZE
  {
    LEN_SPAN <= LengthOf(mem) + HEADER_SIZE <= LEN_SPAN + n
  }

  // So the test is right but for headers that wrap around.
  lemma TestIsRight(mem: Bytes, n: nat)
    requires HEADER_SIZE <= |mem| && n <= |mem| && n < LEN_SPAN
    ensures TakesFirst(mem, n) <==> Complete(mem[..n]) || Wraps(mem, n)
    ensures Complete(mem[..n]) ==> !Wraps(mem, n) && First(mem[..n]) == Msg(mem[2], mem[HEADER_SIZE..HEADER_SIZE + LengthOf(mem)])
  {
    hide FromBE4;
    LengthBound(mem);
    assert mem[..n] == mem[0..n];
    if HEADER_SIZE <= n {
      Within(mem, 0, n, 4, 8);
      if LengthOf(mem) + HEADER_SIZE <= n {
        Within(mem, 0, n, HEADER_SIZE, HEADER_SIZE + LengthOf(mem));
      }
    }
  }

  lemma LengthBound(mem: Bytes)
    requires |mem| >= HEADER_SIZE
    ensures LengthOf(mem) < LEN_SPAN
  {
  }

  predicate Complete(s: Bytes) {
    |s| >= HEADER_SIZE && HEADER_SIZE + FromBE4(s[4..8]) <= |s|
  }

  function First(s: Bytes): (m: Msg)
    requires Complete(s)
    ensures HEADER_SIZE + |m.body| <= |s|
  {
    Msg(s[2], s[HEADER_SIZE..HEADER_SIZE + FromBE4(s[4..8])])
  }

  // The messages at the front, and the bytes that do not make one yet.
  function Parse(s: Bytes): (seq<Msg>, Bytes)
    decreases |s|
  {
    if !Complete(s) then ([], s)
    else
      var (ms, rest) := Parse(s[HEADER_SIZE + |First(s).body|..]);
      ([First(s)] + ms, rest)
  }

  lemma FirstOfEncoded(m: Msg, s: Bytes)
    requires Fits(m)
    ensures Complete(Encode(m) + s) && First(Encode(m) + s) == m
    ensures (Encode(m) + s)[HEADER_SIZE + |m.body|..] == s
  {
    var e := Encode(m) + s;
    BE4Back(|m.body|);
    assert e[4..8] == BE4(|m.body|);
    assert e[HEADER_SIZE..HEADER_SIZE + |m.body|] == m.body;
  }

  lemma {:induction false} ParseEncoded(ms: seq<Msg>, s: Bytes)
    requires forall k :: 0 <= k < |ms| ==> Fits(ms[k])
    ensures Parse(EncodeAll(ms) + s) == (ms + Parse(s).0, Parse(s).1)
  {
    hide Encode, Complete, First;
    if ms == [] {
      assert EncodeAll(ms) + s == s && ms + Parse(s).0 == Parse(s).0;
    } else {
      FirstOfEncoded(ms[0], EncodeAll(ms[1..]) + s);
      assert EncodeAll(ms) + s == Encode(ms[0]) + (EncodeAll(ms[1..]) + s);
      ParseEncoded(ms[1..], s);
      assert [ms[0]] + (ms[1..] + Parse(s).0) == ms + Parse(s).0;
    }
  }

  lemma FirstStays(a: Bytes, b: Bytes)
    requires Complete(a)
    ensures Complete(a + b) && First(a + b) == First(a)
    ensures (a + b)[HEADER_SIZE + |First(a).body|..] == a[HEADER_SIZE + |First(a).body|..] + b
  {
    assert (a + b)[4..8] == a[4..8];
  }

  // Where the stream is cut makes no difference.
  lemma {:induction false} ParseOn(a: Bytes, b: Bytes)
    ensures Parse(a + b) == (Parse(a).0 + Parse(Parse(a).1 + b).0, Parse(Parse(a).1 + b).1)
    decreases |a|
  {
    hide Complete, First;
    if Complete(a) {
      var a' := a[HEADER_SIZE + |First(a).body|..];
      FirstStays(a, b);
      ParseOn(a', b);
      assert [First(a)] + (Parse(a').0 + Parse(Parse(a').1 + b).0) == Parse(a).0 + Parse(Parse(a).1 + b).0;
    } else {
      assert Parse(a) == ([], a) && [] + Parse(a + b).0 == Parse(a + b).0;
    }
  }

  lemma Within(s: Bytes, a: nat, b: nat, lo: nat, hi: nat)
    requires lo <= hi && a + hi <= b <= |s|
    ensures s[a..b][lo..hi] == s[a + lo..a + hi] && s[a..][lo..hi] == s[a + lo..a + hi]
  {
    var t, t', u := s[a..][lo..hi], s[a..b][lo..hi], s[a + lo..a + hi];
    forall i | 0 <= i < hi - lo ensures t[i] == u[i] && t'[i] == u[i] {
      assert t[i] == s[a..][lo + i] == s[a + lo + i];
      assert t'[i] == s[a..b][lo + i] == s[a + lo + i];
    }
    assert t == u && t' == u;
  }

  // Of a message that fits, eight bytes are enough: they hold the length field.
  lemma LengthIsRead(ms: seq<Msg>, rest: Bytes, more: Bytes, mem: Bytes)
    requires (forall k :: 0 <= k < |ms| ==> Fits(ms[k])) && EncodeAll(ms) == rest + more
    requires 8 <= |rest| <= |mem| && HEADER_SIZE <= |mem| && mem[..|rest|] == rest
    ensures !Wraps(mem, |rest|)
  {
    hide Encode;
    var e := Encode(ms[0]) + EncodeAll(ms[1..]);
    FirstOfEncoded(ms[0], EncodeAll(ms[1..]));
    Within(mem, 0, |rest|, 4, 8);
    Within(rest + more, 0, |rest|, 4, 8);
    assert mem[0..|rest|] == rest && (rest + more)[0..|rest|] == rest;
    assert FromBE4(e[4..8]) == |First(e).body|;
  }

  lemma NothingParses()
    ensures Parse([]) == ([], [])
  {
  }

  // What has arrived of some messages parses to the first of them.
  lemma PrefixParses(ms: seq<Msg>, s: Bytes, rest: Bytes)
    requires (forall k :: 0 <= k < |ms| ==> Fits(ms[k])) && EncodeAll(ms) == s + rest
    ensures Parse(s).0 <= ms && (rest == [] ==> Parse(s) == (ms, []))
  {
    NothingParses();
    hide Parse, EncodeAll;
    ParseOn(s, rest);
    ParseEncoded(ms, []);
    assert EncodeAll(ms) + [] == EncodeAll(ms) && ms + [] == ms;
    if rest == [] {
      assert s + rest == s;
    }
  }
}

/**
  Certain's message channel.  The sending side keeps a list of buffers and writes them with
  vectored writes that may be short or fail; the receiving side reads in chunks and keeps what
  does not make a message yet.
 */
module MsgChannel {
  import opened MsgStream

  // The part of a buffer that is still to be written.
  datatype Iov = Iov(base: nat, len: nat)

  // vec tells which of the vectors a buffer has been handed to.
  datatype Option<+T> = None | Some(value: T)

  datatype WriteItem = WriteItem(data: Bytes, offset: nat, vec: Option<nat>)

  // ---- what a list has to write ----

  function Rest(w: WriteItem): Bytes
    requires w.offset <= |w.data|
  {
    w.data[w.offset..]
  }

  ghost predicate Waiting(list: seq<WriteItem>) {
    forall k :: 0 <= k < |list| ==> list[k].offset < |list[k].data| && list[k].vec == None
  }

  function Pending(list: seq<WriteItem>): Bytes
    requires forall k :: 0 <= k < |list| ==> list[k].offset <= |list[k].data|
  {
    if list == [] then [] else Rest(list[0]) + Pending(list[1..])
  }

  // The bytes of memory a list holds.
  function Held(list: seq<WriteItem>): nat {
    if list == [] then 0 else |list[0].data| + Held(list[1..])
  }

  lemma {:induction false} PendingAdds(a: seq<WriteItem>, b: seq<WriteItem>)
    requires forall k :: 0 <= k < |a| ==> a[k].offset <= |a[k].data|
    requires forall k :: 0 <= k < |b| ==> b[k].offset <= |b[k].data|
    ensures Pending(a + b) == Pending(a) + Pending(b) && Held(a + b) == Held(a) + Held(b)
  {
    if a == [] {
      assert a + b == b;
    } else {
      assert (a + b)[1..] == a[1..] + b;
      PendingAdds(a[1..], b);
    }
  }

  // So many bytes from the front have been written: buffers that are through are dropped, one
  // that is not goes on from where it is.
  function Advanced(list: seq<WriteItem>, n: nat): (r: seq<WriteItem>)
    requires forall k :: 0 <= k < |list| ==> list[k].offset <= |list[k].data|
    ensures forall k :: 0 <= k < |r| ==> r[k].offset <= |r[k].data|
  {
    if list == [] then []
    else
      var left := |list[0].data| - list[0].offset;
      if left <= n then Advanced(list[1..], n - left)
      else [list[0].(offset := list[0].offset + n)] + list[1..]
  }

  lemma {:induction false} AdvancedRest(list: seq<WriteItem>, n: nat)
    requires Waiting(list) && n <= |Pending(list)|
    ensures Waiting(Advanced(list, n)) && Pending(Advanced(list, n)) == Pending(list)[n..]
  {
    if list != [] {
      var left := |list[0].data| - list[0].offset;
      if left <= n {
        AdvancedRest(list[1..], n - left);
        DropBoth(Rest(list[0]), Pending(list[1..]), n);
      } else {
        var w := list[0].(offset := list[0].offset + n);
        assert Rest(w) == Rest(list[0])[n..];
        assert ([w] + list[1..])[1..] == list[1..];
        DropBoth(Rest(list[0]), Pending(list[1..]), n);
      }
    }
  }

  lemma DropBoth(a: Bytes, b: Bytes, n: nat)
    requires n <= |a| + |b|
    ensures (a + b)[n..] == if |a| <= n then b[n - |a|..] else a[n..] + b
  {
  }

  // ---- handing buffers to a vectored write ----

  function Handed(items: seq<WriteItem>): (r: seq<WriteItem>)
    ensures |r| == |items| && forall k :: 0 <= k < |r| ==> r[k] == items[k].(vec := Some(k))
  {
    seq(|items|, k requires 0 <= k < |items| => items[k].(vec := Some(k)))
  }

  function IovOf(items: seq<WriteItem>): (r: seq<Iov>)
    requires forall k :: 0 <= k < |items| ==> items[k].offset <= |items[k].data|
    ensures |r| == |items|
    ensures forall k :: 0 <= k < |r| ==> r[k] == Iov(items[k].offset, |items[k].data| - items[k].offset)
  {
    seq(|items|, k requires 0 <= k < |items| => Iov(items[k].offset, |items[k].data| - items[k].offset))
  }

  // The vectors once so many bytes have been written.
  function AfterWrite(iov: seq<Iov>, n: nat): (r: seq<Iov>)
    ensures |r| == |iov|
  {
    if iov == [] then []
    else if iov[0].len <= n then [Iov(iov[0].base + iov[0].len, 0)] + AfterWrite(iov[1..], n - iov[0].len)
    else [Iov(iov[0].base + n, iov[0].len - n)] + iov[1..]
  }

  // What stays of the buffers that were handed out.
  function Kept(items: seq<WriteItem>, iov: seq<Iov>): seq<WriteItem>
    requires |items| == |iov| && forall k :: 0 <= k < |items| ==> iov[k].len <= |items[k].data|
  {
    if items == [] then []
    else Again(items[0], iov[0]) + Kept(items[1..], iov[1..])
  }

  // What becomes of a buffer that was handed out: nothing, or a buffer with less to write.
  function Again(w: WriteItem, v: Iov): seq<WriteItem>
    requires v.len <= |w.data|
  {
    if v.len == 0 then [] else [w.(offset := |w.data| - v.len, vec := None)]
  }

  // The vectors end where their buffers do, and those that are through come first.
  ghost predicate Fit(items: seq<WriteItem>, iov: seq<Iov>) {
    && |items| == |iov|
    && (forall k :: 0 <= k < |items| ==> iov[k].base + iov[k].len == |items[k].data|)
    && (forall i, k :: 0 <= i < k < |items| && iov[k].len == 0 ==> iov[i].len == 0)
  }

  lemma {:induction false} WriteFits(items: seq<WriteItem>, n: nat)
    requires Waiting(items)
    ensures Fit(items, AfterWrite(IovOf(items), n))
  {
    var iov := IovOf(items);
    if items != [] {
      assert iov[1..] == IovOf(items[1..]);
      if iov[0].len <= n {
        WriteFits(items[1..], n - iov[0].len);
        FitBehind(items, AfterWrite(iov, n));
      }
    }
  }

  lemma {:induction false} KeptIsAdvanced(items: seq<WriteItem>, n: nat)
    requires Waiting(items)
    ensures Fit(items, AfterWrite(IovOf(items), n))
    ensures Kept(items, AfterWrite(IovOf(items), n)) == Advanced(items, n)
  {
    hide Fit;
    var iov := IovOf(items);
    WriteFits(items, n);
    if items != [] {
      assert iov[1..] == IovOf(items[1..]);
      var r := AfterWrite(iov, n);
      FitIsEnough(items, r);
      if iov[0].len <= n {
        KeptIsAdvanced(items[1..], n - iov[0].len);
      } else {
        NothingWritten(items[1..]);
        assert r[1..] == IovOf(items[1..]);
        assert items[0].(offset := |items[0].data| - r[0].len, vec := None) == items[0].(offset := items[0].offset + n);
      }
    }
  }

  // Vectors that fit leave no more of a buffer than there is.
  lemma FitIsEnough(items: seq<WriteItem>, iov: seq<Iov>)
    requires Fit(items, iov)
    ensures |items| == |iov| && forall k :: 0 <= k < |items| ==> iov[k].len <= |items[k].data|
  {
  }

  lemma FitBehind(items: seq<WriteItem>, iov: seq<Iov>)
    requires items != [] && |items| == |iov| && iov[0].len == 0 && iov[0].base == |items[0].data|
    requires Fit(items[1..], iov[1..])
    ensures Fit(items, iov)
  {
    forall k | 0 <= k < |items| ensures iov[k].base + iov[k].len == |items[k].data| {
      if k > 0 {
        assert iov[1..][k - 1].base + iov[1..][k - 1].len == |items[1..][k - 1].data|;
      }
    }
    forall i, k | 0 <= i < k < |items| && iov[k].len == 0 ensures iov[i].len == 0 {
      if i > 0 {
        assert iov[1..][k - 1].len == 0 ==> iov[1..][i - 1].len == 0;
      }
    }
  }

  lemma IovFits(items: seq<WriteItem>)
    requires Waiting(items)
    ensures Fit(items, IovOf(items))
  {
  }

  lemma {:induction false} NothingWritten(items: seq<WriteItem>)
    requires Waiting(items)
    ensures Fit(items, IovOf(items)) && Kept(items, IovOf(items)) == items
  {
    hide Fit, IovOf;
    IovFits(items);
    if items != [] {
      NothingWritten(items[1..]);
      assert IovOf(items)[1..] == IovOf(items[1..]);
      assert items[0].(offset := |items[0].data| - IovOf(items)[0].len, vec := None) == items[0];
      assert [items[0]] + items[1..] == items;
    }
  }

  lemma {:induction false} AdvancedPart(a: seq<WriteItem>, b: seq<WriteItem>, n: nat)
    requires Waiting(a) && Waiting(b) && n <= |Pending(a)|
    ensures Waiting(a + b) && Advanced(a + b, n) == Advanced(a, n) + b
  {
    hide Pending, Advanced, Rest;
    if a == [] {
      NothingPending();
      assert a + b == b && [] + b == b;
      NoneAdvanced(b);
    } else {
      var w, rest, left := a[0], a[1..], |a[0].data| - a[0].offset;
      PendingStep(a);
      Regroup(w, rest, b);
      AdvancedStep(w, rest, n);
      AdvancedStep(w, rest + b, n);
      if left <= n {
        AdvancedPart(rest, b, n - left);
      } else {
        Regroup(w.(offset := w.offset + n), rest, b);
      }
    }
  }

  lemma Regroup(w: WriteItem, a: seq<WriteItem>, b: seq<WriteItem>)
    ensures ([w] + a) + b == [w] + (a + b)
  {
  }

  lemma PendingStep(a: seq<WriteItem>)
    requires Waiting(a) && a != []
    ensures a == [a[0]] + a[1..] && Waiting(a[1..]) && |Pending(a)| == |a[0].data| - a[0].offset + |Pending(a[1..])|
  {
  }

  lemma AdvancedStep(w: WriteItem, rest: seq<WriteItem>, n: nat)
    requires w.offset <= |w.data| && forall k :: 0 <= k < |rest| ==> rest[k].offset <= |rest[k].data|
    ensures var left := |w.data| - w.offset;
      Advanced([w] + rest, n) == if left <= n then Advanced(rest, n - left) else [w.(offset := w.offset + n)] + rest
  {
    assert ([w] + rest)[1..] == rest;
  }

  lemma NothingPending()
    ensures Pending([]) == [] && forall n: nat :: Advanced([], n) == []
  {
  }

  lemma NoneAdvanced(list: seq<WriteItem>)
    requires Waiting(list)
    ensures Advanced(list, 0) == list
  {
    if list != [] {
      assert list[0].(offset := list[0].offset + 0) == list[0];
    }
  }

  lemma NoneOut(all: seq<WriteItem>)
    requires Waiting(all)
    ensures all[0..] + Handed(all[..0]) == all && IovOf(all[..0]) == []
  {
  }

  // While the front has not been handed out, there is a buffer left to hand out.
  lemma FirstIsNext(all: seq<WriteItem>, list: seq<WriteItem>, i: nat)
    requires Waiting(all) && i <= |all| && list == all[i..] + Handed(all[..i]) && list != [] && list[0].vec == None
    ensures i < |all| && list[0] == all[i]
    ensures list[1..] + [all[i].(vec := Some(i))] == all[i + 1..] + Handed(all[..i + 1])
    ensures IovOf(all[..i]) + [Iov(all[i].offset, |all[i].data| - all[i].offset)] == IovOf(all[..i + 1])
  {
    AllHanded(all, list, i);
    OneMoreHanded(all, i);
    hide Handed, IovOf;
    assert list[1..] == all[i + 1..] + Handed(all[..i]);
  }

  lemma OneMoreHanded(all: seq<WriteItem>, i: nat)
    requires Waiting(all) && i < |all|
    ensures Handed(all[..i + 1]) == Handed(all[..i]) + [all[i].(vec := Some(i))]
    ensures IovOf(all[..i]) + [Iov(all[i].offset, |all[i].data| - all[i].offset)] == IovOf(all[..i + 1])
  {
    assert all[..i + 1] == all[..i] + [all[i]];
  }

  lemma AllHanded(all: seq<WriteItem>, list: seq<WriteItem>, i: nat)
    requires i <= |all| && list == all[i..] + Handed(all[..i]) && list != []
    ensures i == |all| ==> list[0].vec.Some?
  {
    if i == |all| {
      assert list == Handed(all[..i]);
      assert list[0] == Handed(all[..i])[0];
    }
  }

  class WriteItemList {
    var list: seq<WriteItem>

    constructor ()
      ensures list == []
    {
      list := [];
    }

    method AddWriteItem(data: Bytes)
      requires Waiting(list) && data != []
      modifies this
      ensures Waiting(list) && Pending(list) == old(Pending(list)) + data && Held(list) == old(Held(list)) + |data|
    {
      var w := WriteItem(data, 0, None);
      PendingAdds(list, [w]);
      assert Pending([w]) == data by {
        assert Rest(w) == data;
      }
      list := list + [w];
    }

    // Hand the first buffers out; they go to the back of the list until the write is over.
    method GetFirstNItems(n: nat) returns (iov: seq<Iov>)
      requires Waiting(list)
      modifies this
      ensures |iov| == (if n <= |old(list)| then n else |old(list)|)
      ensures list == old(list)[|iov|..] + Handed(old(list)[..|iov|]) && iov == IovOf(old(list)[..|iov|])
    {
      hide Pending, Handed, IovOf;
      iov := [];
      NoneOut(list);
      ghost var all := list;
      if list == [] {
        return;
      }
      var i := 0;
      while i < n && list[0].vec == None
        invariant i == |iov| <= n && i <= |all| && |list| == |all|
        invariant i < |all| ==> list[0] == all[i] && all[i].vec == None
        invariant list == all[i..] + Handed(all[..i]) && iov == IovOf(all[..i])
        decreases n - i
      {
        FirstIsNext(all, list, i);
        var w := list[0];
        list := list[1..] + [w.(vec := Some(i))];
        iov := iov + [Iov(w.offset, |w.data| - w.offset)];
        i := i + 1;
      }
    }

    // Take the last buffer that was handed out back in.  One that is through is freed; one that
    // is not goes to the front, and then no buffer behind it may be through.
    method TakeBack(v: Iov, done: bool) returns (freed: nat)
      requires list != [] && v.base + v.len == |list[|list| - 1].data| && (done ==> v.len == 0)
      modifies this
      ensures var last := |old(list)| - 1; list == Again(old(list)[last], v) + old(list)[..last]
      ensures Held(list) + freed == old(Held(list)) && (freed > 0 ==> v.len == 0)
    {
      hide Held;
      var w := list[|list| - 1];
      HeldSplits(list);
      list := list[..|list| - 1];
      freed := 0;
      if v.len == 0 {
        freed := |w.data|;
        assert Again(w, v) + list == list;
      } else {
        assert !done;
        var again := w.(offset := |w.data| - v.len, vec := None);
        HeldFront(again, list);
        list := [again] + list;
      }
    }

    // The buffers from m on have been taken back in.
    ghost predicate Cleaning(tail: seq<WriteItem>, items: seq<WriteItem>, iov: seq<Iov>, m: nat, done: bool)
      reads this
      requires Fit(items, iov)
    {
      FitIsEnough(items, iov);
      && m <= |items| && list == Kept(items[m..], iov[m..]) + tail + Handed(items)[..m]
      && (list != [] && list[|list| - 1].vec.Some? <==> m > 0)
      && (m > 0 ==> list[|list| - 1] == items[m - 1].(vec := Some(m - 1)))
      && (done ==> m < |items| && iov[m].len == 0)
    }

    lemma CleaningIs(tail: seq<WriteItem>, items: seq<WriteItem>, iov: seq<Iov>, m: nat, done: bool)
      requires Fit(items, iov) && Waiting(tail) && m <= |items|
      requires |items| == |iov| && forall k :: 0 <= k < |items| ==> iov[k].len <= |items[k].data|
      requires list == Kept(items[m..], iov[m..]) + tail + Handed(items)[..m]
      requires done ==> m < |items| && iov[m].len == 0
      ensures Cleaning(tail, items, iov, m, done)
    {
      hide Kept, Waiting, Handed;
      KeptWaits(items[m..], iov[m..]);
      LastIsHanded(Kept(items[m..], iov[m..]), tail, Handed(items), m);
    }

    lemma CleaningStarts(tail: seq<WriteItem>, items: seq<WriteItem>, iov: seq<Iov>)
      requires Fit(items, iov) && Waiting(tail) && list == tail + Handed(items)
      ensures Cleaning(tail, items, iov, |items|, false)
    {
      FitIsEnough(items, iov);
      assert items[|items|..] == [];
      assert Kept(items[|items|..], iov[|items|..]) + tail + Handed(items)[..|items|] == list;
      CleaningIs(tail, items, iov, |items|, false);
    }

    lemma CleaningEnds(tail: seq<WriteItem>, items: seq<WriteItem>, iov: seq<Iov>, m: nat, done: bool)
      requires Fit(items, iov) && Cleaning(tail, items, iov, m, done)
      requires !(list != [] && list[|list| - 1].vec.Some?)
      ensures list == Kept(items, iov) + tail
    {
      WholeKept(items, iov);
    }

    method TakeLast(iov: seq<Iov>, done: bool, ghost tail: seq<WriteItem>, ghost items: seq<WriteItem>, ghost m: nat)
      returns (freed: nat, done': bool)
      requires Fit(items, iov) && Waiting(tail) && Cleaning(tail, items, iov, m, done)
      requires list != [] && list[|list| - 1].vec.Some?
      modifies this
      ensures m > 0 && Cleaning(tail, items, iov, m - 1, done') && Held(list) + freed == old(Held(list))
    {
      hide Kept, Held, Pending, Waiting;
      FitIsEnough(items, iov);
      ghost var kept, handed := Kept(items[m..], iov[m..]), Handed(items);
      var v := iov[list[|list| - 1].vec.value];
      KeptStep(items, iov, m - 1, done);
      SplitLast(kept + tail, handed, m);
      assert list[..|list| - 1] == kept + tail + handed[..m - 1];
      Rearranged(Again(list[|list| - 1], v), kept, tail, handed[..m - 1]);
      freed := TakeBack(v, done);
      done' := done || v.len == 0;
      CleaningIs(tail, items, iov, m - 1, done');
    }

    // Take the buffers back in: what is through is freed, what is not goes to the front again.
    method CleanWrittenItems(iov: seq<Iov>, ghost tail: seq<WriteItem>, ghost items: seq<WriteItem>) returns (freed: nat)
      requires Waiting(tail) && Fit(items, iov) && list == tail + Handed(items)
      modifies this
      ensures list == Kept(items, iov) + tail && Held(list) + freed == old(Held(list))
    {
      hide Kept, Held, Pending, Waiting, Handed, Cleaning;
      var done := false;
      freed := 0;
      ghost var m: nat := |items|;
      CleaningStarts(tail, items, iov);
      while list != [] && list[|list| - 1].vec.Some?
        invariant Cleaning(tail, items, iov, m, done)
        invariant Held(list) + freed == old(Held(list))
        decreases m
      {
        var n;
        n, done := TakeLast(iov, done, tail, items, m);
        freed := freed + n;
        m := m - 1;
      }
      CleaningEnds(tail, items, iov, m, done);
    }
  }

  lemma WholeKept(items: seq<WriteItem>, iov: seq<Iov>)
    requires Fit(items, iov)
    ensures Kept(items[0..], iov[0..]) == Kept(items, iov)
  {
    assert items[0..] == items && iov[0..] == iov;
  }

  lemma SplitLast(front: seq<WriteItem>, handed: seq<WriteItem>, m: nat)
    requires 0 < m <= |handed|
    ensures front + handed[..m] == front + handed[..m - 1] + [handed[m - 1]]
  {
  }

  lemma {:induction false} KeptWaits(items: seq<WriteItem>, iov: seq<Iov>)
    requires |items| == |iov| && forall k :: 0 <= k < |items| ==> iov[k].len <= |items[k].data|
    ensures forall w :: w in Kept(items, iov) ==> w.vec == None
    ensures items == [] ==> Kept(items, iov) == []
  {
    if items != [] {
      KeptWaits(items[1..], iov[1..]);
    }
  }

  // The last of the list is the last that was handed out, and is marked so, as long as there is
  // one.
  lemma LastIsHanded(kept: seq<WriteItem>, tail: seq<WriteItem>, handed: seq<WriteItem>, m: nat)
    requires (forall w :: w in kept ==> w.vec == None) && Waiting(tail) && m <= |handed|
    requires forall k :: 0 <= k < |handed| ==> handed[k].vec == Some(k)
    ensures var list := kept + tail + handed[..m];
      && (list != [] && list[|list| - 1].vec.Some? <==> m > 0)
      && (m > 0 ==> list[|list| - 1] == handed[m - 1] && list[..|list| - 1] == kept + tail + handed[..m - 1])
      && (m == 0 ==> list == kept + tail)
  {
    NoneHanded(kept, tail);
    var list := kept + tail + handed[..m];
    if m == 0 {
      assert list == kept + tail;
    } else {
      assert list[|list| - 1] == handed[m - 1];
    }
  }

  lemma Rearranged(w: seq<WriteItem>, a: seq<WriteItem>, b: seq<WriteItem>, c: seq<WriteItem>)
    ensures w + (a + b + c) == (w + a) + b + c
  {
  }

  lemma NoneHanded(kept: seq<WriteItem>, tail: seq<WriteItem>)
    requires (forall w :: w in kept ==> w.vec == None) && Waiting(tail)
    ensures kept + tail != [] ==> (kept + tail)[|kept + tail| - 1].vec == None
  {
    if tail == [] {
      assert kept + tail == kept;
      assert kept != [] ==> kept[|kept| - 1] in kept;
    }
  }

  // Going back by one buffer.
  lemma KeptStep(items: seq<WriteItem>, iov: seq<Iov>, m: nat, done: bool)
    requires Fit(items, iov) && m < |items|
    requires done ==> m + 1 < |items| && iov[m + 1].len == 0
    ensures iov[m].base + iov[m].len == |items[m].data|
    ensures forall k :: 0 <= k < |items| ==> iov[k].len <= |items[k].data|
    ensures Kept(items[m..], iov[m..]) ==
      Again(items[m], iov[m]) + Kept(items[m + 1..], iov[m + 1..])
    ensures done ==> iov[m].len == 0
    ensures forall w :: w in Kept(items[m..], iov[m..]) ==> w.vec == None
  {
    assert items[m..][1..] == items[m + 1..] && iov[m..][1..] == iov[m + 1..];
    KeptWaits(items[m..], iov[m..]);
  }

  lemma {:induction false} HeldAdds(a: seq<WriteItem>, b: seq<WriteItem>)
    ensures Held(a + b) == Held(a) + Held(b)
  {
    if a == [] {
      assert a + b == b;
    } else {
      assert (a + b)[1..] == a[1..] + b;
      HeldAdds(a[1..], b);
    }
  }

  lemma HeldFront(w: WriteItem, list: seq<WriteItem>)
    ensures Held([w] + list) == |w.data| + Held(list)
  {
    assert ([w] + list)[1..] == list;
  }

  lemma HeldSplits(list: seq<WriteItem>)
    requires list != []
    ensures Held(list) == Held(list[..|list| - 1]) + |list[|list| - 1].data|
  {
    HeldAdds(list[..|list| - 1], [list[|list| - 1]]);
    HeldFront(list[|list| - 1], []);
    assert [list[|list| - 1]] + [] == [list[|list| - 1]];
    assert list[..|list| - 1] + [list[|list| - 1]] == list;
  }

  // ---- the sending side ----

  const BATCH := 5
  const MAX_BATCH_SIZE := 102400

  datatype WriteOutcome = Wrote(n: nat) | Interrupted | WouldBlock | Failed

  class Sender {
    const items: WriteItemList
    const maxHeld: nat
    var held: nat               // what the limiter counts
    var wire: Bytes             // what the kernel has taken
    var writable: bool
    var broken: bool
    ghost var queued: seq<Msg>  // every message taken so far
    ghost var freed: nat        // the bytes the limiter has got back

    // What was queued has been written or is pending, and is freed or held.
    ghost predicate Valid()
      reads this, items
    {
      && Waiting(items.list) && held == Held(items.list) <= maxHeld
      && EncodeAll(queued) == wire + Pending(items.list) && freed + held == |EncodeAll(queued)|
    }

    constructor (maxHeld: nat)
      ensures Valid() && queued == [] && this.maxHeld == maxHeld && fresh(items)
    {
      items := new WriteItemList();
      this.maxHeld, held, wire, writable, broken, queued, freed := maxHeld, 0, [], true, false, [], 0;
    }

    // Queue messages, several to a buffer.  When the limit is reached the rest is dropped.
    method Write(ms: seq<Msg>) returns (ok: bool, ghost taken: nat)
      requires Valid()
      modifies this`held, this`queued, items
      ensures Valid() && taken <= |ms| && (ok <==> taken == |ms|) && queued == old(queued) + ms[..taken]
      ensures Pending(items.list) == old(Pending(items.list)) + EncodeAll(ms[..taken])
      ensures held == old(held) + |EncodeAll(ms[..taken])| && (!ok ==> old(held) + |EncodeAll(ms)| > maxHeld)
    {
      hide Pending, EncodeAll, Held;
      var prev: nat := 0;
      var total: nat := 0;
      NoneEncoded();
      assert ms[..0] == [] && ms[0..0] == [];
      for i := 0 to |ms|
        invariant Valid() && prev <= i && (i == |ms| ==> prev == |ms|) && queued == old(queued) + ms[..prev]
        invariant Pending(items.list) == old(Pending(items.list)) + EncodeAll(ms[..prev])
        invariant held == old(held) + |EncodeAll(ms[..prev])|
        invariant total == |EncodeAll(ms[prev..i])|
      {
        EncodeLast(ms, prev, i);
        total := total + HEADER_SIZE + |ms[i].body|;
        if i + 1 < |ms| && total < MAX_BATCH_SIZE {
          continue;
        }
        var buffer := EncodeAll(ms[prev..i + 1]);
        if held + total > maxHeld {
          EncodeSplits(ms, prev, i + 1);
          return false, prev;
        }
        held := held + total;
        Associates(wire, Pending(items.list), buffer);
        items.AddWriteItem(buffer);
        EncodeAdds(queued, ms[prev..i + 1]);
        queued := queued + ms[prev..i + 1];
        EncodeAdds(ms[..prev], ms[prev..i + 1]);
        assert ms[..prev] + ms[prev..i + 1] == ms[..i + 1];
        assert queued == old(queued) + ms[..i + 1];
        prev := i + 1;
        total := 0;
        assert ms[prev..i + 1] == [];
      }
      assert ms[..|ms|] == ms;
      return true, |ms|;
    }

    // Move the vectors on by what was written.
    static method MoveOn(iov: seq<Iov>, n: nat) returns (r: seq<Iov>)
      ensures r == AfterWrite(iov, n)
    {
      hide AfterWrite;
      r := [];
      var left: nat := n;
      var i: nat := 0;
      while i < |iov|
        invariant i <= |iov| && AfterWrite(iov, n) == r + AfterWrite(iov[i..], left)
      {
        var v := iov[i];
        assert iov[i..] == [v] + iov[i + 1..];
        WriteSteps(v, iov[i + 1..], left);
        if v.len <= left {
          left := left - v.len;
          r := r + [Iov(v.base + v.len, 0)];
        } else {
          r := r + [Iov(v.base + left, v.len - left)] + iov[i + 1..];
          return;
        }
        i := i + 1;
      }
    }

    // One vectored write: whatever part of the first buffers the kernel takes is off the list.
    method WriteOnce(outcome: WriteOutcome)
      requires Valid() && items.list != []
      modifies this`held, this`wire, this`freed, items
      ensures Valid() && wire + Pending(items.list) == old(wire + Pending(items.list))
      ensures old(wire) <= wire && (!outcome.Wrote? ==> wire == old(wire))
      ensures outcome.Wrote? ==>
        var first := Pending(old(items.list)[..Min(BATCH, |old(items.list)|)]);
        first != [] && wire == old(wire) + first[..Min(outcome.n, |first|)]
    {
      hide Held, Pending, Advanced, AfterWrite, Kept, Fit, EncodeAll;
      ghost var all, wire0 := items.list, wire;
      var count := if BATCH <= |items.list| then BATCH else |items.list|;
      var handed := items.list[..count];
      ghost var tail := all[count..];
      assert all == handed + tail && Waiting(handed) && Waiting(tail);
      var iov := items.GetFirstNItems(BATCH);
      var n: nat := 0;
      if outcome.Wrote? {
        n := if outcome.n <= |Pending(handed)| then outcome.n else |Pending(handed)|;
        wire := wire + Pending(handed)[..n];
      }
      var after := MoveOn(iov, n);
      KeptIsAdvanced(handed, n);
      SomethingPending(handed);
      Associates(wire0, Pending(handed)[..n], Pending(Advanced(handed, n) + tail));
      var bytes := items.CleanWrittenItems(after, tail, handed);
      SameHeld(tail, handed);
      held, freed := held - bytes, freed + bytes;
      FrontAdvanced(handed, tail, n);
    }

    // Write until nothing is left or the kernel takes no more.  What it takes is what was at the
    // front of the list, in order; what is left stays for the next time.
    method FlushBuffer(outcomes: seq<WriteOutcome>)
      requires Valid() && (broken || writable)
      modifies this`held, this`wire, this`freed, this`writable, this`broken, items
      ensures Valid() && wire + Pending(items.list) == old(wire + Pending(items.list)) && old(wire) <= wire
      ensures old(broken) ==> broken && wire == old(wire)
      ensures !broken && writable ==> items.list == []
      ensures broken && !old(broken) ==> exists k :: 0 <= k < |outcomes| && outcomes[k].Failed?
      ensures !old(broken) && (forall k :: 0 <= k < |outcomes| ==> outcomes[k].Wrote? && outcomes[k].n > 0) ==>
        items.list == [] || |wire| >= |old(wire)| + |outcomes|
    {
      hide Pending;
      var k := 0;
      while !broken && items.list != []
        invariant Valid() && k <= |outcomes|
        invariant wire + Pending(items.list) == old(wire + Pending(items.list)) && old(wire) <= wire
        invariant old(broken) ==> broken && wire == old(wire)
        invariant (broken || writable) && (broken ==> old(broken))
        invariant (forall i :: 0 <= i < |outcomes| ==> outcomes[i].Wrote? && outcomes[i].n > 0) ==>
          |wire| >= |old(wire)| + k
        decreases |outcomes| - k, if broken then 0 else 1
      {
        // with no more outcomes given the socket would block
        var outcome := if k < |outcomes| then outcomes[k] else WouldBlock;
        ghost var before := wire;
        WriteOnce(outcome);
        if outcome.WouldBlock? {
          writable := false;
          return;
        }
        if outcome.Failed? {
          broken := true;
          return;
        }
        k := k + 1;
      }
    }
  }

  function Min(a: nat, b: nat): nat {
    if a <= b then a else b
  }

  lemma SomethingPending(list: seq<WriteItem>)
    requires Waiting(list) && list != []
    ensures Pending(list) != []
  {
    assert Rest(list[0]) != [];
  }

  lemma Associates(a: Bytes, b: Bytes, c: Bytes)
    ensures (a + b) + c == a + (b + c)
  {
  }

  lemma NoneEncoded()
    ensures EncodeAll([]) == []
  {
  }

  lemma {:induction false} EncodeAdds(a: seq<Msg>, b: seq<Msg>)
    ensures EncodeAll(a + b) == EncodeAll(a) + EncodeAll(b)
  {
    hide Encode;
    if a == [] {
      assert a + b == b;
    } else {
      assert (a + b)[1..] == a[1..] + b;
      EncodeAdds(a[1..], b);
    }
  }

  lemma EncodeSplits(ms: seq<Msg>, a: nat, b: nat)
    requires a <= b <= |ms|
    ensures |EncodeAll(ms[..a])| + |EncodeAll(ms[a..b])| <= |EncodeAll(ms)|
  {
    hide EncodeAll, Encode;
    EncodeAdds(ms[..a], ms[a..b]);
    EncodeAdds(ms[..b], ms[b..]);
    assert ms[..a] + ms[a..b] == ms[..b] && ms[..b] + ms[b..] == ms;
  }

  lemma EncodeLast(ms: seq<Msg>, prev: nat, i: nat)
    requires prev <= i < |ms|
    ensures |EncodeAll(ms[prev..i + 1])| == |EncodeAll(ms[prev..i])| + HEADER_SIZE + |ms[i].body|
  {
    hide Encode;
    assert ms[prev..i + 1] == ms[prev..i] + [ms[i]];
    EncodeAdds(ms[prev..i], [ms[i]]);
    assert EncodeAll([ms[i]]) == Encode(ms[i]) + EncodeAll([]);
  }

  lemma WriteSteps(v: Iov, rest: seq<Iov>, n: nat)
    ensures AfterWrite([v] + rest, n) ==
      if v.len <= n then [Iov(v.base + v.len, 0)] + AfterWrite(rest, n - v.len) else [Iov(v.base + n, v.len - n)] + rest
    ensures AfterWrite([], n) == []
  {
    assert ([v] + rest)[1..] == rest;
  }

  lemma {:induction false} HeldSame(a: seq<WriteItem>, b: seq<WriteItem>)
    requires |a| == |b| && forall k :: 0 <= k < |a| ==> a[k].data == b[k].data
    ensures Held(a) == Held(b)
  {
    if a != [] {
      HeldSame(a[1..], b[1..]);
    }
  }

  lemma SameHeld(tail: seq<WriteItem>, items: seq<WriteItem>)
    ensures Held(tail + Handed(items)) == Held(items + tail)
  {
    HeldAdds(tail, Handed(items));
    HeldAdds(items, tail);
    HeldSame(Handed(items), items);
  }

  lemma FrontAdvanced(handed: seq<WriteItem>, tail: seq<WriteItem>, n: nat)
    requires Waiting(handed) && Waiting(tail) && n <= |Pending(handed)|
    ensures Waiting(Advanced(handed, n) + tail) && Waiting(handed + tail)
    ensures Pending(handed)[..n] + Pending(Advanced(handed, n) + tail) == Pending(handed + tail)
  {
    hide Pending, Advanced, Rest, Held;
    AdvancedRest(handed, n);
    PendingAdds(Advanced(handed, n), tail);
    PendingAdds(handed, tail);
    assert Pending(handed) == Pending(handed)[..n] + Pending(handed)[n..];
  }

  // ---- the receiving side ----

  datatype ReadOutcome = Got(n: nat) | ReadInterrupted | NothingYet | ReadFailed

  // How many bytes a row of reads takes, when so much room is left and so much has arrived, and
  // whether the connection is found closed, or the socket would have blocked.
  datatype Reading = Reading(taken: nat, closed: bool, blocked: bool)

  function Reads(outcomes: seq<ReadOutcome>, room: nat, left: nat): (r: Reading)
    ensures r.taken <= room && r.taken <= left
  {
    if outcomes == [] || room == 0 then Reading(0, false, false)
    else match outcomes[0]
      case Got(n) =>
        var m := Min(n, Min(room, left));
        if m == 0 then Reading(0, true, false)
        else
          var r := Reads(outcomes[1..], room - m, left - m);
          r.(taken := r.taken + m)
      case ReadInterrupted => Reads(outcomes[1..], room, left)
      case NothingYet => Reading(0, false, true)
      case ReadFailed => Reading(0, true, false)
  }

  lemma ReadsStep(outcomes: seq<ReadOutcome>, k: nat, room: nat, left: nat)
    requires k < |outcomes| && room > 0
    ensures Reads(outcomes[k..], room, left) ==
      match outcomes[k]
      case Got(n) =>
        var m := Min(n, Min(room, left));
        if m == 0 then Reading(0, true, false)
        else
          var r := Reads(outcomes[k + 1..], room - m, left - m);
          r.(taken := r.taken + m)
      case ReadInterrupted => Reads(outcomes[k + 1..], room, left)
      case NothingYet => Reading(0, false, true)
      case ReadFailed => Reading(0, true, false)
  {
    assert outcomes[k..][1..] == outcomes[k + 1..];
  }

  lemma NoMoreReads(outcomes: seq<ReadOutcome>, k: nat, room: nat, left: nat)
    requires k <= |outcomes|
    ensures room == 0 || k == |outcomes| ==> Reads(outcomes[k..], room, left) == Reading(0, false, false)
  {
  }

  lemma MoreIn(kept: Bytes, s: Bytes, a: nat, m: nat)
    requires a + m <= |s|
    ensures (kept + s[..a]) + s[a..a + m] == kept + s[..a + m]
  {
    assert s[..a] + s[a..a + m] == s[..a + m];
  }

  class Receiver {
    const maxHeld: nat
    var held: nat               // what the limiter counts
    var incoming: Bytes         // what has arrived and has not been read
    var readBytes: Bytes        // what has been read and makes no message yet
    var delivered: seq<Msg>
    var readable: bool
    var broken: bool
    var astray: bool            // a stale header has been taken for a message
    ghost var got: Bytes        // everything read so far

    ghost predicate Valid()
      reads this
    {
      && held == |readBytes| <= maxHeld
      && Parse(got).0 == delivered && (!broken && !astray ==> Parse(got).1 == readBytes)
    }

    constructor (maxHeld: nat, incoming: Bytes)
      ensures Valid() && this.maxHeld == maxHeld && this.incoming == incoming && got == [] && delivered == []
      ensures !broken && !astray
    {
      NothingParses();
      this.maxHeld, held, this.incoming, readBytes, delivered := maxHeld, 0, incoming, [], [];
      readable, broken, astray, got := true, false, false, [];
    }

    // Hand out the messages in the first n bytes of memory.  Right, if and only if no header that
    // is not all there wraps the 32-bit sum around: then the program hands out a message of
    // nearly four gigabytes, and the model stops.
    method ParseMsg(mem: Bytes, n: nat) returns (ok: bool, parsed: nat, length: nat)
      requires n + HEADER_SIZE <= |mem| && n + HEADER_SIZE < LEN_SPAN
      modifies this`delivered
      ensures var (ms, rest) := Parse(mem[..n]);
        && delivered == old(delivered) + ms && parsed + |rest| == n && mem[parsed..n] == rest
        && (ok <==> rest == [] || !Wraps(mem[parsed..], |rest|))
        && (!ok ==> length == LengthOf(mem[parsed..]) >= LEN_SPAN - HEADER_SIZE)
    {
      hide Parse, Complete, First, Wraps, LengthOf, TakesFirst;
      ok, parsed, length := true, 0, 0;
      assert mem[0..n] == mem[..n];
      while parsed < n
        invariant parsed <= n && ok
        invariant Parse(mem[..n]).1 == Parse(mem[parsed..n]).1
        invariant old(delivered) + Parse(mem[..n]).0 == delivered + Parse(mem[parsed..n]).0
        decreases n - parsed
      {
        ghost var left := mem[parsed..n];
        assert mem[parsed..][..n - parsed] == left;
        TestIsRight(mem[parsed..], n - parsed);
        ParseStep(left);
        length := LengthOf(mem[parsed..]);
        if !TakesFirst(mem[parsed..], n - parsed) {
          return;
        }
        if length > n {
          WrapIsLong(mem[parsed..], n - parsed);
          return false, parsed, length;
        }
        NoWrap(mem[parsed..], n - parsed, n);
        BehindFirst(mem, parsed, n);
        delivered := delivered + [Msg(mem[parsed + 2], mem[parsed + HEADER_SIZE..parsed + HEADER_SIZE + length])];
        parsed := parsed + HEADER_SIZE + length;
      }
      NothingParses();
      assert mem[parsed..n] == [];
    }

    // Fill a buffer of so many bytes with what was kept and what there is to read.
    method ReadSocket(size: nat, outcomes: seq<ReadOutcome>) returns (buffer: Bytes)
      requires Valid() && !broken && |readBytes| < size
      modifies this`held, this`readBytes, this`got, this`incoming, this`readable, this`broken
      ensures var r := Reads(outcomes, size - |old(readBytes)|, |old(incoming)|);
        var more := old(incoming)[..r.taken];
        && buffer == old(readBytes) + more && got == old(got) + more && incoming == old(incoming)[r.taken..]
        && broken == r.closed && readable == (old(readable) && !r.blocked)
      ensures held == 0 && readBytes == []
    {
      hide Reads, Parse;
      buffer := readBytes;
      held := held - |readBytes|;
      readBytes := [];
      ghost var kept, all := buffer, Reads(outcomes, size - |buffer|, |incoming|);
      var k: nat, taken: nat := 0, 0;
      assert outcomes[0..] == outcomes && buffer == kept + incoming[..0];
      while |buffer| < size && !broken && k < |outcomes|
        invariant k <= |outcomes| && |buffer| <= size && taken <= |incoming|
        invariant incoming == old(incoming) && got == old(got) && held == 0 && readBytes == []
        invariant buffer == kept + incoming[..taken] && readable == old(readable)
        invariant var rest :=
            if broken then Reading(0, true, false) else Reads(outcomes[k..], size - |buffer|, |incoming| - taken);
          all == rest.(taken := taken + rest.taken)
      {
        ReadsStep(outcomes, k, size - |buffer|, |incoming| - taken);
        match outcomes[k] {
          case Got(n) =>
            var m := Min(n, Min(size - |buffer|, |incoming| - taken));
            if m == 0 {
              // closed by the peer
              broken := true;
            } else {
              MoreIn(kept, incoming, taken, m);
              buffer := buffer + incoming[taken..taken + m];
              taken := taken + m;
            }
          case ReadInterrupted =>
          case NothingYet =>
            readable := false;
            break;
          case ReadFailed => broken := true;
        }
        k := k + 1;
      }
      NoMoreReads(outcomes, k, size - |buffer|, |incoming| - taken);
      got, incoming := got + incoming[..taken], incoming[taken..];
    }

    // Read, hand out the messages that are complete and keep the rest.  The buffer holds what
    // earlier reads, of any channel, left in it.  A message that does not fit the buffer fails
    // an assertion when the buffer is full.
    method ReadMore(size: nat, outcomes: seq<ReadOutcome>, stale: Bytes) returns (ok: bool)
      requires Valid() && !broken && !astray && size + HEADER_SIZE < LEN_SPAN && size + HEADER_SIZE <= |stale|
      modifies this
      ensures ok <==> |old(readBytes)| < size
      ensures !ok ==> unchanged(this)
      ensures ok ==>
        var r := Reads(outcomes, size - |old(readBytes)|, |old(incoming)|);
        var rest, filled := Parse(got).1, |old(readBytes)| + r.taken;
        && Valid() && got == old(got) + old(incoming)[..r.taken] && incoming == old(incoming)[r.taken..]
        && (astray <==> rest != [] && Wraps(rest + stale[filled..], |rest|))
        && (!astray ==> (broken <==> r.closed || |rest| > maxHeld)) && readable == (old(readable) && !r.blocked)
    {
      hide Reads, Parse, First, Complete, Wraps;
      if |readBytes| >= size {
        return false;
      }
      var buffer := ReadSocket(size, outcomes);
      ParseOn(old(got), got[|old(got)|..]);
      assert got == old(got) + got[|old(got)|..];
      var mem := buffer + stale[|buffer|..];
      assert mem[..|buffer|] == buffer;
      var right, parsed, length := ParseMsg(mem, |buffer|);
      assert mem[parsed..] == mem[parsed..|buffer|] + stale[|buffer|..];
      assert mem[parsed..|buffer|] == buffer[parsed..];
      ok := true;
      if !right {
        astray := true;
        return;
      }
      if held + (|buffer| - parsed) > maxHeld {
        broken := true;
        return;
      }
      held := held + (|buffer| - parsed);
      readBytes := buffer[parsed..];
    }
  }

  lemma ParseStep(s: Bytes)
    ensures Parse(s) ==
      if !Complete(s) then ([], s)
      else ([First(s)] + Parse(s[HEADER_SIZE + |First(s).body|..]).0, Parse(s[HEADER_SIZE + |First(s).body|..]).1)
  {
  }

  lemma BehindFirst(mem: Bytes, parsed: nat, n: nat)
    requires parsed < n && n + HEADER_SIZE <= |mem| && Complete(mem[parsed..n])
    ensures var m, length := First(mem[parsed..n]), LengthOf(mem[parsed..]);
      && parsed + HEADER_SIZE + length <= n && |m.body| == length
      && m == Msg(mem[parsed + 2], mem[parsed + HEADER_SIZE..parsed + HEADER_SIZE + length])
      && mem[parsed..n][HEADER_SIZE + |m.body|..] == mem[parsed + HEADER_SIZE + length..n]
  {
    Within(mem, parsed, n, 4, 8);
    Within(mem, parsed, n, HEADER_SIZE, HEADER_SIZE + LengthOf(mem[parsed..]));
  }

  lemma WrapIsLong(mem: Bytes, n: nat)
    requires HEADER_SIZE <= |mem| && n <= |mem| && n < LEN_SPAN && TakesFirst(mem, n) && LengthOf(mem) > n
    ensures Wraps(mem, n) && LengthOf(mem) >= LEN_SPAN - HEADER_SIZE
  {
    LengthBound(mem);
  }

  lemma NoWrap(mem: Bytes, n: nat, all: nat)
    requires HEADER_SIZE <= |mem| && n <= |mem| && LengthOf(mem) <= all && all + HEADER_SIZE < LEN_SPAN
    ensures !Wraps(mem, n)
  {
  }

  // Ordinary messages suffice: the first is read whole; of the third, one byte arrives with the
  // second, and the length field behind it is what the first has left there.
  lemma StaleHeaderStrays()
    ensures var m1, m2, m3 := Msg(0, [0, 0, 0, 0, 255, 255, 255, 242]), Msg(1, []), Msg(2, []);
      var mem1 := Encode(m1) + seq(28, _ => 0);
      var read2 := Encode(m2) + Encode(m3)[..1];
      var mem2 := read2 + mem1[15..];
      && Fits(m1) && Fits(m2) && Fits(m3)
      && Parse(Encode(m1)) == ([m1], []) && Parse(read2) == ([m2], Encode(m3)[..1])
      && Wraps(mem2[14..], 1) && LengthOf(mem2[14..]) == 0xFFFF_FFF2
  {
    var m1, m2, m3 := Msg(0, [0, 0, 0, 0, 255, 255, 255, 242]), Msg(1, []), Msg(2, []);
    OneAndRest(m1, []);
    OneAndRest(m2, Encode(m3)[..1]);
    assert Encode(m1) + [] == Encode(m1);
    var mem1 := Encode(m1) + seq(28, _ => 0);
    var mem2 := Encode(m2) + Encode(m3)[..1] + mem1[15..];
    Within(mem2, 14, |mem2|, 4, 8);
    LeftBehind(Encode(m2) + Encode(m3)[..1], Encode(m1), seq(28, _ => 0));
    assert Encode(m1)[18..22] == [255, 255, 255, 242] by {
      BodyAt(m1, 4);
      BodyAt(m1, 5);
      BodyAt(m1, 6);
      BodyAt(m1, 7);
    }
  }

  // What a shorter read leaves of a longer one.
  lemma LeftBehind(short: Bytes, long: Bytes, more: Bytes)
    requires |short| == 15 && |long| >= 22
    ensures (short + (long + more)[15..])[18..22] == long[18..22]
  {
    var mem := short + (long + more)[15..];
    forall i | 18 <= i < 22 ensures mem[i] == long[i] {
      assert mem[i] == (long + more)[15..][i - 15] == (long + more)[i];
    }
  }

  lemma BodyAt(m: Msg, i: nat)
    requires i < |m.body|
    ensures Encode(m)[HEADER_SIZE + i] == m.body[i]
  {
  }

  lemma OneAndRest(m: Msg, rest: Bytes)
    requires Fits(m) && |rest| < HEADER_SIZE
    ensures Parse(Encode(m) + rest) == ([m], rest)
  {
    FirstOfEncoded(m, rest);
    ParseStep(Encode(m) + rest);
    ParseStep(rest);
    assert [m] + [] == [m];
  }

  // ---- the two sides together ----

  datatype Act =
    | WriteMsgs(ms: seq<Msg>)
    | Flush(writes: seq<WriteOutcome>)
    | Arrive(n: nat)
    | Read(size: nat, outcomes: seq<ReadOutcome>, stale: Bytes)

  // Three ways to write the bytes of a link.
  lemma Passed(got: Bytes, incoming: Bytes, wire: Bytes, from: nat, to: nat)
    requires from <= to <= |wire| && got + incoming == wire[..from]
    ensures got + (incoming + wire[from..to]) == wire[..to]
  {
    assert wire[..to] == wire[..from] + wire[from..to];
    Associates(got, incoming, wire[from..to]);
  }

  lemma OnTheWay(got: Bytes, incoming: Bytes, wire: Bytes, arrived: nat, pending: Bytes)
    requires arrived <= |wire| && got + incoming == wire[..arrived]
    ensures wire + pending == got + (incoming + (wire[arrived..] + pending))
  {
    assert wire == wire[..arrived] + wire[arrived..];
    assert (wire[..arrived] + wire[arrived..]) + pending == wire[..arrived] + (wire[arrived..] + pending);
    Associates(got, incoming, wire[arrived..] + pending);
  }

  lemma ReadOn(got: Bytes, incoming: Bytes, k: nat)
    requires k <= |incoming|
    ensures (got + incoming[..k]) + incoming[k..] == got + incoming
  {
    assert incoming == incoming[..k] + incoming[k..];
    Associates(got, incoming[..k], incoming[k..]);
  }

  // A sender and a receiver, with what is between them.
  class Link {
    const sender: Sender
    const receiver: Receiver
    var arrived: nat            // how many bytes have come through

    ghost predicate Valid()
      reads this, sender, sender.items, receiver
    {
      && sender.Valid() && receiver.Valid() && arrived <= |sender.wire|
      && receiver.got + receiver.incoming == sender.wire[..arrived]
      && forall k :: 0 <= k < |sender.queued| ==> Fits(sender.queued[k])
    }

    constructor (sent: nat, kept: nat)
      ensures Valid() && fresh(sender) && fresh(sender.items) && fresh(receiver) && sender.queued == []
      ensures !receiver.broken && !receiver.astray
    {
      sender := new Sender(sent);
      receiver := new Receiver(kept, []);
      arrived := 0;
    }

    // Some more bytes come through, in order.
    method Pass(n: nat)
      requires Valid()
      modifies this, receiver`incoming
      ensures Valid() && arrived == Min(old(arrived) + n, |sender.wire|)
    {
      hide Parse, EncodeAll, Pending;
      var to := Min(arrived + n, |sender.wire|);
      Passed(receiver.got, receiver.incoming, sender.wire, arrived, to);
      receiver.incoming := receiver.incoming + sender.wire[arrived..to];
      arrived := to;
    }

    // What has been delivered is the first of what was queued, in order; all of it once all has
    // come through.  And every byte queued is freed or held.
    lemma Delivers()
      requires Valid()
      ensures receiver.delivered <= sender.queued
      ensures sender.freed + sender.held == |EncodeAll(sender.queued)|
      ensures sender.items.list == [] && arrived == |sender.wire| && receiver.incoming == [] ==>
        receiver.delivered == sender.queued && Parse(receiver.got).1 == []
    {
      hide EncodeAll, Parse;
      var pending := Pending(sender.items.list);
      var rest := receiver.incoming + (sender.wire[arrived..] + pending);
      OnTheWay(receiver.got, receiver.incoming, sender.wire, arrived, pending);
      PrefixParses(sender.queued, receiver.got, rest);
    }

    // Whatever the receiver can do now.
    predicate Able(act: Act)
      reads this, receiver
    {
      act.Read? ==> !receiver.broken && !receiver.astray
    }

    method Do(act: Act)
      requires Valid() && Able(act)
      requires act.WriteMsgs? ==> forall j :: 0 <= j < |act.ms| ==> Fits(act.ms[j])
      requires act.Read? ==> act.size + HEADER_SIZE < LEN_SPAN && act.size + HEADER_SIZE <= |act.stale|
      modifies this, sender, sender.items, receiver
      ensures Valid() && old(sender.queued) <= sender.queued && old(receiver.got) <= receiver.got
    {
      hide Parse, EncodeAll, Pending, Fits, Reads, Wraps;
      match act
      case WriteMsgs(ms) => var ok, taken := sender.Write(ms);
      case Flush(writes) =>
        if sender.broken || sender.writable {
          sender.FlushBuffer(writes);
        }
      case Arrive(n) => Pass(n);
      case Read(size, outcomes, stale) =>
        ghost var got, incoming := receiver.got, receiver.incoming;
        var ok := receiver.ReadMore(size, outcomes, stale);
        ReadOn(got, incoming, |receiver.got| - |got|);
    }

    // Any acts in any order, until the receiver breaks or goes astray.
    method Session(acts: seq<Act>) returns (done: nat)
      requires Valid()
      requires forall k :: 0 <= k < |acts| ==>
        && (acts[k].WriteMsgs? ==> forall j :: 0 <= j < |acts[k].ms| ==> Fits(acts[k].ms[j]))
        && (acts[k].Read? ==> acts[k].size + HEADER_SIZE < LEN_SPAN && acts[k].size + HEADER_SIZE <= |acts[k].stale|)
      modifies this, sender, sender.items, receiver
      ensures Valid() && done <= |acts| && (done < |acts| ==> receiver.broken || receiver.astray)
      ensures old(sender.queued) <= sender.queued && old(receiver.got) <= receiver.got
      ensures receiver.delivered <= sender.queued && sender.freed + sender.held == |EncodeAll(sender.queued)|
      ensures sender.items.list == [] && arrived == |sender.wire| && receiver.incoming == [] ==>
        receiver.delivered == sender.queued
    {
      hide Parse, EncodeAll, Pending, Fits;
      done := 0;
      while done < |acts| && Able(acts[done])
        invariant Valid() && done <= |acts|
        invariant old(sender.queued) <= sender.queued && old(receiver.got) <= receiver.got
      {
        Do(acts[done]);
        done := done + 1;
      }
      Delivers();
    }
  }
}
