/**
  What a reader of the block log may be trusted with: it makes nothing up.  Whatever bytes a file
  holds, a value that is read is put together from whole records with the right checksum, one
  behind the other, in blocks headed by numbers of this generation.
 */
module BlockSound {
  import opened Arithmetic
  import opened BlockFormat
  import opened BlockLog

  // A whole record lies here, within its block.
  ghost predicate IsRecord(sh: Shape, file: Bytes, pos: nat, kind: Byte, payload: Bytes)
    requires ValidShape(sh)
  {
    && |payload| <= 0xFFFF && pos + HEADER + |payload| <= BlockEnd(pos, sh.blockSize) <= |file|
    && LiesAt(file, pos, Frame(sh, kind, payload))
  }

  lemma {:induction false} LEForth(s: Bytes)
    ensures LE(FromLE(s), |s|) == s && FromLE(s) < Span(|s|)
  {
    if s != [] {
      var n := FromLE(s[1..]);
      LEForth(s[1..]);
      DivUnique(s[0] + 256 * n, 256, n, s[0]);
      assert s == [s[0]] + s[1..];
    }
  }

  // Any kind of record but a pad is recognised exactly where a whole record of it lies.
  lemma PickleIsRecord(sh: Shape, file: Bytes, pos: nat, kind: Byte, payload: Bytes)
    requires ValidShape(sh) && BlockEnd(pos, sh.blockSize) <= |file| && kind != ZERO && kind != FAKE && kind != BROKEN
    ensures Pickle(sh, file, pos) == Pickled(kind, payload, pos + HEADER + |payload|) <==> IsRecord(sh, file, pos, kind, payload)
  {
    if IsRecord(sh, file, pos, kind, payload) {
      FrameReads(sh, file, pos, kind, payload);
    }
    if Pickle(sh, file, pos) == Pickled(kind, payload, pos + HEADER + |payload|) {
      PickledLies(sh, file, pos);
    }
  }

  lemma PickledLies(sh: Shape, file: Bytes, pos: nat)
    requires ValidShape(sh) && BlockEnd(pos, sh.blockSize) <= |file|
    requires var kind := Pickle(sh, file, pos).kind; kind != ZERO && kind != FAKE && kind != BROKEN
    ensures var r := Pickle(sh, file, pos);
      IsRecord(sh, file, pos, r.kind, r.payload) && r.next == pos + HEADER + |r.payload|
  {
    hide LE, FromLE;
    var r := Pickle(sh, file, pos);
    var len := FromLE(file[pos + 4..pos + 6]);
    LEForth(file[pos + 4..pos + 6]);
    assert Span(2) == 0x1_0000;
    assert file[pos + 6..pos + HEADER + len] == [r.kind] + r.payload;
    var f := Frame(sh, r.kind, r.payload);
    assert file[pos..pos + HEADER + len] ==
      file[pos..pos + 4] + file[pos + 4..pos + 6] + [file[pos + 6]] + file[pos + HEADER..pos + HEADER + len];
    assert file[pos..pos + |f|] == f;
  }

  // A block's head, of this generation.
  ghost predicate IsHead(sh: Shape, start: nat, file: Bytes, pos: nat, payload: Bytes)
    requires ValidShape(sh)
  {
    IsRecord(sh, file, pos, BLOCK_META, payload) && |payload| >= 9 && FromLE(payload[1..9]) > start
  }

  // A part of a value, its last or not.
  ghost predicate IsPart(sh: Shape, file: Bytes, pos: nat, payload: Bytes, last: bool)
    requires ValidShape(sh)
  {
    payload != []
    && if last then IsRecord(sh, file, pos, FULL, payload) || IsRecord(sh, file, pos, LAST, payload)
       else IsRecord(sh, file, pos, FIRST, payload) || IsRecord(sh, file, pos, MIDDLE, payload)
  }

  // From a position up to another the records spell these bytes, over heads of this generation
  // and rests of blocks that say nothing.
  ghost predicate Spelled(sh: Shape, start: nat, file: Bytes, pos: nat, v: Bytes, next: nat)
    requires ValidShape(sh)
    decreases |file| - pos
  {
    && pos < |file| && BlockEnd(pos, sh.blockSize) <= |file|
    && if pos % sh.blockSize == 0 then
         exists payload: Bytes :: IsHead(sh, start, file, pos, payload)
           && Spelled(sh, start, file, pos + HEADER + |payload|, v, next)
       else
         || (IsPad(sh, file, pos) && Spelled(sh, start, file, BlockEnd(pos, sh.blockSize), v, next))
         || (IsPart(sh, file, pos, v, true) && next == pos + HEADER + |v|)
         || (exists payload: Bytes :: payload <= v && IsPart(sh, file, pos, payload, false)
               && Spelled(sh, start, file, pos + HEADER + |payload|, v[|payload|..], next))
  }

  lemma {:induction false} ReadIsSpelled(sh: Shape, start: nat, file: Bytes, pos: nat, partial: bool, acc: Bytes)
    requires ValidShape(sh) && |file| % sh.blockSize == 0 && pos <= |file|
    ensures var r := Read(sh, start, file, pos, partial, acc);
      r.Value? ==> acc <= r.value && Spelled(sh, start, file, pos, r.value[|acc|..], r.next)
    decreases |file| - pos
  {
    var all := Read(sh, start, file, pos, partial, acc);
    if pos < |file| && all.Value? {
      EndFits(file, pos, sh.blockSize);
      var r := Pickle(sh, file, pos);
      var acc' := if IsValueKind(r.kind) then acc + r.payload else acc;
      if r.kind != ZERO && r.kind != FAKE {
        PickledLies(sh, file, pos);
      }
      if !(r.kind == FULL || r.kind == LAST) {
        ReadIsSpelled(sh, start, file, r.next, if r.next % sh.blockSize == 0 then acc' != [] else partial, acc');
        Onward(sh, start, file, pos, r, acc, all.value, all.next);
      } else {
        assert (acc + r.payload)[|acc|..] == r.payload;
      }
    }
  }

  lemma Onward(sh: Shape, start: nat, file: Bytes, pos: nat, r: Pickled, acc: Bytes, v: Bytes, next: nat)
    requires ValidShape(sh) && |file| % sh.blockSize == 0 && pos < |file| && BlockEnd(pos, sh.blockSize) <= |file|
    requires r == Pickle(sh, file, pos) && acc <= v
    requires r.kind != ZERO && r.kind != FAKE ==>
      IsRecord(sh, file, pos, r.kind, r.payload) && r.next == pos + HEADER + |r.payload|
    requires if pos % sh.blockSize == 0 then r.kind == BLOCK_META && |r.payload| >= 9 && FromLE(r.payload[1..9]) > start
      else r.kind in {ZERO, FAKE, FIRST, MIDDLE} && (IsValueKind(r.kind) ==> r.payload != [])
    requires IsValueKind(r.kind) ==> acc + r.payload <= v
    requires Spelled(sh, start, file, r.next, v[|if IsValueKind(r.kind) then acc + r.payload else acc|..], next)
    ensures Spelled(sh, start, file, pos, v[|acc|..], next)
  {
    hide Pickle, IsRecord, FromLE;
    if pos % sh.blockSize == 0 {
      assert IsHead(sh, start, file, pos, r.payload);
    } else if IsValueKind(r.kind) {
      assert v[|acc|..][|r.payload|..] == v[|acc + r.payload|..];
      assert IsPart(sh, file, pos, r.payload, false);
      assert r.payload <= v[|acc|..];
    } else {
      assert IsPad(sh, file, pos) && r.next == BlockEnd(pos, sh.blockSize) by {
        PadIsPickled(sh, file, pos);
      }
    }
  }

  lemma PadIsPickled(sh: Shape, file: Bytes, pos: nat)
    requires ValidShape(sh) && BlockEnd(pos, sh.blockSize) <= |file|
    ensures var r := Pickle(sh, file, pos);
      r.kind == ZERO || r.kind == FAKE ==> IsPad(sh, file, pos) && r.next == BlockEnd(pos, sh.blockSize)
  {
  }

  // A value that is read at a place is spelled there.
  lemma NothingIsMadeUp(sh: Shape, start: nat, file: Bytes, pos: nat)
    requires ValidShape(sh) && |file| % sh.blockSize == 0 && pos <= |file|
    ensures var r := Read(sh, start, file, pos, false, []);
      r.Value? ==> Spelled(sh, start, file, pos, r.value, r.next)
  {
    hide Spelled;
    ReadIsSpelled(sh, start, file, pos, false, []);
    var r := Read(sh, start, file, pos, false, []);
    if r.Value? {
      assert r.value[0..] == r.value;
    }
  }

  // The block at a position starts with a head that carries this number.
  ghost predicate Carries(sh: Shape, file: Bytes, pos: nat, num: nat)
    requires ValidShape(sh)
  {
    exists payload: Bytes :: IsRecord(sh, file, pos, BLOCK_META, payload) && |payload| >= 9 && FromLE(payload[1..9]) == num
  }

  lemma HeadIsPickled(sh: Shape, file: Bytes, pos: nat, num: nat)
    requires ValidShape(sh) && BlockEnd(pos, sh.blockSize) <= |file|
    ensures var r := Pickle(sh, file, pos);
      Carries(sh, file, pos, num) <==> r.kind == BLOCK_META && |r.payload| >= 9 && FromLE(r.payload[1..9]) == num
  {
    hide Pickle, IsRecord, FromLE;
    var r := Pickle(sh, file, pos);
    if r.kind == BLOCK_META {
      PickledLies(sh, file, pos);
      PickleIsRecord(sh, file, pos, BLOCK_META, r.payload);
    }
    forall payload: Bytes | IsRecord(sh, file, pos, BLOCK_META, payload)
      ensures r.kind == BLOCK_META && r.payload == payload
    {
      PickleIsRecord(sh, file, pos, BLOCK_META, payload);
    }
  }

  // Blocks of the file from one position up to another, all of this generation as far as their
  // heads say; the last head carries a number, or there is none.
  ghost predicate OfGeneration(sh: Shape, start: nat, file: Bytes, pos: nat, to: nat, last: nat, num: nat)
    requires ValidShape(sh)
    decreases if pos < to then to - pos else 0
  {
    if pos >= to then pos == to && num == last
    else if exists k: nat :: Carries(sh, file, pos, k) then
      exists k: nat :: k > start && Carries(sh, file, pos, k) && OfGeneration(sh, start, file, pos + sh.blockSize, to, k, num)
    else OfGeneration(sh, start, file, pos + sh.blockSize, to, last, num)
  }

  lemma NoneOfGeneration(sh: Shape, start: nat, file: Bytes, pos: nat, last: nat)
    requires ValidShape(sh)
    ensures OfGeneration(sh, start, file, pos, pos, last, last)
  {
  }

  lemma HeadGoesOn(sh: Shape, start: nat, file: Bytes, pos: nat, to: nat, last: nat, k: nat, num: nat)
    requires ValidShape(sh) && pos < to && k > start && Carries(sh, file, pos, k)
    requires OfGeneration(sh, start, file, pos + sh.blockSize, to, k, num)
    ensures OfGeneration(sh, start, file, pos, to, last, num)
  {
    hide Carries;
  }

  lemma OtherGoesOn(sh: Shape, start: nat, file: Bytes, pos: nat, to: nat, last: nat, num: nat)
    requires ValidShape(sh) && pos < to && BlockEnd(pos, sh.blockSize) <= |file| && Pickle(sh, file, pos).kind != BLOCK_META
    requires OfGeneration(sh, start, file, pos + sh.blockSize, to, last, num)
    ensures OfGeneration(sh, start, file, pos, to, last, num)
  {
    hide Carries, Pickle, FromLE;
    forall k: nat ensures !Carries(sh, file, pos, k) {
      HeadIsPickled(sh, file, pos, k);
    }
  }

  // Whatever bytes a file holds, a scan that ends stands before the first block with the number
  // of an earlier generation, or at the end of the file, and has the number of the last head.
  lemma {:induction false} ScanIsFirst(sh: Shape, start: nat, file: Bytes, pos: nat, last: nat)
    requires ValidShape(sh) && |file| % sh.blockSize == 0 && pos % sh.blockSize == 0 && pos <= |file|
    ensures var s := Scan(sh, start, file, pos, last);
      s.Found? ==>
        && pos <= s.pos <= |file| && OfGeneration(sh, start, file, pos, s.pos, last, s.num)
        && (s.pos < |file| ==> exists k: nat :: k <= start && Carries(sh, file, s.pos, k))
    decreases |file| - pos
  {
    hide Pickle, Carries, FromLE, OfGeneration;
    var s := Scan(sh, start, file, pos, last);
    NoneOfGeneration(sh, start, file, pos, last);
    if pos < |file| && s.Found? {
      EndFits(file, pos, sh.blockSize);
      AddMultiple(pos, sh.blockSize, sh.blockSize);
      var r := Pickle(sh, file, pos);
      if r.kind != BLOCK_META {
        ScanIsFirst(sh, start, file, pos + sh.blockSize, last);
        OtherGoesOn(sh, start, file, pos, s.pos, last, s.num);
      } else {
        var num := FromLE(r.payload[1..9]);
        HeadIsPickled(sh, file, pos, num);
        if num > start {
          ScanIsFirst(sh, start, file, pos + sh.blockSize, num);
          HeadGoesOn(sh, start, file, pos, s.pos, last, num, s.num);
        }
      }
    }
  }
}
