/**
  What a reader makes of the rest of a block that was skipped.  After a failed write it holds
  records nobody was promised.  Reading one value after the other is right exactly when every
  skipped rest is harmless.
 */
module BlockSkips {
  import opened Arithmetic
  import opened BlockFormat
  import opened BlockLog

  // A reading that broke off: not at the end of the file nor at a block of an earlier generation.
  predicate Fouled(r: ReadResult) {
    r.Assertion? || (r.Failed? && r.why != DeprecatedBlock)
  }

  // The records from here to the end of the block only begin values.
  predicate Unfinished(sh: Shape, file: Bytes, pos: nat)
    requires ValidShape(sh) && BlockEnd(pos, sh.blockSize) <= |file|
    decreases BlockEnd(pos, sh.blockSize) - pos
  {
    || IsPad(sh, file, pos)
    || (var r := Pickle(sh, file, pos);
        var end := BlockEnd(pos, sh.blockSize);
        r.kind == FIRST && r.payload != []
        && (r.next == end || (SameEnd(pos, r.next, sh.blockSize); Unfinished(sh, file, r.next))))
  }

  lemma SameEnd(pos: nat, next: nat, blockSize: nat)
    requires blockSize > 0 && pos < next < BlockEnd(pos, blockSize)
    ensures BlockEnd(next, blockSize) == BlockEnd(pos, blockSize) && next % blockSize != 0
  {
    InBlock(pos, next - pos, blockSize);
  }

  // Reading into the rest of a block finds a value there, breaks off, or comes to the next block
  // with what has been begun.
  lemma {:induction false} RestReads(sh: Shape, start: nat, file: Bytes, pos: nat, acc: Bytes) returns (acc': Bytes)
    requires ValidShape(sh) && |file| % sh.blockSize == 0 && pos < |file| && pos % sh.blockSize != 0
    requires BlockEnd(pos, sh.blockSize) <= |file|
    ensures var r := Read(sh, start, file, pos, false, acc);
      var end := BlockEnd(pos, sh.blockSize);
      if Unfinished(sh, file, pos) then
        r == Read(sh, start, file, end, acc' != [], acc') && (acc' == [] <==> acc == [] && IsPad(sh, file, pos))
      else Fouled(r) || (r.Value? && pos < r.next <= end)
    decreases BlockEnd(pos, sh.blockSize) - pos
  {
    var end := BlockEnd(pos, sh.blockSize);
    var r := Pickle(sh, file, pos);
    Multiple(pos, sh.blockSize);
    acc' := acc;
    if !IsPad(sh, file, pos) && r.kind == FIRST && r.payload != [] {
      acc' := acc + r.payload;
      if r.next < end {
        SameEnd(pos, r.next, sh.blockSize);
        acc' := RestReads(sh, start, file, r.next, acc + r.payload);
      }
    }
  }

  // What a value begun in the block before meets at a block boundary.
  ghost predicate Meets(sh: Shape, start: nat, file: Bytes, pos: nat, stop: Failure)
    requires ValidShape(sh) && |file| % sh.blockSize == 0
  {
    && pos <= |file|
    && (forall acc: Bytes :: acc != [] ==> Read(sh, start, file, pos, true, acc) == Failed(stop))
    && (stop == DeprecatedBlock ==> Values(sh, start, file, pos) == ([], Failed(stop)))
  }

  // Behind records that only begin values, nothing more is read than behind a pad.  Any other
  // rest breaks the reading off or makes it find values that are not in the log.
  lemma {:induction false} RestValues(sh: Shape, start: nat, file: Bytes, pos: nat, stop: Failure)
    requires ValidShape(sh) && |file| % sh.blockSize == 0 && pos < |file| && pos % sh.blockSize != 0
    requires BlockEnd(pos, sh.blockSize) <= |file| && Meets(sh, start, file, BlockEnd(pos, sh.blockSize), stop)
    ensures var s, t := Values(sh, start, file, pos), Values(sh, start, file, BlockEnd(pos, sh.blockSize));
      if IsPad(sh, file, pos) then s == t
      else if Unfinished(sh, file, pos) then s == ([], Failed(stop))
      else Fouled(s.1) || (s.1 == t.1 && |s.0| > |t.0|)
    decreases BlockEnd(pos, sh.blockSize) - pos
  {
    hide Pickle;
    var end := BlockEnd(pos, sh.blockSize);
    var acc' := RestReads(sh, start, file, pos, []);
    var r := Read(sh, start, file, pos, false, []);
    if !Unfinished(sh, file, pos) && r.Value? && r.next < end {
      SameEnd(pos, r.next, sh.blockSize);
      RestValues(sh, start, file, r.next, stop);
    }
  }

  // A value's first record is not what a value begun before it goes on with.
  lemma FirstRecordIsRefused(sh: Shape, start: nat, file: Bytes, pos: nat, last: bool, payload: Bytes, acc: Bytes)
    requires ValidShape(sh) && |file| % sh.blockSize == 0 && pos < |file| && pos % sh.blockSize != 0
    requires |payload| <= 0xFFFF && pos + HEADER + |payload| <= BlockEnd(pos, sh.blockSize) <= |file|
    requires LiesAt(file, pos, Frame(sh, Kind(last, false), payload))
    ensures Read(sh, start, file, pos, true, acc) == Failed(UnexpectedType1)
  {
    hide Frame;
    FrameReads(sh, file, pos, Kind(last, false), payload);
  }

  lemma FirstPieceLies(sh: Shape, file: Bytes, pos: nat, num: nat, v: Bytes)
    requires ValidShape(sh) && v != [] && pos % sh.blockSize == 0 && LiesAt(file, pos, Dump(sh, 0, num, v, false))
    ensures var last := |v| <= Room(sh, 0);
      var payload := if last then v else v[..Room(sh, 0)];
      && LiesAt(file, pos, Meta(sh, num + 1)) && LiesAt(file, pos + META_RECORD, Frame(sh, Kind(last, false), payload))
  {
    hide LiesAt, Piece;
    var room := Room(sh, 0);
    if |v| <= room {
      PieceLies(sh, file, pos, 0, num, FULL, v);
    } else {
      BothLie(file, pos, Piece(sh, 0, num, FIRST, v[..room]), Dump(sh, 0, num + 1, v[room..], true));
      PieceLies(sh, file, pos, 0, num, FIRST, v[..room]);
    }
  }

  lemma PutRefuses(sh: Shape, start: nat, file: Bytes, log: Log, v: Bytes, acc: Bytes)
    requires ValidShape(sh) && |log.data| % sh.blockSize == 0 && Placed(sh, |log.data|) && v != [] && acc != []
    requires Holds(sh, file, PutTo(sh, log, v)) && start <= log.num && log.num + 1 < Span(8)
    ensures Pos(sh, log) <= |file| && Read(sh, start, file, Pos(sh, log), true, acc) == Failed(UnexpectedType1)
  {
    hide Frame, Meta, Piece, Dump, LiesAt, Read, Span;
    PutLies(sh, file, log, v);
    PosInBlock(sh, log);
    DumpFits(sh, file, Pos(sh, log), log.num, v);
    FirstPieceLies(sh, file, Pos(sh, log), log.num, v);
    ToRecord(sh, start, file, Pos(sh, log), log.num, acc);
    var last := |v| <= Room(sh, 0);
    FirstRecordIsRefused(sh, start, file, Pos(sh, log) + META_RECORD, last, if last then v else v[..Room(sh, 0)], acc);
  }

  lemma DumpFits(sh: Shape, file: Bytes, pos: nat, num: nat, v: Bytes)
    requires ValidShape(sh) && v != [] && LiesAt(file, pos, Dump(sh, 0, num, v, false))
    ensures pos < |file|
  {
    hide Dump;
  }

  lemma PutIsMet(sh: Shape, start: nat, file: Bytes, log: Log, v: Bytes)
    requires ValidShape(sh) && |log.data| % sh.blockSize == 0 && Placed(sh, |log.data|) && v != []
    requires Holds(sh, file, PutTo(sh, log, v)) && start <= log.num && log.num + 1 < Span(8)
    ensures Meets(sh, start, file, Pos(sh, log), UnexpectedType1)
  {
    hide Read, PutTo, Span;
    PutRefuses(sh, start, file, log, v, [0]);
    forall acc: Bytes | acc != [] ensures Read(sh, start, file, Pos(sh, log), true, acc) == Failed(UnexpectedType1) {
      PutRefuses(sh, start, file, log, v, acc);
    }
  }

  // The values put from an operation on.
  lemma {:induction false} PutsTogether(a: seq<Op>, b: seq<Op>)
    ensures Puts(a + b) == Puts(a) + Puts(b)
    decreases |b|
  {
    if b == [] {
      assert a + b == a;
    } else {
      var most := b[..|b| - 1];
      assert (a + b)[..|a + b| - 1] == a + most;
      PutsTogether(a, most);
    }
  }

  lemma PutsFrom(ops: seq<Op>, k: nat)
    requires k < |ops|
    ensures Puts(ops[k..]) == PutOf(ops[k]) + Puts(ops[k + 1..])
  {
    assert ops[k..] == [ops[k]] + ops[k + 1..];
    assert [ops[k]][..0] == [];
    assert Puts([ops[k]]) == [] + PutOf(ops[k]);
    PutsTogether([ops[k]], ops[k + 1..]);
  }

  // The log before an operation, and how it goes on.
  lemma LogAt(sh: Shape, start: nat, file: Bytes, ops: seq<Op>, k: nat)
    requires ValidShape(sh) && k < |ops| && Holds(sh, file, ApplyAll(sh, start, ops)) && Fits(sh, start, ops)
    ensures var log := ApplyAll(sh, start, ops[..k]);
      && ApplyAll(sh, start, ops[..k + 1]) == Apply(sh, log, ops[k])
      && Holds(sh, file, log) && Holds(sh, file, Apply(sh, log, ops[k]))
      && (ops[k].Put? ==> log.num + |ops[k].v| + 1 < Span(8))
  {
    hide Apply, Span;
    LogOnlyGrows(sh, start, ops, k);
    LogOnlyGrows(sh, start, ops, k + 1);
    assert ops[..k + 1][..k] == ops[..k];
    PrefixHolds(sh, file, ApplyAll(sh, start, ops[..k]), ApplyAll(sh, start, ops));
    PrefixHolds(sh, file, ApplyAll(sh, start, ops[..k + 1]), ApplyAll(sh, start, ops));
  }

  // At the end, a value begun before it is cut off, by the end of the file or by a stale block.
  lemma EndIsMet(sh: Shape, start: nat, file: Bytes, pos: nat)
    requires ValidShape(sh) && |file| % sh.blockSize == 0 && pos % sh.blockSize == 0 && EndsAt(sh, start, file, pos)
    ensures Meets(sh, start, file, pos, if pos == |file| then UnexpectedEof else DeprecatedBlock)
  {
    hide Meta, Values;
    EndReads(sh, start, file, pos);
    if pos < |file| {
      var m: nat :| m <= start && m < Span(8) && LiesAt(file, pos, Meta(sh, m));
      EndFits(file, pos, sh.blockSize);
      MetaReads(sh, start, file, pos, m);
    }
  }

  lemma NothingPut()
    ensures Puts([]) == []
  {
  }

  lemma PutApplies(sh: Shape, log: Log, v: Bytes)
    requires ValidShape(sh) && Placed(sh, |log.data|) && v != []
    ensures Apply(sh, log, Put(v)) == PutTo(sh, log, v) && PutOf(Put(v)) == [v]
  {
  }

  // At a block boundary only a put goes on.
  lemma OnlyPutsGoOn(sh: Shape, log: Log, op: Op)
    requires ValidShape(sh) && Placed(sh, |log.data|) && |log.data| % sh.blockSize == 0 && PutOf(op) == []
    ensures Apply(sh, log, op).data == log.data
  {
  }

  // What follows a skip: the next put, or the end.
  lemma {:induction false} FollowsSkip(sh: Shape, start: nat, file: Bytes, ops: seq<Op>, k: nat) returns (stop: Failure)
    requires ValidShape(sh) && Holds(sh, file, ApplyAll(sh, start, ops)) && Fits(sh, start, ops) && k <= |ops|
    requires Puts(ops[k..]) != [] || EndsAt(sh, start, file, Pos(sh, ApplyAll(sh, start, ops)))
    requires |ApplyAll(sh, start, ops[..k]).data| % sh.blockSize == 0
    ensures var pos := Pos(sh, ApplyAll(sh, start, ops[..k]));
      && Meets(sh, start, file, pos, stop)
      && (if Puts(ops[k..]) != [] then stop == UnexpectedType1
          else pos == Pos(sh, ApplyAll(sh, start, ops)) && stop == if pos == |file| then UnexpectedEof else DeprecatedBlock)
    decreases |ops| - k
  {
    hide Meets, EndsAt, Apply, ApplyAll, PutTo, Fits, Span, Puts, Placed;
    var log := ApplyAll(sh, start, ops[..k]);
    PosInBlock(sh, log);
    if k == |ops| {
      assert ops[k..] == [] && Puts([]) == [] by {
        NothingPut();
      }
      assert ops[..k] == ops;
      EndIsMet(sh, start, file, Pos(sh, log));
      stop := if Pos(sh, log) == |file| then UnexpectedEof else DeprecatedBlock;
    } else {
      PutsFrom(ops, k);
      LogAt(sh, start, file, ops, k);
      if ops[k].Put? && ops[k].v != [] {
        PutApplies(sh, log, ops[k].v);
        PutIsMet(sh, start, file, log, ops[k].v);
        stop := UnexpectedType1;
      } else {
        OnlyPutsGoOn(sh, log, ops[k]);
        stop := FollowsSkip(sh, start, file, ops, k + 1);
      }
    }
  }

  // A skipped rest does no harm when it says nothing, or when it only begins values and nothing
  // was put behind it but a stale block.
  ghost predicate SkipIsHarmless(sh: Shape, start: nat, file: Bytes, ops: seq<Op>, k: nat)
    requires ValidShape(sh) && k < |ops|
  {
    var pos := Pos(sh, ApplyAll(sh, start, ops[..k]));
    || IsCalm(sh, ApplyAll(sh, start, ops[..k]), ops[k])
    || (&& Puts(ops[k + 1..]) == []
        && BlockEnd(pos, sh.blockSize) < |file|
        && Unfinished(sh, file, pos))
  }

  ghost predicate Harmless(sh: Shape, start: nat, file: Bytes, ops: seq<Op>, k: nat)
    requires ValidShape(sh) && k <= |ops|
    decreases |ops| - k
  {
    k == |ops| || (SkipIsHarmless(sh, start, file, ops, k) && Harmless(sh, start, file, ops, k + 1))
  }

  // The bytes of a skipped rest.
  lemma SkippedRest(sh: Shape, file: Bytes, log: Log, rest: Bytes)
    requires ValidShape(sh) && Placed(sh, |log.data|) && Holds(sh, file, Apply(sh, log, Skip(rest)))
    requires !IsCalm(sh, log, Skip(rest))
    ensures var pos := Pos(sh, log); var end := BlockEnd(pos, sh.blockSize);
      && pos % sh.blockSize != 0 && pos < |file| && end <= |file| && !IsPad(sh, file, pos)
      && end == Pos(sh, Apply(sh, log, Skip(rest))) && |Apply(sh, log, Skip(rest)).data| % sh.blockSize == 0
  {
    var n := Up(|log.data|, sh.blockSize) - |log.data|;
    Multiple(|log.data|, sh.blockSize);
    PosInBlock(sh, log);
    BothLie(file, sh.blockSize, log.data, Fill(rest, n));
    EndFits(file, Pos(sh, log), sh.blockSize);
    assert file[Pos(sh, log) + 6] == file[Pos(sh, log)..Pos(sh, log) + n][6];
  }

  // A reading that ends well with these values.
  ghost predicate ReadsAll(s: (seq<Bytes>, ReadResult), vs: seq<Bytes>) {
    s.0 == vs && !Fouled(s.1)
  }

  // Behind every skip a value was put.
  ghost predicate PutBehind(ops: seq<Op>) {
    forall k :: 0 <= k < |ops| && ops[k].Skip? ==> Puts(ops[k + 1..]) != []
  }

  // What follows every skip is known: a put, or the end of this generation.
  ghost predicate Ended(sh: Shape, start: nat, file: Bytes, ops: seq<Op>)
    requires ValidShape(sh) && |file| % sh.blockSize == 0
  {
    PutBehind(ops) || EndsAt(sh, start, file, Pos(sh, ApplyAll(sh, start, ops)))
  }

  // What is read from an operation on, up to what is read behind the log.
  ghost predicate ReadsOn(sh: Shape, start: nat, file: Bytes, ops: seq<Op>, k: nat)
    requires ValidShape(sh) && |file| % sh.blockSize == 0 && k <= |ops|
  {
    var s := Values(sh, start, file, Pos(sh, ApplyAll(sh, start, ops[..k])));
    var t := Values(sh, start, file, Pos(sh, ApplyAll(sh, start, ops)));
    if Harmless(sh, start, file, ops, k) then s == (Puts(ops[k..]) + t.0, t.1)
    else Fouled(s.1) || |s.0| > |Puts(ops[k..])|
  }

  lemma HarmfulSkipReads(sh: Shape, start: nat, file: Bytes, ops: seq<Op>, k: nat)
    requires ValidShape(sh) && Holds(sh, file, ApplyAll(sh, start, ops)) && Fits(sh, start, ops) && k < |ops|
    requires Ended(sh, start, file, ops) && ReadsOn(sh, start, file, ops, k + 1)
    requires ops[k].Skip? && !IsCalm(sh, ApplyAll(sh, start, ops[..k]), ops[k])
    ensures ReadsOn(sh, start, file, ops, k)
  {
    hide Values, ApplyAll, Apply, IsCalm, IsPad, Fits, EndsAt, Puts, Unfinished, Placed;
    var log := ApplyAll(sh, start, ops[..k]);
    LogAt(sh, start, file, ops, k);
    PutsFrom(ops, k);
    SkippedRest(sh, file, log, ops[k].rest);
    PosInBlock(sh, Apply(sh, log, ops[k]));
    var stop := FollowsSkip(sh, start, file, ops, k + 1);
    RestValues(sh, start, file, Pos(sh, log), stop);
  }

  lemma {:induction false} ReadFrom(sh: Shape, start: nat, file: Bytes, ops: seq<Op>, k: nat)
    requires ValidShape(sh) && Holds(sh, file, ApplyAll(sh, start, ops)) && Fits(sh, start, ops) && k <= |ops|
    requires Ended(sh, start, file, ops)
    ensures ReadsOn(sh, start, file, ops, k)
    decreases |ops| - k
  {
    hide Values, ApplyAll, Apply, Fits, Ended, Puts, Placed, IsCalm, Unfinished, Span;
    var log := ApplyAll(sh, start, ops[..k]);
    var t := Values(sh, start, file, Pos(sh, ApplyAll(sh, start, ops)));
    if k == |ops| {
      assert ops[..k] == ops && ops[k..] == [];
      NothingPut();
      assert [] + t.0 == t.0;
    } else {
      LogAt(sh, start, file, ops, k);
      PutsFrom(ops, k);
      ReadFrom(sh, start, file, ops, k + 1);
      assert PutOf(ops[k]) + (Puts(ops[k + 1..]) + t.0) == (PutOf(ops[k]) + Puts(ops[k + 1..])) + t.0;
      if IsCalm(sh, log, ops[k]) {
        OpIsRead(sh, start, file, log, ops[k]);
      } else {
        OnlySkipsHarm(sh, log, ops[k]);
        HarmfulSkipReads(sh, start, file, ops, k);
      }
    }
  }

  lemma OnlySkipsHarm(sh: Shape, log: Log, op: Op)
    requires ValidShape(sh) && !IsCalm(sh, log, op)
    ensures op.Skip?
  {
  }

  // Reading in sequence gives what was put, and then what there is behind the log, when every
  // skipped rest is harmless.  When one is not, the reading breaks off or finds values too many.
  // So it gives exactly what was put, if and only if the skips are harmless and nothing follows.
  lemma ReadIffHarmless(sh: Shape, start: nat, file: Bytes, ops: seq<Op>)
    requires ValidShape(sh) && Holds(sh, file, ApplyAll(sh, start, ops)) && Fits(sh, start, ops)
    requires Ended(sh, start, file, ops)
    ensures var end := Pos(sh, ApplyAll(sh, start, ops));
      var s, t := Values(sh, start, file, sh.blockSize), Values(sh, start, file, end);
      && (if Harmless(sh, start, file, ops, 0) then s == (Puts(ops) + t.0, t.1) else Fouled(s.1) || |s.0| > |Puts(ops)|)
      && (ReadsAll(s, Puts(ops)) <==> Harmless(sh, start, file, ops, 0) && ReadsAll(t, []))
      && (EndsAt(sh, start, file, end) ==> t == ([], EndOf(sh, file, end)))
  {
    hide Values, Fits, EndsAt, Placed, Harmless, Ended, Puts, Apply, LiesAt;
    assert ops[..0] == [] && ops[0..] == ops;
    ReadFrom(sh, start, file, ops, 0);
    var end := Pos(sh, ApplyAll(sh, start, ops));
    if EndsAt(sh, start, file, end) {
      EndReads(sh, start, file, end);
    }
    NothingMore(Puts(ops), Values(sh, start, file, end).0);
  }

  lemma NothingMore(a: seq<Bytes>, b: seq<Bytes>)
    ensures a + b == a <==> b == []
  {
    assert |a + b| == |a| + |b|;
  }

  // Something was put behind every skip, or the file ends where the log does.
  ghost predicate NoneDangles(sh: Shape, start: nat, file: Bytes, ops: seq<Op>)
    requires ValidShape(sh) && |file| % sh.blockSize == 0
  {
    var end := Pos(sh, ApplyAll(sh, start, ops));
    PutBehind(ops) || (EndsAt(sh, start, file, end) && EndOf(sh, file, end) == Eof)
  }

  lemma {:induction false} CalmAt(sh: Shape, start: nat, ops: seq<Op>)
    requires ValidShape(sh)
    ensures Calm(sh, start, ops) <==>
      forall k :: 0 <= k < |ops| ==> IsCalm(sh, ApplyAll(sh, start, ops[..k]), ops[k])
  {
    hide IsCalm, Apply;
    if ops != [] {
      var most := ops[..|ops| - 1];
      CalmAt(sh, start, most);
      forall k | 0 <= k < |most| ensures most[..k] == ops[..k] && most[k] == ops[k] {
      }
    }
  }

  lemma {:induction false} HarmlessFrom(sh: Shape, start: nat, file: Bytes, ops: seq<Op>, k: nat)
    requires ValidShape(sh) && k <= |ops|
    ensures Harmless(sh, start, file, ops, k) <==> forall j :: k <= j < |ops| ==> SkipIsHarmless(sh, start, file, ops, j)
    decreases |ops| - k
  {
    hide SkipIsHarmless;
    if k < |ops| {
      HarmlessFrom(sh, start, file, ops, k + 1);
    }
  }

  lemma HarmlessIsCalm(sh: Shape, start: nat, file: Bytes, ops: seq<Op>, k: nat)
    requires ValidShape(sh) && Holds(sh, file, ApplyAll(sh, start, ops)) && Fits(sh, start, ops) && k < |ops|
    requires NoneDangles(sh, start, file, ops) && SkipIsHarmless(sh, start, file, ops, k)
    ensures IsCalm(sh, ApplyAll(sh, start, ops[..k]), ops[k])
  {
    hide IsCalm, Unfinished, ApplyAll, Apply, Fits, EndsAt, Puts, Placed;
    var log := ApplyAll(sh, start, ops[..k]);
    if !IsCalm(sh, log, ops[k]) {
      OnlySkipsHarm(sh, log, ops[k]);
      LogAt(sh, start, file, ops, k);
      SkippedRest(sh, file, log, ops[k].rest);
      PosInBlock(sh, Apply(sh, log, ops[k]));
      var stop := FollowsSkip(sh, start, file, ops, k + 1);
    }
  }

  // Then reading in sequence is right if and only if every skipped rest says nothing, and nothing
  // is read behind the log.
  lemma ReadIffCalm(sh: Shape, start: nat, file: Bytes, ops: seq<Op>)
    requires ValidShape(sh) && Holds(sh, file, ApplyAll(sh, start, ops)) && Fits(sh, start, ops)
    requires NoneDangles(sh, start, file, ops)
    ensures ReadsAll(Values(sh, start, file, sh.blockSize), Puts(ops)) <==>
      Calm(sh, start, ops) && ReadsAll(Values(sh, start, file, Pos(sh, ApplyAll(sh, start, ops))), [])
  {
    hide Values, IsCalm, Fits, EndsAt, Placed, Puts, Apply, Holds, ApplyAll, Calm, Harmless, ReadsAll;
    CalmAt(sh, start, ops);
    HarmlessFrom(sh, start, file, ops, 0);
    ReadIffHarmless(sh, start, file, ops);
    if Harmless(sh, start, file, ops, 0) {
      forall k | 0 <= k < |ops| ensures IsCalm(sh, ApplyAll(sh, start, ops[..k]), ops[k]) {
        HarmlessIsCalm(sh, start, file, ops, k);
      }
    }
  }

  // ---- what a failed write leaves ----

  // In the rest of the block in hand a value's first record lies, though the log says nothing of
  // the value.
  ghost predicate LeftThere(sh: Shape, file: Bytes, log: Log, v: Bytes)
    requires ValidShape(sh) && Placed(sh, |log.data|) && v != []
  {
    var at := |log.data| % sh.blockSize;
    var last := |v| <= Room(sh, at);
    at != 0 && LiesAt(file, Pos(sh, log), Frame(sh, Kind(last, false), if last then v else v[..Room(sh, at)]))
  }

  lemma LeftSaysSomething(sh: Shape, file: Bytes, log: Log, v: Bytes)
    requires ValidShape(sh) && Placed(sh, |log.data|) && v != [] && LeftThere(sh, file, log, v)
    ensures sh.blockSize - |log.data| % sh.blockSize >= HEADER && Pos(sh, log) + 6 < |file|
    ensures file[Pos(sh, log) + 6] != ZERO && file[Pos(sh, log) + 6] != FAKE
  {
    hide Frame;
    var at := |log.data| % sh.blockSize;
    var last := |v| <= Room(sh, at);
    var payload := if last then v else v[..Room(sh, at)];
    FrameParts(sh, Kind(last, false), payload);
    assert file[Pos(sh, log) + 6] == file[Pos(sh, log)..Pos(sh, log) + HEADER + |payload|][6];
  }

  lemma LeftReads(sh: Shape, start: nat, file: Bytes, log: Log, v: Bytes)
    requires ValidShape(sh) && |file| % sh.blockSize == 0 && Placed(sh, |log.data|) && v != []
    requires LeftThere(sh, file, log, v) && BlockEnd(Pos(sh, log), sh.blockSize) <= |file|
    ensures var pos := Pos(sh, log); var room := Room(sh, |log.data| % sh.blockSize);
      ReadAt(sh, start, file, pos) ==
        if |v| <= room then Value(v, pos + HEADER + |v|)
        else Read(sh, start, file, BlockEnd(pos, sh.blockSize), true, v[..room])
  {
    hide Frame, LiesAt, Read;
    var room := Room(sh, |log.data| % sh.blockSize);
    PosInBlock(sh, log);
    var payload := if |v| <= room then v else v[..room];
    assert [] + payload == payload;
    RecordIsRead(sh, start, file, Pos(sh, log), |v| <= room, payload, []);
  }

  lemma LeftEnds(sh: Shape, start: nat, file: Bytes, log: Log, v: Bytes, next: Log, x: Bytes)
    requires ValidShape(sh) && |file| % sh.blockSize == 0 && Placed(sh, |log.data|) && v != [] && x != []
    requires LeftThere(sh, file, log, v) && Pos(sh, next) == BlockEnd(Pos(sh, log), sh.blockSize)
    requires |next.data| % sh.blockSize == 0 && Placed(sh, |next.data|) && Holds(sh, file, PutTo(sh, next, x))
    requires start <= next.num && next.num + 1 < Span(8)
    ensures var s := Values(sh, start, file, Pos(sh, log));
      if |v| > Room(sh, |log.data| % sh.blockSize) then s == ([], Failed(UnexpectedType1)) else [v] <= s.0
  {
    hide Read, LeftThere, Span, PutTo;
    PutIsMet(sh, start, file, next, x);
    LeftReads(sh, start, file, log, v);
  }

  lemma AfterSkip(sh: Shape, log: Log, count: nat, rest: Bytes)
    requires ValidShape(sh) && Placed(sh, |log.data|) && |log.data| % sh.blockSize != 0
    ensures var next := Apply(sh, Apply(sh, log, Lose(count)), Skip(rest));
      && Pos(sh, next) == BlockEnd(Pos(sh, log), sh.blockSize) && |next.data| % sh.blockSize == 0
      && next.num == log.num + count
  {
    Multiple(|log.data|, sh.blockSize);
    PosInBlock(sh, log);
  }

  lemma LeadsFrom(sh: Shape, start: nat, file: Bytes, a: nat, vs: seq<Bytes>, b: nat)
    requires ValidShape(sh) && |file| % sh.blockSize == 0 && Leads(sh, start, file, a, vs, b)
    ensures forall ws :: ws <= Values(sh, start, file, b).0 ==> vs + ws <= Values(sh, start, file, a).0
    ensures Values(sh, start, file, b).0 == [] ==> Values(sh, start, file, a).0 == vs
    ensures Values(sh, start, file, a).1 == Values(sh, start, file, b).1
  {
    hide Values;
  }

  lemma FitsUpTo(sh: Shape, start: nat, ops: seq<Op>, n: nat)
    requires ValidShape(sh) && n <= |ops| && Fits(sh, start, ops)
    ensures Fits(sh, start, ops[..n])
  {
    hide Span, ApplyAll;
    LogOnlyGrows(sh, start, ops, n);
    forall k | 0 <= k < n && ops[..n][k].Put?
      ensures ApplyAll(sh, start, ops[..n]).num + |ops[..n][k].v| + 1 < Span(8)
    {
      assert ops[k].Put?;
    }
  }

  lemma ThreeMore(sh: Shape, start: nat, file: Bytes, ops: seq<Op>, count: nat, rest: Bytes, x: Bytes)
    requires ValidShape(sh) && x != []
    requires var all := ops + [Lose(count), Skip(rest), Put(x)];
      Holds(sh, file, ApplyAll(sh, start, all)) && Fits(sh, start, all)
    ensures var log := ApplyAll(sh, start, ops); var next := Apply(sh, Apply(sh, log, Lose(count)), Skip(rest));
      && |file| % sh.blockSize == 0 && Holds(sh, file, log) && Fits(sh, start, ops)
      && Holds(sh, file, PutTo(sh, next, x)) && start <= next.num && next.num + 1 < Span(8)
  {
    hide Fits, Apply, ApplyAll, LiesAt, PutTo, Span;
    var all, n := ops + [Lose(count), Skip(rest), Put(x)], |ops|;
    FitsUpTo(sh, start, all, n);
    assert all[..n] == ops;
    LogAt(sh, start, file, all, n);
    LogAt(sh, start, file, all, n + 1);
    LogAt(sh, start, file, all, n + 2);
    PutApplies(sh, ApplyAll(sh, start, all[..n + 2]), x);
  }

  // After a write of which the first block landed, a skip and another write: the reader breaks
  // off behind what was written before, or it is given the value whose write was reported failed.
  lemma FailedWriteIsMet(sh: Shape, start: nat, file: Bytes, ops: seq<Op>, v: Bytes, count: nat, rest: Bytes, x: Bytes)
    requires ValidShape(sh) && v != [] && x != [] && Calm(sh, start, ops)
    requires var all := ops + [Lose(count), Skip(rest), Put(x)];
      Holds(sh, file, ApplyAll(sh, start, all)) && Fits(sh, start, all)
    requires LeftThere(sh, file, ApplyAll(sh, start, ops), v)
    ensures var s := Values(sh, start, file, sh.blockSize);
      if |v| > Room(sh, |ApplyAll(sh, start, ops).data| % sh.blockSize) then s == (Puts(ops), Failed(UnexpectedType1))
      else Puts(ops) + [v] <= s.0
  {
    hide Values, Fits, Puts, Apply, ApplyAll, Calm, LiesAt, Frame, PutTo, Leads, Span, Holds;
    var log := ApplyAll(sh, start, ops);
    var next := Apply(sh, Apply(sh, log, Lose(count)), Skip(rest));
    ThreeMore(sh, start, file, ops, count, rest, x);
    AllAreRead(sh, start, file, ops);
    AfterSkip(sh, log, count, rest);
    LeftEnds(sh, start, file, log, v, next, x);
    LeadsFrom(sh, start, file, sh.blockSize, Puts(ops), Pos(sh, log));
  }

  // A new file with a log in it, its last block closed with zeros.
  function FileOf(sh: Shape, log: Log): Bytes
    requires ValidShape(sh)
  {
    Zeros(sh.blockSize) + log.data + Zeros(Up(|log.data|, sh.blockSize) - |log.data|)
  }

  lemma FileHolds(sh: Shape, start: nat, log: Log)
    requires ValidShape(sh)
    ensures Holds(sh, FileOf(sh, log), log) && EndsAt(sh, start, FileOf(sh, log), Pos(sh, log))
  {
    var file, up := FileOf(sh, log), Up(|log.data|, sh.blockSize);
    Multiple(|log.data|, sh.blockSize);
    UpBehind(|log.data|, sh.blockSize);
    PosInBlock(sh, log);
    AddMultiple(up, sh.blockSize, sh.blockSize) by {
      DivUnique(sh.blockSize, sh.blockSize, 1, 0);
    }
    assert |file| == sh.blockSize + up;
    assert file[sh.blockSize..sh.blockSize + |log.data|] == log.data;
  }

  lemma SkippedIsLeft(sh: Shape, file: Bytes, log: Log, v: Bytes)
    requires ValidShape(sh) && Placed(sh, |log.data|) && |log.data| % sh.blockSize != 0
    requires |v| > Room(sh, |log.data| % sh.blockSize)
    requires Holds(sh, file, Apply(sh, log, Skip(Frame(sh, FIRST, v[..Room(sh, |log.data| % sh.blockSize)]))))
    ensures LeftThere(sh, file, log, v)
  {
    hide Frame;
    var f := Frame(sh, FIRST, v[..Room(sh, |log.data| % sh.blockSize)]);
    assert f[..|f|] == f;
    BothLie(file, sh.blockSize, log.data, f);
  }

  // What the log becomes by a write of which only the first block landed, the skip of what that
  // left, and another write.
  function AfterFailure(sh: Shape, log: Log, v: Bytes, x: Bytes): seq<Op>
    requires ValidShape(sh) && Placed(sh, |log.data|) && |v| > Room(sh, |log.data| % sh.blockSize)
  {
    [Lose(Heads(sh, |log.data| % sh.blockSize, |v|)), Skip(Frame(sh, FIRST, v[..Room(sh, |log.data| % sh.blockSize)])), Put(x)]
  }

  // Then the last value is in the log and is not read, nor is anything behind it.
  lemma ReaderBreaksOff(sh: Shape, start: nat, ops: seq<Op>, v: Bytes, x: Bytes) returns (file: Bytes, all: seq<Op>)
    requires ValidShape(sh) && v != [] && x != [] && Calm(sh, start, ops)
    requires var log := ApplyAll(sh, start, ops);
      && |log.data| % sh.blockSize != 0 && |v| > Room(sh, |log.data| % sh.blockSize)
      && Fits(sh, start, ops + AfterFailure(sh, log, v, x))
    ensures all == ops + AfterFailure(sh, ApplyAll(sh, start, ops), v, x) && Puts(all) == Puts(ops) + [x]
    ensures Holds(sh, file, ApplyAll(sh, start, all)) && EndsAt(sh, start, file, Pos(sh, ApplyAll(sh, start, all)))
    ensures Values(sh, start, file, sh.blockSize) == (Puts(ops), Failed(UnexpectedType1))
  {
    hide Values, EndsAt, Span, Frame, LiesAt, Calm, Heads, Holds, Fits, ApplyAll, Apply, PutTo, Puts, FileOf, LeftThere;
    var log := ApplyAll(sh, start, ops);
    var count := Heads(sh, |log.data| % sh.blockSize, |v|);
    var rest := Frame(sh, FIRST, v[..Room(sh, |log.data| % sh.blockSize)]);
    all := ops + AfterFailure(sh, log, v, x);
    file := FileOf(sh, ApplyAll(sh, start, all));
    FileHolds(sh, start, ApplyAll(sh, start, all));
    ThreeMore(sh, start, file, ops, count, rest, x);
    LeftIsSkipped(sh, file, log, count, v, x);
    FailedWriteIsMet(sh, start, file, ops, v, count, rest, x);
    OnePut(count, rest, x);
    PutsTogether(ops, AfterFailure(sh, log, v, x));
  }

  lemma OnePut(count: nat, rest: Bytes, x: Bytes)
    requires x != []
    ensures Puts([Lose(count), Skip(rest), Put(x)]) == [x]
  {
    PutsFrom([Lose(count), Skip(rest), Put(x)], 0);
    PutsFrom([Lose(count), Skip(rest), Put(x)], 1);
    PutsFrom([Lose(count), Skip(rest), Put(x)], 2);
    assert [Lose(count), Skip(rest), Put(x)][3..] == [];
  }

  lemma LeftIsSkipped(sh: Shape, file: Bytes, log: Log, count: nat, v: Bytes, x: Bytes)
    requires ValidShape(sh) && Placed(sh, |log.data|) && |log.data| % sh.blockSize != 0 && v != [] && x != []
    requires |v| > Room(sh, |log.data| % sh.blockSize)
    requires var rest := Frame(sh, FIRST, v[..Room(sh, |log.data| % sh.blockSize)]);
      Holds(sh, file, PutTo(sh, Apply(sh, Apply(sh, log, Lose(count)), Skip(rest)), x))
    ensures LeftThere(sh, file, log, v)
  {
    hide Frame, LiesAt, PutTo;
    var lost := Apply(sh, log, Lose(count));
    var next := Apply(sh, lost, Skip(Frame(sh, FIRST, v[..Room(sh, |log.data| % sh.blockSize)])));
    PrefixHolds(sh, file, next, PutTo(sh, next, x));
    SkippedIsLeft(sh, file, lost, v);
  }

  // One such file: 1 is written, then 5000 zeros of which only the first block lands, then 2 in
  // the next block.  Of 1 and 2 the reader gets 1.
  lemma ExampleBreaksOff(crc: Bytes -> nat) returns (file: Bytes, all: seq<Op>)
    ensures var sh := Shape(4096, 35, crc);
      && ValidShape(sh) && Holds(sh, file, ApplyAll(sh, 1, all)) && EndsAt(sh, 1, file, Pos(sh, ApplyAll(sh, 1, all)))
      && Puts(all) == [[1], [2]] && Values(sh, 1, file, sh.blockSize) == ([[1]], Failed(UnexpectedType1))
  {
    hide Values, EndsAt, LiesAt, Holds, Calm, Fits, ApplyAll, Puts;
    var sh := Shape(4096, 35, crc);
    ExampleStarts(sh);
    ExampleFits(sh, ApplyAll(sh, 1, [Put([1])]), Zeros(5000));
    file, all := ReaderBreaksOff(sh, 1, [Put([1])], Zeros(5000), [2]);
  }

  lemma ExampleStarts(sh: Shape)
    requires ValidShape(sh) && sh.blockSize == 4096 && sh.minTail == 35
    ensures var log := ApplyAll(sh, 1, [Put([1])]); |log.data| == 24 && log.num == 2
    ensures Calm(sh, 1, [Put([1])]) && Puts([Put([1])]) == [[1]]
  {
    hide Frame, Meta;
    assert [Put([1])][..0] == [];
    assert ApplyAll(sh, 1, [Put([1])]) == PutTo(sh, Log([], 1), [1]);
    assert |Dumped(sh, Log([], 1), [1])| == 24;
  }

  lemma ExampleFits(sh: Shape, log: Log, v: Bytes)
    requires ValidShape(sh) && sh.blockSize == 4096 && sh.minTail == 35 && |v| == 5000
    requires log == ApplyAll(sh, 1, [Put([1])]) && |log.data| == 24 && log.num == 2
    ensures |v| > Room(sh, 24) && Fits(sh, 1, [Put([1])] + AfterFailure(sh, log, v, [2]))
  {
    hide ApplyAll, Frame, Apply, Dump, Span;
    var three := AfterFailure(sh, log, v, [2]);
    var all := [Put([1])] + three;
    ThreeApplied(sh, 1, [Put([1])], three);
    AfterSkip(sh, log, 1, three[1].rest);
    var next := Apply(sh, Apply(sh, log, three[0]), three[1]);
    PutApplies(sh, next, [2]);
    assert Heads(sh, 0, 935) == 1 && Heads(sh, 24, 5000) == 1 && Heads(sh, 0, 1) == 1;
    assert ApplyAll(sh, 1, all).num == 4;
    SpanIsWide();
  }

  lemma ThreeApplied(sh: Shape, start: nat, ops: seq<Op>, three: seq<Op>)
    requires ValidShape(sh) && |three| == 3
    ensures ApplyAll(sh, start, ops + three) ==
            Apply(sh, Apply(sh, Apply(sh, ApplyAll(sh, start, ops), three[0]), three[1]), three[2])
  {
    hide Apply;
    var all, n := ops + three, |ops|;
    assert all[..n] == ops;
    assert all[..n + 1][..n] == ops && all[..n + 2][..n + 1] == all[..n + 1] && all[..n + 3][..n + 2] == all[..n + 2];
    assert all[..n + 3] == all;
    assert ApplyAll(sh, start, all[..n + 1]) == Apply(sh, ApplyAll(sh, start, ops), three[0]);
    assert ApplyAll(sh, start, all[..n + 2]) == Apply(sh, ApplyAll(sh, start, all[..n + 1]), three[1]);
  }

  lemma SpanIsWide()
    ensures Span(8) > 0x1_0000
  {
    assert Span(4) == 256 * (256 * Span(2)) && Span(2) == 0x1_0000;
    assert Span(8) == 256 * (256 * (256 * (256 * Span(4))));
  }
}
