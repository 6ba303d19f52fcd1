/** From the writer of the block log to its reader. */
module BlockRoundTrip {
  import opened Arithmetic
  import opened BlockFormat
  import opened BlockLog
  import opened BlockReader
  import opened BlockSkips
  import opened BlockWriter

  // A batch is so many puts.
  function PutOps(vs: seq<Bytes>): (ops: seq<Op>)
    ensures |ops| == |vs| && forall k :: 0 <= k < |vs| ==> ops[k] == Put(vs[k])
  {
    seq(|vs|, i requires 0 <= i < |vs| => Put(vs[i]))
  }

  lemma {:induction false} BatchIsPuts(sh: Shape, start: nat, ops: seq<Op>, vs: seq<Bytes>)
    requires ValidShape(sh) && forall k :: 0 <= k < |vs| ==> vs[k] != []
    ensures ApplyAll(sh, start, ops + PutOps(vs)) == PutAll(sh, ApplyAll(sh, start, ops), vs)
    decreases |vs|
  {
    hide PutTo;
    if vs == [] {
      assert ops + PutOps(vs) == ops;
    } else {
      var most := vs[..|vs| - 1];
      var all := ops + PutOps(vs);
      assert all[..|all| - 1] == ops + PutOps(most);
      BatchIsPuts(sh, start, ops, most);
    }
  }

  // The round trip of the writer: from what it wrote, whatever the strategies, the batches and
  // the flushes, a reader gets back every value in order and then the end, and a scan comes to
  // the block the writer would start next.
  lemma WriterIsRead(w: DirectIOWriteInfo, ops: seq<Op>) returns (last: nat)
    requires w.Valid() && w.Flushed() && w.Clean() && w.offset > 0
    requires w.TheLog() == ApplyAll(w.sh, w.startSeq, ops)
    requires Calm(w.sh, w.startSeq, ops) && Fits(w.sh, w.startSeq, ops) && w.blkSeq < Span(8)
    ensures Values(w.sh, w.startSeq, w.file, w.sh.blockSize) == (Puts(ops), EndOf(w.sh, w.file, w.offset))
    ensures ScanFile(w.sh, w.startSeq, w.file) == Found(last, Up(w.offset, w.sh.blockSize))
    ensures last <= w.blkSeq && (Lossless(ops) ==> last == w.blkSeq)
  {
    hide Values, Scan, ApplyAll, Calm, DataOf, CleanOf, EndsAt;
    var log := w.TheLog();
    FlushedData(w.file, w.buffer[..], w.sh.blockSize, w.ioOffset, w.offset);
    CleanEnds(w.sh, w.startSeq, w.file, w.offset);
    last := WrittenIsRead(w.sh, w.startSeq, w.file, ops);
  }

  // It gives exactly what was put if and only if the rests that were skipped say nothing and
  // nothing is read behind the log: writes that failed included.
  lemma WriterReadsIffCalm(w: DirectIOWriteInfo, ops: seq<Op>)
    requires w.Valid() && w.Flushed() && w.offset > 0
    requires w.TheLog() == ApplyAll(w.sh, w.startSeq, ops) && Fits(w.sh, w.startSeq, ops)
    requires NoneDangles(w.sh, w.startSeq, w.file, ops)
    ensures ReadsAll(Values(w.sh, w.startSeq, w.file, w.sh.blockSize), Puts(ops)) <==>
      Calm(w.sh, w.startSeq, ops) && ReadsAll(Values(w.sh, w.startSeq, w.file, w.offset), [])
  {
    hide Values, ApplyAll, Calm, DataOf, Puts, Fits, NoneDangles, ReadsAll;
    FlushedData(w.file, w.buffer[..], w.sh.blockSize, w.ioOffset, w.offset);
    ReadIffCalm(w.sh, w.startSeq, w.file, ops);
  }

  // Behind the log of a clean file nothing is read.
  lemma CleanReadsNothing(w: DirectIOWriteInfo)
    requires w.Valid() && w.Flushed() && w.Clean() && w.offset > 0
    ensures ReadsAll(Values(w.sh, w.startSeq, w.file, w.offset), [])
  {
    hide Values, DataOf, CleanOf, EndsAt;
    CleanEnds(w.sh, w.startSeq, w.file, w.offset);
    EndReads(w.sh, w.startSeq, w.file, w.offset);
  }

  // Whatever lies behind the log, all that was put is read first.
  lemma WriterIsReadFirst(w: DirectIOWriteInfo, ops: seq<Op>)
    requires w.Valid() && w.Flushed() && w.offset > 0
    requires w.TheLog() == ApplyAll(w.sh, w.startSeq, ops) && Calm(w.sh, w.startSeq, ops) && Fits(w.sh, w.startSeq, ops)
    ensures Puts(ops) <= Values(w.sh, w.startSeq, w.file, w.sh.blockSize).0
  {
    hide Values, ApplyAll, Calm, DataOf, Puts, Fits;
    FlushedData(w.file, w.buffer[..], w.sh.blockSize, w.ioOffset, w.offset);
    AllAreRead(w.sh, w.startSeq, w.file, ops);
  }

  // And every offset it gave out reads its value, even after writes that failed.
  lemma WriterOffsetsRead(w: DirectIOWriteInfo, ops: seq<Op>, k: nat)
    requires w.Valid() && w.Flushed() && w.offset > 0 && w.TheLog() == ApplyAll(w.sh, w.startSeq, ops)
    requires k < |ops| && ops[k].Put? && ops[k].v != [] && w.blkSeq + |ops[k].v| + 1 < Span(8)
    ensures var r := ReadAt(w.sh, w.startSeq, w.file, Pos(w.sh, ApplyAll(w.sh, w.startSeq, ops[..k])));
      r.Value? && r.value == ops[k].v
  {
    hide Read, ApplyAll, DataOf;
    FlushedData(w.file, w.buffer[..], w.sh.blockSize, w.ioOffset, w.offset);
    EveryOffsetReads(w.sh, w.startSeq, w.file, ops, k);
  }

  // The buffered way, the direct way and batches leave the same bytes, as far as they have come
  // to the same log.
  lemma SameLogSameBytes(a: DirectIOWriteInfo, b: DirectIOWriteInfo)
    requires a.Valid() && b.Valid() && a.Flushed() && b.Flushed() && a.sh == b.sh
    requires a.TheLog() == b.TheLog() && a.offset > 0 && b.offset > 0
    ensures a.offset == b.offset <= |a.file| && b.offset <= |b.file|
    ensures a.file[a.sh.blockSize..a.offset] == b.file[b.sh.blockSize..b.offset]
  {
    hide DataOf;
    FlushedData(a.file, a.buffer[..], a.sh.blockSize, a.ioOffset, a.offset);
    FlushedData(b.file, b.buffer[..], b.sh.blockSize, b.ioOffset, b.offset);
    assert Pos(a.sh, a.TheLog()) == Pos(b.sh, b.TheLog());
  }

  // A skip leaves harmless bytes when the rest of the block in the file says nothing.
  lemma SkipIsCalm(w: DirectIOWriteInfo)
    requires w.Valid() && w.Flushed() && w.Clean() && w.offset % w.sh.blockSize != 0
    ensures IsCalm(w.sh, w.TheLog(), Skip(w.file[w.offset..Up(w.offset, w.sh.blockSize)]))
  {
    hide NumberedIn, DataOf;
    var log := w.TheLog();
    UpBehind(|log.data|, w.sh.blockSize);
    if Up(w.offset, w.sh.blockSize) - w.offset >= HEADER {
      assert w.file[w.offset..Up(w.offset, w.sh.blockSize)][6] == w.file[w.offset + 6];
    }
  }

  lemma OneMoreOp(sh: Shape, start: nat, ops: seq<Op>, op: Op)
    requires ValidShape(sh)
    ensures ApplyAll(sh, start, ops + [op]) == Apply(sh, ApplyAll(sh, start, ops), op)
    ensures Calm(sh, start, ops) && IsCalm(sh, ApplyAll(sh, start, ops), op) ==> Calm(sh, start, ops + [op])
    ensures Puts(ops + [op]) == Puts(ops) + PutOf(op)
  {
    var all := ops + [op];
    assert all[..|all| - 1] == ops;
  }

  // A write that left the rest of a block, or did not.
  function LeftBehind(ops: seq<Op>, skipped: bool, rest: Bytes): seq<Op> {
    if skipped then ops + [Skip(rest)] else ops
  }

  lemma LeftBehindOps(sh: Shape, start: nat, ops: seq<Op>, skipped: bool, rest: Bytes)
    requires ValidShape(sh)
    ensures var ops' := LeftBehind(ops, skipped, rest); var log := ApplyAll(sh, start, ops);
      && ApplyAll(sh, start, ops') == (if skipped then Apply(sh, log, Skip(rest)) else log)
      && Puts(ops') == Puts(ops) && ops <= ops' && (Lossless(ops') <==> Lossless(ops))
      && (Calm(sh, start, ops) && (skipped ==> IsCalm(sh, log, Skip(rest))) ==> Calm(sh, start, ops'))
  {
    hide ApplyAll, Apply, Calm, IsCalm, Puts;
    OneMoreOp(sh, start, ops, Skip(rest));
    if !Lossless(ops) {
      var k :| 0 <= k < |ops| && ops[k].Lose?;
      assert LeftBehind(ops, skipped, rest)[k].Lose?;
    }
  }

  // The rest of the block that the writer leaves, if it does.
  ghost function RestOf(w: DirectIOWriteInfo, skipped: bool): Bytes
    reads w, w.buffer
    requires w.Valid() && w.Flushed()
  {
    if skipped then w.file[w.offset..Up(w.offset, w.sh.blockSize)] else []
  }

  lemma BaseIs(w: DirectIOWriteInfo, skipped: bool)
    requires w.Valid() && w.Flushed() && (skipped ==> w.offset % w.sh.blockSize != 0)
    ensures w.Base(skipped) == if skipped then Apply(w.sh, w.TheLog(), Skip(RestOf(w, skipped))) else w.TheLog()
    ensures skipped && w.Clean() ==> IsCalm(w.sh, w.TheLog(), Skip(RestOf(w, skipped)))
  {
    hide Apply, IsCalm, CleanOf, DataOf;
    if skipped && w.Clean() {
      SkipIsCalm(w);
    }
  }

  // What a failed write leaves is a rest that does harm once it is skipped.
  lemma FailedWriteIsHarmful(w: DirectIOWriteInfo, v: Bytes)
    requires w.Valid() && w.Flushed() && v != [] && LeftThere(w.sh, w.file, w.TheLog(), v)
    ensures !w.Clean() && !IsCalm(w.sh, w.TheLog(), Skip(w.file[w.offset..Up(w.offset, w.sh.blockSize)]))
  {
    hide NumberedIn, DataOf;
    var log := w.TheLog();
    UpBehind(|log.data|, w.sh.blockSize);
    PosInBlock(w.sh, log);
    LeftSaysSomething(w.sh, w.file, log, v);
    assert w.file[w.offset..Up(w.offset, w.sh.blockSize)][6] == w.file[w.offset + 6];
  }

  lemma SkipsInBlock(strategy: Strategy, sh: Shape, offset: nat, vs: seq<Bytes>)
    requires ValidShape(sh)
    ensures Skips(strategy, sh, offset, vs) ==> offset % sh.blockSize != 0
  {
  }

  // Read a file from its first data block to the end.
  method ReadAll(sh: Shape, start: nat, file: Bytes) returns (ok: bool, code: int, vs: seq<Bytes>)
    requires ValidShape(sh) && |file| % sh.blockSize == 0 && |file| <= MAX_FILE && 0 < start
    ensures vs == Values(sh, start, file, sh.blockSize).0
    ensures match Values(sh, start, file, sh.blockSize).1
      case Failed(why) => ok && code == (if why == DeprecatedBlock then END else CodeOf(why))
      case Assertion => !ok
      case _ => ok && code == END
    ensures ok && code == END <==> !Fouled(Values(sh, start, file, sh.blockSize).1)
  {
    hide Read, Values;
    var r := new DirectIOReadInfo(sh, start, file);
    vs := [];
    while true
      invariant r.Valid() && r.sh == sh && r.startSeq == start && r.file == file
      invariant Leads(sh, start, file, sh.blockSize, vs, r.offset)
      decreases |file| - r.offset
    {
      ReadOrEnd(sh, start, file, r.offset);
      var value, at;
      ok, code, value, at := r.DirectIORead();
      if !ok || code != 0 {
        return;
      }
      LeadsOn(sh, start, file, sh.blockSize, vs, at, [value], r.offset);
      vs := vs + [value];
    }
  }

  // At every position there is a value to read, further on, or the reading ends.
  lemma ReadOrEnd(sh: Shape, start: nat, file: Bytes, pos: nat)
    requires ValidShape(sh) && |file| % sh.blockSize == 0
    ensures var r := ReadAt(sh, start, file, pos);
      if r.Value? then pos < r.next <= |file| && Leads(sh, start, file, pos, [r.value], r.next)
      else Values(sh, start, file, pos) == ([], r) && (pos >= |file| ==> r == Eof)
  {
    if pos <= |file| {
      ReadMoves(sh, start, file, pos, false, []);
    }
  }

  lemma {:induction false} ValuePut(ops: seq<Op>, j: nat)
    requires j < |ops| && ops[j].Put? && ops[j].v != []
    ensures ops[j].v in Puts(ops)
  {
    var last := |ops| - 1;
    if j < last {
      ValuePut(ops[..last], j);
    }
  }

  // The numbers used stay below the bound for all values, when they do so for these.
  lemma PutsFit(w: DirectIOWriteInfo, ops: seq<Op>, vs: seq<Bytes>)
    requires w.Valid() && w.TheLog() == ApplyAll(w.sh, w.startSeq, ops) && Puts(ops) == vs
    requires w.blkSeq + 1 < Span(8) && forall v :: v in vs ==> w.blkSeq + |v| + 1 < Span(8)
    ensures Fits(w.sh, w.startSeq, ops)
  {
    hide ApplyAll, Puts, DataOf, Span;
    forall k | 0 <= k < |ops| && ops[k].Put? ensures w.blkSeq + |ops[k].v| + 1 < Span(8) {
      if ops[k].v != [] {
        ValuePut(ops, k);
      }
    }
  }

  // The block numbers stay far below what eight bytes hold.
  predicate FarFromWrap(w: DirectIOWriteInfo, vs: seq<Bytes>)
    reads w
  {
    w.blkSeq + 1 < Span(8) && forall v :: v in vs ==> w.blkSeq + |v| + 1 < Span(8)
  }
}
