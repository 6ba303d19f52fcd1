/**
  The writer of PaxosKV's block log: a buffer changed in place, written to the file in whole
  blocks.  Three strategies decide where a value goes; values are written one by one, in batches,
  or through the buffer with a flush.  Each is tied to what module BlockLog says the log becomes.
 */
module BlockWriter {
  import opened Arithmetic
  import opened BlockFormat
  import opened BlockLog
  import opened BlockSkips

  datatype Strategy = MaxCompact | DontMove | MinWrite

  const LARGE_WRITE := -1898
  const NEXT_FILE := -2000
  const POOR_WRITE := -1503

  // Every record ends behind the head of its block and its own header.
  predicate BehindHead(sh: Shape, pos: nat)
    requires sh.blockSize > 0
  {
    pos % sh.blockSize == 0 || pos % sh.blockSize >= META_RECORD + HEADER
  }

  // The bytes of a file after a write; a write starts at most at its end.
  function Overwrite(file: Bytes, pos: nat, bytes: Bytes): (r: Bytes)
    requires pos <= |file|
  {
    file[..pos] + bytes + if pos + |bytes| < |file| then file[pos + |bytes|..] else []
  }

  class DirectIOWriteInfo {
    const sh: Shape
    const maxBuf: nat
    const buffer: array<Byte>
    var startSeq: nat
    var blkSeq: nat
    var offset: nat             // where the next value goes
    var ioOffset: nat           // where the buffer starts in the file
    var strategy: Strategy
    var file: Bytes
    var announced: nat          // the number the file's first block announces

    ghost predicate Shaped()
      reads this
    {
      && ValidShape(sh) && sh.blockSize <= maxBuf == buffer.Length && maxBuf % sh.blockSize == 0
      && ioOffset % sh.blockSize == 0 && ioOffset <= |file| && |file| % sh.blockSize == 0
      && 0 < startSeq <= blkSeq
    }

    ghost predicate Valid()
      reads this
    {
      && Shaped() && ioOffset <= offset <= ioOffset + maxBuf
      && Placed(sh, offset) && BehindHead(sh, offset) && (offset == 0 || offset >= sh.blockSize)
    }

    constructor (sh: Shape, maxBuf: nat, startSeq: nat, strategy: Strategy, file: Bytes)
      requires ValidShape(sh) && maxBuf % sh.blockSize == 0 && sh.blockSize <= maxBuf && 0 < startSeq
      requires |file| % sh.blockSize == 0
      ensures Valid() && Flushed() && TheLog() == Log([], startSeq)
      ensures this.sh == sh && this.maxBuf == maxBuf && this.startSeq == startSeq && this.file == file
      ensures this.strategy == strategy && fresh(buffer)
    {
      this.sh, this.maxBuf, this.strategy := sh, maxBuf, strategy;
      this.startSeq, blkSeq, offset, ioOffset, announced := startSeq, startSeq, 0, 0, 0;
      this.file := file;
      buffer := new Byte[maxBuf](_ => 0);
      new;
      DivUnique(0, sh.blockSize, 0, 0);
      NothingYet();
    }

    lemma NothingYet()
      requires Shaped() && offset == 0 && ioOffset == 0
      ensures Valid() && Flushed() && Data() == []
    {
      DivUnique(0, sh.blockSize, 0, 0);
      assert buffer[..][..0] == file[0..0];
    }

    // Go on in another file: a new one, or a recycled one whose blocks are deprecated by the
    // number its first block announces.
    method IterWriteFile(next: Bytes, recycled: bool, announcedThere: nat)
      requires Valid() && |next| % sh.blockSize == 0
      modifies this`file, this`announced, this`blkSeq, this`startSeq, this`offset, this`ioOffset
      ensures Valid() && Flushed() && TheLog() == Log([], startSeq) && file == next && startSeq == blkSeq
      ensures startSeq == if recycled then Adjusted(old(blkSeq), announcedThere) else old(blkSeq)
      ensures (if recycled then NumberedIn(sh, next, sh.blockSize, |next|, -1, announcedThere) else next == []) ==> Clean()
    {
      if recycled {
        blkSeq := (if blkSeq < announcedThere then announcedThere else blkSeq) + 1;
      }
      startSeq := blkSeq;
      offset, ioOffset, file, announced := 0, 0, next, announcedThere;
      DivUnique(0, sh.blockSize, 0, 0);
      NothingYet();
      NewIsClean(sh, next, announcedThere, startSeq);
    }

    // ---- the buffer ----

    method Copy(bytes: Bytes, pos: nat)
      requires pos + |bytes| <= buffer.Length
      modifies buffer
      ensures buffer[..pos] == old(buffer[..pos]) && buffer[pos..pos + |bytes|] == bytes
      ensures buffer[pos + |bytes|..] == old(buffer[pos + |bytes|..])
    {
      forall i | 0 <= i < |bytes| {
        buffer[pos + i] := bytes[i];
      }
    }

    method DumpLevelDBRecord(kind: Byte, payload: Bytes, pos: nat, end: nat) returns (next: nat)
      requires |payload| <= 0xFFFF && pos + HEADER + |payload| <= end <= buffer.Length
      modifies buffer
      ensures next == pos + HEADER + |payload|
      ensures buffer[..pos] == old(buffer[..pos]) && buffer[pos..next] == Frame(sh, kind, payload)
      ensures buffer[next..] == old(buffer[next..])
    {
      var header := LE(sh.crc([kind] + payload), 4) + LE(|payload|, 2) + [kind];
      Copy(header, pos);
      ghost var before := buffer[..];
      Copy(payload, pos + HEADER);
      next := pos + HEADER + |payload|;
      assert buffer[pos..next] == buffer[..pos + HEADER][pos..] + buffer[pos + HEADER..next];
      assert before[..pos + HEADER][pos..] == before[pos..pos + HEADER];
    }

    // Close the rest of a block: zeros when it is too short for a record, else a record that
    // tells a reader to go on with the next block.
    method AppendFakeLevelDBRecord(pos: nat, end: nat)
      requires pos <= end <= buffer.Length && HEADER <= sh.minTail
      modifies buffer
      ensures buffer[..pos] == old(buffer[..pos]) && buffer[end..] == old(buffer[end..])
      ensures end - pos <= sh.minTail ==> buffer[pos..end] == Zeros(end - pos)
      ensures end - pos < HEADER || buffer[pos + 6] == ZERO || buffer[pos + 6] == FAKE
    {
      if pos == end {
        return;
      }
      if end - pos <= sh.minTail {
        Copy(Zeros(end - pos), pos);
        assert end - pos >= HEADER ==> buffer[pos + 6] == buffer[pos..end][6];
        return;
      }
      var next := DumpLevelDBRecord(FAKE, [], pos, end);
      FrameParts(sh, FAKE, []);
      assert buffer[pos + 6] == buffer[pos..next][6];
      assert buffer[end..] == buffer[next..][end - next..];
    }

    method ZeroTailingSpace(pos: nat, end: nat)
      requires pos <= end <= buffer.Length
      modifies buffer
      ensures buffer[..pos] == old(buffer[..pos]) && buffer[end..] == old(buffer[end..])
      ensures buffer[pos..end] == Zeros(end - pos)
    {
      Copy(Zeros(end - pos), pos);
    }

    // One record of a value, with the block's own head in front where it starts the block.
    method DumpLevelDBLogBlock(kind: Byte, payload: Bytes, pos: nat, end: nat) returns (next: nat)
      requires ValidShape(sh) && end <= buffer.Length && pos < end && end - pos <= sh.blockSize
      requires var at := sh.blockSize - (end - pos);
        at + sh.minTail < sh.blockSize && 0 < |payload| <= Room(sh, at)
      modifies buffer, this`blkSeq
      ensures var at := sh.blockSize - (end - pos); var d := Piece(sh, at, old(blkSeq), kind, payload);
        && next == pos + |d| <= end && blkSeq == Headed(at, old(blkSeq))
        && buffer[..next] == old(buffer[..pos]) + d
      ensures end - next <= sh.minTail ==> buffer[next..end] == Zeros(end - next)
      ensures end - next < HEADER || buffer[next + 6] == ZERO || buffer[next + 6] == FAKE
    {
      hide Frame, LE, Zeros;
      next := pos;
      ghost var meta: Bytes := [];
      if end - sh.blockSize == pos {
        blkSeq := blkSeq + 1;
        next := DumpLevelDBRecord(BLOCK_META, [0] + LE(blkSeq, 8), pos, end);
        meta := Meta(sh, blkSeq);
        assert buffer[..next] == buffer[..pos] + buffer[pos..next];
      }
      assert buffer[..next] == old(buffer[..pos]) + meta;
      var behind := next;
      next := DumpLevelDBRecord(kind, payload, behind, end);
      assert buffer[..next] == buffer[..behind] + buffer[behind..next];
      assert buffer[..next] == old(buffer[..pos]) + meta + Frame(sh, kind, payload);
      AppendFakeLevelDBRecord(next, end);
    }

    // One step of a value: as much as the block takes.
    method DumpValueImpl(v: Bytes, done: nat, pos: nat, end: nat) returns (done': nat, next: nat)
      requires ValidShape(sh) && end <= buffer.Length && pos < end && end - pos <= sh.blockSize
      requires sh.blockSize - (end - pos) + sh.minTail < sh.blockSize && done < |v|
      modifies buffer, this`blkSeq
      ensures done < done' <= |v| && pos < next <= end && (done' < |v| ==> next == end)
      ensures var at := sh.blockSize - (end - pos); var d := Dump(sh, at, old(blkSeq), v[done..], done > 0);
        && buffer[..next] + Remaining(v, done') == old(buffer[..pos]) + d
        && blkSeq + RemainingHeads(v, done') == old(blkSeq) + Heads(sh, at, |v| - done)
      ensures done' == |v| ==> Remaining(v, done') == [] && RemainingHeads(v, done') == 0
      ensures done' < |v| ==>
        Remaining(v, done') == Dump(sh, 0, blkSeq, v[done'..], true) && RemainingHeads(v, done') == Heads(sh, 0, |v| - done')
      ensures end - next <= sh.minTail ==> buffer[next..end] == Zeros(end - next)
      ensures end - next < HEADER || buffer[next + 6] == ZERO || buffer[next + 6] == FAKE
    {
      hide Dump, Heads, Piece, Zeros;
      var at := sh.blockSize - (end - pos);
      var room := Room(sh, at);
      var last := |v| - done <= room;
      done' := if last then |v| else done + room;
      ghost var before := buffer[..pos];
      ghost var num := blkSeq;
      var piece := v[done..done'];
      next := DumpLevelDBLogBlock(Kind(last, done > 0), piece, pos, end);
      DumpFirst(sh, at, num, v, done);
      if !last {
        ghost var d := Piece(sh, at, num, Kind(false, done > 0), piece);
        assert (before + d) + Remaining(v, done') == before + (d + Remaining(v, done'));
      }
    }

    // What is left of a value at the start of a block.
    ghost function Remaining(v: Bytes, done: nat): Bytes
      reads this
      requires ValidShape(sh) && done <= |v|
    {
      if done == |v| then [] else Dump(sh, 0, blkSeq, v[done..], true)
    }

    ghost function RemainingHeads(v: Bytes, done: nat): nat
      reads this
      requires ValidShape(sh) && done <= |v|
    {
      if done == |v| then 0 else Heads(sh, 0, |v| - done)
    }

    // A value, from a place in the buffer on.
    method DumpValue(v: Bytes, pos: nat) returns (next: nat, end: nat)
      requires ValidShape(sh) && Placed(sh, pos) && v != [] && buffer.Length % sh.blockSize == 0
      requires pos + |Dump(sh, pos % sh.blockSize, blkSeq, v, false)| <= buffer.Length
      modifies buffer, this`blkSeq
      ensures var d := Dump(sh, pos % sh.blockSize, old(blkSeq), v, false);
        && next == pos + |d| && buffer[..next] == old(buffer[..pos]) + d
        && blkSeq == old(blkSeq) + Heads(sh, pos % sh.blockSize, |v|)
      ensures end == Up(next, sh.blockSize) <= buffer.Length
      ensures end - next <= sh.minTail ==> buffer[next..end] == Zeros(end - next)
      ensures end - next < HEADER || buffer[next + 6] == ZERO || buffer[next + 6] == FAKE
    {
      hide Dump, Heads, Zeros, Remaining, RemainingHeads, BlockEnd, Up;
      ghost var total := old(buffer[..pos]) + Dump(sh, pos % sh.blockSize, blkSeq, v, false);
      ghost var heads := blkSeq + Heads(sh, pos % sh.blockSize, |v|);
      end := BlockEnd(pos, sh.blockSize);
      BufferTakes(sh, pos, |total|, buffer.Length);
      var done: nat;
      done, next := DumpValueImpl(v, 0, pos, end);
      assert v[0..] == v;
      UpInBlock(pos, next, sh.blockSize);
      while done < |v|
        invariant 0 < done <= |v| && pos < next <= end <= buffer.Length && (done < |v| ==> next == end)
        invariant end % sh.blockSize == 0 && end == Up(next, sh.blockSize)
        invariant buffer[..next] + Remaining(v, done) == total && blkSeq + RemainingHeads(v, done) == heads
        invariant done == |v| ==> Remaining(v, done) == [] && RemainingHeads(v, done) == 0
        invariant done < |v| ==>
          Remaining(v, done) == Dump(sh, 0, blkSeq, v[done..], true) && RemainingHeads(v, done) == Heads(sh, 0, |v| - done)
        invariant end - next <= sh.minTail ==> buffer[next..end] == Zeros(end - next)
        invariant end - next < HEADER || buffer[next + 6] == ZERO || buffer[next + 6] == FAKE
      {
        BufferTakes(sh, end, |total|, buffer.Length);
        var start := end;
        end := end + sh.blockSize;
        done, next := DumpValueImpl(v, done, start, end);
        UpInBlock(start, next, sh.blockSize);
      }
    }

    // ---- what the log holds ----

    ghost function Data(): Bytes
      reads this, buffer
      requires Valid()
    {
      DataOf(file, buffer[..], sh.blockSize, ioOffset, offset)
    }

    ghost function TheLog(): (log: Log)
      reads this, buffer
      requires Valid()
      ensures Placed(sh, |log.data|) && Pos(sh, log) == (if offset == 0 then sh.blockSize else offset)
    {
      if offset > 0 then UpBehind(offset - sh.blockSize, sh.blockSize); Log(Data(), blkSeq)
      else Multiple(0, sh.blockSize); Log(Data(), blkSeq)
    }

    // The file has all of the log, up to the end of the block it has come to.
    ghost predicate Flushed()
      reads this, buffer
      requires Valid()
    {
      FlushedOf(file, buffer[..], sh.blockSize, ioOffset, offset)
    }

    // The log once the rest of the block has been skipped.
    ghost function Base(skipped: bool): (log: Log)
      reads this, buffer
      requires Valid() && Flushed()
      ensures Placed(sh, |log.data|)
    {
      if skipped then Apply(sh, TheLog(), Skip(file[offset..Up(offset, sh.blockSize)])) else TheLog()
    }

    // ---- sizes ----

    // The size of several values dumped one after the other.
    method BatchDumpSize(vs: seq<Bytes>, at: nat) returns (size: nat)
      requires ValidShape(sh)
      ensures size == SizeAll(sh, at, vs)
    {
      size := 0;
      for i := 0 to |vs|
        invariant size == SizeAll(sh, at, vs[..i])
      {
        assert vs[..i + 1][..i] == vs[..i];
        var from := (at + size) % sh.blockSize;
        if from + sh.minTail < sh.blockSize {
          size := size + CalculateDumpSize(sh, from, |vs[i]|);
        } else {
          size := size + (sh.blockSize - from) + CalculateDumpSize(sh, 0, |vs[i]|);
        }
      }
      assert vs[..|vs|] == vs;
    }

    // The size of a dump at an offset of the file; at the start the file's own block counts.
    method DumpSizeAt(vs: seq<Bytes>, from: nat) returns (size: nat)
      requires ValidShape(sh)
      ensures size == SizeAll(sh, from % sh.blockSize, vs) + if from == 0 then sh.blockSize else 0
    {
      size := BatchDumpSize(vs, from % sh.blockSize);
      if from == 0 {
        size := size + sh.blockSize;
      }
    }

    method GetEstimateWriteSize(dumpSize: nat, from: nat) returns (size: nat)
      requires sh.blockSize > 0
      ensures size == Up(from % sh.blockSize + dumpSize, sh.blockSize)
    {
      UpIsAligned(from % sh.blockSize + dumpSize, sh.blockSize);
      size := (dumpSize + from % sh.blockSize + sh.blockSize - 1) / sh.blockSize * sh.blockSize;
    }

    // ---- making room ----

    // Check that a write fits in the buffer and in the file, and move the block in hand to the
    // front of the buffer when it would not fit behind what is there.
    method AdjustImpl(dumpSize: nat, estimate: nat) returns (code: int)
      requires Valid() && Flushed()
      modifies this`ioOffset, buffer
      ensures Valid() && Flushed() && Data() == old(Data())
      ensures code == LARGE_WRITE <==> estimate > maxBuf
      ensures code == NEXT_FILE <==> estimate <= maxBuf && offset - offset % sh.blockSize + estimate > MAX_FILE
      ensures code == LARGE_WRITE || code == NEXT_FILE || code == 0
      ensures code == 0 ==> offset - offset % sh.blockSize + estimate <= ioOffset + maxBuf
      ensures code != 0 ==> ioOffset == old(ioOffset) && buffer[..] == old(buffer[..])
    {
      hide LiesAt;
      if estimate > maxBuf {
        return LARGE_WRITE;
      }
      var at := offset % sh.blockSize;
      if offset - at + estimate > MAX_FILE {
        return NEXT_FILE;
      }
      code := 0;
      if at == 0 {
        ioOffset := offset;
        assert old(file[..ioOffset] + buffer[..offset - ioOffset]) == file[..offset];
        return;
      }
      if offset - at + estimate > ioOffset + maxBuf {
        MoveToFront(at);
      }
    }

    // Keep only the block in hand.
    method MoveToFront(at: nat)
      requires Valid() && Flushed() && at == offset % sh.blockSize > 0
      modifies this`ioOffset, buffer
      ensures Valid() && Flushed() && Data() == old(Data()) && ioOffset == offset - at
    {
      hide DataOf, FlushedOf, Placed, BehindHead;
      Multiple(offset, sh.blockSize);
      LowerBound(ioOffset, offset, sh.blockSize);
      var from := offset - at - ioOffset;
      ghost var before := buffer[..];
      BeginsInFile(file, before, sh.blockSize, ioOffset, offset);
      Copy(buffer[from..from + at], 0);
      ioOffset := offset - at;
      AppendFakeLevelDBRecord(at, sh.blockSize);
      assert buffer[..][..at] == buffer[..at] == before[from..from + at];
      FrontIsFlushed(file, before, buffer[..], sh.blockSize, ioOffset - from, offset, from);
    }

    // Leave the rest of the block.
    method SkipBlock()
      requires Valid() && Flushed() && offset % sh.blockSize > 0
      modifies this`offset, this`ioOffset
      ensures Valid() && Flushed() && offset == Up(old(offset), sh.blockSize) && old(offset) > 0 && offset > 0
      ensures TheLog() == old(Base(true))
    {
      hide Read;
      var at := offset % sh.blockSize;
      Multiple(offset, sh.blockSize);
      ghost var rest := file[offset..Up(offset, sh.blockSize)];
      UpBehind(offset - sh.blockSize, sh.blockSize);
      offset := offset - at + sh.blockSize;
      ioOffset := offset;
      assert old(file[..ioOffset] + buffer[..offset - ioOffset]) == file[..old(offset)];
      assert file[..offset] == file[..old(offset)] + rest;
      assert buffer[..0] == [];
    }

    // The first block with room, the next block, or whichever of the two writes fewer blocks.
    method MaxCompactAdjust(vs: seq<Bytes>) returns (dumpSize: nat, estimate: nat)
      requires Valid()
      ensures dumpSize == SizeAll(sh, offset % sh.blockSize, vs) + if offset == 0 then sh.blockSize else 0
      ensures estimate == Up(offset % sh.blockSize + dumpSize, sh.blockSize)
    {
      dumpSize := DumpSizeAt(vs, offset);
      estimate := GetEstimateWriteSize(dumpSize, offset);
    }

    method DontMoveAdjust(vs: seq<Bytes>) returns (dumpSize: nat, estimate: nat)
      requires Valid() && Flushed()
      modifies this`offset, this`ioOffset
      ensures Valid() && Flushed() && TheLog() == old(Base(offset % sh.blockSize > 0))
      ensures offset == Up(old(offset), sh.blockSize) && (old(offset) > 0 ==> offset > 0)
      ensures dumpSize == SizeAll(sh, offset % sh.blockSize, vs) + if offset == 0 then sh.blockSize else 0
      ensures estimate == Up(offset % sh.blockSize + dumpSize, sh.blockSize)
    {
      hide SizeAll, Data;
      if offset % sh.blockSize > 0 {
        SkipBlock();
      }
      dumpSize, estimate := MaxCompactAdjust(vs);
    }

    method MinWriteAdjust(vs: seq<Bytes>) returns (dumpSize: nat, estimate: nat)
      requires Valid() && Flushed()
      modifies this`offset, this`ioOffset
      ensures Valid() && Flushed() && TheLog() == old(Base(SkipSaves(sh, offset, vs)))
      ensures offset == old(offset) || (offset == Up(old(offset), sh.blockSize) && old(offset) > 0 && offset > 0)
      ensures var here, there := BlocksFor(sh, old(offset), vs), BlocksFor(sh, Up(old(offset), sh.blockSize), vs);
        && estimate == (if there < here then there else here)
        && offset == (if there < here then Up(old(offset), sh.blockSize) else old(offset))
      ensures dumpSize == SizeAll(sh, offset % sh.blockSize, vs) + if offset == 0 then sh.blockSize else 0
      ensures estimate == Up(offset % sh.blockSize + dumpSize, sh.blockSize)
    {
      hide SizeAll, Data, Flushed, Apply, Placed, BehindHead, BlocksFor, SkipSaves, Up;
      UpIsMultiple(offset, sh.blockSize);
      NextIsUp(offset, sh.blockSize);
      SkipSavesBlocks(sh, offset, vs);
      BlocksAre(sh, offset, vs);
      BlocksAre(sh, Up(offset, sh.blockSize), vs);
      dumpSize, estimate := MaxCompactAdjust(vs);
      if offset % sh.blockSize > 0 {
        var newOffset := offset - offset % sh.blockSize + sh.blockSize;
        var newDumpSize := DumpSizeAt(vs, newOffset);
        var newEstimate := GetEstimateWriteSize(newDumpSize, newOffset);
        if newEstimate < estimate {
          SkipBlock();
          dumpSize, estimate := newDumpSize, newEstimate;
        }
      }
    }

    // Decide where the values go.  The sizes are of the dump and of the blocks to write.
    method AdjustDirectIOWriteBuffer(vs: seq<Bytes>) returns (code: int, dumpSize: nat, estimate: nat)
      requires Valid() && Flushed()
      modifies this`offset, this`ioOffset, buffer
      ensures Valid() && Flushed() && TheLog() == old(Base(Skips(strategy, sh, offset, vs)))
      ensures offset == old(offset) || (offset == Up(old(offset), sh.blockSize) && old(offset) > 0 && offset > 0)
      ensures offset == Place(strategy, sh, old(offset), vs)
      ensures dumpSize == SizeAll(sh, offset % sh.blockSize, vs) + if offset == 0 then sh.blockSize else 0
      ensures estimate == Up(offset % sh.blockSize + dumpSize, sh.blockSize)
      ensures estimate == BlocksFor(sh, offset, vs)
      ensures code == LARGE_WRITE <==> estimate > maxBuf
      ensures code == NEXT_FILE <==> estimate <= maxBuf && offset - offset % sh.blockSize + estimate > MAX_FILE
      ensures code == LARGE_WRITE || code == NEXT_FILE || code == 0
      ensures code == 0 ==> offset - offset % sh.blockSize + estimate <= ioOffset + maxBuf
    {
      hide SizeAll, Data, SkipSaves, Apply, Flushed, Placed, BehindHead, BlocksFor, Up;
      NextIsUp(offset, sh.blockSize);
      match strategy {
        case MaxCompact => dumpSize, estimate := MaxCompactAdjust(vs);
        case DontMove => dumpSize, estimate := DontMoveAdjust(vs);
        case MinWrite => dumpSize, estimate := MinWriteAdjust(vs);
      }
      BlocksAre(sh, offset, vs);
      code := AdjustImpl(dumpSize, estimate);
    }

    // ---- writing ----

    // Write whole blocks of the buffer.  The write may fail after so many blocks.
    method SmallWriteImpl(begin: nat, end: nat, blocks: nat) returns (ok: bool)
      requires Valid() && begin <= end <= maxBuf && begin % sh.blockSize == 0 && end % sh.blockSize == 0
      requires ioOffset + begin <= |file|
      modifies this`file, this`announced
      ensures ok <==> end - begin <= Times(blocks, sh.blockSize)
      ensures var stop := if ok then end else begin + Times(blocks, sh.blockSize);
        && stop <= end && stop % sh.blockSize == 0
        && file == Overwrite(old(file), ioOffset + begin, buffer[..][begin..stop])
      ensures |file| % sh.blockSize == 0 && (|file| == |old(file)| || |file| <= ioOffset + end)
      ensures ok && ioOffset + begin == 0 && begin < end ==> announced == startSeq
    {
      hide Times;
      var size := Times(blocks, sh.blockSize);
      ok := end - begin <= size;
      var stop := if ok then end else begin + size;
      if ioOffset + begin == 0 && begin < stop {
        announced := startSeq;
      }
      file := Overwrite(file, ioOffset + begin, buffer[..][begin..stop]);
      StopsAtBlock(begin, blocks, sh.blockSize);
      AddMultiple(stop, sh.blockSize, ioOffset);
    }

    // Where the next value goes in the buffer; the file's own block comes first.
    function CurrentPos(): nat
      reads this
      requires offset >= ioOffset
    {
      if offset == 0 then sh.blockSize else offset - ioOffset
    }

    // Write blocks of the buffer, from the one in hand on.
    method WriteBlocks(begin: nat, end: nat, blocks: nat) returns (ok: bool)
      requires Valid() && Flushed() && begin <= offset - ioOffset && begin <= end <= maxBuf
      requires begin % sh.blockSize == 0 && end % sh.blockSize == 0
      modifies this`file, this`announced
      ensures Valid() && Flushed() && Data() == old(Data())
      ensures ok <==> end - begin <= Times(blocks, sh.blockSize)
      ensures ok && ioOffset + begin == 0 && begin < end ==> announced == startSeq
      ensures Landed(old(file), file, buffer[..], ioOffset, if ok then end else begin + Times(blocks, sh.blockSize))
      ensures |file| == |old(file)| || |file| <= ioOffset + end
    {
      hide Times, Placed, BehindHead, DataOf, FlushedOf, Overwrite, Landed;
      BeginsInFile(file, buffer[..], sh.blockSize, ioOffset, offset);
      ok := SmallWriteImpl(begin, end, blocks);
      ghost var stop := if ok then end else begin + Times(blocks, sh.blockSize);
      WriteIsKept(old(file), buffer[..], sh.blockSize, ioOffset, offset, begin, stop);
    }

    // Write what has been dumped behind the log.
    method WriteDump(next: nat, end: nat, blocks: nat, ghost d: Bytes) returns (ok: bool)
      requires Valid() && Flushed() && CurrentPos() <= next && end == Up(next, sh.blockSize) <= maxBuf
      requires buffer[..][CurrentPos()..next] == d
      modifies this`file, this`announced, buffer
      ensures Valid() && Flushed() && Data() == old(Data())
      ensures buffer[..][..next] == old(buffer[..][..next])
      ensures ok <==> end - (offset - ioOffset - offset % sh.blockSize) <= Times(blocks, sh.blockSize)
      ensures ok && offset == 0 ==> announced == startSeq
      ensures ok ==> Landed(old(file), file, buffer[..], ioOffset, end) && Written(old(Data()) + d, next, end)
      ensures !ok && blocks > 0 && offset % sh.blockSize != 0 ==> LiesAt(file, offset, UpToBlock(sh, offset, d))
      ensures |file| == |old(file)| || |file| <= ioOffset + end
    {
      hide Times, Placed, BehindHead, DataOf, FlushedOf, Landed, LiesAt, Up, Zeros;
      Multiple(next, sh.blockSize);
      BlockInBuffer(ioOffset, offset, sh.blockSize);
      CloseBlock(next, end);
      assert buffer[..][CurrentPos()..next] == buffer[..][..next][CurrentPos()..] == old(buffer[..])[..next][CurrentPos()..] == d;
      ok := WriteBlocks(offset - ioOffset - offset % sh.blockSize, end, blocks);
      if ok {
        WhatLanded(old(file), next, end, d);
      } else if blocks > 0 && offset % sh.blockSize != 0 {
        BlockLanded(sh, old(file), file, buffer[..], ioOffset, offset, blocks, next, d);
      }
    }

    lemma WhatLanded(file0: Bytes, next: nat, end: nat, d: Bytes)
      requires Valid() && CurrentPos() <= next && end == Up(next, sh.blockSize) <= maxBuf
      requires buffer[..][CurrentPos()..next] == d && buffer[..][next..end] == Zeros(end - next)
      requires Landed(file0, file, buffer[..], ioOffset, end)
      ensures Written(Data() + d, next, end)
    {
      hide Zeros, LiesAt, Placed, BehindHead, Up, Landed, DataOf;
      LandedIsThere(file0, file, buffer[..], sh.blockSize, ioOffset, offset, next, end, d);
    }

    method CloseBlock(next: nat, end: nat)
      requires Valid() && Flushed() && offset - ioOffset <= next <= end <= maxBuf
      modifies buffer
      ensures Flushed() && Data() == old(Data())
      ensures buffer[..][..next] == old(buffer[..][..next]) && buffer[..][next..end] == Zeros(end - next)
    {
      hide Zeros, DataOf, FlushedOf;
      ZeroTailingSpace(next, end);
      assert buffer[..][..next] == buffer[..next] == old(buffer[..][..next]);
      assert buffer[..][next..end] == buffer[next..end];
      SameInBuffer(file, old(buffer[..]), buffer[..], next, sh.blockSize, ioOffset, offset);
    }

    // The file has the log with the records behind it, to the end of their last block.
    ghost predicate Written(data: Bytes, next: nat, end: nat)
      reads this, buffer
      requires ValidShape(sh)
    {
      && ioOffset + next == sh.blockSize + |data| && end == Up(next, sh.blockSize) <= maxBuf == buffer.Length
      && ioOffset + end <= |file| && file[ioOffset..ioOffset + end] == buffer[..][..end]
      && LiesAt(file, sh.blockSize, data + Zeros(end - next))
    }

    // Where the next value goes: behind the last, or in the next block when too little is left.
    method IncreaseOffset(writeSize: nat)
      requires ValidShape(sh)
      modifies this`offset
      ensures offset == Settle(sh, old(offset) + writeSize)
    {
      offset := offset + writeSize;
      var tail := sh.blockSize - offset % sh.blockSize;
      if tail <= sh.minTail {
        offset := offset + tail;
      }
    }

    // What was written is the log, from the new offset on.
    lemma Settles(data: Bytes, next: nat, end: nat)
      requires Shaped() && Written(data, next, end) && BehindHead(sh, ioOffset + next)
      requires offset == Settle(sh, ioOffset + next)
      ensures Valid() && Flushed() && offset > 0 && Data() == Settled(sh, data)
    {
      hide LiesAt, Zeros, FlushedOf, DataOf;
      SettleIsPlaced(sh, ioOffset + next);
      SettlesInBlock(sh, ioOffset, next);
      Multiple(ioOffset + next, sh.blockSize);
      AfterDump(sh, file, buffer[..], ioOffset, data, next, end);
    }

    // The records of a value that goes behind the log.
    ghost function NextDump(v: Bytes): (d: Bytes)
      reads this, buffer
      requires Valid() && v != []
    {
      Dump(sh, |TheLog().data| % sh.blockSize, blkSeq, v, false)
    }

    // Dump a value behind the log, in the buffer.
    method DumpBehind(v: Bytes) returns (next: nat, end: nat)
      requires Valid() && v != [] && CurrentPos() + |NextDump(v)| <= maxBuf
      modifies this`blkSeq, buffer
      ensures Valid() && Data() == old(Data()) && (old(Flushed()) ==> Flushed())
      ensures blkSeq == PutTo(sh, old(TheLog()), v).num
      ensures next == CurrentPos() + |old(NextDump(v))| && end == Up(next, sh.blockSize) <= maxBuf
      ensures BehindHead(sh, ioOffset + next)
      ensures buffer[..][CurrentPos()..next] == old(NextDump(v))
      ensures buffer[..][..CurrentPos()] == old(buffer[..])[..CurrentPos()]
      ensures end - next <= sh.minTail ==> buffer[..][next..end] == Zeros(end - next)
      ensures end - next < HEADER || buffer[next + 6] == ZERO || buffer[next + 6] == FAKE
    {
      hide Dump, Heads, Zeros, FlushedOf, DataOf;
      var pos := CurrentPos();
      ghost var before, d := buffer[..], NextDump(v);
      PosFacts(sh, ioOffset, offset, pos);
      PosInBlock(sh, TheLog());
      next, end := DumpValue(v, pos);
      DumpEnds(sh, pos, old(blkSeq), v, false);
      SettlesInBlock(sh, ioOffset, next);
      assert buffer[..][..pos] == before[..pos] && buffer[..][pos..next] == d by {
        assert buffer[..next] == before[..pos] + d;
        assert buffer[..next][..pos] == buffer[..][..pos];
        assert buffer[..next][pos..] == buffer[..][pos..next];
      }
      assert buffer[..][next..end] == buffer[next..end];
      SameInBuffer(file, before, buffer[..], pos, sh.blockSize, ioOffset, offset);
    }

    // Dump a value behind the log and write its blocks.  The assertion that the buffer goes on
    // behind the block after the file's own fails when it does not, whatever the value.
    method DumpAndWrite(v: Bytes, dumpSize: nat, estimate: nat, blocks: nat)
      returns (ok: bool, code: int, ghost next: nat, ghost end: nat)
      requires Valid() && Flushed() && v != []
      requires dumpSize == SizeAll(sh, offset % sh.blockSize, [v]) + if offset == 0 then sh.blockSize else 0
      requires estimate == Up(offset % sh.blockSize + dumpSize, sh.blockSize)
      requires offset - offset % sh.blockSize + estimate <= ioOffset + maxBuf
      modifies this`file, this`announced, this`blkSeq, buffer
      ensures ok <==> !(offset == 0 && maxBuf == 2 * sh.blockSize)
      ensures ok ==> code == 0 || code == POOR_WRITE
      ensures ok ==> (code == 0 <==> estimate <= Times(blocks, sh.blockSize))
      ensures ok ==> Valid() && blkSeq == PutTo(sh, old(TheLog()), v).num
      ensures ok && code != 0 ==> Flushed() && Data() == old(Data())
      ensures ok && code != 0 && blocks > 0 && offset % sh.blockSize != 0 ==> LeftThere(sh, file, old(TheLog()), v)
      ensures ok && code == 0 ==>
        && Written(Dumped(sh, old(TheLog()), v), next, end) && offset + dumpSize == ioOffset + next
        && BehindHead(sh, ioOffset + next) && (offset == 0 ==> announced == startSeq)
        && Landed(old(file), file, buffer[..], ioOffset, end)
      ensures |file| == |old(file)| || |file| <= offset - offset % sh.blockSize + estimate
    {
      hide SizeAll, Times, Dump, Heads, LiesAt, Landed, Zeros, FlushedOf, DataOf, Written;
      code, next, end := 0, 0, 0;
      if offset == 0 && maxBuf == 2 * sh.blockSize {
        return false, 0, 0, 0;
      }
      ok := true;
      ghost var log, d := TheLog(), NextDump(v);
      PosFacts(sh, ioOffset, offset, CurrentPos());
      PosInBlock(sh, log);
      OneDumpSize(sh, offset % sh.blockSize, blkSeq, v);
      EndOfWrite(sh, ioOffset, offset, CurrentPos(), dumpSize, estimate);
      var from, to := DumpBehind(v);
      next, end := from, to;
      var wrote := WriteDump(from, to, blocks, d);
      // the sizes written are those predicted
      assert to - (offset - ioOffset - offset % sh.blockSize) == estimate && from - (offset - ioOffset) == dumpSize;
      if !wrote {
        code := POOR_WRITE;
        if blocks > 0 && offset % sh.blockSize != 0 {
          DumpIsLeft(sh, file, log, v);
        }
        return;
      }
    }

    // Behind the log there is nothing of this generation: the rest of the block says nothing and
    // the blocks after it, if any, are stale.
    ghost predicate Clean()
      reads this
      requires Valid()
    {
      CleanOf(sh, startSeq, file, offset)
    }

    // Write a value where the log is, and go on behind it.
    method WriteHere(v: Bytes, dumpSize: nat, estimate: nat, blocks: nat) returns (ok: bool, code: int)
      requires Valid() && Flushed() && v != []
      requires dumpSize == SizeAll(sh, offset % sh.blockSize, [v]) + if offset == 0 then sh.blockSize else 0
      requires estimate == Up(offset % sh.blockSize + dumpSize, sh.blockSize)
      requires offset - offset % sh.blockSize + estimate <= ioOffset + maxBuf
      modifies this`offset, this`file, this`announced, this`blkSeq, buffer
      ensures ok <==> !(old(offset) == 0 && maxBuf == 2 * sh.blockSize)
      ensures ok ==> Valid() && Flushed() && (code == 0 || code == POOR_WRITE)
      ensures ok ==> (code == 0 <==> estimate <= Times(blocks, sh.blockSize))
      ensures ok && code == 0 ==> TheLog() == PutTo(sh, old(TheLog()), v) && (old(offset) == 0 ==> announced == startSeq)
      ensures ok && code == 0 && old(Clean()) ==> Clean()
      ensures ok && code != 0 ==> TheLog() == Log(old(Data()), PutTo(sh, old(TheLog()), v).num)
      ensures ok && code != 0 && blocks > 0 && offset % sh.blockSize != 0 ==> LeftThere(sh, file, old(TheLog()), v)
      ensures |file| == |old(file)| || |file| <= old(offset - offset % sh.blockSize) + estimate
    {
      hide DataOf, FlushedOf, SizeAll, Zeros, Dump, Heads, LiesAt, Times, Landed, CleanOf;
      ghost var log := TheLog();
      ghost var next, end;
      ok, code, next, end := DumpAndWrite(v, dumpSize, estimate, blocks);
      if ok && code == 0 {
        CleanAfterWrite(sh, startSeq, old(file), file, buffer[..], ioOffset, offset, Dumped(sh, log, v), next, end);
        IncreaseOffset(dumpSize);
        Settles(Dumped(sh, log, v), next, end);
      }
    }

    // Write one value.  The offset given out is where the value's records start.
    method DirectIOWrite(v: Bytes, blocks: nat) returns (ok: bool, code: int, writeOffset: nat)
      requires Valid() && Flushed()
      modifies this`offset, this`ioOffset, this`file, this`announced, this`blkSeq, buffer
      ensures v == [] ==> ok && code == -1 && Valid() && Flushed() && TheLog() == old(TheLog())
      ensures v != [] ==>
        var base := old(Base(Skips(strategy, sh, offset, [v])));
        && (ok ==> Valid() && Flushed() && code in {0, LARGE_WRITE, NEXT_FILE, POOR_WRITE})
        && (ok && code == 0 ==> TheLog() == PutTo(sh, base, v) && writeOffset == Pos(sh, base))
        && (ok && code == 0 ==>
              writeOffset == if old(offset) == 0 then sh.blockSize else Place(strategy, sh, old(offset), [v]))
        && (ok && code == POOR_WRITE ==> TheLog() == Log(base.data, PutTo(sh, base, v).num))
        && (ok && code == POOR_WRITE && blocks > 0 && offset % sh.blockSize != 0 ==> LeftThere(sh, file, base, v))
        && (ok && (code == LARGE_WRITE || code == NEXT_FILE) ==> TheLog() == base)
        && (ok ==> code == WriteCode(sh, maxBuf, Place(strategy, sh, old(offset), [v]), [v], blocks))
      ensures !ok <==> (v != [] && old(offset) == 0 && maxBuf == 2 * sh.blockSize
                        && WriteCode(sh, maxBuf, 0, [v], blocks) in {0, POOR_WRITE})
      ensures ok && code != POOR_WRITE && old(Clean()) ==> Clean()
      ensures |old(file)| <= MAX_FILE ==> |file| <= MAX_FILE
    {
      hide DataOf, FlushedOf, SizeAll, CleanOf, Times, Base, Skips, PutTo, Up, Placed, BehindHead, BlocksFor;
      OneBlockUp(sh.blockSize);
      ok, code, writeOffset := true, -1, 0;
      if v == [] {
        return;
      }
      var dumpSize, estimate;
      code, dumpSize, estimate := AdjustDirectIOWriteBuffer([v]);
      CleanAfterSkip(sh, startSeq, file, old(offset), offset);
      if code != 0 {
        return;
      }
      writeOffset := if offset == 0 then sh.blockSize else offset;
      ok, code := WriteHere(v, dumpSize, estimate, blocks);
    }

    // ---- batches ----

    // The buffer holds the log as far as cur, behind what the file has.
    ghost predicate Dumping(cur: Bytes, pos: nat, end: nat)
      reads this, buffer
      requires Valid()
    {
      && Data() <= cur && ioOffset + pos == sh.blockSize + |cur| && CurrentPos() <= pos <= end <= maxBuf
      && (end == Up(pos, sh.blockSize) || (end == BlockEnd(pos, sh.blockSize) && Placed(sh, pos)))
      && buffer[..][CurrentPos()..pos] == cur[|Data()|..]
      && (end - pos <= sh.minTail ==> buffer[..][pos..end] == Zeros(end - pos))
    }

    // Go on in the next block when too little of this one is left.
    method NextBlock(pos: nat, end: nat, ghost cur: Bytes) returns (from: nat)
      requires Valid() && Dumping(cur, pos, end)
      ensures CurrentPos() <= from <= maxBuf && ioOffset + from == sh.blockSize + |Settled(sh, cur)|
      ensures buffer[..][CurrentPos()..from] == Settled(sh, cur)[|Data()|..] && Data() <= Settled(sh, cur)
    {
      hide DataOf;
      from := if end - pos <= sh.minTail then end else pos;
      SettlesInBlock(sh, ioOffset, pos);
      SettlesInBlock(sh, sh.blockSize, |cur|);
      DivUnique(sh.blockSize, sh.blockSize, 1, 0);
      Multiple(pos, sh.blockSize);
      ghost var pad := Zeros(from - pos);
      assert Settle(sh, pos) == from;
      assert Settled(sh, cur) == cur + pad;
      assert buffer[..][CurrentPos()..from] == buffer[..][CurrentPos()..pos] + pad;
    }

    // Dump one more value of a batch.
    method DumpNext(v: Bytes, pos: nat, end: nat, ghost cur: Bytes)
      returns (from: nat, next: nat, end': nat)
      requires Valid() && Dumping(cur, pos, end) && v != []
      requires sh.blockSize + |Dumped(sh, Log(Settled(sh, cur), blkSeq), v)| <= ioOffset + maxBuf
      modifies this`blkSeq, buffer
      ensures Valid() && Data() == old(Data()) && (old(Flushed()) ==> Flushed())
      ensures Dumping(Dumped(sh, Log(Settled(sh, cur), old(blkSeq)), v), next, end') && end' == Up(next, sh.blockSize)
      ensures ioOffset + from == sh.blockSize + |Settled(sh, cur)| && from < next
      ensures blkSeq == PutTo(sh, Log(Settled(sh, cur), old(blkSeq)), v).num
    {
      hide Dump, Heads, Zeros, FlushedOf, DataOf, Settled, Up, BlockEnd, BehindHead;
      from := NextBlock(pos, end, cur);
      ghost var settled, before := Settled(sh, cur), buffer[..];
      ghost var d := Dump(sh, |settled| % sh.blockSize, blkSeq, v, false);
      SettlesInBlock(sh, ioOffset, from);
      SettlesInBlock(sh, sh.blockSize, |settled|);
      DivUnique(sh.blockSize, sh.blockSize, 1, 0);
      next, end' := DumpValue(v, from);
      InOne(buffer[..], before, CurrentPos(), from, next, d) by {
        assert buffer[..][..next] == buffer[..next] == before[..from] + d;
      }
      assert buffer[..][next..end'] == buffer[next..end'];
      SameInBuffer(file, before, buffer[..], from, sh.blockSize, ioOffset, offset);
      assert (settled + d)[|Data()|..] == settled[|Data()|..] + d;
    }

    // Dump a batch behind the log, in the buffer.  The offsets are where each value starts.
    method DumpBatch(vs: seq<Bytes>) returns (offsets: seq<nat>, next: nat, end: nat)
      requires Valid() && vs != [] && forall k :: 0 <= k < |vs| ==> vs[k] != []
      requires sh.blockSize + |BatchEnd(sh, TheLog(), vs)| <= ioOffset + maxBuf
      modifies this`blkSeq, buffer
      ensures Valid() && Data() == old(Data()) && (old(Flushed()) ==> Flushed())
      ensures Dumping(BatchEnd(sh, old(TheLog()), vs), next, end) && end == Up(next, sh.blockSize) && CurrentPos() < next
      ensures blkSeq == PutAll(sh, old(TheLog()), vs).num
      ensures |offsets| == |vs| && forall k :: 0 <= k < |vs| ==> offsets[k] == Pos(sh, PutAll(sh, old(TheLog()), vs[..k]))
    {
      hide Dumping, PutTo, PutAll, BatchEnd, DataOf, FlushedOf, Settled, Placed, BehindHead, Flushed, Dumped;
      ghost var log, cur := TheLog(), Data();
      next := CurrentPos();
      end := BlockEnd(next, sh.blockSize);
      offsets := [];
      BatchStarts(sh, log, vs);
      DumpingStarts();
      for i := 0 to |vs|
        invariant Valid() && Data() == log.data && (old(Flushed()) ==> Flushed()) && Dumping(cur, next, end)
        invariant i > 0 ==> end == Up(next, sh.blockSize) && CurrentPos() < next
        invariant CurrentPos() == old(CurrentPos()) <= next
        invariant cur == BatchEnd(sh, log, vs[..i]) && Log(Settled(sh, cur), blkSeq) == PutAll(sh, log, vs[..i])
        invariant |offsets| == i && forall k :: 0 <= k < i ==> offsets[k] == Pos(sh, PutAll(sh, log, vs[..k]))
      {
        BatchStep(sh, log, vs, i);
        var from;
        from, next, end := DumpNext(vs[i], next, end, cur);
        cur := BatchEnd(sh, log, vs[..i + 1]);
        offsets := offsets + [ioOffset + from];
      }
      assert vs[..|vs|] == vs;
    }

    lemma DumpingStarts()
      requires Valid()
      requires sh.blockSize + |Data()| < ioOffset + maxBuf
      ensures Dumping(Data(), CurrentPos(), BlockEnd(CurrentPos(), sh.blockSize))
    {
      hide DataOf, Zeros;
      var pos := CurrentPos();
      assert Pos(sh, TheLog()) == ioOffset + pos && TheLog().data == Data();
      PosFacts(sh, ioOffset, offset, pos);
      BufferTakes(sh, pos, maxBuf, maxBuf);
    }

    // Dump a batch behind the log and write its blocks.
    method BatchDumpAndWrite(vs: seq<Bytes>, dumpSize: nat, estimate: nat, blocks: nat)
      returns (code: int, offsets: seq<nat>, ghost next: nat, ghost end: nat)
      requires Valid() && Flushed() && vs != [] && forall k :: 0 <= k < |vs| ==> vs[k] != []
      requires dumpSize == SizeAll(sh, offset % sh.blockSize, vs) + if offset == 0 then sh.blockSize else 0
      requires estimate == Up(offset % sh.blockSize + dumpSize, sh.blockSize)
      requires offset - offset % sh.blockSize + estimate <= ioOffset + maxBuf
      modifies this`file, this`announced, this`blkSeq, buffer
      ensures code == 0 || code == POOR_WRITE
      ensures code == 0 <==> estimate <= Times(blocks, sh.blockSize)
      ensures Valid() && blkSeq == PutAll(sh, old(TheLog()), vs).num
      ensures |offsets| == |vs| && forall k :: 0 <= k < |vs| ==> offsets[k] == Pos(sh, PutAll(sh, old(TheLog()), vs[..k]))
      ensures code != 0 ==> Flushed() && Data() == old(Data())
      ensures code != 0 && blocks > 0 && offset % sh.blockSize != 0 ==> LeftThere(sh, file, old(TheLog()), vs[0])
      ensures code == 0 ==>
        && Written(BatchEnd(sh, old(TheLog()), vs), next, end) && offset + dumpSize == ioOffset + next
        && BehindHead(sh, ioOffset + next) && (offset == 0 ==> announced == startSeq)
        && Landed(old(file), file, buffer[..], ioOffset, end) && CurrentPos() < next
      ensures |file| == |old(file)| || |file| <= offset - offset % sh.blockSize + estimate
    {
      hide SizeAll, Times, BatchEnd, LiesAt, Landed, Zeros, FlushedOf, DataOf, Written, Up, Placed, PutAll, Dumped;
      ghost var log := TheLog();
      ghost var data := BatchEnd(sh, log, vs);
      PosFacts(sh, ioOffset, offset, CurrentPos());
      PosInBlock(sh, log);
      BatchSize(sh, log, vs);
      EndOfWrite(sh, ioOffset, offset, CurrentPos(), dumpSize, estimate);
      code := 0;
      var from, to;
      offsets, from, to := DumpBatch(vs);
      next, end := from, to;
      assert Data() + data[|Data()|..] == data;
      BatchEnds(sh, log, vs);
      PosInBlock(sh, Log(data, 0));
      var wrote := WriteDump(from, to, blocks, data[|Data()|..]);
      // the sizes written are those predicted
      assert to - (offset - ioOffset - offset % sh.blockSize) == estimate && from - (offset - ioOffset) == dumpSize;
      if !wrote {
        code := POOR_WRITE;
        if blocks > 0 && offset % sh.blockSize != 0 {
          BatchIsLeft(sh, file, log, vs);
        }
      }
    }

    method WriteBatchHere(vs: seq<Bytes>, dumpSize: nat, estimate: nat, blocks: nat) returns (code: int, offsets: seq<nat>)
      requires Valid() && Flushed() && vs != [] && forall k :: 0 <= k < |vs| ==> vs[k] != []
      requires dumpSize == SizeAll(sh, offset % sh.blockSize, vs) + if offset == 0 then sh.blockSize else 0
      requires estimate == Up(offset % sh.blockSize + dumpSize, sh.blockSize)
      requires offset - offset % sh.blockSize + estimate <= ioOffset + maxBuf
      modifies this`offset, this`file, this`announced, this`blkSeq, buffer
      ensures Valid() && Flushed() && (code == 0 || code == POOR_WRITE)
      ensures code == 0 <==> estimate <= Times(blocks, sh.blockSize)
      ensures |offsets| == |vs| && forall k :: 0 <= k < |vs| ==> offsets[k] == Pos(sh, PutAll(sh, old(TheLog()), vs[..k]))
      ensures |offsets| > 0 && offsets[0] == if old(offset) == 0 then sh.blockSize else old(offset)
      ensures code == 0 ==> TheLog() == PutAll(sh, old(TheLog()), vs) && (old(offset) == 0 ==> announced == startSeq)
      ensures code == 0 && old(Clean()) ==> Clean()
      ensures code != 0 ==> TheLog() == Log(old(Data()), PutAll(sh, old(TheLog()), vs).num)
      ensures code != 0 && blocks > 0 && offset % sh.blockSize != 0 ==> LeftThere(sh, file, old(TheLog()), vs[0])
      ensures |file| == |old(file)| || |file| <= old(offset - offset % sh.blockSize) + estimate
    {
      hide DataOf, FlushedOf, SizeAll, Zeros, BatchEnd, LiesAt, Times, Landed, CleanOf, PutAll, Up;
      ghost var log := TheLog();
      ghost var next, end;
      code, offsets, next, end := BatchDumpAndWrite(vs, dumpSize, estimate, blocks);
      BatchStarts(sh, log, vs);
      if code == 0 {
        CleanAfterWrite(sh, startSeq, old(file), file, buffer[..], ioOffset, offset, BatchEnd(sh, log, vs), next, end);
        IncreaseOffset(dumpSize);
        Settles(BatchEnd(sh, log, vs), next, end);
        BatchSettles(sh, log, vs);
      }
    }

    // Write values in one go.  It comes to the same as writing them one after the other.
    method BatchDirectIOWrite(vs: seq<Bytes>, blocks: nat) returns (code: int, offsets: seq<nat>)
      requires Valid() && Flushed() && forall k :: 0 <= k < |vs| ==> vs[k] != []
      modifies this`offset, this`ioOffset, this`file, this`announced, this`blkSeq, buffer
      ensures Valid() && Flushed()
      ensures vs == [] ==> code == -1 && TheLog() == old(TheLog())
      ensures vs != [] ==>
        var base := old(Base(Skips(strategy, sh, offset, vs)));
        && code in {0, LARGE_WRITE, NEXT_FILE, POOR_WRITE}
        && (code == 0 ==>
              && TheLog() == PutAll(sh, base, vs) && |offsets| == |vs|
              && offsets[0] == (if old(offset) == 0 then sh.blockSize else Place(strategy, sh, old(offset), vs))
              && forall k :: 0 <= k < |vs| ==> offsets[k] == Pos(sh, PutAll(sh, base, vs[..k])))
        && (code == POOR_WRITE ==> TheLog() == Log(base.data, PutAll(sh, base, vs).num))
        && (code == POOR_WRITE && blocks > 0 && offset % sh.blockSize != 0 ==> LeftThere(sh, file, base, vs[0]))
        && (code == LARGE_WRITE || code == NEXT_FILE ==> TheLog() == base)
        && code == WriteCode(sh, maxBuf, Place(strategy, sh, old(offset), vs), vs, blocks)
      ensures code != POOR_WRITE && old(Clean()) ==> Clean()
      ensures |old(file)| <= MAX_FILE ==> |file| <= MAX_FILE
    {
      hide DataOf, FlushedOf, SizeAll, CleanOf, Times, Base, Skips, PutAll, Up, Placed, BehindHead, BlocksFor;
      code, offsets := -1, [];
      if vs == [] {
        return;
      }
      var dumpSize, estimate;
      code, dumpSize, estimate := AdjustDirectIOWriteBuffer(vs);
      CleanAfterSkip(sh, startSeq, file, old(offset), offset);
      if code == 0 {
        code, offsets := WriteBatchHere(vs, dumpSize, estimate, blocks);
      }
    }

    // ---- the buffered way ----

    // The blocks the log has not come to are stale.
    ghost predicate StaleBehind()
      reads this
      requires Valid()
    {
      NumberedIn(sh, file, Up(if offset == 0 then sh.blockSize else offset, sh.blockSize), |file|, -1, startSeq)
    }

    // The file and the log stay within the size of a file.
    ghost predicate InFile()
      reads this
      requires Valid()
    {
      |file| <= MAX_FILE && Up(offset, sh.blockSize) <= MAX_FILE
    }

    // Write all the buffer holds, its last block closed.
    method WriteBuffer(blocks: nat) returns (ok: bool)
      requires Valid() && ioOffset < offset
      modifies this`file, this`announced, buffer
      ensures Valid() && Data() == old(Data()) && (old(StaleBehind()) ==> StaleBehind())
      ensures ok <==> Up(offset - ioOffset, sh.blockSize) <= Times(blocks, sh.blockSize)
      ensures ok ==> Flushed() && (ioOffset == 0 ==> announced == startSeq)
      ensures ok && old(StaleBehind()) ==> Clean()
      ensures |file| == |old(file)| || |file| <= Up(offset, sh.blockSize)
    {
      hide DataOf, FlushedOf, NumberedIn, Overwrite, Up, Times, CleanOf, Zeros, Placed, BehindHead;
      ghost var before, file0 := buffer[..], file;
      var used := offset - ioOffset;
      BufferEnd(ioOffset, offset, maxBuf, sh.blockSize);
      var end := Up(used, sh.blockSize);
      AppendFakeLevelDBRecord(used, end);
      SameInBuffer(file, before, buffer[..], used, sh.blockSize, ioOffset, offset) by {
        assert buffer[..][..used] == buffer[..used] == before[..used];
      }
      ok := SmallWriteImpl(0, end, blocks);
      ghost var stop := if ok then end else Times(blocks, sh.blockSize);
      OverwriteAgrees(file0, buffer[..], ioOffset, 0, stop, 0);
      FlushLands(sh, startSeq, file0, file, buffer[..], ioOffset, offset, stop, end);
    }

    // Does the file take all the buffer holds, when it takes so many blocks?
    ghost predicate AllLands(blocks: nat)
      reads this
      requires Valid()
    {
      offset == ioOffset || Up(offset - ioOffset, sh.blockSize) <= Times(blocks, sh.blockSize)
    }

    // Write what the buffer holds.  The block in hand stays in the buffer, at its front.
    method FlushDirectIOBufferImpl(blocks: nat) returns (code: int)
      requires Valid()
      modifies this`ioOffset, this`file, this`announced, buffer
      ensures Valid() && TheLog() == old(TheLog()) && (old(StaleBehind()) ==> StaleBehind())
      ensures code == if old(AllLands(blocks)) then 0 else POOR_WRITE
      ensures code == POOR_WRITE ==> offset > ioOffset && old(offset > ioOffset)
      ensures old(InFile()) ==> InFile()
      ensures old(offset == ioOffset) ==> file == old(file)
      ensures code == 0 ==> Flushed() && offset - ioOffset == offset % sh.blockSize
      ensures code == 0 && old(ioOffset == 0 && offset > 0) ==> announced == startSeq
      ensures code == 0 && old(offset > ioOffset && StaleBehind()) ==> Clean()
    {
      hide DataOf, NumberedIn, Placed, BehindHead, CleanOf, Times, LiesAt;
      code := 0;
      if offset == ioOffset {
        return;
      }
      var ok := WriteBuffer(blocks);
      if !ok {
        return POOR_WRITE;
      }
      var at := offset % sh.blockSize;
      LowerBound(ioOffset, offset, sh.blockSize);
      if at == 0 {
        FrontIsFlushed(file, buffer[..], buffer[..], sh.blockSize, ioOffset, offset, offset - ioOffset);
        ioOffset := offset;
      } else if ioOffset < offset - at {
        MoveToFront(at);
      }
    }

    // What a buffered write answers: only a value that does not fit behind what the buffer holds
    // has it flushed first.
    ghost function BufferCode(v: Bytes, blocks: nat): int
      reads this
      requires Valid()
    {
      var need, low := BlocksFor(sh, offset, [v]), offset - offset % sh.blockSize;
      if need > maxBuf then LARGE_WRITE
      else if low + need > MAX_FILE then NEXT_FILE
      else if low + need <= ioOffset + maxBuf || AllLands(blocks) then 0
      else POOR_WRITE
    }

    method DirectIOBufferWrite(v: Bytes, blocks: nat) returns (code: int, writeOffset: nat)
      requires Valid() && strategy == MaxCompact
      modifies this`offset, this`ioOffset, this`file, this`announced, this`blkSeq, buffer
      ensures Valid() && (old(StaleBehind()) ==> StaleBehind())
      ensures code in {0, -1, LARGE_WRITE, NEXT_FILE, POOR_WRITE}
      ensures code != 0 ==> TheLog() == old(TheLog())
      ensures code == -1 <==> v == []
      ensures v != [] ==> code == old(BufferCode(v, blocks))
      ensures code == 0 ==> v != [] && TheLog() == PutTo(sh, old(TheLog()), v) && writeOffset == Pos(sh, old(TheLog()))
      ensures code == 0 || code == POOR_WRITE ==> offset > ioOffset
      ensures code in {-1, LARGE_WRITE, NEXT_FILE} ==> unchanged(this) && unchanged(buffer)
      ensures old(InFile()) ==> InFile()
    {
      hide DataOf, FlushedOf, SizeAll, NumberedIn, Up, Placed, BehindHead, Dump;
      code, writeOffset := -1, 0;
      if v == [] {
        return;
      }
      var dumpSize, estimate := MaxCompactAdjust([v]);
      BlocksAre(sh, offset, [v]);
      if estimate > maxBuf {
        return LARGE_WRITE, 0;
      }
      var low := offset - offset % sh.blockSize;
      if low + estimate > MAX_FILE {
        return NEXT_FILE, 0;
      }
      code := 0;
      if low + estimate > ioOffset + maxBuf {
        code := FlushDirectIOBufferImpl(blocks);
        if code != 0 {
          return;
        }
      }
      writeOffset := CurrentPos() + ioOffset;
      BufferHere(v, dumpSize, estimate);
    }

    // What was dumped is the log, from the new offset on.
    lemma SettlesInBuffer(before: nat, data: Bytes, d: Bytes, next: nat, end: nat)
      requires Shaped() && offset == Settle(sh, ioOffset + next) && BehindHead(sh, ioOffset + next)
      requires ioOffset <= before && (before == 0 || before >= sh.blockSize)
      requires var pos := if before == 0 then sh.blockSize else before - ioOffset;
        && pos <= next <= end == Up(next, sh.blockSize) <= maxBuf && buffer[..][pos..next] == d
        && data == DataOf(file, buffer[..], sh.blockSize, ioOffset, before)
      requires end - next <= sh.minTail ==> buffer[..][next..end] == Zeros(end - next)
      ensures Valid() && Data() == Settled(sh, data + d) && offset >= sh.blockSize
    {
      hide Zeros, DataOf;
      BufferSettles(sh, file, buffer[..], ioOffset, before, data, d, next, end);
      Multiple(ioOffset + next, sh.blockSize);
      SettleIsPlaced(sh, ioOffset + next);
    }

    // Dump a value behind the log, in the buffer, and go on behind it.
    method BufferHere(v: Bytes, dumpSize: nat, ghost estimate: nat)
      requires Valid() && v != []
      requires dumpSize == SizeAll(sh, offset % sh.blockSize, [v]) + if offset == 0 then sh.blockSize else 0
      requires estimate == Up(offset % sh.blockSize + dumpSize, sh.blockSize)
      requires offset - offset % sh.blockSize + estimate <= ioOffset + maxBuf
      modifies this`offset, this`blkSeq, buffer
      ensures Valid() && TheLog() == PutTo(sh, old(TheLog()), v) && (old(StaleBehind()) ==> StaleBehind())
      ensures ioOffset < offset && Up(offset, sh.blockSize) == old(offset - offset % sh.blockSize) + estimate
    {
      hide SizeAll, Dump, Heads, Zeros, FlushedOf, DataOf, NumberedIn, Up, BlockEnd;
      ghost var log, d := TheLog(), NextDump(v);
      PosFacts(sh, ioOffset, offset, CurrentPos());
      PosInBlock(sh, log);
      OneDumpSize(sh, offset % sh.blockSize, blkSeq, v);
      EndOfWrite(sh, ioOffset, offset, CurrentPos(), dumpSize, estimate);
      ghost var data, here := Data(), CurrentPos();
      var next, end := DumpBehind(v);
      IncreaseOffset(dumpSize);
      SettlesInBuffer(old(offset), data, d, next, end);
      FewerBehind(sh, file, old(offset), offset, startSeq);
      EndOfLog(sh, ioOffset, old(offset), dumpSize, estimate);
    }
  }

  // What of a dump lies in the block it starts in.
  function UpToBlock(sh: Shape, offset: nat, d: Bytes): Bytes
    requires sh.blockSize > 0
  {
    var tail := sh.blockSize - offset % sh.blockSize;
    if |d| <= tail then d else d[..tail]
  }

  lemma BlockLanded(sh: Shape, file: Bytes, file': Bytes, buf: Bytes, ioOffset: nat, offset: nat, blocks: nat,
                    next: nat, d: Bytes)
    requires sh.blockSize > 0 && ioOffset % sh.blockSize == 0 && ioOffset <= offset && blocks > 0 && offset % sh.blockSize != 0
    requires ioOffset <= offset - offset % sh.blockSize
    requires Landed(file, file', buf, ioOffset, offset - ioOffset - offset % sh.blockSize + Times(blocks, sh.blockSize))
    requires offset - ioOffset <= next <= |buf| && buf[offset - ioOffset..next] == d
    ensures LiesAt(file', offset, UpToBlock(sh, offset, d))
  {
    var stop := offset - ioOffset - offset % sh.blockSize + Times(blocks, sh.blockSize);
    var from, e := offset - ioOffset, UpToBlock(sh, offset, d);
    TimesOnce(blocks, sh.blockSize);
    assert from + |e| <= stop <= |buf| && |e| <= |d|;
    PartOf(file', ioOffset, buf[..stop], from, from + |e|);
    FrontOfPart(buf, stop, from, next, |e|);
  }

  lemma FrontOfPart(buf: Bytes, stop: nat, from: nat, next: nat, k: nat)
    requires from + k <= stop <= |buf| && from + k <= next <= |buf|
    ensures buf[..stop][from..from + k] == buf[from..next][..k]
  {
  }

  lemma DumpIsLeft(sh: Shape, file: Bytes, log: Log, v: Bytes)
    requires ValidShape(sh) && Placed(sh, |log.data|) && v != [] && |log.data| % sh.blockSize != 0
    requires LiesAt(file, Pos(sh, log), UpToBlock(sh, Pos(sh, log), Dump(sh, |log.data| % sh.blockSize, log.num, v, false)))
    ensures LeftThere(sh, file, log, v)
  {
    hide Frame;
    PosInBlock(sh, log);
    var at := |log.data| % sh.blockSize;
    var room := Room(sh, at);
    if |v| > room {
      var f := Piece(sh, at, log.num, FIRST, v[..room]);
      assert (f + Dump(sh, 0, log.num, v[room..], true))[..|f|] == f;
    }
  }

  lemma DumpFirst(sh: Shape, at: nat, num: nat, v: Bytes, done: nat)
    requires ValidShape(sh) && at + sh.minTail < sh.blockSize && done < |v|
    ensures var room := Room(sh, at);
      if |v| - done <= room then
        && Dump(sh, at, num, v[done..], done > 0) == Piece(sh, at, num, Kind(true, done > 0), v[done..|v|])
        && Heads(sh, at, |v| - done) == Headed(at, 0)
      else
        && Dump(sh, at, num, v[done..], done > 0) ==
           Piece(sh, at, num, Kind(false, done > 0), v[done..done + room]) +
           Dump(sh, 0, Headed(at, num), v[done + room..], true)
        && Heads(sh, at, |v| - done) == Headed(at, 0) + Heads(sh, 0, |v| - done - room)
  {
    hide Piece;
    var rest, room := v[done..], Room(sh, at);
    assert v[done..|v|] == rest;
    if |rest| > room {
      assert rest[..room] == v[done..done + room] && rest[room..] == v[done + room..];
    }
  }

  // More to dump before the end of the buffer means a whole block more.
  lemma BufferTakes(sh: Shape, pos: nat, size: nat, length: nat)
    requires ValidShape(sh) && pos < size <= length && length % sh.blockSize == 0
    ensures BlockEnd(pos, sh.blockSize) <= length && BlockEnd(pos, sh.blockSize) % sh.blockSize == 0
    ensures BlockEnd(pos, sh.blockSize) - pos == sh.blockSize - pos % sh.blockSize
  {
    Multiple(pos, sh.blockSize);
    EndFits(Zeros(length), pos, sh.blockSize);
  }

  function SizeAll(sh: Shape, at: nat, vs: seq<Bytes>): nat
    requires ValidShape(sh)
  {
    if vs == [] then 0
    else
      var size := SizeAll(sh, at, vs[..|vs| - 1]);
      var from := (at + size) % sh.blockSize;
      var n := |vs[|vs| - 1]|;
      if from + sh.minTail < sh.blockSize then size + CalculateDumpSize(sh, from, n)
      else size + (sh.blockSize - from) + CalculateDumpSize(sh, 0, n)
  }

  lemma LowerBound(lo: nat, pos: nat, blockSize: nat)
    requires blockSize > 0 && lo % blockSize == 0 && lo <= pos
    ensures lo <= pos - pos % blockSize
  {
    hide Product;
    QuotientAndRest(lo, blockSize);
    QuotientAndRest(pos, blockSize);
    ProductsApart(pos / blockSize, lo / blockSize, blockSize);
  }

  // Would starting at the next block write fewer blocks?
  predicate SkipSaves(sh: Shape, offset: nat, vs: seq<Bytes>)
    requires ValidShape(sh)
  {
    var at := offset % sh.blockSize;
    at > 0 && Up(SizeAll(sh, 0, vs), sh.blockSize) < Up(at + SizeAll(sh, at, vs), sh.blockSize)
  }

  // The bytes of whole blocks that values need from an offset on; at the start the file's own
  // block counts.
  function BlocksFor(sh: Shape, offset: nat, vs: seq<Bytes>): nat
    requires ValidShape(sh)
  {
    var at := offset % sh.blockSize;
    Up(at + SizeAll(sh, at, vs) + if offset == 0 then sh.blockSize else 0, sh.blockSize)
  }

  // Where the values go, as the strategies are meant.
  function Place(strategy: Strategy, sh: Shape, offset: nat, vs: seq<Bytes>): nat
    requires ValidShape(sh)
  {
    match strategy
    case MaxCompact => offset
    case DontMove => Up(offset, sh.blockSize)
    case MinWrite =>
      var next := Up(offset, sh.blockSize);
      if BlocksFor(sh, next, vs) < BlocksFor(sh, offset, vs) then next else offset
  }

  // What a direct write answers at a place, when the file takes so many blocks.
  function WriteCode(sh: Shape, maxBuf: nat, place: nat, vs: seq<Bytes>, blocks: nat): int
    requires ValidShape(sh)
  {
    var need := BlocksFor(sh, place, vs);
    if need > maxBuf then LARGE_WRITE
    else if place - place % sh.blockSize + need > MAX_FILE then NEXT_FILE
    else if need <= Times(blocks, sh.blockSize) then 0
    else POOR_WRITE
  }

  lemma BlocksAre(sh: Shape, offset: nat, vs: seq<Bytes>)
    requires ValidShape(sh)
    ensures var size := SizeAll(sh, offset % sh.blockSize, vs) + if offset == 0 then sh.blockSize else 0;
      BlocksFor(sh, offset, vs) == Up(offset % sh.blockSize + size, sh.blockSize)
  {
  }

  lemma NextIsUp(offset: nat, blockSize: nat)
    requires blockSize > 0
    ensures offset % blockSize > 0 ==> Up(offset, blockSize) == offset - offset % blockSize + blockSize
    ensures offset % blockSize == 0 ==> Up(offset, blockSize) == offset
  {
  }

  // To leave the block saves blocks exactly when the next place needs fewer.
  lemma SkipSavesBlocks(sh: Shape, offset: nat, vs: seq<Bytes>)
    requires ValidShape(sh)
    ensures SkipSaves(sh, offset, vs) <==> BlocksFor(sh, Up(offset, sh.blockSize), vs) < BlocksFor(sh, offset, vs)
  {
    hide SizeAll, Up;
    UpIsMultiple(offset, sh.blockSize);
    if offset == 0 {
      OneBlockUp(sh.blockSize);
    }
  }

  // MinWrite takes the place that needs fewer blocks, and leaves a block only to save one: a value
  // that fits in the rest of its block is put there.
  lemma MinWriteIsLeast(sh: Shape, offset: nat, vs: seq<Bytes>)
    requires ValidShape(sh)
    ensures var place, next := Place(MinWrite, sh, offset, vs), Up(offset, sh.blockSize);
      && (place == offset || place == next)
      && BlocksFor(sh, place, vs) <= BlocksFor(sh, offset, vs) && BlocksFor(sh, place, vs) <= BlocksFor(sh, next, vs)
      && (place != offset ==> BlocksFor(sh, place, vs) + sh.blockSize <= BlocksFor(sh, offset, vs))
    ensures vs != [] && [] !in vs && offset % sh.blockSize + SizeAll(sh, offset % sh.blockSize, vs) <= sh.blockSize ==>
      Place(MinWrite, sh, offset, vs) == offset
  {
    hide SizeAll, Up;
    var next := Up(offset, sh.blockSize);
    UpIsMultiple(offset, sh.blockSize);
    AreBlocks(sh, offset, vs);
    AreBlocks(sh, next, vs);
    MultiplesApart(BlocksFor(sh, next, vs), BlocksFor(sh, offset, vs), sh.blockSize);
    if offset % sh.blockSize > 0 && vs != [] && [] !in vs
       && offset % sh.blockSize + SizeAll(sh, offset % sh.blockSize, vs) <= sh.blockSize {
      SomeSize(sh, 0, vs);
      MultiplesApart(0, BlocksFor(sh, next, vs), sh.blockSize);
      UpOrdered(offset % sh.blockSize + SizeAll(sh, offset % sh.blockSize, vs), sh.blockSize, sh.blockSize);
      OneBlockUp(sh.blockSize);
    }
  }

  lemma UpIsMultiple(pos: nat, blockSize: nat)
    requires blockSize > 0
    ensures Up(pos, blockSize) % blockSize == 0 && Up(pos, blockSize) >= pos
    ensures pos % blockSize == 0 ==> Up(pos, blockSize) == pos
  {
    Multiple(pos, blockSize);
  }

  lemma OneBlockUp(blockSize: nat)
    requires blockSize > 0
    ensures Up(blockSize, blockSize) == blockSize && 0 % blockSize == 0
  {
    DivUnique(blockSize, blockSize, 1, 0);
    DivUnique(0, blockSize, 0, 0);
  }

  lemma AreBlocks(sh: Shape, offset: nat, vs: seq<Bytes>)
    requires ValidShape(sh)
    ensures BlocksFor(sh, offset, vs) % sh.blockSize == 0
    ensures BlocksFor(sh, offset, vs) >= SizeAll(sh, offset % sh.blockSize, vs)
  {
    hide SizeAll, Up;
    var at := offset % sh.blockSize;
    UpIsMultiple(at + SizeAll(sh, at, vs) + if offset == 0 then sh.blockSize else 0, sh.blockSize);
  }

  lemma SomeSize(sh: Shape, at: nat, vs: seq<Bytes>)
    requires ValidShape(sh) && vs != [] && [] !in vs
    ensures SizeAll(sh, at, vs) > 0
  {
    hide CalculateDumpSize, Dump;
    var n := |vs| - 1;
    assert vs[n] in vs;
    var from := (at + SizeAll(sh, at, vs[..n])) % sh.blockSize;
    if from + sh.minTail < sh.blockSize {
      DumpSizeIsExact(sh, from, 0, vs[n], false);
    }
    DumpSizeIsExact(sh, 0, 0, vs[n], false);
  }

  predicate Skips(strategy: Strategy, sh: Shape, offset: nat, vs: seq<Bytes>)
    requires ValidShape(sh)
  {
    match strategy
    case MaxCompact => false
    case DontMove => offset % sh.blockSize > 0
    case MinWrite => SkipSaves(sh, offset, vs)
  }

  // The block in hand starts at a boundary of the buffer.
  lemma BlockInBuffer(ioOffset: nat, offset: nat, blockSize: nat)
    requires blockSize > 0 && ioOffset % blockSize == 0 && ioOffset <= offset
    ensures ioOffset <= offset - offset % blockSize
    ensures (offset - ioOffset - offset % blockSize) % blockSize == 0
    ensures (offset - ioOffset) % blockSize == offset % blockSize
  {
    LowerBound(ioOffset, offset, blockSize);
    var i, q := ioOffset / blockSize, offset / blockSize;
    assert ioOffset == i * blockSize && offset == q * blockSize + offset % blockSize;
    NextProduct(q, i, blockSize);
    assert (q - i) * blockSize == q * blockSize - i * blockSize;
    DivUnique(offset - ioOffset, blockSize, q - i, offset % blockSize);
    ModOfProduct(q - i, blockSize);
  }

  // A write of part of a buffer that agrees with the file before it.
  lemma OverwriteAgrees(file: Bytes, buf: Bytes, ioOffset: nat, begin: nat, stop: nat, known: nat)
    requires begin <= stop <= |buf| && begin <= known <= |buf| && ioOffset + known <= |file|
    requires file[ioOffset..ioOffset + known] == buf[..known]
    ensures var f := Overwrite(file, ioOffset + begin, buf[begin..stop]);
      && |f| >= |file| && |f| >= ioOffset + stop
      && f[ioOffset..ioOffset + stop] == buf[..stop] && f[ioOffset..ioOffset + known] == buf[..known]
      && f[..ioOffset] == file[..ioOffset]
      && f[ioOffset + stop..] == (if ioOffset + stop <= |file| then file[ioOffset + stop..] else [])
  {
    var f := Overwrite(file, ioOffset + begin, buf[begin..stop]);
    assert f[..ioOffset + begin] == file[..ioOffset + begin];
    forall k | 0 <= k < stop ensures f[ioOffset + k] == buf[k] {
      if k < begin {
        assert file[ioOffset..ioOffset + known][k] == buf[k];
        assert f[..ioOffset + begin][ioOffset + k] == f[ioOffset + k];
      }
    }
    forall k | 0 <= k < known ensures f[ioOffset + k] == buf[k] {
      if k >= stop {
        assert f[ioOffset + k] == file[ioOffset + k] == file[ioOffset..ioOffset + known][k];
      }
    }
  }

  // The bytes behind the file's own block, up to an offset: the file has them as far as the
  // buffer does not.
  ghost function DataOf(file: Bytes, buf: Bytes, blockSize: nat, ioOffset: nat, offset: nat): Bytes
    requires ioOffset <= |file| && ioOffset <= offset <= ioOffset + |buf| && (offset == 0 || offset >= blockSize)
  {
    if offset == 0 then [] else (file[..ioOffset] + buf[..offset - ioOffset])[blockSize..]
  }

  // Everything before and within what was written is now in the file, everything behind as before.
  ghost predicate Landed(file: Bytes, file': Bytes, buf: Bytes, ioOffset: nat, end: nat) {
    && ioOffset <= |file| && end <= |buf| && ioOffset + end <= |file'|
    && file'[..ioOffset] == file[..ioOffset] && file'[ioOffset..ioOffset + end] == buf[..end]
    && file'[ioOffset + end..] == (if ioOffset + end <= |file| then file[ioOffset + end..] else [])
  }

  ghost predicate FlushedOf(file: Bytes, buf: Bytes, blockSize: nat, ioOffset: nat, offset: nat)
    requires blockSize > 0 && ioOffset <= offset <= ioOffset + |buf|
  {
    Up(offset, blockSize) <= |file| && buf[..offset - ioOffset] == file[ioOffset..offset]
  }

  lemma BeginsInFile(file: Bytes, buf: Bytes, blockSize: nat, ioOffset: nat, offset: nat)
    requires blockSize > 0 && ioOffset <= offset <= ioOffset + |buf|
    requires FlushedOf(file, buf, blockSize, ioOffset, offset)
    ensures offset <= |file|
  {
  }

  lemma WriteIsKept(file: Bytes, buf: Bytes, blockSize: nat, ioOffset: nat, offset: nat, begin: nat, stop: nat)
    requires blockSize > 0 && ioOffset <= offset <= ioOffset + |buf| && (offset == 0 || offset >= blockSize)
    requires FlushedOf(file, buf, blockSize, ioOffset, offset)
    requires begin <= stop <= |buf| && begin <= offset - ioOffset && ioOffset + begin <= |file| && ioOffset <= |file|
    ensures var f := Overwrite(file, ioOffset + begin, buf[begin..stop]);
      && ioOffset <= |f| && FlushedOf(f, buf, blockSize, ioOffset, offset) && Landed(file, f, buf, ioOffset, stop)
      && DataOf(f, buf, blockSize, ioOffset, offset) == DataOf(file, buf, blockSize, ioOffset, offset)
  {
    hide Up, Overwrite;
    OverwriteAgrees(file, buf, ioOffset, begin, stop, offset - ioOffset);
  }

  lemma LogGoesOn(file0: Bytes, file: Bytes, buf: Bytes, blockSize: nat, ioOffset: nat, offset: nat, end: nat)
    requires ioOffset <= offset && (offset == 0 || offset >= blockSize)
    requires var pos := if offset == 0 then blockSize else offset - ioOffset;
      (offset == 0 ==> ioOffset == 0) && pos <= end <= |buf|
    requires Landed(file0, file, buf, ioOffset, end)
    ensures ioOffset <= |file0|
    ensures var pos := if offset == 0 then blockSize else offset - ioOffset;
      LiesAt(file, blockSize, DataOf(file0, buf, blockSize, ioOffset, offset) + buf[pos..end])
  {
    var pos := if offset == 0 then blockSize else offset - ioOffset;
    assert buf[..pos] == buf[..end][..pos] == file[ioOffset..ioOffset + end][..pos];
    assert file[..ioOffset + pos] == file[..ioOffset] + buf[..pos];
    assert buf[pos..end] == buf[..end][pos..] == file[ioOffset + pos..ioOffset + end];
    assert file[blockSize..ioOffset + end] == file[..ioOffset + pos][blockSize..] + file[ioOffset + pos..ioOffset + end];
  }

  lemma LandedIsThere(file0: Bytes, file: Bytes, buf: Bytes, blockSize: nat, ioOffset: nat, offset: nat, next: nat, end: nat,
                      d: Bytes)
    requires ioOffset <= |file| && ioOffset <= offset <= ioOffset + |buf| && (offset == 0 || offset >= blockSize)
    requires var pos := if offset == 0 then blockSize else offset - ioOffset;
      && pos <= next <= end <= |buf| && buf[pos..next] == d && buf[next..end] == Zeros(end - next)
    requires Landed(file0, file, buf, ioOffset, end)
    ensures var data := DataOf(file, buf, blockSize, ioOffset, offset);
      && ioOffset + next == blockSize + |data + d| && LiesAt(file, blockSize, data + d + Zeros(end - next))
    ensures ioOffset + end <= |file| && file[ioOffset..ioOffset + end] == buf[..end]
  {
    hide Zeros, LiesAt;
    var pos := if offset == 0 then blockSize else offset - ioOffset;
    var data := DataOf(file, buf, blockSize, ioOffset, offset);
    LogGoesOn(file0, file, buf, blockSize, ioOffset, offset, end);
    assert DataOf(file0, buf, blockSize, ioOffset, offset) == data;
    BehindDump(file, buf, blockSize, data, d, pos, next, end);
  }

  lemma SameInBuffer(file: Bytes, buf: Bytes, buf': Bytes, known: nat, blockSize: nat, ioOffset: nat, offset: nat)
    requires blockSize > 0 && ioOffset <= |file| && ioOffset <= offset <= ioOffset + |buf|
    requires (offset == 0 || offset >= blockSize) && |buf'| == |buf|
    requires offset - ioOffset <= known <= |buf| && buf[..known] == buf'[..known]
    ensures DataOf(file, buf', blockSize, ioOffset, offset) == DataOf(file, buf, blockSize, ioOffset, offset)
    ensures FlushedOf(file, buf', blockSize, ioOffset, offset) <==> FlushedOf(file, buf, blockSize, ioOffset, offset)
  {
    assert buf'[..offset - ioOffset] == buf'[..known][..offset - ioOffset];
    assert buf[..offset - ioOffset] == buf[..known][..offset - ioOffset];
  }

  lemma Prefix(a: array<Byte>, k: nat)
    requires k <= a.Length
    ensures a[..][..k] == a[..k]
  {
  }

  // The buffer may start later, as long as what it then starts with is the same.
  lemma FrontIsFlushed(file: Bytes, buf: Bytes, buf': Bytes, blockSize: nat, ioOffset: nat, offset: nat, from: nat)
    requires blockSize > 0 && ioOffset <= |file| && ioOffset + from <= offset <= ioOffset + |buf| && offset >= blockSize
    requires offset - ioOffset - from <= |buf'| && buf'[..offset - ioOffset - from] == buf[from..offset - ioOffset]
    requires FlushedOf(file, buf, blockSize, ioOffset, offset)
    ensures FlushedOf(file, buf', blockSize, ioOffset + from, offset)
    ensures ioOffset + from <= |file|
    ensures DataOf(file, buf', blockSize, ioOffset + from, offset) == DataOf(file, buf, blockSize, ioOffset, offset)
  {
    FlushedData(file, buf, blockSize, ioOffset, offset);
    assert buf[from..offset - ioOffset] == buf[..offset - ioOffset][from..] == file[ioOffset + from..offset];
    FlushedData(file, buf', blockSize, ioOffset + from, offset);
  }

  lemma FlushedData(file: Bytes, buf: Bytes, blockSize: nat, ioOffset: nat, offset: nat)
    requires blockSize > 0 && ioOffset <= |file| && ioOffset <= offset <= ioOffset + |buf| && offset >= blockSize
    requires FlushedOf(file, buf, blockSize, ioOffset, offset)
    ensures offset <= |file| && DataOf(file, buf, blockSize, ioOffset, offset) == file[blockSize..offset]
  {
    assert file[..ioOffset] + buf[..offset - ioOffset] == file[..offset];
  }

  lemma SettlesInBlock(sh: Shape, ioOffset: nat, next: nat)
    requires ValidShape(sh) && ioOffset % sh.blockSize == 0
    ensures (ioOffset + next) % sh.blockSize == next % sh.blockSize
    ensures Settle(sh, ioOffset + next) == ioOffset + Settle(sh, next)
    ensures Up(ioOffset + next, sh.blockSize) == ioOffset + Up(next, sh.blockSize)
    ensures Settle(sh, next) <= Up(next, sh.blockSize)
  {
    AddMultiple(next, sh.blockSize, ioOffset);
  }

  lemma AfterDump(sh: Shape, file: Bytes, buf: Bytes, ioOffset: nat, data: Bytes, next: nat, end: nat)
    requires ValidShape(sh) && ioOffset % sh.blockSize == 0 && ioOffset + next == sh.blockSize + |data|
    requires end == Up(next, sh.blockSize) <= |buf| && ioOffset + end <= |file|
    requires file[ioOffset..ioOffset + end] == buf[..end]
    requires LiesAt(file, sh.blockSize, data + Zeros(end - next))
    ensures var offset := Settle(sh, ioOffset + next);
      && ioOffset + next <= offset <= ioOffset + end && offset > 0
      && FlushedOf(file, buf, sh.blockSize, ioOffset, offset)
      && DataOf(file, buf, sh.blockSize, ioOffset, offset) == Settled(sh, data)
  {
    hide Zeros, Up, Settle, Settled;
    var offset := Settle(sh, ioOffset + next);
    SettleIsPlaced(sh, ioOffset + next);
    SettlesInBlock(sh, ioOffset, next);
    DivUnique(sh.blockSize, sh.blockSize, 1, 0);
    SettlesInBlock(sh, sh.blockSize, |data|);
    UpSettled(sh, ioOffset + next);
    PartOf(file, ioOffset, buf[..end], 0, offset - ioOffset);
    assert buf[..end][0..offset - ioOffset] == buf[..offset - ioOffset];
    FlushedData(file, buf, sh.blockSize, ioOffset, offset);
    SettledLies(sh, file, data, end - next);
  }

  lemma SettledLies(sh: Shape, file: Bytes, data: Bytes, n: nat)
    requires ValidShape(sh) && Settle(sh, |data|) <= |data| + n && LiesAt(file, sh.blockSize, data + Zeros(n))
    ensures LiesAt(file, sh.blockSize, Settled(sh, data))
  {
    hide LiesAt, Settle;
    SettleIsPlaced(sh, |data|);
    var k := Settle(sh, |data|) - |data|;
    assert Zeros(n) == Zeros(k) + Zeros(n - k);
    assert data + Zeros(n) == Settled(sh, data) + Zeros(n - k);
    BothLie(file, sh.blockSize, Settled(sh, data), Zeros(n - k));
  }

  // The place of the next value in the buffer is at the same offset of its block.
  lemma PosFacts(sh: Shape, ioOffset: nat, offset: nat, pos: nat)
    requires ValidShape(sh) && ioOffset % sh.blockSize == 0 && ioOffset <= offset
    requires offset == 0 || offset >= sh.blockSize
    requires pos == if offset == 0 then sh.blockSize else offset - ioOffset
    ensures pos % sh.blockSize == offset % sh.blockSize
  {
    DivUnique(sh.blockSize, sh.blockSize, 1, 0);
    DivUnique(0, sh.blockSize, 0, 0);
    BlockInBuffer(ioOffset, offset, sh.blockSize);
  }

  lemma OneDumpSize(sh: Shape, at: nat, num: nat, v: Bytes)
    requires ValidShape(sh) && at + sh.minTail < sh.blockSize && v != []
    ensures SizeAll(sh, at, [v]) == |Dump(sh, at, num, v, false)|
  {
    DivUnique(at, sh.blockSize, 0, at);
    DumpSizeIsExact(sh, at, num, v, false);
    assert SizeAll(sh, at, [v][..0]) == 0;
  }

  // What is predicted to be written fits in the buffer and ends where the dump's block does.
  lemma EndOfWrite(sh: Shape, ioOffset: nat, offset: nat, pos: nat, dumpSize: nat, estimate: nat)
    requires ValidShape(sh) && ioOffset % sh.blockSize == 0 && ioOffset <= offset
    requires offset == 0 || offset >= sh.blockSize
    requires pos == if offset == 0 then sh.blockSize else offset - ioOffset
    requires estimate == Up(offset % sh.blockSize + dumpSize, sh.blockSize)
    ensures ioOffset <= offset - offset % sh.blockSize
    ensures var next := offset - ioOffset + dumpSize;
      Up(next, sh.blockSize) == offset - ioOffset - offset % sh.blockSize + estimate
  {
    var at := offset % sh.blockSize;
    BlockInBuffer(ioOffset, offset, sh.blockSize);
    SettlesInBlock(sh, offset - ioOffset - at, at + dumpSize);
  }

  lemma EndOfLog(sh: Shape, ioOffset: nat, offset: nat, dumpSize: nat, estimate: nat)
    requires ValidShape(sh) && ioOffset % sh.blockSize == 0 && ioOffset <= offset
    requires offset == 0 || offset >= sh.blockSize
    requires estimate == Up(offset % sh.blockSize + dumpSize, sh.blockSize)
    ensures Up(Settle(sh, offset + dumpSize), sh.blockSize) == offset - offset % sh.blockSize + estimate
  {
    hide Up, Settle;
    EndOfWrite(sh, ioOffset, offset, if offset == 0 then sh.blockSize else offset - ioOffset, dumpSize, estimate);
    UpSettled(sh, offset + dumpSize);
    SettlesInBlock(sh, ioOffset, offset - ioOffset + dumpSize);
  }

  lemma BehindDump(file: Bytes, buf: Bytes, blockSize: nat, data: Bytes, d: Bytes, pos: nat, next: nat, end: nat)
    requires pos <= next <= end <= |buf| && buf[pos..next] == d && buf[next..end] == Zeros(end - next)
    requires LiesAt(file, blockSize, data + buf[pos..end])
    ensures LiesAt(file, blockSize, data + d + Zeros(end - next))
  {
    assert buf[pos..end] == buf[pos..next] + buf[next..end];
    assert data + (d + Zeros(end - next)) == data + d + Zeros(end - next);
  }

  lemma {:induction false} DumpEnds(sh: Shape, pos: nat, num: nat, v: Bytes, started: bool)
    requires ValidShape(sh) && Placed(sh, pos) && BehindHead(sh, pos) && v != []
    ensures BehindHead(sh, pos + |Dump(sh, pos % sh.blockSize, num, v, started)|)
    decreases |v|
  {
    hide Piece;
    var at := pos % sh.blockSize;
    if |v| > Room(sh, at) {
      DumpSteps(sh, pos, num, v, started);
      DumpEnds(sh, BlockEnd(pos, sh.blockSize), Headed(at, num), v[Room(sh, at)..], true);
    } else {
      var k := Behind(at, HEADER + |v|);
      if pos + k < BlockEnd(pos, sh.blockSize) {
        InBlock(pos, k, sh.blockSize);
      } else {
        Multiple(pos, sh.blockSize);
      }
    }
  }

  ghost predicate CleanOf(sh: Shape, start: nat, file: Bytes, offset: nat)
    requires ValidShape(sh)
  {
    var pos := if offset == 0 then sh.blockSize else offset;
    && NumberedIn(sh, file, Up(pos, sh.blockSize), |file|, -1, start)
    && (pos % sh.blockSize != 0 ==> BlockEnd(pos, sh.blockSize) <= |file| && IsPad(sh, file, pos))
  }

  lemma CleanAfterSkip(sh: Shape, start: nat, file: Bytes, offset: nat, offset': nat)
    requires ValidShape(sh) && (offset' == offset || offset' == Up(offset, sh.blockSize))
    ensures CleanOf(sh, start, file, offset) ==> CleanOf(sh, start, file, offset')
  {
    hide NumberedIn, IsPad;
    Multiple(offset, sh.blockSize);
    if offset == 0 {
      DivUnique(0, sh.blockSize, 0, 0);
    }
  }

  lemma StaleStays(sh: Shape, file: Bytes, file': Bytes, lo: nat, k: nat, lo': nat, start: nat)
    requires sh.blockSize > 0 && lo <= lo' && k <= lo' && k <= |file'| && NumberedIn(sh, file, lo, |file|, -1, start)
    requires file'[k..] == if k <= |file| then file[k..] else []
    ensures NumberedIn(sh, file', lo', |file'|, -1, start)
  {
    hide Meta;
    forall pos | lo' <= pos < |file'| && pos % sh.blockSize == 0 ensures HasHead(sh, file', pos, -1, start) {
      assert HasHead(sh, file, pos, -1, start);
      var m: nat :| m <= start && m < Span(8) && LiesAt(file, pos, Meta(sh, m));
      assert file'[pos..pos + META_RECORD] == file'[k..][pos - k..pos - k + META_RECORD] == file[pos..pos + META_RECORD];
    }
  }

  lemma CleanAfterWrite(sh: Shape, start: nat, file: Bytes, file': Bytes, buf: Bytes, ioOffset: nat, offset: nat,
                        data: Bytes, next: nat, end: nat)
    requires ValidShape(sh) && ioOffset % sh.blockSize == 0 && Landed(file, file', buf, ioOffset, end)
    requires ioOffset + next == sh.blockSize + |data| && end == Up(next, sh.blockSize)
    requires LiesAt(file', sh.blockSize, data + Zeros(end - next))
    requires ioOffset + next > if offset == 0 then sh.blockSize else offset
    ensures CleanOf(sh, start, file, offset) ==> CleanOf(sh, start, file', Settle(sh, ioOffset + next))
  {
    if CleanOf(sh, start, file, offset) {
      hide NumberedIn, Zeros, DataOf;
      var pos := if offset == 0 then sh.blockSize else offset;
      SettlesInBlock(sh, ioOffset, next);
      UpSettled(sh, ioOffset + next);
      UpOrdered(pos, ioOffset + next, sh.blockSize);
      StaleStays(sh, file, file', Up(pos, sh.blockSize), ioOffset + end, ioOffset + end, start);
      Multiple(ioOffset + next, sh.blockSize);
      BothLie(file', sh.blockSize, data, Zeros(end - next));
      ZerosPad(sh, file', ioOffset + next, Zeros(end - next));
    }
  }

  lemma UpOrdered(a: nat, b: nat, blockSize: nat)
    requires blockSize > 0 && a <= b
    ensures Up(a, blockSize) <= Up(b, blockSize)
  {
    Multiple(a, blockSize);
    Multiple(b, blockSize);
    MultiplesApart(Up(b, blockSize), Up(a, blockSize), blockSize);
  }

  lemma ZerosPad(sh: Shape, file: Bytes, pos: nat, pad: Bytes)
    requires ValidShape(sh) && LiesAt(file, pos, pad) && pad == Zeros(|pad|) && pos + |pad| == Up(pos, sh.blockSize)
    ensures pos % sh.blockSize != 0 ==> BlockEnd(pos, sh.blockSize) <= |file| && IsPad(sh, file, pos)
  {
    if |pad| >= HEADER {
      assert file[pos + 6] == file[pos..pos + |pad|][6] == 0;
    }
  }

  lemma InOne(buf: Bytes, before: Bytes, pos: nat, from: nat, next: nat, d: Bytes)
    requires pos <= from <= next <= |buf| == |before| && buf[..next] == before[..from] + d
    ensures buf[pos..next] == before[pos..from] + d && buf[..from] == before[..from]
  {
    assert buf[pos..next] == buf[..next][pos..];
    assert buf[..from] == buf[..next][..from];
  }

  // Where the records of a batch end.
  function BatchEnd(sh: Shape, log: Log, vs: seq<Bytes>): Bytes
    requires ValidShape(sh) && Placed(sh, |log.data|) && forall k :: 0 <= k < |vs| ==> vs[k] != []
  {
    if vs == [] then log.data else Dumped(sh, PutAll(sh, log, vs[..|vs| - 1]), vs[|vs| - 1])
  }

  lemma SettledIsSame(sh: Shape, data: Bytes)
    requires ValidShape(sh) && Placed(sh, |data|)
    ensures Settled(sh, data) == data
  {
    assert Zeros(0) == [];
  }

  lemma BatchSettles(sh: Shape, log: Log, vs: seq<Bytes>)
    requires ValidShape(sh) && Placed(sh, |log.data|) && forall k :: 0 <= k < |vs| ==> vs[k] != []
    ensures PutAll(sh, log, vs).data == Settled(sh, BatchEnd(sh, log, vs))
  {
    hide Dumped, Settled;
    if vs == [] {
      SettledIsSame(sh, log.data);
    }
  }

  lemma {:induction false} BatchOnlyGrows(sh: Shape, log: Log, vs: seq<Bytes>, i: nat)
    requires ValidShape(sh) && Placed(sh, |log.data|) && (forall k :: 0 <= k < |vs| ==> vs[k] != []) && i <= |vs|
    ensures BatchEnd(sh, log, vs[..i]) <= BatchEnd(sh, log, vs)
    decreases |vs|
  {
    hide Dumped, Settled;
    if i < |vs| {
      var most := vs[..|vs| - 1];
      assert most[..i] == vs[..i];
      BatchOnlyGrows(sh, log, most, i);
      BatchSettles(sh, log, most);
    } else {
      assert vs[..i] == vs;
    }
  }

  lemma BatchIsLeft(sh: Shape, file: Bytes, log: Log, vs: seq<Bytes>)
    requires ValidShape(sh) && Placed(sh, |log.data|) && vs != [] && forall k :: 0 <= k < |vs| ==> vs[k] != []
    requires |log.data| % sh.blockSize != 0 && log.data <= BatchEnd(sh, log, vs)
    requires LiesAt(file, Pos(sh, log), UpToBlock(sh, Pos(sh, log), BatchEnd(sh, log, vs)[|log.data|..]))
    ensures LeftThere(sh, file, log, vs[0])
  {
    hide Dump, BatchEnd;
    BatchStep(sh, log, vs, 0);
    BatchOnlyGrows(sh, log, vs, 1);
    BatchStarts(sh, log, vs);
    var d := Dump(sh, |log.data| % sh.blockSize, log.num, vs[0], false);
    var all := BatchEnd(sh, log, vs)[|log.data|..];
    assert Dumped(sh, log, vs[0])[|log.data|..] == d;
    assert d <= all;
    UpToBlockGrows(sh, Pos(sh, log), d, all);
    var a, b := UpToBlock(sh, Pos(sh, log), d), UpToBlock(sh, Pos(sh, log), all);
    BothLie(file, Pos(sh, log), a, b[|a|..]);
    DumpIsLeft(sh, file, log, vs[0]);
  }

  lemma UpToBlockGrows(sh: Shape, offset: nat, d: Bytes, all: Bytes)
    requires sh.blockSize > 0 && d <= all
    ensures UpToBlock(sh, offset, d) <= UpToBlock(sh, offset, all)
    ensures var a, b := UpToBlock(sh, offset, d), UpToBlock(sh, offset, all); b == a + b[|a|..]
  {
  }

  lemma BatchStarts(sh: Shape, log: Log, vs: seq<Bytes>)
    requires ValidShape(sh) && Placed(sh, |log.data|) && vs != [] && forall k :: 0 <= k < |vs| ==> vs[k] != []
    ensures vs[..0] == [] && BatchEnd(sh, log, vs[..0]) == log.data && PutAll(sh, log, vs[..0]) == log
    ensures Settled(sh, log.data) == log.data && |log.data| < |BatchEnd(sh, log, vs)|
  {
    hide Settled;
    SettledIsSame(sh, log.data);
    BatchStep(sh, log, vs, 0);
  }

  lemma BatchStep(sh: Shape, log: Log, vs: seq<Bytes>, i: nat)
    requires ValidShape(sh) && Placed(sh, |log.data|) && (forall k :: 0 <= k < |vs| ==> vs[k] != []) && i < |vs|
    ensures var p := PutAll(sh, log, vs[..i]);
      && BatchEnd(sh, log, vs[..i + 1]) == Dumped(sh, p, vs[i])
      && PutAll(sh, log, vs[..i + 1]) == PutTo(sh, p, vs[i])
      && |Dumped(sh, p, vs[i])| <= |BatchEnd(sh, log, vs)|
      && PutTo(sh, p, vs[i]).data == Settled(sh, Dumped(sh, p, vs[i]))
  {
    hide Dumped, Settled;
    assert vs[..i + 1][..i] == vs[..i];
    BatchOnlyGrows(sh, log, vs, i + 1);
  }

  lemma {:induction false} BatchEnds(sh: Shape, log: Log, vs: seq<Bytes>)
    requires ValidShape(sh) && Placed(sh, |log.data|) && forall k :: 0 <= k < |vs| ==> vs[k] != []
    requires BehindHead(sh, |log.data|)
    ensures BehindHead(sh, |BatchEnd(sh, log, vs)|)
    decreases |vs|
  {
    hide Dump, Settled;
    if vs != [] {
      var most := vs[..|vs| - 1];
      var p := PutAll(sh, log, most);
      BatchEnds(sh, log, most);
      BatchSettles(sh, log, most);
      Multiple(|BatchEnd(sh, log, most)|, sh.blockSize);
      DumpEnds(sh, |p.data|, p.num, vs[|vs| - 1], false);
    }
  }

  // The prediction for a batch is exact too.
  lemma {:induction false} BatchSize(sh: Shape, log: Log, vs: seq<Bytes>)
    requires ValidShape(sh) && Placed(sh, |log.data|) && forall k :: 0 <= k < |vs| ==> vs[k] != []
    ensures |BatchEnd(sh, log, vs)| == |log.data| + SizeAll(sh, |log.data| % sh.blockSize, vs)
    decreases |vs|
  {
    hide Dump, Settled, CalculateDumpSize;
    if vs != [] {
      var most, v := vs[..|vs| - 1], vs[|vs| - 1];
      var p, cur := PutAll(sh, log, most), |BatchEnd(sh, log, most)|;
      BatchSize(sh, log, most);
      BatchSettles(sh, log, most);
      DumpSizeIsExact(sh, |p.data| % sh.blockSize, p.num, v, false);
      SameInBlock(|log.data|, SizeAll(sh, |log.data| % sh.blockSize, most), sh.blockSize);
      Multiple(cur, sh.blockSize);
      DivUnique(0, sh.blockSize, 0, 0);
    }
  }

  lemma SameInBlock(pos: nat, n: nat, blockSize: nat)
    requires blockSize > 0
    ensures (pos % blockSize + n) % blockSize == (pos + n) % blockSize
  {
    Multiple(pos, blockSize);
    AddMultiple(pos % blockSize + n, blockSize, pos - pos % blockSize);
  }

  lemma BufferEnd(ioOffset: nat, offset: nat, maxBuf: nat, blockSize: nat)
    requires blockSize > 0 && ioOffset % blockSize == 0 && maxBuf % blockSize == 0 && ioOffset <= offset <= ioOffset + maxBuf
    ensures Up(offset - ioOffset, blockSize) <= maxBuf && Up(offset - ioOffset, blockSize) % blockSize == 0
    ensures Up(offset, blockSize) == ioOffset + Up(offset - ioOffset, blockSize)
  {
    AddMultiple(offset - ioOffset, blockSize, ioOffset);
    Multiple(offset - ioOffset, blockSize);
    UpOrdered(offset - ioOffset, maxBuf, blockSize);
  }

  lemma FlushLands(sh: Shape, start: nat, file: Bytes, f: Bytes, buf: Bytes, ioOffset: nat, offset: nat, stop: nat, end: nat)
    requires ValidShape(sh) && ioOffset <= |file| && 0 < offset && ioOffset <= offset && offset >= sh.blockSize
    requires stop <= end <= |buf| && ioOffset + stop <= |f| && ioOffset + end == Up(offset, sh.blockSize)
    requires f[..ioOffset] == file[..ioOffset] && f[ioOffset..ioOffset + stop] == buf[..stop]
    requires f[ioOffset + stop..] == if ioOffset + stop <= |file| then file[ioOffset + stop..] else []
    requires end - (offset - ioOffset) < HEADER || buf[offset - ioOffset + 6] == ZERO || buf[offset - ioOffset + 6] == FAKE
    ensures DataOf(f, buf, sh.blockSize, ioOffset, offset) == DataOf(file, buf, sh.blockSize, ioOffset, offset)
    ensures var up := Up(offset, sh.blockSize);
      NumberedIn(sh, file, up, |file|, -1, start) ==> NumberedIn(sh, f, up, |f|, -1, start)
    ensures stop == end ==> FlushedOf(f, buf, sh.blockSize, ioOffset, offset)
    ensures stop == end && NumberedIn(sh, file, Up(offset, sh.blockSize), |file|, -1, start) ==> CleanOf(sh, start, f, offset)
  {
    hide NumberedIn, Up, IsPad;
    var up := Up(offset, sh.blockSize);
    if NumberedIn(sh, file, up, |file|, -1, start) {
      StaleStays(sh, file, f, up, ioOffset + stop, up, start);
    }
    if stop == end {
      PadLands(sh, f, buf, ioOffset, offset, end);
    }
  }

  // The buffer in the file, and its last block closed there.
  lemma PadLands(sh: Shape, f: Bytes, buf: Bytes, ioOffset: nat, offset: nat, end: nat)
    requires ValidShape(sh) && ioOffset <= offset && end <= |buf| && ioOffset + end == Up(offset, sh.blockSize) <= |f|
    requires f[ioOffset..ioOffset + end] == buf[..end] && offset - ioOffset <= |buf|
    requires offset - ioOffset <= end
    requires end - (offset - ioOffset) < HEADER || buf[offset - ioOffset + 6] == ZERO || buf[offset - ioOffset + 6] == FAKE
    ensures buf[..offset - ioOffset] == f[ioOffset..offset]
    ensures offset % sh.blockSize != 0 ==> BlockEnd(offset, sh.blockSize) <= |f| && IsPad(sh, f, offset)
  {
    hide Up;
    var used := offset - ioOffset;
    NextIsUp(offset, sh.blockSize);
    PartOf(f, ioOffset, buf[..end], 0, used);
    assert buf[..end][0..used] == buf[..used];
    if end - used >= HEADER {
      assert f[offset + 6] == f[ioOffset..ioOffset + end][used + 6] == buf[..end][used + 6];
    }
  }

  lemma BufferSettles(sh: Shape, file: Bytes, buf: Bytes, ioOffset: nat, offset: nat, data: Bytes, d: Bytes, next: nat, end: nat)
    requires ValidShape(sh) && ioOffset % sh.blockSize == 0 && ioOffset <= |file| && ioOffset <= offset
    requires offset == 0 || offset >= sh.blockSize
    requires var pos := if offset == 0 then sh.blockSize else offset - ioOffset;
      && pos <= next <= end == Up(next, sh.blockSize) <= |buf| && buf[pos..next] == d
      && data == DataOf(file, buf, sh.blockSize, ioOffset, offset)
    requires end - next <= sh.minTail ==> buf[next..end] == Zeros(end - next)
    ensures var offset' := Settle(sh, ioOffset + next);
      && ioOffset + next <= offset' <= ioOffset + end && offset' >= sh.blockSize
      && DataOf(file, buf, sh.blockSize, ioOffset, offset') == Settled(sh, data + d)
  {
    var pos := if offset == 0 then sh.blockSize else offset - ioOffset;
    var offset' := Settle(sh, ioOffset + next);
    var to := offset' - ioOffset;
    SettlesInBlock(sh, ioOffset, next);
    DivUnique(sh.blockSize, sh.blockSize, 1, 0);
    SettlesInBlock(sh, sh.blockSize, |data| + |d|);
    Multiple(next, sh.blockSize);
    assert to == next || to == end;
    assert buf[..to] == buf[..pos] + buf[pos..next] + buf[next..to];
    assert Zeros(0) == [];
    DataBehind(file, buf, sh.blockSize, ioOffset, pos, to);
    if offset > 0 {
      assert DataOf(file, buf, sh.blockSize, ioOffset, offset) == (file[..ioOffset] + buf[..pos])[sh.blockSize..];
    } else {
      assert (file[..ioOffset] + buf[..pos])[sh.blockSize..] == [];
    }
    assert data + buf[pos..to] == data + d + buf[next..to];
  }

  lemma DataBehind(file: Bytes, buf: Bytes, blockSize: nat, ioOffset: nat, pos: nat, to: nat)
    requires ioOffset <= |file| && pos <= to <= |buf| && blockSize <= ioOffset + pos && ioOffset + to > 0
    ensures DataOf(file, buf, blockSize, ioOffset, ioOffset + to) ==
            (file[..ioOffset] + buf[..pos])[blockSize..] + buf[pos..to]
  {
    assert buf[..to] == buf[..pos] + buf[pos..to];
    assert file[..ioOffset] + buf[..to] == (file[..ioOffset] + buf[..pos]) + buf[pos..to];
  }

  lemma FewerBehind(sh: Shape, file: Bytes, offset: nat, offset': nat, start: nat)
    requires ValidShape(sh) && offset' >= sh.blockSize && offset' >= offset
    ensures NumberedIn(sh, file, Up(if offset == 0 then sh.blockSize else offset, sh.blockSize), |file|, -1, start) ==>
            NumberedIn(sh, file, Up(offset', sh.blockSize), |file|, -1, start)
  {
    UpOrdered(if offset == 0 then sh.blockSize else offset, offset', sh.blockSize);
  }

  lemma NewIsClean(sh: Shape, file: Bytes, announced: nat, start: nat)
    requires ValidShape(sh)
    ensures file == [] || (announced <= start && NumberedIn(sh, file, sh.blockSize, |file|, -1, announced)) ==>
      CleanOf(sh, start, file, 0)
  {
    DivUnique(sh.blockSize, sh.blockSize, 1, 0);
    if announced <= start && NumberedIn(sh, file, sh.blockSize, |file|, -1, announced) {
      NumberedMore(sh, file, sh.blockSize, |file|, -1, -1, announced, start);
    }
  }

  // What a clean log in a file is to a reader: nothing follows it.
  lemma CleanEnds(sh: Shape, start: nat, file: Bytes, offset: nat)
    requires ValidShape(sh) && |file| % sh.blockSize == 0 && offset >= sh.blockSize
    requires CleanOf(sh, start, file, offset) && Up(offset, sh.blockSize) <= |file|
    ensures EndsAt(sh, start, file, offset)
  {
    Multiple(offset, sh.blockSize);
    if Up(offset, sh.blockSize) < |file| {
      assert HasHead(sh, file, Up(offset, sh.blockSize), -1, start);
    }
  }

  lemma StopsAtBlock(begin: nat, blocks: nat, blockSize: nat)
    requires blockSize > 0 && begin % blockSize == 0
    ensures (begin + Times(blocks, blockSize)) % blockSize == 0
  {
    ModOfProduct(blocks, blockSize);
    AddMultiple(begin, blockSize, Times(blocks, blockSize));
  }
}
