/**
  The reader of PaxosKV's block log: loops over records and blocks that put a value together, and
  the scan of block numbers.  Each is tied to the function of modules BlockFormat and BlockLog
  that says what it finds; ok is false when an assertion of the program fails.
 */
module BlockReader {
  import opened Arithmetic
  import opened BlockFormat
  import opened BlockLog

  function CodeOf(why: Failure): int {
    match why
    case UnexpectedType1 => -100
    case UnexpectedType2 => -101
    case BrokenRecord => -102
    case BlockMetaMissing => -497
    case UnexpectedBlockMeta => -498
    case DeprecatedBlock => -1000
    case UnexpectedEof => -1002
  }

  const END := 1
  const MORE := 2

  // What a code and a value say, as the reading function puts it.
  ghost predicate Says(r: ReadResult, ok: bool, code: int, value: Bytes, next: nat) {
    match r
    case Value(v, n) => ok && code == 0 && value == v && next == n
    case Eof => ok && code == END
    case Failed(why) => ok && code == CodeOf(why)
    case Assertion => !ok
  }

  class DirectIOReadInfo {
    const sh: Shape
    const startSeq: nat
    const file: Bytes
    var offset: nat

    ghost predicate Valid()
      reads this
    {
      ValidShape(sh) && |file| % sh.blockSize == 0 && 0 < startSeq
    }

    constructor (sh: Shape, startSeq: nat, file: Bytes)
      requires ValidShape(sh) && |file| % sh.blockSize == 0 && 0 < startSeq
      ensures Valid() && this.sh == sh && this.startSeq == startSeq && this.file == file && offset == sh.blockSize
    {
      this.sh, this.startSeq, this.file, offset := sh, startSeq, file, sh.blockSize;
    }

    // The records of one block, until a value is complete or the block is over.
    method PickleLevelDBLogBlock(pos: nat, end: nat, value0: Bytes)
      returns (ok: bool, code: int, value: Bytes, next: nat)
      requires Valid() && pos < end == BlockEnd(pos, sh.blockSize) <= |file|
      ensures ok && code == MORE ==>
        next == end && Read(sh, startSeq, file, pos, value0 != [], value0) == Read(sh, startSeq, file, end, value != [], value)
      ensures !(ok && code == MORE) ==> Says(Read(sh, startSeq, file, pos, value0 != [], value0), ok, code, value, next)
    {
      hide Pickle, Check;
      var partial := value0 != [];
      value, next := value0, pos;
      ghost var all := Read(sh, startSeq, file, pos, partial, value0);
      Multiple(pos, sh.blockSize);
      while next < end
        invariant pos <= next <= end && (next < end ==> BlockEnd(next, sh.blockSize) == end)
        invariant all == Read(sh, startSeq, file, next, if next < end then partial else value != [], value)
      {
        var r := Pickle(sh, file, next);
        var verdict := Check(startSeq, r, next % sh.blockSize == 0, partial);
        if verdict.Bad? {
          return true, CodeOf(verdict.why), value, next;
        }
        if verdict.Stuck? || (IsValueKind(r.kind) && r.payload == []) {
          return false, 0, value, next;
        }
        if IsValueKind(r.kind) {
          value := value + r.payload;
        }
        if r.next < end {
          InBlock(next, r.next - next, sh.blockSize);
        }
        next := r.next;
        if verdict.complete {
          return true, 0, value, next;
        }
      }
      return true, MORE, value, next;
    }

    // One value, over as many blocks as it takes.
    method DirectIOReadImpl() returns (ok: bool, code: int, value: Bytes, next: nat)
      requires Valid()
      ensures offset >= MAX_FILE ==> ok && code == END
      ensures offset < MAX_FILE ==> Says(ReadAt(sh, startSeq, file, offset), ok, code, value, next)
    {
      hide Pickle, Check;
      value, next := [], offset;
      if MAX_FILE <= offset || offset > |file| {
        return true, END, [], offset;
      }
      var pos := offset;
      while pos < |file|
        invariant pos <= |file| && (pos > offset ==> pos % sh.blockSize == 0)
        invariant ReadAt(sh, startSeq, file, offset) == Read(sh, startSeq, file, pos, value != [], value)
      {
        EndFits(file, pos, sh.blockSize);
        Multiple(pos, sh.blockSize);
        var end := BlockEnd(pos, sh.blockSize);
        ok, code, value, next := PickleLevelDBLogBlock(pos, end, value);
        if !ok || code != MORE {
          return;
        }
        pos := end;
      }
      if value == [] {
        return true, END, [], pos;
      }
      return true, CodeOf(UnexpectedEof), value, pos;
    }

    // Read on.  A block of an earlier generation ends the log like the end of the file does.
    method DirectIORead() returns (ok: bool, code: int, value: Bytes, at: nat)
      requires Valid()
      modifies this`offset
      ensures at == old(offset)
      ensures old(offset) >= MAX_FILE ==> ok && code == END && offset == old(offset)
      ensures old(offset) < MAX_FILE ==>
        match ReadAt(sh, startSeq, file, old(offset)) {
          case Value(v, next) => ok && code == 0 && value == v && offset == next
          case Eof => ok && code == END && offset == old(offset)
          case Failed(why) =>
            ok && code == (if why == DeprecatedBlock then END else CodeOf(why)) && offset == old(offset)
          case Assertion => !ok
        }
    {
      hide Read;
      var next;
      at := offset;
      ok, code, value, next := DirectIOReadImpl();
      if ok && code == 0 {
        offset := next;
      } else if ok && code == CodeOf(DeprecatedBlock) {
        code := END;
      }
    }

    // Read the value at an offset that a writer gave out; 0 stands for the first data block.
    method DirectIOReadAt(from: nat) returns (ok: bool, code: int, value: Bytes, next: nat)
      requires Valid()
      modifies this`offset
      ensures next == offset
      ensures var at := if from == 0 then sh.blockSize else from;
        if at >= MAX_FILE then ok && code == END && offset == at
        else match ReadAt(sh, startSeq, file, at) {
          case Value(v, n) => ok && code == 0 && value == v && offset == n
          case Eof => ok && code == END && offset == at
          case Failed(why) => ok && code == (if why == DeprecatedBlock then END else CodeOf(why)) && offset == at
          case Assertion => !ok
        }
    {
      hide Read;
      offset := if from == 0 then sh.blockSize else from;
      var at;
      ok, code, value, at := DirectIORead();
      next := offset;
    }

    // The first block that is not of this generation, and the number of the last that is.
    method ScanBlockMetaInfo() returns (ok: bool, num: nat, pos: nat)
      requires Valid()
      ensures match ScanFile(sh, startSeq, file)
        case Found(n, p) => ok && num == n && pos == p
        case ScanAssertion => !ok
    {
      hide Pickle;
      DivUnique(sh.blockSize, sh.blockSize, 1, 0);
      num, pos := startSeq, sh.blockSize;
      while pos < |file|
        invariant pos % sh.blockSize == 0
        invariant ScanFile(sh, startSeq, file) == Scan(sh, startSeq, file, pos, num)
        decreases |file| - pos
      {
        EndFits(file, pos, sh.blockSize);
        AddMultiple(pos, sh.blockSize, sh.blockSize);
        var r := Pickle(sh, file, pos);
        if r.next == pos + sh.blockSize || (r.kind == BLOCK_META && |r.payload| < 9) {
          return false, num, pos;
        }
        if r.kind == BLOCK_META {
          if IsDeprecated(startSeq, FromLE(r.payload[1..9])) {
            return true, num, pos;
          }
          num := FromLE(r.payload[1..9]);
        }
        pos := pos + sh.blockSize;
      }
      return true, num, pos;
    }
  }
}
