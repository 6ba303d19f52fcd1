/**
  The format of PaxosKV's direct-I/O log: records framed by a checksum, a length and a kind;
  values cut into records that never cross a block; every data block headed by its sequence
  number.  The checksum is any function of the bytes.
 */
module BlockFormat {
  import opened Arithmetic

  type Byte = b: nat | b < 256
  type Bytes = seq<Byte>

  const HEADER := 7
  const META_RECORD := 16                // a record of one byte and a sequence number
  const MIN_TAIL := 35
  const MAX_FILE := 0x4000_0000
  const SEQ_PER_FILE := MAX_FILE / 4096 * 2

  const ZERO: Byte := 0
  const FULL: Byte := 1
  const FIRST: Byte := 2
  const MIDDLE: Byte := 3
  const LAST: Byte := 4
  const BLOCK_META: Byte := 10
  const FAKE: Byte := 11
  const BROKEN: Byte := 255

  datatype Shape = Shape(blockSize: nat, minTail: nat, crc: Bytes -> nat)

  // Blocks hold at least a page, and at most what the two length bytes of a record can say.
  ghost predicate ValidShape(sh: Shape) {
    4096 <= sh.blockSize <= 0x1_0000 && MIN_TAIL <= sh.minTail < sh.blockSize
  }

  // ---- bytes ----

  function Span(k: nat): nat {
    if k == 0 then 1 else 256 * Span(k - 1)
  }

  function LE(n: nat, k: nat): (s: Bytes)
    ensures |s| == k
  {
    if k == 0 then [] else [n % 256] + LE(n / 256, k - 1)
  }

  function FromLE(s: Bytes): nat {
    if s == [] then 0 else s[0] + 256 * FromLE(s[1..])
  }

  lemma {:induction false} LEBack(n: nat, k: nat)
    requires n < Span(k)
    ensures FromLE(LE(n, k)) == n
  {
    if k > 0 {
      LEBack(n / 256, k - 1);
      assert LE(n, k)[1..] == LE(n / 256, k - 1);
    }
  }

  function Zeros(n: nat): (s: Bytes)
    ensures |s| == n
  {
    seq(n, _ => 0)
  }

  function BlockEnd(pos: nat, blockSize: nat): (e: nat)
    requires blockSize > 0
    ensures pos < e <= pos + blockSize
  {
    pos - pos % blockSize + blockSize
  }

  // The block boundary at or after a position.
  function Up(pos: nat, blockSize: nat): (u: nat)
    requires blockSize > 0
    ensures pos <= u < pos + blockSize
  {
    if pos % blockSize == 0 then pos else BlockEnd(pos, blockSize)
  }

  lemma Multiple(pos: nat, blockSize: nat)
    requires blockSize > 0
    ensures (pos - pos % blockSize) % blockSize == 0
    ensures BlockEnd(pos, blockSize) % blockSize == 0 && Up(pos, blockSize) % blockSize == 0
  {
    var q, r := pos / blockSize, pos % blockSize;
    assert pos == q * blockSize + r;
    ModOfProduct(q, blockSize);
    ModOfProduct(q + 1, blockSize);
    OneMore(q, blockSize);
  }

  // The program's own rounding gives the same.
  lemma UpIsAligned(pos: nat, blockSize: nat)
    requires blockSize > 0
    ensures (pos + blockSize - 1) / blockSize * blockSize == Up(pos, blockSize)
  {
    var q, r := pos / blockSize, pos % blockSize;
    assert pos == q * blockSize + r;
    OneMore(q, blockSize);
    if r == 0 {
      DivUnique(pos + blockSize - 1, blockSize, q, blockSize - 1);
    } else {
      DivUnique(pos + blockSize - 1, blockSize, q + 1, r - 1);
    }
  }

  // ---- records ----

  function Frame(sh: Shape, kind: Byte, payload: Bytes): (f: Bytes)
    requires |payload| <= 0xFFFF
    ensures |f| == HEADER + |payload|
  {
    LE(sh.crc([kind] + payload), 4) + LE(|payload|, 2) + [kind] + payload
  }

  function Meta(sh: Shape, num: nat): (f: Bytes)
    ensures |f| == META_RECORD
  {
    Frame(sh, BLOCK_META, [0] + LE(num, 8))
  }

  // How many bytes of a value fit in the block from this offset in it.
  function Room(sh: Shape, at: nat): nat
    requires ValidShape(sh) && at + HEADER < sh.blockSize
  {
    if at == 0 then sh.blockSize - META_RECORD - HEADER else sh.blockSize - at - HEADER
  }

  function Kind(last: bool, started: bool): Byte {
    if last then (if started then LAST else FULL) else if started then MIDDLE else FIRST
  }

  // Where a value's own record starts, and the number its block has.
  function Behind(at: nat, pos: nat): nat {
    if at == 0 then pos + META_RECORD else pos
  }

  function Headed(at: nat, num: nat): nat {
    if at == 0 then num + 1 else num
  }

  // What one record adds to a block: first the block's own head, when it starts the block.
  function Piece(sh: Shape, at: nat, num: nat, kind: Byte, payload: Bytes): (d: Bytes)
    requires |payload| <= 0xFFFF
    ensures |d| == Behind(at, HEADER + |payload|)
  {
    (if at == 0 then Meta(sh, num + 1) else []) + Frame(sh, kind, payload)
  }

  // The bytes of a value that starts at an offset in a block; num is the number of the block
  // headed last.
  function Dump(sh: Shape, at: nat, num: nat, v: Bytes, started: bool): (d: Bytes)
    requires ValidShape(sh) && at + sh.minTail < sh.blockSize && v != []
    ensures |d| > |v|
    decreases |v|
  {
    var room := Room(sh, at);
    if |v| <= room then Piece(sh, at, num, Kind(true, started), v)
    else Piece(sh, at, num, Kind(false, started), v[..room]) + Dump(sh, 0, Headed(at, num), v[room..], true)
  }

  // The blocks headed by a value of n bytes.
  function Heads(sh: Shape, at: nat, n: nat): nat
    requires ValidShape(sh) && at + sh.minTail < sh.blockSize
    decreases n
  {
    var own := if at == 0 then 1 else 0;
    if n <= Room(sh, at) then own else own + Heads(sh, 0, n - Room(sh, at))
  }

  // ---- sizes ----

  // The size of a dump as the program predicts it, without dumping.
  function CalculateDumpSize(sh: Shape, at: nat, n: nat): nat
    requires ValidShape(sh) && at + sh.minTail < sh.blockSize
  {
    if n == 0 then 0
    else if at == 0 then WholeBlocksSize(sh, n)
    else
      var tail := sh.blockSize - at;
      if n <= tail - HEADER then n + HEADER else tail + WholeBlocksSize(sh, n - (tail - HEADER))
  }

  function WholeBlocksSize(sh: Shape, n: nat): nat
    requires ValidShape(sh)
  {
    var most := sh.blockSize - META_RECORD - HEADER;
    var rest := n % most;
    Times(Quotient(n, most), sh.blockSize) + if rest > 0 then META_RECORD + HEADER + rest else 0
  }

  function Times(a: nat, b: nat): nat {
    a * b
  }

  lemma WholeBlocksSizeSteps(sh: Shape, n: nat)
    requires ValidShape(sh) && n > 0
    ensures var most := sh.blockSize - META_RECORD - HEADER;
      WholeBlocksSize(sh, n) ==
        if n <= most then META_RECORD + HEADER + n else sh.blockSize + WholeBlocksSize(sh, n - most)
  {
    var most := sh.blockSize - META_RECORD - HEADER;
    if n < most {
      DivUnique(n, most, 0, n);
    } else {
      DivPast(n, most);
      OneMore((n - most) / most, sh.blockSize);
      if n == most {
        DivUnique(0, most, 0, 0);
      }
    }
  }

  lemma {:induction false} WholeBlocksSizeIsExact(sh: Shape, num: nat, v: Bytes, started: bool)
    requires ValidShape(sh) && v != []
    ensures |Dump(sh, 0, num, v, started)| == WholeBlocksSize(sh, |v|)
    decreases |v|
  {
    hide Piece, WholeBlocksSize;
    var most := sh.blockSize - META_RECORD - HEADER;
    WholeBlocksSizeSteps(sh, |v|);
    if |v| > most {
      WholeBlocksSizeIsExact(sh, num + 1, v[most..], true);
    }
  }

  // The prediction is exact for every offset and every length.
  lemma DumpSizeIsExact(sh: Shape, at: nat, num: nat, v: Bytes, started: bool)
    requires ValidShape(sh) && at + sh.minTail < sh.blockSize && v != []
    ensures |Dump(sh, at, num, v, started)| == CalculateDumpSize(sh, at, |v|)
  {
    if at == 0 {
      WholeBlocksSizeIsExact(sh, num, v, started);
    } else if |v| > Room(sh, at) {
      WholeBlocksSizeIsExact(sh, num, v[Room(sh, at)..], true);
    }
  }

  // ---- reading records ----

  datatype Pickled = Pickled(kind: Byte, payload: Bytes, next: nat)

  // The record at a position, as far as its block allows.
  function Pickle(sh: Shape, file: Bytes, pos: nat): (r: Pickled)
    requires ValidShape(sh) && BlockEnd(pos, sh.blockSize) <= |file|
    ensures pos < r.next <= BlockEnd(pos, sh.blockSize)
  {
    var end := BlockEnd(pos, sh.blockSize);
    var tail := end - pos;
    if tail < HEADER then Pickled(ZERO, [], end)
    else
      var kind := file[pos + 6];
      var len := FromLE(file[pos + 4..pos + 6]);
      if kind == ZERO || kind == FAKE then Pickled(kind, [], end)
      else if HEADER + len > tail then Pickled(BROKEN, [], end)
      else if file[pos..pos + 4] != LE(sh.crc(file[pos + 6..pos + HEADER + len]), 4) then Pickled(BROKEN, [], end)
      else Pickled(kind, file[pos + HEADER..pos + HEADER + len], pos + HEADER + len)
  }

  predicate IsDeprecated(start: nat, num: nat) {
    start >= num
  }

  datatype Failure =
    | BlockMetaMissing | UnexpectedType1 | UnexpectedType2 | UnexpectedBlockMeta
    | DeprecatedBlock | BrokenRecord | UnexpectedEof

  datatype Verdict = Fine(complete: bool) | Bad(why: Failure) | Stuck

  // What a record means where it was found.  Stuck: an assertion of the program fails.
  function Check(start: nat, r: Pickled, head: bool, partial: bool): Verdict {
    if head && r.kind != BLOCK_META then Bad(BlockMetaMissing)
    else if partial && r.kind != BLOCK_META && r.kind != MIDDLE && r.kind != LAST then Bad(UnexpectedType1)
    else if r.kind == FULL then Fine(true)
    else if r.kind == FIRST then Fine(false)
    else if r.kind == MIDDLE then if partial then Fine(false) else Bad(UnexpectedType2)
    else if r.kind == LAST then if partial then Fine(true) else Bad(UnexpectedType2)
    else if r.kind == BLOCK_META then
      if !head then Bad(UnexpectedBlockMeta)
      else if |r.payload| < 9 then Stuck
      else if IsDeprecated(start, FromLE(r.payload[1..9])) then Bad(DeprecatedBlock)
      else Fine(false)
    else if r.kind == ZERO || r.kind == FAKE then Fine(false)
    else Bad(BrokenRecord)
  }

  predicate IsValueKind(kind: Byte) {
    FULL <= kind <= LAST
  }

  datatype ReadResult = Value(value: Bytes, next: nat) | Eof | Failed(why: Failure) | Assertion

  // Read one value from a position on.  Whether a value is already under way is looked at when
  // a block is entered.
  function Read(sh: Shape, start: nat, file: Bytes, pos: nat, partial: bool, acc: Bytes): ReadResult
    requires ValidShape(sh) && |file| % sh.blockSize == 0 && pos <= |file|
    decreases |file| - pos
  {
    if pos == |file| then (if acc == [] then Eof else Failed(UnexpectedEof))
    else
      EndFits(file, pos, sh.blockSize);
      var r := Pickle(sh, file, pos);
      match Check(start, r, pos % sh.blockSize == 0, partial)
      case Bad(why) => Failed(why)
      case Stuck => Assertion
      case Fine(complete) =>
        if IsValueKind(r.kind) && r.payload == [] then Assertion
        else
          var acc' := if IsValueKind(r.kind) then acc + r.payload else acc;
          if complete then Value(acc', r.next)
          else Read(sh, start, file, r.next, if r.next % sh.blockSize == 0 then acc' != [] else partial, acc')
  }

  lemma EndFits(file: Bytes, pos: nat, blockSize: nat)
    requires blockSize > 0 && |file| % blockSize == 0 && pos < |file|
    ensures BlockEnd(pos, blockSize) <= |file|
  {
    var q, e := pos / blockSize, |file| / blockSize;
    assert pos == q * blockSize + pos % blockSize && |file| == e * blockSize;
    NextProduct(q, e, blockSize);
    NextProduct(e, q, blockSize);
  }

  // ---- what was dumped is what is read ----

  lemma PartOf(file: Bytes, pos: nat, f: Bytes, i: nat, j: nat)
    requires pos + |f| <= |file| && file[pos..pos + |f|] == f && i <= j <= |f|
    ensures file[pos + i..pos + j] == f[i..j]
  {
    var a, b := file[pos + i..pos + j], f[i..j];
    forall k | 0 <= k < j - i ensures a[k] == b[k] {
      assert file[pos..pos + |f|][i + k] == f[i + k];
    }
  }

  lemma Parts(a: Bytes, b: Bytes, kind: Byte, c: Bytes)
    requires |a| == 4 && |b| == 2
    ensures var f := a + b + [kind] + c;
      f[..4] == a && f[4..6] == b && f[6] == kind && f[6..] == [kind] + c && f[7..] == c
  {
  }

  lemma FrameParts(sh: Shape, kind: Byte, payload: Bytes)
    requires |payload| <= 0xFFFF
    ensures var f := Frame(sh, kind, payload);
      && f[..4] == LE(sh.crc([kind] + payload), 4) && f[4..6] == LE(|payload|, 2)
      && f[6] == kind && f[6..] == [kind] + payload && f[HEADER..] == payload
  {
    Parts(LE(sh.crc([kind] + payload), 4), LE(|payload|, 2), kind, payload);
  }

  lemma LengthBack(n: nat)
    requires n <= 0xFFFF
    ensures FromLE(LE(n, 2)) == n
  {
    assert Span(2) == 0x1_0000;
    LEBack(n, 2);
  }

  lemma FrameReads(sh: Shape, file: Bytes, pos: nat, kind: Byte, payload: Bytes)
    requires ValidShape(sh) && |payload| <= 0xFFFF && kind != ZERO && kind != FAKE
    requires BlockEnd(pos, sh.blockSize) <= |file| && pos + HEADER + |payload| <= BlockEnd(pos, sh.blockSize)
    requires file[pos..pos + HEADER + |payload|] == Frame(sh, kind, payload)
    ensures Pickle(sh, file, pos) == Pickled(kind, payload, pos + HEADER + |payload|)
  {
    var f := Frame(sh, kind, payload);
    FrameParts(sh, kind, payload);
    LengthBack(|payload|);
    PartOf(file, pos, f, 0, 4);
    PartOf(file, pos, f, 4, 6);
    PartOf(file, pos, f, 6, 7);
    assert file[pos + 6] == file[pos + 6..pos + 7][0] == f[6..7][0];
    PartOf(file, pos, f, 6, |f|);
    PartOf(file, pos, f, HEADER, |f|);
  }

  lemma MetaReads(sh: Shape, start: nat, file: Bytes, pos: nat, num: nat)
    requires ValidShape(sh) && pos % sh.blockSize == 0 && pos + sh.blockSize <= |file|
    requires num < Span(8) && file[pos..pos + META_RECORD] == Meta(sh, num)
    ensures Pickle(sh, file, pos).kind == BLOCK_META && Pickle(sh, file, pos).next == pos + META_RECORD
    ensures |Pickle(sh, file, pos).payload| == 9 && FromLE(Pickle(sh, file, pos).payload[1..9]) == num
  {
    FrameReads(sh, file, pos, BLOCK_META, [0] + LE(num, 8));
    LEBack(num, 8);
    assert ([0] + LE(num, 8))[1..9] == LE(num, 8);
  }

  lemma InBlock(pos: nat, k: nat, blockSize: nat)
    requires blockSize > 0 && pos + k < BlockEnd(pos, blockSize)
    ensures BlockEnd(pos + k, blockSize) == BlockEnd(pos, blockSize) && (pos + k) % blockSize == pos % blockSize + k
  {
    var q, r := pos / blockSize, pos % blockSize;
    assert pos + k == q * blockSize + (r + k);
    DivUnique(pos + k, blockSize, q, r + k);
  }

  // Reading a block's head goes on behind it.
  lemma HeadIsPassed(sh: Shape, start: nat, file: Bytes, pos: nat, num: nat, partial: bool, acc: Bytes)
    requires ValidShape(sh) && |file| % sh.blockSize == 0 && pos % sh.blockSize == 0 && pos + sh.blockSize <= |file|
    requires start < num < Span(8) && file[pos..pos + META_RECORD] == Meta(sh, num)
    ensures Read(sh, start, file, pos, partial, acc) == Read(sh, start, file, pos + META_RECORD, partial, acc)
  {
    MetaReads(sh, start, file, pos, num);
    InBlock(pos, META_RECORD, sh.blockSize);
  }

  // Where bytes lie in a file.
  ghost predicate LiesAt(file: Bytes, pos: nat, d: Bytes) {
    pos + |d| <= |file| && file[pos..pos + |d|] == d
  }

  lemma BothLie(file: Bytes, pos: nat, a: Bytes, b: Bytes)
    ensures LiesAt(file, pos, a + b) <==> LiesAt(file, pos, a) && LiesAt(file, pos + |a|, b)
  {
    if pos + |a| + |b| <= |file| {
      var x, y := file[pos..pos + |a|], file[pos + |a|..pos + |a| + |b|];
      assert file[pos..pos + |a + b|] == x + y;
      assert (x + y)[..|a|] == x && (x + y)[|a|..] == y;
      assert (a + b)[..|a|] == a && (a + b)[|a|..] == b;
    }
  }

  // One record of a value, behind the head of its block: the last of a value ends the reading,
  // any other leads to the next block.
  lemma RecordIsRead(sh: Shape, start: nat, file: Bytes, pos: nat, last: bool, payload: Bytes, acc: Bytes)
    requires ValidShape(sh) && |file| % sh.blockSize == 0 && pos < |file| && pos % sh.blockSize != 0
    requires 0 < |payload| <= 0xFFFF && pos + HEADER + |payload| <= BlockEnd(pos, sh.blockSize) <= |file|
    requires LiesAt(file, pos, Frame(sh, Kind(last, acc != []), payload))
    requires !last ==> pos + HEADER + |payload| == BlockEnd(pos, sh.blockSize)
    ensures Read(sh, start, file, pos, acc != [], acc) ==
      if last then Value(acc + payload, pos + HEADER + |payload|)
      else Read(sh, start, file, BlockEnd(pos, sh.blockSize), true, acc + payload)
  {
    FrameReads(sh, file, pos, Kind(last, acc != []), payload);
    Multiple(pos, sh.blockSize);
  }

  // The head of the block, where there is one, is passed.
  lemma ToRecord(sh: Shape, start: nat, file: Bytes, pos: nat, num: nat, acc: Bytes)
    requires ValidShape(sh) && |file| % sh.blockSize == 0 && pos < |file|
    requires pos % sh.blockSize + sh.minTail < sh.blockSize && start <= num && num + 1 < Span(8)
    requires pos % sh.blockSize == 0 ==> LiesAt(file, pos, Meta(sh, num + 1))
    ensures var at := pos % sh.blockSize; var at' := Behind(at, pos);
      && BlockEnd(pos, sh.blockSize) <= |file|
      && at' < |file| && at' % sh.blockSize != 0 && BlockEnd(at', sh.blockSize) == BlockEnd(pos, sh.blockSize)
      && at' + HEADER + Room(sh, at) == BlockEnd(pos, sh.blockSize)
      && Read(sh, start, file, pos, acc != [], acc) == Read(sh, start, file, at', acc != [], acc)
  {
    EndFits(file, pos, sh.blockSize);
    if pos % sh.blockSize == 0 {
      HeadIsPassed(sh, start, file, pos, num + 1, acc != [], acc);
      InBlock(pos, META_RECORD, sh.blockSize);
    }
  }

  lemma PieceLies(sh: Shape, file: Bytes, pos: nat, at: nat, num: nat, kind: Byte, payload: Bytes)
    requires |payload| <= 0xFFFF && LiesAt(file, pos, Piece(sh, at, num, kind, payload))
    ensures at == 0 ==> LiesAt(file, pos, Meta(sh, num + 1))
    ensures LiesAt(file, Behind(at, pos), Frame(sh, kind, payload))
  {
    BothLie(file, pos, if at == 0 then Meta(sh, num + 1) else [], Frame(sh, kind, payload));
  }

  // One record is read: the last of a value ends the reading, any other leads to the next block.
  lemma PieceReads(sh: Shape, start: nat, file: Bytes, pos: nat, num: nat, payload: Bytes, last: bool, acc: Bytes)
    requires ValidShape(sh) && |file| % sh.blockSize == 0 && pos < |file|
    requires pos % sh.blockSize + sh.minTail < sh.blockSize && start <= num && num + 1 < Span(8)
    requires 0 < |payload| <= Room(sh, pos % sh.blockSize) && (!last ==> |payload| == Room(sh, pos % sh.blockSize))
    requires LiesAt(file, pos, Piece(sh, pos % sh.blockSize, num, Kind(last, acc != []), payload))
    ensures BlockEnd(pos, sh.blockSize) <= |file|
    ensures Read(sh, start, file, pos, acc != [], acc) ==
      if last then Value(acc + payload, Behind(pos % sh.blockSize, pos) + HEADER + |payload|)
      else Read(sh, start, file, BlockEnd(pos, sh.blockSize), true, acc + payload)
  {
    hide Read, Frame, Meta;
    PieceLies(sh, file, pos, pos % sh.blockSize, num, Kind(last, acc != []), payload);
    ToRecord(sh, start, file, pos, num, acc);
    RecordIsRead(sh, start, file, Behind(pos % sh.blockSize, pos), last, payload, acc);
  }

  lemma DumpLies(sh: Shape, file: Bytes, pos: nat, num: nat, v: Bytes, started: bool)
    requires ValidShape(sh) && pos % sh.blockSize + sh.minTail < sh.blockSize
    requires |v| > Room(sh, pos % sh.blockSize)
    requires LiesAt(file, pos, Dump(sh, pos % sh.blockSize, num, v, started))
    ensures var at := pos % sh.blockSize; var room := Room(sh, at); var next := BlockEnd(pos, sh.blockSize);
      var rest := Dump(sh, 0, Headed(at, num), v[room..], true);
      && LiesAt(file, pos, Piece(sh, at, num, Kind(false, started), v[..room]))
      && LiesAt(file, next, rest) && pos + |Dump(sh, at, num, v, started)| == next + |rest|
  {
    var at := pos % sh.blockSize;
    var room := Room(sh, at);
    BothLie(file, pos, Piece(sh, at, num, Kind(false, started), v[..room]),
            Dump(sh, 0, Headed(at, num), v[room..], true));
  }

  lemma CutReads(sh: Shape, start: nat, file: Bytes, pos: nat, num: nat, v: Bytes, acc: Bytes)
    requires ValidShape(sh) && |file| % sh.blockSize == 0
    requires pos % sh.blockSize + sh.minTail < sh.blockSize && start <= num && num + 1 < Span(8)
    requires |v| > Room(sh, pos % sh.blockSize)
    requires LiesAt(file, pos, Dump(sh, pos % sh.blockSize, num, v, acc != []))
    ensures var at := pos % sh.blockSize; var room := Room(sh, at); var next := BlockEnd(pos, sh.blockSize);
      var rest := Dump(sh, 0, Headed(at, num), v[room..], true);
      && next % sh.blockSize == 0 && next <= |file| && LiesAt(file, next, rest)
      && pos + |Dump(sh, at, num, v, acc != [])| == next + |rest|
      && Read(sh, start, file, pos, acc != [], acc) == Read(sh, start, file, next, acc + v[..room] != [], acc + v[..room])
  {
    DumpLies(sh, file, pos, num, v, acc != []);
    PieceReads(sh, start, file, pos, num, v[..Room(sh, pos % sh.blockSize)], false, acc);
    Multiple(pos, sh.blockSize);
  }

  lemma WholeReads(sh: Shape, start: nat, file: Bytes, pos: nat, num: nat, v: Bytes, acc: Bytes)
    requires ValidShape(sh) && |file| % sh.blockSize == 0 && v != []
    requires pos % sh.blockSize + sh.minTail < sh.blockSize && start <= num && num + 1 < Span(8)
    requires |v| <= Room(sh, pos % sh.blockSize)
    requires LiesAt(file, pos, Dump(sh, pos % sh.blockSize, num, v, acc != []))
    ensures Read(sh, start, file, pos, acc != [], acc) ==
      Value(acc + v, pos + |Dump(sh, pos % sh.blockSize, num, v, acc != [])|)
  {
    PieceReads(sh, start, file, pos, num, v, true, acc);
  }

  // The bytes of a value below the end of the file read back as the value, whatever is around.
  lemma {:induction false} DumpReads(sh: Shape, start: nat, file: Bytes, pos: nat, num: nat, v: Bytes, acc: Bytes)
    requires ValidShape(sh) && |file| % sh.blockSize == 0 && v != []
    requires pos % sh.blockSize + sh.minTail < sh.blockSize && start <= num && num + |v| + 1 < Span(8)
    requires LiesAt(file, pos, Dump(sh, pos % sh.blockSize, num, v, acc != []))
    ensures Read(sh, start, file, pos, acc != [], acc) ==
      Value(acc + v, pos + |Dump(sh, pos % sh.blockSize, num, v, acc != [])|)
    decreases |v|
  {
    hide Piece, Read, LiesAt;
    var at := pos % sh.blockSize;
    var room := Room(sh, at);
    if |v| <= room {
      WholeReads(sh, start, file, pos, num, v, acc);
    } else {
      var next, acc', v' := BlockEnd(pos, sh.blockSize), acc + v[..room], v[room..];
      CutReads(sh, start, file, pos, num, v, acc);
      DumpReads(sh, start, file, next, Headed(at, num), v', acc');
      Regroup(acc, v, room);
    }
  }

  lemma Regroup(a: Bytes, v: Bytes, k: nat)
    requires k <= |v|
    ensures (a + v[..k]) + v[k..] == a + v
  {
  }

  // ---- padding ----

  // The rest of the block from here on says nothing to a reader.
  predicate IsPad(sh: Shape, file: Bytes, pos: nat)
    requires ValidShape(sh) && BlockEnd(pos, sh.blockSize) <= |file|
  {
    BlockEnd(pos, sh.blockSize) - pos < HEADER || file[pos + 6] == ZERO || file[pos + 6] == FAKE
  }

  lemma PadIsSkipped(sh: Shape, start: nat, file: Bytes, pos: nat)
    requires ValidShape(sh) && |file| % sh.blockSize == 0 && pos < |file| && pos % sh.blockSize != 0
    requires BlockEnd(pos, sh.blockSize) <= |file| && IsPad(sh, file, pos)
    ensures Read(sh, start, file, pos, false, []) ==
            Read(sh, start, file, BlockEnd(pos, sh.blockSize), false, [])
  {
    Multiple(pos, sh.blockSize);
  }

  // ---- blocks and their numbers ----

  lemma UpInBlock(pos: nat, x: nat, blockSize: nat)
    requires blockSize > 0 && pos < x <= BlockEnd(pos, blockSize)
    ensures Up(x, blockSize) == BlockEnd(pos, blockSize)
  {
    Multiple(pos, blockSize);
    if x < BlockEnd(pos, blockSize) {
      InBlock(pos, x - pos, blockSize);
    }
  }

  lemma OnlyBoundary(lo: nat, pos: nat, blockSize: nat)
    requires blockSize > 0 && lo % blockSize == 0 && pos % blockSize == 0 && lo <= pos < lo + blockSize
    ensures pos == lo
  {
    if pos > lo {
      InBlock(lo, pos - lo, blockSize);
    }
  }

  // Every block that starts in a range is headed by a number in (low, high].
  ghost predicate NumberedIn(sh: Shape, file: Bytes, lo: nat, hi: nat, low: int, high: nat)
    requires sh.blockSize > 0
  {
    forall pos :: lo <= pos < hi && pos % sh.blockSize == 0 ==> HasHead(sh, file, pos, low, high)
  }

  ghost predicate HasHead(sh: Shape, file: Bytes, pos: nat, low: int, high: nat) {
    exists m: nat :: low < m <= high && m < Span(8) && LiesAt(file, pos, Meta(sh, m))
  }
}
