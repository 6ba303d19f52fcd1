/**
  What the block log holds, as a value: the bytes of the data blocks and the number of the block
  headed last.  The writers of module BlockWriter are proved against it; here is what a reader
  makes of it.
 */
module BlockLog {
  import opened Arithmetic
  import opened BlockFormat

  datatype Log = Log(data: Bytes, num: nat)

  // Put writes a value; Skip leaves the rest of the block, with whatever is in it; Lose is a
  // write that failed: it has used block numbers up and left nothing.
  datatype Op = Put(v: Bytes) | Skip(rest: Bytes) | Lose(count: nat)

  // Where the next record starts: a tail too short for a record is left.
  function Settle(sh: Shape, pos: nat): nat
    requires ValidShape(sh)
  {
    if BlockEnd(pos, sh.blockSize) - pos <= sh.minTail then BlockEnd(pos, sh.blockSize) else pos
  }

  predicate Placed(sh: Shape, pos: nat)
    requires sh.blockSize > 0
  {
    pos % sh.blockSize + sh.minTail < sh.blockSize
  }

  // It is the first place from here on that leaves room for a record.
  lemma SettleIsFirst(sh: Shape, pos: nat, p: nat)
    requires ValidShape(sh) && pos <= p && Placed(sh, p)
    ensures Settle(sh, pos) <= p
  {
    if p < BlockEnd(pos, sh.blockSize) {
      if pos < p {
        InBlock(pos, p - pos, sh.blockSize);
      }
    }
  }

  lemma SettleIsPlaced(sh: Shape, pos: nat)
    requires ValidShape(sh)
    ensures Placed(sh, Settle(sh, pos)) && Settle(sh, pos) >= pos
  {
    Multiple(pos, sh.blockSize);
  }

  function Settled(sh: Shape, data: Bytes): (r: Bytes)
    requires ValidShape(sh)
    ensures data <= r && |r| == Settle(sh, |data|) && Placed(sh, |r|)
  {
    SettleIsPlaced(sh, |data|);
    data + Zeros(Settle(sh, |data|) - |data|)
  }

  function Fill(rest: Bytes, n: nat): (s: Bytes)
    ensures |s| == n
  {
    if n <= |rest| then rest[..n] else Zeros(n)
  }

  // The data with a value's records behind it.
  function Dumped(sh: Shape, log: Log, v: Bytes): (data: Bytes)
    requires ValidShape(sh) && Placed(sh, |log.data|) && v != []
    ensures log.data <= data
  {
    log.data + Dump(sh, |log.data| % sh.blockSize, log.num, v, false)
  }

  function PutTo(sh: Shape, log: Log, v: Bytes): (r: Log)
    requires ValidShape(sh) && Placed(sh, |log.data|) && v != []
    ensures Placed(sh, |r.data|) && log.data <= r.data && log.num <= r.num
  {
    var data := Dumped(sh, log, v);
    Log(Settled(sh, data), log.num + Heads(sh, |log.data| % sh.blockSize, |v|))
  }

  function Apply(sh: Shape, log: Log, op: Op): (r: Log)
    requires ValidShape(sh) && Placed(sh, |log.data|)
    ensures Placed(sh, |r.data|) && log.data <= r.data && log.num <= r.num
  {
    match op
    case Put(v) => if v == [] then log else PutTo(sh, log, v)
    case Skip(rest) =>
      Multiple(|log.data|, sh.blockSize);
      log.(data := log.data + Fill(rest, Up(|log.data|, sh.blockSize) - |log.data|))
    case Lose(count) => log.(num := log.num + count)
  }

  function ApplyAll(sh: Shape, start: nat, ops: seq<Op>): (r: Log)
    requires ValidShape(sh)
    ensures Placed(sh, |r.data|) && start <= r.num
  {
    if ops == [] then Log([], start) else Apply(sh, ApplyAll(sh, start, ops[..|ops| - 1]), ops[|ops| - 1])
  }

  // The values put, in order.
  function Puts(ops: seq<Op>): seq<Bytes> {
    if ops == [] then [] else Puts(ops[..|ops| - 1]) + PutOf(ops[|ops| - 1])
  }

  function PutOf(op: Op): seq<Bytes> {
    if op.Put? && op.v != [] then [op.v] else []
  }

  // Values written one after the other.
  function PutAll(sh: Shape, log: Log, vs: seq<Bytes>): (r: Log)
    requires ValidShape(sh) && Placed(sh, |log.data|) && forall k :: 0 <= k < |vs| ==> vs[k] != []
    ensures Placed(sh, |r.data|) && log.data <= r.data && log.num <= r.num
  {
    if vs == [] then log else PutTo(sh, PutAll(sh, log, vs[..|vs| - 1]), vs[|vs| - 1])
  }

  // ---- the file a log lies in ----

  ghost predicate Holds(sh: Shape, file: Bytes, log: Log)
    requires ValidShape(sh)
  {
    |file| % sh.blockSize == 0 && LiesAt(file, sh.blockSize, log.data)
  }

  function Pos(sh: Shape, log: Log): nat {
    sh.blockSize + |log.data|
  }

  lemma PrefixHolds(sh: Shape, file: Bytes, log: Log, log': Log)
    requires ValidShape(sh) && Holds(sh, file, log') && log.data <= log'.data
    ensures Holds(sh, file, log)
  {
    BothLie(file, sh.blockSize, log.data, log'.data[|log.data|..]);
    assert log'.data == log.data + log'.data[|log.data|..];
  }

  lemma PosInBlock(sh: Shape, log: Log)
    requires ValidShape(sh)
    ensures Pos(sh, log) % sh.blockSize == |log.data| % sh.blockSize
    ensures BlockEnd(Pos(sh, log), sh.blockSize) == sh.blockSize + BlockEnd(|log.data|, sh.blockSize)
  {
    DivUnique(sh.blockSize, sh.blockSize, 1, 0);
    AddMultiple(|log.data|, sh.blockSize, sh.blockSize);
  }

  // ---- every value is read back at its offset ----

  lemma PutLies(sh: Shape, file: Bytes, log: Log, v: Bytes)
    requires ValidShape(sh) && Placed(sh, |log.data|) && v != [] && Holds(sh, file, PutTo(sh, log, v))
    ensures LiesAt(file, Pos(sh, log), Dump(sh, |log.data| % sh.blockSize, log.num, v, false))
  {
    hide Dump;
    PrefixHolds(sh, file, Log(Dumped(sh, log, v), 0), PutTo(sh, log, v));
    BothLie(file, sh.blockSize, log.data, Dump(sh, |log.data| % sh.blockSize, log.num, v, false));
  }

  // Reading at an offset; past the end there is nothing.
  function ReadAt(sh: Shape, start: nat, file: Bytes, pos: nat): ReadResult
    requires ValidShape(sh) && |file| % sh.blockSize == 0
  {
    if pos <= |file| then Read(sh, start, file, pos, false, []) else Eof
  }

  // Whatever is written after it, lost before it or left around it.
  lemma PutReads(sh: Shape, start: nat, file: Bytes, log: Log, v: Bytes)
    requires ValidShape(sh) && Placed(sh, |log.data|) && v != [] && Holds(sh, file, PutTo(sh, log, v))
    requires start <= log.num && log.num + |v| + 1 < Span(8)
    ensures ReadAt(sh, start, file, Pos(sh, log)) ==
      Value(v, sh.blockSize + |Dumped(sh, log, v)|)
  {
    hide Read, Dump;
    PutLies(sh, file, log, v);
    PosInBlock(sh, log);
    DumpReads(sh, start, file, Pos(sh, log), log.num, v, []);
    assert [] + v == v;
  }

  lemma {:induction false} LogOnlyGrows(sh: Shape, start: nat, ops: seq<Op>, k: nat)
    requires ValidShape(sh) && k <= |ops|
    ensures ApplyAll(sh, start, ops[..k]).data <= ApplyAll(sh, start, ops).data
    ensures ApplyAll(sh, start, ops[..k]).num <= ApplyAll(sh, start, ops).num
  {
    if k < |ops| {
      var most := ops[..|ops| - 1];
      assert most[..k] == ops[..k];
      LogOnlyGrows(sh, start, most, k);
    } else {
      assert ops[..k] == ops;
    }
  }

  lemma EveryOffsetReads(sh: Shape, start: nat, file: Bytes, ops: seq<Op>, k: nat)
    requires ValidShape(sh) && k < |ops| && ops[k].Put? && ops[k].v != []
    requires Holds(sh, file, ApplyAll(sh, start, ops))
    requires ApplyAll(sh, start, ops).num + |ops[k].v| + 1 < Span(8)
    ensures var r := ReadAt(sh, start, file, Pos(sh, ApplyAll(sh, start, ops[..k]))); r.Value? && r.value == ops[k].v
  {
    var log := ApplyAll(sh, start, ops[..k]);
    LogOnlyGrows(sh, start, ops, k);
    LogOnlyGrows(sh, start, ops, k + 1);
    assert ops[..k + 1][..k] == ops[..k];
    assert ApplyAll(sh, start, ops[..k + 1]) == PutTo(sh, log, ops[k].v);
    PrefixHolds(sh, file, PutTo(sh, log, ops[k].v), ApplyAll(sh, start, ops));
    PutReads(sh, start, file, log, ops[k].v);
  }

  // ---- reading on from the first block ----

  // The values read one after the other, and what ended the reading.
  function Values(sh: Shape, start: nat, file: Bytes, pos: nat): (seq<Bytes>, ReadResult)
    requires ValidShape(sh) && |file| % sh.blockSize == 0
    decreases |file| - pos
  {
    var r := ReadAt(sh, start, file, pos);
    if r.Value? then
      ReadMoves(sh, start, file, pos, false, []);
      var (vs, end) := Values(sh, start, file, r.next);
      ([r.value] + vs, end)
    else ([], r)
  }

  lemma {:induction false} ReadMoves(sh: Shape, start: nat, file: Bytes, pos: nat, partial: bool, acc: Bytes)
    requires ValidShape(sh) && |file| % sh.blockSize == 0 && pos <= |file|
    ensures var r := Read(sh, start, file, pos, partial, acc); r.Value? ==> pos < r.next <= |file|
    decreases |file| - pos
  {
    if pos < |file| {
      EndFits(file, pos, sh.blockSize);
      var r := Pickle(sh, file, pos);
      var acc' := if IsValueKind(r.kind) then acc + r.payload else acc;
      ReadMoves(sh, start, file, r.next, if r.next % sh.blockSize == 0 then acc' != [] else partial, acc');
    }
  }

  // The rest of a block that is skipped must say nothing to a reader.
  predicate IsCalm(sh: Shape, log: Log, op: Op)
    requires ValidShape(sh)
  {
    op.Skip? ==>
      var n := Up(|log.data|, sh.blockSize) - |log.data|;
      n < HEADER || Fill(op.rest, n)[6] == ZERO || Fill(op.rest, n)[6] == FAKE
  }

  predicate Calm(sh: Shape, start: nat, ops: seq<Op>)
    requires ValidShape(sh)
  {
    ops == [] || (Calm(sh, start, ops[..|ops| - 1])
                  && IsCalm(sh, ApplyAll(sh, start, ops[..|ops| - 1]), ops[|ops| - 1]))
  }

  lemma PadIsPassed(sh: Shape, start: nat, file: Bytes, pos: nat, pad: Bytes)
    requires ValidShape(sh) && |file| % sh.blockSize == 0 && LiesAt(file, pos, pad)
    requires pad != [] && pos % sh.blockSize != 0 && pos + |pad| == BlockEnd(pos, sh.blockSize)
    requires |pad| < HEADER || pad[6] == ZERO || pad[6] == FAKE
    ensures Values(sh, start, file, pos) == Values(sh, start, file, pos + |pad|)
  {
    hide Read, Pickle;
    if |pad| >= HEADER {
      assert file[pos + 6] == file[pos..pos + |pad|][6];
    }
    PadIsSkipped(sh, start, file, pos);
  }

  // What is read from a position is these values and what is read from another.
  ghost predicate Leads(sh: Shape, start: nat, file: Bytes, pos: nat, vs: seq<Bytes>, pos': nat)
    requires ValidShape(sh) && |file| % sh.blockSize == 0
  {
    && Values(sh, start, file, pos).0 == vs + Values(sh, start, file, pos').0
    && Values(sh, start, file, pos).1 == Values(sh, start, file, pos').1
  }

  lemma LeadsOn(sh: Shape, start: nat, file: Bytes, a: nat, vs: seq<Bytes>, b: nat, ws: seq<Bytes>, c: nat)
    requires ValidShape(sh) && |file| % sh.blockSize == 0
    requires Leads(sh, start, file, a, vs, b) && Leads(sh, start, file, b, ws, c)
    ensures Leads(sh, start, file, a, vs + ws, c)
  {
    var rest := Values(sh, start, file, c).0;
    assert vs + (ws + rest) == (vs + ws) + rest;
  }

  lemma ReadLeads(sh: Shape, start: nat, file: Bytes, pos: nat, v: Bytes, next: nat)
    requires ValidShape(sh) && |file| % sh.blockSize == 0
    requires ReadAt(sh, start, file, pos) == Value(v, next)
    ensures Leads(sh, start, file, pos, [v], next)
  {
  }

  // The rest of a block that says nothing is passed.
  lemma PadLeads(sh: Shape, start: nat, file: Bytes, data: Bytes, pad: Bytes)
    requires ValidShape(sh) && |file| % sh.blockSize == 0 && LiesAt(file, sh.blockSize, data + pad)
    requires pad != [] ==> |data| % sh.blockSize != 0 && |data| + |pad| == BlockEnd(|data|, sh.blockSize)
    requires |pad| < HEADER || pad[6] == ZERO || pad[6] == FAKE
    ensures Leads(sh, start, file, sh.blockSize + |data|, [], sh.blockSize + |data| + |pad|)
  {
    hide Values;
    if pad != [] {
      BothLie(file, sh.blockSize, data, pad);
      PosInBlock(sh, Log(data, 0));
      PadIsPassed(sh, start, file, sh.blockSize + |data|, pad);
    }
  }

  // A tail too short for a record is zero.
  lemma SettledIsPassed(sh: Shape, start: nat, file: Bytes, data: Bytes)
    requires ValidShape(sh) && Holds(sh, file, Log(Settled(sh, data), 0))
    ensures Leads(sh, start, file, sh.blockSize + |data|, [], sh.blockSize + Settle(sh, |data|))
  {
    hide Values;
    PadLeads(sh, start, file, data, Zeros(Settle(sh, |data|) - |data|));
  }

  lemma PutIsRead(sh: Shape, start: nat, file: Bytes, log: Log, v: Bytes)
    requires ValidShape(sh) && Placed(sh, |log.data|) && v != [] && Holds(sh, file, PutTo(sh, log, v))
    requires start <= log.num && log.num + |v| + 1 < Span(8)
    ensures Leads(sh, start, file, Pos(sh, log), [v], Pos(sh, PutTo(sh, log, v)))
  {
    hide Values, Dump, Read;
    var data := Dumped(sh, log, v);
    PutReads(sh, start, file, log, v);
    ReadLeads(sh, start, file, Pos(sh, log), v, sh.blockSize + |data|);
    SettledIsPassed(sh, start, file, data);
    LeadsOn(sh, start, file, Pos(sh, log), [v], sh.blockSize + |data|, [], Pos(sh, PutTo(sh, log, v)));
    assert [v] + [] == [v];
  }

  lemma SkipIsPassed(sh: Shape, start: nat, file: Bytes, log: Log, rest: Bytes)
    requires ValidShape(sh) && Placed(sh, |log.data|) && IsCalm(sh, log, Skip(rest))
    requires Holds(sh, file, Apply(sh, log, Skip(rest)))
    ensures Leads(sh, start, file, Pos(sh, log), [], Pos(sh, Apply(sh, log, Skip(rest))))
  {
    hide Values;
    PadLeads(sh, start, file, log.data, Fill(rest, Up(|log.data|, sh.blockSize) - |log.data|));
  }

  // A number the puts of a run stay below, so that no block number wraps around.
  predicate Fits(sh: Shape, start: nat, ops: seq<Op>)
    requires ValidShape(sh)
  {
    forall k :: 0 <= k < |ops| && ops[k].Put? ==> ApplyAll(sh, start, ops).num + |ops[k].v| + 1 < Span(8)
  }

  lemma FitsBefore(sh: Shape, start: nat, ops: seq<Op>)
    requires ValidShape(sh) && ops != [] && Fits(sh, start, ops)
    ensures Fits(sh, start, ops[..|ops| - 1])
  {
    var most := ops[..|ops| - 1];
    forall k | 0 <= k < |most| && most[k].Put? ensures ApplyAll(sh, start, most).num + |most[k].v| + 1 < Span(8) {
      assert ops[k].Put?;
    }
  }

  lemma OpIsRead(sh: Shape, start: nat, file: Bytes, log: Log, op: Op)
    requires ValidShape(sh) && Placed(sh, |log.data|) && IsCalm(sh, log, op) && Holds(sh, file, Apply(sh, log, op))
    requires start <= log.num && (op.Put? ==> log.num + |op.v| + 1 < Span(8))
    ensures Leads(sh, start, file, Pos(sh, log), PutOf(op), Pos(sh, Apply(sh, log, op)))
  {
    hide Values;
    match op
    case Put(v) =>
      if v != [] {
        PutIsRead(sh, start, file, log, v);
      }
    case Skip(rest) => SkipIsPassed(sh, start, file, log, rest);
    case Lose(_) =>
  }

  // Whatever was put, in one go or many, is read in order; then the reader goes on behind it.
  lemma {:induction false} AllAreRead(sh: Shape, start: nat, file: Bytes, ops: seq<Op>)
    requires ValidShape(sh) && Holds(sh, file, ApplyAll(sh, start, ops))
    requires Calm(sh, start, ops) && Fits(sh, start, ops)
    ensures Leads(sh, start, file, sh.blockSize, Puts(ops), Pos(sh, ApplyAll(sh, start, ops)))
  {
    if ops != [] {
      var most, op := ops[..|ops| - 1], ops[|ops| - 1];
      var log := ApplyAll(sh, start, most);
      PrefixHolds(sh, file, log, Apply(sh, log, op));
      FitsBefore(sh, start, ops);
      AllAreRead(sh, start, file, most);
      if op.Put? {
        assert ops[|ops| - 1].Put?;
      }
      OpIsRead(sh, start, file, log, op);
      LeadsOn(sh, start, file, sh.blockSize, Puts(most), Pos(sh, log), PutOf(op), Pos(sh, Apply(sh, log, op)));
    }
  }

  // ---- block numbers ----

  // The number of the last block of this generation and the first block that is not of it.
  datatype ScanResult = Found(num: nat, pos: nat) | ScanAssertion

  function Scan(sh: Shape, start: nat, file: Bytes, pos: nat, last: nat): ScanResult
    requires ValidShape(sh) && |file| % sh.blockSize == 0 && pos % sh.blockSize == 0
    decreases |file| - pos
  {
    if pos >= |file| then Found(last, pos)
    else
      EndFits(file, pos, sh.blockSize);
      AddMultiple(pos, sh.blockSize, sh.blockSize);
      var r := Pickle(sh, file, pos);
      if r.next == pos + sh.blockSize then ScanAssertion
      else if r.kind != BLOCK_META then Scan(sh, start, file, pos + sh.blockSize, last)
      else if |r.payload| < 9 then ScanAssertion
      else if IsDeprecated(start, FromLE(r.payload[1..9])) then Found(last, pos)
      else Scan(sh, start, file, pos + sh.blockSize, FromLE(r.payload[1..9]))
  }

  // A scan of a whole file starts behind the file's own block.
  function ScanFile(sh: Shape, start: nat, file: Bytes): ScanResult
    requires ValidShape(sh) && |file| % sh.blockSize == 0
  {
    DivUnique(sh.blockSize, sh.blockSize, 1, 0);
    Scan(sh, start, file, sh.blockSize, start)
  }

  lemma HeadScans(sh: Shape, start: nat, file: Bytes, pos: nat, num: nat, last: nat)
    requires ValidShape(sh) && |file| % sh.blockSize == 0 && pos % sh.blockSize == 0 && pos < |file|
    requires num < Span(8) && LiesAt(file, pos, Meta(sh, num))
    ensures (pos + sh.blockSize) % sh.blockSize == 0 && pos + sh.blockSize <= |file|
    ensures Scan(sh, start, file, pos, last) ==
      if num <= start then Found(last, pos) else Scan(sh, start, file, pos + sh.blockSize, num)
  {
    EndFits(file, pos, sh.blockSize);
    AddMultiple(pos, sh.blockSize, sh.blockSize);
    MetaReads(sh, start, file, pos, num);
  }

  // How a value that does not fit goes on in the next block.
  lemma DumpSteps(sh: Shape, pos: nat, num: nat, v: Bytes, started: bool)
    requires ValidShape(sh) && Placed(sh, pos) && |v| > Room(sh, pos % sh.blockSize)
    ensures var at := pos % sh.blockSize; var next := BlockEnd(pos, sh.blockSize);
      var rest := v[Room(sh, at)..];
      && next % sh.blockSize == 0 && Placed(sh, next) && 0 < |rest| < |v|
      && pos + |Dump(sh, at, num, v, started)| == next + |Dump(sh, 0, Headed(at, num), rest, true)|
      && Heads(sh, at, |v|) == Headed(at, 0) + Heads(sh, 0, |rest|) && Heads(sh, 0, |rest|) > 0
  {
    Multiple(pos, sh.blockSize);
  }

  // A value heads as many blocks as it starts.
  lemma {:induction false} HeadsCount(sh: Shape, pos: nat, num: nat, v: Bytes, started: bool)
    requires ValidShape(sh) && v != [] && Placed(sh, pos)
    ensures Up(pos + |Dump(sh, pos % sh.blockSize, num, v, started)|, sh.blockSize) ==
            Up(pos, sh.blockSize) + Times(Heads(sh, pos % sh.blockSize, |v|), sh.blockSize)
    decreases |v|
  {
    hide Piece, Times;
    var at := pos % sh.blockSize;
    if |v| <= Room(sh, at) {
      FirstBlockCounts(pos, sh.blockSize);
      UpInBlock(pos, pos + |Dump(sh, at, num, v, started)|, sh.blockSize);
    } else {
      DumpSteps(sh, pos, num, v, started);
      HeadsCount(sh, BlockEnd(pos, sh.blockSize), Headed(at, num), v[Room(sh, at)..], true);
      FirstBlockCounts(pos, sh.blockSize);
      TimesAdds(Headed(at, 0), Heads(sh, 0, |v[Room(sh, at)..]|), sh.blockSize);
    }
  }

  lemma FirstBlockCounts(pos: nat, blockSize: nat)
    requires blockSize > 0
    ensures BlockEnd(pos, blockSize) == Up(pos, blockSize) + Times(Headed(pos % blockSize, 0), blockSize)
  {
  }

  lemma TimesAdds(a: nat, b: nat, d: nat)
    ensures Times(a, d) + Times(b, d) == Times(a + b, d)
  {
  }

  lemma TimesOnce(a: nat, d: nat)
    requires a > 0
    ensures Times(a, d) == d + Times(a - 1, d) && Times(0, d) == 0
  {
  }

  // Where the rest of a value starts and ends, and the number it ends with.
  lemma RestOfDump(sh: Shape, file: Bytes, pos: nat, num: nat, v: Bytes, started: bool)
    requires ValidShape(sh) && Placed(sh, pos) && |v| > Room(sh, pos % sh.blockSize)
    requires LiesAt(file, pos, Dump(sh, pos % sh.blockSize, num, v, started))
    ensures var at := pos % sh.blockSize; var room := Room(sh, at); var next := BlockEnd(pos, sh.blockSize);
      var rest := Dump(sh, 0, Headed(at, num), v[room..], true);
      && next % sh.blockSize == 0 && LiesAt(file, next, rest)
      && next + |rest| == pos + |Dump(sh, at, num, v, started)|
      && Headed(at, num) + Heads(sh, 0, |v[room..]|) == num + Heads(sh, at, |v|)
  {
    Multiple(pos, sh.blockSize);
    DumpLies(sh, file, pos, num, v, started);
  }

  // So many blocks from a boundary on carry the numbers behind num, one by one.
  ghost predicate Consecutive(sh: Shape, file: Bytes, pos: nat, num: nat, count: nat)
    decreases count
  {
    count == 0 || (LiesAt(file, pos, Meta(sh, num + 1)) && Consecutive(sh, file, pos + sh.blockSize, num + 1, count - 1))
  }

  // The blocks a value starts are numbered one by one.
  lemma {:induction false} DumpNumbers(sh: Shape, file: Bytes, pos: nat, num: nat, v: Bytes, started: bool)
    requires ValidShape(sh) && v != [] && Placed(sh, pos)
    requires LiesAt(file, pos, Dump(sh, pos % sh.blockSize, num, v, started))
    ensures Consecutive(sh, file, Up(pos, sh.blockSize), num, Heads(sh, pos % sh.blockSize, |v|))
    decreases |v|
  {
    hide Piece, Meta, Frame, LiesAt;
    var at := pos % sh.blockSize;
    if at == 0 {
      DumpHead(sh, file, pos, num, v, started);
    }
    if |v| > Room(sh, at) {
      DumpSteps(sh, pos, num, v, started);
      RestOfDump(sh, file, pos, num, v, started);
      DumpNumbers(sh, file, BlockEnd(pos, sh.blockSize), Headed(at, num), v[Room(sh, at)..], true);
    }
  }

  // A scan passes them and knows the number of the last.
  lemma {:induction false} ConsecutiveScans(sh: Shape, start: nat, file: Bytes, pos: nat, num: nat, count: nat, last: nat)
    requires ValidShape(sh) && |file| % sh.blockSize == 0 && pos % sh.blockSize == 0
    requires start <= num && num + count < Span(8) && Consecutive(sh, file, pos, num, count)
    ensures (pos + Times(count, sh.blockSize)) % sh.blockSize == 0
    ensures Scan(sh, start, file, pos, last) ==
            Scan(sh, start, file, pos + Times(count, sh.blockSize), if count > 0 then num + count else last)
    decreases count
  {
    hide Pickle;
    if count > 0 {
      HeadScans(sh, start, file, pos, num + 1, last);
      ConsecutiveScans(sh, start, file, pos + sh.blockSize, num + 1, count - 1, num + 1);
      TimesAdds(1, count - 1, sh.blockSize);
    }
  }

  lemma {:induction false} ConsecutiveIsNumbered(sh: Shape, file: Bytes, pos: nat, num: nat, count: nat)
    requires ValidShape(sh) && pos % sh.blockSize == 0 && num + count < Span(8) && Consecutive(sh, file, pos, num, count)
    ensures NumberedIn(sh, file, pos, pos + Times(count, sh.blockSize), num, num + count)
    decreases count
  {
    if count > 0 {
      AddMultiple(pos, sh.blockSize, sh.blockSize);
      ConsecutiveIsNumbered(sh, file, pos + sh.blockSize, num + 1, count - 1);
      TimesAdds(1, count - 1, sh.blockSize);
      forall p | pos <= p < pos + Times(count, sh.blockSize) && p % sh.blockSize == 0
        ensures HasHead(sh, file, p, num, num + count)
      {
        if p < pos + sh.blockSize {
          OnlyBoundary(pos, p, sh.blockSize);
        } else {
          assert HasHead(sh, file, p, num + 1, num + count);
        }
      }
    }
  }

  lemma NumberedOn(sh: Shape, file: Bytes, a: nat, b: nat, c: nat, low: int, low': int, high: nat, high': nat)
    requires sh.blockSize > 0 && NumberedIn(sh, file, a, b, low, high) && NumberedIn(sh, file, b, c, low', high')
    requires low <= low' && high <= high'
    ensures NumberedIn(sh, file, a, c, low, high')
  {
    forall p | a <= p < c && p % sh.blockSize == 0 ensures HasHead(sh, file, p, low, high') {
      assert if p < b then HasHead(sh, file, p, low, high) else HasHead(sh, file, p, low', high');
    }
  }

  lemma DumpHead(sh: Shape, file: Bytes, pos: nat, num: nat, v: Bytes, started: bool)
    requires ValidShape(sh) && v != [] && LiesAt(file, pos, Dump(sh, 0, num, v, started))
    ensures LiesAt(file, pos, Meta(sh, num + 1))
  {
    var room := Room(sh, 0);
    if |v| <= room {
      PieceLies(sh, file, pos, 0, num, Kind(true, started), v);
    } else {
      var piece := Piece(sh, 0, num, Kind(false, started), v[..room]);
      BothLie(file, pos, piece, Dump(sh, 0, num + 1, v[room..], true));
      PieceLies(sh, file, pos, 0, num, Kind(false, started), v[..room]);
    }
  }

  // What a scan and the numbers say of everything up to a block boundary: last is the number of
  // the last block there, or start when there is none.
  ghost predicate Scanned(sh: Shape, start: nat, file: Bytes, to: nat, last: nat)
    requires ValidShape(sh) && |file| % sh.blockSize == 0
  {
    && sh.blockSize <= to && sh.blockSize % sh.blockSize == 0 && to % sh.blockSize == 0 && start <= last
    && Scan(sh, start, file, sh.blockSize, start) == Scan(sh, start, file, to, last)
    && NumberedIn(sh, file, sh.blockSize, to, start, last)
    && (if to == sh.blockSize then last == start else HasHead(sh, file, to - sh.blockSize, last - 1, last))
  }

  lemma {:induction false} LastOfConsecutive(sh: Shape, file: Bytes, pos: nat, num: nat, count: nat)
    requires ValidShape(sh) && count > 0 && num + count < Span(8) && Consecutive(sh, file, pos, num, count)
    ensures pos + Times(count, sh.blockSize) >= sh.blockSize
    ensures HasHead(sh, file, pos + Times(count, sh.blockSize) - sh.blockSize, num + count - 1, num + count)
    decreases count
  {
    hide Times, Meta, LiesAt;
    TimesOnce(count, sh.blockSize);
    if count > 1 {
      LastOfConsecutive(sh, file, pos + sh.blockSize, num + 1, count - 1);
    }
  }

  lemma ScannedOn(sh: Shape, start: nat, file: Bytes, pos: nat, num: nat, count: nat, last: nat)
    requires ValidShape(sh) && |file| % sh.blockSize == 0 && Scanned(sh, start, file, pos, last)
    requires last <= num && num + count < Span(8) && Consecutive(sh, file, pos, num, count)
    ensures Scanned(sh, start, file, pos + Times(count, sh.blockSize), if count > 0 then num + count else last)
  {
    hide Scan, Meta, LiesAt;
    var to := pos + Times(count, sh.blockSize);
    ConsecutiveScans(sh, start, file, pos, num, count, last);
    if count > 0 {
      ConsecutiveIsNumbered(sh, file, pos, num, count);
      NumberedOn(sh, file, sh.blockSize, pos, to, start, num, last, num + count);
      LastOfConsecutive(sh, file, pos, num, count);
      TimesAdds(1, count - 1, sh.blockSize);
    }
  }

  lemma UpSettled(sh: Shape, pos: nat)
    requires ValidShape(sh)
    ensures Up(Settle(sh, pos), sh.blockSize) == Up(pos, sh.blockSize)
  {
    Multiple(pos, sh.blockSize);
  }

  lemma UpBehind(pos: nat, blockSize: nat)
    requires blockSize > 0
    ensures Up(blockSize + pos, blockSize) == blockSize + Up(pos, blockSize)
    ensures (blockSize + pos) % blockSize == pos % blockSize
  {
    DivUnique(blockSize, blockSize, 1, 0);
    AddMultiple(pos, blockSize, blockSize);
  }

  lemma PutCounts(sh: Shape, log: Log, v: Bytes)
    requires ValidShape(sh) && Placed(sh, |log.data|) && v != []
    ensures Up(Pos(sh, PutTo(sh, log, v)), sh.blockSize) ==
            Up(Pos(sh, log), sh.blockSize) + Times(PutTo(sh, log, v).num - log.num, sh.blockSize)
  {
    hide Dump, Heads, Times;
    HeadsCount(sh, |log.data|, log.num, v, false);
    UpSettled(sh, |Dumped(sh, log, v)|);
    UpBehind(|log.data|, sh.blockSize);
    UpBehind(|PutTo(sh, log, v).data|, sh.blockSize);
  }

  lemma PutScans(sh: Shape, start: nat, file: Bytes, log: Log, v: Bytes, last: nat)
    requires ValidShape(sh) && Placed(sh, |log.data|) && v != [] && Holds(sh, file, PutTo(sh, log, v))
    requires Scanned(sh, start, file, Up(Pos(sh, log), sh.blockSize), last) && last <= log.num
    requires PutTo(sh, log, v).num < Span(8)
    ensures var num := PutTo(sh, log, v).num;
      Scanned(sh, start, file, Up(Pos(sh, PutTo(sh, log, v)), sh.blockSize), if num > log.num then num else last)
  {
    hide Dump, Heads, Times, Scanned;
    var heads := PutTo(sh, log, v).num - log.num;
    PutLies(sh, file, log, v);
    PosInBlock(sh, log);
    DumpNumbers(sh, file, Pos(sh, log), log.num, v, false);
    PutCounts(sh, log, v);
    ScannedOn(sh, start, file, Up(Pos(sh, log), sh.blockSize), log.num, heads, last);
  }

  predicate Lossless(ops: seq<Op>) {
    forall k :: 0 <= k < |ops| ==> !ops[k].Lose?
  }

  lemma SkipCounts(sh: Shape, log: Log, rest: Bytes)
    requires ValidShape(sh) && Placed(sh, |log.data|)
    ensures Up(Pos(sh, Apply(sh, log, Skip(rest))), sh.blockSize) == Up(Pos(sh, log), sh.blockSize)
  {
    Multiple(|log.data|, sh.blockSize);
    UpBehind(|log.data|, sh.blockSize);
    UpBehind(|Apply(sh, log, Skip(rest)).data|, sh.blockSize);
  }

  // A scan of what any operations wrote comes to the end of it and knows the last number there.
  lemma {:induction false} AllIsScanned(sh: Shape, start: nat, file: Bytes, ops: seq<Op>) returns (last: nat)
    requires ValidShape(sh) && Holds(sh, file, ApplyAll(sh, start, ops)) && ApplyAll(sh, start, ops).num < Span(8)
    ensures Scanned(sh, start, file, Up(Pos(sh, ApplyAll(sh, start, ops)), sh.blockSize), last)
    ensures last <= ApplyAll(sh, start, ops).num && (Lossless(ops) ==> last == ApplyAll(sh, start, ops).num)
  {
    hide Scan, Dump, Heads, Meta, Times;
    if ops == [] {
      last := start;
      UpBehind(0, sh.blockSize);
      DivUnique(sh.blockSize, sh.blockSize, 1, 0);
    } else {
      var most, op := ops[..|ops| - 1], ops[|ops| - 1];
      var log := ApplyAll(sh, start, most);
      PrefixHolds(sh, file, log, Apply(sh, log, op));
      last := AllIsScanned(sh, start, file, most);
      match op
      case Put(v) =>
        if v != [] {
          PutScans(sh, start, file, log, v, last);
          last := if PutTo(sh, log, v).num > log.num then PutTo(sh, log, v).num else last;
        }
      case Skip(rest) => SkipCounts(sh, log, rest);
      case Lose(_) =>
    }
  }

  // Without a failed write the numbers count the blocks.
  lemma {:induction false} NumbersCountBlocks(sh: Shape, start: nat, ops: seq<Op>)
    requires ValidShape(sh) && Lossless(ops)
    ensures Up(Pos(sh, ApplyAll(sh, start, ops)), sh.blockSize) ==
            sh.blockSize + Times(ApplyAll(sh, start, ops).num - start, sh.blockSize)
  {
    hide Dump, Heads, Times;
    if ops == [] {
      UpBehind(0, sh.blockSize);
      NoTimes(sh.blockSize);
    } else {
      var most, op := ops[..|ops| - 1], ops[|ops| - 1];
      var log := ApplyAll(sh, start, most);
      NumbersCountBlocks(sh, start, most);
      match op
      case Put(v) =>
        if v != [] {
          PutCounts(sh, log, v);
          TimesAdds(log.num - start, PutTo(sh, log, v).num - log.num, sh.blockSize);
        }
      case Skip(rest) => SkipCounts(sh, log, rest);
      case Lose(_) => assert false;
    }
  }

  lemma NoTimes(d: nat)
    ensures Times(0, d) == 0
  {
  }

  // ---- where a log ends ----

  // From here on nothing is of this generation: the rest of the block says nothing, and the next
  // block is not there or is stale.
  ghost predicate EndsAt(sh: Shape, start: nat, file: Bytes, pos: nat)
    requires ValidShape(sh) && |file| % sh.blockSize == 0
  {
    && pos <= |file| && Up(pos, sh.blockSize) <= |file|
    && (pos % sh.blockSize != 0 ==> IsPad(sh, file, pos))
    && (Up(pos, sh.blockSize) == |file| || HasHead(sh, file, Up(pos, sh.blockSize), -1, start))
  }

  function EndOf(sh: Shape, file: Bytes, pos: nat): ReadResult
    requires ValidShape(sh)
  {
    if Up(pos, sh.blockSize) == |file| then Eof else Failed(DeprecatedBlock)
  }

  lemma StaleBlockReads(sh: Shape, start: nat, file: Bytes, pos: nat)
    requires ValidShape(sh) && |file| % sh.blockSize == 0 && pos % sh.blockSize == 0 && pos < |file|
    requires HasHead(sh, file, pos, -1, start)
    ensures Read(sh, start, file, pos, false, []) == Failed(DeprecatedBlock)
  {
    var m: nat :| m <= start && m < Span(8) && LiesAt(file, pos, Meta(sh, m));
    EndFits(file, pos, sh.blockSize);
    MetaReads(sh, start, file, pos, m);
  }

  lemma EndReads(sh: Shape, start: nat, file: Bytes, pos: nat)
    requires ValidShape(sh) && |file| % sh.blockSize == 0 && EndsAt(sh, start, file, pos)
    ensures Values(sh, start, file, pos) == ([], EndOf(sh, file, pos))
  {
    hide Pickle, Meta;
    Multiple(pos, sh.blockSize);
    if pos % sh.blockSize != 0 {
      PadIsSkipped(sh, start, file, pos);
    }
    if Up(pos, sh.blockSize) < |file| {
      StaleBlockReads(sh, start, file, Up(pos, sh.blockSize));
    }
  }

  lemma EndScans(sh: Shape, start: nat, file: Bytes, pos: nat, last: nat)
    requires ValidShape(sh) && |file| % sh.blockSize == 0 && EndsAt(sh, start, file, pos)
    ensures Up(pos, sh.blockSize) % sh.blockSize == 0
    ensures Scan(sh, start, file, Up(pos, sh.blockSize), last) == Found(last, Up(pos, sh.blockSize))
  {
    hide Pickle, Meta;
    var to := Up(pos, sh.blockSize);
    Multiple(pos, sh.blockSize);
    if to < |file| {
      var m: nat :| m <= start && m < Span(8) && LiesAt(file, to, Meta(sh, m));
      HeadScans(sh, start, file, to, m, last);
    }
  }

  // The round trip: whatever was written, by whatever strategy and over whatever an earlier
  // generation left, a reader gets all of it in order and then the end; and a scan finds the
  // first block that was not written and, when no write failed, the number used last.
  lemma WrittenIsRead(sh: Shape, start: nat, file: Bytes, ops: seq<Op>) returns (last: nat)
    requires ValidShape(sh) && Holds(sh, file, ApplyAll(sh, start, ops))
    requires Calm(sh, start, ops) && Fits(sh, start, ops) && ApplyAll(sh, start, ops).num < Span(8)
    requires EndsAt(sh, start, file, Pos(sh, ApplyAll(sh, start, ops)))
    ensures var end := Pos(sh, ApplyAll(sh, start, ops));
      && Values(sh, start, file, sh.blockSize) == (Puts(ops), EndOf(sh, file, end))
      && ScanFile(sh, start, file) == Found(last, Up(end, sh.blockSize))
    ensures last <= ApplyAll(sh, start, ops).num && (Lossless(ops) ==> last == ApplyAll(sh, start, ops).num)
  {
    hide Values, Scan, ApplyAll, Calm, EndsAt;
    var end := Pos(sh, ApplyAll(sh, start, ops));
    AllAreRead(sh, start, file, ops);
    EndReads(sh, start, file, end);
    last := AllIsScanned(sh, start, file, ops);
    EndScans(sh, start, file, end, last);
    assert Puts(ops) + [] == Puts(ops);
  }

  // ---- recycling a file ----

  lemma MetaOnce(sh: Shape, file: Bytes, pos: nat, m: nat, n: nat)
    requires m < Span(8) && n < Span(8) && LiesAt(file, pos, Meta(sh, m)) && LiesAt(file, pos, Meta(sh, n))
    ensures m == n
  {
    FrameParts(sh, BLOCK_META, [0] + LE(m, 8));
    FrameParts(sh, BLOCK_META, [0] + LE(n, 8));
    assert ([0] + LE(m, 8))[1..] == LE(m, 8) && ([0] + LE(n, 8))[1..] == LE(n, 8);
    LEBack(m, 8);
    LEBack(n, 8);
  }

  // Raising the start number of a file deprecates all of its blocks exactly when it reaches the
  // number of the last block written; without a failed write it always does.
  lemma DeprecationReaches(sh: Shape, start: nat, file: Bytes, ops: seq<Op>) returns (last: nat)
    requires ValidShape(sh) && Holds(sh, file, ApplyAll(sh, start, ops)) && ApplyAll(sh, start, ops).num < Span(8)
    requires |file| <= MAX_FILE
    requires NumberedIn(sh, file, Up(Pos(sh, ApplyAll(sh, start, ops)), sh.blockSize), |file|, -1, start)
    ensures NumberedIn(sh, file, sh.blockSize, |file|, -1, start + SEQ_PER_FILE) <==> last <= start + SEQ_PER_FILE
    ensures last <= ApplyAll(sh, start, ops).num
    ensures Lossless(ops) ==> last == ApplyAll(sh, start, ops).num <= start + SEQ_PER_FILE
  {
    hide Scan, ApplyAll, HasHead, NumberedIn, Up, Times;
    var log := ApplyAll(sh, start, ops);
    last := AllIsScanned(sh, start, file, ops);
    UpFits(sh, file, log);
    BlocksReached(sh, start, file, Up(Pos(sh, log), sh.blockSize), last, start + SEQ_PER_FILE);
    if Lossless(ops) {
      NumbersCountBlocks(sh, start, ops);
      FewBlocks(sh, log.num - start);
    }
  }

  lemma BlocksReached(sh: Shape, start: nat, file: Bytes, up: nat, last: nat, announced: nat)
    requires ValidShape(sh) && |file| % sh.blockSize == 0 && up <= |file| && start <= announced
    requires Scanned(sh, start, file, up, last) && NumberedIn(sh, file, up, |file|, -1, start)
    ensures NumberedIn(sh, file, sh.blockSize, |file|, -1, announced) <==> last <= announced
  {
    hide Scan, HasHead, NumberedIn;
    if last <= announced {
      NumberedMore(sh, file, sh.blockSize, up, start, -1, last, announced);
      NumberedMore(sh, file, up, |file|, -1, -1, start, announced);
      NumberedOn(sh, file, sh.blockSize, up, |file|, -1, -1, announced, announced);
    } else {
      OneBlockBack(up, sh.blockSize);
      LastIsNotReached(sh, file, up - sh.blockSize, last, announced);
      NotNumbered(sh, file, sh.blockSize, |file|, announced, up - sh.blockSize);
    }
  }

  lemma NotNumbered(sh: Shape, file: Bytes, lo: nat, hi: nat, high: nat, pos: nat)
    requires sh.blockSize > 0 && lo <= pos < hi && pos % sh.blockSize == 0 && !HasHead(sh, file, pos, -1, high)
    ensures !NumberedIn(sh, file, lo, hi, -1, high)
  {
  }

  lemma NumberedMore(sh: Shape, file: Bytes, a: nat, b: nat, low: int, low': int, high: nat, high': nat)
    requires sh.blockSize > 0 && NumberedIn(sh, file, a, b, low, high) && low' <= low && high <= high'
    ensures NumberedIn(sh, file, a, b, low', high')
  {
    forall p | a <= p < b && p % sh.blockSize == 0 ensures HasHead(sh, file, p, low', high') {
      assert HasHead(sh, file, p, low, high);
    }
  }

  lemma UpFits(sh: Shape, file: Bytes, log: Log)
    requires ValidShape(sh) && Holds(sh, file, log)
    ensures sh.blockSize <= Up(Pos(sh, log), sh.blockSize) <= |file|
  {
    if Pos(sh, log) % sh.blockSize != 0 {
      EndFits(file, Pos(sh, log) , sh.blockSize);
    }
  }

  lemma LastIsNotReached(sh: Shape, file: Bytes, pos: nat, last: nat, n: nat)
    requires n < last && HasHead(sh, file, pos, last - 1, last)
    ensures !HasHead(sh, file, pos, -1, n)
  {
    if HasHead(sh, file, pos, -1, n) {
      var m: nat :| m <= n && m < Span(8) && LiesAt(file, pos, Meta(sh, m));
      var m': nat :| last - 1 < m' <= last && m' < Span(8) && LiesAt(file, pos, Meta(sh, m'));
      MetaOnce(sh, file, pos, m, m');
    }
  }

  lemma OneBlockBack(pos: nat, blockSize: nat)
    requires blockSize > 0 && pos % blockSize == 0 && pos >= blockSize
    ensures (pos - blockSize) % blockSize == 0
    ensures pos > blockSize ==> pos - blockSize >= blockSize
  {
    DivUnique(blockSize, blockSize, 1, 0);
    AddMultiple(pos - blockSize, blockSize, blockSize);
    if pos - blockSize < blockSize {
      DivUnique(pos - blockSize, blockSize, 0, pos - blockSize);
    }
  }

  lemma FewBlocks(sh: Shape, count: nat)
    requires ValidShape(sh) && Times(count, sh.blockSize) <= MAX_FILE
    ensures count <= SEQ_PER_FILE
  {
    assert count * 4096 <= count * sh.blockSize;
  }

  // The next generation starts above, and from wherever it has come to, the rest is stale.
  lemma RecycledIsStale(sh: Shape, file: Bytes, announced: nat, current: nat, pos: nat)
    requires ValidShape(sh) && |file| % sh.blockSize == 0 && NumberedIn(sh, file, sh.blockSize, |file|, -1, announced)
    requires sh.blockSize <= pos <= |file| && pos % sh.blockSize == 0
    ensures EndsAt(sh, Adjusted(current, announced), file, pos)
  {
    hide Meta, LiesAt;
    if pos < |file| {
      assert HasHead(sh, file, pos, -1, announced);
    }
  }

  // The generator of block numbers moves past what a recycled file announces.
  function Adjusted(current: nat, announced: nat): (n: nat)
    ensures current < n && announced < n && (n - 1 == current || n - 1 == announced)
  {
    (if current < announced then announced else current) + 1
  }
}
