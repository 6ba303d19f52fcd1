/**
  The life of a file of the block log: values written one by one or in batches, under any
  strategy, or through the buffer and flushed; writes that fail, after any number of blocks, and
  others after them; and then the file read from its start.
 */
module BlockSession {
  import opened Arithmetic
  import opened BlockFormat
  import opened BlockLog
  import opened BlockReader
  import opened BlockRoundTrip
  import opened BlockSkips
  import opened BlockWriter

  // One call; blocks is how many blocks the disk takes before it fails.  A direct write finds the
  // buffer flushed, or it is flushed first and the disk takes so many blocks of it.
  datatype Act =
    | Direct(v: Bytes, strategy: Strategy, flush: nat, blocks: nat)
    | Batch(vs: seq<Bytes>, strategy: Strategy, flush: nat, blocks: nat)
    | Buffered(v: Bytes, blocks: nat)
    | Flush(blocks: nat)

  function ValuesOf(act: Act): seq<Bytes> {
    match act
    case Direct(v, _, _, _) => [v]
    case Batch(vs, _, _, _) => vs
    case Buffered(v, _) => [v]
    case Flush(_) => []
  }

  // The values of the calls that were answered with success.
  function Accepted(acts: seq<Act>, codes: seq<int>): seq<Bytes>
    requires |codes| == |acts|
  {
    if acts == [] then []
    else
      var n := |acts| - 1;
      Accepted(acts[..n], codes[..n]) + if codes[n] == 0 then ValuesOf(acts[n]) else []
  }

  // A value lies at a place among the operations, and its offset was given out.
  ghost predicate IsGiven(sh: Shape, start: nat, ops: seq<Op>, v: Bytes, offset: nat, put: nat)
    requires ValidShape(sh)
  {
    put < |ops| && ops[put] == Put(v) && offset == Pos(sh, ApplyAll(sh, start, ops[..put]))
  }

  // Where the values lie among the operations, and the offsets given out for them.
  ghost predicate Given(sh: Shape, start: nat, ops: seq<Op>, vs: seq<Bytes>, offsets: seq<nat>, puts: seq<nat>)
    requires ValidShape(sh)
  {
    && |offsets| == |puts| == |vs|
    && forall k :: 0 <= k < |vs| ==> IsGiven(sh, start, ops, vs[k], offsets[k], puts[k])
  }

  lemma GivenOn(sh: Shape, start: nat, ops: seq<Op>, ops': seq<Op>, vs: seq<Bytes>, offsets: seq<nat>, puts: seq<nat>)
    requires ValidShape(sh) && Given(sh, start, ops, vs, offsets, puts) && ops <= ops'
    ensures Given(sh, start, ops', vs, offsets, puts)
  {
    forall k | 0 <= k < |vs| ensures IsGiven(sh, start, ops', vs[k], offsets[k], puts[k]) {
      assert IsGiven(sh, start, ops, vs[k], offsets[k], puts[k]);
      assert ops'[..puts[k]] == ops[..puts[k]];
    }
  }

  // The operations of a session so far say what was written, what was given out, and what the log is.
  ghost predicate Kept(sh: Shape, start: nat, log: Log, ops: seq<Op>, vs: seq<Bytes>, offsets: seq<nat>, puts: seq<nat>)
    requires ValidShape(sh)
  {
    log == ApplyAll(sh, start, ops) && Puts(ops) == vs && Given(sh, start, ops, vs, offsets, puts)
  }

  lemma KeptSkip(sh: Shape, start: nat, log: Log, ops: seq<Op>, skipped: bool, rest: Bytes,
                 vs: seq<Bytes>, offsets: seq<nat>, puts: seq<nat>)
    requires ValidShape(sh) && Kept(sh, start, log, ops, vs, offsets, puts)
    ensures var ops' := LeftBehind(ops, skipped, rest);
      Kept(sh, start, ApplyAll(sh, start, ops'), ops', vs, offsets, puts)
  {
    hide ApplyAll, Apply, Calm, IsCalm, Puts, Given;
    LeftBehindOps(sh, start, ops, skipped, rest);
    GivenOn(sh, start, ops, LeftBehind(ops, skipped, rest), vs, offsets, puts);
  }

  lemma KeptLoss(sh: Shape, start: nat, log: Log, ops: seq<Op>, count: nat, vs: seq<Bytes>, offsets: seq<nat>, puts: seq<nat>)
    requires ValidShape(sh) && Kept(sh, start, log, ops, vs, offsets, puts)
    ensures Kept(sh, start, Log(log.data, log.num + count), ops + [Lose(count)], vs, offsets, puts)
    ensures !Lossless(ops + [Lose(count)])
  {
    hide ApplyAll, Puts, Given;
    OneMoreOp(sh, start, ops, Lose(count));
    GivenOn(sh, start, ops, ops + [Lose(count)], vs, offsets, puts);
    assert (ops + [Lose(count)])[|ops|].Lose?;
  }

  lemma {:induction false} PutsOfBatch(vs: seq<Bytes>)
    requires forall k :: 0 <= k < |vs| ==> vs[k] != []
    ensures Puts(PutOps(vs)) == vs
    decreases |vs|
  {
    if vs != [] {
      var most := vs[..|vs| - 1];
      PutsOfBatch(most);
      assert PutOps(vs)[..|vs| - 1] == PutOps(most);
    }
  }

  lemma {:induction false} BatchIsCalm(sh: Shape, start: nat, ops: seq<Op>, vs: seq<Bytes>)
    requires ValidShape(sh)
    ensures Calm(sh, start, ops) ==> Calm(sh, start, ops + PutOps(vs))
    ensures Lossless(ops) ==> Lossless(ops + PutOps(vs))
    decreases |vs|
  {
    hide ApplyAll;
    if vs == [] {
      assert ops + PutOps(vs) == ops;
    } else {
      var most := vs[..|vs| - 1];
      var all := ops + PutOps(vs);
      assert all[..|all| - 1] == ops + PutOps(most);
      BatchIsCalm(sh, start, ops, most);
    }
  }

  function Range(from: nat, n: nat): (s: seq<nat>)
    ensures |s| == n && forall k :: 0 <= k < n ==> s[k] == from + k
  {
    seq(n, i requires 0 <= i => from + i)
  }

  // Values written behind the log: more operations, more values, more offsets.
  lemma KeptBatch(sh: Shape, start: nat, log: Log, ops: seq<Op>, vs: seq<Bytes>, offsets: seq<nat>, puts: seq<nat>,
                  more: seq<Bytes>, given: seq<nat>)
    requires ValidShape(sh) && Kept(sh, start, log, ops, vs, offsets, puts)
    requires |given| == |more| && forall k :: 0 <= k < |more| ==> more[k] != []
    requires forall k :: 0 <= k < |more| ==> given[k] == Pos(sh, PutAll(sh, log, more[..k]))
    ensures Kept(sh, start, PutAll(sh, log, more), ops + PutOps(more), vs + more, offsets + given, puts + Range(|ops|, |more|))
  {
    hide ApplyAll, PutAll, Puts, Given;
    BatchIsPuts(sh, start, ops, more);
    PutsTogether(ops, PutOps(more));
    PutsOfBatch(more);
    GivenBatch(sh, start, ops, vs, offsets, puts, more, given);
  }

  lemma BatchUpTo(sh: Shape, start: nat, ops: seq<Op>, more: seq<Bytes>, k: nat)
    requires ValidShape(sh) && k < |more| && forall j :: 0 <= j < |more| ==> more[j] != []
    ensures ApplyAll(sh, start, (ops + PutOps(more))[..|ops| + k]) == PutAll(sh, ApplyAll(sh, start, ops), more[..k])
  {
    hide ApplyAll, PutAll;
    assert (ops + PutOps(more))[..|ops| + k] == ops + PutOps(more[..k]);
    BatchIsPuts(sh, start, ops, more[..k]);
  }

  lemma GivenBatch(sh: Shape, start: nat, ops: seq<Op>, vs: seq<Bytes>, offsets: seq<nat>, puts: seq<nat>,
                   more: seq<Bytes>, given: seq<nat>)
    requires ValidShape(sh) && Given(sh, start, ops, vs, offsets, puts)
    requires |given| == |more| && forall k :: 0 <= k < |more| ==> more[k] != []
    requires forall k :: 0 <= k < |more| ==> given[k] == Pos(sh, PutAll(sh, ApplyAll(sh, start, ops), more[..k]))
    ensures Given(sh, start, ops + PutOps(more), vs + more, offsets + given, puts + Range(|ops|, |more|))
  {
    hide ApplyAll, PutAll, Pos, Placed, IsGiven;
    var all, places := ops + PutOps(more), puts + Range(|ops|, |more|);
    GivenOn(sh, start, ops, all, vs, offsets, puts);
    forall k | 0 <= k < |vs + more| ensures IsGiven(sh, start, all, (vs + more)[k], (offsets + given)[k], places[k]) {
      if k < |vs| {
        assert IsGiven(sh, start, all, vs[k], offsets[k], puts[k]);
      } else {
        BatchIsGiven(sh, start, ops, more, k - |vs|, given[k - |vs|]);
      }
    }
  }

  lemma BatchIsGiven(sh: Shape, start: nat, ops: seq<Op>, more: seq<Bytes>, k: nat, at: nat)
    requires ValidShape(sh) && k < |more| && forall j :: 0 <= j < |more| ==> more[j] != []
    requires at == Pos(sh, PutAll(sh, ApplyAll(sh, start, ops), more[..k]))
    ensures IsGiven(sh, start, ops + PutOps(more), more[k], at, |ops| + k)
  {
    hide ApplyAll, PutAll, Pos, Placed;
    BatchUpTo(sh, start, ops, more, k);
  }

  // What holds between the calls of a session; flushed says that the file has all of the log.
  // As long as no write was lost, nothing of this generation lies behind the log, and whatever
  // was skipped says nothing.
  ghost predicate InSession(w: DirectIOWriteInfo, flushed: bool, ops: seq<Op>)
    reads w, w.buffer
  {
    && w.Valid() && w.InFile() && w.maxBuf != 2 * w.sh.blockSize
    && (if flushed then w.Flushed() else w.ioOffset < w.offset)
    && (Lossless(ops) ==> Calm(w.sh, w.startSeq, ops) && (if flushed then w.Clean() else w.StaleBehind()))
  }

  lemma FlushedIsInFile(w: DirectIOWriteInfo)
    requires w.Valid() && w.Flushed() && |w.file| <= MAX_FILE
    ensures w.InFile()
  {
  }

  lemma OneIsBatch(sh: Shape, log: Log, v: Bytes)
    requires ValidShape(sh) && Placed(sh, |log.data|) && v != []
    ensures PutAll(sh, log, [v]) == PutTo(sh, log, v) && PutAll(sh, log, [v][..0]) == log
  {
    hide PutTo;
    assert [v][..0] == [];
  }

  // What a direct write, of one value or many, made of the log.
  ghost predicate Outcome(sh: Shape, log: Log, vs: seq<Bytes>, code: int, given: seq<nat>, log': Log)
    requires ValidShape(sh) && Placed(sh, |log.data|) && forall k :: 0 <= k < |vs| ==> vs[k] != []
  {
    if code == 0 then
      && log' == PutAll(sh, log, vs) && |given| == |vs|
      && forall k :: 0 <= k < |vs| ==> given[k] == Pos(sh, PutAll(sh, log, vs[..k]))
    else if code == POOR_WRITE then log'.data == log.data && log'.num >= log.num
    else log' == log
  }

  // The operations it adds.
  function Added(vs: seq<Bytes>, code: int, count: int): seq<Op> {
    if code == 0 then PutOps(vs) else if code == POOR_WRITE && count >= 0 then [Lose(count)] else []
  }

  lemma OutcomeIsKept(sh: Shape, start: nat, base: seq<Op>, more: seq<Bytes>, code: int, given: seq<nat>, log': Log,
                      vs: seq<Bytes>, offsets: seq<nat>, puts: seq<nat>)
    requires ValidShape(sh) && (forall k :: 0 <= k < |more| ==> more[k] != [])
    requires Outcome(sh, ApplyAll(sh, start, base), more, code, given, log')
    requires Kept(sh, start, ApplyAll(sh, start, base), base, vs, offsets, puts)
    ensures var ops := base + Added(more, code, log'.num - ApplyAll(sh, start, base).num);
      && (if code == 0 then Kept(sh, start, log', ops, vs + more, offsets + given, puts + Range(|base|, |more|))
          else Kept(sh, start, log', ops, vs, offsets, puts))
      && (if code == POOR_WRITE then !Lossless(ops)
          else (Calm(sh, start, base) ==> Calm(sh, start, ops)) && (Lossless(base) ==> Lossless(ops)))
  {
    hide ApplyAll, PutAll, Puts, Pos, Calm, Lossless, Given, Kept;
    var log := ApplyAll(sh, start, base);
    if code == 0 {
      KeptBatch(sh, start, log, base, vs, offsets, puts, more, given);
      BatchIsCalm(sh, start, base, more);
    } else if code == POOR_WRITE {
      KeptLoss(sh, start, log, base, log'.num - log.num, vs, offsets, puts);
    } else {
      assert base + [] == base;
    }
  }

  lemma SingleOutcome(sh: Shape, log: Log, v: Bytes, code: int, at: nat, log': Log)
    requires ValidShape(sh) && Placed(sh, |log.data|) && v != []
    requires code == 0 ==> log' == PutTo(sh, log, v) && at == Pos(sh, log)
    requires code == POOR_WRITE ==> log' == Log(log.data, PutTo(sh, log, v).num)
    requires code != 0 && code != POOR_WRITE ==> log' == log
    ensures Outcome(sh, log, [v], code, if code == 0 then [at] else [], log')
  {
    hide PutTo;
    OneIsBatch(sh, log, v);
  }

  lemma LeftAnyway(sh: Shape, file: Bytes, log: Log, log': Log, v: Bytes)
    requires ValidShape(sh) && Placed(sh, |log.data|) && log.data == log'.data && v != []
    ensures LeftThere(sh, file, log, v) <==> LeftThere(sh, file, log', v)
  {
  }

  // Write one value directly.
  method WriteDirect(w: DirectIOWriteInfo, v: Bytes, strategy: Strategy, blocks: nat, ghost ops: seq<Op>)
    returns (code: int, given: seq<nat>, ghost base: seq<Op>, ghost skipped: bool, ghost rest: Bytes)
    requires InSession(w, true, ops) && v != [] && w.TheLog() == ApplyAll(w.sh, w.startSeq, ops)
    modifies w, w.buffer
    ensures w.Valid() && w.Flushed() && w.InFile() && w.startSeq == old(w.startSeq)
    ensures code in {0, LARGE_WRITE, NEXT_FILE, POOR_WRITE} && (code != 0 ==> given == [])
    ensures Outcome(w.sh, ApplyAll(w.sh, w.startSeq, base), [v], code, given, w.TheLog())
    ensures base == LeftBehind(ops, skipped, rest)
    ensures Lossless(ops) ==> Calm(w.sh, w.startSeq, base) && (code != POOR_WRITE ==> w.Clean())
    ensures code == POOR_WRITE && blocks > 0 && w.offset % w.sh.blockSize != 0 ==> LeftThere(w.sh, w.file, w.TheLog(), v)
    ensures code == WriteCode(w.sh, w.maxBuf, Place(strategy, w.sh, old(w.offset), [v]), [v], blocks)
  {
    hide ApplyAll, Apply, Calm, IsCalm, CleanOf, DataOf, FlushedOf, Skips, Puts, PutTo, PutAll, Placed,
      BehindHead, Up, LeftThere, Outcome, WriteCode, Place;
    w.strategy := strategy;
    skipped := Skips(w.strategy, w.sh, w.offset, [v]);
    rest := RestOf(w, skipped);
    SkipsInBlock(w.strategy, w.sh, w.offset, [v]);
    BaseIs(w, skipped);
    LeftBehindOps(w.sh, w.startSeq, ops, skipped, rest);
    base := LeftBehind(ops, skipped, rest);
    ghost var log := ApplyAll(w.sh, w.startSeq, base);
    assert w.Base(skipped) == log;
    var ok, at;
    ok, code, at := w.DirectIOWrite(v, blocks);
    given := if code == 0 then [at] else [];
    SingleOutcome(w.sh, log, v, code, at, w.TheLog());
    FlushedIsInFile(w);
    if code == POOR_WRITE {
      LeftAnyway(w.sh, w.file, log, w.TheLog(), v);
    }
  }

  // Write a batch directly.
  method WriteBatch(w: DirectIOWriteInfo, vs: seq<Bytes>, strategy: Strategy, blocks: nat, ghost ops: seq<Op>)
    returns (code: int, given: seq<nat>, ghost base: seq<Op>, ghost skipped: bool, ghost rest: Bytes)
    requires InSession(w, true, ops) && vs != [] && forall k :: 0 <= k < |vs| ==> vs[k] != []
    requires w.TheLog() == ApplyAll(w.sh, w.startSeq, ops)
    modifies w, w.buffer
    ensures w.Valid() && w.Flushed() && w.InFile() && w.startSeq == old(w.startSeq)
    ensures code in {0, LARGE_WRITE, NEXT_FILE, POOR_WRITE} && (code != 0 ==> given == [])
    ensures Outcome(w.sh, ApplyAll(w.sh, w.startSeq, base), vs, code, given, w.TheLog())
    ensures base == LeftBehind(ops, skipped, rest)
    ensures Lossless(ops) ==> Calm(w.sh, w.startSeq, base) && (code != POOR_WRITE ==> w.Clean())
    ensures code == POOR_WRITE && blocks > 0 && w.offset % w.sh.blockSize != 0 ==> LeftThere(w.sh, w.file, w.TheLog(), vs[0])
    ensures code == WriteCode(w.sh, w.maxBuf, Place(strategy, w.sh, old(w.offset), vs), vs, blocks)
  {
    hide ApplyAll, Apply, Calm, IsCalm, CleanOf, DataOf, FlushedOf, Skips, Puts, PutAll, Placed, BehindHead, Up, LeftThere,
      WriteCode, Place;
    w.strategy := strategy;
    skipped := Skips(w.strategy, w.sh, w.offset, vs);
    rest := RestOf(w, skipped);
    SkipsInBlock(w.strategy, w.sh, w.offset, vs);
    BaseIs(w, skipped);
    LeftBehindOps(w.sh, w.startSeq, ops, skipped, rest);
    base := LeftBehind(ops, skipped, rest);
    ghost var log := ApplyAll(w.sh, w.startSeq, base);
    assert w.Base(skipped) == log;
    code, given := w.BatchDirectIOWrite(vs, blocks);
    given := if code == 0 then given else [];
    FlushedIsInFile(w);
    if code == POOR_WRITE {
      LeftAnyway(w.sh, w.file, log, w.TheLog(), vs[0]);
    }
  }

  lemma CleanIsStale(w: DirectIOWriteInfo)
    requires w.Valid() && w.Clean()
    ensures w.StaleBehind()
  {
    hide NumberedIn;
  }

  // Flush the buffer.
  method FlushBuffer(w: DirectIOWriteInfo, flushed: bool, blocks: nat, ghost ops: seq<Op>) returns (code: int)
    requires InSession(w, flushed, ops)
    modifies w, w.buffer
    ensures InSession(w, code == 0, ops) && w.TheLog() == old(w.TheLog()) && w.startSeq == old(w.startSeq)
    ensures code == (if old(w.AllLands(blocks)) then 0 else POOR_WRITE) && w.offset == old(w.offset)
  {
    hide Calm, CleanOf, DataOf, FlushedOf, Placed, BehindHead, Up, NumberedIn, Lossless;
    if flushed && Lossless(ops) {
      CleanIsStale(w);
    }
    code := w.FlushDirectIOBufferImpl(blocks);
  }

  // Write a value through the buffer.
  method WriteBuffered(w: DirectIOWriteInfo, flushed: bool, v: Bytes, blocks: nat, ghost ops: seq<Op>)
    returns (flushed': bool, code: int, at: nat)
    requires InSession(w, flushed, ops) && w.TheLog() == ApplyAll(w.sh, w.startSeq, ops)
    modifies w, w.buffer
    ensures InSession(w, flushed', ops) && w.startSeq == old(w.startSeq)
    ensures code in {0, -1, LARGE_WRITE, NEXT_FILE, POOR_WRITE} && (code == -1 <==> v == [])
    ensures code == 0 ==> v != [] && w.TheLog() == PutTo(w.sh, old(w.TheLog()), v) && at == Pos(w.sh, old(w.TheLog()))
    ensures code != 0 ==> w.TheLog() == old(w.TheLog())
    ensures v != [] ==> code == old(w.BufferCode(v, blocks))
  {
    hide ApplyAll, Calm, CleanOf, DataOf, FlushedOf, Placed, BehindHead, Up, NumberedIn, Lossless;
    if flushed && Lossless(ops) {
      CleanIsStale(w);
    }
    w.strategy := MaxCompact;
    ghost var before := w.buffer[..];
    code, at := w.DirectIOBufferWrite(v, blocks);
    flushed' := flushed && code != 0 && code != POOR_WRITE;
    if flushed' {
      assert w.buffer[..] == before;
      assert w.Flushed();
    } else {
      assert w.ioOffset < w.offset;
    }
    assert w.InFile();
  }

  lemma LosslessBefore(ops: seq<Op>, more: seq<Op>)
    ensures Lossless(ops + more) ==> Lossless(ops)
  {
    forall k | 0 <= k < |ops| ensures (ops + more)[k] == ops[k] {
    }
  }

  // The places of the values of one more call.
  function MorePuts(base: seq<Op>, more: seq<Bytes>, code: int): seq<nat> {
    if code == 0 then Range(|base|, |more|) else []
  }

  // A session goes on behind a direct write.
  lemma WriteIsKept(w: DirectIOWriteInfo, ops: seq<Op>, base: seq<Op>, skipped: bool, rest: Bytes, more: seq<Bytes>,
                    code: int, given: seq<nat>, vs: seq<Bytes>, offsets: seq<nat>, puts: seq<nat>)
    requires w.Valid() && w.Flushed() && w.InFile() && w.maxBuf != 2 * w.sh.blockSize && base == LeftBehind(ops, skipped, rest)
    requires (forall k :: 0 <= k < |more| ==> more[k] != []) && (code != 0 ==> given == [])
    requires Kept(w.sh, w.startSeq, ApplyAll(w.sh, w.startSeq, ops), ops, vs, offsets, puts)
    requires Outcome(w.sh, ApplyAll(w.sh, w.startSeq, base), more, code, given, w.TheLog())
    requires Lossless(ops) ==> Calm(w.sh, w.startSeq, base) && (code != POOR_WRITE ==> w.Clean())
    ensures var ops' := base + Added(more, code, w.blkSeq - ApplyAll(w.sh, w.startSeq, base).num);
      && InSession(w, true, ops')
      && Kept(w.sh, w.startSeq, w.TheLog(), ops', vs + (if code == 0 then more else []), offsets + given,
              puts + MorePuts(base, more, code))
      && (code != POOR_WRITE && Lossless(ops) ==> Lossless(ops'))
  {
    hide ApplyAll, Calm, Puts, Kept, Outcome, Lossless, CleanOf, DataOf, FlushedOf, Placed, BehindHead, Up, NumberedIn, Range;
    var added := Added(more, code, w.blkSeq - ApplyAll(w.sh, w.startSeq, base).num);
    KeptSkip(w.sh, w.startSeq, ApplyAll(w.sh, w.startSeq, ops), ops, skipped, rest, vs, offsets, puts);
    LeftBehindOps(w.sh, w.startSeq, ops, skipped, rest);
    OutcomeIsKept(w.sh, w.startSeq, base, more, code, given, w.TheLog(), vs, offsets, puts);
    LosslessBefore(base, added);
    if code != 0 {
      assert vs + [] == vs && offsets + [] == offsets && puts + [] == puts;
    }
  }

  // An empty value in a batch fails an assertion of the program.
  predicate Allowed(act: Act) {
    act.Batch? ==> forall k :: 0 <= k < |act.vs| ==> act.vs[k] != []
  }

  predicate MayLose(act: Act, code: int) {
    (act.Direct? || act.Batch?) && code == POOR_WRITE
  }

  lemma KeptPut(sh: Shape, start: nat, log: Log, ops: seq<Op>, v: Bytes, at: nat,
                vs: seq<Bytes>, offsets: seq<nat>, puts: seq<nat>)
    requires ValidShape(sh) && v != [] && Kept(sh, start, log, ops, vs, offsets, puts) && at == Pos(sh, log)
    ensures Kept(sh, start, PutTo(sh, log, v), ops + PutOps([v]), vs + [v], offsets + [at], puts + Range(|ops|, 1))
    ensures (Calm(sh, start, ops) ==> Calm(sh, start, ops + PutOps([v]))) && (Lossless(ops + PutOps([v])) <==> Lossless(ops))
  {
    hide ApplyAll, PutTo, Puts, Pos, Given, Calm, Lossless;
    OneIsBatch(sh, log, v);
    KeptBatch(sh, start, log, ops, vs, offsets, puts, [v], [at]);
    BatchIsCalm(sh, start, ops, [v]);
    LosslessBefore(ops, PutOps([v]));
  }

  lemma KeptFacts(sh: Shape, start: nat, log: Log, ops: seq<Op>, vs: seq<Bytes>, offsets: seq<nat>, puts: seq<nat>)
    requires ValidShape(sh) && Kept(sh, start, log, ops, vs, offsets, puts)
    ensures log == ApplyAll(sh, start, ops) && Puts(ops) == vs && |offsets| == |vs|
  {
    hide ApplyAll, Puts;
  }

  // What a direct write answers: it goes where its strategy places it, if it fits there.
  ghost function DirectCode(w: DirectIOWriteInfo, act: Act): int
    reads w
    requires w.Valid() && (act.Direct? || act.Batch?)
  {
    WriteCode(w.sh, w.maxBuf, Place(act.strategy, w.sh, w.offset, ValuesOf(act)), ValuesOf(act), act.blocks)
  }

  predicate IsEmpty(act: Act) {
    !act.Flush? && (ValuesOf(act) == [] || ValuesOf(act)[0] == [])
  }

  // What a call of a session answers.
  ghost function Answer(w: DirectIOWriteInfo, flushed: bool, act: Act): int
    reads w
    requires w.Valid()
  {
    if IsEmpty(act) then -1
    else match act
      case Flush(blocks) => if w.AllLands(blocks) then 0 else POOR_WRITE
      case Buffered(v, blocks) => w.BufferCode(v, blocks)
      case _ => if flushed || w.AllLands(act.flush) then DirectCode(w, act) else POOR_WRITE
  }

  // A direct write, of one value or a batch.
  method PerformDirect(w: DirectIOWriteInfo, act: Act,
                       ghost ops: seq<Op>, ghost vs: seq<Bytes>, ghost offsets: seq<nat>, ghost puts: seq<nat>)
    returns (code: int, given: seq<nat>, ghost ops': seq<Op>, ghost puts': seq<nat>)
    requires InSession(w, true, ops) && Kept(w.sh, w.startSeq, w.TheLog(), ops, vs, offsets, puts)
    requires Allowed(act) && (act.Direct? || act.Batch?) && ValuesOf(act) != [] && [] !in ValuesOf(act)
    modifies w, w.buffer
    ensures InSession(w, true, ops') && w.startSeq == old(w.startSeq)
    ensures Kept(w.sh, w.startSeq, w.TheLog(), ops', vs + (if code == 0 then ValuesOf(act) else []), offsets + given, puts')
    ensures code in {0, LARGE_WRITE, NEXT_FILE, POOR_WRITE}
    ensures code == old(DirectCode(w, act))
    ensures code != POOR_WRITE && Lossless(ops) ==> Lossless(ops')
  {
    hide ApplyAll, Calm, Kept, Outcome, Lossless, Added, MorePuts, CleanOf, DataOf, FlushedOf, Placed,
      BehindHead, Up, NumberedIn, LeftThere, WriteCode, Place;
    ghost var base, skipped, rest;
    KeptFacts(w.sh, w.startSeq, w.TheLog(), ops, vs, offsets, puts);
    match act {
      case Direct(v, strategy, _, blocks) =>
        assert v in ValuesOf(act);
        code, given, base, skipped, rest := WriteDirect(w, v, strategy, blocks, ops);
      case Batch(values, strategy, _, blocks) =>
        code, given, base, skipped, rest := WriteBatch(w, values, strategy, blocks, ops);
    }
    ghost var more := ValuesOf(act);
    WriteIsKept(w, ops, base, skipped, rest, more, code, given, vs, offsets, puts);
    ops' := base + Added(more, code, w.blkSeq - ApplyAll(w.sh, w.startSeq, base).num);
    puts' := puts + MorePuts(base, more, code);
  }

  // One call of a session: a direct write finds the buffer flushed, or flushes it.
  method Perform(w: DirectIOWriteInfo, flushed: bool, act: Act,
                 ghost ops: seq<Op>, ghost vs: seq<Bytes>, ghost offsets: seq<nat>, ghost puts: seq<nat>)
    returns (flushed': bool, code: int, given: seq<nat>, ghost ops': seq<Op>, ghost puts': seq<nat>)
    requires InSession(w, flushed, ops) && Kept(w.sh, w.startSeq, w.TheLog(), ops, vs, offsets, puts) && Allowed(act)
    modifies w, w.buffer
    ensures InSession(w, flushed', ops') && w.startSeq == old(w.startSeq)
    ensures Kept(w.sh, w.startSeq, w.TheLog(), ops', vs + (if code == 0 then ValuesOf(act) else []), offsets + given, puts')
    ensures code in {0, -1, LARGE_WRITE, NEXT_FILE, POOR_WRITE}
    ensures code == old(Answer(w, flushed, act)) && (code == -1 <==> IsEmpty(act))
    ensures !MayLose(act, code) && Lossless(ops) ==> Lossless(ops')
  {
    hide ApplyAll, Calm, Kept, Lossless, PutTo, PutOps, CleanOf, DataOf, FlushedOf, Placed, BehindHead, Up, NumberedIn,
      WriteCode, Place, BlocksFor, Times;
    flushed', code, given, ops', puts' := flushed, 0, [], ops, puts;
    assert vs + [] == vs && offsets + [] == offsets;
    KeptFacts(w.sh, w.startSeq, w.TheLog(), ops, vs, offsets, puts);
    match act {
      case Flush(blocks) =>
        code := FlushBuffer(w, flushed, blocks, ops);
        flushed' := code == 0;
      case Buffered(v, blocks) =>
        ghost var log := w.TheLog();
        var at;
        flushed', code, at := WriteBuffered(w, flushed, v, blocks, ops);
        if code == 0 {
          KeptPut(w.sh, w.startSeq, log, ops, v, at, vs, offsets, puts);
          given, ops', puts' := [at], ops + PutOps([v]), puts + Range(|ops|, 1);
        }
      case _ =>
        if ValuesOf(act) == [] || ValuesOf(act)[0] == [] {
          code := -1;
          return;
        }
        if !flushed {
          code := FlushBuffer(w, flushed, act.flush, ops);
          if code != 0 {
            return;
          }
          flushed' := true;
        }
        code, given, ops', puts' := PerformDirect(w, act, ops, vs, offsets, puts);
    }
  }

  lemma SessionStarts(w: DirectIOWriteInfo)
    requires w.Valid() && w.TheLog() == Log([], w.startSeq)
    ensures Kept(w.sh, w.startSeq, w.TheLog(), [], [], [], []) && Calm(w.sh, w.startSeq, []) && Lossless([])
  {
  }

  // Calls one after the other, whatever became of those before.
  method WriteAll(w: DirectIOWriteInfo, acts: seq<Act>)
    returns (flushed: bool, codes: seq<int>, offsets: seq<nat>, ghost ops: seq<Op>, ghost puts: seq<nat>)
    requires w.Valid() && w.Flushed() && w.Clean() && w.InFile() && w.TheLog() == Log([], w.startSeq)
    requires w.maxBuf != 2 * w.sh.blockSize && forall i :: 0 <= i < |acts| ==> Allowed(acts[i])
    modifies w, w.buffer
    ensures InSession(w, flushed, ops) && w.startSeq == old(w.startSeq)
    ensures |codes| == |acts| && forall i :: 0 <= i < |acts| ==>
      codes[i] in {0, -1, LARGE_WRITE, NEXT_FILE, POOR_WRITE} && (codes[i] == -1 <==> IsEmpty(acts[i]))
    ensures Kept(w.sh, w.startSeq, w.TheLog(), ops, Accepted(acts, codes), offsets, puts)
    ensures (forall i :: 0 <= i < |acts| ==> !MayLose(acts[i], codes[i])) ==> Lossless(ops)
  {
    hide ApplyAll, Calm, Kept, Lossless, CleanOf, DataOf, FlushedOf, Placed, BehindHead, Up, NumberedIn;
    flushed, codes, offsets, ops, puts := true, [], [], [], [];
    SessionStarts(w);
    for n := 0 to |acts|
      invariant InSession(w, flushed, ops) && w.startSeq == old(w.startSeq) && |codes| == n
      invariant forall i :: 0 <= i < n ==>
        codes[i] in {0, -1, LARGE_WRITE, NEXT_FILE, POOR_WRITE} && (codes[i] == -1 <==> IsEmpty(acts[i]))
      invariant Kept(w.sh, w.startSeq, w.TheLog(), ops, Accepted(acts[..n], codes), offsets, puts)
      invariant (forall i :: 0 <= i < n ==> !MayLose(acts[i], codes[i])) ==> Lossless(ops)
    {
      ghost var before := codes;
      var code, given;
      flushed, code, given, ops, puts := Perform(w, flushed, acts[n], ops, Accepted(acts[..n], codes), offsets, puts);
      codes, offsets := codes + [code], offsets + given;
      assert acts[..n + 1][..n] == acts[..n] && codes[..n] == before;
    }
    assert acts[..|acts|] == acts;
  }

  lemma {:induction false} PutsAreData(sh: Shape, start: nat, ops: seq<Op>)
    requires ValidShape(sh)
    ensures [] !in Puts(ops) && (Puts(ops) != [] ==> ApplyAll(sh, start, ops).data != [])
  {
    hide Dump, Heads;
    if ops != [] {
      PutsAreData(sh, start, ops[..|ops| - 1]);
    }
  }

  lemma GivenAreRead(w: DirectIOWriteInfo, ops: seq<Op>, vs: seq<Bytes>, offsets: seq<nat>, puts: seq<nat>)
    requires w.Valid() && w.Flushed() && w.offset > 0 && w.TheLog() == ApplyAll(w.sh, w.startSeq, ops)
    requires Given(w.sh, w.startSeq, ops, vs, offsets, puts) && [] !in vs && FarFromWrap(w, vs)
    ensures |offsets| == |vs| && forall k :: 0 <= k < |vs| ==>
      var r := ReadAt(w.sh, w.startSeq, w.file, offsets[k]); r.Value? && r.value == vs[k]
  {
    hide ApplyAll, Read, DataOf, FlushedOf, Span;
    forall k | 0 <= k < |vs|
      ensures var r := ReadAt(w.sh, w.startSeq, w.file, offsets[k]); r.Value? && r.value == vs[k]
    {
      assert IsGiven(w.sh, w.startSeq, ops, vs[k], offsets[k], puts[k]);
      WriterOffsetsRead(w, ops, puts[k]);
    }
  }

  lemma SomethingWritten(w: DirectIOWriteInfo)
    requires w.Valid()
    ensures w.TheLog().data != [] ==> w.offset > 0
  {
  }

  // Behind a session every offset given out reads its value, whatever failed.  Reading from the
  // start gives all values and then the end when nothing was lost.  Otherwise it gives them, with
  // whatever may follow, when every rest that was skipped says nothing.  With a value behind every
  // skip, it gives exactly them if and only if those rests say nothing and nothing is read behind.
  lemma SessionIsRead(w: DirectIOWriteInfo, ops: seq<Op>, vs: seq<Bytes>, offsets: seq<nat>, puts: seq<nat>)
    requires InSession(w, true, ops) && Kept(w.sh, w.startSeq, w.TheLog(), ops, vs, offsets, puts)
    requires vs != [] && FarFromWrap(w, vs)
    ensures |offsets| == |vs| && forall k :: 0 <= k < |vs| ==>
      var r := ReadAt(w.sh, w.startSeq, w.file, offsets[k]); r.Value? && r.value == vs[k]
    ensures Lossless(ops) ==> ReadsAll(Values(w.sh, w.startSeq, w.file, w.sh.blockSize), vs)
    ensures Calm(w.sh, w.startSeq, ops) ==> vs <= Values(w.sh, w.startSeq, w.file, w.sh.blockSize).0
    ensures NoneDangles(w.sh, w.startSeq, w.file, ops) ==>
      (ReadsAll(Values(w.sh, w.startSeq, w.file, w.sh.blockSize), vs) <==>
       Calm(w.sh, w.startSeq, ops) && ReadsAll(Values(w.sh, w.startSeq, w.file, w.offset), []))
    ensures w.Clean() ==> ReadsAll(Values(w.sh, w.startSeq, w.file, w.offset), [])
  {
    hide ApplyAll, Calm, CleanOf, DataOf, FlushedOf, Puts, Given, Values, ReadAt, Span, Placed, BehindHead,
      Lossless, NoneDangles, EndsAt;
    PutsAreData(w.sh, w.startSeq, ops);
    SomethingWritten(w);
    PutsFit(w, ops, vs);
    GivenAreRead(w, ops, vs, offsets, puts);
    if Lossless(ops) {
      var last := WriterIsRead(w, ops);
    }
    if Calm(w.sh, w.startSeq, ops) {
      WriterIsReadFirst(w, ops);
    }
    if NoneDangles(w.sh, w.startSeq, w.file, ops) {
      WriterReadsIffCalm(w, ops);
    }
    if w.Clean() {
      CleanReadsNothing(w);
    }
  }

  // The life of a file: any calls, the last flush, and a reader from the start.  Every offset
  // given out reads its value.  With no direct write failed, all that was accepted is read in
  // order.  Otherwise, with a value behind every skip, if and only if every skipped rest says
  // nothing and nothing is read behind the log.
  method WriteThenRead(w: DirectIOWriteInfo, acts: seq<Act>, blocks: nat)
    returns (codes: seq<int>, last: int, offsets: seq<nat>, ok: bool, end: int, read: seq<Bytes>,
             ghost ops: seq<Op>, ghost written: seq<Bytes>)
    requires w.Valid() && w.Flushed() && w.Clean() && w.InFile() && w.TheLog() == Log([], w.startSeq)
    requires w.maxBuf != 2 * w.sh.blockSize && forall i :: 0 <= i < |acts| ==> Allowed(acts[i])
    modifies w, w.buffer
    ensures w.Valid() && |codes| == |acts| && written == Accepted(acts, codes)
    ensures w.TheLog() == ApplyAll(w.sh, w.startSeq, ops) && Puts(ops) == written
    ensures (forall i :: 0 <= i < |acts| ==> !MayLose(acts[i], codes[i])) ==> Lossless(ops)
    ensures last == 0 || last == POOR_WRITE
    ensures last == 0 && written != [] && FarFromWrap(w, written) ==>
      && (|offsets| == |written| && forall k :: 0 <= k < |written| ==>
            var r := ReadAt(w.sh, w.startSeq, w.file, offsets[k]); r.Value? && r.value == written[k])
      && (Lossless(ops) ==> ok && end == END && read == written)
      && (Calm(w.sh, w.startSeq, ops) ==> written <= read)
      && (NoneDangles(w.sh, w.startSeq, w.file, ops) ==>
            (ok && end == END && read == written <==>
             Calm(w.sh, w.startSeq, ops) && ReadsAll(Values(w.sh, w.startSeq, w.file, w.offset), [])))
      && (w.Clean() ==> ReadsAll(Values(w.sh, w.startSeq, w.file, w.offset), []))
  {
    hide ApplyAll, Calm, Kept, Lossless, CleanOf, DataOf, FlushedOf, Placed, BehindHead, Up, NumberedIn, Puts, Given, Values,
      ReadAt, Span, NoneDangles, MayLose, FarFromWrap, Fouled, Accepted;
    var flushed;
    ghost var puts;
    flushed, codes, offsets, ops, puts := WriteAll(w, acts);
    written := Accepted(acts, codes);
    last := FlushBuffer(w, flushed, blocks, ops);
    ok, end, read := ReadAll(w.sh, w.startSeq, w.file);
    KeptFacts(w.sh, w.startSeq, w.TheLog(), ops, written, offsets, puts);
    if last == 0 && written != [] && FarFromWrap(w, written) {
      SessionIsRead(w, ops, written, offsets, puts);
    }
  }
}
