/** PaxosKV's log protocol keeps its invariant over every run, and what follows from it. */
module KvAgreement {
  import opened PropNum
  import opened KvInstance
  import opened KvLog
  import opened KvProtocol
  import opened VoteBook
  import opened KvInstanceProof
  import opened KvStepProof

  type Books = map<nat, Book<Entry>>

  ghost predicate BooksOk(books: Books) {
    forall x: nat :: BookOk(BookOf(books, x))
  }

  ghost predicate LogOk(books: Books, i: nat, log: Log)
    requires BooksOk(books) && i < 3
  {
    && IsSlim(log)
    && (forall ins :: ins in log ==> ins.index > 0 && InsOk(BookOf(books, ins.index), i, ins))
    && (forall x :: x > MaxIndex(log) ==> NoTrace(BookOf(books, x), i))
  }

  // The proposer in memory fits the instance of its index, if the log still holds it.
  ghost predicate AliveFits(books: Books, i: nat, alive: Option<Alive>, log: Log)
    requires BooksOk(books) && i < 3
  {
    alive.Some? ==>
      && alive.value.index <= MaxIndex(log)
      && (forall ins :: ins in log && ins.index == alive.value.index ==>
            AliveOk(BookOf(books, ins.index), i, alive.value, ins))
  }

  // The decision before an index is what lets a member propose there without a prepare round.
  ghost predicate Grounds(c: Config, b: Book<Entry>, k: nat)
    requires ValidConfig(c) && 1 <= IdOf(k) <= 3
  {
    exists w :: Decided(b, w) && BelongsTo(w.reqid, c.servers[IdOf(k) - 1])
  }

  ghost predicate FastBacked(c: Config, books: Books)
    requires ValidConfig(c) && BooksOk(books)
  {
    forall x: nat, k: nat :: k in BookOf(books, x).proposed && CntOf(k) == 0 ==>
      x > 1 && Grounds(c, BookOf(books, x - 1), k)
  }

  ghost predicate SentOk(books: Books, sent: set<Msg>)
    requires BooksOk(books)
  {
    forall m :: m in sent ==> MsgOk(BookOf(books, m.index), m)
  }

  ghost predicate NodesOk(books: Books, nodes: seq<Node>)
    requires BooksOk(books)
  {
    |nodes| == 3 && forall i :: 0 <= i < 3 ==>
      LogOk(books, i, nodes[i].log) && AliveFits(books, i, nodes[i].alive, nodes[i].log)
  }

  ghost predicate Inv(c: Config, s: State) {
    && ValidConfig(c) && BooksOk(s.books) && FastBacked(c, s.books)
    && NodesOk(s.books, s.nodes) && SentOk(s.books, s.sent)
  }

  lemma NoBooksOk()
    ensures BookOk(Empty(3, {}))
  {
    EmptyIsConsistent<Entry>(3, {});
  }

  // ---- a book moves at one index ----

  ghost predicate Moves(books: Books, index: nat, b': Book<Entry>, i: nat)
    requires BooksOk(books)
  {
    BookOk(b') && MovedBy(BookOf(books, index), b', i)
  }

  lemma MovesBooks(books: Books, index: nat, b': Book<Entry>, i: nat)
    requires BooksOk(books) && Moves(books, index, b', i)
    ensures BooksOk(books[index := b'])
    ensures forall x :: BookOf(books[index := b'], x) == if x == index then b' else BookOf(books, x)
  {
    var books' := books[index := b'];
    forall x: nat ensures BookOk(BookOf(books', x)) {
      assert BookOk(BookOf(books, x));
    }
  }

  lemma OtherLogStays(books: Books, index: nat, b': Book<Entry>, i: nat, j: nat, log: Log)
    requires BooksOk(books) && Moves(books, index, b', i) && i < 3 && j < 3 && i != j && LogOk(books, j, log)
    ensures BooksOk(books[index := b']) && LogOk(books[index := b'], j, log)
  {
    MovesBooks(books, index, b', i);
    forall ins | ins in log ensures InsOk(BookOf(books[index := b'], ins.index), j, ins) {
      if ins.index == index {
        InsOkStays(BookOf(books, index), b', j, i, ins);
      }
    }
    var books' := books[index := b'];
    forall x | x > MaxIndex(log) ensures NoTrace(BookOf(books', x), j) {
      assert NoTrace(BookOf(books, x), j);
    }
  }

  lemma OtherAliveStays(books: Books, index: nat, b': Book<Entry>, i: nat, j: nat, alive: Option<Alive>, log: Log)
    requires BooksOk(books) && Moves(books, index, b', i) && i < 3 && j < 3 && i != j && AliveFits(books, j, alive, log)
    ensures BooksOk(books[index := b']) && AliveFits(books[index := b'], j, alive, log)
  {
    MovesBooks(books, index, b', i);
    if alive.Some? {
      forall ins | ins in log && ins.index == alive.value.index
        ensures AliveOk(BookOf(books[index := b'], ins.index), j, alive.value, ins)
      {
        if ins.index == index {
          AliveOkStays(BookOf(books, index), b', j, alive.value, ins);
        }
      }
    }
  }

  lemma SentStays(books: Books, index: nat, b': Book<Entry>, i: nat, sent: set<Msg>)
    requires BooksOk(books) && Moves(books, index, b', i) && SentOk(books, sent)
    ensures BooksOk(books[index := b']) && SentOk(books[index := b'], sent)
  {
    MovesBooks(books, index, b', i);
    forall m | m in sent ensures MsgOk(BookOf(books[index := b'], m.index), m) {
      if m.index == index {
        MsgOkStays(BookOf(books, index), b', m);
      }
    }
  }

  // A new proposal without a prepare round needs its grounds; the others keep theirs.
  lemma FastStays(c: Config, books: Books, index: nat, b': Book<Entry>, i: nat)
    requires BooksOk(books) && ValidConfig(c) && Moves(books, index, b', i) && FastBacked(c, books)
    requires forall k :: k in b'.proposed && CntOf(k) == 0 && k !in BookOf(books, index).proposed ==>
      index > 1 && Grounds(c, BookOf(books, index - 1), k)
    ensures BooksOk(books[index := b']) && FastBacked(c, books[index := b'])
  {
    hide Decided, BelongsTo, CntOf, IdOf;
    MovesBooks(books, index, b', i);
    var books' := books[index := b'];
    forall x: nat, k: nat | k in BookOf(books', x).proposed && CntOf(k) == 0
      ensures x > 1 && Grounds(c, BookOf(books', x - 1), k)
    {
      assert k in BookOf(books, x).proposed || x == index;
      assert x > 1 && Grounds(c, BookOf(books, x - 1), k);
      if x - 1 == index {
        var w :| Decided(BookOf(books, index), w) && BelongsTo(w.reqid, c.servers[IdOf(k) - 1]);
        DecidedStays(BookOf(books, index), b', w);
      }
    }
  }

  // ---- a message to a member's log ----

  ghost predicate Ordered(log: Log) {
    forall x, y :: 0 <= x < y < |log| ==> log[x].index < log[y].index
  }

  // What a step leaves behind, whatever becomes of its write.
  ghost predicate StepOk(c: Config, s: State, i: nat, handed: Option<Alive>, r: LogReply)
    requires ValidConfig(c) && BooksOk(s.books) && |s.nodes| == 3 && i < 3
  {
    var d := s.nodes[i];
    if r.stepped.None? then
      && !r.write && r.alive == handed
      && (r.rsp.Some? ==> MsgOk(BookOf(s.books, r.rsp.value.index), r.rsp.value))
    else
      var ins, index := r.stepped.value, r.stepped.value.index;
      var b, b' := BookOf(s.books, index), RecordIns(BookOf(s.books, index), i, ins);
      && Moves(s.books, index, b', i)
      && (forall k :: k in b'.proposed && CntOf(k) == 0 && k !in b.proposed ==>
            index > 1 && Grounds(c, BookOf(s.books, index - 1), k))
      && IsSlim(r.log) && MaxIndex(r.log) >= MaxIndex(d.log) && MaxIndex(r.log) >= index > 0
      && InsOk(b', i, ins)
      && (forall x :: x in r.log ==> x == ins || (x.index != index && x in d.log))
      && (!r.write ==> b' == b)
      && (r.rsp.Some? ==> r.rsp.value.index == index && MsgOk(b', r.rsp.value))
      && (r.alive.Some? ==>
            && r.alive.value.index == index && handed.Some? && AliveOk(b', i, r.alive.value, ins)
            && (forall x :: x in d.log && x.index == index ==> AliveOk(b, i, r.alive.value, x)))
      && (handed.None? && d.alive.Some? ==> d.alive.value.index != index)
  }

  lemma NewLogOk(books: Books, i: nat, log: Log, log': Log, ins: Instance, b': Book<Entry>)
    requires BooksOk(books) && i < 3 && LogOk(books, i, log) && Moves(books, ins.index, b', i)
    requires IsSlim(log') && MaxIndex(log') >= MaxIndex(log) && MaxIndex(log') >= ins.index > 0
    requires InsOk(b', i, ins)
    requires forall x :: x in log' ==> x == ins || (x.index != ins.index && x in log)
    ensures BooksOk(books[ins.index := b']) && LogOk(books[ins.index := b'], i, log')
  {
    MovesBooks(books, ins.index, b', i);
    var books' := books[ins.index := b'];
    forall x | x in log' ensures x.index > 0 && InsOk(BookOf(books', x.index), i, x) {
    }
    forall x | x > MaxIndex(log') ensures NoTrace(BookOf(books', x), i) {
      assert NoTrace(BookOf(books, x), i);
    }
  }

  lemma StoredLogOk(c: Config, s: State, i: nat, handed: Option<Alive>, r: LogReply)
    requires Inv(c, s) && i < 3 && StepOk(c, s, i, handed, r) && r.stepped.Some?
    ensures var index := r.stepped.value.index; var b' := RecordIns(BookOf(s.books, index), i, r.stepped.value);
      BooksOk(s.books[index := b']) && LogOk(s.books[index := b'], i, r.log)
  {
    var index := r.stepped.value.index;
    NewLogOk(s.books, i, s.nodes[i].log, r.log, r.stepped.value,
             RecordIns(BookOf(s.books, index), i, r.stepped.value));
  }

  lemma StoredAliveFits(c: Config, s: State, i: nat, handed: Option<Alive>, r: LogReply)
    requires Inv(c, s) && i < 3 && StepOk(c, s, i, handed, r) && r.stepped.Some?
    ensures var index := r.stepped.value.index; var b' := RecordIns(BookOf(s.books, index), i, r.stepped.value);
      && BooksOk(s.books[index := b'])
      && AliveFits(s.books[index := b'], i, Keep(s.nodes[i].alive, handed, r.alive), r.log)
  {
    var index := r.stepped.value.index;
    var b' := RecordIns(BookOf(s.books, index), i, r.stepped.value);
    MovesBooks(s.books, index, b', i);
    assert AliveFits(s.books, i, s.nodes[i].alive, s.nodes[i].log);
  }

  // The write succeeded.
  lemma StoredKeeps(c: Config, s: State, i: nat, handed: Option<Alive>, r: LogReply)
    requires Inv(c, s) && i < 3 && StepOk(c, s, i, handed, r) && r.stepped.Some? && r.write
    ensures Inv(c, Effect(s, i, handed, r, true))
  {
    var index := r.stepped.value.index;
    var b' := RecordIns(BookOf(s.books, index), i, r.stepped.value);
    var books' := s.books[index := b'];
    var s' := Effect(s, i, handed, r, true);
    MovesBooks(s.books, index, b', i);
    assert s'.books == books';
    forall j | 0 <= j < 3
      ensures LogOk(books', j, s'.nodes[j].log) && AliveFits(books', j, s'.nodes[j].alive, s'.nodes[j].log)
    {
      if j == i {
        StoredLogOk(c, s, i, handed, r);
        StoredAliveFits(c, s, i, handed, r);
      } else {
        assert LogOk(s.books, j, s.nodes[j].log);
        OtherLogStays(s.books, index, b', i, j, s.nodes[j].log);
        OtherAliveStays(s.books, index, b', i, j, s.nodes[j].alive, s.nodes[j].log);
      }
    }
    SentStays(s.books, index, b', i, s.sent);
    FastStays(c, s.books, index, b', i);
  }

  // Nothing was written, by choice or by failure.
  lemma NotStoredKeeps(c: Config, s: State, i: nat, handed: Option<Alive>, r: LogReply, writeOk: bool)
    requires Inv(c, s) && i < 3 && StepOk(c, s, i, handed, r) && (!r.write || !writeOk)
    requires handed.Some? ==> handed.value.index <= MaxIndex(s.nodes[i].log) && (handed == s.nodes[i].alive)
    requires handed.Some? && r.stepped.Some? ==> r.stepped.value.index == handed.value.index
    ensures Inv(c, Effect(s, i, handed, r, writeOk))
  {
    var s' := Effect(s, i, handed, r, writeOk);
    assert LogOk(s.books, i, s.nodes[i].log) && AliveFits(s.books, i, s.nodes[i].alive, s.nodes[i].log);
    assert s'.books == s.books;
    assert s'.nodes[i].log == s.nodes[i].log;
    assert AliveFits(s.books, i, s'.nodes[i].alive, s.nodes[i].log);
    forall j | 0 <= j < 3
      ensures LogOk(s.books, j, s'.nodes[j].log) && AliveFits(s.books, j, s'.nodes[j].alive, s'.nodes[j].log)
    {
    }
  }

  // ---- from a message to its effect on the log ----

  lemma SlimIsOrdered(log: Log)
    requires IsSlim(log)
    ensures Ordered(log)
  {
  }

  lemma {:induction false} PositionIs(log: Log, index: nat, k: nat)
    requires k < |log| && log[k].index == index && Ordered(log)
    ensures Position(log, index) == k
  {
    if k > 0 {
      assert log[0].index < log[k].index;
      assert log[1..][k - 1] == log[k];
      assert Ordered(log[1..]) by {
        forall x, y | 0 <= x < y < |log[1..]| ensures log[1..][x].index < log[1..][y].index {
          assert log[x + 1].index < log[y + 1].index;
        }
      }
      PositionIs(log[1..], index, k - 1);
    }
  }

  lemma {:induction false} LastChosenIsThere(log: Log)
    requires LastChosen(log).Some?
    ensures LastChosen(log).value in log && LastChosen(log).value.chosen
  {
    if !log[|log| - 1].chosen {
      LastChosenIsThere(log[..|log| - 1]);
    }
  }

  // What the shrunk log holds after the instance at k became ins.
  lemma ShrunkLog(log: Log, k: nat, ins: Instance)
    requires Ordered(log) && k < |log| && ins.index == log[k].index
    ensures var log' := Shrink(log[k := ins]);
      && IsSlim(log') && MaxIndex(log') == MaxIndex(log) >= ins.index
      && (forall x :: x in log' ==> x == ins || (x.index != ins.index && x in log))
  {
    var log1 := log[k := ins];
    forall x | x in log1 ensures x == ins || (x.index != ins.index && x in log) {
      var j :| 0 <= j < |log1| && log1[j] == x;
      if j < k {
        assert log[j].index < log[k].index;
      } else if k < j {
        assert log[k].index < log[j].index;
      }
    }
    if k < |log| - 1 {
      assert log[k].index < log[|log| - 1].index;
    }
  }

  // The log a message is applied to: the stored one, or that with a blank instance appended.
  ghost predicate Opened(before: Log, log: Log, index: nat) {
    log == before || (log == before + [Blank(index)] && index > MaxIndex(before))
  }

  lemma OpenedIsOrdered(before: Log, log: Log, index: nat)
    requires IsSlim(before) && Opened(before, log, index)
    ensures Ordered(log) && MaxIndex(log) >= MaxIndex(before)
    ensures forall x :: x in log ==> x in before || x == Blank(index)
  {
  }

  lemma OpenedInsOk(books: Books, i: nat, before: Log, log: Log, index: nat, k: nat)
    requires BooksOk(books) && i < 3 && LogOk(books, i, before) && Opened(before, log, index)
    requires k < |log| && log[k].index == index && index > 0
    ensures InsOk(BookOf(books, index), i, log[k])
  {
    if log[k] !in before {
      assert log[k] == Blank(index);
      BlankIsOk(BookOf(books, index), i, index);
    }
  }

  // From the reply of the instance to the reply of the log.
  lemma StepAtOk(c: Config, s: State, i: nat, log: Log, k: nat, handed: Option<Alive>, alive: Option<Alive>, msg: Msg)
    requires Inv(c, s) && i < 3 && k < |log| && Opened(s.nodes[i].log, log, msg.index) && msg.index > 0
    requires log[k].index == msg.index && StepAt(log, k, alive, msg).Done? && InsStep(alive, log[k], msg).Done?
    requires ReplyOk(BookOf(s.books, msg.index), i, log[k], InsStep(alive, log[k], msg).value)
    requires var b := BookOf(s.books, msg.index);
      var b' := RecordIns(b, i, InsStep(alive, log[k], msg).value.ins);
      forall x :: x in b'.proposed && CntOf(x) == 0 && x !in b.proposed ==>
        msg.index > 1 && Grounds(c, BookOf(s.books, msg.index - 1), x)
    requires InsStep(alive, log[k], msg).value.alive.Some? ==> handed.Some?
    requires handed.None? && s.nodes[i].alive.Some? ==> s.nodes[i].alive.value.index != msg.index
    ensures StepOk(c, s, i, handed, StepAt(log, k, alive, msg).value)
    ensures StepAt(log, k, alive, msg).value.stepped.Some?
    ensures StepAt(log, k, alive, msg).value.stepped.value.index == msg.index
  {
    var r := InsStep(alive, log[k], msg).value;
    var b := BookOf(s.books, msg.index);
    var d := s.nodes[i];
    assert LogOk(s.books, i, d.log);
    OpenedIsOrdered(d.log, log, msg.index);
    OpenedInsOk(s.books, i, d.log, log, msg.index, k);
    RecordAgain(b, i, log[k]);
    ShrunkLog(log, k, r.ins);
    OnlyOne(d.log, log, msg.index, k);
  }

  // The stored log holds the index at most once, and then as the instance that is stepped.
  lemma OnlyOne(before: Log, log: Log, index: nat, k: nat)
    requires IsSlim(before) && Opened(before, log, index) && k < |log| && log[k].index == index
    ensures forall x :: x in before && x.index == index ==> x == log[k]
    ensures forall x :: x in log && x.index != index ==> x in before
  {
    OpenedIsOrdered(before, log, index);
    forall x | x in before && x.index == index ensures x == log[k] {
      var j :| 0 <= j < |before| && before[j] == x;
      assert log[j] == x;
      assert !(j < k) && !(k < j);
    }
  }

  lemma TellOk(c: Config, s: State, i: nat, handed: Option<Alive>, msg: Msg)
    requires Inv(c, s) && i < 3 && msg.to == i + 1 && msg.from != msg.to
    requires TellLastChosen(s.nodes[i].log, handed, msg).Done?
    ensures StepOk(c, s, i, handed, TellLastChosen(s.nodes[i].log, handed, msg).value)
    ensures TellLastChosen(s.nodes[i].log, handed, msg).value.stepped.None?
  {
    hide AliveFits, FastBacked, Consistent, AliveOk;
    var log := s.nodes[i].log;
    if LastChosen(log).Some? {
      LastChosenIsThere(log);
      var ins := LastChosen(log).value;
      assert LogOk(s.books, i, log);
      assert InsOk(BookOf(s.books, ins.index), i, ins);
      ChosenReplyOk(BookOf(s.books, ins.index), i, ins, msg.(kind := GetChosen, index := ins.index));
    }
  }

  // The step of an index the log has passed, and of a message that is not for this member.
  lemma PassedOk(c: Config, s: State, i: nat, handed: Option<Alive>, msg: Msg)
    requires Inv(c, s) && i < 3 && msg.to == i + 1 && msg.from != msg.to
    requires StepInvalidIndex(s.nodes[i].log, handed, msg).Done?
    ensures StepOk(c, s, i, handed, StepInvalidIndex(s.nodes[i].log, handed, msg).value)
    ensures StepInvalidIndex(s.nodes[i].log, handed, msg).value.stepped.None?
  {
    hide LogOk, AliveFits, FastBacked, Consistent, Moves, InsOk, AliveOk, TellLastChosen;
    if s.nodes[i].log != [] && msg.kind in {GetChosen, Prop, Accpt, FastAccpt} {
      TellOk(c, s, i, handed, msg);
    }
  }

  // A message that opens a new index.
  lemma OpenOk(c: Config, s: State, i: nat, msg: Msg)
    requires Inv(c, s) && i < 3 && MsgOk(BookOf(s.books, msg.index), msg) && msg.to == i + 1
    requires msg.index > MaxIndex(s.nodes[i].log)
    requires var d := s.nodes[i]; StepAt(d.log + [Blank(msg.index)], |d.log|, None, msg).Done?
    ensures var d := s.nodes[i]; var r := StepAt(d.log + [Blank(msg.index)], |d.log|, None, msg).value;
      && StepOk(c, s, i, AliveFor(d.alive, msg.index), r)
      && r.stepped.Some? && r.stepped.value.index == msg.index
  {
    var d := s.nodes[i];
    assert LogOk(s.books, i, d.log);
    assert AliveFits(s.books, i, d.alive, d.log);
    var log := d.log + [Blank(msg.index)];
    BlankIsOk(BookOf(s.books, msg.index), i, msg.index);
    InsStepOk(BookOf(s.books, msg.index), i, None, log[|d.log|], msg);
    NoneBack(log[|d.log|], msg);
    StepAtOk(c, s, i, log, |d.log|, AliveFor(d.alive, msg.index), None, msg);
  }

  lemma NoneBack(ins: Instance, msg: Msg)
    requires InsStep(None, ins, msg).Done?
    ensures InsStep(None, ins, msg).value.alive.None?
  {
  }

  // A message for an index the log holds.
  lemma HeldOk(c: Config, s: State, i: nat, k: nat, msg: Msg)
    requires Inv(c, s) && i < 3 && MsgOk(BookOf(s.books, msg.index), msg) && msg.to == i + 1
    requires k < |s.nodes[i].log| && s.nodes[i].log[k].index == msg.index
    requires var d := s.nodes[i]; StepAt(d.log, k, AliveFor(d.alive, msg.index), msg).Done?
    ensures var d := s.nodes[i]; var r := StepAt(d.log, k, AliveFor(d.alive, msg.index), msg).value;
      && StepOk(c, s, i, AliveFor(d.alive, msg.index), r)
      && r.stepped.Some? && r.stepped.value.index == msg.index
  {
    var d := s.nodes[i];
    var handed := AliveFor(d.alive, msg.index);
    assert LogOk(s.books, i, d.log);
    assert AliveFits(s.books, i, d.alive, d.log);
    assert d.log[k] in d.log;
    InsStepOk(BookOf(s.books, msg.index), i, handed, d.log[k], msg);
    if handed.None? {
      NoneBack(d.log[k], msg);
    }
    StepAtOk(c, s, i, d.log, k, handed, handed, msg);
  }

  lemma ReceiveOk(c: Config, s: State, i: nat, msg: Msg)
    requires Inv(c, s) && i < 3 && msg.to == i + 1 && msg.from != msg.to
    requires MsgOk(BookOf(s.books, msg.index), msg)
    requires var handed := AliveFor(s.nodes[i].alive, msg.index);
      LogStep(i + 1, s.nodes[i].log, handed, msg).Done?
    ensures var handed := AliveFor(s.nodes[i].alive, msg.index); var r := LogStep(i + 1, s.nodes[i].log, handed, msg).value;
      && StepOk(c, s, i, handed, r)
      && (r.stepped.Some? ==> r.stepped.value.index == msg.index)
  {
    var log := s.nodes[i].log;
    assert LogOk(s.books, i, log);
    var handed := AliveFor(s.nodes[i].alive, msg.index);
    if msg.index == 0 || (msg.index != MinIndex(log) && msg.index < MaxIndex(log)) {
      if msg.index > 0 || msg.kind == GetChosen {
        PassedOk(c, s, i, handed, msg);
      }
    } else if msg.index != MinIndex(log) && msg.index != MaxIndex(log) {
      OpenOk(c, s, i, msg);
    } else {
      HeldOk(c, s, i, Position(log, msg.index), msg);
    }
  }

  // ---- a member's own proposals ----

  // A decision names at most one member.
  lemma OneMemberIsNamed(c: Config, b: Book<Entry>, i: nat, v: Entry, k: nat)
    requires ValidConfig(c) && Consistent(b) && i < 3 && 1 <= IdOf(k) <= 3 && Grounds(c, b, k)
    requires Decided(b, v) && BelongsTo(v.reqid, c.servers[i])
    ensures IdOf(k) == i + 1
  {
    var w :| Decided(b, w) && BelongsTo(w.reqid, c.servers[IdOf(k) - 1]);
    DecidedOnce(b, v, w);
  }

  lemma NoFastYet(c: Config, books: Books, i: nat, index: nat, v: Entry)
    requires ValidConfig(c) && BooksOk(books) && FastBacked(c, books) && i < 3 && index > 1
    requires NoTrace(BookOf(books, index), i)
    requires Decided(BookOf(books, index - 1), v) && BelongsTo(v.reqid, c.servers[i])
    ensures forall k :: k in BookOf(books, index).proposed ==> CntOf(k) > 0
  {
    var b := BookOf(books, index);
    forall k | k in b.proposed ensures CntOf(k) > 0 {
      if CntOf(k) == 0 {
        OneMemberIsNamed(c, BookOf(books, index - 1), i, v, k);
      }
    }
  }

  // At most one member may skip the prepare round at an index, and only once: the decision at
  // the index before names its server.
  lemma FastIsAlone(c: Config, s: State, i: nat)
    requires Inv(c, s) && i < 3 && CanDoFast(s.nodes[i].log, c.servers[i])
    ensures var index := MaxIndex(s.nodes[i].log) + 1;
      && index > 1 && NoTrace(BookOf(s.books, index), i)
      && (forall k :: k in BookOf(s.books, index).proposed ==> CntOf(k) > 0)
      && Grounds(c, BookOf(s.books, index - 1), i + 1)
  {
    var log := s.nodes[i].log;
    assert LogOk(s.books, i, log);
    var last := log[|log| - 1];
    assert last in log;
    var index := last.index + 1;
    assert InsOk(BookOf(s.books, last.index), i, last);
    assert IdOf(i + 1) == i + 1;
    NoFastYet(c, s.books, i, index, last.accepted.value.value);
  }

  lemma BlankLog(log: Log)
    requires IsSlim(log) && (log == [] || log[|log| - 1].chosen)
    ensures |log| <= 1
    ensures var index := MaxIndex(log) + 1;
      Opened(log, log + [Blank(index)], index) && Position(log + [Blank(index)], index) == |log|
  {
    var index := MaxIndex(log) + 1;
    OpenedIsOrdered(log, log + [Blank(index)], index);
    PositionIs(log + [Blank(index)], index, |log|);
  }

  lemma NormalSetOk(c: Config, s: State, i: nat, v: Entry, fast: bool)
    requires Inv(c, s) && i < 3
    requires var log := s.nodes[i].log; log == [] || log[|log| - 1].chosen
    requires NormalSet(i + 1, c.servers[i], s.nodes[i].log, v, fast).Done?
    ensures var r := NormalSet(i + 1, c.servers[i], s.nodes[i].log, v, fast).value;
      r.alive.Some? ==> StepOk(c, s, i, r.alive, r) && r.stepped.Some?
  {
    hide Consistent, MsgOk, StepOk;
    var log := s.nodes[i].log;
    assert LogOk(s.books, i, log);
    var index := MaxIndex(log) + 1;
    var log1 := log + [Blank(index)];
    BlankLog(log);
    var num := Compose(i + 1, 0);
    var isFast := fast && CanDoFast(log, c.servers[i]);
    var msg := ToSelf(if isFast then BeginFastProp else BeginProp, i + 1, index, num, v);
    var alive := Some(NewAlive(index, num));
    assert LogStep(i + 1, log1, alive, msg) == StepAt(log1, |log|, alive, msg);
    BlankIsOk(BookOf(s.books, index), i, index);
    var r := StepAt(log1, |log|, alive, msg).value;
    if isFast {
      FastIsAlone(c, s, i);
      FastStepOk(BookOf(s.books, index), i, index, Blank(index), msg);
    } else {
      InsStepOk(BookOf(s.books, index), i, alive, Blank(index), msg);
    }
    if r.alive.Some? {
      assert AliveFits(s.books, i, s.nodes[i].alive, log);
      StepAtOk(c, s, i, log1, |log|, r.alive, alive, msg);
    }
  }

  // A new proposer, or the one in memory, tries again at the last index.
  lemma TryOk(c: Config, s: State, i: nat, alive: Alive, msg: Msg)
    requires Inv(c, s) && i < 3 && s.nodes[i].log != [] && !s.nodes[i].log[|s.nodes[i].log| - 1].chosen
    requires msg.kind in {TryProp, TryRedoProp} && msg.to == i + 1 && msg.index == MaxIndex(s.nodes[i].log)
    requires alive.index == msg.index && AliveOk(BookOf(s.books, msg.index), i, alive, s.nodes[i].log[|s.nodes[i].log| - 1])
    requires LogStep(i + 1, s.nodes[i].log, Some(alive), msg).Done?
    ensures var r := LogStep(i + 1, s.nodes[i].log, Some(alive), msg).value;
      StepOk(c, s, i, Some(alive), r) && r.stepped.Some? && r.stepped.value.index == msg.index
  {
    var log := s.nodes[i].log;
    assert LogOk(s.books, i, log);
    var k := |log| - 1;
    assert log[k] in log;
    SlimIsOrdered(log);
    PositionIs(log, msg.index, k);
    InsStepOk(BookOf(s.books, msg.index), i, Some(alive), log[k], msg);
    StepAtOk(c, s, i, log, k, Some(alive), Some(alive), msg);
  }

  lemma StepOkForAnyHanded(c: Config, s: State, i: nat, handed: Option<Alive>, handed': Option<Alive>, r: LogReply)
    requires Inv(c, s) && i < 3 && StepOk(c, s, i, handed, r) && r.stepped.Some? && handed'.Some?
    ensures StepOk(c, s, i, handed', r)
  {
  }

  lemma PreemptSetOk(c: Config, s: State, i: nat, v: Entry)
    requires Inv(c, s) && i < 3 && s.nodes[i].log != [] && !s.nodes[i].log[|s.nodes[i].log| - 1].chosen
    requires PreemptSet(i + 1, s.nodes[i].log, v).Done? && PreemptSet(i + 1, s.nodes[i].log, v).value.code == 0
    ensures var r := PreemptSet(i + 1, s.nodes[i].log, v).value;
      r.alive.Some? ==> StepOk(c, s, i, r.alive, r) && r.stepped.Some?
  {
    var log := s.nodes[i].log;
    var ins := log[|log| - 1];
    var num := Past(Gen(i + 1, 0), ins.proposed).Get();
    var alive := NewAlive(ins.index, num);
    var msg := ToSelf(TryProp, i + 1, ins.index, num, v);
    assert alive.gen.id == i + 1;
    TryOk(c, s, i, alive, msg);
    var r := PreemptSet(i + 1, log, v).value;
    if r.alive.Some? {
      StepOkForAnyHanded(c, s, i, Some(alive), r.alive, r);
    }
  }

  lemma RedoOk(c: Config, s: State, i: nat)
    requires Inv(c, s) && i < 3 && s.nodes[i].alive.Some?
    requires RedoProp(i + 1, s.nodes[i].log, s.nodes[i].alive.value).Done?
    ensures var r := RedoProp(i + 1, s.nodes[i].log, s.nodes[i].alive.value).value;
      && StepOk(c, s, i, s.nodes[i].alive, r)
      && (r.stepped.Some? ==> r.stepped.value.index == s.nodes[i].alive.value.index)
  {
    hide LogStep, FastBacked, BookOk;
    var log := s.nodes[i].log;
    var a := s.nodes[i].alive.value;
    if log != [] && !log[|log| - 1].chosen && a.index == log[|log| - 1].index {
      var ins := log[|log| - 1];
      assert AliveFits(s.books, i, s.nodes[i].alive, log);
      assert ins in log;
      var num := Past(Gen(i + 1, 0), ins.proposed).Get();
      if a.proposing.Some? {
        TryOk(c, s, i, a, ToSelf(TryRedoProp, i + 1, ins.index, num, a.proposing.value));
      } else if ins.accepted.Some? {
        TryOk(c, s, i, a, ToSelf(TryRedoProp, i + 1, ins.index, num, ins.accepted.value.value));
      } else if !(LastChosen(log).None? || LastChosen(log).value.index + 1 != ins.index
                  || LastChosen(log).value.accepted.None?) {
        TryOk(c, s, i, a, ToSelf(TryRedoProp, i + 1, ins.index, num,
                                 Entry(0, LastChosen(log).value.accepted.value.value.data)));
      }
    }
  }

  // ---- every run ----

  // What a message says is true, also where it was sent to everybody.
  lemma HeardOk(c: Config, s: State, i: nat, msg: Msg)
    requires Inv(c, s) && i < 3 && msg in s.sent && (msg.to == SelfId(i) || (msg.to == 0 && msg.from != SelfId(i)))
    ensures MsgOk(BookOf(s.books, msg.index), msg.(to := SelfId(i)))
  {
    hide LogOk, AliveFits, FastBacked, Consistent;
    assert MsgOk(BookOf(s.books, msg.index), msg);
  }

  lemma ReceiveKeeps(c: Config, s: State, i: nat, msg: Msg, writeOk: bool)
    requires Inv(c, s) && Enabled(c, s, Receive(i, msg, writeOk))
    ensures Inv(c, After(c, s, Receive(i, msg, writeOk)))
  {
    hide LogOk, FastBacked, BookOk, StepOk, LogStep, Effect;
    HeardOk(c, s, i, msg);
    ReceiveOk(c, s, i, msg.(to := SelfId(i)));
    var handed := AliveFor(s.nodes[i].alive, msg.index);
    var r := ReceiveOutcome(s, i, msg).value;
    assert AliveFits(s.books, i, s.nodes[i].alive, s.nodes[i].log);
    if r.write && writeOk {
      StoredKeeps(c, s, i, handed, r);
    } else {
      NotStoredKeeps(c, s, i, handed, r, writeOk);
    }
  }

  lemma SetKeeps(c: Config, s: State, i: nat, v: Entry, fast: bool)
    requires Inv(c, s) && Enabled(c, s, SetValue(i, v, fast))
    ensures Inv(c, After(c, s, SetValue(i, v, fast)))
  {
    hide LogOk, FastBacked, BookOk, StepOk, LogStep, Effect, NormalSet, PreemptSet;
    var r := SetOutcome(c, s, i, v, fast).value;
    var log := s.nodes[i].log;
    if log == [] || log[|log| - 1].chosen {
      NormalSetOk(c, s, i, v, fast);
    } else {
      PreemptSetOk(c, s, i, v);
    }
    StoredKeeps(c, s, i, r.alive, r);
  }

  lemma RedoKeeps(c: Config, s: State, i: nat, writeOk: bool)
    requires Inv(c, s) && Enabled(c, s, Redo(i, writeOk))
    ensures Inv(c, After(c, s, Redo(i, writeOk)))
  {
    hide LogOk, FastBacked, BookOk, LogStep, Effect;
    RedoOk(c, s, i);
    var r := RedoOutcome(s, i).value;
    assert AliveFits(s.books, i, s.nodes[i].alive, s.nodes[i].log);
    if r.write && writeOk {
      StoredKeeps(c, s, i, s.nodes[i].alive, r);
    } else {
      NotStoredKeeps(c, s, i, s.nodes[i].alive, r, writeOk);
    }
  }

  lemma LoseKeeps(c: Config, s: State, i: nat)
    requires Inv(c, s) && i < 3
    ensures Inv(c, After(c, s, LoseAlive(i)))
  {
    var s' := After(c, s, LoseAlive(i));
    forall j | 0 <= j < 3
      ensures LogOk(s.books, j, s'.nodes[j].log) && AliveFits(s.books, j, s'.nodes[j].alive, s'.nodes[j].log)
    {
      assert LogOk(s.books, j, s.nodes[j].log);
    }
  }

  lemma StepKeeps(c: Config, s: State, e: Step)
    requires Inv(c, s) && Enabled(c, s, e)
    ensures Inv(c, After(c, s, e))
  {
    match e
    case Receive(i, msg, writeOk) => ReceiveKeeps(c, s, i, msg, writeOk);
    case SetValue(i, v, fast) => SetKeeps(c, s, i, v, fast);
    case Redo(i, writeOk) => RedoKeeps(c, s, i, writeOk);
    case LoseAlive(i) => LoseKeeps(c, s, i);
    case AskChosen(msg) =>
      assert MsgOk(BookOf(s.books, msg.index), msg);
  }

  lemma NextKeeps(c: Config, s: State, s': State)
    requires Inv(c, s) && Next(c, s, s')
    ensures Inv(c, s')
  {
    var e :| Enabled(c, s, e) && s' == After(c, s, e);
    StepKeeps(c, s, e);
  }

  lemma InitKeeps(c: Config, s: State)
    requires ValidConfig(c) && Init(s)
    ensures Inv(c, s)
  {
    NoBooksOk();
  }

  lemma {:induction false} RunKeeps(c: Config, run: seq<State>, k: nat)
    requires Run(c, run) && k < |run|
    ensures Inv(c, run[k])
  {
    if k == 0 {
      InitKeeps(c, run[0]);
    } else {
      RunKeeps(c, run, k - 1);
      assert Next(c, run[k - 1], run[k]);
      NextKeeps(c, run[k - 1], run[k]);
    }
  }

  // ---- what every run guarantees ----

  lemma ReceiveFacts(c: Config, s: State, n: nat, msg: Msg, ok: bool)
    requires Inv(c, s) && Enabled(c, s, Receive(n, msg, ok))
    ensures var handed := AliveFor(s.nodes[n].alive, msg.index); var r := ReceiveOutcome(s, n, msg).value;
      && StepOk(c, s, n, handed, r)
      && (r.stepped.Some? ==> Reachable(s.nodes[n].log, r.stepped.value.index))
  {
    hide LogOk, AliveFits, FastBacked, BookOk, StepOk, Reachable, LogStep;
    HeardOk(c, s, n, msg);
    ReceiveOk(c, s, n, msg.(to := SelfId(n)));
    if ReceiveOutcome(s, n, msg).value.stepped.Some? {
      SteppedIsReachable(n + 1, s.nodes[n].log, AliveFor(s.nodes[n].alive, msg.index), msg.(to := SelfId(n)));
    }
  }

  lemma SetFacts(c: Config, s: State, n: nat, v: Entry, fast: bool)
    requires Inv(c, s) && Enabled(c, s, SetValue(n, v, fast))
    ensures var r := SetOutcome(c, s, n, v, fast).value;
      StepOk(c, s, n, r.alive, r) && r.stepped.Some? && Reachable(s.nodes[n].log, r.stepped.value.index)
  {
    hide FastBacked, BookOk, StepOk, LogStep, NormalSet, PreemptSet, Reachable;
    var log := s.nodes[n].log;
    assert LogOk(s.books, n, log);
    if log == [] || log[|log| - 1].chosen {
      NormalSetOk(c, s, n, v, fast);
    } else {
      PreemptSetOk(c, s, n, v);
    }
    SetIsReachable(SelfId(n), c.servers[n], log, v, fast);
  }

  lemma RedoFacts(c: Config, s: State, n: nat, ok: bool)
    requires Inv(c, s) && Enabled(c, s, Redo(n, ok))
    ensures var r := RedoOutcome(s, n).value;
      && StepOk(c, s, n, s.nodes[n].alive, r)
      && (r.stepped.Some? ==> Reachable(s.nodes[n].log, r.stepped.value.index))
  {
    RedoOk(c, s, n);
    if RedoOutcome(s, n).value.stepped.Some? {
      RedoIsReachable(SelfId(n), s.nodes[n].log, s.nodes[n].alive.value);
    }
  }

  // The facts behind one step of a member.
  lemma StepIsOk(c: Config, s: State, e: Step) returns (i: nat, handed: Option<Alive>, r: LogReply, writeOk: bool)
    requires Inv(c, s) && Enabled(c, s, e) && !e.LoseAlive? && !e.AskChosen?
    ensures i < 3 && StepOk(c, s, i, handed, r) && After(c, s, e) == Effect(s, i, handed, r, writeOk)
    ensures r.stepped.Some? ==> Reachable(s.nodes[i].log, r.stepped.value.index)
  {
    match e
    case Receive(n, msg, ok) =>
      ReceiveFacts(c, s, n, msg, ok);
      i, handed, r, writeOk := n, AliveFor(s.nodes[n].alive, msg.index), ReceiveOutcome(s, n, msg).value, ok;
    case SetValue(n, v, fast) =>
      SetFacts(c, s, n, v, fast);
      i, r, writeOk := n, SetOutcome(c, s, n, v, fast).value, true;
      handed := r.alive;
    case Redo(n, ok) =>
      RedoFacts(c, s, n, ok);
      i, handed, r, writeOk := n, s.nodes[n].alive, RedoOutcome(s, n).value, ok;
  }

  // An index a member may still act on: one its log holds, or one it has not reached.
  predicate Reachable(log: Log, index: nat) {
    index > MaxIndex(log) || exists ins :: ins in log && ins.index == index
  }

  lemma SteppedIsReachable(self: nat, log: Log, alive: Option<Alive>, msg: Msg)
    requires LogStep(self, log, alive, msg).Done? && LogStep(self, log, alive, msg).value.stepped.Some?
    requires LogStep(self, log, alive, msg).value.stepped.value.index == msg.index
    ensures Reachable(log, msg.index)
  {
    if msg.index == MinIndex(log) || msg.index == MaxIndex(log) {
      assert log[Position(log, msg.index)] in log;
    }
  }

  lemma SetIsReachable(self: ProposerId, server: nat, log: Log, v: Entry, fast: bool)
    requires IsSlim(log) && Set(self, server, log, v, fast).Done?
    requires Set(self, server, log, v, fast).value.stepped.Some?
    ensures Reachable(log, Set(self, server, log, v, fast).value.stepped.value.index)
  {
    if log != [] {
      assert log[|log| - 1] in log;
    }
    StepKeepsIndexInSet(self, server, log, v, fast);
  }

  lemma EnterKeepsIndex(next: PropState, a: Alive, ins: Instance)
    requires Enter(next, a, ins).Done?
    ensures Enter(next, a, ins).value.ins.index == ins.index
  {
  }

  lemma BeginKeepsIndex(a: Alive, ins: Instance, msg: Msg)
    requires OnBeginProp(a, ins, msg).Done?
    ensures OnBeginProp(a, ins, msg).value.ins.index == ins.index
  {
    if ins.promised.None? {
      var hint := if msg.kind == BeginProp then Compose(0, 1) else 0;
      var a' := a.(gen := Raised(a.gen, hint), proposing := msg.value);
      EnterKeepsIndex(Prepare, a', ins);
      var m := Enter(Prepare, a', ins).value;
      if msg.kind != BeginProp {
        EnterKeepsIndex(Accept, m.alive, m.ins);
      }
    }
  }

  lemma AliveStepKeepsIndex(a: Alive, ins: Instance, msg: Msg)
    requires AliveStep(a, ins, msg).Done?
    ensures AliveStep(a, ins, msg).value.ins.index == ins.index
  {
    if msg.kind in {BeginProp, BeginFastProp} {
      BeginKeepsIndex(a, ins, msg);
    }
  }

  lemma InsKeepsIndex(alive: Option<Alive>, ins: Instance, msg: Msg)
    requires InsStep(alive, ins, msg).Done?
    ensures InsStep(alive, ins, msg).value.ins.index == ins.index
  {
    if ins.chosen {
      StepChosenShape(alive, ins, msg);
    } else if alive.Some? && msg.kind in {PropRsp, AccptRsp, FastAccptRsp, BeginProp, BeginFastProp, TryProp, TryRedoProp} {
      AliveStepKeepsIndex(alive.value, ins, msg);
    }
  }

  lemma LogStepIndex(self: nat, log: Log, alive: Option<Alive>, msg: Msg)
    requires LogStep(self, log, alive, msg).Done? && LogStep(self, log, alive, msg).value.stepped.Some?
    ensures LogStep(self, log, alive, msg).value.stepped.value.index == msg.index
  {
    if msg.index != MinIndex(log) && msg.index != MaxIndex(log) {
      if msg.index > MaxIndex(log) {
        InsKeepsIndex(None, (log + [Blank(msg.index)])[|log|], msg);
      }
    } else {
      InsKeepsIndex(alive, log[Position(log, msg.index)], msg);
    }
  }

  lemma StepKeepsIndexInSet(self: ProposerId, server: nat, log: Log, v: Entry, fast: bool)
    requires Set(self, server, log, v, fast).Done? && Set(self, server, log, v, fast).value.stepped.Some?
    ensures Set(self, server, log, v, fast).value.stepped.value.index ==
            if log == [] || log[|log| - 1].chosen then MaxIndex(log) + 1 else MaxIndex(log)
  {
    if log == [] || log[|log| - 1].chosen {
      var index := MaxIndex(log) + 1;
      var num := Compose(self, 0);
      var msg := ToSelf(if fast && CanDoFast(log, server) then BeginFastProp else BeginProp, self, index, num, v);
      LogStepIndex(self, log + [Blank(index)], Some(NewAlive(index, num)), msg);
    } else {
      var ins := log[|log| - 1];
      var num := Past(Gen(self, 0), ins.proposed).Get();
      LogStepIndex(self, log, Some(NewAlive(ins.index, num)), ToSelf(TryProp, self, ins.index, num, v));
    }
  }

  lemma RedoIsReachable(self: ProposerId, log: Log, a: Alive)
    requires RedoProp(self, log, a).Done? && RedoProp(self, log, a).value.stepped.Some?
    ensures Reachable(log, RedoProp(self, log, a).value.stepped.value.index)
  {
    var ins := log[|log| - 1];
    assert ins in log;
    var num := Past(Gen(self, 0), ins.proposed).Get();
    var v :=
      if a.proposing.Some? then a.proposing.value
      else if ins.accepted.Some? then ins.accepted.value.value
      else Entry(0, LastChosen(log).value.accepted.value.value.data);
    LogStepIndex(self, log, Some(a), ToSelf(TryRedoProp, self, ins.index, num, v));
  }

  lemma SameExtends(b: Book<Entry>)
    ensures Extends(b, b)
  {
  }

  lemma EffectGrows(c: Config, s: State, i: nat, handed: Option<Alive>, r: LogReply, writeOk: bool, index: nat)
    requires ValidConfig(c) && BooksOk(s.books) && |s.nodes| == 3 && i < 3 && StepOk(c, s, i, handed, r)
    ensures Extends(BookOf(s.books, index), BookOf(Effect(s, i, handed, r, writeOk).books, index))
    ensures s.sent <= Effect(s, i, handed, r, writeOk).sent
  {
    hide Consistent, InsOk, AliveOk, MsgOk, IsSlim;
    assert BookOk(BookOf(s.books, index));
    SameExtends(BookOf(s.books, index));
  }

  lemma NextGrows(c: Config, s: State, s': State, index: nat)
    requires Inv(c, s) && Next(c, s, s')
    ensures Extends(BookOf(s.books, index), BookOf(s'.books, index))
    ensures s.sent <= s'.sent
  {
    hide LogOk, AliveFits, FastBacked, BookOk, StepOk, Effect, Extends;
    var e :| Enabled(c, s, e) && s' == After(c, s, e);
    SameExtends(BookOf(s.books, index));
    if !e.LoseAlive? && !e.AskChosen? {
      var i, handed, r, writeOk := StepIsOk(c, s, e);
      EffectGrows(c, s, i, handed, r, writeOk, index);
    }
  }

  lemma RunGrows(c: Config, run: seq<State>, k: nat, index: nat)
    requires Run(c, run) && k + 1 < |run|
    ensures Extends(BookOf(run[k].books, index), BookOf(run[k + 1].books, index))
    ensures run[k].sent <= run[k + 1].sent
  {
    RunKeeps(c, run, k);
    NextGrows(c, run[k], run[k + 1], index);
  }

  lemma {:induction false} BooksOnlyGrow(c: Config, run: seq<State>, x: nat, y: nat, index: nat)
    requires Run(c, run) && x <= y < |run|
    ensures Extends(BookOf(run[x].books, index), BookOf(run[y].books, index))
    ensures run[x].sent <= run[y].sent
    decreases y
  {
    hide Run, Extends, BookOf;
    if x < y {
      BooksOnlyGrow(c, run, x, y - 1, index);
      RunGrows(c, run, y - 1, index);
      ExtendsTransitive(BookOf(run[x].books, index), BookOf(run[y - 1].books, index), BookOf(run[y].books, index));
    } else {
      SameExtends(BookOf(run[x].books, index));
    }
  }

  // The value a member's stored instance, or a message, calls chosen at an index.
  ghost predicate SaysChosen(s: State, index: nat, v: Entry) {
    || (exists i, ins :: 0 <= i < |s.nodes| && ins in s.nodes[i].log && ins.chosen && ins.index == index
                         && ins.accepted.Some? && ins.accepted.value.value == v)
    || (exists m :: m in s.sent && m.kind == ChosenMsg && m.index == index && m.value == Some(v))
  }

  lemma SaidIsDecided(c: Config, s: State, index: nat, v: Entry)
    requires Inv(c, s) && SaysChosen(s, index, v)
    ensures Decided(BookOf(s.books, index), v)
  {
    if m :| m in s.sent && m.kind == ChosenMsg && m.index == index && m.value == Some(v) {
      assert MsgOk(BookOf(s.books, m.index), m);
    } else {
      var i, ins :| 0 <= i < |s.nodes| && ins in s.nodes[i].log && ins.chosen && ins.index == index
                    && ins.accepted.Some? && ins.accepted.value.value == v;
      assert LogOk(s.books, i, s.nodes[i].log);
      assert InsOk(BookOf(s.books, ins.index), i, ins);
    }
  }

  // The safety theorem: at every index, in every run, all that is ever called chosen, by any
  // member at any time, is one value, although members forget old instances, and although a
  // proposer may skip its prepare round.
  lemma LogAgrees(c: Config, run: seq<State>, x: nat, y: nat, index: nat, v: Entry, w: Entry)
    requires Run(c, run) && x <= y < |run|
    requires SaysChosen(run[x], index, v) && SaysChosen(run[y], index, w)
    ensures v == w
  {
    RunKeeps(c, run, x);
    RunKeeps(c, run, y);
    SaidIsDecided(c, run[x], index, v);
    SaidIsDecided(c, run[y], index, w);
    BooksOnlyGrow(c, run, x, y, index);
    DecidedStays(BookOf(run[x].books, index), BookOf(run[y].books, index), v);
    DecidedOnce(BookOf(run[y].books, index), v, w);
  }

  // At most one member ever proposes without a prepare round at an index.
  lemma OneFastProposer(c: Config, run: seq<State>, k: nat, index: nat, num: nat, num': nat)
    requires Run(c, run) && k < |run|
    requires num in BookOf(run[k].books, index).proposed && num' in BookOf(run[k].books, index).proposed
    requires CntOf(num) == 0 && CntOf(num') == 0
    ensures num == num' && index > 1
  {
    RunKeeps(c, run, k);
    var b := BookOf(run[k].books, index);
    ComposeBack(num);
    ComposeBack(num');
    assert BookOk(b);
    assert num' !in b.closed;
  }

  lemma EffectForgets(c: Config, s: State, n: nat, handed: Option<Alive>, r: LogReply, writeOk: bool, i: nat, index: nat)
    requires ValidConfig(c) && BooksOk(s.books) && |s.nodes| == 3 && n < 3 && i < 3 && StepOk(c, s, n, handed, r)
    requires r.stepped.Some? ==> Reachable(s.nodes[n].log, r.stepped.value.index)
    requires !Reachable(s.nodes[i].log, index)
    ensures var s' := Effect(s, n, handed, r, writeOk);
      && |s'.nodes| == 3 && !Reachable(s'.nodes[i].log, index)
      && forall k :: (i, k) in BookOf(s'.books, index).votes <==> (i, k) in BookOf(s.books, index).votes
  {
    hide Consistent, AliveOk, MsgOk, InsOk, IsSlim, Grounds;
  }

  // An index a member's log has dropped is dropped for good, and the member's votes there stand.
  lemma ForgottenStays(c: Config, s: State, s': State, i: nat, index: nat)
    requires Inv(c, s) && Next(c, s, s') && i < 3 && !Reachable(s.nodes[i].log, index)
    ensures Inv(c, s') && !Reachable(s'.nodes[i].log, index)
    ensures forall k :: (i, k) in BookOf(s'.books, index).votes <==> (i, k) in BookOf(s.books, index).votes
  {
    hide AliveFits, FastBacked, LogOk, StepOk, Reachable, Effect, MsgOk;
    NextKeeps(c, s, s');
    var e :| Enabled(c, s, e) && s' == After(c, s, e);
    if !e.LoseAlive? && !e.AskChosen? {
      var n, handed, r, writeOk := StepIsOk(c, s, e);
      EffectForgets(c, s, n, handed, r, writeOk, i, index);
    }
  }

  // The checks that would report two values for one index pass in every reachable state.
  lemma NoInconsistency(c: Config, run: seq<State>, k: nat, i: nat, msg: Msg, ins: Instance)
    requires Run(c, run) && k < |run| && i < 3 && i < |run[k].nodes|
    requires msg in run[k].sent && msg.kind == ChosenMsg && (msg.to == i + 1 || (msg.to == 0 && msg.from != i + 1))
    requires ins in run[k].nodes[i].log && ins.index == msg.index
    requires ins.chosen || (ins.accepted.Some? && ins.accepted.value.num == msg.proposed)
    ensures SameEntry(ins, msg.value)
  {
    RunKeeps(c, run, k);
    var s := run[k];
    assert MsgOk(BookOf(s.books, msg.index), msg);
    assert LogOk(s.books, i, s.nodes[i].log);
    ChosenIsConsistent(BookOf(s.books, msg.index), i, ins, msg.(to := i + 1));
  }

  // A proposer that counts a majority of accepts finds its own value stored, even after it has
  // accepted a higher number.
  lemma MajorityFindsOwnValue(c: Config, run: seq<State>, k: nat, i: nat, a: Alive, ins: Instance, msg: Msg)
    requires Run(c, run) && k < |run| && i < 3 && i < |run[k].nodes| && run[k].nodes[i].alive == Some(a)
    requires ins in run[k].nodes[i].log && ins.index == a.index == msg.index && !ins.chosen
    requires msg in run[k].sent && msg.to == i + 1 && msg.kind in {AccptRsp, FastAccptRsp}
    requires a.state == WaitAccept && ins.proposed == msg.proposed == a.gen.Get() && msg.accepted.Some?
    requires StepAcceptRsp(a, msg.from, msg.accepted.value).Done?
    ensures var (a', next) := StepAcceptRsp(a, msg.from, msg.accepted.value).value;
      next == StateChosen ==> ins.accepted.Some? && a'.proposing == Some(ins.accepted.value.value)
  {
    RunKeeps(c, run, k);
    var s := run[k];
    assert MsgOk(BookOf(s.books, msg.index), msg);
    assert LogOk(s.books, i, s.nodes[i].log) && AliveFits(s.books, i, s.nodes[i].alive, s.nodes[i].log);
    DecisionNeverAborts(BookOf(s.books, msg.index), i, a, ins, msg);
  }
}
