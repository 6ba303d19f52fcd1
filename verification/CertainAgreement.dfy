/** The protocol of CertainProtocol keeps its invariant, and what follows from it. */
module CertainAgreement {
  import opened EntryRecord
  import opened EntryMachine
  import opened VoteBook
  import opened CertainProtocol
  import opened PaxosCommand

  // The book moved by a step of acceptor i only.
  ghost predicate MovedBy(c: Config, b: Book<Payload>, b': Book<Payload>, i: nat)
    requires 0 < c.n
  {
    && Extends(b, b') && b'.closed == b.closed
    && (forall k :: 0 <= k < |b.floor| && k != i ==> b'.floor[k] == b.floor[k])
    && (forall q, k :: (q, k) in b'.votes && q != i ==> (q, k) in b.votes)
    && (forall k :: k in b'.proposed && k !in b.proposed ==> Owns(i, k, c.n))
  }

  lemma RecordOkStays(c: Config, b: Book<Payload>, b': Book<Payload>, q: nat, r: Record)
    requires 0 < c.n && q < |b.floor| && Extends(b, b') && b'.closed == b.closed
    requires RecordOk(c, b, q, r)
    ensures RecordOk(c, b', q, r)
  {
    if r.chosen {
      ChosenStays(b, b', r.accepted);
    }
  }

  lemma ChosenWithStays(b: Book<Payload>, b': Book<Payload>, q: nat, k: nat)
    requires Extends(b, b') && ChosenWith(b, q, k)
    ensures ChosenWith(b', q, k)
  {
    var s :| Quorum(s, |b.floor|) && VotedButFor(b, s, q, k);
    assert Quorum(s, |b'.floor|) && VotedButFor(b', s, q, k);
  }

  lemma MemoryOkStays(c: Config, b: Book<Payload>, b': Book<Payload>, i: nat, q: nat, r: Record, stored: Record)
    requires 0 < c.n && q < |b.floor| && i != q && q < c.n && i < c.n
    requires MovedBy(c, b, b', i) && MemoryOk(c, b, q, r, stored)
    ensures MemoryOk(c, b', q, r, stored)
  {
    if FreshProposal(c, b, q, r) {
      SafeStays(b, b', r.accepted, Content(r));
    }
    if r.chosen {
      if Chosen(b, r.accepted) {
        ChosenStays(b, b', r.accepted);
      } else {
        ChosenWithStays(b, b', q, r.accepted);
      }
    }
  }

  lemma HistoryOkStays(c: Config, b: Book<Payload>, b': Book<Payload>, i: nat, q: nat, h: seq<Record>)
    requires 0 < c.n && q < |b.floor| && i != q && q < c.n && i < c.n
    requires MovedBy(c, b, b', i) && HistoryOk(c, b, q, h)
    ensures HistoryOk(c, b', q, h)
  {
    forall r | r in h ensures RecordOk(c, b', q, r) {
      RecordOkStays(c, b, b', q, r);
    }
  }

  // ---- storing a record ----

  lemma RecordMovesBook(c: Config, b: Book<Payload>, q: nat, r: Record, stored: Record)
    requires 0 < c.n && q < |b.floor| && Consistent(b) && Origins(b)
    requires MemoryOk(c, b, q, r, stored) && LastOk(c, b, q, stored) && IsWhole(r)
    ensures var b' := Entered(b, q, r);
      Consistent(b') && MovedBy(c, b, b', q) && Origins(b')
  {
    hide SafeAt, IsValid, IsNewer, ChosenWith, Chosen;
    var b1 := if r.accepted > 0 && r.accepted !in b.proposed then Propose(b, r.accepted, Content(r)) else b;
    if r.accepted > 0 && r.accepted !in b.proposed {
      ProposeKeeps(b, r.accepted, Content(r));
    }
    assert Extends(b, b1) && Origins(b1);
    var b2 := Raise(b1, q, r.promised);
    RaiseKeeps(b1, q, r.promised);
    ExtendsTransitive(b, b1, b2);
    if r.accepted > 0 && r.accepted == r.promised {
      VoteKeeps(b2, q, r.accepted);
      ExtendsTransitive(b, b2, Vote(b2, q, r.accepted));
    }
  }

  lemma StoredRecordOk(c: Config, b: Book<Payload>, q: nat, r: Record, stored: Record)
    requires 0 < c.n && q < |b.floor| && Consistent(b) && Origins(b)
    requires MemoryOk(c, b, q, r, stored) && LastOk(c, b, q, stored) && IsWhole(r) && r != stored
    ensures RecordOk(c, Entered(b, q, r), q, r) && LastOk(c, Entered(b, q, r), q, r)
  {
    var b' := Entered(b, q, r);
    RecordMovesBook(c, b, q, r, stored);
    if r.chosen {
      if Chosen(b, r.accepted) {
        ChosenStays(b, b', r.accepted);
      } else {
        var s :| Quorum(s, |b.floor|) && VotedButFor(b, s, q, r.accepted);
        assert Quorum(s, |b'.floor|) && VotedBy(b', s, r.accepted);
      }
    }
  }

  lemma StoredHistoryOk(c: Config, b: Book<Payload>, q: nat, h: seq<Record>, r: Record)
    requires 0 < c.n && q < |b.floor| && Consistent(b) && Origins(b)
    requires HistoryOk(c, b, q, h) && IsWhole(r) && r != h[|h| - 1]
    requires MemoryOk(c, b, q, r, h[|h| - 1])
    ensures HistoryOk(c, Entered(b, q, r), q, h + [r])
  {
    var last := h[|h| - 1];
    var b' := Entered(b, q, r);
    var h' := h + [r];
    RecordMovesBook(c, b, q, r, last);
    StoredRecordOk(c, b, q, r, last);
    forall x | x in h' ensures RecordOk(c, b', q, x) {
      if x in h {
        RecordOkStays(c, b, b', q, x);
      }
    }
    forall x, y | 0 <= x < y < |h'| ensures IsNewer(h'[x], h'[y]) && !IsNewer(h'[y], h'[x]) {
      if y == |h| {
        if x < |h| - 1 {
          assert IsNewer(h[x], last) && !IsNewer(last, h[x]);
        }
      }
    }
  }

  lemma PersistKeepsHistories(c: Config, b: Book<Payload>, h: seq<seq<Record>>, i: nat, r: Record)
    requires 0 < c.n == |b.floor| && i < c.n && BookOk(c, b) && HistoriesOk(c, b, h)
    requires IsWhole(r) && r != h[i][|h[i]| - 1] && MemoryOk(c, b, i, r, h[i][|h[i]| - 1])
    ensures BookOk(c, Entered(b, i, r)) && MovedBy(c, b, Entered(b, i, r), i)
    ensures HistoriesOk(c, Entered(b, i, r), h[i := h[i] + [r]])
  {
    var b' := Entered(b, i, r);
    RecordMovesBook(c, b, i, r, h[i][|h[i]| - 1]);
    var h' := h[i := h[i] + [r]];
    forall q | 0 <= q < c.n ensures HistoryOk(c, b', q, h'[q]) {
      if q == i {
        StoredHistoryOk(c, b, i, h[i], r);
      } else {
        HistoryOkStays(c, b, b', i, q, h[q]);
      }
    }
  }

  lemma StoredIsInMemory(c: Config, b: Book<Payload>, q: nat, r: Record)
    requires 0 < c.n && q < |b.floor| && RecordOk(c, b, q, r)
    ensures MemoryOk(c, b, q, r, r)
  {
  }

  lemma PersistKeepsNode(c: Config, b: Book<Payload>, h: seq<seq<Record>>, i: nat, d: Node, k: nat, r: Record)
    requires 0 < c.n == |b.floor| == |h| && i < c.n && k < c.n && i != k && h[i] != [] && h[k] != []
    requires NodeOk(c, b, h, k, d) && MovedBy(c, b, Entered(b, i, r), i)
    ensures NodeOk(c, Entered(b, i, r), h[i := h[i] + [r]], k, d)
  {
    if !d.phase.Loading? {
      MemoryOkStays(c, b, Entered(b, i, r), i, k, d.machine.Local(), h[k][|h[k]| - 1]);
    }
    assert TableOk(h[i := h[i] + [r]], d.machine);
  }

  lemma PersistSettlesNode(c: Config, b: Book<Payload>, b': Book<Payload>, h: seq<seq<Record>>, i: nat, d: Node)
    requires 0 < c.n == |b.floor| == |h| == |b'.floor| && i < c.n && h[i] != []
    requires NodeOk(c, b, h, i, d) && RecordOk(c, b', i, d.machine.Local()) && d.phase.Storing?
    ensures NodeOk(c, b', h[i := h[i] + [d.machine.Local()]], i, d.(phase := Ready))
  {
    var h' := h[i := h[i] + [d.machine.Local()]];
    assert h'[i][|h'[i]| - 1] == d.machine.Local();
    assert TableOk(h', d.machine);
    StoredIsInMemory(c, b', i, d.machine.Local());
  }

  lemma PersistKeepsNodes(c: Config, b: Book<Payload>, h: seq<seq<Record>>, nodes: seq<Node>, i: nat)
    requires 0 < c.n == |b.floor| && i < c.n && BookOk(c, b) && HistoriesOk(c, b, h)
    requires NodesOk(c, b, h, nodes) && nodes[i].phase.Storing?
    ensures var r := nodes[i].machine.Local(); var b' := Entered(b, i, r); var h' := h[i := h[i] + [r]];
      && BookOk(c, b') && MovedBy(c, b, b', i) && HistoriesOk(c, b', h')
      && NodesOk(c, b', h', nodes[i := nodes[i].(phase := Ready)])
  {
    assert NodeOk(c, b, h, i, nodes[i]);
    var r := nodes[i].machine.Local();
    var b', h' := Entered(b, i, r), h[i := h[i] + [r]];
    PersistKeepsHistories(c, b, h, i, r);
    var nodes' := nodes[i := nodes[i].(phase := Ready)];
    forall k | 0 <= k < c.n ensures NodeOk(c, b', h', k, nodes'[k]) {
      if k == i {
        assert HistoryOk(c, b', i, h'[i]);
        assert r in h'[i];
        PersistSettlesNode(c, b, b', h, i, nodes[i]);
      } else {
        assert NodeOk(c, b, h, k, nodes[k]);
        PersistKeepsNode(c, b, h, i, nodes[k], k, r);
      }
    }
  }

  lemma PersistExtends(c: Config, b: Book<Payload>, h: seq<seq<Record>>, nodes: seq<Node>, i: nat)
    requires 0 < c.n == |b.floor| && i < c.n && BookOk(c, b) && HistoriesOk(c, b, h)
    requires NodesOk(c, b, h, nodes) && nodes[i].phase.Storing?
    ensures Extends(b, Entered(b, i, nodes[i].machine.Local()))
  {
    PersistKeepsNodes(c, b, h, nodes, i);
  }

  lemma PersistKeeps(c: Config, s: State, i: nat)
    requires Inv(c, s) && i < c.n && s.nodes[i].phase.Storing?
    ensures Inv(c, After(c, s, Persist(i)))
  {
    hide BookOk, HistoriesOk, NodesOk, ReadsOk, MovedBy, Entered;
    PersistKeepsNodes(c, s.book, s.history, s.nodes, i);
    PersistExtends(c, s.book, s.history, s.nodes, i);
    ReadsStay(c, s, After(c, s, Persist(i)));
  }

  // Reads are not disturbed by a step that does not touch them.
  lemma ReadsStay(c: Config, s: State, s': State)
    requires Shape(c, s) && Shape(c, s') && ReadsOk(c, s) && Extends(s.book, s'.book)
    requires s'.issued == s.issued && s'.replies == s.replies && s'.emptyReads == s.emptyReads
    requires forall i :: 0 <= i < c.n ==> s'.nodes[i].reading == s.nodes[i].reading || s'.nodes[i].reading.Idle?
    ensures ReadsOk(c, s')
  {
    forall k | k in s'.issued ensures Extends(s'.issued[k].book, s'.book) {
      ExtendsTransitive(s.issued[k].book, s.book, s'.book);
    }
  }

  lemma NodesAfterSet(c: Config, b: Book<Payload>, h: seq<seq<Record>>, nodes: seq<Node>, i: nat, d: Node)
    requires 0 < c.n == |b.floor| == |h| && forall i :: 0 <= i < c.n ==> h[i] != []
    requires NodesOk(c, b, h, nodes) && i < c.n && NodeOk(c, b, h, i, d)
    ensures NodesOk(c, b, h, nodes[i := d])
  {
    var nodes' := nodes[i := d];
    forall k | 0 <= k < c.n ensures NodeOk(c, b, h, k, nodes'[k]) {
      if k != i {
        assert NodeOk(c, b, h, k, nodes[k]);
      }
    }
  }

  // A step that changes one node's memory and nothing else.
  lemma NodeStepKeeps(c: Config, s: State, i: nat, d: Node)
    requires Inv(c, s) && i < c.n && NodeOk(c, s.book, s.history, i, d)
    requires d.reading == s.nodes[i].reading || d.reading.Idle?
    ensures Inv(c, SetNode(s, i, d))
  {
    NodesAfterSet(c, s.book, s.history, s.nodes, i, d);
    ReadsStay(c, s, SetNode(s, i, d));
  }

  // ---- a crash ----

  lemma ReloadIsStored(c: Config, b: Book<Payload>, i: nat, r: Record)
    requires 2 <= c.n && i < c.n && i < |b.floor| && RecordOk(c, b, i, r)
    ensures var m := Reload(c.n, i, r);
      && m.me == i && WellFormed(m) && Leads(m) && m.table == Fresh(c.n, i).table[i := r]
  {
    var f := Fresh(c.n, i);
    CountAcceptedIsSize(f.table[i := r], r.accepted);
    CountAcceptedIsSize(f.table, 0);
    assert StateOf(f) == Normal;
    assert WellFormed(f);
    UpdateKeeps(f, i, r);
    if r.accepted > 0 {
      assert AcceptedBy(f.table[i := r], r.accepted) == {i};
    }
    if IsNewer(BLANK, r) {
      if r.chosen {
        assert Calc(f.(table := f.table[i := r])).table == f.table[i := r];
      }
    } else {
      assert r == BLANK;
      assert f.table[i := r] == f.table;
    }
  }

  lemma LoadKeeps(c: Config, s: State, i: nat)
    requires Inv(c, s) && Enabled(c, s, Load(i))
    ensures Inv(c, After(c, s, Load(i)))
  {
    hide RecordOk, LastOk, MemoryOk, ReadsOk, WellFormed, Leads, Reload, BookOk;
    var r := Stored(s, i);
    assert r in s.history[i];
    ReloadIsStored(c, s.book, i, r);
    StoredIsInMemory(c, s.book, i, r);
    NodeStepKeeps(c, s, i, s.nodes[i].(machine := Reload(c.n, i, r), phase := Ready));
  }

  // A new machine knows nothing.
  lemma FreshIsOk(c: Config, i: nat)
    requires 2 <= c.n && i < c.n
    ensures var f := Fresh(c.n, i);
      WellFormed(f) && Leads(f) && f.me == i && |f.table| == c.n && f.state == Normal && f.Local() == BLANK
  {
    var f := Fresh(c.n, i);
    CountAcceptedIsSize(f.table, 0);
    assert StateOf(f) == Normal;
  }

  lemma CrashKeeps(c: Config, s: State, i: nat)
    requires Inv(c, s) && i < c.n
    ensures Inv(c, After(c, s, Crash(i)))
  {
    hide RecordOk, LastOk, MemoryOk, ReadsOk, WellFormed, Leads, BookOk;
    FreshIsOk(c, i);
    NodeStepKeeps(c, s, i, Node(Fresh(c.n, i), Loading, Idle, map[]));
  }

  // ---- a client's write ----

  // Settled: memory and store agree, as they do whenever a handler starts.
  ghost predicate Settled(c: Config, b: Book<Payload>, h: seq<seq<Record>>, m: Machine)
    requires 0 < c.n
  {
    && 2 <= c.n == |b.floor| && |h| == c.n && m.me < c.n && |m.table| == c.n
    && BookOk(c, b) && HistoriesOk(c, b, h) && h[m.me] != []
    && WellFormed(m) && Leads(m) && TableOk(h, m)
    && m.Local() == h[m.me][|h[m.me]| - 1]
  }

  lemma SettledFacts(c: Config, b: Book<Payload>, h: seq<seq<Record>>, m: Machine)
    requires 0 < c.n && Settled(c, b, h, m)
    ensures RecordOk(c, b, m.me, m.Local()) && LastOk(c, b, m.me, m.Local())
    ensures forall j :: 0 <= j < c.n ==> RecordOk(c, b, j, m.table[j])
  {
    assert HistoryOk(c, b, m.me, h[m.me]);
    assert m.Local() in h[m.me];
    forall j | 0 <= j < c.n ensures RecordOk(c, b, j, m.table[j]) {
      assert HistoryOk(c, b, j, h[j]);
    }
  }

  // The pre-authorised number is below every number that could have decided anything.
  lemma PreAuthIsSafe(c: Config, b: Book<Payload>, v: Payload)
    requires 0 < c.n && BookOk(c, b) && c.pre < c.n
    ensures SafeAt(b, c.pre + 1, v)
  {
    forall k | 0 < k < c.pre + 1 ensures Harmless(b, k, v) {
      assert k in ClosedNumbers(c);
    }
  }

  lemma PreAuthNumber(n: nat, me: nat, num: nat)
    requires 0 < n && Owns(me, num, n) && num <= n
    ensures num == me + 1
  {
    assert (num - 1) % n == num - 1;
  }

  lemma WritePromises(c: Config, b: Book<Payload>, h: seq<seq<Record>>, m: Machine, preAuth: bool)
    requires 0 < c.n && Settled(c, b, h, m) && !m.Local().chosen && (preAuth ==> m.me == c.pre)
    ensures var m1 := Promise(m, preAuth).1; var pn := m1.Local().promised;
      && WellFormed(m1) && Leads(m1) && TableOk(h, m1) && m1.me == m.me
      && m1.state == PromiseLocal
      && m1.table == m.table[m.me := m.Local().(prepared := pn, promised := pn)]
      && pn > m.Local().promised && Owns(m.me, pn, c.n) && pn !in b.closed
      && MemoryOk(c, b, m.me, m1.Local(), m.Local())
      && (pn <= c.n ==> preAuth && pn == c.pre + 1 == m.me + 1 && m.Local().promised == 0)
  {
    SettledFacts(c, b, h, m);
    PromiseKeeps(m, preAuth);
    PromiseLandsLocal(m, preAuth);
    NextNumberGrows(m.Local().promised, c.n, m.me, preAuth);
    var m1 := Promise(m, preAuth).1;
    var pn := m1.Local().promised;
    if pn <= c.n {
      PreAuthNumber(c.n, m.me, pn);
    }
  }

  // An undecided table without promises holds only blank records' numbers.
  lemma NothingAccepted(m: Machine)
    requires WellFormed(m) && Leads(m) && !m.Local().chosen && m.Local().promised == 0
    ensures forall j :: 0 <= j < |m.table| ==> m.table[j].accepted == 0
  {
    forall j | 0 <= j < |m.table| ensures m.table[j].accepted == 0 {
      assert IsWhole(m.table[j]);
      assert m.table[j].promised <= m.Local().promised;
    }
  }

  lemma WriteAccepts(c: Config, b: Book<Payload>, h: seq<seq<Record>>, m: Machine, value: string, uuids: seq<nat>)
    requires 0 < c.n && Settled(c, b, h, m) && !m.Local().chosen && m.me == c.pre
    requires m.Local().promised == 0 && Promise(m, true).1.Local().promised == c.pre + 1
    ensures var m1 := Promise(m, true).1; var p := Payload(c.pre + 1, value, uuids);
      var m2 := Accept(m1, p).1;
      && Accept(m1, p).0 == Ok && Accept(m1, p).2 && m2.state == AcceptLocal
      && WellFormed(m2) && Leads(m2) && TableOk(h, m2) && m2.me == m.me
      && MemoryOk(c, b, m.me, m2.Local(), m.Local()) && m2.Local() != m.Local()
  {
    var m1 := Promise(m, true).1;
    var p := Payload(c.pre + 1, value, uuids);
    WritePromises(c, b, h, m, true);
    SettledFacts(c, b, h, m);
    NothingAccepted(m);
    AcceptKeeps(m1, p);
    AcceptLandsLocal(m1, p);
    PreAuthIsSafe(c, b, p);
    assert m1.table[Selected(m1.table)].accepted == 0;
  }

  lemma WriteOutcome(c: Config, b: Book<Payload>, h: seq<seq<Record>>, m: Machine, preAuth: bool, value: string, uuids: seq<nat>)
    requires 0 < c.n && Settled(c, b, h, m) && !m.Local().chosen && (preAuth ==> m.me == c.pre)
    ensures var m1 := Promise(m, preAuth).1;
      && m1.me < |m1.table| && Promise(m, preAuth).0 == Ok && m1.state == PromiseLocal
      && (Acceptable(m1) ==>
            var a := Accept(m1, Payload(m1.Local().promised, value, uuids));
            a.0 == Ok && a.2 && a.1.state == AcceptLocal)
    ensures var m2 := WriteCmd(m, preAuth, value, uuids);
      && WellFormed(m2) && Leads(m2) && TableOk(h, m2) && m2.me == m.me
      && MemoryOk(c, b, m.me, m2.Local(), m.Local()) && m2.Local() != m.Local()
  {
    hide Accept, MemoryOk, Leads, TableOk, BookOk, HistoriesOk, NextNumber, Calc;
    WritePromises(c, b, h, m, preAuth);
    if Acceptable(Promise(m, preAuth).1) {
      WriteAccepts(c, b, h, m, value, uuids);
    }
  }

  lemma WriteKeeps(c: Config, s: State, i: nat, preAuth: bool, value: string, uuids: seq<nat>)
    requires Inv(c, s) && Enabled(c, s, Write(i, preAuth, value, uuids))
    ensures Inv(c, After(c, s, Write(i, preAuth, value, uuids)))
  {
    hide Promise, WriteCmd, MemoryOk, WellFormed, Leads, ReadsOk, TableOk, BookOk, HistoriesOk;
    assert NodeOk(c, s.book, s.history, i, s.nodes[i]);
    var m := s.nodes[i].machine;
    WriteOutcome(c, s.book, s.history, m, preAuth, value, uuids);
    NodeStepKeeps(c, s, i, s.nodes[i].(machine := WriteCmd(m, preAuth, value, uuids), phase := Storing, reading := Idle));
  }

  // ---- a peer's snapshot ----

  // Equal value ids mean equal values, for everything ever proposed.
  lemma SameIdSameValue(b: Book<Payload>, j: nat, k: nat)
    requires Origins(b) && j in b.proposed && k in b.proposed
    requires b.proposed[j].valueId == b.proposed[k].valueId
    ensures b.proposed[j] == b.proposed[k]
  {
  }

  // The merged record before the decision is looked for.
  lemma MergedIsOk(c: Config, b: Book<Payload>, i: nat, j: nat, r: Record, peer: Record)
    requires 0 < c.n && BookOk(c, b) && i < |b.floor| && j < |b.floor|
    requires RecordOk(c, b, i, r) && RecordOk(c, b, j, peer) && !r.chosen
    ensures MemoryOk(c, b, i, Merge(r, peer), r) && IsWhole(Merge(r, peer))
    ensures Merge(r, peer).accepted > 0 ==> Merge(r, peer).accepted in b.proposed
  {
    MergeIsWhole(r, peer);
    var r' := Merge(r, peer);
    if r'.accepted > 0 && r.valueId == peer.valueId && r.accepted > 0 && peer.accepted > 0 {
      SameIdSameValue(b, r.accepted, peer.accepted);
    }
  }

  // A majority counted in the table is a majority of votes.
  lemma CountIsChosen(c: Config, b: Book<Payload>, t: seq<Record>, i: nat, stored: Record)
    requires 0 < c.n == |b.floor| == |t| && i < c.n && t[i].accepted > 0 && !t[i].chosen
    requires forall j :: 0 <= j < c.n && j != i ==> RecordOk(c, b, j, t[j]) && !t[j].chosen
    requires MemoryOk(c, b, i, t[i], stored) && t[i].accepted in b.proposed
    requires Majority(CountAccepted(t, t[i].accepted), c.n)
    ensures MemoryOk(c, b, i, t[i].(chosen := true), stored)
  {
    var k := t[i].accepted;
    CountAcceptedIsSize(t, k);
    var s := AcceptedBy(t, k);
    assert Quorum(s, c.n) && VotedButFor(b, s, i, k);
    if (i, k) in b.votes {
      assert VotedBy(b, s, k);
    }
  }

  lemma DecisionIsOk(c: Config, b: Book<Payload>, m: Machine, stored: Record)
    requires 0 < c.n == |b.floor| == |m.table| && m.me < c.n
    requires !m.Local().chosen ==>
      forall j :: 0 <= j < c.n && j != m.me ==> RecordOk(c, b, j, m.table[j]) && !m.table[j].chosen
    requires MemoryOk(c, b, m.me, m.Local(), stored)
    requires m.Local().accepted > 0 ==> m.Local().accepted in b.proposed
    ensures MemoryOk(c, b, m.me, Calc(m).Local(), stored)
  {
    if !m.Local().chosen && Calc(m).Local().chosen {
      CountIsChosen(c, b, m.table, m.me, stored);
    }
  }

  // What an update leaves in the table.
  lemma UpdateTable(m: Machine, j: nat, r: Record)
    requires m.me < |m.table| && j < |m.table| && j != m.me
    ensures var m1 := Update(m, j, r).1;
      && m1.me == m.me && |m1.table| == |m.table|
      && (forall k :: 0 <= k < |m.table| && k != m.me ==> m1.table[k] == m.table[k] || (k == j && m1.table[k] == r))
  {
  }

  // How the local record moves under an update: it is merged, and perhaps decided.
  lemma UpdateLocal(m: Machine, j: nat, r: Record)
    requires WellFormed(m) && j < |m.table| && j != m.me && IsWhole(r)
    ensures var m1 := Update(m, j, r).1;
      || m1.Local() == m.Local()
      || (!m.Local().chosen && IsNewer(m.table[j], r)
          && m1 == Calc(m.(table := m.table[j := r][m.me := Merge(m.Local(), r)])))
  {
  }

  lemma UpdateMemory(c: Config, b: Book<Payload>, h: seq<seq<Record>>, m: Machine, j: nat, r: Record)
    requires 0 < c.n && Settled(c, b, h, m) && j < c.n && j != m.me && r in h[j]
    ensures MemoryOk(c, b, m.me, Update(m, j, r).1.Local(), m.Local())
  {
    hide Merge, Calc, MemoryOk, Update, LastOk, BookOk, WellFormed;
    UpdateTable(m, j, r);
    SettledFacts(c, b, h, m);
    StoredIsInMemory(c, b, m.me, m.Local());
    assert HistoryOk(c, b, j, h[j]);
    UpdateLocal(m, j, r);
    if Update(m, j, r).1.Local() != m.Local() {
      MergeIsWhole(m.Local(), r);
      MergedIsOk(c, b, m.me, j, m.Local(), r);
      DecisionIsOk(c, b, m.(table := m.table[j := r][m.me := Merge(m.Local(), r)]), m.Local());
    }
  }

  lemma UpdateMerges(c: Config, b: Book<Payload>, h: seq<seq<Record>>, m: Machine, j: nat, r: Record)
    requires 0 < c.n && Settled(c, b, h, m) && j < c.n && j != m.me && r in h[j]
    ensures var m1 := Update(m, j, r).1;
      && WellFormed(m1) && Leads(m1) && m1.me == m.me && TableOk(h, m1)
      && MemoryOk(c, b, m.me, m1.Local(), m.Local())
  {
    UpdateKeeps(m, j, r);
    UpdateTable(m, j, r);
    UpdateMemory(c, b, h, m, j, r);
  }

  lemma MajorityPromiseFacts(m: Machine)
    requires WellFormed(m) && m.state == MajorityPromise
    ensures var r := m.Local(); !r.chosen && r.prepared == r.promised && r.accepted < r.promised
    ensures Majority(CountPromised(m.table, m.Local().promised), |m.table|)
  {
    assert StateOf(m) == MajorityPromise;
    assert IsWhole(m.Local());
  }

  // A majority of promises can only come together while the local record stands still.
  lemma LocalStandsStill(m: Machine, j: nat, r: Record)
    requires WellFormed(m) && j < |m.table| && j != m.me && IsWhole(r)
    requires Update(m, j, r).1.state == MajorityPromise
    ensures Update(m, j, r).1.Local() == m.Local()
  {
    UpdateKeeps(m, j, r);
    UpdateLocal(m, j, r);
    MajorityPromiseFacts(Update(m, j, r).1);
    assert IsWhole(m.Local());
  }

  lemma MajorityPromiseIsSettled(c: Config, b: Book<Payload>, h: seq<seq<Record>>, m: Machine, j: nat, r: Record)
    requires 0 < c.n && Settled(c, b, h, m) && j < c.n && j != m.me && r in h[j]
    requires Update(m, j, r).1.state == MajorityPromise
    ensures Settled(c, b, h, Update(m, j, r).1)
  {
    hide Update, MemoryOk, WellFormed, Leads, TableOk, LastOk, IsNewer, BookOk;
    assert HistoryOk(c, b, j, h[j]);
    assert RecordOk(c, b, j, r);
    UpdateMerges(c, b, h, m, j, r);
    LocalStandsStill(m, j, r);
  }

  // The number a majority has promised, and the value of the largest accepted number known,
  // make a proposal that contradicts nothing that was or will be decided below it.
  lemma MajorityIsSafe(c: Config, b: Book<Payload>, t: seq<Record>, me: nat, p: Payload)
    requires 0 < c.n == |b.floor| == |t| && me < c.n && BookOk(c, b)
    requires forall i :: 0 <= i < c.n ==> RecordOk(c, b, i, t[i]) && !t[i].chosen
    requires LastOk(c, b, me, t[me])
    requires t[me].prepared == t[me].promised > t[me].accepted
    requires Majority(CountPromised(t, t[me].promised), c.n)
    ensures var num := t[me].promised; var best := t[Selected(t)];
      && num !in b.proposed && num !in b.closed && Owns(me, num, c.n)
      && SafeAt(b, num, if best.accepted > 0 then Content(best) else p)
  {
    var num := t[me].promised;
    var best := t[Selected(t)];
    CountPromisedIsSize(t, num);
    var q := PromisedBy(t, num);
    assert Quorum(q, |b.floor|);
    forall i, k | i in q && best.accepted < k < num ensures (i, k) !in b.votes {
      assert RecordOk(c, b, i, t[i]);
    }
    forall i | i in q && i < |b.floor| ensures b.floor[i] >= num {
      assert RecordOk(c, b, i, t[i]);
    }
    assert RecordOk(c, b, Selected(t), best);
    PreparedIsSafe(b, q, num, best.accepted, if best.accepted > 0 then Content(best) else p);
    assert RecordOk(c, b, me, t[me]);
  }

  lemma AcceptLocalRecord(m: Machine, p: Payload)
    requires WellFormed(m) && |m.table| >= 2 && Acceptable(m)
    requires forall i :: 0 <= i < |m.table| && i != m.me ==> m.table[i].accepted != m.Local().promised
    ensures var m2 := Accept(m, p).1; var best := m.table[Selected(m.table)];
      && m2.me == m.me && |m2.table| == |m.table|
      && m2.table == m.table[m.me := m2.Local()]
      && Content(m2.Local()) == (if best.accepted > 0 then Content(best) else p)
      && m2.Local().accepted == m2.Local().promised == m.Local().promised
      && m2.Local().prepared == m.Local().prepared && !m2.Local().chosen
  {
    AcceptLandsLocal(m, p);
  }

  lemma MajorityAccepts(c: Config, b: Book<Payload>, h: seq<seq<Record>>, m: Machine, value: string, uuids: seq<nat>)
    requires 0 < c.n && Settled(c, b, h, m) && m.state == MajorityPromise
    ensures var p := Payload(m.Local().promised, value, uuids); var m2 := Accept(m, p).1;
      && Accept(m, p).0 == Ok && m2.state == AcceptLocal
      && WellFormed(m2) && Leads(m2) && TableOk(h, m2) && m2.me == m.me
      && MemoryOk(c, b, m.me, m2.Local(), m.Local()) && m2.Local() != m.Local()
  {
    var me, num := m.me, m.Local().promised;
    var p := Payload(num, value, uuids);
    SettledFacts(c, b, h, m);
    MajorityPromiseFacts(m);
    MajorityIsSafe(c, b, m.table, me, p);
    forall i | 0 <= i < c.n && i != me ensures m.table[i].accepted != num {
      assert RecordOk(c, b, i, m.table[i]);
    }
    AcceptKeeps(m, p);
    AcceptLandsLocal(m, p);
    AcceptLocalRecord(m, p);
    ProposalIsOk(c, b, me, m.Local(), Accept(m, p).1.Local(), m.table, p);
  }

  lemma ProposalIsOk(c: Config, b: Book<Payload>, me: nat, r: Record, r2: Record, t: seq<Record>, p: Payload)
    requires 0 < c.n == |b.floor| == |t| && me < c.n && BookOk(c, b)
    requires RecordOk(c, b, me, r) && RecordOk(c, b, Selected(t), t[Selected(t)])
    requires var num, best := r.promised, t[Selected(t)];
      && num > 0 && num !in b.proposed && num !in b.closed && Owns(me, num, c.n)
      && Content(r2) == (if best.accepted > 0 then Content(best) else p)
      && p.valueId == num && SafeAt(b, num, Content(r2))
      && r2.accepted == r2.promised == num && r2.prepared == r.prepared && !r2.chosen && !r.chosen
      && r.accepted < num
    ensures MemoryOk(c, b, me, r2, r)
  {
  }

  lemma UpdatedIsOk(c: Config, b: Book<Payload>, h: seq<seq<Record>>, d: Node, j: nat, r: Record, value: string, uuids: seq<nat>)
    requires 0 < c.n && Settled(c, b, h, d.machine) && d.phase.Ready? && WaitingOk(h, d.machine.me, d.waiting)
    requires j < c.n && j != d.machine.me && r in h[j]
    ensures NodeOk(c, b, h, d.machine.me, Updated(d, j, r, value, uuids))
  {
    var m1 := Update(d.machine, j, r).1;
    UpdateMerges(c, b, h, d.machine, j, r);
    if m1.state == MajorityPromise {
      MajorityPromiseIsSettled(c, b, h, d.machine, j, r);
      MajorityAccepts(c, b, h, m1, value, uuids);
    }
  }

  // A record that is not newer than the one in the table changes nothing, like that one.
  lemma StaleIsIgnored(m: Machine, j: nat, r: Record)
    requires m.me < |m.table| && j < |m.table| && !IsNewer(m.table[j], r)
    ensures Update(m, j, r).1 == m && Update(m, j, m.table[j]).1 == m
  {
  }

  lemma SettledNode(c: Config, s: State, i: nat)
    requires Inv(c, s) && i < c.n && s.nodes[i].phase.Ready?
    ensures Settled(c, s.book, s.history, s.nodes[i].machine) && s.nodes[i].machine.me == i
    ensures WaitingOk(s.history, i, s.nodes[i].waiting)
    ensures s.nodes[i].machine.Local() in s.history[i] && Stored(s, i) == s.nodes[i].machine.Local()
  {
    hide BookOk, HistoriesOk, ReadsOk, WellFormed, Leads, MemoryOk;
    assert NodeOk(c, s.book, s.history, i, s.nodes[i]);
  }

  // ---- what arrives ----

  // Everything stored with a value was proposed under its value id.
  lemma StoredIdIsProposed(c: Config, b: Book<Payload>, q: nat, r: Record)
    requires 0 < c.n && q < |b.floor| && Origins(b) && RecordOk(c, b, q, r) && r.valueId > 0
    ensures r.valueId in b.proposed && b.proposed[r.valueId] == Content(r)
  {
  }

  // In every table, while storing and loading too, a value id stands for one value.
  lemma MemoryIdStandsForValue(c: Config, s: State, j: nat, k: nat, r: Record, i: nat)
    requires Inv(c, s) && i < c.n && j < c.n && k < c.n && r in s.history[i] && r.valueId > 0
    requires s.nodes[j].machine.table[k].valueId == r.valueId
    ensures Content(s.nodes[j].machine.table[k]) == Content(r)
  {
    hide WellFormed, Leads, ReadsOk, LastOk;
    assert HistoryOk(c, s.book, i, s.history[i]);
    StoredIdIsProposed(c, s.book, i, r);
    var m := s.nodes[j].machine;
    assert NodeOk(c, s.book, s.history, j, s.nodes[j]);
    if k != j {
      assert m.table[k] in s.history[k] && HistoryOk(c, s.book, k, s.history[k]);
      StoredIdIsProposed(c, s.book, k, m.table[k]);
    } else {
      LocalIsWhole(m);
    }
  }

  lemma LocalIsWhole(m: Machine)
    requires WellFormed(m)
    ensures IsWhole(m.Local())
  {
  }

  lemma ValuesAgree(c: Config, s: State, j: nat, r: Record, i: nat)
    requires Inv(c, s) && i < c.n && j < c.n && r in s.history[i] && r.valueId > 0
    ensures SameValue(s.nodes[j].machine.table, r)
  {
    hide BookOk, HistoriesOk, NodesOk, ReadsOk;
    var t := s.nodes[j].machine.table;
    forall k | 0 <= k < |t| && t[k].valueId == r.valueId ensures Content(t[k]) == Content(r) {
      MemoryIdStandsForValue(c, s, j, k, r, i);
    }
  }

  // A message's own record arrives as it was sent if and only if it comes whole.
  lemma ArrivesAsSent(c: Config, s: State, i: nat, cmd: Cmd)
    requires Inv(c, s) && i < c.n && cmd in s.sent
    ensures Restored(s.nodes[i].machine.table, cmd) == cmd.local <==> ComesWhole(s.nodes[i].machine.table, cmd)
  {
    hide BookOk, NodesOk, ReadsOk, Restore, LastOk, Holds;
    assert HistoryOk(c, s.book, cmd.localId, s.history[cmd.localId]);
    assert IsWhole(cmd.local);
    if cmd.peer.valueId != 0 && cmd.local.valueId == cmd.peer.valueId {
      ValuesAgree(c, s, i, cmd.local, cmd.localId);
      RestoreIsExact(s.nodes[i].machine.table, cmd.local);
    }
  }

  lemma ReceiveKeeps(c: Config, s: State, i: nat, cmd: Cmd, value: string, uuids: seq<nat>)
    requires Inv(c, s) && Enabled(c, s, Receive(i, cmd, value, uuids)) && Intact(c, s, Receive(i, cmd, value, uuids))
    ensures Inv(c, After(c, s, Receive(i, cmd, value, uuids)))
  {
    hide BookOk, HistoriesOk, ReadsOk, WellFormed, Leads, MemoryOk, PeerCmd, Restored, ComesWhole, IsNewer;
    var d := s.nodes[i];
    var j, r := cmd.localId, Restored(d.machine.table, cmd);
    assert NodeOk(c, s.book, s.history, i, d);
    ArrivesAsSent(c, s, i, cmd);
    if d.phase.Ready? {
      SettledNode(c, s, i);
      if !IsNewer(d.machine.table[j], r) {
        StaleIsHandled(c, s, i, j, r, value, uuids);
      } else {
        UpdatedIsOk(c, s.book, s.history, d, j, r, value, uuids);
      }
      NodeStepKeeps(c, s, i, Updated(d, j, r, value, uuids));
    } else {
      NodeStepKeeps(c, s, i, d.(waiting := d.waiting[j := r]));
    }
  }

  lemma StaleIsHandled(c: Config, s: State, i: nat, j: nat, r: Record, value: string, uuids: seq<nat>)
    requires Inv(c, s) && i < c.n && j < c.n && i != j && s.nodes[i].phase.Ready?
    requires |s.nodes[i].machine.table| == c.n && !IsNewer(s.nodes[i].machine.table[j], r)
    ensures s.nodes[i].machine.me < c.n && NodeOk(c, s.book, s.history, i, Updated(s.nodes[i], j, r, value, uuids))
  {
    hide BookOk, HistoriesOk, ReadsOk, WellFormed, Leads, MemoryOk, IsNewer, Update, Accept;
    var d := s.nodes[i];
    SettledNode(c, s, i);
    StaleIsIgnored(d.machine, j, r);
    UpdatedIsOk(c, s.book, s.history, d, j, d.machine.table[j], value, uuids);
  }

  lemma HandleWaitingKeeps(c: Config, s: State, i: nat, j: nat, value: string, uuids: seq<nat>)
    requires Inv(c, s) && Enabled(c, s, HandleWaiting(i, j, value, uuids))
    ensures Inv(c, After(c, s, HandleWaiting(i, j, value, uuids)))
  {
    hide BookOk, HistoriesOk, ReadsOk, WellFormed, Leads, MemoryOk, PeerCmd, IsNewer;
    var d := s.nodes[i];
    SettledNode(c, s, i);
    UpdatedIsOk(c, s.book, s.history, d, j, d.waiting[j], value, uuids);
    NodeStepKeeps(c, s, i, Updated(d, j, d.waiting[j], value, uuids).(waiting := d.waiting - {j}));
  }

  lemma SendKeeps(c: Config, s: State, i: nat, j: nat)
    requires Inv(c, s) && Enabled(c, s, Send(i, j))
    ensures Inv(c, After(c, s, Send(i, j)))
  {
    hide BookOk, HistoriesOk, WellFormed, Leads, MemoryOk;
    SettledNode(c, s, i);
    ReadsStay(c, s, After(c, s, Send(i, j)));
  }

  // ---- reads ----

  // A read waiting for answers succeeds with the one that makes most of the acceptors empty.
  lemma EmptyReadSucceeds(c: Config, s: State, i: nat, j: nat)
    requires Inv(c, s) && Enabled(c, s, CollectEmpty(i, j)) && s.nodes[i].machine.state == Normal
    ensures var read := (i, s.nodes[i].reading.uuid); var s' := After(c, s, CollectEmpty(i, j));
      && s'.emptyReads <= s.emptyReads + {read}
      && (2 * |s.nodes[i].reading.empties + {j}| > c.n ==> read in s'.emptyReads)
      && (2 * |s.nodes[i].reading.empties + {j}| <= c.n ==>
            && s'.emptyReads == s.emptyReads
            && s'.nodes[i].reading == s.nodes[i].reading.(empties := s.nodes[i].reading.empties + {j}))
  {
    hide NodesOk, HistoriesOk, BookOk, ReadsOk;
  }

  // An acceptor whose record is empty has promised nothing, so it has voted nowhere.
  lemma EmptyMeansSilent(c: Config, s: State, j: nat)
    requires Inv(c, s) && j < c.n && s.nodes[j].phase.Ready?
    requires s.nodes[j].machine.state == Normal || !IsNewer(BLANK, s.nodes[j].machine.Local())
    ensures s.book.floor[j] == 0 && s.nodes[j].machine.state == Normal
  {
    assert NodeOk(c, s.book, s.history, j, s.nodes[j]);
    var m := s.nodes[j].machine;
    assert HistoryOk(c, s.book, j, s.history[j]);
    assert IsWhole(m.Local());
    assert StateOf(m) == m.state;
  }

  // If a majority had promised nothing then no ballot was chosen.
  lemma SilentMajority(c: Config, b: Book<Payload>, empties: set<nat>)
    requires Consistent(b) && Quorum(empties, |b.floor|)
    requires forall j :: j in empties && j < |b.floor| ==> b.floor[j] == 0
    ensures forall k :: !Chosen(b, k)
  {
    forall k ensures !Chosen(b, k) {
      if Chosen(b, k) {
        ChosenIsProposed(b, k);
        var q :| Quorum(q, |b.floor|) && VotedBy(b, q, k);
        var i := QuorumsMeet(q, empties, |b.floor|);
      }
    }
  }

  lemma ReadingIsFree(c: Config, b: Book<Payload>, h: seq<seq<Record>>, i: nat, d: Node, reading: Reading)
    requires 0 < c.n && i < |b.floor| && i < |h| && h[i] != [] && NodeOk(c, b, h, i, d)
    ensures NodeOk(c, b, h, i, d.(reading := reading))
  {
  }

  lemma ReadStepKeeps(c: Config, s: State, s': State, i: nat)
    requires Inv(c, s) && i < c.n && s'.book == s.book && s'.history == s.history && s'.sent == s.sent
    requires i < |s'.nodes| && s'.nodes == s.nodes[i := s.nodes[i].(reading := s'.nodes[i].reading)]
    requires Shape(c, s') && ReadsOk(c, s')
    ensures Inv(c, s')
  {
    ReadNodesKeep(c, s.book, s.history, s.nodes, i, s'.nodes[i].reading);
  }

  lemma ReadNodesKeep(c: Config, b: Book<Payload>, h: seq<seq<Record>>, nodes: seq<Node>, i: nat, reading: Reading)
    requires 0 < c.n == |b.floor| == |h| && forall i :: 0 <= i < c.n ==> h[i] != []
    requires NodesOk(c, b, h, nodes) && i < c.n
    ensures NodesOk(c, b, h, nodes[i := nodes[i].(reading := reading)])
  {
    assert NodeOk(c, b, h, i, nodes[i]);
    ReadingIsFree(c, b, h, i, nodes[i], reading);
    NodesAfterSet(c, b, h, nodes, i, nodes[i].(reading := reading));
  }

  lemma StoredChosenIsChosen(c: Config, b: Book<Payload>, h: seq<seq<Record>>)
    requires 0 < c.n == |b.floor| && HistoriesOk(c, b, h)
    ensures forall q, r :: 0 <= q < |h| && r in h[q] && r.chosen ==> Chosen(b, r.accepted)
  {
    forall q, r | 0 <= q < |h| && r in h[q] && r.chosen ensures Chosen(b, r.accepted) {
      assert HistoryOk(c, b, q, h[q]);
    }
  }

  lemma StartReadKeeps(c: Config, s: State, i: nat, uuid: nat)
    requires Inv(c, s) && Enabled(c, s, StartRead(i, uuid))
    ensures Inv(c, After(c, s, StartRead(i, uuid)))
  {
    hide NodesOk, HistoriesOk;
    var s' := After(c, s, StartRead(i, uuid));
    EmptyMeansSilent(c, s, i);
    StoredChosenIsChosen(c, s.book, s.history);
    ReadStepKeeps(c, s, s', i);
  }

  lemma AnswerKeeps(c: Config, s: State, j: nat, i: nat, uuid: nat)
    requires Inv(c, s) && Enabled(c, s, AnswerEmpty(j, i, uuid))
    ensures Inv(c, After(c, s, AnswerEmpty(j, i, uuid)))
  {
    hide NodesOk, HistoriesOk, BookOk;
    EmptyMeansSilent(c, s, j);
    ReadStepKeeps(c, s, After(c, s, AnswerEmpty(j, i, uuid)), j);
  }

  lemma SameAcceptors(b: Book<Payload>, b': Book<Payload>)
    requires Extends(b, b')
    ensures |b.floor| == |b'.floor|
  {
  }

  lemma CollectReads(c: Config, s: State, i: nat, j: nat)
    requires Shape(c, s) && ReadsOk(c, s) && Enabled(c, s, CollectEmpty(i, j))
    ensures var s' := After(c, s, CollectEmpty(i, j)); Shape(c, s') && ReadsOk(c, s')
  {
    hide Consistent, Chosen, Extends;
    var d := s.nodes[i];
    var up := d.reading.empties + {j};
    var issue := s.issued[(i, d.reading.uuid)];
    if d.machine.state == Normal && |up| > c.n / 2 {
      SameAcceptors(issue.book, s.book);
      SilentMajority(c, issue.book, up);
    }
  }

  lemma CollectKeeps(c: Config, s: State, i: nat, j: nat)
    requires Inv(c, s) && Enabled(c, s, CollectEmpty(i, j))
    ensures Inv(c, After(c, s, CollectEmpty(i, j)))
  {
    hide ReadsOk, BookOk, HistoriesOk, NodesOk;
    var s' := After(c, s, CollectEmpty(i, j));
    CollectReads(c, s, i, j);
    assert s'.nodes == s.nodes[i := s.nodes[i].(reading := s'.nodes[i].reading)];
    ReadStepKeeps(c, s, s', i);
  }

  lemma GiveUpKeeps(c: Config, s: State, i: nat)
    requires Inv(c, s) && i < c.n
    ensures Inv(c, After(c, s, GiveUpRead(i)))
  {
    ReadNodesKeep(c, s.book, s.history, s.nodes, i, Idle);
    ReadsStay(c, s, After(c, s, GiveUpRead(i)));
  }

  // ---- every run ----

  lemma InitKeeps(c: Config, s: State)
    requires Init(c, s)
    ensures Inv(c, s)
  {
    EmptyIsConsistent<Payload>(c.n, ClosedNumbers(c));
    forall i | 0 <= i < c.n ensures NodeOk(c, s.book, s.history, i, s.nodes[i]) {
      FreshIsOk(c, i);
    }
  }

  lemma StepKeeps(c: Config, s: State, e: Step)
    requires Inv(c, s) && Enabled(c, s, e) && Intact(c, s, e)
    ensures Inv(c, After(c, s, e))
  {
    match e
    case Write(i, preAuth, value, uuids) => WriteKeeps(c, s, i, preAuth, value, uuids);
    case Send(i, j) => SendKeeps(c, s, i, j);
    case Receive(i, cmd, value, uuids) => ReceiveKeeps(c, s, i, cmd, value, uuids);
    case HandleWaiting(i, j, value, uuids) => HandleWaitingKeeps(c, s, i, j, value, uuids);
    case Persist(i) => PersistKeeps(c, s, i);
    case Crash(i) => CrashKeeps(c, s, i);
    case Load(i) => LoadKeeps(c, s, i);
    case StartRead(i, uuid) => StartReadKeeps(c, s, i, uuid);
    case AnswerEmpty(j, i, uuid) => AnswerKeeps(c, s, j, i, uuid);
    case CollectEmpty(i, j) => CollectKeeps(c, s, i, j);
    case GiveUpRead(i) => GiveUpKeeps(c, s, i);
  }

  lemma NextKeeps(c: Config, s: State, s': State)
    requires Inv(c, s) && IntactNext(c, s, s')
    ensures Inv(c, s')
  {
    var e :| Enabled(c, s, e) && Intact(c, s, e) && s' == After(c, s, e);
    StepKeeps(c, s, e);
  }

  lemma {:induction false} RunKeeps(c: Config, run: seq<State>, k: nat)
    requires IntactRun(c, run) && k < |run|
    ensures Inv(c, run[k])
  {
    if k == 0 {
      InitKeeps(c, run[0]);
    } else {
      RunKeeps(c, run, k - 1);
      assert IntactNext(c, run[k - 1], run[k]);
      NextKeeps(c, run[k - 1], run[k]);
    }
  }

  // ---- what every run guarantees ----

  // Agreement on what was ever stored, and so on what was ever sent.
  lemma StoredChosenAgree(c: Config, s: State, i: nat, j: nat, r: Record, r': Record)
    requires Inv(c, s) && i < c.n && j < c.n && r in s.history[i] && r' in s.history[j]
    requires r.chosen && r'.chosen
    ensures Content(r) == Content(r')
  {
    assert HistoryOk(c, s.book, i, s.history[i]) && HistoryOk(c, s.book, j, s.history[j]);
    Agreement(s.book, r.accepted, r'.accepted);
  }

  // A decision in memory is a decision of the book in which the acceptor's vote is counted.
  lemma MemoryDecision(c: Config, s: State, b: Book<Payload>, i: nat) returns (b': Book<Payload>)
    requires Inv(c, s) && i < c.n && s.nodes[i].machine.Local().chosen
    requires Consistent(b) && Extends(s.book, b) && b.floor[i] == s.book.floor[i]
    ensures Consistent(b') && Extends(b, b') && Chosen(b', s.nodes[i].machine.Local().accepted)
    ensures forall k :: 0 <= k < |b.floor| && k != i ==> b'.floor[k] == b.floor[k]
    ensures s.nodes[i].machine.Local().accepted in s.book.proposed
    ensures s.book.proposed[s.nodes[i].machine.Local().accepted] == Content(s.nodes[i].machine.Local())
  {
    assert NodeOk(c, s.book, s.history, i, s.nodes[i]) && HistoryOk(c, s.book, i, s.history[i]);
    var r := s.nodes[i].machine.Local();
    assert IsWhole(r);
    if Chosen(s.book, r.accepted) {
      b' := b;
      ChosenStays(s.book, b, r.accepted);
    } else {
      b' := Vote(b, i, r.accepted);
      VoteKeeps(b, i, r.accepted);
      var q :| Quorum(q, |s.book.floor|) && VotedButFor(s.book, q, i, r.accepted);
      assert Quorum(q, |b'.floor|) && VotedBy(b', q, r.accepted);
    }
  }

  // Agreement holds between the memories of any two acceptors as well, stored or not.
  lemma MemoryChosenAgree(c: Config, s: State, i: nat, j: nat)
    requires Inv(c, s) && i < c.n && j < c.n
    requires s.nodes[i].machine.Local().chosen && s.nodes[j].machine.Local().chosen
    ensures Content(s.nodes[i].machine.Local()) == Content(s.nodes[j].machine.Local())
  {
    if i != j {
      var b1 := MemoryDecision(c, s, s.book, i);
      var b2 := MemoryDecision(c, s, b1, j);
      ChosenStays(b1, b2, s.nodes[i].machine.Local().accepted);
      ExtendsTransitive(s.book, b1, b2);
      Agreement(b2, s.nodes[i].machine.Local().accepted, s.nodes[j].machine.Local().accepted);
    }
  }

  // The safety theorem over whole runs: chosen records of the entry, whoever stored them and
  // whenever, carry one value id, one value and one list of uuids.
  lemma CertainAgrees(c: Config, run: seq<State>, x: nat, y: nat, i: nat, j: nat, r: Record, r': Record)
    requires IntactRun(c, run) && x <= y < |run|
    requires i < c.n && j < c.n && i < |run[x].history| && j < |run[y].history|
    requires r in run[x].history[i] && r' in run[y].history[j] && r.chosen && r'.chosen
    ensures r.valueId == r'.valueId && r.value == r'.value && r.uuids == r'.uuids
  {
    RunKeeps(c, run, y);
    HistoryOnlyGrows(c, run, x, y, i);
    StoredChosenAgree(c, run[y], i, j, r, r');
  }

  lemma NextGrows(c: Config, s: State, s': State, i: nat)
    requires IntactNext(c, s, s') && i < c.n
    ensures |s'.history| == c.n && s.history[i] <= s'.history[i]
  {
  }

  lemma {:induction false} HistoryOnlyGrows(c: Config, run: seq<State>, x: nat, y: nat, i: nat)
    requires IntactRun(c, run) && x <= y < |run| && i < c.n
    ensures i < |run[x].history| && i < |run[y].history| && run[x].history[i] <= run[y].history[i]
    decreases y
  {
    hide Next, BookOk, HistoriesOk, NodesOk, ReadsOk;
    if x < y {
      HistoryOnlyGrows(c, run, x, y - 1, i);
      NextGrows(c, run[y - 1], run[y], i);
    } else {
      RunKeeps(c, run, x);
    }
  }

  // A chosen record is the last its acceptor ever stores.
  lemma ChosenIsForever(c: Config, run: seq<State>, x: nat, y: nat, i: nat)
    requires IntactRun(c, run) && x <= y < |run| && i < c.n
    requires i < |run[x].history| && run[x].history[i] != [] && Stored(run[x], i).chosen
    ensures i < |run[y].history| && run[y].history[i] == run[x].history[i]
  {
    RunKeeps(c, run, y);
    HistoryOnlyGrows(c, run, x, y, i);
    var h, h' := run[x].history[i], run[y].history[i];
    assert HistoryOk(c, run[y].book, i, h');
    assert h'[|h| - 1].chosen;
    assert |h| == |h'|;
  }

  // What an acceptor stores is linearly ordered by IsNewer, although learning a decision may
  // lower the accepted number.
  lemma SnapshotsAreOrdered(c: Config, run: seq<State>, k: nat, i: nat, x: nat, y: nat)
    requires IntactRun(c, run) && k < |run| && i < c.n && i < |run[k].history|
    requires x < |run[k].history[i]| && y < |run[k].history[i]|
    ensures IsNewer(run[k].history[i][x], run[k].history[i][y]) <==> x < y
  {
    RunKeeps(c, run, k);
    var h := run[k].history[i];
    assert HistoryOk(c, run[k].book, i, h);
    if y < x {
      assert IsNewer(h[y], h[x]) && !IsNewer(h[x], h[y]);
    }
  }

  // So a late or repeated snapshot changes nothing.
  lemma LateSnapshotIsIgnored(c: Config, run: seq<State>, k: nat, m: Machine, i: nat, x: nat, y: nat)
    requires IntactRun(c, run) && k < |run| && i < c.n && i < |run[k].history|
    requires x <= y < |run[k].history[i]|
    requires m.me < |m.table| && i < |m.table| && m.table[i] == run[k].history[i][y]
    ensures Update(m, i, run[k].history[i][x]) == (Ok, m)
  {
    SnapshotsAreOrdered(c, run, k, i, y, x);
    RunKeeps(c, run, k);
    assert HistoryOk(c, run[k].book, i, run[k].history[i]);
    assert run[k].history[i][x] in run[k].history[i];
  }

  // The assertions of a client's write hold in every reachable state: the promise lands in
  // PromiseLocal, a pre-authorised accept takes the client's own value and lands in AcceptLocal,
  // and the record is always stored afterwards.
  lemma WriteNeverAsserts(c: Config, s: State, i: nat, preAuth: bool, value: string, uuids: seq<nat>)
    requires Inv(c, s) && Enabled(c, s, Write(i, preAuth, value, uuids))
    ensures var m := s.nodes[i].machine; var m1 := Promise(m, preAuth).1;
      && Promise(m, preAuth).0 == Ok && m1.state == PromiseLocal
      && (Acceptable(m1) ==>
            var a := Accept(m1, Payload(m1.Local().promised, value, uuids));
            a.0 == Ok && a.2 && a.1.state == AcceptLocal)
      && WriteCmd(m, preAuth, value, uuids).Local() != m.Local()
  {
    hide Promise, Accept, Acceptable, WriteCmd, MemoryOk, WellFormed, Leads, ReadsOk, TableOk, BookOk, HistoriesOk;
    assert NodeOk(c, s.book, s.history, i, s.nodes[i]);
    WriteOutcome(c, s.book, s.history, s.nodes[i].machine, preAuth, value, uuids);
  }

  // The same for a peer's record, whether it is handled on arrival or after waiting.  It also
  // tells that the local record is stored exactly when it changed, so an unchanged record may be
  // sent at once.
  lemma HandlingNeverAsserts(c: Config, s: State, i: nat, j: nat, r: Record, value: string, uuids: seq<nat>)
    requires Inv(c, s) && i < c.n && j < c.n && i != j && s.nodes[i].phase.Ready?
    requires r in s.history[j] || (IsWhole(r) && !IsNewer(s.nodes[i].machine.table[j], r))
    ensures var m := s.nodes[i].machine; var m1 := Update(m, j, r).1;
      && Update(m, j, r).0 == Ok
      && (m1.state == MajorityPromise ==>
            var a := Accept(m1, Payload(m1.Local().promised, value, uuids));
            a.0 == Ok && a.1.state == AcceptLocal)
    ensures var m := s.nodes[i].machine; var m2 := PeerCmd(m, j, r, value, uuids);
      IsNewer(m.Local(), m2.Local()) <==> m2.Local() != m.Local()
    decreases if r in s.history[j] then 0 else 1
  {
    hide BookOk, ReadsOk, Leads, IsValid, LastOk;
    var d := s.nodes[i];
    var m := d.machine;
    SettledNode(c, s, i);
    if r !in s.history[j] {
      StaleIsIgnored(m, j, r);
      TableIsStored(c, s, i, j);
      HandlingNeverAsserts(c, s, i, j, m.table[j], value, uuids);
    } else {
      assert HistoryOk(c, s.book, j, s.history[j]);
      assert RecordOk(c, s.book, j, r);
      UpdatedIsOk(c, s.book, s.history, d, j, r, value, uuids);
      if Update(m, j, r).1.state == MajorityPromise {
        MajorityPromiseIsSettled(c, s.book, s.history, m, j, r);
        MajorityAccepts(c, s.book, s.history, Update(m, j, r).1, value, uuids);
      }
    }
  }

  lemma TableIsStored(c: Config, s: State, i: nat, j: nat)
    requires Inv(c, s) && i < c.n && j < c.n && i != j
    ensures s.nodes[i].machine.table[j] in s.history[j]
  {
    hide BookOk, HistoriesOk, ReadsOk, WellFormed, Leads, MemoryOk;
    assert NodeOk(c, s.book, s.history, i, s.nodes[i]);
  }

  // What arrives meets the demands of the lemma above.
  lemma ReceiveNeverAsserts(c: Config, s: State, i: nat, cmd: Cmd, value: string, uuids: seq<nat>)
    requires Inv(c, s) && Enabled(c, s, Receive(i, cmd, value, uuids)) && Intact(c, s, Receive(i, cmd, value, uuids))
    ensures var m := s.nodes[i].machine; var r := Restored(m.table, cmd);
      && IsWhole(r)
      && (s.nodes[i].phase.Ready? ==>
            var m1 := Update(m, cmd.localId, r).1;
            && Update(m, cmd.localId, r).0 == Ok
            && (m1.state == MajorityPromise ==>
                  var a := Accept(m1, Payload(m1.Local().promised, value, uuids));
                  a.0 == Ok && a.1.state == AcceptLocal))
  {
    hide BookOk, NodesOk, ReadsOk, LastOk, Restored, ComesWhole, Update, Accept, IsNewer;
    var r := Restored(s.nodes[i].machine.table, cmd);
    ArrivesAsSent(c, s, i, cmd);
    assert HistoryOk(c, s.book, cmd.localId, s.history[cmd.localId]);
    assert IsWhole(cmd.local);
    RestoredIsWhole(s.nodes[i].machine.table, cmd);
    if s.nodes[i].phase.Ready? {
      HandlingNeverAsserts(c, s, i, cmd.localId, r, value, uuids);
    }
  }

  // Restored or fallen back, a record is valid.
  lemma RestoredIsWhole(t: seq<Record>, cmd: Cmd)
    requires IsWhole(cmd.local)
    ensures IsWhole(Restored(t, cmd))
  {
  }

  // A read that succeeded by finding a majority empty is right: when it was issued, no acceptor
  // had ever stored a chosen record and no number had been chosen.
  lemma EmptyReadIsRight(c: Config, run: seq<State>, k: nat, read: (nat, nat))
    requires IntactRun(c, run) && k < |run| && read in run[k].emptyReads
    ensures read in run[k].issued
    ensures forall q, r :: 0 <= q < |run[k].issued[read].history| && r in run[k].issued[read].history[q]
              ==> !r.chosen
    ensures forall b :: !Chosen(run[k].issued[read].book, b)
  {
    RunKeeps(c, run, k);
  }
}
