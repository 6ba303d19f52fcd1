/**
  A run of three acceptors, without any crash, in which two values are chosen.  Acceptor 1 has
  lost a value id from its table by the time a message elides the value, and the fallback for an
  unknown value id makes it accept, and decide, an empty value.
 */
module DisagreeingRun {
  import opened EntryRecord
  import opened EntryMachine
  import opened VoteBook
  import opened CertainProtocol
  import opened PaxosCommand

  const C := Config(3, 1)

  function R(prepared: nat, promised: nat, accepted: nat, valueId: nat, value: string): Record {
    Record(prepared, promised, accepted, valueId, value, [], false, false)
  }

  function Empty(prepared: nat, promised: nat): Record {
    R(prepared, promised, 0, 0, "")
  }

  function Decided(r: Record): Record {
    r.(chosen := true)
  }

  // ---- the steps of a run, in lumps ----

  // Reached by a run; intact: no message has fallen back so far.
  ghost predicate Reachable(s: State, intact: bool) {
    exists run :: Run(C, run) && (intact ==> IntactRun(C, run)) && run[|run| - 1] == s
  }

  lemma Goes(s: State, e: Step, intact: bool)
    requires Reachable(s, intact) && Shape(C, s) && Enabled(C, s, e) && (intact ==> Intact(C, s, e))
    ensures Reachable(After(C, s, e), intact)
  {
    hide After, Enabled, Init, Shape, Intact;
    var run :| Run(C, run) && (intact ==> IntactRun(C, run)) && run[|run| - 1] == s;
    var run' := run + [After(C, s, e)];
    forall k | 0 <= k < |run'| - 1
      ensures Next(C, run'[k], run'[k + 1]) && (intact ==> IntactNext(C, run'[k], run'[k + 1]))
    {
      if k < |run| - 1 {
        assert Next(C, run[k], run[k + 1]) && (intact ==> IntactNext(C, run[k], run[k + 1]));
      }
    }
    assert Run(C, run') && (intact ==> IntactRun(C, run'));
  }

  lemma AnyRun(s: State)
    requires Reachable(s, true)
    ensures Reachable(s, false)
  {
  }

  // All three are ready, with these machines.
  ghost predicate At(s: State, intact: bool, ms: seq<Machine>) {
    && Reachable(s, intact) && Shape(C, s) && |ms| == 3
    && forall k :: 0 <= k < 3 ==> s.nodes[k] == Node(ms[k], Ready, Idle, map[])
  }

  ghost predicate Stores(s: State, i: nat, r: Record) {
    i < |s.history| && r in s.history[i]
  }

  // What is stored stays stored.
  ghost predicate Keeps(s: State, s': State) {
    forall k, r :: Stores(s, k, r) ==> Stores(s', k, r)
  }

  lemma Persists(s: State, intact: bool, i: nat, ms: seq<Machine>) returns (s': State)
    requires Reachable(s, intact) && Shape(C, s) && |ms| == 3 && i < 3 && ms[i].me == i && |ms[i].table| == 3
    requires forall k :: 0 <= k < 3 ==> s.nodes[k] == Node(ms[k], if k == i then Storing else Ready, Idle, map[])
    ensures At(s', intact, ms) && Stores(s', i, ms[i].Local()) && Keeps(s, s')
  {
    hide Init, Reachable;
    Goes(s, Persist(i), intact);
    s' := After(C, s, Persist(i));
  }

  // A write, stored.
  lemma Writes(s: State, intact: bool, ms: seq<Machine>, i: nat, preAuth: bool, value: string, ms': seq<Machine>)
    returns (s': State)
    requires At(s, intact, ms) && i < 3 == |ms'| && ms[i].me == i && |ms[i].table| == 3
    requires ms' == ms[i := ms'[i]] && ms'[i] == WriteCmd(ms[i], preAuth, value, [])
    requires !ms[i].Local().chosen && (preAuth ==> i == 1) && ms'[i].me == i && |ms'[i].table| == 3
    ensures At(s', intact, ms') && Stores(s', i, ms'[i].Local()) && Keeps(s, s')
  {
    hide Init, Reachable, WriteCmd;
    var e := Write(i, preAuth, value, []);
    Goes(s, e, intact);
    s' := Persists(After(C, s, e), intact, i, ms');
  }

  // A message from j to i, handled on arrival, its outcome stored.
  lemma Passes(s: State, intact: bool, ms: seq<Machine>, j: nat, i: nat, value: string, r: Record, ms': seq<Machine>)
    returns (s': State)
    requires At(s, intact, ms) && i < 3 == |ms'| && j < 3 && i != j && ms' == ms[i := ms'[i]]
    requires ms[i].me == i && |ms[i].table| == 3 && ms[j].me == j && |ms[j].table| == 3
    requires r == Restored(ms[i].table, Cmd(j, i, ms[j].Local(), ms[j].table[i]))
    requires intact ==> ComesWhole(ms[i].table, Cmd(j, i, ms[j].Local(), ms[j].table[i]))
    requires ms'[i] == PeerCmd(ms[i], j, r, value, []) && IsNewer(ms[i].Local(), ms'[i].Local())
    ensures At(s', intact, ms') && Stores(s', i, ms'[i].Local()) && Keeps(s, s')
  {
    hide Init, Reachable, PeerCmd, Restored, IsNewer, ComesWhole;
    Goes(s, Send(j, i), intact);
    var s1 := After(C, s, Send(j, i));
    var e := Receive(i, Cmd(j, i, ms[j].Local(), ms[j].table[i]), value, []);
    Goes(s1, e, intact);
    s' := Persists(After(C, s1, e), intact, i, ms');
  }

  // ---- what the handlers compute for three acceptors ----

  lemma OneMoreCount(t: seq<Record>, r: Record, num: nat)
    ensures CountAccepted(t + [r], num) == CountAccepted(t, num) + (if r.accepted == num then 1 else 0)
    ensures CountPromised(t + [r], num) == CountPromised(t, num) + (if r.promised == num then 1 else 0)
    ensures CountAccepted([], num) == CountPromised([], num) == 0
  {
    assert (t + [r])[..|t|] == t;
  }

  lemma Counts(t: seq<Record>, num: nat)
    requires |t| == 3
    ensures CountAccepted(t, num) == (if t[0].accepted == num then 1 else 0) + (if t[1].accepted == num then 1 else 0)
                                     + (if t[2].accepted == num then 1 else 0)
    ensures CountPromised(t, num) == (if t[0].promised == num then 1 else 0) + (if t[1].promised == num then 1 else 0)
                                     + (if t[2].promised == num then 1 else 0)
  {
    OneMoreCount(t[..0], t[0], num);
    OneMoreCount(t[..1], t[1], num);
    OneMoreCount(t[..2], t[2], num);
    assert t[..0] + [t[0]] == t[..1] && t[..1] + [t[1]] == t[..2] && t[..2] + [t[2]] == t;
  }

  // A new number: nobody else knows it yet.
  lemma Proposes(m: Machine, value: string, pn: nat)
    requires m.me < 3 == |m.table| && !m.Local().chosen && m.Local().accepted < pn && pn > 3
    requires pn == NextNumber(m.Local().promised, 3, m.me, false)
    requires forall k :: 0 <= k < 3 && k != m.me ==>
      m.table[k].promised != pn && (m.Local().accepted > 0 ==> m.table[k].accepted != m.Local().accepted)
    ensures WriteCmd(m, false, value, []) ==
      Machine(m.me, m.table[m.me := m.Local().(prepared := pn, promised := pn)], PromiseLocal)
  {
    var t := m.table[m.me := m.Local().(prepared := pn, promised := pn)];
    Counts(t, pn);
    Counts(t, m.Local().accepted);
  }

  // A peer's higher promise, and nothing accepted at it.
  lemma Follows(m: Machine, j: nat, r: Record, value: string)
    requires m.me < 3 == |m.table| && j < 3 && j != m.me && m.state != IsChosen && !m.Local().chosen
    requires IsWhole(r) && !r.chosen && !m.table[j].chosen && r.promised > m.Local().promised && r.promised > m.table[j].promised
    requires r.accepted < r.promised && m.Local().prepared < r.promised && m.Local().accepted < r.promised
    requires m.Local().accepted > 0 ==>
      r.accepted != m.Local().accepted
      && forall k :: 0 <= k < 3 && k != m.me && k != j ==> m.table[k].accepted != m.Local().accepted
    ensures PeerCmd(m, j, r, value, []) ==
      Machine(m.me, m.table[j := r][m.me := m.Local().(promised := r.promised)], PromiseRemote)
  {
    var t := m.table[j := r][m.me := m.Local().(promised := r.promised)];
    Counts(t, m.Local().accepted);
  }

  // A peer's promise of the number proposed: a majority, so the best value known is accepted.
  lemma Accepts(m: Machine, j: nat, r: Record, value: string, k: nat)
    requires m.me < 3 == |m.table| && j < 3 && j != m.me && k < 3 && m.state != IsChosen && !m.Local().chosen
    requires IsWhole(r) && !r.chosen && IsNewer(m.table[j], r) && r.accepted < r.promised
    requires r.promised == m.Local().promised == m.Local().prepared > m.Local().accepted
    requires var t := m.table[j := r];
      && (forall i :: 0 <= i < 3 ==> t[i].accepted <= t[k].accepted && t[i].accepted < r.promised)
      && (forall i :: 0 <= i < k ==> t[i].accepted < t[k].accepted)
      && (m.Local().accepted > 0 ==> forall i :: 0 <= i < 3 && i != m.me ==> t[i].accepted != m.Local().accepted)
    ensures var t, num := m.table[j := r], r.promised;
      var q := if t[k].accepted > 0 then Content(t[k]) else Payload(num, value, []);
      PeerCmd(m, j, r, value, []) ==
        Machine(m.me, t[m.me := m.Local().(accepted := num, valueId := q.valueId, value := q.value, uuids := q.uuids)],
                AcceptLocal)
  {
    hide Update, Accept, Selected, IsValid, IsNewer;
    var t := m.table[j := r];
    assert t[j] == r && forall i :: 0 <= i < 3 && i != j ==> t[i] == m.table[i];
    Gathers(m, j, r);
    AcceptsBest(Machine(m.me, t, MajorityPromise), Payload(r.promised, value, []), k);
  }

  lemma Gathers(m: Machine, j: nat, r: Record)
    requires m.me < 3 == |m.table| && j < 3 && j != m.me && m.state != IsChosen && !m.Local().chosen
    requires IsWhole(r) && !r.chosen && IsNewer(m.table[j], r) && r.accepted < r.promised
    requires r.promised == m.Local().promised == m.Local().prepared > m.Local().accepted
    requires m.Local().accepted > 0 ==>
      r.accepted != m.Local().accepted
      && forall i :: 0 <= i < 3 && i != m.me && i != j ==> m.table[i].accepted != m.Local().accepted
    ensures Update(m, j, r).1 == Machine(m.me, m.table[j := r], MajorityPromise)
  {
    hide CountAccepted, CountPromised, IsValid;
    var t := m.table[j := r];
    Counts(t, m.Local().accepted);
    Counts(t, r.promised);
    assert t[m.me := m.Local()] == t;
  }

  lemma AcceptsBest(m: Machine, p: Payload, k: nat)
    requires m.me < 3 == |m.table| && k < 3 && m.state == MajorityPromise && !m.Local().chosen
    requires m.Local().promised == m.Local().prepared > 0
    requires forall i :: 0 <= i < 3 ==> m.table[i].accepted <= m.table[k].accepted && m.table[i].accepted < m.Local().promised
    requires forall i :: 0 <= i < k ==> m.table[i].accepted < m.table[k].accepted
    ensures var num := m.Local().promised; var q := if m.table[k].accepted > 0 then Content(m.table[k]) else p;
      Accept(m, p).1 ==
        Machine(m.me, m.table[m.me := m.Local().(accepted := num, valueId := q.valueId, value := q.value, uuids := q.uuids)],
                AcceptLocal)
  {
    hide CountAccepted, CountPromised;
    assert Selected(m.table) == k;
    var q := if m.table[k].accepted > 0 then Content(m.table[k]) else p;
    var num := m.Local().promised;
    Counts(m.table[m.me := m.Local().(accepted := num, valueId := q.valueId, value := q.value, uuids := q.uuids)], num);
  }

  lemma Lookup(t: seq<Record>, id: nat)
    requires |t| == 3
    ensures FindValueId(t, id) ==
      if t[0].valueId == id then 0 else if t[1].valueId == id then 1 else if t[2].valueId == id then 2 else 3
  {
    var t1, t2 := t[1..], t[2..];
    assert t1[1..] == t2 && t2[1..] == [];
  }

  // ---- the run ----

  // What each acceptor comes to, step by step.
  const A0 := Machine(0, [Empty(4, 4), BLANK, BLANK], PromiseLocal)
  const C0 := Machine(2, [Empty(4, 4), BLANK, Empty(0, 4)], PromiseRemote)
  const A1 := Machine(0, [R(4, 4, 4, 4, "x"), BLANK, Empty(0, 4)], AcceptLocal)
  const C1 := Machine(2, [Empty(4, 4), BLANK, Empty(9, 9)], PromiseLocal)
  const B0 := Machine(1, [BLANK, R(2, 2, 2, 2, "v"), BLANK], AcceptLocal)
  const B1 := Machine(1, [BLANK, R(2, 9, 2, 2, "v"), Empty(9, 9)], PromiseRemote)
  const C2 := Machine(2, [Empty(4, 4), R(2, 9, 2, 2, "v"), R(9, 9, 9, 2, "v")], AcceptLocal)
  const B2 := Machine(1, [BLANK, R(11, 11, 2, 2, "v"), Empty(9, 9)], PromiseLocal)
  const A2 := Machine(0, [R(4, 11, 4, 4, "x"), R(11, 11, 2, 2, "v"), Empty(0, 4)], PromiseRemote)
  const B3 := Machine(1, [R(4, 11, 4, 4, "x"), R(11, 11, 11, 4, "x"), Empty(9, 9)], AcceptLocal)
  const C3 := Machine(2, [Empty(4, 4), R(2, 9, 2, 2, "v"), R(12, 12, 9, 2, "v")], PromiseLocal)
  const A3 := Machine(0, [R(4, 12, 4, 4, "x"), R(11, 11, 2, 2, "v"), R(12, 12, 9, 2, "v")], PromiseRemote)
  const C4 := Machine(2, [R(4, 12, 4, 4, "x"), R(2, 9, 2, 2, "v"), R(12, 12, 12, 2, "v")], AcceptLocal)
  const B4 := Machine(1, [R(4, 11, 4, 4, "x"), Decided(R(11, 12, 12, 2, "")), R(12, 12, 12, 2, "")], IsChosen)
  const C5 :=
    Machine(2, [R(4, 12, 4, 4, "x"), Decided(R(11, 12, 12, 2, "v")), Decided(R(12, 12, 12, 2, "v"))], IsChosen)

  lemma FreshIs(i: nat)
    requires i < 3
    ensures Fresh(3, i) == Machine(i, [BLANK, BLANK, BLANK], Normal)
  {
  }

  // 0 writes "x" and, with the promise of 2, accepts it at 4.
  lemma FirstValue()
    ensures WriteCmd(Fresh(3, 0), false, "x", []) == A0
    ensures PeerCmd(Fresh(3, 2), 0, Empty(4, 4), "", []) == C0
    ensures PeerCmd(A0, 2, Empty(0, 4), "x", []) == A1
  {
    hide WriteCmd, PeerCmd;
    FreshIs(0);
    FreshIs(2);
    Proposes(Fresh(3, 0), "x", 4);
    Follows(Fresh(3, 2), 0, Empty(4, 4), "");
    Accepts(A0, 2, Empty(0, 4), "x", 0);
  }

  // 2 promises 9; 1, pre-authorised, accepts "v" at 2; with the promise of 1, 2 accepts it at 9.
  lemma SecondValue()
    ensures WriteCmd(C0, false, "y", []) == C1
    ensures WriteCmd(Fresh(3, 1), true, "v", []) == B0
    ensures PeerCmd(B0, 2, Empty(9, 9), "", []) == B1
    ensures PeerCmd(C1, 1, R(2, 9, 2, 2, "v"), "y", []) == C2
  {
    hide WriteCmd, PeerCmd;
    FreshIs(1);
    PreAuthorised();
    Proposes(C0, "y", 9);
    Follows(B0, 2, Empty(9, 9), "");
    Accepts(C1, 1, R(2, 9, 2, 2, "v"), "y", 1);
  }

  lemma PreAuthorised()
    ensures WriteCmd(Fresh(3, 1), true, "v", []) == B0
  {
    hide CountAccepted, CountPromised;
    FreshIs(1);
    var t1, t2 := [BLANK, Empty(2, 2), BLANK], [BLANK, R(2, 2, 2, 2, "v"), BLANK];
    Counts(t1, 2);
    Counts(t2, 2);
    assert Fresh(3, 1).table[1 := Empty(2, 2)] == t1 && t1[1 := R(2, 2, 2, 2, "v")] == t2;
    assert Promise(Fresh(3, 1), true).1 == Machine(1, t1, PromiseLocal);
    assert Selected(t1) == 0;
  }

  // 1 promises 11 and, with the promise of 0, accepts "x" there: no record it knows of holds
  // the value id 2 any more.
  lemma IdIsLost()
    ensures WriteCmd(B1, false, "z", []) == B2
    ensures PeerCmd(A1, 1, R(11, 11, 2, 2, "v"), "", []) == A2
    ensures PeerCmd(B2, 0, R(4, 11, 4, 4, "x"), "z", []) == B3
    ensures !Holds(B3.table, 2)
  {
    hide WriteCmd, PeerCmd;
    Proposes(B1, "z", 11);
    Follows(A1, 1, R(11, 11, 2, 2, "v"), "");
    Accepts(B2, 0, R(4, 11, 4, 4, "x"), "z", 0);
  }

  // 2 promises 12 and, with the promise of 0, accepts "v" there.
  lemma LastAccept()
    ensures WriteCmd(C2, false, "y", []) == C3
    ensures PeerCmd(A2, 2, R(12, 12, 9, 2, "v"), "", []) == A3
    ensures PeerCmd(C3, 0, R(4, 12, 4, 4, "x"), "y", []) == C4
  {
    hide WriteCmd, PeerCmd;
    Proposes(C2, "y", 12);
    Follows(A2, 2, R(12, 12, 9, 2, "v"), "");
    Accepts(C3, 0, R(4, 12, 4, 4, "x"), "y", 2);
  }

  // 1 takes the number over with an empty value and finds it accepted by a majority.
  lemma EmptyIsChosen()
    ensures PeerCmd(B3, 2, R(12, 12, 12, 2, ""), "", []) == B4
  {
    hide CountAccepted, CountPromised;
    var t := [R(4, 11, 4, 4, "x"), R(11, 12, 12, 2, ""), R(12, 12, 12, 2, "")];
    Counts(t, 12);
    assert B3.table[2 := R(12, 12, 12, 2, "")][1 := R(11, 12, 12, 2, "")] == t;
  }

  // 2 learns that its number is chosen, and keeps its own value.
  lemma ValueIsChosen()
    ensures PeerCmd(C4, 1, Decided(R(11, 12, 12, 2, "v")), "", []) == C5
  {
    var t := [R(4, 12, 4, 4, "x"), Decided(R(11, 12, 12, 2, "v")), Decided(R(12, 12, 12, 2, "v"))];
    assert C4.table[1 := Decided(R(11, 12, 12, 2, "v"))][2 := Decided(R(12, 12, 12, 2, "v"))] == t;
  }

  // A message that elides nothing of the sender's.
  lemma InFull(t: seq<Record>, cmd: Cmd)
    requires !cmd.local.idOnly && (cmd.peer.valueId == 0 || cmd.local.valueId != cmd.peer.valueId)
    ensures Restored(t, cmd) == cmd.local && ComesWhole(t, cmd)
  {
  }

  lemma Starts() returns (s: State)
    ensures At(s, true, [Fresh(3, 0), Fresh(3, 1), Fresh(3, 2)])
  {
    hide ClosedNumbers;
    s := State(seq(3, i requires 0 <= i => Node(Fresh(3, i), Ready, Idle, map[])), seq(3, _ => [BLANK]),
               VoteBook.Empty(3, ClosedNumbers(C)), {}, map[], {}, {});
    assert Init(C, s) && Run(C, [s]) && IntactRun(C, [s]);
    assert [s][|[s]| - 1] == s;
  }

  lemma ToFirstValue() returns (s: State)
    ensures At(s, true, [A1, Fresh(3, 1), C0])
  {
    hide At, PeerCmd, WriteCmd, Restored, ComesWhole, Keeps;
    FirstValue();
    FreshIs(1);
    FreshIs(2);
    var s0 := Starts();
    FreshIs(0);
    s := Writes(s0, true, [Fresh(3, 0), Fresh(3, 1), Fresh(3, 2)], 0, false, "x", [A0, Fresh(3, 1), Fresh(3, 2)]);
    InFull(Fresh(3, 2).table, Cmd(0, 2, Empty(4, 4), BLANK));
    s := Passes(s, true, [A0, Fresh(3, 1), Fresh(3, 2)], 0, 2, "", Empty(4, 4), [A0, Fresh(3, 1), C0]);
    InFull(A0.table, Cmd(2, 0, Empty(0, 4), Empty(4, 4)));
    s := Passes(s, true, [A0, Fresh(3, 1), C0], 2, 0, "x", Empty(0, 4), [A1, Fresh(3, 1), C0]);
  }

  lemma ToSecondValue() returns (s: State)
    ensures At(s, true, [A1, B1, C2])
  {
    hide At, PeerCmd, WriteCmd, Restored, ComesWhole, Keeps;
    SecondValue();
    FreshIs(1);
    s := ToFirstValue();
    s := Writes(s, true, [A1, Fresh(3, 1), C0], 2, false, "y", [A1, Fresh(3, 1), C1]);
    s := Writes(s, true, [A1, Fresh(3, 1), C1], 1, true, "v", [A1, B0, C1]);
    InFull(B0.table, Cmd(2, 1, Empty(9, 9), BLANK));
    s := Passes(s, true, [A1, B0, C1], 2, 1, "", Empty(9, 9), [A1, B1, C1]);
    InFull(C1.table, Cmd(1, 2, R(2, 9, 2, 2, "v"), Empty(9, 9)));
    s := Passes(s, true, [A1, B1, C1], 1, 2, "y", R(2, 9, 2, 2, "v"), [A1, B1, C2]);
  }

  lemma ToLostId() returns (s: State)
    ensures At(s, true, [A2, B3, C2])
  {
    hide At, PeerCmd, WriteCmd, Restored, ComesWhole, Keeps;
    IdIsLost();
    s := ToSecondValue();
    s := Writes(s, true, [A1, B1, C2], 1, false, "z", [A1, B2, C2]);
    InFull(A1.table, Cmd(1, 0, R(11, 11, 2, 2, "v"), BLANK));
    s := Passes(s, true, [A1, B2, C2], 1, 0, "", R(11, 11, 2, 2, "v"), [A2, B2, C2]);
    InFull(B2.table, Cmd(0, 1, R(4, 11, 4, 4, "x"), R(11, 11, 2, 2, "v")));
    s := Passes(s, true, [A2, B2, C2], 0, 1, "z", R(4, 11, 4, 4, "x"), [A2, B3, C2]);
  }

  lemma ToLastAccept() returns (s: State)
    ensures At(s, true, [A3, B3, C4])
  {
    hide At, PeerCmd, WriteCmd, Restored, ComesWhole, Keeps;
    LastAccept();
    s := ToLostId();
    s := Writes(s, true, [A2, B3, C2], 2, false, "y", [A2, B3, C3]);
    InFull(A2.table, Cmd(2, 0, R(12, 12, 9, 2, "v"), Empty(4, 4)));
    s := Passes(s, true, [A2, B3, C3], 2, 0, "", R(12, 12, 9, 2, "v"), [A3, B3, C3]);
    InFull(C3.table, Cmd(0, 2, R(4, 12, 4, 4, "x"), R(12, 12, 9, 2, "v")));
    s := Passes(s, true, [A3, B3, C3], 0, 2, "y", R(4, 12, 4, 4, "x"), [A3, B3, C4]);
  }

  // The message of 2 to 1 arrives without its value; that of 1 to 2 with the value 2 holds.
  lemma Elided()
    ensures Restored(B3.table, Cmd(2, 1, R(12, 12, 12, 2, "v"), R(2, 9, 2, 2, "v"))) == R(12, 12, 12, 2, "")
    ensures Restored(C4.table, Cmd(1, 2, Decided(R(11, 12, 12, 2, "")), R(12, 12, 12, 2, ""))) == Decided(R(11, 12, 12, 2, "v"))
  {
    Lookup(B3.table, 2);
    Lookup(C4.table, 2);
  }

  // An unknown value id is not a dropped message: after a run in which every message came whole,
  // an acceptor takes the next one for an accepted empty value, and decides.
  lemma UnfoundIsNotDropped() returns (run: seq<State>, cmd: Cmd)
    ensures IntactRun(C, run)
    ensures var s := run[|run| - 1];
      && |s.nodes| == 3 && s.nodes[1].phase.Ready? && s.nodes[2].phase.Ready?
      && s.nodes[1].machine == B3 && s.nodes[2].machine == C4
    ensures cmd == Cmd(2, 1, C4.Local(), C4.table[1]) && !ComesWhole(B3.table, cmd)
    ensures var m := PeerCmd(B3, 2, Restored(B3.table, cmd), "", []);
      && m.me < |m.table| && Content(B3.Local()) == Payload(4, "x", []) && Content(cmd.local) == Payload(2, "v", [])
      && Content(m.Local()) == Payload(2, "", []) && m.Local().chosen
  {
    hide PeerCmd, Restored;
    var s := ToLastAccept();
    cmd := Cmd(2, 1, C4.Local(), C4.table[1]);
    IdIsLost();
    Elided();
    EmptyIsChosen();
    run :| Run(C, run) && IntactRun(C, run) && run[|run| - 1] == s;
  }

  // Agreement fails: in a run without a crash, in which a single message fell back, acceptors 1
  // and 2 have stored chosen records of two values.
  lemma TwoValuesAreChosen() returns (run: seq<State>)
    ensures Run(C, run)
    ensures var s := run[|run| - 1];
      && |s.history| == 3
      && exists r, r' :: r in s.history[1] && r' in s.history[2] && r.chosen && r'.chosen && Content(r) != Content(r')
  {
    hide PeerCmd, WriteCmd, Restored, ComesWhole, Init, IntactRun;
    var s := ToLastAccept();
    AnyRun(s);
    Elided();
    EmptyIsChosen();
    ValueIsChosen();
    var s1 := Passes(s, false, [A3, B3, C4], 2, 1, "", R(12, 12, 12, 2, ""), [A3, B4, C4]);
    assert Stores(s1, 1, B4.Local());
    var s2 := Passes(s1, false, [A3, B4, C4], 1, 2, "", Decided(R(11, 12, 12, 2, "v")), [A3, B4, C5]);
    run :| Run(C, run) && run[|run| - 1] == s2;
    assert Stores(s2, 1, B4.Local()) && Stores(s2, 2, C5.Local());
  }
}
