/** What eliding values from messages loses, and when, in the runs of the protocol. */
module ElisionInRuns {
  import opened EntryRecord
  import opened EntryMachine
  import opened CertainProtocol
  import opened CertainAgreement
  import opened PaxosCommand

  // The sender i sends a stored record r and its view q of what the receiver j stored; the
  // receiver, storing, loading or neither, gets both back exactly, or has lost the value id.
  lemma ElisionIsExact(c: Config, run: seq<State>, x: nat, i: nat, j: nat, r: Record, q: Record)
    requires IntactRun(c, run) && x < |run| && i < c.n && j < c.n
    requires i < |run[x].history| && j < |run[x].history| && j < |run[x].nodes|
    requires r in run[x].history[i] && q in run[x].history[j]
    ensures var t := run[x].nodes[j].machine.table;
      var c := Cmd(i, j, r, q);
      RestoreCmd(t, Switch(Elide(c))) == Switch(c) <==>
        || q.valueId == 0 || Holds(t, q.valueId)
        || (IsBare(q) && (r.valueId == q.valueId ==> IsBare(r)))
  {
    hide NodesOk, ReadsOk, BookOk, LastOk;
    RunKeeps(c, run, x);
    var s := run[x];
    assert HistoryOk(c, s.book, i, s.history[i]) && HistoryOk(c, s.book, j, s.history[j]);
    var t := s.nodes[j].machine.table;
    if q.valueId > 0 {
      ValuesAgree(c, s, j, q, j);
      if r.valueId == q.valueId {
        ValuesAgree(c, s, j, r, i);
        CommandIsExact(t, Cmd(i, j, r, q));
      } else {
        RestoreIsExact(t, q);
      }
    }
  }

  // ---- what the fallback for an unknown value id does ----

  // The source takes the fallback for a dropped message.  It is one if and only if the numbers,
  // which travel with every message, are not newer than those known of the sender.
  lemma FallbackIsDropped(m: Machine, j: nat, r: Record)
    requires m.me < |m.table| && j < |m.table| && j != m.me && IsWhole(r)
    requires !Holds(m.table, r.valueId)
    ensures Update(m, j, Restore(m.table, Strip(r))).1 == m <==> !IsNewer(m.table[j], r.(chosen := false))
  {
    var got := Restore(m.table, Strip(r));
    FallbackIs(m.table, r);
    if IsNewer(m.table[j], got) {
      assert Update(m, j, got).1.table[j] == got;
    }
  }

  lemma FallbackIs(t: seq<Record>, r: Record)
    requires !Holds(t, r.valueId)
    ensures Restore(t, Strip(r)) == r.(value := "", uuids := [], chosen := false, idOnly := false)
  {
  }

  // The receiver's own value is replaced by nothing at all, under the sender's value id, if and
  // only if it would have taken the sender's value: the sender accepted the number it promised,
  // that is at least the receiver's promise, and the receiver has accepted below it.
  lemma FallbackEmpties(m: Machine, j: nat, r: Record)
    requires WellFormed(m) && j < |m.table| && j != m.me && IsWhole(r) && r.valueId > 0
    requires !Holds(m.table, r.valueId)
    ensures var m' := Update(m, j, Restore(m.table, Strip(r))).1;
      && (Content(m'.Local()) == Payload(r.valueId, "", []) <==>
            && m.state != IsChosen && IsNewer(m.table[j], r.(chosen := false))
            && r.promised == r.accepted >= m.Local().promised && m.Local().accepted < r.accepted)
      && (Content(m'.Local()) != Payload(r.valueId, "", []) ==> Content(m'.Local()) == Content(m.Local()))
  {
    hide StateOf, Restore;
    FallbackIs(m.table, r);
    StateTells(m);
    assert m.table[m.me].valueId != r.valueId;
    var got := Restore(m.table, Strip(r));
    if IsNewer(m.table[j], got) && m.state != IsChosen {
      CalcKeepsContent(m.(table := m.table[j := got][m.me := Merge(m.Local(), got)]));
    }
  }

  lemma CalcKeepsContent(m: Machine)
    requires m.me < |m.table|
    ensures Calc(m).me == m.me && |Calc(m).table| == |m.table| && Content(Calc(m).Local()) == Content(m.Local())
  {
  }
}
