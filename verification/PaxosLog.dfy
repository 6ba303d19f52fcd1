/**
  PaxosKV's log in the form the program gives it: a list of entries that the operations extend,
  step and shrink, a proposer that may be in memory, and a flag that the log must be stored.
  Every operation is tied to the function of module KvLog that says what it computes; ok is
  false exactly when an assertion of the program would have failed.
 */
module PaxosLog {
  import opened PropNum
  import opened KvInstance
  import opened PaxosInstance
  import KvLog

  class PLogWrapper {
    const self: ProposerId
    const memberId: nat
    var entries: seq<Instance>
    var alive: PInsAliveState?
    var needDiskWrite: bool

    constructor (self: ProposerId, memberId: nat, alive: PInsAliveState?, entries: seq<Instance>)
      ensures this.self == self && this.memberId == memberId && this.alive == alive
      ensures this.entries == entries && !needDiskWrite
    {
      this.self, this.memberId, this.alive := self, memberId, alive;
      this.entries, needDiskWrite := entries, false;
    }

    ghost function InMemory(): set<object>
      reads this
    {
      if alive == null then {} else {alive, alive.gen}
    }

    function Proposer(): Option<Alive>
      reads this, InMemory()
    {
      if alive == null then None else Some(alive.View())
    }

    ghost predicate Gives(o: Outcome<KvLog.LogReply>, ok: bool, code: int, rsp: Option<Msg>, wrote: bool)
      reads this, InMemory()
    {
      && (ok <==> o.Done?)
      && (ok ==>
            && code == o.value.code && entries == o.value.log && Proposer() == o.value.alive && rsp == o.value.rsp
            && (needDiskWrite <==> wrote || o.value.write))
    }

    // The position of the entry a message is for; a message above the log opens a new entry
    // and puts the proposer away.
    method GetInstance(msgIndex: nat) returns (code: int, ok: bool, k: nat)
      requires KvLog.IsSlim(entries) || msgIndex == KvLog.MaxIndex(entries)
      modifies this`entries, this`alive
      ensures msgIndex != KvLog.MinIndex(old(entries)) && msgIndex != KvLog.MaxIndex(old(entries)) ==>
        if msgIndex < KvLog.MaxIndex(old(entries)) then code == -1 && entries == old(entries) && alive == old(alive)
        else code == 0 && alive == null && entries == old(entries) + [Blank(msgIndex)] && k == |old(entries)|
      ensures msgIndex == KvLog.MinIndex(old(entries)) || msgIndex == KvLog.MaxIndex(old(entries)) ==>
        code == 0 && entries == old(entries) && alive == old(alive)
      ensures code == 0 ==> k == KvLog.Position(entries, msgIndex) && (ok <==> k < |entries|)
    {
      k := 0;
      if msgIndex != KvLog.MinIndex(entries) && msgIndex != KvLog.MaxIndex(entries) {
        if msgIndex < KvLog.MaxIndex(entries) {
          return -1, true, 0;
        }
        alive := null;
        entries := entries + [Blank(msgIndex)];
      }
      while k < |entries| && entries[k].index != msgIndex
        invariant k <= |entries|
        invariant forall i :: 0 <= i < k ==> entries[i].index != msgIndex
        invariant KvLog.Position(entries, msgIndex) == k + KvLog.Position(entries[k..], msgIndex)
      {
        assert entries[k..][1..] == entries[k + 1..];
        k := k + 1;
      }
      if entries != old(entries) {
        assert entries[|old(entries)|].index == msgIndex;
        assert forall i :: 0 <= i < |old(entries)| ==> entries[i] == old(entries)[i];
      }
      return 0, k < |entries|, k;
    }

    method ShrinkPlog() returns (shrunk: bool)
      modifies this`entries
      ensures entries == KvLog.Shrink(old(entries)) && (shrunk <==> !KvLog.IsSlim(old(entries)))
    {
      if KvLog.IsSlim(entries) {
        return false;
      }
      var prev, ins := entries[|entries| - 2], entries[|entries| - 1];
      entries := if KvLog.KeepsPrevious(prev, ins) then [prev, ins] else [ins];
      return true;
    }

    method StepInvalidIndex(msg: Msg) returns (ok: bool, rsp: Option<Msg>)
      ensures var o := KvLog.StepInvalidIndex(entries, Proposer(), msg);
        (ok <==> o.Done?) && (ok ==> o.value == KvLog.Unchanged(0, entries, Proposer(), rsp))
    {
      rsp := None;
      if entries == [] {
        return true, None;
      }
      if msg.index >= KvLog.MaxIndex(entries) {
        return false, None;
      }
      match msg.kind
      case GetChosen => ok, rsp := TellLastChosen(msg);
      case Prop => ok, rsp := TellLastChosen(msg);
      case Accpt => ok, rsp := TellLastChosen(msg);
      case FastAccpt => ok, rsp := TellLastChosen(msg);
      case ChosenMsg =>
        ok := msg.index + 1 != KvLog.MaxIndex(entries) || entries[|entries| - 1].chosen;
      case _ => ok := true;
    }

    method TellLastChosen(msg: Msg) returns (ok: bool, rsp: Option<Msg>)
      ensures var o := KvLog.TellLastChosen(entries, Proposer(), msg);
        (ok <==> o.Done?) && (ok ==> o.value == KvLog.Unchanged(0, entries, Proposer(), rsp))
    {
      var chosen := KvLog.LastChosen(entries);
      if chosen.None? {
        return true, None;
      }
      if msg.index >= chosen.value.index {
        return false, None;
      }
      LastChosenIsChosen(entries);
      var ins := new PaxosInstance(chosen.value);
      var pins := new PInsWrapper(null, ins);
      var write: bool;
      ok, write, rsp := pins.Step(msg.(kind := GetChosen, index := chosen.value.index));
    }

    static lemma LastChosenIsChosen(entries: seq<Instance>)
      ensures KvLog.LastChosen(entries).Some? ==> KvLog.LastChosen(entries).value.chosen
    {
    }

    // Apply a message to the entry at k, then drop what the log need not keep.
    method StepEntry(k: nat, msg: Msg) returns (ok: bool, rsp: Option<Msg>)
      requires k < |entries|
      modifies this`entries, this`needDiskWrite, InMemory()
      ensures Gives(KvLog.StepAt(old(entries), k, old(Proposer()), msg), ok, 0, rsp, old(needDiskWrite))
    {
      var ins := new PaxosInstance(entries[k]);
      var pins := new PInsWrapper(alive, ins);
      var alreadyChosen := ins.chosen;
      var write: bool;
      ok, write, rsp := pins.Step(msg);
      if !ok {
        return;
      }
      entries := entries[k := ins.View()];
      if (!alreadyChosen && ins.chosen) || write {
        needDiskWrite := true;
      }
      var shrunk := ShrinkPlog();
      if shrunk {
        needDiskWrite := true;
      }
    }

    method Step(msg: Msg) returns (ok: bool, code: int, rsp: Option<Msg>)
      requires KvLog.IsSlim(entries) || msg.index == KvLog.MaxIndex(entries)
      modifies this, InMemory()
      ensures Gives(KvLog.LogStep(self, old(entries), old(Proposer()), msg), ok, code, rsp, old(needDiskWrite))
      ensures alive == null || alive == old(alive)
      ensures ok && code == 0 ==> KvLog.IsSlim(entries)
      ensures code != 0 ==> msg.index == 0 || msg.to != self
    {
      code, rsp := 0, None;
      if msg.index == 0 || msg.to != self {
        if msg.index == 0 && msg.kind == GetChosen {
          ok, rsp := StepInvalidIndex(msg);
          return;
        }
        return true, -1, None;
      }
      var k: nat;
      code, ok, k := GetInstance(msg.index);
      if code != 0 {
        code := 0;
        ok, rsp := StepInvalidIndex(msg);
        return;
      }
      if !ok {
        return;
      }
      ok, rsp := StepEntry(k, msg);
    }

    // Propose a value at the next index, without a prepare round when that is allowed.
    method NormalSet(value: Entry, doFast: bool) returns (ok: bool, code: int, rsp: Option<Msg>)
      requires KvLog.IsSlim(entries)
      modifies this
      ensures old(alive) != null ==> ok && code == -10 && rsp == None && alive == old(alive) && entries == old(entries)
      ensures old(alive) == null ==>
        Gives(KvLog.NormalSet(self, memberId, old(entries), value, doFast), ok, code, rsp, old(needDiskWrite))
      ensures ok ==> KvLog.IsSlim(entries)
    {
      hide KvLog.LogStep;
      if alive != null {
        return true, -10, None;
      }
      if entries != [] && !entries[|entries| - 1].chosen {
        return true, KvLog.BUSY, None;
      }
      var index := KvLog.MaxIndex(entries) + 1;
      var num := Compose(self, 0);
      var kind := BeginProp;
      if doFast && KvLog.CanDoFast(entries, memberId) {
        kind := BeginFastProp;
      }
      alive := new PInsAliveState(index, num);
      entries := entries + [Blank(index)];
      ok, code, rsp := Step(KvLog.ToSelf(kind, self, index, num, value));
      ok := ok && rsp.Some?;
    }

    // Propose again at the index that is still open.
    method PreemptSet(value: Entry) returns (ok: bool, code: int, rsp: Option<Msg>)
      requires KvLog.IsSlim(entries)
      modifies this
      ensures old(alive) != null ==> ok && code == -10 && rsp == None && alive == old(alive) && entries == old(entries)
      ensures old(alive) == null ==>
        Gives(KvLog.PreemptSet(self, old(entries), value), ok, code, rsp, old(needDiskWrite))
      ensures ok ==> KvLog.IsSlim(entries)
    {
      hide KvLog.LogStep;
      if alive != null {
        return true, -10, None;
      }
      if entries == [] {
        return true, -11, None;
      }
      var ins := entries[|entries| - 1];
      var chosen := KvLog.LastChosen(entries);
      if (chosen.None? || ins.index != chosen.value.index + 1) && ins.index != 1 {
        return true, -11, None;
      }
      if ins.chosen || ins.index == 0 {
        return false, 0, None;
      }
      var gen := new PropNumGen(self, 0);
      var num := gen.Next(ins.proposed);
      alive := new PInsAliveState(ins.index, num);
      ok, code, rsp := Step(KvLog.ToSelf(TryProp, self, ins.index, num, value));
      ok := ok && rsp.Some?;
    }

    method Set(value: Entry, doFast: bool) returns (ok: bool, code: int, rsp: Option<Msg>)
      requires KvLog.IsSlim(entries)
      modifies this
      ensures old(alive) != null ==> ok && code == -10 && rsp == None && alive == old(alive) && entries == old(entries)
      ensures old(alive) == null ==>
        Gives(KvLog.Set(self, memberId, old(entries), value, doFast), ok, code, rsp, old(needDiskWrite))
      ensures ok ==> KvLog.IsSlim(entries)
    {
      if alive != null {
        return true, -10, None;
      }
      if entries != [] && !entries[|entries| - 1].chosen {
        ok, code, rsp := PreemptSet(value);
      } else {
        ok, code, rsp := NormalSet(value, doFast);
      }
    }

    method TryRedoProp() returns (ok: bool, code: int, rsp: Option<Msg>)
      requires KvLog.IsSlim(entries)
      modifies this, InMemory()
      ensures old(alive) == null ==> ok && code == -20 && rsp == None && entries == old(entries)
      ensures old(alive) != null ==>
        Gives(KvLog.RedoProp(self, old(entries), old(Proposer()).value), ok, code, rsp, old(needDiskWrite))
      ensures ok ==> KvLog.IsSlim(entries)
    {
      ok, code, rsp := true, 0, None;
      if alive == null {
        return true, -20, None;
      }
      if entries == [] || entries[|entries| - 1].chosen {
        return true, 1, None;
      }
      var ins := entries[|entries| - 1];
      if alive.index != ins.index {
        return false, 0, None;
      }
      var gen := new PropNumGen(self, 0);
      var num := gen.Next(ins.proposed);
      var value: Entry;
      if alive.proposing.Some? {
        value := alive.proposing.value;
      } else if ins.accepted.Some? {
        value := ins.accepted.value.value;
      } else {
        var chosen := KvLog.LastChosen(entries);
        if chosen.None? || chosen.value.index + 1 != ins.index || chosen.value.accepted.None? {
          return true, -21, None;
        }
        value := Entry(0, chosen.value.accepted.value.value.data);
      }
      ok, code, rsp := Step(KvLog.ToSelf(MsgType.TryRedoProp, self, ins.index, num, value));
    }
  }
}
