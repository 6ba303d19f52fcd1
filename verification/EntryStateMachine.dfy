/**
  The entry state machine in the form the program gives it: an object whose operations
  overwrite its record table, its empty flags and its state.  Every operation is tied to the
  function of module EntryMachine that says what it makes of the table.
 */
module EntryStateMachine {
  import opened EntryRecord
  import opened EntryMachine
  import opened EntryDecisions

  const MAX_ACCEPTOR_NUM := 5

  class EntryStateMachine {
    const acceptorNum: nat
    const localAcceptorId: nat
    const records: array<Record>
    const emptyFlags: array<bool>
    var state: EntryState

    ghost function View(): Machine
      reads this, records
      requires acceptorNum <= records.Length
    {
      Machine(localAcceptorId, records[..acceptorNum], state)
    }

    ghost predicate Shaped()
    {
      && records.Length == emptyFlags.Length == MAX_ACCEPTOR_NUM
      && localAcceptorId < acceptorNum <= MAX_ACCEPTOR_NUM
    }

    ghost predicate Valid()
      reads this, records
    {
      Shaped() && WellFormed(View())
    }

    // The flags that count, once a read has reset them.
    ghost function Flags(): seq<bool>
      reads emptyFlags
      requires Shaped()
    {
      emptyFlags[..acceptorNum]
    }

    constructor (acceptorNum: nat, localAcceptorId: nat)
      requires localAcceptorId < acceptorNum <= MAX_ACCEPTOR_NUM
      ensures Valid() && fresh(records) && fresh(emptyFlags)
      ensures View() == Fresh(acceptorNum, localAcceptorId)
    {
      this.acceptorNum := acceptorNum;
      this.localAcceptorId := localAcceptorId;
      records := new Record[MAX_ACCEPTOR_NUM](_ => BLANK);
      emptyFlags := new bool[MAX_ACCEPTOR_NUM];
      state := Normal;
      new;
      assert records[..acceptorNum] == Fresh(acceptorNum, localAcceptorId).table;
    }

    method CountWithAccepted(num: nat) returns (count: nat)
      requires Shaped()
      ensures count == CountAccepted(records[..acceptorNum], num)
    {
      count := 0;
      ghost var t := records[..acceptorNum];
      for i := 0 to acceptorNum
        invariant count == CountAccepted(t[..i], num)
      {
        if records[i].accepted == num {
          count := count + 1;
        }
        assert t[..i + 1][..i] == t[..i];
      }
      assert t[..acceptorNum] == t;
    }

    method CountWithPromised(num: nat) returns (count: nat)
      requires Shaped()
      ensures count == CountPromised(records[..acceptorNum], num)
    {
      count := 0;
      ghost var t := records[..acceptorNum];
      for i := 0 to acceptorNum
        invariant count == CountPromised(t[..i], num)
      {
        if records[i].promised == num {
          count := count + 1;
        }
        assert t[..i + 1][..i] == t[..i];
      }
      assert t[..acceptorNum] == t;
    }

    // Only proposals with the local accepted number are counted.
    method CalcEntryState()
      requires Shaped() && forall i :: 0 <= i < acceptorNum ==> IsWhole(records[i])
      modifies this`state, records
      ensures View() == Calc(old(View())) && Valid()
      ensures state == IsChosen <==> IsDecided(old(View()).table, localAcceptorId)
      ensures state == MajorityPromise <==>
        && !IsDecided(old(View()).table, localAcceptorId) && IsProposing(old(View()).Local())
        && IsPromised(old(View()).table, localAcceptorId)
      ensures records[acceptorNum..] == old(records[acceptorNum..])
    {
      hide IsDecided, IsProposing, IsPromised;
      ghost var before := View();
      CalcSettles(before);
      StateIs(before);
      state := Normal;
      var record := records[localAcceptorId];
      if record.chosen {
        state := IsChosen;
        assert View().table == before.table[before.me := before.Local().(chosen := true)];
        return;
      }
      if record.accepted > 0 {
        var acceptedCount := CountWithAccepted(record.accepted);
        if acceptedCount >= acceptorNum / 2 + 1 {
          state := IsChosen;
          records[localAcceptorId] := record.(chosen := true);
          assert View().table == before.table[before.me := before.Local().(chosen := true)];
          return;
        }
      }
      if record.promised > record.prepared {
        state := PromiseRemote;
        if record.accepted == record.promised {
          state := AcceptRemote;
        } else {
          assert record.accepted < record.promised;
        }
        return;
      }
      assert record.promised == record.prepared;
      assert record.accepted <= record.promised;
      if record.promised == 0 {
        state := Normal;
        return;
      }
      state := PromiseLocal;
      if record.accepted == record.promised {
        state := AcceptLocal;
        return;
      }
      var promisedCount := CountWithPromised(record.promised);
      if promisedCount >= acceptorNum / 2 + 1 {
        state := MajorityPromise;
      }
    }

    // Overwrite the local record and work the state out again.
    method SetLocal(record: Record)
      requires Shaped() && IsWhole(record) && forall i :: 0 <= i < acceptorNum ==> IsWhole(records[i])
      modifies this`state, records
      ensures View() == Calc(old(View()).(table := old(View().table)[localAcceptorId := record]))
      ensures Valid()
      ensures records[acceptorNum..] == old(records[acceptorNum..])
    {
      ghost var before := View();
      records[localAcceptorId] := record;
      assert View().table == before.table[localAcceptorId := record];
      CalcEntryState();
    }

    static method MergeInto(local: Record, peerRecord: Record) returns (record: Record)
      ensures record == Merge(local, peerRecord)
    {
      record := local;
      if record.promised < peerRecord.promised {
        record := record.(promised := peerRecord.promised);
      }
      if peerRecord.chosen ||
         (record.promised <= peerRecord.accepted && record.accepted < peerRecord.accepted) {
        record := record.(accepted := peerRecord.accepted, chosen := peerRecord.chosen);
        if record.valueId != peerRecord.valueId {
          record := record.(valueId := peerRecord.valueId, value := peerRecord.value,
                            uuids := peerRecord.uuids);
        }
      }
    }

    method Update(peer: nat, peerRecord: Record) returns (code: Code)
      requires Valid()
      modifies this`state, records
      ensures Valid()
      ensures (code, View()) == EntryMachine.Update(old(View()), peer, peerRecord)
      ensures records[acceptorNum..] == old(records[acceptorNum..])
    {
      hide Calc, Merge;
      ghost var before := View();
      if peer >= acceptorNum {
        return InvalidAcceptorId;
      }
      if peerRecord.idOnly || !IsValid(peerRecord) {
        return InvalidRecord;
      }
      if !IsNewer(records[peer], peerRecord) {
        return Ok;
      }
      if peer == localAcceptorId {
        SetLocal(peerRecord);
        return Ok;
      }
      StorePeer(peer, peerRecord);
      if state == IsChosen {
        UpdateKeeps(before, peer, peerRecord);
        return Ok;
      }
      var record := MergeInto(records[localAcceptorId], peerRecord);
      StateTells(before);
      MergeIsWhole(before.Local(), peerRecord);
      SetLocal(record);
      return Ok;
    }

    method StorePeer(peer: nat, peerRecord: Record)
      requires Shaped() && peer < acceptorNum
      modifies records
      ensures View() == old(View()).(table := old(View().table)[peer := peerRecord])
      ensures records[acceptorNum..] == old(records[acceptorNum..])
    {
      ghost var before := View();
      records[peer] := peerRecord;
      assert View().table == before.table[peer := peerRecord];
    }

    method Promise(preAuth: bool) returns (code: Code)
      requires Valid()
      modifies this`state, records
      ensures Valid()
      ensures (code, View()) == EntryMachine.Promise(old(View()), preAuth)
      ensures records[acceptorNum..] == old(records[acceptorNum..])
    {
      hide Calc, Owns;
      ghost var before := View();
      PromiseKeeps(before, preAuth);
      var pn := records[localAcceptorId].promised;
      var n := acceptorNum;
      pn := (pn + n - 1) / n * n + localAcceptorId + 1;
      if !preAuth && pn <= n {
        pn := pn + n;
      }
      NextNumberGrows(before.Local().promised, n, localAcceptorId, preAuth);
      SetLocal(records[localAcceptorId].(prepared := pn, promised := pn));
      if state != PromiseLocal {
        return InvalidEntryState;
      }
      return Ok;
    }

    predicate IsLocalAcceptable()
      reads this, records
      requires Valid()
      ensures IsLocalAcceptable() == Acceptable(View())
    {
      state == MajorityPromise ||
      (state == PromiseLocal && records[localAcceptorId].promised <= acceptorNum)
    }

    // What the program asserts at the end of Accept, put as a demand on its caller: nobody else
    // is known to have accepted under the number this acceptor is about to accept with.
    ghost predicate NumberUnused()
      reads this, records
      requires Valid()
    {
      acceptorNum >= 2 &&
      forall i :: 0 <= i < acceptorNum && i != localAcceptorId ==>
        records[i].accepted != records[localAcceptorId].promised
    }

    method SelectMaxAccepted() returns (selected: nat)
      requires Shaped()
      ensures selected == Selected(records[..acceptorNum])
    {
      selected := 0;
      var maxAcceptedNum := records[0].accepted;
      ghost var t := records[..acceptorNum];
      for i := 1 to acceptorNum
        invariant selected < i && maxAcceptedNum == records[selected].accepted
        invariant selected == Selected(t[..i])
      {
        assert t[..i + 1][..i] == t[..i];
        if maxAcceptedNum < records[i].accepted {
          selected := i;
          maxAcceptedNum := records[i].accepted;
        }
      }
      assert t[..acceptorNum] == t;
    }

    method Accept(value: string, valueId: nat, uuids: seq<nat>)
      returns (code: Code, preparedValueAccepted: bool)
      requires Valid() && valueId > 0
      requires IsLocalAcceptable() ==> NumberUnused()
      modifies this`state, records
      ensures Valid()
      ensures (code, View(), preparedValueAccepted) ==
              EntryMachine.Accept(old(View()), Payload(valueId, value, uuids))
      ensures code == Ok ==> state == AcceptLocal && (preparedValueAccepted <==> NoneAccepted(old(View()).table))
      ensures records[acceptorNum..] == old(records[acceptorNum..])
    {
      hide Calc, Leads, CountAccepted, CountPromised, NoneAccepted;
      ghost var before := View();
      if !IsLocalAcceptable() {
        return InvalidEntryState, false;
      }
      AcceptKeeps(before, Payload(valueId, value, uuids));
      FlagTells(before, Payload(valueId, value, uuids));
      AcceptLandsLocal(before, Payload(valueId, value, uuids));
      StateTells(before);
      var record := records[localAcceptorId];
      var promisedNum := record.promised;
      assert promisedNum > 0;
      var selected := SelectMaxAccepted();
      var maxAcceptedNum := records[selected].accepted;
      if maxAcceptedNum > 0 {
        var best := records[selected];
        record := record.(accepted := promisedNum, value := best.value, valueId := best.valueId,
                          uuids := best.uuids);
        preparedValueAccepted := false;
      } else {
        record := record.(accepted := promisedNum, value := value, valueId := valueId, uuids := uuids);
        preparedValueAccepted := true;
      }
      SetLocal(record);
      assert state == AcceptLocal;
      code := Ok;
    }

    method GetByValueId(valueId: nat) returns (code: Code, value: string, uuids: seq<nat>)
      requires Valid()
      ensures var k := FindValueId(records[..acceptorNum], valueId);
        if k < acceptorNum then code == Ok && value == records[k].value && uuids == records[k].uuids
        else code == NotFound
    {
      ghost var t := records[..acceptorNum];
      value, uuids := "", [];
      for i := 0 to acceptorNum
        invariant forall j :: 0 <= j < i ==> records[j].valueId != valueId
      {
        if records[i].valueId == valueId {
          FindIsFirst(t, valueId, i);
          return Ok, records[i].value, records[i].uuids;
        }
      }
      FindIsFirst(t, valueId, acceptorNum);
      code := NotFound;
    }

    method RestoreValueInRecord(record: Record) returns (restored: Record)
      requires Valid() && record.idOnly
      ensures restored == Restore(records[..acceptorNum], record)
    {
      restored := record.(idOnly := false);
      var code, value, uuids := GetByValueId(record.valueId);
      if code != Ok {
        restored := restored.(chosen := false, value := "", uuids := []);
        return;
      }
      restored := restored.(value := value, uuids := uuids);
    }

    method ResetEmptyFlags()
      requires Valid() && state == Normal
      modifies emptyFlags
      ensures Flags() == seq(acceptorNum, i => i == localAcceptorId)
    {
      for i := 0 to acceptorNum
        invariant forall j :: 0 <= j < i ==> !emptyFlags[j]
      {
        emptyFlags[i] := false;
      }
      emptyFlags[localAcceptorId] := true;
    }

    method SetEmptyFlag(peer: nat)
      requires Shaped() && peer < acceptorNum
      modifies emptyFlags
      ensures Flags() == old(Flags())[peer := true]
    {
      emptyFlags[peer] := true;
    }

    method IsMajorityEmpty() returns (yes: bool)
      requires Shaped()
      ensures yes <==> 2 * |set i: nat | i < acceptorNum && Flags()[i]| > acceptorNum
    {
      var count := 0;
      ghost var up: set<nat> := {};
      for i := 0 to acceptorNum
        invariant up == set j: nat | j < i && Flags()[j]
        invariant count == |up|
      {
        if emptyFlags[i] {
          count := count + 1;
          up := up + {i};
        }
      }
      yes := count > acceptorNum / 2;
    }

    predicate HasPromisedMyProposal(peer: nat)
      reads this, records
      requires Valid() && peer < acceptorNum
    {
      && records[localAcceptorId].promised == records[peer].promised
      && records[localAcceptorId].promised == records[localAcceptorId].prepared
    }

    predicate HasAcceptedMyProposal(peer: nat)
      reads this, records
      requires Valid() && peer < acceptorNum
    {
      && records[localAcceptorId].accepted == records[peer].accepted
      && records[localAcceptorId].accepted == records[localAcceptorId].prepared
    }
  }
}
