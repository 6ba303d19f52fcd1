/**
  The message between two Certain acceptors: the sender's own record and its view of the
  receiver's.  A value the receiver is believed to hold travels as its id alone, and the receiver
  puts it back from its table.
 */
module PaxosCommand {
  import opened EntryRecord
  import opened EntryMachine
  import opened EntryStateMachine

  datatype Cmd = Cmd(localId: nat, peerId: nat, local: Record, peer: Record)

  function Strip(r: Record): Record {
    if r.idOnly then r else r.(value := "", uuids := [], idOnly := true)
  }

  function Elide(c: Cmd): Cmd {
    if c.peer.valueId == 0 then c
    else c.(local := if c.local.valueId == c.peer.valueId then Strip(c.local) else c.local,
            peer := Strip(c.peer))
  }

  function Switch(c: Cmd): Cmd {
    Cmd(c.peerId, c.localId, c.peer, c.local)
  }

  function RestoreIfElided(t: seq<Record>, r: Record): Record {
    if r.idOnly then Restore(t, r) else r
  }

  function RestoreCmd(t: seq<Record>, c: Cmd): Cmd {
    c.(local := RestoreIfElided(t, c.local), peer := RestoreIfElided(t, c.peer))
  }

  // The command in the form the program gives it.
  class PaxosCmd {
    var localId: nat
    var peerId: nat
    var local: Record
    var peer: Record

    function View(): Cmd
      reads this
    {
      Cmd(localId, peerId, local, peer)
    }

    constructor (c: Cmd)
      ensures View() == c
    {
      localId, peerId, local, peer := c.localId, c.peerId, c.local, c.peer;
    }

    // A command that is not for this acceptor is left as it is.
    method SwitchToLocalView(acceptorId: nat) returns (ok: bool)
      modifies this
      ensures ok <==> old(peerId) == acceptorId
      ensures View() == if ok then Switch(old(View())) else old(View())
    {
      if peerId != acceptorId {
        return false;
      }
      localId, peerId := peerId, localId;
      local, peer := peer, local;
      return true;
    }

    method RemoveValueInRecord()
      requires peer.valueId > 0 ==> peer.accepted > 0
      modifies this
      ensures View() == Elide(old(View()))
    {
      if peer.valueId == 0 {
        return;
      }
      if local.valueId == peer.valueId && !local.idOnly {
        local := local.(value := "", uuids := [], idOnly := true);
      }
      if !peer.idOnly {
        peer := peer.(value := "", uuids := [], idOnly := true);
      }
    }

    method RestoreValue(machine: EntryStateMachine)
      requires machine.Valid()
      modifies this
      ensures View() == RestoreCmd(machine.View().table, old(View()))
    {
      if local.idOnly {
        local := machine.RestoreValueInRecord(local);
      }
      if peer.idOnly {
        peer := machine.RestoreValueInRecord(peer);
      }
    }
  }

  // ---- what a restored record is ----

  ghost predicate Holds(t: seq<Record>, id: nat) {
    exists k :: 0 <= k < |t| && t[k].valueId == id
  }

  // Nothing but numbers and a value id to lose.
  predicate IsBare(r: Record) {
    r.value == "" && r.uuids == [] && !r.chosen
  }

  // The table agrees with the record on what the value id stands for.
  ghost predicate SameValue(t: seq<Record>, r: Record) {
    forall k :: 0 <= k < |t| && t[k].valueId == r.valueId ==> Content(t[k]) == Content(r)
  }

  lemma RestoreIsExact(t: seq<Record>, r: Record)
    requires IsWhole(r) && SameValue(t, r)
    ensures Restore(t, Strip(r)) == r <==> Holds(t, r.valueId) || IsBare(r)
  {
    var k := FindValueId(t, r.valueId);
    if k < |t| {
      assert Content(t[k]) == Content(r);
      assert Holds(t, r.valueId);
    }
  }

  // Eliding, switching the view and restoring is exact just when the receiver's table holds the
  // value id elided, or the records had nothing to lose.
  lemma CommandIsExact(t: seq<Record>, c: Cmd)
    requires IsWhole(c.local) && IsWhole(c.peer) && SameValue(t, c.local) && SameValue(t, c.peer)
    ensures RestoreCmd(t, Switch(Elide(c))) == Switch(c) <==>
      || c.peer.valueId == 0 || Holds(t, c.peer.valueId)
      || (IsBare(c.peer) && (c.local.valueId == c.peer.valueId ==> IsBare(c.local)))
  {
    RestoreIsExact(t, c.peer);
    RestoreIsExact(t, c.local);
  }
}
