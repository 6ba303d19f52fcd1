/** The record an acceptor keeps for one log entry, and the two predicates on records. */
module EntryRecord {

  datatype Record = Record(
    prepared: nat,      // the last number this acceptor proposed with
    promised: nat,
    accepted: nat,
    valueId: nat,
    value: string,
    uuids: seq<nat>,
    chosen: bool,
    idOnly: bool        // the value was elided from a message
  )

  const BLANK := Record(0, 0, 0, 0, "", [], false, false)

  // What an acceptor accepts: the value together with everything that travels with it.
  datatype Payload = Payload(valueId: nat, value: string, uuids: seq<nat>)

  function Content(r: Record): Payload {
    Payload(r.valueId, r.value, r.uuids)
  }

  predicate IsNewer(known: Record, seen: Record) {
    if known.chosen then false
    else if seen.chosen then true
    else
      || seen.prepared > known.prepared
      || seen.promised > known.promised
      || seen.accepted > known.accepted
  }

  predicate IsValid(r: Record) {
    && !(r.prepared > r.promised || r.promised < r.accepted)
    && !((r.accepted == 0 && r.valueId > 0) || (r.accepted > 0 && r.valueId == 0))
    && !(r.idOnly && r.valueId == 0)
    && (r.valueId == 0 ==> !(|r.value| > 0 || |r.uuids| > 0 || r.chosen))
    && (r.idOnly ==> !(|r.value| > 0 || |r.uuids| > 0))
  }

  // A record that may enter a machine's table.
  predicate IsWhole(r: Record) {
    IsValid(r) && !r.idOnly
  }
}
