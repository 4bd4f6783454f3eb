/** The in-flight idempotency cache: one live reservation a key, released when the reservation is dropped. */
module IdempotencyCache {

  import opened Wrappers
  import Text

  datatype Reservation = Reservation(key: Option<string>, digest: string)

  datatype Outcome = Reserved(reservation: Reservation) | InFlight | Conflict | CapacityExhausted

  type Records = map<string, string>

  /** Live reservations by the ticket of the call that made them. */
  type Live = map<nat, Reservation>

  predicate Holds(r: Reservation, key: string, digest: string) {
    r == Reservation(Some(key), digest)
  }

  /** The records are exactly the keys of the live reservations, one each, within capacity. */
  ghost predicate Sound(maxKeys: nat, records: Records, live: Live) {
    && (forall t | t in live && live[t].key.Some? ::
          live[t].key.value in records && records[live[t].key.value] == live[t].digest)
    && (forall k | k in records :: exists t :: t in live && Holds(live[t], k, records[k]))
    && (forall t, u | t in live && u in live && live[t].key.Some? && live[t].key == live[u].key :: t == u)
    && |records| <= maxKeys
  }

  lemma ReserveKeeps(maxKeys: nat, records: Records, live: Live, t: nat, key: string, digest: string)
    requires Sound(maxKeys, records, live) && t !in live && key !in records && |records| < maxKeys
    ensures Sound(maxKeys, records[key := digest], live[t := Reservation(Some(key), digest)])
  {
    var records', live' := records[key := digest], live[t := Reservation(Some(key), digest)];
    forall k | k in records' ensures exists u :: u in live' && Holds(live'[u], k, records'[k]) {
      if k == key {
        assert Holds(live'[t], k, records'[k]);
      } else {
        var u :| u in live && Holds(live[u], k, records[k]);
        assert Holds(live'[u], k, records'[k]);
      }
    }
  }

  /** A reservation without a key touches no record. */
  lemma UnkeyedKeeps(maxKeys: nat, records: Records, live: Live, t: nat, digest: string)
    requires Sound(maxKeys, records, live) && t !in live
    ensures Sound(maxKeys, records, live[t := Reservation(None, digest)])
  {
    var live' := live[t := Reservation(None, digest)];
    forall k | k in records ensures exists u :: u in live' && Holds(live'[u], k, records[k]) {
      var u :| u in live && Holds(live[u], k, records[k]);
      assert Holds(live'[u], k, records[k]);
    }
  }

  lemma DropKeeps(maxKeys: nat, records: Records, live: Live, t: nat)
    requires Sound(maxKeys, records, live) && t in live
    ensures Sound(maxKeys, if live[t].key.Some? then records - {live[t].key.value} else records, live - {t})
  {
    var live' := live - {t};
    var records' := if live[t].key.Some? then records - {live[t].key.value} else records;
    forall k | k in records' ensures exists u :: u in live' && Holds(live'[u], k, records'[k]) {
      var u :| u in live && Holds(live[u], k, records[k]);
      assert Holds(live'[u], k, records'[k]);
    }
    if live[t].key.Some? {
      var key := live[t].key.value;
      assert records == records'[key := records[key]];
    }
  }

  lemma AllDroppedIsEmpty(maxKeys: nat, records: Records, live: Live)
    requires Sound(maxKeys, records, live) && forall t | t in live :: live[t].key.None?
    ensures records == map[]
  {
    assert forall k :: k !in records;
  }

  class EntryIdempotencyCache {
    const maxKeys: nat
    var records: Records
    ghost var live: Live

    ghost predicate Valid()
      reads this
    {
      Sound(maxKeys, records, live)
    }

    constructor (maxKeys: nat)
      ensures Valid() && this.maxKeys == maxKeys && records == map[] && live == map[]
    {
      this.maxKeys, records, live := maxKeys, map[], map[];
    }

    /** Succeeds unless a live reservation holds the key or every key is taken; `ticket` names the call. */
    method Reserve(key: string, digest: string, ghost ticket: nat) returns (r: Outcome)
      requires Valid() && ticket !in live
      modifies this
      ensures Valid()
      ensures live == if r.Reserved? then old(live)[ticket := r.reservation] else old(live)
      ensures r.Reserved? ==>
                r.reservation == Reservation(if maxKeys == 0 || Text.Trim(key) == "" then None else Some(key), digest)
      ensures r.InFlight? ==> exists t :: t in live && Holds(live[t], key, digest)
      ensures r.Conflict? ==> exists t :: t in live && live[t].key == Some(key) && live[t].digest != digest
      ensures r.CapacityExhausted? ==> |records| == maxKeys && forall t | t in live :: live[t].key != Some(key)
    {
      if maxKeys == 0 || Text.Trim(key) == "" {
        UnkeyedKeeps(maxKeys, records, live, ticket, digest);
        live := live[ticket := Reservation(None, digest)];
        return Reserved(Reservation(None, digest));
      }
      if key in records {
        ghost var t :| t in live && Holds(live[t], key, records[key]);
        return if records[key] != digest then Conflict else InFlight;
      }
      if |records| >= maxKeys {
        return CapacityExhausted;
      }
      ReserveKeeps(maxKeys, records, live, ticket, key, digest);
      records := records[key := digest];
      live := live[ticket := Reservation(Some(key), digest)];
      return Reserved(Reservation(Some(key), digest));
    }

    /** Dropping a reservation always finds its own record and frees exactly its key. */
    method Release(reservation: Reservation, ghost ticket: nat)
      requires Valid() && ticket in live && live[ticket] == reservation
      modifies this
      ensures Valid() && live == old(live) - {ticket}
      ensures reservation.key.Some? ==>
                reservation.key.value in old(records) && records == old(records) - {reservation.key.value}
      ensures reservation.key.None? ==> records == old(records)
    {
      DropKeeps(maxKeys, records, live, ticket);
      live := live - {ticket};
      if reservation.key.None? {
        return;
      }
      var key := reservation.key.value;
      if key in records && records[key] == reservation.digest {
        records := records - {key};
      }
    }
  }
}
