/** The vault: opening, finding, closing and expiry of exchanges, each an object of its own. */
module AnoExchange {
  import opened Basics
  import opened AnoVault

  // ---------------------------------------------------------------------------------------------
  // The vault
  // ---------------------------------------------------------------------------------------------

  /** The vault when the exchanges in `todo` have not been looked at yet. */
  function Remaining(v: Vault, todo: set<string>, now: int): Vault {
    map id | id in v && (id in todo || now < v[id].expires) :: v[id]
  }

  lemma NothingPurged(v: Vault, now: int)
    ensures Remaining(v, v.Keys, now) == v
  {
  }

  lemma PurgeOne(v: Vault, todo: set<string>, id: string, now: int)
    requires id in todo && todo <= v.Keys
    ensures id in Remaining(v, todo, now) && Remaining(v, todo, now)[id] == v[id]
    ensures Remaining(v, todo - {id}, now) ==
            if now >= v[id].expires then Remaining(v, todo, now) - {id} else Remaining(v, todo, now)
  {
  }

  class VaultStore {
    const limits: Limits
    var slots: map<string, Exchange>

    /** No two ids share an exchange. */
    ghost predicate Valid() reads this {
      forall a, b :: a in slots && b in slots && slots[a] == slots[b] ==> a == b
    }

    ghost function Abs(): Vault reads this, slots.Values {
      map id | id in slots :: Slot(slots[id].expires, slots[id].Abs())
    }

    constructor (limits: Limits)
      ensures this.limits == limits && Valid() && Abs() == map[]
    {
      this.limits := limits;
      slots := map[];
    }

    /** The exchange is gone, its values are forgotten, and no other exchange is affected. */
    method CloseExchange(id: string)
      requires Valid()
      modifies this`slots, slots.Values
      ensures Valid() && Abs() == Close(old(Abs()), id)
      ensures id !in slots && (id in old(slots) ==> old(slots[id]).byTok == map[])
      ensures forall o :: o != id ==> (o in slots <==> o in old(slots))
      ensures forall o :: o in slots ==> slots[o] == old(slots[o]) && slots[o].Abs() == old(slots[o].Abs())
    {
      if id in slots {
        slots[id].Wipe();
        slots := slots - {id};
      }
    }

    method DropExchange(id: string)
      requires Valid() && id in slots
      modifies this`slots, slots[id]
      ensures Valid() && Abs() == old(Abs()) - {id} && slots.Values <= old(slots.Values)
    {
      slots[id].Wipe();
      slots := slots - {id};
    }

    /** Drops the expired exchanges, and wipes each of them. */
    method PurgeLocked(now: int)
      requires Valid()
      modifies this`slots, slots.Values
      ensures Valid() && Abs() == Purge(old(Abs()), now)
      ensures slots.Values <= old(slots.Values)
    {
      ghost var before, values := Abs(), slots.Values;
      var ids := slots.Keys;
      NothingPurged(before, now);
      while ids != {}
        invariant Valid() && slots.Values <= values
        invariant ids <= before.Keys && Abs() == Remaining(before, ids, now)
        decreases |ids|
      {
        var id :| id in ids;
        PurgeOne(before, ids, id, now);
        assert id in Abs() && Abs()[id].expires == slots[id].expires;
        if now >= slots[id].expires { DropExchange(id); }
        ids := ids - {id};
      }
      assert Remaining(before, {}, now) == Purge(before, now);
    }

    method Count() returns (n: nat)
      ensures n == |Abs()|
    {
      assert slots.Keys == Abs().Keys;
      n := |slots.Keys|;
    }

    method AddExchange(id: string, expires: int) returns (ex: Exchange)
      requires Valid() && id !in slots
      modifies this`slots
      ensures Valid() && Abs() == old(Abs())[id := Slot(expires, EMPTY)]
      ensures slots == old(slots)[id := ex]
    {
      ex := new Exchange(expires);
      slots := slots[id := ex];
    }

    method OpenExchange(id: string, expiry: int, now: int) returns (r: Result<Exchange, OpenError>)
      requires Valid()
      modifies this`slots, slots.Values
      ensures Valid() && Abs() == Open(limits, old(Abs()), id, expiry, now).0
      ensures Open(limits, old(Abs()), id, expiry, now).1 == if r.Ok? then None else Some(r.error)
      ensures r.Ok? ==> id in slots && slots[id] == r.value
    {
      if |id| < 1 || |id| > 128 { return Err(BadId); }
      PurgeLocked(now);
      r := OpenHere(id, expiry, now);
    }

    /** The rest of it, once the expired exchanges are gone. */
    method OpenHere(id: string, expiry: int, now: int) returns (r: Result<Exchange, OpenError>)
      requires Valid()
      modifies this`slots
      ensures Valid() && Abs() == OpenLive(limits, old(Abs()), id, expiry, now).0
      ensures OpenLive(limits, old(Abs()), id, expiry, now).1 == if r.Ok? then None else Some(r.error)
      ensures r.Ok? ==> id in slots && slots[id] == r.value
    {
      if id in slots { return Ok(slots[id]); }
      if expiry <= now { return Err(BadExpiry); }
      var until := if expiry > now + limits.maxTTL then now + limits.maxTTL else expiry;
      var n := Count();
      if n >= limits.maxExchanges { return Err(Saturated); }
      var ex := AddExchange(id, until);
      r := Ok(ex);
    }

    method GetExchange(id: string, now: int) returns (r: Option<Exchange>)
      requires Valid()
      modifies this`slots, slots.Values
      ensures Valid() && Abs() == Purge(old(Abs()), now)
      ensures r.Some? <==> id in slots
      ensures r.Some? ==> r.value == slots[id] && r.value in old(slots.Values)
    {
      PurgeLocked(now);
      if id !in slots { return None; }
      r := Some(slots[id]);
    }
  }
}
