/**
  The human arbitration queue: enqueue, signed decision, one-shot consumption, and the rebuild of the
  queue from its journal after a crash.

  The `...Spec` functions specify the locked sections; class `Queue` is the imperative form.  A leaf
  write may fail before the clear record is journalled (`Lost`) or after it (`JournalOnly`).  The
  journal holds this queue's own records only, as `ArbiterCodec.ParseEncode` reads them back.
*/
module Arbiter {
  import opened Basics
  import opened Bytes
  import opened ArbiterCodec

  const SECOND := 1_000_000_000
  const MIN_DECISION_TTL := 30 * SECOND

  const ENQUEUE: Byte := 1
  const APPROVE: Byte := 2
  const REFUSE: Byte := 3
  const CONSUME: Byte := 4
  const CONSUME_REFUSED: Byte := 5

  const NO_KID: ByteString := [0, 0, 0, 0, 0, 0, 0, 0, 0, 0, 0, 0, 0, 0, 0, 0]

  type Id = ByteString
  type Ticket = ByteString
  type Key = int

  datatype Status = Pending | Approved | Refused
  /** `expires` is in nanoseconds: the end of the wait, then the end of the decision. */
  datatype Entry = Entry(ticket: Ticket, subject: ByteString, expires: nat, status: Status, kid: ByteString)
  type Entries = map<Id, Entry>

  datatype Leaf = Written | JournalOnly | Lost
  datatype Store = Store(entries: Entries, journal: seq<Record>)

  datatype Config = Config(
    cell: ByteString, arbiters: seq<Key>, refusers: seq<Key>, operators: seq<Key>, entryTTL: nat, max: nat,
    verify: (Key, ByteString, ByteString) -> bool, kidOf: Key -> ByteString, idOf: (ByteString, ByteString) -> Id)

  datatype Reply =
    | Queued | AlreadyPending | QueueFull | SubjectTooLong | LeafFailed
    | UnknownEntry | BadExpiry | BadSignature | RoleDenied | Decided
    | TakeNone | TakePending | TakeApproved | TakeRefused

  // ---------------------------------------------------------------------------------------------
  // Specification of the locked sections
  // ---------------------------------------------------------------------------------------------

  function Prune(m: Entries, now: nat): Entries {
    map id | id in m && now < m[id].expires :: m[id]
  }

  function Append(journal: seq<Record>, r: Record, leaf: Leaf): seq<Record> {
    if leaf.Lost? then journal else journal + [r]
  }

  function EnqueueSpec(c: Config, s: Store, subject: ByteString, intent: ByteString, ticket: Ticket, now: nat,
                       leaf: Leaf)
    : (Store, Reply)
  {
    if |subject| > MAX_SUBJECT then (s, SubjectTooLong) else
    var id := c.idOf(subject, intent);
    var live := Prune(s.entries, now);
    if id in live && live[id].status == Pending then (Store(live, s.journal), AlreadyPending)
    else if |live| >= c.max then (Store(live, s.journal), QueueFull)
    else
      var expires := now + c.entryTTL;
      var j := Append(s.journal, Record(ENQUEUE, id, ticket, subject, NO_KID, 0, expires / SECOND), leaf);
      if leaf != Written then (Store(live, j), LeafFailed)
      else (Store(live[id := Entry(ticket, subject, expires, Pending, NO_KID)], j), Queued)
  }

  ghost predicate SignedBy(c: Config, keys: seq<Key>, msg: ByteString, sig: ByteString) {
    exists i :: 0 <= i < |keys| && c.verify(keys[i], msg, sig)
  }

  /** The first key of the list that verifies the signature. */
  function FindKey(c: Config, keys: seq<Key>, msg: ByteString, sig: ByteString): (k: Option<Key>)
    ensures k.Some? ==> k.value in keys && c.verify(k.value, msg, sig)
    ensures k.Some? <==> SignedBy(c, keys, msg, sig)
  {
    if keys == [] then None
    else if c.verify(keys[0], msg, sig) then Some(keys[0])
    else
      assert forall i :: 1 <= i < |keys| ==> keys[i] == keys[1..][i - 1];
      FindKey(c, keys[1..], msg, sig)
  }

  function VerdictByte(approve: bool): Byte { if approve then 1 else 0 }

  function DecideSpec(c: Config, s: Store, id: Id, approve: bool, expiry: nat, sig: ByteString, now: nat, leaf: Leaf)
    : (Store, Reply)
  {
    var live := Store(Prune(s.entries, now), s.journal);
    if id !in live.entries || live.entries[id].status != Pending then (live, UnknownEntry)
    else if expiry < now + MIN_DECISION_TTL || expiry > now + c.entryTTL then (live, BadExpiry)
    else
      var e := live.entries[id];
      var msg := DecisionMessage(c.cell, id, e.ticket, VerdictByte(approve), expiry / SECOND);
      match FindKey(c, if approve then c.arbiters else c.refusers, msg, sig)
      case None => (live, if FindKey(c, c.operators, msg, sig).Some? then RoleDenied else BadSignature)
      case Some(key) =>
        var r := Record(if approve then APPROVE else REFUSE, id, e.ticket, e.subject, c.kidOf(key),
                        VerdictByte(approve), expiry / SECOND);
        var j := Append(live.journal, r, leaf);
        if leaf != Written then (Store(live.entries, j), LeafFailed)
        else (Store(live.entries[id := e.(status := if approve then Approved else Refused,
                                          expires := expiry, kid := c.kidOf(key))], j),
              Decided)
  }

  function TakeSpec(c: Config, s: Store, subject: ByteString, intent: ByteString, now: nat, leaf: Leaf)
    : (Store, Reply)
  {
    var id := c.idOf(subject, intent);
    var live := Store(Prune(s.entries, now), s.journal);
    if id !in live.entries then (live, TakeNone)
    else if live.entries[id].status == Pending then (live, TakePending)
    else
      var e := live.entries[id];
      var approved := e.status == Approved;
      var r := Record(if approved then CONSUME else CONSUME_REFUSED, id, e.ticket, e.subject, e.kid, 0,
                      e.expires / SECOND);
      var j := Append(live.journal, r, leaf);
      if leaf != Written then (Store(live.entries, j), LeafFailed)
      else (Store(live.entries - {id}, j), if approved then TakeApproved else TakeRefused)
  }

  /** The effect of one journalled record on the queue being rebuilt. */
  function Apply(c: Config, m: Entries, r: Record, logged: bool): Entries {
    if r.act == ENQUEUE then
      if r.expiry == 0 || |m| >= c.max || r.id in m then m
      else m[r.id := Entry(r.ticket, r.subject, r.expiry * SECOND, Pending, NO_KID)]
    else if r.id !in m || m[r.id].ticket != r.ticket then m
    else if r.act == APPROVE && m[r.id].status == Pending && logged then
      m[r.id := m[r.id].(status := Approved, expires := r.expiry * SECOND, kid := r.kid)]
    else if r.act == REFUSE && m[r.id].status == Pending then
      m[r.id := m[r.id].(status := Refused, expires := r.expiry * SECOND, kid := r.kid)]
    else if r.act == CONSUME || r.act == CONSUME_REFUSED then m - {r.id}
    else m
  }

  /** The records applied to `m` in turn; `inLog` tells which of them the signed log confirms, by position. */
  function Replay(c: Config, m: Entries, recs: seq<Record>, inLog: nat -> bool): Entries {
    if recs == [] then m else
    var n := |recs| - 1;
    Apply(c, Replay(c, m, recs[..n], inLog), recs[n], inLog(n))
  }

  lemma ReplayStep(c: Config, m: Entries, recs: seq<Record>, inLog: nat -> bool, i: nat)
    requires i < |recs|
    ensures Replay(c, m, recs[..i + 1], inLog) == Apply(c, Replay(c, m, recs[..i], inLog), recs[i], inLog(i))
  {
    assert recs[..i + 1][..i] == recs[..i];
  }

  function RestoreSpec(c: Config, m: Entries, journal: seq<Record>, inLog: nat -> bool, now: nat): Entries {
    Prune(Replay(c, m, journal, inLog), now)
  }

  // ---------------------------------------------------------------------------------------------
  // The imperative queue
  // ---------------------------------------------------------------------------------------------

  class Queue {
    const cfg: Config
    var entries: Entries
    var journal: seq<Record>

    ghost function Abs(): Store reads this { Store(entries, journal) }

    /** A queue that has just started: empty, with whatever the journal already holds. */
    constructor (c: Config, past: seq<Record>)
      ensures cfg == c && Abs() == Store(map[], past)
    {
      cfg := c;
      entries := map[];
      journal := past;
    }

    method PruneLocked(now: nat)
      modifies this`entries
      ensures entries == Prune(old(entries), now)
    {
      var ids := entries.Keys;
      while ids != {}
        invariant ids <= entries.Keys <= old(entries).Keys
        invariant forall id :: id in entries ==> entries[id] == old(entries)[id]
        invariant forall id :: id in old(entries) && id !in ids ==> (id in entries <==> now < old(entries)[id].expires)
        decreases |ids|
      {
        var id :| id in ids;
        ids := ids - {id};
        if now >= entries[id].expires { entries := entries - {id}; }
      }
    }

    method KidOf(keys: seq<Key>, msg: ByteString, sig: ByteString) returns (k: Option<Key>)
      ensures k == FindKey(cfg, keys, msg, sig)
    {
      for i := 0 to |keys|
        invariant FindKey(cfg, keys, msg, sig) == FindKey(cfg, keys[i..], msg, sig)
      {
        if cfg.verify(keys[i], msg, sig) { return Some(keys[i]); }
      }
      k := None;
    }

    /** An answer of true means that the record will be replayed; false leaves the caller in doubt about it. */
    method LeafLocked(r: Record, leaf: Leaf) returns (ok: bool)
      modifies this`journal
      ensures journal == Append(old(journal), r, leaf)
      ensures ok <==> leaf == Written
      ensures ok ==> |journal| == |old(journal)| + 1 && journal[|journal| - 1] == r
      ensures old(journal) <= journal && forall k :: k in journal ==> k in old(journal) || k == r
    {
      if leaf != Lost { journal := journal + [r]; }
      ok := leaf == Written;
    }

    method Enqueue(subject: ByteString, intent: ByteString, ticket: Ticket, now: nat, leaf: Leaf) returns (r: Reply)
      modifies this
      ensures (Abs(), r) == EnqueueSpec(cfg, old(Abs()), subject, intent, ticket, now, leaf)
    {
      if |subject| > MAX_SUBJECT { return SubjectTooLong; }
      var id := cfg.idOf(subject, intent);
      PruneLocked(now);
      if id in entries && entries[id].status == Pending { return AlreadyPending; }
      if |entries| >= cfg.max { return QueueFull; }
      var expires := now + cfg.entryTTL;
      var ok := LeafLocked(Record(ENQUEUE, id, ticket, subject, NO_KID, 0, expires / SECOND), leaf);
      if !ok { return LeafFailed; }
      entries := entries[id := Entry(ticket, subject, expires, Pending, NO_KID)];
      r := Queued;
    }

    method Decide(id: Id, approve: bool, expiry: nat, sig: ByteString, now: nat, leaf: Leaf) returns (r: Reply)
      modifies this
      ensures (Abs(), r) == DecideSpec(cfg, old(Abs()), id, approve, expiry, sig, now, leaf)
    {
      PruneLocked(now);
      if id !in entries || entries[id].status != Pending { return UnknownEntry; }
      if expiry < now + MIN_DECISION_TTL || expiry > now + cfg.entryTTL { return BadExpiry; }
      var e := entries[id];
      var msg := DecisionMessage(cfg.cell, id, e.ticket, VerdictByte(approve), expiry / SECOND);
      var key := KidOf(if approve then cfg.arbiters else cfg.refusers, msg, sig);
      if key.None? {
        var other := KidOf(cfg.operators, msg, sig);
        return if other.Some? then RoleDenied else BadSignature;
      }
      var kid := cfg.kidOf(key.value);
      var ok := LeafLocked(Record(if approve then APPROVE else REFUSE, id, e.ticket, e.subject, kid,
                                  VerdictByte(approve), expiry / SECOND), leaf);
      if !ok { return LeafFailed; }
      entries := entries[id := e.(status := if approve then Approved else Refused, expires := expiry, kid := kid)];
      r := Decided;
    }

    method Take(subject: ByteString, intent: ByteString, now: nat, leaf: Leaf) returns (r: Reply)
      modifies this
      ensures (Abs(), r) == TakeSpec(cfg, old(Abs()), subject, intent, now, leaf)
    {
      var id := cfg.idOf(subject, intent);
      PruneLocked(now);
      if id !in entries { return TakeNone; }
      var e := entries[id];
      if e.status == Pending { return TakePending; }
      var approved := e.status == Approved;
      var ok := LeafLocked(Record(if approved then CONSUME else CONSUME_REFUSED, id, e.ticket, e.subject, e.kid, 0,
                                  e.expires / SECOND), leaf);
      if !ok { return LeafFailed; }
      entries := entries - {id};
      r := if approved then TakeApproved else TakeRefused;
    }

    /** The body of the replay loop. */
    method ApplyRecord(r: Record, logged: bool)
      modifies this`entries
      ensures entries == Apply(cfg, old(entries), r, logged)
    {
      if r.act == ENQUEUE {
        if r.expiry != 0 && |entries| < cfg.max && r.id !in entries {
          entries := entries[r.id := Entry(r.ticket, r.subject, r.expiry * SECOND, Pending, NO_KID)];
        }
      } else if r.act == APPROVE || r.act == REFUSE {
        if r.id in entries && entries[r.id].status == Pending && entries[r.id].ticket == r.ticket
           && (r.act == REFUSE || logged) {
          entries := entries[r.id := entries[r.id].(status := if r.act == APPROVE then Approved else Refused,
                                                    expires := r.expiry * SECOND, kid := r.kid)];
        }
      } else if r.act == CONSUME || r.act == CONSUME_REFUSED {
        if r.id in entries && entries[r.id].ticket == r.ticket { entries := entries - {r.id}; }
      }
    }

    /** Replays the journal on top of what the queue holds: nothing, in a process that has just started. */
    method Restore(inLog: nat -> bool, now: nat)
      modifies this`entries
      ensures entries == RestoreSpec(cfg, old(entries), journal, inLog, now)
    {
      for i := 0 to |journal|
        invariant entries == Replay(cfg, old(entries), journal[..i], inLog)
      {
        ReplayStep(cfg, old(entries), journal, inLog, i);
        ApplyRecord(journal[i], inLog(i));
      }
      assert journal[..|journal|] == journal;
      PruneLocked(now);
    }
  }
}
