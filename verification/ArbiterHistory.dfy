/**
  Whole runs of the arbitration queue, with crashes: each ticket is approved at most once, and every
  approval that is handed out was signed for that cell, id and ticket and is taken before it expires.
*/
module ArbiterHistory {
  import opened Bytes
  import opened ArbiterCodec
  import opened Arbiter

  datatype Event =
    | Enqueue(subject: ByteString, intent: ByteString, ticket: Ticket, now: nat, leaf: Leaf)
    | Decide(id: Id, approve: bool, expiry: nat, sig: ByteString, now: nat, leaf: Leaf)
    | Take(subject: ByteString, intent: ByteString, now: nat, leaf: Leaf)
    | Restore(crashed: bool, inLog: nat -> bool, now: nat)

  /** What an observer of the run writes down. */
  datatype Note =
    | Verified(id: Id, ticket: Ticket, expiry: nat, sig: ByteString)
    | HandedOut(id: Id, ticket: Ticket, now: nat)

  datatype World = World(store: Store, trail: seq<Note>)

  const START := World(Store(map[], []), [])

  /** Did an arbiter's signature on an approval get past `kidOf`?  (The leaf may still fail.) */
  ghost predicate ApprovalVerified(c: Config, s: Store, e: Event) {
    && e.Decide? && e.approve
    && DecideSpec(c, s, e.id, e.approve, e.expiry, e.sig, e.now, e.leaf).1 in {Decided, LeafFailed}
  }

  ghost function Step(c: Config, w: World, e: Event): World {
    match e
    case Enqueue(subject, intent, ticket, now, leaf) =>
      w.(store := EnqueueSpec(c, w.store, subject, intent, ticket, now, leaf).0)
    case Decide(id, approve, expiry, sig, now, leaf) =>
      World(DecideSpec(c, w.store, id, approve, expiry, sig, now, leaf).0,
            if ApprovalVerified(c, w.store, e) then w.trail + [Verified(id, w.store.entries[id].ticket, expiry, sig)]
            else w.trail)
    case Take(subject, intent, now, leaf) =>
      var (store, reply) := TakeSpec(c, w.store, subject, intent, now, leaf);
      var id := c.idOf(subject, intent);
      World(store,
            if reply == TakeApproved then w.trail + [HandedOut(id, w.store.entries[id].ticket, now)] else w.trail)
    case Restore(crashed, inLog, now) =>
      var m := if crashed then map[] else w.store.entries;
      w.(store := Store(RestoreSpec(c, m, w.store.journal, inLog, now), w.store.journal))
  }

  ghost function After(c: Config, evs: seq<Event>): World {
    if evs == [] then START else Step(c, After(c, evs[..|evs| - 1]), evs[|evs| - 1])
  }

  /** The 16 random bytes of a ticket never repeat. */
  ghost predicate FreshTicket(w: World, e: Event) {
    e.Enqueue? ==> forall r :: r in w.store.journal ==> r.ticket != e.ticket
  }

  ghost predicate FreshTickets(c: Config, evs: seq<Event>) {
    forall k :: 0 <= k < |evs| ==> FreshTicket(After(c, evs[..k]), evs[k])
  }

  // ---------------------------------------------------------------------------------------------
  // The invariant
  // ---------------------------------------------------------------------------------------------

  predicate Consumes(r: Record) { r.act == CONSUME || r.act == CONSUME_REFUSED }

  /** Tickets are enqueued once, and consumed only after they were enqueued, under the same id. */
  ghost predicate JournalOk(j: seq<Record>) {
    && (forall i, k :: 0 <= i < k < |j| && j[i].act == ENQUEUE && j[k].act == ENQUEUE ==> j[i].ticket != j[k].ticket)
    && (forall i, k ::
          0 <= i < |j| && 0 <= k < |j| && j[i].act == ENQUEUE && Consumes(j[k]) && j[i].ticket == j[k].ticket ==>
          i < k && j[i].id == j[k].id)
  }

  ghost predicate Rooted(j: seq<Record>, id: Id, ticket: Ticket) {
    exists i :: 0 <= i < |j| && j[i].act == ENQUEUE && j[i].id == id && j[i].ticket == ticket
  }

  /** An approval of (id, ticket) was verified, good until `until` or longer. */
  ghost predicate Justified(trail: seq<Note>, id: Id, ticket: Ticket, until: nat) {
    exists a :: 0 <= a < |trail| && trail[a].Verified? && trail[a].id == id && trail[a].ticket == ticket &&
      until <= trail[a].expiry
  }

  ghost predicate EntryOk(w: World, id: Id, e: Entry) {
    && Rooted(w.store.journal, id, e.ticket)
    && (e.status == Approved ==> Justified(w.trail, id, e.ticket, e.expires))
    && (forall a :: 0 <= a < |w.trail| && w.trail[a].HandedOut? ==> w.trail[a].ticket != e.ticket)
  }

  ghost predicate RecordsOk(w: World) {
    && (forall k :: 0 <= k < |w.store.journal| && w.store.journal[k].act == APPROVE ==>
          Justified(w.trail, w.store.journal[k].id, w.store.journal[k].ticket, w.store.journal[k].expiry * SECOND))
    && (forall a :: 0 <= a < |w.trail| && w.trail[a].HandedOut? ==>
          exists k :: 0 <= k < |w.store.journal| && Consumes(w.store.journal[k]) &&
            w.store.journal[k].ticket == w.trail[a].ticket)
  }

  ghost predicate ArbiterSigned(c: Config, n: Note)
    requires n.Verified?
  {
    SignedBy(c, c.arbiters, DecisionMessage(c.cell, n.id, n.ticket, VerdictByte(true), n.expiry / SECOND), n.sig)
  }

  /** What is promised about the notes themselves. */
  ghost predicate TrailOk(c: Config, trail: seq<Note>) {
    && (forall a :: 0 <= a < |trail| && trail[a].Verified? ==> ArbiterSigned(c, trail[a]))
    && (forall a, b :: 0 <= a < b < |trail| && trail[a].HandedOut? && trail[b].HandedOut? ==>
        trail[a].ticket != trail[b].ticket)
    && (forall a :: 0 <= a < |trail| && trail[a].HandedOut? ==>
          Justified(trail[..a], trail[a].id, trail[a].ticket, trail[a].now + 1))
  }

  ghost predicate Inv(c: Config, w: World) {
    && JournalOk(w.store.journal)
    && RecordsOk(w)
    && (forall id :: id in w.store.entries ==> EntryOk(w, id, w.store.entries[id]))
    && TrailOk(c, w.trail)
  }

  // ---------------------------------------------------------------------------------------------
  // Each kind of step keeps it
  // ---------------------------------------------------------------------------------------------

  /** Forgetting entries is always safe. */
  lemma Shrink(c: Config, w: World, m: Entries)
    requires Inv(c, w) && forall id :: id in m ==> id in w.store.entries && m[id] == w.store.entries[id]
    ensures Inv(c, w.(store := Store(m, w.store.journal)))
  {
    var w' := w.(store := Store(m, w.store.journal));
    forall id | id in m ensures EntryOk(w', id, m[id]) { assert EntryOk(w, id, m[id]); }
  }

  /** When a record may be added to the journal. */
  ghost predicate MayAppend(w: World, r: Record) {
    && (r.act == ENQUEUE ==> forall k :: 0 <= k < |w.store.journal| ==> w.store.journal[k].ticket != r.ticket)
    && (Consumes(r) ==> Rooted(w.store.journal, r.id, r.ticket))
    && (r.act == APPROVE ==> Justified(w.trail, r.id, r.ticket, r.expiry * SECOND))
  }

  lemma JournalGrows(j: seq<Record>, r: Record)
    requires JournalOk(j)
    requires r.act == ENQUEUE ==> forall k :: 0 <= k < |j| ==> j[k].ticket != r.ticket
    requires Consumes(r) ==> Rooted(j, r.id, r.ticket)
    ensures JournalOk(j + [r])
  {
  }

  lemma RootStays(j: seq<Record>, r: Record, id: Id, ticket: Ticket)
    requires Rooted(j, id, ticket)
    ensures Rooted(j + [r], id, ticket)
  {
    var i :| 0 <= i < |j| && j[i].act == ENQUEUE && j[i].id == id && j[i].ticket == ticket;
    assert (j + [r])[i] == j[i];
  }

  lemma RecordsGrow(w: World, r: Record)
    requires RecordsOk(w) && MayAppend(w, r)
    ensures RecordsOk(w.(store := Store(w.store.entries, w.store.journal + [r])))
  {
    var j, j' := w.store.journal, w.store.journal + [r];
    forall a | 0 <= a < |w.trail| && w.trail[a].HandedOut?
      ensures exists k :: 0 <= k < |j'| && Consumes(j'[k]) && j'[k].ticket == w.trail[a].ticket
    {
      var k :| 0 <= k < |j| && Consumes(j[k]) && j[k].ticket == w.trail[a].ticket;
      assert j'[k] == j[k];
    }
  }

  /** Journalling a record, without any other effect. */
  lemma Journalled(c: Config, w: World, r: Record)
    requires Inv(c, w) && MayAppend(w, r)
    ensures Inv(c, w.(store := Store(w.store.entries, w.store.journal + [r])))
  {
    var w' := w.(store := Store(w.store.entries, w.store.journal + [r]));
    JournalGrows(w.store.journal, r);
    RecordsGrow(w, r);
    forall id | id in w'.store.entries ensures EntryOk(w', id, w'.store.entries[id]) {
      assert EntryOk(w, id, w.store.entries[id]);
      RootStays(w.store.journal, r, id, w.store.entries[id].ticket);
    }
  }

  /** Setting one entry. */
  lemma EntrySet(c: Config, w: World, id: Id, e: Entry)
    requires Inv(c, w) && EntryOk(w, id, e)
    ensures Inv(c, w.(store := Store(w.store.entries[id := e], w.store.journal)))
  {
    var w' := w.(store := Store(w.store.entries[id := e], w.store.journal));
    forall i | i in w'.store.entries ensures EntryOk(w', i, w'.store.entries[i]) {
      assert EntryOk(w, i, w'.store.entries[i]);
    }
  }

  lemma JustifiedStays(trail: seq<Note>, n: Note, id: Id, ticket: Ticket, until: nat)
    requires Justified(trail, id, ticket, until)
    ensures Justified(trail + [n], id, ticket, until)
  {
    var a :| 0 <= a < |trail| && trail[a].Verified? && trail[a].id == id && trail[a].ticket == ticket &&
      until <= trail[a].expiry;
    assert (trail + [n])[a] == trail[a];
  }

  /** Writing down a verified approval. */
  lemma VerifiedNoted(c: Config, w: World, n: Note)
    requires Inv(c, w) && n.Verified? && ArbiterSigned(c, n)
    ensures Inv(c, w.(trail := w.trail + [n]))
  {
    var w' := w.(trail := w.trail + [n]);
    RecordsNoted(w, n);
    forall id | id in w.store.entries ensures EntryOk(w', id, w.store.entries[id]) {
      var e := w.store.entries[id];
      assert EntryOk(w, id, e);
      if e.status == Approved { JustifiedStays(w.trail, n, id, e.ticket, e.expires); }
    }
    TrailNoted(c, w.trail, n);
  }

  /** The journal stays accounted for when a note is written: a hand-out needs its consumption journalled. */
  lemma RecordsNoted(w: World, n: Note)
    requires RecordsOk(w)
    requires n.HandedOut? ==> w.store.journal != [] && Consumes(w.store.journal[|w.store.journal| - 1])
                              && w.store.journal[|w.store.journal| - 1].ticket == n.ticket
    ensures RecordsOk(w.(trail := w.trail + [n]))
  {
    var trail, j := w.trail + [n], w.store.journal;
    forall k | 0 <= k < |j| && j[k].act == APPROVE
      ensures Justified(trail, j[k].id, j[k].ticket, j[k].expiry * SECOND)
    {
      JustifiedStays(w.trail, n, j[k].id, j[k].ticket, j[k].expiry * SECOND);
    }
    forall a | 0 <= a < |trail| && trail[a].HandedOut?
      ensures exists k :: 0 <= k < |j| && Consumes(j[k]) && j[k].ticket == trail[a].ticket
    {
      if a < |w.trail| { assert trail[a] == w.trail[a]; }
    }
  }

  /** When a note may be added to the trail. */
  ghost predicate MayNote(c: Config, trail: seq<Note>, n: Note) {
    match n
    case Verified(_, _, _, _) => ArbiterSigned(c, n)
    case HandedOut(id, ticket, now) =>
      && Justified(trail, id, ticket, now + 1)
      && (forall a :: 0 <= a < |trail| && trail[a].HandedOut? ==> trail[a].ticket != ticket)
  }

  lemma TrailNoted(c: Config, trail: seq<Note>, n: Note)
    requires TrailOk(c, trail) && MayNote(c, trail, n)
    ensures TrailOk(c, trail + [n])
  {
    var trail' := trail + [n];
    forall a | 0 <= a < |trail'| && trail'[a].HandedOut?
      ensures Justified(trail'[..a], trail'[a].id, trail'[a].ticket, trail'[a].now + 1)
    {
      assert trail'[..a] == if a == |trail| then trail else trail[..a];
    }
  }

  /** The record and the entry of a request that is let in. */
  function EnqueueRecord(c: Config, e: Event): Record
    requires e.Enqueue?
  {
    Record(ENQUEUE, c.idOf(e.subject, e.intent), e.ticket, e.subject, NO_KID, 0, (e.now + c.entryTTL) / SECOND)
  }

  function EnqueueEntry(c: Config, e: Event): Entry
    requires e.Enqueue?
  {
    Entry(e.ticket, e.subject, e.now + c.entryTTL, Pending, NO_KID)
  }

  lemma EnqueueResults(c: Config, w: World, e: Event)
    requires e.Enqueue?
    ensures var live, j, r := Prune(w.store.entries, e.now), w.store.journal, EnqueueRecord(c, e);
            || Step(c, w, e) == w
            || Step(c, w, e) == w.(store := Store(live, j))
            || Step(c, w, e) == w.(store := Store(live, j + [r]))
            || Step(c, w, e) == w.(store := Store(live[r.id := EnqueueEntry(c, e)], j + [r]))
  {
  }

  lemma EnqueueKeeps(c: Config, w: World, e: Event)
    requires Inv(c, w) && e.Enqueue? && FreshTicket(w, e)
    ensures Inv(c, Step(c, w, e))
  {
    var live := Prune(w.store.entries, e.now);
    Shrink(c, w, live);
    Admitted(c, w.(store := Store(live, w.store.journal)), EnqueueRecord(c, e), EnqueueEntry(c, e));
    EnqueueResults(c, w, e);
  }

  /** A fresh ticket is journalled, and the entry that bears it may follow. */
  lemma Admitted(c: Config, w: World, r: Record, e: Entry)
    requires Inv(c, w) && r.act == ENQUEUE && e.status == Pending && e.ticket == r.ticket
    requires forall k :: k in w.store.journal ==> k.ticket != r.ticket
    ensures Inv(c, w.(store := Store(w.store.entries, w.store.journal + [r])))
    ensures Inv(c, w.(store := Store(w.store.entries[r.id := e], w.store.journal + [r])))
  {
    Journalled(c, w, r);
    var w1 := w.(store := Store(w.store.entries, w.store.journal + [r]));
    assert w1.store.journal[|w.store.journal|] == r;
    assert RecordsOk(w);
    EntrySet(c, w1, r.id, e);
  }

  /** The record of a decision, and the entry it leaves. */
  function DecideRecord(e: Event, x: Entry, kid: ByteString): Record
    requires e.Decide?
  {
    Record(if e.approve then APPROVE else REFUSE, e.id, x.ticket, x.subject, kid, VerdictByte(e.approve),
           e.expiry / SECOND)
  }

  function DecidedEntry(e: Event, x: Entry, kid: ByteString): Entry
    requires e.Decide?
  {
    x.(status := if e.approve then Approved else Refused, expires := e.expiry, kid := kid)
  }

  /** The trail after a decision whose signature was accepted. */
  function DecideTrail(w: World, e: Event, x: Entry): seq<Note>
    requires e.Decide?
  {
    if e.approve then w.trail + [Verified(e.id, x.ticket, e.expiry, e.sig)] else w.trail
  }

  lemma DecideResults(c: Config, w: World, e: Event) returns (kid: ByteString)
    requires e.Decide?
    ensures var live, j := Prune(w.store.entries, e.now), w.store.journal;
            || Step(c, w, e) == w.(store := Store(live, j))
            || (&& e.id in live
                && var x := live[e.id];
                   var trail, r := DecideTrail(w, e, x), DecideRecord(e, x, kid);
                   && (e.approve ==> ArbiterSigned(c, Verified(e.id, x.ticket, e.expiry, e.sig)))
                   && (|| Step(c, w, e) == World(Store(live, j), trail)
                       || Step(c, w, e) == World(Store(live, j + [r]), trail)
                       || Step(c, w, e) == World(Store(live[e.id := DecidedEntry(e, x, kid)], j + [r]), trail)))
  {
    kid := NO_KID;
    if DecideSpec(c, w.store, e.id, e.approve, e.expiry, e.sig, e.now, e.leaf).1 in {Decided, LeafFailed} {
      var x := w.store.entries[e.id];
      var msg := DecisionMessage(c.cell, e.id, x.ticket, VerdictByte(e.approve), e.expiry / SECOND);
      kid := c.kidOf(FindKey(c, if e.approve then c.arbiters else c.refusers, msg, e.sig).value);
    }
  }

  /** An accepted signature is noted, its record journalled, and the entry decided: each step is safe. */
  lemma Settled(c: Config, w: World, e: Event, kid: ByteString)
    requires Inv(c, w) && e.Decide? && e.id in w.store.entries
    requires e.approve ==> ArbiterSigned(c, Verified(e.id, w.store.entries[e.id].ticket, e.expiry, e.sig))
    ensures var x := w.store.entries[e.id];
            var trail, r := DecideTrail(w, e, x), DecideRecord(e, x, kid);
            && Inv(c, w.(trail := trail))
            && Inv(c, World(Store(w.store.entries, w.store.journal + [r]), trail))
            && Inv(c, World(Store(w.store.entries[e.id := DecidedEntry(e, x, kid)], w.store.journal + [r]), trail))
  {
    var x := w.store.entries[e.id];
    var w1, r := w.(trail := DecideTrail(w, e, x)), DecideRecord(e, x, kid);
    if e.approve {
      VerifiedNoted(c, w, Verified(e.id, x.ticket, e.expiry, e.sig));
      assert w1.trail[|w.trail|] == Verified(e.id, x.ticket, e.expiry, e.sig);
    }
    assert EntryOk(w1, e.id, x);
    Journalled(c, w1, r);
    RootStays(w1.store.journal, r, e.id, x.ticket);
    EntrySet(c, w1.(store := Store(w1.store.entries, w1.store.journal + [r])), e.id, DecidedEntry(e, x, kid));
  }

  lemma DecideKeeps(c: Config, w: World, e: Event)
    requires Inv(c, w) && e.Decide?
    ensures Inv(c, Step(c, w, e))
  {
    var live := w.(store := Store(Prune(w.store.entries, e.now), w.store.journal));
    Shrink(c, w, live.store.entries);
    var kid := DecideResults(c, w, e);
    if Step(c, w, e) != live { Settled(c, live, e, kid); }
  }

  /** The record of an answered entry. */
  function TakeRecord(id: Id, x: Entry): Record {
    Record(if x.status == Approved then CONSUME else CONSUME_REFUSED, id, x.ticket, x.subject, x.kid, 0,
           x.expires / SECOND)
  }

  lemma TakeResults(c: Config, w: World, e: Event)
    requires e.Take?
    ensures var live, id, j := Prune(w.store.entries, e.now), c.idOf(e.subject, e.intent), w.store.journal;
            || Step(c, w, e) == w.(store := Store(live, j))
            || (&& id in live && e.now < live[id].expires
                && var r := TakeRecord(id, live[id]);
                   || Step(c, w, e) == w.(store := Store(live, j + [r]))
                   || Step(c, w, e) == w.(store := Store(live - {id}, j + [r]))
                   || (&& live[id].status == Approved
                       && Step(c, w, e) == World(Store(live - {id}, j + [r]),
                                                 w.trail + [HandedOut(id, r.ticket, e.now)])))
  {
  }

  lemma TakeKeeps(c: Config, w: World, e: Event)
    requires Inv(c, w) && e.Take?
    ensures Inv(c, Step(c, w, e))
  {
    var live, id := Prune(w.store.entries, e.now), c.idOf(e.subject, e.intent);
    Shrink(c, w, live);
    TakeResults(c, w, e);
    if id in live {
      Taken(c, w.(store := Store(live, w.store.journal)), TakeRecord(id, live[id]), e.now);
    }
  }

  /** A decided entry's consumption is journalled; then the entry goes, with a note if it was an approval. */
  lemma Taken(c: Config, w: World, r: Record, now: nat)
    requires Inv(c, w) && Consumes(r) && r.id in w.store.entries && r.ticket == w.store.entries[r.id].ticket
    ensures Inv(c, w.(store := Store(w.store.entries, w.store.journal + [r])))
    ensures Inv(c, w.(store := Store(w.store.entries - {r.id}, w.store.journal + [r])))
    ensures w.store.entries[r.id].status == Approved && now < w.store.entries[r.id].expires ==>
              Inv(c, World(Store(w.store.entries - {r.id}, w.store.journal + [r]),
                           w.trail + [HandedOut(r.id, r.ticket, now)]))
  {
    assert EntryOk(w, r.id, w.store.entries[r.id]);
    Journalled(c, w, r);
    var w1 := w.(store := Store(w.store.entries, w.store.journal + [r]));
    Shrink(c, w1, w.store.entries - {r.id});
    if w.store.entries[r.id].status == Approved && now < w.store.entries[r.id].expires {
      HandOut(c, w1, r.id, now);
    }
  }

  /** Handing an approval out removes its entry and writes the note; the ticket's consumption is journalled. */
  lemma HandOut(c: Config, w: World, id: Id, now: nat)
    requires Inv(c, w) && id in w.store.entries && w.store.entries[id].status == Approved &&
             now < w.store.entries[id].expires
    requires w.store.journal != []
    requires var r := w.store.journal[|w.store.journal| - 1]; Consumes(r) && r.ticket == w.store.entries[id].ticket
    ensures Inv(c, World(Store(w.store.entries - {id}, w.store.journal),
                         w.trail + [HandedOut(id, w.store.entries[id].ticket, now)]))
  {
    var x := w.store.entries[id];
    var n := HandedOut(id, x.ticket, now);
    var w' := World(Store(w.store.entries - {id}, w.store.journal), w.trail + [n]);
    assert EntryOk(w, id, x);
    RecordsNoted(w, n);
    forall i | i in w'.store.entries ensures EntryOk(w', i, w'.store.entries[i]) {
      var e := w'.store.entries[i];
      assert EntryOk(w, i, e);
      SameTicketSameId(w.store.journal, i, id, x.ticket, e.ticket);
      if e.status == Approved { JustifiedStays(w.trail, n, i, e.ticket, e.expires); }
    }
    TrailNoted(c, w.trail, n);
  }

  lemma SameTicketSameId(j: seq<Record>, id1: Id, id2: Id, t2: Ticket, t1: Ticket)
    requires JournalOk(j) && Rooted(j, id1, t1) && Rooted(j, id2, t2)
    ensures t1 == t2 ==> id1 == id2
  {
  }

  // ---------------------------------------------------------------------------------------------
  // Restart
  // ---------------------------------------------------------------------------------------------

  /** The approval of the entry is in the journal, and the log confirms it. */
  ghost predicate Confirmed(recs: seq<Record>, inLog: nat -> bool, id: Id, e: Entry) {
    exists k :: 0 <= k < |recs| && recs[k].act == APPROVE && inLog(k)
      && recs[k].id == id && recs[k].ticket == e.ticket && e.expires == recs[k].expiry * SECOND
  }

  /** What the replay may trust about an entry that it has made itself. */
  ghost predicate ReplayedOk(recs: seq<Record>, inLog: nat -> bool, id: Id, e: Entry) {
    && Rooted(recs, id, e.ticket)
    && (forall k :: 0 <= k < |recs| && Consumes(recs[k]) ==> recs[k].ticket != e.ticket)
    && (e.status == Approved ==> Confirmed(recs, inLog, id, e))
  }

  /** ... and about one that was there before: it may at most have been decided by a record. */
  ghost predicate KeptOk(m: Entries, recs: seq<Record>, inLog: nat -> bool, id: Id, e: Entry) {
    && id in m && m[id].ticket == e.ticket
    && (e.status == Approved ==> e == m[id] || Confirmed(recs, inLog, id, e))
  }

  ghost predicate RestoredOk(m: Entries, recs: seq<Record>, inLog: nat -> bool, id: Id, e: Entry) {
    KeptOk(m, recs, inLog, id, e) || ReplayedOk(recs, inLog, id, e)
  }

  lemma FrontJournalOk(recs: seq<Record>)
    requires recs != [] && JournalOk(recs)
    ensures JournalOk(recs[..|recs| - 1])
  {
  }

  /** A rebuilt entry was enqueued, never consumed, and is approved only by a record the log confirms. */
  lemma {:induction false} ReplayOk(c: Config, m: Entries, recs: seq<Record>, inLog: nat -> bool, id: Id)
    requires JournalOk(recs) && id in Replay(c, m, recs, inLog)
    ensures RestoredOk(m, recs, inLog, id, Replay(c, m, recs, inLog)[id])
    decreases |recs|
  {
    if recs != [] {
      var n := |recs| - 1;
      var m1 := Replay(c, m, recs[..n], inLog);
      FrontJournalOk(recs);
      if id in m1 { ReplayOk(c, m, recs[..n], inLog, id); }
      ReplayEntry(c, m, m1, recs, inLog, id);
    }
  }

  lemma ConfirmedStays(recs: seq<Record>, r: Record, inLog: nat -> bool, id: Id, e: Entry)
    requires Confirmed(recs, inLog, id, e)
    ensures Confirmed(recs + [r], inLog, id, e)
  {
    var k :| 0 <= k < |recs| && recs[k].act == APPROVE && inLog(k)
      && recs[k].id == id && recs[k].ticket == e.ticket && e.expires == recs[k].expiry * SECOND;
    assert (recs + [r])[k] == recs[k];
  }

  lemma ReplayEntry(c: Config, m: Entries, m1: Entries, recs: seq<Record>, inLog: nat -> bool, id: Id)
    requires recs != [] && JournalOk(recs)
    requires id in m1 ==> RestoredOk(m, recs[..|recs| - 1], inLog, id, m1[id])
    requires id in Apply(c, m1, recs[|recs| - 1], inLog(|recs| - 1))
    ensures RestoredOk(m, recs, inLog, id, Apply(c, m1, recs[|recs| - 1], inLog(|recs| - 1))[id])
  {
    var n := |recs| - 1;
    var before, r := recs[..n], recs[n];
    var e := Apply(c, m1, r, inLog(n))[id];
    assert recs == before + [r];
    if id in m1 {
      if e.status == Approved && e != m1[id] {
        assert recs[n] == r && Confirmed(recs, inLog, id, e);
      } else if e.status == Approved && Confirmed(before, inLog, id, e) {
        ConfirmedStays(before, r, inLog, id, e);
      }
      if ReplayedOk(before, inLog, id, m1[id]) { RootStays(before, r, id, m1[id].ticket); }
    } else {
      assert recs[n].act == ENQUEUE && recs[n].id == id;
    }
  }

  lemma RestoreKeeps(c: Config, w: World, e: Event)
    requires Inv(c, w) && e.Restore?
    ensures Inv(c, Step(c, w, e))
  {
    var w' := Step(c, w, e);
    var m := if e.crashed then map[] else w.store.entries;
    forall id | id in w'.store.entries ensures EntryOk(w', id, w'.store.entries[id]) {
      ReplayOk(c, m, w.store.journal, e.inLog, id);
      if id in m { assert EntryOk(w, id, m[id]); }
      RestoredEntryOk(w, m, e.inLog, id, w'.store.entries[id]);
    }
  }

  lemma RestoredEntryOk(w: World, m: Entries, inLog: nat -> bool, id: Id, e: Entry)
    requires RecordsOk(w) && RestoredOk(m, w.store.journal, inLog, id, e) && (id in m ==> EntryOk(w, id, m[id]))
    ensures EntryOk(w, id, e)
  {
    if e.status == Approved && Confirmed(w.store.journal, inLog, id, e) {
      assert Justified(w.trail, id, e.ticket, e.expires);
    }
  }

  // ---------------------------------------------------------------------------------------------
  // Runs
  // ---------------------------------------------------------------------------------------------

  lemma {:induction false} InvHolds(c: Config, evs: seq<Event>)
    requires FreshTickets(c, evs)
    ensures Inv(c, After(c, evs))
  {
    if evs != [] {
      var front, e := evs[..|evs| - 1], evs[|evs| - 1];
      assert forall k :: 0 <= k < |front| ==> front[..k] == evs[..k] && front[k] == evs[k];
      InvHolds(c, front);
      var w := After(c, front);
      match e {
        case Enqueue(_, _, _, _, _) => EnqueueKeeps(c, w, e);
        case Decide(_, _, _, _, _, _) => DecideKeeps(c, w, e);
        case Take(_, _, _, _) => TakeKeeps(c, w, e);
        case Restore(_, _, _) => RestoreKeeps(c, w, e);
      }
    }
  }

  /** One ticket, at most one approval handed out, whatever crashes and restores happen in between. */
  lemma OneApprovalPerTicket(c: Config, evs: seq<Event>, a: nat, b: nat)
    requires FreshTickets(c, evs)
    requires var trail := After(c, evs).trail; a < b < |trail| && trail[a].HandedOut? && trail[b].HandedOut?
    ensures var trail := After(c, evs).trail; trail[a].ticket != trail[b].ticket
  {
    InvHolds(c, evs);
  }

  /** Every approval handed out follows an arbiter's signature on that cell, id and ticket, still in time. */
  lemma ApprovalsAreSigned(c: Config, evs: seq<Event>, b: nat)
    requires FreshTickets(c, evs)
    requires var trail := After(c, evs).trail; b < |trail| && trail[b].HandedOut?
    ensures var trail := After(c, evs).trail;
            exists a :: 0 <= a < b && trail[a].Verified? && trail[a].id == trail[b].id &&
              trail[a].ticket == trail[b].ticket
              && trail[b].now < trail[a].expiry && ArbiterSigned(c, trail[a])
  {
    InvHolds(c, evs);
    var trail := After(c, evs).trail;
    var a :| 0 <= a < |trail[..b]| && trail[..b][a].Verified? && trail[..b][a].id == trail[b].id
      && trail[..b][a].ticket == trail[b].ticket && trail[b].now + 1 <= trail[..b][a].expiry;
    assert trail[..b][a] == trail[a];
  }
}
