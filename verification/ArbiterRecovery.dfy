/**
  What a crash costs.  The queue that is rebuilt from the journal is compared with the queue that was lost: which
  entries come back, as what, and which do not.
*/
module ArbiterRecovery {
  import opened Bytes
  import opened ArbiterCodec
  import opened Arbiter
  import opened ArbiterHistory

  /** The time cut to its second, as the journal keeps it. */
  function Whole(t: nat): nat { t / SECOND * SECOND }

  /** Leaves are written or lost altogether, and a restore in the run finds every record in the log. */
  ghost predicate Steady(e: Event) {
    match e
    case Enqueue(_, _, _, _, leaf) => leaf != JournalOnly
    case Decide(_, _, _, _, _, leaf) => leaf != JournalOnly
    case Take(_, _, _, leaf) => leaf != JournalOnly
    case Restore(_, inLog, _) => forall k: nat :: inLog(k)
  }

  ghost predicate SteadyRun(c: Config, evs: seq<Event>) {
    FreshTickets(c, evs) && forall k :: 0 <= k < |evs| ==> Steady(evs[k])
  }

  predicate Decides(r: Record) { r.act == APPROVE || r.act == REFUSE }

  /** The status that a decision gives. */
  function Verdict(r: Record): Status { if r.act == APPROVE then Approved else Refused }

  // ---------------------------------------------------------------------------------------------
  // Journal and entries
  // ---------------------------------------------------------------------------------------------

  ghost predicate EnqueuedAt(j: seq<Record>, k: nat, id: Id, ticket: Ticket) {
    k < |j| && j[k].act == ENQUEUE && j[k].id == id && j[k].ticket == ticket
  }

  ghost predicate DecidedAt(j: seq<Record>, d: nat, ticket: Ticket) {
    d < |j| && Decides(j[d]) && j[d].ticket == ticket
  }

  ghost predicate ConsumedIn(j: seq<Record>, ticket: Ticket) {
    exists i :: 0 <= i < |j| && Consumes(j[i]) && j[i].ticket == ticket
  }

  /** A decision follows its request, under the same id, and there is one at most. */
  ghost predicate DecisionsOk(j: seq<Record>) {
    && (forall d {:trigger Decides(j[d])} :: 0 <= d < |j| && Decides(j[d]) ==>
          exists k :: 0 <= k < d && EnqueuedAt(j, k, j[d].id, j[d].ticket))
    && (forall d, e {:trigger Decides(j[d]), Decides(j[e])} ::
          0 <= d < e < |j| && Decides(j[d]) && Decides(j[e]) ==> j[d].ticket != j[e].ticket)
  }

  /** The journal tells the entry: its request, its decision if it has one, and no consumption. */
  ghost predicate Told(j: seq<Record>, id: Id, x: Entry) {
    && !ConsumedIn(j, x.ticket)
    && exists k :: TellsFrom(j, k, id, x)
  }

  ghost predicate TellsFrom(j: seq<Record>, k: nat, id: Id, x: Entry) {
    && EnqueuedAt(j, k, id, x.ticket) && j[k].subject == x.subject
    && (x.status == Pending ==>
          j[k].expiry == x.expires / SECOND && x.kid == NO_KID && forall d: nat :: !DecidedAt(j, d, x.ticket))
    && (x.status != Pending ==> exists d :: Settles(j, d, x))
  }

  ghost predicate Settles(j: seq<Record>, d: nat, x: Entry) {
    DecidedAt(j, d, x.ticket) && Verdict(j[d]) == x.status && j[d].expiry == x.expires / SECOND && j[d].kid == x.kid
  }

  ghost predicate Agree(s: Store) {
    && JournalOk(s.journal) && DecisionsOk(s.journal)
    && forall id {:trigger id in s.entries} :: id in s.entries ==> Told(s.journal, id, s.entries[id])
  }

  // Adding a record that does not concern a ticket

  lemma DecidedGrows(j: seq<Record>, r: Record, d: nat, ticket: Ticket)
    ensures DecidedAt(j + [r], d, ticket) <==> DecidedAt(j, d, ticket) || (d == |j| && Decides(r) && r.ticket == ticket)
  {
  }

  lemma ConsumedGrows(j: seq<Record>, r: Record, ticket: Ticket)
    ensures ConsumedIn(j + [r], ticket) <==> ConsumedIn(j, ticket) || (Consumes(r) && r.ticket == ticket)
  {
    if ConsumedIn(j, ticket) {
      var i :| 0 <= i < |j| && Consumes(j[i]) && j[i].ticket == ticket;
      assert (j + [r])[i] == j[i];
    }
    if Consumes(r) && r.ticket == ticket { assert (j + [r])[|j|] == r; }
  }

  lemma ToldStays(j: seq<Record>, r: Record, id: Id, x: Entry)
    requires Told(j, id, x) && r.ticket != x.ticket
    ensures Told(j + [r], id, x)
  {
    ConsumedGrows(j, r, x.ticket);
    var k :| TellsFrom(j, k, id, x);
    forall d: nat ensures DecidedAt(j + [r], d, x.ticket) <==> DecidedAt(j, d, x.ticket) {
      DecidedGrows(j, r, d, x.ticket);
    }
    if x.status != Pending {
      var d :| Settles(j, d, x);
      assert Settles(j + [r], d, x);
    }
    assert TellsFrom(j + [r], k, id, x);
  }

  lemma DecisionsGrow(j: seq<Record>, r: Record)
    requires DecisionsOk(j)
    requires Decides(r) ==> exists k :: EnqueuedAt(j, k, r.id, r.ticket)
    requires Decides(r) ==> forall d: nat :: !DecidedAt(j, d, r.ticket)
    ensures DecisionsOk(j + [r])
  {
    var j' := j + [r];
    forall d | 0 <= d < |j'| && Decides(j'[d])
      ensures exists k :: 0 <= k < d && EnqueuedAt(j', k, j'[d].id, j'[d].ticket)
    {
      if d < |j| {
        assert Decides(j[d]);
        var k :| 0 <= k < d && EnqueuedAt(j, k, j[d].id, j[d].ticket);
        assert EnqueuedAt(j', k, j'[d].id, j'[d].ticket);
      } else {
        var k :| EnqueuedAt(j, k, r.id, r.ticket);
        assert EnqueuedAt(j', k, r.id, r.ticket);
      }
    }
    forall d, e | 0 <= d < e < |j'| && Decides(j'[d]) && Decides(j'[e]) ensures j'[d].ticket != j'[e].ticket {
      assert Decides(j[d]);
      if e < |j| { assert Decides(j[e]); } else { assert !DecidedAt(j, d, r.ticket); }
    }
  }

  // ---------------------------------------------------------------------------------------------
  // Every step of a steady run keeps journal and entries in agreement
  // ---------------------------------------------------------------------------------------------

  lemma AgreeShrinks(s: Store, m: Entries)
    requires Agree(s) && forall id :: id in m ==> id in s.entries && m[id] == s.entries[id]
    ensures Agree(Store(m, s.journal))
  {
    forall id | id in m ensures Told(s.journal, id, m[id]) { assert id in s.entries; }
  }

  /** A request is journalled and its entry set. */
  lemma AgreeEnqueued(s: Store, r: Record, x: Entry)
    requires Agree(s) && r.act == ENQUEUE && x.status == Pending && x.kid == NO_KID
    requires x.ticket == r.ticket && x.subject == r.subject && x.expires / SECOND == r.expiry
    requires forall k :: k in s.journal ==> k.ticket != r.ticket
    ensures Agree(Store(s.entries[r.id := x], s.journal + [r]))
  {
    var j := s.journal + [r];
    JournalGrows(s.journal, r);
    DecisionsGrow(s.journal, r);
    var m := s.entries[r.id := x];
    forall id | id in m ensures Told(j, id, m[id]) {
      if id == r.id {
        assert j[|s.journal|] == r;
        assert TellsFrom(j, |s.journal|, id, x);
      } else {
        assert Told(s.journal, id, s.entries[id]);
        ToldStays(s.journal, r, id, s.entries[id]);
      }
    }
  }

  /** Two entries that the journal tells under different ids bear different tickets. */
  lemma ToldApart(j: seq<Record>, id1: Id, x1: Entry, id2: Id, x2: Entry)
    requires JournalOk(j) && Told(j, id1, x1) && Told(j, id2, x2) && id1 != id2
    ensures x1.ticket != x2.ticket
  {
    var k1 :| TellsFrom(j, k1, id1, x1);
    var k2 :| TellsFrom(j, k2, id2, x2);
  }

  /** A pending entry is decided: record and entry. */
  lemma ToldDecided(j: seq<Record>, r: Record, id: Id, x: Entry, y: Entry)
    requires Told(j, id, x) && x.status == Pending && Decides(r) && r.ticket == x.ticket
    requires y == x.(status := Verdict(r), expires := y.expires, kid := r.kid) && y.expires / SECOND == r.expiry
    ensures Told(j + [r], id, y)
  {
    ConsumedGrows(j, r, x.ticket);
    var k :| TellsFrom(j, k, id, x);
    assert (j + [r])[|j|] == r;
    assert Settles(j + [r], |j|, y);
    assert TellsFrom(j + [r], k, id, y);
  }

  lemma AgreeDecided(s: Store, r: Record, y: Entry)
    requires Agree(s) && Decides(r) && r.id in s.entries
    requires var x := s.entries[r.id];
             && x.status == Pending && x.ticket == r.ticket
             && y == x.(status := Verdict(r), expires := y.expires, kid := r.kid) && y.expires / SECOND == r.expiry
    ensures Agree(Store(s.entries[r.id := y], s.journal + [r]))
  {
    var x := s.entries[r.id];
    assert Told(s.journal, r.id, x);
    var k :| TellsFrom(s.journal, k, r.id, x);
    JournalGrows(s.journal, r);
    DecisionsGrow(s.journal, r);
    var m := s.entries[r.id := y];
    forall id | id in m ensures Told(s.journal + [r], id, m[id]) {
      if id == r.id {
        ToldDecided(s.journal, r, id, x, y);
      } else {
        assert Told(s.journal, id, s.entries[id]);
        ToldApart(s.journal, id, s.entries[id], r.id, x);
        ToldStays(s.journal, r, id, s.entries[id]);
      }
    }
  }

  /** An entry is consumed: record written, entry gone. */
  lemma AgreeConsumed(s: Store, r: Record)
    requires Agree(s) && Consumes(r) && r.id in s.entries && s.entries[r.id].ticket == r.ticket
    ensures Agree(Store(s.entries - {r.id}, s.journal + [r]))
  {
    var x := s.entries[r.id];
    assert Told(s.journal, r.id, x);
    var k :| TellsFrom(s.journal, k, r.id, x);
    JournalGrows(s.journal, r);
    DecisionsGrow(s.journal, r);
    forall id | id in s.entries - {r.id} ensures Told(s.journal + [r], id, s.entries[id]) {
      assert Told(s.journal, id, s.entries[id]);
      ToldApart(s.journal, id, s.entries[id], r.id, x);
      ToldStays(s.journal, r, id, s.entries[id]);
    }
  }

  lemma EnqueueAgrees(c: Config, w: World, e: Event)
    requires Agree(w.store) && e.Enqueue? && FreshTicket(w, e) && e.leaf != JournalOnly
    ensures Agree(Step(c, w, e).store)
  {
    var live := Prune(w.store.entries, e.now);
    AgreeShrinks(w.store, live);
    AgreeEnqueued(Store(live, w.store.journal), EnqueueRecord(c, e), EnqueueEntry(c, e));
    EnqueueWrites(c, w, e);
  }

  /** With a leaf that is written or lost, a request changes the queue and the journal, or neither. */
  lemma EnqueueWrites(c: Config, w: World, e: Event)
    requires e.Enqueue? && e.leaf != JournalOnly
    ensures var live, r := Prune(w.store.entries, e.now), EnqueueRecord(c, e);
            || Step(c, w, e).store == w.store
            || Step(c, w, e).store == Store(live, w.store.journal)
            || Step(c, w, e).store == Store(live[r.id := EnqueueEntry(c, e)], w.store.journal + [r])
  {
  }

  lemma DecideAgrees(c: Config, w: World, e: Event)
    requires Agree(w.store) && e.Decide? && e.leaf != JournalOnly
    ensures Agree(Step(c, w, e).store)
  {
    var live := Store(Prune(w.store.entries, e.now), w.store.journal);
    AgreeShrinks(w.store, live.entries);
    var kid := DecideWrites(c, w, e);
    if Step(c, w, e).store != live {
      var x := live.entries[e.id];
      AgreeDecided(live, DecideRecord(e, x, kid), DecidedEntry(e, x, kid));
    }
  }

  /** With a leaf that is written or lost, a decision changes the entry and the journal, or neither. */
  lemma DecideWrites(c: Config, w: World, e: Event) returns (kid: ByteString)
    requires e.Decide? && e.leaf != JournalOnly
    ensures var live := Prune(w.store.entries, e.now);
            || Step(c, w, e).store == Store(live, w.store.journal)
            || (&& e.id in live && live[e.id].status == Pending
                && Step(c, w, e).store == Store(live[e.id := DecidedEntry(e, live[e.id], kid)],
                                                w.store.journal + [DecideRecord(e, live[e.id], kid)]))
  {
    kid := NO_KID;
    if DecideSpec(c, w.store, e.id, e.approve, e.expiry, e.sig, e.now, e.leaf).1 == Arbiter.Decided {
      var x := w.store.entries[e.id];
      var msg := DecisionMessage(c.cell, e.id, x.ticket, VerdictByte(e.approve), e.expiry / SECOND);
      kid := c.kidOf(FindKey(c, if e.approve then c.arbiters else c.refusers, msg, e.sig).value);
    }
  }

  lemma TakeAgrees(c: Config, w: World, e: Event)
    requires Agree(w.store) && e.Take? && e.leaf != JournalOnly
    ensures Agree(Step(c, w, e).store)
  {
    var live := Store(Prune(w.store.entries, e.now), w.store.journal);
    AgreeShrinks(w.store, live.entries);
    var id := c.idOf(e.subject, e.intent);
    if id in live.entries && live.entries[id].status != Pending {
      AgreeConsumed(live, TakeRecord(id, live.entries[id]));
    }
  }

  // ---------------------------------------------------------------------------------------------
  // What a replay makes of the journal
  // ---------------------------------------------------------------------------------------------

  /** An entry that the replay made: the request it stems from, and the decision that the log confirms. */
  ghost predicate Rebuilt(j: seq<Record>, inLog: nat -> bool, id: Id, e: Entry) {
    && !ConsumedIn(j, e.ticket)
    && exists k :: RebuiltFrom(j, inLog, k, id, e)
  }

  ghost predicate RebuiltFrom(j: seq<Record>, inLog: nat -> bool, k: nat, id: Id, e: Entry) {
    && EnqueuedAt(j, k, id, e.ticket) && j[k].subject == e.subject
    && (e.status == Pending ==>
          && e.expires == j[k].expiry * SECOND && e.kid == NO_KID
          && forall d: nat :: DecidedAt(j, d, e.ticket) ==> j[d].act == APPROVE && !inLog(d))
    && (e.status != Pending ==> exists d :: Resolves(j, inLog, d, e))
  }

  ghost predicate Resolves(j: seq<Record>, inLog: nat -> bool, d: nat, e: Entry) {
    && DecidedAt(j, d, e.ticket) && Verdict(j[d]) == e.status && e.expires == j[d].expiry * SECOND && e.kid == j[d].kid
    && (j[d].act == APPROVE ==> inLog(d))
  }

  lemma RebuiltStays(j: seq<Record>, r: Record, inLog: nat -> bool, id: Id, e: Entry)
    requires Rebuilt(j, inLog, id, e) && !(Consumes(r) && r.ticket == e.ticket)
    requires Decides(r) && r.ticket == e.ticket && e.status == Pending ==> r.act == APPROVE && !inLog(|j|)
    ensures Rebuilt(j + [r], inLog, id, e)
  {
    ConsumedGrows(j, r, e.ticket);
    var k :| RebuiltFrom(j, inLog, k, id, e);
    forall d: nat | DecidedAt(j + [r], d, e.ticket) && e.status == Pending
      ensures (j + [r])[d].act == APPROVE && !inLog(d)
    {
      DecidedGrows(j, r, d, e.ticket);
    }
    if e.status != Pending {
      var d :| Resolves(j, inLog, d, e);
      assert Resolves(j + [r], inLog, d, e);
    }
    assert RebuiltFrom(j + [r], inLog, k, id, e);
  }

  lemma RebuiltDecided(j: seq<Record>, r: Record, inLog: nat -> bool, id: Id, x: Entry)
    requires Rebuilt(j, inLog, id, x) && Decides(r) && r.ticket == x.ticket && (r.act == APPROVE ==> inLog(|j|))
    ensures Rebuilt(j + [r], inLog, id, x.(status := Verdict(r), expires := r.expiry * SECOND, kid := r.kid))
  {
    var e := x.(status := Verdict(r), expires := r.expiry * SECOND, kid := r.kid);
    ConsumedGrows(j, r, x.ticket);
    var k :| RebuiltFrom(j, inLog, k, id, x);
    assert (j + [r])[|j|] == r;
    assert Resolves(j + [r], inLog, |j|, e);
    assert RebuiltFrom(j + [r], inLog, k, id, e);
  }

  /** A request that comes last has no decision and no consumption yet. */
  lemma NothingBefore(j: seq<Record>, r: Record)
    requires JournalOk(j + [r]) && DecisionsOk(j + [r]) && r.act == ENQUEUE
    ensures !ConsumedIn(j + [r], r.ticket) && forall d: nat :: !DecidedAt(j + [r], d, r.ticket)
  {
    var j' := j + [r];
    assert j'[|j|] == r;
  }

  lemma RebuiltFresh(j: seq<Record>, r: Record, inLog: nat -> bool)
    requires JournalOk(j + [r]) && DecisionsOk(j + [r]) && r.act == ENQUEUE
    ensures Rebuilt(j + [r], inLog, r.id, Entry(r.ticket, r.subject, r.expiry * SECOND, Pending, NO_KID))
  {
    NothingBefore(j, r);
    assert (j + [r])[|j|] == r;
    assert RebuiltFrom(j + [r], inLog, |j|, r.id, Entry(r.ticket, r.subject, r.expiry * SECOND, Pending, NO_KID));
  }

  /** A record on a ticket names the id under which the ticket was enqueued. */
  lemma SameId(j: seq<Record>, r: Record, k: nat, id: Id)
    requires JournalOk(j + [r]) && DecisionsOk(j + [r]) && EnqueuedAt(j, k, id, r.ticket)
    ensures r.act != ENQUEUE
    ensures Decides(r) || Consumes(r) ==> r.id == id
  {
    var j' := j + [r];
    assert j'[|j|] == r && j'[k] == j[k];
    if Decides(r) {
      assert Decides(j'[|j|]);
      var i :| 0 <= i < |j| && EnqueuedAt(j', i, r.id, r.ticket);
    }
  }

  /** One record of the replay. */
  lemma RebuiltStep(c: Config, m: Entries, j: seq<Record>, r: Record, inLog: nat -> bool, id: Id)
    requires JournalOk(j + [r]) && DecisionsOk(j + [r])
    requires id in m ==> Rebuilt(j, inLog, id, m[id])
    requires id in Apply(c, m, r, inLog(|j|))
    ensures Rebuilt(j + [r], inLog, id, Apply(c, m, r, inLog(|j|))[id])
  {
    if id !in m {
      RebuiltFresh(j, r, inLog);
    } else {
      var k :| RebuiltFrom(j, inLog, k, id, m[id]);
      if r.ticket == m[id].ticket { SameId(j, r, k, id); }
      if Apply(c, m, r, inLog(|j|))[id] == m[id] {
        RebuiltStays(j, r, inLog, id, m[id]);
      } else {
        RebuiltDecided(j, r, inLog, id, m[id]);
      }
    }
  }

  lemma FrontDecisionsOk(j: seq<Record>)
    requires j != [] && DecisionsOk(j)
    ensures DecisionsOk(j[..|j| - 1])
  {
    var f := j[..|j| - 1];
    forall d | 0 <= d < |f| && Decides(f[d]) ensures exists k :: 0 <= k < d && EnqueuedAt(f, k, f[d].id, f[d].ticket) {
      assert Decides(j[d]);
      var k :| 0 <= k < d && EnqueuedAt(j, k, j[d].id, j[d].ticket);
      assert EnqueuedAt(f, k, f[d].id, f[d].ticket);
    }
    forall d, e | 0 <= d < e < |f| && Decides(f[d]) && Decides(f[e]) ensures f[d].ticket != f[e].ticket {
      assert Decides(j[d]) && Decides(j[e]);
    }
  }

  lemma {:induction false} ReplayRebuilt(c: Config, m: Entries, j: seq<Record>, inLog: nat -> bool, id: Id)
    requires JournalOk(j) && DecisionsOk(j) && id !in m && id in Replay(c, m, j, inLog)
    ensures Rebuilt(j, inLog, id, Replay(c, m, j, inLog)[id])
    decreases |j|
  {
    if j != [] {
      var n := |j| - 1;
      FrontJournalOk(j);
      FrontDecisionsOk(j);
      var m1 := Replay(c, m, j[..n], inLog);
      if id in m1 { ReplayRebuilt(c, m, j[..n], inLog, id); }
      assert j == j[..n] + [j[n]];
      RebuiltStep(c, m1, j[..n], j[n], inLog, id);
    }
  }

  /** An entry that the journal tells is not touched by a replay on top of it. */
  lemma {:induction false} ReplayKeeps(c: Config, m: Entries, j: seq<Record>, n: nat, inLog: nat -> bool, id: Id)
    requires n <= |j| && id in m && Told(j, id, m[id])
    ensures id in Replay(c, m, j[..n], inLog) && Replay(c, m, j[..n], inLog)[id] == m[id]
  {
    if n > 0 {
      ReplayKeeps(c, m, j, n - 1, inLog, id);
      ReplayStep(c, m, j, inLog, n - 1);
      var k :| TellsFrom(j, k, id, m[id]);
      if Decides(j[n - 1]) && j[n - 1].ticket == m[id].ticket { assert DecidedAt(j, n - 1, m[id].ticket); }
    }
  }

  lemma RebuiltIsTold(j: seq<Record>, inLog: nat -> bool, id: Id, e: Entry)
    requires Rebuilt(j, inLog, id, e) && forall k: nat :: inLog(k)
    ensures Told(j, id, e)
  {
    var k :| RebuiltFrom(j, inLog, k, id, e);
    if e.status != Pending {
      var d :| Resolves(j, inLog, d, e);
      assert Settles(j, d, e);
    }
    assert TellsFrom(j, k, id, e);
  }

  lemma RestoreAgrees(c: Config, w: World, e: Event)
    requires Agree(w.store) && e.Restore? && Steady(e)
    ensures Agree(Step(c, w, e).store)
  {
    var m, j := if e.crashed then map[] else w.store.entries, w.store.journal;
    var all := Replay(c, m, j, e.inLog);
    forall id | id in all ensures Told(j, id, all[id]) {
      if id in m {
        assert id in w.store.entries;
        ReplayKeeps(c, m, j, |j|, e.inLog, id);
        assert j[..|j|] == j;
      } else {
        ReplayRebuilt(c, m, j, e.inLog, id);
        RebuiltIsTold(j, e.inLog, id, all[id]);
      }
    }
    AgreeShrinks(Store(all, j), Prune(all, e.now));
  }

  /** Over every steady run the journal tells every entry of the queue. */
  lemma {:induction false} SteadyAgrees(c: Config, evs: seq<Event>)
    requires SteadyRun(c, evs)
    ensures Agree(After(c, evs).store)
  {
    if evs != [] {
      var front, e := evs[..|evs| - 1], evs[|evs| - 1];
      assert forall k :: 0 <= k < |front| ==> front[..k] == evs[..k] && front[k] == evs[k];
      SteadyAgrees(c, front);
      assert Steady(e) && FreshTicket(After(c, front), e);
      match e {
        case Enqueue(_, _, _, _, _) => EnqueueAgrees(c, After(c, front), e);
        case Decide(_, _, _, _, _, _) => DecideAgrees(c, After(c, front), e);
        case Take(_, _, _, _) => TakeAgrees(c, After(c, front), e);
        case Restore(_, _, _) => RestoreAgrees(c, After(c, front), e);
      }
    }
  }

  // ---------------------------------------------------------------------------------------------
  // Which tickets a journal brings back
  // ---------------------------------------------------------------------------------------------

  /** The ids that a journal holds open, each with its ticket. */
  function Standing(c: Config, j: seq<Record>): map<Id, Ticket> {
    if j == [] then map[] else Stood(c, Standing(c, j[..|j| - 1]), j[|j| - 1])
  }

  function Stood(c: Config, s: map<Id, Ticket>, r: Record): map<Id, Ticket> {
    if r.act == ENQUEUE && r.expiry != 0 && |s| < c.max && r.id !in s then s[r.id := r.ticket]
    else if Consumes(r) && r.id in s && s[r.id] == r.ticket then s - {r.id}
    else s
  }

  predicate Stands(c: Config, j: seq<Record>, id: Id, ticket: Ticket) {
    id in Standing(c, j) && Standing(c, j)[id] == ticket
  }

  /** The request at `k` opens its id: there is room for it, and no earlier request of the id is still open. */
  predicate Opens(c: Config, j: seq<Record>, k: nat)
    requires k < |j|
  {
    j[k].expiry != 0 && |Standing(c, j[..k])| < c.max && j[k].id !in Standing(c, j[..k])
  }

  ghost predicate OpenedAt(c: Config, j: seq<Record>, k: nat, id: Id, ticket: Ticket) {
    EnqueuedAt(j, k, id, ticket) && Opens(c, j, k)
  }

  /** A ticket stands exactly when its request opened its id and it has not been consumed since. */
  lemma {:induction false} StandsExactly(c: Config, j: seq<Record>, id: Id, ticket: Ticket)
    requires JournalOk(j)
    ensures Stands(c, j, id, ticket) <==> !ConsumedIn(j, ticket) && exists k :: OpenedAt(c, j, k, id, ticket)
    decreases |j|
  {
    if j != [] {
      var n := |j| - 1;
      var f, r := j[..n], j[n];
      assert j == f + [r];
      FrontJournalOk(j);
      StandsExactly(c, f, id, ticket);
      ConsumedGrows(f, r, ticket);
      OpenedGrows(c, f, r, id, ticket);
      LastStands(c, f, r, Standing(c, f), id, ticket, exists k :: OpenedAt(c, f, k, id, ticket));
    }
  }

  lemma OpenedBefore(c: Config, f: seq<Record>, r: Record, k: nat, id: Id, ticket: Ticket)
    requires k < |f|
    ensures OpenedAt(c, f + [r], k, id, ticket) <==> OpenedAt(c, f, k, id, ticket)
  {
    assert (f + [r])[..k] == f[..k];
  }

  lemma OpenedGrows(c: Config, f: seq<Record>, r: Record, id: Id, ticket: Ticket)
    ensures (exists k :: OpenedAt(c, f + [r], k, id, ticket)) <==>
            (exists k :: OpenedAt(c, f, k, id, ticket)) || OpenedAt(c, f + [r], |f|, id, ticket)
  {
    forall k: nat | k < |f| ensures OpenedAt(c, f + [r], k, id, ticket) <==> OpenedAt(c, f, k, id, ticket) {
      OpenedBefore(c, f, r, k, id, ticket);
    }
  }

  /** A last record on a ticket that was requested before, or consumed before. */
  lemma LastRecord(f: seq<Record>, r: Record, id: Id)
    requires JournalOk(f + [r])
    ensures (exists k :: EnqueuedAt(f, k, id, r.ticket)) ==> r.act != ENQUEUE && (Consumes(r) ==> r.id == id)
    ensures r.act == ENQUEUE ==> !ConsumedIn(f, r.ticket)
  {
    var j := f + [r];
    assert j[|f|] == r;
    forall k: nat | EnqueuedAt(f, k, id, r.ticket) ensures r.act != ENQUEUE && (Consumes(r) ==> r.id == id) {
      assert j[k] == f[k];
    }
    if r.act == ENQUEUE {
      forall i | 0 <= i < |f| && Consumes(f[i]) ensures f[i].ticket != r.ticket { assert j[i] == f[i]; }
    }
  }

  lemma LastStands(c: Config, f: seq<Record>, r: Record, s: map<Id, Ticket>, id: Id, ticket: Ticket, open: bool)
    requires JournalOk(f + [r]) && s == Standing(c, f)
    requires open ==> exists k :: EnqueuedAt(f, k, id, ticket)
    requires id in s && s[id] == ticket <==> !ConsumedIn(f, ticket) && open
    ensures Stands(c, f + [r], id, ticket) <==>
            && !(ConsumedIn(f, ticket) || (Consumes(r) && r.ticket == ticket))
            && (open || OpenedAt(c, f + [r], |f|, id, ticket))
  {
    var j := f + [r];
    assert j[..|f|] == f && j[|f|] == r;
    if r.ticket == ticket { LastRecord(f, r, id); }
  }

  ghost predicate SameTickets(m: Entries, s: map<Id, Ticket>) {
    m.Keys == s.Keys && forall id :: id in m ==> m[id].ticket == s[id]
  }

  lemma ApplyStood(c: Config, m: Entries, s: map<Id, Ticket>, r: Record, logged: bool)
    requires SameTickets(m, s)
    ensures SameTickets(Apply(c, m, r, logged), Stood(c, s, r))
  {
    assert |m| == |m.Keys| == |s.Keys| == |s|;
  }

  /** The tickets of a rebuilt queue are those that stand, whatever the log confirms. */
  lemma {:induction false} ReplayStands(c: Config, j: seq<Record>, inLog: nat -> bool)
    ensures SameTickets(Replay(c, map[], j, inLog), Standing(c, j))
    decreases |j|
  {
    if j != [] {
      var n := |j| - 1;
      ReplayStands(c, j[..n], inLog);
      ApplyStood(c, Replay(c, map[], j[..n], inLog), Standing(c, j[..n]), j[n], inLog(n));
    }
  }

  // ---------------------------------------------------------------------------------------------
  // Before and after a crash
  // ---------------------------------------------------------------------------------------------

  /** Every approval of the ticket is in the signed log. */
  ghost predicate InLog(j: seq<Record>, inLog: nat -> bool, ticket: Ticket) {
    forall d: nat :: DecidedAt(j, d, ticket) && j[d].act == APPROVE ==> inLog(d)
  }

  lemma RebuiltMatches(j: seq<Record>, inLog: nat -> bool, id: Id, x: Entry, e: Entry)
    requires JournalOk(j) && DecisionsOk(j) && Told(j, id, x) && Rebuilt(j, inLog, id, e) && e.ticket == x.ticket
    requires InLog(j, inLog, x.ticket)
    ensures e == x.(expires := Whole(x.expires))
  {
    var k: nat :| TellsFrom(j, k, id, x);
    var k': nat :| RebuiltFrom(j, inLog, k', id, e);
    assert k == k';
    if x.status != Pending {
      var d: nat :| Settles(j, d, x);
      var d': nat :| Resolves(j, inLog, d', e);
      assert Decides(j[d]) && Decides(j[d']);
    }
  }

  /** An approval that the log does not confirm falls back to the request. */
  lemma RebuiltFallsBack(j: seq<Record>, inLog: nat -> bool, id: Id, x: Entry, e: Entry, k: nat)
    requires JournalOk(j) && DecisionsOk(j) && Told(j, id, x) && Rebuilt(j, inLog, id, e) && e.ticket == x.ticket
    requires x.status == Approved && !InLog(j, inLog, x.ticket) && EnqueuedAt(j, k, id, x.ticket)
    ensures e == Entry(x.ticket, x.subject, j[k].expiry * SECOND, Pending, NO_KID)
  {
    var k1: nat :| TellsFrom(j, k1, id, x);
    var k2: nat :| RebuiltFrom(j, inLog, k2, id, e);
    assert k1 == k == k2;
    var d: nat :| DecidedAt(j, d, x.ticket) && j[d].act == APPROVE && !inLog(d);
    assert Decides(j[d]);
  }

  /**
    A crash and a restart compared with the queue before the crash.  The entry comes back if and only if its
    ticket stands in the journal and its time has not run out by the whole second; it then has the same ticket,
    subject, status and kid, and the expiry cut to the second.
  */
  lemma RestoreGivesBack(c: Config, evs: seq<Event>, inLog: nat -> bool, now: nat, id: Id)
    requires SteadyRun(c, evs) && id in After(c, evs).store.entries
    requires InLog(After(c, evs).store.journal, inLog, After(c, evs).store.entries[id].ticket)
    ensures var w := After(c, evs);
            var x, r := w.store.entries[id], Step(c, w, Restore(true, inLog, now)).store.entries;
            && (id in r && r[id].ticket == x.ticket <==>
                Stands(c, w.store.journal, id, x.ticket) && now < Whole(x.expires))
            && (id in r && r[id].ticket == x.ticket ==> r[id] == x.(expires := Whole(x.expires)))
  {
    SteadyAgrees(c, evs);
    var s := After(c, evs).store;
    var all := Replay(c, map[], s.journal, inLog);
    ReplayStands(c, s.journal, inLog);
    if id in all && all[id].ticket == s.entries[id].ticket {
      ReplayRebuilt(c, map[], s.journal, inLog, id);
      RebuiltMatches(s.journal, inLog, id, s.entries[id], all[id]);
    }
  }

  /** What is lost when the approval is not in the log: the entry waits for a decision again, until its request ends. */
  lemma UnconfirmedFallsBack(c: Config, evs: seq<Event>, inLog: nat -> bool, now: nat, id: Id, k: nat)
    requires SteadyRun(c, evs) && id in After(c, evs).store.entries
    requires var s := After(c, evs).store;
             && s.entries[id].status == Approved && !InLog(s.journal, inLog, s.entries[id].ticket)
             && EnqueuedAt(s.journal, k, id, s.entries[id].ticket)
    ensures var w := After(c, evs);
            var x, r := w.store.entries[id], Step(c, w, Restore(true, inLog, now)).store.entries;
            var until := w.store.journal[k].expiry * SECOND;
            && (id in r && r[id].ticket == x.ticket <==> Stands(c, w.store.journal, id, x.ticket) && now < until)
            && (id in r && r[id].ticket == x.ticket ==> r[id] == Entry(x.ticket, x.subject, until, Pending, NO_KID))
  {
    SteadyAgrees(c, evs);
    var s := After(c, evs).store;
    var all := Replay(c, map[], s.journal, inLog);
    ReplayStands(c, s.journal, inLog);
    if id in all && all[id].ticket == s.entries[id].ticket {
      ReplayRebuilt(c, map[], s.journal, inLog, id);
      RebuiltFallsBack(s.journal, inLog, id, s.entries[id], all[id], k);
    }
  }

  // ---------------------------------------------------------------------------------------------
  // When every entry comes back
  // ---------------------------------------------------------------------------------------------

  /** The ids with a request that was not consumed. */
  ghost function OpenIds(j: seq<Record>): set<Id> {
    set k | 0 <= k < |j| && j[k].act == ENQUEUE && !ConsumedIn(j, j[k].ticket) :: j[k].id
  }

  /** No id is asked for again before its earlier request was consumed, and never more than `max` are open. */
  ghost predicate Tidy(c: Config, j: seq<Record>) {
    forall k {:trigger j[k].act} :: 0 <= k < |j| && j[k].act == ENQUEUE ==>
      j[k].expiry != 0 && j[k].id !in OpenIds(j[..k]) && |OpenIds(j[..k])| < c.max
  }

  lemma StandingIsOpen(c: Config, j: seq<Record>)
    requires JournalOk(j)
    ensures Standing(c, j).Keys <= OpenIds(j)
  {
    forall id | id in Standing(c, j) ensures id in OpenIds(j) {
      StandsExactly(c, j, id, Standing(c, j)[id]);
      OpenedIsOpen(c, j, id, Standing(c, j)[id]);
    }
  }

  lemma OpenedIsOpen(c: Config, j: seq<Record>, id: Id, ticket: Ticket)
    requires !ConsumedIn(j, ticket) && exists k :: OpenedAt(c, j, k, id, ticket)
    ensures id in OpenIds(j)
  {
    var k: nat :| OpenedAt(c, j, k, id, ticket);
    assert j[k].act == ENQUEUE;
  }

  lemma PrefixJournalOk(j: seq<Record>, k: nat)
    requires JournalOk(j) && k <= |j|
    ensures JournalOk(j[..k])
  {
  }

  lemma SubsetSize<T>(a: set<T>, b: set<T>)
    requires a <= b
    ensures |a| <= |b|
  {
    if a != {} {
      var x :| x in a;
      SubsetSize(a - {x}, b - {x});
    }
  }

  /** In a tidy journal every ticket that was not consumed stands. */
  lemma TidyStands(c: Config, j: seq<Record>, k: nat)
    requires JournalOk(j) && Tidy(c, j) && k < |j| && j[k].act == ENQUEUE && !ConsumedIn(j, j[k].ticket)
    ensures Stands(c, j, j[k].id, j[k].ticket)
  {
    PrefixJournalOk(j, k);
    StandingIsOpen(c, j[..k]);
    SubsetSize(Standing(c, j[..k]).Keys, OpenIds(j[..k]));
    assert |Standing(c, j[..k])| == |Standing(c, j[..k]).Keys|;
    StandsExactly(c, j, j[k].id, j[k].ticket);
    assert OpenedAt(c, j, k, j[k].id, j[k].ticket);
  }

  /** A steady run with a tidy journal loses nothing but fractions of a second. */
  lemma TidyRunsLoseNothing(c: Config, evs: seq<Event>, inLog: nat -> bool, now: nat, id: Id)
    requires SteadyRun(c, evs) && Tidy(c, After(c, evs).store.journal) && id in After(c, evs).store.entries
    requires InLog(After(c, evs).store.journal, inLog, After(c, evs).store.entries[id].ticket)
    ensures var w := After(c, evs);
            var x, r := w.store.entries[id], Step(c, w, Restore(true, inLog, now)).store.entries;
            && (id in r <==> now < Whole(x.expires))
            && (id in r ==> r[id] == x.(expires := Whole(x.expires)))
  {
    SteadyAgrees(c, evs);
    var w := After(c, evs);
    TidyEntryStands(c, w.store, id);
    RestoreGivesBack(c, evs, inLog, now, id);
    RestoredStands(c, w, inLog, now, id);
  }

  lemma TidyEntryStands(c: Config, s: Store, id: Id)
    requires Agree(s) && Tidy(c, s.journal) && id in s.entries
    ensures Stands(c, s.journal, id, s.entries[id].ticket)
  {
    var k: nat :| TellsFrom(s.journal, k, id, s.entries[id]);
    TidyStands(c, s.journal, k);
  }

  /** After a crash, whatever comes back bears the ticket that stands. */
  lemma RestoredStands(c: Config, w: World, inLog: nat -> bool, now: nat, id: Id)
    ensures var r := Step(c, w, Restore(true, inLog, now)).store.entries;
            id in r ==> Stands(c, w.store.journal, id, r[id].ticket)
  {
    ReplayStands(c, w.store.journal, inLog);
  }

  // ---------------------------------------------------------------------------------------------
  // Two runs that do lose something
  // ---------------------------------------------------------------------------------------------

  lemma After1(c: Config, a: Event)
    ensures After(c, [a]) == Step(c, START, a)
  {
    assert [a][..0] == [];
  }

  lemma After2(c: Config, a: Event, b: Event)
    ensures After(c, [a, b]) == Step(c, Step(c, START, a), b)
  {
    assert [a, b][..1] == [a];
    After1(c, a);
  }

  lemma After3(c: Config, a: Event, b: Event, d: Event)
    ensures After(c, [a, b, d]) == Step(c, Step(c, Step(c, START, a), b), d)
  {
    assert [a, b, d][..2] == [a, b];
    After2(c, a, b);
  }

  /** A request let in. */
  lemma LetIn(c: Config, w: World, e: Event)
    requires e.Enqueue? && e.leaf == Written && |e.subject| <= MAX_SUBJECT
    requires var live, id := Prune(w.store.entries, e.now), c.idOf(e.subject, e.intent);
             !(id in live && live[id].status == Pending) && |live| < c.max
    ensures var r := EnqueueRecord(c, e);
            Step(c, w, e) == w.(store := Store(Prune(w.store.entries, e.now)[r.id := EnqueueEntry(c, e)],
                                               w.store.journal + [r]))
  {
  }

  lemma FirstLetIn(c: Config, a: Event)
    requires a.Enqueue? && a.leaf == Written && |a.subject| <= MAX_SUBJECT && c.max > 0
    ensures var r := EnqueueRecord(c, a); Step(c, START, a) == World(Store(map[r.id := EnqueueEntry(c, a)], [r]), [])
  {
    assert Prune(map[], a.now) == map[];
    LetIn(c, START, a);
  }

  /** A short run is steady when its events are and the second ticket is new. */
  lemma SteadyPair(c: Config, a: Event, b: Event)
    requires Steady(a) && Steady(b) && FreshTicket(Step(c, START, a), b)
    ensures SteadyRun(c, [a, b])
  {
    After1(c, a);
    assert [a, b][..0] == [] && [a, b][..1] == [a];
  }

  lemma SteadyRequests(c: Config, a: Event, b: Event)
    requires a.Enqueue? && b.Enqueue? && a.leaf == b.leaf == Written && |a.subject| <= MAX_SUBJECT && c.max > 0
    requires b.ticket != a.ticket
    ensures SteadyRun(c, [a, b])
  {
    FirstLetIn(c, a);
    SteadyPair(c, a, b);
  }

  lemma SteadyTriple(c: Config, a: Event, b: Event, d: Event)
    requires Steady(a) && Steady(b) && Steady(d)
    requires FreshTicket(Step(c, START, a), b) && FreshTicket(Step(c, Step(c, START, a), b), d)
    ensures SteadyRun(c, [a, b, d])
  {
    After1(c, a);
    After2(c, a, b);
    assert [a, b, d][..0] == [] && [a, b, d][..1] == [a] && [a, b, d][..2] == [a, b];
  }

  /** The second of two requests on one id takes over when the first has run out. */
  lemma AskedAgain(c: Config, a: Event, b: Event)
    requires a.Enqueue? && b.Enqueue? && a.leaf == b.leaf == Written && |a.subject| <= MAX_SUBJECT && c.max > 0
    requires b.subject == a.subject && b.intent == a.intent && a.now + c.entryTTL <= b.now
    ensures After(c, [a, b]).store ==
            Store(map[c.idOf(a.subject, a.intent) := EnqueueEntry(c, b)], [EnqueueRecord(c, a), EnqueueRecord(c, b)])
  {
    After2(c, a, b);
    FirstLetIn(c, a);
    assert Prune(map[c.idOf(a.subject, a.intent) := EnqueueEntry(c, a)], b.now) == map[];
    LetIn(c, Step(c, START, a), b);
  }

  /** The entry that the replay makes of a request on its own. */
  function RequestEntry(r: Record): Entry {
    Entry(r.ticket, r.subject, r.expiry * SECOND, Pending, NO_KID)
  }

  lemma ReplayMore(c: Config, recs: seq<Record>, r: Record, inLog: nat -> bool)
    ensures Replay(c, map[], recs + [r], inLog) == Apply(c, Replay(c, map[], recs, inLog), r, inLog(|recs|))
  {
    assert (recs + [r])[..|recs|] == recs;
  }

  lemma OneRequest(c: Config, r: Record, inLog: nat -> bool)
    requires r.act == ENQUEUE && r.expiry != 0 && c.max > 0
    ensures Replay(c, map[], [r], inLog) == map[r.id := RequestEntry(r)]
  {
    ReplayMore(c, [], r, inLog);
    assert [] + [r] == [r];
  }

  lemma TwoRequests(c: Config, ra: Record, rb: Record, inLog: nat -> bool)
    requires ra.act == rb.act == ENQUEUE && ra.id == rb.id && ra.expiry != 0 && c.max > 0
    ensures Replay(c, map[], [ra, rb], inLog) == map[ra.id := RequestEntry(ra)]
  {
    OneRequest(c, ra, inLog);
    ReplayMore(c, [ra], rb, inLog);
    assert [ra] + [rb] == [ra, rb];
  }

  lemma RequestAndApproval(c: Config, ra: Record, rb: Record, rd: Record, inLog: nat -> bool)
    requires ra.act == rd.act == ENQUEUE && rb.act == APPROVE && ra.id == rb.id == rd.id && rb.ticket == ra.ticket
    requires ra.expiry != 0 && c.max > 0 && inLog(1)
    ensures Replay(c, map[], [ra, rb, rd], inLog) ==
            map[ra.id := RequestEntry(ra).(status := Approved, expires := rb.expiry * SECOND, kid := rb.kid)]
  {
    OneRequest(c, ra, inLog);
    ReplayMore(c, [ra], rb, inLog);
    assert [ra] + [rb] == [ra, rb];
    ReplayMore(c, [ra, rb], rd, inLog);
    assert [ra, rb] + [rd] == [ra, rb, rd];
  }

  lemma RestartFrom(c: Config, w: World, inLog: nat -> bool, now: nat, id: Id, e: Entry)
    requires Replay(c, map[], w.store.journal, inLog) == map[id := e]
    ensures Step(c, w, Restore(true, inLog, now)).store.entries == if now < e.expires then map[id := e] else map[]
  {
  }

  /**
    A request that ran out undecided stays in the journal.  Asked again, the subject gets a live entry under a
    new ticket, which a restart does not bring back: the old request comes first, keeps the id, and is then pruned.
  */
  lemma AskedAgainIsLost(c: Config, a: Event, b: Event, inLog: nat -> bool, now: nat)
    requires a.Enqueue? && b.Enqueue? && a.leaf == b.leaf == Written && |a.subject| <= MAX_SUBJECT && c.max > 0
    requires b.subject == a.subject && b.intent == a.intent && b.ticket != a.ticket
    requires SECOND <= a.now + c.entryTTL <= b.now <= now < Whole(b.now + c.entryTTL)
    ensures var w, id := After(c, [a, b]), c.idOf(a.subject, a.intent);
            && SteadyRun(c, [a, b])
            && id in w.store.entries && w.store.entries[id].ticket == b.ticket
            && now < Whole(w.store.entries[id].expires)
            && id !in Step(c, w, Restore(true, inLog, now)).store.entries
  {
    SteadyRequests(c, a, b);
    AskedAgain(c, a, b);
    LostAfter(c, After(c, [a, b]), a, b, inLog, now);
  }

  lemma LostAfter(c: Config, w: World, a: Event, b: Event, inLog: nat -> bool, now: nat)
    requires a.Enqueue? && b.Enqueue? && b.subject == a.subject && b.intent == a.intent && c.max > 0
    requires w.store ==
             Store(map[c.idOf(a.subject, a.intent) := EnqueueEntry(c, b)], [EnqueueRecord(c, a), EnqueueRecord(c, b)])
    requires SECOND <= a.now + c.entryTTL <= now
    ensures var id := c.idOf(a.subject, a.intent);
            && id in w.store.entries && w.store.entries[id].ticket == b.ticket
            && w.store.entries[id].expires == b.now + c.entryTTL
            && id !in Step(c, w, Restore(true, inLog, now)).store.entries
  {
    LeftoverWins(c, w, EnqueueRecord(c, a), EnqueueRecord(c, b), inLog, now, a.now + c.entryTTL);
  }

  lemma SecondOf(t: nat)
    requires SECOND <= t
    ensures 0 < t / SECOND && t / SECOND * SECOND <= t
  {
  }

  lemma LeftoverWins(c: Config, w: World, ra: Record, rb: Record, inLog: nat -> bool, now: nat, end: nat)
    requires w.store.journal == [ra, rb] && ra.act == rb.act == ENQUEUE && ra.id == rb.id && c.max > 0
    requires SECOND <= end <= now && ra.expiry == end / SECOND
    ensures Step(c, w, Restore(true, inLog, now)).store.entries == map[]
  {
    SecondOf(end);
    TwoRequests(c, ra, rb, inLog);
    RestartFrom(c, w, inLog, now, ra.id, RequestEntry(ra));
  }

  /** A request, its approval, and a second request on the same id while the approval waits to be taken. */
  ghost predicate ReplacesApproval(c: Config, a: Event, b: Event, d: Event) {
    && a.Enqueue? && d.Enqueue? && a.leaf == d.leaf == Written && |a.subject| <= MAX_SUBJECT && c.max > 1
    && d.subject == a.subject && d.intent == a.intent && d.ticket != a.ticket
    && b.Decide? && b.approve && b.leaf == Written && b.id == c.idOf(a.subject, a.intent) && d.now < b.expiry
    && DecideSpec(c, Step(c, START, a).store, b.id, b.approve, b.expiry, b.sig, b.now, b.leaf).1 == Decided
  }

  lemma Approval(c: Config, a: Event, b: Event, d: Event) returns (kid: ByteString)
    requires ReplacesApproval(c, a, b, d)
    ensures Step(c, Step(c, START, a), b).store ==
            Store(map[b.id := DecidedEntry(b, EnqueueEntry(c, a), kid)],
                  [EnqueueRecord(c, a), DecideRecord(b, EnqueueEntry(c, a), kid)])
  {
    FirstLetIn(c, a);
    kid := DecideWrites(c, Step(c, START, a), b);
  }

  lemma Replaced(c: Config, w: World, a: Event, b: Event, d: Event, kid: ByteString)
    requires ReplacesApproval(c, a, b, d)
    requires w.store == Store(map[b.id := DecidedEntry(b, EnqueueEntry(c, a), kid)],
                              [EnqueueRecord(c, a), DecideRecord(b, EnqueueEntry(c, a), kid)])
    ensures Step(c, w, d).store ==
            Store(map[b.id := EnqueueEntry(c, d)],
                  [EnqueueRecord(c, a), DecideRecord(b, EnqueueEntry(c, a), kid), EnqueueRecord(c, d)])
  {
    assert Prune(w.store.entries, d.now) == w.store.entries;
    LetIn(c, w, d);
  }

  /**
    A new request replaces an approval that was not taken; a restart brings the replaced approval back, under its
    own ticket, in the place of the request.
  */
  lemma OldApprovalReturns(c: Config, a: Event, b: Event, d: Event, inLog: nat -> bool, now: nat)
    requires ReplacesApproval(c, a, b, d)
    requires SECOND <= a.now + c.entryTTL && now < Whole(b.expiry) && forall k: nat :: inLog(k)
    ensures var w := After(c, [a, b, d]);
            var r := Step(c, w, Restore(true, inLog, now)).store.entries;
            && SteadyRun(c, [a, b, d])
            && b.id in w.store.entries && w.store.entries[b.id].ticket == d.ticket
            && w.store.entries[b.id].status == Pending
            && b.id in r && r[b.id].ticket == a.ticket && r[b.id].status == Approved
  {
    FirstLetIn(c, a);
    var kid := Approval(c, a, b, d);
    Replaced(c, Step(c, Step(c, START, a), b), a, b, d, kid);
    SteadyTriple(c, a, b, d);
    After3(c, a, b, d);
    var ra, rb := EnqueueRecord(c, a), DecideRecord(b, EnqueueEntry(c, a), kid);
    RequestAndApproval(c, ra, rb, EnqueueRecord(c, d), inLog);
    RestartFrom(c, After(c, [a, b, d]), inLog, now, b.id,
                RequestEntry(ra).(status := Approved, expires := rb.expiry * SECOND, kid := kid));
  }
}
