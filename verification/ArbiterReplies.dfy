/**
  The exact answer of each operation of the arbitration queue, and what it leaves behind, told from the entries
  that are alive at the time of the call.
*/
module ArbiterReplies {
  import opened Bytes
  import opened ArbiterCodec
  import opened Arbiter

  /** The entry has not run out at `now`. */
  predicate Alive(s: Store, id: Id, now: nat) { id in s.entries && now < s.entries[id].expires }

  function AliveIds(s: Store, now: nat): set<Id> { set id | id in s.entries && now < s.entries[id].expires }

  predicate Waits(s: Store, id: Id, now: nat) { Alive(s, id, now) && s.entries[id].status == Pending }

  /** Every id but `id` keeps its entry if it is alive, and loses it otherwise. */
  ghost predicate OthersKept(s: Store, s': Store, id: Id, now: nat) {
    forall i {:trigger i in s'.entries} :: i != id ==>
      (i in s'.entries <==> Alive(s, i, now)) && (i in s'.entries ==> s'.entries[i] == s.entries[i])
  }

  ghost predicate Swept(s: Store, s': Store, now: nat) {
    && s'.journal == s.journal && (forall i :: i in s'.entries <==> Alive(s, i, now))
    && forall i :: i in s'.entries ==> s'.entries[i] == s.entries[i]
  }

  /** A leaf that is lost leaves the journal alone; otherwise the record is appended. */
  ghost predicate Recorded(s: Store, s': Store, r: Record, leaf: Leaf) {
    s'.journal == if leaf == Lost then s.journal else s.journal + [r]
  }

  lemma SweptSize(s: Store, now: nat)
    ensures |Prune(s.entries, now)| == |AliveIds(s, now)|
  {
    assert Prune(s.entries, now).Keys == AliveIds(s, now);
  }

  /** A request: the first fault of length, waiting entry and room is answered, then the leaf decides. */
  lemma EnqueueExactly(c: Config, s: Store, subject: ByteString, intent: ByteString, ticket: Ticket, now: nat,
                       leaf: Leaf)
    ensures var id, (s', r) := c.idOf(subject, intent), EnqueueSpec(c, s, subject, intent, ticket, now, leaf);
            var fits, until := |subject| <= MAX_SUBJECT, now + c.entryTTL;
            var ok := fits && !Waits(s, id, now) && |AliveIds(s, now)| < c.max;
            && (r == SubjectTooLong <==> !fits)
            && (r == AlreadyPending <==> fits && Waits(s, id, now))
            && (r == QueueFull <==> fits && !Waits(s, id, now) && |AliveIds(s, now)| >= c.max)
            && (r == LeafFailed <==> ok && leaf != Written)
            && (r == Queued <==> ok && leaf == Written)
            && (r == SubjectTooLong ==> s' == s)
            && (r == AlreadyPending || r == QueueFull ==> Swept(s, s', now))
            && (ok ==> OthersKept(s, s', id, now)
                       && Recorded(s, s', Record(1, id, ticket, subject, NO_KID, 0, until / SECOND), leaf))
            && (r == LeafFailed ==>
                  (id in s'.entries <==> Alive(s, id, now)) && (id in s'.entries ==> s'.entries[id] == s.entries[id]))
            && (r == Queued ==> id in s'.entries && s'.entries[id] == Entry(ticket, subject, until, Pending, NO_KID))
  {
    SweptSize(s, now);
  }

  /** The window in which a decision must end. */
  predicate InTime(c: Config, expiry: nat, now: nat) { now + MIN_DECISION_TTL <= expiry <= now + c.entryTTL }

  /** One of the keys signed the verdict on that cell, id and ticket, with its expiry in seconds. */
  ghost predicate SignedVerdict(c: Config, keys: seq<Key>, s: Store, id: Id, approve: bool, expiry: nat,
                                sig: ByteString)
    requires id in s.entries
  {
    var msg := DecisionMessage(c.cell, id, s.entries[id].ticket, if approve then 1 else 0, expiry / SECOND);
    exists i :: 0 <= i < |keys| && c.verify(keys[i], msg, sig)
  }

  /** `i` is the first of the keys that signed. */
  ghost predicate FirstSigner(c: Config, keys: seq<Key>, msg: ByteString, sig: ByteString, i: nat) {
    && i < |keys| && c.verify(keys[i], msg, sig)
    && forall k :: 0 <= k < i ==> !c.verify(keys[k], msg, sig)
  }

  lemma {:induction false} FindFirst(c: Config, keys: seq<Key>, msg: ByteString, sig: ByteString) returns (i: nat)
    requires FindKey(c, keys, msg, sig).Some?
    ensures FirstSigner(c, keys, msg, sig, i) && FindKey(c, keys, msg, sig).value == keys[i]
    decreases |keys|
  {
    i := 0;
    if !c.verify(keys[0], msg, sig) {
      i := FindFirst(c, keys[1..], msg, sig);
      i := i + 1;
    }
  }

  /** A decision: entry, window and signature in turn; the record and the entry name the first key that signed. */
  lemma DecideExactly(c: Config, s: Store, id: Id, approve: bool, expiry: nat, sig: ByteString, now: nat, leaf: Leaf)
    returns (i: nat)
    ensures var (s', r) := DecideSpec(c, s, id, approve, expiry, sig, now, leaf);
            var keys := if approve then c.arbiters else c.refusers;
            var open := Waits(s, id, now) && InTime(c, expiry, now);
            var accepted := open && SignedVerdict(c, keys, s, id, approve, expiry, sig);
            && (r == UnknownEntry <==> !Waits(s, id, now))
            && (r == BadExpiry <==> Waits(s, id, now) && !InTime(c, expiry, now))
            && (r == RoleDenied <==> open && !accepted && SignedVerdict(c, c.operators, s, id, approve, expiry, sig))
            && (r == BadSignature <==>
                open && !accepted && !SignedVerdict(c, c.operators, s, id, approve, expiry, sig))
            && (r == LeafFailed <==> accepted && leaf != Written)
            && (r == Decided <==> accepted && leaf == Written)
            && (!accepted ==> Swept(s, s', now))
            && (accepted ==>
                  && id in s'.entries && OthersKept(s, s', id, now)
                  && var x, v: Byte := s.entries[id], if approve then 1 else 0;
                     var msg := DecisionMessage(c.cell, id, x.ticket, v, expiry / SECOND);
                     && FirstSigner(c, keys, msg, sig, i)
                     && Recorded(s, s', Record(if approve then 2 else 3, id, x.ticket, x.subject, c.kidOf(keys[i]), v,
                                               expiry / SECOND), leaf)
                     && s'.entries[id] == if r == LeafFailed then x
                                          else Entry(x.ticket, x.subject, expiry,
                                                     if approve then Approved else Refused, c.kidOf(keys[i])))
  {
    i := 0;
    if DecideSpec(c, s, id, approve, expiry, sig, now, leaf).1 in {LeafFailed, Decided} {
      var msg := DecisionMessage(c.cell, id, s.entries[id].ticket, VerdictByte(approve), expiry / SECOND);
      i := FindFirst(c, if approve then c.arbiters else c.refusers, msg, sig);
    }
  }

  /** A hand-out: only an answered entry that is alive leaves the queue, and only when the leaf is written. */
  lemma TakeExactly(c: Config, s: Store, subject: ByteString, intent: ByteString, now: nat, leaf: Leaf)
    ensures var id, (s', r) := c.idOf(subject, intent), TakeSpec(c, s, subject, intent, now, leaf);
            var answered := Alive(s, id, now) && s.entries[id].status != Pending;
            && (r == TakeNone <==> !Alive(s, id, now))
            && (r == TakePending <==> Waits(s, id, now))
            && (r == LeafFailed <==> answered && leaf != Written)
            && (r == TakeApproved <==> answered && s.entries[id].status == Approved && leaf == Written)
            && (r == TakeRefused <==> answered && s.entries[id].status == Refused && leaf == Written)
            && (!answered ==> Swept(s, s', now))
            && (answered ==>
                  && OthersKept(s, s', id, now)
                  && var x := s.entries[id];
                     && Recorded(s, s', Record(if x.status == Approved then 4 else 5, id, x.ticket, x.subject, x.kid, 0,
                                               x.expires / SECOND), leaf)
                     && (leaf == Written ==> id !in s'.entries)
                     && (leaf != Written ==> id in s'.entries && s'.entries[id] == x))
  {
  }
}
