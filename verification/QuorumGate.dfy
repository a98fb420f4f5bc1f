/**
  Class W authorisation: the k-of-n gate and the durable store of consumed proofs behind it.

  A proof is identified by the statement it signs (the code hashes it).  Instants are nanoseconds; the
  store keeps whole seconds.  Ed25519 and RFC 3339 parsing are arbitrary functions of the configuration.
*/
module QuorumGate {
  import opened Basics
  import opened Multisig

  const SECOND := 1_000_000_000

  datatype Statement = Statement(action: string, resource: string, policy: string, epoch: nat, expiryText: string)
  datatype Proof = Proof(statement: Statement, signatures: seq<Signature>)
  /** What arrives on the wire. */
  datatype Message = Empty | Malformed | Parsed(proof: Proof)

  datatype Config = Config(controllers: set<int>, k: nat, policy: string, maxTTL: nat, capacity: nat,
                           verify: (int, Statement, string) -> bool, parseTime: string -> Option<int>)
  {
    ghost predicate Valid() { 1 <= k <= |controllers| && 1 <= capacity }
  }

  /** `disk` is the content of the file, which a restart reloads. */
  datatype Store = Store(entries: map<Statement, int>, disk: map<Statement, int>)
  datatype ConsumeResult = Fresh | Replayed | Full | StoreFailed

  datatype Verdict =
    | Authorised
    | ProofRequired | BindingMismatch | ProofExpired | TtlTooLong | Insufficient | StoreIsFull | StoreError
    | AlreadyUsed
    | AdmittedButUntraced

  // ---------------------------------------------------------------------------------------------
  // Specification
  // ---------------------------------------------------------------------------------------------

  function Purge(m: map<Statement, int>, nowSec: int): map<Statement, int> {
    map id | id in m && m[id] > nowSec :: m[id]
  }

  function ConsumeSpec(capacity: nat, s: Store, id: Statement, expiry: int, now: int, saved: bool)
    : (Store, ConsumeResult)
  {
    if id in s.entries then (s, Replayed) else
    var live := Purge(s.entries, now / SECOND);
    if |live| >= capacity then (s, Full)
    else if !saved then (s, StoreFailed)
    else
      var next := live[id := expiry / SECOND];
      (Store(next, next), Fresh)
  }

  ghost predicate Signed(c: Config, p: Proof) {
    Reached(c.controllers, (id, sig) => c.verify(id, p.statement, sig), c.k, p.signatures)
  }

  /** All the checks that come before the proof is consumed. */
  ghost function Screen(c: Config, msg: Message, action: string, resource: string, epoch: nat, now: int)
    : Option<Verdict>
  {
    if !msg.Parsed? then Some(ProofRequired) else
    var st := msg.proof.statement;
    if st.action != action || st.resource != resource || st.epoch != epoch || st.policy != c.policy then
      Some(BindingMismatch)
    else if c.parseTime(st.expiryText).None? || now >= c.parseTime(st.expiryText).value then Some(ProofExpired)
    else if c.parseTime(st.expiryText).value > now + c.maxTTL then Some(TtlTooLong)
    else if !Signed(c, msg.proof) then Some(Insufficient)
    else None
  }

  function Expiry(c: Config, st: Statement): int {
    match c.parseTime(st.expiryText)
    case Some(t) => t
    case None => 0
  }

  ghost function VerifySpec(c: Config, s: Store, msg: Message, action: string, resource: string, epoch: nat,
                            now: int, saved: bool, leafOk: bool): (Store, Verdict)
  {
    match Screen(c, msg, action, resource, epoch, now)
    case Some(v) => (s, v)
    case None =>
      var st := msg.proof.statement;
      var (s', r) := ConsumeSpec(c.capacity, s, st, Expiry(c, st), now, saved);
      (s', match r
           case Full => StoreIsFull
           case StoreFailed => StoreError
           case Replayed => AlreadyUsed
           case Fresh => if leafOk then Authorised else AdmittedButUntraced)
  }

  // ---------------------------------------------------------------------------------------------
  // The imperative store and gate
  // ---------------------------------------------------------------------------------------------

  /** `kept` and `gone` share out `all`. */
  ghost predicate Split(all: map<Statement, int>, kept: map<Statement, int>, gone: map<Statement, int>) {
    gone.Keys !! kept.Keys && kept + gone == all
  }

  lemma SplitMore(all: map<Statement, int>, kept: map<Statement, int>, gone: map<Statement, int>, id: Statement)
    requires Split(all, kept, gone) && id in kept
    ensures Split(all, kept - {id}, gone[id := kept[id]])
  {
  }

  lemma SplitIsPurge(all: map<Statement, int>, kept: map<Statement, int>, gone: map<Statement, int>,
                     nowSec: int)
    requires Split(all, kept, gone)
    requires (forall id :: id in kept ==> kept[id] > nowSec) && (forall id :: id in gone ==> gone[id] <= nowSec)
    ensures kept == Purge(all, nowSec)
  {
    assert forall id :: id in kept ==> id in all && all[id] == kept[id];
    assert forall id :: id in gone ==> id in all && all[id] == gone[id];
  }

  class ProofStore {
    const capacity: nat
    var entries: map<Statement, int>
    var disk: map<Statement, int>

    ghost function Abs(): Store reads this { Store(entries, disk) }

    /** Opens the store on an existing file. */
    constructor (capacity: nat, file: map<Statement, int>)
      requires capacity >= 1
      ensures this.capacity == capacity && Abs() == Store(file, file)
    {
      this.capacity := capacity;
      entries := file;
      disk := file;
    }

    /** Deletes what is no longer replayable and returns it, so that it can be put back. */
    method PurgeExpired(nowSec: int) returns (purged: map<Statement, int>)
      modifies this`entries
      ensures entries == Purge(old(entries), nowSec)
      ensures purged.Keys !! entries.Keys && entries + purged == old(entries)
    {
      purged := map[];
      var keys := entries.Keys;
      while keys != {}
        invariant keys <= entries.Keys
        invariant Split(old(entries), entries, purged)
        invariant forall id :: id in purged ==> purged[id] <= nowSec
        invariant forall id :: id in entries && id !in keys ==> entries[id] > nowSec
        decreases |keys|
      {
        var id :| id in keys;
        keys := keys - {id};
        if entries[id] <= nowSec {
          SplitMore(old(entries), entries, purged, id);
          purged := purged[id := entries[id]];
          entries := entries - {id};
        }
      }
      SplitIsPurge(old(entries), entries, purged, nowSec);
    }

    /** Undoes a purge, entry by entry. */
    method PutBack(purged: map<Statement, int>)
      requires purged.Keys !! entries.Keys
      modifies this`entries
      ensures entries == old(entries) + purged
    {
      var keys := purged.Keys;
      while keys != {}
        invariant keys <= purged.Keys
        invariant entries == old(entries) + (purged - keys)
        decreases |keys|
      {
        var id :| id in keys;
        keys := keys - {id};
        entries := entries[id := purged[id]];
      }
      assert purged - {} == purged;
    }

    /** `saved` tells whether the atomic rewrite of the file succeeds. */
    method Consume(id: Statement, expiry: int, now: int, saved: bool) returns (r: ConsumeResult)
      modifies this
      ensures (Abs(), r) == ConsumeSpec(capacity, old(Abs()), id, expiry, now, saved)
      ensures r != Fresh ==> entries == old(entries) && disk == old(disk)
    {
      if id in entries { return Replayed; }
      var purged := PurgeExpired(now / SECOND);
      if |entries| >= capacity {
        PutBack(purged);
        return Full;
      }
      var ok := Record(id, expiry / SECOND, saved);
      if !ok {
        PutBack(purged);
        return StoreFailed;
      }
      r := Fresh;
    }

    /** Adds the entry and rewrites the file, or takes the entry out again. */
    method Record(id: Statement, expirySec: int, saved: bool) returns (ok: bool)
      requires id !in entries
      modifies this`entries, this`disk
      ensures ok == saved
      ensures if ok then entries == old(entries)[id := expirySec] && disk == entries
              else entries == old(entries) && disk == old(disk)
    {
      entries := entries[id := expirySec];
      if !saved {
        entries := entries - {id};
        assert entries == old(entries);
        return false;
      }
      disk := entries;
      ok := true;
    }
  }

  class Gate {
    const cfg: Config
    const store: ProofStore

    ghost predicate Valid() { cfg.Valid() && store.capacity == cfg.capacity }

    constructor (c: Config, store: ProofStore)
      requires c.Valid() && store.capacity == c.capacity
      ensures Valid() && cfg == c && this.store == store
    {
      cfg := c;
      this.store := store;
    }

    /** Counts the distinct valid signers; any faulty signature refuses the proof. */
    method CountSigners(p: Proof) returns (ok: bool)
      ensures ok <==> Signed(cfg, p)
    {
      var seen: set<int> := {};
      var valid := 0;
      var sigs := p.signatures;
      ghost var check := (id, sig) => cfg.verify(id, p.statement, sig);
      for i := 0 to |sigs|
        invariant valid == i
        invariant forall id :: id in seen <==> exists j :: 0 <= j < i && sigs[j].keyId == id
        invariant DistinctKeys(sigs[..i])
        invariant AllVerify(cfg.controllers, check, sigs[..i])
      {
        var s := sigs[i];
        if s.keyId in seen { return false; }
        if s.keyId !in cfg.controllers || !cfg.verify(s.keyId, p.statement, s.sig) { return false; }
        seen := seen + {s.keyId};
        valid := valid + 1;
      }
      assert sigs[..|sigs|] == sigs;
      ok := valid >= cfg.k;
    }

    method VerifyClassW(msg: Message, action: string, resource: string, epoch: nat, now: int, saved: bool, leafOk: bool)
      returns (v: Verdict)
      requires Valid()
      modifies store
      ensures (store.Abs(), v) == VerifySpec(cfg, old(store.Abs()), msg, action, resource, epoch, now, saved, leafOk)
    {
      if !msg.Parsed? { return ProofRequired; }
      var st := msg.proof.statement;
      if st.action != action || st.resource != resource || st.epoch != epoch || st.policy != cfg.policy {
        return BindingMismatch;
      }
      var expiry := cfg.parseTime(st.expiryText);
      if expiry.None? { return ProofExpired; }
      if now >= expiry.value { return ProofExpired; }
      if expiry.value > now + cfg.maxTTL { return TtlTooLong; }
      var ok := CountSigners(msg.proof);
      if !ok { return Insufficient; }
      var r := store.Consume(st, expiry.value, now, saved);
      match r {
        case Full => return StoreIsFull;
        case StoreFailed => return StoreError;
        case Replayed => return AlreadyUsed;
        case Fresh => return if leafOk then Authorised else AdmittedButUntraced;
      }
    }
  }

  // ---------------------------------------------------------------------------------------------
  // Runs, with restarts
  // ---------------------------------------------------------------------------------------------

  datatype Event =
    | Verify(msg: Message, action: string, resource: string, epoch: nat, now: int, saved: bool, leafOk: bool)
    | Restart(now: int)

  const EMPTY := Store(map[], map[])

  ghost function Step(c: Config, s: Store, e: Event): Store {
    match e
    case Verify(msg, action, resource, epoch, now, saved, leafOk) =>
      VerifySpec(c, s, msg, action, resource, epoch, now, saved, leafOk).0
    case Restart(_) => Store(s.disk, s.disk)
  }

  ghost function After(c: Config, evs: seq<Event>): Store {
    if evs == [] then EMPTY else Step(c, After(c, evs[..|evs| - 1]), evs[|evs| - 1])
  }

  /** Does the n-th event authorise `st`? */
  ghost predicate Authorises(c: Config, evs: seq<Event>, n: nat, st: Statement)
    requires n < |evs|
  {
    var e := evs[n];
    && e.Verify? && e.msg.Parsed? && e.msg.proof.statement == st
    && VerifySpec(c, After(c, evs[..n]), e.msg, e.action, e.resource, e.epoch, e.now, e.saved, e.leafOk).1 == Authorised
  }

  ghost predicate ClockForward(evs: seq<Event>) {
    forall i, j :: 0 <= i <= j < |evs| ==> evs[i].now <= evs[j].now
  }

  predicate WholeSecond(t: int) { t % SECOND == 0 }

  /** An authorisation is bound to the request, in time, and backed by k different controllers. */
  lemma AuthorisationNeedsQuorum(c: Config, evs: seq<Event>, n: nat, st: Statement)
    requires n < |evs| && Authorises(c, evs, n, st)
    ensures var e := evs[n];
            && st.action == e.action && st.resource == e.resource && st.epoch == e.epoch && st.policy == c.policy
            && e.now < Expiry(c, st) <= e.now + c.maxTTL
            && c.k <= |Signers(e.msg.proof.signatures)| && Signers(e.msg.proof.signatures) <= c.controllers
            && (forall id :: id in Signers(e.msg.proof.signatures) ==>
                  exists s :: s in e.msg.proof.signatures && s.keyId == id && c.verify(id, st, s.sig))
  {
    var e := evs[n];
    VerdictExactly(c, After(c, evs[..n]), e, Insufficient);
    VerdictExactly(c, After(c, evs[..n]), e, BindingMismatch);
    VerdictExactly(c, After(c, evs[..n]), e, ProofExpired);
    VerdictExactly(c, After(c, evs[..n]), e, TtlTooLong);
    VerdictExactly(c, After(c, evs[..n]), e, Authorised);
    SignersAreDistinct(e.msg.proof.signatures);
  }

  // ---------------------------------------------------------------------------------------------
  // The verdict, obstacle by obstacle
  // ---------------------------------------------------------------------------------------------

  /** Signatures by different controllers, all of them verifying the statement, and at least k of them. */
  ghost predicate Backed(c: Config, p: Proof) {
    && (forall i, j :: 0 <= i < j < |p.signatures| ==> p.signatures[i].keyId != p.signatures[j].keyId)
    && (forall s :: s in p.signatures ==> s.keyId in c.controllers && c.verify(s.keyId, p.statement, s.sig))
    && c.k <= |p.signatures|
  }

  lemma BackedIsSigned(c: Config, p: Proof)
    ensures Backed(c, p) <==> Signed(c, p)
  {
    if Signed(c, p) {
      forall s | s in p.signatures ensures s.keyId in c.controllers && c.verify(s.keyId, p.statement, s.sig) {
        var i :| 0 <= i < |p.signatures| && p.signatures[i] == s;
      }
    }
    if Backed(c, p) {
      forall i | 0 <= i < |p.signatures|
        ensures var s := p.signatures[i]; s.keyId in c.controllers && c.verify(s.keyId, p.statement, s.sig)
      {
        assert p.signatures[i] in p.signatures;
      }
    }
  }

  /** The consumed statements whose second has not come yet. */
  function Pending(m: map<Statement, int>, now: int): set<Statement> { set id | id in m && m[id] > now / SECOND }

  /** Each reason for a verdict on its own. */
  ghost predicate Obstacle(c: Config, s: Store, e: Event, v: Verdict)
    requires e.Verify?
  {
    if !e.msg.Parsed? then v == ProofRequired
    else
      var p, st := e.msg.proof, e.msg.proof.statement;
      match v
      case ProofRequired => false
      case BindingMismatch =>
        !(st.action == e.action && st.resource == e.resource && st.epoch == e.epoch && st.policy == c.policy)
      case ProofExpired => c.parseTime(st.expiryText).None? || c.parseTime(st.expiryText).value <= e.now
      case TtlTooLong => c.parseTime(st.expiryText).Some? && e.now + c.maxTTL < c.parseTime(st.expiryText).value
      case Insufficient => !Backed(c, p)
      case AlreadyUsed => st in s.entries
      case StoreIsFull => |Pending(s.entries, e.now)| >= c.capacity
      case StoreError => !e.saved
      case AdmittedButUntraced => !e.leafOk
      case Authorised => true
  }

  function Rank(v: Verdict): nat {
    match v
    case ProofRequired => 0
    case BindingMismatch => 1
    case ProofExpired => 2
    case TtlTooLong => 3
    case Insufficient => 4
    case AlreadyUsed => 5
    case StoreIsFull => 6
    case StoreError => 7
    case AdmittedButUntraced => 8
    case Authorised => 9
  }

  ghost function VerdictOf(c: Config, s: Store, e: Event): (Store, Verdict)
    requires e.Verify?
  {
    VerifySpec(c, s, e.msg, e.action, e.resource, e.epoch, e.now, e.saved, e.leafOk)
  }

  ghost predicate Clear(c: Config, s: Store, e: Event, n: nat)
    requires e.Verify?
  {
    forall v: Verdict {:trigger Obstacle(c, s, e, v)} :: Rank(v) < n ==> !Obstacle(c, s, e, v)
  }

  /** What is reported stands in the way. */
  lemma VerdictIsObstacle(c: Config, s: Store, e: Event)
    requires e.Verify?
    ensures Obstacle(c, s, e, VerdictOf(c, s, e).1)
  {
    if e.msg.Parsed? { BackedIsSigned(c, e.msg.proof); }
    assert Purge(s.entries, e.now / SECOND).Keys == Pending(s.entries, e.now);
  }

  /** Nothing that comes before it does. */
  lemma EarlierIsClear(c: Config, s: Store, e: Event, v: Verdict)
    requires e.Verify? && Rank(v) < Rank(VerdictOf(c, s, e).1)
    ensures !Obstacle(c, s, e, v)
  {
    if e.msg.Parsed? { BackedIsSigned(c, e.msg.proof); }
    assert Purge(s.entries, e.now / SECOND).Keys == Pending(s.entries, e.now);
  }

  lemma SameRank(v: Verdict, w: Verdict)
    ensures Rank(v) == Rank(w) ==> v == w
  {
  }

  /** The verdict is the first obstacle of the list, and an authorisation if there is none. */
  lemma VerdictExactly(c: Config, s: Store, e: Event, v: Verdict)
    requires e.Verify?
    ensures VerdictOf(c, s, e).1 == v <==> Obstacle(c, s, e, v) && Clear(c, s, e, Rank(v))
  {
    var o := VerdictOf(c, s, e).1;
    VerdictIsObstacle(c, s, e);
    forall u: Verdict | Rank(u) < Rank(o) ensures !Obstacle(c, s, e, u) { EarlierIsClear(c, s, e, u); }
    SameRank(o, v);
  }

  /** A proof that is admitted is recorded with its second, and only what is due goes; any other leaves the store. */
  lemma StoreExactly(c: Config, s: Store, e: Event, st: Statement)
    requires e.Verify?
    ensures var (s', v) := VerdictOf(c, s, e);
            if v in {Authorised, AdmittedButUntraced} then
              && s'.disk == s'.entries
              && (st in s'.entries <==> st in Pending(s.entries, e.now) || st == e.msg.proof.statement)
              && (st == e.msg.proof.statement ==> s'.entries[st] == Expiry(c, st) / SECOND)
              && (st in s'.entries && st != e.msg.proof.statement ==> s'.entries[st] == s.entries[st])
            else s' == s
  {
  }

  /** Memory and file agree between events. */
  lemma {:induction false} DiskAgrees(c: Config, evs: seq<Event>)
    ensures After(c, evs).entries == After(c, evs).disk
  {
    if evs != [] { DiskAgrees(c, evs[..|evs| - 1]); }
  }

  /** One event either keeps an entry, or is at or after the second the entry was stored with. */
  lemma StepKeepsEntry(c: Config, s: Store, e: Event, st: Statement)
    requires s.entries == s.disk && st in s.entries
    ensures st in Step(c, s, e).entries ==> Step(c, s, e).entries[st] == s.entries[st]
    ensures st in Step(c, s, e).entries || s.entries[st] <= e.now / SECOND
  {
  }

  /** A statement that was authorised stays in the store until the second in which it expires. */
  lemma {:induction false} StaysConsumed(c: Config, evs: seq<Event>, n: nat, st: Statement)
    requires ClockForward(evs) && n < |evs| && Authorises(c, evs, n, st)
    requires evs[|evs| - 1].now / SECOND < Expiry(c, st) / SECOND
    ensures st in After(c, evs).entries && After(c, evs).entries[st] == Expiry(c, st) / SECOND
    decreases |evs|
  {
    var front, e := evs[..|evs| - 1], evs[|evs| - 1];
    if n < |front| {
      assert front[..n] == evs[..n];
      assert front[|front| - 1].now <= e.now;
      SecondsForward(front[|front| - 1].now, e.now);
      StaysConsumed(c, front, n, st);
      DiskAgrees(c, front);
      StepKeepsEntry(c, After(c, front), e, st);
    } else {
      assert front == evs[..n];
    }
  }

  lemma SecondsForward(a: int, b: int)
    requires a <= b
    ensures a / SECOND <= b / SECOND
  {
  }

  /** For every expiry: a second authorisation can only fall into the last, partial second of the proof. */
  lemma SecondAuthorisation(c: Config, evs: seq<Event>, i: nat, j: nat, st: Statement)
    requires ClockForward(evs) && i < j < |evs| && Authorises(c, evs, i, st) && Authorises(c, evs, j, st)
    ensures Expiry(c, st) / SECOND * SECOND <= evs[j].now < Expiry(c, st)
  {
    var front := evs[..j];
    assert front[..i] == evs[..i];
    SecondsForward(front[j - 1].now, evs[j].now);
    if evs[j].now / SECOND < Expiry(c, st) / SECOND { StaysConsumed(c, front, i, st); }
  }

  /** One proof, one authorisation: over every run, restarts included, for every whole-second expiry. */
  lemma AuthorisesOnce(c: Config, evs: seq<Event>, i: nat, j: nat, st: Statement)
    requires ClockForward(evs) && WholeSecond(Expiry(c, st)) && i < j < |evs|
    requires Authorises(c, evs, i, st)
    ensures !Authorises(c, evs, j, st)
  {
    if Authorises(c, evs, j, st) { SecondAuthorisation(c, evs, i, j, st); }
  }

  /** The request that a proof was made for, presented with a working disk and registry. */
  ghost function Present(p: Proof, now: int): Event {
    Verify(Parsed(p), p.statement.action, p.statement.resource, p.statement.epoch, now, true, true)
  }

  ghost predicate GoodProof(c: Config, p: Proof, now: int) {
    && p.statement.policy == c.policy && Backed(c, p) && c.parseTime(p.statement.expiryText).Some?
    && now < Expiry(c, p.statement) <= now + c.maxTTL
  }

  lemma GoodProofConsumes(c: Config, s: Store, p: Proof, now: int)
    requires GoodProof(c, p, now) && p.statement !in s.entries && |Purge(s.entries, now / SECOND)| < c.capacity
    ensures var next := Purge(s.entries, now / SECOND)[p.statement := Expiry(c, p.statement) / SECOND];
            VerifySpec(c, s, Parsed(p), p.statement.action, p.statement.resource, p.statement.epoch, now, true, true)
            == (Store(next, next), Authorised)
  {
    BackedIsSigned(c, p);
  }

  /**
    The whole-second condition is exact.  When the expiry has a fraction, another proof presented
    inside the last partial second purges the entry, and the first proof authorises a second time.
  */
  lemma FractionalExpiryReplays(c: Config, p: Proof, q: Proof, t1: int, t2: int, t3: int)
    requires c.capacity >= 2 && p.statement != q.statement
    requires !WholeSecond(Expiry(c, p.statement))
    requires t1 <= t2 <= t3 && Expiry(c, p.statement) / SECOND * SECOND <= t2
    requires GoodProof(c, p, t1) && GoodProof(c, q, t2) && GoodProof(c, p, t3)
    ensures var evs := [Present(p, t1), Present(q, t2), Present(p, t3)];
            ClockForward(evs) && Authorises(c, evs, 0, p.statement) && Authorises(c, evs, 2, p.statement)
  {
    var evs := [Present(p, t1), Present(q, t2), Present(p, t3)];
    var st, e := p.statement, Expiry(c, p.statement) / SECOND;
    assert evs[..0] == [] && evs[..1][..0] == [] && evs[..2][..1] == evs[..1];
    assert Purge(map[], t1 / SECOND) == map[];
    GoodProofConsumes(c, EMPTY, p, t1);
    var s1 := Store(map[st := e], map[st := e]);
    assert After(c, evs[..1]) == s1;
    assert e <= t2 / SECOND;
    assert Purge(s1.entries, t2 / SECOND) == map[];
    GoodProofConsumes(c, s1, q, t2);
    var s2 := After(c, evs[..2]);
    assert s2.entries == map[q.statement := Expiry(c, q.statement) / SECOND];
    PurgeSize(s2.entries, t3 / SECOND);
    GoodProofConsumes(c, s2, p, t3);
  }

  lemma PurgeSize(m: map<Statement, int>, nowSec: int)
    ensures |Purge(m, nowSec)| <= |m|
  {
    var a, b := Purge(m, nowSec).Keys, m.Keys;
    assert b == a + (b - a);
  }
}
