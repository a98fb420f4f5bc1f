/**
  The issuance envelope: a ledger of volumes per (subject, epoch), and the reservation protocol that
  concurrent requests run around it (reserve, ask the rule, then keep or release).
*/
module Envelope {
  import opened Basics

  const MAX_U64 := 0xFFFF_FFFF_FFFF_FFFF

  datatype Key = Key(subject: string, epoch: nat)
  datatype Ledger = Ledger(agg: map<Key, nat>, tripped: bool)
  datatype ReserveError = Saturated | Overflow

  // ---------------------------------------------------------------------------------------------
  // The ledger's locked sections
  // ---------------------------------------------------------------------------------------------

  function Aggregate(agg: map<Key, nat>, k: Key): nat { if k in agg then agg[k] else 0 }

  function Purge(agg: map<Key, nat>, epoch: nat): map<Key, nat> {
    map k | k in agg && epoch <= k.epoch :: agg[k]
  }

  function ReserveSpec(max: nat, l: Ledger, k: Key, volume: nat): (Ledger, Result<nat, ReserveError>) {
    var agg := Purge(l.agg, k.epoch);
    if k !in agg && |agg| == max then (Ledger(agg, true), Err(Saturated))
    else if Aggregate(agg, k) > MAX_U64 - volume then (l.(agg := agg), Err(Overflow))
    else
      var total := Aggregate(agg, k) + volume;
      (l.(agg := agg[k := total]), Ok(total))
  }

  function ReleaseSpec(l: Ledger, k: Key, volume: nat): Ledger {
    if k !in l.agg then l
    else if l.agg[k] <= volume then l.(agg := l.agg - {k})
    else l.(agg := l.agg[k := l.agg[k] - volume])
  }

  class EnvelopeLedger {
    const max: nat
    var agg: map<Key, nat>
    var tripped: bool

    ghost function Abs(): Ledger reads this { Ledger(agg, tripped) }

    constructor (maxEntities: nat)
      requires maxEntities > 0
      ensures max == maxEntities && Abs() == Ledger(map[], false)
    {
      max := maxEntities;
      agg := map[];
      tripped := false;
    }

    method PurgeLocked(epoch: nat)
      modifies this`agg
      ensures agg == Purge(old(agg), epoch)
    {
      var keys := agg.Keys;
      while keys != {}
        invariant keys <= agg.Keys <= old(agg).Keys
        invariant forall k :: k in agg ==> agg[k] == old(agg)[k]
        invariant forall k :: k in old(agg) && k !in keys ==> (k in agg <==> epoch <= k.epoch)
        decreases |keys|
      {
        var k :| k in keys;
        keys := keys - {k};
        if k.epoch < epoch { agg := agg - {k}; }
      }
    }

    method Reserve(k: Key, volume: nat) returns (r: Result<nat, ReserveError>)
      requires volume <= MAX_U64
      modifies this
      ensures (Abs(), r) == ReserveSpec(max, old(Abs()), k, volume)
    {
      PurgeLocked(k.epoch);
      if k !in agg && |agg| == max {
        tripped := true;
        return Err(Saturated);
      }
      var cur := if k in agg then agg[k] else 0;
      if cur > MAX_U64 - volume { return Err(Overflow); }
      agg := agg[k := cur + volume];
      r := Ok(cur + volume);
    }

    /** Gives back at most what is there: nothing is ever created, and no other aggregate moves. */
    method Release(k: Key, volume: nat)
      modifies this`agg
      ensures Abs() == ReleaseSpec(old(Abs()), k, volume)
      ensures Aggregate(agg, k) == Max(0, old(Aggregate(agg, k)) - volume)
      ensures forall o :: o != k ==> Aggregate(agg, o) == old(Aggregate(agg, o))
      ensures agg.Keys <= old(agg.Keys)
    {
      if k !in agg { return; }
      var cur := agg[k];
      if cur <= volume {
        agg := agg - {k};
        return;
      }
      agg := agg[k := cur - volume];
    }
  }

  /** The entities that a reservation for this epoch still counts. */
  function Counted(agg: map<Key, nat>, epoch: nat): set<Key> { set o | o in agg && epoch <= o.epoch }

  /** There is an entry for the entity, or room for one more. */
  predicate HasRoom(max: nat, agg: map<Key, nat>, k: Key) { k in agg || |Counted(agg, k.epoch)| != max }

  predicate FitsU64(agg: map<Key, nat>, k: Key, volume: nat) { Aggregate(agg, k) + volume <= MAX_U64 }

  /**
    A reservation, exactly: it is refused for want of room, which raises the alarm, or because the sum would not fit
    into 64 bits; otherwise it adds the volume and reports the new aggregate.  Entries of earlier epochs go in any
    case, and nothing else moves.
  */
  lemma ReserveExactly(max: nat, l: Ledger, k: Key, volume: nat, o: Key)
    ensures var (l', r) := ReserveSpec(max, l, k, volume);
            && (r == Err(Saturated) <==> !HasRoom(max, l.agg, k))
            && (r == Err(Overflow) <==> HasRoom(max, l.agg, k) && !FitsU64(l.agg, k, volume))
            && (r.Ok? <==> HasRoom(max, l.agg, k) && FitsU64(l.agg, k, volume))
            && (r.Ok? ==> r.value == Aggregate(l.agg, k) + volume == Aggregate(l'.agg, k))
            && (l'.tripped <==> l.tripped || !HasRoom(max, l.agg, k))
            && (o.epoch < k.epoch ==> o !in l'.agg)
            && (k.epoch <= o.epoch && (o != k || r.Err?) ==> Aggregate(l'.agg, o) == Aggregate(l.agg, o))
  {
    assert Purge(l.agg, k.epoch).Keys == Counted(l.agg, k.epoch);
    assert |Purge(l.agg, k.epoch)| == |Purge(l.agg, k.epoch).Keys|;
  }

  /** Releasing a reservation gives every aggregate of this epoch and later ones back its old value. */
  lemma ReleaseUndoesReserve(max: nat, l: Ledger, k: Key, volume: nat, other: Key)
    requires ReserveSpec(max, l, k, volume).1.Ok? && k.epoch <= other.epoch
    ensures Aggregate(ReleaseSpec(ReserveSpec(max, l, k, volume).0, k, volume).agg, other) == Aggregate(l.agg, other)
  {
  }

  // ---------------------------------------------------------------------------------------------
  // One request, start to end
  // ---------------------------------------------------------------------------------------------

  datatype Quota = Quota(volume: nat, window: nat)
  datatype Passport =
    | Issued | QuotaForbidden | QuotaExceeded | EnvelopeUnverified | LedgerRefused | RuleDenied | SigningFailed
    | LeafFailed

  /** The agent has a quota, and asks for no more than that. */
  predicate Within(asked: Quota, granted: Option<Quota>) {
    granted.Some? && asked.volume <= granted.value.volume && asked.window <= granted.value.window
  }

  ghost predicate Reservable(ledger: EnvelopeLedger, k: Key, volume: nat)
    reads ledger
  {
    HasRoom(ledger.max, ledger.agg, k) && FitsU64(ledger.agg, k, volume)
  }

  /**
    Steps 7bis to 10 of `HandleAction` for a passport, when nothing interferes.  The agent's own quota
    is checked before anything is reserved; without an envelope rule there are no passports at all; a
    refusal by the rule or by the signer gives the volume back; a failed leaf refuses the passport but
    keeps the reservation.
  */
  method HandlePassport(ledger: EnvelopeLedger, k: Key, asked: Quota, granted: Option<Quota>,
                        rule: Option<(Key, nat) -> bool>, signed: bool, leafOk: bool) returns (r: Passport)
    requires asked.volume <= MAX_U64
    modifies ledger
    ensures r == QuotaForbidden <==> granted.None?
    ensures r == QuotaExceeded <==> granted.Some? && !Within(asked, granted)
    ensures r == EnvelopeUnverified <==> Within(asked, granted) && rule.None?
    ensures r == LedgerRefused <==> Within(asked, granted) && rule.Some? && !old(Reservable(ledger, k, asked.volume))
    ensures r == RuleDenied <==>
            && Within(asked, granted) && rule.Some? && old(Reservable(ledger, k, asked.volume))
            && !rule.value(k, old(Aggregate(ledger.agg, k)) + asked.volume)
    ensures r in {SigningFailed, LeafFailed, Issued} <==>
            && Within(asked, granted) && rule.Some? && old(Reservable(ledger, k, asked.volume))
            && rule.value(k, old(Aggregate(ledger.agg, k)) + asked.volume)
    ensures r == SigningFailed ==> !signed
    ensures r == LeafFailed ==> signed && !leafOk
    ensures r == Issued ==> signed && leafOk
    ensures r in {Issued, LeafFailed} ==> Aggregate(ledger.agg, k) == old(Aggregate(ledger.agg, k)) + asked.volume
    ensures r !in {Issued, LeafFailed} ==> Aggregate(ledger.agg, k) == old(Aggregate(ledger.agg, k))
    ensures r in {QuotaForbidden, QuotaExceeded, EnvelopeUnverified} ==> ledger.agg == old(ledger.agg)
    ensures forall o :: o != k && k.epoch <= o.epoch ==> Aggregate(ledger.agg, o) == old(Aggregate(ledger.agg, o))
  {
    if granted.None? { return QuotaForbidden; }
    if asked.volume > granted.value.volume || asked.window > granted.value.window { return QuotaExceeded; }
    if rule.None? { return EnvelopeUnverified; }
    var total := ReserveFor(ledger, k, asked.volume);
    if total.None? { return LedgerRefused; }
    r := AskAndSign(ledger, k, asked.volume, total.value, rule.value, signed, leafOk);
  }

  /** The reservation, as the request sees it. */
  method ReserveFor(ledger: EnvelopeLedger, k: Key, volume: nat) returns (total: Option<nat>)
    requires volume <= MAX_U64
    modifies ledger
    ensures total.Some? <==> old(Reservable(ledger, k, volume))
    ensures total.Some? ==> total.value == old(Aggregate(ledger.agg, k)) + volume == Aggregate(ledger.agg, k)
    ensures total.None? ==> Aggregate(ledger.agg, k) == old(Aggregate(ledger.agg, k))
    ensures forall o :: o != k && k.epoch <= o.epoch ==> Aggregate(ledger.agg, o) == old(Aggregate(ledger.agg, o))
  {
    ReserveExactly(ledger.max, ledger.Abs(), k, volume, k);
    var r := ledger.Reserve(k, volume);
    total := if r.Ok? then Some(r.value) else None;
  }

  /** What follows a reservation: the rule, the signature and the leaf. */
  method AskAndSign(ledger: EnvelopeLedger, k: Key, volume: nat, total: nat, rule: (Key, nat) -> bool, signed: bool,
                    leafOk: bool) returns (r: Passport)
    requires volume <= total == Aggregate(ledger.agg, k)
    modifies ledger
    ensures r == if !rule(k, total) then RuleDenied else if !signed then SigningFailed
                 else if !leafOk then LeafFailed else Issued
    ensures Aggregate(ledger.agg, k) == if r in {Issued, LeafFailed} then total else total - volume
    ensures forall o :: o != k ==> Aggregate(ledger.agg, o) == old(Aggregate(ledger.agg, o))
  {
    if !rule(k, total) {
      ledger.Release(k, volume);
      return RuleDenied;
    }
    if !signed {
      ledger.Release(k, volume);
      return SigningFailed;
    }
    r := if leafOk then Issued else LeafFailed;
  }

  // ---------------------------------------------------------------------------------------------
  // Many requests, interleaved
  // ---------------------------------------------------------------------------------------------

  /** A reservation that has not been given back: waiting for the rule, allowed by it, or kept for good. */
  datatype Phase = Waiting | Allowed | Kept
  datatype Hold = Hold(key: Key, volume: nat, total: nat, phase: Phase)

  /** The holds stand in the order in which they were reserved. */
  datatype World = World(ledger: Ledger, holds: seq<Hold>)

  datatype Event =
    | Reserve(key: Key, volume: nat)
    | RuleAnswer(i: nat, allow: bool)
    | Signing(i: nat, ok: bool)

  const START := World(Ledger(map[], false), [])

  function Drop(w: World, i: nat): World
    requires i < |w.holds|
  {
    World(ReleaseSpec(w.ledger, w.holds[i].key, w.holds[i].volume), w.holds[..i] + w.holds[i + 1..])
  }

  /** An event that does not fit the state is ignored. */
  function Step(max: nat, w: World, e: Event): World {
    match e
    case Reserve(k, volume) =>
      var (l, r) := ReserveSpec(max, w.ledger, k, volume);
      (match r
       case Ok(total) => World(l, w.holds + [Hold(k, volume, total, Waiting)])
       case Err(_) => w.(ledger := l))
    case RuleAnswer(i, allow) =>
      if i >= |w.holds| || w.holds[i].phase != Waiting then w
      else if allow then w.(holds := w.holds[i := w.holds[i].(phase := Allowed)])
      else Drop(w, i)
    case Signing(i, ok) =>
      if i >= |w.holds| || w.holds[i].phase != Allowed then w
      else if ok then w.(holds := w.holds[i := w.holds[i].(phase := Kept)])
      else Drop(w, i)
  }

  function After(max: nat, evs: seq<Event>): World {
    if evs == [] then START else Step(max, After(max, evs[..|evs| - 1]), evs[|evs| - 1])
  }

  /** If the event is the rule allowing a request for `k`, the total it was shown is within `cap`. */
  ghost predicate AnswerWithin(w: World, e: Event, k: Key, cap: nat) {
    e.RuleAnswer? && e.allow && e.i < |w.holds| && w.holds[e.i].key == k ==> w.holds[e.i].total <= cap
  }

  /** The rule allows a request for `k` only when the total it is shown is within `cap`. */
  ghost predicate AnswerAt(max: nat, evs: seq<Event>, n: nat, k: Key, cap: nat)
    requires n < |evs|
  {
    AnswerWithin(After(max, evs[..n]), evs[n], k, cap)
  }

  ghost predicate RuleCaps(max: nat, evs: seq<Event>, k: Key, cap: nat) {
    forall n {:trigger AnswerAt(max, evs, n, k, cap)} :: 0 <= n < |evs| ==> AnswerAt(max, evs, n, k, cap)
  }

  ghost predicate LaterReserve(e: Event, k: Key) { e.Reserve? && k.epoch < e.key.epoch }

  /** A later epoch has been reserved. */
  ghost predicate Late(evs: seq<Event>, k: Key) { exists n :: 0 <= n < |evs| && LaterReserve(evs[n], k) }

  /** No request for `k` reserves once a later epoch has been reserved; those in flight may still finish. */
  ghost predicate NoStaleReserve(evs: seq<Event>, k: Key) {
    forall m, n :: 0 <= m < n < |evs| && LaterReserve(evs[m], k) ==> !(evs[n].Reserve? && evs[n].key == k)
  }

  function Held(holds: seq<Hold>, k: Key): nat {
    if holds == [] then 0
    else Held(holds[..|holds| - 1], k) + (if holds[|holds| - 1].key == k then holds[|holds| - 1].volume else 0)
  }

  /** The volume of the holds the rule has allowed, signed or about to be. */
  function Granted(holds: seq<Hold>, k: Key): nat {
    if holds == [] then 0
    else Granted(holds[..|holds| - 1], k) +
         (if holds[|holds| - 1].key == k && holds[|holds| - 1].phase != Waiting then holds[|holds| - 1].volume else 0)
  }

  lemma {:induction false} HeldConcat(a: seq<Hold>, b: seq<Hold>, k: Key)
    ensures Held(a + b, k) == Held(a, k) + Held(b, k)
  {
    if b == [] {
      assert a + b == a;
    } else {
      HeldConcat(a, b[..|b| - 1], k);
      assert (a + b)[..|a + b| - 1] == a + b[..|b| - 1];
    }
  }

  lemma HeldOne(h: Hold, k: Key)
    ensures Held([h], k) == if h.key == k then h.volume else 0
  {
    assert [h][..0] == [];
  }

  lemma HeldSplit(holds: seq<Hold>, i: nat, k: Key)
    requires i < |holds|
    ensures Held(holds, k) == Held(holds[..i], k) + (if holds[i].key == k then holds[i].volume else 0) +
            Held(holds[i + 1..], k)
  {
    assert holds == holds[..i] + ([holds[i]] + holds[i + 1..]);
    HeldConcat(holds[..i], [holds[i]] + holds[i + 1..], k);
    HeldConcat([holds[i]], holds[i + 1..], k);
    HeldOne(holds[i], k);
  }

  /** Every hold was shown a total that covers itself and all older holds still standing. */
  ghost predicate Covered(holds: seq<Hold>, k: Key) {
    forall i :: 0 <= i < |holds| && holds[i].key == k ==> Held(holds[..i + 1], k) <= holds[i].total
  }

  /** Nothing was allowed beyond the cap. */
  ghost predicate WithinCap(holds: seq<Hold>, k: Key, cap: nat) {
    forall i :: 0 <= i < |holds| && holds[i].key == k && holds[i].phase != Waiting ==> holds[i].total <= cap
  }

  /** The aggregate is exact until a later epoch purges it; what the holders were shown stays true for ever. */
  ghost predicate Inv(w: World, k: Key, cap: nat, late: bool) {
    && (late || Aggregate(w.ledger.agg, k) == Held(w.holds, k))
    && Covered(w.holds, k)
    && WithinCap(w.holds, k, cap)
  }

  lemma CoveredDrop(holds: seq<Hold>, i: nat, k: Key)
    requires i < |holds| && Covered(holds, k)
    ensures Covered(holds[..i] + holds[i + 1..], k)
  {
    var rest := holds[..i] + holds[i + 1..];
    forall j | 0 <= j < |rest| && rest[j].key == k ensures Held(rest[..j + 1], k) <= rest[j].total {
      if j < i {
        assert rest[..j + 1] == holds[..j + 1];
      } else {
        var front := holds[..j + 2];
        assert front[..i] == holds[..i] && rest[..j + 1] == front[..i] + front[i + 1..];
        HeldSplit(front, i, k);
        HeldConcat(front[..i], front[i + 1..], k);
      }
    }
  }

  lemma DropKeeps(w: World, i: nat, k: Key, cap: nat, late: bool)
    requires Inv(w, k, cap, late) && i < |w.holds|
    ensures Inv(Drop(w, i), k, cap, late)
  {
    HeldSplit(w.holds, i, k);
    HeldConcat(w.holds[..i], w.holds[i + 1..], k);
    CoveredDrop(w.holds, i, k);
  }

  lemma MarkedHeld(holds: seq<Hold>, i: nat, phase: Phase, n: nat, k: Key)
    requires i < |holds| && n <= |holds|
    ensures Held(holds[i := holds[i].(phase := phase)][..n], k) == Held(holds[..n], k)
  {
    SameHeld(holds[i := holds[i].(phase := phase)][..n], holds[..n], k);
  }

  lemma MarkedCovered(holds: seq<Hold>, i: nat, phase: Phase, k: Key)
    requires i < |holds| && Covered(holds, k)
    ensures Covered(holds[i := holds[i].(phase := phase)], k)
  {
    var h := holds[i := holds[i].(phase := phase)];
    forall n | 0 <= n < |h| && h[n].key == k ensures Held(h[..n + 1], k) <= h[n].total {
      MarkedHeld(holds, i, phase, n + 1, k);
      assert holds[n].key == k && holds[n].total == h[n].total;
    }
  }

  lemma MarkKeeps(w: World, i: nat, phase: Phase, k: Key, cap: nat, late: bool)
    requires Inv(w, k, cap, late) && i < |w.holds| && (w.holds[i].key == k ==> w.holds[i].total <= cap)
    ensures Inv(w.(holds := w.holds[i := w.holds[i].(phase := phase)]), k, cap, late)
  {
    var h := w.holds[i := w.holds[i].(phase := phase)];
    MarkedHeld(w.holds, i, phase, |h|, k);
    assert h[..|h|] == h && w.holds[..|h|] == w.holds;
    MarkedCovered(w.holds, i, phase, k);
  }

  lemma {:induction false} SameHeld(a: seq<Hold>, b: seq<Hold>, k: Key)
    requires |a| == |b| && forall i :: 0 <= i < |a| ==> a[i].key == b[i].key && a[i].volume == b[i].volume
    ensures Held(a, k) == Held(b, k)
  {
    if a != [] { SameHeld(a[..|a| - 1], b[..|b| - 1], k); }
  }

  /** What a reservation does to the aggregate of `k`, unless it is for a later epoch. */
  lemma ReserveAggregate(max: nat, l: Ledger, key: Key, volume: nat, k: Key)
    requires key.epoch <= k.epoch
    ensures var (l', r) := ReserveSpec(max, l, key, volume);
            && Aggregate(l'.agg, k) == Aggregate(l.agg, k) + (if key == k && r.Ok? then volume else 0)
            && (key == k && r.Ok? ==> r.value == Aggregate(l.agg, k) + volume)
  {
  }

  lemma CoveredSnoc(holds: seq<Hold>, h: Hold, k: Key)
    requires Covered(holds, k) && (h.key == k ==> Held(holds, k) + h.volume <= h.total)
    ensures Covered(holds + [h], k)
  {
    var all := holds + [h];
    forall i | 0 <= i < |all| && all[i].key == k ensures Held(all[..i + 1], k) <= all[i].total {
      if i < |holds| {
        assert all[..i + 1] == holds[..i + 1];
      } else {
        assert all[..i + 1] == all;
        HeldConcat(holds, [h], k);
        HeldOne(h, k);
      }
    }
  }

  lemma SnocKeeps(holds: seq<Hold>, h: Hold, k: Key, cap: nat)
    requires Covered(holds, k) && WithinCap(holds, k, cap)
    requires h.phase == Waiting && (h.key == k ==> Held(holds, k) + h.volume <= h.total)
    ensures Covered(holds + [h], k) && WithinCap(holds + [h], k, cap)
    ensures Held(holds + [h], k) == Held(holds, k) + (if h.key == k then h.volume else 0)
  {
    CoveredSnoc(holds, h, k);
    HeldConcat(holds, [h], k);
    HeldOne(h, k);
  }

  lemma ReserveKeeps(max: nat, w: World, key: Key, volume: nat, k: Key, cap: nat, late: bool)
    requires Inv(w, k, cap, late) && (key == k ==> !late)
    ensures Inv(Step(max, w, Reserve(key, volume)), k, cap, late || k.epoch < key.epoch)
  {
    var (l, r) := ReserveSpec(max, w.ledger, key, volume);
    if key.epoch <= k.epoch { ReserveAggregate(max, w.ledger, key, volume, k); }
    if r.Ok? { SnocKeeps(w.holds, Hold(key, volume, r.value, Waiting), k, cap); }
  }

  lemma LateSnoc(evs: seq<Event>, k: Key)
    requires evs != []
    ensures Late(evs, k) <==> Late(evs[..|evs| - 1], k) || LaterReserve(evs[|evs| - 1], k)
  {
    var front := evs[..|evs| - 1];
    if n :| 0 <= n < |evs| && LaterReserve(evs[n], k) && n < |front| { assert front[n] == evs[n]; }
    if n :| 0 <= n < |front| && LaterReserve(front[n], k) { assert evs[n] == front[n]; }
  }

  lemma StaleSnoc(evs: seq<Event>, k: Key)
    requires evs != [] && NoStaleReserve(evs, k)
    ensures NoStaleReserve(evs[..|evs| - 1], k)
    ensures evs[|evs| - 1].Reserve? && evs[|evs| - 1].key == k ==> !Late(evs[..|evs| - 1], k)
  {
    var front := evs[..|evs| - 1];
    assert forall n :: 0 <= n < |front| ==> front[n] == evs[n];
  }

  lemma RuleCapsSnoc(max: nat, evs: seq<Event>, k: Key, cap: nat)
    requires evs != []
    ensures var front := evs[..|evs| - 1];
            RuleCaps(max, evs, k, cap) <==> RuleCaps(max, front, k, cap)
                                            && AnswerWithin(After(max, front), evs[|evs| - 1], k, cap)
  {
    var front := evs[..|evs| - 1];
    forall n | 0 <= n < |front| ensures AnswerAt(max, front, n, k, cap) <==> AnswerAt(max, evs, n, k, cap) {
      assert front[n] == evs[n] && front[..n] == evs[..n];
    }
    assert AnswerAt(max, evs, |front|, k, cap) <==> AnswerWithin(After(max, front), evs[|front|], k, cap);
  }

  lemma StepKeeps(max: nat, w: World, e: Event, k: Key, cap: nat, late: bool)
    requires Inv(w, k, cap, late) && AnswerWithin(w, e, k, cap) && (e.Reserve? && e.key == k ==> !late)
    ensures Inv(Step(max, w, e), k, cap, late || LaterReserve(e, k))
  {
    match e {
      case Reserve(key, volume) => ReserveKeeps(max, w, key, volume, k, cap, late);
      case RuleAnswer(i, allow) =>
        if i < |w.holds| && w.holds[i].phase == Waiting {
          if allow { MarkKeeps(w, i, Allowed, k, cap, late); } else { DropKeeps(w, i, k, cap, late); }
        }
      case Signing(i, ok) =>
        if i < |w.holds| && w.holds[i].phase == Allowed {
          if ok { MarkKeeps(w, i, Kept, k, cap, late); } else { DropKeeps(w, i, k, cap, late); }
        }
    }
  }

  /** Along every interleaving in which no request of the old epoch comes late. */
  lemma {:induction false} InvHolds(max: nat, evs: seq<Event>, k: Key, cap: nat)
    requires NoStaleReserve(evs, k) && RuleCaps(max, evs, k, cap)
    ensures Inv(After(max, evs), k, cap, Late(evs, k))
  {
    if evs != [] {
      var front, e := evs[..|evs| - 1], evs[|evs| - 1];
      StaleSnoc(evs, k);
      RuleCapsSnoc(max, evs, k, cap);
      LateSnoc(evs, k);
      InvHolds(max, front, k, cap);
      StepKeeps(max, After(max, front), e, k, cap, Late(front, k));
    }
  }

  lemma {:induction false} GrantedWithinHeld(holds: seq<Hold>, k: Key)
    ensures Granted(holds, k) <= Held(holds, k)
  {
    if holds != [] { GrantedWithinHeld(holds[..|holds| - 1], k); }
  }

  lemma {:induction false} GrantedWithinCap(holds: seq<Hold>, k: Key, cap: nat)
    requires Covered(holds, k) && WithinCap(holds, k, cap)
    ensures Granted(holds, k) <= cap
  {
    if holds != [] {
      var front, h := holds[..|holds| - 1], holds[|holds| - 1];
      if h.key == k && h.phase != Waiting {
        GrantedWithinHeld(holds, k);
        assert holds[..|holds|] == holds;
      } else {
        forall i | 0 <= i < |front| && front[i].key == k ensures Held(front[..i + 1], k) <= front[i].total {
          assert front[..i + 1] == holds[..i + 1] && front[i] == holds[i];
        }
        GrantedWithinCap(front, k, cap);
      }
    }
  }

  /**
    No over-issue.  However the requests interleave, and also while those of an old epoch finish under a
    new one, the passports granted for (subject, epoch) never sum above the cap.  Until a later epoch is
    reserved, the ledger shows exactly what is kept or in flight.
  */
  lemma NoOverIssue(max: nat, evs: seq<Event>, k: Key, cap: nat)
    requires NoStaleReserve(evs, k) && RuleCaps(max, evs, k, cap)
    ensures var w := After(max, evs);
            Granted(w.holds, k) <= cap && (!Late(evs, k) ==> Aggregate(w.ledger.agg, k) == Held(w.holds, k))
  {
    InvHolds(max, evs, k, cap);
    GrantedWithinCap(After(max, evs).holds, k, cap);
  }

  /** No aggregate ever wraps around, and the ledger never outgrows its bound. */
  lemma {:induction false} LedgerBounded(max: nat, evs: seq<Event>)
    ensures var agg := After(max, evs).ledger.agg; |agg| <= max && forall k :: k in agg ==> agg[k] <= MAX_U64
  {
    if evs != [] {
      LedgerBounded(max, evs[..|evs| - 1]);
      var w, e := After(max, evs[..|evs| - 1]), evs[|evs| - 1];
      if e.Reserve? {
        PurgeShrinks(w.ledger.agg, e.key.epoch);
      } else if e.i < |w.holds| {
        ReleaseShrinks(w.ledger, w.holds[e.i].key, w.holds[e.i].volume);
      }
    }
  }

  lemma PurgeShrinks(agg: map<Key, nat>, epoch: nat)
    ensures |Purge(agg, epoch)| <= |agg|
  {
    SubsetSize(Purge(agg, epoch).Keys, agg.Keys);
  }

  lemma ReleaseShrinks(l: Ledger, k: Key, volume: nat)
    ensures |ReleaseSpec(l, k, volume).agg| <= |l.agg|
  {
    SubsetSize(ReleaseSpec(l, k, volume).agg.Keys, l.agg.Keys);
  }

  lemma {:induction false} SubsetSize<T>(a: set<T>, b: set<T>)
    requires a <= b
    ensures |a| <= |b|
  {
    assert b == a + (b - a);
  }

  // ---------------------------------------------------------------------------------------------
  // The condition is needed
  // ---------------------------------------------------------------------------------------------

  lemma AfterSnoc(max: nat, evs: seq<Event>, e: Event)
    ensures After(max, evs + [e]) == Step(max, After(max, evs), e)
  {
    assert (evs + [e])[..|evs|] == evs;
  }

  lemma {:induction false} GrantedConcat(a: seq<Hold>, b: seq<Hold>, k: Key)
    ensures Granted(a + b, k) == Granted(a, k) + Granted(b, k)
  {
    if b == [] {
      assert a + b == a;
    } else {
      GrantedConcat(a, b[..|b| - 1], k);
      assert (a + b)[..|a + b| - 1] == a + b[..|b| - 1];
    }
  }

  lemma GrantedOne(h: Hold, k: Key)
    ensures Granted([h], k) == if h.key == k && h.phase != Waiting then h.volume else 0
  {
    assert [h][..0] == [];
  }

  /** A run of the rule's own choosing: it still allows nothing beyond the cap. */
  lemma RuleCapsMore(max: nat, evs: seq<Event>, e: Event, k: Key, cap: nat)
    requires RuleCaps(max, evs, k, cap) && AnswerWithin(After(max, evs), e, k, cap)
    ensures RuleCaps(max, evs + [e], k, cap)
  {
    assert (evs + [e])[..|evs|] == evs;
    RuleCapsSnoc(max, evs + [e], k, cap);
  }

  /** A request that meets an empty aggregate is shown its own volume. */
  lemma ReserveFromZero(max: nat, w: World, k: Key, volume: nat)
    requires volume <= MAX_U64 && k !in w.ledger.agg && |w.ledger.agg| < max
    ensures Step(max, w, Reserve(k, volume)).holds == w.holds + [Hold(k, volume, volume, Waiting)]
  {
    PurgeShrinks(w.ledger.agg, k.epoch);
  }

  lemma AllowAndSign(max: nat, w: World, holds: seq<Hold>, h: Hold)
    requires w.holds == holds + [h] && h.phase == Waiting
    ensures var w1 := Step(max, w, RuleAnswer(|holds|, true));
            && w1.holds == holds + [h.(phase := Allowed)]
            && Step(max, w1, Signing(|holds|, true)).holds == holds + [h.(phase := Kept)]
  {
  }

  /** From an empty aggregate, the full cap is granted once more. */
  lemma GrantFromZero(max: nat, evs: seq<Event>, k: Key, cap: nat) returns (more: seq<Event>)
    requires RuleCaps(max, evs, k, cap) && cap <= MAX_U64
    requires k !in After(max, evs).ledger.agg && |After(max, evs).ledger.agg| < max
    ensures var n := |After(max, evs).holds|;
            more == evs + [Reserve(k, cap)] + [RuleAnswer(n, true)] + [Signing(n, true)]
    ensures RuleCaps(max, more, k, cap)
    ensures Granted(After(max, more).holds, k) == Granted(After(max, evs).holds, k) + cap
  {
    var w := After(max, evs);
    var n, h := |w.holds|, Hold(k, cap, cap, Waiting);
    var evs1 := evs + [Reserve(k, cap)];
    var evs2 := evs1 + [RuleAnswer(n, true)];
    ReserveFromZero(max, w, k, cap);
    AfterSnoc(max, evs, Reserve(k, cap));
    RuleCapsMore(max, evs, Reserve(k, cap), k, cap);
    AllowAndSign(max, After(max, evs1), w.holds, h);
    AfterSnoc(max, evs1, RuleAnswer(n, true));
    RuleCapsMore(max, evs1, RuleAnswer(n, true), k, cap);
    AfterSnoc(max, evs2, Signing(n, true));
    RuleCapsMore(max, evs2, Signing(n, true), k, cap);
    GrantedConcat(w.holds, [h.(phase := Kept)], k);
    GrantedOne(h.(phase := Kept), k);
    more := evs2 + [Signing(n, true)];
  }

  /** Reserving nothing under a later epoch clears the aggregate of `k`. */
  lemma LaterReserveClears(max: nat, w: World, k: Key, later: Key)
    requires k.epoch < later.epoch && k in w.ledger.agg && |w.ledger.agg| < max
    requires forall o :: o in w.ledger.agg ==> w.ledger.agg[o] <= MAX_U64
    ensures var w' := Step(max, w, Reserve(later, 0));
            && k !in w'.ledger.agg && |w'.ledger.agg| < max
            && Granted(w'.holds, k) == Granted(w.holds, k)
  {
    var agg := Purge(w.ledger.agg, later.epoch);
    assert agg.Keys <= w.ledger.agg.Keys - {k};
    SubsetSize(agg.Keys, w.ledger.agg.Keys - {k});
    assert |agg[later := Aggregate(agg, later)].Keys| <= |agg.Keys + {later}| <= |agg| + 1;
    var h := Hold(later, 0, Aggregate(agg, later), Waiting);
    GrantedConcat(w.holds, [h], k);
    GrantedOne(h, k);
  }

  /** The run, prolonged by nothing or by one more reservation of the later epoch, so that `k` starts from zero. */
  lemma StartOver(max: nat, evs: seq<Event>, k: Key, later: Key, cap: nat) returns (start: seq<Event>)
    requires RuleCaps(max, evs, k, cap) && k.epoch < later.epoch && |After(max, evs).ledger.agg| < max
    ensures evs <= start && RuleCaps(max, start, k, cap)
    ensures k !in After(max, start).ledger.agg && |After(max, start).ledger.agg| < max
    ensures Granted(After(max, start).holds, k) == Granted(After(max, evs).holds, k)
  {
    start := evs;
    if k in After(max, evs).ledger.agg {
      LedgerBounded(max, evs);
      LaterReserveClears(max, After(max, evs), k, later);
      start := evs + [Reserve(later, 0)];
      AfterSnoc(max, evs, Reserve(later, 0));
      RuleCapsMore(max, evs, Reserve(later, 0), k, cap);
    }
  }

  /**
    The converse.  In every reachable state in which a later epoch has been reserved and the ledger is not
    full, requests that still carry the old epoch can be granted the whole cap again: if anything of `k`
    had been granted before, the cap is exceeded although the rule never allowed a total beyond it.
  */
  lemma StaleReserveOverIssues(max: nat, evs: seq<Event>, k: Key, cap: nat) returns (more: seq<Event>)
    requires RuleCaps(max, evs, k, cap) && Late(evs, k) && cap <= MAX_U64 && |After(max, evs).ledger.agg| < max
    ensures evs <= more && RuleCaps(max, more, k, cap)
    ensures Granted(After(max, more).holds, k) == Granted(After(max, evs).holds, k) + cap
  {
    var m :| 0 <= m < |evs| && LaterReserve(evs[m], k);
    var start := StartOver(max, evs, k, evs[m].key, cap);
    more := GrantFromZero(max, start, k, cap);
  }

  /** From nothing: grant the cap, reserve in any later epoch, and twice the cap gets granted. */
  lemma LaterEpochForgets(max: nat, k: Key, later: Key, cap: nat) returns (evs: seq<Event>)
    requires max >= 2 && cap <= MAX_U64 && k.epoch < later.epoch
    ensures RuleCaps(max, evs, k, cap) && Granted(After(max, evs).holds, k) == 2 * cap
  {
    var first := GrantFromZero(max, [], k, cap);
    FirstLedger(max, k, cap, first);
    var start := StartOver(max, first, k, later, cap);
    evs := GrantFromZero(max, start, k, cap);
  }

  lemma FirstLedger(max: nat, k: Key, cap: nat, evs: seq<Event>)
    requires max >= 2 && cap <= MAX_U64 && evs == [Reserve(k, cap), RuleAnswer(0, true), Signing(0, true)]
    ensures After(max, evs).ledger.agg == map[k := cap]
  {
    assert evs == [] + [Reserve(k, cap)] + [RuleAnswer(0, true)] + [Signing(0, true)];
    AfterSnoc(max, [], Reserve(k, cap));
    AfterSnoc(max, [Reserve(k, cap)], RuleAnswer(0, true));
    AfterSnoc(max, [Reserve(k, cap), RuleAnswer(0, true)], Signing(0, true));
    assert Purge(map[], k.epoch) == map[];
  }
}
