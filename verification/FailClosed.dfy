/**
  The fail-closed latch: the one place that decides "refuse now", with its governed release (quorum,
  class W) and the bounded automatic recovery of the other conditions.
*/
module FailClosed {
  import opened Basics
  import Lex

  const SECOND := 1_000_000_000
  const FLAP_WINDOW := 60 * SECOND
  const MAX_FACTOR := 8

  /** Names are byte strings, compared the way Go sorts them. */
  type Name = seq<int>
  datatype Class = F | I | W | Out
  datatype Condition = Condition(class_: Class, tripped: bool, since: int, detail: string)
  /** Signatures are opaque; `expiry` is in nanoseconds. */
  datatype Proof = Proof(expiry: int, signatures: string)
  type Verifier = (Name, Proof) -> bool

  /** `floors` is the persistent state of the quorum store; both hooks may be missing. */
  datatype Latch = Latch(conds: map<Name, Condition>, verifier: Option<Verifier>, floors: Option<map<Name, int>>)

  datatype Release =
    | Cleared | Unknown | NotTripped | VerifierMissing | Rejected | StateMissing | StateError | QuorumReplayed
    | NeedsQuorum

  datatype Refusal = Refusal(reason: Name, since: int, detail: string)

  /** What happens to the file that holds the floors when a release consults it. */
  datatype Disk = Fine | Unreadable | Unwritable

  // ---------------------------------------------------------------------------------------------
  // Specification of the locked sections
  // ---------------------------------------------------------------------------------------------

  function RegisterSpec(l: Latch, name: Name, c: Class): (Latch, bool) {
    if name in l.conds then (l, l.conds[name].class_ == c)
    else (l.(conds := l.conds[name := Condition(c, false, 0, "")]), true)
  }

  /** An unknown condition is registered in the class that is hardest to release. */
  function TripSpec(l: Latch, name: Name, detail: string, now: int): Latch {
    var c := if name in l.conds then l.conds[name].class_ else W;
    if name in l.conds && l.conds[name].tripped then l
    else l.(conds := l.conds[name := Condition(c, true, now, detail)])
  }

  predicate IsTripped(l: Latch, name: Name) { name in l.conds && l.conds[name].tripped }

  function Lift(l: Latch, name: Name): Latch
    requires name in l.conds
  {
    l.(conds := l.conds[name := Condition(l.conds[name].class_, false, 0, "")])
  }

  /** The persistent floor of a condition only moves up. */
  function ClearSpec(l: Latch, name: Name, proof: Proof, disk: Disk): (Latch, Release) {
    if name !in l.conds then (l, Unknown)
    else if !l.conds[name].tripped then (l, NotTripped)
    else if l.conds[name].class_ != W then (Lift(l, name), Cleared)
    else if l.verifier.None? then (l, VerifierMissing)
    else if !l.verifier.value(name, proof) then (l, Rejected)
    else if l.floors.None? then (l, StateMissing)
    else if disk == Unreadable then (l, StateError)
    else if name in l.floors.value && proof.expiry / SECOND <= l.floors.value[name] then (l, QuorumReplayed)
    else if disk == Unwritable then (l, StateError)
    else (Lift(l.(floors := Some(l.floors.value[name := proof.expiry / SECOND])), name), Cleared)
  }

  function AutoClearSpec(l: Latch, name: Name): (Latch, Release) {
    if name !in l.conds then (l, Unknown)
    else if !l.conds[name].tripped then (l, NotTripped)
    else if l.conds[name].class_ == W then (l, NeedsQuorum)
    else (Lift(l, name), Cleared)
  }

  /** The refusal names the lexicographically first tripped condition. */
  ghost predicate FirstTripped(l: Latch, name: Name) {
    IsTripped(l, name) && forall o :: IsTripped(l, o) && o != name ==> Lex.Less(name, o)
  }

  class Latched {
    var conds: map<Name, Condition>
    var verifier: Option<Verifier>
    var floors: Option<map<Name, int>>

    ghost function Abs(): Latch reads this { Latch(conds, verifier, floors) }

    constructor (v: Option<Verifier>, f: Option<map<Name, int>>)
      ensures Abs() == Latch(map[], v, f)
    {
      conds := map[];
      verifier := v;
      floors := f;
    }

    method Register(name: Name, c: Class) returns (ok: bool)
      modifies this`conds
      ensures (Abs(), ok) == RegisterSpec(old(Abs()), name, c)
    {
      if name in conds { return conds[name].class_ == c; }
      conds := conds[name := Condition(c, false, 0, "")];
      ok := true;
    }

    method Trip(name: Name, detail: string, now: int)
      modifies this`conds
      ensures Abs() == TripSpec(old(Abs()), name, detail, now)
    {
      if name !in conds { conds := conds[name := Condition(W, false, 0, "")]; }
      if conds[name].tripped { return; }
      conds := conds[name := conds[name].(tripped := true, since := now, detail := detail)];
    }

    /** Refuses exactly when something is tripped, whatever order the conditions are looked at. */
    method Gate() returns (r: Option<Refusal>)
      ensures r.None? <==> forall n :: !IsTripped(Abs(), n)
      ensures r.Some? ==> FirstTripped(Abs(), r.value.reason)
      ensures r.Some? ==> r.value.since == conds[r.value.reason].since && r.value.detail == conds[r.value.reason].detail
    {
      var todo := set n | n in conds && conds[n].tripped;
      assert forall n :: IsTripped(Abs(), n) ==> n in todo;
      if todo == {} { return None; }
      var best :| best in todo;
      todo := todo - {best};
      while todo != {}
        invariant IsTripped(Abs(), best) && best !in todo
        invariant forall n :: n in todo ==> IsTripped(Abs(), n)
        invariant forall n :: IsTripped(Abs(), n) && n !in todo && n != best ==> Lex.Less(best, n)
        decreases |todo|
      {
        var n :| n in todo;
        todo := todo - {n};
        Lex.LessTotal(best, n);
        if Lex.Less(n, best) {
          forall o | Lex.Less(best, o) ensures Lex.Less(n, o) { Lex.LessTransitive(n, best, o); }
          best := n;
        }
      }
      r := Some(Refusal(best, conds[best].since, conds[best].detail));
    }

    method Clear(name: Name, proof: Proof, disk: Disk) returns (r: Release)
      modifies this
      ensures (Abs(), r) == ClearSpec(old(Abs()), name, proof, disk)
    {
      if name !in conds { return Unknown; }
      var c := conds[name];
      if !c.tripped { return NotTripped; }
      if c.class_ == W {
        if verifier.None? { return VerifierMissing; }
        if !verifier.value(name, proof) { return Rejected; }
        if floors.None? { return StateMissing; }
        if disk == Unreadable { return StateError; }
        var second := proof.expiry / SECOND;
        if name in floors.value && second <= floors.value[name] { return QuorumReplayed; }
        if disk == Unwritable { return StateError; }
        floors := Some(floors.value[name := second]);
      }
      conds := conds[name := c.(tripped := false, since := 0, detail := "")];
      r := Cleared;
    }

    method AutoClear(name: Name) returns (r: Release)
      modifies this`conds
      ensures (Abs(), r) == AutoClearSpec(old(Abs()), name)
    {
      if name !in conds { return Unknown; }
      var c := conds[name];
      if !c.tripped { return NotTripped; }
      if c.class_ == W { return NeedsQuorum; }
      conds := conds[name := c.(tripped := false, since := 0, detail := "")];
      r := Cleared;
    }
  }

  /** Declaring a condition moves no other one and trips nothing; it fails exactly on a change of class. */
  lemma RegisterKeepsTrips(l: Latch, name: Name, c: Class, other: Name)
    ensures var (l', ok) := RegisterSpec(l, name, c);
            && (IsTripped(l', other) <==> IsTripped(l, other))
            && (other in l.conds ==> other in l'.conds && l'.conds[other] == l.conds[other])
            && name in l'.conds && (ok <==> l'.conds[name].class_ == c)
            && RegisterSpec(l', name, c) == (l', ok)
  {
  }

  /** An automatic clear releases exactly a tripped condition outside class W, and nothing else moves. */
  lemma AutoClearExactly(l: Latch, name: Name, other: Name)
    ensures var (l', r) := AutoClearSpec(l, name);
            && (r == Unknown <==> name !in l.conds)
            && (r == NotTripped <==> name in l.conds && !IsTripped(l, name))
            && (r == NeedsQuorum <==> IsTripped(l, name) && l.conds[name].class_ == W)
            && (r == Cleared <==> IsTripped(l, name) && l.conds[name].class_ != W)
            && (IsTripped(l', other) <==> IsTripped(l, other) && !(r == Cleared && other == name))
            && (other in l.conds && other != name ==> other in l'.conds && l'.conds[other] == l.conds[other])
            && (other in l.conds <==> other in l'.conds)
            && (other in l.conds ==> l'.conds[other].class_ == l.conds[other].class_)
            && l'.floors == l.floors && l'.verifier == l.verifier
  {
  }

  /** Tripping: the first diagnosis is kept, an undeclared condition gets class W, and nothing else moves. */
  lemma TripExactly(l: Latch, name: Name, detail: string, now: int, other: Name)
    ensures var l' := TripSpec(l, name, detail, now);
            && IsTripped(l', name) && (IsTripped(l, name) ==> l' == l)
            && (!IsTripped(l, name) ==> l'.conds[name].since == now && l'.conds[name].detail == detail)
            && l'.conds[name].class_ == (if name in l.conds then l.conds[name].class_ else W)
            && (other != name ==> (other in l'.conds <==> other in l.conds))
            && (other != name && other in l.conds ==> l'.conds[other] == l.conds[other])
            && l'.verifier == l.verifier && l'.floors == l.floors
  {
  }

  /** A tripped condition of class W, with a verifier that accepts the proof. */
  ghost predicate Accepted(l: Latch, name: Name, proof: Proof) {
    IsTripped(l, name) && l.conds[name].class_ == W && l.verifier.Some? && l.verifier.value(name, proof)
  }

  /** The proof expires in a later second than any that has released the condition. */
  predicate BeyondFloor(floors: map<Name, int>, name: Name, proof: Proof) {
    name in floors ==> floors[name] < proof.expiry / SECOND
  }

  /** A release, exactly: when it is granted, and why it is not. */
  lemma ClearExactly(l: Latch, name: Name, proof: Proof, disk: Disk)
    ensures var r := ClearSpec(l, name, proof, disk).1;
            && (r == Unknown <==> name !in l.conds)
            && (r == NotTripped <==> name in l.conds && !IsTripped(l, name))
            && (r == VerifierMissing <==> IsTripped(l, name) && l.conds[name].class_ == W && l.verifier.None?)
            && (r == Rejected <==>
                  IsTripped(l, name) && l.conds[name].class_ == W && l.verifier.Some? && !Accepted(l, name, proof))
            && (r == StateMissing <==> Accepted(l, name, proof) && l.floors.None?)
            && (r == QuorumReplayed <==>
                  && Accepted(l, name, proof) && l.floors.Some? && disk != Unreadable
                  && !BeyondFloor(l.floors.value, name, proof))
            && (r == StateError <==>
                  && Accepted(l, name, proof) && l.floors.Some?
                  && (disk == Unreadable || (disk == Unwritable && BeyondFloor(l.floors.value, name, proof))))
            && (r == Cleared <==>
                  || (IsTripped(l, name) && l.conds[name].class_ != W)
                  || (&& Accepted(l, name, proof) && l.floors.Some? && disk == Fine
                      && BeyondFloor(l.floors.value, name, proof)))
  {
  }

  /** What a release does: the condition is no longer tripped, its floor moves if it is of class W, and no more. */
  lemma ClearMeans(l: Latch, name: Name, proof: Proof, disk: Disk, other: Name)
    ensures var (l', r) := ClearSpec(l, name, proof, disk);
            && (r != Cleared ==> l' == l)
            && (r == Cleared ==>
                  name in l'.conds && !IsTripped(l', name) && l'.conds[name].class_ == l.conds[name].class_)
            && (other != name ==> (other in l'.conds <==> other in l.conds))
            && (other != name && other in l.conds ==> l'.conds[other] == l.conds[other])
            && l'.verifier == l.verifier && (l'.floors.Some? <==> l.floors.Some?)
            && (r == Cleared && l.conds[name].class_ == W ==>
                  name in l'.floors.value && l'.floors.value[name] == proof.expiry / SECOND)
            && (r == Cleared && l.conds[name].class_ != W ==> l'.floors == l.floors)
            && (other != name && l.floors.Some? ==> (other in l'.floors.value <==> other in l.floors.value))
            && (other != name && l.floors.Some? && other in l.floors.value ==>
                  l'.floors.value[other] == l.floors.value[other])
  {
  }

  // ---------------------------------------------------------------------------------------------
  // The automatic recovery
  // ---------------------------------------------------------------------------------------------

  datatype Recovery = Recovery(streak: nat, required: nat, engaged: bool, factor: nat, lastClear: Option<int>)

  const IDLE := Recovery(0, 0, false, 1, None)

  /** What a tick finds when it looks at the latch. */
  function Candidates(l: Latch, cands: set<Name>): set<Name> {
    set n | n in cands && n in l.conds && l.conds[n].tripped && l.conds[n].class_ != W
  }

  function NextFactor(a: Recovery, now: int): nat {
    if a.lastClear.Some? && now - a.lastClear.value < FLAP_WINDOW
    then if a.factor < MAX_FACTOR then 2 * a.factor else a.factor
    else 1
  }

  /** The section before the probe: starts a recovery cycle if there is something to recover. */
  function BeginSpec(probes: nat, a: Recovery, found: set<Name>, now: int): Recovery {
    if found == {} then a.(engaged := false, streak := 0)
    else if a.engaged then a
    else
      var f := NextFactor(a, now);
      a.(engaged := true, streak := 0, factor := f, required := probes * f)
  }

  /** The section after the probe: counts it, and says whether the release is due. */
  function ProbeSpec(a: Recovery, healthy: bool): (Recovery, bool) {
    if !healthy then (a.(streak := 0), false)
    else (a.(streak := a.streak + 1), a.streak + 1 >= a.required)
  }

  /** The end of that section, once the listed conditions have been released one by one. */
  function FinishSpec(a: Recovery, cleared: bool, now: int): Recovery {
    a.(engaged := false, streak := 0, lastClear := if cleared then Some(now) else a.lastClear)
  }

  /** Releases every listed condition that is still releasable. */
  function LiftAll(l: Latch, names: set<Name>): Latch {
    l.(conds := map n | n in l.conds ::
         if n in names && l.conds[n].tripped && l.conds[n].class_ != W then Condition(l.conds[n].class_, false, 0, "")
         else l.conds[n])
  }

  predicate AnyClears(l: Latch, names: set<Name>) {
    exists n :: n in names && AutoClearSpec(l, n).1 == Cleared
  }

  lemma ClearOneMore(l: Latch, names: set<Name>, n: Name)
    requires n !in names
    ensures AutoClearSpec(LiftAll(l, names), n).0 == LiftAll(l, names + {n})
    ensures AutoClearSpec(LiftAll(l, names), n).1 == AutoClearSpec(l, n).1
    ensures AnyClears(l, names + {n}) <==> AnyClears(l, names) || AutoClearSpec(l, n).1 == Cleared
  {
    assert AutoClearSpec(LiftAll(l, names), n).0.conds == LiftAll(l, names + {n}).conds;
    assert n in names + {n};
    assert forall m :: m in names ==> m in names + {n};
  }

  class AutoClearer {
    const latch: Latched
    const cands: set<Name>
    const probes: nat
    var state: Recovery

    constructor (latch: Latched, cands: set<Name>, probes: nat)
      requires probes > 0
      ensures this.latch == latch && this.cands == cands && this.probes == probes && state == IDLE
    {
      this.latch := latch;
      this.cands := cands;
      this.probes := probes;
      state := IDLE;
    }

    /** The list is taken under the latch's own lock. */
    method Look() returns (found: set<Name>)
      ensures found == Candidates(latch.Abs(), cands)
    {
      found := set n | n in cands && n in latch.conds && latch.conds[n].tripped && latch.conds[n].class_ != W;
    }

    method BeginTick(found: set<Name>, now: int)
      modifies this`state
      ensures state == BeginSpec(probes, old(state), found, now)
    {
      if found == {} {
        state := state.(engaged := false, streak := 0);
        return;
      }
      if !state.engaged {
        state := state.(engaged := true, streak := 0);
        if state.lastClear.Some? && now - state.lastClear.value < FLAP_WINDOW {
          if state.factor < MAX_FACTOR { state := state.(factor := state.factor * 2); }
        } else {
          state := state.(factor := 1);
        }
        state := state.(required := probes * state.factor);
      }
    }

    method CountProbe(healthy: bool) returns (due: bool)
      modifies this`state
      ensures (state, due) == ProbeSpec(old(state), healthy)
    {
      if !healthy {
        state := state.(streak := 0);
        return false;
      }
      state := state.(streak := state.streak + 1);
      due := state.streak >= state.required;
    }

    method ClearAll(names: set<Name>) returns (cleared: bool)
      modifies latch`conds
      ensures latch.Abs() == LiftAll(old(latch.Abs()), names)
      ensures cleared == AnyClears(old(latch.Abs()), names)
    {
      ghost var before := latch.Abs();
      cleared := false;
      var todo := names;
      assert latch.Abs() == LiftAll(before, names - todo);
      while todo != {}
        invariant todo <= names
        invariant latch.Abs() == LiftAll(before, names - todo)
        invariant cleared == AnyClears(before, names - todo)
        decreases |todo|
      {
        var n :| n in todo;
        ClearOneMore(before, names - todo, n);
        assert names - (todo - {n}) == (names - todo) + {n};
        var r := latch.AutoClear(n);
        if r == Cleared { cleared := true; }
        todo := todo - {n};
      }
      assert names - {} == names;
    }

    /** One whole pass when nothing interferes: `t1` and `t2` are the two readings of the clock. */
    method Tick(healthy: bool, t1: int, t2: int)
      modifies this`state, latch`conds
      ensures var found := Candidates(old(latch.Abs()), cands);
              var begun := BeginSpec(probes, old(state), found, t1);
              var (counted, due) := ProbeSpec(begun, healthy);
              if found == {} then latch.Abs() == old(latch.Abs()) && state == begun
              else if !due then latch.Abs() == old(latch.Abs()) && state == counted
              else latch.Abs() == LiftAll(old(latch.Abs()), found)
                   && state == FinishSpec(counted, AnyClears(old(latch.Abs()), found), t2)
    {
      var found := Look();
      BeginTick(found, t1);
      if found == {} { return; }
      var due := CountProbe(healthy);
      if !due { return; }
      var cleared := ClearAll(found);
      state := state.(engaged := false, streak := 0, lastClear := if cleared then Some(t2) else state.lastClear);
    }
  }

  // ---------------------------------------------------------------------------------------------
  // Runs
  // ---------------------------------------------------------------------------------------------

  datatype Setup = Setup(cands: set<Name>, probes: nat)

  /** How far the tick in progress has got; other calls may come between any two of its locked sections. */
  datatype Phase =
    | NoTick
    | Looked(found: set<Name>)
    | Probing(found: set<Name>)
    | Clearing(found: set<Name>, todo: set<Name>, cleared: bool)

  datatype World = World(latch: Latch, recovery: Recovery, phase: Phase)

  datatype Event =
    | RegisterCondition(name: Name, class_: Class)
    | TripCondition(name: Name, detail: string, now: int)
    | ClearCondition(name: Name, proof: Proof, disk: Disk)
    | AutoClearCondition(name: Name)
    | SetVerifier(verifier: Option<Verifier>)
    | SetFloors(floors: Option<map<Name, int>>)
    | Restart(verifier: Option<Verifier>)
    | TickLook
    | TickBegin(now: int)
    | TickProbe(healthy: bool)
    | TickRelease(name: Name)
    | TickFinish(now: int)

  /** An event that does not fit the state of the tick is ignored; only the floors outlive the process. */
  function Step(c: Setup, w: World, e: Event): World {
    match e
    case RegisterCondition(name, class_) => w.(latch := RegisterSpec(w.latch, name, class_).0)
    case TripCondition(name, detail, now) => w.(latch := TripSpec(w.latch, name, detail, now))
    case ClearCondition(name, proof, disk) => w.(latch := ClearSpec(w.latch, name, proof, disk).0)
    case AutoClearCondition(name) => w.(latch := AutoClearSpec(w.latch, name).0)
    case SetVerifier(v) => w.(latch := w.latch.(verifier := v))
    case SetFloors(f) => w.(latch := w.latch.(floors := f))
    case Restart(v) => World(Latch(map[], v, w.latch.floors), IDLE, NoTick)
    case TickLook => if w.phase.NoTick? then w.(phase := Looked(Candidates(w.latch, c.cands))) else w
    case TickBegin(now) =>
      if !w.phase.Looked? then w else
      w.(recovery := BeginSpec(c.probes, w.recovery, w.phase.found, now),
         phase := if w.phase.found == {} then NoTick else Probing(w.phase.found))
    case TickProbe(healthy) =>
      if !w.phase.Probing? then w else
      var (a, due) := ProbeSpec(w.recovery, healthy);
      w.(recovery := a, phase := if due then Clearing(w.phase.found, w.phase.found, false) else NoTick)
    case TickRelease(name) =>
      if !w.phase.Clearing? || name !in w.phase.todo then w else
      var (l, r) := AutoClearSpec(w.latch, name);
      w.(latch := l, phase := Clearing(w.phase.found, w.phase.todo - {name}, w.phase.cleared || r == Cleared))
    case TickFinish(now) =>
      if !w.phase.Clearing? || w.phase.todo != {} then w else
      w.(recovery := FinishSpec(w.recovery, w.phase.cleared, now), phase := NoTick)
  }

  function Run(c: Setup, w: World, evs: seq<Event>): World {
    if evs == [] then w else Step(c, Run(c, w, evs[..|evs| - 1]), evs[|evs| - 1])
  }

  /** The n-th event of the run releases `name` with a proof. */
  predicate Releases(c: Setup, w: World, evs: seq<Event>, n: nat, name: Name)
    requires n < |evs|
  {
    && evs[n].ClearCondition? && evs[n].name == name
    && ClearSpec(Run(c, w, evs[..n]).latch, name, evs[n].proof, evs[n].disk).1 == Cleared
  }

  predicate TrippedW(l: Latch, name: Name) { IsTripped(l, name) && l.conds[name].class_ == W }

  /** A condition nobody declared is class W from the moment it trips. */
  lemma UnknownTripsAsW(l: Latch, name: Name, detail: string, now: int)
    ensures IsTripped(TripSpec(l, name, detail, now), name)
    ensures name !in l.conds ==> TrippedW(TripSpec(l, name, detail, now), name)
  {
  }

  /** No event of the process but a release with a proof moves a tripped class W condition. */
  lemma OnlyReleaseMovesW(c: Setup, w: World, e: Event, name: Name)
    requires TrippedW(w.latch, name) && !e.Restart?
    requires !(e.ClearCondition? && e.name == name && ClearSpec(w.latch, name, e.proof, e.disk).1 == Cleared)
    ensures TrippedW(Step(c, w, e).latch, name)
  {
  }

  /**
    Latch safety: from the moment a class W condition is tripped, and for as long as no proof releases it,
    it stays tripped (so `Gate` refuses), whatever ticks and automatic clears happen, while the process runs.
  */
  lemma {:induction false} LatchHolds(c: Setup, w: World, evs: seq<Event>, name: Name)
    requires TrippedW(w.latch, name)
    requires forall n :: 0 <= n < |evs| ==> !Releases(c, w, evs, n, name) && !evs[n].Restart?
    ensures TrippedW(Run(c, w, evs).latch, name)
  {
    if evs != [] {
      var front, e := evs[..|evs| - 1], evs[|evs| - 1];
      assert forall n :: 0 <= n < |front| ==> front[..n] == evs[..n] && front[n] == evs[n];
      forall n | 0 <= n < |front| ensures !Releases(c, w, front, n, name) { assert !Releases(c, w, evs, n, name); }
      LatchHolds(c, w, front, name);
      assert !Releases(c, w, evs, |evs| - 1, name);
      OnlyReleaseMovesW(c, Run(c, w, front), e, name);
    }
  }

  /** The release of a class W condition needs a verified proof, and moves the floor up to its expiry second. */
  lemma ReleaseNeedsProof(l: Latch, name: Name, proof: Proof, disk: Disk)
    requires TrippedW(l, name) && ClearSpec(l, name, proof, disk).1 == Cleared
    ensures l.verifier.Some? && l.verifier.value(name, proof)
    ensures l.floors.Some? && (name in l.floors.value ==> l.floors.value[name] < proof.expiry / SECOND)
    ensures var f := ClearSpec(l, name, proof, disk).0.floors;
            f.Some? && name in f.value && f.value[name] == proof.expiry / SECOND
  {
  }

  lemma FloorMovesUp(c: Setup, w: World, e: Event, name: Name, floor: int)
    requires !e.SetFloors? && w.latch.floors.Some? && name in w.latch.floors.value &&
             floor <= w.latch.floors.value[name]
    ensures var f := Step(c, w, e).latch.floors; f.Some? && name in f.value && floor <= f.value[name]
  {
  }

  lemma {:induction false} FloorStays(c: Setup, w: World, evs: seq<Event>, i: nat, name: Name, floor: int)
    requires i <= |evs| && forall n :: i <= n < |evs| ==> !evs[n].SetFloors?
    requires var f := Run(c, w, evs[..i]).latch.floors; f.Some? && name in f.value && floor <= f.value[name]
    ensures var f := Run(c, w, evs).latch.floors; f.Some? && name in f.value && floor <= f.value[name]
    decreases |evs|
  {
    if i == |evs| {
      assert evs[..i] == evs;
    } else {
      var front := evs[..|evs| - 1];
      assert front[..i] == evs[..i];
      FloorStays(c, w, front, i, name, floor);
      FloorMovesUp(c, Run(c, w, front), evs[|evs| - 1], name, floor);
    }
  }

  /** A proof releases a class W condition once, restarts included: a later release needs a later expiry second. */
  lemma ProofReleasesOnce(c: Setup, w: World, evs: seq<Event>, i: nat, j: nat, name: Name)
    requires i < j < |evs| && Releases(c, w, evs, i, name) && Releases(c, w, evs, j, name)
    requires TrippedW(Run(c, w, evs[..i]).latch, name) && TrippedW(Run(c, w, evs[..j]).latch, name)
    requires forall n :: i < n < j ==> !evs[n].SetFloors?
    ensures evs[i].proof.expiry / SECOND < evs[j].proof.expiry / SECOND
  {
    ReleaseNeedsProof(Run(c, w, evs[..i]).latch, name, evs[i].proof, evs[i].disk);
    ReleaseNeedsProof(Run(c, w, evs[..j]).latch, name, evs[j].proof, evs[j].disk);
    var front := evs[..j];
    assert evs[..i + 1][..i] == evs[..i] && front[..i + 1] == evs[..i + 1];
    FloorStays(c, w, front, i + 1, name, evs[i].proof.expiry / SECOND);
  }

  // ---------------------------------------------------------------------------------------------
  // Bounded recovery
  // ---------------------------------------------------------------------------------------------

  /** What the events tell about the recovery; a cycle begins and ends with a mark of its own. */
  datatype Mark =
    | FoundNothing
    | CycleBegan(now: int)
    | Probed(found: set<Name>, healthy: bool)
    | CycleOver(released: bool, now: int)
    | Restarted

  /** The marks of a run, oldest first. */
  function Log(c: Setup, w: World, evs: seq<Event>): seq<Mark> {
    if evs == [] then [] else
    var front, e := evs[..|evs| - 1], evs[|evs| - 1];
    Log(c, w, front) + Logged(Log(c, w, front), Run(c, w, front).phase, e)
  }

  predicate InCycle(log: seq<Mark>) { log != [] && (log[|log| - 1].CycleBegan? || log[|log| - 1].Probed?) }

  function Logged(log: seq<Mark>, phase: Phase, e: Event): seq<Mark> {
    if e.TickBegin? && phase == Looked({}) then [FoundNothing]
    else if e.TickBegin? && phase.Looked? && !InCycle(log) then [CycleBegan(e.now)]
    else if e.TickProbe? && phase.Probing? then [Probed(phase.found, e.healthy)]
    else if e.TickFinish? && phase.Clearing? && phase.todo == {} then [CycleOver(phase.cleared, e.now)]
    else if e.Restart? then [Restarted]
    else []
  }

  predicate Good(m: Mark) { m.Probed? && m.healthy && m.found != {} }

  /** The last `n` marks are healthy probes, each with a candidate tripped, and all of the current cycle. */
  ghost predicate LastGood(log: seq<Mark>, n: nat) {
    n <= |log| && forall i :: |log| - n <= i < |log| ==> Good(log[i])
  }

  /** When this process last released something by itself. */
  function LastRelease(log: seq<Mark>): Option<int> {
    if log == [] then None else
    match log[|log| - 1]
    case Restarted => None
    case CycleOver(true, now) => Some(now)
    case _ => LastRelease(log[..|log| - 1])
  }

  predicate Flaps(last: Option<int>, now: int) { last.Some? && now - last.value < FLAP_WINDOW }

  /** The cycles of this process: whether each began within a minute of the last release. */
  function Cycles(log: seq<Mark>): seq<bool> {
    if log == [] then [] else
    var front := log[..|log| - 1];
    match log[|log| - 1]
    case Restarted => []
    case CycleBegan(now) => Cycles(front) + [Flaps(LastRelease(front), now)]
    case _ => Cycles(front)
  }

  /** How many cycles in a row, up to the last one, began that soon. */
  function FlapRun(cycles: seq<bool>): (n: nat)
    ensures n <= |cycles| && forall i :: |cycles| - n <= i < |cycles| ==> cycles[i]
    ensures n < |cycles| ==> !cycles[|cycles| - n - 1]
  {
    if cycles == [] || !cycles[|cycles| - 1] then 0 else FlapRun(cycles[..|cycles| - 1]) + 1
  }

  /** Two to the power `n`, up to eight. */
  function Doubled(n: nat): nat { if n == 0 then 1 else Min(MAX_FACTOR, 2 * Doubled(n - 1)) }

  /** What a cycle needs, as a multiple of the configured probes. */
  function Needed(log: seq<Mark>): nat { Doubled(FlapRun(Cycles(log))) }

  lemma {:induction false} DoubledRange(n: nat)
    ensures Doubled(n) in {1, 2, 4, 8} && (n >= 3 ==> Doubled(n) == 8)
  {
    if n > 0 { DoubledRange(n - 1); }
  }

  /** A cycle that begins within a minute of the last release needs twice what was needed, up to eight times. */
  lemma NextCycleNeeds(log: seq<Mark>, now: int)
    ensures Needed(log + [CycleBegan(now)]) ==
            if Flaps(LastRelease(log), now) then Min(MAX_FACTOR, 2 * Needed(log)) else 1
  {
    var cycles, next := Cycles(log), Cycles(log + [CycleBegan(now)]);
    assert (log + [CycleBegan(now)])[..|log|] == log;
    assert next == cycles + [Flaps(LastRelease(log), now)] && next[..|cycles|] == cycles;
  }

  lemma OtherMarks(log: seq<Mark>, m: Mark)
    ensures LastRelease(log + [m]) ==
            if m.Restarted? then None else if m.CycleOver? && m.released then Some(m.now) else LastRelease(log)
    ensures m.Restarted? ==> Needed(log + [m]) == 1
    ensures !m.Restarted? && !m.CycleBegan? ==> Needed(log + [m]) == Needed(log)
  {
    assert (log + [m])[..|log|] == log;
  }

  ghost predicate RecoveryInv(c: Setup, w: World, log: seq<Mark>) {
    && (w.recovery.engaged <==> InCycle(log))
    && w.recovery.factor == Needed(log) && w.recovery.lastClear == LastRelease(log)
    && LastGood(log, w.recovery.streak)
    && (w.recovery.engaged ==> w.recovery.required == c.probes * w.recovery.factor)
    && (w.phase.Looked? ==> w.phase.found <= c.cands)
    && (w.phase.Probing? ==> w.recovery.engaged && {} != w.phase.found <= c.cands)
    && (w.phase.Clearing? ==>
        && w.recovery.engaged && w.phase.todo <= w.phase.found <= c.cands
        && w.recovery.required <= w.recovery.streak
        && log[|log| - 1] == Probed(w.phase.found, true))
  }

  lemma RecoveryStep(c: Setup, w: World, e: Event, log: seq<Mark>)
    requires RecoveryInv(c, w, log)
    ensures RecoveryInv(c, Step(c, w, e), log + Logged(log, w.phase, e))
  {
    var more := Logged(log, w.phase, e);
    if more == [] {
      assert log + [] == log;
      QuietStep(c, w, e, log);
    } else {
      assert more == [more[0]];
      OtherMarks(log, more[0]);
      match e {
        case TickBegin(now) =>
          if w.phase.found == {} {
            NothingFound(c, w, now, log);
          } else {
            NextCycleNeeds(log, now);
            DoubledRange(FlapRun(Cycles(log)));
            FactorFollows(w.recovery, log, now);
            CycleBegins(c, w, now, log);
          }
        case TickProbe(healthy) => ProbeStep(c, w, healthy, log);
        case TickFinish(_) =>
        case Restart(_) =>
      }
    }
  }

  lemma QuietStep(c: Setup, w: World, e: Event, log: seq<Mark>)
    requires RecoveryInv(c, w, log) && Logged(log, w.phase, e) == []
    ensures RecoveryInv(c, Step(c, w, e), log)
  {
  }

  lemma NothingFound(c: Setup, w: World, now: int, log: seq<Mark>)
    requires RecoveryInv(c, w, log) && w.phase == Looked({})
    requires LastRelease(log + [FoundNothing]) == LastRelease(log) && Needed(log + [FoundNothing]) == Needed(log)
    ensures RecoveryInv(c, Step(c, w, TickBegin(now)), log + [FoundNothing])
  {
  }

  lemma CycleBegins(c: Setup, w: World, now: int, log: seq<Mark>)
    requires RecoveryInv(c, w, log) && w.phase.Looked? && w.phase.found != {} && !InCycle(log)
    requires LastRelease(log + [CycleBegan(now)]) == LastRelease(log)
    requires Needed(log + [CycleBegan(now)]) == NextFactor(w.recovery, now)
    ensures RecoveryInv(c, Step(c, w, TickBegin(now)), log + [CycleBegan(now)])
  {
    var f := NextFactor(w.recovery, now);
    assert Step(c, w, TickBegin(now)).recovery ==
           w.recovery.(engaged := true, streak := 0, factor := f, required := c.probes * f);
  }

  lemma FactorFollows(a: Recovery, log: seq<Mark>, now: int)
    requires a.factor == Needed(log) && a.factor in {1, 2, 4, 8} && a.lastClear == LastRelease(log)
    ensures NextFactor(a, now) == if Flaps(LastRelease(log), now) then Min(MAX_FACTOR, 2 * Needed(log)) else 1
  {
  }

  lemma ProbeStep(c: Setup, w: World, healthy: bool, log: seq<Mark>)
    requires RecoveryInv(c, w, log) && w.phase.Probing?
    requires var more := log + [Probed(w.phase.found, healthy)];
             Needed(more) == Needed(log) && LastRelease(more) == LastRelease(log)
    ensures RecoveryInv(c, Step(c, w, TickProbe(healthy)), log + [Probed(w.phase.found, healthy)])
  {
    if healthy { OneMoreGood(log, Probed(w.phase.found, true), w.recovery.streak); }
  }

  lemma OneMoreGood(log: seq<Mark>, m: Mark, n: nat)
    requires LastGood(log, n) && Good(m)
    ensures LastGood(log + [m], n + 1)
  {
  }

  lemma {:induction false} RecoveryInvHolds(c: Setup, w: World, evs: seq<Event>)
    requires w.recovery == IDLE && w.phase == NoTick
    ensures RecoveryInv(c, Run(c, w, evs), Log(c, w, evs))
  {
    if evs != [] {
      var front := evs[..|evs| - 1];
      RecoveryInvHolds(c, w, front);
      RecoveryStep(c, Run(c, w, front), evs[|evs| - 1], Log(c, w, front));
    }
  }

  /**
    Bounded recovery: when a tick releases a condition, the condition is a declared candidate outside class
    W, and the current cycle has just had as many healthy probes in a row as it needs, each with a candidate
    tripped; the last of them found this very condition.  What it needs is the configured number, doubled for
    each of the latest cycles that began within a minute of a release, up to eight times.
  */
  lemma RecoveryNeedsProbes(c: Setup, w: World, evs: seq<Event>, name: Name)
    requires w.recovery == IDLE && w.phase == NoTick && evs != [] && evs[|evs| - 1].TickRelease?
    requires IsTripped(Run(c, w, evs[..|evs| - 1]).latch, name) && !IsTripped(Run(c, w, evs).latch, name)
    ensures var before, log := Run(c, w, evs[..|evs| - 1]), Log(c, w, evs);
            && name in c.cands && before.latch.conds[name].class_ != W
            && LastGood(log, c.probes * Needed(log))
            && InCycle(log) && log[|log| - 1].Probed? && name in log[|log| - 1].found
  {
    var front := evs[..|evs| - 1];
    RecoveryInvHolds(c, w, front);
    ReleaseIsDue(c, Run(c, w, front), evs[|evs| - 1], Log(c, w, front), name);
    assert Log(c, w, evs) == Log(c, w, front);
  }

  lemma ReleaseIsDue(c: Setup, w: World, e: Event, log: seq<Mark>, name: Name)
    requires RecoveryInv(c, w, log) && e.TickRelease?
    requires IsTripped(w.latch, name) && !IsTripped(Step(c, w, e).latch, name)
    ensures log + Logged(log, w.phase, e) == log
    ensures name in c.cands && w.latch.conds[name].class_ != W && LastGood(log, c.probes * Needed(log))
    ensures InCycle(log) && log[|log| - 1].Probed? && name in log[|log| - 1].found
  {
    assert Logged(log, w.phase, e) == [];
  }

  /** What a tick has found was tripped when it looked. */
  lemma {:induction false} FoundWhenLooked(c: Setup, w: World, evs: seq<Event>)
    requires w.phase == NoTick
    ensures var phase := Run(c, w, evs).phase;
            !phase.NoTick? ==>
              exists k :: 0 <= k < |evs| && evs[k].TickLook? &&
                Candidates(Run(c, w, evs[..k]).latch, c.cands) == phase.found
  {
    if evs != [] && !Run(c, w, evs).phase.NoTick? {
      var front := evs[..|evs| - 1];
      var before := Run(c, w, front);
      FoundStep(c, before, evs[|front|]);
      if before.phase.NoTick? {
        assert evs[..|front|] == front;
      } else {
        FoundWhenLooked(c, w, front);
        var k :| 0 <= k < |front| && front[k].TickLook?
          && Candidates(Run(c, w, front[..k]).latch, c.cands) == before.phase.found;
        assert front[..k] == evs[..k] && front[k] == evs[k];
      }
    }
  }

  lemma FoundStep(c: Setup, w: World, e: Event)
    requires !Step(c, w, e).phase.NoTick?
    ensures if w.phase.NoTick? then e.TickLook? && Step(c, w, e).phase.found == Candidates(w.latch, c.cands)
            else Step(c, w, e).phase.found == w.phase.found
  {
  }

  // A condition that trips late in a cycle is guaranteed no more than that one probe.

  /** One healthy tick that does not yet release anything. */
  lemma HealthyTick(c: Setup, w: World, now: int)
    requires w.phase == NoTick && Candidates(w.latch, c.cands) != {}
    requires var a := BeginSpec(c.probes, w.recovery, Candidates(w.latch, c.cands), now); a.streak + 1 < a.required
    ensures var a := BeginSpec(c.probes, w.recovery, Candidates(w.latch, c.cands), now);
            Step(c, Step(c, Step(c, w, TickLook), TickBegin(now)), TickProbe(true))
            == w.(recovery := a.(streak := a.streak + 1))
  {
  }

  lemma RunThree(c: Setup, w: World, evs: seq<Event>, e1: Event, e2: Event, e3: Event)
    ensures Run(c, w, evs + [e1] + [e2] + [e3]) == Step(c, Step(c, Step(c, Run(c, w, evs), e1), e2), e3)
  {
    RunSnoc(c, w, evs, e1);
    RunSnoc(c, w, evs + [e1], e2);
    RunSnoc(c, w, evs + [e1] + [e2], e3);
  }

  lemma RunSnoc(c: Setup, w: World, evs: seq<Event>, e: Event)
    ensures Run(c, w, evs + [e]) == Step(c, Run(c, w, evs), e)
  {
    assert (evs + [e])[..|evs|] == evs;
  }

  /** With a candidate tripped, `n` healthy ticks short of the requirement leave a streak of `n`. */
  lemma {:induction false} HealthyTicks(c: Setup, w: World, n: nat, now: int) returns (evs: seq<Event>)
    requires w.phase == NoTick && w.recovery == IDLE && Candidates(w.latch, c.cands) != {} && 1 <= n < c.probes
    ensures Run(c, w, evs) == w.(recovery := Recovery(n, c.probes, true, 1, None))
  {
    var before := [];
    if n > 1 { before := HealthyTicks(c, w, n - 1, now); }
    HealthyTick(c, Run(c, w, before), now);
    RunThree(c, w, before, TickLook, TickBegin(now), TickProbe(true));
    evs := before + [TickLook] + [TickBegin(now)] + [TickProbe(true)];
  }

  /** From there, a candidate that trips only now is released by the very next healthy probe. */
  lemma LateConditionReleased(c: Setup, w: World, b: Name, now: int)
    requires w.phase == NoTick && w.recovery.engaged && w.recovery.streak + 1 == w.recovery.required
    requires b in c.cands && b in w.latch.conds && w.latch.conds[b].class_ != W && !w.latch.conds[b].tripped
    ensures var evs := [TripCondition(b, "", now)] + [TickLook] + [TickBegin(now)] + [TickProbe(true)] +
            [TickRelease(b)];
            && IsTripped(Run(c, w, evs[..1]).latch, b) && !IsTripped(Run(c, w, evs).latch, b)
  {
    var trip := [TripCondition(b, "", now)];
    var three := trip + [TickLook] + [TickBegin(now)] + [TickProbe(true)];
    var evs := three + [TickRelease(b)];
    assert evs[..1] == trip && [] + trip == trip;
    RunSnoc(c, w, [], TripCondition(b, "", now));
    RunSnoc(c, w, three, TickRelease(b));
    RunThree(c, w, trip, TickLook, TickBegin(now), TickProbe(true));
    var w1 := Run(c, w, trip);
    assert b in Candidates(w1.latch, c.cands);
    assert Run(c, w, three).phase == Clearing(Candidates(w1.latch, c.cands), Candidates(w1.latch, c.cands), false);
  }

  /**
    The exact guarantee for a single condition is one probe: whatever number is required, `a` can use up all
    but one of them, and `b`, tripped only then, is released with it.
  */
  lemma OneProbeIsEnough(c: Setup, w: World, a: Name, b: Name, now: int) returns (before: seq<Event>)
    requires w.phase == NoTick && w.recovery == IDLE && c.probes >= 2 && a in Candidates(w.latch, c.cands)
    requires b in c.cands && b in w.latch.conds && w.latch.conds[b].class_ != W && !w.latch.conds[b].tripped
    ensures var late := [TripCondition(b, "", now)] + [TickLook] + [TickBegin(now)] + [TickProbe(true)] +
            [TickRelease(b)];
            var w1 := Run(c, w, before);
            !IsTripped(w1.latch, b) && IsTripped(Run(c, w1, late[..1]).latch, b) &&
              !IsTripped(Run(c, w1, late).latch, b)
  {
    before := HealthyTicks(c, w, c.probes - 1, now);
    LateConditionReleased(c, Run(c, w, before), b, now);
  }
}
