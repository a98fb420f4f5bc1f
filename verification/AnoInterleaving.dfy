/**
  Whole runs of the vault.  A masking takes the vault's lock once, to find its exchange, and then the lock of
  that exchange once for every value it interns; an unmasking locks it once for every lookup.  In between,
  anything else may happen: the exchange may even be closed, and a masking then goes on in what is left of it.
*/
module AnoInterleaving {
  import opened Basics
  import opened AnoText
  import opened AnoVault
  import opened Anonymiser
  import opened AnoScript
  import opened AnoRoundTrip
  import opened AnoTimed

  /** A masking in progress: the exchange it works in, what it plans, and the tokens it has got so far. */
  datatype Job = Job(id: string, serial: nat, payload: Json, plan: Plan, toks: seq<string>)
  {
    predicate Unfinished() { |toks| < |Holes(plan)| }

    predicate Finished() { NoFail(plan) && |toks| == |Holes(plan)| }

    function Output(): Json
      requires Finished()
    {
      Put(plan, toks)
    }

    ghost function Script(): Script
      requires Finished()
    {
      Scripted(plan, toks)
    }
  }

  /** What the vault keeps under an id: when the exchange expires, and which one it is. */
  datatype Handle = Handle(expires: int, serial: nat)

  /** `tables` has the table of every exchange there ever was, in the order of opening; a closed one is wiped. */
  datatype World = World(vault: map<string, Handle>, tables: seq<Table>, jobs: seq<Job>)

  const START := World(map[], [], [])

  datatype Event =
    | OpenIt(id: string, expiry: int, now: int)
    | BeginMask(id: string, payload: Json, classifier: Option<Classifier>, now: int)
    | InternNext(job: nat)
    | LookAt(now: int)
    | CloseIt(id: string)

  function Unexpired(v: map<string, Handle>, now: int): map<string, Handle> {
    map id | id in v && now < v[id].expires :: v[id]
  }

  /** The counter goes on, so that no number is used twice in one exchange. */
  function Wiped(t: Table): Table { Table(t.n, map[], map[]) }

  function DropTo(w: World, v: map<string, Handle>): World {
    var dead := set id | id in w.vault && id !in v :: w.vault[id].serial;
    w.(vault := v,
       tables := seq(|w.tables|, s requires 0 <= s < |w.tables| =>
                     if s in dead then Wiped(w.tables[s]) else w.tables[s]))
  }

  function OpenAt(w: World, id: string, expires: int): World {
    w.(vault := w.vault[id := Handle(expires, |w.tables|)], tables := w.tables + [EMPTY])
  }

  predicate IsNew(l: Limits, v: map<string, Handle>, id: string, expiry: int, now: int) {
    id !in v && expiry > now && |v| < l.maxExchanges
  }

  function OpenNew(l: Limits, w: World, id: string, expiry: int, now: int): World {
    if IsNew(l, w.vault, id, expiry, now) then OpenAt(w, id, Min(expiry, now + l.maxTTL)) else w
  }

  predicate CanIntern(w: World, j: nat) { j < |w.jobs| && w.jobs[j].serial < |w.tables| && w.jobs[j].Unfinished() }

  /** The job interns its next value, in its own exchange, whether that is still in the vault or not. */
  function InternStep(c: Config, w: World, j: nat): World
    requires CanIntern(w, j)
  {
    var job := w.jobs[j];
    var (t, tok) := Intern(w.tables[job.serial], Holes(job.plan)[|job.toks|], c.maxEntries);
    w.(tables := w.tables[job.serial := t],
       jobs := if tok.None? then w.jobs else w.jobs[j := job.(toks := job.toks + [tok.value])])
  }

  /** An event that does not fit the state changes nothing. */
  function Step(c: Config, l: Limits, w: World, e: Event): World {
    match e
    case OpenIt(id, expiry, now) =>
      if |id| < 1 || |id| > 128 then w else OpenNew(l, DropTo(w, Unexpired(w.vault, now)), id, expiry, now)
    case BeginMask(id, payload, classifier, now) =>
      var w1 := DropTo(w, Unexpired(w.vault, now));
      if id !in w1.vault then w1 else
      var plan := PlanOf(c.(classifier := classifier), [], payload, 0, 0).0;
      w1.(jobs := w1.jobs + [Job(id, w1.vault[id].serial, payload, plan, [])])
    case InternNext(j) => if CanIntern(w, j) then InternStep(c, w, j) else w
    case LookAt(now) => DropTo(w, Unexpired(w.vault, now))
    case CloseIt(id) => DropTo(w, w.vault - {id})
  }

  function After(c: Config, l: Limits, w: World, evs: seq<Event>): World {
    if evs == [] then w else Step(c, l, After(c, l, w, evs[..|evs| - 1]), evs[|evs| - 1])
  }

  /** The masking still works in the exchange that the vault has under its id. */
  predicate Attached(w: World, id: string, serial: nat) { id in w.vault && w.vault[id].serial == serial }

  // ---------------------------------------------------------------------------------------------
  // The invariant
  // ---------------------------------------------------------------------------------------------

  /** The exchanges in the vault are different ones, with coherent tables. */
  ghost predicate VaultOk(w: World) {
    && (forall id {:trigger HandleOk(w, id)} :: id in w.vault ==> HandleOk(w, id))
    && (forall a, b {:trigger Apart(w.vault, a, b)} :: Apart(w.vault, a, b))
  }

  ghost predicate Apart(v: map<string, Handle>, a: string, b: string) {
    a in v && b in v && v[a].serial == v[b].serial ==> a == b
  }

  ghost predicate HandleOk(w: World, id: string)
    requires id in w.vault
  {
    w.vault[id].serial < |w.tables| && Coherent(w.tables[w.vault[id].serial])
  }

  /** Every token in the table is numbered, up to the counter; this survives wiping. */
  ghost predicate Counted(t: Table) { forall e :: e in t.byKey ==> InRange(t.byKey[e], t.n) }

  ghost predicate InRange(tok: string, n: nat) { IsNumbered(tok) && NumOf(tok) <= n }

  ghost predicate AllCounted(w: World) { forall s :: 0 <= s < |w.tables| ==> Counted(w.tables[s]) }

  /** Every token that the job has written is bound to the value it was written for, as long as its exchange lives. */
  ghost predicate JobOk(w: World, job: Job) {
    && job.serial < |w.tables|
    && PlansFor(job.plan, job.payload, 0)
    && |job.toks| <= |Holes(job.plan)|
    && (forall i :: 0 <= i < |job.toks| ==> InRange(job.toks[i], w.tables[job.serial].n))
    && (Attached(w, job.id, job.serial) ==> Bound(w.tables[job.serial], Holes(job.plan), job.toks))
  }

  ghost predicate Inv(w: World) {
    VaultOk(w) && AllCounted(w) && forall j :: 0 <= j < |w.jobs| ==> JobOk(w, w.jobs[j])
  }

  /** What an event may do to an exchange: it grows, or it is no longer in the vault; the counter never falls. */
  ghost predicate ExchangeMoves(w: World, w': World, id: string, serial: nat) {
    serial < |w.tables| ==>
      && |w.tables| <= |w'.tables| && w.tables[serial].n <= w'.tables[serial].n
      && (Attached(w', id, serial) ==>
          && Attached(w, id, serial) && Coherent(w.tables[serial]) && Coherent(w'.tables[serial])
          && Extends(w.tables[serial], w'.tables[serial]))
  }

  lemma DropMoves(w: World, v: map<string, Handle>, id: string, serial: nat)
    requires VaultOk(w) && forall o :: o in v ==> o in w.vault && v[o] == w.vault[o]
    ensures ExchangeMoves(w, DropTo(w, v), id, serial)
  {
    if id in v { KeptTable(w, v, id); }
  }

  /** Dropping others does not touch an exchange. */
  lemma KeptTable(w: World, v: map<string, Handle>, id: string)
    requires VaultOk(w) && (forall o :: o in v ==> o in w.vault && v[o] == w.vault[o]) && id in v
    ensures HandleOk(w, id) && DropTo(w, v).tables[w.vault[id].serial] == w.tables[w.vault[id].serial]
  {
    assert HandleOk(w, id);
    forall o | o in w.vault && o !in v ensures w.vault[o].serial != w.vault[id].serial { assert Apart(w.vault, o, id); }
  }

  lemma DropKeeps(w: World, v: map<string, Handle>)
    requires VaultOk(w) && forall o :: o in v ==> o in w.vault && v[o] == w.vault[o]
    ensures VaultOk(DropTo(w, v))
  {
    forall id | id in v ensures HandleOk(DropTo(w, v), id) { KeptTable(w, v, id); }
    forall a, b ensures Apart(v, a, b) { assert Apart(w.vault, a, b); }
  }

  lemma DropCounts(w: World, v: map<string, Handle>)
    requires AllCounted(w)
    ensures AllCounted(DropTo(w, v))
  {
  }

  lemma OpenCounts(l: Limits, w: World, id: string, expiry: int, now: int)
    requires AllCounted(w)
    ensures AllCounted(OpenNew(l, w, id, expiry, now))
  {
  }

  lemma OpenKeeps(l: Limits, w: World, id: string, expiry: int, now: int)
    requires VaultOk(w)
    ensures VaultOk(OpenNew(l, w, id, expiry, now))
  {
    if IsNew(l, w.vault, id, expiry, now) { NewKeeps(w, id, Min(expiry, now + l.maxTTL)); }
  }

  lemma NewKeeps(w: World, id: string, expires: int)
    requires VaultOk(w) && id !in w.vault
    ensures VaultOk(OpenAt(w, id, expires))
  {
    var w' := OpenAt(w, id, expires);
    EmptyIsCoherent();
    forall o | o in w'.vault ensures HandleOk(w', o) {
      if o != id { assert HandleOk(w, o); }
    }
    forall a, b ensures Apart(w'.vault, a, b) {
      assert Apart(w.vault, a, b);
      if a in w.vault { assert HandleOk(w, a); }
      if b in w.vault { assert HandleOk(w, b); }
    }
  }

  lemma OpenMoves(l: Limits, w: World, o: string, expiry: int, now: int, id: string, serial: nat)
    requires VaultOk(w)
    ensures ExchangeMoves(w, OpenNew(l, w, o, expiry, now), id, serial)
  {
    if id in w.vault { assert HandleOk(w, id); }
  }

  lemma MovesTwice(w1: World, w2: World, w3: World, id: string, serial: nat)
    requires ExchangeMoves(w1, w2, id, serial) && ExchangeMoves(w2, w3, id, serial)
    ensures ExchangeMoves(w1, w3, id, serial)
  {
  }

  lemma InternCounts(t: Table, e: Entry, max: nat)
    requires Counted(t)
    ensures var (t', tok) := Intern(t, e, max);
            Counted(t') && t.n <= t'.n && (tok.Some? ==> InRange(tok.value, t'.n))
  {
    if e !in t.byKey && |t.byTok| < max { NumberedToken(t.n + 1); }
  }

  lemma NumberedToken(n: Number)
    ensures IsNumbered(Token(n)) && NumOf(Token(n)) == n
  {
    TokenInjective(NumOf(Token(n)), n);
  }

  /** What interning does to the world: one table, and the tokens of one job. */
  lemma InternResult(c: Config, w: World, j: nat, t: Table, tok: Option<string>)
    requires CanIntern(w, j)
    requires (t, tok) == Intern(w.tables[w.jobs[j].serial], Holes(w.jobs[j].plan)[|w.jobs[j].toks|], c.maxEntries)
    ensures var job, w' := w.jobs[j], InternStep(c, w, j);
            && w'.vault == w.vault && w'.tables == w.tables[job.serial := t]
            && w'.jobs == if tok.None? then w.jobs else w.jobs[j := job.(toks := job.toks + [tok.value])]
  {
  }

  lemma TableMoves(w: World, w': World, o: nat, t: Table, id: string, serial: nat)
    requires VaultOk(w) && o < |w.tables| && w'.vault == w.vault && w'.tables == w.tables[o := t]
    requires w.tables[o].n <= t.n && (Coherent(w.tables[o]) ==> Coherent(t) && Extends(w.tables[o], t))
    ensures ExchangeMoves(w, w', id, serial)
  {
    if Attached(w, id, serial) { assert HandleOk(w, id); }
  }

  lemma TableKeeps(w: World, w': World, o: nat, t: Table)
    requires VaultOk(w) && o < |w.tables| && w'.vault == w.vault && w'.tables == w.tables[o := t]
    requires Coherent(w.tables[o]) ==> Coherent(t)
    ensures VaultOk(w')
  {
    forall id | id in w'.vault ensures HandleOk(w', id) { assert HandleOk(w, id); }
    forall a, b ensures Apart(w'.vault, a, b) { assert Apart(w.vault, a, b); }
  }

  lemma InternMoves(c: Config, w: World, j: nat, id: string, serial: nat)
    requires VaultOk(w) && AllCounted(w) && CanIntern(w, j)
    ensures ExchangeMoves(w, InternStep(c, w, j), id, serial)
    ensures VaultOk(InternStep(c, w, j)) && AllCounted(InternStep(c, w, j))
  {
    var job := w.jobs[j];
    var table, e := w.tables[job.serial], Holes(job.plan)[|job.toks|];
    var (t, tok) := Intern(table, e, c.maxEntries);
    InternCounts(table, e, c.maxEntries);
    if Coherent(table) { InternKeeps(table, e, c.maxEntries); }
    InternResult(c, w, j, t, tok);
    TableMoves(w, InternStep(c, w, j), job.serial, t, id, serial);
    TableKeeps(w, InternStep(c, w, j), job.serial, t);
  }

  /** One event, of any kind. */
  lemma StepMoves(c: Config, l: Limits, w: World, e: Event, id: string, serial: nat)
    requires VaultOk(w) && AllCounted(w)
    ensures ExchangeMoves(w, Step(c, l, w, e), id, serial)
    ensures VaultOk(Step(c, l, w, e)) && AllCounted(Step(c, l, w, e))
  {
    match e {
      case OpenIt(o, expiry, now) =>
        var w1 := DropTo(w, Unexpired(w.vault, now));
        DropKeeps(w, Unexpired(w.vault, now));
        DropCounts(w, Unexpired(w.vault, now));
        DropMoves(w, Unexpired(w.vault, now), id, serial);
        OpenKeeps(l, w1, o, expiry, now);
        OpenCounts(l, w1, o, expiry, now);
        OpenMoves(l, w1, o, expiry, now, id, serial);
        MovesTwice(w, w1, OpenNew(l, w1, o, expiry, now), id, serial);
        DropMoves(w, w.vault, id, serial);
        NothingDropped(w);
      case BeginMask(_, _, _, now) =>
        DropKeeps(w, Unexpired(w.vault, now));
        DropCounts(w, Unexpired(w.vault, now));
        DropMoves(w, Unexpired(w.vault, now), id, serial);
        SameExchanges(DropTo(w, Unexpired(w.vault, now)), Step(c, l, w, e));
      case InternNext(j) =>
        DropMoves(w, w.vault, id, serial);
        NothingDropped(w);
        if CanIntern(w, j) { InternMoves(c, w, j, id, serial); }
      case LookAt(now) =>
        DropKeeps(w, Unexpired(w.vault, now));
        DropCounts(w, Unexpired(w.vault, now));
        DropMoves(w, Unexpired(w.vault, now), id, serial);
      case CloseIt(o) =>
        DropKeeps(w, w.vault - {o});
        DropCounts(w, w.vault - {o});
        DropMoves(w, w.vault - {o}, id, serial);
    }
  }

  lemma NothingDropped(w: World)
    ensures DropTo(w, w.vault) == w
  {
  }

  lemma SameExchanges(w: World, w': World)
    requires w'.vault == w.vault && w'.tables == w.tables
    ensures VaultOk(w) ==> VaultOk(w')
    ensures AllCounted(w) ==> AllCounted(w')
  {
    if VaultOk(w) {
      forall id | id in w'.vault ensures HandleOk(w', id) { assert HandleOk(w, id); }
      forall a, b ensures Apart(w'.vault, a, b) { assert Apart(w.vault, a, b); }
    }
  }

  lemma JobStays(w: World, w': World, job: Job)
    requires JobOk(w, job) && ExchangeMoves(w, w', job.id, job.serial)
    ensures JobOk(w', job)
  {
    forall i | 0 <= i < |job.toks| ensures InRange(job.toks[i], w'.tables[job.serial].n) {
      assert InRange(job.toks[i], w.tables[job.serial].n);
    }
    if Attached(w', job.id, job.serial) {
      BoundStays(w.tables[job.serial], w'.tables[job.serial], Holes(job.plan), job.toks);
    }
  }

  lemma BoundSnoc(t: Table, hs: seq<Entry>, toks: seq<string>, tok: string)
    requires Bound(t, hs, toks) && |toks| < |hs| && hs[|toks|] in t.byKey && t.byKey[hs[|toks|]] == tok
    ensures Bound(t, hs, toks + [tok])
  {
  }

  lemma InternedIsBound(t: Table, hs: seq<Entry>, toks: seq<string>, max: nat, t': Table, tok: string)
    requires Coherent(t) && Bound(t, hs, toks) && |toks| < |hs| && Intern(t, hs[|toks|], max) == (t', Some(tok))
    ensures Bound(t', hs, toks + [tok])
  {
    InternKnows(t, hs[|toks|], max, t', tok);
    BoundStays(t, t', hs, toks);
    BoundSnoc(t', hs, toks, tok);
  }

  /** The job that interns has one more token, bound to its value if its exchange lives. */
  lemma InternBinds(c: Config, w: World, j: nat)
    requires VaultOk(w) && AllCounted(w) && CanIntern(w, j) && JobOk(w, w.jobs[j])
    ensures JobOk(InternStep(c, w, j), InternStep(c, w, j).jobs[j])
  {
    var job, w' := w.jobs[j], InternStep(c, w, j);
    var hs, k, table := Holes(job.plan), |job.toks|, w.tables[job.serial];
    var (t, tok) := Intern(table, hs[k], c.maxEntries);
    InternResult(c, w, j, t, tok);
    InternMoves(c, w, j, job.id, job.serial);
    JobStays(w, w', job);
    if tok.Some? {
      InternCounts(table, hs[k], c.maxEntries);
      if Attached(w', job.id, job.serial) { InternedIsBound(table, hs, job.toks, c.maxEntries, t, tok.value); }
      JobLearns(w', job, tok.value);
    }
  }

  lemma JobLearns(w: World, job: Job, tok: string)
    requires JobOk(w, job) && job.Unfinished() && InRange(tok, w.tables[job.serial].n)
    requires Attached(w, job.id, job.serial) ==> Bound(w.tables[job.serial], Holes(job.plan), job.toks + [tok])
    ensures JobOk(w, job.(toks := job.toks + [tok]))
  {
  }

  lemma BegunJobOk(c: Config, w: World, id: string, payload: Json, classifier: Option<Classifier>)
    requires id in w.vault && HandleOk(w, id)
    ensures var plan := PlanOf(c.(classifier := classifier), [], payload, 0, 0).0;
            JobOk(w, Job(id, w.vault[id].serial, payload, plan, []))
  {
    PlanPlansFor(c.(classifier := classifier), [], payload, 0, 0);
  }

  /** A job is as it was, has interned a value, or is new. */
  lemma StepJobs(c: Config, l: Limits, w: World, e: Event, j: nat)
    requires j < |Step(c, l, w, e).jobs|
    ensures var w' := Step(c, l, w, e);
            || (j < |w.jobs| && w'.jobs[j] == w.jobs[j])
            || (e.InternNext? && e.job == j && CanIntern(w, j) && w' == InternStep(c, w, j))
            || (&& e.BeginMask? && e.id in w'.vault
                && w'.jobs[j] == Job(e.id, w'.vault[e.id].serial, e.payload,
                                     PlanOf(c.(classifier := e.classifier), [], e.payload, 0, 0).0, []))
  {
  }

  lemma StepJob(c: Config, l: Limits, w: World, e: Event, j: nat)
    requires Inv(w) && j < |Step(c, l, w, e).jobs|
    ensures JobOk(Step(c, l, w, e), Step(c, l, w, e).jobs[j])
  {
    var w' := Step(c, l, w, e);
    StepJobs(c, l, w, e, j);
    if j < |w.jobs| && w'.jobs[j] == w.jobs[j] {
      StepMoves(c, l, w, e, w.jobs[j].id, w.jobs[j].serial);
      JobStays(w, w', w.jobs[j]);
    } else if e.InternNext? {
      InternBinds(c, w, j);
    } else {
      StepMoves(c, l, w, e, e.id, 0);
      assert HandleOk(w', e.id);
      BegunJobOk(c, w', e.id, e.payload, e.classifier);
    }
  }

  lemma {:induction false} InvHolds(c: Config, l: Limits, evs: seq<Event>)
    ensures Inv(After(c, l, START, evs))
  {
    if evs != [] {
      var w := After(c, l, START, evs[..|evs| - 1]);
      InvHolds(c, l, evs[..|evs| - 1]);
      StepMoves(c, l, w, evs[|evs| - 1], "", 0);
      forall j | 0 <= j < |After(c, l, START, evs).jobs|
        ensures JobOk(After(c, l, START, evs), After(c, l, START, evs).jobs[j])
      {
        StepJob(c, l, w, evs[|evs| - 1], j);
      }
    }
  }

  // ---------------------------------------------------------------------------------------------
  // The vault of values, as `Open`, `Purge` and `Close` describe it
  // ---------------------------------------------------------------------------------------------

  ghost function View(w: World): Vault
    requires VaultOk(w)
  {
    map id | id in w.vault :: assert HandleOk(w, id); Slot(w.vault[id].expires, w.tables[w.vault[id].serial])
  }

  lemma DropIsSeen(w: World, v: map<string, Handle>)
    requires VaultOk(w) && forall o :: o in v ==> o in w.vault && v[o] == w.vault[o]
    ensures VaultOk(DropTo(w, v)) && View(DropTo(w, v)) == map id | id in View(w) && id in v :: View(w)[id]
  {
    DropKeeps(w, v);
    forall id | id in v ensures View(DropTo(w, v))[id] == View(w)[id] { KeptTable(w, v, id); }
  }

  lemma LookIsPurge(c: Config, l: Limits, w: World, now: int)
    requires VaultOk(w)
    ensures VaultOk(Step(c, l, w, LookAt(now))) && View(Step(c, l, w, LookAt(now))) == Purge(View(w), now)
  {
    DropIsSeen(w, Unexpired(w.vault, now));
  }

  lemma CloseIsClose(c: Config, l: Limits, w: World, id: string)
    requires VaultOk(w)
    ensures VaultOk(Step(c, l, w, CloseIt(id))) && View(Step(c, l, w, CloseIt(id))) == Close(View(w), id)
  {
    DropIsSeen(w, w.vault - {id});
  }

  lemma OpenIsOpen(c: Config, l: Limits, w: World, id: string, expiry: int, now: int)
    requires VaultOk(w)
    ensures var w' := Step(c, l, w, OpenIt(id, expiry, now));
            VaultOk(w') && View(w') == Open(l, View(w), id, expiry, now).0
  {
    if 1 <= |id| <= 128 {
      LookIsPurge(c, l, w, now);
      NewIsSeen(l, DropTo(w, Unexpired(w.vault, now)), id, expiry, now);
    }
  }

  lemma NewIsSeen(l: Limits, w: World, id: string, expiry: int, now: int)
    requires VaultOk(w)
    ensures VaultOk(OpenNew(l, w, id, expiry, now))
    ensures View(OpenNew(l, w, id, expiry, now)) == OpenLive(l, View(w), id, expiry, now).0
  {
    ViewKeys(w);
    SameCases(l, w.vault, View(w), id, expiry, now);
    if IsNew(l, w.vault, id, expiry, now) {
      NewKeeps(w, id, Min(expiry, now + l.maxTTL));
      NewIsAdded(w, id, Min(expiry, now + l.maxTTL));
    }
  }

  lemma SameCases(l: Limits, v: map<string, Handle>, live: Vault, id: string, expiry: int, now: int)
    requires live.Keys == v.Keys && |live| == |v|
    ensures OpenLive(l, live, id, expiry, now).0 ==
            if IsNew(l, v, id, expiry, now) then live[id := Slot(Min(expiry, now + l.maxTTL), EMPTY)] else live
  {
  }

  lemma ViewKeys(w: World)
    requires VaultOk(w)
    ensures View(w).Keys == w.vault.Keys && |View(w)| == |w.vault|
  {
    assert View(w).Keys == w.vault.Keys;
    assert |View(w).Keys| == |View(w)| && |w.vault.Keys| == |w.vault|;
  }

  lemma NewIsAdded(w: World, id: string, expires: int)
    requires VaultOk(w) && VaultOk(OpenAt(w, id, expires)) && id !in w.vault
    ensures View(OpenAt(w, id, expires)) == View(w)[id := Slot(expires, EMPTY)]
  {
    forall o | o in w.vault ensures View(OpenAt(w, id, expires))[o] == View(w)[o] { assert HandleOk(w, o); }
  }

  // ---------------------------------------------------------------------------------------------
  // The life of an exchange
  // ---------------------------------------------------------------------------------------------

  /** The event neither closes the exchange nor comes at or after its expiry. */
  predicate Spares(e: Event, id: string, expires: int) {
    match e
    case OpenIt(_, _, now) => now < expires
    case BeginMask(_, _, _, now) => now < expires
    case InternNext(_) => true
    case LookAt(now) => now < expires
    case CloseIt(o) => o != id
  }

  ghost predicate AllSpare(evs: seq<Event>, id: string, expires: int) {
    forall k :: 0 <= k < |evs| ==> Spares(evs[k], id, expires)
  }

  /** Nothing but its own closing, or its expiry, takes a live exchange away: saturation never evicts it. */
  lemma LiveExchangeContinues(c: Config, l: Limits, w: World, e: Event, id: string)
    requires id in w.vault && Spares(e, id, w.vault[id].expires)
    ensures var w' := Step(c, l, w, e); id in w'.vault && w'.vault[id] == w.vault[id]
  {
  }

  /** Along any events that spare it, the exchange stays the same one, and its table only grows. */
  lemma {:induction false} ExchangeContinues(c: Config, l: Limits, w: World, evs: seq<Event>, id: string, k: nat)
    requires VaultOk(w) && AllCounted(w) && id in w.vault && AllSpare(evs, id, w.vault[id].expires) && k <= |evs|
    ensures var w1, w2, s := After(c, l, w, evs[..k]), After(c, l, w, evs), w.vault[id].serial;
            && VaultOk(w2) && AllCounted(w2) && id in w1.vault && id in w2.vault
            && w1.vault[id] == w2.vault[id] == w.vault[id]
            && s < |w1.tables| && s < |w2.tables| && Extends(w1.tables[s], w2.tables[s])
    decreases |evs|
  {
    if evs == [] {
      assert HandleOk(w, id);
    } else {
      var front := evs[..|evs| - 1];
      assert forall i :: 0 <= i < |front| ==> front[i] == evs[i];
      ExchangeContinues(c, l, w, front, id, if k < |evs| then k else 0);
      ContinuesOnce(c, l, After(c, l, w, front), evs[|evs| - 1], id);
      if k < |evs| { assert front[..k] == evs[..k]; } else { assert evs[..k] == evs; }
    }
  }

  lemma ContinuesOnce(c: Config, l: Limits, w: World, e: Event, id: string)
    requires VaultOk(w) && AllCounted(w) && id in w.vault && Spares(e, id, w.vault[id].expires)
    ensures var w', s := Step(c, l, w, e), w.vault[id].serial;
            && VaultOk(w') && AllCounted(w') && id in w'.vault && w'.vault[id] == w.vault[id]
            && s < |w.tables| && s < |w'.tables| && Extends(w.tables[s], w'.tables[s])
  {
    assert HandleOk(w, id);
    LiveExchangeContinues(c, l, w, e, id);
    StepMoves(c, l, w, e, id, w.vault[id].serial);
  }

  /** A finished job stays as it is. */
  lemma {:induction false} FinishedStays(c: Config, l: Limits, w: World, evs: seq<Event>, j: nat)
    requires j < |w.jobs| && !w.jobs[j].Unfinished()
    ensures var w' := After(c, l, w, evs); j < |w'.jobs| && w'.jobs[j] == w.jobs[j]
  {
    if evs != [] { FinishedStays(c, l, w, evs[..|evs| - 1], j); }
  }

  // ---------------------------------------------------------------------------------------------
  // The round trip
  // ---------------------------------------------------------------------------------------------

  /** The k-th lookup of an unmasking comes after the first `at(k)` of these events. */
  ghost predicate Moments(at: nat -> nat, n: nat) {
    (forall k: nat :: at(k) <= n) && forall i: nat, j: nat :: i <= j ==> at(i) <= at(j)
  }

  /** What these lookups see of the exchange. */
  ghost function Seen(c: Config, l: Limits, w: World, evs: seq<Event>, serial: nat, at: nat -> nat): Sights {
    (k: nat) => TableAt(c, l, w, evs, serial, at(k))
  }

  ghost function TableAt(c: Config, l: Limits, w: World, evs: seq<Event>, serial: nat, n: nat): Table {
    if n <= |evs| then TableOf(After(c, l, w, evs[..n]), serial) else EMPTY
  }

  function TableOf(w: World, serial: nat): Table { if serial < |w.tables| then w.tables[serial] else EMPTY }

  /** Lookups see a growing table while the exchange is spared. */
  lemma SeenGrows(c: Config, l: Limits, w: World, evs: seq<Event>, id: string, at: nat -> nat)
    requires VaultOk(w) && AllCounted(w) && id in w.vault && AllSpare(evs, id, w.vault[id].expires)
    requires Moments(at, |evs|)
    ensures Growing(Seen(c, l, w, evs, w.vault[id].serial, at))
  {
    var see := Seen(c, l, w, evs, w.vault[id].serial, at);
    forall i: nat, j: nat | i <= j ensures Extends(see(i), see(j)) { TableGrows(c, l, w, evs, id, at(i), at(j)); }
  }

  lemma TableGrows(c: Config, l: Limits, w: World, evs: seq<Event>, id: string, m: nat, n: nat)
    requires VaultOk(w) && AllCounted(w) && id in w.vault && AllSpare(evs, id, w.vault[id].expires) && m <= n <= |evs|
    ensures Extends(TableAt(c, l, w, evs, w.vault[id].serial, m), TableAt(c, l, w, evs, w.vault[id].serial, n))
  {
    var some := evs[..n];
    assert some[..m] == evs[..m];
    assert AllSpare(some, id, w.vault[id].expires);
    ExchangeContinues(c, l, w, some, id, m);
  }

  /** While the exchange is spared, what it shows is coherent, and binds what a finished masking has written. */
  lemma SeenBinds(c: Config, l: Limits, w: World, evs: seq<Event>, j: nat, at: nat -> nat, k: nat, job: Job)
    requires Inv(w) && j < |w.jobs| && job == w.jobs[j] && job.Finished() && Attached(w, job.id, job.serial)
    requires AllSpare(evs, job.id, w.vault[job.id].expires) && Moments(at, |evs|)
    ensures var t := Seen(c, l, w, evs, job.serial, at)(k); Coherent(t) && Bound(t, Holes(job.plan), job.toks)
  {
    var some := evs[..at(k)];
    assert some[..0] == [] && AllSpare(some, job.id, w.vault[job.id].expires);
    ExchangeContinues(c, l, w, some, job.id, 0);
    assert JobOk(w, job) && HandleOk(w, job.id) && HandleOk(After(c, l, w, some), job.id);
    BoundStays(w.tables[job.serial], After(c, l, w, some).tables[job.serial], Holes(job.plan), job.toks);
  }

  /** A reading of what a finished masking has written, with lookups at these moments after the world `w`. */
  ghost predicate Reads(c: Config, l: Limits, w: World, more: seq<Event>, job: Job, at: nat -> nat,
                        see: Sights, r: Result<Json, Error>, n: nat)
    requires job.Finished()
  {
    && Attached(w, job.id, job.serial) && AllSpare(more, job.id, w.vault[job.id].expires)
    && Moments(at, |more|) && see == Seen(c, l, w, more, job.serial, at)
    && UnmaskTimed(see, 0, job.Output(), 0) == (r, n)
  }

  /**
    The exact answer, over every run and whatever comes between the lookups.  A value that comes back is the
    original if and only if the table at the end of the reading agrees with it; the refusal of an unknown
    number means that the table at the start had not handed it out.
  */
  lemma AnswerIsExact(c: Config, l: Limits, evs: seq<Event>, more: seq<Event>, j: nat, at: nat -> nat, w: World,
                      job: Job, see: Sights, r: Result<Json, Error>, n: nat)
    requires w == After(c, l, START, evs) && j < |w.jobs| && job == w.jobs[j] && job.Finished()
    requires Reads(c, l, w, more, job, at, see, r, n) && see(n).n < Pow10(9)
    ensures Every(BoundIn(see(n)), job.Script())
    ensures if r.Ok? then AnswerIs(see(n), job.Script(), job.payload, r)
            else AnswerIs(see(0), job.Script(), job.payload, r)
  {
    InvHolds(c, l, evs);
    assert JobOk(w, job);
    SeenGrows(c, l, w, more, job.id, at);
    ReadingIsAtomic(see, 0, job.Output(), 0, n);
    SeenBinds(c, l, w, more, j, at, 0, job);
    SeenBinds(c, l, w, more, j, at, n, job);
    assert Extends(see(0), see(n));
    ScriptOfTable(see(n), job.plan, job.toks);
    ScriptedFor(job.plan, job.toks, job.payload, 0);
    ReadingIsExact(see(0), job.Script(), job.payload, 0);
    ReadingIsExact(see(n), job.Script(), job.payload, 0);
  }

  /**
    The round trip over the life of an exchange: every masking that finished in it, however it was mixed with
    others, comes back from any later unmasking, however that is mixed with others, until the exchange expires
    or is closed.
  */
  lemma RoundTripThroughVault(c: Config, l: Limits, evs: seq<Event>, more: seq<Event>, j: nat, at: nat -> nat,
                              w: World, job: Job, see: Sights, r: Result<Json, Error>, n: nat)
    requires w == After(c, l, START, evs) && j < |w.jobs| && job == w.jobs[j] && job.Finished()
    requires Reads(c, l, w, more, job, at, see, r, n) && see(n).n < Pow10(9) && SafePlan(job.plan)
    ensures r == Ok(job.payload)
  {
    AnswerIsExact(c, l, evs, more, j, at, w, job, see, r, n);
    InvHolds(c, l, evs);
    assert JobOk(w, job);
    SeenBinds(c, l, w, more, j, at, 0, job);
    SeenBinds(c, l, w, more, j, at, n, job);
    SafeAgreesIn(see(0), job);
    SafeAgreesIn(see(n), job);
  }

  lemma SafeAgreesIn(t: Table, job: Job)
    requires job.Finished() && SafePlan(job.plan) && PlansFor(job.plan, job.payload, 0)
    requires Coherent(t) && Bound(t, Holes(job.plan), job.toks)
    ensures Resolvable(t, job.Script()) && Agrees(t, job.Script())
  {
    ScriptOfTable(t, job.plan, job.toks);
    ScriptedFor(job.plan, job.toks, job.payload, 0);
    SafeScripted(job.plan, job.toks);
    SafeFits(t, job.Script(), job.payload, 0);
    FitsAgrees(t, job.Script());
  }

  /** What `t` binds is bound so in `t'`, or no longer at all, and its numbers are not handed out again. */
  ghost predicate NotRebound(t: Table, t': Table) {
    t.n <= t'.n && forall tok :: tok in t.byTok && tok in t'.byTok ==> t'.byTok[tok] == t.byTok[tok]
  }

  lemma InternNotRebound(t: Table, t': Table, e: Entry, max: nat)
    requires Coherent(t) && NotRebound(t, t')
    ensures NotRebound(t, Intern(t', e, max).0)
  {
    HigherIsFree(t, t'.n + 1);
    InternElsewhere(t, t', e, max);
  }

  lemma HigherIsFree(t: Table, n: nat)
    requires Coherent(t) && t.n < n
    ensures Token(n) !in t.byTok
  {
    if Token(n) in t.byTok {
      assert IsToken(Token(n), t.n);
      var i :| 1 <= i <= t.n && Token(n) == Token(i);
      TokenInjective(i, n);
    }
  }

  lemma InternElsewhere(t: Table, t': Table, e: Entry, max: nat)
    requires NotRebound(t, t') && Token(t'.n + 1) !in t.byTok
    ensures NotRebound(t, Intern(t', e, max).0)
  {
  }

  lemma StepNotRebound(c: Config, l: Limits, w: World, e: Event, serial: nat, t: Table)
    requires Coherent(t) && serial < |w.tables| && NotRebound(t, w.tables[serial])
    ensures var w' := Step(c, l, w, e); serial < |w'.tables| && NotRebound(t, w'.tables[serial])
  {
    StepTable(c, l, w, e, serial);
    if e.InternNext? && CanIntern(w, e.job) {
      var job := w.jobs[e.job];
      InternNotRebound(t, w.tables[serial], Holes(job.plan)[|job.toks|], c.maxEntries);
    }
  }

  /** What an event does to a single table. */
  lemma StepTable(c: Config, l: Limits, w: World, e: Event, serial: nat)
    requires serial < |w.tables|
    ensures var w', t := Step(c, l, w, e), w.tables[serial];
            && serial < |w'.tables|
            && (|| w'.tables[serial] in {t, Wiped(t)}
                || (&& e.InternNext? && CanIntern(w, e.job)
                    && var job := w.jobs[e.job];
                       w'.tables[serial] == Intern(t, Holes(job.plan)[|job.toks|], c.maxEntries).0))
  {
  }

  lemma {:induction false} NeverRebound(c: Config, l: Limits, w: World, evs: seq<Event>, serial: nat, t: Table)
    requires Coherent(t) && serial < |w.tables| && NotRebound(t, w.tables[serial])
    ensures var w' := After(c, l, w, evs); serial < |w'.tables| && NotRebound(t, w'.tables[serial])
  {
    if evs != [] {
      NeverRebound(c, l, w, evs[..|evs| - 1], serial, t);
      StepNotRebound(c, l, After(c, l, w, evs[..|evs| - 1]), evs[|evs| - 1], serial, t);
    }
  }

  /**
    Never a wrong value: whatever happens to the exchange while it is read, closing and expiry included, a
    masking that finished in it comes back as it was or is refused, if no span is followed by a kept digit.
  */
  lemma BackOrRefused(c: Config, l: Limits, evs: seq<Event>, more: seq<Event>, j: nat, at: nat -> nat, w: World,
                      job: Job)
    requires w == After(c, l, START, evs) && j < |w.jobs| && job == w.jobs[j] && job.Finished()
    requires Attached(w, job.id, job.serial) && TableOf(w, job.serial).n < Pow10(9) && SafePlan(job.plan)
    requires Moments(at, |more|)
    ensures UnmaskTimed(Seen(c, l, w, more, job.serial, at), 0, job.Output(), 0).0
            in {Ok(job.payload), Err(UnknownToken)}
  {
    InvHolds(c, l, evs);
    assert JobOk(w, job) && HandleOk(w, job.id);
    var t, see := w.tables[job.serial], Seen(c, l, w, more, job.serial, at);
    SeenConsistent(c, l, w, more, job.serial, at, t);
    SafeComesBack(t, job);
    AnsweredOrRefused(t, see, 0, job.Output(), 0);
  }

  lemma SeenConsistent(c: Config, l: Limits, w: World, evs: seq<Event>, serial: nat, at: nat -> nat, t: Table)
    requires Coherent(t) && serial < |w.tables| && w.tables[serial] == t && Moments(at, |evs|)
    ensures Consistent(t, Seen(c, l, w, evs, serial, at))
  {
    var see := Seen(c, l, w, evs, serial, at);
    forall k: nat, tok | tok in t.byTok && tok in see(k).byTok ensures see(k).byTok[tok] == t.byTok[tok] {
      NeverRebound(c, l, w, evs[..at(k)], serial, t);
    }
  }

  lemma SafeComesBack(t: Table, job: Job)
    requires job.Finished() && SafePlan(job.plan) && PlansFor(job.plan, job.payload, 0)
    requires Readable(t) && Bound(t, Holes(job.plan), job.toks)
    ensures Unmask(t, job.Output(), 0) == Ok(job.payload)
  {
    SafeAgreesIn(t, job);
    ScriptOfTable(t, job.plan, job.toks);
    ScriptedFor(job.plan, job.toks, job.payload, 0);
    ReadingIsExact(t, job.Script(), job.payload, 0);
  }

  /**
    A masking whose exchange was closed or has expired goes on in the wiped exchange, and its output is sent.
    Unmasked in another exchange, such as one opened later under the same id, it is read with the numbers of
    that exchange: refused if and only if one of them has not been handed out there, and otherwise answered
    with the values of that exchange.
  */
  lemma LostMasking(c: Config, l: Limits, evs: seq<Event>, j: nat, w: World, job: Job, id: string)
    requires w == After(c, l, START, evs) && j < |w.jobs| && job == w.jobs[j] && job.Finished()
    requires TableOf(w, job.serial).n < Pow10(9) && id in w.vault
    ensures var t := TableOf(w, w.vault[id].serial);
            Coherent(t) && AnswerIs(t, job.Script(), job.payload, Unmask(t, job.Output(), 0))
  {
    InvHolds(c, l, evs);
    assert JobOk(w, job) && HandleOk(w, id);
    forall i | 0 <= i < |job.toks| ensures IsNumbered(job.toks[i]) && NumOf(job.toks[i]) < Pow10(9) {
      assert InRange(job.toks[i], w.tables[job.serial].n);
    }
    ScriptedWritten(job.plan, job.toks);
    ScriptedEvery(Short(), job.plan, job.toks);
    ScriptedFor(job.plan, job.toks, job.payload, 0);
    ReadingIsExact(w.tables[w.vault[id].serial], job.Script(), job.payload, 0);
  }

  /** A masking that nothing interrupts is the masking of the specification. */
  lemma UninterruptedMasking(c: Config, t: Table, payload: Json, m: Json)
    requires Mask(c, t, payload).1 == Ok(m)
    ensures var plan := PlanOf(c, [], payload, 0, 0).0;
            var (t', toks) := InternAll(t, c.maxEntries, Holes(plan));
            t' == Mask(c, t, payload).0 && NoFail(plan) && |toks| == |Holes(plan)| && m == Put(plan, toks)
  {
    FillInterns(t, c.maxEntries, PlanOf(c, [], payload, 0, 0).0, Mask(c, t, payload).0, m);
  }
}
