/**
  The bounded admission queue in front of the policy engine: a fixed number of places, a bounded
  queue, a cap per subject, and a dispatch that serves the least served subject first.

  `Arrive`, `GiveBack` and `TimeOut` specify the locked sections; class `AdmissionQueue` is the
  imperative form.  A dispatch reads the clock anew for every waiter that it looks at.
*/
module Admission {
  import opened Basics

  type Subject = string
  /** `id` numbers the arrivals, so that the older of two waiters has the smaller one. */
  datatype Waiter = Waiter(id: nat, subject: Subject, deadline: int)
  datatype Config = Config(maxInflight: nat, maxQueue: int, subjectCap: nat, minService: int)
  type Counts = map<Subject, nat>

  datatype State = State(inflight: nat, queue: seq<Waiter>, perSubject: Counts, running: Counts,
                         admitted: nat, shedFull: nat, shedShare: nat, shedExpired: nat)

  datatype Arrival = Admitted | Queued | ShedSubjectShare | ShedQueueFull

  const IDLE := State(0, [], map[], map[], 0, 0, 0, 0)

  // ---------------------------------------------------------------------------------------------
  // Specification
  // ---------------------------------------------------------------------------------------------

  /** The readings of the clock from now on, in the order in which they are taken. */
  datatype Clock = Clock(reading: nat -> int, from: nat)
  {
    function Read(i: nat): int { reading(from + i) }

    function Later(n: nat): Clock { Clock(reading, from + n) }
  }

  function Get(m: Counts, s: Subject): nat { if s in m then m[s] else 0 }

  function Inc(m: Counts, s: Subject): Counts { m[s := Get(m, s) + 1] }

  /** A counter that reaches zero is deleted. */
  function Dec(m: Counts, s: Subject): Counts {
    if Get(m, s) <= 1 then m - {s} else m[s := Get(m, s) - 1]
  }

  /** The share in percent, rounded up, and never less than one place. */
  function SubjectCap(maxInflight: nat, maxQueue: int, share: int): (cap: nat)
    requires maxInflight > 0
    ensures cap >= 1
    ensures var sh, capacity := if share <= 0 || share > 100 then 100 else share, maxInflight + maxQueue;
            (capacity > 0 ==> capacity * sh <= 100 * cap < capacity * sh + 100) && (maxQueue >= 0 ==> cap <= capacity)
  {
    var sh := if share <= 0 || share > 100 then 100 else share;
    var capacity := maxInflight + maxQueue;
    if capacity <= 0 then 1 else
      ShareInRange(capacity, sh);
      (capacity * sh + 99) / 100
  }

  lemma ShareInRange(capacity: nat, sh: nat)
    requires 1 <= capacity && 1 <= sh <= 100
    ensures 1 <= capacity * sh <= capacity * 100
  {
    assert capacity * (100 - sh) >= 0 && capacity * (sh - 1) >= 0;
  }

  predicate Expired(c: Config, w: Waiter, now: int) { w.deadline - now < c.minService }

  function Unexpired(c: Config, q: seq<Waiter>, clock: Clock): seq<Waiter> {
    if q == [] then [] else
    var n := |q| - 1;
    Unexpired(c, q[..n], clock) + (if Expired(c, q[n], clock.Read(n)) then [] else [q[n]])
  }

  /** The per-subject counters once the expired waiters have left. */
  function CountsAfterExpiry(c: Config, m: Counts, q: seq<Waiter>, clock: Clock): Counts {
    if q == [] then m else
    var n := |q| - 1;
    var m' := CountsAfterExpiry(c, m, q[..n], clock);
    if Expired(c, q[n], clock.Read(n)) then Dec(m', q[n].subject) else m'
  }

  function DropExpired(c: Config, s: State, clock: Clock): State {
    var q := Unexpired(c, s.queue, clock);
    s.(queue := q, perSubject := CountsAfterExpiry(c, s.perSubject, s.queue, clock),
       shedExpired := s.shedExpired + (if |q| <= |s.queue| then |s.queue| - |q| else 0))
  }

  /** The oldest waiter among those whose subject has the fewest requests in flight. */
  function Best(running: Counts, q: seq<Waiter>): (b: nat)
    requires q != []
    ensures b < |q|
  {
    var n := |q| - 1;
    if n == 0 then 0 else
    var b := Best(running, q[..n]);
    if Get(running, q[n].subject) < Get(running, q[b].subject) then n else b
  }

  lemma {:induction false} BestIsBest(running: Counts, q: seq<Waiter>)
    requires q != []
    ensures var b := Best(running, q);
            && (forall j :: 0 <= j < |q| ==> Get(running, q[b].subject) <= Get(running, q[j].subject))
            && (forall j :: 0 <= j < b ==> Get(running, q[b].subject) < Get(running, q[j].subject))
  {
    var n := |q| - 1;
    if n > 0 {
      BestIsBest(running, q[..n]);
      assert forall j :: 0 <= j < n ==> q[..n][j] == q[j];
    }
  }

  function RemoveAt(q: seq<Waiter>, b: nat): seq<Waiter>
    requires b < |q|
  {
    q[..b] + q[b + 1..]
  }

  function Grant(s: State, b: nat): State
    requires b < |s.queue|
  {
    s.(queue := RemoveAt(s.queue, b), inflight := s.inflight + 1,
       running := Inc(s.running, s.queue[b].subject), admitted := s.admitted + 1)
  }

  /** Fills the free places; also returns the waiters that got one, in the order they got it. */
  function Dispatch(c: Config, s: State, clock: Clock): (State, seq<Waiter>)
    decreases c.maxInflight - s.inflight
  {
    if s.inflight >= c.maxInflight then (s, []) else
    var s1 := DropExpired(c, s, clock);
    if s1.queue == [] then (s1, []) else
    var b := Best(s1.running, s1.queue);
    var (s2, g) := Dispatch(c, Grant(s1, b), clock.Later(|s.queue|));
    (s2, [s1.queue[b]] + g)
  }

  function Arrive(c: Config, s: State, w: Waiter): (State, Arrival) {
    if Get(s.perSubject, w.subject) >= c.subjectCap then (s.(shedShare := s.shedShare + 1), ShedSubjectShare)
    else if s.inflight < c.maxInflight && s.queue == [] then
      (s.(inflight := s.inflight + 1, running := Inc(s.running, w.subject), perSubject := Inc(s.perSubject, w.subject),
          admitted := s.admitted + 1), Admitted)
    else if |s.queue| >= c.maxQueue then (s.(shedFull := s.shedFull + 1), ShedQueueFull)
    else (s.(queue := s.queue + [w], perSubject := Inc(s.perSubject, w.subject)), Queued)
  }

  /** The holder of a place gives it back. */
  function GiveBack(c: Config, s: State, subject: Subject, clock: Clock): (State, seq<Waiter>) {
    Dispatch(c, Freed(s, subject), clock)
  }

  function Freed(s: State, subject: Subject): State {
    s.(inflight := if s.inflight > 0 then s.inflight - 1 else 0,
       running := Dec(s.running, subject), perSubject := Dec(s.perSubject, subject))
  }

  /** A waiter's own deadline fires while it is still in the queue, at position `i`. */
  function TimeOut(s: State, i: nat): State
    requires i < |s.queue|
  {
    s.(queue := RemoveAt(s.queue, i), perSubject := Dec(s.perSubject, s.queue[i].subject),
       shedExpired := s.shedExpired + 1)
  }

  lemma ScanStep(c: Config, m: Counts, q: seq<Waiter>, i: nat, clock: Clock)
    requires i < |q|
    ensures Unexpired(c, q[..i + 1], clock) == Unexpired(c, q[..i], clock) +
            (if Expired(c, q[i], clock.Read(i)) then [] else [q[i]])
    ensures CountsAfterExpiry(c, m, q[..i + 1], clock) ==
            var m' := CountsAfterExpiry(c, m, q[..i], clock);
            if Expired(c, q[i], clock.Read(i)) then Dec(m', q[i].subject) else m'
  {
    assert q[..i + 1][..i] == q[..i];
  }

  lemma BestSnoc(running: Counts, kept: seq<Waiter>, w: Waiter)
    ensures Best(running, kept + [w]) ==
            if kept == [] || Get(running, w.subject) < Get(running, kept[Best(running, kept)].subject) then |kept|
            else Best(running, kept)
  {
    assert (kept + [w])[..|kept|] == kept;
  }

  lemma DispatchOnce(c: Config, s: State, clock: Clock)
    requires s.inflight < c.maxInflight
    ensures var s1 := DropExpired(c, s, clock);
            Dispatch(c, s, clock) ==
            if s1.queue == [] then (s1, [])
            else
              var b := Best(s1.running, s1.queue);
              var d := Dispatch(c, Grant(s1, b), clock.Later(|s.queue|));
              (d.0, [s1.queue[b]] + d.1)
  {
  }

  ghost predicate Scanned(c: Config, q: seq<Waiter>, m: Counts, running: Counts, clock: Clock,
                          kept: seq<Waiter>, counts: Counts, best: nat)
  {
    && kept == Unexpired(c, q, clock) && counts == CountsAfterExpiry(c, m, q, clock)
    && (kept != [] ==> best == Best(running, kept))
  }

  lemma ScannedStep(c: Config, q: seq<Waiter>, i: nat, m: Counts, running: Counts, clock: Clock,
                    kept: seq<Waiter>, counts: Counts, best: nat)
    requires i < |q| && Scanned(c, q[..i], m, running, clock, kept, counts, best)
    ensures kept != [] ==> best < |kept|
    ensures var better := kept == [] || Get(running, q[i].subject) < Get(running, kept[best].subject);
            if Expired(c, q[i], clock.Read(i)) then
              Scanned(c, q[..i + 1], m, running, clock, kept, Dec(counts, q[i].subject), best)
            else Scanned(c, q[..i + 1], m, running, clock, kept + [q[i]], counts, if better then |kept| else best)
  {
    ScanStep(c, m, q, i, clock);
    BestSnoc(running, kept, q[i]);
    if Expired(c, q[i], clock.Read(i)) { assert kept + [] == kept; }
  }

  /** The loop over the waiting list: who stays, what the counters become, and who is served next. */
  method ScanQueue(c: Config, q: seq<Waiter>, m: Counts, running: Counts, clock: Clock)
    returns (kept: seq<Waiter>, counts: Counts, best: nat)
    ensures kept == Unexpired(c, q, clock) && |kept| <= |q|
    ensures counts == CountsAfterExpiry(c, m, q, clock)
    ensures kept != [] ==> best == Best(running, kept)
  {
    kept, counts, best := [], m, 0;
    for i := 0 to |q|
      invariant |kept| <= i
      invariant Scanned(c, q[..i], m, running, clock, kept, counts, best)
    {
      kept, counts, best := ScanOne(c, q, i, m, running, clock, kept, counts, best);
    }
    assert q[..|q|] == q;
  }

  /** The body of that loop. */
  method ScanOne(c: Config, q: seq<Waiter>, i: nat, m: Counts, running: Counts, clock: Clock,
                 kept: seq<Waiter>, counts: Counts, best: nat)
    returns (stays: seq<Waiter>, left: Counts, next: nat)
    requires i < |q| && Scanned(c, q[..i], m, running, clock, kept, counts, best)
    ensures Scanned(c, q[..i + 1], m, running, clock, stays, left, next) && |stays| <= |kept| + 1
  {
    var w := q[i];
    ScannedStep(c, q, i, m, running, clock, kept, counts, best);
    stays, left, next := kept, counts, best;
    if w.deadline - clock.Read(i) < c.minService {
      left := Dec(counts, w.subject);
    } else {
      if kept == [] || Get(running, w.subject) < Get(running, kept[best].subject) { next := |kept|; }
      stays := kept + [w];
    }
  }

  // ---------------------------------------------------------------------------------------------
  // The imperative queue
  // ---------------------------------------------------------------------------------------------

  class AdmissionQueue {
    const cfg: Config
    var inflight: nat
    var queue: seq<Waiter>
    var perSubject: Counts
    var running: Counts
    var admitted: nat
    var shedFull: nat
    var shedShare: nat
    var shedExpired: nat

    ghost function Abs(): State reads this {
      State(inflight, queue, perSubject, running, admitted, shedFull, shedShare, shedExpired)
    }

    constructor (maxInflight: nat, maxQueue: int, share: int, minService: int)
      requires maxInflight > 0
      ensures cfg == Config(maxInflight, maxQueue, SubjectCap(maxInflight, maxQueue, share),
                            if minService <= 0 then 1_000_000 else minService)
      ensures Abs() == IDLE
    {
      cfg := Config(maxInflight, maxQueue, SubjectCap(maxInflight, maxQueue, share),
                    if minService <= 0 then 1_000_000 else minService);
      inflight, queue, perSubject, running := 0, [], map[], map[];
      admitted, shedFull, shedShare, shedExpired := 0, 0, 0, 0;
    }

    /** The locked part of an arrival. */
    method Acquire(w: Waiter) returns (r: Arrival)
      modifies this
      ensures (Abs(), r) == Arrive(cfg, old(Abs()), w)
    {
      if Get(perSubject, w.subject) >= cfg.subjectCap {
        shedShare := shedShare + 1;
        return ShedSubjectShare;
      }
      if inflight < cfg.maxInflight && queue == [] {
        inflight := inflight + 1;
        running := Inc(running, w.subject);
        perSubject := Inc(perSubject, w.subject);
        admitted := admitted + 1;
        return Admitted;
      }
      if |queue| >= cfg.maxQueue {
        shedFull := shedFull + 1;
        return ShedQueueFull;
      }
      queue := queue + [w];
      perSubject := Inc(perSubject, w.subject);
      r := Queued;
    }

    /** One pass over the queue: evicts the expired waiters and finds the next one to serve. */
    method Scan(clock: Clock) returns (best: nat)
      modifies this`queue, this`perSubject, this`shedExpired
      ensures Abs() == DropExpired(cfg, old(Abs()), clock)
      ensures queue != [] ==> best == Best(running, queue)
    {
      var kept, counts;
      kept, counts, best := ScanQueue(cfg, queue, perSubject, running, clock);
      queue, perSubject, shedExpired := kept, counts, shedExpired + |queue| - |kept|;
    }

    method DispatchLocked(clock: Clock) returns (granted: seq<Waiter>)
      modifies this
      ensures (Abs(), granted) == Dispatch(cfg, old(Abs()), clock)
    {
      granted := [];
      var readings := clock;
      ghost var all := Dispatch(cfg, Abs(), clock);
      ghost var rest := all;
      assert [] + rest.1 == rest.1;
      while inflight < cfg.maxInflight
        invariant rest == Dispatch(cfg, Abs(), readings)
        invariant all == (rest.0, granted + rest.1)
      {
        DispatchOnce(cfg, Abs(), readings);
        var looked := |queue|;
        var best := Scan(readings);
        if queue == [] {
          assert granted + [] == granted;
          return;
        }
        var w := ServeAt(best);
        readings := readings.Later(looked);
        rest := Dispatch(cfg, Abs(), readings);
        assert (granted + [w]) + rest.1 == granted + ([w] + rest.1);
        granted := granted + [w];
      }
      assert granted + [] == granted;
    }

    method ServeAt(best: nat) returns (w: Waiter)
      requires best < |queue|
      modifies this
      ensures w == old(queue[best]) && Abs() == Grant(old(Abs()), best)
    {
      w := queue[best];
      queue := queue[..best] + queue[best + 1..];
      inflight := inflight + 1;
      running := Inc(running, w.subject);
      admitted := admitted + 1;
    }

    method Release(subject: Subject, clock: Clock) returns (granted: seq<Waiter>)
      requires inflight > 0
      modifies this
      ensures (Abs(), granted) == GiveBack(cfg, old(Abs()), subject, clock)
    {
      FreePlace(subject);
      granted := DispatchLocked(clock);
    }

    method FreePlace(subject: Subject)
      requires inflight > 0
      modifies this
      ensures Abs() == Freed(old(Abs()), subject)
    {
      inflight := inflight - 1;
      running := Dec(running, subject);
      perSubject := Dec(perSubject, subject);
    }

    /** The locked part of a cancelled wait, when the waiter at position `i` is still in the queue. */
    method Cancel(i: nat)
      requires i < |queue|
      modifies this
      ensures Abs() == TimeOut(old(Abs()), i)
    {
      var w := queue[i];
      queue := queue[..i] + queue[i + 1..];
      perSubject := Dec(perSubject, w.subject);
      shedExpired := shedExpired + 1;
    }
  }

  // ---------------------------------------------------------------------------------------------
  // Accounting, against the multiset of subjects that really hold a place
  // ---------------------------------------------------------------------------------------------

  ghost function Names(q: seq<Waiter>): seq<Subject> { seq(|q|, i requires 0 <= i < |q| => q[i].subject) }

  ghost function Subjects(q: seq<Waiter>): multiset<Subject> { multiset(Names(q)) }

  /** The map holds exactly the multiplicities, and no zeros. */
  ghost predicate Tallies(m: Counts, ms: multiset<Subject>) {
    forall s :: Get(m, s) == ms[s] && (s in m ==> m[s] > 0)
  }

  lemma IncTallies(m: Counts, ms: multiset<Subject>, s: Subject)
    requires Tallies(m, ms)
    ensures Tallies(Inc(m, s), ms + multiset{s})
  {
  }

  lemma DecTallies(m: Counts, ms: multiset<Subject>, s: Subject)
    requires Tallies(m, ms + multiset{s})
    ensures Tallies(Dec(m, s), ms)
  {
    assert Get(m, s) == ms[s] + 1;
    forall x ensures Get(Dec(m, s), x) == ms[x] && (x in Dec(m, s) ==> Dec(m, s)[x] > 0) {
      assert Get(m, x) == (ms + multiset{s})[x];
    }
  }

  lemma SubjectsSnoc(q: seq<Waiter>, w: Waiter)
    ensures Subjects(q + [w]) == Subjects(q) + multiset{w.subject}
  {
    assert Names(q + [w]) == Names(q) + [w.subject];
  }

  lemma SubjectsCons(ms: multiset<Subject>, w: Waiter, q: seq<Waiter>)
    ensures ms + Subjects([w] + q) == (ms + multiset{w.subject}) + Subjects(q)
  {
    assert Names([w] + q) == [w.subject] + Names(q);
  }

  lemma SubjectsRemove(q: seq<Waiter>, b: nat)
    requires b < |q|
    ensures Subjects(q) == Subjects(RemoveAt(q, b)) + multiset{q[b].subject}
  {
    var n := Names(q);
    assert n == n[..b] + ([n[b]] + n[b + 1..]);
    assert Names(RemoveAt(q, b)) == n[..b] + n[b + 1..];
  }

  lemma {:induction false} ExpiryTallies(c: Config, m: Counts, ms: multiset<Subject>, q: seq<Waiter>, clock: Clock)
    requires Tallies(m, ms + Subjects(q))
    ensures Tallies(CountsAfterExpiry(c, m, q, clock), ms + Subjects(Unexpired(c, q, clock)))
    decreases |q|
  {
    if q == [] {
      assert Unexpired(c, q, clock) == q;
    } else {
      var n := |q| - 1;
      var one := multiset{q[n].subject};
      var rest := Unexpired(c, q[..n], clock);
      assert q == q[..n] + [q[n]];
      SubjectsSnoc(q[..n], q[n]);
      assert ms + Subjects(q) == (ms + one) + Subjects(q[..n]);
      ExpiryTallies(c, m, ms + one, q[..n], clock);
      assert (ms + one) + Subjects(rest) == (ms + Subjects(rest)) + one;
      if Expired(c, q[n], clock.Read(n)) {
        assert rest + [] == rest;
        DecTallies(CountsAfterExpiry(c, m, q[..n], clock), ms + Subjects(rest), q[n].subject);
      } else {
        SubjectsSnoc(rest, q[n]);
        assert ms + Subjects(rest + [q[n]]) == (ms + Subjects(rest)) + one;
      }
    }
  }

  ghost predicate ByArrival(q: seq<Waiter>) { forall i, j :: 0 <= i < j < |q| ==> q[i].id < q[j].id }

  lemma {:induction false} UnexpiredLength(c: Config, q: seq<Waiter>, clock: Clock)
    ensures |Unexpired(c, q, clock)| <= |q|
  {
    if q != [] { UnexpiredLength(c, q[..|q| - 1], clock); }
  }

  lemma {:induction false} UnexpiredMembers(c: Config, q: seq<Waiter>, clock: Clock, w: Waiter)
    ensures w in Unexpired(c, q, clock) <==> InTime(c, q, clock, w)
  {
    if q != [] {
      UnexpiredMembers(c, q[..|q| - 1], clock, w);
      InTimeSnoc(c, q, clock, w);
    }
  }

  lemma {:induction false} UnexpiredOrder(c: Config, q: seq<Waiter>, clock: Clock)
    requires ByArrival(q)
    ensures ByArrival(Unexpired(c, q, clock))
  {
    if q != [] {
      var n := |q| - 1;
      var rest := Unexpired(c, q[..n], clock);
      UnexpiredOrder(c, q[..n], clock);
      forall i | 0 <= i < |rest| ensures rest[i].id < q[n].id {
        UnexpiredMembers(c, q[..n], clock, rest[i]);
      }
      if !Expired(c, q[n], clock.Read(n)) { LastKeepsOrder(rest, q[n]); }
    }
  }

  /** The waiter was in time at the moment it was looked at. */
  ghost predicate InTime(c: Config, q: seq<Waiter>, clock: Clock, w: Waiter) {
    exists i :: 0 <= i < |q| && q[i] == w && !Expired(c, w, clock.Read(i))
  }

  lemma InTimeSnoc(c: Config, q: seq<Waiter>, clock: Clock, w: Waiter)
    requires q != []
    ensures var n := |q| - 1;
            InTime(c, q, clock, w) <==> InTime(c, q[..n], clock, w) || (q[n] == w && !Expired(c, w, clock.Read(n)))
  {
    var n := |q| - 1;
    if i :| 0 <= i < |q| && q[i] == w && !Expired(c, w, clock.Read(i)) && i < n { assert q[..n][i] == w; }
    if i :| 0 <= i < n && q[..n][i] == w && !Expired(c, w, clock.Read(i)) { assert q[i] == w; }
  }

  /** The counters say who holds a place and who waits. */
  ghost predicate Books(s: State, holders: multiset<Subject>) {
    Tallies(s.running, holders) && Tallies(s.perSubject, holders + Subjects(s.queue))
  }

  /**
    The accounting invariant.  `holders` is the multiset of subjects that hold a place, `released` the
    number of places given back so far.
  */
  ghost predicate Inv(c: Config, s: State, holders: multiset<Subject>, released: nat) {
    && Books(s, holders)
    && s.inflight == |holders| <= c.maxInflight
    && s.admitted == s.inflight + released
    && WithinCap(c, s.perSubject)
    && |s.queue| <= Max(0, c.maxQueue)
    && ByArrival(s.queue)
  }

  ghost predicate WithinCap(c: Config, m: Counts) { forall x :: Get(m, x) <= c.subjectCap }

  /** Between locked sections a waiting request also means that every place is taken. */
  ghost predicate Settled(c: Config, s: State) { s.queue != [] ==> s.inflight == c.maxInflight }

  lemma DecWithinCap(c: Config, m: Counts, x: Subject)
    requires WithinCap(c, m)
    ensures WithinCap(c, Dec(m, x))
  {
    forall y ensures Get(Dec(m, x), y) <= c.subjectCap { assert Get(m, y) <= c.subjectCap; }
  }

  lemma IncWithinCap(c: Config, m: Counts, x: Subject)
    requires WithinCap(c, m) && Get(m, x) < c.subjectCap
    ensures WithinCap(c, Inc(m, x))
  {
    forall y ensures Get(Inc(m, x), y) <= c.subjectCap { assert Get(m, y) <= c.subjectCap; }
  }

  lemma {:induction false} ExpiryWithinCap(c: Config, m: Counts, q: seq<Waiter>, clock: Clock)
    requires WithinCap(c, m)
    ensures WithinCap(c, CountsAfterExpiry(c, m, q, clock))
  {
    if q != [] {
      var n := |q| - 1;
      ExpiryWithinCap(c, m, q[..n], clock);
      DecWithinCap(c, CountsAfterExpiry(c, m, q[..n], clock), q[n].subject);
    }
  }

  lemma DropExpiredKeeps(c: Config, s: State, clock: Clock, holders: multiset<Subject>, released: nat)
    requires Inv(c, s, holders, released)
    ensures Inv(c, DropExpired(c, s, clock), holders, released)
  {
    ExpiryTallies(c, s.perSubject, holders, s.queue, clock);
    UnexpiredLength(c, s.queue, clock);
    UnexpiredOrder(c, s.queue, clock);
    ExpiryWithinCap(c, s.perSubject, s.queue, clock);
  }

  lemma RemoveKeepsOrder(q: seq<Waiter>, b: nat)
    requires b < |q| && ByArrival(q)
    ensures ByArrival(RemoveAt(q, b))
  {
  }

  lemma LastKeepsOrder(q: seq<Waiter>, w: Waiter)
    requires ByArrival(q) && forall i :: 0 <= i < |q| ==> q[i].id < w.id
    ensures ByArrival(q + [w])
  {
  }

  lemma GrantKeeps(c: Config, s: State, b: nat, holders: multiset<Subject>, released: nat)
    requires Inv(c, s, holders, released) && b < |s.queue| && s.inflight < c.maxInflight
    ensures Inv(c, Grant(s, b), holders + multiset{s.queue[b].subject}, released)
  {
    var x := s.queue[b].subject;
    IncTallies(s.running, holders, x);
    SubjectsRemove(s.queue, b);
    RemoveKeepsOrder(s.queue, b);
    assert holders + Subjects(s.queue) == (holders + multiset{x}) + Subjects(RemoveAt(s.queue, b));
  }

  /** Dispatch keeps the accounts, and stops only when it is full or nobody waits. */
  lemma {:induction false} DispatchKeeps(c: Config, s: State, clock: Clock, holders: multiset<Subject>, released: nat)
    requires Inv(c, s, holders, released)
    ensures var (s', g) := Dispatch(c, s, clock);
            Inv(c, s', holders + Subjects(g), released) && Settled(c, s')
    decreases c.maxInflight - s.inflight
  {
    var (s', g) := Dispatch(c, s, clock);
    if s.inflight >= c.maxInflight {
      assert holders + Subjects(g) == holders;
    } else {
      var s1 := DropExpired(c, s, clock);
      DropExpiredKeeps(c, s, clock, holders, released);
      if s1.queue == [] {
        assert holders + Subjects(g) == holders;
      } else {
        var b := Best(s1.running, s1.queue);
        var w := s1.queue[b];
        GrantKeeps(c, s1, b, holders, released);
        DispatchKeeps(c, Grant(s1, b), clock.Later(|s.queue|), holders + multiset{w.subject}, released);
        var (s2, g2) := Dispatch(c, Grant(s1, b), clock.Later(|s.queue|));
        SubjectsCons(holders, w, g2);
      }
    }
  }

  lemma AdmitKeeps(c: Config, s: State, w: Waiter, holders: multiset<Subject>, released: nat)
    requires Inv(c, s, holders, released) && Arrive(c, s, w).1 == Admitted
    ensures Inv(c, Arrive(c, s, w).0, holders + multiset{w.subject}, released)
  {
    IncTallies(s.running, holders, w.subject);
    IncTallies(s.perSubject, holders + Subjects(s.queue), w.subject);
    IncWithinCap(c, s.perSubject, w.subject);
    assert (holders + multiset{w.subject}) + Subjects(s.queue) == holders + Subjects(s.queue) + multiset{w.subject};
  }

  lemma EnqueueKeeps(c: Config, s: State, w: Waiter, holders: multiset<Subject>, released: nat)
    requires Inv(c, s, holders, released) && Arrive(c, s, w).1 == Queued
    requires forall i :: 0 <= i < |s.queue| ==> s.queue[i].id < w.id
    ensures Inv(c, Arrive(c, s, w).0, holders, released)
  {
    IncTallies(s.perSubject, holders + Subjects(s.queue), w.subject);
    IncWithinCap(c, s.perSubject, w.subject);
    SubjectsSnoc(s.queue, w);
    assert holders + Subjects(s.queue + [w]) == holders + Subjects(s.queue) + multiset{w.subject};
    LastKeepsOrder(s.queue, w);
  }

  lemma ArriveKeeps(c: Config, s: State, w: Waiter, holders: multiset<Subject>, released: nat)
    requires Inv(c, s, holders, released) && Settled(c, s) && (forall i :: 0 <= i < |s.queue| ==> s.queue[i].id < w.id)
    ensures var (s', r) := Arrive(c, s, w);
            Inv(c, s', if r == Admitted then holders + multiset{w.subject} else holders, released) && Settled(c, s')
  {
    var r := Arrive(c, s, w).1;
    if r == Admitted { AdmitKeeps(c, s, w, holders, released); }
    if r == Queued { EnqueueKeeps(c, s, w, holders, released); }
  }

  lemma FreePlaceKeeps(c: Config, s: State, x: Subject, holders: multiset<Subject>, released: nat)
    requires Inv(c, s, holders, released) && x in holders
    ensures Inv(c, Freed(s, x), holders - multiset{x}, released + 1)
  {
    assert |holders| > 0;
    var rest := holders - multiset{x};
    assert holders == rest + multiset{x};
    DecTallies(s.running, rest, x);
    assert holders + Subjects(s.queue) == (rest + Subjects(s.queue)) + multiset{x};
    DecTallies(s.perSubject, rest + Subjects(s.queue), x);
    DecWithinCap(c, s.perSubject, x);
  }

  lemma GiveBackKeeps(c: Config, s: State, x: Subject, clock: Clock, holders: multiset<Subject>, released: nat)
    requires Inv(c, s, holders, released) && x in holders
    ensures var (s', g) := GiveBack(c, s, x, clock);
            Inv(c, s', (holders - multiset{x}) + Subjects(g), released + 1) && Settled(c, s')
  {
    FreePlaceKeeps(c, s, x, holders, released);
    DispatchKeeps(c, Freed(s, x), clock, holders - multiset{x}, released + 1);
  }

  lemma TimeOutKeeps(c: Config, s: State, i: nat, holders: multiset<Subject>, released: nat)
    requires Inv(c, s, holders, released) && Settled(c, s) && i < |s.queue|
    ensures Inv(c, TimeOut(s, i), holders, released) && Settled(c, TimeOut(s, i))
  {
    var x := s.queue[i].subject;
    SubjectsRemove(s.queue, i);
    RemoveKeepsOrder(s.queue, i);
    assert holders + Subjects(s.queue) == (holders + Subjects(RemoveAt(s.queue, i))) + multiset{x};
    DecTallies(s.perSubject, holders + Subjects(RemoveAt(s.queue, i)), x);
    DecWithinCap(c, s.perSubject, x);
  }

  // ---------------------------------------------------------------------------------------------
  // Runs
  // ---------------------------------------------------------------------------------------------

  /** The observer's books beside the state: who holds a place, how many were given back, the next arrival number. */
  datatype World = World(state: State, holders: multiset<Subject>, released: nat, next: nat)

  datatype Event =
    | RequestArrives(subject: Subject, deadline: int)
    | PlaceReturned(subject: Subject, clock: Clock)
    | DeadlineFires(position: nat)
    | AbandonCounted

  const START := World(IDLE, multiset{}, 0, 0)

  /** Only a holder can give a place back, and only a waiter can time out; other events change nothing. */
  ghost function Step(c: Config, w: World, e: Event): World {
    match e
    case RequestArrives(x, deadline) =>
      var (s, r) := Arrive(c, w.state, Waiter(w.next, x, deadline));
      World(s, if r == Admitted then w.holders + multiset{x} else w.holders, w.released, w.next + 1)
    case PlaceReturned(x, clock) =>
      if x !in w.holders then w else
      var (s, g) := GiveBack(c, w.state, x, clock);
      World(s, (w.holders - multiset{x}) + Subjects(g), w.released + 1, w.next)
    case DeadlineFires(i) =>
      if i < |w.state.queue| then w.(state := TimeOut(w.state, i)) else w
    case AbandonCounted => // a place granted too late has been given back, as a release; now it is counted
      w.(state := w.state.(shedExpired := w.state.shedExpired + 1))
  }

  ghost function After(c: Config, evs: seq<Event>): World {
    if evs == [] then START else Step(c, After(c, evs[..|evs| - 1]), evs[|evs| - 1])
  }

  ghost predicate WorldInv(c: Config, w: World) {
    && Inv(c, w.state, w.holders, w.released) && Settled(c, w.state)
    && Numbered(w.state.queue, w.next)
  }

  /** The state after the first pass of a dispatch that grants anything, and whom it served. */
  function AfterGrant(c: Config, s: State, clock: Clock): (State, Waiter)
    requires DropExpired(c, s, clock).queue != []
  {
    var s1 := DropExpired(c, s, clock);
    var b := Best(s1.running, s1.queue);
    (Grant(s1, b), s1.queue[b])
  }

  lemma DispatchCons(c: Config, s: State, clock: Clock)
    requires Dispatch(c, s, clock).1 != []
    ensures s.inflight < c.maxInflight && DropExpired(c, s, clock).queue != []
    ensures var (s', h) := AfterGrant(c, s, clock);
            var d := Dispatch(c, s', clock.Later(|s.queue|));
            Dispatch(c, s, clock) == (d.0, [h] + d.1) && s'.inflight == s.inflight + 1
  {
    DispatchOnce(c, s, clock);
  }

  lemma RestWaited(q: seq<Waiter>, b: nat, w: Waiter)
    requires b < |q| && w in RemoveAt(q, b)
    ensures w in q
  {
  }

  /** Whoever is waiting after a dispatch, or was granted a place by it, was waiting before. */
  lemma {:induction false} DispatchQueue(c: Config, s: State, clock: Clock, w: Waiter)
    requires w in Dispatch(c, s, clock).0.queue || w in Dispatch(c, s, clock).1
    ensures w in s.queue
    decreases c.maxInflight - s.inflight
  {
    if s.inflight < c.maxInflight {
      var s1 := DropExpired(c, s, clock);
      DispatchOnce(c, s, clock);
      if s1.queue != [] {
        var (s2, h) := AfterGrant(c, s, clock);
        if w != h {
          DispatchQueue(c, s2, clock.Later(|s.queue|), w);
          RestWaited(s1.queue, Best(s1.running, s1.queue), w);
        }
      }
      UnexpiredMembers(c, s.queue, clock, w);
    }
  }

  ghost predicate Numbered(q: seq<Waiter>, next: nat) { forall w :: w in q ==> w.id < next }

  lemma GiveBackNumbered(c: Config, s: State, x: Subject, clock: Clock, next: nat)
    requires Numbered(s.queue, next)
    ensures Numbered(GiveBack(c, s, x, clock).0.queue, next)
  {
    forall w | w in GiveBack(c, s, x, clock).0.queue ensures w.id < next { DispatchQueue(c, Freed(s, x), clock, w); }
  }

  lemma ArrivalStep(c: Config, w: World, e: Event)
    requires WorldInv(c, w) && e.RequestArrives?
    ensures WorldInv(c, Step(c, w, e))
  {
    var x := Waiter(w.next, e.subject, e.deadline);
    assert forall i :: 0 <= i < |w.state.queue| ==> w.state.queue[i] in w.state.queue;
    ArriveKeeps(c, w.state, x, w.holders, w.released);
  }

  lemma GiveBackStep(c: Config, w: World, e: Event)
    requires WorldInv(c, w) && e.PlaceReturned?
    ensures WorldInv(c, Step(c, w, e))
  {
    if e.subject in w.holders {
      GiveBackKeeps(c, w.state, e.subject, e.clock, w.holders, w.released);
      GiveBackNumbered(c, w.state, e.subject, e.clock, w.next);
    }
  }

  lemma TimeOutStep(c: Config, w: World, e: Event)
    requires WorldInv(c, w) && e.DeadlineFires?
    ensures WorldInv(c, Step(c, w, e))
  {
    if e.position < |w.state.queue| {
      TimeOutKeeps(c, w.state, e.position, w.holders, w.released);
    }
  }

  lemma StepKeeps(c: Config, w: World, e: Event)
    requires WorldInv(c, w)
    ensures WorldInv(c, Step(c, w, e))
  {
    match e {
      case RequestArrives(_, _) => ArrivalStep(c, w, e);
      case PlaceReturned(_, _) => GiveBackStep(c, w, e);
      case DeadlineFires(_) => TimeOutStep(c, w, e);
      case AbandonCounted =>
    }
  }

  /** Admission accounting: the invariant holds after every arrival, release, time-out and abandonment, in any order. */
  lemma {:induction false} AccountsBalance(c: Config, evs: seq<Event>)
    ensures WorldInv(c, After(c, evs))
  {
    if evs != [] {
      AccountsBalance(c, evs[..|evs| - 1]);
      StepKeeps(c, After(c, evs[..|evs| - 1]), evs[|evs| - 1]);
    } else {
      assert Tallies(map[], multiset{} + Subjects([]));
    }
  }

  // ---------------------------------------------------------------------------------------------
  // Fairness
  // ---------------------------------------------------------------------------------------------

  /** One pass of a dispatch that granted a place: the state and the clock it started with, and whom it served. */
  datatype Pass = Pass(state: State, clock: Clock, served: Waiter)
  {
    /** Those who were in time when the pass looked at them. */
    function Waiting(c: Config): seq<Waiter> { Unexpired(c, state.queue, clock) }
  }

  /** The pass served the best of those in time. */
  ghost predicate PassOk(c: Config, p: Pass) {
    && p.state.inflight < c.maxInflight && DropExpired(c, p.state, p.clock).queue != []
    && p.served == AfterGrant(c, p.state, p.clock).1
  }

  /** The next pass starts where this one ended, with later readings of the same clock. */
  ghost predicate HandsOn(c: Config, p: Pass, next: Pass) {
    && PassOk(c, p)
    && next.state == AfterGrant(c, p.state, p.clock).0 && next.clock == p.clock.Later(|p.state.queue|)
  }

  ghost predicate Chain(c: Config, passes: seq<Pass>) {
    && (forall k {:trigger PassOk(c, passes[k])} :: 0 <= k < |passes| ==> PassOk(c, passes[k]))
    && (forall j, k {:trigger HandsOn(c, passes[j], passes[k])} :: 0 <= j && k == j + 1 < |passes| ==>
          HandsOn(c, passes[j], passes[k]))
  }

  ghost function Served(passes: seq<Pass>): seq<Waiter> {
    seq(|passes|, k requires 0 <= k < |passes| => passes[k].served)
  }

  lemma ConsOk(c: Config, p: Pass, rest: seq<Pass>, k: nat)
    requires PassOk(c, p) && Chain(c, rest) && k <= |rest|
    ensures PassOk(c, ([p] + rest)[k])
  {
    if k > 0 { assert PassOk(c, rest[k - 1]); }
  }

  lemma ConsHandsOn(c: Config, p: Pass, rest: seq<Pass>, j: nat)
    requires Chain(c, rest) && (rest != [] ==> HandsOn(c, p, rest[0])) && j < |rest|
    ensures HandsOn(c, ([p] + rest)[j], ([p] + rest)[j + 1])
  {
    if j > 0 { assert HandsOn(c, rest[j - 1], rest[j]); }
  }

  lemma ChainCons(c: Config, p: Pass, rest: seq<Pass>)
    requires PassOk(c, p) && Chain(c, rest) && (rest != [] ==> HandsOn(c, p, rest[0]))
    ensures Chain(c, [p] + rest)
  {
    var all := [p] + rest;
    forall k | 0 <= k < |all| ensures PassOk(c, all[k]) { ConsOk(c, p, rest, k); }
    forall j, k | 0 <= j && k == j + 1 < |all| ensures HandsOn(c, all[j], all[k]) { ConsHandsOn(c, p, rest, j); }
  }

  /** A dispatch is such a chain of passes. */
  lemma {:induction false} DispatchPasses(c: Config, s: State, clock: Clock) returns (passes: seq<Pass>)
    ensures Chain(c, passes) && Served(passes) == Dispatch(c, s, clock).1
    ensures passes != [] ==> passes[0].state == s && passes[0].clock == clock
    decreases c.maxInflight - s.inflight
  {
    passes := [];
    if Dispatch(c, s, clock).1 != [] {
      DispatchCons(c, s, clock);
      var (s', h) := AfterGrant(c, s, clock);
      var rest := DispatchPasses(c, s', clock.Later(|s.queue|));
      passes := FirstPass(c, s, clock, rest);
    }
  }

  lemma FirstPass(c: Config, s: State, clock: Clock, rest: seq<Pass>) returns (passes: seq<Pass>)
    requires s.inflight < c.maxInflight && DropExpired(c, s, clock).queue != [] && Chain(c, rest)
    requires rest != [] ==> rest[0].state == AfterGrant(c, s, clock).0 && rest[0].clock == clock.Later(|s.queue|)
    ensures Chain(c, passes) && Served(passes) == [AfterGrant(c, s, clock).1] + Served(rest)
    ensures passes != [] && passes[0].state == s && passes[0].clock == clock
  {
    var p := Pass(s, clock, AfterGrant(c, s, clock).1);
    ChainCons(c, p, rest);
    passes := [p] + rest;
  }

  /** `h` comes before `w`: its subject has fewer in flight, or as many, and it is the older request. */
  ghost predicate Preferred(running: Counts, h: Waiter, w: Waiter) {
    || Get(running, h.subject) < Get(running, w.subject)
    || (Get(running, h.subject) == Get(running, w.subject) && h.id < w.id)
  }

  lemma BestPreferred(running: Counts, q: seq<Waiter>, w: Waiter)
    requires q != [] && ByArrival(q) && w in q && w != q[Best(running, q)]
    ensures Preferred(running, q[Best(running, q)], w)
  {
    BestIsBest(running, q);
    var j :| 0 <= j < |q| && q[j] == w;
  }

  lemma StillWaiting(q: seq<Waiter>, b: nat, w: Waiter)
    requires b < |q| && w in q && w != q[b]
    ensures w in RemoveAt(q, b)
  {
    var j :| 0 <= j < |q| && q[j] == w;
    assert RemoveAt(q, b)[if j < b then j else j - 1] == w;
  }

  lemma AfterGrantOrder(c: Config, s: State, clock: Clock)
    requires ByArrival(s.queue) && DropExpired(c, s, clock).queue != []
    ensures ByArrival(AfterGrant(c, s, clock).0.queue)
  {
    var s1 := DropExpired(c, s, clock);
    UnexpiredOrder(c, s.queue, clock);
    RemoveKeepsOrder(s1.queue, Best(s1.running, s1.queue));
  }

  lemma FirstPassFair(c: Config, s: State, clock: Clock, w: Waiter)
    requires ByArrival(s.queue) && DropExpired(c, s, clock).queue != []
    ensures InTime(c, s.queue, clock, AfterGrant(c, s, clock).1)
    ensures w in Unexpired(c, s.queue, clock) && w != AfterGrant(c, s, clock).1 ==>
              Preferred(s.running, AfterGrant(c, s, clock).1, w)
  {
    var h := AfterGrant(c, s, clock).1;
    UnexpiredMembers(c, s.queue, clock, h);
    UnexpiredOrder(c, s.queue, clock);
    if w in Unexpired(c, s.queue, clock) && w != h { BestPreferred(s.running, Unexpired(c, s.queue, clock), w); }
  }

  lemma {:induction false} ChainOrder(c: Config, passes: seq<Pass>, k: nat)
    requires Chain(c, passes) && k < |passes| && ByArrival(passes[0].state.queue)
    ensures ByArrival(passes[k].state.queue)
  {
    if k > 0 {
      ChainOrder(c, passes, k - 1);
      assert HandsOn(c, passes[k - 1], passes[k]);
      AfterGrantOrder(c, passes[k - 1].state, passes[k - 1].clock);
    }
  }

  /**
    Fair dispatch: in every pass, the place goes to somebody who was in time when looked at, and to the oldest
    request among those whose subject has the fewest in flight, compared with everyone the pass found in time.
    In flight are those that held a place before the dispatch, and those served so far.
  */
  lemma DispatchFair(c: Config, passes: seq<Pass>, k: nat, w: Waiter, holders: multiset<Subject>, released: nat)
    requires Chain(c, passes) && k < |passes| && ByArrival(passes[0].state.queue)
    ensures InTime(c, passes[k].state.queue, passes[k].clock, passes[k].served)
    ensures w in passes[k].Waiting(c) && w != passes[k].served ==>
            Preferred(passes[k].state.running, passes[k].served, w)
    ensures Inv(c, passes[0].state, holders, released) && w in passes[k].Waiting(c) && w != passes[k].served ==>
            FewerOrOlder(holders + Subjects(Served(passes[..k])), passes[k].served, w)
  {
    ChainOrder(c, passes, k);
    assert PassOk(c, passes[k]);
    FirstPassFair(c, passes[k].state, passes[k].clock, w);
    if Inv(c, passes[0].state, holders, released) { PassBooks(c, passes, k, holders, released); }
  }

  ghost predicate FewerOrOlder(inFlight: multiset<Subject>, h: Waiter, w: Waiter) {
    inFlight[h.subject] < inFlight[w.subject] || (inFlight[h.subject] == inFlight[w.subject] && h.id < w.id)
  }

  lemma AfterGrantKeeps(c: Config, p: Pass, holders: multiset<Subject>, released: nat)
    requires Inv(c, p.state, holders, released) && PassOk(c, p)
    ensures Inv(c, AfterGrant(c, p.state, p.clock).0, holders + multiset{p.served.subject}, released)
  {
    var s1 := DropExpired(c, p.state, p.clock);
    DropExpiredKeeps(c, p.state, p.clock, holders, released);
    GrantKeeps(c, s1, Best(s1.running, s1.queue), holders, released);
  }

  lemma ServedSnoc(passes: seq<Pass>, k: nat, holders: multiset<Subject>)
    requires 0 < k <= |passes|
    ensures holders + Subjects(Served(passes[..k])) ==
            (holders + Subjects(Served(passes[..k - 1]))) + multiset{passes[k - 1].served.subject}
  {
    assert Served(passes[..k]) == Served(passes[..k - 1]) + [passes[k - 1].served];
    SubjectsSnoc(Served(passes[..k - 1]), passes[k - 1].served);
  }

  /** The counters of each pass are exact: those who held a place before, and those served so far. */
  lemma {:induction false} PassBooks(c: Config, passes: seq<Pass>, k: nat, holders: multiset<Subject>, released: nat)
    requires Chain(c, passes) && k < |passes| && Inv(c, passes[0].state, holders, released)
    ensures Inv(c, passes[k].state, holders + Subjects(Served(passes[..k])), released)
  {
    if k == 0 {
      assert Served(passes[..0]) == [] && Names([]) == [];
      assert holders + Subjects(Served(passes[..0])) == holders;
    } else {
      PassBooks(c, passes, k - 1, holders, released);
      assert HandsOn(c, passes[k - 1], passes[k]);
      AfterGrantKeeps(c, passes[k - 1], holders + Subjects(Served(passes[..k - 1])), released);
      ServedSnoc(passes, k, holders);
    }
  }

  /** Whenever `w` is looked at in a pass over `q`, it is in time. */
  ghost predicate NeverLate(c: Config, q: seq<Waiter>, clock: Clock, w: Waiter) {
    forall i :: 0 <= i < |q| && q[i] == w ==> !Expired(c, w, clock.Read(i))
  }

  lemma KeptInTime(c: Config, q: seq<Waiter>, clock: Clock, w: Waiter)
    requires w in q && NeverLate(c, q, clock, w)
    ensures w in Unexpired(c, q, clock)
  {
    var i :| 0 <= i < |q| && q[i] == w;
    assert !Expired(c, w, clock.Read(i));
    UnexpiredMembers(c, q, clock, w);
  }

  lemma StaysQueued(c: Config, s: State, clock: Clock, w: Waiter)
    requires w in s.queue && NeverLate(c, s.queue, clock, w)
    ensures w in DropExpired(c, s, clock).queue
    ensures w != AfterGrant(c, s, clock).1 ==> w in AfterGrant(c, s, clock).0.queue
  {
    KeptInTime(c, s.queue, clock, w);
    var s1 := DropExpired(c, s, clock);
    if w != AfterGrant(c, s, clock).1 { StillWaiting(s1.queue, Best(s1.running, s1.queue), w); }
  }

  lemma {:induction false} StaysInChain(c: Config, passes: seq<Pass>, k: nat, w: Waiter)
    requires Chain(c, passes) && k < |passes| && w in passes[0].state.queue
    requires forall i :: 0 <= i < k ==> NeverLate(c, passes[i].state.queue, passes[i].clock, w) && passes[i].served != w
    ensures w in passes[k].state.queue
  {
    if k > 0 {
      StaysInChain(c, passes, k - 1, w);
      assert HandsOn(c, passes[k - 1], passes[k]);
      StaysQueued(c, passes[k - 1].state, passes[k - 1].clock, w);
    }
  }

  /** A request that was in time whenever it was looked at waits in every pass until it is served. */
  lemma WaitsInTime(c: Config, passes: seq<Pass>, k: nat, w: Waiter)
    requires Chain(c, passes) && k < |passes| && w in passes[0].state.queue
    requires forall i :: 0 <= i <= k ==> NeverLate(c, passes[i].state.queue, passes[i].clock, w)
    requires forall i :: 0 <= i < k ==> passes[i].served != w
    ensures w in passes[k].Waiting(c)
  {
    StaysInChain(c, passes, k, w);
    KeptInTime(c, passes[k].state.queue, passes[k].clock, w);
  }

  /**
    When the first request of a subject is turned away: exactly when the queue is full and it could not
    be admitted at once.
  */
  lemma FirstRequestShed(c: Config, w: World, x: Subject, deadline: int)
    requires WorldInv(c, w) && c.maxInflight >= 1 && c.subjectCap >= 1 && Get(w.state.perSubject, x) == 0
    ensures Arrive(c, w.state, Waiter(w.next, x, deadline)).1 in {ShedSubjectShare, ShedQueueFull} <==>
            |w.state.queue| >= c.maxQueue && w.state.inflight == c.maxInflight
  {
  }

  /**
    Arrival guarantee: while one subject alone occupies the places and the queue, another one's first request
    is never shed.
  */
  lemma NewcomerIsNeverShed(c: Config, w: World, hog: Subject, x: Subject, deadline: int)
    requires WorldInv(c, w) && c.maxInflight >= 1 && c.maxQueue >= 0 && 1 <= c.subjectCap < c.maxInflight + c.maxQueue
    requires hog != x && forall y :: y in w.holders + Subjects(w.state.queue) ==> y == hog
    ensures Arrive(c, w.state, Waiter(w.next, x, deadline)).1 in {Admitted, Queued}
  {
    var all := w.holders + Subjects(w.state.queue);
    assert Get(w.state.perSubject, x) == all[x] == 0;
    FirstRequestShed(c, w, x, deadline);
    assert |all| == w.state.inflight + |w.state.queue|;
    OnlyOne(all, hog);
    assert Get(w.state.perSubject, hog) == all[hog];
  }

  lemma OnlyOne(ms: multiset<Subject>, x: Subject)
    requires forall y :: y in ms ==> y == x
    ensures |ms| == ms[x]
  {
    assert ms == multiset{}[x := ms[x]];
  }

  // ---------------------------------------------------------------------------------------------
  // Every request is accounted for
  // ---------------------------------------------------------------------------------------------

  /**
    The answer to an arrival, told from who holds a place and who waits: too large a share, a free place, a full
    queue, or a place in the queue.  Exactly one counter moves, or the queue grows by the request.
  */
  lemma ArriveExactly(c: Config, evs: seq<Event>, x: Subject, deadline: int)
    ensures var w := After(c, evs);
            var mine, q := w.holders[x] + Subjects(w.state.queue)[x], w.state.queue;
            var (s', r) := Arrive(c, w.state, Waiter(w.next, x, deadline));
            && (r == ShedSubjectShare <==> mine >= c.subjectCap)
            && (r == Admitted <==> mine < c.subjectCap && |w.holders| < c.maxInflight)
            && (r == ShedQueueFull <==> mine < c.subjectCap && |w.holders| >= c.maxInflight && |q| >= c.maxQueue)
            && (r == Queued <==> mine < c.subjectCap && |w.holders| >= c.maxInflight && |q| < c.maxQueue)
            && s'.queue == (if r == Queued then q + [Waiter(w.next, x, deadline)] else q)
            && s'.shedShare == w.state.shedShare + (if r == ShedSubjectShare then 1 else 0)
            && s'.shedFull == w.state.shedFull + (if r == ShedQueueFull then 1 else 0)
            && s'.admitted == w.state.admitted + (if r == Admitted then 1 else 0)
            && s'.shedExpired == w.state.shedExpired
  {
    AccountsBalance(c, evs);
    var w := After(c, evs);
    assert Get(w.state.perSubject, x) == (w.holders + Subjects(w.state.queue))[x];
  }

  ghost function Abandons(evs: seq<Event>): nat {
    if evs == [] then 0
    else Abandons(evs[..|evs| - 1]) + (if evs[|evs| - 1].AbandonCounted? then 1 else 0)
  }

  function Gone(s: State): nat { s.admitted + s.shedFull + s.shedShare + s.shedExpired }

  /** A dispatch serves or sheds those who leave the queue, and counts each of them once. */
  lemma {:induction false} DispatchCounts(c: Config, s: State, clock: Clock)
    ensures var (s', g) := Dispatch(c, s, clock);
            Gone(s') + |s'.queue| == Gone(s) + |s.queue| && s'.admitted == s.admitted + |g|
            && s'.shedFull == s.shedFull && s'.shedShare == s.shedShare
    decreases c.maxInflight - s.inflight
  {
    if s.inflight < c.maxInflight {
      var s1 := DropExpired(c, s, clock);
      DispatchOnce(c, s, clock);
      UnexpiredLength(c, s.queue, clock);
      if s1.queue != [] {
        DispatchCounts(c, Grant(s1, Best(s1.running, s1.queue)), clock.Later(|s.queue|));
      }
    }
  }

  /**
    Conservation: of the requests that have arrived, each was admitted, is waiting, or was shed and counted for
    one reason; a place that was granted too late is counted once more when it is given up.
  */
  lemma {:induction false} EveryRequestCounted(c: Config, evs: seq<Event>)
    ensures var w := After(c, evs); w.next + Abandons(evs) == Gone(w.state) + |w.state.queue|
  {
    if evs != [] {
      var front, e := evs[..|evs| - 1], evs[|evs| - 1];
      EveryRequestCounted(c, front);
      CountedStep(c, After(c, front), e);
    }
  }

  lemma CountedStep(c: Config, w: World, e: Event)
    ensures var w' := Step(c, w, e);
            Gone(w'.state) + |w'.state.queue| ==
            Gone(w.state) + |w.state.queue| + (w'.next - w.next) + (if e.AbandonCounted? then 1 else 0)
  {
    if e.PlaceReturned? { DispatchCounts(c, Freed(w.state, e.subject), e.clock); }
  }
}
