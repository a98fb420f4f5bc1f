/**
  What holds along every history of one tracker, and of several trackers that share a clock:
  monotone epochs, permanent quarantine, the failover rate limit and the single authority.
*/
module EpochHistory {
  import opened Basics
  import opened EpochFencing

  datatype Event = Present(msg: Option<Token>, now: Instant, leafOk: bool)

  ghost function Step(c: Config, s: State, e: Event): (State, Outcome) {
    Transition(c, s, e.msg, e.now, e.leafOk)
  }

  /** The state after a whole history, starting from a tracker that has just been built. */
  ghost function After(c: Config, evs: seq<Event>): State {
    if evs == [] then INITIAL else Step(c, After(c, evs[..|evs| - 1]), evs[|evs| - 1]).0
  }

  /** The payloads installed along a history, oldest first (traced or not: `current` changed). */
  ghost function Installs(c: Config, evs: seq<Event>): seq<Payload> {
    if evs == [] then [] else
    var front, e := evs[..|evs| - 1], evs[|evs| - 1];
    Installs(c, front) + (if Step(c, After(c, front), e).1.Installed? then [e.msg.value.payload] else [])
  }

  /** The shared clock never goes back along the history, and no event is later than `t`. */
  ghost predicate ClockUpTo(evs: seq<Event>, t: Instant) {
    && (forall i, j :: 0 <= i <= j < |evs| ==> evs[i].now <= evs[j].now)
    && (forall i :: 0 <= i < |evs| ==> evs[i].now <= t)
  }

  // ---------------------------------------------------------------------------------------------
  // Fencing history
  // ---------------------------------------------------------------------------------------------

  /** A refused (or redelivered) token changes neither the epoch nor the quarantine. */
  lemma RefusalKeepsEpoch(c: Config, s: State, e: Event)
    ensures var (s', r) := Step(c, s, e);
            !r.Installed? ==> s'.current == s.current && s'.quarantined == s.quarantined
  {
  }

  /** ... and it touches the failover log exactly when it is an automatic token that got as far as the budget. */
  lemma RefusalAndBudget(c: Config, s: State, e: Event)
    requires Step(c, s, e).1.Refused?
    ensures var (s', r) := Step(c, s, e);
            (s'.autoLog != s.autoLog ==>
               r.reason in {BudgetExhausted, EmptyRoster, RosterUnknownCell, AuthorityNotInRoster})
    ensures var (s', r) := Step(c, s, e);
            r.reason in {EmptyRoster, RosterUnknownCell, AuthorityNotInRoster} &&
            EffectiveMode(e.msg.value.payload) == MODE_AUTO
            ==> s'.autoLog == Live(s.autoLog, e.now) + [e.now]
  {
  }

  /** Epochs only move forward: later states hold a higher N or the very same epoch, and quarantine grows. */
  lemma {:induction false} EpochsMoveForward(c: Config, evs: seq<Event>, k: nat)
    requires k <= |evs|
    ensures var s, s' := After(c, evs[..k]), After(c, evs);
            && s.quarantined <= s'.quarantined
            && (s.current.Some? ==>
                && s'.current.Some?
                && (s'.current == s.current || s.current.value.payload.n < s'.current.value.payload.n))
    decreases |evs|
  {
    if k == |evs| {
      assert evs[..k] == evs;
    } else {
      var front := evs[..|evs| - 1];
      EpochsMoveForward(c, front, k);
      assert front[..k] == evs[..k];
      StepEffect(c, After(c, front), evs[|evs| - 1]);
    }
  }

  /** One N is never bound to two payloads: installed numbers strictly increase, and the last one is current. */
  lemma {:induction false} InstalledNumbersIncrease(c: Config, evs: seq<Event>)
    ensures Numbered(Installs(c, evs), After(c, evs).current)
  {
    if evs != [] {
      var front, e := evs[..|evs| - 1], evs[|evs| - 1];
      InstalledNumbersIncrease(c, front);
      var s := After(c, front);
      StepEffect(c, s, e);
      if Step(c, s, e).1.Installed? {
        NumberedSnoc(Installs(c, front), s.current, Step(c, s, e).0.current.value);
      }
    }
  }

  ghost predicate Numbered(h: seq<Payload>, cur: Option<Epoch>) {
    && (forall i, j :: 0 <= i < j < |h| ==> h[i].n < h[j].n)
    && (h == [] <==> cur.None?)
    && (h != [] ==> cur.value.payload == h[|h| - 1])
  }

  lemma NumberedSnoc(h: seq<Payload>, cur: Option<Epoch>, next: Epoch)
    requires Numbered(h, cur)
    requires cur.Some? ==> cur.value.payload.n < next.payload.n
    ensures Numbered(h + [next.payload], Some(next))
  {
  }

  /** A cell that is quarantined in its own tracker never obtains an epoch again. */
  lemma QuarantineIsForever(c: Config, evs: seq<Event>, k: nat, t: Instant)
    requires k <= |evs| && c.cell in After(c, evs[..k]).quarantined
    ensures !ServiceAt(c, After(c, evs), t).Serving?
  {
    EpochsMoveForward(c, evs, k);
  }

  // ---------------------------------------------------------------------------------------------
  // Single authority
  // ---------------------------------------------------------------------------------------------

  /** The instant from which the holder of token `j` of a sequence may serve. */
  function LeaseStart(c: Config, toks: seq<Payload>, j: nat): Instant
    requires j < |toks|
  {
    if j == 0 then IssuedAt(c, toks[j]) else Max(IssuedAt(c, toks[j]), ExpiresAt(c, toks[j - 1]))
  }

  /** Whatever a cell was presented with, it serves only inside the lease of its last installed token. */
  lemma {:induction false} ServesInsideLease(c: Config, evs: seq<Event>, t: Instant)
    requires ClockUpTo(evs, t)
    requires ServiceAt(c, After(c, evs), t).Serving?
    ensures InOwnLease(c, Installs(c, evs), t)
  {
    LeaseInvariantHolds(c, evs, t);
  }

  /** `t` lies in the lease of the last of the tokens that the cell itself has installed, and the cell holds it. */
  ghost predicate InOwnLease(c: Config, h: seq<Payload>, t: Instant) {
    && h != [] && h[|h| - 1].authority == c.cell
    && LeaseStart(c, h, |h| - 1) <= t < ExpiresAt(c, h[|h| - 1])
  }

  /** `h` has been installed, `cur` is the current epoch and `last` the time of the last event. */
  ghost predicate LeaseInvariant(c: Config, h: seq<Payload>, cur: Option<Epoch>, last: Instant) {
    if h == [] then cur.None? else
    var j := |h| - 1;
    && cur.Some? && cur.value.payload == h[j] && cur.value.expiresAt == ExpiresAt(c, h[j])
    && IssuedAt(c, h[j]) <= cur.value.notBefore
    && (j > 0 ==> ExpiresAt(c, h[j - 1]) <= Max(cur.value.notBefore, last))
  }

  /** What one presentation does to the current epoch and to the installed payloads. */
  lemma StepEffect(c: Config, s: State, e: Event)
    ensures var (s', r) := Step(c, s, e);
            if r.Installed? then
              && e.msg.Some?
              && var p := e.msg.value.payload;
                 && (s.current.Some? ==> s.current.value.payload.n < p.n)
                 && s'.current == Some(Epoch(p, IssuedAt(c, p), ExpiresAt(c, p), NotBefore(c, s, p, e.now)))
                 && s'.quarantined == s.quarantined + Revoked(c, p)
            else s'.current == s.current && s'.quarantined == s.quarantined
  {
  }

  lemma {:induction false} LeaseInvariantHolds(c: Config, evs: seq<Event>, t: Instant)
    requires ClockUpTo(evs, t)
    ensures LeaseInvariant(c, Installs(c, evs), After(c, evs).current, t)
  {
    if evs != [] {
      var front, e := evs[..|evs| - 1], evs[|evs| - 1];
      LeaseInvariantHolds(c, front, e.now);
      StepEffect(c, After(c, front), e);
    }
  }

  /** Expiries never decrease along the sequence. */
  ghost predicate ExpiriesOrdered(c: Config, toks: seq<Payload>) {
    forall i, j :: 0 <= i <= j < |toks| ==> ExpiresAt(c, toks[i]) <= ExpiresAt(c, toks[j])
  }

  /** No instant belongs to the leases of two tokens with different authorities. */
  ghost predicate LeasesExclusive(c: Config, toks: seq<Payload>) {
    forall i, j {:trigger LeaseStart(c, toks, i), LeaseStart(c, toks, j)} ::
      0 <= i < j < |toks| && toks[i].authority != toks[j].authority ==>
      Min(ExpiresAt(c, toks[i]), ExpiresAt(c, toks[j])) <= Max(LeaseStart(c, toks, i), LeaseStart(c, toks, j))
  }

  lemma OrderedExpiriesAreExclusive(c: Config, toks: seq<Payload>)
    requires ExpiriesOrdered(c, toks)
    ensures LeasesExclusive(c, toks)
  {
  }

  /**
    Single authority, for cells that miss nothing.  Two cells have each installed some prefix of the same
    token sequence, at any moments of the shared clock and among any other presentations.  If the leases
    are exclusive, the two never serve at the same instant, however far one of them lags.
  */
  lemma SingleAuthority(c1: Config, evs1: seq<Event>, c2: Config, evs2: seq<Event>, toks: seq<Payload>, t: Instant)
    requires c1.parseTime == c2.parseTime
    requires LeasesExclusive(c1, toks)
    requires ClockUpTo(evs1, t) && Installs(c1, evs1) <= toks
    requires ClockUpTo(evs2, t) && Installs(c2, evs2) <= toks
    requires ServiceAt(c1, After(c1, evs1), t).Serving? && ServiceAt(c2, After(c2, evs2), t).Serving?
    ensures c1.cell == c2.cell
  {
    var i := HeldToken(c1, evs1, toks, t);
    var j := HeldToken(c2, evs2, toks, t);
    OneLease(c1, i, c2, j, toks, t);
  }

  lemma OneLease(c1: Config, i: nat, c2: Config, j: nat, toks: seq<Payload>, t: Instant)
    requires c1.parseTime == c2.parseTime && LeasesExclusive(c1, toks)
    requires i < |toks| && LeaseStart(c1, toks, i) <= t < ExpiresAt(c1, toks[i])
    requires j < |toks| && LeaseStart(c2, toks, j) <= t < ExpiresAt(c2, toks[j])
    ensures toks[i].authority == toks[j].authority
  {
    assert LeaseStart(c1, toks, j) == LeaseStart(c2, toks, j);
  }

  /** The token a serving cell relies on, as an index into the sequence it has installed a prefix of. */
  lemma HeldToken(c: Config, evs: seq<Event>, toks: seq<Payload>, t: Instant) returns (i: nat)
    requires ClockUpTo(evs, t) && Installs(c, evs) <= toks
    requires ServiceAt(c, After(c, evs), t).Serving?
    ensures i < |toks| && toks[i].authority == c.cell && LeaseStart(c, toks, i) <= t < ExpiresAt(c, toks[i])
  {
    ServesInsideLease(c, evs, t);
    i := |Installs(c, evs)| - 1;
    PrefixLease(c, Installs(c, evs), toks);
  }

  lemma PrefixLease(c: Config, h: seq<Payload>, toks: seq<Payload>)
    requires h != [] && h <= toks
    ensures toks[|h| - 1] == h[|h| - 1] && LeaseStart(c, toks, |h| - 1) == LeaseStart(c, h, |h| - 1)
  {
  }

  // A cell may also miss tokens: what it has installed is a subsequence, given by increasing positions.

  ghost predicate Positions(idx: seq<nat>, n: nat) {
    (forall x :: 0 <= x < |idx| ==> idx[x] < n) && (forall x, y :: 0 <= x < y < |idx| ==> idx[x] < idx[y])
  }

  ghost predicate Selects(h: seq<Payload>, toks: seq<Payload>, idx: seq<nat>) {
    Positions(idx, |toks|) && |h| == |idx| && forall x :: 0 <= x < |h| ==> h[x] == toks[idx[x]]
  }

  /**
    If the cell of `b` is ahead of the cell of `a`, it has installed the token that the other one is at, or
    one between that and its own.
  */
  ghost predicate Follows(a: seq<nat>, b: seq<nat>) {
    a != [] && b != [] && a[|a| - 1] < b[|b| - 1] ==> |b| >= 2 && a[|a| - 1] <= b[|b| - 2]
  }

  /** Ordered expiries are enough when neither cell has skipped everything since the other one's token. */
  lemma SingleAuthorityOrdered(c1: Config, evs1: seq<Event>, idx1: seq<nat>, c2: Config, evs2: seq<Event>,
                               idx2: seq<nat>, toks: seq<Payload>, t: Instant)
    requires c1.parseTime == c2.parseTime && ExpiriesOrdered(c1, toks)
    requires Selects(Installs(c1, evs1), toks, idx1) && Selects(Installs(c2, evs2), toks, idx2)
    requires Follows(idx1, idx2) && Follows(idx2, idx1)
    requires ClockUpTo(evs1, t) && ClockUpTo(evs2, t)
    requires ServiceAt(c1, After(c1, evs1), t).Serving? && ServiceAt(c2, After(c2, evs2), t).Serving?
    ensures c1.cell == c2.cell
  {
    ServesInsideLease(c1, evs1, t);
    ServesInsideLease(c2, evs2, t);
    NotBothAhead(c1, Installs(c1, evs1), idx1, c2, Installs(c2, evs2), idx2, toks, t);
  }

  lemma NotBothAhead(c1: Config, h1: seq<Payload>, idx1: seq<nat>, c2: Config, h2: seq<Payload>, idx2: seq<nat>,
                     toks: seq<Payload>, t: Instant)
    requires c1.parseTime == c2.parseTime && ExpiriesOrdered(c1, toks)
    requires Selects(h1, toks, idx1) && Selects(h2, toks, idx2) && Follows(idx1, idx2) && Follows(idx2, idx1)
    requires InOwnLease(c1, h1, t) && InOwnLease(c2, h2, t)
    ensures c1.cell == c2.cell
  {
    var i, j := idx1[|idx1| - 1], idx2[|idx2| - 1];
    if i < j {
      LaterCellWaits(c1, h1, idx1, c2, h2, idx2, toks);
    } else if j < i {
      LaterCellWaits(c2, h2, idx2, c1, h1, idx1, toks);
    }
  }

  lemma LaterCellWaits(c1: Config, h1: seq<Payload>, idx1: seq<nat>, c2: Config, h2: seq<Payload>, idx2: seq<nat>,
                       toks: seq<Payload>)
    requires c1.parseTime == c2.parseTime && ExpiriesOrdered(c1, toks)
    requires Selects(h1, toks, idx1) && Selects(h2, toks, idx2) && Follows(idx1, idx2)
    requires h1 != [] && h2 != [] && idx1[|idx1| - 1] < idx2[|idx2| - 1]
    ensures ExpiresAt(c1, h1[|h1| - 1]) <= LeaseStart(c2, h2, |h2| - 1)
  {
    var i, p := idx1[|idx1| - 1], idx2[|idx2| - 2];
    assert h1[|h1| - 1] == toks[i] && h2[|h2| - 2] == toks[p] && i <= p;
    assert ExpiresAt(c1, toks[i]) <= ExpiresAt(c1, toks[p]) == ExpiresAt(c2, toks[p]);
  }

  /** Cells that miss nothing are such cells, so for them ordered expiries are enough. */
  lemma SingleAuthorityNoLoss(c1: Config, evs1: seq<Event>, c2: Config, evs2: seq<Event>, toks: seq<Payload>,
                              t: Instant)
    requires c1.parseTime == c2.parseTime && ExpiriesOrdered(c1, toks)
    requires ClockUpTo(evs1, t) && Installs(c1, evs1) <= toks
    requires ClockUpTo(evs2, t) && Installs(c2, evs2) <= toks
    requires ServiceAt(c1, After(c1, evs1), t).Serving? && ServiceAt(c2, After(c2, evs2), t).Serving?
    ensures c1.cell == c2.cell
  {
    var h1, h2 := Installs(c1, evs1), Installs(c2, evs2);
    PrefixSelects(h1, toks);
    PrefixSelects(h2, toks);
    SingleAuthorityOrdered(c1, evs1, FirstPositions(|h1|), c2, evs2, FirstPositions(|h2|), toks, t);
  }

  ghost function FirstPositions(n: nat): seq<nat> { seq(n, i => i) }

  lemma PrefixSelects(h: seq<Payload>, toks: seq<Payload>)
    requires h <= toks
    ensures Selects(h, toks, FirstPositions(|h|))
  {
  }

  /** Whatever is lost: two cells never serve together if the tokens' own periods [issue, expiry) never overlap. */
  lemma SingleAuthorityLossy(c1: Config, evs1: seq<Event>, idx1: seq<nat>, c2: Config, evs2: seq<Event>, idx2: seq<nat>,
                             toks: seq<Payload>, t: Instant)
    requires c1.parseTime == c2.parseTime && PeriodsExclusive(c1, toks)
    requires Selects(Installs(c1, evs1), toks, idx1) && Selects(Installs(c2, evs2), toks, idx2)
    requires ClockUpTo(evs1, t) && ClockUpTo(evs2, t)
    requires ServiceAt(c1, After(c1, evs1), t).Serving? && ServiceAt(c2, After(c2, evs2), t).Serving?
    ensures c1.cell == c2.cell
  {
    ServesInsideLease(c1, evs1, t);
    ServesInsideLease(c2, evs2, t);
    InPeriod(c1, Installs(c1, evs1), idx1, toks, t);
    InPeriod(c2, Installs(c2, evs2), idx2, toks, t);
    OnePeriod(c1, idx1[|idx1| - 1], c2, idx2[|idx2| - 1], toks, t);
  }

  ghost predicate Within(c: Config, p: Payload, t: Instant) { IssuedAt(c, p) <= t < ExpiresAt(c, p) }

  ghost predicate PeriodsExclusive(c: Config, toks: seq<Payload>) {
    forall i, j, t :: 0 <= i < j < |toks| && Within(c, toks[i], t) && Within(c, toks[j], t) ==>
      toks[i].authority == toks[j].authority
  }

  lemma InPeriod(c: Config, h: seq<Payload>, idx: seq<nat>, toks: seq<Payload>, t: Instant)
    requires Selects(h, toks, idx) && InOwnLease(c, h, t)
    ensures var i := idx[|idx| - 1]; Within(c, toks[i], t) && toks[i].authority == c.cell
  {
    assert h[|h| - 1] == toks[idx[|idx| - 1]];
  }

  lemma OnePeriod(c1: Config, i: nat, c2: Config, j: nat, toks: seq<Payload>, t: Instant)
    requires c1.parseTime == c2.parseTime && PeriodsExclusive(c1, toks)
    requires i < |toks| && Within(c1, toks[i], t) && j < |toks| && Within(c2, toks[j], t)
    ensures toks[i].authority == toks[j].authority
  {
    assert Within(c1, toks[j], t);
  }

  // The converse: a cell does serve in its own lease, whenever the tokens can be delivered at all.

  ghost function Payloads(toks: seq<Token>): seq<Payload> {
    seq(|toks|, i requires 0 <= i < |toks| => toks[i].payload)
  }

  /** A manual token without a roster, properly signed for `c`. */
  ghost predicate Ready(c: Config, tok: Token) {
    && Screen(c, Some(tok), IssuedAt(c, tok.payload)) == None
    && EffectiveMode(tok.payload) == MODE_MANUAL && tok.payload.roster == None
  }

  /** Such tokens, numbered upwards and issued in order. */
  ghost predicate Deliverable(c: Config, toks: seq<Token>) {
    && (forall i {:trigger Ready(c, toks[i])} :: 0 <= i < |toks| ==> Ready(c, toks[i]))
    && (forall i, j :: 0 <= i < j < |toks| ==>
          && toks[i].payload.n < toks[j].payload.n
          && IssuedAt(c, toks[i].payload) <= IssuedAt(c, toks[j].payload))
  }

  /** A token is presented at the instant it was issued. */
  ghost function Delivery(c: Config, tok: Token): Event { Present(Some(tok), IssuedAt(c, tok.payload), true) }

  ghost function Deliveries(c: Config, toks: seq<Token>): seq<Event> {
    seq(|toks|, i requires 0 <= i < |toks| => Delivery(c, toks[i]))
  }

  /** The last token is the current epoch, from the start of its lease at the latest. */
  ghost predicate Delivered(c: Config, toks: seq<Token>, s: State) {
    && s.quarantined == {}
    && if toks == [] then s.current.None? else
       var last := toks[|toks| - 1].payload;
       && s.current.Some? && s.current.value.payload == last && s.current.value.expiresAt == ExpiresAt(c, last)
       && s.current.value.notBefore <= LeaseStart(c, Payloads(toks), |toks| - 1)
  }

  lemma {:induction false} DeliveryInstalls(c: Config, toks: seq<Token>)
    requires c.Valid() && Deliverable(c, toks)
    ensures Installs(c, Deliveries(c, toks)) == Payloads(toks)
    ensures Delivered(c, toks, After(c, Deliveries(c, toks)))
  {
    if toks != [] {
      var n := |toks| - 1;
      FrontDeliverable(c, toks);
      DeliveryInstalls(c, toks[..n]);
      DeliveriesSplit(c, toks);
      LastDelivery(c, toks, Deliveries(c, toks));
    }
  }

  lemma FrontDeliverable(c: Config, toks: seq<Token>)
    requires toks != [] && Deliverable(c, toks)
    ensures Deliverable(c, toks[..|toks| - 1])
  {
    var front := toks[..|toks| - 1];
    forall i | 0 <= i < |front| ensures Ready(c, front[i]) { assert Ready(c, toks[i]); }
  }

  lemma LastDelivery(c: Config, toks: seq<Token>, evs: seq<Event>)
    requires c.Valid() && toks != [] && Deliverable(c, toks)
    requires evs != [] && evs[|evs| - 1] == Delivery(c, toks[|toks| - 1])
    requires Delivered(c, toks[..|toks| - 1], After(c, evs[..|evs| - 1]))
    ensures Installs(c, evs) == Installs(c, evs[..|evs| - 1]) + [toks[|toks| - 1].payload]
    ensures Delivered(c, toks, After(c, evs))
  {
    DeliveryStep(c, toks, After(c, evs[..|evs| - 1]));
  }

  lemma DeliveriesSplit(c: Config, toks: seq<Token>)
    requires toks != []
    ensures var n := |toks| - 1;
            && Deliveries(c, toks)[..n] == Deliveries(c, toks[..n]) && Deliveries(c, toks)[n] == Delivery(c, toks[n])
            && Payloads(toks) == Payloads(toks[..n]) + [toks[n].payload]
  {
  }

  lemma DeliveryStep(c: Config, toks: seq<Token>, s: State)
    requires c.Valid() && toks != [] && Deliverable(c, toks)
    requires Delivered(c, toks[..|toks| - 1], s)
    ensures var (s', r) := Step(c, s, Delivery(c, toks[|toks| - 1]));
            r.Installed? && Delivered(c, toks, s')
  {
    FreshTokenInstalls(c, s, toks[|toks| - 1]);
  }

  /** A properly signed manual token with a higher number is installed at the instant it was issued. */
  lemma FreshTokenInstalls(c: Config, s: State, tok: Token)
    requires c.Valid() && Ready(c, tok)
    requires s.current.Some? ==> s.current.value.payload.n < tok.payload.n
    ensures var p, now := tok.payload, IssuedAt(c, tok.payload);
            Step(c, s, Delivery(c, tok))
            == (State(Some(Epoch(p, now, ExpiresAt(c, p), NotBefore(c, s, p, now))), s.quarantined, s.autoLog),
                Installed(true))
  {
    assert s.quarantined + Revoked(c, tok.payload) == s.quarantined;
  }

  lemma PrefixDeliverable(c: Config, toks: seq<Token>, k: nat)
    requires Deliverable(c, toks) && k < |toks|
    ensures Deliverable(c, toks[..k + 1])
    ensures Payloads(toks[..k + 1]) == Payloads(toks)[..k + 1]
    ensures ClockUpTo(Deliveries(c, toks[..k + 1]), IssuedAt(c, toks[k].payload))
  {
  }

  /** A cell that got these tokens on time, and nothing else, serves exactly in the lease of the last one. */
  lemma DeliveredCellServes(c: Config, toks: seq<Token>, t: Instant)
    requires c.Valid() && Deliverable(c, toks) && ClockUpTo(Deliveries(c, toks), t)
    ensures Installs(c, Deliveries(c, toks)) == Payloads(toks)
    ensures ServiceAt(c, After(c, Deliveries(c, toks)), t).Serving? <==> InOwnLease(c, Payloads(toks), t)
  {
    DeliveryInstalls(c, toks);
    if ServiceAt(c, After(c, Deliveries(c, toks)), t).Serving? { ServesInsideLease(c, Deliveries(c, toks), t); }
    if InOwnLease(c, Payloads(toks), t) { DeliveredServes(c, toks, After(c, Deliveries(c, toks)), t); }
  }

  lemma DeliveredServes(c: Config, toks: seq<Token>, s: State, t: Instant)
    requires Delivered(c, toks, s) && InOwnLease(c, Payloads(toks), t)
    ensures ServiceAt(c, s, t).Serving?
  {
  }

  /** Cells that got the first tokens on time, and nothing since, serve during the lease of the last one. */
  lemma LaggingCellServes(c: Config, toks: seq<Token>, k: nat, t: Instant)
    requires c.Valid() && Deliverable(c, toks)
    requires k < |toks| && toks[k].payload.authority == c.cell
    requires LeaseStart(c, Payloads(toks), k) <= t < ExpiresAt(c, toks[k].payload)
    ensures var evs := Deliveries(c, toks[..k + 1]);
            && ClockUpTo(evs, t) && Installs(c, evs) <= Payloads(toks)
            && ServiceAt(c, After(c, evs), t).Serving?
  {
    PrefixDeliverable(c, toks, k);
    PrefixLease(c, Payloads(toks[..k + 1]), Payloads(toks));
    DeliveredCellServes(c, toks[..k + 1], t);
  }

  /**
    If the leases of two tokens share an instant, the two cells do serve together at that instant when one
    of them lags: for cells that miss nothing, `LeasesExclusive` is exactly what single authority needs.
  */
  lemma OverlapIsReachable(c1: Config, c2: Config, toks: seq<Token>, i: nat, j: nat)
    requires c1.Valid() && c2.Valid() && c1.parseTime == c2.parseTime
    requires Deliverable(c1, toks) && Deliverable(c2, toks)
    requires i < j < |toks| && toks[i].payload.authority == c1.cell && toks[j].payload.authority == c2.cell
    requires Max(LeaseStart(c1, Payloads(toks), i), LeaseStart(c1, Payloads(toks), j))
             < Min(ExpiresAt(c1, toks[i].payload), ExpiresAt(c1, toks[j].payload))
    ensures var evs1, evs2 := Deliveries(c1, toks[..i + 1]), Deliveries(c2, toks[..j + 1]);
            exists t ::
              && ClockUpTo(evs1, t) && Installs(c1, evs1) <= Payloads(toks)
              && ClockUpTo(evs2, t) && Installs(c2, evs2) <= Payloads(toks)
              && ServiceAt(c1, After(c1, evs1), t).Serving? && ServiceAt(c2, After(c2, evs2), t).Serving?
  {
    var t := Max(LeaseStart(c1, Payloads(toks), i), LeaseStart(c1, Payloads(toks), j));
    assert LeaseStart(c1, Payloads(toks), j) == LeaseStart(c2, Payloads(toks), j);
    LaggingCellServes(c1, toks, i, t);
    LaggingCellServes(c2, toks, j, t);
  }

  /**
    A missed token breaks the claim even when expiries are ordered.  One cell has installed a and b, the
    other a and d: both take over when a expires, and both serve until b expires.
  */
  lemma MissedTokenOverlaps(c1: Config, c2: Config, a: Token, b: Token, d: Token, t: Instant)
    requires c1.Valid() && c2.Valid() && c1.parseTime == c2.parseTime
    requires Deliverable(c1, [a, b]) && Deliverable(c2, [a, d])
    requires b.payload.authority == c1.cell && d.payload.authority == c2.cell
    requires ExpiriesOrdered(c1, Payloads([a, b, d]))
    requires IssuedAt(c1, b.payload) <= ExpiresAt(c1, a.payload) && IssuedAt(c1, d.payload) <= ExpiresAt(c1, a.payload)
    requires ExpiresAt(c1, a.payload) <= t < ExpiresAt(c1, b.payload)
    ensures Selects(Installs(c1, Deliveries(c1, [a, b])), Payloads([a, b, d]), [0, 1])
    ensures Selects(Installs(c2, Deliveries(c2, [a, d])), Payloads([a, b, d]), [0, 2])
    ensures ServiceAt(c1, After(c1, Deliveries(c1, [a, b])), t).Serving?
    ensures ServiceAt(c2, After(c2, Deliveries(c2, [a, d])), t).Serving?
  {
    var p := Payloads([a, b, d]);
    assert p[0] == a.payload && p[1] == b.payload && p[2] == d.payload;
    assert ExpiresAt(c1, p[1]) <= ExpiresAt(c1, p[2]);
    SecondTokenServes(c1, a, b, t);
    SecondTokenServes(c2, a, d, t);
  }

  lemma SecondTokenServes(c: Config, a: Token, b: Token, t: Instant)
    requires c.Valid() && Deliverable(c, [a, b]) && b.payload.authority == c.cell
    requires IssuedAt(c, b.payload) <= ExpiresAt(c, a.payload) <= t < ExpiresAt(c, b.payload)
    ensures Installs(c, Deliveries(c, [a, b])) == [a.payload, b.payload]
    ensures ServiceAt(c, After(c, Deliveries(c, [a, b])), t).Serving?
  {
    var toks := [a, b];
    assert Payloads(toks) == [a.payload, b.payload];
    assert toks[0] == a && toks[1] == b;
    PrefixDeliverable(c, toks, 1);
    assert toks[..2] == toks;
    DeliveredCellServes(c, toks, t);
  }

  /**
    With losses nothing less than `PeriodsExclusive` will do: two cells that got one token each serve from
    its issue on.
  */
  lemma LoneTokensOverlap(c1: Config, c2: Config, a: Token, b: Token, t: Instant)
    requires c1.Valid() && c2.Valid() && Ready(c1, a) && Ready(c2, b)
    requires a.payload.authority == c1.cell && b.payload.authority == c2.cell
    requires Within(c1, a.payload, t) && Within(c2, b.payload, t)
    ensures ServiceAt(c1, After(c1, Deliveries(c1, [a])), t).Serving?
    ensures ServiceAt(c2, After(c2, Deliveries(c2, [b])), t).Serving?
  {
    LoneTokenServes(c1, a, t);
    LoneTokenServes(c2, b, t);
  }

  lemma LoneTokenServes(c: Config, a: Token, t: Instant)
    requires c.Valid() && Ready(c, a) && a.payload.authority == c.cell && Within(c, a.payload, t)
    ensures ServiceAt(c, After(c, Deliveries(c, [a])), t).Serving?
  {
    assert Payloads([a]) == [a.payload];
    DeliveredCellServes(c, [a], t);
  }

  ghost function ExampleToken(n: nat, authority: Cell, issued: string, ttl: int): Token {
    Token(Payload(n, authority, issued, ttl, "", None), [Multisig.Signature(0, "")])
  }

  /** a from 0 to 100; b, expiring at 11, would only start at 100; then b from 11 to 62. */
  ghost const EXAMPLE_TOKENS: seq<Token> :=
    [ExampleToken(0, "a", "", 100), ExampleToken(1, "b", "1", 10), ExampleToken(2, "b", "12", 60)]

  ghost predicate ExampleConfig(c: Config) {
    && c.Valid() && c.controllers == {0} && c.quorum == 1 && c.members == {"a", "b"}
    && c.minTTL == 10 && c.maxTTL == 300
    && c.verify == ((k, p, sig) => true)
    && c.parseTime("") == Some(0) && c.parseTime("1") == Some(SECOND) && c.parseTime("12") == Some(2 * SECOND)
  }

  lemma ExampleTokenScreens(c: Config, i: nat)
    requires ExampleConfig(c) && i < 3
    ensures Screen(c, Some(EXAMPLE_TOKENS[i]), IssuedAt(c, EXAMPLE_TOKENS[i].payload)) == None
  {
    var tok := EXAMPLE_TOKENS[i];
    assert |tok.signatures| == 1;
    assert QuorumReached(c, tok.payload, tok.signatures);
    assert |"a"| == 1 && |"b"| == 1;
  }

  lemma ExampleDeliverable(c: Config)
    requires ExampleConfig(c)
    ensures Deliverable(c, EXAMPLE_TOKENS)
  {
    forall i: nat | i < 3
      ensures Ready(c, EXAMPLE_TOKENS[i])
    {
      ExampleTokenScreens(c, i);
    }
  }

  /**
    A shorter second lease breaks the claim: cell a (still at the first token) and cell b (at the third)
    serve together, because the hand-over looks only at the immediately preceding token.
  */
  lemma ShrinkingExpiriesOverlap(c1: Config, c2: Config)
    requires ExampleConfig(c1) && c1.cell == "a" && c2 == c1.(cell := "b")
    ensures var toks := EXAMPLE_TOKENS;
            var evs1, evs2 := Deliveries(c1, toks[..1]), Deliveries(c2, toks[..3]);
            exists t ::
              && ClockUpTo(evs1, t) && Installs(c1, evs1) <= Payloads(toks)
              && ClockUpTo(evs2, t) && Installs(c2, evs2) <= Payloads(toks)
              && ServiceAt(c1, After(c1, evs1), t).Serving? && ServiceAt(c2, After(c2, evs2), t).Serving?
  {
    ExampleDeliverable(c1);
    ExampleDeliverable(c2);
    OverlapIsReachable(c1, c2, EXAMPLE_TOKENS, 0, 2);
  }

  // ---------------------------------------------------------------------------------------------
  // Failover rate limit
  // ---------------------------------------------------------------------------------------------

  /** The instants at the flagged positions. */
  function Picked(times: seq<Instant>, flags: seq<bool>): seq<Instant>
    requires |times| == |flags|
  {
    if times == [] then [] else
    var n := |times| - 1;
    Picked(times[..n], flags[..n]) + (if flags[n] then [times[n]] else [])
  }

  ghost function Times(evs: seq<Event>): seq<Instant> {
    seq(|evs|, k requires 0 <= k < |evs| => evs[k].now)
  }

  /** Did the k-th presentation install an automatic token? */
  ghost predicate InstallsAuto(c: Config, evs: seq<Event>, k: nat)
    requires k < |evs|
  {
    && Step(c, After(c, evs[..k]), evs[k]).1.Installed?
    && EffectiveMode(evs[k].msg.value.payload) == MODE_AUTO
  }

  /** The instants at which an automatic token was installed. */
  ghost function AutoInstalls(c: Config, evs: seq<Event>): seq<Instant> {
    Picked(Times(evs), seq(|evs|, k requires 0 <= k < |evs| => InstallsAuto(c, evs, k)))
  }

  /** How many of the instants lie in the half-open interval (lo, hi]. */
  function CountIn(s: seq<Instant>, lo: Instant, hi: Instant): nat {
    if s == [] then 0
    else CountIn(s[..|s| - 1], lo, hi) + (if lo < s[|s| - 1] <= hi then 1 else 0)
  }

  ghost predicate Sorted(s: seq<Instant>) { forall i, j :: 0 <= i <= j < |s| ==> s[i] <= s[j] }

  /** Any `max` + 1 consecutive instants span at least an hour. */
  ghost predicate Spaced(s: seq<Instant>, max: nat) {
    forall i, j :: 0 <= i && j == i + max < |s| ==> s[i] + HOUR <= s[j]
  }

  lemma {:induction false} CountInBounds(s: seq<Instant>, lo: Instant, hi: Instant)
    ensures CountIn(s, lo, hi) <= |s|
    ensures (forall i :: 0 <= i < |s| ==> s[i] <= lo) ==> CountIn(s, lo, hi) == 0
  {
    if s != [] { CountInBounds(s[..|s| - 1], lo, hi); }
  }

  lemma {:induction false} CountInConcat(a: seq<Instant>, b: seq<Instant>, lo: Instant, hi: Instant)
    ensures CountIn(a + b, lo, hi) == CountIn(a, lo, hi) + CountIn(b, lo, hi)
  {
    if b == [] {
      assert a + b == a;
    } else {
      CountInConcat(a, b[..|b| - 1], lo, hi);
      assert (a + b)[..|a + b| - 1] == a + b[..|b| - 1];
    }
  }

  /** Spacing bounds every window, wherever it ends. */
  lemma {:induction false} SpacingBoundsWindows(s: seq<Instant>, max: nat, t: Instant)
    requires 1 <= max && Sorted(s) && Spaced(s, max)
    ensures CountIn(s, t - HOUR, t) <= max
  {
    CountInBounds(s, t - HOUR, t);
    if |s| > max {
      var n := |s|;
      if s[n - 1] > t {
        SpacingBoundsWindows(s[..n - 1], max, t);
      } else {
        FullWindow(s[..n - max], s[n - max..], t);
        assert s == s[..n - max] + s[n - max..];
      }
    }
  }

  /** All but the last instants of a spaced sequence lie before a window in which it ends. */
  lemma FullWindow(a: seq<Instant>, b: seq<Instant>, t: Instant)
    requires a != [] && b != [] && Sorted(a) && a[|a| - 1] + HOUR <= b[|b| - 1] <= t
    ensures CountIn(a + b, t - HOUR, t) <= |b|
  {
    CountInConcat(a, b, t - HOUR, t);
    CountInBounds(a, t - HOUR, t);
    CountInBounds(b, t - HOUR, t);
  }

  lemma {:induction false} LiveFrom(log: seq<Instant>, now: Instant, k: nat)
    requires k <= |log|
    requires forall i :: 0 <= i < |log| ==> (log[i] > now - HOUR <==> k <= i)
    ensures Live(log, now) == log[k..]
  {
    if log != [] {
      var front := log[..|log| - 1];
      if k < |log| {
        LiveFrom(front, now, k);
        assert log[k..] == front[k..] + [log[|log| - 1]];
      } else {
        LiveFrom(front, now, k - 1);
      }
    }
  }

  /** In a sorted log the entries that the filter keeps are a suffix. */
  lemma LiveIsSuffix(log: seq<Instant>, now: Instant) returns (k: nat)
    requires Sorted(log)
    ensures k <= |log| && Live(log, now) == log[k..]
    ensures forall i :: 0 <= i < k ==> log[i] <= now - HOUR
  {
    k := 0;
    while k < |log| && log[k] <= now - HOUR
      invariant k <= |log|
      invariant forall i :: 0 <= i < k ==> log[i] <= now - HOUR
    {
      k := k + 1;
    }
    LiveFrom(log, now, k);
  }

  /**
    `spent` is every instant at which budget was ever spent: more than the log remembers.  The log is
    its suffix, and what the log forgot is an hour old.
  */
  ghost predicate BudgetInvariant(c: Config, spent: seq<Instant>, log: seq<Instant>, last: Instant) {
    && |log| <= |spent| && log == spent[|spent| - |log|..] && |log| <= c.maxAuto
    && Sorted(spent) && Spaced(spent, c.maxAuto)
    && (forall i :: 0 <= i < |spent| ==> spent[i] <= last)
    && (forall i :: 0 <= i < |spent| - |log| ==> spent[i] <= last - HOUR)
  }

  lemma LogShrinks(c: Config, spent: seq<Instant>, log: seq<Instant>, last: Instant, now: Instant)
    requires BudgetInvariant(c, spent, log, last) && last <= now
    ensures BudgetInvariant(c, spent, Live(log, now), now)
  {
    var k := LiveIsSuffix(log, now);
  }

  lemma LogGrows(c: Config, spent: seq<Instant>, log: seq<Instant>, now: Instant)
    requires BudgetInvariant(c, spent, log, now) && |log| < c.maxAuto
    ensures BudgetInvariant(c, spent + [now], log + [now], now)
  {
    assert spent + [now] == spent[..|spent| - |log|] + (log + [now]);
  }

  ghost predicate LogMoves(c: Config, log: seq<Instant>, log': seq<Instant>, now: Instant) {
    var live := Live(log, now);
    log' == log || log' == live || (Spent(log, log', now) && |live| < c.maxAuto)
  }

  ghost predicate Spent(log: seq<Instant>, log': seq<Instant>, now: Instant) {
    log' == Live(log, now) + [now]
  }

  /** How one presentation treats the failover log. */
  lemma StepBudget(c: Config, s: State, e: Event)
    ensures var (s', r) := Step(c, s, e);
            && LogMoves(c, s.autoLog, s'.autoLog, e.now)
            && (r.Installed? && EffectiveMode(e.msg.value.payload) == MODE_AUTO ==> Spent(s.autoLog, s'.autoLog, e.now))
  {
  }

  /** The successive contents of a failover log. */
  ghost predicate LogTrace(c: Config, logs: seq<seq<Instant>>, times: seq<Instant>) {
    && |logs| == |times| + 1 && logs[0] == []
    && (forall k :: 0 <= k < |times| ==> LogMoves(c, logs[k], logs[k + 1], times[k]))
  }

  ghost function SpentFlags(logs: seq<seq<Instant>>, times: seq<Instant>): seq<bool>
    requires |logs| == |times| + 1
  {
    seq(|times|, k requires 0 <= k < |times| => Spent(logs[k], logs[k + 1], times[k]))
  }

  lemma LiveIsNotLonger(log: seq<Instant>, now: Instant)
    ensures |Live(log, now)| <= |log|
  {
  }

  lemma BudgetStep(c: Config, spent: seq<Instant>, log: seq<Instant>, log': seq<Instant>, now: Instant)
    requires BudgetInvariant(c, spent, log, now) && LogMoves(c, log, log', now)
    ensures BudgetInvariant(c, if Spent(log, log', now) then spent + [now] else spent, log', now)
  {
    LogShrinks(c, spent, log, now, now);
    LiveIsNotLonger(log, now);
    if Spent(log, log', now) {
      LogGrows(c, spent, Live(log, now), now);
    }
  }

  lemma BudgetLater(c: Config, spent: seq<Instant>, log: seq<Instant>, last: Instant, t: Instant)
    requires BudgetInvariant(c, spent, log, last) && last <= t
    ensures BudgetInvariant(c, spent, log, t)
  {
  }

  lemma {:induction false} BudgetInvariantHolds(c: Config, logs: seq<seq<Instant>>, times: seq<Instant>, t: Instant)
    requires LogTrace(c, logs, times) && Sorted(times) && forall k :: 0 <= k < |times| ==> times[k] <= t
    ensures BudgetInvariant(c, Picked(times, SpentFlags(logs, times)), logs[|times|], t)
  {
    if times != [] {
      var n := |times| - 1;
      var logs', times' := logs[..n + 1], times[..n];
      BudgetInvariantHolds(c, logs', times', times[n]);
      var before := Picked(times', SpentFlags(logs', times'));
      assert SpentFlags(logs, times)[..n] == SpentFlags(logs', times');
      BudgetStep(c, before, logs[n], logs[n + 1], times[n]);
      var spent := if Spent(logs[n], logs[n + 1], times[n]) then before + [times[n]] else before;
      assert Picked(times, SpentFlags(logs, times)) == spent;
      BudgetLater(c, spent, logs[n + 1], times[n], t);
    }
  }

  lemma CountInSnoc(s: seq<Instant>, x: Instant, lo: Instant, hi: Instant)
    ensures CountIn(s + [x], lo, hi) == CountIn(s, lo, hi) + (if lo < x <= hi then 1 else 0)
  {
    assert (s + [x])[..|s|] == s;
  }

  lemma {:induction false} FewerFlagsCountLess(times: seq<Instant>, f: seq<bool>, g: seq<bool>, lo: Instant,
                                               hi: Instant)
    requires |times| == |f| == |g|
    requires forall k :: 0 <= k < |f| && f[k] ==> g[k]
    ensures CountIn(Picked(times, f), lo, hi) <= CountIn(Picked(times, g), lo, hi)
  {
    if times != [] {
      var n := |times| - 1;
      var pf, pg := Picked(times[..n], f[..n]), Picked(times[..n], g[..n]);
      FewerFlagsCountLess(times[..n], f[..n], g[..n], lo, hi);
      CountInSnoc(pf, times[n], lo, hi);
      CountInSnoc(pg, times[n], lo, hi);
      assert pf + [] == pf && pg + [] == pg;
    }
  }

  /** The log contents along a history form a log trace, and an automatic installation always spends. */
  lemma HistoryLogs(c: Config, evs: seq<Event>) returns (logs: seq<seq<Instant>>)
    ensures LogTrace(c, logs, Times(evs))
    ensures forall k :: 0 <= k < |evs| && InstallsAuto(c, evs, k) ==> SpentFlags(logs, Times(evs))[k]
  {
    logs := seq(|evs| + 1, k requires 0 <= k <= |evs| => After(c, evs[..k]).autoLog);
    forall k | 0 <= k < |evs|
      ensures LogMoves(c, logs[k], logs[k + 1], evs[k].now)
      ensures InstallsAuto(c, evs, k) ==> Spent(logs[k], logs[k + 1], evs[k].now)
    {
      StepBudget(c, After(c, evs[..k]), evs[k]);
      assert evs[..k + 1][..k] == evs[..k];
    }
  }

  /** Failover rate limit: no interval (t - 1h, t] ever contains more than `maxAuto` automatic installations. */
  lemma FailoverRateLimit(c: Config, evs: seq<Event>, t: Instant, end: Instant)
    requires c.Valid() && ClockUpTo(evs, end)
    ensures CountIn(AutoInstalls(c, evs), t - HOUR, t) <= c.maxAuto
  {
    var times := Times(evs);
    var logs := HistoryLogs(c, evs);
    BudgetInvariantHolds(c, logs, times, end);
    var spent := SpentFlags(logs, times);
    FewerFlagsCountLess(times, seq(|evs|, k requires 0 <= k < |evs| => InstallsAuto(c, evs, k)), spent, t - HOUR, t);
    SpacingBoundsWindows(Picked(times, spent), c.maxAuto, t);
  }
}
