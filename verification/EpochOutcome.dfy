/**
  What a presentation leads to, told fault by fault.  Each fault is stated on its own, without the order in which
  the tracker looks for it; the outcome is the first fault of a fixed list, or a redelivery, or an installation.
*/
module EpochOutcome {
  import opened Basics
  import opened Multisig
  import opened EpochFencing
  import opened EpochHistory

  // ---------------------------------------------------------------------------------------------
  // Faults
  // ---------------------------------------------------------------------------------------------

  /** Signatures by different controllers, all of them verifying what was signed, and enough of them. */
  ghost predicate Backed(c: Config, tok: Token) {
    && (forall i, j :: 0 <= i < j < |tok.signatures| ==> tok.signatures[i].keyId != tok.signatures[j].keyId)
    && (forall s :: s in tok.signatures ==>
          s.keyId in c.controllers && c.verify(s.keyId, Canonical(tok.payload), s.sig))
    && c.quorum <= |tok.signatures|
  }

  /** The payloads say the same once an empty roster is dropped. */
  predicate SaysTheSame(p: Payload, q: Payload) {
    p == q || (p.(roster := None) == q.(roster := None) && {p.roster, q.roster} <= {None, Some([])})
  }

  /** How many logged failovers are later than `lo`. */
  function Recent(log: seq<Instant>, lo: Instant): nat {
    if log == [] then 0 else (if log[0] > lo then 1 else 0) + Recent(log[1..], lo)
  }

  /** A number above that of the current epoch, if there is one. */
  predicate IsNew(s: State, p: Payload) { s.current.Some? ==> s.current.value.payload.n < p.n }

  ghost predicate Faulty(c: Config, s: State, e: Event, r: Reason) {
    if e.msg.None? then r == MalformedToken
    else
      var p := e.msg.value.payload;
      match r
      case MalformedToken => false
      case SchemaViolation => p.n < 0 || !(1 <= |p.authority| <= 255)
      case TtlOutOfRange => !(c.minTTL <= p.ttl <= c.maxTTL)
      case IssuedAtUnparseable => c.parseTime(p.issuedText) == None
      case FromFuture => c.parseTime(p.issuedText).Some? && e.now + 5 * SECOND < c.parseTime(p.issuedText).value
      case AuthorityNotMember => p.authority !in c.members
      case UnknownMode => p.mode !in {"", "manual", "auto"}
      case QuorumInsufficient => !Backed(c, e.msg.value)
      case Regression => s.current.Some? && p.n < s.current.value.payload.n
      case Equivocation =>
        s.current.Some? && p.n == s.current.value.payload.n && !SaysTheSame(p, s.current.value.payload)
      case TokenExpired =>
        && s.current.Some? && IsNew(s, p) && c.parseTime(p.issuedText).Some?
        && c.parseTime(p.issuedText).value + p.ttl * SECOND <= e.now
      case BudgetExhausted => IsNew(s, p) && p.mode == "auto" && Recent(s.autoLog, e.now - HOUR) >= c.maxAuto
      case EmptyRoster => IsNew(s, p) && p.roster == Some([])
      case RosterUnknownCell => IsNew(s, p) && p.roster.Some? && exists m :: m in p.roster.value && m !in c.members
      case AuthorityNotInRoster => IsNew(s, p) && p.roster.Some? && p.authority !in p.roster.value
  }

  /** The order in which faults are reported. */
  function Rank(r: Reason): nat {
    match r
    case MalformedToken => 0
    case SchemaViolation => 1
    case TtlOutOfRange => 2
    case IssuedAtUnparseable => 3
    case FromFuture => 4
    case AuthorityNotMember => 5
    case UnknownMode => 6
    case QuorumInsufficient => 7
    case Regression => 8
    case Equivocation => 9
    case TokenExpired => 10
    case BudgetExhausted => 11
    case EmptyRoster => 12
    case RosterUnknownCell => 13
    case AuthorityNotInRoster => 14
  }

  ghost predicate NoFaultBelow(c: Config, s: State, e: Event, n: nat) {
    forall r: Reason {:trigger Faulty(c, s, e, r)} :: Rank(r) < n ==> !Faulty(c, s, e, r)
  }

  ghost predicate FirstFault(c: Config, s: State, e: Event, r: Reason) {
    Faulty(c, s, e, r) && NoFaultBelow(c, s, e, Rank(r))
  }

  // ---------------------------------------------------------------------------------------------
  // The outcome
  // ---------------------------------------------------------------------------------------------

  lemma CanonicalMeans(p: Payload, q: Payload)
    ensures Canonical(p) == Canonical(q) <==> SaysTheSame(p, q)
  {
  }

  lemma BackedIsReached(c: Config, tok: Token)
    ensures Backed(c, tok) <==> QuorumReached(c, tok.payload, tok.signatures)
  {
    var sigs := tok.signatures;
    if QuorumReached(c, tok.payload, sigs) {
      forall s | s in sigs ensures s.keyId in c.controllers && c.verify(s.keyId, Canonical(tok.payload), s.sig) {
        var i :| 0 <= i < |sigs| && sigs[i] == s;
      }
    }
    if Backed(c, tok) {
      forall i | 0 <= i < |sigs|
        ensures sigs[i].keyId in c.controllers && c.verify(sigs[i].keyId, Canonical(tok.payload), sigs[i].sig)
      {
        assert sigs[i] in sigs;
      }
    }
  }

  lemma {:induction false} RecentConcat(a: seq<Instant>, b: seq<Instant>, lo: Instant)
    ensures Recent(a + b, lo) == Recent(a, lo) + Recent(b, lo)
  {
    if a == [] {
      assert a + b == b;
    } else {
      assert (a + b)[1..] == a[1..] + b;
      RecentConcat(a[1..], b, lo);
    }
  }

  lemma {:induction false} LiveIsRecent(log: seq<Instant>, now: Instant)
    ensures |Live(log, now)| == Recent(log, now - HOUR)
  {
    if log != [] {
      var front, last := log[..|log| - 1], log[|log| - 1];
      LiveIsRecent(front, now);
      assert log == front + [last];
      RecentConcat(front, [last], now - HOUR);
    }
  }

  lemma ScreenIsFirstFault(c: Config, s: State, e: Event, r: Reason)
    ensures Rank(r) < 8 ==> (Screen(c, e.msg, e.now) == Some(r) <==> FirstFault(c, s, e, r))
    ensures Screen(c, e.msg, e.now).Some? ==> Rank(Screen(c, e.msg, e.now).value) < 8
    ensures Screen(c, e.msg, e.now) == None <==> NoFaultBelow(c, s, e, 8)
  {
    if e.msg.Some? { BackedIsReached(c, e.msg.value); }
    ScreenedOut(c, s, e);
    if Screen(c, e.msg, e.now) == None {
      forall q: Reason | Rank(q) < 8 ensures !Faulty(c, s, e, q) { NotFaulty(c, s, e, q); }
    }
  }

  /** What the screening reports is a fault, and nothing before it is. */
  lemma ScreenedOut(c: Config, s: State, e: Event)
    requires e.msg.Some? ==> (Backed(c, e.msg.value) <==> QuorumReached(c, e.msg.value.payload, e.msg.value.signatures))
    ensures var r := Screen(c, e.msg, e.now);
            r.Some? ==> Faulty(c, s, e, r.value) && Rank(r.value) < 8 && NoFaultBelow(c, s, e, Rank(r.value))
  {
    var r := Screen(c, e.msg, e.now);
    if r.Some? {
      forall q: Reason | Rank(q) < Rank(r.value) ensures !Faulty(c, s, e, q) { EarlierIsFine(c, s, e, q); }
    }
  }

  lemma EarlierIsFine(c: Config, s: State, e: Event, q: Reason)
    requires Screen(c, e.msg, e.now).Some? && Rank(q) < Rank(Screen(c, e.msg, e.now).value)
    ensures !Faulty(c, s, e, q)
  {
  }

  lemma NotFaulty(c: Config, s: State, e: Event, q: Reason)
    requires Screen(c, e.msg, e.now) == None && Backed(c, e.msg.value) && Rank(q) < 8
    ensures !Faulty(c, s, e, q)
  {
  }

  // The stages that look at the state

  lemma RosterIsFirstFault(c: Config, s: State, e: Event, r: Reason)
    requires e.msg.Some? && IsNew(s, e.msg.value.payload)
    ensures var f := RosterFault(c, e.msg.value.payload);
            && (f == Some(r) ==> Faulty(c, s, e, r) && 12 <= Rank(r))
            && (12 <= Rank(r) && (f == None || Rank(r) < Rank(f.value)) ==> !Faulty(c, s, e, r))
  {
    var p := e.msg.value.payload;
    if p.roster.Some? {
      assert forall m :: m in p.roster.value <==> m in RosterSet(p);
    }
  }

  /** A refusal after the screening is a fault, and nothing from rank 8 up to it is. */
  lemma AdmittedOut(c: Config, s: State, e: Event, r: Reason)
    requires e.msg.Some? && Screen(c, e.msg, e.now) == None
    ensures Step(c, s, e).1 == Refused(r, e.leafOk) ==> Faulty(c, s, e, r) && 8 <= Rank(r)
  {
    CanonicalOfCurrent(s, e.msg.value.payload);
    LiveIsRecent(s.autoLog, e.now);
    if IsNew(s, e.msg.value.payload) { RosterIsFirstFault(c, s, e, r); }
  }

  lemma CanonicalOfCurrent(s: State, p: Payload)
    ensures s.current.Some? ==>
              (Canonical(p) == Canonical(s.current.value.payload) <==> SaysTheSame(p, s.current.value.payload))
  {
    if s.current.Some? { CanonicalMeans(p, s.current.value.payload); }
  }

  lemma AdmittedEarlier(c: Config, s: State, e: Event, q: Reason)
    requires e.msg.Some? && Screen(c, e.msg, e.now) == None && 8 <= Rank(q)
    requires Step(c, s, e).1.Refused? ==> Rank(q) < Rank(Step(c, s, e).1.reason)
    requires Step(c, s, e).1 == Redelivered ==> Rank(q) < 10
    ensures !Faulty(c, s, e, q)
  {
    CanonicalOfCurrent(s, e.msg.value.payload);
    LiveIsRecent(s.autoLog, e.now);
    if IsNew(s, e.msg.value.payload) { RosterIsFirstFault(c, s, e, q); }
  }

  /** A presentation is refused for exactly its first fault, and the trace of it is the leaf. */
  lemma RefusedExactly(c: Config, s: State, e: Event, r: Reason)
    ensures Step(c, s, e).1 == Refused(r, e.leafOk) <==> FirstFault(c, s, e, r)
    ensures Step(c, s, e).1.Refused? ==> Step(c, s, e).1.traced == e.leafOk
  {
    ScreenIsFirstFault(c, s, e, r);
    if Screen(c, e.msg, e.now) == None {
      AdmittedOut(c, s, e, r);
      if Step(c, s, e).1 == Refused(r, e.leafOk) {
        forall q: Reason | Rank(q) < Rank(r) ensures !Faulty(c, s, e, q) {
          if Rank(q) >= 8 { AdmittedEarlier(c, s, e, q); }
        }
      }
      if FirstFault(c, s, e, r) { FirstFaultIsReported(c, s, e, r); }
    }
  }

  lemma FirstFaultIsReported(c: Config, s: State, e: Event, r: Reason)
    requires Screen(c, e.msg, e.now) == None && FirstFault(c, s, e, r)
    ensures Step(c, s, e).1 == Refused(r, e.leafOk)
  {
    ScreenIsFirstFault(c, s, e, r);
    var o := Step(c, s, e).1;
    if o.Refused? {
      AdmittedOut(c, s, e, o.reason);
      if Rank(r) < Rank(o.reason) { AdmittedEarlier(c, s, e, r); } else { SameRank(r, o.reason); }
    } else if o.Installed? || Rank(r) < 10 {
      AdmittedEarlier(c, s, e, r);
    }
  }

  lemma SameRank(q: Reason, r: Reason)
    ensures Rank(q) == Rank(r) ==> q == r
  {
  }

  /** A token is a redelivery exactly when it says what the current epoch says, under the same number. */
  lemma RedeliveredExactly(c: Config, s: State, e: Event)
    ensures Step(c, s, e).1 == Redelivered <==>
            && e.msg.Some? && NoFaultBelow(c, s, e, 8) && s.current.Some?
            && e.msg.value.payload.n == s.current.value.payload.n
            && SaysTheSame(e.msg.value.payload, s.current.value.payload)
  {
    ScreenIsFirstFault(c, s, e, Regression);
    if e.msg.Some? { CanonicalOfCurrent(s, e.msg.value.payload); }
  }

  /** A token is installed exactly when it has no fault and a higher number than the current one. */
  lemma InstalledExactly(c: Config, s: State, e: Event)
    ensures Step(c, s, e).1 == Installed(e.leafOk) <==>
            NoFaultBelow(c, s, e, 15) && e.msg.Some? && IsNew(s, e.msg.value.payload)
    ensures Step(c, s, e).1.Installed? ==> Step(c, s, e).1.traced == e.leafOk
  {
    ScreenIsFirstFault(c, s, e, Regression);
    if Step(c, s, e).1.Installed? {
      forall r: Reason | Rank(r) < 15 ensures !Faulty(c, s, e, r) {
        if Rank(r) >= 8 { AdmittedEarlier(c, s, e, r); }
      }
    } else if NoFaultBelow(c, s, e, 15) && e.msg.Some? && IsNew(s, e.msg.value.payload) {
      SomeFault(c, s, e);
    }
  }

  lemma SomeFault(c: Config, s: State, e: Event)
    requires e.msg.Some? && IsNew(s, e.msg.value.payload) && !Step(c, s, e).1.Installed?
    ensures !NoFaultBelow(c, s, e, 15)
  {
    var o := Step(c, s, e).1;
    if o.Refused? { RefusedExactly(c, s, e, o.reason); }
  }

  // ---------------------------------------------------------------------------------------------
  // What an installation means
  // ---------------------------------------------------------------------------------------------

  /** The epoch that a token opens: it holds from its issue, or from the expiry of a running one if that is later. */
  ghost predicate Opens(c: Config, s: State, e: Event, x: Epoch)
    requires e.msg.Some?
  {
    var p := e.msg.value.payload;
    && x.payload == p && c.parseTime(p.issuedText) == Some(x.issuedAt) && x.expiresAt == x.issuedAt + p.ttl * SECOND
    && x.issuedAt <= x.notBefore
    && (s.current.Some? && e.now < s.current.value.expiresAt ==> s.current.value.expiresAt <= x.notBefore)
    && (x.notBefore == x.issuedAt
        || (s.current.Some? && e.now < s.current.value.expiresAt && x.notBefore == s.current.value.expiresAt))
  }

  /**
    The whole new state: the token's epoch is current; with a roster, exactly the members outside it are added to
    the quarantine; an automatic token is added to the failovers of the last hour, a manual one leaves them alone.
  */
  lemma InstallationMeans(c: Config, s: State, e: Event)
    requires Step(c, s, e).1.Installed?
    ensures var s', p := Step(c, s, e).0, e.msg.value.payload;
            && s'.current.Some? && Opens(c, s, e, s'.current.value)
            && (forall m :: m in s'.quarantined <==>
                  m in s.quarantined || (p.roster.Some? && m in c.members && m !in p.roster.value))
            && (p.mode != "auto" ==> s'.autoLog == s.autoLog)
            && (p.mode == "auto" ==> s'.autoLog != [] && s'.autoLog[|s'.autoLog| - 1] == e.now
                                     && |s'.autoLog| == Recent(s.autoLog, e.now - HOUR) + 1)
  {
    InstalledExactly(c, s, e);
    LiveIsRecent(s.autoLog, e.now);
    ParsedWhenInstalled(c, s, e);
  }

  lemma ParsedWhenInstalled(c: Config, s: State, e: Event)
    requires Step(c, s, e).1.Installed?
    ensures c.parseTime(e.msg.value.payload.issuedText).Some?
  {
  }

  /**
    No installation without a quorum: over every history, each installed token carries the verifying signatures of
    at least the required number of different controllers, names a member of the cluster, has a term within the
    bounds, was issued at most five seconds ahead, and has a known mode.
  */
  lemma InstallationsAreSigned(c: Config, evs: seq<Event>, k: nat)
    requires k < |evs| && Step(c, After(c, evs[..k]), evs[k]).1.Installed?
    ensures evs[k].msg.Some?
    ensures var tok := evs[k].msg.value;
            && c.quorum <= |Signers(tok.signatures)| && Signers(tok.signatures) <= c.controllers
            && (forall id :: id in Signers(tok.signatures) ==>
                  exists s :: s in tok.signatures && s.keyId == id && c.verify(id, Canonical(tok.payload), s.sig))
            && tok.payload.authority in c.members && c.minTTL <= tok.payload.ttl <= c.maxTTL
            && tok.payload.mode in {"", "manual", "auto"}
            && c.parseTime(tok.payload.issuedText).Some?
            && c.parseTime(tok.payload.issuedText).value <= evs[k].now + 5 * SECOND
  {
    var s, e := After(c, evs[..k]), evs[k];
    InstalledExactly(c, s, e);
    assert !Faulty(c, s, e, QuorumInsufficient) && !Faulty(c, s, e, AuthorityNotMember);
    assert !Faulty(c, s, e, TtlOutOfRange) && !Faulty(c, s, e, UnknownMode);
    assert !Faulty(c, s, e, IssuedAtUnparseable) && !Faulty(c, s, e, FromFuture);
    BackedBySigners(c, e.msg.value);
  }

  lemma BackedBySigners(c: Config, tok: Token)
    requires Backed(c, tok)
    ensures c.quorum <= |Signers(tok.signatures)| && Signers(tok.signatures) <= c.controllers
    ensures forall id :: id in Signers(tok.signatures) ==>
              exists s :: s in tok.signatures && s.keyId == id && c.verify(id, Canonical(tok.payload), s.sig)
  {
    SignersAreDistinct(tok.signatures);
  }

  /** Service: the first of no epoch, quarantine, another authority, too early and too late; otherwise it serves. */
  lemma ServiceExactly(c: Config, s: State, now: Instant)
    ensures var r, some := ServiceAt(c, s, now), s.current.Some?;
            var fenced := c.cell in s.quarantined;
            var holds := some && s.current.value.payload.authority == c.cell;
            var early, late := some && now < s.current.value.notBefore, some && s.current.value.expiresAt <= now;
            && (r == NoEpoch <==> !some)
            && (r == Quarantined <==> some && fenced)
            && (r == NotAuthority <==> some && !fenced && !holds)
            && (r == NotYetEffective <==> holds && !fenced && early)
            && (r == Expired <==> holds && !fenced && !early && late)
            && (r.Serving? <==> holds && !fenced && !early && !late)
            && (r.Serving? ==> r.n == s.current.value.payload.n)
  {
  }
}
