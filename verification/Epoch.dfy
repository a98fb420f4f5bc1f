/**
  Epoch fencing: the state machine of one cell's `Tracker`.

  `Transition` and `ServiceAt` are the specification of the two locked sections, as functions of
  the tracker's state; class `Tracker` is the imperative form and refines them.  Histories are
  sequences of presentations, and every claim below is about all of them.

  Ed25519 verification and RFC 3339 parsing are arbitrary functions carried by the configuration.
  A payload hash is represented by the payload it identifies (its canonical form).
*/
module EpochFencing {
  import opened Basics
  import opened Multisig

  const SECOND := 1_000_000_000
  const HOUR := 3600 * SECOND
  const MAX_ISSUED_AT_SKEW := 5 * SECOND
  const MODE_AUTO := "auto"
  const MODE_MANUAL := "manual"

  type Cell = string
  /** Nanoseconds. */
  type Instant = int

  datatype Payload = Payload(n: int, authority: Cell, issuedText: string, ttl: int, mode: string,
                             roster: Option<seq<Cell>>)
  datatype Token = Token(payload: Payload, signatures: seq<Signature>)

  datatype Config = Config(
    cell: Cell, controllers: set<int>, quorum: nat, members: set<Cell>,
    maxAuto: nat, minTTL: int, maxTTL: int,
    verify: (int, Payload, string) -> bool,
    parseTime: string -> Option<Instant>)
  {
    /** What `NewTracker` insists on. */
    ghost predicate Valid() {
      && cell in members && "" !in members
      && 1 <= quorum <= |controllers|
      && 1 <= maxAuto
      && 1 <= minTTL <= maxTTL
    }
  }

  datatype Epoch = Epoch(payload: Payload, issuedAt: Instant, expiresAt: Instant, notBefore: Instant)
  datatype State = State(current: Option<Epoch>, quarantined: set<Cell>, autoLog: seq<Instant>)

  datatype Reason =
    | MalformedToken | SchemaViolation | TtlOutOfRange | IssuedAtUnparseable | FromFuture
    | AuthorityNotMember | UnknownMode | QuorumInsufficient
    | Regression | Equivocation | TokenExpired | BudgetExhausted
    | EmptyRoster | RosterUnknownCell | AuthorityNotInRoster

  /** `traced` says whether the registry leaf was written; an untraced outcome is an error too. */
  datatype Outcome = Installed(traced: bool) | Redelivered | Refused(reason: Reason, traced: bool)

  datatype Service = Serving(n: int) | NoEpoch | Quarantined | NotAuthority | NotYetEffective | Expired

  const INITIAL := State(None, {}, [])

  // ---------------------------------------------------------------------------------------------
  // Specification of the locked sections
  // ---------------------------------------------------------------------------------------------

  /** The serialised form that is signed and hashed: an empty roster is omitted from the JSON. */
  function Canonical(p: Payload): Payload {
    if p.roster == Some([]) then p.(roster := None) else p
  }

  function EffectiveMode(p: Payload): string { if p.mode == "" then MODE_MANUAL else p.mode }

  /** m-of-n over the canonical payload; the token's own claim about its quorum is never believed. */
  ghost predicate QuorumReached(c: Config, p: Payload, sigs: seq<Signature>) {
    Reached(c.controllers, (id, sig) => c.verify(id, Canonical(p), sig), c.quorum, sigs)
  }

  /** The checks that do not look at the tracker's state, in the order the code makes them. */
  ghost function Screen(c: Config, msg: Option<Token>, now: Instant): Option<Reason> {
    if msg.None? then Some(MalformedToken) else
    var p := msg.value.payload;
    if p.n < 0 || p.authority == "" || |p.authority| > 255 then Some(SchemaViolation)
    else if p.ttl < c.minTTL || p.ttl > c.maxTTL then Some(TtlOutOfRange)
    else if c.parseTime(p.issuedText).None? then Some(IssuedAtUnparseable)
    else if c.parseTime(p.issuedText).value > now + MAX_ISSUED_AT_SKEW then Some(FromFuture)
    else if p.authority !in c.members then Some(AuthorityNotMember)
    else if EffectiveMode(p) != MODE_AUTO && EffectiveMode(p) != MODE_MANUAL then Some(UnknownMode)
    else if !QuorumReached(c, p, msg.value.signatures) then Some(QuorumInsufficient)
    else None
  }

  function IssuedAt(c: Config, p: Payload): Instant {
    match c.parseTime(p.issuedText)
    case Some(t) => t
    case None => 0
  }

  function ExpiresAt(c: Config, p: Payload): Instant { IssuedAt(c, p) + p.ttl * SECOND }

  /** The automatic failovers still inside the sliding hour that ends at `now`. */
  function Live(log: seq<Instant>, now: Instant): seq<Instant> {
    if log == [] then []
    else Live(log[..|log| - 1], now) + (if log[|log| - 1] > now - HOUR then [log[|log| - 1]] else [])
  }

  function RosterSet(p: Payload): set<Cell> {
    if p.roster.None? then {} else set m | m in p.roster.value
  }

  function RosterFault(c: Config, p: Payload): Option<Reason> {
    if p.roster.None? then None
    else if p.roster.value == [] then Some(EmptyRoster)
    else if !(RosterSet(p) <= c.members) then Some(RosterUnknownCell)
    else if p.authority !in RosterSet(p) then Some(AuthorityNotInRoster)
    else None
  }

  function Revoked(c: Config, p: Payload): set<Cell> {
    if p.roster.None? then {} else c.members - RosterSet(p)
  }

  function NotBefore(c: Config, s: State, p: Payload, now: Instant): Instant {
    if s.current.Some? && now < s.current.value.expiresAt
    then Max(s.current.value.expiresAt, IssuedAt(c, p)) else IssuedAt(c, p)
  }

  /** The last stage: roster checks, then installation. */
  function Install(c: Config, s: State, p: Payload, now: Instant, leafOk: bool): (State, Outcome) {
    match RosterFault(c, p)
    case Some(r) => (s, Refused(r, leafOk))
    case None =>
      var e := Epoch(p, IssuedAt(c, p), ExpiresAt(c, p), NotBefore(c, s, p, now));
      (State(Some(e), s.quarantined + Revoked(c, p), s.autoLog), Installed(leafOk))
  }

  /** The stages that look at the current epoch and the failover budget. */
  function Admit(c: Config, s: State, p: Payload, now: Instant, leafOk: bool): (State, Outcome) {
    if s.current.Some? && p.n < s.current.value.payload.n then (s, Refused(Regression, leafOk))
    else if s.current.Some? && p.n == s.current.value.payload.n then
      if Canonical(p) == Canonical(s.current.value.payload) then (s, Redelivered)
      else (s, Refused(Equivocation, leafOk))
    else if s.current.Some? && now >= ExpiresAt(c, p) then (s, Refused(TokenExpired, leafOk))
    else if EffectiveMode(p) != MODE_AUTO then Install(c, s, p, now, leafOk)
    else
      var live := Live(s.autoLog, now);
      if |live| >= c.maxAuto then (s.(autoLog := live), Refused(BudgetExhausted, leafOk))
      else Install(c, s.(autoLog := live + [now]), p, now, leafOk)
  }

  ghost function Transition(c: Config, s: State, msg: Option<Token>, now: Instant, leafOk: bool): (State, Outcome) {
    match Screen(c, msg, now)
    case Some(r) => (s, Refused(r, leafOk))
    case None => Admit(c, s, msg.value.payload, now, leafOk)
  }

  function ServiceAt(c: Config, s: State, now: Instant): Service {
    if s.current.None? then NoEpoch
    else if c.cell in s.quarantined then Quarantined
    else if s.current.value.payload.authority != c.cell then NotAuthority
    else if now < s.current.value.notBefore then NotYetEffective
    else if now >= s.current.value.expiresAt then Expired
    else Serving(s.current.value.payload.n)
  }

  // ---------------------------------------------------------------------------------------------
  // The imperative tracker
  // ---------------------------------------------------------------------------------------------

  class Tracker {
    const cfg: Config
    var current: Option<Epoch>
    var quarantined: set<Cell>
    /** The automatic-failover log: the first `logLen` slots are in use, filtered in place. */
    const log: array<Instant>
    var logLen: nat

    ghost predicate Valid() reads this { cfg.Valid() && logLen <= log.Length == cfg.maxAuto }

    ghost function Abs(): State
      requires Valid()
      reads this, log
    {
      State(current, quarantined, log[..logLen])
    }

    constructor (c: Config)
      requires c.Valid()
      ensures Valid() && fresh(log) && cfg == c && Abs() == INITIAL
    {
      cfg := c;
      current := None;
      quarantined := {};
      log := new Instant[c.maxAuto];
      logLen := 0;
    }

    method VerifyQuorum(p: Payload, sigs: seq<Signature>) returns (ok: bool)
      requires Valid()
      ensures ok <==> QuorumReached(cfg, p, sigs)
    {
      var seen: set<int> := {};
      var valid := 0;
      ghost var check := (id, sig) => cfg.verify(id, Canonical(p), sig);
      for i := 0 to |sigs|
        invariant valid == i
        invariant forall id :: id in seen <==> exists j :: 0 <= j < i && sigs[j].keyId == id
        invariant DistinctKeys(sigs[..i])
        invariant AllVerify(cfg.controllers, check, sigs[..i])
      {
        var s := sigs[i];
        if s.keyId in seen {
          return false;
        }
        if s.keyId !in cfg.controllers || !cfg.verify(s.keyId, Canonical(p), s.sig) {
          return false;
        }
        seen := seen + {s.keyId};
        valid := valid + 1;
      }
      assert sigs[..|sigs|] == sigs;
      ok := valid >= cfg.quorum;
    }

    /** Keeps the entries of the sliding hour, moved to the front of the log. */
    method DropOld(now: Instant)
      requires Valid()
      modifies this`logLen, log
      ensures Valid() && log[..logLen] == Live(old(log[..logLen]), now)
    {
      ghost var before := log[..logLen];
      var kept := 0;
      for i := 0 to logLen
        invariant kept <= i && logLen == old(logLen)
        invariant log[..kept] == Live(before[..i], now)
        invariant forall k :: i <= k < logLen ==> log[k] == before[k]
      {
        var ts := log[i];
        assert before[..i + 1][..i] == before[..i] && ts == before[i];
        if ts > now - HOUR {
          log[kept] := ts;
          assert log[..kept + 1] == log[..kept] + [ts];
          kept := kept + 1;
        }
      }
      assert before[..logLen] == before;
      logLen := kept;
    }

    /** Filters the log in place, then spends one automatic failover if the hour allows it. */
    method ConsumeAutoBudget(now: Instant) returns (ok: bool)
      requires Valid()
      modifies this`logLen, log
      ensures Valid()
      ensures ok <==> |Live(old(log[..logLen]), now)| < cfg.maxAuto
      ensures ok ==> log[..logLen] == Live(old(log[..logLen]), now) + [now]
      ensures !ok ==> log[..logLen] == Live(old(log[..logLen]), now)
    {
      DropOld(now);
      ok := logLen < log.Length;
      if ok {
        log[logLen] := now;
        logLen := logLen + 1;
      }
    }

    method Accept(msg: Option<Token>, now: Instant, leafOk: bool) returns (r: Outcome)
      requires Valid()
      modifies this, log
      ensures Valid()
      ensures (Abs(), r) == Transition(cfg, old(Abs()), msg, now, leafOk)
    {
      if msg.None? { return Refused(MalformedToken, leafOk); }
      var p := msg.value.payload;
      if p.n < 0 || p.authority == "" || |p.authority| > 255 { return Refused(SchemaViolation, leafOk); }
      if p.ttl < cfg.minTTL || p.ttl > cfg.maxTTL { return Refused(TtlOutOfRange, leafOk); }
      var parsed := cfg.parseTime(p.issuedText);
      if parsed.None? { return Refused(IssuedAtUnparseable, leafOk); }
      var issuedAt := parsed.value;
      if issuedAt > now + MAX_ISSUED_AT_SKEW { return Refused(FromFuture, leafOk); }
      if p.authority !in cfg.members { return Refused(AuthorityNotMember, leafOk); }
      var mode := if p.mode == "" then MODE_MANUAL else p.mode;
      if mode != MODE_AUTO && mode != MODE_MANUAL { return Refused(UnknownMode, leafOk); }
      var quorum := VerifyQuorum(p, msg.value.signatures);
      if !quorum { return Refused(QuorumInsufficient, leafOk); }
      assert Screen(cfg, msg, now) == None;

      if current.Some? {
        if p.n < current.value.payload.n { return Refused(Regression, leafOk); }
        if p.n == current.value.payload.n {
          if Canonical(p) == Canonical(current.value.payload) { return Redelivered; }
          return Refused(Equivocation, leafOk);
        }
        if now >= issuedAt + p.ttl * SECOND { return Refused(TokenExpired, leafOk); }
      }
      if mode == MODE_AUTO {
        var budget := ConsumeAutoBudget(now);
        if !budget { return Refused(BudgetExhausted, leafOk); }
      }
      r := InstallLocked(p, issuedAt, now, leafOk);
    }

    method InstallLocked(p: Payload, issuedAt: Instant, now: Instant, leafOk: bool) returns (r: Outcome)
      requires Valid()
      requires cfg.parseTime(p.issuedText) == Some(issuedAt)
      modifies this`current, this`quarantined
      ensures Valid()
      ensures (Abs(), r) == Install(cfg, old(Abs()), p, now, leafOk)
    {
      var revoked: set<Cell> := {};
      if p.roster.Some? {
        var roster := p.roster.value;
        if roster == [] { return Refused(EmptyRoster, leafOk); }
        var inRoster: set<Cell> := {};
        for i := 0 to |roster|
          invariant inRoster == set m | m in roster[..i]
          invariant inRoster <= cfg.members
        {
          assert roster[i] in RosterSet(p);
          if roster[i] !in cfg.members { return Refused(RosterUnknownCell, leafOk); }
          inRoster := inRoster + {roster[i]};
        }
        assert roster[..|roster|] == roster;
        if p.authority !in inRoster { return Refused(AuthorityNotInRoster, leafOk); }
        revoked := set m | m in cfg.members && m !in inRoster && m !in quarantined;
      }
      var notBefore := issuedAt;
      if current.Some? && now < current.value.expiresAt && current.value.expiresAt > notBefore {
        notBefore := current.value.expiresAt;
      }
      current := Some(Epoch(p, issuedAt, issuedAt + p.ttl * SECOND, notBefore));
      quarantined := quarantined + revoked;
      r := Installed(leafOk);
      assert quarantined == old(quarantined) + Revoked(cfg, p);
    }

    method CurrentEpoch(now: Instant) returns (r: Service)
      requires Valid()
      ensures r == ServiceAt(cfg, Abs(), now)
      ensures r.Serving? ==> cfg.cell !in quarantined && current.Some?
    {
      if current.None? { return NoEpoch; }
      if cfg.cell in quarantined { return Quarantined; }
      if current.value.payload.authority != cfg.cell { return NotAuthority; }
      if now < current.value.notBefore { return NotYetEffective; }
      if now >= current.value.expiresAt { return Expired; }
      r := Serving(current.value.payload.n);
    }
  }
}
