/**
  Unmasking as the code does it: the exchange is locked for one lookup at a time, so each lookup may see a later
  table.  Tables only grow while the exchange lives; the answer is nevertheless one that a single look could give.
*/
module AnoTimed {
  import opened Basics
  import opened AnoText
  import opened AnoVault
  import opened Anonymiser

  /** What the lookups see, in the order in which they are made. */
  type Sights = nat -> Table

  ghost predicate Growing(see: Sights) { forall i: nat, j: nat :: i <= j ==> Extends(see(i), see(j)) }

  /** Resolves a text from the k-th lookup on, and returns the number of the next lookup. */
  function ResolveTimed(see: Sights, k: nat, s: string): (Option<string>, nat)
    decreases |s|
  {
    if s == "" then (Some(""), k) else
    var n := MatchLen(s);
    if n == 0 then
      var (rest, k') := ResolveTimed(see, k, s[1..]);
      (if rest.None? then None else Some([s[0]] + rest.value), k')
    else if s[..n] !in see(k).byTok then (None, k + 1)
    else
      var (rest, k') := ResolveTimed(see, k + 1, s[n..]);
      (if rest.None? then None else Some(see(k).byTok[s[..n]].Text() + rest.value), k')
  }

  function TextTimed(see: Sights, k: nat, s: string): (Result<Json, Error>, nat) {
    if ExactToken(s) then (UnmaskText(see(k), s), k + 1)
    else if HasToken(s) then
      var (r, k') := ResolveTimed(see, k, s);
      (if r.None? then Err(UnknownToken) else Ok(Str(r.value)), k')
    else (Ok(Str(s)), k)
  }

  function UnmaskTimed(see: Sights, k: nat, v: Json, depth: nat): (Result<Json, Error>, nat)
    decreases v, 0
  {
    if depth > MAX_DEPTH then (Err(TooDeep), k)
    else
      match v
      case Str(s) => TextTimed(see, k, s)
      case Arr(items) =>
        var (r, k') := ItemsTimed(see, k, items, depth);
        (if r.Err? then Err(r.error) else Ok(Arr(r.value)), k')
      case Obj(names, items) =>
        var (r, k') := ItemsTimed(see, k, items, depth);
        (if r.Err? then Err(r.error) else Ok(Obj(names, r.value)), k')
      case _ => (Ok(v), k)
  }

  function ItemsTimed(see: Sights, k: nat, items: seq<Json>, depth: nat): (Result<seq<Json>, Error>, nat)
    decreases items, 1
  {
    if items == [] then (Ok([]), k) else
    var (r, k1) := UnmaskTimed(see, k, items[0], depth + 1);
    if r.Err? then (Err(r.error), k1) else
    var (rest, k2) := ItemsTimed(see, k1, items[1..], depth);
    (if rest.Err? then rest else Ok([r.value] + rest.value), k2)
  }

  // ---------------------------------------------------------------------------------------------
  // A later table answers at least as much
  // ---------------------------------------------------------------------------------------------

  /** `late` is an answer that a later table may give where an earlier one gives `early`. */
  ghost predicate Later<T>(early: Result<T, Error>, late: Result<T, Error>) {
    && (early.Ok? ==> late == early)
    && (early == Err(TooDeep) ==> late == early)
    && (early.Ok? || early == Err(TooDeep) || early == Err(UnknownToken))
    && (late.Ok? || late == Err(TooDeep) || late == Err(UnknownToken))
  }

  lemma {:induction false} ResolveLater(t: Table, t': Table, s: string)
    requires Extends(t, t')
    ensures Resolve(Texts(t), s).Some? ==> Resolve(Texts(t'), s) == Resolve(Texts(t), s)
    decreases |s|
  {
    if s != "" {
      var n := MatchLen(s);
      if n == 0 { ResolveLater(t, t', s[1..]); } else { ResolveLater(t, t', s[n..]); }
    }
  }

  lemma TextLater(t: Table, t': Table, s: string)
    requires Extends(t, t')
    ensures Later(UnmaskText(t, s), UnmaskText(t', s))
  {
    ResolveLater(t, t', s);
  }

  lemma {:induction false} UnmaskLater(t: Table, t': Table, v: Json, depth: nat)
    requires Extends(t, t')
    ensures Later(Unmask(t, v, depth), Unmask(t', v, depth))
    decreases v, 0
  {
    if depth <= MAX_DEPTH {
      match v {
        case Str(s) => TextLater(t, t', s);
        case Arr(items) => ItemsLater(t, t', items, depth);
        case Obj(_, items) => ItemsLater(t, t', items, depth);
        case _ =>
      }
    }
  }

  lemma {:induction false} ItemsLater(t: Table, t': Table, items: seq<Json>, depth: nat)
    requires Extends(t, t')
    ensures Later(UnmaskItems(t, items, depth), UnmaskItems(t', items, depth))
    decreases items, 1
  {
    if items != [] {
      UnmaskLater(t, t', items[0], depth + 1);
      ItemsLater(t, t', items[1..], depth);
    }
  }

  // ---------------------------------------------------------------------------------------------
  // The answer of a whole reading
  // ---------------------------------------------------------------------------------------------

  /** Refused for an unknown token as at the start; any other answer is that of the end. */
  ghost predicate Between<T>(first: Result<T, Error>, r: Result<T, Error>, last: Result<T, Error>) {
    if r == Err(UnknownToken) then first == r else last == r
  }

  lemma {:induction false} ResolveBetween(see: Sights, k: nat, s: string, j: nat)
    requires Growing(see) && ResolveTimed(see, k, s).1 <= j
    ensures var (r, k') := ResolveTimed(see, k, s);
            k <= k' && if r.None? then Resolve(Texts(see(k)), s).None? else Resolve(Texts(see(j)), s) == r
    decreases |s|
  {
    if s != "" {
      var n := MatchLen(s);
      if n == 0 {
        ResolveBetween(see, k, s[1..], j);
      } else if s[..n] in see(k).byTok {
        ResolveBetween(see, k + 1, s[n..], j);
        assert Extends(see(k), see(k + 1)) && Extends(see(k), see(j));
        ResolveLater(see(k), see(k + 1), s[n..]);
      }
    }
  }

  lemma TextBetween(see: Sights, k: nat, s: string, j: nat)
    requires Growing(see) && TextTimed(see, k, s).1 <= j
    ensures var (r, k') := TextTimed(see, k, s);
            k <= k' && Between(UnmaskText(see(k), s), r, UnmaskText(see(j), s)) && r != Err(TooDeep)
  {
    if ExactToken(s) {
      assert Extends(see(k), see(j));
    } else if HasToken(s) {
      ResolveBetween(see, k, s, j);
    }
  }

  /**
    Whatever happens between its lookups, a reading that succeeds answers as a single look at its end, and one
    that is refused for an unknown token answers as a single look at its start.
  */
  lemma {:induction false} ReadingIsAtomic(see: Sights, k: nat, v: Json, depth: nat, j: nat)
    requires Growing(see) && UnmaskTimed(see, k, v, depth).1 <= j
    ensures var (r, k') := UnmaskTimed(see, k, v, depth);
            k <= k' && Between(Unmask(see(k), v, depth), r, Unmask(see(j), v, depth))
    decreases v, 0
  {
    if depth <= MAX_DEPTH {
      match v {
        case Str(s) => TextBetween(see, k, s, j);
        case Arr(items) => ItemsBetween(see, k, items, depth, j);
        case Obj(_, items) => ItemsBetween(see, k, items, depth, j);
        case _ =>
      }
    }
  }

  lemma {:induction false} ItemsBetween(see: Sights, k: nat, items: seq<Json>, depth: nat, j: nat)
    requires Growing(see) && ItemsTimed(see, k, items, depth).1 <= j
    ensures var (r, k') := ItemsTimed(see, k, items, depth);
            k <= k' && Between(UnmaskItems(see(k), items, depth), r, UnmaskItems(see(j), items, depth))
    decreases items, 1
  {
    if items != [] {
      var (r, k1) := UnmaskTimed(see, k, items[0], depth + 1);
      if r.Ok? {
        ItemsBetween(see, k1, items[1..], depth, j);
        ReadingIsAtomic(see, k, items[0], depth + 1, j);
        assert Extends(see(k), see(k1)) && Extends(see(k), see(j));
        UnmaskLater(see(k), see(j), items[0], depth + 1);
        ItemsLater(see(k), see(k1), items[1..], depth);
      } else {
        ReadingIsAtomic(see, k, items[0], depth + 1, j);
      }
    }
  }

  // ---------------------------------------------------------------------------------------------
  // When the exchange may be closed in the middle
  // ---------------------------------------------------------------------------------------------

  /** What `t` binds is seen as it is, or not at all. */
  ghost predicate Consistent(t: Table, see: Sights) {
    forall k: nat, tok :: tok in t.byTok && tok in see(k).byTok ==> see(k).byTok[tok] == t.byTok[tok]
  }

  lemma {:induction false} ResolveConsistent(t: Table, see: Sights, k: nat, s: string)
    requires Consistent(t, see) && Resolve(Texts(t), s).Some?
    ensures var r := ResolveTimed(see, k, s).0; r.None? || r == Resolve(Texts(t), s)
    decreases |s|
  {
    if s != "" {
      var n := MatchLen(s);
      if n == 0 { ResolveConsistent(t, see, k, s[1..]); } else { ResolveConsistent(t, see, k + 1, s[n..]); }
    }
  }

  lemma TextConsistent(t: Table, see: Sights, k: nat, s: string)
    requires Consistent(t, see) && UnmaskText(t, s).Ok?
    ensures TextTimed(see, k, s).0 in {UnmaskText(t, s), Err(UnknownToken)}
  {
    if !ExactToken(s) && HasToken(s) { ResolveConsistent(t, see, k, s); }
  }

  /** What the table can answer is answered so, or refused. */
  lemma {:induction false} AnsweredOrRefused(t: Table, see: Sights, k: nat, v: Json, depth: nat)
    requires Consistent(t, see) && Unmask(t, v, depth).Ok?
    ensures UnmaskTimed(see, k, v, depth).0 in {Unmask(t, v, depth), Err(UnknownToken)}
    decreases v, 0
  {
    match v {
      case Str(s) => TextConsistent(t, see, k, s);
      case Arr(items) => ItemsAnsweredOrRefused(t, see, k, items, depth);
      case Obj(_, items) => ItemsAnsweredOrRefused(t, see, k, items, depth);
      case _ =>
    }
  }

  lemma {:induction false} ItemsAnsweredOrRefused(t: Table, see: Sights, k: nat, items: seq<Json>, depth: nat)
    requires Consistent(t, see) && UnmaskItems(t, items, depth).Ok?
    ensures ItemsTimed(see, k, items, depth).0 in {UnmaskItems(t, items, depth), Err(UnknownToken)}
    decreases items, 1
  {
    if items != [] {
      AnsweredOrRefused(t, see, k, items[0], depth + 1);
      ItemsAnsweredOrRefused(t, see, UnmaskTimed(see, k, items[0], depth + 1).1, items[1..], depth);
    }
  }

  /** A lookup at every time that sees the same is the unmasking in one go. */
  lemma OneSight(t: Table, v: Json)
    ensures UnmaskTimed(_ => t, 0, v, 0).0 == Unmask(t, v, 0)
  {
    var see: Sights := _ => t;
    ReadingIsAtomic(see, 0, v, 0, UnmaskTimed(see, 0, v, 0).1);
  }
}
