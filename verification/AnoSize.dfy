/**
  The bound on what an unmasking may write.  The code looks at the length of its output before and after every
  value, and after every token put into a text; what it refuses is exactly what would end up too large.
*/
module AnoSize {
  import opened Basics
  import opened AnoText
  import opened AnoVault
  import opened Anonymiser

  /** `quoted` is the length of a string as JSON writes it. */
  datatype Bounds = Bounds(maxPayload: nat, quoted: string -> nat)
  {
    /** Writing a string takes at least its own length. */
    ghost predicate Valid() { forall s :: |s| <= quoted(s) }
  }

  /** What stands in front of the i-th member: a comma, and the key with its colon. */
  function Lead(b: Bounds, names: Option<seq<string>>, i: nat): nat {
    (if i > 0 then 1 else 0) + (if names.Some? && i < |names.value| then b.quoted(names.value[i]) + 1 else 0)
  }

  /** The length of the compact rendering. */
  function Size(b: Bounds, v: Json): nat
    decreases v, 0
  {
    match v
    case Null => 4
    case Bool(x) => if x then 4 else 5
    case Num(text) => |text|
    case Str(text) => b.quoted(text)
    case Arr(items) => 2 + ListSize(b, None, items, 0)
    case Obj(names, items) => 2 + ListSize(b, Some(names), items, 0)
  }

  /** The same for the members from the i-th on. */
  function ListSize(b: Bounds, names: Option<seq<string>>, items: seq<Json>, i: nat): nat
    decreases items, 1
  {
    if items == [] then 0 else Lead(b, names, i) + Size(b, items[0]) + ListSize(b, names, items[1..], i + 1)
  }

  // ---------------------------------------------------------------------------------------------
  // Texts
  // ---------------------------------------------------------------------------------------------

  function PrependOk(a: string, r: Result<string, Error>): Result<string, Error> {
    if r.Err? then r else Ok(a + r.value)
  }

  /** Replaces every token, when `len` characters have been written already. */
  function ResolveWithin(b: Bounds, known: map<string, string>, s: string, len: nat): Result<string, Error> {
    if s == "" then if len > b.maxPayload then Err(TooLarge) else Ok("")
    else
      var k := MatchLen(s);
      if k == 0 then PrependOk([s[0]], ResolveWithin(b, known, s[1..], len + 1))
      else if s[..k] !in known then Err(UnknownToken)
      else
        var text := known[s[..k]];
        if len + |text| > b.maxPayload then Err(TooLarge)
        else PrependOk(text, ResolveWithin(b, known, s[k..], len + |text|))
  }

  /** The running check refuses exactly the texts that end up too long. */
  lemma {:induction false} ResolveIsBounded(b: Bounds, known: map<string, string>, s: string, len: nat)
    ensures var r, p := ResolveWithin(b, known, s, len), Resolve(known, s);
            && (r.Ok? <==> p.Some? && len + |p.value| <= b.maxPayload)
            && (r.Ok? ==> r.value == p.value)
    decreases |s|
  {
    if s != "" {
      var k := MatchLen(s);
      if k == 0 {
        ResolveIsBounded(b, known, s[1..], len + 1);
      } else if s[..k] in known {
        ResolveIsBounded(b, known, s[k..], len + |known[s[..k]]|);
      }
    }
  }

  // ---------------------------------------------------------------------------------------------
  // Values
  // ---------------------------------------------------------------------------------------------

  function UnmaskTextWithin(b: Bounds, t: Table, s: string): Result<Json, Error> {
    if ExactToken(s) then UnmaskText(t, s)
    else if HasToken(s) then
      match ResolveWithin(b, Texts(t), s, 0)
      case Err(e) => Err(e)
      case Ok(x) => Ok(Str(x))
    else Ok(Str(s))
  }

  /** The result is written behind `len` characters; the check at the end of a value. */
  function Written(b: Bounds, r: Result<Json, Error>, len: nat): (Result<Json, Error>, nat) {
    if r.Err? then (r, len)
    else if len + Size(b, r.value) > b.maxPayload then (Err(TooLarge), len + Size(b, r.value))
    else (r, len + Size(b, r.value))
  }

  /** Unmasks a value behind `len` characters of output, and returns the new length. */
  function UnmaskWithin(b: Bounds, t: Table, v: Json, depth: nat, len: nat): (Result<Json, Error>, nat)
    decreases v, 0, 0
  {
    if depth > MAX_DEPTH then (Err(TooDeep), len)
    else if len > b.maxPayload then (Err(TooLarge), len)
    else
      match v
      case Str(s) => Written(b, UnmaskTextWithin(b, t, s), len)
      case Arr(items) =>
        var (xs, n) := ItemsWithin(b, t, None, items, 0, depth, len + 1);
        if xs.Err? then (Err(xs.error), n)
        else if n + 1 > b.maxPayload then (Err(TooLarge), n + 1) else (Ok(Arr(xs.value)), n + 1)
      case Obj(names, items) =>
        var (xs, n) := ItemsWithin(b, t, Some(names), items, 0, depth, len + 1);
        if xs.Err? then (Err(xs.error), n)
        else if n + 1 > b.maxPayload then (Err(TooLarge), n + 1) else (Ok(Obj(names, xs.value)), n + 1)
      case _ => Written(b, Ok(v), len)
  }

  function ItemsWithin(b: Bounds, t: Table, names: Option<seq<string>>, items: seq<Json>, i: nat, depth: nat, len: nat)
    : (Result<seq<Json>, Error>, nat)
    decreases items, 1, |items|
  {
    if items == [] then (Ok([]), len) else
    var (x, n) := UnmaskWithin(b, t, items[0], depth + 1, len + Lead(b, names, i));
    if x.Err? then (Err(x.error), n) else
    var (xs, m) := ItemsWithin(b, t, names, items[1..], i + 1, depth, n);
    (if xs.Err? then xs else Ok([x.value] + xs.value), m)
  }

  /** The bounded result is the unbounded one, exactly when that fits behind `len` characters. */
  ghost predicate Fits(b: Bounds, r: (Result<Json, Error>, nat), plain: Result<Json, Error>, len: nat) {
    && (r.0.Ok? <==> plain.Ok? && len + Size(b, plain.value) <= b.maxPayload)
    && (r.0.Ok? ==> r.0 == plain && r.1 == len + Size(b, plain.value))
  }

  ghost predicate ItemsFit(b: Bounds, names: Option<seq<string>>, r: (Result<seq<Json>, Error>, nat),
                           plain: Result<seq<Json>, Error>, i: nat, len: nat)
  {
    && (r.0.Ok? <==> plain.Ok? && (plain.value == [] || len + ListSize(b, names, plain.value, i) <= b.maxPayload))
    && (r.0.Ok? ==> r.0 == plain && r.1 == len + ListSize(b, names, plain.value, i))
  }

  lemma TextFits(b: Bounds, t: Table, s: string, depth: nat, len: nat)
    requires b.Valid() && depth <= MAX_DEPTH
    ensures Fits(b, UnmaskWithin(b, t, Str(s), depth, len), Unmask(t, Str(s), depth), len)
  {
    if !ExactToken(s) && HasToken(s) { ResolveIsBounded(b, Texts(t), s, 0); }
  }

  /** The running checks refuse exactly the values whose rendering would be too large. */
  lemma {:induction false} UnmaskIsBounded(b: Bounds, t: Table, v: Json, depth: nat, len: nat)
    requires b.Valid()
    ensures Fits(b, UnmaskWithin(b, t, v, depth, len), Unmask(t, v, depth), len)
    decreases v, 0, 0
  {
    if depth <= MAX_DEPTH {
      match v {
        case Str(s) => TextFits(b, t, s, depth, len);
        case Arr(items) => ItemsBounded(b, t, None, items, 0, depth, len + 1);
        case Obj(names, items) => ItemsBounded(b, t, Some(names), items, 0, depth, len + 1);
        case _ =>
      }
    }
  }

  lemma {:induction false} ItemsBounded(b: Bounds, t: Table, names: Option<seq<string>>, items: seq<Json>, i: nat,
                                        depth: nat, len: nat)
    requires b.Valid()
    ensures ItemsFit(b, names, ItemsWithin(b, t, names, items, i, depth, len), UnmaskItems(t, items, depth), i, len)
    decreases items, 1, |items|, 1
  {
    if items != [] {
      var lead := len + Lead(b, names, i);
      UnmaskIsBounded(b, t, items[0], depth + 1, lead);
      RestBounded(b, t, names, items, i, depth, len, UnmaskWithin(b, t, items[0], depth + 1, lead).1);
    }
  }

  lemma {:induction false} RestBounded(b: Bounds, t: Table, names: Option<seq<string>>, items: seq<Json>, i: nat,
                                       depth: nat, len: nat, n: nat)
    requires b.Valid() && items != []
    requires n == UnmaskWithin(b, t, items[0], depth + 1, len + Lead(b, names, i)).1
    requires Fits(b, UnmaskWithin(b, t, items[0], depth + 1, len + Lead(b, names, i)), Unmask(t, items[0], depth + 1),
                  len + Lead(b, names, i))
    ensures ItemsFit(b, names, ItemsWithin(b, t, names, items, i, depth, len), UnmaskItems(t, items, depth), i, len)
    decreases items, 1, |items|, 0
  {
    ItemsBounded(b, t, names, items[1..], i + 1, depth, n);
    ConsFits(b, t, names, items, i, depth, len);
  }

  lemma ConsFits(b: Bounds, t: Table, names: Option<seq<string>>, items: seq<Json>, i: nat, depth: nat, len: nat)
    requires items != []
    requires var lead := len + Lead(b, names, i);
             var r := UnmaskWithin(b, t, items[0], depth + 1, lead);
             && Fits(b, r, Unmask(t, items[0], depth + 1), lead)
             && ItemsFit(b, names, ItemsWithin(b, t, names, items[1..], i + 1, depth, r.1),
                         UnmaskItems(t, items[1..], depth), i + 1, r.1)
    ensures ItemsFit(b, names, ItemsWithin(b, t, names, items, i, depth, len), UnmaskItems(t, items, depth), i, len)
  {
    var head, rest := Unmask(t, items[0], depth + 1), UnmaskItems(t, items[1..], depth);
    if head.Ok? && rest.Ok? {
      var all := [head.value] + rest.value;
      assert all[0] == head.value && all[1..] == rest.value;
      assert ListSize(b, names, all, i) == Lead(b, names, i) + Size(b, head.value) +
             ListSize(b, names, rest.value, i + 1);
    }
  }
}
