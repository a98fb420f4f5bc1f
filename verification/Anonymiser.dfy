/**
  Masking a JSON payload on its way out of the cell, and putting the values back.

  `PlanOf` decides what happens to every leaf; `Fill` carries the plan out against the table of the
  exchange, left to right.  The methods do both in one pass, as the code does, and are proved to
  compute the same.  The classifier is an arbitrary sequence of answers.
*/
module Anonymiser {
  import opened Basics
  import opened AnoText
  import opened AnoVault
  import AnoRules
  import Exponent

  const MAX_DEPTH := 32

  datatype Answer = SayMask | SayKeep | Fault
  datatype Classifier = Classifier(maxCalls: nat, answer: nat -> Answer)

  /** `matches` is everything the patterns match in a text. */
  datatype Config = Config(keep: seq<AnoRules.Path>, mask: seq<AnoRules.Path>, matches: string -> seq<AnoRules.Span>,
                           classifier: Option<Classifier>, maxEntries: nat)

  datatype Error = Reserved | TooDeep | TableFull | UnknownToken | TooLarge | UnknownExchange | Unparsable

  // ---------------------------------------------------------------------------------------------
  // Deciding
  // ---------------------------------------------------------------------------------------------

  /** Kept text, then a masked span. */
  datatype Seg = Seg(before: string, hole: string)

  datatype Plan =
    | Keep(v: Json)
    | Whole(v: Json)
    | Cut(segs: seq<Seg>, tail: string)
    | Fail(err: Error)
    | PArr(items: seq<Plan>)
    | PObj(names: seq<string>, items: seq<Plan>)

  function Spans(c: Config, text: string): (s: seq<AnoRules.Span>)
    ensures AnoRules.Disjoint(s, 0, |text|)
  {
    AnoRules.SpansSound(c.matches(text), |text|);
    AnoRules.FindSpans(c.matches(text), |text|)
  }

  function Segments(text: string, spans: seq<AnoRules.Span>, from: nat): seq<Seg>
    requires from <= |text| && AnoRules.Disjoint(spans, from, |text|)
  {
    if spans == [] then [] else
    var sp := spans[0];
    [Seg(text[from..sp.start], text[sp.start..sp.end])] + Segments(text, spans[1..], sp.end)
  }

  function TailFrom(text: string, spans: seq<AnoRules.Span>, from: nat): string
    requires from <= |text| && AnoRules.Disjoint(spans, from, |text|)
  {
    if spans == [] then text[from..] else TailFrom(text, spans[1..], spans[0].end)
  }

  predicate NumberMatches(c: Config, text: string) {
    Spans(c, text) != [] ||
    (Exponent.ExpandExponent(text).Some? && Spans(c, Exponent.ExpandExponent(text).value) != [])
  }

  /** A leaf that is not masked as a whole: the patterns still apply to it. */
  function KeptLeaf(c: Config, v: Json): Plan
    requires v.Str? || v.Num?
  {
    if v.Num? then if NumberMatches(c, v.text) then Whole(v) else Keep(v)
    else
      var spans := Spans(c, v.text);
      if spans == [] then Keep(v) else Cut(Segments(v.text, spans, 0), TailFrom(v.text, spans, 0))
  }

  /** The fate of a string or a number, and the number of classifier calls made so far. */
  function LeafPlan(c: Config, path: AnoRules.Path, v: Json, calls: nat): (Plan, nat)
    requires v.Str? || v.Num?
  {
    if v.Str? && HasToken(v.text) then (Fail(Reserved), calls)
    else
      match AnoRules.Decide(c.keep, c.mask, path)
      case Mask => (Whole(v), calls)
      case Keep => (KeptLeaf(c, v), calls)
      case NoRule =>
        if v.text == "" then (Keep(v), calls)
        else if c.classifier.None? then (Whole(v), calls)
        else if calls >= c.classifier.value.maxCalls then (Whole(v), calls)
        else if c.classifier.value.answer(calls) == SayKeep then (KeptLeaf(c, v), calls + 1)
        else (Whole(v), calls + 1)
  }

  /** The path segment of the i-th member. */
  function Segment(v: Json, i: nat): string {
    if v.Obj? && i < |v.names| then v.names[i] else Decimal(i)
  }

  function PlanOf(c: Config, path: AnoRules.Path, v: Json, calls: nat, depth: nat): (Plan, nat)
    decreases v, 0, 0
  {
    if depth > MAX_DEPTH then (Fail(TooDeep), calls)
    else
      match v
      case Null => (Keep(v), calls)
      case Bool(_) => (Keep(v), calls)
      case Num(_) => LeafPlan(c, path, v, calls)
      case Str(_) => LeafPlan(c, path, v, calls)
      case Arr(items) => var (ps, n) := PlanItems(c, path, v, items, 0, calls, depth); (PArr(ps), n)
      case Obj(names, items) => var (ps, n) := PlanItems(c, path, v, items, 0, calls, depth); (PObj(names, ps), n)
  }

  function PlanItems(c: Config, path: AnoRules.Path, v: Json, items: seq<Json>, i: nat, calls: nat, depth: nat)
    : (seq<Plan>, nat)
    requires i <= |items|
    decreases items, 1, |items| - i
  {
    if i == |items| then ([], calls) else
    var (p, n) := PlanOf(c, path + [Segment(v, i)], items[i], calls, depth + 1);
    var (ps, m) := PlanItems(c, path, v, items, i + 1, n, depth);
    ([p] + ps, m)
  }

  function SegHoles(segs: seq<Seg>): seq<Entry> {
    if segs == [] then [] else [Entry.Span(segs[0].hole)] + SegHoles(segs[1..])
  }

  /** The masked values, in the order in which they are met. */
  function Holes(p: Plan): seq<Entry>
    decreases p, 0
  {
    match p
    case Whole(v) => [Leaf(v)]
    case Cut(segs, _) => SegHoles(segs)
    case PArr(items) => ItemHoles(items)
    case PObj(_, items) => ItemHoles(items)
    case _ => []
  }

  function ItemHoles(ps: seq<Plan>): seq<Entry>
    decreases ps, 1
  {
    if ps == [] then [] else Holes(ps[0]) + ItemHoles(ps[1..])
  }

  // ---------------------------------------------------------------------------------------------
  // Masking
  // ---------------------------------------------------------------------------------------------

  function FillSegs(t: Table, max: nat, segs: seq<Seg>, tail: string): (Table, Option<string>)
    decreases |segs|
  {
    if segs == [] then (t, Some(tail)) else
    var (t1, tok) := Intern(t, Entry.Span(segs[0].hole), max);
    if tok.None? then (t1, None) else
    var (t2, rest) := FillSegs(t1, max, segs[1..], tail);
    (t2, if rest.None? then None else Some(segs[0].before + (tok.value + rest.value)))
  }

  function Fill(t: Table, max: nat, p: Plan): (Table, Result<Json, Error>)
    decreases p, 0
  {
    match p
    case Keep(v) => (t, Ok(v))
    case Whole(v) =>
      var (t1, tok) := Intern(t, Leaf(v), max);
      (t1, if tok.None? then Err(TableFull) else Ok(Str(tok.value)))
    case Cut(segs, tail) =>
      var (t1, s) := FillSegs(t, max, segs, tail);
      (t1, if s.None? then Err(TableFull) else Ok(Str(s.value)))
    case Fail(e) => (t, Err(e))
    case PArr(items) =>
      var (t1, r) := FillItems(t, max, items);
      (t1, if r.Err? then Err(r.error) else Ok(Arr(r.value)))
    case PObj(names, items) =>
      var (t1, r) := FillItems(t, max, items);
      (t1, if r.Err? then Err(r.error) else Ok(Obj(names, r.value)))
  }

  function FillItems(t: Table, max: nat, ps: seq<Plan>): (Table, Result<seq<Json>, Error>)
    decreases ps, 1
  {
    if ps == [] then (t, Ok([])) else
    var (t1, r) := Fill(t, max, ps[0]);
    if r.Err? then (t1, Err(r.error)) else
    var (t2, rest) := FillItems(t1, max, ps[1..]);
    (t2, if rest.Err? then rest else Ok([r.value] + rest.value))
  }

  function Mask(c: Config, t: Table, v: Json): (Table, Result<Json, Error>) {
    Fill(t, c.maxEntries, PlanOf(c, [], v, 0, 0).0)
  }

  // ---------------------------------------------------------------------------------------------
  // Unmasking
  // ---------------------------------------------------------------------------------------------

  function Texts(t: Table): map<string, string> { map tok | tok in t.byTok :: t.byTok[tok].Text() }

  function UnmaskText(t: Table, s: string): Result<Json, Error> {
    if ExactToken(s) then
      if s !in t.byTok then Err(UnknownToken)
      else
        match t.byTok[s]
        case Leaf(v) => Ok(v)
        case Span(x) => Ok(Str(x))
    else if HasToken(s) then
      match Resolve(Texts(t), s)
      case None => Err(UnknownToken)
      case Some(x) => Ok(Str(x))
    else Ok(Str(s))
  }

  function Unmask(t: Table, v: Json, depth: nat): Result<Json, Error>
    decreases v, 0
  {
    if depth > MAX_DEPTH then Err(TooDeep)
    else
      match v
      case Str(s) => UnmaskText(t, s)
      case Arr(items) => (match UnmaskItems(t, items, depth) case Err(e) => Err(e) case Ok(xs) => Ok(Arr(xs)))
      case Obj(names, items) =>
        (match UnmaskItems(t, items, depth) case Err(e) => Err(e) case Ok(xs) => Ok(Obj(names, xs)))
      case _ => Ok(v)
  }

  function UnmaskItems(t: Table, items: seq<Json>, depth: nat): Result<seq<Json>, Error>
    decreases items, 1
  {
    if items == [] then Ok([]) else
    var r := Unmask(t, items[0], depth + 1);
    if r.Err? then Err(r.error) else
    var rest := UnmaskItems(t, items[1..], depth);
    if rest.Err? then rest else Ok([r.value] + rest.value)
  }
}
