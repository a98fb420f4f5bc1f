/** The one-pass form of masking and unmasking: it recurses over the payload while it changes the exchange. */
module AnoMethods {
  import opened Basics
  import opened AnoText
  import opened AnoVault
  import opened Anonymiser
  import AnoRules
  import Exponent
  import opened AnoSize

  /** Puts already written output in front of what is still to come. */
  ghost function Prepend(done: string, r: Option<string>): Option<string> {
    if r.None? then None else Some(done + r.value)
  }

  ghost function PrependItems(done: seq<Json>, r: Result<seq<Json>, Error>): Result<seq<Json>, Error> {
    if r.Err? then r else Ok(done + r.value)
  }

  lemma PrependTwice(a: string, b: string, r: Option<string>)
    ensures Prepend(a, Prepend(b, r)) == Prepend(a + b, r) && Prepend("", r) == r
  {
    if r.Some? { assert a + (b + r.value) == (a + b) + r.value && "" + r.value == r.value; }
  }

  lemma PrependItemsTwice(a: seq<Json>, b: seq<Json>, r: Result<seq<Json>, Error>)
    ensures PrependItems(a, PrependItems(b, r)) == PrependItems(a + b, r) && PrependItems([], r) == r
  {
    if r.Ok? { assert a + (b + r.value) == (a + b) + r.value && [] + r.value == r.value; }
  }

  ghost function FillSpans(t: Table, max: nat, text: string, spans: seq<AnoRules.Span>, from: nat)
    : (Table, Option<string>)
    requires from <= |text| && AnoRules.Disjoint(spans, from, |text|)
  {
    FillSegs(t, max, Segments(text, spans, from), TailFrom(text, spans, from))
  }

  /** One span of the specification. */
  lemma FillSpansStep(t: Table, max: nat, text: string, spans: seq<AnoRules.Span>, from: nat)
    requires from <= |text| && AnoRules.Disjoint(spans, from, |text|) && spans != []
    ensures var sp := spans[0];
            var (t1, tok) := Intern(t, Entry.Span(text[sp.start..sp.end]), max);
            FillSpans(t, max, text, spans, from) ==
            if tok.None? then (t1, None)
            else
              var rest := FillSpans(t1, max, text, spans[1..], sp.end);
              (rest.0, Prepend(text[from..sp.start] + tok.value, rest.1))
  {
    var sp := spans[0];
    assert Segments(text, spans, from)[1..] == Segments(text, spans[1..], sp.end);
    var (t1, tok) := Intern(t, Entry.Span(text[sp.start..sp.end]), max);
    if tok.Some? {
      var rest := FillSpans(t1, max, text, spans[1..], sp.end);
      if rest.1.Some? {
        assert text[from..sp.start] + (tok.value + rest.1.value) == (text[from..sp.start] + tok.value) + rest.1.value;
      }
    }
  }

  /** Replaces the spans of a string by tokens, left to right. */
  method WriteSpans(ex: Exchange, max: nat, text: string, spans: seq<AnoRules.Span>) returns (s: Option<string>)
    requires AnoRules.Disjoint(spans, 0, |text|)
    modifies ex
    ensures (ex.Abs(), s) == FillSpans(old(ex.Abs()), max, text, spans, 0)
  {
    var sb, last := "", 0;
    ghost var all := FillSpans(ex.Abs(), max, text, spans, 0);
    ghost var rest := all;
    assert spans[0..] == spans;
    PrependTwice("", "", rest.1);
    for i := 0 to |spans|
      invariant 0 <= last <= |text| && AnoRules.Disjoint(spans[i..], last, |text|)
      invariant rest == FillSpans(ex.Abs(), max, text, spans[i..], last)
      invariant all == (rest.0, Prepend(sb, rest.1))
    {
      var sp := spans[i];
      FillSpansStep(ex.Abs(), max, text, spans[i..], last);
      assert spans[i..][0] == sp && spans[i..][1..] == spans[i + 1..];
      var tok := ex.InternEntry(Entry.Span(text[sp.start..sp.end]), max);
      if tok.None? { return None; }
      rest := FillSpans(ex.Abs(), max, text, spans[i + 1..], sp.end);
      PrependTwice(sb, text[last..sp.start] + tok.value, rest.1);
      sb := sb + (text[last..sp.start] + tok.value);
      last := sp.end;
    }
    s := Some(sb + text[last..]);
  }

  method WriteLeafToken(ex: Exchange, max: nat, v: Json) returns (r: Result<Json, Error>)
    modifies ex
    ensures (ex.Abs(), r) == Fill(old(ex.Abs()), max, Whole(v))
  {
    var tok := ex.InternEntry(Leaf(v), max);
    if tok.None? { return Err(TableFull); }
    r := Ok(Str(tok.value));
  }

  method FindSpansIn(c: Config, text: string) returns (spans: seq<AnoRules.Span>)
    ensures spans == Spans(c, text)
  {
    spans := AnoRules.SelectSpans(c.matches(text), |text|);
  }

  method EmitKept(c: Config, ex: Exchange, v: Json) returns (r: Result<Json, Error>)
    requires v.Str? || v.Num?
    modifies ex
    ensures (ex.Abs(), r) == Fill(old(ex.Abs()), c.maxEntries, KeptLeaf(c, v))
  {
    var spans := FindSpansIn(c, v.text);
    if v.Num? {
      var hit := spans != [];
      var plain := Exponent.ExpandExponent(v.text);
      if !hit && plain.Some? {
        var more := FindSpansIn(c, plain.value);
        hit := more != [];
      }
      if hit {
        r := WriteLeafToken(ex, c.maxEntries, v);
      } else {
        r := Ok(v);
      }
      return;
    }
    if spans == [] { return Ok(v); }
    var s := WriteSpans(ex, c.maxEntries, v.text, spans);
    r := if s.None? then Err(TableFull) else Ok(Str(s.value));
  }

  method MaskLeaf(c: Config, ex: Exchange, path: AnoRules.Path, v: Json, calls: nat)
    returns (r: Result<Json, Error>, calls': nat)
    requires v.Str? || v.Num?
    modifies ex
    ensures (ex.Abs(), r) == Fill(old(ex.Abs()), c.maxEntries, LeafPlan(c, path, v, calls).0)
    ensures calls' == LeafPlan(c, path, v, calls).1
  {
    calls' := calls;
    if v.Str? && HasToken(v.text) { return Err(Reserved), calls; }
    var verdict := AnoRules.DecidePath(c.keep, c.mask, path);
    if verdict == AnoRules.Verdict.Mask {
      r := WriteLeafToken(ex, c.maxEntries, v);
      return;
    }
    if verdict == AnoRules.Verdict.Keep {
      r := EmitKept(c, ex, v);
      return;
    }
    if v.text == "" { return Ok(v), calls; }
    var mask := true;
    if c.classifier.Some? && calls < c.classifier.value.maxCalls {
      mask := c.classifier.value.answer(calls) != SayKeep;
      calls' := calls + 1;
    }
    if mask {
      r := WriteLeafToken(ex, c.maxEntries, v);
    } else {
      r := EmitKept(c, ex, v);
    }
  }

  method MaskValue(c: Config, ex: Exchange, path: AnoRules.Path, v: Json, calls: nat, depth: nat)
    returns (r: Result<Json, Error>, calls': nat)
    modifies ex
    ensures (ex.Abs(), r) == Fill(old(ex.Abs()), c.maxEntries, PlanOf(c, path, v, calls, depth).0)
    ensures r.Ok? ==> calls' == PlanOf(c, path, v, calls, depth).1
    decreases v, 0
  {
    calls' := calls;
    if depth > MAX_DEPTH { return Err(TooDeep), calls; }
    match v {
      case Null => r := Ok(v);
      case Bool(_) => r := Ok(v);
      case Num(_) => r, calls' := MaskLeaf(c, ex, path, v, calls);
      case Str(_) => r, calls' := MaskLeaf(c, ex, path, v, calls);
      case Arr(items) =>
        var xs;
        xs, calls' := MaskItems(c, ex, path, v, items, calls, depth);
        r := if xs.Err? then Err(xs.error) else Ok(Arr(xs.value));
      case Obj(names, items) =>
        var xs;
        xs, calls' := MaskItems(c, ex, path, v, items, calls, depth);
        r := if xs.Err? then Err(xs.error) else Ok(Obj(names, xs.value));
    }
  }

  ghost function FillFrom(c: Config, t: Table, path: AnoRules.Path, v: Json, items: seq<Json>, i: nat, calls: nat,
                          depth: nat)
    : (Table, Result<seq<Json>, Error>)
    requires i <= |items|
  {
    FillItems(t, c.maxEntries, PlanItems(c, path, v, items, i, calls, depth).0)
  }

  /** One member of the specification. */
  lemma FillFromStep(c: Config, t: Table, path: AnoRules.Path, v: Json, items: seq<Json>, i: nat, calls: nat,
                     depth: nat)
    requires i < |items|
    ensures var (p, n) := PlanOf(c, path + [Segment(v, i)], items[i], calls, depth + 1);
            var (t1, x) := Fill(t, c.maxEntries, p);
            && PlanItems(c, path, v, items, i, calls, depth).1 == PlanItems(c, path, v, items, i + 1, n, depth).1
            && FillFrom(c, t, path, v, items, i, calls, depth) ==
               if x.Err? then (t1, Err(x.error))
               else
                 var rest := FillFrom(c, t1, path, v, items, i + 1, n, depth);
                 (rest.0, PrependItems([x.value], rest.1))
  {
    var (p, n) := PlanOf(c, path + [Segment(v, i)], items[i], calls, depth + 1);
    var ps := PlanItems(c, path, v, items, i + 1, n, depth).0;
    assert PlanItems(c, path, v, items, i, calls, depth).0 == [p] + ps;
    assert ([p] + ps)[0] == p && ([p] + ps)[1..] == ps;
  }

  /** The loop over the members of an array or an object. */
  method MaskItems(c: Config, ex: Exchange, path: AnoRules.Path, v: Json, items: seq<Json>, calls: nat, depth: nat)
    returns (r: Result<seq<Json>, Error>, calls': nat)
    modifies ex
    ensures (ex.Abs(), r) == FillFrom(c, old(ex.Abs()), path, v, items, 0, calls, depth)
    ensures r.Ok? ==> calls' == PlanItems(c, path, v, items, 0, calls, depth).1
    decreases items, 1
  {
    var out: seq<Json> := [];
    calls' := calls;
    ghost var all := FillFrom(c, ex.Abs(), path, v, items, 0, calls, depth);
    ghost var count := PlanItems(c, path, v, items, 0, calls, depth).1;
    ghost var rest := all;
    PrependItemsTwice([], [], rest.1);
    for i := 0 to |items|
      invariant count == PlanItems(c, path, v, items, i, calls', depth).1
      invariant rest == FillFrom(c, ex.Abs(), path, v, items, i, calls', depth)
      invariant all == (rest.0, PrependItems(out, rest.1))
    {
      FillFromStep(c, ex.Abs(), path, v, items, i, calls', depth);
      var x;
      x, calls' := MaskValue(c, ex, path + [Segment(v, i)], items[i], calls', depth + 1);
      if x.Err? { return Err(x.error), calls'; }
      rest := FillFrom(c, ex.Abs(), path, v, items, i + 1, calls', depth);
      PrependItemsTwice(out, [x.value], rest.1);
      out := out + [x.value];
    }
    r := Ok(out);
    assert out + [] == out;
  }

  // ---------------------------------------------------------------------------------------------
  // Unmasking
  // ---------------------------------------------------------------------------------------------

  lemma PrependOkTwice(a: string, b: string, r: Result<string, Error>)
    ensures PrependOk(a, PrependOk(b, r)) == PrependOk(a + b, r) && PrependOk("", r) == r
  {
    if r.Ok? { assert a + (b + r.value) == (a + b) + r.value && "" + r.value == r.value; }
  }

  /** What `all` still lacks, once `out` has been written for what stands before position `i`. */
  ghost predicate ResolvedUpTo(b: Bounds, known: map<string, string>, s: string, i: nat, out: string,
                               all: Result<string, Error>)
  {
    i <= |s| && all == PrependOk(out, ResolveWithin(b, known, s[i..], |out|))
  }

  lemma ReadNext(b: Bounds, known: map<string, string>, s: string, i: nat, out: string, k: nat,
                 all: Result<string, Error>)
    requires i < |s| && ResolvedUpTo(b, known, s, i, out, all) && k == MatchLen(s[i..])
    ensures k == 0 ==> ResolvedUpTo(b, known, s, i + 1, out + [s[i]], all)
    ensures k > 0 && s[i..][..k] !in known ==> all == Err(UnknownToken)
    ensures k > 0 && s[i..][..k] in known ==>
              var out' := out + known[s[i..][..k]];
              if |out'| > b.maxPayload then all == Err(TooLarge) else ResolvedUpTo(b, known, s, i + k, out', all)
  {
    if k == 0 {
      assert s[i..][1..] == s[i + 1..];
      PrependOkTwice(out, [s[i]], ResolveWithin(b, known, s[i + 1..], |out| + 1));
    } else if s[i..][..k] in known {
      var text := known[s[i..][..k]];
      assert s[i..][k..] == s[i + k..];
      PrependOkTwice(out, text, ResolveWithin(b, known, s[i + k..], |out| + |text|));
    }
  }

  method LookupText(ex: Exchange, tok: string) returns (text: Option<string>)
    ensures text.Some? <==> tok in Texts(ex.Abs())
    ensures text.Some? ==> text.value == Texts(ex.Abs())[tok]
  {
    var e := ex.Lookup(tok);
    text := if e.None? then None else Some(e.value.Text());
  }

  /** Replaces the tokens of a text, within the bound; a text without a token is not looked at. */
  method ResolveText(b: Bounds, ex: Exchange, s: string) returns (r: Result<string, Error>)
    ensures r == if HasToken(s) then ResolveWithin(b, Texts(ex.Abs()), s, 0) else Ok(s)
  {
    if !HasToken(s) { return Ok(s); }
    var out, i := "", 0;
    ghost var known := Texts(ex.Abs());
    ghost var all := ResolveWithin(b, known, s, 0);
    assert s[0..] == s;
    PrependOkTwice("", "", all);
    while i < |s|
      invariant ResolvedUpTo(b, known, s, i, out, all)
    {
      var k := MatchLen(s[i..]);
      ReadNext(b, known, s, i, out, k, all);
      if k > 0 {
        var text := LookupText(ex, s[i..][..k]);
        if text.None? { return Err(UnknownToken); }
        out := out + text.value;
        if |out| > b.maxPayload { return Err(TooLarge); }
        i := i + k;
      } else {
        out := out + [s[i]];
        i := i + 1;
      }
    }
    assert s[|s|..] == "" && out + "" == out;
    r := if |out| > b.maxPayload then Err(TooLarge) else Ok(out);
  }

  method UnmaskString(b: Bounds, ex: Exchange, s: string) returns (r: Result<Json, Error>)
    ensures r == UnmaskTextWithin(b, ex.Abs(), s)
  {
    if ExactToken(s) {
      var e := ex.Lookup(s);
      if e.None? { return Err(UnknownToken); }
      return if e.value.Leaf? then Ok(e.value.v) else Ok(Str(e.value.s));
    }
    if HasToken(s) {
      var x := ResolveText(b, ex, s);
      return if x.Err? then Err(x.error) else Ok(Str(x.value));
    }
    r := Ok(Str(s));
  }

  /** Unmasks a value when `len` characters have been written; `len'` counts them afterwards. */
  method UnmaskValue(b: Bounds, ex: Exchange, v: Json, depth: nat, len: nat) returns (r: Result<Json, Error>, len': nat)
    ensures (r, len') == UnmaskWithin(b, ex.Abs(), v, depth, len)
    decreases v, 0
  {
    len' := len;
    if depth > MAX_DEPTH { return Err(TooDeep), len; }
    if len > b.maxPayload { return Err(TooLarge), len; }
    match v {
      case Str(s) =>
        r := UnmaskString(b, ex, s);
        if r.Ok? { len' := len + Size(b, r.value); }
      case Arr(items) =>
        var xs, n := UnmaskMembers(b, ex, None, items, depth, len + 1);
        if xs.Err? { return Err(xs.error), n; }
        return if n + 1 > b.maxPayload then Err(TooLarge) else Ok(Arr(xs.value)), n + 1;
      case Obj(names, items) =>
        var xs, n := UnmaskMembers(b, ex, Some(names), items, depth, len + 1);
        if xs.Err? { return Err(xs.error), n; }
        return if n + 1 > b.maxPayload then Err(TooLarge) else Ok(Obj(names, xs.value)), n + 1;
      case _ => r, len' := Ok(v), len + Size(b, v);
    }
    if r.Ok? && len' > b.maxPayload { r := Err(TooLarge); }
  }

  function PrependAll(a: seq<Json>, r: (Result<seq<Json>, Error>, nat)): (Result<seq<Json>, Error>, nat) {
    (if r.0.Err? then r.0 else Ok(a + r.0.value), r.1)
  }

  lemma PrependAllTwice(a: seq<Json>, b: seq<Json>, r: (Result<seq<Json>, Error>, nat))
    ensures PrependAll(a, PrependAll(b, r)) == PrependAll(a + b, r) && PrependAll([], r) == r
  {
    if r.0.Ok? { assert a + (b + r.0.value) == (a + b) + r.0.value && [] + r.0.value == r.0.value; }
  }

  lemma ItemsWithinStep(b: Bounds, t: Table, names: Option<seq<string>>, items: seq<Json>, i: nat, depth: nat, len: nat)
    requires items != []
    ensures var (x, n) := UnmaskWithin(b, t, items[0], depth + 1, len + Lead(b, names, i));
            ItemsWithin(b, t, names, items, i, depth, len) ==
            if x.Err? then (Err(x.error), n)
            else PrependAll([x.value], ItemsWithin(b, t, names, items[1..], i + 1, depth, n))
  {
  }

  /** The loop over the members of an array or an object. */
  method UnmaskMembers(b: Bounds, ex: Exchange, names: Option<seq<string>>, items: seq<Json>, depth: nat, len: nat)
    returns (r: Result<seq<Json>, Error>, len': nat)
    ensures (r, len') == ItemsWithin(b, ex.Abs(), names, items, 0, depth, len)
    decreases items, 1
  {
    var out: seq<Json> := [];
    len' := len;
    ghost var t := ex.Abs();
    ghost var all := ItemsWithin(b, t, names, items, 0, depth, len);
    assert items[0..] == items;
    PrependAllTwice([], [], all);
    for i := 0 to |items|
      invariant RestWithin(b, t, names, items, i, depth, out, len', all)
    {
      RestStep(b, t, names, items, i, depth, out, len', all);
      var x;
      x, len' := UnmaskValue(b, ex, items[i], depth + 1, len' + Lead(b, names, i));
      if x.Err? { return Err(x.error), len'; }
      out := out + [x.value];
    }
    assert out + [] == out;
    r := Ok(out);
  }

  /** What is left of `all` once `out` has been written in front, with `n` characters. */
  ghost predicate RestWithin(b: Bounds, t: Table, names: Option<seq<string>>, items: seq<Json>, i: nat, depth: nat,
                             out: seq<Json>, n: nat, all: (Result<seq<Json>, Error>, nat))
  {
    i <= |items| && all == PrependAll(out, ItemsWithin(b, t, names, items[i..], i, depth, n))
  }

  lemma RestStep(b: Bounds, t: Table, names: Option<seq<string>>, items: seq<Json>, i: nat, depth: nat,
                 out: seq<Json>, n: nat, all: (Result<seq<Json>, Error>, nat))
    requires i < |items| && RestWithin(b, t, names, items, i, depth, out, n, all)
    ensures var (x, n') := UnmaskWithin(b, t, items[i], depth + 1, n + Lead(b, names, i));
            if x.Err? then all == (Err(x.error), n')
            else RestWithin(b, t, names, items, i + 1, depth, out + [x.value], n', all)
  {
    ItemsWithinStep(b, t, names, items[i..], i, depth, n);
    assert items[i..][0] == items[i] && items[i..][1..] == items[i + 1..];
    var (x, n') := UnmaskWithin(b, t, items[i], depth + 1, n + Lead(b, names, i));
    if x.Ok? { PrependAllTwice(out, [x.value], ItemsWithin(b, t, names, items[i + 1..], i + 1, depth, n')); }
  }
}
