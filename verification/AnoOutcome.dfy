/**
  What masking does to each leaf, read off its input and its output: which leaves go out as they are, which as a
  placeholder for the whole of them, and which as text with placeholders in it.
*/
module AnoOutcome {
  import opened Basics
  import opened AnoText
  import opened AnoVault
  import opened Anonymiser
  import opened AnoScript
  import opened AnoLeaves
  import AnoMethods
  import AnoRules
  import Exponent

  // ---------------------------------------------------------------------------------------------
  // The fate of a leaf
  // ---------------------------------------------------------------------------------------------

  /** The output is a placeholder that stands for the leaf. */
  ghost predicate Replaces(t: Table, leaf: Met, out: Met) {
    out.quoted && out.text in t.byTok && t.byTok[out.text] == Leaf(leaf.Value())
  }

  /** Some pattern matches a part of the text. */
  predicate Matched(c: Config, text: string) {
    exists m :: m in c.matches(text) && 0 <= m.start < m.end <= |text|
  }

  /** A number counts as matched in its own form and, if it has an exponent of at most 99, in its expanded one. */
  predicate NumberMatched(c: Config, text: string) {
    Matched(c, text) ||
    (Exponent.ExpandExponent(text).Some? && Matched(c, Exponent.ExpandExponent(text).value))
  }

  /** The parts that the patterns select are replaced by placeholders that stand for them; the rest stays. */
  ghost predicate CutUp(c: Config, t: Table, leaf: Met, out: Met) {
    exists toks :: CutWith(c, t, leaf, out, toks)
  }

  /** The text from position `from` on, with the i-th of these parts replaced by the i-th token. */
  function Spliced(text: string, spans: seq<AnoRules.Span>, toks: seq<string>, from: nat): string
    requires |toks| == |spans| && from <= |text| && AnoRules.Disjoint(spans, from, |text|)
    decreases |spans|
  {
    if spans == [] then text[from..]
    else text[from..spans[0].start] + (toks[0] + Spliced(text, spans[1..], toks[1..], spans[0].end))
  }

  ghost predicate CutWith(c: Config, t: Table, leaf: Met, out: Met, toks: seq<string>) {
    var spans := Spans(c, leaf.text);
    && out.quoted && |toks| == |spans| && out.text == Spliced(leaf.text, spans, toks, 0)
    && (forall i :: 0 <= i < |toks| ==> toks[i] in t.byTok && StandsFor(t, toks[i], leaf.text, spans[i]))
  }

  ghost predicate StandsFor(t: Table, tok: string, text: string, sp: AnoRules.Span)
    requires tok in t.byTok
  {
    0 <= sp.start <= sp.end <= |text| && t.byTok[tok] == Entry.Span(text[sp.start..sp.end])
  }

  /** A leaf that is let through: the patterns still apply. */
  ghost predicate LetThrough(c: Config, t: Table, leaf: Met, out: Met) {
    if leaf.quoted then
      if Matched(c, leaf.text) then CutUp(c, t, leaf, out) else out == leaf
    else
      if NumberMatched(c, leaf.text) then Replaces(t, leaf, out) else out == leaf
  }

  /** No rule covers the path, and there is something to decide about. */
  predicate Undecided(c: Config, leaf: Met) {
    AnoRules.Decide(c.keep, c.mask, leaf.path) == AnoRules.Verdict.NoRule && leaf.text != ""
  }

  /** The classifier is there, has a call left after `calls`, and lets the leaf through. */
  predicate ClassifierKeeps(c: Config, calls: nat) {
    c.classifier.Some? && calls < c.classifier.value.maxCalls && c.classifier.value.answer(calls) == SayKeep
  }

  ghost predicate Fate(c: Config, t: Table, calls: nat, leaf: Met, out: Met) {
    && out.path == leaf.path && !(leaf.quoted && HasToken(leaf.text))
    && match AnoRules.Decide(c.keep, c.mask, leaf.path)
       case Mask => Replaces(t, leaf, out)
       case Keep => LetThrough(c, t, leaf, out)
       case NoRule =>
         if leaf.text == "" then out == leaf
         else if ClassifierKeeps(c, calls) then LetThrough(c, t, leaf, out)
         else Replaces(t, leaf, out)
  }

  /** How many of the leaves are put to the classifier or fall to the default. */
  function CountUndecided(c: Config, leaves: seq<Met>): nat {
    if leaves == [] then 0 else CountUndecided(c, leaves[1..]) + (if Undecided(c, leaves[0]) then 1 else 0)
  }

  /** The calls made once `n` more undecided leaves have been met: one each, up to the limit. */
  function CallsAfter(c: Config, calls: nat, n: nat): nat {
    if c.classifier.None? || calls >= c.classifier.value.maxCalls then calls
    else if calls + n <= c.classifier.value.maxCalls then calls + n else c.classifier.value.maxCalls
  }

  ghost predicate FateAt(c: Config, t: Table, calls: nat, leaves: seq<Met>, outs: seq<Met>, i: nat)
    requires i < |leaves| && i < |outs|
  {
    Fate(c, t, CallsAfter(c, calls, CountUndecided(c, leaves[..i])), leaves[i], outs[i])
  }

  ghost predicate Fates(c: Config, t: Table, calls: nat, leaves: seq<Met>, outs: seq<Met>) {
    && |outs| == |leaves|
    && (forall i {:trigger FateAt(c, t, calls, leaves, outs, i)} ::
          0 <= i < |leaves| ==> FateAt(c, t, calls, leaves, outs, i))
  }

  /** The same arrays and objects around the leaves, and the same literals between them. */
  ghost predicate SameFrame(v: Json, m: Json)
    decreases v
  {
    match v
    case Str(_) => m.Str?
    case Num(_) => m.Num? || m.Str?
    case Arr(items) =>
      m.Arr? && |m.items| == |items| && forall i :: 0 <= i < |items| ==> SameFrame(items[i], m.items[i])
    case Obj(names, items) =>
      && m.Obj? && m.names == names && |m.items| == |items|
      && forall i :: 0 <= i < |items| ==> SameFrame(items[i], m.items[i])
    case _ => m == v
  }

  // ---------------------------------------------------------------------------------------------
  // Growing tables and joined lists
  // ---------------------------------------------------------------------------------------------

  lemma FateStays(c: Config, t: Table, t': Table, calls: nat, leaf: Met, out: Met)
    requires Extends(t, t') && Fate(c, t, calls, leaf, out)
    ensures Fate(c, t', calls, leaf, out)
  {
    if CutUp(c, t, leaf, out) {
      var toks :| CutWith(c, t, leaf, out, toks);
      assert CutWith(c, t', leaf, out, toks);
    }
  }

  lemma FatesStay(c: Config, t: Table, t': Table, calls: nat, leaves: seq<Met>, outs: seq<Met>)
    requires Extends(t, t') && Fates(c, t, calls, leaves, outs)
    ensures Fates(c, t', calls, leaves, outs)
  {
    forall i | 0 <= i < |leaves| ensures FateAt(c, t', calls, leaves, outs, i) {
      assert FateAt(c, t, calls, leaves, outs, i);
      FateStays(c, t, t', CallsAfter(c, calls, CountUndecided(c, leaves[..i])), leaves[i], outs[i]);
    }
  }

  lemma {:induction false} CountConcat(c: Config, a: seq<Met>, b: seq<Met>)
    ensures CountUndecided(c, a + b) == CountUndecided(c, a) + CountUndecided(c, b)
    decreases |a|
  {
    if a == [] {
      assert a + b == b;
    } else {
      assert (a + b)[1..] == a[1..] + b;
      CountConcat(c, a[1..], b);
    }
  }

  lemma CallsTwice(c: Config, calls: nat, m: nat, n: nat)
    ensures CallsAfter(c, CallsAfter(c, calls, m), n) == CallsAfter(c, calls, m + n)
  {
  }

  lemma FatesJoin(c: Config, t: Table, calls: nat, a: seq<Met>, x: seq<Met>, b: seq<Met>, y: seq<Met>)
    requires Fates(c, t, calls, a, x) && Fates(c, t, CallsAfter(c, calls, CountUndecided(c, a)), b, y)
    ensures Fates(c, t, calls, a + b, x + y)
  {
    forall i | 0 <= i < |a + b| ensures FateAt(c, t, calls, a + b, x + y, i) { FateJoined(c, t, calls, a, x, b, y, i); }
  }

  lemma FateJoined(c: Config, t: Table, calls: nat, a: seq<Met>, x: seq<Met>, b: seq<Met>, y: seq<Met>, i: nat)
    requires Fates(c, t, calls, a, x) && Fates(c, t, CallsAfter(c, calls, CountUndecided(c, a)), b, y) && i < |a + b|
    ensures FateAt(c, t, calls, a + b, x + y, i)
  {
    if i < |a| {
      assert FateAt(c, t, calls, a, x, i) && (a + b)[..i] == a[..i];
    } else {
      var k := i - |a|;
      assert FateAt(c, t, CallsAfter(c, calls, CountUndecided(c, a)), b, y, k);
      assert (a + b)[..i] == a + b[..k];
      CountConcat(c, a, b[..k]);
      CallsTwice(c, calls, CountUndecided(c, a), CountUndecided(c, b[..k]));
    }
  }

  // ---------------------------------------------------------------------------------------------
  // One leaf
  // ---------------------------------------------------------------------------------------------

  lemma MatchedMeans(c: Config, text: string)
    ensures Spans(c, text) == [] <==> !Matched(c, text)
  {
    var spans := Spans(c, text);
    AnoRules.SpansSound(c.matches(text), |text|);
    if spans != [] { assert spans[0] in spans; }
  }

  /** A masked span is bound to its text. */
  lemma CutIsCutUp(c: Config, t: Table, leaf: Met, t': Table, s: string)
    requires Coherent(t) && leaf.quoted
    requires var spans := Spans(c, leaf.text);
             FillSegs(t, c.maxEntries, Segments(leaf.text, spans, 0), TailFrom(leaf.text, spans, 0)) == (t', Some(s))
    ensures CutUp(c, t', leaf, Met(leaf.path, s, true))
  {
    var spans := Spans(c, leaf.text);
    var segs, tail := Segments(leaf.text, spans, 0), TailFrom(leaf.text, spans, 0);
    FillSegsInterns(t, c.maxEntries, segs, tail, t', s);
    InternAllBinds(t, c.maxEntries, SegHoles(segs));
    SegHolesAt(segs);
    var toks := InternAll(t, c.maxEntries, SegHoles(segs)).1;
    SegmentsSplice(leaf.text, spans, toks, 0);
    forall i | 0 <= i < |toks| ensures toks[i] in t'.byTok && StandsFor(t', toks[i], leaf.text, spans[i]) {
      assert SegHoles(segs)[i] in t'.byKey && t'.byKey[SegHoles(segs)[i]] == toks[i];
    }
    assert CutWith(c, t', leaf, Met(leaf.path, s, true), toks);
  }

  /** Writing tokens into the segments replaces exactly the selected parts. */
  lemma {:induction false} SegmentsSplice(text: string, spans: seq<AnoRules.Span>, toks: seq<string>, from: nat)
    requires from <= |text| && AnoRules.Disjoint(spans, from, |text|) && |toks| == |Segments(text, spans, from)|
    ensures |spans| == |toks|
    ensures PutSegs(Segments(text, spans, from), TailFrom(text, spans, from), toks) == Spliced(text, spans, toks, from)
    ensures forall i :: 0 <= i < |spans| ==> Segments(text, spans, from)[i].hole == text[spans[i].start..spans[i].end]
    decreases |spans|
  {
    if spans != [] {
      var segs, rest := Segments(text, spans, from), Segments(text, spans[1..], spans[0].end);
      assert segs[1..] == rest;
      SegmentsSplice(text, spans[1..], toks[1..], spans[0].end);
      forall i | 0 <= i < |spans| ensures segs[i].hole == text[spans[i].start..spans[i].end] {
        if i > 0 { assert segs[i] == rest[i - 1] && spans[i] == spans[1..][i - 1]; }
      }
    }
  }

  lemma WholeIsReplaced(t: Table, leaf: Met, max: nat, t': Table, tok: string)
    requires Coherent(t) && Intern(t, Leaf(leaf.Value()), max) == (t', Some(tok))
    ensures Replaces(t', leaf, Met(leaf.path, tok, true))
  {
    InternKeeps(t, Leaf(leaf.Value()), max);
  }

  lemma KeptIsLetThrough(c: Config, t: Table, leaf: Met, t': Table, m: Json)
    requires Coherent(t) && Fill(t, c.maxEntries, KeptLeaf(c, leaf.Value())) == (t', Ok(m))
    ensures (m.Str? || m.Num?) && (m.Num? ==> !leaf.quoted)
    ensures LetThrough(c, t', leaf, Met(leaf.path, m.text, m.Str?))
  {
    MatchedMeans(c, leaf.text);
    if leaf.quoted {
      if Matched(c, leaf.text) { CutIsCutUp(c, t, leaf, t', m.text); }
    } else {
      var plain := Exponent.ExpandExponent(leaf.text);
      if plain.Some? { MatchedMeans(c, plain.value); }
      if NumberMatched(c, leaf.text) { WholeIsReplaced(t, leaf, c.maxEntries, t', m.text); }
    }
  }

  /** The fate of a single leaf, and the calls it costs. */
  lemma LeafOutcome(c: Config, t: Table, leaf: Met, calls: nat, t': Table, m: Json)
    requires Coherent(t) && Fill(t, c.maxEntries, LeafPlan(c, leaf.path, leaf.Value(), calls).0) == (t', Ok(m))
    ensures (m.Str? || m.Num?) && (m.Num? ==> !leaf.quoted)
    ensures Fate(c, t', calls, leaf, Met(leaf.path, m.text, m.Str?))
    ensures LeafPlan(c, leaf.path, leaf.Value(), calls).1 == CallsAfter(c, calls, if Undecided(c, leaf) then 1 else 0)
  {
    match AnoRules.Decide(c.keep, c.mask, leaf.path) {
      case Mask => WholeIsReplaced(t, leaf, c.maxEntries, t', m.text);
      case Keep => KeptIsLetThrough(c, t, leaf, t', m);
      case NoRule =>
        if leaf.text != "" {
          if ClassifierKeeps(c, calls) {
            KeptIsLetThrough(c, t, leaf, t', m);
          } else {
            WholeIsReplaced(t, leaf, c.maxEntries, t', m.text);
          }
        }
    }
  }

  // ---------------------------------------------------------------------------------------------
  // A whole payload
  // ---------------------------------------------------------------------------------------------

  lemma OneFate(c: Config, t: Table, calls: nat, leaf: Met, out: Met)
    requires Fate(c, t, calls, leaf, out)
    ensures Fates(c, t, calls, [leaf], [out]) && CountUndecided(c, [leaf]) == if Undecided(c, leaf) then 1 else 0
  {
    assert [leaf][..0] == [] && [leaf][1..] == [];
    assert CallsAfter(c, calls, 0) == calls;
    assert FateAt(c, t, calls, [leaf], [out], 0);
  }

  /** What is known of a masked part of a payload. */
  ghost predicate Masked(c: Config, path: AnoRules.Path, v: Json, calls: nat, t: Table, m: Json, calls': nat) {
    && SameFrame(v, m) && Fates(c, t, calls, LeavesOf(path, v), LeavesOf(path, m))
    && calls' == CallsAfter(c, calls, CountUndecided(c, LeavesOf(path, v)))
  }

  lemma {:induction false} MaskedParts(c: Config, t: Table, path: AnoRules.Path, v: Json, calls: nat, depth: nat,
                                       t': Table, m: Json)
    requires Coherent(t) && Fill(t, c.maxEntries, PlanOf(c, path, v, calls, depth).0) == (t', Ok(m))
    ensures Masked(c, path, v, calls, t', m, PlanOf(c, path, v, calls, depth).1)
    decreases v, 0, 0
  {
    match v {
      case Num(text) => MaskedLeaf(c, t, Met(path, text, false), calls, t', m);
      case Str(text) => MaskedLeaf(c, t, Met(path, text, true), calls, t', m);
      case Arr(items) => MaskedContainer(c, t, path, v, calls, depth, t', m);
      case Obj(_, items) => MaskedContainer(c, t, path, v, calls, depth, t', m);
      case _ => assert LeavesOf(path, m) == [];
    }
  }

  lemma {:induction false} FilledLength(t: Table, max: nat, ps: seq<Plan>, t': Table, ms: seq<Json>)
    requires FillItems(t, max, ps) == (t', Ok(ms))
    ensures |ms| == |ps|
    decreases |ps|
  {
    if ps != [] {
      var t1 := FillItemsCons(t, max, ps, t', ms);
      FilledLength(t1, max, ps[1..], t', ms[1..]);
    }
  }

  lemma {:induction false} PlanLength(c: Config, path: AnoRules.Path, v: Json, items: seq<Json>, i: nat, calls: nat,
                                      depth: nat)
    requires i <= |items|
    ensures |PlanItems(c, path, v, items, i, calls, depth).0| == |items| - i
    decreases |items| - i
  {
    if i < |items| {
      PlanLength(c, path, v, items, i + 1, PlanOf(c, path + [Segment(v, i)], items[i], calls, depth + 1).1, depth);
    }
  }

  lemma {:induction false} MaskedContainer(c: Config, t: Table, path: AnoRules.Path, v: Json, calls: nat, depth: nat,
                                           t': Table, m: Json)
    requires Coherent(t) && (v.Arr? || v.Obj?)
    requires Fill(t, c.maxEntries, PlanOf(c, path, v, calls, depth).0) == (t', Ok(m))
    ensures Masked(c, path, v, calls, t', m, PlanOf(c, path, v, calls, depth).1)
    decreases v.items, 2, 0
  {
    var ps := PlanItems(c, path, v, v.items, 0, calls, depth).0;
    assert depth <= MAX_DEPTH && (m.Arr? || m.Obj?);
    FilledLength(t, c.maxEntries, ps, t', m.items);
    PlanLength(c, path, v, v.items, 0, calls, depth);
    assert m.items[0..] == m.items;
    assert forall k :: 0 <= k < |v.items| ==> Segment(m, k) == Segment(v, k);
    MaskedItems(c, t, path, v, v.items, 0, calls, depth, t', m.items, m);
  }

  lemma MaskedLeaf(c: Config, t: Table, leaf: Met, calls: nat, t': Table, m: Json)
    requires Coherent(t) && Fill(t, c.maxEntries, LeafPlan(c, leaf.path, leaf.Value(), calls).0) == (t', Ok(m))
    ensures Masked(c, leaf.path, leaf.Value(), calls, t', m, LeafPlan(c, leaf.path, leaf.Value(), calls).1)
  {
    LeafOutcome(c, t, leaf, calls, t', m);
    OneFate(c, t', calls, leaf, Met(leaf.path, m.text, m.Str?));
  }

  /** The members from the i-th on; `m` is the container that they end up in. */
  lemma {:induction false} MaskedItems(
      c: Config, t: Table, path: AnoRules.Path, v: Json, items: seq<Json>, i: nat, calls: nat, depth: nat, t': Table,
      outs: seq<Json>, m: Json)
    requires Coherent(t) && i <= |items| == |outs|
    requires FillItems(t, c.maxEntries, PlanItems(c, path, v, items, i, calls, depth).0) == (t', Ok(outs[i..]))
    requires forall k :: 0 <= k < |items| ==> Segment(m, k) == Segment(v, k)
    ensures forall k :: i <= k < |items| ==> SameFrame(items[k], outs[k])
    ensures Fates(c, t', calls, ItemLeaves(path, v, items, i), ItemLeaves(path, m, outs, i))
    ensures PlanItems(c, path, v, items, i, calls, depth).1 ==
            CallsAfter(c, calls, CountUndecided(c, ItemLeaves(path, v, items, i)))
    decreases items, 1, |items| - i
  {
    if i < |items| {
      var here := path + [Segment(v, i)];
      var n := PlanOf(c, here, items[i], calls, depth + 1).1;
      var t1 := FirstFilled(c, t, path, v, items, i, calls, depth, t', outs);
      MaskedParts(c, t, here, items[i], calls, depth + 1, t1, outs[i]);
      MaskedItems(c, t1, path, v, items, i + 1, n, depth, t', outs, m);
      JoinItem(c, t1, t', calls, LeavesOf(here, items[i]), LeavesOf(here, outs[i]),
               ItemLeaves(path, v, items, i + 1), ItemLeaves(path, m, outs, i + 1));
    }
  }

  lemma JoinItem(c: Config, t: Table, t': Table, calls: nat, a: seq<Met>, x: seq<Met>, b: seq<Met>, y: seq<Met>)
    requires Extends(t, t') && Fates(c, t, calls, a, x)
    requires Fates(c, t', CallsAfter(c, calls, CountUndecided(c, a)), b, y)
    ensures Fates(c, t', calls, a + b, x + y)
    ensures CallsAfter(c, CallsAfter(c, calls, CountUndecided(c, a)), CountUndecided(c, b)) ==
            CallsAfter(c, calls, CountUndecided(c, a + b))
  {
    FatesStay(c, t, t', calls, a, x);
    FatesJoin(c, t', calls, a, x, b, y);
    CountConcat(c, a, b);
    CallsTwice(c, calls, CountUndecided(c, a), CountUndecided(c, b));
  }

  /** The first of these members has been filled, and then the others. */
  lemma FirstFilled(c: Config, t: Table, path: AnoRules.Path, v: Json, items: seq<Json>, i: nat, calls: nat, depth: nat,
                    t': Table, outs: seq<Json>)
    returns (t1: Table)
    requires Coherent(t) && i < |items| == |outs|
    requires FillItems(t, c.maxEntries, PlanItems(c, path, v, items, i, calls, depth).0) == (t', Ok(outs[i..]))
    ensures var (p, n) := PlanOf(c, path + [Segment(v, i)], items[i], calls, depth + 1);
            && Fill(t, c.maxEntries, p) == (t1, Ok(outs[i])) && Coherent(t1) && Extends(t1, t')
            && FillItems(t1, c.maxEntries, PlanItems(c, path, v, items, i + 1, n, depth).0) == (t', Ok(outs[i + 1..]))
  {
    var (p, n) := PlanOf(c, path + [Segment(v, i)], items[i], calls, depth + 1);
    var ps := PlanItems(c, path, v, items, i + 1, n, depth).0;
    assert ([p] + ps)[0] == p && ([p] + ps)[1..] == ps;
    t1 := FillItemsCons(t, c.maxEntries, [p] + ps, t', outs[i..]);
    assert outs[i..][0] == outs[i] && outs[i..][1..] == outs[i + 1..];
    FillKeeps(t, c.maxEntries, p);
    FillItemsKeeps(t1, c.maxEntries, ps);
  }

  /**
    The output of masking, leaf by leaf.  It has the same arrays, objects and literals around its leaves, and each
    leaf has the fate that the rules, the classifier's answer to its own call and the patterns give it: in particular
    a leaf that no rule covers goes out in clear only if the classifier was asked about it and said so.
  */
  lemma MaskOutput(c: Config, t: Table, v: Json, t': Table, m: Json)
    requires Coherent(t) && Mask(c, t, v) == (t', Ok(m))
    ensures SameFrame(v, m) && Fates(c, t', 0, LeavesOf([], v), LeavesOf([], m))
  {
    MaskedParts(c, t, [], v, 0, 0, t', m);
  }

  lemma TokenInside(a: string, n: Number, b: string)
    ensures HasToken(a + (Token(n) + b))
  {
    var s := a + (Token(n) + b);
    assert s[|a|..|a| + 8] == PREFIX && s[|a| + 8] == Decimal(n)[0];
    assert TokenAt(s, |a|);
  }

  lemma PlaceholderShows(t: Table, tok: string, a: string, b: string)
    requires Coherent(t) && tok in t.byTok
    ensures HasToken(a + (tok + b))
  {
    assert IsToken(tok, t.n);
    var i :| 1 <= i <= t.n && tok == Token(i);
    TokenInside(a, i, b);
  }

  /** What is replaced, in whole or in part, does not look like the original. */
  lemma ReplacedDiffers(c: Config, t: Table, leaf: Met, out: Met)
    requires Coherent(t) && !(leaf.quoted && HasToken(leaf.text))
    requires Replaces(t, leaf, out) || (leaf.quoted && Matched(c, leaf.text) && CutUp(c, t, leaf, out))
    ensures out != leaf
  {
    if Replaces(t, leaf, out) {
      PlaceholderShows(t, out.text, "", "");
      assert "" + (out.text + "") == out.text;
    } else {
      var toks :| CutWith(c, t, leaf, out, toks);
      MatchedMeans(c, leaf.text);
      var spans := Spans(c, leaf.text);
      PlaceholderShows(t, toks[0], leaf.text[0..spans[0].start],
                       Spliced(leaf.text, spans[1..], toks[1..], spans[0].end));
    }
  }

  /**
    In clear, exactly: a leaf that no rule covers goes out unchanged if and only if the classifier is there, has a
    call left and answers that it may be kept, and no pattern matches it.  In every other case of a leaf that is not
    let through, the output is a placeholder that stands for the leaf.
  */
  lemma InClearExactly(c: Config, t: Table, calls: nat, leaf: Met, out: Met)
    requires Coherent(t) && Fate(c, t, calls, leaf, out) && Undecided(c, leaf)
    ensures out == leaf <==>
            && c.classifier.Some? && calls < c.classifier.value.maxCalls && c.classifier.value.answer(calls) == SayKeep
            && !(if leaf.quoted then Matched(c, leaf.text) else NumberMatched(c, leaf.text))
    ensures !ClassifierKeeps(c, calls) ==> out.text in t.byTok && t.byTok[out.text] == Leaf(leaf.Value())
  {
    if Replaces(t, leaf, out) || (leaf.quoted && Matched(c, leaf.text) && CutUp(c, t, leaf, out)) {
      ReplacedDiffers(c, t, leaf, out);
    }
  }

  /** A number that is let through goes out as a placeholder exactly when a pattern matches it in either form. */
  lemma KeptNumberExactly(c: Config, t: Table, calls: nat, leaf: Met, out: Met)
    requires Coherent(t) && Fate(c, t, calls, leaf, out) && !leaf.quoted
    requires AnoRules.Decide(c.keep, c.mask, leaf.path) == AnoRules.Verdict.Keep
    ensures out != leaf <==> NumberMatched(c, leaf.text)
    ensures NumberMatched(c, leaf.text) ==> Replaces(t, leaf, out)
  {
    if Replaces(t, leaf, out) { ReplacedDiffers(c, t, leaf, out); }
  }

  // ---------------------------------------------------------------------------------------------
  // Refusals
  // ---------------------------------------------------------------------------------------------

  /** Why a part of a payload is refused. */
  ghost predicate Blamed(c: Config, path: AnoRules.Path, v: Json, depth: nat, t: Table, e: Error) {
    match e
    case Reserved => HasReserved(LeavesOf(path, v))
    case TooDeep => !Shallow(v, depth)
    case TableFull => |t.byTok| >= c.maxEntries
    case _ => false
  }

  /** A string among the leaves already contains a placeholder. */
  ghost predicate HasReserved(leaves: seq<Met>) {
    exists i :: 0 <= i < |leaves| && leaves[i].quoted && HasToken(leaves[i].text)
  }

  lemma ReservedJoins(a: seq<Met>, b: seq<Met>)
    ensures HasReserved(a + b) <==> HasReserved(a) || HasReserved(b)
  {
    if HasReserved(a) {
      var i :| 0 <= i < |a| && a[i].quoted && HasToken(a[i].text);
      assert (a + b)[i] == a[i];
    }
    if HasReserved(b) {
      var i :| 0 <= i < |b| && b[i].quoted && HasToken(b[i].text);
      assert (a + b)[|a| + i] == b[i];
    }
  }

  lemma {:induction false} FullWhenRefused(t: Table, max: nat, segs: seq<Seg>, tail: string)
    ensures FillSegs(t, max, segs, tail).1.None? ==> |FillSegs(t, max, segs, tail).0.byTok| >= max
    decreases |segs|
  {
    if segs != [] { FullWhenRefused(Intern(t, Entry.Span(segs[0].hole), max).0, max, segs[1..], tail); }
  }

  lemma LeafRefused(c: Config, t: Table, leaf: Met, calls: nat, depth: nat)
    requires depth <= MAX_DEPTH
    ensures var (t', r) := Fill(t, c.maxEntries, LeafPlan(c, leaf.path, leaf.Value(), calls).0);
            r.Err? ==> Blamed(c, leaf.path, leaf.Value(), depth, t', r.error)
  {
    assert LeavesOf(leaf.path, leaf.Value()) == [leaf] && [leaf][0] == leaf;
    if leaf.quoted {
      var spans := Spans(c, leaf.text);
      FullWhenRefused(t, c.maxEntries, Segments(leaf.text, spans, 0), TailFrom(leaf.text, spans, 0));
    }
  }

  /** A refusal has one of three reasons: a placeholder in the input, too much nesting, or a full table. */
  lemma {:induction false} MaskRefused(c: Config, t: Table, path: AnoRules.Path, v: Json, calls: nat, depth: nat)
    ensures var (t', r) := Fill(t, c.maxEntries, PlanOf(c, path, v, calls, depth).0);
            if r.Err? then Blamed(c, path, v, depth, t', r.error) else Shallow(v, depth)
    decreases v, 0, 0
  {
    if depth <= MAX_DEPTH {
      match v {
        case Num(text) => LeafRefused(c, t, Met(path, text, false), calls, depth);
        case Str(text) => LeafRefused(c, t, Met(path, text, true), calls, depth);
        case Arr(items) => ItemsRefused(c, t, path, v, items, 0, calls, depth);
        case Obj(_, items) => ItemsRefused(c, t, path, v, items, 0, calls, depth);
        case _ =>
      }
    }
  }

  ghost predicate ItemsBlamed(c: Config, leaves: seq<Met>, items: seq<Json>, depth: nat, t: Table, e: Error) {
    match e
    case Reserved => HasReserved(leaves)
    case TooDeep => exists k :: 0 <= k < |items| && !Shallow(items[k], depth + 1)
    case TableFull => |t.byTok| >= c.maxEntries
    case _ => false
  }

  lemma {:induction false} ItemsRefused(c: Config, t: Table, path: AnoRules.Path, v: Json, items: seq<Json>, i: nat,
                                        calls: nat, depth: nat)
    requires i <= |items|
    ensures var (t', r) := AnoMethods.FillFrom(c, t, path, v, items, i, calls, depth);
            if r.Err? then ItemsBlamed(c, ItemLeaves(path, v, items, i), items, depth, t', r.error)
            else forall k :: i <= k < |items| ==> Shallow(items[k], depth + 1)
    decreases items, 1, |items| - i
  {
    if i < |items| {
      var here := path + [Segment(v, i)];
      var (p, n) := PlanOf(c, here, items[i], calls, depth + 1);
      AnoMethods.FillFromStep(c, t, path, v, items, i, calls, depth);
      MaskRefused(c, t, here, items[i], calls, depth + 1);
      ItemsRefused(c, Fill(t, c.maxEntries, p).0, path, v, items, i + 1, n, depth);
      ReservedJoins(LeavesOf(here, items[i]), ItemLeaves(path, v, items, i + 1));
    }
  }

  /** Which payloads are masked: those without a placeholder and not too deep, unless the table runs full. */
  lemma MaskedOrBlamed(c: Config, t: Table, v: Json)
    requires Coherent(t)
    ensures var (t', r) := Mask(c, t, v);
            && (r.Ok? ==> !HasReserved(LeavesOf([], v)) && Shallow(v, 0))
            && (r.Err? ==> Blamed(c, [], v, 0, t', r.error))
  {
    MaskRefused(c, t, [], v, 0, 0);
    var (t', r) := Mask(c, t, v);
    if r.Ok? {
      MaskOutput(c, t, v, t', r.value);
      var leaves, outs := LeavesOf([], v), LeavesOf([], r.value);
      forall i | 0 <= i < |leaves| ensures !(leaves[i].quoted && HasToken(leaves[i].text)) {
        assert FateAt(c, t', 0, leaves, outs, i);
      }
    }
  }

  /** Unmasking is refused for its depth only if it is too deep, and answers nothing that is. */
  lemma {:induction false} UnmaskDepth(t: Table, v: Json, depth: nat)
    ensures Unmask(t, v, depth).Ok? ==> Shallow(v, depth)
    ensures Unmask(t, v, depth) == Err(TooDeep) ==> !Shallow(v, depth)
    decreases v, 0
  {
    if depth <= MAX_DEPTH {
      match v {
        case Arr(items) => UnmaskItemsDepth(t, items, depth);
        case Obj(_, items) => UnmaskItemsDepth(t, items, depth);
        case _ =>
      }
    }
  }

  lemma {:induction false} UnmaskItemsDepth(t: Table, items: seq<Json>, depth: nat)
    ensures UnmaskItems(t, items, depth).Ok? ==> forall k :: 0 <= k < |items| ==> Shallow(items[k], depth + 1)
    ensures UnmaskItems(t, items, depth) == Err(TooDeep) ==>
              exists k :: 0 <= k < |items| && !Shallow(items[k], depth + 1)
    decreases items, 1
  {
    if items != [] {
      UnmaskDepth(t, items[0], depth + 1);
      UnmaskItemsDepth(t, items[1..], depth);
      assert forall k :: 1 <= k < |items| ==> items[k] == items[1..][k - 1];
    }
  }
}
