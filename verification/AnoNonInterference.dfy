/**
  What masked output reveals: two payloads whose plans differ only in the masked values, with the same
  equalities among them, are masked into the very same output from fresh exchanges.
*/
module AnoNonInterference {
  import opened Basics
  import opened AnoText
  import opened AnoVault
  import opened Anonymiser
  import AnoScript
  import AnoRules

  predicate SameKeptText(a: seq<Seg>, b: seq<Seg>) {
    if a == [] then b == [] else b != [] && a[0].before == b[0].before && SameKeptText(a[1..], b[1..])
  }

  /** The plans keep the same things in the same places. */
  ghost predicate SameShape(p: Plan, q: Plan)
    decreases p
  {
    match p
    case Keep(v) => q == p
    case Whole(_) => q.Whole?
    case Cut(segs, tail) =>
      q.Cut? && q.tail == tail && SameKeptText(segs, q.segs)
    case Fail(_) => q == p
    case PArr(items) =>
      && q.PArr? && |q.items| == |items|
      && (forall i :: 0 <= i < |items| ==> SameShape(items[i], q.items[i]))
    case PObj(names, items) =>
      && q.PObj? && q.names == names && |q.items| == |items|
      && (forall i :: 0 <= i < |items| ==> SameShape(items[i], q.items[i]))
  }

  /** The same positions hold equal values. */
  ghost predicate SamePattern(g: seq<Entry>, h: seq<Entry>) {
    |g| == |h| && forall i, j :: 0 <= i < |g| && 0 <= j < |g| ==> (g[i] == g[j] <==> h[i] == h[j])
  }

  /** The tables have handed out the same tokens for `g` and for `h`, position by position. */
  ghost predicate Linked(t: Table, u: Table, g: seq<Entry>, h: seq<Entry>) {
    && |g| == |h| && t.n == u.n && |t.byTok| == |u.byTok|
    && (forall i :: 0 <= i < |g| ==> g[i] in t.byKey && h[i] in u.byKey && t.byKey[g[i]] == u.byKey[h[i]])
    && (forall e :: e in t.byKey ==> e in g)
    && (forall e :: e in u.byKey ==> e in h)
  }

  lemma PatternPrefix(a: seq<Entry>, b: seq<Entry>, x: seq<Entry>, y: seq<Entry>)
    requires SamePattern(a + x, b + y) && |a| == |b|
    ensures SamePattern(a, b)
  {
    forall i, j | 0 <= i < |a| && 0 <= j < |a| ensures a[i] == a[j] <==> b[i] == b[j] {
      assert (a + x)[i] == a[i] && (a + x)[j] == a[j] && (b + y)[i] == b[i] && (b + y)[j] == b[j];
    }
  }

  lemma SameAsNew(g: seq<Entry>, h: seq<Entry>, e: Entry, f: Entry, i: nat)
    requires SamePattern(g + [e], h + [f]) && |g| == |h| && i < |g|
    ensures g[i] == e <==> h[i] == f
  {
    var g', h' := g + [e], h + [f];
    assert g'[i] == g[i] && h'[i] == h[i] && g'[|g|] == e && h'[|g|] == f;
  }

  /** Interning corresponding values yields the same token, or fails on both sides. */
  lemma InternLinked(t: Table, u: Table, g: seq<Entry>, h: seq<Entry>, e: Entry, f: Entry, max: nat)
    requires Coherent(t) && Coherent(u) && Linked(t, u, g, h) && SamePattern(g + [e], h + [f])
    ensures Intern(t, e, max).1 == Intern(u, f, max).1
    ensures Intern(t, e, max).1.Some? ==> Linked(Intern(t, e, max).0, Intern(u, f, max).0, g + [e], h + [f])
  {
    NextTokenIsFresh(t);
    NextTokenIsFresh(u);
    KnownLinked(t, u, g, h, e, f);
    if e !in t.byKey { AddedLinked(t, u, g, h, e, f, Token(t.n + 1)); }
  }

  /** A value is known on one side exactly when its counterpart is on the other, under the same token. */
  lemma KnownLinked(t: Table, u: Table, g: seq<Entry>, h: seq<Entry>, e: Entry, f: Entry)
    requires Linked(t, u, g, h) && SamePattern(g + [e], h + [f])
    ensures e in t.byKey <==> f in u.byKey
    ensures e in t.byKey ==> t.byKey[e] == u.byKey[f] && Linked(t, u, g + [e], h + [f])
  {
    if e in t.byKey {
      var i :| 0 <= i < |g| && g[i] == e;
      SameAsNew(g, h, e, f, i);
      LinkedSnoc(t, u, g, h, e, f);
    }
    if f in u.byKey {
      var i :| 0 <= i < |h| && h[i] == f;
      SameAsNew(g, h, e, f, i);
    }
  }

  lemma LinkedSnoc(t: Table, u: Table, g: seq<Entry>, h: seq<Entry>, e: Entry, f: Entry)
    requires Linked(t, u, g, h) && e in t.byKey && f in u.byKey && t.byKey[e] == u.byKey[f]
    ensures Linked(t, u, g + [e], h + [f])
  {
  }

  /** A value that is new on both sides gets the same token. */
  lemma AddedLinked(t: Table, u: Table, g: seq<Entry>, h: seq<Entry>, e: Entry, f: Entry, tok: string)
    requires Linked(t, u, g, h) && e !in t.byKey && f !in u.byKey && tok !in t.byTok && tok !in u.byTok
    ensures Linked(Table(t.n + 1, t.byKey[e := tok], t.byTok[tok := e]),
                   Table(u.n + 1, u.byKey[f := tok], u.byTok[tok := f]), g + [e], h + [f])
  {
  }

  lemma ConsHoles(g: seq<Entry>, segs: seq<Seg>)
    requires segs != []
    ensures g + SegHoles(segs) == (g + [Entry.Span(segs[0].hole)]) + SegHoles(segs[1..])
  {
  }

  /** Corresponding first spans: the same token on both sides, and what remains still corresponds. */
  lemma FirstSpanLinked(t: Table, u: Table, g: seq<Entry>, h: seq<Entry>, max: nat, a: seq<Seg>, b: seq<Seg>)
    requires Coherent(t) && Coherent(u) && Linked(t, u, g, h) && a != [] && b != []
    requires SamePattern(g + SegHoles(a), h + SegHoles(b)) && |SegHoles(a)| == |SegHoles(b)|
    ensures var e, f := Entry.Span(a[0].hole), Entry.Span(b[0].hole);
            && Intern(t, e, max).1 == Intern(u, f, max).1
            && Coherent(Intern(t, e, max).0) && Coherent(Intern(u, f, max).0)
            && (Intern(t, e, max).1.Some? ==> Linked(Intern(t, e, max).0, Intern(u, f, max).0, g + [e], h + [f]))
            && SamePattern((g + [e]) + SegHoles(a[1..]), (h + [f]) + SegHoles(b[1..]))
  {
    var e, f := Entry.Span(a[0].hole), Entry.Span(b[0].hole);
    ConsHoles(g, a);
    ConsHoles(h, b);
    PatternPrefix(g + [e], h + [f], SegHoles(a[1..]), SegHoles(b[1..]));
    InternLinked(t, u, g, h, e, f, max);
    InternKeeps(t, e, max);
    InternKeeps(u, f, max);
  }

  lemma FillSegsOnce(t: Table, max: nat, segs: seq<Seg>, tail: string, t1: Table, tok: Option<string>)
    requires segs != [] && (t1, tok) == Intern(t, Entry.Span(segs[0].hole), max)
    ensures tok.None? ==> FillSegs(t, max, segs, tail) == (t1, None)
    ensures tok.Some? ==>
            var rest := FillSegs(t1, max, segs[1..], tail);
            FillSegs(t, max, segs, tail) ==
            (rest.0, if rest.1.None? then None else Some(segs[0].before + (tok.value + rest.1.value)))
  {
  }

  lemma {:induction false} FillSegsLinked(
      t: Table, u: Table, g: seq<Entry>, h: seq<Entry>, max: nat, a: seq<Seg>, b: seq<Seg>, tail: string)
    requires Coherent(t) && Coherent(u) && Linked(t, u, g, h)
    requires SameKeptText(a, b) && SamePattern(g + SegHoles(a), h + SegHoles(b))
    ensures FillSegs(t, max, a, tail).1 == FillSegs(u, max, b, tail).1
    ensures FillSegs(t, max, a, tail).1.Some? ==>
            Linked(FillSegs(t, max, a, tail).0, FillSegs(u, max, b, tail).0, g + SegHoles(a), h + SegHoles(b))
    decreases |a|
  {
    if a == [] {
      assert g + SegHoles(a) == g && h + SegHoles(b) == h;
    } else {
      var e, f := Entry.Span(a[0].hole), Entry.Span(b[0].hole);
      var (t1, tok) := Intern(t, e, max);
      var (u1, tok2) := Intern(u, f, max);
      FirstSpanLinked(t, u, g, h, max, a, b);
      FillSegsOnce(t, max, a, tail, t1, tok);
      FillSegsOnce(u, max, b, tail, u1, tok2);
      if tok.Some? {
        FillSegsLinked(t1, u1, g + [e], h + [f], max, a[1..], b[1..], tail);
        ConsHoles(g, a);
        ConsHoles(h, b);
      }
    }
  }

  lemma {:induction false} FillLinked(t: Table, u: Table, g: seq<Entry>, h: seq<Entry>, max: nat, p: Plan, q: Plan)
    requires Coherent(t) && Coherent(u) && Linked(t, u, g, h)
    requires SameShape(p, q) && SamePattern(g + Holes(p), h + Holes(q))
    ensures Fill(t, max, p).1 == Fill(u, max, q).1
    ensures Fill(t, max, p).1.Ok? ==> Linked(Fill(t, max, p).0, Fill(u, max, q).0, g + Holes(p), h + Holes(q))
    decreases p, 0
  {
    match p {
      case Keep(_) => assert g + Holes(p) == g && h + Holes(q) == h;
      case Whole(v) => InternLinked(t, u, g, h, Leaf(v), Leaf(q.v), max);
      case Cut(segs, tail) => FillSegsLinked(t, u, g, h, max, segs, q.segs, tail);
      case Fail(_) =>
      case PArr(items) => FillItemsLinked(t, u, g, h, max, items, q.items);
      case PObj(_, items) => FillItemsLinked(t, u, g, h, max, items, q.items);
    }
  }

  lemma FillItemsOnce(t: Table, max: nat, ps: seq<Plan>, t1: Table, r: Result<Json, Error>)
    requires ps != [] && (t1, r) == Fill(t, max, ps[0])
    ensures r.Err? ==> FillItems(t, max, ps) == (t1, Err(r.error))
    ensures r.Ok? ==>
            var rest := FillItems(t1, max, ps[1..]);
            FillItems(t, max, ps) == (rest.0, if rest.1.Err? then rest.1 else Ok([r.value] + rest.1.value))
  {
  }

  lemma ConsItemHoles(g: seq<Entry>, ps: seq<Plan>)
    requires ps != []
    ensures g + ItemHoles(ps) == (g + Holes(ps[0])) + ItemHoles(ps[1..])
  {
  }

  lemma {:induction false} FillItemsLinked(t: Table, u: Table, g: seq<Entry>, h: seq<Entry>, max: nat, ps: seq<Plan>,
                                           qs: seq<Plan>)
    requires Coherent(t) && Coherent(u) && Linked(t, u, g, h)
    requires |ps| == |qs| && forall i :: 0 <= i < |ps| ==> SameShape(ps[i], qs[i])
    requires SamePattern(g + ItemHoles(ps), h + ItemHoles(qs))
    ensures FillItems(t, max, ps).1 == FillItems(u, max, qs).1
    ensures FillItems(t, max, ps).1.Ok? ==>
            Linked(FillItems(t, max, ps).0, FillItems(u, max, qs).0, g + ItemHoles(ps), h + ItemHoles(qs))
    decreases ps, 1
  {
    if ps == [] {
      assert g + ItemHoles(ps) == g && h + ItemHoles(qs) == h;
    } else {
      var p, q := ps[0], qs[0];
      var g', h' := g + Holes(p), h + Holes(q);
      ConsItemHoles(g, ps);
      ConsItemHoles(h, qs);
      HolesLength(p, q);
      PatternPrefix(g', h', ItemHoles(ps[1..]), ItemHoles(qs[1..]));
      FillLinked(t, u, g, h, max, p, q);
      AnoScript.FillKeeps(t, max, p);
      AnoScript.FillKeeps(u, max, q);
      RestLinked(t, u, g', h', max, ps, qs, Fill(t, max, p).0, Fill(u, max, q).0, Fill(t, max, p).1);
      assert g' + ItemHoles(ps[1..]) == g + ItemHoles(ps) && h' + ItemHoles(qs[1..]) == h + ItemHoles(qs);
    }
  }

  lemma {:induction false} RestLinked(t: Table, u: Table, g: seq<Entry>, h: seq<Entry>, max: nat, ps: seq<Plan>,
                                      qs: seq<Plan>, t1: Table, u1: Table, r: Result<Json, Error>)
    requires |ps| == |qs| > 0 && forall i :: 0 <= i < |ps| ==> SameShape(ps[i], qs[i])
    requires Fill(t, max, ps[0]) == (t1, r) && Fill(u, max, qs[0]) == (u1, r)
    requires r.Ok? ==> Coherent(t1) && Coherent(u1) && Linked(t1, u1, g, h)
    requires SamePattern(g + ItemHoles(ps[1..]), h + ItemHoles(qs[1..]))
    ensures FillItems(t, max, ps).1 == FillItems(u, max, qs).1
    ensures FillItems(t, max, ps).1.Ok? ==>
            Linked(FillItems(t, max, ps).0, FillItems(u, max, qs).0, g + ItemHoles(ps[1..]), h + ItemHoles(qs[1..]))
    decreases ps, 0
  {
    FillItemsOnce(t, max, ps, t1, r);
    FillItemsOnce(u, max, qs, u1, r);
    if r.Ok? { FillItemsLinked(t1, u1, g, h, max, ps[1..], qs[1..]); }
  }

  lemma {:induction false} SegHolesLength(a: seq<Seg>, b: seq<Seg>)
    requires SameKeptText(a, b)
    ensures |SegHoles(a)| == |SegHoles(b)|
  {
    if a != [] { SegHolesLength(a[1..], b[1..]); }
  }

  lemma {:induction false} HolesLength(p: Plan, q: Plan)
    requires SameShape(p, q)
    ensures |Holes(p)| == |Holes(q)|
    decreases p, 0
  {
    match p {
      case Cut(segs, _) => SegHolesLength(segs, q.segs);
      case PArr(items) => ItemHolesLength(items, q.items);
      case PObj(_, items) => ItemHolesLength(items, q.items);
      case _ =>
    }
  }

  lemma {:induction false} ItemHolesLength(ps: seq<Plan>, qs: seq<Plan>)
    requires |ps| == |qs| && forall i :: 0 <= i < |ps| ==> SameShape(ps[i], qs[i])
    ensures |ItemHoles(ps)| == |ItemHoles(qs)|
    decreases ps, 1
  {
    if ps != [] {
      HolesLength(ps[0], qs[0]);
      ItemHolesLength(ps[1..], qs[1..]);
    }
  }

  /**
    Non-interference.  If two payloads are planned alike except for the masked values, and the masked
    values repeat in the same places, the masked outputs (or the refusals) are identical: the output
    says nothing about the masked values beyond which of them are equal.
  */
  lemma MaskedOutputRevealsPatternOnly(c: Config, v: Json, w: Json)
    requires SameShape(PlanOf(c, [], v, 0, 0).0, PlanOf(c, [], w, 0, 0).0)
    requires SamePattern(Holes(PlanOf(c, [], v, 0, 0).0), Holes(PlanOf(c, [], w, 0, 0).0))
    ensures Mask(c, EMPTY, v).1 == Mask(c, EMPTY, w).1
  {
    var p, q := PlanOf(c, [], v, 0, 0).0, PlanOf(c, [], w, 0, 0).0;
    assert [] + Holes(p) == Holes(p) && [] + Holes(q) == Holes(q);
    FillLinked(EMPTY, EMPTY, [], [], c.maxEntries, p, q);
  }

  // ---------------------------------------------------------------------------------------------
  // The same condition read off the payloads, for a classifier that gives both the same answers
  // ---------------------------------------------------------------------------------------------

  predicate IsLeaf(v: Json) { v.Str? || v.Num? }

  /** Met after `calls` calls of the classifier, a leaf at this path is masked as a whole, whatever it says. */
  predicate MaskedWhole(c: Config, path: AnoRules.Path, v: Json, calls: nat)
    requires IsLeaf(v)
  {
    && !(v.Str? && HasToken(v.text))
    && match AnoRules.Decide(c.keep, c.mask, path)
       case Mask => true
       case Keep => false
       case NoRule =>
         && v.text != ""
         && !(c.classifier.Some? && calls < c.classifier.value.maxCalls && c.classifier.value.answer(calls) == SayKeep)
  }

  /** The payloads have the same structure, and wherever their leaves differ both are masked as a whole. */
  ghost predicate Alike(c: Config, path: AnoRules.Path, v: Json, w: Json, calls: nat, depth: nat)
    decreases v, 0, 0
  {
    || v == w
    || (IsLeaf(v) && IsLeaf(w) && MaskedWhole(c, path, v, calls) && MaskedWhole(c, path, w, calls))
    || (v.Arr? && w.Arr? && |v.items| == |w.items| && AlikeFrom(c, path, v, v.items, w.items, 0, calls, depth))
    || (v.Obj? && w.Obj? && v.names == w.names && |v.items| == |w.items|
        && AlikeFrom(c, path, v, v.items, w.items, 0, calls, depth))
  }

  /** The members from the i-th on, met after `calls` calls. */
  ghost predicate AlikeFrom(c: Config, path: AnoRules.Path, v: Json, vs: seq<Json>, ws: seq<Json>, i: nat, calls: nat,
                            depth: nat)
    requires i <= |vs| == |ws|
    decreases vs, 1, |vs| - i
  {
    i == |vs| ||
    var here := path + [Segment(v, i)];
    && Alike(c, here, vs[i], ws[i], calls, depth + 1)
    && AlikeFrom(c, path, v, vs, ws, i + 1, PlanOf(c, here, vs[i], calls, depth + 1).1, depth)
  }

  lemma {:induction false} SameShapeReflexive(p: Plan)
    ensures SameShape(p, p)
  {
    match p {
      case Cut(segs, _) => SameKeptTextReflexive(segs);
      case PArr(items) =>
        forall i | 0 <= i < |items| ensures SameShape(items[i], items[i]) { SameShapeReflexive(items[i]); }
      case PObj(_, items) =>
        forall i | 0 <= i < |items| ensures SameShape(items[i], items[i]) { SameShapeReflexive(items[i]); }
      case _ =>
    }
  }

  lemma {:induction false} SameKeptTextReflexive(a: seq<Seg>)
    ensures SameKeptText(a, a)
  {
    if a != [] { SameKeptTextReflexive(a[1..]); }
  }

  /** Alike payloads have plans of one shape, and cost the classifier as many calls. */
  lemma {:induction false} AlikePlans(c: Config, path: AnoRules.Path, v: Json, w: Json, calls: nat, depth: nat)
    requires Alike(c, path, v, w, calls, depth)
    ensures var p, q := PlanOf(c, path, v, calls, depth), PlanOf(c, path, w, calls, depth);
            SameShape(p.0, q.0) && p.1 == q.1
    decreases v, 0, 0
  {
    if v == w {
      SameShapeReflexive(PlanOf(c, path, v, calls, depth).0);
    } else if depth <= MAX_DEPTH && !IsLeaf(v) {
      assert forall k :: 0 <= k < |v.items| ==> Segment(v, k) == Segment(w, k);
      AlikeItems(c, path, v, w, v.items, w.items, 0, calls, depth);
    }
  }

  lemma {:induction false} AlikeItems(
      c: Config, path: AnoRules.Path, v: Json, w: Json, vs: seq<Json>, ws: seq<Json>, i: nat, calls: nat, depth: nat)
    requires i <= |vs| == |ws| && (forall k :: 0 <= k < |vs| ==> Segment(v, k) == Segment(w, k))
    requires AlikeFrom(c, path, v, vs, ws, i, calls, depth)
    ensures var p, q := PlanItems(c, path, v, vs, i, calls, depth), PlanItems(c, path, w, ws, i, calls, depth);
            |p.0| == |q.0| && p.1 == q.1 && forall k :: 0 <= k < |p.0| ==> SameShape(p.0[k], q.0[k])
    decreases vs, 1, |vs| - i
  {
    if i < |vs| {
      var here := path + [Segment(v, i)];
      AlikePlans(c, here, vs[i], ws[i], calls, depth + 1);
      AlikeItems(c, path, v, w, vs, ws, i + 1, PlanOf(c, here, vs[i], calls, depth + 1).1, depth);
    }
  }

  /** Non-interference for payloads: alike, and with the same repetitions among the masked values. */
  lemma AlikePayloadsMaskAlike(c: Config, v: Json, w: Json)
    requires Alike(c, [], v, w, 0, 0)
    requires SamePattern(Holes(PlanOf(c, [], v, 0, 0).0), Holes(PlanOf(c, [], w, 0, 0).0))
    ensures Mask(c, EMPTY, v).1 == Mask(c, EMPTY, w).1
  {
    AlikePlans(c, [], v, w, 0, 0);
    MaskedOutputRevealsPatternOnly(c, v, w);
  }
}
