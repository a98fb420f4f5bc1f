/**
  What is masked comes back: unmasking, in the same live exchange, gives the original JSON value, key
  order and number text included, whenever no masked span is directly followed by a kept digit.  For
  every other payload, and for every other exchange, what comes back instead is spelled out.
*/
module AnoRoundTrip {
  import opened Basics
  import opened AnoText
  import opened AnoVault
  import opened Anonymiser
  import opened AnoScript
  import opened AnoReading
  import AnoRules

  // ---------------------------------------------------------------------------------------------
  // A plan speaks about the value it was made for
  // ---------------------------------------------------------------------------------------------

  function Uncut(segs: seq<Seg>, tail: string): string {
    if segs == [] then tail else segs[0].before + (segs[0].hole + Uncut(segs[1..], tail))
  }

  /** The plan rebuilds `v`, and what it keeps of `v` contains no token. */
  ghost predicate PlansFor(p: Plan, v: Json, depth: nat)
    decreases p
  {
    match p
    case Fail(_) => true
    case Keep(x) => x == v && depth <= MAX_DEPTH && !v.Arr? && !v.Obj? && (v.Str? ==> !HasToken(v.text))
    case Whole(x) => x == v && depth <= MAX_DEPTH
    case Cut(segs, tail) =>
      v.Str? && depth <= MAX_DEPTH && segs != [] && v.text == Uncut(segs, tail) && !HasToken(v.text)
    case PArr(items) =>
      && v.Arr? && depth <= MAX_DEPTH && |items| == |v.items|
      && (forall i :: 0 <= i < |items| ==> PlansFor(items[i], v.items[i], depth + 1))
    case PObj(names, items) =>
      && v.Obj? && depth <= MAX_DEPTH && names == v.names && |items| == |v.items|
      && (forall i :: 0 <= i < |items| ==> PlansFor(items[i], v.items[i], depth + 1))
  }

  lemma {:induction false} SegmentsUncut(text: string, spans: seq<AnoRules.Span>, from: nat)
    requires from <= |text| && AnoRules.Disjoint(spans, from, |text|)
    ensures Uncut(Segments(text, spans, from), TailFrom(text, spans, from)) == text[from..]
    decreases |spans|
  {
    if spans != [] {
      var sp := spans[0];
      SegmentsUncut(text, spans[1..], sp.end);
      var segs := Segments(text, spans, from);
      assert segs[1..] == Segments(text, spans[1..], sp.end);
      assert text[from..] == text[from..sp.start] + (text[sp.start..sp.end] + text[sp.end..]);
    }
  }

  lemma LeafPlansFor(c: Config, path: AnoRules.Path, v: Json, calls: nat, depth: nat)
    requires (v.Str? || v.Num?) && depth <= MAX_DEPTH
    ensures PlansFor(LeafPlan(c, path, v, calls).0, v, depth)
  {
    if v.Str? {
      SegmentsUncut(v.text, Spans(c, v.text), 0);
      assert v.text[0..] == v.text;
    }
  }

  lemma {:induction false} PlanPlansFor(c: Config, path: AnoRules.Path, v: Json, calls: nat, depth: nat)
    ensures PlansFor(PlanOf(c, path, v, calls, depth).0, v, depth)
    decreases v, 0, 0
  {
    if depth <= MAX_DEPTH {
      match v {
        case Num(_) => LeafPlansFor(c, path, v, calls, depth);
        case Str(_) => LeafPlansFor(c, path, v, calls, depth);
        case Arr(items) => ItemsPlanFor(c, path, v, items, 0, calls, depth);
        case Obj(_, items) => ItemsPlanFor(c, path, v, items, 0, calls, depth);
        case _ =>
      }
    }
  }

  lemma {:induction false} ItemsPlanFor(c: Config, path: AnoRules.Path, v: Json, items: seq<Json>, i: nat, calls: nat,
                                        depth: nat)
    requires i <= |items|
    ensures var ps := PlanItems(c, path, v, items, i, calls, depth).0;
            |ps| == |items| - i && forall k :: 0 <= k < |ps| ==> PlansFor(ps[k], items[i + k], depth + 1)
    decreases items, 1, |items| - i
  {
    if i < |items| {
      PlanPlansFor(c, path + [Segment(v, i)], items[i], calls, depth + 1);
      var n := PlanOf(c, path + [Segment(v, i)], items[i], calls, depth + 1).1;
      ItemsPlanFor(c, path, v, items, i + 1, n, depth);
    }
  }

  // ---------------------------------------------------------------------------------------------
  // ... and so does its script
  // ---------------------------------------------------------------------------------------------

  ghost predicate ScriptFor(s: Script, v: Json, depth: nat)
    decreases s
  {
    match s
    case Same(x) => x == v && depth <= MAX_DEPTH && !v.Arr? && !v.Obj? && (v.Str? ==> !HasToken(v.text))
    case Replaced(_, x) => x == v && depth <= MAX_DEPTH
    case Pieced(ps, tail) =>
      v.Str? && depth <= MAX_DEPTH && ps != [] && v.text == Original(ps, tail) && !HasToken(v.text)
    case ArrOf(items) =>
      && v.Arr? && depth <= MAX_DEPTH && |items| == |v.items|
      && (forall i :: 0 <= i < |items| ==> ScriptFor(items[i], v.items[i], depth + 1))
    case ObjOf(names, items) =>
      && v.Obj? && depth <= MAX_DEPTH && names == v.names && |items| == |v.items|
      && (forall i :: 0 <= i < |items| ==> ScriptFor(items[i], v.items[i], depth + 1))
  }

  lemma {:induction false} PiecesOriginal(segs: seq<Seg>, tail: string, toks: seq<string>)
    requires |toks| == |segs|
    ensures Original(PiecesOf(segs, toks), tail) == Uncut(segs, tail)
    decreases |segs|
  {
    if segs != [] {
      PiecesOriginal(segs[1..], tail, toks[1..]);
      assert PiecesOf(segs, toks)[1..] == PiecesOf(segs[1..], toks[1..]);
    }
  }

  lemma {:induction false} ScriptedFor(p: Plan, toks: seq<string>, v: Json, depth: nat)
    requires NoFail(p) && |toks| == |Holes(p)| && PlansFor(p, v, depth)
    ensures ScriptFor(Scripted(p, toks), v, depth)
    decreases p, 0
  {
    match p {
      case Cut(segs, tail) =>
        SegHolesAt(segs);
        PiecesOriginal(segs, tail, toks);
      case PArr(items) => ScriptedItemsFor(items, toks, v.items, depth);
      case PObj(_, items) => ScriptedItemsFor(items, toks, v.items, depth);
      case _ =>
    }
  }

  lemma {:induction false} ScriptedItemsFor(ps: seq<Plan>, toks: seq<string>, vs: seq<Json>, depth: nat)
    requires (forall i :: 0 <= i < |ps| ==> NoFail(ps[i])) && |toks| == |ItemHoles(ps)| && |ps| == |vs|
    requires forall i :: 0 <= i < |ps| ==> PlansFor(ps[i], vs[i], depth + 1)
    ensures forall i :: 0 <= i < |ps| ==> ScriptFor(ScriptedItems(ps, toks)[i], vs[i], depth + 1)
    decreases ps, 1
  {
    if ps != [] {
      var k, ss := |Holes(ps[0])|, ScriptedItems(ps, toks);
      ScriptedFor(ps[0], toks[..k], vs[0], depth + 1);
      ScriptedItemsFor(ps[1..], toks[k..], vs[1..], depth);
      forall i | 0 <= i < |ps| ensures ScriptFor(ss[i], vs[i], depth + 1) {
        if i > 0 { assert ss[i] == ScriptedItems(ps[1..], toks[k..])[i - 1] && vs[i] == vs[1..][i - 1]; }
      }
    }
  }

  lemma {:induction false} OriginalTokenFree(ps: seq<Piece>, tail: string)
    requires !HasToken(Original(ps, tail))
    ensures TokenFree(ps, tail)
  {
    if ps != [] {
      var s, rest := ps[0], Original(ps[1..], tail);
      assert Original(ps, tail) == "" + s.before + (s.hole + rest);
      SubstringTokenFree("", s.before, s.hole + rest);
      assert Original(ps, tail) == (s.before + s.hole) + rest + "";
      SubstringTokenFree(s.before + s.hole, rest, "");
      OriginalTokenFree(ps[1..], tail);
    }
  }

  // ---------------------------------------------------------------------------------------------
  // What comes back for a masked payload, in any exchange
  // ---------------------------------------------------------------------------------------------

  /** Every number that is read anywhere in the payload has been handed out. */
  ghost predicate Resolvable(t: Table, s: Script)
    decreases s
  {
    match s
    case Same(_) => true
    case Replaced(num, _) => num <= t.n
    case Pieced(ps, tail) => Reaches(t, ps, tail)
    case ArrOf(items) => forall i :: 0 <= i < |items| ==> Resolvable(t, items[i])
    case ObjOf(_, items) => forall i :: 0 <= i < |items| ==> Resolvable(t, items[i])
  }

  /** The values and texts put in for the numbers that are read are the original ones. */
  ghost predicate Agrees(t: Table, s: Script)
    decreases s
  {
    match s
    case Same(_) => true
    case Replaced(num, v) => LoneAnswer(t, Token(num)) == Ok(v)
    case Pieced(ps, tail) => ps != [] && TextsAgree(t, ps, tail)
    case ArrOf(items) => forall i :: 0 <= i < |items| ==> Agrees(t, items[i])
    case ObjOf(_, items) => forall i :: 0 <= i < |items| ==> Agrees(t, items[i])
  }

  /** The three possible answers, and when each is given. */
  ghost predicate AnswerIs(t: Table, s: Script, v: Json, answer: Result<Json, Error>) {
    && (answer.Ok? <==> Resolvable(t, s))
    && (answer.Ok? || answer == Err(UnknownToken))
    && (answer == Ok(v) <==> Resolvable(t, s) && Agrees(t, s))
  }

  lemma TokenIsExact(n: Number)
    requires n < Pow10(9)
    ensures ExactToken(Token(n))
  {
    ShortNumber(n);
    TokenReadBack(n, "");
    assert Token(n) + "" == Token(n);
  }

  lemma WholeAnswer(t: Table, n: Number, v: Json, depth: nat)
    requires Coherent(t) && n < Pow10(9) && depth <= MAX_DEPTH
    ensures Unmask(t, Str(Token(n)), depth) == LoneAnswer(t, Token(n))
    ensures AnswerIs(t, Replaced(n, v), v, LoneAnswer(t, Token(n)))
  {
    TokenIsExact(n);
    TokenKnown(t, n);
  }

  lemma CutAnswer(t: Table, ps: seq<Piece>, tail: string, depth: nat)
    requires Coherent(t) && ps != [] && ShortPieces(ps) && depth <= MAX_DEPTH && !HasToken(Original(ps, tail))
    ensures Unmask(t, Str(WriteText(ps, tail)), depth) == TextAnswer(t, ps, tail)
    ensures AnswerIs(t, Pieced(ps, tail), Str(Original(ps, tail)), TextAnswer(t, ps, tail))
  {
    OriginalTokenFree(ps, tail);
    UnmaskWritten(t, ps, tail);
    AnswerRefused(t, ps, tail);
    AnswerAgrees(t, ps, tail);
  }

  /** The same for a list of members, read left to right. */
  ghost predicate ItemAnswersAre(t: Table, ss: seq<Script>, vs: seq<Json>, answer: Result<seq<Json>, Error>) {
    && (answer.Ok? <==> forall i :: 0 <= i < |ss| ==> Resolvable(t, ss[i]))
    && (answer.Ok? || answer == Err(UnknownToken))
    && (answer == Ok(vs) <==> forall i :: 0 <= i < |ss| ==> Resolvable(t, ss[i]) && Agrees(t, ss[i]))
  }

  /**
    Reading is exact.  Whatever exchange a masked payload is unmasked in, it is refused if and only if some
    number that is read has not been handed out there; otherwise a value comes back, and that is the original
    if and only if the values and texts put in agree with what was masked.
  */
  lemma {:induction false} ReadingIsExact(t: Table, s: Script, v: Json, depth: nat)
    requires Coherent(t) && Every(Short(), s) && ScriptFor(s, v, depth)
    ensures AnswerIs(t, s, v, Unmask(t, Write(s), depth))
    decreases s, 0
  {
    match s {
      case Same(_) =>
      case Replaced(num, _) => WholeAnswer(t, num, v, depth);
      case Pieced(ps, tail) => CutAnswer(t, ps, tail, depth);
      case ArrOf(items) => ItemsExact(t, items, v.items, depth);
      case ObjOf(_, items) => ItemsExact(t, items, v.items, depth);
    }
  }

  lemma {:induction false} ItemsExact(t: Table, ss: seq<Script>, vs: seq<Json>, depth: nat)
    requires Coherent(t) && |ss| == |vs|
    requires forall i :: 0 <= i < |ss| ==> Every(Short(), ss[i]) && ScriptFor(ss[i], vs[i], depth + 1)
    ensures ItemAnswersAre(t, ss, vs, UnmaskItems(t, WriteItems(ss), depth))
    decreases ss, 1
  {
    if ss != [] {
      ReadingIsExact(t, ss[0], vs[0], depth + 1);
      ItemsExact(t, ss[1..], vs[1..], depth);
      var head, rest := Unmask(t, Write(ss[0]), depth + 1), UnmaskItems(t, WriteItems(ss[1..]), depth);
      UnmaskCons(t, ss, depth);
      AnswersCons(t, ss, vs, head, rest);
    }
  }

  function Cons(head: Result<Json, Error>, rest: Result<seq<Json>, Error>): Result<seq<Json>, Error> {
    if head.Err? then Err(head.error) else if rest.Err? then rest else Ok([head.value] + rest.value)
  }

  lemma UnmaskCons(t: Table, ss: seq<Script>, depth: nat)
    requires ss != []
    ensures UnmaskItems(t, WriteItems(ss), depth) ==
            Cons(Unmask(t, Write(ss[0]), depth + 1), UnmaskItems(t, WriteItems(ss[1..]), depth))
  {
    var ms := WriteItems(ss);
    assert ms[0] == Write(ss[0]) && ms[1..] == WriteItems(ss[1..]);
  }

  lemma AnswersCons(t: Table, ss: seq<Script>, vs: seq<Json>, head: Result<Json, Error>, rest: Result<seq<Json>, Error>)
    requires ss != [] && |vs| == |ss|
    requires AnswerIs(t, ss[0], vs[0], head) && ItemAnswersAre(t, ss[1..], vs[1..], rest)
    ensures ItemAnswersAre(t, ss, vs, Cons(head, rest))
  {
    SplitAll(t, ss);
    ConsOriginal(head, rest, vs);
  }

  lemma ConsOriginal(head: Result<Json, Error>, rest: Result<seq<Json>, Error>, vs: seq<Json>)
    requires vs != []
    ensures Cons(head, rest) == Ok(vs) <==> head == Ok(vs[0]) && rest == Ok(vs[1..])
  {
    assert vs == [vs[0]] + vs[1..];
    if head.Ok? && rest.Ok? {
      var all := [head.value] + rest.value;
      assert all[0] == head.value && all[1..] == rest.value;
    }
  }

  lemma SplitAll(t: Table, ss: seq<Script>)
    requires ss != []
    ensures (forall i :: 0 <= i < |ss| ==> Resolvable(t, ss[i])) <==>
            Resolvable(t, ss[0]) && forall i :: 0 <= i < |ss[1..]| ==> Resolvable(t, ss[1..][i])
    ensures (forall i :: 0 <= i < |ss| ==> Resolvable(t, ss[i]) && Agrees(t, ss[i])) <==>
            Resolvable(t, ss[0]) && Agrees(t, ss[0])
            && forall i :: 0 <= i < |ss[1..]| ==> Resolvable(t, ss[1..][i]) && Agrees(t, ss[1..][i])
  {
    var rest := ss[1..];
    assert forall i :: 0 <= i < |rest| ==> rest[i] == ss[i + 1];
    assert forall i :: 1 <= i < |ss| ==> ss[i] == rest[i - 1];
  }

  // ---------------------------------------------------------------------------------------------
  // The round trip
  // ---------------------------------------------------------------------------------------------

  /** Checked piece by piece, without putting the answer together. */
  ghost predicate Fits(t: Table, s: Script)
    decreases s
  {
    match s
    case Same(_) => true
    case Replaced(num, v) => num <= t.n && LoneAnswer(t, Token(num)) == Ok(v)
    case Pieced(ps, tail) => ps != [] && PiecesFit(t, ps, tail)
    case ArrOf(items) => forall i :: 0 <= i < |items| ==> Fits(t, items[i])
    case ObjOf(_, items) => forall i :: 0 <= i < |items| ==> Fits(t, items[i])
  }

  lemma {:induction false} FitsAgrees(t: Table, s: Script)
    requires Coherent(t) && Fits(t, s)
    ensures Resolvable(t, s) && Agrees(t, s)
  {
    match s {
      case Pieced(ps, tail) => PiecesFitAgrees(t, ps, tail);
      case ArrOf(items) =>
        forall i | 0 <= i < |items| ensures Resolvable(t, items[i]) && Agrees(t, items[i]) { FitsAgrees(t, items[i]); }
      case ObjOf(_, items) =>
        forall i | 0 <= i < |items| ensures Resolvable(t, items[i]) && Agrees(t, items[i]) { FitsAgrees(t, items[i]); }
      case _ =>
    }
  }

  predicate SafeScript(s: Script)
    decreases s
  {
    match s
    case Pieced(ps, tail) => SafePieces(ps, tail)
    case ArrOf(items) => forall i :: 0 <= i < |items| ==> SafeScript(items[i])
    case ObjOf(_, items) => forall i :: 0 <= i < |items| ==> SafeScript(items[i])
    case _ => true
  }

  lemma {:induction false} SafeFits(t: Table, s: Script, v: Json, depth: nat)
    requires Coherent(t) && Every(BoundIn(t), s) && SafeScript(s) && ScriptFor(s, v, depth)
    ensures Fits(t, s)
  {
    match s {
      case Replaced(num, _) => TokenKnown(t, num);
      case Pieced(ps, tail) => SafeFit(t, ps, tail);
      case ArrOf(items) =>
        forall i | 0 <= i < |items| ensures Fits(t, items[i]) { SafeFits(t, items[i], v.items[i], depth + 1); }
      case ObjOf(_, items) =>
        forall i | 0 <= i < |items| ensures Fits(t, items[i]) { SafeFits(t, items[i], v.items[i], depth + 1); }
      case _ =>
    }
  }

  /** An exchange of at most nine values refuses every payload of its own in which a digit follows a span. */
  lemma {:induction false} UnsafeRefused(t: Table, s: Script)
    requires Coherent(t) && Every(BoundIn(t), s) && !SafeScript(s) && t.n <= 9
    ensures !Resolvable(t, s)
  {
    match s {
      case Pieced(ps, tail) => UnsafeReading(t, ps, tail);
      case ArrOf(items) =>
        var i :| 0 <= i < |items| && !SafeScript(items[i]);
        UnsafeRefused(t, items[i]);
      case ObjOf(_, items) =>
        var i :| 0 <= i < |items| && !SafeScript(items[i]);
        UnsafeRefused(t, items[i]);
    }
  }

  // No masked span of the payload is directly followed by a kept digit: the condition, seen before masking.

  predicate SafeSegs(segs: seq<Seg>, tail: string) {
    segs == [] || (NoDigitFirst(if |segs| == 1 then tail else segs[1].before) && SafeSegs(segs[1..], tail))
  }

  predicate SafePlan(p: Plan)
    decreases p
  {
    match p
    case Cut(segs, tail) => SafeSegs(segs, tail)
    case PArr(items) => forall i :: 0 <= i < |items| ==> SafePlan(items[i])
    case PObj(_, items) => forall i :: 0 <= i < |items| ==> SafePlan(items[i])
    case _ => true
  }

  lemma {:induction false} SafeSegsPieces(segs: seq<Seg>, tail: string, toks: seq<string>)
    requires |toks| == |segs|
    ensures SafePieces(PiecesOf(segs, toks), tail) <==> SafeSegs(segs, tail)
    decreases |segs|
  {
    if segs != [] {
      SafeSegsPieces(segs[1..], tail, toks[1..]);
      assert PiecesOf(segs, toks)[1..] == PiecesOf(segs[1..], toks[1..]);
    }
  }

  lemma {:induction false} SafeScripted(p: Plan, toks: seq<string>)
    requires NoFail(p) && |toks| == |Holes(p)|
    ensures SafeScript(Scripted(p, toks)) <==> SafePlan(p)
    decreases p, 0
  {
    match p {
      case Cut(segs, tail) =>
        SegHolesAt(segs);
        SafeSegsPieces(segs, tail, toks);
      case PArr(items) => SafeScriptedItems(items, toks);
      case PObj(_, items) => SafeScriptedItems(items, toks);
      case _ =>
    }
  }

  lemma {:induction false} SafeScriptedItems(ps: seq<Plan>, toks: seq<string>)
    requires (forall i :: 0 <= i < |ps| ==> NoFail(ps[i])) && |toks| == |ItemHoles(ps)|
    ensures forall i :: 0 <= i < |ps| ==> (SafeScript(ScriptedItems(ps, toks)[i]) <==> SafePlan(ps[i]))
    decreases ps, 1
  {
    if ps != [] {
      var k, ss := |Holes(ps[0])|, ScriptedItems(ps, toks);
      SafeScripted(ps[0], toks[..k]);
      SafeScriptedItems(ps[1..], toks[k..]);
      forall i | 0 <= i < |ps| ensures SafeScript(ss[i]) <==> SafePlan(ps[i]) {
        if i > 0 { assert ss[i] == ScriptedItems(ps[1..], toks[k..])[i - 1] && ps[i] == ps[1..][i - 1]; }
      }
    }
  }

  lemma MaskScriptFor(c: Config, t: Table, v: Json)
    requires Mask(c, t, v).1.Ok?
    ensures ScriptFor(MaskScript(c, t, v), v, 0)
    ensures SafeScript(MaskScript(c, t, v)) <==> SafePlan(PlanOf(c, [], v, 0, 0).0)
  {
    var p := PlanOf(c, [], v, 0, 0).0;
    FillInterns(t, c.maxEntries, p, Mask(c, t, v).0, Mask(c, t, v).1.value);
    var toks := InternAll(t, c.maxEntries, Holes(p)).1;
    PlanPlansFor(c, [], v, 0, 0);
    ScriptedFor(p, toks, v, 0);
    SafeScripted(p, toks);
  }

  /** Token numbers are short enough to be recognised. */
  ghost predicate Readable(t: Table) { Coherent(t) && t.n < Pow10(9) }

  /**
    Exactly when the round trip succeeds, at any later time of the exchange: if and only if every number that
    is read has been handed out and the texts agree.  It is refused if and only if some number has not been
    handed out.
  */
  lemma MaskUnmaskIff(c: Config, t: Table, v: Json, later: Table, m: Json)
    requires Coherent(t) && Readable(later)
    requires Mask(c, t, v).1 == Ok(m) && Extends(Mask(c, t, v).0, later)
    ensures var s := MaskScript(c, t, v);
            && m == Write(s) && Every(BoundIn(later), s)
            && (Unmask(later, m, 0) == Err(UnknownToken) <==> !Resolvable(later, s))
            && (Unmask(later, m, 0).Ok? <==> Resolvable(later, s))
            && (Unmask(later, m, 0) == Ok(v) <==> Resolvable(later, s) && Agrees(later, s))
  {
    MaskedIsWritten(c, t, v, later, m);
    MaskScriptFor(c, t, v);
    ReadingIsExact(later, MaskScript(c, t, v), v, 0);
  }

  /** Piece by piece: it succeeds if each text put in is the span and the digits read with its token. */
  lemma MaskUnmaskPieces(c: Config, t: Table, v: Json, later: Table, m: Json)
    requires Coherent(t) && Readable(later)
    requires Mask(c, t, v).1 == Ok(m) && Extends(Mask(c, t, v).0, later) && Fits(later, MaskScript(c, t, v))
    ensures Unmask(later, m, 0) == Ok(v)
  {
    MaskUnmaskIff(c, t, v, later, m);
    FitsAgrees(later, MaskScript(c, t, v));
  }

  /**
    Round trip.  A payload that was masked in an exchange is given back exactly by that exchange, at any
    later time of its life: for every value, every rule set and every classifier, provided no masked
    span is directly followed by a kept digit and token numbers stay within nine digits.
  */
  lemma MaskUnmask(c: Config, t: Table, v: Json, later: Table, m: Json)
    requires Coherent(t) && Readable(later) && SafePlan(PlanOf(c, [], v, 0, 0).0)
    requires Mask(c, t, v).1 == Ok(m) && Extends(Mask(c, t, v).0, later)
    ensures Unmask(later, m, 0) == Ok(v)
  {
    MaskedIsWritten(c, t, v, later, m);
    MaskScriptFor(c, t, v);
    SafeFits(later, MaskScript(c, t, v), v, 0);
    MaskUnmaskPieces(c, t, v, later, m);
  }

  /** In an exchange of at most nine values: if and only if no span is followed by a kept digit; never a wrong value. */
  lemma MaskUnmaskFew(c: Config, t: Table, v: Json, later: Table, m: Json)
    requires Coherent(t) && Coherent(later) && later.n <= 9
    requires Mask(c, t, v).1 == Ok(m) && Extends(Mask(c, t, v).0, later)
    ensures Unmask(later, m, 0) == if SafePlan(PlanOf(c, [], v, 0, 0).0) then Ok(v) else Err(UnknownToken)
  {
    NineIsReadable();
    MaskUnmaskIff(c, t, v, later, m);
    MaskScriptFor(c, t, v);
    if SafePlan(PlanOf(c, [], v, 0, 0).0) {
      MaskUnmask(c, t, v, later, m);
    } else {
      UnsafeRefused(later, MaskScript(c, t, v));
    }
  }

  lemma NineIsReadable()
    ensures 9 < Pow10(9)
  {
    assert Pow10(1) == 10 && Pow10(2) == 100;
    assert Pow10(9) == 10 * Pow10(8);
    Pow10Positive(8);
  }
}
