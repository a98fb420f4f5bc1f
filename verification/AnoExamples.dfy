/**
  The digit behind a span, on a concrete payload: the string X1 under a kept key, with X masked.  In a fresh
  exchange it is refused on the way back; once the exchange has eleven values, another value comes back.
*/
module AnoExamples {
  import opened Basics
  import opened AnoText
  import opened AnoVault
  import opened Anonymiser
  import opened AnoScript
  import opened AnoReading
  import opened AnoRoundTrip
  import AnoRules

  /** Keeps the member a, and masks an X in front of a 1. */
  function ExampleConfig(): Config {
    Config([["a"]], [], text => if text == "X1" then [AnoRules.Span(0, 1)] else [], None, 1024)
  }

  const PAYLOAD := Obj(["a"], [Str("X1")])
  const CUT := Cut([Seg("", "X")], "1")

  // ---------------------------------------------------------------------------------------------
  // The plans
  // ---------------------------------------------------------------------------------------------

  lemma ExampleSpans()
    ensures Spans(ExampleConfig(), "X1") == [AnoRules.Span(0, 1)]
  {
    var x := AnoRules.Span(0, 1);
    var ms := [x];
    assert ExampleConfig().matches("X1") == ms && |"X1"| == 2;
    assert ms[..0] == [] && AnoRules.InText(ms, 2) == [] + [x];
    assert [] + [x] == ms && AnoRules.Sort(ms) == AnoRules.Insert([], x) == ms;
    assert ms[1..] == [] && AnoRules.Thin(ms, 0) == ms;
  }

  lemma ExampleDecide()
    ensures AnoRules.Decide(ExampleConfig().keep, ExampleConfig().mask, ["a"]) == AnoRules.Verdict.Keep
  {
    var keep, mask := ExampleConfig().keep, ExampleConfig().mask;
    AnoRules.DecideMeaning(keep, mask, ["a"]);
    assert keep[0] == ["a"] && (keep + mask)[0] == ["a"] && AnoRules.Covers(["a"], ["a"]);
  }

  lemma ExampleCut(x: AnoRules.Span)
    requires x == AnoRules.Span(0, 1)
    ensures AnoRules.Disjoint([x], 0, 2)
    ensures Segments("X1", [x], 0) == [Seg("", "X")] && TailFrom("X1", [x], 0) == "1"
  {
    assert [x][1..] == [] && "X1"[0..0] == "" && "X1"[0..1] == "X" && "X1"[1..] == "1";
    assert Segments("X1", [x][1..], 1) == [] && TailFrom("X1", [x][1..], 1) == "1";
  }

  lemma ExampleLeaf()
    ensures LeafPlan(ExampleConfig(), ["a"], Str("X1"), 0) == (CUT, 0)
  {
    ExampleSpans();
    assert !HasToken("X1");
    ExampleDecide();
    ExampleCut(AnoRules.Span(0, 1));
  }

  lemma ExamplePlan()
    ensures PlanOf(ExampleConfig(), [], PAYLOAD, 0, 0).0 == PObj(["a"], [CUT])
  {
    ExampleLeaf();
    var items := [Str("X1")];
    assert [] + [Segment(PAYLOAD, 0)] == ["a"];
    assert PlanItems(ExampleConfig(), [], PAYLOAD, items, 1, 0, 0) == ([], 0);
    assert PlanItems(ExampleConfig(), [], PAYLOAD, items, 0, 0, 0) == ([CUT] + [], 0);
  }

  /** The ten numbers 0 to 9: no rule speaks about them, so they are masked. */
  function Numbers(): seq<Json> { seq(10, i requires 0 <= i => Num(Decimal(i))) }

  function Wholes(vs: seq<Json>): seq<Plan> { if vs == [] then [] else [Whole(vs[0])] + Wholes(vs[1..]) }

  lemma NumberDecide(i: nat)
    ensures AnoRules.Decide(ExampleConfig().keep, ExampleConfig().mask, [Decimal(i)]) == AnoRules.Verdict.NoRule
  {
    var keep, mask, path := ExampleConfig().keep, ExampleConfig().mask, [Decimal(i)];
    NotTheKey(i);
    forall r | r in keep + mask ensures !AnoRules.Covers(r, path) {
      assert r == ["a"] && r[0] == "a" && path[0] == Decimal(i);
    }
    AnoRules.DecideMeaning(keep, mask, path);
  }

  lemma NotTheKey(i: nat)
    ensures Decimal(i) != "a" && "a" != "*"
  {
    assert IsDigit(Decimal(i)[0]) && "a"[0] == 'a' && "*"[0] == '*';
  }

  lemma NumberLeaf(i: nat, n: nat)
    ensures LeafPlan(ExampleConfig(), [Decimal(i)], Num(Decimal(n)), 0) == (Whole(Num(Decimal(n))), 0)
  {
    NumberDecide(i);
  }

  lemma {:induction false} NumbersPlan(i: nat)
    requires i <= 10
    ensures PlanItems(ExampleConfig(), [], Arr(Numbers()), Numbers(), i, 0, 0) == (Wholes(Numbers()[i..]), 0)
    decreases 10 - i
  {
    var c, vs := ExampleConfig(), Numbers();
    if i < 10 {
      NumbersPlan(i + 1);
      NumberLeaf(i, i);
      assert [] + [Segment(Arr(vs), i)] == [Decimal(i)];
      assert vs[i..][0] == vs[i] && vs[i..][1..] == vs[i + 1..];
    } else {
      assert vs[10..] == [];
    }
  }

  // ---------------------------------------------------------------------------------------------
  // Masking them
  // ---------------------------------------------------------------------------------------------

  /** None of the values has a token yet, and none occurs twice. */
  ghost predicate AllNew(t: Table, vs: seq<Json>) {
    && (forall i :: 0 <= i < |vs| ==> Leaf(vs[i]) !in t.byKey)
    && (forall i, j :: 0 <= i < j < |vs| ==> vs[i] != vs[j])
  }

  lemma InternNew(t: Table, max: nat, vs: seq<Json>) returns (t1: Table)
    requires Coherent(t) && t.n < max && vs != [] && AllNew(t, vs)
    ensures Intern(t, Leaf(vs[0]), max) == (t1, Some(Token(t.n + 1)))
    ensures Coherent(t1) && t1.n == t.n + 1 && AllNew(t1, vs[1..])
    ensures Token(t1.n) in t1.byTok && t1.byTok[Token(t1.n)] == Leaf(vs[0])
  {
    t1 := Intern(t, Leaf(vs[0]), max).0;
    InternKeeps(t, Leaf(vs[0]), max);
    var rest := vs[1..];
    forall i | 0 <= i < |rest| ensures Leaf(rest[i]) !in t1.byKey { assert rest[i] == vs[i + 1]; }
    forall i, j | 0 <= i < j < |rest|
      ensures rest[i] != rest[j]
    {
      assert rest[i] == vs[i + 1] && rest[j] == vs[j + 1];
    }
  }

  /** Values that are new to the exchange get the next tokens, one after the other. */
  lemma {:induction false} FillNew(t: Table, max: nat, vs: seq<Json>)
    requires Coherent(t) && t.n + |vs| <= max && AllNew(t, vs)
    ensures var (t', r) := FillItems(t, max, Wholes(vs));
            r.Ok? && t'.n == t.n + |vs|
            && (vs != [] ==> Token(t'.n) in t'.byTok && t'.byTok[Token(t'.n)] == Leaf(vs[|vs| - 1]))
    decreases |vs|
  {
    if vs != [] {
      var t1 := InternNew(t, max, vs);
      FillNew(t1, max, vs[1..]);
      FillOne(t, max, vs, t1);
    }
  }

  lemma FillOne(t: Table, max: nat, vs: seq<Json>, t1: Table)
    requires vs != [] && Intern(t, Leaf(vs[0]), max) == (t1, Some(Token(t.n + 1)))
    requires FillItems(t1, max, Wholes(vs[1..])).1.Ok?
    ensures FillItems(t, max, Wholes(vs)).0 == FillItems(t1, max, Wholes(vs[1..])).0
    ensures FillItems(t, max, Wholes(vs)).1.Ok?
  {
    assert Wholes(vs)[0] == Whole(vs[0]) && Wholes(vs)[1..] == Wholes(vs[1..]);
  }

  lemma NumbersDistinct()
    ensures forall i, j :: 0 <= i < j < |Numbers()| ==> Numbers()[i] != Numbers()[j]
  {
    forall i, j | 0 <= i < j < |Numbers()| ensures Numbers()[i] != Numbers()[j] {
      if Decimal(i) == Decimal(j) { DecimalInjective(i, j); }
    }
  }

  /** The table of an exchange in which only the payload has been masked. */
  function FirstTable(): Table { Table(1, map[Entry.Span("X") := Token(1)], map[Token(1) := Entry.Span("X")]) }

  lemma MaskExample()
    ensures Mask(ExampleConfig(), EMPTY, PAYLOAD) == (FirstTable(), Ok(Obj(["a"], [Str(Token(1) + "1")])))
    ensures Coherent(FirstTable())
  {
    ExamplePlan();
    EmptyIsCoherent();
    var e, segs := Entry.Span("X"), [Seg("", "X")];
    InternKeeps(EMPTY, e, 1024);
    assert Intern(EMPTY, e, 1024) == (FirstTable(), Some(Token(1)));
    assert segs[1..] == [] && "" + (Token(1) + "1") == Token(1) + "1";
    assert FillSegs(EMPTY, 1024, segs, "1") == (FirstTable(), Some("" + (Token(1) + "1")));
    assert [CUT][1..] == [] && [Str(Token(1) + "1")] + [] == [Str(Token(1) + "1")];
    assert FillItems(FirstTable(), 1024, []) == (FirstTable(), Ok([]));
  }

  /** In its own exchange, the payload is refused on the way back. */
  lemma RefusedOnTheWayBack()
    ensures var (t, r) := Mask(ExampleConfig(), EMPTY, PAYLOAD);
            r.Ok? && Unmask(t, r.value, 0) == Err(UnknownToken)
  {
    MaskExample();
    ExamplePlan();
    EmptyIsCoherent();
    assert !SafeSegs([Seg("", "X")], "1");
    assert !SafePlan(CUT);
    assert !SafePlan(PObj(["a"], [CUT])) by { assert [CUT][0] == CUT; }
    MaskUnmaskFew(ExampleConfig(), EMPTY, PAYLOAD, FirstTable(), Obj(["a"], [Str(Token(1) + "1")]));
  }

  /** The placeholder and the digit behind it are read as number 11. */
  lemma ReadAsEleven(t: Table)
    requires Coherent(t) && Token(11) in t.byTok
    ensures Unmask(t, Str(Token(1) + "1"), 1) == Ok(EntryValue(t.byTok[Token(11)]))
  {
    var ps, tail := [Piece("", 1, "X")], "1";
    assert ps[1..] == [];
    ElevenIsReadable();
    assert Decimal(1) == "1" && tail[1..] == "" && DigitRun(tail) == 1 && Extra(1, tail) == 1;
    assert tail[..1] == "1" && "1" + "1" == "11" && "11"[..1] == "1" && "1"[..0] == "";
    assert Value("11") == 11;
    assert WriteText(ps, tail) == "" + (Token(1) + "1") == Token(1) + "1";
    assert Original(ps, tail) == "" + ("X" + "1") == "X1";
    CutAnswer(t, ps, tail, 1);
  }

  /** Ten more values in the exchange of the payload: the last one has token 11. */
  lemma MaskNumbers() returns (t: Table)
    ensures Mask(ExampleConfig(), FirstTable(), Arr(Numbers())).0 == t
    ensures Mask(ExampleConfig(), FirstTable(), Arr(Numbers())).1.Ok?
    ensures Coherent(t) && t.n == 11 && Token(11) in t.byTok && t.byTok[Token(11)] == Leaf(Num("9"))
  {
    FirstIsCoherent();
    t := MaskThese(FirstTable(), Numbers());
  }

  lemma FirstIsCoherent()
    ensures Coherent(FirstTable())
  {
    MaskExample();
  }

  lemma MaskThese(first: Table, vs: seq<Json>) returns (t: Table)
    requires first == FirstTable() && Coherent(first) && vs == Numbers()
    ensures Mask(ExampleConfig(), first, Arr(vs)).0 == t && Mask(ExampleConfig(), first, Arr(vs)).1.Ok?
    ensures Coherent(t) && t.n == 11 && Token(11) in t.byTok && t.byTok[Token(11)] == Leaf(Num("9"))
  {
    NumbersPlanned(vs);
    t := FillNumbers(first, vs);
    MaskAsPlanned(ExampleConfig(), first, vs, t);
  }

  lemma MaskAsPlanned(c: Config, first: Table, vs: seq<Json>, t: Table)
    requires PlanOf(c, [], Arr(vs), 0, 0).0 == PArr(Wholes(vs))
    requires FillItems(first, c.maxEntries, Wholes(vs)).0 == t && FillItems(first, c.maxEntries, Wholes(vs)).1.Ok?
    ensures Mask(c, first, Arr(vs)).0 == t && Mask(c, first, Arr(vs)).1.Ok?
  {
  }

  lemma NumbersPlanned(vs: seq<Json>)
    requires vs == Numbers()
    ensures PlanOf(ExampleConfig(), [], Arr(vs), 0, 0).0 == PArr(Wholes(vs))
  {
    NumbersPlan(0);
    assert vs[0..] == vs;
  }

  lemma FillNumbers(first: Table, vs: seq<Json>) returns (t: Table)
    requires first == FirstTable() && Coherent(first) && vs == Numbers()
    ensures FillItems(first, 1024, Wholes(vs)).0 == t && FillItems(first, 1024, Wholes(vs)).1.Ok?
    ensures Coherent(t) && t.n == 11 && Token(11) in t.byTok && t.byTok[Token(11)] == Leaf(Num("9"))
  {
    NumbersDistinct();
    assert AllNew(first, vs);
    FillNew(first, 1024, vs);
    t := FillItems(first, 1024, Wholes(vs)).0;
    FillItemsKeeps(first, 1024, Wholes(vs));
    assert vs[9] == Num(Decimal(9)) && Decimal(9) == "9";
  }

  /** Once ten numbers have been masked in the same exchange, the number 9 comes back for the string X1. */
  lemma WrongValueComesBack()
    ensures var (t, r) := Mask(ExampleConfig(), EMPTY, PAYLOAD);
            var (t', r') := Mask(ExampleConfig(), t, Arr(Numbers()));
            && r.Ok? && r'.Ok? && t'.n == 11
            && Unmask(t', r.value, 0) == Ok(Obj(["a"], [Num("9")]))
  {
    MaskExample();
    var t := MaskNumbers();
    ReadAsEleven(t);
    UnmaskMember(t, Str(Token(1) + "1"), Num("9"));
  }

  lemma UnmaskMember(t: Table, m: Json, v: Json)
    requires Unmask(t, m, 1) == Ok(v)
    ensures Unmask(t, Obj(["a"], [m]), 0) == Ok(Obj(["a"], [v]))
  {
    assert [m][1..] == [] && [v] + [] == [v];
    assert UnmaskItems(t, [], 0) == Ok([]);
    assert UnmaskItems(t, [m], 0) == Ok([v]);
  }

  lemma ElevenIsReadable()
    ensures 11 < Pow10(9)
  {
    assert Pow10(1) == 10 && Pow10(2) == 10 * Pow10(1);
    assert Pow10(9) == 10 * Pow10(8) && Pow10(8) == 10 * Pow10(7);
    Pow10Positive(7);
  }
}
