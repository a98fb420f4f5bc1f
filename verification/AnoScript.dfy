/**
  What a masking writes.  It interns the values of its plan one by one and puts their tokens into the plan; the
  script is the plan together with the numbers of these tokens.
*/
module AnoScript {
  import opened Basics
  import opened AnoText
  import opened AnoVault
  import opened Anonymiser

  // ---------------------------------------------------------------------------------------------
  // Masking keeps the table
  // ---------------------------------------------------------------------------------------------

  lemma KeyStays(t: Table, t': Table, e: Entry)
    requires Coherent(t) && Coherent(t') && Extends(t, t') && e in t.byKey
    ensures e in t'.byKey && t'.byKey[e] == t.byKey[e]
  {
    var tok := t.byKey[e];
    assert t.byTok[tok] == e;
    assert t'.byTok[tok] == e;
  }

  lemma InternKnows(t: Table, e: Entry, max: nat, t1: Table, tok: string)
    requires Coherent(t) && Intern(t, e, max) == (t1, Some(tok))
    ensures Coherent(t1) && Extends(t, t1) && e in t1.byKey && t1.byKey[e] == tok
  {
    InternKeeps(t, e, max);
  }

  lemma {:induction false} FillSegsKeeps(t: Table, max: nat, segs: seq<Seg>, tail: string)
    requires Coherent(t)
    ensures Coherent(FillSegs(t, max, segs, tail).0) && Extends(t, FillSegs(t, max, segs, tail).0)
    decreases |segs|
  {
    if segs != [] {
      var e := Entry.Span(segs[0].hole);
      InternKeeps(t, e, max);
      var (t1, tok) := Intern(t, e, max);
      if tok.Some? { FillSegsKeeps(t1, max, segs[1..], tail); }
    }
  }

  lemma {:induction false} FillKeeps(t: Table, max: nat, p: Plan)
    requires Coherent(t)
    ensures Coherent(Fill(t, max, p).0) && Extends(t, Fill(t, max, p).0)
    decreases p, 0
  {
    match p {
      case Whole(v) => InternKeeps(t, Leaf(v), max);
      case Cut(segs, tail) => FillSegsKeeps(t, max, segs, tail);
      case PArr(items) => FillItemsKeeps(t, max, items);
      case PObj(_, items) => FillItemsKeeps(t, max, items);
      case _ =>
    }
  }

  lemma {:induction false} FillItemsKeeps(t: Table, max: nat, ps: seq<Plan>)
    requires Coherent(t)
    ensures Coherent(FillItems(t, max, ps).0) && Extends(t, FillItems(t, max, ps).0)
    decreases ps, 1
  {
    if ps != [] {
      FillKeeps(t, max, ps[0]);
      var (t1, r) := Fill(t, max, ps[0]);
      if r.Ok? { FillItemsKeeps(t1, max, ps[1..]); }
    }
  }

  // ---------------------------------------------------------------------------------------------
  // Masking value by value
  // ---------------------------------------------------------------------------------------------

  predicate NoFail(p: Plan)
    decreases p
  {
    match p
    case Fail(_) => false
    case PArr(items) => forall i :: 0 <= i < |items| ==> NoFail(items[i])
    case PObj(_, items) => forall i :: 0 <= i < |items| ==> NoFail(items[i])
    case _ => true
  }

  /** The first tokens are those of the first values. */
  ghost predicate Bound(t: Table, hs: seq<Entry>, toks: seq<string>) {
    |toks| <= |hs| && forall i :: 0 <= i < |toks| ==> hs[i] in t.byKey && t.byKey[hs[i]] == toks[i]
  }

  lemma BoundStays(t: Table, t': Table, hs: seq<Entry>, toks: seq<string>)
    requires Coherent(t) && Coherent(t') && Extends(t, t') && Bound(t, hs, toks)
    ensures Bound(t', hs, toks)
  {
    forall i | 0 <= i < |toks| ensures hs[i] in t'.byKey && t'.byKey[hs[i]] == toks[i] { KeyStays(t, t', hs[i]); }
  }

  function PutSegs(segs: seq<Seg>, tail: string, toks: seq<string>): string
    requires |toks| == |segs|
    decreases |segs|
  {
    if segs == [] then tail else segs[0].before + (toks[0] + PutSegs(segs[1..], tail, toks[1..]))
  }

  /** The plan with these tokens written into it, in order. */
  function Put(p: Plan, toks: seq<string>): Json
    requires NoFail(p) && |toks| == |Holes(p)|
    decreases p, 0
  {
    match p
    case Keep(v) => v
    case Whole(_) => Str(toks[0])
    case Cut(segs, tail) =>
      SegHolesAt(segs);
      Str(PutSegs(segs, tail, toks))
    case PArr(items) => Arr(PutItems(items, toks))
    case PObj(names, items) => Obj(names, PutItems(items, toks))
  }

  function PutItems(ps: seq<Plan>, toks: seq<string>): seq<Json>
    requires (forall i :: 0 <= i < |ps| ==> NoFail(ps[i])) && |toks| == |ItemHoles(ps)|
    decreases ps, 1
  {
    if ps == [] then [] else
    var k := |Holes(ps[0])|;
    [Put(ps[0], toks[..k])] + PutItems(ps[1..], toks[k..])
  }

  lemma {:induction false} SegHolesAt(segs: seq<Seg>)
    ensures |SegHoles(segs)| == |segs|
    ensures forall i :: 0 <= i < |segs| ==> SegHoles(segs)[i] == Entry.Span(segs[i].hole)
  {
    if segs != [] { SegHolesAt(segs[1..]); }
  }

  lemma FillSegsCons(t: Table, max: nat, segs: seq<Seg>, tail: string, t': Table, s: string)
    returns (t1: Table, tok: string, rest: string)
    requires segs != [] && FillSegs(t, max, segs, tail) == (t', Some(s))
    ensures Intern(t, Entry.Span(segs[0].hole), max) == (t1, Some(tok))
    ensures FillSegs(t1, max, segs[1..], tail) == (t', Some(rest)) && s == segs[0].before + (tok + rest)
  {
    t1 := Intern(t, Entry.Span(segs[0].hole), max).0;
    tok := Intern(t, Entry.Span(segs[0].hole), max).1.value;
    rest := FillSegs(t1, max, segs[1..], tail).1.value;
  }

  lemma FillItemsCons(t: Table, max: nat, ps: seq<Plan>, t': Table, ms: seq<Json>) returns (t1: Table)
    requires ps != [] && FillItems(t, max, ps) == (t', Ok(ms))
    ensures ms != [] && Fill(t, max, ps[0]) == (t1, Ok(ms[0])) && FillItems(t1, max, ps[1..]) == (t', Ok(ms[1..]))
  {
    t1 := Fill(t, max, ps[0]).0;
  }

  /** The values interned one after the other, with nothing in between. */
  function InternAll(t: Table, max: nat, hs: seq<Entry>): (Table, seq<string>)
    decreases |hs|
  {
    if hs == [] then (t, []) else
    var (t1, tok) := Intern(t, hs[0], max);
    if tok.None? then (t1, []) else
    var (t2, toks) := InternAll(t1, max, hs[1..]);
    (t2, [tok.value] + toks)
  }

  lemma {:induction false} InternAllConcat(t: Table, max: nat, a: seq<Entry>, b: seq<Entry>)
    requires |InternAll(t, max, a).1| == |a|
    ensures var (t1, toks) := InternAll(t, max, a);
            InternAll(t, max, a + b) == (InternAll(t1, max, b).0, toks + InternAll(t1, max, b).1)
    decreases |a|
  {
    if a == [] {
      assert a + b == b && [] + InternAll(t, max, b).1 == InternAll(t, max, b).1;
    } else {
      assert (a + b)[0] == a[0] && (a + b)[1..] == a[1..] + b;
      var (t1, tok) := Intern(t, a[0], max);
      InternAllConcat(t1, max, a[1..], b);
      Regroup(tok.value, InternAll(t1, max, a[1..]).1, InternAll(InternAll(t1, max, a[1..]).0, max, b).1);
    }
  }

  lemma Regroup(x: string, a: seq<string>, b: seq<string>)
    ensures ([x] + a) + b == [x] + (a + b)
  {
  }

  lemma {:induction false} FillSegsInterns(t: Table, max: nat, segs: seq<Seg>, tail: string, t': Table, s: string)
    requires FillSegs(t, max, segs, tail) == (t', Some(s))
    ensures var (t1, toks) := InternAll(t, max, SegHoles(segs));
            t1 == t' && |toks| == |segs| && s == PutSegs(segs, tail, toks)
    decreases |segs|
  {
    if segs != [] {
      var t1, tok, rest := FillSegsCons(t, max, segs, tail, t', s);
      FillSegsInterns(t1, max, segs[1..], tail, t', rest);
      assert SegHoles(segs)[1..] == SegHoles(segs[1..]);
      var toks := InternAll(t1, max, SegHoles(segs[1..])).1;
      assert ([tok] + toks)[1..] == toks;
    }
  }

  /** Masking is interning the plan's values in order and writing their tokens into it. */
  lemma {:induction false} FillInterns(t: Table, max: nat, p: Plan, t': Table, m: Json)
    requires Fill(t, max, p) == (t', Ok(m))
    ensures NoFail(p)
    ensures var (t1, toks) := InternAll(t, max, Holes(p)); t1 == t' && |toks| == |Holes(p)| && m == Put(p, toks)
    decreases p, 0
  {
    match p {
      case Keep(_) =>
      case Whole(v) =>
        var hs := [Leaf(v)];
        assert hs[1..] == [] && InternAll(t, max, hs).1 == [m.text] + [];
      case Cut(segs, tail) =>
        SegHolesAt(segs);
        FillSegsInterns(t, max, segs, tail, t', m.text);
      case PArr(items) => FillItemsIntern(t, max, items, t', m.items);
      case PObj(_, items) => FillItemsIntern(t, max, items, t', m.items);
    }
  }

  lemma {:induction false} FillItemsIntern(t: Table, max: nat, ps: seq<Plan>, t': Table, ms: seq<Json>)
    requires FillItems(t, max, ps) == (t', Ok(ms))
    ensures forall i :: 0 <= i < |ps| ==> NoFail(ps[i])
    ensures var (t1, toks) := InternAll(t, max, ItemHoles(ps));
            t1 == t' && |toks| == |ItemHoles(ps)| && ms == PutItems(ps, toks)
    decreases ps, 1
  {
    if ps != [] {
      var t1 := FillItemsCons(t, max, ps, t', ms);
      FillInterns(t, max, ps[0], t1, ms[0]);
      FillItemsIntern(t1, max, ps[1..], t', ms[1..]);
      assert forall i :: 1 <= i < |ps| ==> ps[i] == ps[1..][i - 1];
      InternAllConcat(t, max, Holes(ps[0]), ItemHoles(ps[1..]));
      var a, b := InternAll(t, max, Holes(ps[0])).1, InternAll(t1, max, ItemHoles(ps[1..])).1;
      assert (a + b)[..|a|] == a && (a + b)[|a|..] == b;
      assert ms == [ms[0]] + ms[1..];
    }
  }

  lemma BoundCons(t: Table, hs: seq<Entry>, tok: string, toks: seq<string>)
    requires hs != [] && hs[0] in t.byKey && t.byKey[hs[0]] == tok && Bound(t, hs[1..], toks)
    ensures Bound(t, hs, [tok] + toks)
  {
    var all := [tok] + toks;
    forall i | 0 <= i < |all| ensures hs[i] in t.byKey && t.byKey[hs[i]] == all[i] {
      if i > 0 { assert hs[i] == hs[1..][i - 1] && all[i] == toks[i - 1]; }
    }
  }

  /** The tokens are bound to the values they were interned for. */
  lemma {:induction false} InternAllBinds(t: Table, max: nat, hs: seq<Entry>)
    requires Coherent(t)
    ensures var (t', toks) := InternAll(t, max, hs); Coherent(t') && Extends(t, t') && Bound(t', hs, toks)
    decreases |hs|
  {
    if hs != [] {
      var (t1, tok) := Intern(t, hs[0], max);
      InternKeeps(t, hs[0], max);
      if tok.Some? {
        InternAllBinds(t1, max, hs[1..]);
        var (t2, toks) := InternAll(t1, max, hs[1..]);
        KeyStays(t1, t2, hs[0]);
        BoundCons(t2, hs, tok.value, toks);
      }
    }
  }

  // ---------------------------------------------------------------------------------------------
  // Scripts
  // ---------------------------------------------------------------------------------------------

  type Number = n: nat | n >= 1 witness 1

  /** A kept text, and the span behind it with the number of its token. */
  datatype Piece = Piece(before: string, num: Number, hole: string)

  datatype Script =
    | Same(v: Json)
    | Replaced(num: Number, v: Json)
    | Pieced(pieces: seq<Piece>, tail: string)
    | ArrOf(items: seq<Script>)
    | ObjOf(names: seq<string>, items: seq<Script>)

  function WriteText(ps: seq<Piece>, tail: string): string {
    if ps == [] then tail else ps[0].before + (Token(ps[0].num) + WriteText(ps[1..], tail))
  }

  function Write(s: Script): Json
    decreases s, 0
  {
    match s
    case Same(v) => v
    case Replaced(num, _) => Str(Token(num))
    case Pieced(ps, tail) => Str(WriteText(ps, tail))
    case ArrOf(items) => Arr(WriteItems(items))
    case ObjOf(names, items) => Obj(names, WriteItems(items))
  }

  function WriteItems(items: seq<Script>): (vs: seq<Json>)
    ensures |vs| == |items|
    decreases items, 1
  {
    if items == [] then [] else [Write(items[0])] + WriteItems(items[1..])
  }

  /** Every number, with the value it was written for, satisfies `P`. */
  ghost predicate Every(P: (nat, Entry) -> bool, s: Script)
    decreases s
  {
    match s
    case Same(_) => true
    case Replaced(num, v) => P(num, Leaf(v))
    case Pieced(ps, _) => EveryPiece(P, ps)
    case ArrOf(items) => forall i :: 0 <= i < |items| ==> Every(P, items[i])
    case ObjOf(_, items) => forall i :: 0 <= i < |items| ==> Every(P, items[i])
  }

  ghost predicate EveryPiece(P: (nat, Entry) -> bool, ps: seq<Piece>) {
    forall i :: 0 <= i < |ps| ==> P(ps[i].num, Entry.Span(ps[i].hole))
  }

  /** The number stands for the value in this table. */
  ghost function BoundIn(t: Table): (nat, Entry) -> bool {
    (n: nat, e: Entry) => Token(n) in t.byTok && t.byTok[Token(n)] == e
  }

  /** The number is short enough to be recognised. */
  ghost function Short(): (nat, Entry) -> bool { (n: nat, e: Entry) => n < Pow10(9) }

  // The script of a plan

  ghost predicate IsNumbered(tok: string) { exists n: Number :: tok == Token(n) }

  ghost function NumOf(tok: string): (n: Number)
    ensures IsNumbered(tok) ==> tok == Token(n)
  {
    if IsNumbered(tok) then (var n: Number :| tok == Token(n); n) else 1
  }

  ghost function PiecesOf(segs: seq<Seg>, toks: seq<string>): (ps: seq<Piece>)
    requires |toks| == |segs|
    ensures |ps| == |segs|
    ensures forall i :: 0 <= i < |ps| ==> ps[i] == Piece(segs[i].before, NumOf(toks[i]), segs[i].hole)
  {
    seq(|segs|, i requires 0 <= i < |segs| => Piece(segs[i].before, NumOf(toks[i]), segs[i].hole))
  }

  ghost function Scripted(p: Plan, toks: seq<string>): Script
    requires NoFail(p) && |toks| == |Holes(p)|
    decreases p, 0
  {
    match p
    case Keep(v) => Same(v)
    case Whole(v) => Replaced(NumOf(toks[0]), v)
    case Cut(segs, tail) =>
      SegHolesAt(segs);
      Pieced(PiecesOf(segs, toks), tail)
    case PArr(items) => ArrOf(ScriptedItems(items, toks))
    case PObj(names, items) => ObjOf(names, ScriptedItems(items, toks))
  }

  ghost function ScriptedItems(ps: seq<Plan>, toks: seq<string>): (ss: seq<Script>)
    requires (forall i :: 0 <= i < |ps| ==> NoFail(ps[i])) && |toks| == |ItemHoles(ps)|
    ensures |ss| == |ps|
    decreases ps, 1
  {
    if ps == [] then [] else
    var k := |Holes(ps[0])|;
    [Scripted(ps[0], toks[..k])] + ScriptedItems(ps[1..], toks[k..])
  }

  ghost predicate AreTokens(toks: seq<string>) { forall i :: 0 <= i < |toks| ==> IsNumbered(toks[i]) }

  lemma {:induction false} PiecesWritten(segs: seq<Seg>, tail: string, toks: seq<string>)
    requires |toks| == |segs| && AreTokens(toks)
    ensures WriteText(PiecesOf(segs, toks), tail) == PutSegs(segs, tail, toks)
    decreases |segs|
  {
    if segs != [] {
      PiecesWritten(segs[1..], tail, toks[1..]);
      assert PiecesOf(segs, toks)[1..] == PiecesOf(segs[1..], toks[1..]);
      assert IsNumbered(toks[0]);
    }
  }

  /** The script is written as the plan with the tokens put into it. */
  lemma {:induction false} ScriptedWritten(p: Plan, toks: seq<string>)
    requires NoFail(p) && |toks| == |Holes(p)| && AreTokens(toks)
    ensures Write(Scripted(p, toks)) == Put(p, toks)
    decreases p, 0
  {
    match p {
      case Keep(_) =>
      case Whole(_) => assert IsNumbered(toks[0]);
      case Cut(segs, tail) =>
        SegHolesAt(segs);
        PiecesWritten(segs, tail, toks);
      case PArr(items) => ScriptedItemsWritten(items, toks);
      case PObj(_, items) => ScriptedItemsWritten(items, toks);
    }
  }

  lemma {:induction false} ScriptedItemsWritten(ps: seq<Plan>, toks: seq<string>)
    requires (forall i :: 0 <= i < |ps| ==> NoFail(ps[i])) && |toks| == |ItemHoles(ps)| && AreTokens(toks)
    ensures WriteItems(ScriptedItems(ps, toks)) == PutItems(ps, toks)
    decreases ps, 1
  {
    if ps != [] {
      var k := |Holes(ps[0])|;
      ScriptedWritten(ps[0], toks[..k]);
      ScriptedItemsWritten(ps[1..], toks[k..]);
      var ss := ScriptedItems(ps, toks);
      assert ss[0] == Scripted(ps[0], toks[..k]) && ss[1..] == ScriptedItems(ps[1..], toks[k..]);
    }
  }

  /** What holds of every token and its value holds of the script. */
  ghost predicate EveryToken(P: (nat, Entry) -> bool, hs: seq<Entry>, toks: seq<string>) {
    |toks| == |hs| && forall i :: 0 <= i < |toks| ==> P(NumOf(toks[i]), hs[i])
  }

  lemma {:induction false} ScriptedEvery(P: (nat, Entry) -> bool, p: Plan, toks: seq<string>)
    requires NoFail(p) && EveryToken(P, Holes(p), toks)
    ensures Every(P, Scripted(p, toks))
    decreases p, 0
  {
    match p {
      case Keep(_) =>
      case Whole(v) => assert Holes(p)[0] == Leaf(v);
      case Cut(segs, tail) =>
        SegHolesAt(segs);
        assert forall i :: 0 <= i < |segs| ==> P(NumOf(toks[i]), Holes(p)[i]);
      case PArr(items) => ScriptedItemsEvery(P, items, toks);
      case PObj(_, items) => ScriptedItemsEvery(P, items, toks);
    }
  }

  lemma {:induction false} ScriptedItemsEvery(P: (nat, Entry) -> bool, ps: seq<Plan>, toks: seq<string>)
    requires (forall i :: 0 <= i < |ps| ==> NoFail(ps[i])) && EveryToken(P, ItemHoles(ps), toks)
    ensures forall i :: 0 <= i < |ps| ==> Every(P, ScriptedItems(ps, toks)[i])
    decreases ps, 1
  {
    if ps != [] {
      var k := |Holes(ps[0])|;
      SplitTokens(P, Holes(ps[0]), ItemHoles(ps[1..]), toks);
      ScriptedEvery(P, ps[0], toks[..k]);
      ScriptedItemsEvery(P, ps[1..], toks[k..]);
      var ss := ScriptedItems(ps, toks);
      forall i | 0 <= i < |ps| ensures Every(P, ss[i]) {
        if i > 0 { assert ss[i] == ScriptedItems(ps[1..], toks[k..])[i - 1]; }
      }
    }
  }

  lemma SplitTokens(P: (nat, Entry) -> bool, a: seq<Entry>, b: seq<Entry>, toks: seq<string>)
    requires EveryToken(P, a + b, toks)
    ensures EveryToken(P, a, toks[..|a|]) && EveryToken(P, b, toks[|a|..])
  {
    forall i | 0 <= i < |a| ensures P(NumOf(toks[..|a|][i]), a[i]) { assert (a + b)[i] == a[i]; }
    forall i | 0 <= i < |b| ensures P(NumOf(toks[|a|..][i]), b[i]) {
      assert (a + b)[|a| + i] == b[i] && toks[|a|..][i] == toks[|a| + i];
    }
  }

  /** Tokens that a table binds to the values of the plan. */
  lemma BoundTokens(t: Table, hs: seq<Entry>, toks: seq<string>)
    requires Coherent(t) && Bound(t, hs, toks) && |toks| == |hs|
    ensures AreTokens(toks) && EveryToken(BoundIn(t), hs, toks)
    ensures t.n < Pow10(9) ==> EveryToken(Short(), hs, toks)
  {
    forall i | 0 <= i < |toks|
      ensures IsNumbered(toks[i]) && BoundIn(t)(NumOf(toks[i]), hs[i]) && NumOf(toks[i]) <= t.n
    {
      BoundToken(t, hs[i], toks[i]);
    }
  }

  lemma BoundToken(t: Table, e: Entry, tok: string)
    requires Coherent(t) && e in t.byKey && t.byKey[e] == tok
    ensures IsNumbered(tok) && tok in t.byTok && t.byTok[tok] == e && NumOf(tok) <= t.n
  {
    assert IsToken(tok, t.n);
    var i :| 1 <= i <= t.n && tok == Token(i);
    var n: Number := i;
    assert tok == Token(n);
    TokenInjective(NumOf(tok), i);
  }

  /** What was written with tokens of this table. */
  lemma ScriptOfTable(t: Table, p: Plan, toks: seq<string>)
    requires Coherent(t) && NoFail(p) && |toks| == |Holes(p)| && Bound(t, Holes(p), toks)
    ensures Put(p, toks) == Write(Scripted(p, toks)) && Every(BoundIn(t), Scripted(p, toks))
    ensures t.n < Pow10(9) ==> Every(Short(), Scripted(p, toks))
  {
    BoundTokens(t, Holes(p), toks);
    ScriptedWritten(p, toks);
    ScriptedEvery(BoundIn(t), p, toks);
    if t.n < Pow10(9) { ScriptedEvery(Short(), p, toks); }
  }

  /** The script of a masking that succeeded. */
  ghost function MaskScript(c: Config, t: Table, v: Json): Script
    requires Mask(c, t, v).1.Ok?
  {
    var p := PlanOf(c, [], v, 0, 0).0;
    FillInterns(t, c.maxEntries, p, Mask(c, t, v).0, Mask(c, t, v).1.value);
    Scripted(p, InternAll(t, c.maxEntries, Holes(p)).1)
  }

  /** A masking has written its script, and its numbers stand for its values at any later time of the exchange. */
  lemma MaskedIsWritten(c: Config, t: Table, v: Json, later: Table, m: Json)
    requires Coherent(t) && Coherent(later) && Mask(c, t, v).1 == Ok(m) && Extends(Mask(c, t, v).0, later)
    ensures m == Write(MaskScript(c, t, v)) && Every(BoundIn(later), MaskScript(c, t, v))
    ensures later.n < Pow10(9) ==> Every(Short(), MaskScript(c, t, v))
  {
    var p, t' := PlanOf(c, [], v, 0, 0).0, Mask(c, t, v).0;
    FillInterns(t, c.maxEntries, p, t', m);
    InternAllBinds(t, c.maxEntries, Holes(p));
    var toks := InternAll(t, c.maxEntries, Holes(p)).1;
    BoundStays(t', later, Holes(p), toks);
    ScriptOfTable(later, p, toks);
  }
}
