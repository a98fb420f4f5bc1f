/**
  Masking as the decoder drives it, leaf by leaf.  Arrays and objects only add punctuation, so what a masking does
  to the table is told by the leaves it meets, even when the input turns out not to be JSON after all.
*/
module AnoLeaves {
  import opened Basics
  import opened AnoVault
  import opened Anonymiser
  import AnoRules
  import AnoScript
  import AnoMethods

  /** A string or number, with the path at which it was met. */
  datatype Met = Met(path: AnoRules.Path, text: string, quoted: bool)
  {
    function Value(): Json { if quoted then Str(text) else Num(text) }
  }

  /** The table after these leaves, and the classifier's count, or the first refusal. */
  function FillLeaves(c: Config, t: Table, leaves: seq<Met>, calls: nat): (Table, Result<nat, Error>)
    decreases |leaves|
  {
    if leaves == [] then (t, Ok(calls)) else
    var (p, n) := LeafPlan(c, leaves[0].path, leaves[0].Value(), calls);
    var (t1, r) := Fill(t, c.maxEntries, p);
    if r.Err? then (t1, Err(r.error)) else FillLeaves(c, t1, leaves[1..], n)
  }

  /** The leaves of a document, in order. */
  function LeavesOf(path: AnoRules.Path, v: Json): seq<Met>
    decreases v, 0, 0
  {
    match v
    case Num(text) => [Met(path, text, false)]
    case Str(text) => [Met(path, text, true)]
    case Arr(items) => ItemLeaves(path, v, items, 0)
    case Obj(_, items) => ItemLeaves(path, v, items, 0)
    case _ => []
  }

  function ItemLeaves(path: AnoRules.Path, v: Json, items: seq<Json>, i: nat): seq<Met>
    requires i <= |items|
    decreases items, 1, |items| - i
  {
    if i == |items| then []
    else LeavesOf(path + [Segment(v, i)], items[i]) + ItemLeaves(path, v, items, i + 1)
  }

  predicate Shallow(v: Json, depth: nat)
    decreases v
  {
    depth <= MAX_DEPTH &&
    match v
    case Arr(items) => forall i :: 0 <= i < |items| ==> Shallow(items[i], depth + 1)
    case Obj(_, items) => forall i :: 0 <= i < |items| ==> Shallow(items[i], depth + 1)
    case _ => true
  }

  lemma {:induction false} FillLeavesConcat(c: Config, t: Table, a: seq<Met>, b: seq<Met>, calls: nat)
    ensures var (t1, r) := FillLeaves(c, t, a, calls);
            FillLeaves(c, t, a + b, calls) == if r.Err? then (t1, r) else FillLeaves(c, t1, b, r.value)
    decreases |a|
  {
    if a == [] {
      assert a + b == b;
    } else {
      var (p, n) := LeafPlan(c, a[0].path, a[0].Value(), calls);
      var (t1, r) := Fill(t, c.maxEntries, p);
      assert (a + b)[0] == a[0] && (a + b)[1..] == a[1..] + b;
      if r.Ok? { FillLeavesConcat(c, t1, a[1..], b, n); }
    }
  }

  /** The same table and the same refusal, with the count if there is none. */
  ghost predicate SameEffect<T>(leaves: (Table, Result<nat, Error>), whole: (Table, Result<T, Error>), calls: nat) {
    leaves == (whole.0, if whole.1.Err? then Err(whole.1.error) else Ok(calls))
  }

  /** Masking a document does to the table what its leaves do, one by one. */
  lemma {:induction false} LeavesMask(c: Config, t: Table, path: AnoRules.Path, v: Json, calls: nat, depth: nat)
    requires Shallow(v, depth)
    ensures var (p, n) := PlanOf(c, path, v, calls, depth);
            SameEffect(FillLeaves(c, t, LeavesOf(path, v), calls), Fill(t, c.maxEntries, p), n)
    decreases v, 0, 0
  {
    match v {
      case Num(text) => OneLeaf(c, t, Met(path, text, false), calls);
      case Str(text) => OneLeaf(c, t, Met(path, text, true), calls);
      case Arr(items) => ItemsMask(c, t, path, v, items, 0, calls, depth);
      case Obj(_, items) => ItemsMask(c, t, path, v, items, 0, calls, depth);
      case _ =>
    }
  }

  lemma OneLeaf(c: Config, t: Table, leaf: Met, calls: nat)
    ensures var (p, n) := LeafPlan(c, leaf.path, leaf.Value(), calls);
            SameEffect(FillLeaves(c, t, [leaf], calls), Fill(t, c.maxEntries, p), n)
  {
    assert [leaf][1..] == [];
  }

  lemma {:induction false} ItemsMask(c: Config, t: Table, path: AnoRules.Path, v: Json, items: seq<Json>, i: nat,
                                     calls: nat, depth: nat)
    requires i <= |items| && forall k :: 0 <= k < |items| ==> Shallow(items[k], depth + 1)
    ensures SameEffect(FillLeaves(c, t, ItemLeaves(path, v, items, i), calls),
                       AnoMethods.FillFrom(c, t, path, v, items, i, calls, depth),
                       PlanItems(c, path, v, items, i, calls, depth).1)
    decreases items, 1, |items| - i
  {
    if i < |items| {
      var here := path + [Segment(v, i)];
      var (p, n) := PlanOf(c, here, items[i], calls, depth + 1);
      LeavesMask(c, t, here, items[i], calls, depth + 1);
      FillLeavesConcat(c, t, LeavesOf(here, items[i]), ItemLeaves(path, v, items, i + 1), calls);
      AnoMethods.FillFromStep(c, t, path, v, items, i, calls, depth);
      var (t1, r) := Fill(t, c.maxEntries, p);
      if r.Ok? { ItemsMask(c, t1, path, v, items, i + 1, n, depth); }
    }
  }

  /** Input that stops being JSON after these leaves: they are masked, and then it is refused. */
  function MaskBroken(c: Config, t: Table, leaves: seq<Met>): (Table, Error) {
    var (t1, r) := FillLeaves(c, t, leaves, 0);
    (t1, if r.Err? then r.error else Unparsable)
  }

  /** It leaves the table in order, with nothing forgotten. */
  lemma {:induction false} LeavesKeep(c: Config, t: Table, leaves: seq<Met>, calls: nat)
    requires Coherent(t)
    ensures var t' := FillLeaves(c, t, leaves, calls).0; Coherent(t') && Extends(t, t')
    decreases |leaves|
  {
    if leaves != [] {
      var (p, n) := LeafPlan(c, leaves[0].path, leaves[0].Value(), calls);
      AnoScript.FillKeeps(t, c.maxEntries, p);
      var (t1, r) := Fill(t, c.maxEntries, p);
      if r.Ok? { LeavesKeep(c, t1, leaves[1..], n); }
    }
  }

  /** The loop over the leaves, up to the point where the decoder gives up. */
  method MaskLeaves(c: Config, ex: Exchange, leaves: seq<Met>) returns (e: Error)
    modifies ex
    ensures (ex.Abs(), e) == MaskBroken(c, old(ex.Abs()), leaves)
  {
    var calls := 0;
    ghost var all := FillLeaves(c, ex.Abs(), leaves, 0);
    assert leaves[0..] == leaves;
    for i := 0 to |leaves|
      invariant all == FillLeaves(c, ex.Abs(), leaves[i..], calls)
    {
      assert leaves[i..][0] == leaves[i] && leaves[i..][1..] == leaves[i + 1..];
      var r;
      r, calls := AnoMethods.MaskLeaf(c, ex, leaves[i].path, leaves[i].Value(), calls);
      if r.Err? { return r.error; }
    }
    e := Unparsable;
  }
}
