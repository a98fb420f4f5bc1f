/**
  The detection rules of the anonymiser: which paths are kept or masked, and which spans of a text the
  patterns select.  A pattern engine is represented by the list of matches it reports.
*/
module AnoRules {
  import opened Basics

  type Path = seq<string>
  datatype Verdict = NoRule | Keep | Mask

  // ---------------------------------------------------------------------------------------------
  // Path rules
  // ---------------------------------------------------------------------------------------------

  /** The rule is a prefix of the path; a star stands for any one segment. */
  predicate Covers(rule: Path, path: Path) {
    |rule| <= |path| && forall i :: 0 <= i < |rule| ==> rule[i] == "*" || rule[i] == path[i]
  }

  /** The length of the longest rule that covers the path, or -1. */
  function LongestCover(rules: seq<Path>, path: Path): int {
    if rules == [] then -1 else
    var n := |rules| - 1;
    Max(LongestCover(rules[..n], path), if Covers(rules[n], path) then |rules[n]| else -1)
  }

  function Decide(keep: seq<Path>, mask: seq<Path>, path: Path): Verdict {
    var k, m := LongestCover(keep, path), LongestCover(mask, path);
    if m >= 0 && m >= k then Mask else if k >= 0 then Keep else NoRule
  }

  method MatchLen(rule: Path, path: Path) returns (l: int)
    ensures l == if Covers(rule, path) then |rule| else -1
  {
    if |rule| > |path| { return -1; }
    for i := 0 to |rule|
      invariant forall j :: 0 <= j < i ==> rule[j] == "*" || rule[j] == path[j]
    {
      if rule[i] != "*" && rule[i] != path[i] { return -1; }
    }
    l := |rule|;
  }

  method BestMatch(rules: seq<Path>, path: Path) returns (best: int)
    ensures best == LongestCover(rules, path)
  {
    best := -1;
    for i := 0 to |rules|
      invariant best == LongestCover(rules[..i], path)
    {
      assert rules[..i + 1][..i] == rules[..i];
      var l := MatchLen(rules[i], path);
      if l > best { best := l; }
    }
    assert rules[..|rules|] == rules;
  }

  method DecidePath(keep: seq<Path>, mask: seq<Path>, path: Path) returns (v: Verdict)
    ensures v == Decide(keep, mask, path)
  {
    var keepLen := BestMatch(keep, path);
    var maskLen := BestMatch(mask, path);
    if maskLen >= 0 && maskLen >= keepLen { return Mask; }
    if keepLen >= 0 { return Keep; }
    v := NoRule;
  }

  lemma {:induction false} LongestCoverIsLongest(rules: seq<Path>, path: Path)
    ensures var l := LongestCover(rules, path);
            && (forall i :: 0 <= i < |rules| && Covers(rules[i], path) ==> |rules[i]| <= l)
            && (l == -1 || exists i :: 0 <= i < |rules| && Covers(rules[i], path) && |rules[i]| == l)
            && l >= -1
  {
    if rules != [] {
      var n := |rules| - 1;
      LongestCoverIsLongest(rules[..n], path);
      assert forall i :: 0 <= i < n ==> rules[..n][i] == rules[i];
    }
  }

  /** The longest prefix wins, and a tie masks: exactly when each verdict is given. */
  lemma DecideMeaning(keep: seq<Path>, mask: seq<Path>, path: Path)
    ensures Decide(keep, mask, path) == Mask <==>
            exists m :: m in mask && Covers(m, path) && forall k :: k in keep && Covers(k, path) ==> |k| <= |m|
    ensures Decide(keep, mask, path) == NoRule <==> forall r :: r in keep + mask ==> !Covers(r, path)
  {
    LongestCoverIsLongest(keep, path);
    LongestCoverIsLongest(mask, path);
  }

  // ---------------------------------------------------------------------------------------------
  // Spans
  // ---------------------------------------------------------------------------------------------

  datatype Span = Span(start: int, end: int)

  /** Earlier start first; at the same start, the longer span first. */
  predicate Less(a: Span, b: Span) {
    if a.start != b.start then a.start < b.start else a.end - a.start > b.end - b.start
  }

  /** Insertion from the back, as the in-place sort does it. */
  function Insert(s: seq<Span>, x: Span): seq<Span> {
    if s == [] || !Less(x, s[|s| - 1]) then s + [x]
    else Insert(s[..|s| - 1], x) + [s[|s| - 1]]
  }

  function Sort(s: seq<Span>): seq<Span> {
    if s == [] then [] else Insert(Sort(s[..|s| - 1]), s[|s| - 1])
  }

  /** Keeps a span when it starts at or after the end of the last one kept. */
  function Thin(s: seq<Span>, last: int): seq<Span> {
    if s == [] then []
    else if s[0].start >= last then [s[0]] + Thin(s[1..], s[0].end)
    else Thin(s[1..], last)
  }

  function InText(s: seq<Span>, n: nat): seq<Span> {
    if s == [] then [] else
    var x := s[|s| - 1];
    InText(s[..|s| - 1], n) + (if 0 <= x.start < x.end <= n then [x] else [])
  }

  /** The spans to mask in a text of length `n`, given everything the patterns matched. */
  function FindSpans(matches: seq<Span>, n: nat): seq<Span> { Thin(Sort(InText(matches, n)), 0) }

  /** Inserts the last element of a sorted prefix into its place, by swapping it backwards. */
  method SwapBack(a: array<Span>, i: nat)
    requires i < a.Length
    modifies a
    ensures a[..i + 1] == Insert(old(a[..i]), old(a[i])) && a[i + 1..] == old(a[i + 1..])
  {
    ghost var s, x := a[..i], a[i];
    var j := i;
    InsertFrom(s, x, i);
    while j > 0 && Less(a[j], a[j - 1])
      invariant j <= i && a[j] == x && a[i + 1..] == old(a[i + 1..])
      invariant forall k :: 0 <= k < j ==> a[k] == s[k]
      invariant forall k :: j < k <= i ==> a[k] == s[k - 1]
      invariant Insert(s, x) == Insert(s[..j], x) + s[j..]
    {
      InsertPast(s, x, j);
      a[j], a[j - 1] := a[j - 1], a[j];
      j := j - 1;
    }
    InsertHere(s, x, j);
    assert a[..i + 1] == s[..j] + [x] + s[j..];
  }

  lemma InsertFrom(s: seq<Span>, x: Span, i: nat)
    requires i == |s|
    ensures Insert(s, x) == Insert(s[..i], x) + s[i..]
  {
    assert s[..i] == s && s[i..] == [];
  }

  lemma InsertPast(s: seq<Span>, x: Span, j: nat)
    requires 0 < j <= |s| && Less(x, s[j - 1])
    ensures Insert(s[..j], x) + s[j..] == Insert(s[..j - 1], x) + s[j - 1..]
  {
    assert s[..j][..j - 1] == s[..j - 1];
    assert [s[j - 1]] + s[j..] == s[j - 1..];
  }

  lemma InsertHere(s: seq<Span>, x: Span, j: nat)
    requires j <= |s| && (j > 0 ==> !Less(x, s[j - 1]))
    ensures Insert(s[..j], x) == s[..j] + [x]
  {
  }

  method SortInPlace(a: array<Span>)
    modifies a
    ensures a[..] == Sort(old(a[..]))
  {
    ghost var s := a[..];
    for i := 0 to a.Length
      invariant a[..i] == Sort(s[..i]) && a[i..] == s[i..]
    {
      assert s[..i + 1][..i] == s[..i] && a[i] == a[i..][0] == s[i];
      assert a[i + 1..] == a[i..][1..] == s[i..][1..] == s[i + 1..];
      SwapBack(a, i);
    }
    assert a[..a.Length] == a[..] && s[..a.Length] == s;
  }

  method CollectSpans(matches: seq<Span>, n: nat) returns (all: seq<Span>)
    ensures all == InText(matches, n)
  {
    all := [];
    for i := 0 to |matches|
      invariant all == InText(matches[..i], n)
    {
      assert matches[..i + 1][..i] == matches[..i];
      var m := matches[i];
      if 0 <= m.start < m.end <= n { all := all + [m]; }
    }
    assert matches[..|matches|] == matches;
  }

  /** All matches of all patterns, filtered, sorted in place and thinned. */
  method SelectSpans(matches: seq<Span>, n: nat) returns (out: seq<Span>)
    ensures out == FindSpans(matches, n)
  {
    var all := CollectSpans(matches, n);
    var a := new Span[|all|](i requires 0 <= i < |all| => all[i]);
    assert a[..] == all;
    SortInPlace(a);
    out := [];
    var last := 0;
    ghost var sorted := a[..];
    for i := 0 to a.Length
      invariant a[..] == sorted
      invariant out + Thin(sorted[i..], last) == Thin(sorted, 0)
    {
      assert sorted[i..][0] == a[i] && sorted[i..][1..] == sorted[i + 1..];
      if a[i].start >= last {
        out := out + [a[i]];
        last := a[i].end;
      }
    }
  }

  ghost predicate Sorted(s: seq<Span>) { forall i, j :: 0 <= i < j < |s| ==> !Less(s[j], s[i]) }

  lemma {:induction false} InsertContents(s: seq<Span>, x: Span)
    ensures multiset(Insert(s, x)) == multiset(s) + multiset{x}
  {
    if s != [] && Less(x, s[|s| - 1]) {
      InsertContents(s[..|s| - 1], x);
      assert s == s[..|s| - 1] + [s[|s| - 1]];
    }
  }

  lemma SortedSnoc(s: seq<Span>, y: Span)
    requires Sorted(s) && forall z :: z in s ==> !Less(y, z)
    ensures Sorted(s + [y])
  {
  }

  lemma {:induction false} InsertSorted(s: seq<Span>, x: Span)
    requires Sorted(s)
    ensures Sorted(Insert(s, x))
  {
    if s == [] || !Less(x, s[|s| - 1]) {
      forall z | z in s ensures !Less(x, z) {
        var i :| 0 <= i < |s| && s[i] == z;
        assert i < |s| - 1 ==> !Less(s[|s| - 1], s[i]);
      }
      SortedSnoc(s, x);
    } else {
      var front, y := s[..|s| - 1], s[|s| - 1];
      InsertSorted(front, x);
      forall z | z in Insert(front, x) ensures !Less(y, z) {
        InsertContents(front, x);
        assert z in multiset(Insert(front, x));
        if z != x { var k :| 0 <= k < |front| && front[k] == z; }
      }
      SortedSnoc(Insert(front, x), y);
    }
  }

  lemma {:induction false} SortSorts(s: seq<Span>)
    ensures Sorted(Sort(s)) && multiset(Sort(s)) == multiset(s)
  {
    if s != [] {
      var front, x := s[..|s| - 1], s[|s| - 1];
      SortSorts(front);
      InsertSorted(Sort(front), x);
      InsertContents(Sort(front), x);
      assert Sort(s) == Insert(Sort(front), x);
      assert multiset(s) == multiset(front) + multiset{x} by { assert s == front + [x]; }
    }
  }

  lemma SameLast(a: seq<Span>, b: seq<Span>)
    requires Sorted(a) && Sorted(b) && multiset(a) == multiset(b) && a != [] && b != []
    ensures a[|a| - 1] == b[|b| - 1]
  {
    var x, y := a[|a| - 1], b[|b| - 1];
    assert x in multiset(b) && y in multiset(a);
    var i :| 0 <= i < |b| && b[i] == x;
    var j :| 0 <= j < |a| && a[j] == y;
  }

  /** The order is total, so a set of matches has only one sorted form. */
  lemma {:induction false} SortedFormUnique(a: seq<Span>, b: seq<Span>)
    requires Sorted(a) && Sorted(b) && multiset(a) == multiset(b)
    ensures a == b
  {
    assert |a| == |multiset(a)| == |multiset(b)| == |b|;
    if a != [] {
      SameLast(a, b);
      var n := |a| - 1;
      SameLastRest(a, b);
      SortedFormUnique(a[..n], b[..n]);
      assert a == a[..n] + [a[n]] && b == b[..n] + [b[n]];
    }
  }

  lemma SameLastRest(a: seq<Span>, b: seq<Span>)
    requires |a| == |b| > 0 && a[|a| - 1] == b[|b| - 1] && multiset(a) == multiset(b)
    ensures multiset(a[..|a| - 1]) == multiset(b[..|b| - 1])
  {
    FrontContents(a);
    FrontContents(b);
  }

  lemma FrontContents(a: seq<Span>)
    requires a != []
    ensures multiset(a[..|a| - 1]) == multiset(a) - multiset{a[|a| - 1]}
  {
    assert a == a[..|a| - 1] + [a[|a| - 1]];
  }

  lemma {:induction false} InTextContents(s: seq<Span>, n: nat, x: Span)
    ensures multiset(InText(s, n))[x] == if 0 <= x.start < x.end <= n then multiset(s)[x] else 0
  {
    if s != [] {
      InTextContents(s[..|s| - 1], n, x);
      assert s == s[..|s| - 1] + [s[|s| - 1]];
    }
  }

  /** The choice does not depend on the order of the patterns, nor on the order in which they matched. */
  lemma SpansOrderIndependent(m1: seq<Span>, m2: seq<Span>, n: nat)
    requires multiset(m1) == multiset(m2)
    ensures FindSpans(m1, n) == FindSpans(m2, n)
  {
    var a, b := InText(m1, n), InText(m2, n);
    forall x ensures multiset(a)[x] == multiset(b)[x] {
      InTextContents(m1, n, x);
      InTextContents(m2, n, x);
    }
    assert multiset(a) == multiset(b);
    SortSorts(a);
    SortSorts(b);
    SortedFormUnique(Sort(a), Sort(b));
  }

  /** Increasing, disjoint, non-empty and inside a text of length `n`, from position `from` on. */
  ghost predicate Disjoint(s: seq<Span>, from: int, n: nat) {
    && (forall i :: 0 <= i < |s| ==> from <= s[i].start < s[i].end <= n)
    && (forall i, j :: 0 <= i < j < |s| ==> s[i].end <= s[j].start)
  }

  ghost predicate StartsUp(s: seq<Span>) { forall i, j :: 0 <= i < j < |s| ==> s[i].start <= s[j].start }

  lemma {:induction false} ThinDisjoint(s: seq<Span>, last: int, n: nat)
    requires forall i :: 0 <= i < |s| ==> 0 <= s[i].start < s[i].end <= n
    ensures Disjoint(Thin(s, last), last, n)
  {
    if s != [] {
      ThinDisjoint(s[1..], s[0].end, n);
      ThinDisjoint(s[1..], last, n);
    }
  }

  lemma {:induction false} ThinSelects(s: seq<Span>, last: int, y: Span)
    requires y in Thin(s, last)
    ensures y in s
  {
    if s != [] && y != s[0] {
      ThinSelects(s[1..], if s[0].start >= last then s[0].end else last, y);
    }
  }

  lemma {:induction false} ThinCovers(s: seq<Span>, last: int, x: Span)
    requires StartsUp(s) && x in s && x.start >= last && x.start < x.end
    ensures exists y :: y in Thin(s, last) && y.start <= x.start < y.end
  {
    var h, rest := s[0], s[1..];
    var i :| 0 <= i < |s| && s[i] == x;
    assert h.start <= x.start;
    if h.start >= last && x.start < h.end {
      assert Thin(s, last)[0] == h;
    } else {
      assert i > 0 && rest[i - 1] == x && StartsUp(rest);
      var l := if h.start >= last then h.end else last;
      ThinCovers(rest, l, x);
      var y :| y in Thin(rest, l) && y.start <= x.start < y.end;
      assert y in Thin(s, last);
    }
  }

  lemma {:induction false} ThinLongest(s: seq<Span>, last: int, x: Span, y: Span)
    requires Sorted(s) && (forall i :: 0 <= i < |s| ==> s[i].start < s[i].end)
    requires x in s && y in Thin(s, last) && x.start == y.start
    ensures x.end <= y.end && y.start >= last
    decreases |s|
  {
    if s[0].start >= last {
      if y != s[0] {
        assert s == [s[0]] + s[1..] && y in Thin(s[1..], s[0].end);
        ThinSelects(s[1..], s[0].end, y);
        if x in s[1..] { ThinLongest(s[1..], s[0].end, x, y); } else { ThinLongest(s[1..], s[0].end, y, y); }
      }
    } else {
      ThinSelects(s[1..], last, y);
      assert s == [s[0]] + s[1..];
      if x in s[1..] { ThinLongest(s[1..], last, x, y); } else { ThinLongest(s[1..], last, y, y); }
    }
  }

  /** Of the matches that start at one place, the longest is chosen. */
  lemma LongestIsChosen(matches: seq<Span>, n: nat, x: Span, y: Span)
    requires x in matches && 0 <= x.start < x.end <= n && y in FindSpans(matches, n) && x.start == y.start
    ensures x.end <= y.end
  {
    var s := Sort(InText(matches, n));
    SortSorts(InText(matches, n));
    SortedContents(matches, n, x);
    forall i | 0 <= i < |s| ensures s[i].start < s[i].end { SortedContents(matches, n, s[i]); }
    ThinLongest(s, 0, x, y);
  }

  lemma SortedContents(matches: seq<Span>, n: nat, x: Span)
    ensures x in Sort(InText(matches, n)) <==> x in matches && 0 <= x.start < x.end <= n
  {
    var a := InText(matches, n);
    SortSorts(a);
    InTextContents(matches, n, x);
    assert x in Sort(a) <==> x in multiset(Sort(a));
    assert x in matches <==> x in multiset(matches);
  }

  /**
    The selection is sound and leaves no match untouched: the chosen spans are disjoint matches inside
    the text, and every match starts inside a chosen one.
  */
  lemma SpansSound(matches: seq<Span>, n: nat)
    ensures Disjoint(FindSpans(matches, n), 0, n)
    ensures forall y :: y in FindSpans(matches, n) ==> y in matches
    ensures forall x :: x in matches && 0 <= x.start < x.end <= n ==>
              exists y :: y in FindSpans(matches, n) && y.start <= x.start < y.end
  {
    var a := InText(matches, n);
    SortSorts(a);
    forall x ensures x in Sort(a) <==> x in matches && 0 <= x.start < x.end <= n { SortedContents(matches, n, x); }
    ThinDisjoint(Sort(a), 0, n);
    forall y | y in FindSpans(matches, n) ensures y in matches { ThinSelects(Sort(a), 0, y); }
    forall x | x in matches && 0 <= x.start < x.end <= n
      ensures exists y :: y in FindSpans(matches, n) && y.start <= x.start < y.end
    {
      ThinCovers(Sort(a), 0, x);
    }
  }
}
