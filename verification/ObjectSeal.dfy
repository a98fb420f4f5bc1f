/**
  The object-capability seal: the canonical byte string that is hashed over a set of (object, field,
  value) triples.  The hash itself is not modelled; what is proved is that its input is canonical.
*/
module ObjectSeal {
  import opened Basics
  import opened Bytes
  import Lex

  const MAX_FIELDS := 64
  const MAX_OBJECT := 1024
  const MAX_FIELD := 255
  const MAX_VALUE := 4096
  const MAX_CELL := 255
  const POLICY_LEN := 32

  /** "TBPO1" in ASCII. */
  const TAG: ByteString := [84, 66, 80, 79, 49]

  datatype Field = Field(object_: ByteString, field: ByteString, value: ByteString)
  {
    predicate InBounds() {
      0 < |object_| <= MAX_OBJECT && 0 < |field| <= MAX_FIELD && |value| <= MAX_VALUE
    }
  }

  datatype SealError = OutOfBounds

  predicate SameKey(a: Field, b: Field) { a.object_ == b.object_ && a.field == b.field }

  /** The order of the canonical sort: object first, then field; the value does not count. */
  predicate Before(a: Field, b: Field) {
    if a.object_ != b.object_ then Lex.Less(a.object_, b.object_) else Lex.Less(a.field, b.field)
  }

  ghost predicate InBounds(cell: ByteString, fields: seq<Field>) {
    0 < |cell| <= MAX_CELL && |fields| <= MAX_FIELDS && forall i :: 0 <= i < |fields| ==> fields[i].InBounds()
  }

  ghost predicate DistinctKeys(fields: seq<Field>) {
    forall i, j :: 0 <= i < j < |fields| ==> !SameKey(fields[i], fields[j])
  }

  // ---------------------------------------------------------------------------------------------
  // The canonical order
  // ---------------------------------------------------------------------------------------------

  lemma BeforeIsStrict(a: Field, b: Field)
    ensures !(Before(a, b) && Before(b, a)) && !(Before(a, b) && SameKey(a, b))
    ensures Before(a, b) || Before(b, a) || SameKey(a, b)
  {
    Lex.LessTotal(a.object_, b.object_);
    Lex.LessTotal(a.field, b.field);
    if Before(a, b) && Before(b, a) {
      if a.object_ != b.object_ {
        Lex.LessTransitive(a.object_, b.object_, a.object_);
        Lex.LessIrreflexive(a.object_);
      } else {
        Lex.LessTransitive(a.field, b.field, a.field);
        Lex.LessIrreflexive(a.field);
      }
    }
    Lex.LessIrreflexive(a.field);
  }

  lemma BeforeTransitive(a: Field, b: Field, c: Field)
    requires Before(a, b) && Before(b, c)
    ensures Before(a, c)
  {
    if a.object_ != b.object_ && b.object_ != c.object_ {
      Lex.LessTransitive(a.object_, b.object_, c.object_);
      Lex.LessIrreflexive(a.object_);
    } else if a.object_ == b.object_ == c.object_ {
      Lex.LessTransitive(a.field, b.field, c.field);
    }
  }

  /** No element stands after one that it should precede. */
  ghost predicate Sorted(s: seq<Field>) { forall i, j :: 0 <= i < j < |s| ==> !Before(s[j], s[i]) }

  function Insert(f: Field, s: seq<Field>): seq<Field> {
    if s == [] || Before(f, s[0]) then [f] + s else [s[0]] + Insert(f, s[1..])
  }

  function Sort(s: seq<Field>): seq<Field> {
    if s == [] then [] else Insert(s[0], Sort(s[1..]))
  }

  lemma {:induction false} InsertContents(f: Field, s: seq<Field>)
    ensures multiset(Insert(f, s)) == multiset(s) + multiset{f}
  {
    if s != [] && !Before(f, s[0]) {
      InsertContents(f, s[1..]);
      assert s == [s[0]] + s[1..];
    }
  }

  lemma {:induction false} SortContents(s: seq<Field>)
    ensures multiset(Sort(s)) == multiset(s)
  {
    if s != [] {
      SortContents(s[1..]);
      InsertContents(s[0], Sort(s[1..]));
      assert s == [s[0]] + s[1..];
    }
  }

  lemma SameMembers(a: seq<Field>, b: seq<Field>, f: Field)
    requires multiset(a) == multiset(b)
    ensures f in a <==> f in b
  {
    assert f in a <==> f in multiset(a);
    assert f in b <==> f in multiset(b);
  }

  /** Every element of the rest follows the head. */
  ghost predicate HeadFirst(h: Field, s: seq<Field>) { forall x :: x in s ==> !Before(x, h) }

  lemma SortedCons(h: Field, s: seq<Field>)
    requires Sorted(s) && HeadFirst(h, s)
    ensures Sorted([h] + s)
  {
  }

  lemma {:induction false} InsertSorted(f: Field, s: seq<Field>)
    requires Sorted(s)
    ensures Sorted(Insert(f, s))
  {
    if s == [] {
    } else if Before(f, s[0]) {
      forall x | x in s ensures !Before(x, f) {
        var i :| 0 <= i < |s| && s[i] == x;
        BeforeIsStrict(x, s[0]);
        if Before(x, f) { BeforeTransitive(x, f, s[0]); }
      }
      SortedCons(f, s);
    } else {
      InsertSorted(f, s[1..]);
      forall x | x in Insert(f, s[1..]) ensures !Before(x, s[0]) {
        InsertContents(f, s[1..]);
        assert x in multiset(Insert(f, s[1..]));
        if x != f {
          var i :| 0 <= i < |s[1..]| && s[1..][i] == x;
          assert s[i + 1] == x;
        }
      }
      SortedCons(s[0], Insert(f, s[1..]));
    }
  }

  lemma {:induction false} SortSorted(s: seq<Field>)
    ensures Sorted(Sort(s))
  {
    if s != [] {
      SortSorted(s[1..]);
      InsertSorted(s[0], Sort(s[1..]));
    }
  }

  lemma RemoveOne(s: seq<Field>, k: nat)
    requires k < |s|
    ensures multiset(s[..k] + s[k + 1..]) == multiset(s) - multiset{s[k]}
  {
    assert s == s[..k] + ([s[k]] + s[k + 1..]);
  }

  lemma HeadApart(h: Field, rest: seq<Field>, b: seq<Field>, f: Field)
    requires DistinctKeys([h] + rest) && multiset(b) == multiset(rest) && f in b
    ensures !SameKey(h, f)
  {
    SameMembers(rest, b, f);
    var j :| 0 <= j < |rest| && rest[j] == f;
    assert ([h] + rest)[0] == h && ([h] + rest)[j + 1] == f;
  }

  lemma DistinctWith(b: seq<Field>, k: nat, b': seq<Field>)
    requires k < |b| && b' == b[..k] + b[k + 1..] && DistinctKeys(b')
    requires forall f :: f in b' ==> !SameKey(b[k], f)
    ensures DistinctKeys(b)
  {
    forall i, j | 0 <= i < j < |b| ensures !SameKey(b[i], b[j]) {
      var i', j' := if i < k then i else i - 1, if j < k then j else j - 1;
      if i != k { assert b[i] == b'[i'] && b[i] in b'; }
      if j != k { assert b[j] == b'[j'] && b[j] in b'; }
    }
  }

  /** Sorting neither creates nor removes a repeated key. */
  lemma {:induction false} DistinctPermutes(a: seq<Field>, b: seq<Field>)
    requires multiset(a) == multiset(b) && DistinctKeys(a)
    ensures DistinctKeys(b)
  {
    if a != [] {
      SameMembers(a, b, a[0]);
      var k :| 0 <= k < |b| && b[k] == a[0];
      var b' := b[..k] + b[k + 1..];
      RemoveOne(b, k);
      TailContents(a);
      TailDistinct(a);
      DistinctPermutes(a[1..], b');
      assert a == [a[0]] + a[1..];
      forall f | f in b' ensures !SameKey(b[k], f) {
        HeadApart(a[0], a[1..], b', f);
      }
      DistinctWith(b, k, b');
    } else {
      assert |multiset(b)| == 0;
    }
  }

  lemma SameHead(a: seq<Field>, b: seq<Field>)
    requires a != [] && b != [] && Sorted(a) && Sorted(b) && DistinctKeys(a) && multiset(a) == multiset(b)
    ensures a[0] == b[0]
  {
    SameMembers(a, b, a[0]);
    SameMembers(a, b, b[0]);
    var k :| 0 <= k < |b| && b[k] == a[0];
    var m :| 0 <= m < |a| && a[m] == b[0];
    BeforeIsStrict(a[0], b[0]);
  }

  lemma TailSorted(a: seq<Field>)
    requires a != [] && Sorted(a)
    ensures Sorted(a[1..])
  {
    forall i, j | 0 <= i < j < |a| - 1 ensures !Before(a[1..][j], a[1..][i]) {
      assert !Before(a[j + 1], a[i + 1]);
    }
  }

  lemma TailContents(a: seq<Field>)
    requires a != []
    ensures multiset(a[1..]) == multiset(a) - multiset{a[0]}
  {
    assert a == [a[0]] + a[1..];
  }

  lemma TailDistinct(a: seq<Field>)
    requires a != [] && DistinctKeys(a)
    ensures DistinctKeys(a[1..])
  {
    forall i, j | 0 <= i < j < |a| - 1 ensures !SameKey(a[1..][i], a[1..][j]) {
      assert a[1..][i] == a[i + 1] && a[1..][j] == a[j + 1];
    }
  }

  /** Lists without repeated keys that hold the same fields are equal once sorted. */
  lemma {:induction false} SortedUnique(a: seq<Field>, b: seq<Field>)
    requires Sorted(a) && Sorted(b) && DistinctKeys(a) && multiset(a) == multiset(b)
    ensures a == b
  {
    assert |a| == |multiset(a)| && |b| == |multiset(b)|;
    if a != [] {
      SameHead(a, b);
      TailSorted(a);
      TailSorted(b);
      TailDistinct(a);
      TailContents(a);
      TailContents(b);
      SortedUnique(a[1..], b[1..]);
      assert a == [a[0]] + a[1..] && b == [b[0]] + b[1..];
    }
  }

  // ---------------------------------------------------------------------------------------------
  // The canonical bytes
  // ---------------------------------------------------------------------------------------------

  function Prefixed(a: ByteString, width: nat): ByteString { BigEndian(|a|, width) + a }

  function EncodeField(f: Field): ByteString {
    Prefixed(f.object_, 2) + (Prefixed(f.field, 2) + Prefixed(f.value, 4))
  }

  function EncodeFields(s: seq<Field>): ByteString {
    if s == [] then [] else EncodeField(s[0]) + EncodeFields(s[1..])
  }

  function Header(cell: ByteString, policy: ByteString, n: nat): ByteString
    requires |cell| <= MAX_CELL
  {
    TAG + [|cell|] + cell + policy + BigEndian(n, 2)
  }

  /** What is hashed. */
  function Preimage(cell: ByteString, policy: ByteString, fields: seq<Field>): ByteString
    requires |cell| <= MAX_CELL
  {
    Header(cell, policy, |fields|) + EncodeFields(Sort(fields))
  }

  /** In a sorted list a repeated key shows as two equal neighbours. */
  method NoRepeatedKey(sorted: seq<Field>) returns (ok: bool)
    requires Sorted(sorted)
    ensures ok <==> DistinctKeys(sorted)
  {
    var i := 1;
    while i < |sorted|
      invariant 1 <= i && (i <= |sorted| || sorted == [])
      invariant forall j, k :: 0 <= j < k < i && k < |sorted| ==> Before(sorted[j], sorted[k])
    {
      if SameKey(sorted[i - 1], sorted[i]) { return false; }
      BeforeIsStrict(sorted[i], sorted[i - 1]);
      forall j | 0 <= j < i - 1 ensures Before(sorted[j], sorted[i]) {
        BeforeTransitive(sorted[j], sorted[i - 1], sorted[i]);
      }
      i := i + 1;
    }
    forall j, k | 0 <= j < k < |sorted| ensures !SameKey(sorted[j], sorted[k]) { BeforeIsStrict(sorted[j], sorted[k]); }
    ok := true;
  }

  method WriteFields(header: ByteString, sorted: seq<Field>) returns (out: ByteString)
    ensures out == header + EncodeFields(sorted)
  {
    out := header;
    for i := 0 to |sorted|
      invariant out + EncodeFields(sorted[i..]) == header + EncodeFields(sorted)
    {
      assert sorted[i..][0] == sorted[i] && sorted[i..][1..] == sorted[i + 1..];
      out := out + EncodeField(sorted[i]);
    }
  }

  /** The hash input, or the refusal of an out-of-bounds or ambiguous one; the caller's list is left alone. */
  method ComputeObjectSeal(cell: ByteString, policy: ByteString, fields: seq<Field>)
    returns (r: Result<ByteString, SealError>)
    requires |policy| == POLICY_LEN
    ensures r.Ok? <==> InBounds(cell, fields) && DistinctKeys(fields)
    ensures r.Ok? ==> r.value == Preimage(cell, policy, fields)
  {
    if |cell| == 0 || |cell| > MAX_CELL { return Err(OutOfBounds); }
    if |fields| > MAX_FIELDS { return Err(OutOfBounds); }
    for i := 0 to |fields|
      invariant forall k :: 0 <= k < i ==> fields[k].InBounds()
    {
      if !fields[i].InBounds() { return Err(OutOfBounds); }
    }
    SortSorted(fields);
    SortedLength(fields);
    var sorted := Sort(fields);
    var ok := NoRepeatedKey(sorted);
    SortKeepsDistinct(fields);
    if !ok { return Err(OutOfBounds); }
    var out := WriteFields(Header(cell, policy, |sorted|), sorted);
    r := Ok(out);
  }

  lemma SortedLength(fields: seq<Field>)
    ensures |Sort(fields)| == |fields|
  {
    SortContents(fields);
    assert |Sort(fields)| == |multiset(Sort(fields))| == |multiset(fields)|;
  }

  lemma SortKeepsDistinct(fields: seq<Field>)
    ensures DistinctKeys(Sort(fields)) <==> DistinctKeys(fields)
  {
    SortContents(fields);
    if DistinctKeys(fields) { DistinctPermutes(fields, Sort(fields)); }
    if DistinctKeys(Sort(fields)) { DistinctPermutes(Sort(fields), fields); }
  }

  // ---------------------------------------------------------------------------------------------
  // Canonicity
  // ---------------------------------------------------------------------------------------------

  lemma PrefixedSplit(a: ByteString, r: ByteString, b: ByteString, s: ByteString, width: nat)
    requires |a| < Pow256(width) && |b| < Pow256(width)
    requires Prefixed(a, width) + r == Prefixed(b, width) + s
    ensures a == b && r == s
  {
    assert Prefixed(a, width) + r == BigEndian(|a|, width) + (a + r);
    assert Prefixed(b, width) + s == BigEndian(|b|, width) + (b + s);
    SplitEqual(BigEndian(|a|, width), a + r, BigEndian(|b|, width), b + s);
    BigEndianInjective(|a|, |b|, width);
    SplitEqual(a, r, b, s);
  }

  /** A length-prefixed field can be read off the front of a byte string in one way only. */
  lemma FieldPrefix(f: Field, r: ByteString, g: Field, s: ByteString)
    requires f.InBounds() && g.InBounds() && EncodeField(f) + r == EncodeField(g) + s
    ensures f == g && r == s
  {
    Widths();
    var f1, g1 := Prefixed(f.value, 4) + r, Prefixed(g.value, 4) + s;
    FieldAssoc(f, r);
    FieldAssoc(g, s);
    PrefixedSplit(f.object_, Prefixed(f.field, 2) + f1, g.object_, Prefixed(g.field, 2) + g1, 2);
    PrefixedSplit(f.field, f1, g.field, g1, 2);
    PrefixedSplit(f.value, r, g.value, s, 4);
  }

  lemma FieldAssoc(f: Field, r: ByteString)
    ensures EncodeField(f) + r == Prefixed(f.object_, 2) + (Prefixed(f.field, 2) + (Prefixed(f.value, 4) + r))
  {
    var a, b, c := Prefixed(f.object_, 2), Prefixed(f.field, 2), Prefixed(f.value, 4);
    assert (a + (b + c)) + r == a + (b + (c + r));
  }

  lemma {:induction false} FieldsInjective(a: seq<Field>, b: seq<Field>)
    requires |a| == |b| && (forall i :: 0 <= i < |a| ==> a[i].InBounds() && b[i].InBounds())
    requires EncodeFields(a) == EncodeFields(b)
    ensures a == b
  {
    if a != [] {
      FieldPrefix(a[0], EncodeFields(a[1..]), b[0], EncodeFields(b[1..]));
      FieldsInjective(a[1..], b[1..]);
      assert a == [a[0]] + a[1..] && b == [b[0]] + b[1..];
    }
  }

  lemma HeaderInjective(c1: ByteString, p1: ByteString, n1: nat, r1: ByteString, c2: ByteString, p2: ByteString,
                        n2: nat, r2: ByteString)
    requires |c1| <= MAX_CELL && |c2| <= MAX_CELL && |p1| == |p2| == POLICY_LEN && n1 <= MAX_FIELDS && n2 <= MAX_FIELDS
    requires Header(c1, p1, n1) + r1 == Header(c2, p2, n2) + r2
    ensures c1 == c2 && p1 == p2 && n1 == n2 && r1 == r2
  {
    Widths();
    var s1, s2 := BigEndian(n1, 2) + r1, BigEndian(n2, 2) + r2;
    assert Header(c1, p1, n1) + r1 == (TAG + [|c1|]) + (c1 + (p1 + s1));
    assert Header(c2, p2, n2) + r2 == (TAG + [|c2|]) + (c2 + (p2 + s2));
    SplitEqual(TAG + [|c1|], c1 + (p1 + s1), TAG + [|c2|], c2 + (p2 + s2));
    assert (TAG + [|c1|])[5] == |c1| && (TAG + [|c2|])[5] == |c2|;
    SplitEqual(c1, p1 + s1, c2, p2 + s2);
    SplitEqual(p1, s1, p2, s2);
    SplitEqual(BigEndian(n1, 2), r1, BigEndian(n2, 2), r2);
    BigEndianInjective(n1, n2, 2);
  }

  lemma SortedInBounds(fields: seq<Field>)
    requires forall i :: 0 <= i < |fields| ==> fields[i].InBounds()
    ensures |Sort(fields)| == |fields| && forall i :: 0 <= i < |fields| ==> Sort(fields)[i].InBounds()
  {
    SortContents(fields);
    assert |Sort(fields)| == |multiset(Sort(fields))| == |multiset(fields)|;
    forall i | 0 <= i < |fields| ensures Sort(fields)[i].InBounds() {
      SameMembers(Sort(fields), fields, Sort(fields)[i]);
      var k :| 0 <= k < |fields| && fields[k] == Sort(fields)[i];
    }
  }

  /**
    The seal is canonical: two calls hash the same bytes exactly when they name the same cell, the same
    policy and the same fields, in whatever order the fields were given.
  */
  lemma SealIsCanonical(c1: ByteString, p1: ByteString, f1: seq<Field>, c2: ByteString, p2: ByteString, f2: seq<Field>)
    requires InBounds(c1, f1) && InBounds(c2, f2) && |p1| == |p2| == POLICY_LEN && DistinctKeys(f1) && DistinctKeys(f2)
    ensures Preimage(c1, p1, f1) == Preimage(c2, p2, f2) <==> c1 == c2 && p1 == p2 && multiset(f1) == multiset(f2)
  {
    SortContents(f1);
    SortContents(f2);
    if Preimage(c1, p1, f1) == Preimage(c2, p2, f2) {
      HeaderInjective(c1, p1, |f1|, EncodeFields(Sort(f1)), c2, p2, |f2|, EncodeFields(Sort(f2)));
      SortedInBounds(f1);
      SortedInBounds(f2);
      FieldsInjective(Sort(f1), Sort(f2));
    }
    if c1 == c2 && p1 == p2 && multiset(f1) == multiset(f2) {
      SortSorted(f1);
      SortSorted(f2);
      DistinctPermutes(f1, Sort(f1));
      SortedUnique(Sort(f1), Sort(f2));
      assert |f1| == |multiset(f1)| == |multiset(f2)| == |f2|;
    }
  }
}
