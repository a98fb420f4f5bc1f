/**
  Numbers in exponent notation, written out in full by string arithmetic: what a JSON number such as
  4.1e3 (section 6 of RFC 8259) is worth, without any floating point.
*/
module Exponent {
  import opened Basics
  import opened AnoText

  // ---------------------------------------------------------------------------------------------
  // The pattern ^(-?)([0-9]+)(?:\.([0-9]+))?[eE]([+-]?)0*([0-9]{1,2})$
  // ---------------------------------------------------------------------------------------------

  /** The parts of a matching text; `frac` is empty when there is no point, `sign` is "", "+" or "-". */
  datatype Sci = Sci(neg: bool, whole: string, frac: string, e: char, sign: string, exp: string)
  {
    predicate WellFormed() {
      && whole != "" && AllDigits(whole) && AllDigits(frac) && exp != "" && AllDigits(exp)
      && (e == 'e' || e == 'E') && (sign == "" || sign == "+" || sign == "-")
    }

    function ExpText(): string { [e] + (sign + exp) }

    function FracText(): string { if frac == "" then ExpText() else "." + (frac + ExpText()) }

    function Unsigned(): string { whole + FracText() }

    function Text(): string { if neg then "-" + Unsigned() else Unsigned() }

    /** The exponent, leading zeros and all. */
    function Exp(): int { if sign == "-" then -Value(exp) else Value(exp) }
  }

  /** The exponent part, after the mantissa. */
  function ParseExp(neg: bool, whole: string, frac: string, s: string): Option<Sci> {
    if s == "" || (s[0] != 'e' && s[0] != 'E') then None else
    var t := s[1..];
    var sign := if t != "" && (t[0] == '+' || t[0] == '-') then [t[0]] else "";
    var exp := t[|sign|..];
    if exp == "" || DigitRun(exp) != |exp| then None else Some(Sci(neg, whole, frac, s[0], sign, exp))
  }

  /** From the point on, if there is one. */
  function ParseFrac(neg: bool, whole: string, t: string): Option<Sci> {
    if t != "" && t[0] == '.' then
      var u := t[1..];
      var j := DigitRun(u);
      if j == 0 then None else ParseExp(neg, whole, u[..j], u[j..])
    else ParseExp(neg, whole, "", t)
  }

  function ParseUnsigned(neg: bool, s: string): Option<Sci> {
    var k := DigitRun(s);
    if k == 0 then None else ParseFrac(neg, s[..k], s[k..])
  }

  function ParseSci(text: string): Option<Sci> {
    if text != "" && text[0] == '-' then ParseUnsigned(true, text[1..]) else ParseUnsigned(false, text)
  }

  lemma {:induction false} DigitRunSplits(s: string)
    ensures AllDigits(s[..DigitRun(s)]) && NoDigitFirst(s[DigitRun(s)..])
  {
    if s != "" && IsDigit(s[0]) {
      DigitRunSplits(s[1..]);
      var k := DigitRun(s[1..]);
      assert s[..k + 1] == [s[0]] + s[1..][..k] && s[k + 1..] == s[1..][k..];
    }
  }

  lemma ParseExpSound(neg: bool, whole: string, frac: string, s: string, x: Sci)
    requires ParseExp(neg, whole, frac, s) == Some(x) && whole != "" && AllDigits(whole) && AllDigits(frac)
    ensures x.WellFormed() && x.ExpText() == s && x.neg == neg && x.whole == whole && x.frac == frac
  {
    DigitRunSplits(x.exp);
    assert x.exp[..|x.exp|] == x.exp;
    assert s == [s[0]] + s[1..];
  }

  lemma HeadTail(s: string)
    requires s != ""
    ensures s == [s[0]] + s[1..]
  {
  }

  lemma FracTextOf(x: Sci, u: string, j: nat)
    requires 0 < j <= |u| && x.frac == u[..j] && x.ExpText() == u[j..]
    ensures x.FracText() == "." + u
  {
    assert u == u[..j] + u[j..];
  }

  lemma ParseFracSound(neg: bool, whole: string, t: string, x: Sci)
    requires ParseFrac(neg, whole, t) == Some(x) && whole != "" && AllDigits(whole)
    ensures x.WellFormed() && x.FracText() == t && x.neg == neg && x.whole == whole
  {
    if t != "" && t[0] == '.' {
      var u := t[1..];
      var j := DigitRun(u);
      DigitRunSplits(u);
      ParseExpSound(neg, whole, u[..j], u[j..], x);
      FracTextOf(x, u, j);
      HeadTail(t);
    } else {
      ParseExpSound(neg, whole, "", t, x);
    }
  }

  lemma ParseUnsignedSound(neg: bool, s: string, x: Sci)
    requires ParseUnsigned(neg, s) == Some(x)
    ensures x.WellFormed() && x.Unsigned() == s && x.neg == neg
  {
    var k := DigitRun(s);
    DigitRunSplits(s);
    ParseFracSound(neg, s[..k], s[k..], x);
    UnsignedOf(x, s, k);
  }

  lemma UnsignedOf(x: Sci, s: string, k: nat)
    requires k <= |s| && x.whole == s[..k] && x.FracText() == s[k..]
    ensures x.Unsigned() == s
  {
    assert s == s[..k] + s[k..];
  }

  /** What the parser returns is well formed, and is the text itself. */
  lemma ParseSound(text: string, x: Sci)
    requires ParseSci(text) == Some(x)
    ensures x.WellFormed() && x.Text() == text
  {
    if text != "" && text[0] == '-' {
      ParseUnsignedSound(true, text[1..], x);
      HeadTail(text);
    } else {
      ParseUnsignedSound(false, text, x);
    }
  }

  lemma ParseExpComplete(x: Sci)
    requires x.WellFormed()
    ensures ParseExp(x.neg, x.whole, x.frac, x.ExpText()) == Some(x)
  {
    DigitRunExact(x.exp, "");
    assert x.exp + "" == x.exp;
    assert x.ExpText()[1..] == x.sign + x.exp;
    assert (x.sign + x.exp)[|x.sign|..] == x.exp;
  }

  lemma ParseFracComplete(x: Sci)
    requires x.WellFormed()
    ensures ParseFrac(x.neg, x.whole, x.FracText()) == Some(x)
  {
    ParseExpComplete(x);
    if x.frac != "" { ParsePoint(x.neg, x.whole, x.frac, x.ExpText()); }
  }

  lemma ParsePoint(neg: bool, whole: string, frac: string, rest: string)
    requires frac != "" && AllDigits(frac) && NoDigitFirst(rest)
    ensures ParseFrac(neg, whole, "." + (frac + rest)) == ParseExp(neg, whole, frac, rest)
  {
    var u := frac + rest;
    DigitRunExact(frac, rest);
    assert ("." + u)[1..] == u && u[..|frac|] == frac && u[|frac|..] == rest;
  }

  lemma ParseUnsignedComplete(x: Sci)
    requires x.WellFormed()
    ensures ParseUnsigned(x.neg, x.Unsigned()) == Some(x)
  {
    ParseFracComplete(x);
    var s := x.Unsigned();
    DigitRunExact(x.whole, x.FracText());
    assert s[..|x.whole|] == x.whole && s[|x.whole|..] == x.FracText();
  }

  /** Every well-formed text is parsed back into its parts: the parts are unique. */
  lemma ParseComplete(x: Sci)
    requires x.WellFormed()
    ensures ParseSci(x.Text()) == Some(x)
  {
    ParseUnsignedComplete(x);
    ParseSign(x.neg, x.Unsigned());
    assert x.Unsigned()[0] == x.whole[0];
  }

  lemma ParseSign(neg: bool, s: string)
    requires s != "" && s[0] != '-'
    ensures ParseSci(if neg then "-" + s else s) == ParseUnsigned(neg, s)
  {
    assert ("-" + s)[1..] == s;
  }

  // ---------------------------------------------------------------------------------------------
  // Writing the number out
  // ---------------------------------------------------------------------------------------------

  function Zeros(k: nat): string { seq(k, i => '0') }

  function TrimRight(s: string): string {
    if s != "" && s[|s| - 1] == '0' then TrimRight(s[..|s| - 1]) else s
  }

  function TrimLeft(s: string): string {
    if s != "" && s[0] == '0' then TrimLeft(s[1..]) else s
  }

  /** The digits with the point put where the exponent says, before trimming. */
  function Spread(digits: string, point: int): string {
    if point >= |digits| then digits + Zeros(point - |digits|)
    else if point <= 0 then "0." + Zeros(-point) + digits
    else digits[..point] + "." + digits[point..]
  }

  /** Drops trailing zeros of a fraction, and the point if nothing is left behind it. */
  function TrimFraction(s: string): string {
    if '.' !in s then s else
    var a := TrimRight(s);
    if a != "" && a[|a| - 1] == '.' then a[..|a| - 1] else a
  }

  /** Drops leading zeros, but leaves a digit before the point. */
  function TrimWhole(s: string): string {
    var c := TrimLeft(s);
    if c == "" || c[0] == '.' then "0" + c else c
  }

  function Tidy(s: string): string { TrimWhole(TrimFraction(s)) }

  /** The full decimal notation, for an exponent whose value is at most 99; nothing for any other text. */
  function ExpandExponent(text: string): Option<string> { ExpandParts(ParseSci(text)) }

  function ExpandParts(parts: Option<Sci>): Option<string> {
    match parts
    case None => None
    case Some(x) =>
      if Value(x.exp) > 99 then None
      else
        var body := Tidy(Spread(x.whole + x.frac, |x.whole| + x.Exp()));
        Some(if x.neg then "-" + body else body)
  }

  // ---------------------------------------------------------------------------------------------
  // The result is a plain decimal ...
  // ---------------------------------------------------------------------------------------------

  /** A plain decimal: an optional sign, digits, and a fraction that may be empty. */
  datatype Plain = Plain(neg: bool, whole: string, frac: string)
  {
    function Body(): string { if frac == "" then whole else whole + ("." + frac) }

    function Text(): string { if neg then "-" + Body() else Body() }

    /** No redundant leading zeros, no trailing zeros in the fraction. */
    predicate Canonical() {
      && whole != "" && AllDigits(whole) && AllDigits(frac)
      && (whole[0] != '0' || |whole| == 1)
      && (frac == "" || frac[|frac| - 1] != '0')
    }
  }

  /** Where the digits fall on either side of the point. */
  function SplitWhole(digits: string, point: int): string {
    if point >= |digits| then digits + Zeros(point - |digits|) else if point <= 0 then "0" else digits[..point]
  }

  function SplitFrac(digits: string, point: int): string {
    if point >= |digits| then "" else if point <= 0 then Zeros(-point) + digits else digits[point..]
  }

  function OrZero(s: string): string { if s == "" then "0" else s }

  /** The parts of the expansion, computed side by side instead of in one string. */
  function Expansion(x: Sci): Plain {
    var digits, point := x.whole + x.frac, |x.whole| + x.Exp();
    Plain(x.neg, OrZero(TrimLeft(SplitWhole(digits, point))), TrimRight(SplitFrac(digits, point)))
  }

  lemma {:induction false} TrimRightFacts(s: string)
    ensures |TrimRight(s)| <= |s| && s == TrimRight(s) + Zeros(|s| - |TrimRight(s)|)
    ensures TrimRight(s) == "" || TrimRight(s)[|TrimRight(s)| - 1] != '0'
  {
    if s != "" && s[|s| - 1] == '0' {
      TrimRightFacts(s[..|s| - 1]);
      assert s == s[..|s| - 1] + "0";
    }
  }

  lemma {:induction false} TrimLeftFacts(s: string)
    ensures |TrimLeft(s)| <= |s| && s == Zeros(|s| - |TrimLeft(s)|) + TrimLeft(s)
    ensures TrimLeft(s) == "" || TrimLeft(s)[0] != '0'
  {
    if s != "" && s[0] == '0' {
      TrimLeftFacts(s[1..]);
      assert s == "0" + s[1..];
    }
  }

  lemma TrimRightDigits(s: string)
    requires AllDigits(s)
    ensures AllDigits(TrimRight(s))
  {
    var g := TrimRight(s);
    TrimRightFacts(s);
    assert forall i :: 0 <= i < |g| ==> g[i] == s[i];
  }

  lemma TrimLeftDigits(s: string)
    requires AllDigits(s)
    ensures AllDigits(TrimLeft(s))
  {
    var l := TrimLeft(s);
    TrimLeftFacts(s);
    assert forall i :: 0 <= i < |l| ==> l[i] == s[|s| - |l| + i];
  }

  /** Trimming stops at the point. */
  lemma {:induction false} TrimRightAtPoint(w: string, f: string)
    ensures TrimRight(w + "." + f) == w + "." + TrimRight(f)
  {
    var s := w + "." + f;
    if f == "" {
      assert s[|s| - 1] == '.';
    } else if f[|f| - 1] == '0' {
      assert s[..|s| - 1] == w + "." + f[..|f| - 1];
      TrimRightAtPoint(w, f[..|f| - 1]);
    } else {
      assert s[|s| - 1] == f[|f| - 1];
    }
  }

  lemma {:induction false} TrimLeftPrefix(w: string, rest: string)
    requires NoDigitFirst(rest)
    ensures TrimLeft(w + rest) == TrimLeft(w) + rest
  {
    if w == "" {
      assert w + rest == rest;
      assert TrimLeft(w) + rest == rest;
    } else if w[0] == '0' {
      assert (w + rest)[1..] == w[1..] + rest;
      TrimLeftPrefix(w[1..], rest);
    }
  }

  lemma LastOfFraction(w: string, g: string)
    requires AllDigits(g)
    ensures var a := w + "." + g; a != "" && (a[|a| - 1] == '.' <==> g == "")
  {
    var a := w + "." + g;
    if g != "" { assert a[|a| - 1] == g[|g| - 1]; }
  }

  lemma TrimFractionSplit(w: string, f: string)
    requires AllDigits(f)
    ensures TrimFraction(w + "." + f) == if TrimRight(f) == "" then w else w + ("." + TrimRight(f))
  {
    var s, g := w + "." + f, TrimRight(f);
    assert '.' in s by { assert s[|w|] == '.'; }
    TrimRightAtPoint(w, f);
    TrimRightDigits(f);
    LastOfFraction(w, g);
    DropPoint(w, g);
  }

  lemma DropPoint(w: string, g: string)
    ensures w + "." + g == w + ("." + g)
    ensures g == "" ==> (w + "." + g)[..|w + "." + g| - 1] == w
  {
  }

  lemma TrimWholeSplit(w: string, rest: string)
    requires AllDigits(w) && (rest == "" || rest[0] == '.')
    ensures TrimWhole(w + rest) == OrZero(TrimLeft(w)) + rest
  {
    TrimLeftPrefix(w, rest);
    TrimLeftDigits(w);
    KeepsDigit(TrimLeft(w), rest);
  }

  lemma KeepsDigit(l: string, rest: string)
    requires AllDigits(l) && (rest == "" || rest[0] == '.')
    ensures (if l + rest == "" || (l + rest)[0] == '.' then "0" + (l + rest) else l + rest) == OrZero(l) + rest
  {
    if l == "" { assert l + rest == rest; } else { assert (l + rest)[0] == l[0]; }
  }

  /** The one-string computation of the code and the side-by-side one agree. */
  lemma TidySplit(w: string, f: string)
    requires AllDigits(w) && AllDigits(f)
    ensures Tidy(w + "." + f) == Plain(false, OrZero(TrimLeft(w)), TrimRight(f)).Body()
  {
    var g, o := TrimRight(f), OrZero(TrimLeft(w));
    TrimFractionSplit(w, f);
    if g == "" {
      TrimWholeSplit(w, "");
      assert w + "" == w && o + "" == o;
    } else {
      TrimWholeSplit(w, "." + g);
    }
  }

  lemma TidyWhole(w: string)
    requires AllDigits(w)
    ensures Tidy(w) == Plain(false, OrZero(TrimLeft(w)), "").Body()
  {
    assert '.' !in w;
    TrimWholeSplit(w, "");
    assert w + "" == w && OrZero(TrimLeft(w)) + "" == OrZero(TrimLeft(w));
  }

  lemma TidySpread(digits: string, point: int)
    requires AllDigits(digits)
    ensures Tidy(Spread(digits, point)) ==
            Plain(false, OrZero(TrimLeft(SplitWhole(digits, point))), TrimRight(SplitFrac(digits, point))).Body()
  {
    var w, f := SplitWhole(digits, point), SplitFrac(digits, point);
    SplitDigits(digits, point);
    if point >= |digits| {
      TidyWhole(w);
    } else {
      assert Spread(digits, point) == w + "." + f;
      TidySplit(w, f);
    }
  }

  lemma PartsExpand(x: Sci)
    requires x.WellFormed() && Value(x.exp) <= 99
    ensures ExpandParts(Some(x)) == Some(Expansion(x).Text()) && Expansion(x).Canonical()
  {
    var digits, point := x.whole + x.frac, |x.whole| + x.Exp();
    assert AllDigits(digits);
    TidySpread(digits, point);
    SplitDigits(digits, point);
    CanonicalParts(x.neg, SplitWhole(digits, point), SplitFrac(digits, point));
  }

  /** The text that the code writes is the canonical plain decimal `Expansion`. */
  lemma ExpandIsPlain(x: Sci)
    requires x.WellFormed() && Value(x.exp) <= 99
    ensures ExpandExponent(x.Text()) == Some(Expansion(x).Text()) && Expansion(x).Canonical()
  {
    ParseComplete(x);
    PartsExpand(x);
  }

  lemma SplitDigits(digits: string, point: int)
    requires AllDigits(digits)
    ensures AllDigits(SplitWhole(digits, point)) && AllDigits(SplitFrac(digits, point))
  {
  }

  lemma CanonicalParts(neg: bool, w: string, f: string)
    requires AllDigits(w) && AllDigits(f)
    ensures Plain(neg, OrZero(TrimLeft(w)), TrimRight(f)).Canonical()
  {
    TrimLeftFacts(w);
    TrimLeftDigits(w);
    TrimRightFacts(f);
    TrimRightDigits(f);
  }

  // ---------------------------------------------------------------------------------------------
  // ... worth exactly as much
  // ---------------------------------------------------------------------------------------------

  lemma {:induction false} Pow10Add(a: nat, b: nat)
    ensures Pow10(a + b) == Pow10(a) * Pow10(b)
  {
    if a > 0 {
      Pow10Add(a - 1, b);
      assert Pow10(a + b) == 10 * Pow10(a - 1 + b);
      assert 10 * (Pow10(a - 1) * Pow10(b)) == (10 * Pow10(a - 1)) * Pow10(b);
    }
  }

  lemma {:induction false} ValueConcat(a: string, b: string)
    ensures Value(a + b) == Value(a) * Pow10(|b|) + Value(b)
  {
    if b == "" {
      assert a + b == a;
    } else {
      var n := |b| - 1;
      ValueConcat(a, b[..n]);
      assert (a + b)[..|a + b| - 1] == a + b[..n];
      assert Value(a + b) == (Value(a) * Pow10(n) + Value(b[..n])) * 10 + DigitValue(b[n]);
      assert Value(a) * Pow10(n) * 10 == Value(a) * (10 * Pow10(n));
    }
  }

  lemma {:induction false} ValueZeros(k: nat)
    ensures Value(Zeros(k)) == 0
  {
    if k > 0 {
      ValueZeros(k - 1);
      assert Zeros(k)[..k - 1] == Zeros(k - 1);
    }
  }

  /** `m` x 10^-`f` equals `d` x 10^(`exp` - `frac`), without fractions. */
  ghost predicate SameWorth(m: int, f: nat, d: int, frac: nat, exp: int) {
    if exp >= 0 then m * Pow10(frac) == d * Pow10(exp + f) else m * Pow10(frac - exp) == d * Pow10(f)
  }

  lemma SplitWorth(whole: string, frac: string, exp: int)
    requires whole != ""
    ensures var digits, point := whole + frac, |whole| + exp;
            var w, f := SplitWhole(digits, point), SplitFrac(digits, point);
            SameWorth(Value(w + f), |f|, Value(digits), |frac|, exp)
  {
    var digits, point := whole + frac, |whole| + exp;
    SplitValue(digits, point);
    var w, f := SplitWhole(digits, point), SplitFrac(digits, point);
    ShiftedWorth(Value(w + f), |f|, Value(digits), |frac|, exp);
  }

  lemma ShiftedWorth(m: int, f: nat, d: int, frac: nat, exp: int)
    requires if exp >= frac then f == 0 && m == d * Pow10(exp - frac) else f == frac - exp && m == d
    ensures SameWorth(m, f, d, frac, exp)
  {
    if exp >= frac {
      Pow10Add(exp - frac, frac);
      MulAssoc(d, Pow10(exp - frac), Pow10(frac));
    }
  }

  lemma SplitValue(digits: string, point: int)
    ensures var w, f := SplitWhole(digits, point), SplitFrac(digits, point);
            if point >= |digits| then f == "" && Value(w + f) == Value(digits) * Pow10(point - |digits|)
            else |f| == |digits| - point && Value(w + f) == Value(digits)
  {
    var w, f := SplitWhole(digits, point), SplitFrac(digits, point);
    if point >= |digits| {
      var z := Zeros(point - |digits|);
      assert w + f == digits + z;
      ValueConcat(digits, z);
      ValueZeros(|z|);
    } else if point <= 0 {
      ZerosBefore(digits, -point);
      assert w + f == ("0" + Zeros(-point)) + digits;
    } else {
      assert w + f == digits;
    }
  }

  lemma ZerosBefore(digits: string, k: nat)
    ensures Value(("0" + Zeros(k)) + digits) == Value(digits)
  {
    assert "0" + Zeros(k) == Zeros(k + 1);
    ValueZeros(k + 1);
    ValueConcat(Zeros(k + 1), digits);
  }

  lemma MulAssoc(a: int, b: int, c: int)
    ensures a * b * c == a * (b * c)
  {
  }

  /** Removing zeros at the end of the fraction does not change the worth. */
  lemma TrimRightWorth(w: string, f: string, d: int, frac: nat, exp: int)
    requires SameWorth(Value(w + f), |f|, d, frac, exp)
    ensures SameWorth(Value(w + TrimRight(f)), |TrimRight(f)|, d, frac, exp)
  {
    var g := TrimRight(f);
    TrimRightValue(w, f);
    Rescale(Value(w + g), |g|, |f| - |g|, d, frac, exp);
  }

  lemma TrimRightValue(w: string, f: string)
    ensures |TrimRight(f)| <= |f| && Value(w + f) == Value(w + TrimRight(f)) * Pow10(|f| - |TrimRight(f)|)
  {
    var g := TrimRight(f);
    TrimRightFacts(f);
    var z := Zeros(|f| - |g|);
    assert w + f == (w + g) + z;
    ValueConcat(w + g, z);
    ValueZeros(|z|);
  }

  /** Ten to the power `j` cancels out. */
  lemma Rescale(m: int, g: nat, j: nat, d: int, frac: nat, exp: int)
    requires SameWorth(m * Pow10(j), g + j, d, frac, exp)
    ensures SameWorth(m, g, d, frac, exp)
  {
    Pow10Positive(j);
    if exp >= 0 {
      Pow10Add(exp + g, j);
      Cancel(m, Pow10(frac), d, Pow10(exp + g), Pow10(j));
    } else {
      Pow10Add(g, j);
      Cancel(m, Pow10(frac - exp), d, Pow10(g), Pow10(j));
    }
  }

  lemma Cancel(m: int, a: int, d: int, b: int, z: int)
    requires z >= 1 && (m * z) * a == d * (b * z)
    ensures m * a == d * b
  {
    assert (m * z) * a == (m * a) * z;
    assert d * (b * z) == (d * b) * z;
    MulCancel(m * a, d * b, z);
  }

  lemma MulCancel(p: int, q: int, z: int)
    requires z >= 1 && p * z == q * z
    ensures p == q
  {
    assert (p - q) * z == 0;
  }

  lemma TrimLeftWorth(w: string, g: string)
    ensures Value(OrZero(TrimLeft(w)) + g) == Value(w + g)
  {
    var l := TrimLeft(w);
    TrimLeftFacts(w);
    var k: nat := |w| - |l|;
    assert w + g == Zeros(k) + (l + g);
    ValueConcat(Zeros(k), l + g);
    ValueZeros(k);
    if l == "" {
      assert l + g == g;
      assert "0" == Zeros(1);
      ValueZeros(1);
      ValueConcat("0", g);
    }
  }

  lemma ExpansionWorth(x: Sci)
    requires x.whole != ""
    ensures var p := Expansion(x);
            SameWorth(Value(p.whole + p.frac), |p.frac|, Value(x.whole + x.frac), |x.frac|, x.Exp())
  {
    PartsWorth(x.whole, x.frac, x.Exp(), Expansion(x));
  }

  lemma PartsWorth(whole: string, frac: string, exp: int, p: Plain)
    requires whole != ""
    requires p.whole == OrZero(TrimLeft(SplitWhole(whole + frac, |whole| + exp)))
    requires p.frac == TrimRight(SplitFrac(whole + frac, |whole| + exp))
    ensures SameWorth(Value(p.whole + p.frac), |p.frac|, Value(whole + frac), |frac|, exp)
  {
    SplitWorth(whole, frac, exp);
    TrimmedWorth(SplitWhole(whole + frac, |whole| + exp), SplitFrac(whole + frac, |whole| + exp), Value(whole + frac),
                 |frac|, exp);
  }

  lemma TrimmedWorth(w: string, f: string, d: int, frac: nat, exp: int)
    requires SameWorth(Value(w + f), |f|, d, frac, exp)
    ensures SameWorth(Value(OrZero(TrimLeft(w)) + TrimRight(f)), |TrimRight(f)|, d, frac, exp)
  {
    TrimRightWorth(w, f, d, frac, exp);
    TrimLeftWorth(w, TrimRight(f));
  }

  /**
    Exact expansion: for every number in exponent notation whose exponent is worth at most 99, the
    result is the canonical plain decimal of exactly the same value and sign.
  */
  lemma ExpandIsExact(x: Sci, p: Plain)
    requires x.WellFormed() && Value(x.exp) <= 99 && p == Expansion(x)
    ensures ExpandExponent(x.Text()) == Some(p.Text()) && p.Canonical() && p.neg == x.neg
    ensures SameWorth(Value(p.whole + p.frac), |p.frac|, Value(x.whole + x.frac), |x.frac|, x.Exp())
  {
    ExpandIsPlain(x);
    ExpansionWorth(x);
  }

  /** Nothing else is expanded, and what is produced is never much longer than its digits. */
  lemma ExpandIsBounded(text: string)
    ensures ExpandExponent(text).Some? <==> exists x: Sci :: x.WellFormed() && Value(x.exp) <= 99 && x.Text() == text
    ensures ExpandExponent(text).Some? ==> |ExpandExponent(text).value| <= |text| + 101
  {
    if ExpandExponent(text).Some? {
      var x := ParseSci(text).value;
      ParseSound(text, x);
      ExpandIsPlain(x);
      ExpansionLength(x);
    }
    forall x: Sci | x.WellFormed() && Value(x.exp) <= 99 && x.Text() == text ensures ExpandExponent(text).Some? {
      ExpandIsPlain(x);
    }
  }

  lemma {:induction false} ValueNonNegative(s: string)
    requires AllDigits(s)
    ensures Value(s) >= 0
  {
    if s != "" { ValueNonNegative(s[..|s| - 1]); }
  }

  lemma SplitLength(digits: string, point: int, n: nat)
    requires 1 <= n <= |digits| && n - 99 <= point <= n + 99
    ensures |SplitWhole(digits, point)| + |SplitFrac(digits, point)| <= |digits| + 99
  {
  }

  lemma ExpansionLength(x: Sci)
    requires x.WellFormed() && Value(x.exp) <= 99
    ensures |Expansion(x).Text()| <= |x.Text()| + 101
  {
    PartsLength(x);
    TextLength(x);
    PlainLength(Expansion(x));
  }

  lemma PartsLength(x: Sci)
    requires x.WellFormed() && Value(x.exp) <= 99
    ensures |Expansion(x).whole| + |Expansion(x).frac| <= |x.whole| + |x.frac| + 100 && Expansion(x).neg == x.neg
  {
    var digits, point := x.whole + x.frac, |x.whole| + x.Exp();
    ValueNonNegative(x.exp);
    SplitLength(digits, point, |x.whole|);
    TrimmedLength(SplitWhole(digits, point), SplitFrac(digits, point));
  }

  lemma TrimmedLength(whole: string, frac: string)
    ensures |OrZero(TrimLeft(whole))| <= |whole| + 1 && |TrimRight(frac)| <= |frac|
  {
    TrimLeftFacts(whole);
    TrimRightFacts(frac);
  }

  lemma TextLength(x: Sci)
    requires x.WellFormed()
    ensures |x.Text()| >= |x.whole| + |x.frac| + 2 + (if x.neg then 1 else 0) + (if x.frac == "" then 0 else 1)
  {
  }

  lemma PlainLength(p: Plain)
    ensures |p.Text()| <= |p.whole| + |p.frac| + 1 + (if p.neg then 1 else 0)
  {
  }
}
