/**
  Placeholders in text: how a token TBP_VAR_n is written, recognised (the pattern TBP_VAR_[0-9]{1,9},
  leftmost and greedy) and resolved.
*/
module AnoText {
  import opened Basics

  const PREFIX := "TBP_VAR_"
  const MAX_DIGITS := 9

  predicate IsDigit(c: char) { '0' <= c <= '9' }

  predicate AllDigits(s: string) { forall i :: 0 <= i < |s| ==> IsDigit(s[i]) }

  // ---------------------------------------------------------------------------------------------
  // Decimal numerals
  // ---------------------------------------------------------------------------------------------

  function Digit(d: nat): char
    requires d < 10
  {
    ('0' as int + d) as char
  }

  function DigitValue(c: char): int { c as int - '0' as int }

  function Decimal(n: nat): (s: string)
    ensures s != "" && forall i :: 0 <= i < |s| ==> IsDigit(s[i])
    ensures n < 10 ==> |s| == 1
  {
    if n < 10 then [Digit(n)] else Decimal(n / 10) + [Digit(n % 10)]
  }

  function Value(s: string): int {
    if s == "" then 0 else Value(s[..|s| - 1]) * 10 + DigitValue(s[|s| - 1])
  }

  lemma {:induction false} DecimalValue(n: nat)
    ensures Value(Decimal(n)) == n
  {
    if n >= 10 {
      DecimalValue(n / 10);
      assert Decimal(n)[..|Decimal(n)| - 1] == Decimal(n / 10);
    } else {
      assert [Digit(n)][..0] == "";
    }
  }

  lemma DecimalInjective(m: nat, n: nat)
    requires Decimal(m) == Decimal(n)
    ensures m == n
  {
    DecimalValue(m);
    DecimalValue(n);
  }

  function Pow10(k: nat): nat { if k == 0 then 1 else 10 * Pow10(k - 1) }

  lemma {:induction false} Pow10Positive(a: nat)
    ensures Pow10(a) >= 1
  {
    if a > 0 { Pow10Positive(a - 1); }
  }

  lemma {:induction false} DecimalLength(n: nat, k: nat)
    requires k >= 1 && n < Pow10(k)
    ensures |Decimal(n)| <= k
  {
    if n >= 10 {
      assert Pow10(k) == 10 * Pow10(k - 1);
      DecimalLength(n / 10, k - 1);
    }
  }

  // ---------------------------------------------------------------------------------------------
  // Tokens
  // ---------------------------------------------------------------------------------------------

  function Token(n: nat): string { PREFIX + Decimal(n) }

  lemma TokenInjective(m: nat, n: nat)
    requires Token(m) == Token(n)
    ensures m == n
  {
    assert Token(m)[8..] == Decimal(m) && Token(n)[8..] == Decimal(n);
    DecimalInjective(m, n);
  }

  /** How many digits `s` starts with. */
  function DigitRun(s: string): (k: nat)
    ensures k <= |s|
  {
    if s != "" && IsDigit(s[0]) then 1 + DigitRun(s[1..]) else 0
  }

  /** A token starts at position `i`. */
  predicate TokenAt(s: string, i: nat) {
    i + 8 < |s| && s[i..i + 8] == PREFIX && IsDigit(s[i + 8])
  }

  predicate HasToken(s: string) { exists i :: 0 <= i < |s| && TokenAt(s, i) }

  /** The length of the token at the start of `s`; 0 when there is none. */
  function MatchLen(s: string): (k: nat)
    ensures k <= |s| && (k > 0 <==> TokenAt(s, 0)) && (k > 0 ==> k >= 9)
  {
    if TokenAt(s, 0) then 8 + Min(MAX_DIGITS, DigitRun(s[8..])) else 0
  }

  /** The string is one token and nothing else. */
  predicate ExactToken(s: string) { s != "" && MatchLen(s) == |s| }

  /** Replaces every token, left to right; an unknown one refuses the whole text. */
  function Resolve(known: map<string, string>, s: string): Option<string> {
    if s == "" then Some("") else
    var k := MatchLen(s);
    if k > 0 then
      if s[..k] !in known then None else
      match Resolve(known, s[k..])
      case None => None
      case Some(rest) => Some(known[s[..k]] + rest)
    else
      match Resolve(known, s[1..])
      case None => None
      case Some(rest) => Some([s[0]] + rest)
  }

  // ---------------------------------------------------------------------------------------------
  // Reading tokens back
  // ---------------------------------------------------------------------------------------------

  /** Kept text may stand directly after a token only if it does not start with a digit. */
  predicate NoDigitFirst(s: string) { s == "" || !IsDigit(s[0]) }

  lemma {:induction false} DigitRunExact(d: string, rest: string)
    requires (forall i :: 0 <= i < |d| ==> IsDigit(d[i])) && NoDigitFirst(rest)
    ensures DigitRun(d + rest) == |d|
  {
    if d == "" {
      assert d + rest == rest;
    } else {
      DigitRunExact(d[1..], rest);
      assert (d + rest)[1..] == d[1..] + rest;
    }
  }

  lemma {:induction false} DigitRunLonger(d: string, rest: string)
    requires (forall i :: 0 <= i < |d| ==> IsDigit(d[i])) && rest != "" && IsDigit(rest[0])
    ensures DigitRun(d + rest) > |d|
  {
    if d == "" {
      assert d + rest == rest;
    } else {
      DigitRunLonger(d[1..], rest);
      assert (d + rest)[1..] == d[1..] + rest;
    }
  }

  /** A token is read back exactly, when no digit follows it. */
  lemma TokenReadBack(n: nat, rest: string)
    requires |Decimal(n)| <= MAX_DIGITS && NoDigitFirst(rest)
    ensures MatchLen(Token(n) + rest) == |Token(n)|
    ensures (Token(n) + rest)[..|Token(n)|] == Token(n) && (Token(n) + rest)[|Token(n)|..] == rest
  {
    var s := Token(n) + rest;
    assert s[0..8] == PREFIX && s[8] == Decimal(n)[0];
    assert s[8..] == Decimal(n) + rest;
    DigitRunExact(Decimal(n), rest);
  }

  /** ... and swallows part of the text when one does. */
  lemma TokenReadTooFar(n: nat, rest: string)
    requires |Decimal(n)| < MAX_DIGITS && !NoDigitFirst(rest)
    ensures MatchLen(Token(n) + rest) > |Token(n)|
  {
    var s := Token(n) + rest;
    assert s[0..8] == PREFIX && s[8] == Decimal(n)[0];
    assert s[8..] == Decimal(n) + rest;
    DigitRunLonger(Decimal(n), rest);
  }

  lemma TailTokenFree(text: string)
    requires text != "" && !HasToken(text)
    ensures !HasToken(text[1..])
  {
    if i :| 0 <= i < |text[1..]| && TokenAt(text[1..], i) {
      assert text[1..][i..i + 8] == text[i + 1..i + 9];
      assert TokenAt(text, i + 1);
    }
  }

  /** Token-free text can be skipped, even directly before a token or at the end. */
  lemma {:induction false} SkipText(known: map<string, string>, text: string, rest: string)
    requires !HasToken(text) && (rest == "" || PREFIX <= rest)
    ensures Resolve(known, text + rest) ==
            match Resolve(known, rest) case None => None case Some(r) => Some(text + r)
  {
    if text == "" {
      assert text + rest == rest;
      if Resolve(known, rest).Some? { assert "" + Resolve(known, rest).value == Resolve(known, rest).value; }
    } else {
      NoTokenBefore(text, rest);
      TailTokenFree(text);
      SkipText(known, text[1..], rest);
      assert (text + rest)[1..] == text[1..] + rest;
      if Resolve(known, rest).Some? {
        var r := Resolve(known, rest).value;
        assert [text[0]] + (text[1..] + r) == text + r;
      }
    }
  }

  lemma NoTokenBefore(text: string, rest: string)
    requires text != "" && !HasToken(text) && (rest == "" || PREFIX <= rest)
    ensures !TokenAt(text + rest, 0)
  {
    var s := text + rest;
    if |text| >= 9 {
      assert s[0..8] == text[0..8];
      assert !TokenAt(text, 0);
    } else if rest != "" {
      assert s[|text|] == rest[0] == 'T';
      assert |text| < 8 ==> s[0..8][|text|] == 'T' && PREFIX[|text|] != 'T';
    }
  }

  /** Text without a token resolves to itself. */
  lemma ResolvePlain(known: map<string, string>, text: string)
    requires !HasToken(text)
    ensures Resolve(known, text) == Some(text)
  {
    SkipText(known, text, "");
    assert text + "" == text;
  }

  /** Substrings of token-free text are token-free. */
  lemma SubstringTokenFree(a: string, b: string, c: string)
    requires !HasToken(a + b + c)
    ensures !HasToken(b)
  {
    if i :| 0 <= i < |b| && TokenAt(b, i) {
      assert (a + b + c)[|a| + i..|a| + i + 8] == b[i..i + 8];
      assert TokenAt(a + b + c, |a| + i);
    }
  }
}
