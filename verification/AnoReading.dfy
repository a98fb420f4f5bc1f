/**
  How a masked text is read back.  A token is read greedily, up to nine digits, so a token in front of kept
  digits is read as another one; what comes back then is spelled out here, for every text.
*/
module AnoReading {
  import opened Basics
  import opened AnoText
  import opened AnoVault
  import opened Anonymiser
  import opened AnoScript

  // ---------------------------------------------------------------------------------------------
  // Numerals
  // ---------------------------------------------------------------------------------------------

  lemma {:induction false} DecimalLead(n: nat)
    requires n >= 1
    ensures Decimal(n)[0] != '0'
  {
    if n >= 10 { DecimalLead(n / 10); }
  }

  /** A numeral without a leading zero is the numeral of its value. */
  lemma {:induction false} DecimalOfValue(d: string)
    requires d != "" && AllDigits(d) && d[0] != '0'
    ensures Value(d) >= 1 && Decimal(Value(d)) == d
  {
    var n := |d| - 1;
    if n == 0 {
      assert Value(d[..0]) == 0;
      DigitOf(d[0]);
      assert d == [d[0]];
    } else {
      DecimalOfValue(d[..n]);
      DecimalSnoc(Value(d[..n]), d[n]);
      assert d == d[..n] + [d[n]];
    }
  }

  lemma DigitOf(c: char)
    requires IsDigit(c)
    ensures 0 <= DigitValue(c) < 10 && Digit(DigitValue(c)) == c && (c != '0' ==> DigitValue(c) >= 1)
  {
  }

  lemma DecimalSnoc(v: nat, c: char)
    requires v >= 1 && IsDigit(c)
    ensures v * 10 + DigitValue(c) >= 10 && Decimal(v * 10 + DigitValue(c)) == Decimal(v) + [c]
  {
    DigitOf(c);
    var x := DigitValue(c);
    assert (v * 10 + x) / 10 == v && (v * 10 + x) % 10 == x;
  }

  lemma {:induction false} DigitRunAll(s: string, k: nat)
    requires k <= DigitRun(s)
    ensures AllDigits(s[..k])
  {
    if k > 0 {
      DigitRunAll(s[1..], k - 1);
      assert s[..k] == [s[0]] + s[1..][..k - 1];
    }
  }

  lemma {:induction false} DigitRunConcat(d: string, rest: string)
    requires AllDigits(d)
    ensures DigitRun(d + rest) == |d| + DigitRun(rest)
  {
    if d == "" {
      assert d + rest == rest;
    } else {
      assert (d + rest)[1..] == d[1..] + rest;
      DigitRunConcat(d[1..], rest);
    }
  }

  /** The digits of a text are not affected by what follows it, unless the text is all digits. */
  lemma {:induction false} DigitRunPrefix(text: string, rest: string)
    requires NoDigitFirst(rest)
    ensures DigitRun(text + rest) == DigitRun(text)
  {
    if text == "" {
      assert text + rest == rest;
    } else {
      assert (text + rest)[1..] == text[1..] + rest;
      DigitRunPrefix(text[1..], rest);
    }
  }

  /** How many digits of the text behind token `i` are read as part of the token. */
  function Extra(i: nat, next: string): (k: nat)
    ensures k <= DigitRun(next) <= |next|
  {
    if |Decimal(i)| <= MAX_DIGITS then Min(DigitRun(next), MAX_DIGITS - |Decimal(i)|) else 0
  }

  /** The number that is read where token `i` stands in front of the text. */
  function Greedy(i: nat, next: string): int { Value(Decimal(i) + next[..Extra(i, next)]) }

  lemma GreedyToken(i: nat, next: string)
    requires i >= 1
    ensures Greedy(i, next) >= 1 && Token(Greedy(i, next)) == Token(i) + next[..Extra(i, next)]
  {
    var d := Decimal(i) + next[..Extra(i, next)];
    DecimalLead(i);
    DigitRunAll(next, Extra(i, next));
    assert d[0] == Decimal(i)[0];
    DecimalOfValue(d);
    assert PREFIX + d == (PREFIX + Decimal(i)) + next[..Extra(i, next)];
  }

  /** Greedy reading: the token, and as many of the following digits as fit. */
  lemma ReadGreedy(i: nat, rest: string, k: nat)
    requires |Decimal(i)| <= MAX_DIGITS && k == Min(DigitRun(rest), MAX_DIGITS - |Decimal(i)|)
    ensures var s := Token(i) + rest;
            && MatchLen(s) == |Token(i)| + k && s[..|Token(i)| + k] == Token(i) + rest[..k]
            && s[|Token(i)| + k..] == rest[k..]
  {
    MatchGreedy(i, rest, k);
    CutConcat(Token(i), rest, k);
  }

  lemma MatchGreedy(i: nat, rest: string, k: nat)
    requires |Decimal(i)| <= MAX_DIGITS && k == Min(DigitRun(rest), MAX_DIGITS - |Decimal(i)|)
    ensures MatchLen(Token(i) + rest) == |Token(i)| + k
  {
    TokenFirst(i, rest);
    DigitRunConcat(Decimal(i), rest);
  }

  lemma TokenFirst(i: nat, rest: string)
    ensures var s := Token(i) + rest; TokenAt(s, 0) && s[8..] == Decimal(i) + rest && PREFIX <= s
  {
    var s := Token(i) + rest;
    assert s[0..8] == PREFIX && s[8] == Decimal(i)[0];
  }

  lemma CutConcat(a: string, b: string, k: nat)
    requires k <= |b|
    ensures (a + b)[..|a| + k] == a + b[..k] && (a + b)[|a| + k..] == b[k..]
  {
  }

  // ---------------------------------------------------------------------------------------------
  // Texts, written with any numbers and read in any table
  // ---------------------------------------------------------------------------------------------

  ghost predicate ShortPieces(ps: seq<Piece>) { EveryPiece(Short(), ps) }

  lemma ShortNumber(n: nat)
    requires n < Pow10(9)
    ensures |Decimal(n)| <= MAX_DIGITS
  {
    DecimalLength(n, 9);
  }

  /** The kept text in front of the first span, or all of it. */
  function FirstText(ps: seq<Piece>, tail: string): string { if ps == [] then tail else ps[0].before }

  ghost predicate TokenFree(ps: seq<Piece>, tail: string) {
    !HasToken(tail) && forall i :: 0 <= i < |ps| ==> !HasToken(ps[i].before)
  }

  /** The number that is read where the first span was masked. */
  ghost function GreedyFirst(ps: seq<Piece>, tail: string): (g: Number)
    requires ps != []
  {
    GreedyToken(ps[0].num, FirstText(ps[1..], tail));
    Greedy(ps[0].num, FirstText(ps[1..], tail))
  }

  /** How much of the text behind the first span is read with it. */
  ghost function Swallowed(ps: seq<Piece>, tail: string): (k: nat)
    requires ps != []
    ensures k <= |FirstText(ps[1..], tail)|
  {
    Extra(ps[0].num, FirstText(ps[1..], tail))
  }

  /** The text that comes back, from position `skip` of the first kept text on; none if a token is unknown. */
  ghost function ReadFrom(t: Table, ps: seq<Piece>, tail: string, skip: nat): Option<string>
    requires skip <= |FirstText(ps, tail)|
    decreases |ps|
  {
    if ps == [] then Some(tail[skip..]) else
    var tok := Token(GreedyFirst(ps, tail));
    if tok !in t.byTok then None else
    match ReadFrom(t, ps[1..], tail, Swallowed(ps, tail))
    case None => None
    case Some(r) => Some(ps[0].before[skip..] + (t.byTok[tok].Text() + r))
  }

  /** The written text is the first kept text, and then nothing or a token. */
  lemma WrittenStart(ps: seq<Piece>, tail: string)
    ensures var s, first := WriteText(ps, tail), FirstText(ps, tail);
            && first <= s && DigitRun(s) == DigitRun(first)
            && (ps == [] ==> s == first) && (ps != [] ==> |s| > |first|)
  {
    if ps != [] {
      var rest := Token(ps[0].num) + WriteText(ps[1..], tail);
      assert rest[0] == 'T';
      DigitRunPrefix(ps[0].before, rest);
    }
  }

  lemma SuffixTokenFree(text: string, k: nat)
    requires !HasToken(text) && k <= |text|
    ensures !HasToken(text[k..])
  {
    assert text == text[..k] + text[k..] + "";
    SubstringTokenFree(text[..k], text[k..], "");
  }

  /** The first token of a written text, and what is read there. */
  lemma ReadFirst(ps: seq<Piece>, tail: string, rest: string)
    requires ps != [] && ShortPieces(ps) && rest == WriteText(ps[1..], tail)
    ensures var tok, k := Token(ps[0].num), Swallowed(ps, tail);
            var s := tok + rest;
            && k <= |rest| && MatchLen(s) == |tok| + k
            && s[..|tok| + k] == Token(GreedyFirst(ps, tail)) && s[|tok| + k..] == rest[k..]
            && PREFIX <= s
  {
    assert Short()(ps[0].num, Entry.Span(ps[0].hole));
    ShortNumber(ps[0].num);
    WrittenStart(ps[1..], tail);
    ReadToken(ps[0].num, FirstText(ps[1..], tail), rest);
  }

  lemma ReadToken(i: nat, next: string, rest: string)
    requires i >= 1 && |Decimal(i)| <= MAX_DIGITS && next <= rest && DigitRun(rest) == DigitRun(next)
    ensures var s, k := Token(i) + rest, Extra(i, next);
            && k <= |rest| && MatchLen(s) == |Token(i)| + k
            && Greedy(i, next) >= 1 && s[..|Token(i)| + k] == Token(Greedy(i, next)) && s[|Token(i)| + k..] == rest[k..]
            && PREFIX <= s
  {
    ReadGreedy(i, rest, Extra(i, next));
    GreedyToken(i, next);
    assert rest[..Extra(i, next)] == next[..Extra(i, next)];
    TokenFirst(i, rest);
  }

  lemma ResolveAtToken(known: map<string, string>, s: string, k: nat)
    requires s != "" && k == MatchLen(s) > 0
    ensures Resolve(known, s) ==
            if s[..k] !in known then None
            else match Resolve(known, s[k..]) case None => None case Some(r) => Some(known[s[..k]] + r)
  {
  }

  lemma RestShort(ps: seq<Piece>)
    requires ps != [] && ShortPieces(ps)
    ensures ShortPieces(ps[1..])
  {
    forall i | 0 <= i < |ps[1..]| ensures Short()(ps[1..][i].num, Entry.Span(ps[1..][i].hole)) {
      assert Short()(ps[i + 1].num, Entry.Span(ps[i + 1].hole));
    }
  }

  lemma RestTokenFree(ps: seq<Piece>, tail: string)
    requires ps != [] && TokenFree(ps, tail)
    ensures !HasToken(ps[0].before) && TokenFree(ps[1..], tail)
  {
    assert forall i :: 0 <= i < |ps[1..]| ==> ps[1..][i] == ps[i + 1];
  }

  /** Resolving a written text reads exactly `ReadFrom`. */
  lemma {:induction false} ResolveWritten(t: Table, ps: seq<Piece>, tail: string, skip: nat)
    requires ShortPieces(ps) && TokenFree(ps, tail) && skip <= |FirstText(ps, tail)|
    ensures |WriteText(ps, tail)| >= skip
    ensures Resolve(Texts(t), WriteText(ps, tail)[skip..]) == ReadFrom(t, ps, tail, skip)
    decreases |ps|
  {
    WrittenStart(ps, tail);
    if ps == [] {
      SuffixTokenFree(tail, skip);
      ResolvePlain(Texts(t), tail[skip..]);
    } else {
      var before, rest := ps[0].before, WriteText(ps[1..], tail);
      ReadFirst(ps, tail, rest);
      RestTokenFree(ps, tail);
      RestShort(ps);
      ResolveWritten(t, ps[1..], tail, Swallowed(ps, tail));
      ResolveFirst(t, ps, tail, rest, ReadFrom(t, ps[1..], tail, Swallowed(ps, tail)));
      SkipKept(Texts(t), before, skip, Token(ps[0].num) + rest);
    }
  }

  lemma SkipKept(known: map<string, string>, before: string, skip: nat, s: string)
    requires !HasToken(before) && skip <= |before| && PREFIX <= s
    ensures Resolve(known, (before + s)[skip..]) ==
            match Resolve(known, s) case None => None case Some(r) => Some(before[skip..] + r)
  {
    SuffixTokenFree(before, skip);
    SkipText(known, before[skip..], s);
    assert (before + s)[skip..] == before[skip..] + s;
  }

  lemma ResolveFirst(t: Table, ps: seq<Piece>, tail: string, rest: string, r: Option<string>)
    requires ps != [] && ShortPieces(ps) && rest == WriteText(ps[1..], tail)
    requires Swallowed(ps, tail) <= |rest| && Resolve(Texts(t), rest[Swallowed(ps, tail)..]) == r
    ensures var tok := Token(GreedyFirst(ps, tail));
            Resolve(Texts(t), Token(ps[0].num) + rest) ==
            if tok !in t.byTok || r.None? then None else Some(t.byTok[tok].Text() + r.value)
  {
    var s := Token(ps[0].num) + rest;
    ReadFirst(ps, tail, rest);
    ResolveAtToken(Texts(t), s, MatchLen(s));
  }

  /** Every number that is read has been handed out. */
  ghost predicate Reaches(t: Table, ps: seq<Piece>, tail: string)
    decreases |ps|
  {
    ps == [] || (GreedyFirst(ps, tail) <= t.n && Reaches(t, ps[1..], tail))
  }

  lemma TokenKnown(t: Table, g: nat)
    requires Coherent(t) && g >= 1
    ensures Token(g) in t.byTok <==> g <= t.n
  {
    HandedOutTokens(t, Token(g));
    if IsToken(Token(g), t.n) {
      var i :| 1 <= i <= t.n && Token(g) == Token(i);
      TokenInjective(g, i);
    }
  }

  /** A text is refused exactly when a number is read that has not been handed out. */
  lemma {:induction false} ReadRefused(t: Table, ps: seq<Piece>, tail: string, skip: nat)
    requires Coherent(t) && skip <= |FirstText(ps, tail)|
    ensures ReadFrom(t, ps, tail, skip).None? <==> !Reaches(t, ps, tail)
    decreases |ps|
  {
    if ps != [] {
      TokenKnown(t, GreedyFirst(ps, tail));
      ReadRefused(t, ps[1..], tail, Swallowed(ps, tail));
    }
  }

  // ---------------------------------------------------------------------------------------------
  // A whole string
  // ---------------------------------------------------------------------------------------------

  /** The written text is one token, as the reader sees it. */
  ghost predicate Lone(ps: seq<Piece>, tail: string) {
    |ps| == 1 && ps[0].before == "" && Swallowed(ps, tail) == |tail|
  }

  function EntryValue(e: Entry): Json {
    match e
    case Leaf(v) => v
    case Span(x) => Str(x)
  }

  /** What comes back for a string that is one token. */
  function LoneAnswer(t: Table, tok: string): Result<Json, Error> {
    if tok in t.byTok then Ok(EntryValue(t.byTok[tok])) else Err(UnknownToken)
  }

  /** What comes back for a written string. */
  ghost function TextAnswer(t: Table, ps: seq<Piece>, tail: string): Result<Json, Error>
    requires ps != []
  {
    if Lone(ps, tail) then LoneAnswer(t, Token(GreedyFirst(ps, tail)))
    else
      match ReadFrom(t, ps, tail, 0)
      case None => Err(UnknownToken)
      case Some(x) => Ok(Str(x))
  }

  lemma ExactWritten(ps: seq<Piece>, tail: string)
    requires ps != [] && ShortPieces(ps) && TokenFree(ps, tail)
    ensures ExactToken(WriteText(ps, tail)) <==> Lone(ps, tail)
    ensures Lone(ps, tail) ==> WriteText(ps, tail) == Token(GreedyFirst(ps, tail))
  {
    var before, rest := ps[0].before, WriteText(ps[1..], tail);
    var tok, k := Token(ps[0].num), Swallowed(ps, tail);
    var s := tok + rest;
    ReadFirst(ps, tail, rest);
    WrittenStart(ps[1..], tail);
    if before != "" {
      NoTokenBefore(before, s);
    } else {
      assert before + s == s;
      WholeMatch(s, |tok|, rest, k);
      assert |ps| == 1 <==> ps[1..] == [];
    }
  }

  lemma WholeMatch(s: string, n: nat, rest: string, k: nat)
    requires s != "" && |s| == n + |rest| && k <= |rest| && MatchLen(s) == n + k
    ensures ExactToken(s) <==> k == |rest|
    ensures k == |rest| ==> s[..n + k] == s
  {
  }

  lemma WrittenHasToken(ps: seq<Piece>, tail: string)
    requires ps != []
    ensures HasToken(WriteText(ps, tail))
  {
    var i, a, b := ps[0].num, ps[0].before, WriteText(ps[1..], tail);
    var s := a + (Token(i) + b);
    assert s[|a|..|a| + 8] == PREFIX && s[|a| + 8] == Decimal(i)[0];
    assert TokenAt(s, |a|);
  }

  lemma UnmaskWritten(t: Table, ps: seq<Piece>, tail: string)
    requires ps != [] && ShortPieces(ps) && TokenFree(ps, tail)
    ensures UnmaskText(t, WriteText(ps, tail)) == TextAnswer(t, ps, tail)
  {
    var s := WriteText(ps, tail);
    ExactWritten(ps, tail);
    if !Lone(ps, tail) {
      WrittenHasToken(ps, tail);
      ResolveWritten(t, ps, tail, 0);
      assert s[0..] == s;
    }
  }

  /** The string comes back as a value exactly when every number that is read has been handed out. */
  lemma AnswerRefused(t: Table, ps: seq<Piece>, tail: string)
    requires Coherent(t) && ps != []
    ensures TextAnswer(t, ps, tail).Ok? <==> Reaches(t, ps, tail)
    ensures TextAnswer(t, ps, tail).Ok? || TextAnswer(t, ps, tail) == Err(UnknownToken)
  {
    TokenKnown(t, GreedyFirst(ps, tail));
    if Lone(ps, tail) {
      assert ps[1..] == [];
    } else {
      ReadRefused(t, ps, tail, 0);
    }
  }

  function Original(ps: seq<Piece>, tail: string): string {
    if ps == [] then tail else ps[0].before + (ps[0].hole + Original(ps[1..], tail))
  }

  /** The texts put in for the numbers that are read, together with what is left between them, are the original. */
  ghost predicate TextsAgree(t: Table, ps: seq<Piece>, tail: string)
    requires ps != []
  {
    var tok, text := Token(GreedyFirst(ps, tail)), Original(ps, tail);
    if Lone(ps, tail) then tok in t.byTok && t.byTok[tok] in {Entry.Span(text), Leaf(Str(text))}
    else ReadFrom(t, ps, tail, 0) == Some(text)
  }

  /** The string comes back as it was exactly when the texts agree. */
  lemma AnswerAgrees(t: Table, ps: seq<Piece>, tail: string)
    requires ps != []
    ensures TextAnswer(t, ps, tail) == Ok(Str(Original(ps, tail))) <==> TextsAgree(t, ps, tail)
  {
  }

  // ---------------------------------------------------------------------------------------------
  // Piece by piece
  // ---------------------------------------------------------------------------------------------

  /** The text for the first number that is read. */
  ghost predicate FirstTextIs(t: Table, ps: seq<Piece>, tail: string, text: string)
    requires ps != []
  {
    var tok := Token(GreedyFirst(ps, tail)); tok in t.byTok && t.byTok[tok].Text() == text
  }

  /** Each text put in is the span followed by the digits that were read with its token. */
  ghost predicate PiecesAgree(t: Table, ps: seq<Piece>, tail: string)
    decreases |ps|
  {
    ps == [] ||
    (&& FirstTextIs(t, ps, tail, ps[0].hole + FirstText(ps[1..], tail)[..Swallowed(ps, tail)])
     && PiecesAgree(t, ps[1..], tail))
  }

  /** Each text put in has the length of that. */
  ghost predicate LengthsAgree(t: Table, ps: seq<Piece>, tail: string)
    decreases |ps|
  {
    ps == [] ||
    var tok := Token(GreedyFirst(ps, tail));
    && tok in t.byTok && |t.byTok[tok].Text()| == |ps[0].hole| + Swallowed(ps, tail)
    && LengthsAgree(t, ps[1..], tail)
  }

  lemma OriginalStart(ps: seq<Piece>, tail: string, k: nat)
    requires k <= |FirstText(ps, tail)|
    ensures |Original(ps, tail)| >= k && Original(ps, tail)[..k] == FirstText(ps, tail)[..k]
  {
  }

  lemma Splice(before: string, skip: nat, hole: string, rest: string, k: nat)
    requires skip <= |before| && k <= |rest|
    ensures (before + (hole + rest))[skip..] == before[skip..] + ((hole + rest[..k]) + rest[k..])
  {
    assert rest == rest[..k] + rest[k..];
    assert (before + (hole + rest))[skip..] == before[skip..] + (hole + rest);
  }

  /**
    A text is read as it was if the pieces agree, and only then when each text put in has the length of what
    it replaces.
  */
  lemma {:induction false} PiecesMakeText(t: Table, ps: seq<Piece>, tail: string, skip: nat)
    requires skip <= |FirstText(ps, tail)|
    ensures |Original(ps, tail)| >= skip
    ensures PiecesAgree(t, ps, tail) ==> ReadFrom(t, ps, tail, skip) == Some(Original(ps, tail)[skip..])
    ensures LengthsAgree(t, ps, tail) && ReadFrom(t, ps, tail, skip) == Some(Original(ps, tail)[skip..]) ==>
            PiecesAgree(t, ps, tail)
    decreases |ps|
  {
    OriginalStart(ps, tail, skip);
    if ps != [] {
      var k, rest := Swallowed(ps, tail), Original(ps[1..], tail);
      PiecesMakeText(t, ps[1..], tail, k);
      OriginalStart(ps[1..], tail, k);
      Splice(ps[0].before, skip, ps[0].hole, rest, k);
      FirstPieceMakesText(t, ps, tail, skip, rest);
    } else {
      assert tail[skip..] == Original(ps, tail)[skip..];
    }
  }

  lemma FirstPieceMakesText(t: Table, ps: seq<Piece>, tail: string, skip: nat, rest: string)
    requires ps != [] && skip <= |ps[0].before| && Swallowed(ps, tail) <= |rest|
    requires Original(ps, tail)[skip..] ==
             ps[0].before[skip..] + ((ps[0].hole + rest[..Swallowed(ps, tail)]) + rest[Swallowed(ps, tail)..])
    requires rest[..Swallowed(ps, tail)] == FirstText(ps[1..], tail)[..Swallowed(ps, tail)]
    requires var r, k := ReadFrom(t, ps[1..], tail, Swallowed(ps, tail)), Swallowed(ps, tail);
             && (PiecesAgree(t, ps[1..], tail) ==> r == Some(rest[k..]))
             && (LengthsAgree(t, ps[1..], tail) && r == Some(rest[k..]) ==> PiecesAgree(t, ps[1..], tail))
    ensures |Original(ps, tail)| >= skip
    ensures PiecesAgree(t, ps, tail) ==> ReadFrom(t, ps, tail, skip) == Some(Original(ps, tail)[skip..])
    ensures LengthsAgree(t, ps, tail) && ReadFrom(t, ps, tail, skip) == Some(Original(ps, tail)[skip..]) ==>
            PiecesAgree(t, ps, tail)
  {
    var tok, k := Token(GreedyFirst(ps, tail)), Swallowed(ps, tail);
    var r := ReadFrom(t, ps[1..], tail, k);
    if LengthsAgree(t, ps, tail) && ReadFrom(t, ps, tail, skip) == Some(Original(ps, tail)[skip..]) {
      SamePrefix(ps[0].before[skip..], t.byTok[tok].Text(), r.value, ps[0].hole + rest[..k], rest[k..]);
    }
  }

  lemma SamePrefix(a: string, b: string, c: string, d: string, e: string)
    requires a + (b + c) == a + (d + e) && |b| == |d|
    ensures b == d && c == e
  {
    assert (a + (b + c))[|a|..] == b + c && (a + (d + e))[|a|..] == d + e;
    assert (b + c)[..|b|] == b && (d + e)[..|d|] == d && (b + c)[|b|..] == c && (d + e)[|d|..] == e;
  }

  /** A string that is one token comes back as a string only if it is kept as one. */
  ghost predicate PiecesFit(t: Table, ps: seq<Piece>, tail: string)
    requires ps != []
  {
    && PiecesAgree(t, ps, tail)
    && (Lone(ps, tail) ==> EntryValue(t.byTok[Token(GreedyFirst(ps, tail))]).Str?)
  }

  lemma PiecesFitAgrees(t: Table, ps: seq<Piece>, tail: string)
    requires Coherent(t) && ps != [] && PiecesFit(t, ps, tail)
    ensures Reaches(t, ps, tail) && TextsAgree(t, ps, tail)
  {
    PiecesMakeText(t, ps, tail, 0);
    assert Original(ps, tail)[0..] == Original(ps, tail);
    ReadRefused(t, ps, tail, 0);
    if Lone(ps, tail) {
      assert ps[1..] == [] && tail[..|tail|] == tail;
      assert "" + (ps[0].hole + tail) == ps[0].hole + tail;
    }
  }

  // ---------------------------------------------------------------------------------------------
  // No digit behind a span
  // ---------------------------------------------------------------------------------------------

  /** No masked span is directly followed by a kept digit. */
  predicate SafePieces(ps: seq<Piece>, tail: string) {
    ps == [] || (NoDigitFirst(FirstText(ps[1..], tail)) && SafePieces(ps[1..], tail))
  }

  lemma SafeFirst(ps: seq<Piece>, tail: string)
    requires ps != [] && NoDigitFirst(FirstText(ps[1..], tail))
    ensures Swallowed(ps, tail) == 0 && GreedyFirst(ps, tail) == ps[0].num
  {
    var i, next := ps[0].num, FirstText(ps[1..], tail);
    assert DigitRun(next) == 0 && next[..0] == "";
    assert Decimal(i) + "" == Decimal(i);
    DecimalValue(i);
  }

  lemma RestBound(t: Table, ps: seq<Piece>)
    requires ps != [] && EveryPiece(BoundIn(t), ps)
    ensures BoundIn(t)(ps[0].num, Entry.Span(ps[0].hole)) && EveryPiece(BoundIn(t), ps[1..])
  {
    forall i | 0 <= i < |ps[1..]| ensures BoundIn(t)(ps[1..][i].num, Entry.Span(ps[1..][i].hole)) {
      assert BoundIn(t)(ps[i + 1].num, Entry.Span(ps[i + 1].hole));
    }
  }

  /** Then, in a table that binds the numbers to the spans, the pieces fit. */
  lemma {:induction false} SafeAgree(t: Table, ps: seq<Piece>, tail: string)
    requires EveryPiece(BoundIn(t), ps) && SafePieces(ps, tail)
    ensures PiecesAgree(t, ps, tail)
    decreases |ps|
  {
    if ps != [] {
      RestBound(t, ps);
      SafeFirst(ps, tail);
      SafeAgree(t, ps[1..], tail);
      assert ps[0].hole + FirstText(ps[1..], tail)[..0] == ps[0].hole;
    }
  }

  lemma SafeFit(t: Table, ps: seq<Piece>, tail: string)
    requires ps != [] && EveryPiece(BoundIn(t), ps) && SafePieces(ps, tail)
    ensures PiecesFit(t, ps, tail)
  {
    SafeAgree(t, ps, tail);
    RestBound(t, ps);
    SafeFirst(ps, tail);
  }

  lemma {:induction false} ValueGrows(d: string, e: string)
    requires AllDigits(d) && AllDigits(e)
    ensures Value(d) >= 0 && (e != "" ==> Value(d + e) >= 10 * Value(d))
    decreases |d| + |e|
  {
    if d != "" { ValueGrows(d[..|d| - 1], ""); }
    if e != "" {
      var n := |e| - 1;
      assert (d + e)[..|d + e| - 1] == d + e[..n];
      if n > 0 {
        ValueGrows(d, e[..n]);
      } else {
        assert d + e[..n] == d;
      }
    }
  }

  /** While all tokens have one digit, a digit behind a span makes the reader look for a token that is not there. */
  lemma {:induction false} UnsafeReading(t: Table, ps: seq<Piece>, tail: string)
    requires Coherent(t) && EveryPiece(BoundIn(t), ps) && !SafePieces(ps, tail) && t.n <= 9
    ensures !Reaches(t, ps, tail)
    decreases |ps|
  {
    var next := FirstText(ps[1..], tail);
    RestBound(t, ps);
    if NoDigitFirst(next) {
      UnsafeReading(t, ps[1..], tail);
    } else {
      var i := ps[0].num;
      TokenKnown(t, i);
      assert |Decimal(i)| == 1 && DigitRun(next) >= 1;
      DigitRunAll(next, Extra(i, next));
      ValueGrows(Decimal(i), next[..Extra(i, next)]);
      DecimalValue(i);
    }
  }
}
