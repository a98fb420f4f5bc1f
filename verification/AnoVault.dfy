/**
  The correspondence table of one exchange (token to value), and the vault of exchanges.

  An entry stands for the bytes the code keeps: a whole JSON leaf, or a span of text.  The salted hash
  that deduplicates entries is represented by the entry itself.
*/
module AnoVault {
  import opened Basics
  import opened AnoText

  /** A decoded JSON value; numbers keep their text, objects their key order. */
  datatype Json =
    | Null
    | Bool(b: bool)
    | Num(text: string)
    | Str(text: string)
    | Arr(items: seq<Json>)
    | Obj(names: seq<string>, items: seq<Json>)

  datatype Entry = Leaf(v: Json) | Span(s: string)
  {
    /** The form in which the entry is put inside a longer string. */
    function Text(): string {
      match this
      case Leaf(Str(t)) => t
      case Leaf(Num(t)) => t
      case Leaf(_) => ""
      case Span(t) => t
    }
  }

  datatype Table = Table(n: nat, byKey: map<Entry, string>, byTok: map<string, Entry>)

  const EMPTY := Table(0, map[], map[])

  /** The token of an entry, new or known; none when the table is full. */
  function Intern(t: Table, e: Entry, max: nat): (Table, Option<string>) {
    if e in t.byKey then (t, Some(t.byKey[e]))
    else if |t.byTok| >= max then (t, None)
    else
      var tok := Token(t.n + 1);
      (Table(t.n + 1, t.byKey[e := tok], t.byTok[tok := e]), Some(tok))
  }

  ghost predicate IsToken(tok: string, n: nat) { exists i :: 1 <= i <= n && tok == Token(i) }

  ghost predicate Inverse(t: Table) {
    && (forall e :: e in t.byKey ==> t.byKey[e] in t.byTok && t.byTok[t.byKey[e]] == e)
    && (forall tok :: tok in t.byTok ==> t.byTok[tok] in t.byKey && t.byKey[t.byTok[tok]] == tok)
  }

  /** Tokens 1 to n are in use, and the two maps are inverse to each other. */
  ghost predicate Coherent(t: Table) {
    |t.byTok| == t.n && (forall tok :: tok in t.byTok ==> IsToken(tok, t.n)) && Inverse(t)
  }

  lemma EmptyIsCoherent()
    ensures Coherent(EMPTY)
  {
  }

  /** Nothing that `t` knows is forgotten or changed in `t'`. */
  ghost predicate Extends(t: Table, t': Table) {
    t.n <= t'.n && forall tok :: tok in t.byTok ==> tok in t'.byTok && t'.byTok[tok] == t.byTok[tok]
  }

  lemma NextTokenIsFresh(t: Table)
    requires Coherent(t)
    ensures Token(t.n + 1) !in t.byTok
  {
    var tok := Token(t.n + 1);
    if tok in t.byTok {
      assert IsToken(tok, t.n);
      var i :| 1 <= i <= t.n && tok == Token(i);
      TokenInjective(i, t.n + 1);
    }
  }

  lemma NewTokensNumbered(t: Table, tok: string)
    requires Coherent(t) && (tok in t.byTok || tok == Token(t.n + 1))
    ensures IsToken(tok, t.n + 1)
  {
    if tok in t.byTok {
      assert IsToken(tok, t.n);
      var i :| 1 <= i <= t.n && tok == Token(i);
      assert 1 <= i <= t.n + 1;
    } else {
      assert 1 <= t.n + 1 <= t.n + 1;
    }
  }

  lemma NewEntryKeepsInverse(t: Table, e: Entry, tok: string)
    requires Inverse(t) && e !in t.byKey && tok !in t.byTok
    ensures Inverse(Table(t.n + 1, t.byKey[e := tok], t.byTok[tok := e]))
  {
  }

  /** Interning keeps the table coherent, forgets nothing, and the token reads back the entry. */
  lemma InternKeeps(t: Table, e: Entry, max: nat)
    requires Coherent(t)
    ensures var (t', r) := Intern(t, e, max);
            && Coherent(t') && Extends(t, t')
            && (r.Some? ==> r.value in t'.byTok && t'.byTok[r.value] == e)
  {
    if e !in t.byKey && |t.byTok| < max { Added(t, e, Token(t.n + 1)); }
  }

  /** A known entry changes nothing, a new one takes the next number, and only a new one can find the table full. */
  lemma InternExactly(t: Table, e: Entry, max: nat)
    requires Coherent(t)
    ensures var (t', r) := Intern(t, e, max);
            && (r.None? <==> e !in t.byKey && t.n >= max)
            && (r.None? || e in t.byKey ==> t' == t)
            && (r.Some? && e !in t.byKey ==>
                  t'.n == t.n + 1 && r.value == Token(t'.n) && t'.byTok.Keys == t.byTok.Keys + {r.value})
  {
  }

  lemma Added(t: Table, e: Entry, tok: string)
    requires Coherent(t) && e !in t.byKey && tok == Token(t.n + 1)
    ensures var t' := Table(t.n + 1, t.byKey[e := tok], t.byTok[tok := e]); Coherent(t') && Extends(t, t')
  {
    NextTokenIsFresh(t);
    var t' := Table(t.n + 1, t.byKey[e := tok], t.byTok[tok := e]);
    NewEntryKeepsInverse(t, e, tok);
    assert t'.byTok.Keys == t.byTok.Keys + {tok};
    forall x | x in t'.byTok ensures IsToken(x, t'.n) { NewTokensNumbered(t, x); }
  }

  function TokenSet(n: nat): set<string> { if n == 0 then {} else TokenSet(n - 1) + {Token(n)} }

  lemma {:induction false} TokenSetSize(n: nat)
    ensures |TokenSet(n)| <= n
  {
    if n > 0 { TokenSetSize(n - 1); }
  }

  lemma {:induction false} TokenSetMembers(n: nat, tok: string)
    ensures tok in TokenSet(n) <==> IsToken(tok, n)
  {
    if n > 0 {
      TokenSetMembers(n - 1, tok);
      if IsToken(tok, n) {
        var i :| 1 <= i <= n && tok == Token(i);
        if i < n { assert IsToken(tok, n - 1); }
      }
    }
  }

  lemma FullSubset<T>(a: set<T>, b: set<T>)
    requires a <= b && |b| <= |a|
    ensures a == b
  {
    assert b == a + (b - a);
  }

  /** Exactly the tokens 1 to n have been handed out: every other one is refused on the way back. */
  lemma HandedOutTokens(t: Table, tok: string)
    requires Coherent(t)
    ensures tok in t.byTok <==> IsToken(tok, t.n)
  {
    forall x | x in t.byTok ensures x in TokenSet(t.n) { TokenSetMembers(t.n, x); }
    TokenSetSize(t.n);
    FullSubset(t.byTok.Keys, TokenSet(t.n));
    TokenSetMembers(t.n, tok);
  }

  class Exchange {
    var n: nat
    var byKey: map<Entry, string>
    var byTok: map<string, Entry>
    const expires: int

    ghost function Abs(): Table reads this { Table(n, byKey, byTok) }

    constructor (expires: int)
      ensures this.expires == expires && Abs() == EMPTY
    {
      this.expires := expires;
      n, byKey, byTok := 0, map[], map[];
    }

    method InternEntry(e: Entry, max: nat) returns (tok: Option<string>)
      modifies this
      ensures (Abs(), tok) == Intern(old(Abs()), e, max)
    {
      if e in byKey { return Some(byKey[e]); }
      if |byTok| >= max { return None; }
      n := n + 1;
      var t := Token(n);
      byKey := byKey[e := t];
      byTok := byTok[t := e];
      tok := Some(t);
    }

    /** Answers exactly for the tokens handed out so far, with the value whose token it is. */
    method Lookup(tok: string) returns (e: Option<Entry>)
      ensures e.Some? ==> tok in byTok && e.value == byTok[tok]
      ensures Coherent(Abs()) && e.Some? ==> e.value in byKey && byKey[e.value] == tok
      ensures e.None? ==> tok !in byTok
      ensures Coherent(Abs()) ==> (e.Some? <==> IsToken(tok, n))
    {
      if Coherent(Abs()) { HandedOutTokens(Abs(), tok); }
      if tok in byTok { return Some(byTok[tok]); }
      e := None;
    }

    /** Forgets every value; the counter goes on, so that no token is ever used twice. */
    method Wipe()
      modifies this`byKey, this`byTok
      ensures byKey == map[] && byTok == map[]
    {
      byKey, byTok := map[], map[];
    }
  }

  // ---------------------------------------------------------------------------------------------
  // The vault
  // ---------------------------------------------------------------------------------------------

  datatype Slot = Slot(expires: int, table: Table)
  type Vault = map<string, Slot>
  datatype Limits = Limits(maxExchanges: nat, maxEntries: nat, maxTTL: nat)
  datatype OpenError = BadId | BadExpiry | Saturated

  function Purge(v: Vault, now: int): Vault { map id | id in v && now < v[id].expires :: v[id] }

  function Open(l: Limits, v: Vault, id: string, expiry: int, now: int): (Vault, Option<OpenError>) {
    if |id| < 1 || |id| > 128 then (v, Some(BadId)) else OpenLive(l, Purge(v, now), id, expiry, now)
  }

  function OpenLive(l: Limits, live: Vault, id: string, expiry: int, now: int): (Vault, Option<OpenError>) {
    if id in live then (live, None)
    else if expiry <= now then (live, Some(BadExpiry))
    else if |live| >= l.maxExchanges then (live, Some(Saturated))
    else (live[id := Slot(Min(expiry, now + l.maxTTL), EMPTY)], None)
  }

  function Close(v: Vault, id: string): Vault { v - {id} }

  function LiveIds(v: Vault, now: int): set<string> { set id | id in v && now < v[id].expires }

  /** Opening: an exchange that is alive is found as it is; a new one needs a future expiry and a free place. */
  lemma OpenExactly(l: Limits, v: Vault, id: string, expiry: int, now: int, other: string)
    ensures var (v', e) := Open(l, v, id, expiry, now);
            var named, alive := 1 <= |id| <= 128, id in v && now < v[id].expires;
            var free := |LiveIds(v, now)| < l.maxExchanges;
            && (e == Some(BadId) <==> !named)
            && (e == Some(BadExpiry) <==> named && !alive && expiry <= now)
            && (e == Some(Saturated) <==> named && !alive && expiry > now && !free)
            && (e == None <==> named && (alive || (expiry > now && free)))
            && (!named ==> v' == v)
            && (named && other != id ==> (other in v' <==> other in v && now < v[other].expires))
            && (named && other != id && other in v' ==> v'[other] == v[other])
            && (named ==> (id in v' <==> e == None))
            && (named && alive ==> v'[id] == v[id])
            && (e == None && !alive ==>
                  && v'[id].table == EMPTY && v'[id].expires <= expiry && v'[id].expires <= now + l.maxTTL
                  && (v'[id].expires == expiry || v'[id].expires == now + l.maxTTL))
  {
    assert Purge(v, now).Keys == LiveIds(v, now);
  }
}
