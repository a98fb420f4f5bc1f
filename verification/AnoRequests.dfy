/** The two requests: masking a document, and restoring what comes back, in a named exchange of the vault. */
module AnoRequests {
  import opened Basics
  import opened AnoText
  import opened AnoVault
  import opened Anonymiser
  import opened AnoSize
  import opened AnoScript
  import opened AnoRoundTrip
  import AnoMethods
  import AnoLeaves
  import AnoExchange

  /** What arrives: a JSON document, with the length it was written in, or any other text. */
  datatype Payload = Document(value: Json, length: nat) | Plain(text: string)
  {
    function Length(): nat { if Document? then length else |text| }
  }

  /** What is to be masked: a document, or input that stops being one after these leaves. */
  datatype Input = WellFormed(value: Json) | Broken(leaves: seq<AnoLeaves.Met>)

  function MaskInput(c: Config, t: Table, x: Input): (Table, Result<Json, Error>) {
    match x
    case WellFormed(value) => Mask(c, t, value)
    case Broken(leaves) => var (t', e) := AnoLeaves.MaskBroken(c, t, leaves); (t', Err(e))
  }

  function MaskRequest(c: Config, b: Bounds, v: Vault, id: string, x: Input, length: nat, now: int)
    : (Vault, Result<Json, Error>)
  {
    if length > b.maxPayload then (v, Err(TooLarge)) else
    var live := Purge(v, now);
    if id !in live then (live, Err(UnknownExchange)) else
    var (t, r) := MaskInput(c, live[id].table, x);
    (live[id := live[id].(table := t)],
     if r.Ok? && Size(b, r.value) > b.maxPayload then Err(TooLarge) else r)
  }

  function UnmaskIn(b: Bounds, t: Table, p: Payload): Result<Payload, Error> {
    match p
    case Document(value, _) =>
      var (r, n) := UnmaskWithin(b, t, value, 0, 0);
      if r.Err? then Err(r.error) else Ok(Document(r.value, n))
    case Plain(text) =>
      if !HasToken(text) then Ok(p) else
      var r := ResolveWithin(b, Texts(t), text, 0);
      if r.Err? then Err(r.error) else Ok(Plain(r.value))
  }

  function UnmaskRequest(b: Bounds, v: Vault, id: string, p: Payload, now: int): (Vault, Result<Payload, Error>) {
    if p.Length() > b.maxPayload then (v, Err(TooLarge)) else
    var live := Purge(v, now);
    (live, if id !in live then Err(UnknownExchange) else UnmaskIn(b, live[id].table, p))
  }

  /** The masking itself changes the table of this exchange and no other. */
  method MaskHere(c: Config, store: AnoExchange.VaultStore, id: string, x: Input) returns (r: Result<Json, Error>)
    requires store.Valid() && id in store.slots
    modifies store.slots[id]
    ensures store.Valid()
    ensures (store.slots[id].Abs(), r) == MaskInput(c, old(store.slots[id].Abs()), x)
    ensures store.Abs() == old(store.Abs())[id := old(store.Abs())[id].(table := store.slots[id].Abs())]
  {
    var ex := store.slots[id];
    assert forall o :: o in store.slots && o != id ==> store.slots[o] != ex;
    r := MaskWith(c, ex, x);
  }

  method MaskWith(c: Config, ex: Exchange, x: Input) returns (r: Result<Json, Error>)
    modifies ex
    ensures (ex.Abs(), r) == MaskInput(c, old(ex.Abs()), x)
  {
    match x {
      case WellFormed(value) =>
        var calls;
        r, calls := AnoMethods.MaskValue(c, ex, [], value, 0, 0);
      case Broken(leaves) =>
        var e := AnoLeaves.MaskLeaves(c, ex, leaves);
        r := Err(e);
    }
  }

  /** Masks in the exchange if the vault has it; the values interned before a refusal stay. */
  method MaskJSON(c: Config, b: Bounds, store: AnoExchange.VaultStore, id: string, x: Input, length: nat, now: int)
    returns (r: Result<Json, Error>)
    requires store.Valid()
    modifies store`slots, store.slots.Values
    ensures store.Valid()
    ensures (store.Abs(), r) == MaskRequest(c, b, old(store.Abs()), id, x, length, now)
  {
    if length > b.maxPayload { return Err(TooLarge); }
    var found := store.GetExchange(id, now);
    if found.None? { return Err(UnknownExchange); }
    r := MaskHere(c, store, id, x);
    if r.Ok? && Size(b, r.value) > b.maxPayload { return Err(TooLarge); }
  }

  method UnmaskPayload(b: Bounds, store: AnoExchange.VaultStore, id: string, p: Payload, now: int)
    returns (r: Result<Payload, Error>)
    requires store.Valid()
    modifies store`slots, store.slots.Values
    ensures store.Valid()
    ensures (store.Abs(), r) == UnmaskRequest(b, old(store.Abs()), id, p, now)
  {
    if p.Length() > b.maxPayload { return Err(TooLarge); }
    var found := store.GetExchange(id, now);
    if found.None? { return Err(UnknownExchange); }
    match p {
      case Document(value, _) =>
        var x, n := AnoMethods.UnmaskValue(b, found.value, value, 0, 0);
        r := if x.Err? then Err(x.error) else Ok(Document(x.value, n));
      case Plain(text) =>
        var x := AnoMethods.ResolveText(b, found.value, text);
        r := if x.Err? then Err(x.error) else Ok(Plain(x.value));
    }
  }

  /** A document is answered exactly when the exchange is live, every token is known and the answer fits. */
  lemma AnsweredExactly(b: Bounds, v: Vault, id: string, value: Json, length: nat, now: int, x: Json, n: nat)
    requires b.Valid()
    ensures UnmaskRequest(b, v, id, Document(value, length), now).1 == Ok(Document(x, n)) <==>
            && length <= b.maxPayload
            && id in v && now < v[id].expires
            && Unmask(v[id].table, value, 0) == Ok(x)
            && n == Size(b, x) <= b.maxPayload
  {
    if id in v { UnmaskIsBounded(b, v[id].table, value, 0, 0); }
  }

  /** The same for a text. */
  lemma TextAnsweredExactly(b: Bounds, v: Vault, id: string, s: string, now: int, x: string)
    ensures UnmaskRequest(b, v, id, Plain(s), now).1 == Ok(Plain(x)) <==>
            && |s| <= b.maxPayload
            && id in v && now < v[id].expires
            && (if HasToken(s) then Resolve(Texts(v[id].table), s) == Some(x) else x == s)
            && |x| <= b.maxPayload
  {
    if id in v { ResolveIsBounded(b, Texts(v[id].table), s, 0); }
  }

  /**
    A masking request is answered exactly when a document within bounds is masked in a live exchange and the result
    fits.  In a live exchange the table takes what the masking interned, refused or not; no other one changes.
  */
  lemma MaskedExactly(c: Config, b: Bounds, v: Vault, id: string, x: Input, length: nat, now: int, m: Json,
                      other: string)
    ensures var (sent, r) := MaskRequest(c, b, v, id, x, length, now);
            var fits, alive := length <= b.maxPayload, id in v && now < v[id].expires;
            && (r == Ok(m) <==>
                && x.WellFormed? && fits && alive
                && Mask(c, v[id].table, x.value).1 == Ok(m) && Size(b, m) <= b.maxPayload)
            && (!fits ==> sent == v && r == Err(TooLarge))
            && (fits && !alive ==> id !in sent && r == Err(UnknownExchange))
            && (fits && alive ==> id in sent && sent[id].expires == v[id].expires)
            && (fits && alive && x.WellFormed? ==> sent[id].table == Mask(c, v[id].table, x.value).0)
            && (fits && other != id ==> (other in sent <==> other in v && now < v[other].expires))
            && (fits && other != id && other in sent ==> sent[other] == v[other])
  {
  }

  /**
    Input that is not JSON is never answered: nothing is sent, the table stays in order, and what its first leaves
    have interned stays.  Input that goes on after a document has interned the whole of it.
  */
  lemma BrokenIsRefused(c: Config, b: Bounds, v: Vault, id: string, leaves: seq<AnoLeaves.Met>, length: nat, now: int)
    ensures MaskRequest(c, b, v, id, Broken(leaves), length, now).1.Err?
    ensures var sent := MaskRequest(c, b, v, id, Broken(leaves), length, now).0;
            id in v && id in sent && Coherent(v[id].table) ==>
              Coherent(sent[id].table) && Extends(v[id].table, sent[id].table)
  {
    if id in v && Coherent(v[id].table) { BrokenKeeps(c, v[id].table, leaves); }
  }

  lemma BrokenKeeps(c: Config, t: Table, leaves: seq<AnoLeaves.Met>)
    requires Coherent(t)
    ensures var t' := MaskInput(c, t, Broken(leaves)).0; Coherent(t') && Extends(t, t')
  {
    AnoLeaves.LeavesKeep(c, t, leaves, 0);
  }

  lemma TrailingDataInterns(c: Config, t: Table, value: Json)
    requires AnoLeaves.Shallow(value, 0)
    ensures MaskInput(c, t, Broken(AnoLeaves.LeavesOf([], value))) ==
            (Mask(c, t, value).0, Err(if Mask(c, t, value).1.Err? then Mask(c, t, value).1.error else Unparsable))
  {
    AnoLeaves.LeavesMask(c, t, [], value, 0, 0);
  }

  /**
    The round trip between the two requests.  What a masking sent out comes back as the document that went in
    if and only if the exchange is still live, every number read is handed out and the texts agree, and the
    document fits as compact JSON.
  */
  lemma RequestRoundTrip(c: Config, b: Bounds, v: Vault, id: string, value: Json, length: nat, now: int, sent: Vault,
                         m: Json, w: Vault, later: int, table: Table)
    requires b.Valid() && id in v && Coherent(v[id].table)
    requires MaskRequest(c, b, v, id, WellFormed(value), length, now) == (sent, Ok(m))
    requires id in w && table == w[id].table && Readable(table)
    requires id in sent && Extends(sent[id].table, table)
    ensures Mask(c, v[id].table, value).1.Ok?
    ensures var s := MaskScript(c, v[id].table, value);
            && m == Write(s)
            && (UnmaskRequest(b, w, id, Document(m, Size(b, m)), later).1 == Ok(Document(value, Size(b, value))) <==>
                  && later < w[id].expires
                  && Resolvable(table, s) && Agrees(table, s)
                  && Size(b, value) <= b.maxPayload)
  {
    MaskedExactly(c, b, v, id, WellFormed(value), length, now, m, id);
    MaskUnmaskIff(c, v[id].table, value, table, m);
    AnsweredExactly(b, w, id, m, Size(b, m), later, value, Size(b, value));
  }
}
