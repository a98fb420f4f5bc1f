/**
  The bounded anti-replay cache: a fixed ring of consumed token ids with a membership set beside it.

  `Consume` specifies `CheckAndConsume` on the window of recorded entries, oldest first; class `Cache`
  is the ring.  Times are whole Unix seconds, as in the code.

  The code stamps a request with the clock before it takes the lock, so the stamps of a run need not be
  in order even when the clock never goes back.
*/
module AntiReplay {
  type Jti = seq<int>
  datatype Entry = Entry(jti: Jti, exp: int)
  datatype State = State(window: seq<Entry>, tripped: bool, alarms: nat)

  const EMPTY := State([], false, 0)

  function Ids(w: seq<Entry>): set<Jti> { set e | e in w :: e.jti }

  ghost predicate Distinct(w: seq<Entry>) {
    forall i, j :: 0 <= i < j < |w| ==> w[i].jti != w[j].jti
  }

  /** The lazy purge stops at the first entry that is not expired; an entry is live to the end of its expiry second. */
  function PurgeHead(w: seq<Entry>, now: int): seq<Entry> {
    if w != [] && w[0].exp < now then PurgeHead(w[1..], now) else w
  }

  function Unexpired(w: seq<Entry>, now: int): seq<Entry> {
    if w == [] then []
    else Unexpired(w[..|w| - 1], now) + (if w[|w| - 1].exp >= now then [w[|w| - 1]] else [])
  }

  function Consume(cap: nat, s: State, jti: Jti, exp: int, now: int): (State, bool) {
    var w := PurgeHead(s.window, now);
    if jti in Ids(w) then (s.(window := w), false) else Record(cap, s.(window := w), jti, exp, now)
  }

  /** An id that is not held is recorded, if there is room for it. */
  function Record(cap: nat, s: State, jti: Jti, exp: int, now: int): (State, bool) {
    var kept := if |s.window| == cap then Unexpired(s.window, now) else s.window;
    if |kept| == cap then (State(kept, true, if s.tripped then s.alarms else s.alarms + 1), false)
    else (s.(window := kept + [Entry(jti, exp)]), true)
  }

  // ---------------------------------------------------------------------------------------------
  // The ring
  // ---------------------------------------------------------------------------------------------

  const BLANK := Entry([], 0)

  /** The i-th position after `head` in a ring of `n` slots. */
  function Pos(head: nat, i: nat, n: nat): nat
    requires head < n && i <= n
  {
    if head + i < n then head + i else head + i - n
  }

  lemma ModIsPos(head: nat, i: nat, n: nat)
    requires head < n && i <= n
    ensures (head + i) % n == Pos(head, i, n)
  {
    if head + i >= n { ModOfSum(head + i - n, n); }
  }

  lemma ModOfSum(x: nat, n: nat)
    requires x < n
    ensures (x + n) % n == x
  {
    var q, r := (x + n) / n, (x + n) % n;
    assert (q - 1) * n == x - r;
    assert 0 - n < x - r < n;
  }

  lemma HeadId(w: seq<Entry>)
    requires w != [] && Distinct(w)
    ensures Ids(w) - {w[0].jti} == Ids(w[1..]) && Distinct(w[1..])
  {
    assert w == [w[0]] + w[1..];
  }

  class Cache {
    const ring: array<Entry>
    var head: nat
    var count: nat
    var members: set<Jti>
    var tripped: bool
    /** How often the alarm hook was called. */
    var alarms: nat

    ghost predicate Shape() reads this { head < ring.Length && count <= ring.Length }

    ghost function Window(): seq<Entry>
      requires Shape()
      reads this, ring
    {
      seq(count, i requires 0 <= i < count && Shape() reads this, ring => ring[Pos(head, i, ring.Length)])
    }

    ghost predicate Valid() reads this, ring {
      Shape() && members == Ids(Window()) && Distinct(Window())
    }

    ghost function Abs(): State
      requires Shape()
      reads this, ring
    {
      State(Window(), tripped, alarms)
    }

    constructor (capacity: nat)
      requires capacity > 0
      ensures Valid() && fresh(ring) && ring.Length == capacity && Abs() == EMPTY
    {
      ring := new Entry[capacity](i => BLANK);
      head, count, members, tripped, alarms := 0, 0, {}, false, 0;
    }

    method PurgeHeadInPlace(now: int)
      requires Valid()
      modifies this`head, this`count, this`members, ring
      ensures Valid() && Window() == PurgeHead(old(Window()), now)
    {
      while count > 0 && ring[head].exp < now
        invariant Valid()
        invariant PurgeHead(Window(), now) == PurgeHead(old(Window()), now)
        decreases count
      {
        assert Window()[0] == ring[head];
        DropHead();
      }
    }

    /** Forgets the oldest entry. */
    method DropHead()
      requires Valid() && count > 0
      modifies this`head, this`count, this`members, ring
      ensures Valid() && Window() == old(Window())[1..] && count == old(count) - 1
    {
      ghost var w := Window();
      HeadId(w);
      members := members - {ring[head].jti};
      ring[head] := BLANK;
      ModIsPos(head, 1, ring.Length);
      head := (head + 1) % ring.Length;
      count := count - 1;
      assert Window() == w[1..];
    }

    /** First pass of the full purge: collect the live entries, forget the ids of the others. */
    method CollectUnexpired(now: int) returns (kept: seq<Entry>)
      requires Valid()
      modifies this`members
      ensures Window() == old(Window()) && |kept| <= count
      ensures kept == Unexpired(Window(), now) && members == Ids(Unexpired(Window(), now))
    {
      ghost var w := Window();
      kept := [];
      for i := 0 to count
        invariant Shape() && Window() == w && |kept| <= i
        invariant kept == Unexpired(w[..i], now) && members == Collected(w, i, now)
      {
        ModIsPos(head, i, ring.Length);
        var slot := ring[(head + i) % ring.Length];
        assert slot == w[i];
        DropOneId(w, i, now);
        if slot.exp >= now {
          kept := kept + [slot];
        } else {
          members := members - {slot.jti};
        }
      }
      assert w[..count] == w && w[count..] == [];
    }

    /** Second pass: clear the ring and copy the live entries to its start. */
    method Compact(kept: seq<Entry>)
      requires |kept| <= ring.Length && 0 < ring.Length
      modifies this`head, this`count, ring
      ensures Shape() && Window() == kept
    {
      forall i | 0 <= i < ring.Length { ring[i] := BLANK; }
      forall i | 0 <= i < |kept| { ring[i] := kept[i]; }
      head := 0;
      count := |kept|;
    }

    /** Drops every expired entry and compacts the ring, keeping the insertion order. */
    method PurgeAllInPlace(now: int)
      requires Valid()
      modifies this`head, this`count, this`members, ring
      ensures Valid() && Window() == Unexpired(old(Window()), now)
    {
      if count == 0 { return; }
      var kept := CollectUnexpired(now);
      UnexpiredDistinct(Window(), now);
      Compact(kept);
    }

    method Trip()
      modifies this`tripped, this`alarms
      ensures tripped && alarms == if old(tripped) then old(alarms) else old(alarms) + 1
    {
      if tripped { return; }
      tripped := true;
      alarms := alarms + 1;
    }

    method Insert(jti: Jti, exp: int)
      requires Valid() && count < ring.Length && jti !in members
      modifies this`count, this`members, ring
      ensures Valid() && Window() == old(Window()) + [Entry(jti, exp)]
    {
      ghost var w := Window();
      ModIsPos(head, count, ring.Length);
      var slot := (head + count) % ring.Length;
      ring[slot] := Entry(jti, exp);
      members := members + {jti};
      count := count + 1;
      assert Window() == w + [Entry(jti, exp)];
      assert forall i :: 0 <= i < |w| ==> w[i].jti in Ids(w);
    }

    /** At saturation only: purge everywhere, and raise the alarm if that frees nothing. */
    method MakeRoom(now: int) returns (ok: bool)
      requires Valid()
      modifies this, ring
      ensures Valid()
      ensures Window() == if |old(Window())| == ring.Length then Unexpired(old(Window()), now) else old(Window())
      ensures ok <==> |Window()| < ring.Length
      ensures if ok then tripped == old(tripped) && alarms == old(alarms)
              else tripped && alarms == if old(tripped) then old(alarms) else old(alarms) + 1
    {
      assert |Window()| == count;
      if count == ring.Length {
        PurgeAllInPlace(now);
        if count == ring.Length {
          ghost var w := Window();
          Trip();
          assert Window() == w;
          return false;
        }
      }
      ok := true;
    }

    method CheckAndConsume(jti: Jti, exp: int, now: int) returns (ok: bool)
      requires Valid()
      modifies this, ring
      ensures Valid() && (Abs(), ok) == Consume(ring.Length, old(Abs()), jti, exp, now)
    {
      ghost var s := Abs();
      PurgeHeadInPlace(now);
      ghost var s1 := s.(window := PurgeHead(s.window, now));
      assert Abs() == s1;
      if jti in members { return false; }
      ok := RecordNew(jti, exp, now);
      RecordIs(ring.Length, s1, Abs(), ok, jti, exp, now);
    }

    method RecordNew(jti: Jti, exp: int, now: int) returns (ok: bool)
      requires Valid() && jti !in members
      modifies this, ring
      ensures Valid() && Recorded(ring.Length, old(Abs()), Abs(), ok, jti, exp, now)
    {
      ghost var s := Abs();
      UnexpiredIds(s.window, now);
      ok := MakeRoom(now);
      ghost var kept := Window();
      assert kept == if |s.window| == ring.Length then Unexpired(s.window, now) else s.window;
      if ok { Insert(jti, exp); }
    }
  }

  /** The same, window and alarm apart. */
  ghost predicate Recorded(cap: nat, s: State, s': State, ok: bool, jti: Jti, exp: int, now: int) {
    var kept := if |s.window| == cap then Unexpired(s.window, now) else s.window;
    && (ok <==> |kept| != cap)
    && s'.window == (if ok then kept + [Entry(jti, exp)] else kept)
    && s'.tripped == (s.tripped || !ok)
    && s'.alarms == if !ok && !s.tripped then s.alarms + 1 else s.alarms
  }

  lemma RecordIs(cap: nat, s: State, s': State, ok: bool, jti: Jti, exp: int, now: int)
    requires Recorded(cap, s, s', ok, jti, exp, now)
    ensures (s', ok) == Record(cap, s, jti, exp, now)
  {
  }

  lemma {:induction false} UnexpiredIds(w: seq<Entry>, now: int)
    ensures |Unexpired(w, now)| <= |w|
    ensures forall e :: e in Unexpired(w, now) <==> e in w && e.exp >= now
    ensures Ids(Unexpired(w, now)) <= Ids(w)
  {
    if w != [] {
      UnexpiredIds(w[..|w| - 1], now);
      assert w == w[..|w| - 1] + [w[|w| - 1]];
    }
  }

  /** The ids that are left when the first `i` entries have been looked at. */
  function Collected(w: seq<Entry>, i: nat, now: int): set<Jti>
    requires i <= |w|
  {
    Ids(Unexpired(w[..i], now)) + Ids(w[i..])
  }

  /** One step of the first pass, on sets of ids. */
  lemma DropOneId(w: seq<Entry>, i: nat, now: int)
    requires i < |w| && Distinct(w)
    ensures Unexpired(w[..i + 1], now) == Unexpired(w[..i], now) + (if w[i].exp >= now then [w[i]] else [])
    ensures Collected(w, i + 1, now) ==
            if w[i].exp >= now then Collected(w, i, now) else Collected(w, i, now) - {w[i].jti}
  {
    UnexpiredIds(w[..i], now);
    assert w[..i + 1][..i] == w[..i];
    assert w[i..] == [w[i]] + w[i + 1..];
    assert Ids(w[i..]) == {w[i].jti} + Ids(w[i + 1..]);
    assert w[i].jti !in Ids(w[..i]) && w[i].jti !in Ids(w[i + 1..]);
  }

  lemma {:induction false} UnexpiredDistinct(w: seq<Entry>, now: int)
    requires Distinct(w)
    ensures Distinct(Unexpired(w, now))
  {
    if w != [] {
      var front := w[..|w| - 1];
      UnexpiredDistinct(front, now);
      UnexpiredIds(front, now);
      forall i | 0 <= i < |Unexpired(front, now)| ensures Unexpired(front, now)[i].jti != w[|w| - 1].jti {
        assert Unexpired(front, now)[i] in front;
      }
    }
  }

  // ---------------------------------------------------------------------------------------------
  // Runs
  // ---------------------------------------------------------------------------------------------

  datatype Request = Request(jti: Jti, exp: int, now: int)

  ghost function After(cap: nat, reqs: seq<Request>): State {
    if reqs == [] then EMPTY else
    var r := reqs[|reqs| - 1];
    Consume(cap, After(cap, reqs[..|reqs| - 1]), r.jti, r.exp, r.now).0
  }

  /** Was the k-th request of the run accepted? */
  ghost predicate Accepted(cap: nat, reqs: seq<Request>, k: nat)
    requires k < |reqs|
  {
    Consume(cap, After(cap, reqs[..k]), reqs[k].jti, reqs[k].exp, reqs[k].now).1
  }

  /** No request with a later stamp than the j-th one entered between the i-th and the j-th. */
  ghost predicate NoLaterStamp(reqs: seq<Request>, i: nat, j: nat)
    requires i < j < |reqs|
  {
    forall k :: i < k < j ==> reqs[k].now <= reqs[j].now
  }

  lemma {:induction false} PurgeHeadKeeps(w: seq<Entry>, now: int)
    ensures |PurgeHead(w, now)| <= |w| && PurgeHead(w, now) == w[|w| - |PurgeHead(w, now)|..]
    ensures forall i :: 0 <= i < |w| - |PurgeHead(w, now)| ==> w[i].exp < now
  {
    if w != [] && w[0].exp < now {
      PurgeHeadKeeps(w[1..], now);
      assert forall i :: 1 <= i < |w| ==> w[i] == w[1..][i - 1];
    }
  }

  lemma {:induction false} UnexpiredConcat(a: seq<Entry>, b: seq<Entry>, now: int)
    ensures Unexpired(a + b, now) == Unexpired(a, now) + Unexpired(b, now)
  {
    if b == [] {
      assert a + b == a;
    } else {
      UnexpiredConcat(a, b[..|b| - 1], now);
      assert (a + b)[..|a + b| - 1] == a + b[..|b| - 1];
    }
  }

  lemma {:induction false} NoneUnexpired(w: seq<Entry>, now: int)
    requires forall i :: 0 <= i < |w| ==> w[i].exp < now
    ensures Unexpired(w, now) == []
  {
    if w != [] { NoneUnexpired(w[..|w| - 1], now); }
  }

  /** The lazy purge never changes the set of unexpired entries. */
  lemma PurgeHeadUnexpired(w: seq<Entry>, now: int)
    ensures Unexpired(PurgeHead(w, now), now) == Unexpired(w, now)
  {
    PurgeHeadKeeps(w, now);
    var k := |w| - |PurgeHead(w, now)|;
    assert w == w[..k] + w[k..];
    UnexpiredConcat(w[..k], w[k..], now);
    NoneUnexpired(w[..k], now);
  }

  /**
    The decision in terms of the simple set: a request is accepted exactly when its id is not among the
    entries that the lazy purge leaves, and fewer than `cap` unexpired ids are held.
  */
  lemma AcceptedIff(cap: nat, s: State, jti: Jti, exp: int, now: int)
    requires |s.window| <= cap
    ensures Consume(cap, s, jti, exp, now).1 <==>
            jti !in Ids(PurgeHead(s.window, now)) && |Unexpired(s.window, now)| < cap
  {
    PurgeHeadKeeps(s.window, now);
    PurgeHeadUnexpired(s.window, now);
    UnexpiredIds(PurgeHead(s.window, now), now);
  }

  /** No unexpired entry is ever dropped, compaction included, and an accepted id is recorded. */
  lemma NothingLiveDropped(cap: nat, s: State, jti: Jti, exp: int, now: int)
    ensures var (s', ok) := Consume(cap, s, jti, exp, now);
            && (forall e :: e in s.window && e.exp >= now ==> e in s'.window)
            && (forall e :: e in s'.window ==> e in s.window || (ok && e == Entry(jti, exp)))
            && (ok ==> Entry(jti, exp) in s'.window)
  {
    var w := PurgeHead(s.window, now);
    PurgeHeadKeeps(s.window, now);
    UnexpiredIds(w, now);
    forall e | e in s.window && e.exp >= now ensures e in w {
      var i :| 0 <= i < |s.window| && s.window[i] == e;
      var k := |s.window| - |w|;
      assert i >= k;
      assert w[i - k] == e;
    }
  }

  /** The window never outgrows the ring, holds no id twice, and the alarm is latched. */
  ghost predicate Sound(cap: nat, s: State) {
    |s.window| <= cap && Distinct(s.window) && s.alarms == if s.tripped then 1 else 0
  }

  lemma ConsumeKeepsSound(cap: nat, s: State, jti: Jti, exp: int, now: int)
    requires Sound(cap, s)
    ensures Sound(cap, Consume(cap, s, jti, exp, now).0)
  {
    var w := PurgeHead(s.window, now);
    PurgeHeadDistinct(s.window, now);
    if jti !in Ids(w) {
      if |w| == cap {
        UnexpiredIds(w, now);
        UnexpiredDistinct(w, now);
        SnocDistinct(Unexpired(w, now), Entry(jti, exp));
      } else {
        SnocDistinct(w, Entry(jti, exp));
      }
    }
  }

  lemma PurgeHeadDistinct(w: seq<Entry>, now: int)
    requires Distinct(w)
    ensures Distinct(PurgeHead(w, now)) && |PurgeHead(w, now)| <= |w|
  {
    PurgeHeadKeeps(w, now);
  }

  lemma SnocDistinct(w: seq<Entry>, e: Entry)
    requires Distinct(w) && e.jti !in Ids(w)
    ensures Distinct(w + [e])
  {
    assert forall i :: 0 <= i < |w| ==> w[i].jti in Ids(w);
  }

  lemma {:induction false} RunInvariant(cap: nat, reqs: seq<Request>)
    requires cap > 0
    ensures Sound(cap, After(cap, reqs))
  {
    if reqs != [] {
      var front, r := reqs[..|reqs| - 1], reqs[|reqs| - 1];
      RunInvariant(cap, front);
      ConsumeKeepsSound(cap, After(cap, front), r.jti, r.exp, r.now);
    }
  }

  /** An accepted id stays recorded until a request enters with a stamp after its expiry. */
  lemma {:induction false} StaysRecorded(cap: nat, reqs: seq<Request>, i: nat)
    requires i < |reqs| && Accepted(cap, reqs, i)
    requires forall k :: i < k < |reqs| ==> reqs[k].now <= reqs[i].exp
    ensures Entry(reqs[i].jti, reqs[i].exp) in After(cap, reqs).window
    decreases |reqs|
  {
    var front, r := reqs[..|reqs| - 1], reqs[|reqs| - 1];
    NothingLiveDropped(cap, After(cap, front), r.jti, r.exp, r.now);
    if i < |front| {
      assert front[..i] == reqs[..i];
      StaysRecorded(cap, front, i);
    } else {
      assert front == reqs[..i];
    }
  }

  /** A recorded id is refused as long as it is unexpired. */
  lemma RecordedIsRefused(cap: nat, s: State, e: Entry, exp: int, now: int)
    requires e in s.window && now <= e.exp
    ensures !Consume(cap, s, e.jti, exp, now).1
  {
    PurgeHeadUnexpired(s.window, now);
    UnexpiredIds(s.window, now);
    UnexpiredIds(PurgeHead(s.window, now), now);
  }

  /**
    No replay, in whatever order the stamps come: between two acceptances of one id, a request has entered
    with a stamp after the expiry of the first.
  */
  lemma NoReplay(cap: nat, reqs: seq<Request>, i: nat, j: nat)
    requires i < j < |reqs| && reqs[i].jti == reqs[j].jti
    requires Accepted(cap, reqs, i) && Accepted(cap, reqs, j)
    ensures exists k :: i < k <= j && reqs[i].exp < reqs[k].now
  {
    if forall k :: i < k <= j ==> reqs[k].now <= reqs[i].exp {
      var prefix := reqs[..j];
      assert prefix[..i] == reqs[..i];
      StaysRecorded(cap, prefix, i);
      RecordedIsRefused(cap, After(cap, prefix), Entry(reqs[i].jti, reqs[i].exp), reqs[j].exp, reqs[j].now);
    }
  }

  /** The form that is relied on: an accepted id is not accepted again up to its expiry second. */
  lemma NoReplayInOrder(cap: nat, reqs: seq<Request>, i: nat, j: nat)
    requires i < j < |reqs| && reqs[i].jti == reqs[j].jti && NoLaterStamp(reqs, i, j)
    requires Accepted(cap, reqs, i) && Accepted(cap, reqs, j)
    ensures reqs[i].exp < reqs[j].now
  {
    NoReplay(cap, reqs, i, j);
  }

  /**
    The order is needed.  Two requests for one id, both stamped in time, are both accepted when a third one
    with a later stamp has entered between them: it purged the first entry.
  */
  lemma LateEntryReplays(cap: nat, j: Jti, exp: int, t1: int, t3: int, k: Jti, exp2: int, t2: int)
    requires cap >= 2 && j != k && t1 <= exp && t3 <= exp < t2
    ensures var reqs := [Request(j, exp, t1), Request(k, exp2, t2), Request(j, exp, t3)];
            Accepted(cap, reqs, 0) && Accepted(cap, reqs, 2) && reqs[2].now <= reqs[0].exp
  {
    var reqs := [Request(j, exp, t1), Request(k, exp2, t2), Request(j, exp, t3)];
    assert reqs[..0] == [] && reqs[..1][..0] == [] && reqs[..2][..1] == reqs[..1];
    assert After(cap, reqs[..1]).window == [Entry(j, exp)];
    PurgeOne(Entry(j, exp), t2);
    assert After(cap, reqs[..2]).window == [Entry(k, exp2)];
    PurgeOne(Entry(k, exp2), t3);
  }

  lemma PurgeOne(e: Entry, now: int)
    ensures PurgeHead([e], now) == if e.exp < now then [] else [e]
  {
    assert [e][1..] == [];
  }

  /** Id J, good until second 10, is accepted twice at second 10. */
  lemma ReplayAtTheLastSecond()
    ensures var reqs := [Request([1], 10, 10), Request([2], 20, 11), Request([1], 10, 10)];
            Accepted(4, reqs, 0) && Accepted(4, reqs, 2)
  {
    LateEntryReplays(4, [1], 10, 10, 10, [2], 20, 11);
  }

  /** Every refusal is a recorded id, or a ring that really holds `cap` different unexpired ids. */
  lemma RefusalMeans(cap: nat, reqs: seq<Request>, k: nat)
    requires cap > 0 && k < |reqs| && !Accepted(cap, reqs, k)
    ensures var w := After(cap, reqs[..k]).window;
            reqs[k].jti in Ids(w) || (Distinct(Unexpired(w, reqs[k].now)) && |Unexpired(w, reqs[k].now)| == cap)
  {
    var s := After(cap, reqs[..k]);
    RunInvariant(cap, reqs[..k]);
    AcceptedIff(cap, s, reqs[k].jti, reqs[k].exp, reqs[k].now);
    PurgeHeadKeeps(s.window, reqs[k].now);
    UnexpiredIds(s.window, reqs[k].now);
    UnexpiredDistinct(s.window, reqs[k].now);
  }

  /** The saturation alarm is raised at most once in any run. */
  lemma AlarmAtMostOnce(cap: nat, reqs: seq<Request>)
    requires cap > 0
    ensures After(cap, reqs).alarms <= 1
  {
    RunInvariant(cap, reqs);
  }

  // ---------------------------------------------------------------------------------------------
  // The exact answer, told from the positions in the window
  // ---------------------------------------------------------------------------------------------

  /** An entry is held as long as it, or one recorded before it, has not expired. */
  ghost predicate Held(w: seq<Entry>, i: nat, now: int) { i < |w| && exists k :: 0 <= k <= i && w[k].exp >= now }

  /** The id is recorded at a position that is still held. */
  ghost predicate Seen(w: seq<Entry>, jti: Jti, now: int) {
    exists i :: 0 <= i < |w| && w[i].jti == jti && Held(w, i, now)
  }

  ghost function LivePlaces(w: seq<Entry>, now: int): set<nat> { set i: nat | i < |w| && w[i].exp >= now }

  lemma {:induction false} UnexpiredCount(w: seq<Entry>, now: int)
    ensures |Unexpired(w, now)| == |LivePlaces(w, now)|
  {
    if w == [] {
      assert LivePlaces(w, now) == {};
    } else {
      var n := |w| - 1;
      UnexpiredCount(w[..n], now);
      assert LivePlaces(w, now) == LivePlaces(w[..n], now) + (if w[n].exp >= now then {n} else {});
    }
  }

  lemma {:induction false} PurgeHeadStops(w: seq<Entry>, now: int)
    ensures PurgeHead(w, now) != [] ==> PurgeHead(w, now)[0].exp >= now
  {
    if w != [] && w[0].exp < now { PurgeHeadStops(w[1..], now); }
  }

  lemma SeenStays(w: seq<Entry>, rest: seq<Entry>, jti: Jti, now: int)
    requires |rest| <= |w| && rest == w[|w| - |rest|..] && Seen(w, jti, now)
    requires forall i :: 0 <= i < |w| - |rest| ==> w[i].exp < now
    ensures jti in Ids(rest)
  {
    var i :| 0 <= i < |w| && w[i].jti == jti && Held(w, i, now);
    assert rest[i - (|w| - |rest|)] == w[i];
  }

  lemma LeftIsSeen(w: seq<Entry>, rest: seq<Entry>, jti: Jti, now: int)
    requires |rest| <= |w| && rest == w[|w| - |rest|..] && (rest != [] ==> rest[0].exp >= now) && jti in Ids(rest)
    ensures Seen(w, jti, now)
  {
    var k := |w| - |rest|;
    var e :| e in rest && e.jti == jti;
    var i :| 0 <= i < |rest| && rest[i] == e;
    assert w[k] == rest[0] && w[k + i] == e;
    assert Held(w, k + i, now);
  }

  lemma SeenExactly(w: seq<Entry>, jti: Jti, now: int)
    ensures jti in Ids(PurgeHead(w, now)) <==> Seen(w, jti, now)
  {
    PurgeHeadKeeps(w, now);
    PurgeHeadStops(w, now);
    if Seen(w, jti, now) { SeenStays(w, PurgeHead(w, now), jti, now); }
    if jti in Ids(PurgeHead(w, now)) { LeftIsSeen(w, PurgeHead(w, now), jti, now); }
  }

  /**
    A request is accepted exactly when its id is not seen and a place is not live; the alarm is raised by the first
    refusal that finds every place live.
  */
  lemma ConsumeExactly(cap: nat, s: State, jti: Jti, exp: int, now: int)
    requires |s.window| <= cap
    ensures var (s', ok) := Consume(cap, s, jti, exp, now);
            var full := !Seen(s.window, jti, now) && |LivePlaces(s.window, now)| == cap;
            && (ok <==> !Seen(s.window, jti, now) && |LivePlaces(s.window, now)| < cap)
            && (s'.tripped <==> s.tripped || full)
            && s'.alarms == s.alarms + (if full && !s.tripped then 1 else 0)
  {
    SeenExactly(s.window, jti, now);
    UnexpiredCount(s.window, now);
    AcceptedIff(cap, s, jti, exp, now);
    TrippedIff(cap, s, jti, exp, now);
  }

  lemma TrippedIff(cap: nat, s: State, jti: Jti, exp: int, now: int)
    requires |s.window| <= cap
    ensures var s' := Consume(cap, s, jti, exp, now).0;
            var full := jti !in Ids(PurgeHead(s.window, now)) && |Unexpired(s.window, now)| >= cap;
            (s'.tripped <==> s.tripped || full) && s'.alarms == s.alarms + (if full && !s.tripped then 1 else 0)
    ensures |Unexpired(s.window, now)| <= cap
  {
    PurgeHeadKeeps(s.window, now);
    PurgeHeadUnexpired(s.window, now);
    UnexpiredIds(PurgeHead(s.window, now), now);
  }

  /** The k-th request found `cap` live ids, and not its own among those held. */
  ghost predicate Saturates(cap: nat, reqs: seq<Request>, k: nat)
    requires k < |reqs|
  {
    var w := After(cap, reqs[..k]).window;
    !Seen(w, reqs[k].jti, reqs[k].now) && |LivePlaces(w, reqs[k].now)| == cap
  }

  /** The alarm has been raised, once, exactly when some request of the run found the ring full of live ids. */
  lemma {:induction false} AlarmExactly(cap: nat, reqs: seq<Request>)
    requires cap > 0
    ensures After(cap, reqs).tripped <==> exists k :: 0 <= k < |reqs| && Saturates(cap, reqs, k)
    ensures After(cap, reqs).alarms == if After(cap, reqs).tripped then 1 else 0
    decreases |reqs|
  {
    RunInvariant(cap, reqs);
    if reqs != [] {
      var n := |reqs| - 1;
      var front, r := reqs[..n], reqs[n];
      AlarmExactly(cap, front);
      RunInvariant(cap, front);
      ConsumeExactly(cap, After(cap, front), r.jti, r.exp, r.now);
      SaturatesBefore(cap, reqs);
    }
  }

  lemma SaturatesBefore(cap: nat, reqs: seq<Request>)
    requires reqs != []
    ensures var n := |reqs| - 1;
            (exists k :: 0 <= k < |reqs| && Saturates(cap, reqs, k)) <==>
            Saturates(cap, reqs, n) || exists k :: 0 <= k < n && Saturates(cap, reqs[..n], k)
  {
    var n := |reqs| - 1;
    forall k | 0 <= k < n ensures Saturates(cap, reqs, k) <==> Saturates(cap, reqs[..n], k) {
      assert reqs[..n][..k] == reqs[..k];
    }
  }
}
