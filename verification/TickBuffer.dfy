/** The tick buffer and the subscriptions that drain it. */
module Buffers {
  import opened Lists
  import opened Options
  import opened Ticks

  // ---- The drop-oldest buffer ----

  /** The queue after a push: a full one first loses its oldest tick. */
  function AfterPush(queue: seq<Tick>, capacity: nat, tick: Tick): (r: seq<Tick>)
    requires 0 < capacity && |queue| <= capacity
    ensures 0 < |r| <= capacity && r[|r| - 1] == tick
  {
    (if |queue| >= capacity then queue[1..] else queue) + [tick]
  }

  /** The newest `n` ticks, newest first. */
  function RecentOf(queue: seq<Tick>, n: nat): seq<Tick>
  {
    Reverse(LastOf(queue, n))
  }

  lemma RecentIs(queue: seq<Tick>, n: nat, ticks: seq<Tick>)
    requires |ticks| == if n <= |queue| then n else |queue|
    requires forall i :: 0 <= i < |ticks| ==> ticks[i] == queue[|queue| - 1 - i]
    ensures ticks == RecentOf(queue, n)
  {
    hide Reverse;
    forall k | 0 <= k < |ticks| ensures ticks[k] == RecentOf(queue, n)[k] {
      ReverseAt(LastOf(queue, n), k);
    }
  }

  function Violations(queue: seq<Tick>): seq<IntegrityViolation>
  {
    if queue == [] then []
    else Violations(queue[..|queue| - 1]) + Violation(queue[|queue| - 1])
  }

  function Violation(t: Tick): seq<IntegrityViolation>
  {
    match VerifyCrc(t)
    case Intact => []
    case Violated(v) => [v]
  }

  datatype PushOutcome = Appended | DroppedOldest

  class TickBuffer {
    var queue: seq<Tick>
    const capacity: nat

    ghost predicate Valid()
      reads this
    {
      0 < capacity && |queue| <= capacity
    }

    constructor (capacity: nat)
      requires capacity > 0
      ensures Valid() && queue == [] && this.capacity == capacity
    {
      this.capacity := capacity;
      queue := [];
    }

    method Push(tick: Tick) returns (outcome: PushOutcome)
      requires Valid()
      modifies this
      ensures Valid()
      ensures queue == AfterPush(old(queue), capacity, tick)
      ensures outcome == if |old(queue)| == capacity then DroppedOldest else Appended
    {
      outcome := Appended;
      if |queue| >= capacity {
        queue := queue[1..];
        outcome := DroppedOldest;
      }
      queue := queue + [tick];
    }

    method Pop() returns (tick: Option<Tick>)
      requires Valid()
      modifies this
      ensures Valid()
      ensures if old(queue) == [] then tick == None && queue == []
              else tick.Some? && [tick.value] + queue == old(queue)
    {
      if queue == [] {
        return None;
      }
      tick := Some(queue[0]);
      queue := queue[1..];
    }

    /** The newest `n` ticks, newest first. */
    method Recent(n: nat) returns (ticks: seq<Tick>)
      requires Valid()
      ensures |ticks| == if n <= |queue| then n else |queue|
      ensures forall i :: 0 <= i < |ticks| ==> ticks[i] == queue[|queue| - 1 - i]
      ensures ticks == RecentOf(queue, n)
    {
      ticks := [];
      var i := |queue|;
      while i > 0 && |ticks| < n
        invariant 0 <= i <= |queue| && |ticks| == |queue| - i <= n
        invariant forall k :: 0 <= k < |ticks| ==> ticks[k] == queue[|queue| - 1 - k]
      {
        i := i - 1;
        ticks := ticks + [queue[i]];
      }
      RecentIs(queue, n, ticks);
    }

    method VerifyAll() returns (violations: seq<IntegrityViolation>)
      requires Valid()
      ensures violations == Violations(queue)
    {
      violations := [];
      var i := 0;
      while i < |queue|
        invariant 0 <= i <= |queue|
        invariant violations == Violations(queue[..i])
      {
        assert queue[..i + 1][..i] == queue[..i];
        var verdict := VerifyCrc(queue[i]);
        if verdict.Violated? {
          violations := violations + [verdict.violation];
        }
        i := i + 1;
      }
      assert queue[..i] == queue;
    }
  }

  /** The sweep is silent exactly when every buffered record verifies. */
  lemma {:induction false} SweepFindsEveryViolation(queue: seq<Tick>)
    ensures Violations(queue) == [] <==> forall t :: t in queue ==> VerifyCrc(t) == Intact
    ensures forall t :: t in queue && VerifyCrc(t).Violated? ==> VerifyCrc(t).violation in Violations(queue)
  {
    if queue != [] {
      var init, last := queue[..|queue| - 1], queue[|queue| - 1];
      SweepFindsEveryViolation(init);
      assert queue == init + [last];
    }
  }

  /** The sweep reports in buffer order, oldest first: a longer buffer's violations follow those of its front. */
  lemma {:induction false} ViolationsInOrder(front: seq<Tick>, back: seq<Tick>)
    ensures Violations(front + back) == Violations(front) + Violations(back)
    decreases |back|
  {
    hide VerifyCrc, Violation;
    if back == [] {
      assert front + back == front;
    } else {
      var init := back[..|back| - 1];
      assert (front + back)[..|front + back| - 1] == front + init;
      ViolationsInOrder(front, init);
    }
  }

  /** Each record contributes its own violation, or nothing. */
  lemma ViolationOfOne(t: Tick)
    ensures Violations([t]) == match VerifyCrc(t) case Intact => [] case Violated(v) => [v]
  {
    hide VerifyCrc;
    assert [t][..0] == [];
    assert [] + Violation(t) == Violation(t);
  }

  // ---- Sorting by tick id ----

  predicate Sorted(s: seq<Tick>)
  {
    forall i, j :: 0 <= i < j < |s| ==> s[i].tickId <= s[j].tickId
  }

  predicate Increasing(s: seq<Tick>)
  {
    forall i, j :: 0 <= i < j < |s| ==> s[i].tickId < s[j].tickId
  }

  /** The ticks of one id, in order: what a stable sort must not disturb. */
  function OfId(s: seq<Tick>, id: nat): seq<Tick>
  {
    if s == [] then [] else (if s[0].tickId == id then [s[0]] else []) + OfId(s[1..], id)
  }

  ghost predicate IsStableSort(s: seq<Tick>, r: seq<Tick>)
  {
    Sorted(r) && forall id: nat :: OfId(r, id) == OfId(s, id)
  }

  function Insert(t: Tick, s: seq<Tick>): seq<Tick>
  {
    if s == [] || t.tickId <= s[0].tickId then [t] + s else [s[0]] + Insert(t, s[1..])
  }

  function SortById(s: seq<Tick>): seq<Tick>
  {
    if s == [] then [] else Insert(s[0], SortById(s[1..]))
  }

  lemma {:induction false} InsertMembers(t: Tick, s: seq<Tick>)
    ensures forall x :: x in Insert(t, s) <==> x == t || x in s
  {
    if s == [] || t.tickId <= s[0].tickId {
    } else {
      InsertMembers(t, s[1..]);
    }
  }

  lemma {:induction false} InsertSorted(t: Tick, s: seq<Tick>)
    requires Sorted(s)
    ensures Sorted(Insert(t, s))
  {
    if s == [] || t.tickId <= s[0].tickId {
    } else {
      InsertSorted(t, s[1..]);
      InsertMembers(t, s[1..]);
      var r := Insert(t, s[1..]);
      forall j | 0 <= j < |r| ensures s[0].tickId <= r[j].tickId {
        assert r[j] in r;
      }
    }
  }

  lemma {:induction false} InsertStable(t: Tick, s: seq<Tick>, id: nat)
    ensures OfId(Insert(t, s), id) == (if t.tickId == id then [t] else []) + OfId(s, id)
  {
    if s == [] || t.tickId <= s[0].tickId {
      OfIdCons(t, s, id);
    } else {
      InsertStable(t, s[1..], id);
      OfIdCons(s[0], Insert(t, s[1..]), id);
    }
  }

  lemma OfIdCons(t: Tick, s: seq<Tick>, id: nat)
    ensures OfId([t] + s, id) == (if t.tickId == id then [t] else []) + OfId(s, id)
  {
  }

  lemma {:induction false} SortIsStable(s: seq<Tick>)
    ensures IsStableSort(s, SortById(s))
  {
    if s != [] {
      SortIsStable(s[1..]);
      InsertSorted(s[0], SortById(s[1..]));
      forall id: nat ensures OfId(SortById(s), id) == OfId(s, id) {
        InsertStable(s[0], SortById(s[1..]), id);
      }
    }
  }

  lemma {:induction false} OfIdMember(s: seq<Tick>, i: nat)
    requires i < |s|
    ensures s[i] in OfId(s, s[i].tickId)
  {
    if i > 0 {
      OfIdMember(s[1..], i - 1);
    }
  }

  lemma {:induction false} OfIdIds(s: seq<Tick>, id: nat)
    ensures forall t :: t in OfId(s, id) ==> t in s && t.tickId == id
  {
    if s != [] {
      OfIdIds(s[1..], id);
    }
  }

  /** Any stable sort gives the same list, whatever its algorithm. */
  lemma {:induction false} StableSortUnique(r: seq<Tick>, q: seq<Tick>)
    requires Sorted(r) && Sorted(q) && forall id: nat :: OfId(r, id) == OfId(q, id)
    ensures r == q
    decreases |r|
  {
    BothEmpty(r, q);
    if r == [] {
    } else {
      SameLeastId(r, q);
      var id := r[0].tickId;
      assert OfId(r, id)[0] == r[0] && OfId(q, id)[0] == q[0];
      forall k: nat ensures OfId(r[1..], k) == OfId(q[1..], k) {
        assert OfId(r, k) == OfId(q, k);
        var h := if k == id then [r[0]] else [];
        assert OfId(r, k) == h + OfId(r[1..], k) && OfId(q, k) == h + OfId(q[1..], k);
        assert OfId(r, k)[|h|..] == OfId(r[1..], k) && OfId(q, k)[|h|..] == OfId(q[1..], k);
      }
      StableSortUnique(r[1..], q[1..]);
    }
  }

  lemma BothEmpty(r: seq<Tick>, q: seq<Tick>)
    requires forall id: nat :: OfId(r, id) == OfId(q, id)
    ensures r == [] <==> q == []
  {
    if r != [] {
      OfIdMember(r, 0);
      OfIdIds(q, r[0].tickId);
      assert OfId(r, r[0].tickId) == OfId(q, r[0].tickId);
    }
    if q != [] {
      OfIdMember(q, 0);
      OfIdIds(r, q[0].tickId);
      assert OfId(r, q[0].tickId) == OfId(q, q[0].tickId);
    }
  }

  lemma SameLeastId(r: seq<Tick>, q: seq<Tick>)
    requires r != [] && q != []
    requires Sorted(r) && Sorted(q) && forall id: nat :: OfId(r, id) == OfId(q, id)
    ensures r[0].tickId == q[0].tickId
  {
    var i, j := r[0].tickId, q[0].tickId;
    OfIdMember(r, 0);
    OfIdMember(q, 0);
    assert OfId(r, i) == OfId(q, i) && OfId(r, j) == OfId(q, j);
    OfIdIds(q, i);
    OfIdIds(r, j);
    assert r[0] in q && q[0] in r;
  }

  // ---- Subscriptions ----

  predicate After(t: Tick, cursor: Option<nat>)
  {
    cursor.None? || t.tickId > cursor.value
  }

  function Fresh(s: seq<Tick>, cursor: Option<nat>): seq<Tick>
  {
    if s == [] then []
    else Fresh(s[..|s| - 1], cursor) + if After(s[|s| - 1], cursor) then [s[|s| - 1]] else []
  }

  /** What a drain returns: snapshot newest first, filter, stable sort. */
  function ReadSinceOf(queue: seq<Tick>, cursor: Option<nat>): seq<Tick>
  {
    SortById(Fresh(RecentOf(queue, |queue|), cursor))
  }

  function AdvancedCursor(cursor: Option<nat>, batch: seq<Tick>): Option<nat>
  {
    if batch == [] then cursor else Some(batch[|batch| - 1].tickId)
  }

  class Subscription {
    var cursor: Option<nat>
    const buffer: TickBuffer

    constructor (buffer: TickBuffer)
      ensures cursor == None && this.buffer == buffer
    {
      cursor := None;
      this.buffer := buffer;
    }

    method ReadLatest(k: nat) returns (ticks: seq<Tick>)
      requires buffer.Valid()
      ensures ticks == RecentOf(buffer.queue, k)
    {
      ticks := buffer.Recent(k);
    }

    method ReadSince() returns (batch: seq<Tick>)
      requires buffer.Valid()
      modifies this
      ensures batch == ReadSinceOf(buffer.queue, old(cursor))
      ensures cursor == AdvancedCursor(old(cursor), batch)
    {
      hide RecentOf, SortById, After;
      var recent := buffer.Recent(|buffer.queue|);
      batch := [];
      var i := 0;
      while i < |recent|
        invariant 0 <= i <= |recent|
        invariant batch == Fresh(recent[..i], cursor)
      {
        assert recent[..i + 1][..i] == recent[..i];
        if After(recent[i], cursor) {
          batch := batch + [recent[i]];
        }
        i := i + 1;
      }
      assert recent[..i] == recent;
      batch := SortById(batch);
      if batch != [] {
        cursor := Some(batch[|batch| - 1].tickId);
      }
    }
  }

  lemma {:induction false} FreshMembers(s: seq<Tick>, cursor: Option<nat>)
    ensures forall t :: t in Fresh(s, cursor) <==> t in s && After(t, cursor)
  {
    if s != [] {
      FreshMembers(s[..|s| - 1], cursor);
      assert s == s[..|s| - 1] + [s[|s| - 1]];
    }
  }

  lemma {:induction false} SortMembers(s: seq<Tick>)
    ensures forall t :: t in SortById(s) <==> t in s
  {
    if s != [] {
      SortMembers(s[1..]);
      InsertMembers(s[0], SortById(s[1..]));
    }
  }

  lemma {:induction false} ReverseMembers(s: seq<Tick>)
    ensures forall t :: t in Reverse(s) <==> t in s
  {
    if s != [] {
      ReverseMembers(s[..|s| - 1]);
      assert s == s[..|s| - 1] + [s[|s| - 1]];
    }
  }

  /** A batch, whatever ids the buffer holds: sorted, and made of exactly the buffered ticks after the cursor. */
  lemma BatchContents(queue: seq<Tick>, cursor: Option<nat>)
    ensures Sorted(ReadSinceOf(queue, cursor))
    ensures forall t :: t in ReadSinceOf(queue, cursor) <==> t in queue && After(t, cursor)
    ensures IsStableSort(Fresh(Reverse(queue), cursor), ReadSinceOf(queue, cursor))
  {
    SortIsStable(Fresh(Reverse(queue), cursor));
    SortMembers(Fresh(Reverse(queue), cursor));
    FreshMembers(Reverse(queue), cursor);
    ReverseMembers(queue);
  }

  /** With increasing ids, draining is reading the suffix after the cursor, oldest first. */
  lemma ReadSinceIsSuffix(queue: seq<Tick>, cursor: Option<nat>, k: nat)
    requires Increasing(queue) && k <= |queue|
    requires forall i :: 0 <= i < |queue| ==> (After(queue[i], cursor) <==> i >= k)
    ensures ReadSinceOf(queue, cursor) == queue[k..]
  {
    assert RecentOf(queue, |queue|) == Reverse(queue);
    FreshOfReverse(queue, cursor, k);
    SortOfReverse(queue[k..]);
  }

  lemma {:induction false} FreshAppend(a: seq<Tick>, b: seq<Tick>, cursor: Option<nat>)
    ensures Fresh(a + b, cursor) == Fresh(a, cursor) + Fresh(b, cursor)
    decreases |b|
  {
    if b == [] {
      assert a + b == a;
    } else {
      assert (a + b)[..|a + b| - 1] == a + b[..|b| - 1];
      FreshAppend(a, b[..|b| - 1], cursor);
    }
  }

  lemma FreshOfReverse(queue: seq<Tick>, cursor: Option<nat>, k: nat)
    requires k <= |queue|
    requires forall i :: 0 <= i < |queue| ==> (After(queue[i], cursor) <==> i >= k)
    ensures Fresh(Reverse(queue), cursor) == Reverse(queue[k..])
  {
    var seen, unseen := queue[..k], queue[k..];
    assert queue == seen + unseen;
    ReverseConcat(seen, unseen);
    FreshAppend(Reverse(unseen), Reverse(seen), cursor);
    ReverseMembers(seen);
    ReverseMembers(unseen);
    FreshAll(Reverse(unseen), cursor);
    FreshNone(Reverse(seen), cursor);
  }

  lemma {:induction false} ReverseConcat(a: seq<Tick>, b: seq<Tick>)
    ensures Reverse(a + b) == Reverse(b) + Reverse(a)
    decreases |b|
  {
    if b == [] {
      assert a + b == a;
    } else {
      assert (a + b)[..|a + b| - 1] == a + b[..|b| - 1];
      ReverseConcat(a, b[..|b| - 1]);
    }
  }

  lemma {:induction false} FreshAll(s: seq<Tick>, cursor: Option<nat>)
    requires forall t :: t in s ==> After(t, cursor)
    ensures Fresh(s, cursor) == s
  {
    if s != [] {
      FreshAll(s[..|s| - 1], cursor);
      assert s == s[..|s| - 1] + [s[|s| - 1]];
    }
  }

  lemma {:induction false} FreshNone(s: seq<Tick>, cursor: Option<nat>)
    requires forall t :: t in s ==> !After(t, cursor)
    ensures Fresh(s, cursor) == []
  {
    if s != [] {
      FreshNone(s[..|s| - 1], cursor);
    }
  }

  lemma {:induction false} SortOfReverse(s: seq<Tick>)
    requires Increasing(s)
    ensures SortById(Reverse(s)) == s
    decreases |s|
  {
    if s != [] {
      var n := |s| - 1;
      SortOfReverse(s[..n]);
      assert Reverse(s)[1..] == Reverse(s[..n]);
      InsertLast(s[n], s[..n]);
      assert s == s[..n] + [s[n]];
    }
  }

  lemma {:induction false} InsertLast(t: Tick, s: seq<Tick>)
    requires forall x :: x in s ==> x.tickId < t.tickId
    ensures Insert(t, s) == s + [t]
  {
    if s != [] {
      assert s[0] in s;
      InsertLast(t, s[1..]);
    }
  }
}
