/** Every interleaving of pushes, pops and subscriptions on one tick buffer. Each locked body is one step. */
module DataPlane {
  import opened Options
  import opened Ticks
  import opened Buffers

  /** A subscription, with the record of what it was given: the batches it read, the index in the push history at which
      it started, the index after the newest tick it was given, and the ticks that left the buffer before it saw
      them. */
  datatype Sub = Sub(cursor: Option<nat>, batches: seq<seq<Tick>>, start: nat, pos: nat, lost: set<nat>)

  /** The buffer, everything ever pushed, how many of those have left the buffer, and the subscriptions. */
  datatype Plane = Plane(capacity: nat, buf: seq<Tick>, pushed: seq<Tick>, gone: nat, subs: map<nat, Sub>)

  datatype Step =
    | Push(tick: Tick)
    | Pop
    | Subscribe(sub: nat)
    | ReadSince(sub: nat)
    | ReadLatest(sub: nat, n: nat)

  predicate Bounded(p: Plane)
  {
    0 < p.capacity && |p.buf| <= p.capacity
  }

  /** The oldest tick leaves: subscriptions that have not been given it lose it. */
  function Evict(p: Plane): (r: Plane)
    requires p.buf != []
    ensures r.buf == p.buf[1..] && r.subs.Keys == p.subs.Keys
  {
    p.(buf := p.buf[1..], gone := p.gone + 1,
       subs := map k | k in p.subs :: if After(p.buf[0], p.subs[k].cursor)
                                      then p.subs[k].(lost := p.subs[k].lost + {p.gone}) else p.subs[k])
  }

  /** A subscription once it was given `batch` while `total` ticks had been pushed. */
  function Given(sub: Sub, batch: seq<Tick>, total: nat): Sub
  {
    sub.(cursor := AdvancedCursor(sub.cursor, batch), batches := sub.batches + [batch],
         pos := if batch == [] then sub.pos else total)
  }

  function AfterRead(p: Plane, k: nat): Sub
    requires k in p.subs
  {
    Given(p.subs[k], ReadSinceOf(p.buf, p.subs[k].cursor), |p.pushed|)
  }

  function Next(p: Plane, step: Step): (r: Plane)
    requires Bounded(p)
    ensures Bounded(r) && r.capacity == p.capacity
  {
    match step
    case Push(t) =>
      var room := if |p.buf| >= p.capacity then Evict(p) else p;
      room.(buf := room.buf + [t], pushed := p.pushed + [t])
    case Pop => if p.buf == [] then p else Evict(p)
    case Subscribe(k) =>
      if k in p.subs then p else p.(subs := p.subs[k := Sub(None, [], p.gone, p.gone, {})])
    case ReadSince(k) => if k in p.subs then p.(subs := p.subs[k := AfterRead(p, k)]) else p
    case ReadLatest(_, _) => p
  }

  /** The step relation pushes exactly as the buffer's own method does. */
  lemma PushAsBuffer(p: Plane, t: Tick)
    requires Bounded(p)
    ensures Next(p, Push(t)).buf == AfterPush(p.buf, p.capacity, t)
  {
  }

  function Run(p: Plane, steps: seq<Step>): (r: Plane)
    requires Bounded(p)
    ensures Bounded(r) && r.capacity == p.capacity
    decreases |steps|
  {
    if steps == [] then p else Run(Next(p, steps[0]), steps[1..])
  }

  lemma {:induction false} RunConcat(p: Plane, a: seq<Step>, b: seq<Step>)
    requires Bounded(p)
    ensures Run(p, a + b) == Run(Run(p, a), b)
    decreases |a|
  {
    if a == [] {
      assert a + b == b;
    } else {
      assert (a + b)[1..] == a[1..] + b;
      RunConcat(Next(p, a[0]), a[1..], b);
    }
  }

  // ---- At most once, in every run ----

  predicate UpTo(batch: seq<Tick>, cursor: Option<nat>)
  {
    batch != [] ==> cursor.Some? && forall t :: t in batch ==> t.tickId <= cursor.value
  }

  /** Later batches hold only higher ids than earlier ones, and the cursor is at or past all of them. */
  predicate Rising(sub: Sub)
  {
    && (forall i :: 0 <= i < |sub.batches| ==> UpTo(sub.batches[i], sub.cursor))
    && forall i, j, s, t :: 0 <= i < j < |sub.batches| && s in sub.batches[i] && t in sub.batches[j] ==>
         s.tickId < t.tickId
  }

  predicate CursorLe(a: Option<nat>, b: Option<nat>)
  {
    a.None? || (b.Some? && a.value <= b.value)
  }

  lemma ReadRises(sub: Sub, batch: seq<Tick>, total: nat)
    requires Rising(sub) && Sorted(batch) && forall t :: t in batch ==> After(t, sub.cursor)
    ensures Rising(Given(sub, batch, total)) && CursorLe(sub.cursor, Given(sub, batch, total).cursor)
  {
    var next := Given(sub, batch, total);
    if batch != [] {
      assert batch[|batch| - 1] in batch;
      forall t | t in batch ensures t.tickId <= next.cursor.value {
        var i :| 0 <= i < |batch| && batch[i] == t;
      }
    }
    forall i | 0 <= i < |next.batches| ensures UpTo(next.batches[i], next.cursor) {
      if i < |sub.batches| {
        assert UpTo(sub.batches[i], sub.cursor);
      }
    }
    forall i, j, s, t | 0 <= i < j < |next.batches| && s in next.batches[i] && t in next.batches[j]
      ensures s.tickId < t.tickId
    {
      assert UpTo(sub.batches[i], sub.cursor);
      if j < |sub.batches| {
        assert s in sub.batches[i] && t in sub.batches[j];
      }
    }
  }

  /** What every run guarantees a subscription. */
  predicate Faithful(p: Plane, q: Plane, k: nat)
  {
    && (k in q.subs ==> Rising(q.subs[k]))
    && (k in p.subs ==> k in q.subs && CursorLe(p.subs[k].cursor, q.subs[k].cursor)
                        && p.subs[k].batches <= q.subs[k].batches)
  }

  /** The subscription one step leaves behind. */
  lemma StepOn(p: Plane, step: Step, k: nat)
    requires Bounded(p)
    ensures k in p.subs ==>
      var q := Next(p, step);
      && k in q.subs
      && (step == ReadSince(k) ==> q.subs[k] == AfterRead(p, k))
      && (step != ReadSince(k) ==>
          q.subs[k] == p.subs[k] || q.subs[k] == p.subs[k].(lost := p.subs[k].lost + {p.gone}))
    ensures k !in p.subs && k in Next(p, step).subs ==>
      Next(p, step).subs[k] == Sub(None, [], p.gone, p.gone, {})
  {
  }

  lemma ReadOnce(p: Plane, k: nat)
    requires k in p.subs && Rising(p.subs[k])
    ensures var sub, next := p.subs[k], AfterRead(p, k);
            Rising(next) && CursorLe(sub.cursor, next.cursor) && sub.batches <= next.batches
  {
    BatchContents(p.buf, p.subs[k].cursor);
    hide Rising, ReadSinceOf;
    ReadRises(p.subs[k], ReadSinceOf(p.buf, p.subs[k].cursor), |p.pushed|);
  }

  lemma StepFaithful(p: Plane, step: Step, k: nat)
    requires Bounded(p) && (k in p.subs ==> Rising(p.subs[k]))
    ensures Faithful(p, Next(p, step), k)
  {
    hide Rising, Next, AfterRead;
    StepOn(p, step, k);
    RisingAtFirst(p.gone);
    if k in p.subs {
      RisingIgnoresLost(p.subs[k], p.subs[k].lost + {p.gone});
      ReadOnce(p, k);
    }
  }

  lemma RisingIgnoresLost(sub: Sub, lost: set<nat>)
    requires Rising(sub)
    ensures Rising(sub.(lost := lost))
  {
  }

  lemma RisingAtFirst(start: nat)
    ensures Rising(Sub(None, [], start, start, {}))
  {
  }

  /** In every run whatsoever, with any ids, pops and other readers, a subscription's cursor never goes back, what it
      was given stays given, and no id comes in two of its reads. */
  lemma {:induction false} ReadsNeverRepeat(p: Plane, steps: seq<Step>, k: nat)
    requires Bounded(p) && (k in p.subs ==> Rising(p.subs[k]))
    ensures Faithful(p, Run(p, steps), k)
    decreases |steps|
  {
    hide Rising, Next;
    if steps != [] {
      StepFaithful(p, steps[0], k);
      ReadsNeverRepeat(Next(p, steps[0]), steps[1..], k);
    }
  }

  /** From batch number `n` on, only ids after the cursor. */
  predicate NewerFrom(sub: Sub, n: nat, cursor: Option<nat>)
  {
    forall i, t :: n <= i < |sub.batches| && t in sub.batches[i] ==> After(t, cursor)
  }

  lemma StepNewer(p: Plane, step: Step, k: nat)
    requires Bounded(p) && k in p.subs
    ensures k in Next(p, step).subs && NewerFrom(Next(p, step).subs[k], |p.subs[k].batches|, p.subs[k].cursor)
  {
    BatchContents(p.buf, p.subs[k].cursor);
    hide Next, ReadSinceOf;
    StepOn(p, step, k);
  }

  lemma NewerChain(sub: Sub, m: nat, mid: Option<nat>, n: nat, cursor: Option<nat>, before: Sub)
    requires NewerFrom(sub, m, mid) && CursorLe(cursor, mid)
    requires n <= m == |before.batches| && before.batches <= sub.batches
    requires NewerFrom(before, n, cursor)
    ensures NewerFrom(sub, n, cursor)
  {
    forall i, t | n <= i < |sub.batches| && t in sub.batches[i] ensures After(t, cursor) {
      if i < m {
        assert sub.batches[i] == before.batches[i];
        assert t in before.batches[i];
      } else {
        assert After(t, mid);
      }
    }
  }

  /** Once a subscription's cursor has reached some id, no run ever gives it a tick with that id or a lower one: after
      reading one record with an id far ahead, every ordinary tick up to that id is skipped. */
  lemma {:induction false} OnlyAboveCursor(p: Plane, steps: seq<Step>, k: nat)
    requires Bounded(p) && k in p.subs && Rising(p.subs[k])
    ensures var q := Run(p, steps);
            k in q.subs && NewerFrom(q.subs[k], |p.subs[k].batches|, p.subs[k].cursor)
    decreases |steps|
  {
    hide Rising, Next, NewerFrom;
    if steps == [] {
      NothingNewer(p.subs[k]);
    } else {
      var n := Next(p, steps[0]);
      StepFaithful(p, steps[0], k);
      StepNewer(p, steps[0], k);
      OnlyAboveCursor(n, steps[1..], k);
      ReadsNeverRepeat(n, steps[1..], k);
      NewerChain(Run(p, steps).subs[k], |n.subs[k].batches|, n.subs[k].cursor,
                 |p.subs[k].batches|, p.subs[k].cursor, n.subs[k]);
    }
  }

  lemma NothingNewer(sub: Sub)
    ensures NewerFrom(sub, |sub.batches|, sub.cursor)
  {
  }

  // ---- Subscriptions do not affect each other ----

  /** Whether a step concerns the buffer or subscription `k`. */
  predicate Concerns(step: Step, k: nat)
  {
    step.Push? || step.Pop? || step.sub == k
  }

  function Only(steps: seq<Step>, k: nat): seq<Step>
  {
    if steps == [] then []
    else if Concerns(steps[0], k) then [steps[0]] + Only(steps[1..], k)
    else Only(steps[1..], k)
  }

  predicate SameFor(p: Plane, q: Plane, k: nat)
  {
    && p.capacity == q.capacity && p.buf == q.buf && p.pushed == q.pushed && p.gone == q.gone
    && (k in p.subs <==> k in q.subs) && (k in p.subs ==> p.subs[k] == q.subs[k])
  }

  /** Leaving out every step of every other subscription changes neither the buffer nor what `k` reads. */
  lemma {:induction false} SubscriptionsIndependent(p: Plane, q: Plane, steps: seq<Step>, k: nat)
    requires Bounded(p) && Bounded(q) && SameFor(p, q, k)
    ensures SameFor(Run(p, steps), Run(q, Only(steps, k)), k)
    decreases |steps|
  {
    if steps == [] {
    } else if Concerns(steps[0], k) {
      assert Only(steps, k)[0] == steps[0] && Only(steps, k)[1..] == Only(steps[1..], k);
      SubscriptionsIndependent(Next(p, steps[0]), Next(q, steps[0]), steps[1..], k);
    } else {
      SubscriptionsIndependent(Next(p, steps[0]), q, steps[1..], k);
    }
  }

  // ---- With increasing ids: every tick is delivered, pending or lost ----

  function Flatten(batches: seq<seq<Tick>>): seq<Tick>
  {
    if batches == [] then [] else Flatten(batches[..|batches| - 1]) + batches[|batches| - 1]
  }

  /** The history from `a` to `b`, without the indices in `lost`. */
  function Keep(pushed: seq<Tick>, a: nat, b: nat, lost: set<nat>): seq<Tick>
    requires b <= |pushed|
    decreases b
  {
    if b <= a then [] else Keep(pushed, a, b - 1, lost) + if b - 1 in lost then [] else [pushed[b - 1]]
  }

  predicate SubAccounted(pushed: seq<Tick>, gone: nat, sub: Sub)
  {
    && sub.start <= gone && sub.start <= sub.pos <= |pushed|
    && (sub.cursor.None? ==> sub.pos == sub.start)
    && (sub.cursor.Some? ==> sub.start < sub.pos && sub.cursor.value == pushed[sub.pos - 1].tickId)
    && (forall i :: i in sub.lost ==> sub.start <= i < gone)
    && (forall i :: sub.pos <= i < gone ==> i in sub.lost)
    && Flatten(sub.batches) == Keep(pushed, sub.start, sub.pos, sub.lost)
  }

  /** The buffer is what has been pushed and has not left; each subscription was given, in push order, exactly the ticks
      before its position that it did not lose, and has lost everything past its position that has left. */
  ghost predicate Accounted(p: Plane)
  {
    && Bounded(p) && p.gone <= |p.pushed| && p.buf == p.pushed[p.gone..] && Increasing(p.pushed)
    && forall k :: k in p.subs ==> SubAccounted(p.pushed, p.gone, p.subs[k])
  }

  /** The index of the next tick a subscription can be given. */
  function Due(gone: nat, sub: Sub): nat
  {
    if sub.pos < gone then gone else sub.pos
  }

  lemma AfterMeansDue(pushed: seq<Tick>, gone: nat, sub: Sub, i: nat)
    requires Increasing(pushed) && SubAccounted(pushed, gone, sub) && sub.start <= i < |pushed|
    ensures After(pushed[i], sub.cursor) <==> i >= sub.pos
  {
  }

  lemma {:induction false} KeepSame(s: seq<Tick>, t: seq<Tick>, a: nat, b: nat, lost: set<nat>, more: set<nat>)
    requires b <= |s| && b <= |t| && s[..b] == t[..b]
    requires forall i :: i in more && i !in lost ==> i >= b
    ensures Keep(s, a, b, lost) == Keep(t, a, b, lost + more)
    decreases b
  {
    if b > a {
      assert s[..b][..b - 1] == s[..b - 1] && t[..b][..b - 1] == t[..b - 1];
      KeepSame(s, t, a, b - 1, lost, more);
      assert s[b - 1] == s[..b][b - 1] && t[b - 1] == t[..b][b - 1];
    }
  }

  lemma {:induction false} KeepTo(s: seq<Tick>, a: nat, b: nat, due: nat, c: nat, lost: set<nat>)
    requires a <= b <= due <= c <= |s|
    requires forall i :: b <= i < due ==> i in lost
    requires forall i :: i in lost ==> i < due
    ensures Keep(s, a, c, lost) == Keep(s, a, b, lost) + s[due..c]
    decreases c
  {
    if c > due {
      KeepTo(s, a, b, due, c - 1, lost);
      assert s[due..c] == s[due..c - 1] + [s[c - 1]];
    } else if c > b {
      KeepTo(s, a, b, c - 1, c - 1, lost - {c - 1});
      KeepSame(s, s, a, c - 1, lost - {c - 1}, {c - 1});
      KeepSame(s, s, a, b, lost - {c - 1}, {c - 1});
      assert lost - {c - 1} + {c - 1} == lost;
    }
  }

  lemma BufferedIsDue(pushed: seq<Tick>, gone: nat, sub: Sub)
    requires gone <= |pushed| && Increasing(pushed) && SubAccounted(pushed, gone, sub)
    ensures gone <= Due(gone, sub) <= |pushed|
    ensures forall i :: 0 <= i < |pushed| - gone ==>
      (After(pushed[gone..][i], sub.cursor) <==> i >= Due(gone, sub) - gone)
  {
  }

  /** A drain gives exactly what is due ... */
  lemma ReadGivesDue(pushed: seq<Tick>, gone: nat, sub: Sub)
    requires gone <= |pushed| && Increasing(pushed) && SubAccounted(pushed, gone, sub)
    ensures Due(gone, sub) <= |pushed|
    ensures ReadSinceOf(pushed[gone..], sub.cursor) == pushed[Due(gone, sub)..]
  {
    BufferedIsDue(pushed, gone, sub);
    hide SubAccounted, Due, ReadSinceOf, After;
    var buf, due := pushed[gone..], Due(gone, sub);
    assert Increasing(buf);
    ReadSinceIsSuffix(buf, sub.cursor, due - gone);
    assert buf[due - gone..] == pushed[due..];
  }

  /** ... and nothing is due afterwards. */
  lemma GivenIsAccounted(pushed: seq<Tick>, gone: nat, sub: Sub)
    requires gone <= |pushed| && SubAccounted(pushed, gone, sub)
    ensures var next := Given(sub, pushed[Due(gone, sub)..], |pushed|);
            SubAccounted(pushed, gone, next) && Due(gone, next) == |pushed|
            && Flatten(next.batches) == Flatten(sub.batches) + pushed[Due(gone, sub)..]
  {
    var due := Due(gone, sub);
    var next := Given(sub, pushed[due..], |pushed|);
    assert next.batches[..|next.batches| - 1] == sub.batches;
    KeepTo(pushed, sub.start, sub.pos, due, |pushed|, sub.lost);
    assert pushed[due..|pushed|] == pushed[due..];
  }

  lemma EvictSub(pushed: seq<Tick>, gone: nat, sub: Sub)
    requires gone < |pushed| && Increasing(pushed) && SubAccounted(pushed, gone, sub)
    ensures SubAccounted(pushed, gone + 1,
                         if After(pushed[gone], sub.cursor) then sub.(lost := sub.lost + {gone}) else sub)
  {
    AfterMeansDue(pushed, gone, sub, gone);
    if After(pushed[gone], sub.cursor) {
      KeepSame(pushed, pushed, sub.start, sub.pos, sub.lost, {gone});
    }
  }

  lemma EvictKeeps(p: Plane)
    requires Accounted(p) && p.buf != []
    ensures Accounted(Evict(p))
  {
    var q := Evict(p);
    assert p.buf[0] == p.pushed[p.gone];
    hide SubAccounted, Increasing, After;
    forall k | k in q.subs ensures SubAccounted(q.pushed, q.gone, q.subs[k]) {
      assert SubAccounted(p.pushed, p.gone, p.subs[k]);
      EvictSub(p.pushed, p.gone, p.subs[k]);
    }
  }

  lemma AppendSub(pushed: seq<Tick>, gone: nat, sub: Sub, t: Tick)
    requires SubAccounted(pushed, gone, sub)
    ensures SubAccounted(pushed + [t], gone, sub)
  {
    assert (pushed + [t])[..sub.pos] == pushed[..sub.pos];
    KeepSame(pushed, pushed + [t], sub.start, sub.pos, sub.lost, {});
    assert sub.lost + {} == sub.lost;
  }

  lemma AppendKeeps(p: Plane, t: Tick)
    requires Accounted(p) && |p.buf| < p.capacity && Increasing(p.pushed + [t])
    ensures Accounted(p.(buf := p.buf + [t], pushed := p.pushed + [t]))
  {
    hide SubAccounted, Increasing;
    forall k | k in p.subs ensures SubAccounted(p.pushed + [t], p.gone, p.subs[k]) {
      assert SubAccounted(p.pushed, p.gone, p.subs[k]);
      AppendSub(p.pushed, p.gone, p.subs[k], t);
    }
  }

  lemma SubscribeSub(pushed: seq<Tick>, gone: nat)
    requires gone <= |pushed|
    ensures SubAccounted(pushed, gone, Sub(None, [], gone, gone, {}))
  {
  }

  lemma StepKeeps(p: Plane, step: Step)
    requires Accounted(p) && Increasing(Next(p, step).pushed)
    ensures Accounted(Next(p, step))
  {
    hide SubAccounted, Increasing, Given, ReadSinceOf;
    match step
    case Push(t) =>
      if |p.buf| >= p.capacity {
        EvictKeeps(p);
        AppendKeeps(Evict(p), t);
      } else {
        AppendKeeps(p, t);
      }
    case Pop =>
      if p.buf != [] {
        EvictKeeps(p);
      }
    case Subscribe(k) => SubscribeSub(p.pushed, p.gone);
    case ReadSince(k) =>
      if k in p.subs {
        ReadGivesDue(p.pushed, p.gone, p.subs[k]);
        GivenIsAccounted(p.pushed, p.gone, p.subs[k]);
      }
    case ReadLatest(_, _) =>
  }

  lemma {:induction false} PushedGrows(p: Plane, steps: seq<Step>)
    requires Bounded(p)
    ensures p.pushed <= Run(p, steps).pushed
    decreases |steps|
  {
    if steps != [] {
      PushedGrows(Next(p, steps[0]), steps[1..]);
    }
  }

  /** As long as pushed ids increase, every interleaving keeps the account straight. */
  lemma {:induction false} RunKeepsAccount(p: Plane, steps: seq<Step>)
    requires Accounted(p) && Increasing(Run(p, steps).pushed)
    ensures Accounted(Run(p, steps))
    decreases |steps|
  {
    if steps != [] {
      var n := Next(p, steps[0]);
      PushedGrows(n, steps[1..]);
      assert Increasing(n.pushed);
      hide Accounted, Increasing, Next;
      StepKeeps(p, steps[0]);
      RunKeepsAccount(n, steps[1..]);
    }
  }

  /** Every tick since a subscription started is in exactly one place: given (before its position and not lost), lost
      (it left the buffer unread), or still buffered and due. */
  lemma DeliveredLostOrDue(p: Plane, k: nat, i: nat)
    requires Accounted(p) && k in p.subs && p.subs[k].start <= i < |p.pushed|
    ensures var sub := p.subs[k];
            var given, lost, due := i < sub.pos && i !in sub.lost, i in sub.lost, i >= Due(p.gone, sub);
            && (given || lost || due) && !(given && lost) && !(given && due) && !(lost && due)
            && (due ==> p.pushed[i] in p.buf && After(p.pushed[i], sub.cursor))
            && (lost ==> p.pushed[i] !in p.buf)
  {
  }

  // ---- Paced reading loses nothing ----

  /** No pops, and at most `capacity` pushes between two reads by `k`; `budget` more before the next one. */
  predicate Paced(steps: seq<Step>, k: nat, capacity: nat, budget: nat)
  {
    steps == []
    || match steps[0]
       case Push(_) => budget > 0 && Paced(steps[1..], k, capacity, budget - 1)
       case Pop => false
       case ReadSince(j) => Paced(steps[1..], k, capacity, if j == k then capacity else budget)
       case _ => Paced(steps[1..], k, capacity, budget)
  }

  /** From `p` to `q`, subscription `k` lost nothing and was given everything between its due points. */
  predicate Caught(p: Plane, q: Plane, k: nat)
    requires k in p.subs
  {
    && k in q.subs && q.subs[k].lost == p.subs[k].lost
    && Due(p.gone, p.subs[k]) <= Due(q.gone, q.subs[k]) <= |q.pushed|
    && Flatten(q.subs[k].batches)
       == Flatten(p.subs[k].batches) + q.pushed[Due(p.gone, p.subs[k])..Due(q.gone, q.subs[k])]
  }

  lemma NothingDueYet(p: Plane, q: Plane, k: nat)
    requires k in p.subs && k in q.subs && Due(p.gone, p.subs[k]) <= |q.pushed|
    requires q.subs[k] == p.subs[k] && Due(q.gone, q.subs[k]) == Due(p.gone, p.subs[k])
    ensures Caught(p, q, k)
  {
  }

  /** A push with room for what is due costs the subscription nothing. */
  lemma PacedPush(p: Plane, k: nat, t: Tick)
    requires Accounted(p) && k in p.subs
    requires |p.pushed| - Due(p.gone, p.subs[k]) < p.capacity
    ensures var q := Next(p, Push(t)); Caught(p, q, k) && Due(q.gone, q.subs[k]) == Due(p.gone, p.subs[k])
  {
    hide ReadSinceOf, Flatten;
    var sub := p.subs[k];
    DueInHistory(p, k);
    assert SubAccounted(p.pushed, p.gone, sub);
    if |p.buf| >= p.capacity {
      assert p.buf[0] == p.pushed[p.gone];
      assert Due(p.gone, sub) > p.gone;
      AfterMeansDue(p.pushed, p.gone, sub, p.gone);
    }
    NothingDueYet(p, Next(p, Push(t)), k);
  }

  lemma PacedRead(p: Plane, k: nat)
    requires Accounted(p) && k in p.subs
    ensures var q := Next(p, ReadSince(k)); Caught(p, q, k) && Due(q.gone, q.subs[k]) == |q.pushed|
  {
    hide SubAccounted, Given, ReadSinceOf, Flatten, Increasing, Due, Next;
    DueInHistory(p, k);
    ReadCatchesUp(p, k);
    SameLost(p, k);
    assert p.pushed[Due(p.gone, p.subs[k])..|p.pushed|] == p.pushed[Due(p.gone, p.subs[k])..];
  }

  lemma PacedAside(p: Plane, k: nat, step: Step)
    requires Accounted(p) && k in p.subs && !step.Pop? && !step.Push? && step != ReadSince(k)
    ensures var q := Next(p, step); Caught(p, q, k) && Due(q.gone, q.subs[k]) == Due(p.gone, p.subs[k])
  {
    DueInHistory(p, k);
    hide SubAccounted, Given, ReadSinceOf, Flatten, Increasing, Accounted, Due, Caught;
    NothingDueYet(p, Next(p, step), k);
  }

  /** What one paced step does to subscription `k`. */
  lemma PacedStep(p: Plane, k: nat, step: Step, budget: nat)
    requires Accounted(p) && k in p.subs
    requires budget + (|p.pushed| - Due(p.gone, p.subs[k])) <= p.capacity
    requires !step.Pop? && (step.Push? ==> budget > 0)
    ensures var q := Next(p, step);
            && Caught(p, q, k)
            && Due(q.gone, q.subs[k]) == if step == ReadSince(k) then |q.pushed| else Due(p.gone, p.subs[k])
  {
    hide Accounted, Due, Next, Caught;
    if step == ReadSince(k) {
      PacedRead(p, k);
    } else if step.Push? {
      PacedPush(p, k, step.tick);
    } else {
      PacedAside(p, k, step);
    }
  }

  lemma SameLost(p: Plane, k: nat)
    requires Bounded(p) && k in p.subs
    ensures Next(p, ReadSince(k)).subs[k].lost == p.subs[k].lost
  {
  }

  /** A subscription that reads often enough is given every tick, once and in order, from what was due at the start. */
  lemma {:induction false} PacedReadsLoseNothing(p: Plane, k: nat, steps: seq<Step>, budget: nat)
    requires Accounted(p) && k in p.subs && Increasing(Run(p, steps).pushed)
    requires Paced(steps, k, p.capacity, budget)
    requires budget + (|p.pushed| - Due(p.gone, p.subs[k])) <= p.capacity
    ensures Caught(p, Run(p, steps), k)
    decreases |steps|
  {
    hide SubAccounted, Given, ReadSinceOf, Flatten, Next, Increasing;
    var sub := p.subs[k];
    DueInHistory(p, k);
    if steps == [] {
      assert p.pushed[Due(p.gone, sub)..Due(p.gone, sub)] == [];
    } else {
      var n := Next(p, steps[0]);
      PushedGrows(n, steps[1..]);
      IncreasingPrefix(n.pushed, Run(p, steps).pushed);
      StepKeeps(p, steps[0]);
      PacedStep(p, k, steps[0], budget);
      StepPushes(p, steps[0]);
      var rest := if steps[0] == ReadSince(k) then p.capacity else if steps[0].Push? then budget - 1 else budget;
      PacedReadsLoseNothing(n, k, steps[1..], rest);
      var q := Run(p, steps);
      Join(Flatten(sub.batches), n.pushed, q.pushed, Due(p.gone, sub), Due(n.gone, n.subs[k]), Due(q.gone, q.subs[k]));
    }
  }

  lemma IncreasingPrefix(s: seq<Tick>, t: seq<Tick>)
    requires s <= t && Increasing(t)
    ensures Increasing(s)
  {
  }

  lemma StepPushes(p: Plane, step: Step)
    requires Bounded(p)
    ensures |Next(p, step).pushed| == |p.pushed| + if step.Push? then 1 else 0
  {
  }

  lemma Join(given: seq<Tick>, s: seq<Tick>, t: seq<Tick>, a: nat, b: nat, c: nat)
    requires s <= t && a <= b <= c <= |t| && b <= |s|
    ensures given + s[a..b] + t[b..c] == given + t[a..c]
  {
  }

  lemma DueInHistory(p: Plane, k: nat)
    requires Accounted(p) && k in p.subs
    ensures Due(p.gone, p.subs[k]) <= |p.pushed|
  {
  }

  /** One read gives a subscription everything it is due. */
  lemma ReadCatchesUp(p: Plane, k: nat)
    requires Accounted(p) && k in p.subs
    ensures var q := Next(p, ReadSince(k));
            && Accounted(q) && k in q.subs && q.pushed == p.pushed && Due(q.gone, q.subs[k]) == |p.pushed|
            && Due(p.gone, p.subs[k]) <= |p.pushed|
            && Flatten(q.subs[k].batches) == Flatten(p.subs[k].batches) + p.pushed[Due(p.gone, p.subs[k])..]
  {
    hide SubAccounted, Given, ReadSinceOf, Flatten, Increasing;
    StepKeeps(p, ReadSince(k));
    DueInHistory(p, k);
    ReadGivesDue(p.pushed, p.gone, p.subs[k]);
    GivenIsAccounted(p.pushed, p.gone, p.subs[k]);
  }

  lemma RunOne(p: Plane, step: Step)
    requires Bounded(p)
    ensures Run(p, [step]) == Next(p, step)
  {
  }

  /** From a first read to a last one, paced in between, the concatenation of all reads is exactly the push history from
      the oldest tick held at the first read. */
  lemma FirstToLastRead(p: Plane, k: nat, middle: seq<Step>)
    requires Accounted(p) && k in p.subs && p.subs[k].cursor.None? && p.subs[k].batches == []
    requires Paced(middle, k, p.capacity, p.capacity)
    requires Increasing(Run(p, [ReadSince(k)] + middle + [ReadSince(k)]).pushed)
    ensures var q := Run(p, [ReadSince(k)] + middle + [ReadSince(k)]);
            k in q.subs && p.gone <= |q.pushed| && Flatten(q.subs[k].batches) == q.pushed[p.gone..]
  {
    var n := Next(p, ReadSince(k));
    var m := Run(n, middle);
    var q := Next(m, ReadSince(k));
    RunOne(p, ReadSince(k));
    RunOne(m, ReadSince(k));
    RunConcat(p, [ReadSince(k)] + middle, [ReadSince(k)]);
    RunConcat(p, [ReadSince(k)], middle);
    FirstDue(p, k);
    assert Flatten(p.subs[k].batches) == [];
    hide SubAccounted, Given, ReadSinceOf, Flatten, Next, Increasing, Accounted, Run, Due, Paced;
    ReadCatchesUp(p, k);
    PacedReadsLoseNothing(n, k, middle, p.capacity);
    RunKeepsAccount(n, middle);
    ReadCatchesUp(m, k);
    PushedGrows(n, middle);
    ThreePieces(n.pushed, m.pushed, p.gone, |p.pushed|, Due(m.gone, m.subs[k]));
  }

  lemma ThreePieces(s: seq<Tick>, t: seq<Tick>, a: nat, b: nat, c: nat)
    requires s <= t && a <= b <= c <= |t| && b == |s|
    ensures [] + s[a..] + t[b..c] + t[c..] == t[a..]
  {
  }

  lemma FirstDue(p: Plane, k: nat)
    requires Accounted(p) && k in p.subs && p.subs[k].cursor.None?
    ensures Due(p.gone, p.subs[k]) == p.gone
  {
  }
}
