/** The log-scale latency histogram and the error of its percentiles. All values are logarithms to base 10. */
module Histograms {
  import opened Options

  /** A latency sample, by the logarithm of its nanoseconds when it has one. */
  datatype Latency = NotPositive | NotFinite | Nanoseconds(log10: real)

  /** The bucket layout: `n` buckets of equal width from `min` to `max`. */
  datatype Scale = Scale(min: real, max: real, n: nat)

  predicate ValidScale(s: Scale)
  {
    0 < s.n && s.min < s.max
  }

  function Width(s: Scale): real
    requires ValidScale(s)
  {
    (s.max - s.min) / s.n as real
  }

  /** The lower bound of bucket `i`. */
  function Bound(s: Scale, i: nat): real
    requires ValidScale(s)
  {
    s.min + (i as real / s.n as real) * (s.max - s.min)
  }

  /** The bucket index at `x` bucket widths from the bottom; outside the range it is the first or last one. */
  function Clamp(x: real, n: nat): (i: nat)
    requires n > 0
    ensures i < n
  {
    var idx := x.Floor;
    if idx < 0 then 0 else if idx >= n then n - 1 else idx
  }

  /** How many bucket widths above the range's bottom a value lies. */
  function Position(s: Scale, x: real): real
    requires ValidScale(s)
  {
    ((x - s.min) / (s.max - s.min)) * s.n as real
  }

  /** The bucket of a recorded value. */
  function Bucket(s: Scale, x: real): (i: nat)
    requires ValidScale(s)
    ensures i < s.n
  {
    Clamp(Position(s, x), s.n)
  }

  /** The sum of the first `i` bucket counts. */
  function Cumulated(counts: seq<nat>, i: nat): nat
    requires i <= |counts|
  {
    if i == 0 then 0 else Cumulated(counts, i - 1) + counts[i - 1]
  }

  function Ceil(x: real): int
  {
    -((-x).Floor)
  }

  /** The first bucket at which the cumulated count reaches `t`. */
  function Reached(counts: seq<nat>, t: nat, i: nat): (r: nat)
    requires i < |counts| && Cumulated(counts, i) < t <= Cumulated(counts, |counts|)
    ensures i <= r < |counts| && Cumulated(counts, r) < t <= Cumulated(counts, r + 1)
    decreases |counts| - i
  {
    if Cumulated(counts, i + 1) >= t then i
    else if i + 1 == |counts| then assert false; i
    else Reached(counts, t, i + 1)
  }

  /** How far into its bucket the percentile lies: sample `k` of `c` sits in the middle of its c-th part. */
  function Within(k: int, c: nat): real
    requires c > 0
  {
    var w := (k as real - 0.5) / c as real;
    if w < 0.0 then 0.0 else if w > 1.0 then 1.0 else w
  }

  function AtLeastOne(t: int): (r: nat)
    ensures r > 0
  {
    if t < 1 then 1 else t
  }

  /** The rank asked for, before it is raised to at least one. */
  function Target(p: real, total: nat): (t: nat)
    requires 0.0 <= p <= 1.0
    ensures t <= total
  {
    TargetInRange(p, total);
    Ceil(p * total as real)
  }

  lemma TargetInRange(p: real, total: nat)
    requires 0.0 <= p <= 1.0
    ensures 0 <= Ceil(p * total as real) <= total
  {
    var t := total as real;
    Product(p, t);
    Product(1.0 - p, t);
    assert p * t == t - (1.0 - p) * t;
  }

  /** The value at rank `target`. */
  function ValueAt(s: Scale, counts: seq<nat>, target: nat): real
    requires ValidScale(s) && |counts| == s.n && AtLeastOne(target) <= Cumulated(counts, s.n)
  {
    var i := Reached(counts, AtLeastOne(target), 0);
    ValueIn(s, i, target - Cumulated(counts, i), counts[i])
  }

  function ValueIn(s: Scale, i: nat, k: int, c: nat): real
    requires ValidScale(s) && c > 0
  {
    Bound(s, i) + Within(k, c) * (Bound(s, i + 1) - Bound(s, i))
  }

  function Percentile(s: Scale, counts: seq<nat>, p: real): Option<real>
    requires ValidScale(s) && |counts| == s.n
  {
    var total := Cumulated(counts, s.n);
    if total == 0 || !(0.0 <= p <= 1.0) then None else Some(ValueAt(s, counts, Target(p, total)))
  }

  // ---- The histogram object ----

  class Histogram {
    const scale: Scale
    const buckets: array<nat>
    ghost var recorded: seq<real>

    ghost predicate Valid()
      reads this, buckets
    {
      && ValidScale(scale) && buckets.Length == scale.n
      && forall i :: 0 <= i < scale.n ==> buckets[i] == CountIn(scale, recorded, i)
    }

    constructor (min: real, max: real, n: nat)
      requires n >= 1 && min < max
      ensures Valid() && recorded == [] && scale == Scale(min, max, n) && fresh(buckets)
    {
      scale := Scale(min, max, n);
      buckets := new nat[n](_ => 0);
      recorded := [];
    }

    /** Samples that are not positive or not finite are ignored; those below one nanosecond count as one. */
    method Record(sample: Latency)
      requires Valid()
      modifies this, buckets
      ensures Valid()
      ensures recorded == old(recorded) + match sample
                                         case Nanoseconds(x) => [if x < 0.0 then 0.0 else x]
                                         case _ => []
    {
      match sample {
        case NotPositive =>
        case NotFinite =>
        case Nanoseconds(x) =>
          hide Bucket;
          var log10 := if x < 0.0 then 0.0 else x;
          var idx := BucketFor(log10);
          CountMore(scale, recorded, log10);
          buckets[idx] := buckets[idx] + 1;
          recorded := recorded + [log10];
      }
    }

    /** The index arithmetic of `Record`. */
    method BucketFor(log10: real) returns (idx: int)
      requires Valid()
      ensures idx == Bucket(scale, log10)
    {
      var span := scale.max - scale.min;
      idx := (((log10 - scale.min) / span) * buckets.Length as real).Floor;
      if idx < 0 {
        idx := 0;
      }
      if idx >= buckets.Length {
        idx := buckets.Length - 1;
      }
    }

    method Total() returns (total: nat)
      requires Valid()
      ensures total == Cumulated(buckets[..], scale.n)
    {
      total := 0;
      var i := 0;
      while i < buckets.Length
        invariant 0 <= i <= buckets.Length
        invariant total == Cumulated(buckets[..], i)
      {
        total := total + buckets[i];
        i := i + 1;
      }
    }

    method PercentileNs(p: real) returns (r: Option<real>)
      requires Valid()
      ensures r == Percentile(scale, buckets[..], p)
    {
      hide ValueIn, Target, Bucket;
      var total := Total();
      if total == 0 || !(0.0 <= p <= 1.0) {
        return None;
      }
      var target := Target(p, total);
      ghost var counts := buckets[..];
      ghost var answer := Reached(counts, AtLeastOne(target), 0);
      var cum := 0;
      var i := 0;
      while i < buckets.Length
        invariant 0 <= i <= answer < buckets.Length
        invariant cum == Cumulated(counts, i) < AtLeastOne(target)
        invariant answer == Reached(counts, AtLeastOne(target), i)
      {
        var c := buckets[i];
        var next := cum + c;
        if next >= AtLeastOne(target) {
          // The bucket is not empty: the program's answer for an empty one is never given.
          assert i == answer;
          return Some(ValueIn(scale, i, target - cum, c));
        }
        cum := next;
        i := i + 1;
      }
      // Nor is the program's answer after the last bucket.
      assert false;
    }
  }

  // ---- Counting ----

  function CountIn(s: Scale, xs: seq<real>, i: nat): nat
    requires ValidScale(s)
  {
    if xs == [] then 0
    else CountIn(s, xs[..|xs| - 1], i) + if Bucket(s, xs[|xs| - 1]) == i then 1 else 0
  }

  lemma CountMore(s: Scale, xs: seq<real>, x: real)
    requires ValidScale(s)
    ensures forall i: nat :: CountIn(s, xs + [x], i) == CountIn(s, xs, i) + if Bucket(s, x) == i then 1 else 0
  {
  }

  /** How many values lie in a bucket before `i`. */
  function CountBelow(s: Scale, xs: seq<real>, i: nat): nat
    requires ValidScale(s)
  {
    if xs == [] then 0
    else CountBelow(s, xs[..|xs| - 1], i) + if Bucket(s, xs[|xs| - 1]) < i then 1 else 0
  }

  function CountLess(xs: seq<real>, v: real): nat
  {
    if xs == [] then 0 else CountLess(xs[..|xs| - 1], v) + if xs[|xs| - 1] < v then 1 else 0
  }

  function CountUpTo(xs: seq<real>, v: real): nat
  {
    if xs == [] then 0 else CountUpTo(xs[..|xs| - 1], v) + if xs[|xs| - 1] <= v then 1 else 0
  }

  /** The bucket counts of what was recorded. */
  predicate Tallies(s: Scale, xs: seq<real>, counts: seq<nat>)
    requires ValidScale(s)
  {
    |counts| == s.n && forall i :: 0 <= i < s.n ==> counts[i] == CountIn(s, xs, i)
  }

  lemma {:induction false} NextBucket(s: Scale, xs: seq<real>, i: nat)
    requires ValidScale(s)
    ensures CountBelow(s, xs, i + 1) == CountBelow(s, xs, i) + CountIn(s, xs, i)
    ensures CountBelow(s, xs, 0) == 0
    ensures CountBelow(s, xs, s.n) == |xs|
  {
    hide Bucket;
    if xs != [] {
      NextBucket(s, xs[..|xs| - 1], i);
    }
  }

  lemma {:induction false} CumulatedCounts(s: Scale, xs: seq<real>, counts: seq<nat>, i: nat)
    requires ValidScale(s) && Tallies(s, xs, counts) && i <= s.n
    ensures Cumulated(counts, i) == CountBelow(s, xs, i)
    decreases i
  {
    hide Bucket, CountBelow, CountIn;
    if i == 0 {
      NextBucket(s, xs, 0);
    } else {
      CumulatedCounts(s, xs, counts, i - 1);
      NextBucket(s, xs, i - 1);
    }
  }

  lemma {:induction false} CumulatedGrows(counts: seq<nat>, i: nat, j: nat)
    requires i <= j <= |counts|
    ensures Cumulated(counts, i) <= Cumulated(counts, j)
    decreases j
  {
    if i < j {
      CumulatedGrows(counts, i, j - 1);
    }
  }

  lemma ReachedIs(counts: seq<nat>, t: nat, b: nat)
    requires b < |counts| && Cumulated(counts, b) < t <= Cumulated(counts, b + 1)
    ensures 0 < t <= Cumulated(counts, |counts|) && Reached(counts, t, 0) == b
  {
    CumulatedGrows(counts, b + 1, |counts|);
    var r := Reached(counts, t, 0);
    if r < b {
      CumulatedGrows(counts, r + 1, b);
    } else if r > b {
      CumulatedGrows(counts, b + 1, r);
    }
  }

  // ---- Buckets are in the order of their values ----

  lemma Scaled(x: real, y: real, span: real, n: nat)
    requires x <= y && span > 0.0
    ensures x / span * n as real <= y / span * n as real
  {
  }

  lemma PositionGrows(s: Scale, x: real, y: real)
    requires ValidScale(s) && x <= y
    ensures Position(s, x) <= Position(s, y)
  {
    Scaled(x - s.min, y - s.min, s.max - s.min, s.n);
  }

  lemma BucketGrows(s: Scale, x: real, y: real)
    requires ValidScale(s) && x <= y
    ensures Bucket(s, x) <= Bucket(s, y)
  {
    hide Clamp, Position;
    PositionGrows(s, x, y);
    ClampGrows(Position(s, x), Position(s, y), s.n);
  }

  lemma ClampGrows(a: real, b: real, n: nat)
    requires a <= b && n > 0
    ensures Clamp(a, n) <= Clamp(b, n)
  {
  }

  lemma ClampBounds(x: real, n: nat)
    requires n > 0 && 0.0 <= x <= n as real
    ensures Clamp(x, n) as real <= x <= (Clamp(x, n) + 1) as real
    ensures x < n as real ==> x < (Clamp(x, n) + 1) as real
  {
  }

  lemma {:induction false} BucketOrder(s: Scale, xs: seq<real>, v: real)
    requires ValidScale(s)
    ensures CountBelow(s, xs, Bucket(s, v)) <= CountLess(xs, v)
    ensures CountUpTo(xs, v) <= CountBelow(s, xs, Bucket(s, v) + 1)
  {
    hide Bucket;
    if xs != [] {
      BucketOrder(s, xs[..|xs| - 1], v);
      var x := xs[|xs| - 1];
      if v <= x {
        BucketGrows(s, v, x);
      }
      if x <= v {
        BucketGrows(s, x, v);
      }
    }
  }

  // ---- The nearest-rank sample ----

  predicate Ascending(xs: seq<real>)
  {
    forall i, j :: 0 <= i < j < |xs| ==> xs[i] <= xs[j]
  }

  /** `v` is the value at rank `rank`, counted from one, among `xs`. */
  predicate AtRank(xs: seq<real>, rank: nat, v: real)
  {
    CountLess(xs, v) < rank <= CountUpTo(xs, v)
  }

  lemma {:induction false} SortedCounts(xs: seq<real>, k: nat, v: real)
    requires Ascending(xs) && k <= |xs|
    ensures (forall i :: k <= i < |xs| ==> v <= xs[i]) ==> CountLess(xs, v) <= k
    ensures (forall i :: 0 <= i < k ==> xs[i] <= v) ==> CountUpTo(xs, v) >= k
    decreases |xs|
  {
    if xs != [] {
      var init := xs[..|xs| - 1];
      if k < |xs| {
        SortedCounts(init, k, v);
      } else {
        SortedCounts(init, k - 1, v);
      }
    }
  }

  lemma {:induction false} CountAppend(a: seq<real>, b: seq<real>, v: real)
    ensures CountLess(a + b, v) == CountLess(a, v) + CountLess(b, v)
    ensures CountUpTo(a + b, v) == CountUpTo(a, v) + CountUpTo(b, v)
    decreases |b|
  {
    if b == [] {
      assert a + b == a;
    } else {
      assert (a + b)[..|a + b| - 1] == a + b[..|b| - 1];
      CountAppend(a, b[..|b| - 1], v);
    }
  }

  lemma RemoveOne(init: seq<real>, x: real, before: seq<real>, after: seq<real>)
    requires multiset(init + [x]) == multiset(before + [x] + after)
    ensures multiset(init) == multiset(before + after)
  {
    assert multiset(init + [x]) == multiset(init) + multiset{x};
    assert multiset(before + [x] + after) == multiset(before) + multiset{x} + multiset(after);
    assert multiset(init) == multiset(init + [x]) - multiset{x};
  }

  /** Counts do not depend on the order of the samples. */
  lemma {:induction false} CountsOfPermutation(xs: seq<real>, ys: seq<real>, v: real)
    requires multiset(xs) == multiset(ys)
    ensures CountLess(xs, v) == CountLess(ys, v) && CountUpTo(xs, v) == CountUpTo(ys, v)
    decreases |xs|
  {
    if xs == [] {
      assert |multiset(ys)| == 0;
    } else {
      var init, x := xs[..|xs| - 1], xs[|xs| - 1];
      assert xs == init + [x];
      assert x in multiset(ys);
      var k :| 0 <= k < |ys| && ys[k] == x;
      var before, after := ys[..k], ys[k + 1..];
      assert ys == before + [x] + after;
      RemoveOne(init, x, before, after);
      CountsOfPermutation(init, before + after, v);
      CountAppend(before, after, v);
      CountAppend(before + [x], after, v);
      CountAppend(before, [x], v);
      CountAppend(init, [x], v);
    }
  }

  /** In ascending order, the value at a rank stands at that place. */
  lemma SortedAtRank(xs: seq<real>, sorted: seq<real>, rank: nat)
    requires Ascending(sorted) && multiset(sorted) == multiset(xs) && 1 <= rank <= |sorted|
    ensures AtRank(xs, rank, sorted[rank - 1])
  {
    var v := sorted[rank - 1];
    SortedCounts(sorted, rank - 1, v);
    SortedCounts(sorted, rank, v);
    CountsOfPermutation(sorted, xs, v);
  }

  // ---- Accuracy ----

  lemma TotalIsCount(s: Scale, xs: seq<real>, counts: seq<nat>)
    requires ValidScale(s) && Tallies(s, xs, counts)
    ensures Cumulated(counts, s.n) == |xs|
  {
    CumulatedCounts(s, xs, counts, s.n);
    NextBucket(s, xs, 0);
    hide Bucket;
  }

  /** The bucket where the count reaches a rank is the bucket of the value at that rank. */
  lemma RankBucket(s: Scale, xs: seq<real>, counts: seq<nat>, rank: nat, v: real)
    requires ValidScale(s) && Tallies(s, xs, counts) && AtRank(xs, rank, v)
    ensures 0 < rank <= Cumulated(counts, s.n) && Reached(counts, rank, 0) == Bucket(s, v)
  {
    hide Bucket, CountBelow, CountIn, CountLess, CountUpTo;
    var b := Bucket(s, v);
    CumulatedCounts(s, xs, counts, b);
    CumulatedCounts(s, xs, counts, b + 1);
    BucketOrder(s, xs, v);
    ReachedIs(counts, rank, b);
  }

  lemma BoundStep(s: Scale, i: nat)
    requires ValidScale(s)
    ensures Bound(s, i + 1) - Bound(s, i) == Width(s) && Width(s) > 0.0
  {
  }

  lemma WithinRange(k: int, c: nat)
    requires c > 0
    ensures 0.0 <= Within(k, c) <= 1.0
  {
  }

  lemma Product(a: real, b: real)
    requires a >= 0.0 && b >= 0.0
    ensures a * b >= 0.0
  {
  }

  lemma ValueInBucket(s: Scale, i: nat, k: int, c: nat)
    requires ValidScale(s) && c > 0
    ensures Bound(s, i) <= ValueIn(s, i, k, c) <= Bound(s, i + 1)
  {
    BoundStep(s, i);
    hide Bound, Width;
    WithinRange(k, c);
    var w, d := Within(k, c), Bound(s, i + 1) - Bound(s, i);
    Product(w, d);
    Product(1.0 - w, d);
    assert w * d == d - (1.0 - w) * d;
  }

  lemma PositionInRange(s: Scale, v: real)
    requires ValidScale(s) && s.min <= v <= s.max
    ensures 0.0 <= Position(s, v) <= s.n as real
    ensures Position(s, v) == (v - s.min) / (s.max - s.min) * s.n as real
    ensures (v - s.min) / (s.max - s.min) * (s.max - s.min) == v - s.min
  {
    QuotientInRange(v - s.min, s.max - s.min, s.n);
  }

  lemma ValueBounds(s: Scale, v: real)
    requires ValidScale(s) && s.min <= v <= s.max
    ensures Bound(s, Bucket(s, v)) <= v <= Bound(s, Bucket(s, v) + 1)
  {
    hide Clamp, Position;
    var n, d, i := s.n as real, s.max - s.min, Bucket(s, v);
    PositionInRange(s, v);
    ClampBounds(Position(s, v), s.n);
    FromScaled(i as real, (v - s.min) / d, n, d);
    FromScaledUp((i + 1) as real, (v - s.min) / d, n, d);
  }

  lemma FromScaledBelow(i: real, q: real, n: real, d: real)
    requires q * n < i && n > 0.0 && d > 0.0
    ensures q * d < (i / n) * d
  {
  }

  lemma OutsidePosition(x: real, d: real, n: nat)
    requires d > 0.0 && n > 0
    ensures x < 0.0 ==> x / d * n as real < 0.0
    ensures 0.0 <= x < d ==> 0.0 <= x / d * n as real < n as real
    ensures x >= d ==> x / d * n as real >= n as real
  {
    var q, m := x / d, n as real;
    QuotientSign(x, d);
    if x < 0.0 {
      NegativeProduct(q, m);
    } else if x < d {
      StrictProduct(q, m);
    } else {
      Product(q - 1.0, m);
      assert q * m == m + (q - 1.0) * m;
    }
  }

  lemma QuotientSign(x: real, d: real)
    requires d > 0.0
    ensures x < 0.0 ==> x / d < 0.0
    ensures 0.0 <= x < d ==> 0.0 <= x / d < 1.0
    ensures x >= d ==> x / d >= 1.0
  {
    var q := x / d;
    assert q * d == x;
    if q < 0.0 {
      NegativeProduct(q, d);
    } else if q < 1.0 {
      StrictProduct(q, d);
    } else {
      Product(q - 1.0, d);
      assert q * d == d + (q - 1.0) * d;
    }
  }

  lemma NegativeProduct(q: real, n: real)
    requires q < 0.0 && n > 0.0
    ensures q * n < 0.0
  {
  }

  lemma StrictProduct(q: real, n: real)
    requires 0.0 <= q < 1.0 && n > 0.0
    ensures 0.0 <= q * n < n
  {
  }

  lemma EndBounds(s: Scale)
    requires ValidScale(s)
    ensures Bound(s, 0) == s.min && Bound(s, s.n) == s.max
  {
  }

  /** The buckets tile the range: a value in it lies in its own half-open bucket, one below it counts in the first, one
      at or above its end in the last. */
  lemma BucketHoldsValue(s: Scale, v: real)
    requires ValidScale(s)
    ensures Bound(s, 0) == s.min && Bound(s, s.n) == s.max
    ensures v < s.min ==> Bucket(s, v) == 0
    ensures s.min <= v < s.max ==> Bound(s, Bucket(s, v)) <= v < Bound(s, Bucket(s, v) + 1)
    ensures v >= s.max ==> Bucket(s, v) == s.n - 1
  {
    EndBounds(s);
    OutOfRange(s, v);
    hide Bound, Bucket;
    if s.min <= v < s.max {
      ValueBounds(s, v);
      BelowNextBound(s, v);
    }
  }

  lemma OutOfRange(s: Scale, v: real)
    requires ValidScale(s)
    ensures v < s.min ==> Bucket(s, v) == 0
    ensures v >= s.max ==> Bucket(s, v) == s.n - 1
  {
    hide Position;
    PositionIs(s, v);
    OutsidePosition(v - s.min, s.max - s.min, s.n);
    ClampOutside(Position(s, v), s.n);
    hide Clamp;
  }

  lemma ClampOutside(x: real, n: nat)
    requires n > 0
    ensures x < 0.0 ==> Clamp(x, n) == 0
    ensures x >= n as real ==> Clamp(x, n) == n - 1
  {
  }

  lemma BelowNextBound(s: Scale, v: real)
    requires ValidScale(s) && s.min <= v < s.max
    ensures v < Bound(s, Bucket(s, v) + 1)
  {
    hide Clamp, Position;
    var n, d, i := s.n as real, s.max - s.min, Bucket(s, v);
    PositionInRange(s, v);
    OutsidePosition(v - s.min, d, s.n);
    ClampBounds(Position(s, v), s.n);
    FromScaledBelow((i + 1) as real, (v - s.min) / d, n, d);
  }

  lemma PositionIs(s: Scale, v: real)
    requires ValidScale(s)
    ensures Position(s, v) == (v - s.min) / (s.max - s.min) * s.n as real
  {
  }

  lemma QuotientInRange(x: real, d: real, n: nat)
    requires 0.0 <= x <= d && d > 0.0 && n > 0
    ensures 0.0 <= x / d * n as real <= n as real && x / d * d == x
  {
  }

  lemma FromScaled(i: real, q: real, n: real, d: real)
    requires i <= q * n && n > 0.0 && d > 0.0
    ensures (i / n) * d <= q * d
  {
  }

  lemma FromScaledUp(i: real, q: real, n: real, d: real)
    requires q * n <= i && n > 0.0 && d > 0.0
    ensures q * d <= (i / n) * d
  {
  }

  /** The rank a percentile asks for. */
  function Rank(p: real, total: nat): nat
    requires 0.0 <= p <= 1.0
  {
    AtLeastOne(Target(p, total))
  }

  /** `k` is the nearest rank of `p` among `n` values: the least one, from one on, that is at least p * n. */
  predicate NearestRank(p: real, n: nat, k: nat)
  {
    1 <= k && p * n as real <= k as real && (k > 1 ==> (k - 1) as real < p * n as real)
  }

  lemma RankIsNearest(p: real, n: nat, k: nat)
    requires 0.0 <= p <= 1.0
    ensures NearestRank(p, n, k) <==> k == Rank(p, n)
    ensures Target(p, n) == if p * n as real <= 0.0 then 0 else Rank(p, n)
  {
    TargetInRange(p, n);
    Product(p, n as real);
    RanksOf(p * n as real, k);
  }

  lemma RanksOf(x: real, k: nat)
    requires x >= 0.0
    ensures 1 <= k && x <= k as real && (k > 1 ==> (k - 1) as real < x) <==> k == AtLeastOne(Ceil(x))
  {
  }

  /** For a histogram that holds samples, every percentile is answered, from the bucket of the true nearest-rank sample;
      when that sample is within the range, the answer is off by at most one bucket's width. */
  lemma PercentileAccurate(s: Scale, xs: seq<real>, counts: seq<nat>, sorted: seq<real>, p: real, k: nat)
    requires ValidScale(s) && Tallies(s, xs, counts) && xs != []
    requires Ascending(sorted) && multiset(sorted) == multiset(xs)
    requires 0.0 <= p <= 1.0 && NearestRank(p, |xs|, k)
    ensures k <= |sorted| == |xs|
    ensures var r, v := Percentile(s, counts, p), sorted[k - 1];
            && r.Some?
            && Bound(s, Bucket(s, v)) <= r.value <= Bound(s, Bucket(s, v) + 1)
            && (s.min <= v <= s.max ==> -Width(s) <= r.value - v <= Width(s))
  {
    hide Bucket, Bound, Width, ValueIn, CountLess, CountUpTo, CountIn, Target, NearestRank;
    assert |sorted| == |multiset(sorted)| == |multiset(xs)| == |xs|;
    TotalIsCount(s, xs, counts);
    RankIsNearest(p, |xs|, k);
    var v := sorted[k - 1];
    SortedAtRank(xs, sorted, k);
    RankBucket(s, xs, counts, k, v);
    var b := Bucket(s, v);
    ValueInBucket(s, b, Target(p, |xs|) - Cumulated(counts, b), counts[b]);
    BoundStep(s, b);
    if s.min <= v <= s.max {
      ValueBounds(s, v);
    }
  }

  /** The value that is `j`-th of `c` in its bucket, counted from one. */
  lemma WithinIs(j: nat, c: nat)
    requires 1 <= j <= c
    ensures Within(j, c) == (j as real - 0.5) / c as real && Within(0, c) == 0.0
  {
  }

  lemma BelowGrows(s: Scale, xs: seq<real>, counts: seq<nat>, b: nat)
    requires ValidScale(s) && Tallies(s, xs, counts) && b < s.n
    ensures Cumulated(counts, b) == CountBelow(s, xs, b)
    ensures Cumulated(counts, b + 1) == CountBelow(s, xs, b) + counts[b]
  {
    CumulatedCounts(s, xs, counts, b);
    hide CountBelow, CountIn;
  }

  /** Where the nearest-rank sample lies: `j`-th of the `c` samples in its bucket. */
  lemma RankPlace(s: Scale, xs: seq<real>, counts: seq<nat>, p: real, k: nat, v: real)
    requires ValidScale(s) && Tallies(s, xs, counts) && xs != [] && AtRank(xs, k, v)
    requires 0.0 < p <= 1.0 && NearestRank(p, |xs|, k)
    ensures Cumulated(counts, s.n) == |xs| && Target(p, |xs|) == k == Rank(p, |xs|) <= |xs|
    ensures var b := Bucket(s, v);
            && Reached(counts, k, 0) == b
            && Cumulated(counts, b) == CountBelow(s, xs, b) && counts[b] == CountIn(s, xs, b)
            && 1 <= k - CountBelow(s, xs, b) <= CountIn(s, xs, b)
  {
    hide Bucket, CountLess, CountUpTo, CountIn, CountBelow, Target, NearestRank;
    TotalIsCount(s, xs, counts);
    RankIsNearest(p, |xs|, k);
    StrictlyPositive(p, |xs|);
    RankBucket(s, xs, counts, k, v);
    BelowGrows(s, xs, counts, Bucket(s, v));
    ReachedIn(counts, k, Bucket(s, v));
  }

  /** The middle of the `j`-th of `c` equal parts of a bucket. */
  function MiddleOfPart(s: Scale, b: nat, j: nat, c: nat): real
    requires ValidScale(s) && 1 <= j <= c
  {
    Bound(s, b) + (j as real - 0.5) / c as real * (Bound(s, b + 1) - Bound(s, b))
  }

  /** The answer itself, for p > 0: the nearest-rank sample is the j-th of the c samples in its bucket, and stands for
      the middle of the j-th of c equal parts of the bucket. */
  lemma PercentileInterpolates(s: Scale, xs: seq<real>, counts: seq<nat>, p: real, k: nat, v: real)
    requires ValidScale(s) && Tallies(s, xs, counts) && xs != [] && AtRank(xs, k, v)
    requires 0.0 < p <= 1.0 && NearestRank(p, |xs|, k)
    ensures var b := Bucket(s, v);
            var j, c := k - CountBelow(s, xs, b), CountIn(s, xs, b);
            && 1 <= j <= c
            && Percentile(s, counts, p) == Some(MiddleOfPart(s, b, j, c))
  {
    hide MiddleOfPart, Bucket, Bound, CountLess, CountUpTo, CountIn, CountBelow, Target, NearestRank, Percentile;
    hide Reached, Cumulated, ValueIn, Rank, Within, AtRank;
    RankPlace(s, xs, counts, p, k, v);
    var b := Bucket(s, v);
    AnswerIs(s, counts, p, |xs|, b);
    ValueOfJth(s, b, k - CountBelow(s, xs, b), CountIn(s, xs, b));
  }

  lemma ValueOfJth(s: Scale, b: nat, j: nat, c: nat)
    requires ValidScale(s) && 1 <= j <= c
    ensures ValueIn(s, b, j, c) == MiddleOfPart(s, b, j, c)
  {
    hide Bound, Within;
    WithinIs(j, c);
  }

  /** The answer from bucket `b`. */
  lemma AnswerIs(s: Scale, counts: seq<nat>, p: real, total: nat, b: nat)
    requires ValidScale(s) && |counts| == s.n && 0.0 <= p <= 1.0 && total > 0 && Cumulated(counts, s.n) == total
    requires b < s.n && Rank(p, total) <= total && Reached(counts, Rank(p, total), 0) == b && counts[b] > 0
    ensures Percentile(s, counts, p)
         == Some(ValueIn(s, b, Target(p, total) - Cumulated(counts, b), counts[b]))
  {
    hide ValueIn, Target, Reached, Cumulated;
  }

  lemma ReachedIn(counts: seq<nat>, t: nat, b: nat)
    requires 0 < t <= Cumulated(counts, |counts|) && b < |counts| && Reached(counts, t, 0) == b
    ensures Cumulated(counts, b) < t <= Cumulated(counts, b + 1)
  {
  }

  lemma StrictlyPositive(p: real, n: nat)
    requires p > 0.0 && n > 0
    ensures p * n as real > 0.0
  {
  }

  /** For p = 0 it is the lower end of the smallest sample's bucket. */
  lemma PercentileZero(s: Scale, xs: seq<real>, counts: seq<nat>, v: real)
    requires ValidScale(s) && Tallies(s, xs, counts) && xs != [] && AtRank(xs, 1, v)
    ensures Percentile(s, counts, 0.0) == Some(Bound(s, Bucket(s, v)))
  {
    hide Bucket, Bound, CountLess, CountUpTo, CountIn, CountBelow, Target, Within, Percentile, ValueIn;
    TotalIsCount(s, xs, counts);
    RankIsNearest(0.0, |xs|, 1);
    RankBucket(s, xs, counts, 1, v);
    var b := Bucket(s, v);
    ReachedIn(counts, 1, b);
    AnswerIs(s, counts, 0.0, |xs|, b);
    LowerEnd(s, b, -(Cumulated(counts, b) as int), counts[b]);
  }

  lemma LowerEnd(s: Scale, b: nat, k: int, c: nat)
    requires ValidScale(s) && k <= 0 && c > 0
    ensures ValueIn(s, b, k, c) == Bound(s, b)
  {
    hide Bound, Within;
    WithinNothing(k, c);
  }

  lemma WithinNothing(k: int, c: nat)
    requires k <= 0 && c > 0
    ensures Within(k, c) == 0.0
  {
  }

  /** A single sample is answered with the middle of its bucket, whatever the percentile, except for p = 0. */
  lemma SingleSampleMidpoint(s: Scale, v: real, counts: seq<nat>, p: real)
    requires ValidScale(s) && Tallies(s, [v], counts) && 0.0 < p <= 1.0
    ensures var b := Bucket(s, v);
            Percentile(s, counts, p) == Some(Bound(s, b) + 0.5 * (Bound(s, b + 1) - Bound(s, b)))
  {
    hide Bucket, Bound, Percentile;
    assert [v][..0] == [];
    assert CountIn(s, [], Bucket(s, v)) == 0 && CountBelow(s, [], Bucket(s, v)) == 0;
    assert CountLess([], v) == 0 && CountUpTo([], v) == 0;
    PercentileInterpolates(s, [v], counts, p, 1, v);
  }

  // ---- Monotonicity ----

  lemma TargetGrows(p: real, q: real, total: nat)
    requires 0.0 <= p <= q <= 1.0
    ensures Target(p, total) <= Target(q, total)
  {
    var t := total as real;
    Product(q - p, t);
    assert q * t == p * t + (q - p) * t;
  }

  lemma WithinGrows(k: int, l: int, c: nat)
    requires c > 0 && k <= l
    ensures Within(k, c) <= Within(l, c)
  {
  }

  lemma BoundGrows(s: Scale, i: nat, j: nat)
    requires ValidScale(s) && i <= j
    ensures Bound(s, i) <= Bound(s, j)
    decreases j
  {
  }

  lemma ValueGrows(s: Scale, counts: seq<nat>, t: nat, u: nat)
    requires ValidScale(s) && |counts| == s.n && t <= u && AtLeastOne(u) <= Cumulated(counts, s.n)
    ensures ValueAt(s, counts, t) <= ValueAt(s, counts, u)
  {
    hide Bound, Width, Within;
    var i, j := Reached(counts, AtLeastOne(t), 0), Reached(counts, AtLeastOne(u), 0);
    var k, l := t - Cumulated(counts, i), u - Cumulated(counts, j);
    if i < j {
      ValueInBucket(s, i, k, counts[i]);
      ValueInBucket(s, j, l, counts[j]);
      BoundGrows(s, i + 1, j);
    } else if i > j {
      CumulatedGrows(counts, j + 1, i);
      assert false;
    } else {
      WithinGrows(k, l, counts[i]);
      BoundStep(s, i);
      var w, v, d := Within(k, counts[i]), Within(l, counts[i]), Bound(s, i + 1) - Bound(s, i);
      Product(v - w, d);
      assert v * d == w * d + (v - w) * d;
    }
  }

  /** A higher percentile is never a lower value. */
  lemma PercentileMonotone(s: Scale, counts: seq<nat>, p: real, q: real)
    requires ValidScale(s) && |counts| == s.n && 0.0 <= p <= q <= 1.0
    ensures Percentile(s, counts, p).Some? <==> Percentile(s, counts, q).Some?
    ensures Percentile(s, counts, p).Some? ==> Percentile(s, counts, p).value <= Percentile(s, counts, q).value
  {
    hide ValueAt, Target, Ceil;
    var total := Cumulated(counts, s.n);
    if total > 0 {
      TargetGrows(p, q, total);
      ValueGrows(s, counts, Target(p, total), Target(q, total));
    }
  }
}
