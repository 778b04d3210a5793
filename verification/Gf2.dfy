/** Polynomials over GF(2), written as bit sequences with the coefficient of the highest power first. */
module Gf2 {

  type Bits = seq<bool>

  function Zeros(n: nat): (r: Bits)
    ensures |r| == n
    ensures forall i :: 0 <= i < n ==> !r[i]
  {
    seq(n, _ => false)
  }

  function Ones(n: nat): (r: Bits)
    ensures |r| == n
    ensures forall i :: 0 <= i < n ==> r[i]
  {
    seq(n, _ => true)
  }

  /** Polynomial addition: coefficient-wise exclusive or. */
  function Xor(a: Bits, b: Bits): (r: Bits)
    requires |a| == |b|
    ensures |r| == |a|
    ensures forall i :: 0 <= i < |r| ==> r[i] == (a[i] != b[i])
  {
    seq(|a|, i requires 0 <= i < |a| => a[i] != b[i])
  }

  function Not(a: Bits): (r: Bits)
    ensures |r| == |a|
    ensures forall i :: 0 <= i < |r| ==> r[i] == !a[i]
  {
    seq(|a|, i requires 0 <= i < |a| => !a[i])
  }

  /** A generator of degree 32 with a constant term, given by its coefficients below x^32. */
  type Generator = g: Bits | |g| == 32 && g[31] witness Ones(32)

  /** Schoolbook product of the polynomial `q` and the generator; it has 32 more coefficients than `q`. */
  function TimesGenerator(g: Generator, q: Bits): (r: Bits)
    ensures |r| == |q| + 32
  {
    if q == [] then Zeros(32) else Xor(Row(g, q[0], |q| - 1), [false] + TimesGenerator(g, q[1..]))
  }

  /** One row of the schoolbook product: `bit` times the generator times x^n. */
  function Row(g: Generator, bit: bool, n: nat): (r: Bits)
    ensures |r| == n + 33
  {
    seq(n + 33, i requires 0 <= i => bit && (i == 0 || (i <= 32 && g[i - 1])))
  }

  /** `r` is the remainder of `p`: some multiple of the generator differs from `p` by exactly `r`, of degree below
      32. */
  ghost predicate IsRemainder(g: Generator, p: Bits, r: Bits)
  {
    |r| == 32 <= |p| && exists q: Bits :: |q| + 32 == |p| && p == Xor(TimesGenerator(g, q), Zeros(|q|) + r)
  }

  /** `d` is a multiple of the generator (32 leading zeros leave room for a quotient of any `d`). */
  ghost predicate IsMultiple(g: Generator, d: Bits)
  {
    exists q: Bits :: |q| == |d| && Zeros(32) + d == TimesGenerator(g, q)
  }

  /** One step of long division: cancel the leading coefficient and drop it. */
  function Reduce(g: Generator, p: Bits): (r: Bits)
    requires |p| >= 33
    ensures |r| == |p| - 1
  {
    (if p[0] then Xor(p[1..33], g) else p[1..33]) + p[33..]
  }

  /** Long division by the generator, keeping the remainder. */
  function LongDiv(g: Generator, p: Bits): (r: Bits)
    requires |p| >= 32
    ensures |r| == 32
    decreases |p|
  {
    if |p| == 32 then p else LongDiv(g, Reduce(g, p))
  }

  /** One clock of the division register: shift out the top coefficient, add the incoming bit to it, feed back. */
  function Step(g: Generator, s: Bits, bit: bool): (r: Bits)
    requires |s| == 32
    ensures |r| == 32
  {
    Xor(s[1..] + [false], if s[0] != bit then g else Zeros(32))
  }

  function Run(g: Generator, s: Bits, m: Bits): (r: Bits)
    requires |s| == 32
    ensures |r| == 32
    decreases |m|
  {
    if m == [] then s else Run(g, Step(g, s, m[0]), m[1..])
  }

  /** The message times x^32, with `s` added into its first 32 coefficients. */
  function Augment(m: Bits, s: Bits): (r: Bits)
    requires |s| == 32
    ensures |r| == |m| + 32
  {
    Xor(m + Zeros(32), s + Zeros(|m|))
  }

  // ---- Long division yields the remainder, and the only one ----

  /** The coefficients of a product, one at a time. */
  lemma TimesAt(g: Generator, q: Bits, i: nat)
    requires q != [] && i < |q| + 32
    ensures TimesGenerator(g, q)[i] ==
            if i == 0 then q[0] else ((q[0] && i <= 32 && g[i - 1]) != TimesGenerator(g, q[1..])[i - 1])
  {
    var row, rest := Row(g, q[0], |q| - 1), TimesGenerator(g, q[1..]);
    assert TimesGenerator(g, q) == Xor(row, [false] + rest);
    assert row[i] == (q[0] && (i == 0 || (i <= 32 && g[i - 1])));
    assert ([false] + rest)[i] == (i > 0 && rest[i - 1]);
    hide TimesGenerator, Row;
  }

  lemma ReduceAt(g: Generator, p: Bits, i: nat)
    requires i + 1 < |p| && |p| >= 33
    ensures Reduce(g, p)[i] == (p[i + 1] != (p[0] && i < 32 && g[i]))
  {
  }

  lemma ReduceProduct(g: Generator, q: Bits, r: Bits)
    requires |r| == 32 && q != []
    ensures Reduce(g, Xor(TimesGenerator(g, q), Zeros(|q|) + r))
         == Xor(TimesGenerator(g, q[1..]), Zeros(|q| - 1) + r)
  {
    var p := Xor(TimesGenerator(g, q), Zeros(|q|) + r);
    var next := Xor(TimesGenerator(g, q[1..]), Zeros(|q| - 1) + r);
    TimesAt(g, q, 0);
    forall i | 0 <= i < |next| ensures Reduce(g, p)[i] == next[i] {
      TimesAt(g, q, i + 1);
      ReduceAt(g, p, i);
    }
  }

  lemma {:induction false} DivisionOf(g: Generator, q: Bits, r: Bits)
    requires |r| == 32
    ensures LongDiv(g, Xor(TimesGenerator(g, q), Zeros(|q|) + r)) == r
    decreases |q|
  {
    var p := Xor(TimesGenerator(g, q), Zeros(|q|) + r);
    if q == [] {
      assert p == r;
    } else {
      ReduceProduct(g, q, r);
      DivisionOf(g, q[1..], r);
    }
  }

  lemma {:induction false} DivisionExists(g: Generator, p: Bits) returns (q: Bits)
    requires |p| >= 32
    ensures |q| + 32 == |p| && p == Xor(TimesGenerator(g, q), Zeros(|q|) + LongDiv(g, p))
    decreases |p|
  {
    if |p| == 32 {
      q := [];
      assert p == Xor(Zeros(32), Zeros(0) + p);
    } else {
      var rest := DivisionExists(g, Reduce(g, p));
      q := [p[0]] + rest;
      assert q[1..] == rest;
      var r := LongDiv(g, p);
      var t := Xor(TimesGenerator(g, q), Zeros(|q|) + r);
      assert Reduce(g, p) == Xor(TimesGenerator(g, rest), Zeros(|rest|) + r);
      forall i | 0 <= i < |p| ensures p[i] == t[i] {
        TimesAt(g, q, i);
        if i > 0 {
          ReduceAt(g, p, i - 1);
        }
      }
    }
  }

  /** Long division decides the remainder relation: a remainder exists and it is unique. */
  lemma RemainderIsLongDiv(g: Generator, p: Bits, r: Bits)
    requires |p| >= 32
    ensures IsRemainder(g, p, r) <==> r == LongDiv(g, p)
  {
    if IsRemainder(g, p, r) {
      var q: Bits :| |q| + 32 == |p| && p == Xor(TimesGenerator(g, q), Zeros(|q|) + r);
      DivisionOf(g, q, r);
    }
    if r == LongDiv(g, p) {
      var q := DivisionExists(g, p);
    }
  }

  lemma MultipleIsZeroRemainder(g: Generator, d: Bits)
    ensures IsMultiple(g, d) <==> LongDiv(g, Zeros(32) + d) == Zeros(32)
  {
    var p := Zeros(32) + d;
    if IsMultiple(g, d) {
      var q: Bits :| |q| == |d| && p == TimesGenerator(g, q);
      DivisionOf(g, q, Zeros(32));
      XorZeros(p);
    }
    if LongDiv(g, p) == Zeros(32) {
      var q := DivisionExists(g, p);
      XorZeros(TimesGenerator(g, q));
    }
  }

  lemma XorZeros(a: Bits)
    requires |a| >= 32
    ensures Xor(a, Zeros(|a| - 32) + Zeros(32)) == a
    ensures Xor(a, Zeros(|a|)) == a
    ensures Xor(Zeros(|a|), a) == a
  {
  }

  // ---- The register computes long division of the augmented message ----

  /** The register form, which reads each message bit once and never appends zeros, divides the augmented message. */
  lemma {:induction false} RunIsLongDiv(g: Generator, s: Bits, m: Bits)
    requires |s| == 32
    ensures Run(g, s, m) == LongDiv(g, Augment(m, s))
    decreases |m|
  {
    var p := Augment(m, s);
    if m == [] {
      assert p == s;
    } else {
      assert Reduce(g, p) == Augment(m[1..], Step(g, s, m[0])) by {
        var a, b := Reduce(g, p), Augment(m[1..], Step(g, s, m[0]));
        forall i | 0 <= i < |a| ensures a[i] == b[i] {
          assert p[i + 1] == ((m + Zeros(32))[i + 1] != (s + Zeros(|m|))[i + 1]);
        }
      }
      RunIsLongDiv(g, Step(g, s, m[0]), m[1..]);
    }
  }

  lemma {:induction false} RunConcat(g: Generator, s: Bits, a: Bits, b: Bits)
    requires |s| == 32
    ensures Run(g, s, a + b) == Run(g, Run(g, s, a), b)
    decreases |a|
  {
    if a == [] {
      assert a + b == b;
    } else {
      assert (a + b)[1..] == a[1..] + b;
      RunConcat(g, Step(g, s, a[0]), a[1..], b);
    }
  }

  lemma {:induction false} RunLinear(g: Generator, s: Bits, t: Bits, m: Bits, n: Bits)
    requires |s| == |t| == 32 && |m| == |n|
    ensures Run(g, Xor(s, t), Xor(m, n)) == Xor(Run(g, s, m), Run(g, t, n))
    decreases |m|
  {
    if m == [] {
    } else {
      assert Step(g, Xor(s, t), Xor(m, n)[0]) == Xor(Step(g, s, m[0]), Step(g, t, n[0]));
      assert Xor(m, n)[1..] == Xor(m[1..], n[1..]);
      RunLinear(g, Step(g, s, m[0]), Step(g, t, n[0]), m[1..], n[1..]);
    }
  }

  lemma StepInjective(g: Generator, s: Bits, t: Bits, bit: bool)
    requires |s| == |t| == 32 && Step(g, s, bit) == Step(g, t, bit)
    ensures s == t
  {
  }

  lemma {:induction false} RunInjective(g: Generator, s: Bits, t: Bits, m: Bits)
    requires |s| == |t| == 32 && Run(g, s, m) == Run(g, t, m)
    ensures s == t
    decreases |m|
  {
    if m == [] {
    } else {
      RunInjective(g, Step(g, s, m[0]), Step(g, t, m[0]), m[1..]);
      StepInjective(g, s, t, m[0]);
    }
  }

  /** Up to 32 message bits act as if they had been added into the register beforehand. */
  lemma Absorb(g: Generator, s: Bits, w: Bits)
    requires |s| == 32 && |w| <= 32
    ensures Run(g, s, w) == Run(g, Xor(s, w + Zeros(32 - |w|)), Zeros(|w|))
  {
    var t := Xor(s, w + Zeros(32 - |w|));
    RunIsLongDiv(g, s, w);
    RunIsLongDiv(g, t, Zeros(|w|));
    AugmentOfZeros(t, |w|);
    AugmentShort(s, w);
  }

  lemma AugmentShort(s: Bits, w: Bits)
    requires |s| == 32 && |w| <= 32
    ensures Augment(w, s) == Xor(s, w + Zeros(32 - |w|)) + Zeros(|w|)
  {
  }

  lemma XorConcat(a: Bits, b: Bits, c: Bits, d: Bits)
    requires |a| == |c| && |b| == |d|
    ensures Xor(a + b, c + d) == Xor(a, c) + Xor(b, d)
  {
  }

  /** Two messages that differ only inside a window of at most 32 bits leave different registers. */
  lemma BurstChangesRegister(g: Generator, s: Bits, pre: Bits, v: Bits, w: Bits, post: Bits)
    requires |s| == 32 && |v| == |w| <= 32 && v != w
    ensures Run(g, s, pre + v + post) != Run(g, s, pre + w + post)
  {
    var t := Run(g, s, pre);
    RunConcat(g, s, pre + v, post);
    RunConcat(g, s, pre + w, post);
    RunConcat(g, s, pre, v);
    RunConcat(g, s, pre, w);
    if Run(g, s, pre + v + post) == Run(g, s, pre + w + post) {
      RunInjective(g, Run(g, t, v), Run(g, t, w), post);
      Absorb(g, t, v);
      Absorb(g, t, w);
      var v', w' := v + Zeros(32 - |v|), w + Zeros(32 - |w|);
      RunInjective(g, Xor(t, v'), Xor(t, w'), Zeros(|v|));
      forall i | 0 <= i < |v| ensures v[i] == w[i] {
        assert Xor(t, v')[i] == Xor(t, w')[i];
      }
      assert false;
    }
  }

  // ---- Exactly the multiples of the generator go unnoticed ----

  lemma {:induction false} LongDivConcat(g: Generator, p: Bits, t: Bits)
    requires |p| >= 32
    ensures LongDiv(g, p + t) == LongDiv(g, LongDiv(g, p) + t)
    decreases |p|
  {
    if |p| == 32 {
    } else {
      assert Reduce(g, p + t) == Reduce(g, p) + t;
      LongDivConcat(g, Reduce(g, p), t);
    }
  }

  lemma {:induction false} LeadingZeros(g: Generator, n: nat, p: Bits)
    requires |p| >= 32
    ensures LongDiv(g, Zeros(n) + p) == LongDiv(g, p)
  {
    if n == 0 {
      assert Zeros(0) + p == p;
    } else {
      assert Reduce(g, Zeros(n) + p) == Zeros(n - 1) + p;
      LeadingZeros(g, n - 1, p);
    }
  }

  lemma SilentIsZeroRemainder(g: Generator, d: Bits)
    ensures Run(g, Zeros(32), d) == LongDiv(g, LongDiv(g, Zeros(32) + d) + Zeros(32))
  {
    var z := Zeros(32);
    RunIsLongDiv(g, z, d);
    AugmentZero(d);
    LeadingZeros(g, 32, d + z);
    assert z + (d + z) == (z + d) + z;
    LongDivConcat(g, z + d, z);
  }

  lemma AugmentZero(d: Bits)
    ensures Augment(d, Zeros(32)) == d + Zeros(32)
  {
  }

  /** Dividing r * x^32 clocks the register 32 times on zeros, starting from `r`. */
  lemma ShiftOut(g: Generator, r: Bits)
    requires |r| == 32
    ensures LongDiv(g, r + Zeros(32)) == Run(g, r, Zeros(32))
  {
    var z := Zeros(32);
    RunIsLongDiv(g, r, z);
    AugmentOfZeros(r, 32);
  }

  lemma AugmentOfZeros(r: Bits, n: nat)
    requires |r| == 32
    ensures Augment(Zeros(n), r) == r + Zeros(n)
  {
  }

  /** A difference leaves the all-zero register exactly when it is a multiple of the generator: multiplying by x^32
      loses nothing because x does not divide the generator. */
  lemma SilentIffMultiple(g: Generator, d: Bits)
    ensures Run(g, Zeros(32), d) == Zeros(32) <==> IsMultiple(g, d)
  {
    var z := Zeros(32);
    var r := LongDiv(g, z + d);
    MultipleIsZeroRemainder(g, d);
    SilentIsZeroRemainder(g, d);
    ShiftOut(g, r);
    ShiftOut(g, z);
    LeadingZeros(g, 32, z);
    if Run(g, z, d) == z {
      RunInjective(g, r, z, z);
    }
  }

  /** The generator itself, shifted anywhere, is a multiple: a 33-bit burst can go unnoticed. */
  lemma ShiftedGeneratorIsMultiple(g: Generator, a: nat, b: nat)
    ensures IsMultiple(g, Zeros(a) + Row(g, true, b))
  {
    var q := Zeros(32 + a) + [true] + Zeros(b);
    Monomial(g, 32 + a, b);
    assert Zeros(32) + (Zeros(a) + Row(g, true, b)) == Zeros(32 + a) + Row(g, true, b);
  }

  lemma {:induction false} TimesZero(g: Generator, n: nat)
    ensures TimesGenerator(g, Zeros(n)) == Zeros(n + 32)
  {
    if n > 0 {
      assert Zeros(n)[1..] == Zeros(n - 1);
      TimesZero(g, n - 1);
    }
  }

  lemma {:induction false} Monomial(g: Generator, a: nat, b: nat)
    ensures TimesGenerator(g, Zeros(a) + [true] + Zeros(b)) == Zeros(a) + Row(g, true, b)
    decreases a
  {
    var q := Zeros(a) + [true] + Zeros(b);
    var rest := TimesGenerator(g, q[1..]);
    if a == 0 {
      assert q[1..] == Zeros(b);
      TimesZero(g, b);
      assert Zeros(0) + Row(g, true, b) == Row(g, true, b);
      XorZeros(Row(g, true, b));
      assert [false] + Zeros(b + 32) == Zeros(b + 33);
    } else {
      assert q[1..] == Zeros(a - 1) + [true] + Zeros(b);
      Monomial(g, a - 1, b);
      XorZeros([false] + rest);
      assert Row(g, false, a + b) == Zeros(a + b + 33);
      assert [false] + (Zeros(a - 1) + Row(g, true, b)) == Zeros(a) + Row(g, true, b);
    }
  }
}
