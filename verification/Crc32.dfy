/** The streaming CRC-32 accumulator, and what its bit-at-a-time loop computes. */
module Crc {
  import opened Bytes
  import opened Gf2

  const CRC32_IEEE_POLY: bv32 := 0xEDB8_8320

  /** Shift the register right by one, then add the polynomial in if `lsb` is set. */
  function Turn(crc: bv32, lsb: bool): bv32
  {
    if lsb then (crc >> 1) ^ CRC32_IEEE_POLY else crc >> 1
  }

  /** One turn of the inner loop: the register's low bit is compared with the incoming bit. */
  function NextBit(crc: bv32, bit: bool): bv32
  {
    Turn(crc, (crc & 1 == 1) != bit)
  }

  function Feed(crc: bv32, bits: Bits): bv32
    decreases |bits|
  {
    if bits == [] then crc else Feed(NextBit(crc, bits[0]), bits[1..])
  }

  /** The low `n` bits of `v`, least significant first: the order in which a byte is transmitted. */
  function LowBits(v: nat, n: nat): (r: Bits)
    ensures |r| == n
  {
    if n == 0 then [] else [v % 2 == 1] + LowBits(v / 2, n - 1)
  }

  function MessageBits(bytes: seq<byte>): (r: Bits)
    ensures |r| == 8 * |bytes|
  {
    if bytes == [] then [] else LowBits(bytes[0], 8) + MessageBits(bytes[1..])
  }

  /** The one-shot CRC of a byte string. */
  function Crc32Ieee(bytes: seq<byte>): bv32
  {
    !Feed(0xFFFF_FFFF, MessageBits(bytes))
  }

  class Crc32 {
    var state: bv32

    constructor ()
      ensures state == 0xFFFF_FFFF
    {
      state := 0xFFFF_FFFF;
    }

    method Update(bytes: seq<byte>)
      modifies this
      ensures state == Feed(old(state), MessageBits(bytes))
    {
      var crc := state;
      var i := 0;
      while i < |bytes|
        invariant 0 <= i <= |bytes|
        invariant Feed(crc, MessageBits(bytes[i..])) == Feed(old(state), MessageBits(bytes))
      {
        FeedConcat(crc, LowBits(bytes[i], 8), MessageBits(bytes[i..][1..]));
        crc := UpdateByte(crc, bytes[i]);
        assert bytes[i..][1..] == bytes[i + 1..];
        i := i + 1;
      }
      state := crc;
    }

    /** The inner loop of the update: eight turns over one byte. */
    static method UpdateByte(crc: bv32, byte: byte) returns (r: bv32)
      ensures r == Feed(crc, LowBits(byte, 8))
    {
      r := crc;
      var b: int := byte;
      var k := 0;
      while k < 8
        invariant 0 <= k <= 8 && b >= 0
        invariant Feed(r, LowBits(b, 8 - k)) == Feed(crc, LowBits(byte, 8))
      {
        FeedLow(r, b, 8 - k);
        ghost var before := r;
        // The low bit of `(crc as u8) ^ byte`.
        var lsb := (r & 1 == 1) != (b % 2 == 1);
        r := r >> 1;
        b := b / 2;
        if lsb {
          r := r ^ CRC32_IEEE_POLY;
        }
        assert r == Turn(before, lsb);
        k := k + 1;
      }
    }

    method Finalize() returns (crc: bv32)
      ensures crc == !state
    {
      crc := !state;
    }
  }

  method ComputeCrc32Ieee(bytes: seq<byte>) returns (crc: bv32)
    ensures crc == Crc32Ieee(bytes)
  {
    var c := new Crc32();
    c.Update(bytes);
    crc := c.Finalize();
  }

  /** Feeding one low bit of `b`. */
  lemma FeedLow(crc: bv32, b: nat, n: nat)
    requires n > 0
    ensures Feed(crc, LowBits(b, n)) == Feed(NextBit(crc, b % 2 == 1), LowBits(b / 2, n - 1))
  {
  }

  lemma {:induction false} FeedConcat(crc: bv32, a: Bits, b: Bits)
    ensures Feed(crc, a + b) == Feed(Feed(crc, a), b)
    decreases |a|
  {
    if a == [] {
      assert a + b == b;
    } else {
      assert (a + b)[1..] == a[1..] + b;
      FeedConcat(NextBit(crc, a[0]), a[1..], b);
    }
  }

  lemma {:induction false} MessageBitsConcat(a: seq<byte>, b: seq<byte>)
    ensures MessageBits(a + b) == MessageBits(a) + MessageBits(b)
  {
    if a == [] {
      assert a + b == b;
    } else {
      assert (a + b)[1..] == a[1..] + b;
      MessageBitsConcat(a[1..], b);
    }
  }

  /** The message's bits are its bytes', each byte's least significant bit first. */
  lemma {:induction false} MessageBitAt(bytes: seq<byte>, i: nat, k: nat)
    requires i < |bytes| && k < 8
    ensures MessageBits(bytes)[8 * i + k] == (bytes[i] / Power2(k) % 2 == 1)
    decreases i
  {
    if i == 0 {
      LowBitAt(bytes[0], 8, k);
    } else {
      MessageBitAt(bytes[1..], i - 1, k);
      assert MessageBits(bytes)[8 * i + k] == MessageBits(bytes[1..])[8 * (i - 1) + k];
    }
    hide LowBits, Power2;
  }

  lemma {:induction false} LowBitAt(v: nat, n: nat, k: nat)
    requires k < n
    ensures LowBits(v, n)[k] == (v / Power2(k) % 2 == 1)
    decreases k
  {
    if k == 0 {
      assert v / 1 == v;
    } else {
      LowBitAt(v / 2, n - 1, k - 1);
      HalfThenDivide(v, Power2(k - 1));
    }
  }

  lemma HalfThenDivide(v: nat, d: nat)
    requires d > 0
    ensures v / 2 / d == v / (2 * d)
  {
    var q, r := v / 2 / d, v / 2 % d;
    assert v == 2 * d * q + (2 * r + v % 2);
    DivideBack(v, 2 * d, q, 2 * r + v % 2);
  }

  lemma DivideBack(v: nat, d: nat, q: nat, r: nat)
    requires r < d && v == d * q + r
    ensures v / d == q
  {
    if v / d > q {
      MulGrows(d, q + 1, v / d);
    } else if v / d < q {
      MulGrows(d, v / d + 1, q);
    }
  }

  lemma MulGrows(d: nat, a: nat, b: nat)
    requires a <= b
    ensures d * a <= d * b
  {
  }

  /** Feeding a message in any two pieces gives the one-shot state. */
  lemma SplitUpdates(crc: bv32, a: seq<byte>, b: seq<byte>)
    ensures Feed(crc, MessageBits(a + b)) == Feed(Feed(crc, MessageBits(a)), MessageBits(b))
  {
    MessageBitsConcat(a, b);
    FeedConcat(crc, MessageBits(a), MessageBits(b));
  }

  // ---- The register, read as a polynomial ----

  function Shr(w: bv32, i: nat): bv32
  {
    if i == 0 then w else Shr(w >> 1, i - 1)
  }

  predicate BitAt(w: bv32, i: nat)
    decreases i
  {
    if i == 0 then w & 1 == 1 else BitAt(w >> 1, i - 1)
  }

  /** The register as coefficients, highest power first: a reflected register keeps x^31 in its lowest bit. */
  function Reflect(w: bv32): (r: Bits)
    ensures |r| == 32
    ensures forall i: nat {:trigger r[i]} | i < 32 :: r[i] == BitAt(w, i)
  {
    seq(32, i requires 0 <= i => BitAt(w, i))
  }

  /** The terms below x^32 of the generator of section 3.2.9 of IEEE 802.3. */
  predicate HasTerm(power: nat)
  {
    || power == 26 || power == 23 || power == 22 || power == 16 || power == 12 || power == 11 || power == 10
    || power == 8 || power == 7 || power == 5 || power == 4 || power == 2 || power == 1 || power == 0
  }

  function IeeeGenerator(): (g: Generator)
  {
    seq(32, i requires 0 <= i < 32 => HasTerm(31 - i))
  }

  lemma Unfold(w: bv32, i: nat)
    requires i > 0
    ensures BitAt(w, i) == BitAt(w >> 1, i - 1) && Shr(w, i) == Shr(w >> 1, i - 1)
  {
  }

  lemma LowOfXor(a: bv32, b: bv32)
    ensures (a ^ b) & 1 == 1 <==> ((a & 1 == 1) != (b & 1 == 1))
  {
  }

  lemma ShiftOfXor(a: bv32, b: bv32)
    ensures (a ^ b) >> 1 == (a >> 1) ^ (b >> 1)
  {
  }

  lemma {:induction false} BitAfterXor(a: bv32, b: bv32, c: bv32, i: nat)
    requires c == a ^ b
    ensures BitAt(c, i) == (BitAt(a, i) != BitAt(b, i))
    decreases i
  {
    if i == 0 {
      LowOfXor(a, b);
    } else {
      ghost var a', b', c' := a >> 1, b >> 1, c >> 1;
      Unfold(a, i);
      Unfold(b, i);
      Unfold(c, i);
      ShiftOfXor(a, b);
      BitAfterXor(a', b', c', i - 1);
    }
  }

  lemma ComplementIsXor(w: bv32)
    ensures !w == w ^ 0xFFFF_FFFF
  {
  }

  lemma BitAfterComplement(w: bv32, i: nat)
    requires i < 32
    ensures BitAt(!w, i) == !BitAt(w, i)
  {
    ghost var ones: bv32, c := 0xFFFF_FFFF, !w;
    ComplementIsXor(w);
    BitAfterXor(w, ones, c, i);
    OnesBit(i);
  }

  lemma {:induction false} BitOfShr(w: bv32, i: nat, j: nat)
    ensures BitAt(w, i + j) == BitAt(Shr(w, i), j) && Shr(w, i + j) == Shr(Shr(w, i), j)
    decreases i
  {
    if i > 0 {
      Unfold(w, i + j);
      Unfold(w, i);
      BitOfShr(w >> 1, i - 1, j);
    }
  }

  lemma OnesBit(i: nat)
    requires i < 32
    ensures BitAt(0xFFFF_FFFF, i)
  {
    if i < 16 {
      assert BitAt(0xFFFF_FFFF, 0); assert BitAt(0xFFFF_FFFF, 1);
      assert BitAt(0xFFFF_FFFF, 2); assert BitAt(0xFFFF_FFFF, 3);
      assert BitAt(0xFFFF_FFFF, 4); assert BitAt(0xFFFF_FFFF, 5);
      assert BitAt(0xFFFF_FFFF, 6); assert BitAt(0xFFFF_FFFF, 7);
      assert BitAt(0xFFFF_FFFF, 8); assert BitAt(0xFFFF_FFFF, 9);
      assert BitAt(0xFFFF_FFFF, 10); assert BitAt(0xFFFF_FFFF, 11);
      assert BitAt(0xFFFF_FFFF, 12); assert BitAt(0xFFFF_FFFF, 13);
      assert BitAt(0xFFFF_FFFF, 14); assert BitAt(0xFFFF_FFFF, 15);
    } else {
      BitOfShr(0xFFFF_FFFF, 16, i - 16);
      ShrSixteen(0xFFFF_FFFF);
      assert BitAt(0xFFFF, 0); assert BitAt(0xFFFF, 1); assert BitAt(0xFFFF, 2); assert BitAt(0xFFFF, 3);
      assert BitAt(0xFFFF, 4); assert BitAt(0xFFFF, 5); assert BitAt(0xFFFF, 6); assert BitAt(0xFFFF, 7);
      assert BitAt(0xFFFF, 8); assert BitAt(0xFFFF, 9); assert BitAt(0xFFFF, 10); assert BitAt(0xFFFF, 11);
      assert BitAt(0xFFFF, 12); assert BitAt(0xFFFF, 13); assert BitAt(0xFFFF, 14); assert BitAt(0xFFFF, 15);
    }
  }

  /** Sixteen one-bit shifts are one shift by sixteen. */
  lemma ShrSixteen(w: bv32)
    ensures Shr(w, 16) == w >> 16
  {
    ShrEight(w);
    ShrEight(w >> 8);
    BitOfShr(w, 8, 8);
    ShiftsAdd(w);
  }

  lemma ShrEight(w: bv32)
    ensures Shr(w, 8) == w >> 8
  {
    ShrFour(w);
    ShrFour(w >> 4);
    BitOfShr(w, 4, 4);
    ShiftsAdd(w);
  }

  lemma ShrFour(w: bv32)
    ensures Shr(w, 4) == w >> 4
  {
    ghost var a, b, c := w >> 1, w >> 2, (w >> 2) >> 1;
    ShiftsAdd(w);
    Unfold(w, 4);
    Unfold(a, 3);
    Unfold(b, 2);
    Unfold(c, 1);
  }

  lemma ShiftsAdd(w: bv32)
    ensures (w >> 1) >> 1 == w >> 2 && ((w >> 2) >> 1) >> 1 == w >> 4
    ensures (w >> 4) >> 4 == w >> 8 && (w >> 8) >> 8 == w >> 16
  {
  }

  lemma ShiftedOut(w: bv32)
    ensures Shr(w, 32) == 0
  {
    BitOfShr(w, 16, 16);
    ShrSixteen(w);
    ShrSixteen(w >> 16);
    TwoShifts(w);
  }

  lemma TwoShifts(w: bv32)
    ensures (w >> 16) >> 16 == 0
  {
  }

  lemma {:induction false} BitIsLowOfShr(w: bv32, i: nat)
    ensures BitAt(w, i) <==> Shr(w, i) & 1 == 1
    decreases i
  {
    if i > 0 {
      BitIsLowOfShr(w >> 1, i - 1);
    }
  }

  lemma NoBitBeyond(w: bv32)
    ensures !BitAt(w, 32)
  {
    BitIsLowOfShr(w, 32);
    ShiftedOut(w);
    ZeroIsEven();
  }

  lemma ZeroIsEven()
    ensures (0 as bv32) & 1 != 1
  {
  }

  lemma {:induction false} NoBits(d: bv32, n: nat)
    requires Shr(d, n) == 0 && forall i: nat | i < n :: !BitAt(d, i)
    ensures d == 0
    decreases n
  {
    if n > 0 {
      ghost var half := d >> 1;
      assert !BitAt(d, 0);
      Unfold(d, n);
      forall i: nat | i < n - 1 ensures !BitAt(half, i) {
        Unfold(d, i + 1);
      }
      NoBits(half, n - 1);
      ZeroHalves(d);
    }
  }

  lemma ZeroHalves(d: bv32)
    requires d >> 1 == 0 && d & 1 != 1
    ensures d == 0
  {
  }

  lemma PolyBit(i: nat)
    requires i < 32
    ensures BitAt(CRC32_IEEE_POLY, i) == HasTerm(31 - i)
  {
    if i < 16 {
      PolyBitLow(i);
    } else {
      BitOfShr(0xEDB8_8320, 16, i - 16);
      ShrSixteen(0xEDB8_8320);
      PolyBitHigh(i - 16);
    }
  }

  lemma PolyBitLow(i: nat)
    requires i < 16
    ensures BitAt(0xEDB8_8320, i) == HasTerm(31 - i)
  {
    assert BitAt(0xEDB8_8320, 0) == HasTerm(31); assert BitAt(0xEDB8_8320, 1) == HasTerm(30);
    assert BitAt(0xEDB8_8320, 2) == HasTerm(29); assert BitAt(0xEDB8_8320, 3) == HasTerm(28);
    assert BitAt(0xEDB8_8320, 4) == HasTerm(27); assert BitAt(0xEDB8_8320, 5) == HasTerm(26);
    assert BitAt(0xEDB8_8320, 6) == HasTerm(25); assert BitAt(0xEDB8_8320, 7) == HasTerm(24);
    assert BitAt(0xEDB8_8320, 8) == HasTerm(23); assert BitAt(0xEDB8_8320, 9) == HasTerm(22);
    assert BitAt(0xEDB8_8320, 10) == HasTerm(21); assert BitAt(0xEDB8_8320, 11) == HasTerm(20);
    assert BitAt(0xEDB8_8320, 12) == HasTerm(19); assert BitAt(0xEDB8_8320, 13) == HasTerm(18);
    assert BitAt(0xEDB8_8320, 14) == HasTerm(17); assert BitAt(0xEDB8_8320, 15) == HasTerm(16);
  }

  lemma PolyBitHigh(i: nat)
    requires i < 16
    ensures BitAt(0xEDB8, i) == HasTerm(15 - i)
  {
    assert BitAt(0xEDB8, 0) == HasTerm(15); assert BitAt(0xEDB8, 1) == HasTerm(14);
    assert BitAt(0xEDB8, 2) == HasTerm(13); assert BitAt(0xEDB8, 3) == HasTerm(12);
    assert BitAt(0xEDB8, 4) == HasTerm(11); assert BitAt(0xEDB8, 5) == HasTerm(10);
    assert BitAt(0xEDB8, 6) == HasTerm(9); assert BitAt(0xEDB8, 7) == HasTerm(8);
    assert BitAt(0xEDB8, 8) == HasTerm(7); assert BitAt(0xEDB8, 9) == HasTerm(6);
    assert BitAt(0xEDB8, 10) == HasTerm(5); assert BitAt(0xEDB8, 11) == HasTerm(4);
    assert BitAt(0xEDB8, 12) == HasTerm(3); assert BitAt(0xEDB8, 13) == HasTerm(2);
    assert BitAt(0xEDB8, 14) == HasTerm(1); assert BitAt(0xEDB8, 15) == HasTerm(0);
  }

  lemma BitAfterTurn(crc: bv32, lsb: bool, i: nat)
    requires i < 32
    ensures BitAt(Turn(crc, lsb), i) == (BitAt(crc, i + 1) != (lsb && HasTerm(31 - i)))
  {
    if lsb {
      PolyBit(i);
      BitAfterXor(crc >> 1, CRC32_IEEE_POLY, Turn(crc, lsb), i);
    }
  }

  /** One turn of the reflected register is one clock of the division register. */
  lemma NextBitIsStep(crc: bv32, bit: bool)
    ensures Reflect(NextBit(crc, bit)) == Step(IeeeGenerator(), Reflect(crc), bit)
  {
    ghost var lsb := (crc & 1 == 1) != bit;
    ghost var step, next := Step(IeeeGenerator(), Reflect(crc), bit), Turn(crc, lsb);
    NoBitBeyond(crc);
    forall i: nat {:trigger step[i]} | i < 32 ensures step[i] == BitAt(next, i) {
      BitAfterTurn(crc, lsb, i);
      assert i < 31 ==> BitAt(crc, i + 1) == Reflect(crc)[i + 1];
    }
  }

  lemma {:induction false} FeedIsRun(crc: bv32, bits: Bits)
    ensures Reflect(Feed(crc, bits)) == Run(IeeeGenerator(), Reflect(crc), bits)
    decreases |bits|
  {
    if bits == [] {
    } else {
      NextBitIsStep(crc, bits[0]);
      FeedIsRun(NextBit(crc, bits[0]), bits[1..]);
    }
  }

  lemma ReflectComplement(w: bv32)
    ensures Reflect(!w) == Not(Reflect(w))
  {
    forall i: nat {:trigger Reflect(!w)[i]} | i < 32 ensures Reflect(!w)[i] == !Reflect(w)[i] {
      BitAfterComplement(w, i);
    }
  }

  lemma ReflectOnes()
    ensures Reflect(0xFFFF_FFFF) == Ones(32)
  {
    forall i: nat | i < 32 ensures BitAt(0xFFFF_FFFF, i) {
      OnesBit(i);
    }
  }

  lemma ReflectInjective(a: bv32, b: bv32)
    requires Reflect(a) == Reflect(b)
    ensures a == b
  {
    ghost var d := a ^ b;
    forall i: nat | i < 32 ensures !BitAt(d, i) {
      BitAfterXor(a, b, d, i);
      assert Reflect(a)[i] == BitAt(a, i) && Reflect(b)[i] == BitAt(b, i);
    }
    ShiftedOut(d);
    NoBits(d, 32);
    XorIsZero(a, b);
  }

  lemma XorIsZero(a: bv32, b: bv32)
    requires a ^ b == 0
    ensures a == b
  {
  }

  // ---- What the CRC detects ----

  lemma InitialRegister(init: bv32, bits: Bits)
    requires init == 0xFFFF_FFFF
    ensures Reflect(Feed(init, bits)) == Run(IeeeGenerator(), Ones(32), bits)
  {
    FeedIsRun(init, bits);
    ReflectOnes();
  }

  /** The transmitted CRC, complemented back and read as a polynomial, is what the division register holds. */
  lemma CrcIsRegister(bytes: seq<byte>)
    ensures Not(Reflect(Crc32Ieee(bytes))) == Run(IeeeGenerator(), Ones(32), MessageBits(bytes))
  {
    InitialRegister(0xFFFF_FFFF, MessageBits(bytes));
    ComplementBack(Feed(0xFFFF_FFFF, MessageBits(bytes)));
  }

  lemma ComplementBack(w: bv32)
    ensures Not(Reflect(!w)) == Reflect(w)
  {
    ReflectComplement(w);
  }

  /** The CRC is the complemented, bit-reversed remainder of section 3.2.9 of IEEE 802.3: the message polynomial times
      x^32, with its first 32 bits complemented, divided by the generator. */
  lemma CrcIsRemainder(bytes: seq<byte>, r: Bits)
    ensures IsRemainder(IeeeGenerator(), Augment(MessageBits(bytes), Ones(32)), r)
       <==> r == Not(Reflect(Crc32Ieee(bytes)))
  {
    var g, m := IeeeGenerator(), MessageBits(bytes);
    CrcIsRegister(bytes);
    RunIsLongDiv(g, Ones(32), m);
    RemainderIsLongDiv(g, Augment(m, Ones(32)), r);
  }

  lemma SameCrcIffSameRegister(a: seq<byte>, b: seq<byte>)
    ensures Crc32Ieee(a) == Crc32Ieee(b)
       <==> Run(IeeeGenerator(), Ones(32), MessageBits(a)) == Run(IeeeGenerator(), Ones(32), MessageBits(b))
  {
    var x, y := Crc32Ieee(a), Crc32Ieee(b);
    CrcIsRegister(a);
    CrcIsRegister(b);
    if Not(Reflect(x)) == Not(Reflect(y)) {
      NotInjective(Reflect(x), Reflect(y));
      ReflectInjective(x, y);
    }
  }

  lemma NotInjective(a: Bits, b: Bits)
    requires Not(a) == Not(b)
    ensures a == b
  {
  }

  /** Two equally long messages share a CRC exactly when their difference is a multiple of the generator. */
  lemma UndetectedIffMultiple(a: seq<byte>, b: seq<byte>)
    requires |a| == |b|
    ensures Crc32Ieee(a) == Crc32Ieee(b) <==> IsMultiple(IeeeGenerator(), Xor(MessageBits(a), MessageBits(b)))
  {
    var g, m, n := IeeeGenerator(), MessageBits(a), MessageBits(b);
    SameCrcIffSameRegister(a, b);
    RunLinear(g, Ones(32), Ones(32), m, n);
    assert Xor(Ones(32), Ones(32)) == Zeros(32);
    SilentIffMultiple(g, Xor(m, n));
    var x, y := Run(g, Ones(32), m), Run(g, Ones(32), n);
    if Xor(x, y) == Zeros(32) {
      forall i | 0 <= i < 32 ensures x[i] == y[i] {
        assert Xor(x, y)[i] == Zeros(32)[i];
      }
    }
    if x == y {
      assert Xor(x, y) == Zeros(32);
    }
  }

  /** Any change confined to at most four consecutive bytes alters the CRC. */
  lemma BurstDetected(pre: seq<byte>, v: seq<byte>, w: seq<byte>, post: seq<byte>)
    requires |v| == |w| <= 4 && v != w
    ensures Crc32Ieee(pre + v + post) != Crc32Ieee(pre + w + post)
  {
    MessageBitsConcat(pre + v, post);
    MessageBitsConcat(pre, v);
    MessageBitsConcat(pre + w, post);
    MessageBitsConcat(pre, w);
    if MessageBits(v) == MessageBits(w) {
      MessageBitsInjective(v, w);
    }
    SameCrcIffSameRegister(pre + v + post, pre + w + post);
    BurstChangesRegister(IeeeGenerator(), Ones(32),
                         MessageBits(pre), MessageBits(v), MessageBits(w), MessageBits(post));
  }

  lemma {:induction false} MessageBitsInjective(v: seq<byte>, w: seq<byte>)
    requires |v| == |w| && MessageBits(v) == MessageBits(w)
    ensures v == w
  {
    if v == [] {
    } else {
      assert MessageBits(v)[..8] == LowBits(v[0], 8) && MessageBits(w)[..8] == LowBits(w[0], 8);
      assert MessageBits(v)[8..] == MessageBits(v[1..]) && MessageBits(w)[8..] == MessageBits(w[1..]);
      LowBitsInjective(v[0], w[0], 8, 0x100);
      MessageBitsInjective(v[1..], w[1..]);
    }
  }

  lemma {:induction false} LowBitsInjective(a: nat, b: nat, n: nat, bound: nat)
    requires a < bound && b < bound && bound == Power2(n)
    requires LowBits(a, n) == LowBits(b, n)
    ensures a == b
  {
    if n > 0 {
      assert LowBits(a, n)[0] == LowBits(b, n)[0];
      assert LowBits(a, n)[1..] == LowBits(b, n)[1..];
      var half := Power2(n - 1);
      assert bound == 2 * half && a / 2 < half && b / 2 < half;
      LowBitsInjective(a / 2, b / 2, n - 1, half);
    }
  }

  function Power2(n: nat): (r: nat)
    ensures r > 0
  {
    if n == 0 then 1 else 2 * Power2(n - 1)
  }
}
