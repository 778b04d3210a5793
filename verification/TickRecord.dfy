/** Tick records, the CRC that covers their live samples, and what tampering it catches. */
module Ticks {
  import opened Bytes
  import opened Gf2
  import opened Crc

  const MAX_CHANNELS := 64

  /** Origin code of a sample that came from a publisher frame. */
  const ORIGIN_LIVE: byte := 1

  const FLAG_COMPLETE: bv16 := 0x0001

  datatype Sample = Sample(valueQ: i32, quality: byte, origin: byte, reserved: u16)

  const EMPTY_SAMPLE := Sample(0, 0, 0, 0)

  type Slots = s: seq<Sample> | |s| == MAX_CHANNELS witness seq(MAX_CHANNELS, _ => EMPTY_SAMPLE)

  /** The value of one tick record, as buffers hold it and clones carry it. */
  datatype Tick = Tick(tickId: nat, tsUtcNs: nat, nChannels: u16, flags: bv16, crc: bv32, samples: Slots)

  datatype IntegrityViolation = IntegrityViolation(tickId: nat, stored: bv32, computed: bv32)

  datatype Verdict = Intact | Violated(violation: IntegrityViolation)

  function LiveCount(nChannels: u16): (n: nat)
    ensures n <= MAX_CHANNELS
  {
    if nChannels <= MAX_CHANNELS then nChannels else MAX_CHANNELS
  }

  function LiveSamples(t: Tick): seq<Sample>
  {
    t.samples[..LiveCount(t.nChannels)]
  }

  function SampleBytes(s: Sample): (r: seq<byte>)
    ensures |r| == 8
  {
    Le32(AsU32(s.valueQ)) + [s.quality, s.origin] + Le16(s.reserved)
  }

  function Payload(samples: seq<Sample>): (r: seq<byte>)
    ensures |r| == 8 * |samples|
  {
    if samples == [] then [] else SampleBytes(samples[0]) + Payload(samples[1..])
  }

  function CrcOf(samples: seq<Sample>): bv32
  {
    Crc32Ieee(Payload(samples))
  }

  function Stamped(t: Tick): (r: Tick)
    ensures VerifyCrc(r) == Intact
  {
    t.(crc := CrcOf(LiveSamples(t)))
  }

  function VerifyCrc(t: Tick): Verdict
  {
    var computed := CrcOf(LiveSamples(t));
    if computed == t.crc then Intact else Violated(IntegrityViolation(t.tickId, t.crc, computed))
  }

  /** A record under construction. */
  class TickRecord {
    var tickId: nat
    var tsUtcNs: nat
    var nChannels: u16
    var flags: bv16
    var crc: bv32
    const samples: array<Sample>

    ghost predicate Valid()
      reads this
    {
      samples.Length == MAX_CHANNELS
    }

    /** A snapshot of the record, as a clone would hold it. */
    function View(): (t: Tick)
      requires Valid()
      reads this, samples
    {
      Tick(tickId, tsUtcNs, nChannels, flags, crc, samples[..])
    }

    constructor Empty(tickId: nat, tsUtcNs: nat)
      ensures Valid() && fresh(samples)
      ensures View() == Tick(tickId, tsUtcNs, 0, 0, 0, seq(MAX_CHANNELS, _ => EMPTY_SAMPLE))
    {
      this.tickId := tickId;
      this.tsUtcNs := tsUtcNs;
      nChannels, flags, crc := 0, 0, 0;
      samples := new Sample[MAX_CHANNELS](_ => EMPTY_SAMPLE);
      new;
      assert samples[..] == seq(MAX_CHANNELS, _ => EMPTY_SAMPLE);
    }

    method SetFlag(flag: bv16)
      requires Valid()
      modifies this`flags
      ensures View() == old(View()).(flags := old(flags) | flag)
    {
      flags := flags | flag;
    }

    method ComputeCrc() returns (result: bv32)
      requires Valid()
      ensures result == CrcOf(LiveSamples(View()))
    {
      hide SampleBytes, Payload, MessageBits, Feed;
      var c := new Crc32();
      var n := if nChannels <= MAX_CHANNELS then nChannels else MAX_CHANNELS;
      ghost var live := LiveSamples(View());
      var i := 0;
      while i < n
        invariant 0 <= i <= n
        invariant Feed(c.state, MessageBits(Payload(live[i..]))) == Feed(0xFFFF_FFFF, MessageBits(Payload(live)))
        invariant live == LiveSamples(View())
      {
        assert live[i] == samples[i];
        NextSample(c.state, live, i);
        UpdateSample(c, samples[i]);
        i := i + 1;
      }
      assert live[i..] == [];
      NoSamples(c.state);
      result := c.Finalize();
    }

    method StampCrc()
      requires Valid()
      modifies this`crc
      ensures View() == Stamped(old(View()))
    {
      crc := ComputeCrc();
    }

    method Verify() returns (verdict: Verdict)
      requires Valid()
      ensures verdict == VerifyCrc(View())
    {
      var computed := ComputeCrc();
      if computed == crc {
        verdict := Intact;
      } else {
        verdict := Violated(IntegrityViolation(tickId, crc, computed));
      }
    }
  }

  /** The body of the loop of `ComputeCrc`: a sample is fed field by field. */
  method UpdateSample(c: Crc32, s: Sample)
    modifies c
    ensures c.state == Feed(old(c.state), MessageBits(SampleBytes(s)))
  {
    SampleInThree(c.state, s);
    c.Update(Le32(AsU32(s.valueQ)));
    c.Update([s.quality, s.origin]);
    c.Update(Le16(s.reserved));
  }

  /** Feeding what is left of the payload is feeding the next sample, then the rest. */
  lemma NextSample(crc: bv32, live: seq<Sample>, i: nat)
    requires i < |live|
    ensures Feed(crc, MessageBits(Payload(live[i..])))
         == Feed(Feed(crc, MessageBits(SampleBytes(live[i]))), MessageBits(Payload(live[i + 1..])))
  {
    hide SampleBytes, MessageBits, Feed;
    assert live[i..][1..] == live[i + 1..];
    SplitUpdates(crc, SampleBytes(live[i]), Payload(live[i + 1..]));
  }

  lemma NoSamples(crc: bv32)
    ensures Feed(crc, MessageBits(Payload([]))) == crc
  {
  }

  lemma SampleInThree(crc: bv32, s: Sample)
    ensures Feed(crc, MessageBits(SampleBytes(s)))
         == Feed(Feed(Feed(crc, MessageBits(Le32(AsU32(s.valueQ)))), MessageBits([s.quality, s.origin])),
                 MessageBits(Le16(s.reserved)))
  {
    var a, b, c := Le32(AsU32(s.valueQ)), [s.quality, s.origin], Le16(s.reserved);
    SplitUpdates(crc, a + b, c);
    SplitUpdates(crc, a, b);
  }

  // ---- What tampering is caught ----

  lemma {:induction false} PayloadConcat(a: seq<Sample>, b: seq<Sample>)
    ensures Payload(a + b) == Payload(a) + Payload(b)
  {
    if a == [] {
      assert a + b == b;
    } else {
      assert (a + b)[1..] == a[1..] + b;
      PayloadConcat(a[1..], b);
    }
  }

  lemma PayloadAround(samples: seq<Sample>, i: nat, s: Sample)
    requires i < |samples|
    ensures Payload(samples[i := s]) == Payload(samples[..i]) + SampleBytes(s) + Payload(samples[i + 1..])
  {
    assert samples[i := s] == samples[..i] + ([s] + samples[i + 1..]);
    PayloadConcat(samples[..i], [s] + samples[i + 1..]);
    assert Payload([s] + samples[i + 1..]) == SampleBytes(s) + Payload(samples[i + 1..]);
  }

  /** Any change to a stamped record's live payload that stays within four consecutive bytes is reported, with the
      record's own id, its stored CRC and a different recomputed one. */
  lemma TamperDetected(t: Tick, u: Tick, pre: seq<byte>, v: seq<byte>, w: seq<byte>, post: seq<byte>)
    requires VerifyCrc(t) == Intact && u.crc == t.crc
    requires Payload(LiveSamples(t)) == pre + v + post && Payload(LiveSamples(u)) == pre + w + post
    requires |v| == |w| <= 4 && v != w
    ensures VerifyCrc(u).Violated?
    ensures VerifyCrc(u).violation.tickId == u.tickId && VerifyCrc(u).violation.stored == t.crc
    ensures VerifyCrc(u).violation.computed == CrcOf(LiveSamples(u)) != t.crc
  {
    BurstDetected(pre, v, w, post);
  }

  function Tail(s: Sample): (r: seq<byte>)
    ensures |r| == 4
  {
    [s.quality, s.origin] + Le16(s.reserved)
  }

  /** A sample's bytes determine its fields. */
  lemma SampleBytesInjective(a: Sample, b: Sample)
    ensures Le32(AsU32(a.valueQ)) == Le32(AsU32(b.valueQ)) ==> a.valueQ == b.valueQ
    ensures Tail(a) == Tail(b) ==> a.quality == b.quality && a.origin == b.origin && a.reserved == b.reserved
  {
    Le32RoundTrip(AsU32(a.valueQ));
    Le32RoundTrip(AsU32(b.valueQ));
    var p, q := Tail(a), Tail(b);
    assert p[0] == a.quality && p[1] == a.origin && p[2..] == Le16(a.reserved);
    assert q[0] == b.quality && q[1] == b.origin && q[2..] == Le16(b.reserved);
    Le16RoundTrip(a.reserved);
    Le16RoundTrip(b.reserved);
  }

  /** A sample's eight bytes in the payload: value, quality, origin, reserved, numbers least significant byte first. */
  lemma {:induction false} PayloadLayout(samples: seq<Sample>, i: nat)
    requires i < |samples|
    ensures var at, p, s := 8 * i, Payload(samples), samples[i];
            && LittleEndian(p[at..at + 4]) == AsU32(s.valueQ) && p[at + 4] == s.quality && p[at + 5] == s.origin
            && LittleEndian(p[at + 6..at + 8]) == s.reserved
  {
    var p, s := Payload(samples), samples[i];
    PayloadAround(samples, i, s);
    assert samples[i := s] == samples;
    LittleEndianWords(s.reserved, AsU32(s.valueQ));
    var value, reserved := Le32(AsU32(s.valueQ)), Le16(s.reserved);
    hide Payload, Le32, Le16, AsU32, LittleEndian;
    var before, after := Payload(samples[..i]), Payload(samples[i + 1..]);
    assert p == before + (value + [s.quality, s.origin] + reserved) + after;
    Pieces(before, value, s.quality, s.origin, reserved, after);
  }

  lemma Pieces(before: seq<byte>, value: seq<byte>, x: byte, y: byte, reserved: seq<byte>, after: seq<byte>)
    requires |value| == 4 && |reserved| == 2
    ensures var p, at := before + (value + [x, y] + reserved) + after, |before|;
            p[at..at + 4] == value && p[at + 4] == x && p[at + 5] == y && p[at + 6..at + 8] == reserved
  {
  }

  lemma PayloadSplit(t: Tick, i: nat, s: Sample) returns (pre: seq<byte>, post: seq<byte>)
    requires i < t.nChannels && i < MAX_CHANNELS
    ensures Payload(LiveSamples(t.(samples := t.samples[i := s]))) == pre + (Le32(AsU32(s.valueQ)) + Tail(s)) + post
    ensures Payload(LiveSamples(t)) == pre + (Le32(AsU32(t.samples[i].valueQ)) + Tail(t.samples[i])) + post
  {
    var live := LiveSamples(t);
    assert LiveSamples(t.(samples := t.samples[i := s])) == live[i := s];
    assert live == live[i := live[i]];
    PayloadAround(live, i, s);
    PayloadAround(live, i, live[i]);
    pre, post := Payload(live[..i]), Payload(live[i + 1..]);
    assert SampleBytes(s) == Le32(AsU32(s.valueQ)) + Tail(s);
    assert SampleBytes(live[i]) == Le32(AsU32(live[i].valueQ)) + Tail(live[i]);
  }

  /** A slot at or past the channel count is not covered. */
  lemma BeyondLiveIsNotCovered(t: Tick, i: nat, s: Sample)
    requires t.nChannels <= i < MAX_CHANNELS
    ensures VerifyCrc(t.(samples := t.samples[i := s])) == VerifyCrc(t)
  {
    assert LiveSamples(t.(samples := t.samples[i := s])) == LiveSamples(t);
    hide LiveSamples;
  }

  /** Overwriting one sample's value is reported exactly when its channel is live. */
  lemma ValueTamperDetected(t: Tick, i: nat, valueQ: i32)
    requires VerifyCrc(t) == Intact && i < MAX_CHANNELS && valueQ != t.samples[i].valueQ
    ensures VerifyCrc(t.(samples := t.samples[i := t.samples[i].(valueQ := valueQ)])).Violated? <==> i < t.nChannels
  {
    if i < t.nChannels {
      LiveValueTamper(t, i, valueQ);
    } else {
      BeyondLiveIsNotCovered(t, i, t.samples[i].(valueQ := valueQ));
    }
    hide VerifyCrc;
  }

  lemma LiveValueTamper(t: Tick, i: nat, valueQ: i32)
    requires VerifyCrc(t) == Intact && i < MAX_CHANNELS && i < t.nChannels && valueQ != t.samples[i].valueQ
    ensures VerifyCrc(t.(samples := t.samples[i := t.samples[i].(valueQ := valueQ)])).Violated?
  {
    var s := t.samples[i].(valueQ := valueQ);
    var pre, post := PayloadSplit(t, i, s);
    SampleBytesInjective(t.samples[i], s);
    hide Le32, AsU32, Tail, VerifyCrc, LiveSamples, Payload;
    var v, w, tail := Le32(AsU32(t.samples[i].valueQ)), Le32(AsU32(valueQ)), Tail(s);
    SameTail(t.samples[i], s);
    Regroup(pre, v, tail, post);
    Regroup(pre, w, tail, post);
    TamperDetected(t, t.(samples := t.samples[i := s]), pre, v, w, tail + post);
  }

  lemma SameTail(a: Sample, b: Sample)
    requires a.quality == b.quality && a.origin == b.origin && a.reserved == b.reserved
    ensures Tail(a) == Tail(b)
  {
  }

  lemma Regroup(pre: seq<byte>, v: seq<byte>, w: seq<byte>, post: seq<byte>)
    ensures pre + (v + w) + post == pre + v + (w + post) && pre + (v + w) + post == (pre + v) + w + post
  {
  }

  /** Overwriting any of a sample's quality, origin and reserved fields is reported exactly when its channel is live. */
  lemma TailTamperDetected(t: Tick, i: nat, s: Sample)
    requires VerifyCrc(t) == Intact && i < MAX_CHANNELS
    requires s != t.samples[i] && s.valueQ == t.samples[i].valueQ
    ensures VerifyCrc(t.(samples := t.samples[i := s])).Violated? <==> i < t.nChannels
  {
    if i < t.nChannels {
      LiveTailTamper(t, i, s);
    } else {
      BeyondLiveIsNotCovered(t, i, s);
    }
    hide VerifyCrc;
  }

  lemma LiveTailTamper(t: Tick, i: nat, s: Sample)
    requires VerifyCrc(t) == Intact && i < MAX_CHANNELS && i < t.nChannels
    requires s != t.samples[i] && s.valueQ == t.samples[i].valueQ
    ensures VerifyCrc(t.(samples := t.samples[i := s])).Violated?
  {
    var pre, post := PayloadSplit(t, i, s);
    SampleBytesInjective(t.samples[i], s);
    hide Le32, AsU32, Tail, VerifyCrc, LiveSamples, Payload;
    var head, v, w := Le32(AsU32(s.valueQ)), Tail(t.samples[i]), Tail(s);
    Regroup(pre, head, v, post);
    Regroup(pre, head, w, post);
    TamperDetected(t, t.(samples := t.samples[i := s]), pre + head, v, w, post);
  }

  /** Exactly which overwrites pass: those whose payload difference is a multiple of the CRC generator. */
  lemma TamperPassesIffMultiple(t: Tick, u: Tick)
    requires VerifyCrc(t) == Intact && u.crc == t.crc && LiveCount(u.nChannels) == LiveCount(t.nChannels)
    ensures VerifyCrc(u) == Intact
       <==> IsMultiple(IeeeGenerator(),
                       Xor(MessageBits(Payload(LiveSamples(t))), MessageBits(Payload(LiveSamples(u)))))
  {
    UndetectedIffMultiple(Payload(LiveSamples(t)), Payload(LiveSamples(u)));
  }

  // ---- A whole sample can change unnoticed ----

  function BitsValue(bits: Bits): nat
  {
    if bits == [] then 0 else (if bits[0] then 1 else 0) + 2 * BitsValue(bits[1..])
  }

  lemma {:induction false} BitsValueBack(bits: Bits)
    ensures LowBits(BitsValue(bits), |bits|) == bits && BitsValue(bits) < Power2(|bits|)
  {
    if bits == [] {
    } else {
      BitsValueBack(bits[1..]);
      assert bits == [bits[0]] + bits[1..];
    }
  }

  function ByteOf(bits: Bits): (b: byte)
    requires |bits| == 8
  {
    BitsValueBack(bits);
    assert Power2(8) == 0x100;
    BitsValue(bits)
  }

  function BytesOf(bits: Bits, n: nat): (r: seq<byte>)
    requires |bits| == 8 * n
    ensures |r| == n
  {
    if n == 0 then [] else [ByteOf(bits[..8])] + BytesOf(bits[8..], n - 1)
  }

  lemma {:induction false} BytesOfBack(bits: Bits, n: nat)
    requires |bits| == 8 * n
    ensures MessageBits(BytesOf(bits, n)) == bits
  {
    if n > 0 {
      BitsValueBack(bits[..8]);
      BytesOfBack(bits[8..], n - 1);
      assert bits == bits[..8] + bits[8..];
    }
  }

  function SampleOf(bytes: seq<byte>): (s: Sample)
    requires |bytes| == 8
  {
    Sample(AsI32(FromLe32(bytes[..4])), bytes[4], bytes[5], FromLe16(bytes[6..]))
  }

  lemma SampleOfBack(bytes: seq<byte>)
    requires |bytes| == 8
    ensures SampleBytes(SampleOf(bytes)) == bytes
  {
    FromLe32Back(bytes[..4]);
    hide Le32, FromLe32, AsU32, AsI32, Le16, FromLe16;
    assert bytes == bytes[..4] + [bytes[4], bytes[5]] + bytes[6..];
  }

  /** The same sample with the 33 coefficients of the generator added into its first 33 bits. */
  function Disguised(s: Sample): Sample
  {
    SampleOf(BytesOf(Xor(MessageBits(SampleBytes(s)), Row(IeeeGenerator(), true, 31)), 8))
  }

  /** Every live sample of every stamped record can be replaced by a different one that still verifies: the check
      stops at changes wider than four bytes. */
  lemma SomeTamperPasses(t: Tick, i: nat)
    requires VerifyCrc(t) == Intact && i < t.nChannels && i < MAX_CHANNELS
    ensures Disguised(t.samples[i]) != t.samples[i]
    ensures VerifyCrc(t.(samples := t.samples[i := Disguised(t.samples[i])])) == Intact
  {
    var live, s := LiveSamples(t), t.samples[i];
    var d := Disguised(s);
    var row := Row(IeeeGenerator(), true, 31);
    var sBits := MessageBits(SampleBytes(s));
    BytesOfBack(Xor(sBits, row), 8);
    SampleOfBack(BytesOf(Xor(sBits, row), 8));
    var dBits := MessageBits(SampleBytes(d));
    assert dBits == Xor(sBits, row);
    assert row[0];
    assert dBits[0] != sBits[0];
    var u := t.(samples := t.samples[i := d]);
    assert LiveSamples(u) == live[i := d];
    assert live == live[i := s];
    PayloadAround(live, i, s);
    PayloadAround(live, i, d);
    var before, after := Payload(live[..i]), Payload(live[i + 1..]);
    DisguiseDifference(before, SampleBytes(s), SampleBytes(d), after);
    TamperPassesIffMultiple(t, u);
  }

  lemma DisguiseDifference(before: seq<byte>, v: seq<byte>, w: seq<byte>, after: seq<byte>)
    requires |v| == |w| == 8
    requires MessageBits(w) == Xor(MessageBits(v), Row(IeeeGenerator(), true, 31))
    ensures IsMultiple(IeeeGenerator(), Xor(MessageBits(before + v + after), MessageBits(before + w + after)))
  {
    var g, b, a := IeeeGenerator(), 8 * |before|, 8 * |after|;
    var p, q, x, y := MessageBits(before), MessageBits(after), MessageBits(v), MessageBits(w);
    MessageBitsConcat(before + v, after);
    MessageBitsConcat(before, v);
    MessageBitsConcat(before + w, after);
    MessageBitsConcat(before, w);
    XorConcat(p + x, q, p + y, q);
    XorConcat(p, x, p, y);
    XorTwice(x, Row(g, true, 31));
    XorSelf(p);
    XorSelf(q);
    RowConcat(g, 31, a);
    assert Zeros(b) + Row(g, true, 31) + Zeros(a) == Zeros(b) + Row(g, true, 31 + a);
    ShiftedGeneratorIsMultiple(g, b, 31 + a);
  }

  lemma XorSelf(p: Bits)
    ensures Xor(p, p) == Zeros(|p|)
  {
  }

  lemma XorTwice(x: Bits, r: Bits)
    requires |x| == |r|
    ensures Xor(x, Xor(x, r)) == r
  {
  }

  lemma RowConcat(g: Generator, n: nat, a: nat)
    ensures Row(g, true, n) + Zeros(a) == Row(g, true, n + a)
  {
  }
}
