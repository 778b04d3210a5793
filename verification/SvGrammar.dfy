/** Exactly which buffers the decoder accepts and what it makes of them, and which error it gives for the others. */
module SvGrammar {
  import opened Bytes
  import opened Options
  import opened SvFrame
  import opened SvDecoder

  // ---- Elements ----

  /** Length octets: the short form, or the long form with one or two octets. */
  predicate IsLength(o: seq<byte>, n: nat)
  {
    || (|o| == 1 && o[0] < 0x80 && n == o[0])
    || (|o| == 2 && o[0] == 0x81 && n == o[1])
    || (|o| == 3 && o[0] == 0x82 && n == BigEndian(o[1..]))
  }

  /** A tag and length octets of any value. */
  predicate IsOpening(o: seq<byte>, tag: byte)
  {
    |o| > 1 && o[0] == tag
    && ((|o| == 2 && o[1] < 0x80) || (|o| == 3 && o[1] == 0x81) || (|o| == 4 && o[1] == 0x82))
  }

  /** A tag, the length of the value in any form, the value. */
  predicate IsTlv(o: seq<byte>, tag: byte, value: seq<byte>)
  {
    var n := |o| - |value|;
    n > 0 && o[0] == tag && IsLength(o[1..n], |value|) && o[n..] == value
  }

  /** The ten elements behind the four words of the 9-2 header: savPdu, noASDU, the list, its ASDU, then svID, smpCnt,
      confRev, smpSynch, smpRate and sample. */
  const ELEMENTS := 10

  function TagOf(k: nat): byte
    requires k < ELEMENTS
  {
    [0x60, 0x80, 0xA2, 0x30, 0x80, 0x82, 0x83, 0x85, 0x86, 0x87][k]
  }

  /** The size an element's value must have, if it must have one. */
  function SizeOf(k: nat): Option<nat>
  {
    if k == 5 then Some(2) else if k == 6 then Some(4) else if k == 7 then Some(1) else if k == 9 then Some(64)
    else None
  }

  predicate Opens(k: nat)
  {
    k == 0 || k == 2 || k == 3
  }

  predicate IsElement(o: seq<byte>, k: nat, value: seq<byte>)
    requires k < ELEMENTS
  {
    if Opens(k) then IsOpening(o, TagOf(k)) && value == []
    else IsTlv(o, TagOf(k), value) && (SizeOf(k).Some? ==> |value| == SizeOf(k).value)
  }

  /** From `p` to `q` lie the elements from number `k` on, one after the other. */
  ghost predicate Elements(w: seq<byte>, p: nat, k: nat, values: seq<seq<byte>>, q: nat)
    requires k <= ELEMENTS
    decreases ELEMENTS - k
  {
    if k == ELEMENTS then values == [] && p == q
    else values != [] && exists r :: 0 <= p < r <= |w| && IsElement(w[p..r], k, values[0])
                                    && Elements(w, r, k + 1, values[1..], q)
  }

  predicate AreChannels(octets: seq<byte>, channels: Channels)
  {
    |octets| == 64 && forall i :: 0 <= i < NUM_CHANNELS ==>
      && BigEndian(octets[8 * i..8 * i + 4]) == AsU32(channels[i].value)
      && BigEndian(octets[8 * i + 4..8 * i + 8]) == channels[i].quality
  }

  /** The frame that the two words at `start` and the elements' values stand for. */
  predicate Means(w: seq<byte>, start: nat, values: seq<seq<byte>>, f: DecodedFrame)
    requires |values| == ELEMENTS && start + 8 <= |w|
  {
    && f.appid == BigEndian(w[start..start + 2]) && f.length == BigEndian(w[start + 2..start + 4])
    && f.noAsdu == BigEndian(values[1]) % 0x1_0000
    && f.asdu.svId == values[4] && f.asdu.smpCnt == BigEndian(values[5]) && f.asdu.confRev == BigEndian(values[6])
    && [f.asdu.smpSynch] == values[7] && f.asdu.smpRate == BigEndian(values[8]) % 0x1_0000
    && AreChannels(values[9], f.asdu.samples)
  }

  // ---- Reading one element ----

  lemma WordAt(w: seq<byte>, p: nat)
    requires p + 2 <= |w|
    ensures U16At(w, p).Got? && U16At(w, p).value == BigEndian(w[p..p + 2]) && U16At(w, p).pos == p + 2
  {
    BigEndianTwo(w[p], w[p + 1]);
    assert w[p..p + 2] == [w[p], w[p + 1]];
  }

  lemma LengthReads(w: seq<byte>, p: nat, n: nat, q: nat)
    ensures LengthAt(w, p) == Got(n, q) <==> p <= q <= |w| && IsLength(w[p..q], n)
  {
    if p + 3 <= |w| {
      WordAt(w, p + 1);
      assert w[p..p + 3][1..] == w[p + 1..p + 3];
    }
    hide FromBe16, BigEndian;
  }

  lemma TlvReads(w: seq<byte>, p: nat, tag: byte, value: seq<byte>, q: nat)
    ensures TlvAt(w, p, tag) == Got(value, q) <==> p < q <= |w| && IsTlv(w[p..q], tag, value)
  {
    hide LengthAt, IsLength;
    var n := q - |value|;
    if p < n <= q <= |w| {
      assert w[p..q][0] == w[p];
      SliceOfSlice(w, p, q, 1, n - p);
      SliceOfSlice(w, p, q, n - p, q - p);
      assert w[p..q][n - p..] == w[p..q][n - p..q - p];
      assert |w[p..q]| - |value| == n - p;
    }
    if p < q <= |w| && IsTlv(w[p..q], tag, value) {
      LengthReads(w, p + 1, |value|, n);
    }
    if TlvAt(w, p, tag) == Got(value, q) {
      var l := LengthAt(w, p + 1);
      LengthReads(w, p + 1, l.value, l.pos);
      assert l.pos == n && l.value == |value| && p < n <= q;
    }
  }

  lemma OpeningReads(w: seq<byte>, p: nat, tag: byte, q: nat)
    ensures HeaderAt(w, p, tag).Got? && HeaderAt(w, p, tag).pos == q <==> p < q <= |w| && IsOpening(w[p..q], tag)
  {
    hide FromBe16;
  }

  lemma SizedReads(w: seq<byte>, p: nat, tag: byte, size: nat, value: seq<byte>, q: nat)
    ensures SizedTlvAt(w, p, tag, size) == Got(value, q)
       <==> p < q <= |w| && IsTlv(w[p..q], tag, value) && |value| == size
  {
    hide TlvAt, IsTlv;
    TlvReads(w, p, tag, value, q);
  }

  lemma IntegerOf(bytes: seq<byte>)
    ensures DecodedInt(bytes) % 0x1_0000 == BigEndian(bytes) % 0x1_0000
  {
    Modulo(BigEndian(bytes));
  }

  lemma Modulo(v: nat)
    ensures v % 0x1_0000_0000 % 0x1_0000 == v % 0x1_0000
  {
    var q, r := v / 0x1_0000_0000, v % 0x1_0000_0000;
    assert v == (q * 0x1_0000 + r / 0x1_0000) * 0x1_0000 + r % 0x1_0000;
  }

  lemma FromWords(x: seq<byte>, y: seq<byte>)
    requires |x| == 2 && |y| == 4
    ensures FromBe16(x) == BigEndian(x) && FromBe32(y) == BigEndian(y)
  {
    BigEndianWords(FromBe16(x), FromBe32(y));
  }

  lemma {:induction false} UnpackedAt(bytes: seq<byte>, n: nat, i: nat)
    requires |bytes| == 8 * n && i < n
    ensures var c := UnpackOf(bytes, n)[i];
            && BigEndian(bytes[8 * i..8 * i + 4]) == AsU32(c.value)
            && BigEndian(bytes[8 * i + 4..8 * i + 8]) == c.quality
    decreases i
  {
    hide BigEndian, FromBe32, FromBe16, Be32, AsU32, AsI32;
    if i == 0 {
      FromWords([0, 0], bytes[..4]);
      FromWords([0, 0], bytes[4..8]);
      assert bytes[0..0 + 4] == bytes[..4];
    } else {
      UnpackedAt(bytes[8..], n - 1, i - 1);
      var rest, at := bytes[8..], 8 * (i - 1);
      assert rest == bytes[8..|bytes|];
      SliceOfSlice(bytes, 8, |bytes|, at, at + 4);
      SliceOfSlice(bytes, 8, |bytes|, at + 4, at + 8);
    }
  }

  /** The channels are those that the octets unpack to, and no others. */
  lemma ChannelsUnpacked(octets: seq<byte>, channels: Channels)
    requires |octets| == 64
    ensures AreChannels(octets, channels) <==> channels == UnpackOf(octets, NUM_CHANNELS)
  {
    hide UnpackOf, BigEndian, AsU32;
    var u := UnpackOf(octets, NUM_CHANNELS);
    forall i | 0 <= i < NUM_CHANNELS
      ensures BigEndian(octets[8 * i..8 * i + 4]) == AsU32(u[i].value)
      ensures BigEndian(octets[8 * i + 4..8 * i + 8]) == u[i].quality
    {
      UnpackedAt(octets, NUM_CHANNELS, i);
    }
    if AreChannels(octets, channels) {
      forall i | 0 <= i < NUM_CHANNELS ensures channels[i] == u[i] {
        SignedInjective(channels[i].value, u[i].value);
      }
    }
  }

  lemma SignedInjective(a: i32, b: i32)
    requires AsU32(a) == AsU32(b)
    ensures a == b
  {
  }

  /** Reading element `k`, whatever its kind. */
  function ElementAt(w: seq<byte>, p: nat, k: nat): Parsed<seq<byte>>
    requires k < ELEMENTS
  {
    if Opens(k) then match HeaderAt(w, p, TagOf(k)) case Got(_, q) => Got([], q) case Stop(e) => Stop(e)
    else if SizeOf(k).Some? then SizedTlvAt(w, p, TagOf(k), SizeOf(k).value)
    else TlvAt(w, p, TagOf(k))
  }

  lemma ElementReads(w: seq<byte>, p: nat, k: nat, value: seq<byte>, q: nat)
    requires k < ELEMENTS
    ensures ElementAt(w, p, k) == Got(value, q) <==> p < q <= |w| && IsElement(w[p..q], k, value)
  {
    hide HeaderAt, SizedTlvAt, TlvAt, IsTlv, IsOpening, TagOf;
    OpeningReads(w, p, TagOf(k), q);
    TlvReads(w, p, TagOf(k), value, q);
    if SizeOf(k).Some? {
      SizedReads(w, p, TagOf(k), SizeOf(k).value, value, q);
    }
  }

  // ---- Reading all of them ----

  function Prepend(values: seq<seq<byte>>, r: Parsed<seq<seq<byte>>>): Parsed<seq<seq<byte>>>
  {
    match r
    case Stop(e) => Stop(e)
    case Got(more, q) => Got(values + more, q)
  }

  /** The elements from number `k` on, read one after the other. */
  function AllFrom(w: seq<byte>, p: nat, k: nat): Parsed<seq<seq<byte>>>
    requires k <= ELEMENTS
    decreases ELEMENTS - k
  {
    if k == ELEMENTS then Got([], p)
    else match ElementAt(w, p, k)
         case Stop(e) => Stop(e)
         case Got(v, q) => Prepend([v], AllFrom(w, q, k + 1))
  }

  lemma {:induction false} AllFromReads(w: seq<byte>, p: nat, k: nat, values: seq<seq<byte>>, q: nat)
    requires k <= ELEMENTS
    ensures AllFrom(w, p, k) == Got(values, q) <==> Elements(w, p, k, values, q)
    decreases ELEMENTS - k
  {
    hide ElementAt, IsElement;
    if k < ELEMENTS && AllFrom(w, p, k) == Got(values, q) {
      var e := ElementAt(w, p, k);
      ElementReads(w, p, k, e.value, e.pos);
      AllFromReads(w, e.pos, k + 1, values[1..], q);
      assert values == [e.value] + values[1..];
    }
    if k < ELEMENTS && Elements(w, p, k, values, q) {
      var r :| 0 <= p < r <= |w| && IsElement(w[p..r], k, values[0]) && Elements(w, r, k + 1, values[1..], q);
      ElementReads(w, p, k, values[0], r);
      AllFromReads(w, r, k + 1, values[1..], q);
      assert values == [values[0]] + values[1..];
    }
  }

  lemma PrependTwice(a: seq<seq<byte>>, b: seq<seq<byte>>, r: Parsed<seq<seq<byte>>>)
    ensures Prepend(a, Prepend(b, r)) == Prepend(a + b, r)
  {
    if r.Got? {
      assert a + (b + r.value) == a + b + r.value;
    }
  }

  /** What reading two, or three, elements comes to, given the rest. */
  lemma TwoFrom(w: seq<byte>, p: nat, k: nat)
    requires k + 2 <= ELEMENTS
    ensures var x := ElementAt(w, p, k);
            AllFrom(w, p, k) == match x
                                case Stop(e) => Stop(e)
                                case Got(v, q) =>
                                  match ElementAt(w, q, k + 1)
                                  case Stop(e) => Stop(e)
                                  case Got(u, r) => Prepend([v, u], AllFrom(w, r, k + 2))
  {
    hide ElementAt;
    var x := ElementAt(w, p, k);
    if x.Got? {
      var y := ElementAt(w, x.pos, k + 1);
      if y.Got? {
        PrependTwice([x.value], [y.value], AllFrom(w, y.pos, k + 2));
        assert [x.value] + [y.value] == [x.value, y.value];
      }
    }
  }

  lemma SavPduHeadReads(w: seq<byte>, p: nat) returns (v: seq<byte>)
    ensures match SavPduHeadAt(w, p)
            case Stop(e) => AllFrom(w, p, 0) == Stop(e)
            case Got(n, q) => n == DecodedInt(v) % 0x1_0000
                              && AllFrom(w, p, 0) == Prepend([[], v, [], []], AllFrom(w, q, 4))
  {
    hide HeaderAt, TlvAt, DecodedInt, AllFrom;
    TwoFrom(w, p, 0);
    v := [];
    var a := HeaderAt(w, p, 0x60);
    if a.Got? {
      var b := TlvAt(w, a.pos, 0x80);
      if b.Got? {
        v := b.value;
        TwoFrom(w, b.pos, 2);
        var c := HeaderAt(w, b.pos, 0xA2);
        if c.Got? {
          var d := HeaderAt(w, c.pos, 0x30);
          if d.Got? {
            PrependTwice([[], v], [[], []], AllFrom(w, d.pos, 4));
            assert [[], v] + [[], []] == [[], v, [], []];
          }
        }
      }
    }
  }

  lemma AsduHeadReads(w: seq<byte>, p: nat) returns (vs: seq<seq<byte>>)
    ensures |vs| == 3
    ensures match AsduHeadAt(w, p)
            case Stop(e) => AllFrom(w, p, 4) == Stop(e)
            case Got(h, q) =>
              && |vs[1]| == 2 && |vs[2]| == 4
              && h == AsduHead(vs[0], FromBe16(vs[1]), FromBe32(vs[2]))
              && AllFrom(w, p, 4) == Prepend(vs, AllFrom(w, q, 7))
  {
    hide TlvAt, SizedTlvAt, FromBe16, FromBe32, AllFrom;
    TwoFrom(w, p, 4);
    vs := [[], [], []];
    var a := TlvAt(w, p, 0x80);
    if a.Got? {
      var b := SizedTlvAt(w, a.pos, 0x82, 2);
      if b.Got? {
        OneFrom(w, b.pos, 6);
        var c := SizedTlvAt(w, b.pos, 0x83, 4);
        if c.Got? {
          vs := [a.value, b.value, c.value];
          PrependTwice([a.value, b.value], [c.value], AllFrom(w, c.pos, 7));
          assert [a.value, b.value] + [c.value] == vs;
        }
      }
    }
  }

  lemma OneFrom(w: seq<byte>, p: nat, k: nat)
    requires k < ELEMENTS
    ensures AllFrom(w, p, k) == match ElementAt(w, p, k)
                                case Stop(e) => Stop(e)
                                case Got(v, q) => Prepend([v], AllFrom(w, q, k + 1))
  {
  }

  lemma AsduTailReads(w: seq<byte>, p: nat) returns (vs: seq<seq<byte>>)
    ensures |vs| == 3
    ensures match AsduTailAt(w, p)
            case Stop(e) => AllFrom(w, p, 7) == Stop(e)
            case Got(t, q) =>
              && |vs[0]| == 1 && |vs[2]| == SAMPLE_PAYLOAD_BYTES
              && t == AsduTail(vs[0][0], DecodedInt(vs[1]) % 0x1_0000, UnpackOf(vs[2], NUM_CHANNELS))
              && AllFrom(w, p, 7) == Got(vs, q)
  {
    hide TlvAt, SizedTlvAt, DecodedInt, UnpackOf, AllFrom;
    TwoFrom(w, p, 7);
    vs := [[], [], []];
    var a := SizedTlvAt(w, p, 0x85, 1);
    if a.Got? {
      var b := TlvAt(w, a.pos, 0x86);
      if b.Got? {
        OneFrom(w, b.pos, 9);
        var c := SizedTlvAt(w, b.pos, 0x87, SAMPLE_PAYLOAD_BYTES);
        if c.Got? {
          vs := [a.value, b.value, c.value];
          NoneFrom(w, c.pos);
          assert [a.value, b.value] + ([c.value] + []) == vs;
        }
      }
    }
  }

  lemma NoneFrom(w: seq<byte>, p: nat)
    ensures AllFrom(w, p, ELEMENTS) == Got([], p)
  {
  }

  /** The frame that the values stand for. */
  function Meaning(w: seq<byte>, start: nat, values: seq<seq<byte>>, dst: Mac, src: Mac): DecodedFrame
    requires |values| == ELEMENTS && start + 8 <= |w|
    requires |values[5]| == 2 && |values[6]| == 4 && |values[7]| == 1 && |values[9]| == SAMPLE_PAYLOAD_BYTES
  {
    DecodedFrame(dst, src, FromBe16(w[start..start + 2]), FromBe16(w[start + 2..start + 4]),
                 DecodedInt(values[1]) % 0x1_0000,
                 Asdu(values[4], FromBe16(values[5]), FromBe32(values[6]), values[7][0],
                      DecodedInt(values[8]) % 0x1_0000, UnpackOf(values[9], NUM_CHANNELS)))
  }

  /** The decoder's three groups read the ten elements in order. */
  lemma AppFrameReads(w: seq<byte>, start: nat, dst: Mac, src: Mac) returns (values: seq<seq<byte>>)
    requires start + 8 <= |w|
    ensures match AppFrameAt(w, start, dst, src)
            case Stop(e) => AllFrom(w, start + 8, 0) == Stop(e)
            case Got(f, q) =>
              && |values| == ELEMENTS && |values[5]| == 2 && |values[6]| == 4 && |values[7]| == 1
              && |values[9]| == SAMPLE_PAYLOAD_BYTES
              && AllFrom(w, start + 8, 0) == Got(values, q) && f == Meaning(w, start, values, dst, src)
  {
    hide SavPduHeadAt, AsduHeadAt, AsduTailAt, DecodedInt, UnpackOf, FromBe16, FromBe32, AllFrom;
    values := [];
    var v := SavPduHeadReads(w, start + 8);
    var a := SavPduHeadAt(w, start + 8);
    if a.Got? {
      var h := AsduHeadReads(w, a.pos);
      var b := AsduHeadAt(w, a.pos);
      if b.Got? {
        var t := AsduTailReads(w, b.pos);
        var c := AsduTailAt(w, b.pos);
        if c.Got? {
          values := [[], v, [], []] + (h + t);
        }
      }
    }
  }

  // ---- What is accepted ----

  /** From `start` on lies a frame without its L2 header that stands for `f`, addresses apart. */
  ghost predicate Holds(w: seq<byte>, start: nat, f: DecodedFrame)
  {
    exists values, q :: HoldsAs(w, start, values, q, f)
  }

  ghost predicate HoldsAs(w: seq<byte>, start: nat, values: seq<seq<byte>>, q: nat, f: DecodedFrame)
  {
    start + 8 <= |w| && |values| == ELEMENTS && Elements(w, start + 8, 0, values, q) && Means(w, start, values, f)
  }

  lemma MeaningIs(w: seq<byte>, start: nat, values: seq<seq<byte>>, f: DecodedFrame)
    requires |values| == ELEMENTS && start + 8 <= |w|
    requires |values[5]| == 2 && |values[6]| == 4 && |values[7]| == 1 && |values[9]| == SAMPLE_PAYLOAD_BYTES
    ensures Means(w, start, values, f) <==> f == Meaning(w, start, values, f.dstMac, f.srcMac)
  {
    FromWords(w[start..start + 2], values[6]);
    FromWords(w[start + 2..start + 4], values[6]);
    FromWords(values[5], values[6]);
    IntegerOf(values[1]);
    IntegerOf(values[8]);
    ChannelsUnpacked(values[9], f.asdu.samples);
    assert values[7] == [values[7][0]];
    hide FromBe16, FromBe32, BigEndian, DecodedInt, UnpackOf, AreChannels;
  }

  lemma {:induction false} ElementSize(w: seq<byte>, p: nat, k: nat, values: seq<seq<byte>>, q: nat, j: nat)
    requires k <= ELEMENTS && Elements(w, p, k, values, q)
    ensures |values| == ELEMENTS - k
    ensures k <= j < ELEMENTS && SizeOf(j).Some? ==> |values[j - k]| == SizeOf(j).value
    decreases ELEMENTS - k
  {
    hide IsElement, SizeOf, Elements;
    if k == ELEMENTS {
      NoElements(w, p, values, q);
    } else {
      var r := NextElement(w, p, k, values, q);
      ElementSize(w, r, k + 1, values[1..], q, j);
      SizedElement(w[p..r], k, values[0]);
      assert k < j < ELEMENTS ==> values[j - k] == values[1..][j - (k + 1)];
    }
  }

  lemma NoElements(w: seq<byte>, p: nat, values: seq<seq<byte>>, q: nat)
    requires Elements(w, p, ELEMENTS, values, q)
    ensures values == []
  {
  }

  lemma NextElement(w: seq<byte>, p: nat, k: nat, values: seq<seq<byte>>, q: nat) returns (r: nat)
    requires k < ELEMENTS && Elements(w, p, k, values, q)
    ensures values != [] && p < r <= |w| && IsElement(w[p..r], k, values[0]) && Elements(w, r, k + 1, values[1..], q)
  {
    hide IsElement;
    r :| 0 <= p < r <= |w| && IsElement(w[p..r], k, values[0]) && Elements(w, r, k + 1, values[1..], q);
  }

  lemma SizedElement(o: seq<byte>, k: nat, value: seq<byte>)
    requires k < ELEMENTS && IsElement(o, k, value)
    ensures SizeOf(k).Some? ==> |value| == SizeOf(k).value
  {
    hide IsOpening, IsTlv, TagOf;
  }

  lemma SizedNotOpening(k: nat)
    ensures SizeOf(k).Some? ==> !Opens(k)
  {
  }

  lemma FourSizes(w: seq<byte>, p: nat, values: seq<seq<byte>>, q: nat)
    requires Elements(w, p, 0, values, q)
    ensures |values| == ELEMENTS && |values[5]| == 2 && |values[6]| == 4 && |values[7]| == 1
    ensures |values[9]| == SAMPLE_PAYLOAD_BYTES
  {
    hide Elements;
    ElementSize(w, p, 0, values, q, 5);
    ElementSize(w, p, 0, values, q, 6);
    ElementSize(w, p, 0, values, q, 7);
    ElementSize(w, p, 0, values, q, 9);
  }

  lemma AppFrameAccepts(w: seq<byte>, start: nat, dst: Mac, src: Mac, f: DecodedFrame)
    ensures Outcome(AppFrameAt(w, start, dst, src)) == Ok(f)
       <==> f.dstMac == dst && f.srcMac == src && Holds(w, start, f)
  {
    hide AppFrameAt, AllFrom, Means, Meaning, Elements;
    if start + 8 <= |w| {
      var values := AppFrameReads(w, start, dst, src);
      var r := AppFrameAt(w, start, dst, src);
      if r.Got? {
        AllFromReads(w, start + 8, 0, values, r.pos);
        MeaningIs(w, start, values, r.value);
        MeaningKeepsMacs(w, start, values, dst, src);
        assert HoldsAs(w, start, values, r.pos, r.value);
      }
      if Holds(w, start, f) {
        var vs, q :| HoldsAs(w, start, vs, q, f);
        AllFromReads(w, start + 8, 0, vs, q);
        FourSizes(w, start + 8, vs, q);
        MeaningIs(w, start, vs, f);
      }
    } else {
      TooShort(w, start, dst, src);
    }
  }

  lemma MeaningKeepsMacs(w: seq<byte>, start: nat, values: seq<seq<byte>>, dst: Mac, src: Mac)
    requires |values| == ELEMENTS && start + 8 <= |w|
    requires |values[5]| == 2 && |values[6]| == 4 && |values[7]| == 1 && |values[9]| == SAMPLE_PAYLOAD_BYTES
    ensures var f := Meaning(w, start, values, dst, src); f.dstMac == dst && f.srcMac == src
  {
    hide FromBe16, FromBe32, DecodedInt, UnpackOf;
  }

  lemma TooShort(w: seq<byte>, start: nat, dst: Mac, src: Mac)
    requires start + 8 > |w|
    ensures AppFrameAt(w, start, dst, src) == Stop(Truncated)
  {
    hide FromBe16, SavPduHeadAt, AsduHeadAt, AsduTailAt;
  }

  /** A stripped buffer is decoded to `f` if and only if it holds the two words, two reserved ones and the ten elements
      that stand for `f`, with lengths in any of the three forms, and zero addresses; what follows does not matter. */
  lemma StrippedAcceptsExactly(w: seq<byte>, f: DecodedFrame)
    ensures DecodedStripped(w) == Ok(f)
       <==> f.dstMac == f.srcMac == [0, 0, 0, 0, 0, 0] && Holds(w, 0, f)
  {
    AppFrameAccepts(w, 0, ZERO_MAC, ZERO_MAC, f);
    hide AppFrameAt, Holds;
  }

  /** The L2 header of an SV frame ends at `start`. */
  predicate L2Ends(w: seq<byte>, start: nat)
  {
    || (|w| >= 14 && start == 14 && w[12..14] == [0x88, 0xBA])
    || (|w| >= 18 && start == 18 && w[12..14] == [0x81, 0x00] && w[16..18] == [0x88, 0xBA])
  }

  lemma TwoOctets(w: seq<byte>, p: nat, v: u16)
    requires p + 2 <= |w|
    ensures FromBe16(w[p..p + 2]) == v <==> w[p..p + 2] == [v / 0x100, v % 0x100]
    ensures FromBe16(w[p..p + 2]) == BigEndian(w[p..p + 2])
  {
    WordAt(w, p);
    hide BigEndian;
  }

  /** What is wrong with a buffer that does not start with the L2 header of an SV frame. */
  predicate L2Faulty(w: seq<byte>, e: DecodeError)
  {
    match e
    case Truncated => |w| < 14 || (w[12..14] == [0x81, 0x00] && |w| < 18)
    case NotSvFrame(ethertype) =>
      |w| >= 14
      && if w[12..14] == [0x81, 0x00]
         then |w| >= 18 && w[16..18] != [0x88, 0xBA] && ethertype == BigEndian(w[16..18])
         else w[12..14] != [0x88, 0xBA] && ethertype == BigEndian(w[12..14])
    case _ => false
  }

  lemma L2Reads(w: seq<byte>, start: nat)
    ensures L2HeaderAt(w, 0).Got? && L2HeaderAt(w, 0).pos == start <==> L2Ends(w, start)
    ensures L2Ends(w, start) ==> L2HeaderAt(w, 0).value == (w[..6], w[6..12])
  {
    if |w| >= 14 {
      TwoOctets(w, 12, 0x8100);
      TwoOctets(w, 12, 0x88BA);
      if |w| >= 18 {
        TwoOctets(w, 16, 0x88BA);
      }
      assert w[0..6] == w[..6];
    }
    hide FromBe16, BigEndian;
  }

  lemma L2Fails(w: seq<byte>, e: DecodeError)
    ensures L2HeaderAt(w, 0) == Stop(e) <==> L2Faulty(w, e)
  {
    if |w| >= 14 {
      TwoOctets(w, 12, 0x8100);
      TwoOctets(w, 12, 0x88BA);
      if |w| >= 18 {
        TwoOctets(w, 16, 0x88BA);
      }
    }
    hide FromBe16, BigEndian;
  }

  /** A buffer is decoded to `f` if and only if it starts with f's addresses, an optional 802.1Q tag of any content and
      the SV EtherType, and holds the rest of the frame behind them. */
  lemma AcceptsExactly(w: seq<byte>, f: DecodedFrame)
    ensures Decoded(w) == Ok(f)
       <==> exists start :: L2Ends(w, start) && f.dstMac == w[..6] && f.srcMac == w[6..12] && Holds(w, start, f)
  {
    hide L2HeaderAt, AppFrameAt, Holds, L2Ends, L2Faulty;
    var l := L2HeaderAt(w, 0);
    forall start ensures L2Ends(w, start) <==> l.Got? && l.pos == start {
      L2Reads(w, start);
    }
    if l.Got? {
      L2Reads(w, l.pos);
      AppFrameAccepts(w, l.pos, l.value.0, l.value.1, f);
    }
  }

  // ---- What is rejected ----

  /** After the tag come `l` length octets, and then fewer octets than they announce. */
  predicate ValueMissing(o: seq<byte>, l: nat, n: nat)
  {
    l < |o| < 1 + l + n && IsLength(o[1..1 + l], n)
  }

  /** Octets that begin element `k` and break off before its end. */
  ghost predicate BreaksOff(o: seq<byte>, k: nat)
    requires k < ELEMENTS
  {
    || o == []
    || (o[0] == TagOf(k)
        && (|o| == 1 || (|o| < 3 && o[1] == 0x81) || (|o| < 4 && o[1] == 0x82)
            || (!Opens(k) && exists l, n :: ValueMissing(o, l, n))))
  }

  /** What is wrong with element `k` at `p`. */
  ghost predicate Faulty(w: seq<byte>, p: nat, k: nat, e: DecodeError)
    requires k < ELEMENTS
  {
    p <= |w| && match e
                case UnexpectedTag(found, expected) => p < |w| && w[p] == found != expected == TagOf(k)
                case UnsupportedLengthForm(first) =>
                  p + 1 < |w| && w[p] == TagOf(k) && w[p + 1] == first && (first == 0x80 || first > 0x82)
                case BadSize(expected, actual) =>
                  && SizeOf(k) == Some(expected) && expected != actual
                  && exists q, v :: p < q <= |w| && |v| == actual && IsTlv(w[p..q], TagOf(k), v)
                case Truncated => BreaksOff(w[p..], k)
                case NotSvFrame(_) => false
  }

  lemma LengthFails(w: seq<byte>, p: nat, e: DecodeError)
    requires p <= |w|
    ensures LengthAt(w, p) == Stop(e)
       <==> (e == Truncated && (p == |w| || (w[p] == 0x81 && p + 2 > |w|) || (w[p] == 0x82 && p + 3 > |w|)))
            || (p < |w| && (w[p] == 0x80 || w[p] > 0x82) && e == UnsupportedLengthForm(w[p]))
  {
    hide FromBe16;
  }

  lemma OpeningFails(w: seq<byte>, p: nat, k: nat, e: DecodeError)
    requires p <= |w| && k < ELEMENTS && Opens(k)
    ensures HeaderAt(w, p, TagOf(k)) == Stop(e) <==> Faulty(w, p, k, e)
  {
    hide LengthAt, TagOf, IsTlv, IsLength;
    assert SizeOf(k) == None;
    if p < |w| {
      LengthFails(w, p + 1, e);
    }
  }

  lemma TlvFails(w: seq<byte>, p: nat, k: nat, e: DecodeError)
    requires p <= |w| && k < ELEMENTS && !Opens(k) && !e.BadSize?
    ensures TlvAt(w, p, TagOf(k)) == Stop(e) <==> Faulty(w, p, k, e)
  {
    hide LengthAt, TagOf, IsTlv, IsLength;
    if p < |w| && w[p] == TagOf(k) {
      LengthFails(w, p + 1, e);
      var l := LengthAt(w, p + 1);
      if l.Got? {
        LengthReads(w, p + 1, l.value, l.pos);
        MissingIff(w, p, l.pos, l.value);
        NotAForm(w, p, l.pos, l.value);
      } else {
        NothingMissing(w, p);
      }
    }
  }

  /** With a complete length, what is missing is the value. */
  lemma MissingIff(w: seq<byte>, p: nat, q: nat, n: nat)
    requires p + 1 <= q <= |w| && IsLength(w[p + 1..q], n)
    ensures (exists l, m :: ValueMissing(w[p..], l, m)) <==> q + n > |w|
  {
    hide IsLength;
    var o := w[p..];
    OneLength(w, p, q, n);
    if q + n > |w| {
      assert o[1..1 + (q - p - 1)] == w[p + 1..q];
      assert ValueMissing(o, q - p - 1, n);
    }
  }

  lemma OneLength(w: seq<byte>, p: nat, q: nat, n: nat)
    requires p + 1 <= q <= |w| && IsLength(w[p + 1..q], n)
    ensures forall l, m :: ValueMissing(w[p..], l, m) ==> m == n && l == q - p - 1
    ensures p + 1 < q
  {
    forall l, m | ValueMissing(w[p..], l, m) ensures m == n && l == q - p - 1 {
      assert w[p..][1..1 + l] == w[p + 1..p + 1 + l];
      LengthReads(w, p + 1, m, p + 1 + l);
      LengthReads(w, p + 1, n, q);
    }
  }

  lemma NotAForm(w: seq<byte>, p: nat, q: nat, n: nat)
    requires p + 1 <= q <= |w| && IsLength(w[p + 1..q], n)
    ensures p + 1 < |w| && w[p + 1] != 0x80 && w[p + 1] <= 0x82
    ensures !(w[p + 1] == 0x81 && p + 3 > |w|) && !(w[p + 1] == 0x82 && p + 4 > |w|)
  {
    hide BigEndian;
  }

  lemma NothingMissing(w: seq<byte>, p: nat)
    requires p < |w| && LengthAt(w, p + 1).Stop?
    ensures !exists l, m :: ValueMissing(w[p..], l, m)
  {
  }

  lemma TlvNeverBadSize(w: seq<byte>, p: nat, tag: byte)
    ensures TlvAt(w, p, tag).Stop? ==> !TlvAt(w, p, tag).error.BadSize?
  {
    hide FromBe16;
  }

  lemma SizedFails(w: seq<byte>, p: nat, k: nat, e: DecodeError)
    requires p <= |w| && k < ELEMENTS && SizeOf(k).Some?
    ensures SizedTlvAt(w, p, TagOf(k), SizeOf(k).value) == Stop(e) <==> Faulty(w, p, k, e)
  {
    SizedNotOpening(k);
    TlvNeverBadSize(w, p, TagOf(k));
    hide TlvAt, TagOf, IsTlv, BreaksOff, SizeOf;
    var r := TlvAt(w, p, TagOf(k));
    if r.Got? {
      TlvReads(w, p, TagOf(k), r.value, r.pos);
    }
    if e.BadSize? {
      forall q, v | p < q <= |w| && IsTlv(w[p..q], TagOf(k), v) ensures r == Got(v, q) {
        TlvReads(w, p, TagOf(k), v, q);
      }
    } else {
      TlvFails(w, p, k, e);
    }
  }

  lemma ElementFails(w: seq<byte>, p: nat, k: nat, e: DecodeError)
    requires p <= |w| && k < ELEMENTS
    ensures ElementAt(w, p, k) == Stop(e) <==> Faulty(w, p, k, e)
  {
    TlvNeverBadSize(w, p, TagOf(k));
    if Opens(k) {
      OpeningFails(w, p, k, e);
    } else if SizeOf(k).Some? {
      SizedFails(w, p, k, e);
    } else if !e.BadSize? {
      TlvFails(w, p, k, e);
    }
    hide HeaderAt, TlvAt, SizedTlvAt, TagOf, IsTlv, BreaksOff;
  }

  /** From element `k` at `p` on, the first element that is not as it must be has this fault. */
  ghost predicate FirstFault(w: seq<byte>, p: nat, k: nat, e: DecodeError)
    requires k <= ELEMENTS
    decreases ELEMENTS - k
  {
    && k < ELEMENTS
    && (Faulty(w, p, k, e)
        || exists r, v :: 0 <= p < r <= |w| && IsElement(w[p..r], k, v) && FirstFault(w, r, k + 1, e))
  }

  lemma {:induction false} AllFromFails(w: seq<byte>, p: nat, k: nat, e: DecodeError)
    requires p <= |w| && k <= ELEMENTS
    ensures AllFrom(w, p, k) == Stop(e) <==> FirstFault(w, p, k, e)
    decreases ELEMENTS - k
  {
    hide ElementAt, IsElement, Faulty;
    if k < ELEMENTS {
      ElementFails(w, p, k, e);
      var x := ElementAt(w, p, k);
      if x.Got? {
        ElementReads(w, p, k, x.value, x.pos);
        AllFromFails(w, x.pos, k + 1, e);
      }
      forall r, v | 0 <= p < r <= |w| && IsElement(w[p..r], k, v) ensures x == Got(v, r) {
        ElementReads(w, p, k, v, r);
      }
    }
  }

  /** What is wrong with a frame without its L2 header, from `start` on. */
  ghost predicate AppFaulty(w: seq<byte>, start: nat, e: DecodeError)
  {
    if start + 8 > |w| then e == Truncated else FirstFault(w, start + 8, 0, e)
  }

  lemma AppFrameRejects(w: seq<byte>, start: nat, dst: Mac, src: Mac, e: DecodeError)
    ensures Outcome(AppFrameAt(w, start, dst, src)) == Err(e) <==> AppFaulty(w, start, e)
  {
    hide AppFrameAt, AllFrom, FirstFault, Meaning;
    if start + 8 <= |w| {
      var values := AppFrameReads(w, start, dst, src);
      AllFromFails(w, start + 8, 0, e);
    } else {
      TooShort(w, start, dst, src);
    }
  }

  /** A stripped buffer is rejected with exactly the fault of its first element that is not as it must be. */
  lemma StrippedRejectsExactly(w: seq<byte>, e: DecodeError)
    ensures DecodedStripped(w) == Err(e) <==> AppFaulty(w, 0, e)
  {
    hide AppFrameAt, AppFaulty;
    AppFrameRejects(w, 0, ZERO_MAC, ZERO_MAC, e);
  }

  /** A whole buffer is rejected with the fault of its L2 header or, when that is an SV frame's, of the rest. */
  lemma RejectsExactly(w: seq<byte>, e: DecodeError)
    ensures Decoded(w) == Err(e) <==> L2Faulty(w, e) || exists start :: L2Ends(w, start) && AppFaulty(w, start, e)
  {
    hide L2HeaderAt, AppFrameAt, L2Ends, L2Faulty, AppFaulty;
    var l := L2HeaderAt(w, 0);
    L2Fails(w, e);
    forall start ensures L2Ends(w, start) <==> l.Got? && l.pos == start {
      L2Reads(w, start);
    }
    if l.Got? {
      AppFrameRejects(w, l.pos, l.value.0, l.value.1, e);
    }
  }
}
