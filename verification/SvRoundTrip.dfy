/** Laws of decoding: position independence, prefixes, extensions, stripped headers, and the round trip. */
module SvRoundTrip {
  import opened Bytes
  import opened Options
  import opened SvFrame
  import opened SvDecoder
  import E = SvEncoder

  // ---- Reading depends only on what is read ----

  /** `w` holds a copy of `buf` at offset `k`. */
  predicate Embeds(w: seq<byte>, buf: seq<byte>, k: nat)
  {
    k + |buf| <= |w| && w[k..k + |buf|] == buf
  }

  /** Reading `buf` came to `r`, and reading the copy inside `w` came to `s`: the same, `k` octets on, except that a
      read cut short by the end of `buf` may find more in `w`. */
  predicate SameRead<T(==)>(r: Parsed<T>, s: Parsed<T>, k: nat, atEnd: bool)
  {
    match r
    case Got(v, p) => s == Got(v, p + k)
    case Stop(e) => (e == Truncated && !atEnd) || s == r
  }

  lemma LocalU8(w: seq<byte>, buf: seq<byte>, k: nat, pos: nat)
    requires Embeds(w, buf, k) && pos <= |buf|
    ensures SameRead(U8At(buf, pos), U8At(w, pos + k), k, k + |buf| == |w|)
  {
  }

  lemma LocalBytes(w: seq<byte>, buf: seq<byte>, k: nat, pos: nat, n: nat)
    requires Embeds(w, buf, k) && pos <= |buf|
    ensures SameRead(BytesAt(buf, pos, n), BytesAt(w, pos + k, n), k, k + |buf| == |w|)
  {
    if pos + n <= |buf| {
      SliceOfSlice(w, k, k + |buf|, pos, pos + n);
    }
  }

  lemma LocalU16(w: seq<byte>, buf: seq<byte>, k: nat, pos: nat)
    requires Embeds(w, buf, k) && pos <= |buf|
    ensures SameRead(U16At(buf, pos), U16At(w, pos + k), k, k + |buf| == |w|)
  {
    LocalBytes(w, buf, k, pos, 2);
  }

  lemma LocalTlv(w: seq<byte>, buf: seq<byte>, k: nat, pos: nat, tag: byte)
    requires Embeds(w, buf, k) && pos <= |buf|
    ensures SameRead(HeaderAt(buf, pos, tag), HeaderAt(w, pos + k, tag), k, k + |buf| == |w|)
    ensures SameRead(TlvAt(buf, pos, tag), TlvAt(w, pos + k, tag), k, k + |buf| == |w|)
  {
    hide Embeds, LengthAt, BytesAt, FromBe16;
    LocalU8(w, buf, k, pos);
    var t := TagAt(buf, pos, tag);
    if t.Got? {
      LocalLength(w, buf, k, t.pos);
      var n := LengthAt(buf, t.pos);
      if n.Got? {
        LocalBytes(w, buf, k, n.pos, n.value);
      }
    }
  }

  lemma LocalLength(w: seq<byte>, buf: seq<byte>, k: nat, pos: nat)
    requires Embeds(w, buf, k) && pos <= |buf|
    ensures SameRead(LengthAt(buf, pos), LengthAt(w, pos + k), k, k + |buf| == |w|)
  {
    LocalU8(w, buf, k, pos);
    if pos < |buf| {
      LocalU8(w, buf, k, pos + 1);
      LocalU16(w, buf, k, pos + 1);
    }
  }

  lemma LocalAppHeader(w: seq<byte>, buf: seq<byte>, k: nat, pos: nat)
    requires Embeds(w, buf, k) && pos <= |buf|
    ensures SameRead(AppHeaderAt(buf, pos), AppHeaderAt(w, pos + k), k, k + |buf| == |w|)
  {
    hide FromBe16, Embeds;
    LocalU16(w, buf, k, pos);
    if pos + 2 <= |buf| {
      LocalU16(w, buf, k, pos + 2);
    }
    if pos + 4 <= |buf| {
      LocalU16(w, buf, k, pos + 4);
    }
    if pos + 6 <= |buf| {
      LocalU16(w, buf, k, pos + 6);
    }
  }

  lemma LocalSavPduHead(w: seq<byte>, buf: seq<byte>, k: nat, pos: nat)
    requires Embeds(w, buf, k) && pos <= |buf|
    ensures SameRead(SavPduHeadAt(buf, pos), SavPduHeadAt(w, pos + k), k, k + |buf| == |w|)
  {
    hide HeaderAt, TlvAt, DecodedInt, Embeds;
    LocalTlv(w, buf, k, pos, 0x60);
    var a := HeaderAt(buf, pos, 0x60);
    if a.Got? {
      LocalTlv(w, buf, k, a.pos, 0x80);
      var b := TlvAt(buf, a.pos, 0x80);
      if b.Got? {
        LocalTlv(w, buf, k, b.pos, 0xA2);
        var c := HeaderAt(buf, b.pos, 0xA2);
        if c.Got? {
          LocalTlv(w, buf, k, c.pos, 0x30);
        }
      }
    }
  }

  lemma LocalSized(w: seq<byte>, buf: seq<byte>, k: nat, pos: nat, tag: byte, size: nat)
    requires Embeds(w, buf, k) && pos <= |buf|
    ensures SameRead(SizedTlvAt(buf, pos, tag, size), SizedTlvAt(w, pos + k, tag, size), k, k + |buf| == |w|)
  {
    hide TlvAt, Embeds;
    LocalTlv(w, buf, k, pos, tag);
  }

  lemma LocalAsduHead(w: seq<byte>, buf: seq<byte>, k: nat, pos: nat)
    requires Embeds(w, buf, k) && pos <= |buf|
    ensures SameRead(AsduHeadAt(buf, pos), AsduHeadAt(w, pos + k), k, k + |buf| == |w|)
  {
    hide TlvAt, SizedTlvAt, FromBe16, FromBe32, Embeds;
    LocalTlv(w, buf, k, pos, 0x80);
    var a := TlvAt(buf, pos, 0x80);
    if a.Got? {
      LocalSized(w, buf, k, a.pos, 0x82, 2);
      var b := SizedTlvAt(buf, a.pos, 0x82, 2);
      if b.Got? {
        LocalSized(w, buf, k, b.pos, 0x83, 4);
      }
    }
  }

  lemma LocalAsduTail(w: seq<byte>, buf: seq<byte>, k: nat, pos: nat)
    requires Embeds(w, buf, k) && pos <= |buf|
    ensures SameRead(AsduTailAt(buf, pos), AsduTailAt(w, pos + k), k, k + |buf| == |w|)
  {
    hide TlvAt, SizedTlvAt, DecodedInt, UnpackOf, Embeds;
    LocalSized(w, buf, k, pos, 0x85, 1);
    var a := SizedTlvAt(buf, pos, 0x85, 1);
    if a.Got? {
      LocalTlv(w, buf, k, a.pos, 0x86);
      var b := TlvAt(buf, a.pos, 0x86);
      if b.Got? {
        LocalSized(w, buf, k, b.pos, 0x87, SAMPLE_PAYLOAD_BYTES);
      }
    }
  }

  lemma LocalAppFrame(w: seq<byte>, buf: seq<byte>, k: nat, pos: nat, dst: Mac, src: Mac)
    requires Embeds(w, buf, k) && pos <= |buf|
    ensures SameRead(AppFrameAt(buf, pos, dst, src), AppFrameAt(w, pos + k, dst, src), k, k + |buf| == |w|)
  {
    hide AppHeaderAt, SavPduHeadAt, AsduHeadAt, AsduTailAt, Embeds;
    LocalAppHeader(w, buf, k, pos);
    var a := AppHeaderAt(buf, pos);
    if a.Got? {
      LocalSavPduHead(w, buf, k, a.pos);
      var b := SavPduHeadAt(buf, a.pos);
      if b.Got? {
        LocalAsduHead(w, buf, k, b.pos);
        var c := AsduHeadAt(buf, b.pos);
        if c.Got? {
          LocalAsduTail(w, buf, k, c.pos);
        }
      }
    }
  }

  lemma LocalL2Header(w: seq<byte>, buf: seq<byte>, k: nat, pos: nat)
    requires Embeds(w, buf, k) && pos <= |buf|
    ensures SameRead(L2HeaderAt(buf, pos), L2HeaderAt(w, pos + k), k, k + |buf| == |w|)
  {
    hide FromBe16, Embeds, Be16;
    LocalBytes(w, buf, k, pos, 6);
    if pos + 6 <= |buf| {
      LocalBytes(w, buf, k, pos + 6, 6);
    }
    if pos + 12 <= |buf| {
      LocalU16(w, buf, k, pos + 12);
    }
    if pos + 14 <= |buf| {
      LocalU16(w, buf, k, pos + 14);
    }
    if pos + 16 <= |buf| {
      LocalU16(w, buf, k, pos + 16);
    }
  }

  lemma LocalFrame(w: seq<byte>, buf: seq<byte>, k: nat, pos: nat)
    requires Embeds(w, buf, k) && pos <= |buf|
    ensures SameRead(FrameAt(buf, pos), FrameAt(w, pos + k), k, k + |buf| == |w|)
  {
    hide L2HeaderAt, AppFrameAt, Embeds;
    LocalL2Header(w, buf, k, pos);
    var a := L2HeaderAt(buf, pos);
    if a.Got? {
      LocalAppFrame(w, buf, k, a.pos, a.value.0, a.value.1);
    }
  }

  // ---- Consequences for whole buffers ----

  /** Octets appended after a buffer never change what it decodes to, success or error, unless it was cut short. */
  lemma ExtensionKeepsResult(buf: seq<byte>, more: seq<byte>)
    requires Decoded(buf) != Err(Truncated)
    ensures Decoded(buf + more) == Decoded(buf)
  {
    assert Embeds(buf + more, buf, 0);
    LocalFrame(buf + more, buf, 0, 0);
  }

  /** The offset at which the L2 header of an SV frame ends. */
  function HeaderEnd(buf: seq<byte>): Option<nat>
  {
    match L2HeaderAt(buf, 0)
    case Got(_, p) => Some(p)
    case Stop(_) => None
  }

  /** `r` as the stripped transport reports it: the addresses are gone. */
  function WithoutMacs(r: Result<DecodedFrame>): Result<DecodedFrame>
  {
    match r
    case Ok(f) => Ok(f.(dstMac := ZERO_MAC, srcMac := ZERO_MAC))
    case Err(_) => r
  }

  lemma MacsAreCopied(buf: seq<byte>, pos: nat, dst: Mac, src: Mac)
    ensures Outcome(AppFrameAt(buf, pos, ZERO_MAC, ZERO_MAC)) == WithoutMacs(Outcome(AppFrameAt(buf, pos, dst, src)))
  {
  }

  /** Whatever follows an SV EtherType, decoding it with its L2 header stripped gives the same success, addresses
      zeroed, or the same error as decoding the whole buffer. */
  lemma StrippedAgrees(buf: seq<byte>)
    requires HeaderEnd(buf).Some?
    ensures HeaderEnd(buf).value == (if buf[12..14] == Be16(TPID_8021Q) then 18 else 14)
    ensures DecodedStripped(buf[HeaderEnd(buf).value..]) == WithoutMacs(Decoded(buf))
  {
    var h := L2HeaderAt(buf, 0);
    assert h.pos == if buf[12..14] == Be16(TPID_8021Q) then 18 else 14 by {
      Be16RoundTrip(TPID_8021Q);
    }
    var rest := buf[h.pos..];
    assert Embeds(buf, rest, h.pos);
    LocalAppFrame(buf, rest, h.pos, 0, ZERO_MAC, ZERO_MAC);
    MacsAreCopied(buf, h.pos, h.value.0, h.value.1);
  }

  // ---- The round trip ----

  /** `x` lies in `w` at offset `p`. */
  predicate At(w: seq<byte>, p: nat, x: seq<byte>)
  {
    p + |x| <= |w| && w[p..p + |x|] == x
  }

  lemma AtBoth(w: seq<byte>, p: nat, x: seq<byte>, y: seq<byte>)
    requires At(w, p, x + y)
    ensures At(w, p, x) && At(w, p + |x|, y)
  {
    assert w[p..p + |x|] == (x + y)[..|x|];
    assert w[p + |x|..p + |x| + |y|] == (x + y)[|x|..];
  }

  lemma AtThree(w: seq<byte>, p: nat, x: seq<byte>, y: seq<byte>, z: seq<byte>)
    requires At(w, p, x + y + z)
    ensures At(w, p, x) && At(w, p + |x|, y) && At(w, p + |x| + |y|, z)
  {
    AtBoth(w, p, x + y, z);
    AtBoth(w, p, x, y);
  }

  lemma ReadU16Back(w: seq<byte>, p: nat, v: u16)
    requires At(w, p, Be16(v))
    ensures U16At(w, p) == Got(v, p + 2)
  {
  }

  lemma ReadLengthBack(w: seq<byte>, p: nat, n: nat)
    requires n < 0x1_0000 && At(w, p, LengthOctets(n))
    ensures LengthAt(w, p) == Got(n, p + |LengthOctets(n)|)
  {
  }

  lemma ReadTlvBack(w: seq<byte>, p: nat, tag: byte, value: seq<byte>)
    requires |value| < 0x1_0000 && At(w, p, PrimitiveOctets(tag, value))
    ensures TlvAt(w, p, tag) == Got(value, p + |PrimitiveOctets(tag, value)|)
  {
    AtThree(w, p, [tag], LengthOctets(|value|), value);
    assert w[p] == [tag][0];
    ReadLengthBack(w, p + 1, |value|);
  }

  lemma ReadSizedBack(w: seq<byte>, p: nat, tag: byte, value: seq<byte>)
    requires |value| < 0x1_0000 && At(w, p, PrimitiveOctets(tag, value))
    ensures SizedTlvAt(w, p, tag, |value|) == Got(value, p + |PrimitiveOctets(tag, value)|)
  {
    hide PrimitiveOctets, At, TlvAt, LengthOctets;
    ReadTlvBack(w, p, tag, value);
  }

  lemma ReadHeaderBack(w: seq<byte>, p: nat, tag: byte, n: u16)
    requires At(w, p, [tag, 0x82] + Be16(n))
    ensures HeaderAt(w, p, tag) == Got((), p + 4)
  {
  }

  lemma IntBack(v: u16)
    ensures DecodedInt(IntU16(v)) % 0x1_0000 == v && |IntU16(v)| < 0x1_0000
  {
    IntU16Contents(v);
  }

  lemma ReadAsduHeadBack(w: seq<byte>, p: nat, a: Asdu)
    requires |a.svId| < 0x1_0000 && At(w, p, E.FieldsHead(a))
    ensures AsduHeadAt(w, p) == Got(AsduHead(a.svId, a.smpCnt, a.confRev), p + |E.FieldsHead(a)|)
  {
    var x, y, z := PrimitiveOctets(0x80, a.svId), PrimitiveOctets(0x82, Be16(a.smpCnt)),
                   PrimitiveOctets(0x83, Be32(a.confRev));
    hide PrimitiveOctets, TlvAt, SizedTlvAt, Be16, Be32, FromBe16, FromBe32, At, LengthOctets;
    AtThree(w, p, x, y, z);
    ReadTlvBack(w, p, 0x80, a.svId);
    ReadSizedBack(w, p + |x|, 0x82, Be16(a.smpCnt));
    ReadSizedBack(w, p + |x| + |y|, 0x83, Be32(a.confRev));
    Be16RoundTrip(a.smpCnt);
    Be32RoundTrip(a.confRev);
  }

  lemma TailFrom(w: seq<byte>, p: nat, p1: nat, p2: nat, p3: nat, synch: byte, rate: seq<byte>, octets: seq<byte>)
    requires SizedTlvAt(w, p, 0x85, 1) == Got([synch], p1) && TlvAt(w, p1, 0x86) == Got(rate, p2)
    requires SizedTlvAt(w, p2, 0x87, SAMPLE_PAYLOAD_BYTES) == Got(octets, p3) && |octets| == SAMPLE_PAYLOAD_BYTES
    ensures AsduTailAt(w, p) == Got(AsduTail(synch, DecodedInt(rate) % 0x1_0000, UnpackOf(octets, NUM_CHANNELS)), p3)
  {
    hide TlvAt, SizedTlvAt, UnpackOf, DecodedInt;
  }

  lemma ReadAsduTailBack(w: seq<byte>, p: nat, a: Asdu)
    requires At(w, p, E.FieldsTail(a))
    ensures AsduTailAt(w, p) == Got(AsduTail(a.smpSynch, a.smpRate, a.samples), p + |E.FieldsTail(a)|)
  {
    hide PrimitiveOctets, TlvAt, SizedTlvAt, IntU16, PackOf, UnpackOf, DecodedInt, At, LengthOctets, AsduTailAt;
    var x, y, z := PrimitiveOctets(0x85, [a.smpSynch]), PrimitiveOctets(0x86, IntU16(a.smpRate)),
                   PrimitiveOctets(0x87, PackOf(a.samples));
    AtThree(w, p, x, y, z);
    ReadSizedBack(w, p, 0x85, [a.smpSynch]);
    ReadTlvBack(w, p + |x|, 0x86, IntU16(a.smpRate));
    ReadSizedBack(w, p + |x| + |y|, 0x87, PackOf(a.samples));
    TailFrom(w, p, p + |x|, p + |x| + |y|, p + |x| + |y| + |z|, a.smpSynch, IntU16(a.smpRate), PackOf(a.samples));
    IntBack(a.smpRate);
    UnpackPack(a.samples);
  }

  lemma ReadSavPduHeadBack(w: seq<byte>, p: nat, n1: u16, n2: u16, n3: u16)
    requires At(w, p, [0x60, 0x82] + Be16(n1) + ([0x80, 1, 1, 0xA2, 0x82] + Be16(n2) + [0x30, 0x82] + Be16(n3)))
    ensures SavPduHeadAt(w, p) == Got(1, p + 15)
  {
    hide HeaderAt, TlvAt, At, Be16, PrimitiveOctets, DecodedInt;
    var x, y, z, u := [0x60, 0x82] + Be16(n1), [0x80, 1, 1], [0xA2, 0x82] + Be16(n2), [0x30, 0x82] + Be16(n3);
    E.Blocks();
    HeadParts(y, [0xA2, 0x82], Be16(n2), [0x30, 0x82], Be16(n3), [0x80, 1, 1, 0xA2, 0x82]);
    AtBoth(w, p, x, y + z + u);
    AtThree(w, p + 4, y, z, u);
    ReadHeaderBack(w, p, 0x60, n1);
    OneAsdu();
    ReadTlvBack(w, p + 4, 0x80, [1]);
    ReadHeaderBack(w, p + 7, 0xA2, n2);
    ReadHeaderBack(w, p + 11, 0x30, n3);
  }

  lemma HeadParts(y: seq<byte>, t: seq<byte>, b: seq<byte>, u: seq<byte>, c: seq<byte>, yt: seq<byte>)
    requires yt == y + t
    ensures yt + b + u + c == y + (t + b) + (u + c)
  {
  }

  lemma OneAsdu()
    ensures PrimitiveOctets(0x80, [1]) == [0x80, 1, 1] && DecodedInt([1]) == 1
  {
    BigEndianShort(1, 0, 0);
  }

  lemma ReadAppHeaderBack(w: seq<byte>, p: nat, appid: u16, length: u16)
    requires At(w, p, Be16(appid) + Be16(length) + [0, 0, 0, 0])
    ensures AppHeaderAt(w, p) == Got((appid, length), p + 8)
  {
    AtThree(w, p, Be16(appid), Be16(length), [0, 0, 0, 0]);
    ReadU16Back(w, p, appid);
    ReadU16Back(w, p + 2, length);
  }

  lemma ReadL2HeaderBack(w: seq<byte>, p: FrameParams)
    requires At(w, 0, L2Header(p))
    ensures L2HeaderAt(w, 0) == Got((p.dstMac, p.srcMac), |L2Header(p)|)
  {
    var tag := if p.vlan.Some? then Be16(TPID_8021Q) + Be16(Tci(p.vlan.value)) else [];
    AtThree(w, 0, p.dstMac + p.srcMac, tag, Be16(ETHERTYPE_SV));
    AtBoth(w, 0, p.dstMac, p.srcMac);
    if p.vlan.Some? {
      AtBoth(w, 12, Be16(TPID_8021Q), Be16(Tci(p.vlan.value)));
      ReadU16Back(w, 12, TPID_8021Q);
      ReadU16Back(w, 14, Tci(p.vlan.value));
      ReadU16Back(w, 16, ETHERTYPE_SV);
    } else {
      ReadU16Back(w, 12, ETHERTYPE_SV);
    }
    hide Be16, FromBe16, Tci, At;
  }

  /** What an encoded frame decodes to. The identifier and every field come back; Length and noASDU are the frame's. */
  function Expected(p: FrameParams, a: Asdu): DecodedFrame
    requires E.AppSize(a) < 0x1_0000
  {
    DecodedFrame(p.dstMac, p.srcMac, p.appid, E.AppSize(a), 1, a)
  }

  lemma ReadFrameBack(p: FrameParams, a: Asdu)
    requires E.AppSize(a) < 0x1_0000
    ensures FrameAt(Frame(p, a), 0) == Got(Expected(p, a), |Frame(p, a)|)
  {
    E.Sizes(p, a);
    FrameInParts(p, a);
    hide Frame, L2Header, E.FieldsSize, E.AppSize, E.FieldsHead, E.FieldsTail;
    ReadPartsBack(Frame(p, a), p, a, |L2Header(p)|, |E.FieldsHead(a)|, E.FieldsSize(a), E.AppSize(a));
  }

  lemma ReadPartsBack(w: seq<byte>, p: FrameParams, a: Asdu, k: nat, m: nat, n: nat, length: u16)
    requires n + 11 < 0x1_0000 && |a.svId| < 0x1_0000 && k == |L2Header(p)| && m == |E.FieldsHead(a)|
    requires At(w, 0, L2Header(p)) && At(w, k, AppHeader(p.appid, length)) && At(w, k + 8, SavPduHead(n))
    requires At(w, k + 23, E.FieldsHead(a)) && At(w, k + 23 + m, E.FieldsTail(a))
    ensures FrameAt(w, 0)
         == Got(DecodedFrame(p.dstMac, p.srcMac, p.appid, length, 1, a), k + 23 + m + |E.FieldsTail(a)|)
  {
    hide At, L2Header, E.FieldsHead, E.FieldsTail, Be16, FrameAt, L2HeaderAt, AppHeaderAt, SavPduHeadAt;
    hide AsduHeadAt, AsduTailAt;
    ReadL2HeaderBack(w, p);
    ReadAppHeaderBack(w, k, p.appid, length);
    ReadSavPduHeadBack(w, k + 8, n + 11, n + 4, n);
    ReadAsduHeadBack(w, k + 23, a);
    ReadAsduTailBack(w, k + 23 + m, a);
    Assemble(w, k, k + 8, k + 23, k + 23 + m, k + 23 + m + |E.FieldsTail(a)|,
             DecodedFrame(p.dstMac, p.srcMac, p.appid, length, 1, a));
  }

  /** The decoder's result, given what its five parts read. */
  lemma Assemble(w: seq<byte>, p0: nat, p1: nat, p2: nat, p3: nat, p4: nat, f: DecodedFrame)
    requires L2HeaderAt(w, 0) == Got((f.dstMac, f.srcMac), p0)
    requires AppHeaderAt(w, p0) == Got((f.appid, f.length), p1)
    requires SavPduHeadAt(w, p1) == Got(f.noAsdu, p2)
    requires AsduHeadAt(w, p2) == Got(AsduHead(f.asdu.svId, f.asdu.smpCnt, f.asdu.confRev), p3)
    requires AsduTailAt(w, p3) == Got(AsduTail(f.asdu.smpSynch, f.asdu.smpRate, f.asdu.samples), p4)
    ensures FrameAt(w, 0) == Got(f, p4)
  {
    hide L2HeaderAt, AppHeaderAt, SavPduHeadAt, AsduHeadAt, AsduTailAt;
  }

  function AppHeader(appid: u16, length: u16): (r: seq<byte>)
    ensures |r| == 8
  {
    Be16(appid) + Be16(length) + [0, 0, 0, 0]
  }

  function SavPduHead(n: nat): (r: seq<byte>)
    requires n + 11 < 0x1_0000
    ensures |r| == 15
  {
    [0x60, 0x82] + Be16(n + 11) + ([0x80, 1, 1, 0xA2, 0x82] + Be16(n + 4) + [0x30, 0x82] + Be16(n))
  }

  /** Where each part of an encoded frame lies. */
  lemma FrameInParts(p: FrameParams, a: Asdu)
    requires E.AppSize(a) < 0x1_0000 && E.FieldsSize(a) + 11 < 0x1_0000
    ensures var w, k, n := Frame(p, a), |L2Header(p)|, |E.FieldsHead(a)|;
            && |w| == k + 23 + n + |E.FieldsTail(a)|
            && At(w, 0, L2Header(p))
            && At(w, k, AppHeader(p.appid, E.AppSize(a)))
            && At(w, k + 8, SavPduHead(E.FieldsSize(a)))
            && At(w, k + 23, E.FieldsHead(a))
            && At(w, k + 23 + n, E.FieldsTail(a))
  {
    FrameIsParts(p, a);
    hide Frame, L2Header, AppHeader, SavPduHead, E.FieldsSize, E.AppSize, E.FieldsHead, E.FieldsTail, At;
    FiveParts(Frame(p, a), L2Header(p), AppHeader(p.appid, E.AppSize(a)), SavPduHead(E.FieldsSize(a)),
              E.FieldsHead(a), E.FieldsTail(a));
  }

  lemma FrameIsParts(p: FrameParams, a: Asdu)
    requires E.AppSize(a) < 0x1_0000 && E.FieldsSize(a) + 11 < 0x1_0000
    ensures Frame(p, a) == L2Header(p) + AppHeader(p.appid, E.AppSize(a)) + SavPduHead(E.FieldsSize(a))
                           + E.FieldsHead(a) + E.FieldsTail(a)
  {
    var n := E.FieldsSize(a);
    E.FieldsAre(a);
    E.FrameIs(p, a);
    hide Frame, L2Header, Be16, E.FieldsSize, E.AppSize, E.Fields, E.FieldsHead, E.FieldsTail;
    FrameParts(L2Header(p), Be16(p.appid), Be16(E.AppSize(a)), Be16(n + 11), Be16(n + 4), Be16(n),
               E.FieldsHead(a), E.FieldsTail(a), E.InSavPdu(a), AppHeader(p.appid, E.AppSize(a)), SavPduHead(n));
  }

  lemma FiveParts(w: seq<byte>, a: seq<byte>, b: seq<byte>, c: seq<byte>, d: seq<byte>, e: seq<byte>)
    requires w == a + b + c + d + e
    ensures At(w, 0, a) && At(w, |a|, b) && At(w, |a| + |b|, c) && At(w, |a| + |b| + |c|, d)
    ensures At(w, |a| + |b| + |c| + |d|, e)
  {
  }

  lemma FrameParts(h: seq<byte>, b0: seq<byte>, b1: seq<byte>, b2: seq<byte>, b3: seq<byte>, b4: seq<byte>,
                   f: seq<byte>, t: seq<byte>, inner: seq<byte>, app: seq<byte>, head: seq<byte>)
    requires inner == [0x80, 1, 1, 0xA2, 0x82] + b3 + [0x30, 0x82] + b4 + (f + t)
    requires app == b0 + b1 + [0, 0, 0, 0]
    requires head == [0x60, 0x82] + b2 + ([0x80, 1, 1, 0xA2, 0x82] + b3 + [0x30, 0x82] + b4)
    ensures (h + b0) + b1 + [0, 0, 0, 0, 0x60, 0x82] + b2 + inner == h + app + head + f + t
  {
    var x := [0x80, 1, 1, 0xA2, 0x82] + b3 + [0x30, 0x82] + b4;
    assert inner == x + f + t;
    E.Blocks();
    Joined(h, b0, b1, [0, 0, 0, 0], [0x60, 0x82], b2, x, f, t);
  }

  lemma Joined(h: seq<byte>, b0: seq<byte>, b1: seq<byte>, z: seq<byte>, u: seq<byte>, b2: seq<byte>, x: seq<byte>,
               f: seq<byte>, t: seq<byte>)
    ensures (h + b0) + b1 + (z + u) + b2 + (x + f + t) == h + (b0 + b1 + z) + (u + b2 + x) + f + t
  {
  }

  /** Encoding and decoding are inverse: whenever the encoder succeeds, decoding what it wrote gives everything back. */
  lemma RoundTrip(p: FrameParams, a: Asdu, available: nat)
    requires E.FirstProblem(p, a, available) == E.NoProblem
    ensures Decoded(Frame(p, a)) == Ok(Expected(p, a))
  {
    E.SucceedsIffFits(p, a, available);
    ReadFrameBack(p, a);
  }

  /** Cutting an encoded frame anywhere leaves something that is recognised as cut short. */
  lemma StrictPrefixIsTruncated(p: FrameParams, a: Asdu, n: nat)
    requires E.AppSize(a) < 0x1_0000 && n < |Frame(p, a)|
    ensures Decoded(Frame(p, a)[..n]) == Err(Truncated)
  {
    var f := Frame(p, a);
    ReadFrameBack(p, a);
    assert Embeds(f, f[..n], 0);
    LocalFrame(f, f[..n], 0, 0);
    hide Frame, FrameAt, E.AppSize;
  }

  /** The stripped form of an encoded frame decodes to the same fields with zero addresses. */
  lemma StrippedRoundTrip(p: FrameParams, a: Asdu)
    requires E.AppSize(a) < 0x1_0000
    ensures DecodedStripped(AppFrame(p.appid, a)) == Ok(Expected(p, a).(dstMac := ZERO_MAC, srcMac := ZERO_MAC))
  {
    var f := Frame(p, a);
    ReadFrameBack(p, a);
    assert At(f, 0, L2Header(p));
    ReadL2HeaderBack(f, p);
    assert f[|L2Header(p)|..] == AppFrame(p.appid, a);
    StrippedAgrees(f);
  }
}
