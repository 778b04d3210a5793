/** The frame decoder: a position-tracking reader, and what it makes of any octet string. */
module SvDecoder {
  import opened Bytes
  import opened SvFrame

  datatype DecodeError =
    | Truncated
    | UnexpectedTag(found: byte, expected: byte)
    | NotSvFrame(ethertype: u16)
    | UnsupportedLengthForm(first: byte)
    | BadSize(expectedSize: nat, actualSize: nat)

  datatype Result<+T> = Ok(value: T) | Err(error: DecodeError) {
    predicate IsFailure() {
      Err?
    }
    function PropagateFailure<U>(): Result<U>
      requires Err?
    {
      Err(error)
    }
    function Extract(): T
      requires Ok?
    {
      value
    }
  }

  /** Reading at a position: a value and the position after it, or an error. */
  datatype Parsed<+T> = Got(value: T, pos: nat) | Stop(error: DecodeError) {
    predicate IsFailure() {
      Stop?
    }
    function PropagateFailure<U>(): Parsed<U>
      requires Stop?
    {
      Stop(error)
    }
    function Extract(): (T, nat)
      requires Got?
    {
      (value, pos)
    }
  }

  function U8At(buf: seq<byte>, pos: nat): (r: Parsed<byte>)
    ensures r.Got? ==> r.pos <= |buf|
  {
    if pos < |buf| then Got(buf[pos], pos + 1) else Stop(Truncated)
  }

  function BytesAt(buf: seq<byte>, pos: nat, n: nat): (r: Parsed<seq<byte>>)
    ensures r.Got? ==> r.pos <= |buf| && |r.value| == n
  {
    if pos + n <= |buf| then Got(buf[pos..pos + n], pos + n) else Stop(Truncated)
  }

  function U16At(buf: seq<byte>, pos: nat): (r: Parsed<u16>)
    ensures r.Got? ==> r.pos <= |buf|
  {
    if pos + 2 <= |buf| then Got(FromBe16(buf[pos..pos + 2]), pos + 2) else Stop(Truncated)
  }

  /** A BER length: the short form, or the long form with one or two octets. */
  function LengthAt(buf: seq<byte>, pos: nat): (r: Parsed<nat>)
    ensures r.Got? ==> r.pos <= |buf|
  {
    var (first, p) :- U8At(buf, pos);
    if first < 0x80 then Got(first, p)
    else if first == 0x81 then U8At(buf, p)
    else if first == 0x82 then U16At(buf, p)
    else Stop(UnsupportedLengthForm(first))
  }

  function TagAt(buf: seq<byte>, pos: nat, expected: byte): (r: Parsed<()>)
    ensures r.Got? ==> r.pos <= |buf|
  {
    var (found, p) :- U8At(buf, pos);
    if found == expected then Got((), p) else Stop(UnexpectedTag(found, expected))
  }

  function TlvAt(buf: seq<byte>, pos: nat, tag: byte): (r: Parsed<seq<byte>>)
    ensures r.Got? ==> r.pos <= |buf|
  {
    var (_, p) :- TagAt(buf, pos, tag);
    var (n, q) :- LengthAt(buf, p);
    BytesAt(buf, q, n)
  }

  function SizedTlvAt(buf: seq<byte>, pos: nat, tag: byte, size: nat): (r: Parsed<seq<byte>>)
    ensures r.Got? ==> r.pos <= |buf| && |r.value| == size
  {
    var (v, p) :- TlvAt(buf, pos, tag);
    if |v| == size then Got(v, p) else Stop(BadSize(size, |v|))
  }

  /** A constructed element's tag and length; the length is read and ignored. */
  function HeaderAt(buf: seq<byte>, pos: nat, tag: byte): (r: Parsed<()>)
    ensures r.Got? ==> r.pos <= |buf|
  {
    var (_, p) :- TagAt(buf, pos, tag);
    var (_, q) :- LengthAt(buf, p);
    Got((), q)
  }

  /** The accumulating loop over content octets, in 32-bit arithmetic. */
  function DecodedInt(bytes: seq<byte>): u32
  {
    BigEndian(bytes) % 0x1_0000_0000
  }

  /** APPID and Length, then two reserved words. */
  function AppHeaderAt(buf: seq<byte>, pos: nat): (r: Parsed<(u16, u16)>)
    ensures r.Got? ==> r.pos <= |buf|
  {
    var (appid, p1) :- U16At(buf, pos);
    var (length, p2) :- U16At(buf, p1);
    var (_, p3) :- U16At(buf, p2);
    var (_, p4) :- U16At(buf, p3);
    Got((appid, length), p4)
  }

  /** Everything from the savPdu tag to the first ASDU's contents; the value is noASDU. */
  function SavPduHeadAt(buf: seq<byte>, pos: nat): (r: Parsed<u16>)
    ensures r.Got? ==> r.pos <= |buf|
  {
    var (_, p1) :- HeaderAt(buf, pos, 0x60);
    var (noAsdu, p2) :- TlvAt(buf, p1, 0x80);
    var (_, p3) :- HeaderAt(buf, p2, 0xA2);
    var (_, p4) :- HeaderAt(buf, p3, 0x30);
    Got(DecodedInt(noAsdu) % 0x1_0000, p4)
  }

  datatype AsduHead = AsduHead(svId: seq<byte>, smpCnt: u16, confRev: u32)

  function AsduHeadAt(buf: seq<byte>, pos: nat): (r: Parsed<AsduHead>)
    ensures r.Got? ==> r.pos <= |buf|
  {
    var (svId, p1) :- TlvAt(buf, pos, 0x80);
    var (smpCnt, p2) :- SizedTlvAt(buf, p1, 0x82, 2);
    var (confRev, p3) :- SizedTlvAt(buf, p2, 0x83, 4);
    Got(AsduHead(svId, FromBe16(smpCnt), FromBe32(confRev)), p3)
  }

  datatype AsduTail = AsduTail(smpSynch: byte, smpRate: u16, samples: Channels)

  function AsduTailAt(buf: seq<byte>, pos: nat): (r: Parsed<AsduTail>)
    ensures r.Got? ==> r.pos <= |buf|
  {
    var (smpSynch, p1) :- SizedTlvAt(buf, pos, 0x85, 1);
    var (smpRate, p2) :- TlvAt(buf, p1, 0x86);
    var (samples, p3) :- SizedTlvAt(buf, p2, 0x87, SAMPLE_PAYLOAD_BYTES);
    Got(AsduTail(smpSynch[0], DecodedInt(smpRate) % 0x1_0000, UnpackOf(samples, NUM_CHANNELS)), p3)
  }

  /** A frame from its APPID on, with the MAC addresses supplied by the caller. */
  function AppFrameAt(buf: seq<byte>, pos: nat, dstMac: Mac, srcMac: Mac): (r: Parsed<DecodedFrame>)
    ensures r.Got? ==> r.pos <= |buf|
  {
    var (ids, p1) :- AppHeaderAt(buf, pos);
    var (noAsdu, p2) :- SavPduHeadAt(buf, p1);
    var (head, p3) :- AsduHeadAt(buf, p2);
    var (tail, p4) :- AsduTailAt(buf, p3);
    Got(DecodedFrame(dstMac, srcMac, ids.0, ids.1, noAsdu,
                     Asdu(head.svId, head.smpCnt, head.confRev, tail.smpSynch, tail.smpRate, tail.samples)), p4)
  }

  /** The L2 header: two MAC addresses, an optional VLAN tag that is skipped, the SV EtherType. */
  function L2HeaderAt(buf: seq<byte>, pos: nat): (r: Parsed<(Mac, Mac)>)
    ensures r.Got? ==> r.pos <= |buf|
  {
    var (dst, p1) :- BytesAt(buf, pos, 6);
    var (src, p2) :- BytesAt(buf, p1, 6);
    var (outer, p3) :- U16At(buf, p2);
    if outer == TPID_8021Q then
      var (_, p4) :- U16At(buf, p3);
      var (inner, p5) :- U16At(buf, p4);
      if inner != ETHERTYPE_SV then Stop(NotSvFrame(inner)) else Got((dst, src), p5)
    else if outer != ETHERTYPE_SV then Stop(NotSvFrame(outer))
    else Got((dst, src), p3)
  }

  function FrameAt(buf: seq<byte>, pos: nat): (r: Parsed<DecodedFrame>)
    ensures r.Got? ==> r.pos <= |buf|
  {
    var (macs, p) :- L2HeaderAt(buf, pos);
    AppFrameAt(buf, p, macs.0, macs.1)
  }

  function Outcome<T>(p: Parsed<T>): Result<T>
  {
    match p
    case Got(v, _) => Ok(v)
    case Stop(e) => Err(e)
  }

  const ZERO_MAC: Mac := [0, 0, 0, 0, 0, 0]

  /** What decoding a whole frame, and one whose L2 header was stripped, comes to. */
  function Decoded(buf: seq<byte>): Result<DecodedFrame>
  {
    Outcome(FrameAt(buf, 0))
  }

  function DecodedStripped(buf: seq<byte>): Result<DecodedFrame>
  {
    Outcome(AppFrameAt(buf, 0, ZERO_MAC, ZERO_MAC))
  }

  // ---- The reader ----

  /** A method that read at some position agrees with the pure reading of that position. */
  predicate Agrees<T(==)>(r: Result<T>, pos: nat, p: Parsed<T>)
  {
    match p
    case Got(v, q) => r == Ok(v) && pos == q
    case Stop(e) => r == Err(e)
  }

  class Reader {
    const buf: seq<byte>
    var pos: nat

    constructor (buf: seq<byte>)
      ensures this.buf == buf && pos == 0
    {
      this.buf := buf;
      pos := 0;
    }

    method ReadU8() returns (r: Result<byte>)
      modifies this
      ensures Agrees(r, pos, U8At(buf, old(pos)))
    {
      if pos >= |buf| {
        return Err(Truncated);
      }
      r := Ok(buf[pos]);
      pos := pos + 1;
    }

    method ReadU16Be() returns (r: Result<u16>)
      modifies this
      ensures Agrees(r, pos, U16At(buf, old(pos)))
    {
      if pos + 2 > |buf| {
        return Err(Truncated);
      }
      r := Ok(FromBe16(buf[pos..pos + 2]));
      pos := pos + 2;
    }

    method ReadBytes(n: nat) returns (r: Result<seq<byte>>)
      modifies this
      ensures Agrees(r, pos, BytesAt(buf, old(pos), n))
    {
      if pos + n > |buf| {
        return Err(Truncated);
      }
      r := Ok(buf[pos..pos + n]);
      pos := pos + n;
    }

    method ReadBerLength() returns (r: Result<nat>)
      modifies this
      ensures Agrees(r, pos, LengthAt(buf, old(pos)))
    {
      var first :- ReadU8();
      if first < 0x80 {
        r := Ok(first);
      } else if first == 0x81 {
        var n :- ReadU8();
        r := Ok(n);
      } else if first == 0x82 {
        var n :- ReadU16Be();
        r := Ok(n);
      } else {
        r := Err(UnsupportedLengthForm(first));
      }
    }

    method ExpectTag(expected: byte) returns (r: Result<()>)
      modifies this
      ensures Agrees(r, pos, TagAt(buf, old(pos), expected))
    {
      var found :- ReadU8();
      if found != expected {
        return Err(UnexpectedTag(found, expected));
      }
      r := Ok(());
    }

    method ReadTlv(tag: byte) returns (r: Result<seq<byte>>)
      modifies this
      ensures Agrees(r, pos, TlvAt(buf, old(pos), tag))
    {
      var _ :- ExpectTag(tag);
      var n :- ReadBerLength();
      r := ReadBytes(n);
    }

    /** An octet string of a fixed size. */
    method ReadSizedTlv(tag: byte, size: nat) returns (r: Result<seq<byte>>)
      modifies this
      ensures Agrees(r, pos, SizedTlvAt(buf, old(pos), tag, size))
    {
      var v :- ReadTlv(tag);
      if |v| != size {
        return Err(BadSize(size, |v|));
      }
      r := Ok(v);
    }

    method SkipHeader(tag: byte) returns (r: Result<()>)
      modifies this
      ensures Agrees(r, pos, HeaderAt(buf, old(pos), tag))
    {
      var _ :- ExpectTag(tag);
      var _ :- ReadBerLength();
      r := Ok(());
    }

    /** The savPdu part of the decoder, shared by both entry points. */
    method DecodeSavPdu(dstMac: Mac, srcMac: Mac) returns (r: Result<DecodedFrame>)
      modifies this
      ensures Agrees(r, pos, AppFrameAt(buf, old(pos), dstMac, srcMac))
    {
      var ids :- DecodeAppHeader();
      var noAsdu :- DecodeSavPduHead();
      var head :- DecodeAsduHead();
      var tail :- DecodeAsduTail();
      r := Ok(DecodedFrame(dstMac, srcMac, ids.0, ids.1, noAsdu,
                           Asdu(head.svId, head.smpCnt, head.confRev, tail.smpSynch, tail.smpRate, tail.samples)));
    }

    method DecodeAppHeader() returns (r: Result<(u16, u16)>)
      modifies this
      ensures Agrees(r, pos, AppHeaderAt(buf, old(pos)))
    {
      var appid :- ReadU16Be();
      var length :- ReadU16Be();
      var _ :- ReadU16Be();
      var _ :- ReadU16Be();
      r := Ok((appid, length));
    }

    method DecodeSavPduHead() returns (r: Result<u16>)
      modifies this
      ensures Agrees(r, pos, SavPduHeadAt(buf, old(pos)))
    {
      var _ :- SkipHeader(0x60);
      var noAsduBytes :- ReadTlv(0x80);
      var noAsdu := DecodeInt(noAsduBytes);
      var _ :- SkipHeader(0xA2);
      var _ :- SkipHeader(0x30);
      r := Ok(noAsdu % 0x1_0000);
    }

    method DecodeAsduHead() returns (r: Result<AsduHead>)
      modifies this
      ensures Agrees(r, pos, AsduHeadAt(buf, old(pos)))
    {
      var svId :- ReadTlv(0x80);
      var smpCnt :- ReadSizedTlv(0x82, 2);
      var confRev :- ReadSizedTlv(0x83, 4);
      r := Ok(AsduHead(svId, FromBe16(smpCnt), FromBe32(confRev)));
    }

    method DecodeAsduTail() returns (r: Result<AsduTail>)
      modifies this
      ensures Agrees(r, pos, AsduTailAt(buf, old(pos)))
    {
      var smpSynch :- ReadSizedTlv(0x85, 1);
      var smpRateBytes :- ReadTlv(0x86);
      var smpRate := DecodeInt(smpRateBytes);
      var samples :- ReadSizedTlv(0x87, SAMPLE_PAYLOAD_BYTES);
      var channels := Unpack(samples);
      r := Ok(AsduTail(smpSynch[0], smpRate % 0x1_0000, channels));
    }
  }

  method DecodeInt(bytes: seq<byte>) returns (v: u32)
    ensures v == DecodedInt(bytes)
  {
    v := 0;
    var i := 0;
    while i < |bytes|
      invariant 0 <= i <= |bytes|
      invariant v == DecodedInt(bytes[..i])
    {
      // Shifting a 32-bit word left by eight drops its top octet.
      var wide: int := v;
      assert bytes[..i + 1][..i] == bytes[..i];
      ShiftIn(BigEndian(bytes[..i]), bytes[i]);
      v := (wide * 0x100 + bytes[i]) % 0x1_0000_0000;
      i := i + 1;
    }
    assert bytes[..i] == bytes;
  }

  lemma ShiftIn(v: nat, b: byte)
    ensures ((v % 0x1_0000_0000) * 0x100 + b) % 0x1_0000_0000 == (v * 0x100 + b) % 0x1_0000_0000
  {
    var x := (v % 0x1_0000_0000) * 0x100 + b;
    assert v * 0x100 + b == (v / 0x1_0000_0000 * 0x100) * 0x1_0000_0000 + x;
    SameModulo(x, v / 0x1_0000_0000 * 0x100);
  }

  lemma SameModulo(x: nat, k: nat)
    ensures (k * 0x1_0000_0000 + x) % 0x1_0000_0000 == x % 0x1_0000_0000
  {
    var q, r := x / 0x1_0000_0000, x % 0x1_0000_0000;
    assert k * 0x1_0000_0000 + x == (k + q) * 0x1_0000_0000 + r;
  }

  method Unpack(bytes: seq<byte>) returns (channels: Channels)
    requires |bytes| == SAMPLE_PAYLOAD_BYTES
    ensures channels == UnpackOf(bytes, NUM_CHANNELS)
  {
    hide FromBe32, AsI32, UnpackOf, ChannelAt;
    UnpackNothing(bytes);
    var slots := new ChannelSample[NUM_CHANNELS](_ => ChannelSample(0, 0));
    var i := 0;
    while i < NUM_CHANNELS
      invariant 0 <= i <= NUM_CHANNELS
      invariant slots[..i] + UnpackOf(bytes[8 * i..], NUM_CHANNELS - i) == UnpackOf(bytes, NUM_CHANNELS)
    {
      UnpackNext(bytes, slots[..i], i);
      slots[i] := ChannelAt(bytes, 8 * i);
      assert slots[..i + 1] == slots[..i] + [ChannelAt(bytes, 8 * i)];
      i := i + 1;
    }
    channels := slots[..];
    assert slots[..i] == channels && channels + [] == channels;
  }

  function ChannelAt(bytes: seq<byte>, base: nat): ChannelSample
    requires base + 8 <= |bytes|
  {
    ChannelSample(AsI32(FromBe32(bytes[base..base + 4])), FromBe32(bytes[base + 4..base + 8]))
  }

  lemma UnpackNothing(bytes: seq<byte>)
    requires |bytes| == SAMPLE_PAYLOAD_BYTES
    ensures UnpackOf(bytes[SAMPLE_PAYLOAD_BYTES..], 0) == [] && bytes[0..] == bytes
    ensures [] + UnpackOf(bytes, NUM_CHANNELS) == UnpackOf(bytes, NUM_CHANNELS)
  {
    hide FromBe32, AsI32;
  }

  lemma UnpackNext(bytes: seq<byte>, done: seq<ChannelSample>, i: nat)
    requires |bytes| == SAMPLE_PAYLOAD_BYTES && i < NUM_CHANNELS
    ensures done + UnpackOf(bytes[8 * i..], NUM_CHANNELS - i)
         == done + [ChannelAt(bytes, 8 * i)] + UnpackOf(bytes[8 * (i + 1)..], NUM_CHANNELS - (i + 1))
  {
    var rest := bytes[8 * i..];
    hide FromBe32, AsI32;
    assert rest[..4] == bytes[8 * i..8 * i + 4] && rest[4..8] == bytes[8 * i + 4..8 * i + 8];
    assert rest[8..] == bytes[8 * (i + 1)..];
    var c, later := [ChannelAt(bytes, 8 * i)], UnpackOf(bytes[8 * (i + 1)..], NUM_CHANNELS - (i + 1));
    assert done + (c + later) == done + c + later;
  }

  method DecodeFrame(buf: seq<byte>) returns (r: Result<DecodedFrame>)
    ensures r == Decoded(buf)
  {
    var reader := new Reader(buf);
    var dstMac :- reader.ReadBytes(6);
    var srcMac :- reader.ReadBytes(6);
    var ethertype :- reader.ReadU16Be();
    if ethertype == TPID_8021Q {
      var _ :- reader.ReadU16Be();
      ethertype :- reader.ReadU16Be();
    }
    if ethertype != ETHERTYPE_SV {
      return Err(NotSvFrame(ethertype));
    }
    r := reader.DecodeSavPdu(dstMac, srcMac);
  }

  method DecodeL2StrippedFrame(buf: seq<byte>) returns (r: Result<DecodedFrame>)
    ensures r == DecodedStripped(buf)
  {
    var reader := new Reader(buf);
    r := reader.DecodeSavPdu(ZERO_MAC, ZERO_MAC);
  }
}
