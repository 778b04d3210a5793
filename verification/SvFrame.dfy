/** Sampled-value frames: their fields, and the octets a simple recursive BER serializer gives them. */
module SvFrame {
  import opened Bytes
  import opened Options

  const TPID_8021Q: u16 := 0x8100
  const ETHERTYPE_SV: u16 := 0x88BA
  const NUM_CHANNELS := 8
  const SAMPLE_PAYLOAD_BYTES := 64

  /** The frame buffer the publisher allocates. */
  const MAX_FRAME_BYTES := 320

  datatype ChannelSample = ChannelSample(value: i32, quality: u32)

  type Channels = s: seq<ChannelSample> | |s| == NUM_CHANNELS
    witness seq(NUM_CHANNELS, _ => ChannelSample(0, 0))

  type Mac = s: seq<byte> | |s| == 6 witness [0, 0, 0, 0, 0, 0]

  datatype VlanTag = VlanTag(pcp: byte, dei: byte, vid: u16)

  /** The tag control word: priority, drop eligibility, VLAN id. */
  function Tci(tag: VlanTag): u16
  {
    (tag.pcp % 8) * 0x2000 + (tag.dei % 2) * 0x1000 + tag.vid % 0x1000
  }

  datatype FrameParams = FrameParams(dstMac: Mac, srcMac: Mac, appid: u16, vlan: Option<VlanTag>)

  /** One ASDU. The identifier is the octets of the program's string. */
  datatype Asdu = Asdu(
    svId: seq<byte>, smpCnt: u16, confRev: u32, smpSynch: byte, smpRate: u16, samples: Channels)

  datatype DecodedFrame = DecodedFrame(
    dstMac: Mac, srcMac: Mac, appid: u16, length: u16, noAsdu: u16, asdu: Asdu)

  // ---- Channel payload ----

  function PackOf(channels: seq<ChannelSample>): (r: seq<byte>)
    ensures |r| == 8 * |channels|
  {
    if channels == [] then []
    else Be32(AsU32(channels[0].value)) + Be32(channels[0].quality) + PackOf(channels[1..])
  }

  function UnpackOf(bytes: seq<byte>, n: nat): (r: seq<ChannelSample>)
    requires |bytes| == 8 * n
    ensures |r| == n
  {
    if n == 0 then []
    else [ChannelSample(AsI32(FromBe32(bytes[..4])), FromBe32(bytes[4..8]))] + UnpackOf(bytes[8..], n - 1)
  }

  lemma {:induction false} UnpackPack(channels: seq<ChannelSample>)
    ensures UnpackOf(PackOf(channels), |channels|) == channels
  {
    if channels == [] {
    } else {
      var c, p := channels[0], PackOf(channels);
      assert p[..4] == Be32(AsU32(c.value)) && p[4..8] == Be32(c.quality) && p[8..] == PackOf(channels[1..]);
      Be32RoundTrip(AsU32(c.value));
      Be32RoundTrip(c.quality);
      UnpackPack(channels[1..]);
    }
  }

  lemma {:induction false} PackUnpack(bytes: seq<byte>, n: nat)
    requires |bytes| == 8 * n
    ensures PackOf(UnpackOf(bytes, n)) == bytes
  {
    if n > 0 {
      PackUnpack(bytes[8..], n - 1);
      assert bytes == bytes[..4] + bytes[4..8] + bytes[8..];
    }
  }

  // ---- BER ----

  /** The content octets of a BER INTEGER holding a 16-bit unsigned value. */
  function IntU16(value: u16): (r: seq<byte>)
    ensures 1 <= |r| <= 3
  {
    if value < 0x80 then [value]
    else if value < 0x8000 then [value / 0x100, value % 0x100]
    else [0, value / 0x100, value % 0x100]
  }

  function Power256(n: nat): (r: nat)
    ensures r > 0
  {
    if n == 0 then 1 else 0x100 * Power256(n - 1)
  }

  /** The two's-complement value of content octets (section 8.3.3 of ITU-T X.690). */
  function TwosComplement(bytes: seq<byte>): int
    requires bytes != []
  {
    if bytes[0] < 0x80 then BigEndian(bytes) else BigEndian(bytes) - Power256(|bytes|)
  }

  /** The first nine bits are neither all zero nor all one (section 8.3.2 of ITU-T X.690). */
  predicate MinimalContents(bytes: seq<byte>)
  {
    |bytes| == 1 || (|bytes| > 1 && !(bytes[0] == 0 && bytes[1] < 0x80) && !(bytes[0] == 0xFF && bytes[1] >= 0x80))
  }

  lemma {:induction false} BigEndianCons(x: byte, rest: seq<byte>)
    ensures BigEndian([x] + rest) == x * Power256(|rest|) + BigEndian(rest)
    decreases |rest|
  {
    var s := [x] + rest;
    if rest == [] {
      assert s[..0] == [];
    } else {
      var n := |rest| - 1;
      assert s[..n + 1] == [x] + rest[..n];
      BigEndianCons(x, rest[..n]);
      assert (x * Power256(n) + BigEndian(rest[..n])) * 0x100 == x * Power256(n + 1) + BigEndian(rest[..n]) * 0x100;
    }
  }

  lemma {:induction false} BigEndianBound(bytes: seq<byte>)
    ensures BigEndian(bytes) < Power256(|bytes|)
  {
    if bytes != [] {
      BigEndianBound(bytes[..|bytes| - 1]);
    }
  }

  lemma BigEndianShort(x: byte, y: byte, z: byte)
    ensures BigEndian([x]) == x && BigEndian([x, y]) == x * 0x100 + y
    ensures BigEndian([x, y, z]) == x * 0x1_0000 + y * 0x100 + z
  {
    assert [x][..0] == [] && [x, y][..1] == [x] && [x, y, z][..2] == [x, y];
  }

  /** `IntU16` gives the contents X.690 requires of an INTEGER: octets of the right value ... */
  lemma IntU16Contents(value: u16)
    ensures TwosComplement(IntU16(value)) == value && MinimalContents(IntU16(value))
    ensures BigEndian(IntU16(value)) == value
  {
    BigEndianShort(value % 0x100, 0, 0);
    BigEndianShort(value / 0x100, value % 0x100, 0);
    BigEndianShort(0, value / 0x100, value % 0x100);
  }

  /** ... and the only minimal ones of that value. */
  lemma IntU16Unique(value: u16, c: seq<byte>)
    requires MinimalContents(c) && TwosComplement(c) == value
    ensures c == IntU16(value)
  {
    NotNegative(c);
    if |c| == 1 {
      BigEndianShort(c[0], 0, 0);
      assert c == [c[0]];
    } else {
      MinimalIsShort(c, value);
      ShortContents(c, value);
    }
  }

  lemma NotNegative(c: seq<byte>)
    requires c != [] && TwosComplement(c) >= 0
    ensures c[0] < 0x80 && BigEndian(c) == TwosComplement(c)
  {
    BigEndianBound(c);
    hide BigEndian, Power256;
  }

  lemma ShortContents(c: seq<byte>, value: u16)
    requires 2 <= |c| <= 3 && c[0] < 0x80 && BigEndian(c) == value && !(c[0] == 0 && c[1] < 0x80)
    requires |c| == 3 ==> value >= 0x8000
    ensures c == IntU16(value)
  {
    hide BigEndian;
    if |c| == 2 {
      BigEndianShort(c[0], c[1], 0);
      assert c == [c[0], c[1]];
    } else {
      BigEndianShort(c[0], c[1], c[2]);
      assert c == [c[0], c[1], c[2]];
    }
  }

  /** Minimal contents of two or more octets: no more than three, and no more than the value needs. */
  lemma MinimalIsShort(c: seq<byte>, value: u16)
    requires |c| >= 2 && c[0] < 0x80 && BigEndian(c) == value && !(c[0] == 0 && c[1] < 0x80)
    ensures |c| <= 3 && value >= 0x80 && (|c| == 3 ==> value >= 0x8000)
  {
    hide BigEndian, Power256;
    var rest := c[1..];
    var tail := rest[1..];
    assert c == [c[0]] + rest && rest == [rest[0]] + tail;
    BigEndianCons(c[0], rest);
    BigEndianCons(rest[0], tail);
    NextPower(|tail|);
    LargeContents(c[0], rest[0], Power256(|tail|), BigEndian(tail), value);
    PowerLarge(|tail|);
  }

  lemma NextPower(n: nat)
    ensures Power256(n + 1) == 0x100 * Power256(n) && Power256(0) == 1 && Power256(1) == 0x100
  {
  }

  lemma PowerLarge(n: nat)
    ensures n >= 2 ==> Power256(n) >= 0x1_0000
  {
  }

  lemma LargeContents(x: byte, y: byte, power: nat, low: nat, value: nat)
    requires !(x == 0 && y < 0x80)
    requires value == x * (0x100 * power) + (y * power + low)
    ensures value >= 0x80 * power
  {
    if x > 0 {
      MulAtLeast(x, 1, 0x100 * power);
      MulAtLeast(y, 0, power);
    } else {
      MulAtLeast(y, 0x80, power);
    }
  }

  lemma MulAtLeast(k: nat, m: nat, p: nat)
    requires k >= m
    ensures k * p >= m * p
  {
  }

  /** Length octets (section 8.1.3 of ITU-T X.690): the short form below 128, else two octets after 0x82. */
  function LengthOctets(n: nat): (r: seq<byte>)
    ensures |r| == if n < 128 then 1 else 3
  {
    if n < 128 then [n] else [0x82] + Be16(n % 0x1_0000)
  }

  function PrimitiveOctets(tag: byte, value: seq<byte>): (r: seq<byte>)
    ensures |r| == 1 + |LengthOctets(|value|)| + |value|
  {
    [tag] + LengthOctets(|value|) + value
  }

  datatype Tlv =
    | Primitive(tag: byte, value: seq<byte>)
    | Constructed(tag: byte, children: seq<Tlv>)

  /** Constructed elements always use the two-octet long form. */
  function Serialize(t: Tlv): seq<byte>
  {
    match t
    case Primitive(tag, value) => PrimitiveOctets(tag, value)
    case Constructed(tag, children) =>
      var body := SerializeAll(children);
      [tag, 0x82] + Be16(|body| % 0x1_0000) + body
  }

  function SerializeAll(ts: seq<Tlv>): seq<byte>
  {
    if ts == [] then [] else Serialize(ts[0]) + SerializeAll(ts[1..])
  }

  // ---- The frame ----

  function AsduTlv(a: Asdu): Tlv
  {
    Constructed(0x30, [
      Primitive(0x80, a.svId),
      Primitive(0x82, Be16(a.smpCnt)),
      Primitive(0x83, Be32(a.confRev)),
      Primitive(0x85, [a.smpSynch]),
      Primitive(0x86, IntU16(a.smpRate)),
      Primitive(0x87, PackOf(a.samples))])
  }

  function SavPdu(a: Asdu): Tlv
  {
    Constructed(0x60, [Primitive(0x80, IntU16(1)), Constructed(0xA2, [AsduTlv(a)])])
  }

  function L2Header(p: FrameParams): (r: seq<byte>)
    ensures |r| == if p.vlan.Some? then 18 else 14
  {
    p.dstMac + p.srcMac
    + (if p.vlan.Some? then Be16(TPID_8021Q) + Be16(Tci(p.vlan.value)) else [])
    + Be16(ETHERTYPE_SV)
  }

  /** The part of the frame after the L2 header: APPID, Length, two reserved words, savPdu. */
  function AppFrame(appid: u16, a: Asdu): seq<byte>
  {
    var body := Serialize(SavPdu(a));
    Be16(appid) + Be16((8 + |body|) % 0x1_0000) + [0, 0, 0, 0] + body
  }

  function Frame(p: FrameParams, a: Asdu): seq<byte>
  {
    L2Header(p) + AppFrame(p.appid, a)
  }
}
