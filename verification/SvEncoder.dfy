/** The frame encoder: a write cursor over a fixed buffer, with lengths reserved first and patched afterwards. */
module SvEncoder {
  import opened Bytes
  import opened SvFrame

  datatype EncodeError =
    | BufferTooSmall(needed: nat, available: nat)
    | LengthExceeds16Bit(length: nat)

  datatype Result<+T> = Ok(value: T) | Err(error: EncodeError) {
    predicate IsFailure() {
      Err?
    }
    function PropagateFailure<U>(): Result<U>
      requires Err?
    {
      Err(error)
    }
    function Extract(): T
      requires Ok?
    {
      value
    }
  }

  function Sum(writes: seq<nat>): nat
  {
    if writes == [] then 0 else writes[0] + Sum(writes[1..])
  }

  /** Of writes of these sizes, one after the other from `pos` on, where the first one ends that does not fit. */
  function FirstOver(writes: seq<nat>, pos: nat, available: nat): nat
  {
    if writes == [] then pos
    else if pos + writes[0] > available then pos + writes[0]
    else FirstOver(writes[1..], pos + writes[0], available)
  }

  /** The error of the first write that does not fit: how much it needed, and how much there is. */
  predicate NoRoom(e: EncodeError, writes: seq<nat>, pos: nat, available: nat)
  {
    e == BufferTooSmall(FirstOver(writes, pos, available), available)
  }

  lemma {:induction false} SumConcat(a: seq<nat>, b: seq<nat>)
    ensures Sum(a + b) == Sum(a) + Sum(b)
    decreases |a|
  {
    if a == [] {
      assert a + b == b;
    } else {
      assert (a + b)[1..] == a[1..] + b;
      SumConcat(a[1..], b);
    }
  }

  /** The first write that does not fit is among the first ones, or the others start where those end. */
  lemma {:induction false} FirstOverConcat(a: seq<nat>, b: seq<nat>, pos: nat, available: nat)
    requires pos <= available
    ensures FirstOver(a + b, pos, available)
         == if pos + Sum(a) > available then FirstOver(a, pos, available) else FirstOver(b, pos + Sum(a), available)
    decreases |a|
  {
    if a == [] {
      assert a + b == b;
    } else {
      assert (a + b)[1..] == a[1..] + b;
      if pos + a[0] <= available {
        FirstOverConcat(a[1..], b, pos + a[0], available);
      }
    }
  }

  lemma FirstOverThree(a: seq<nat>, b: seq<nat>, c: seq<nat>, pos: nat, available: nat)
    requires pos <= available
    ensures Sum(a + b + c) == Sum(a) + Sum(b) + Sum(c)
    ensures FirstOver(a + b + c, pos, available)
         == if pos + Sum(a) > available then FirstOver(a, pos, available)
            else if pos + Sum(a) + Sum(b) > available then FirstOver(b, pos + Sum(a), available)
            else FirstOver(c, pos + Sum(a) + Sum(b), available)
  {
    SumConcat(a + b, c);
    SumConcat(a, b);
    FirstOverConcat(a + b, c, pos, available);
    FirstOverConcat(a, b, pos, available);
  }

  lemma OneWrite(n: nat, pos: nat, available: nat)
    ensures Sum([n]) == n && FirstOver([n], pos, available) == pos + n
  {
    assert [n][1..] == [];
  }

  lemma TwoWrites(m: nat, n: nat, pos: nat, available: nat)
    ensures Sum([m, n]) == m + n
    ensures FirstOver([m, n], pos, available) == if pos + m > available then pos + m else pos + m + n
  {
    assert [m, n][1..] == [n];
    OneWrite(n, pos + m, available);
  }

  // ---- The writes of an encoder ----

  function LengthWrites(n: nat): seq<nat>
  {
    if n < 128 then [1] else [1, 2]
  }

  /** A primitive element: tag, length octets, value. */
  function TlvWrites(n: nat): seq<nat>
  {
    [1] + LengthWrites(n) + [n]
  }

  function L2Writes(p: FrameParams): seq<nat>
  {
    [6, 6] + (if p.vlan.Some? then [2, 2] else []) + [2]
  }

  function AppHeaderWrites(): seq<nat>
  {
    [2, 2] + [2, 2]
  }

  function SavPduHeadWrites(): seq<nat>
  {
    [1] + [1, 2] + TlvWrites(1)
  }

  function ListHeadWrites(): seq<nat>
  {
    [1] + [1, 2] + ([1] + [1, 2])
  }

  function OpeningWrites(p: FrameParams): seq<nat>
  {
    L2Writes(p) + AppHeaderWrites() + (SavPduHeadWrites() + ListHeadWrites())
  }

  function FieldsHeadWrites(a: Asdu): seq<nat>
  {
    TlvWrites(|a.svId|) + TlvWrites(2) + TlvWrites(4)
  }

  function FieldsTailWrites(a: Asdu): seq<nat>
  {
    TlvWrites(1) + TlvWrites(|IntU16(a.smpRate)|) + TlvWrites(64)
  }

  function FieldsWrites(a: Asdu): seq<nat>
  {
    FieldsHeadWrites(a) + FieldsTailWrites(a)
  }

  /** All of them, in order. */
  function FrameWrites(p: FrameParams, a: Asdu): seq<nat>
  {
    OpeningWrites(p) + FieldsWrites(a)
  }

  lemma TlvOver(n: nat, pos: nat, available: nat)
    requires pos <= available
    ensures Sum(LengthWrites(n)) == |LengthOctets(n)| && Sum(TlvWrites(n)) == 1 + |LengthOctets(n)| + n
    ensures FirstOver(TlvWrites(n), pos, available)
         == if pos + 1 > available then pos + 1
            else if pos + 1 + |LengthOctets(n)| > available then FirstOver(LengthWrites(n), pos + 1, available)
            else pos + 1 + |LengthOctets(n)| + n
  {
    OneWrite(1, pos, available);
    TwoWrites(1, 2, pos + 1, available);
    OneWrite(1, pos + 1, available);
    OneWrite(n, pos + 1 + |LengthOctets(n)|, available);
    FirstOverThree([1], LengthWrites(n), [n], pos, available);
    hide FirstOver, Sum;
  }

  class Cursor {
    const buf: array<byte>
    var pos: nat
    ghost const original: seq<byte>  // the buffer as it was handed over
    ghost var written: seq<byte>  // the octets written so far, patches included

    /** The buffer holds what was written, then what it held before. */
    ghost predicate Valid()
      reads this, buf
    {
      pos == |written| <= |original| && buf[..] == written + original[pos..]
    }

    constructor (buf: array<byte>)
      ensures Valid() && this.buf == buf && pos == 0 && original == buf[..]
    {
      this.buf := buf;
      pos := 0;
      original, written := buf[..], [];
    }

    /** A write succeeds exactly when it fits; it then appends its octets. */
    method Write(bytes: seq<byte>) returns (r: Result<()>)
      requires Valid()
      modifies this, buf
      ensures Valid()
      ensures r == if old(pos) + |bytes| <= |original| then Ok(())
                   else Err(BufferTooSmall(old(pos) + |bytes|, |original|))
      ensures written == old(written) + if r.Ok? then bytes else []
    {
      if buf.Length - pos < |bytes| {
        return Err(BufferTooSmall(pos + |bytes|, buf.Length));
      }
      forall i | 0 <= i < |bytes| {
        buf[pos + i] := bytes[i];
      }
      pos := pos + |bytes|;
      written := written + bytes;
      r := Ok(());
    }

    method WriteU8(b: byte) returns (r: Result<()>)
      requires Valid()
      modifies this, buf
      ensures Valid()
      ensures r == if old(pos) + 1 <= |original| then Ok(()) else Err(BufferTooSmall(old(pos) + 1, |original|))
      ensures written == old(written) + if r.Ok? then [b] else []
    {
      r := Write([b]);
    }

    method WriteU16Be(v: u16) returns (r: Result<()>)
      requires Valid()
      modifies this, buf
      ensures Valid()
      ensures r == if old(pos) + 2 <= |original| then Ok(()) else Err(BufferTooSmall(old(pos) + 2, |original|))
      ensures written == old(written) + if r.Ok? then Be16(v) else []
    {
      r := Write(Be16(v));
    }

    /** Write 0x82 and two zero octets; the result is where those two octets start. */
    method ReserveLength16() returns (r: Result<nat>)
      requires Valid()
      modifies this, buf
      ensures Valid()
      ensures r.Ok? <==> old(pos) + 3 <= |original|
      ensures r.Ok? ==> r.value == old(pos) + 1 && written == old(written) + [0x82, 0, 0]
      ensures r.Err? ==> NoRoom(r.error, [1, 2], old(pos), |original|)
    {
      TwoWrites(1, 2, pos, |original|);
      var _ :- WriteU8(0x82);
      var lenPos := pos;
      var _ :- WriteU16Be(0);
      r := Ok(lenPos);
    }

    /** Overwrite the two octets of a reserved length. */
    method Patch(lenPos: nat, length: u16)
      requires Valid() && lenPos + 2 <= pos
      modifies this`written, buf
      ensures Valid()
      ensures written == PatchAt(old(written), lenPos, length)
    {
      var bytes := Be16(length);
      buf[lenPos] := bytes[0];
      buf[lenPos + 1] := bytes[1];
      written := PatchAt(written, lenPos, length);
    }

    /** Patch a reserved length with the number of octets written since. */
    method PatchLength16(lenPos: nat) returns (r: Result<()>)
      requires Valid() && lenPos + 2 <= pos
      modifies this`written, buf
      ensures Valid()
      ensures r == if pos - (lenPos + 2) < 0x1_0000 then Ok(()) else Err(LengthExceeds16Bit(pos - (lenPos + 2)))
      ensures r.Ok? ==> written == PatchAt(old(written), lenPos, pos - (lenPos + 2))
    {
      var innerLen := pos - (lenPos + 2);
      if innerLen > 0xFFFF {
        return Err(LengthExceeds16Bit(innerLen));
      }
      Patch(lenPos, innerLen);
      r := Ok(());
    }
  }

  lemma InBounds(cur: Cursor)
    requires cur.Valid()
    ensures cur.pos == |cur.written| <= |cur.original|
  {
  }

  /** `w` with the two octets at `at` replaced by a 16-bit length. */
  function PatchAt(w: seq<byte>, at: nat, length: nat): (r: seq<byte>)
    requires at + 2 <= |w| && length < 0x1_0000
    ensures |r| == |w|
  {
    w[..at] + Be16(length) + w[at + 2..]
  }

  /** Write one primitive element, choosing the short or the long length form. */
  method WritePrimitiveTlv(cur: Cursor, tag: byte, value: seq<byte>) returns (r: Result<()>)
    requires cur.Valid()
    modifies cur, cur.buf
    ensures cur.Valid()
    ensures r.Ok? <==> |value| < 0x1_0000 && old(cur.pos) + |PrimitiveOctets(tag, value)| <= |cur.original|
    ensures r.Ok? ==> cur.written == old(cur.written) + PrimitiveOctets(tag, value)
    ensures cur.pos == |cur.written|
    ensures r.Err? ==> if |value| >= 0x1_0000 && old(cur.pos) < |cur.original|
                       then r.error == LengthExceeds16Bit(|value|)
                       else NoRoom(r.error, TlvWrites(|value|), old(cur.pos), |cur.original|)
  {
    TlvOver(|value|, cur.pos, |cur.original|);
    hide FirstOver, Sum;
    var _ :- cur.WriteU8(tag);
    var _ :- WriteLength(cur, |value|);
    var _ :- cur.Write(value);
    r := Ok(());
  }

  method WriteLength(cur: Cursor, length: nat) returns (r: Result<()>)
    requires cur.Valid()
    modifies cur, cur.buf
    ensures cur.Valid()
    ensures r.Ok? <==> length < 0x1_0000 && old(cur.pos) + |LengthOctets(length)| <= |cur.original|
    ensures r.Ok? ==> cur.written == old(cur.written) + LengthOctets(length)
    ensures r.Err? ==> if length >= 0x1_0000 then r.error == LengthExceeds16Bit(length)
                       else NoRoom(r.error, LengthWrites(length), old(cur.pos), |cur.original|)
  {
    OneWrite(1, cur.pos, |cur.original|);
    TwoWrites(1, 2, cur.pos, |cur.original|);
    if length < 128 {
      var _ :- cur.WriteU8(length);
    } else if length <= 0xFFFF {
      var _ :- cur.WriteU8(0x82);
      var _ :- cur.WriteU16Be(length);
    } else {
      return Err(LengthExceeds16Bit(length));
    }
    r := Ok(());
  }

  /** Pack the eight channels into the 64-octet payload. */
  method Pack(channels: Channels, out: array<byte>)
    requires out.Length == SAMPLE_PAYLOAD_BYTES
    modifies out
    ensures out[..] == PackOf(channels)
  {
    var i := 0;
    while i < NUM_CHANNELS
      invariant 0 <= i <= NUM_CHANNELS
      invariant out[..8 * i] + PackOf(channels[i..]) == PackOf(channels)
    {
      PackChannel(channels[i], out, i);
      assert channels[i..][1..] == channels[i + 1..];
      i := i + 1;
    }
  }

  /** The body of the packing loop: two big-endian words at octet 8 * i. */
  method PackChannel(c: ChannelSample, out: array<byte>, i: nat)
    requires 8 * i + 8 <= out.Length
    modifies out
    ensures out[..8 * (i + 1)] == old(out[..8 * i]) + (Be32(AsU32(c.value)) + Be32(c.quality))
  {
    var base := 8 * i;
    var value, quality := Be32(AsU32(c.value)), Be32(c.quality);
    forall k | 0 <= k < 4 {
      out[base + k] := value[k];
    }
    forall k | 0 <= k < 4 {
      out[base + 4 + k] := quality[k];
    }
  }

  // ---- Sizes ----

  function VlanSize(p: FrameParams): nat
  {
    if p.vlan.Some? then 4 else 0
  }

  function TlvSize(length: nat): nat
  {
    1 + |LengthOctets(length)| + length
  }

  /** Octets inside the ASDU element. */
  function FieldsSize(a: Asdu): nat
  {
    TlvSize(|a.svId|) + 4 + 6 + 3 + (2 + |IntU16(a.smpRate)|) + 66
  }

  function FrameSize(p: FrameParams, a: Asdu): nat
  {
    118 + |IntU16(a.smpRate)| + VlanSize(p) + TlvSize(|a.svId|)
  }

  /** What the 9-2 Length field counts: everything after the L2 header. */
  function AppSize(a: Asdu): nat
  {
    23 + FieldsSize(a)
  }

  lemma Sizes(p: FrameParams, a: Asdu)
    ensures FrameSize(p, a) == |L2Header(p)| + 23 + FieldsSize(a) && AppSize(a) == 23 + FieldsSize(a)
    ensures |L2Header(p)| == 14 + VlanSize(p)
    ensures FieldsSize(a) > |a.svId|
  {
  }

  datatype Problem = NoProblem | NoRoomLeft | TooLong(length: nat)

  /** The first obstacle the encoder meets, in the order it meets them. */
  function FirstProblem(p: FrameParams, a: Asdu, available: nat): Problem
  {
    if available < 38 + VlanSize(p) then NoRoomLeft
    else if |a.svId| >= 0x1_0000 then TooLong(|a.svId|)
    else if available < FrameSize(p, a) then NoRoomLeft
    else if FieldsSize(a) >= 0x1_0000 then TooLong(FieldsSize(a))
    else if FieldsSize(a) + 4 >= 0x1_0000 then TooLong(FieldsSize(a) + 4)
    else if FieldsSize(a) + 11 >= 0x1_0000 then TooLong(FieldsSize(a) + 11)
    else if AppSize(a) >= 0x1_0000 then TooLong(AppSize(a))
    else NoProblem
  }

  // ---- The frame, before and after patching ----

  function Fields(a: Asdu): seq<byte>
  {
    SerializeAll(AsduTlv(a).children)
  }

  /** What the buffer holds ahead of the fields when every length is still zero. */
  function Opening(p: FrameParams): (r: seq<byte>)
    ensures |r| == |L2Header(p)| + 23
  {
    L2Header(p) + Be16(p.appid) + [0, 0] + [0, 0, 0, 0] + [0x60, 0x82, 0, 0] + [0x80, 1, 1]
    + [0xA2, 0x82, 0, 0] + [0x30, 0x82, 0, 0]
  }

  lemma FieldsAre(a: Asdu)
    ensures Fields(a) == FieldsHead(a) + FieldsTail(a)
    ensures |Fields(a)| == FieldsSize(a)
  {
    hide PrimitiveOctets, LengthOctets, Be16, Be32, IntU16, PackOf;
    var f := AsduTlv(a).children;
    SerializePair(f[0], f[1]);
    SerializePair(f[2], f[3]);
    SerializePair(f[4], f[5]);
    assert f == [f[0], f[1]] + [f[2], f[3]] + [f[4], f[5]];
    SerializeAllConcat([f[0], f[1]] + [f[2], f[3]], [f[4], f[5]]);
    SerializeAllConcat([f[0], f[1]], [f[2], f[3]]);
  }

  lemma SerializePair(a: Tlv, b: Tlv)
    ensures SerializeAll([a, b]) == Serialize(a) + Serialize(b)
  {
    assert [a, b] == [a] + [b];
    SerializeAllConcat([a], [b]);
    assert SerializeAll([a]) == Serialize(a) + SerializeAll([]);
    assert SerializeAll([b]) == Serialize(b) + SerializeAll([]);
  }

  lemma {:induction false} SerializeAllConcat(a: seq<Tlv>, b: seq<Tlv>)
    ensures SerializeAll(a + b) == SerializeAll(a) + SerializeAll(b)
    decreases |a|
  {
    if a == [] {
      assert a + b == b;
    } else {
      assert (a + b)[1..] == a[1..] + b;
      SerializeAllConcat(a[1..], b);
    }
  }

  /** Where the four reserved lengths start. */
  datatype Places = Places(nine2: nat, savPdu: nat, asduSeq: nat, asdu: nat)

  function LengthPlaces(p: FrameParams): Places
  {
    var h := |L2Header(p)|;
    Places(h + 2, h + 10, h + 17, h + 21)
  }

  lemma PatchTwo(a: seq<byte>, x: seq<byte>, f: seq<byte>, n0: nat, n1: nat)
    requires n0 < 0x1_0000 && n1 < 0x1_0000
    ensures PatchAt(PatchAt(a + [0, 0] + x + [0, 0] + f, |a| + 2 + |x|, n1), |a|, n0)
         == a + Be16(n0) + x + Be16(n1) + f
  {
  }

  /** Patching the four lengths inside out turns what was written into the serialized frame. */
  lemma PatchedIsFrame(p: FrameParams, a: Asdu)
    requires AppSize(a) < 0x1_0000
    ensures |Opening(p) + Fields(a)| == FrameSize(p, a) == |Frame(p, a)|
    ensures PatchAll(Opening(p) + Fields(a), LengthPlaces(p), FieldsSize(a)) == Frame(p, a)
  {
    FieldsAre(a);
    Sizes(p, a);
    hide Be16, PatchAt, FieldsSize, AppSize, FrameSize, Fields, Frame, L2Header, TlvSize;
    var top, n, f := L2Header(p) + Be16(p.appid), FieldsSize(a), Fields(a);
    var z, x1, x2, x3: seq<byte> := [0, 0], [0, 0, 0, 0, 0x60, 0x82], [0x80, 1, 1, 0xA2, 0x82], [0x30, 0x82];
    OpeningIs(p);
    var inner := top + z + x1 + z + x2;
    assert Opening(p) + f == inner + z + x3 + z + f;
    PatchTwo(inner, x3, f, n + 4, n);
    var t := x2 + Be16(n + 4) + x3 + Be16(n) + f;
    assert inner + Be16(n + 4) + x3 + Be16(n) + f == top + z + x1 + z + t;
    PatchTwo(top, x1, t, AppSize(a), n + 11);
    FrameIs(p, a);
  }

  lemma OpeningIs(p: FrameParams)
    ensures var z: seq<byte> := [0, 0];
            Opening(p) == (L2Header(p) + Be16(p.appid)) + z + [0, 0, 0, 0, 0x60, 0x82] + z
                          + [0x80, 1, 1, 0xA2, 0x82] + z + [0x30, 0x82] + z
  {
  }

  /** What the savPdu contains: the number of ASDUs, and the list with its one ASDU. */
  function InSavPdu(a: Asdu): seq<byte>
    requires AppSize(a) < 0x1_0000
  {
    [0x80, 1, 1, 0xA2, 0x82] + Be16(FieldsSize(a) + 4) + [0x30, 0x82] + Be16(FieldsSize(a)) + Fields(a)
  }

  lemma FrameIs(p: FrameParams, a: Asdu)
    requires AppSize(a) < 0x1_0000
    ensures var n := FieldsSize(a);
            Frame(p, a) == (L2Header(p) + Be16(p.appid)) + Be16(AppSize(a)) + [0, 0, 0, 0, 0x60, 0x82] + Be16(n + 11)
                           + InSavPdu(a)
  {
    hide FieldsSize, AppSize, Be16, L2Header, Fields, Serialize, SavPdu, InSavPdu, AppFrame;
    Sizes(p, a);
    AppFrameIs(p.appid, a);
    SavPduIs(a);
    Blocks();
    Reassociate(L2Header(p), Be16(p.appid), Be16(AppSize(a)), [0, 0, 0, 0], [0x60, 0x82], Be16(FieldsSize(a) + 11),
                InSavPdu(a), Serialize(SavPdu(a)), [0, 0, 0, 0, 0x60, 0x82]);
  }

  lemma SavPduSize(a: Asdu)
    requires AppSize(a) < 0x1_0000
    ensures 8 + |Serialize(SavPdu(a))| == AppSize(a)
  {
    SavPduIs(a);
    hide FieldsSize, Serialize, SavPdu, InSavPdu;
  }

  lemma AppFrameIs(appid: u16, a: Asdu)
    requires AppSize(a) < 0x1_0000
    ensures AppFrame(appid, a) == Be16(appid) + Be16(AppSize(a)) + [0, 0, 0, 0] + Serialize(SavPdu(a))
  {
    hide AppSize, Be16, Serialize, SavPdu;
    SavPduSize(a);
    var length: nat := 8 + |Serialize(SavPdu(a))|;
    assert length % 0x1_0000 == length;
    assert Be16(length % 0x1_0000) == Be16(AppSize(a));
  }

  lemma Blocks()
    ensures [0, 0, 0, 0, 0x60, 0x82] == [0, 0, 0, 0] + [0x60, 0x82]
    ensures [0x80, 1, 1, 0xA2, 0x82] == [0x80, 1, 1] + [0xA2, 0x82]
  {
  }

  lemma Reassociate(h: seq<byte>, x: seq<byte>, y: seq<byte>, z: seq<byte>, u: seq<byte>, v: seq<byte>, w: seq<byte>,
                    body: seq<byte>, zu: seq<byte>)
    requires body == u + v + w && zu == z + u
    ensures h + (x + y + z + body) == (h + x) + y + zu + v + w
  {
  }

  lemma AsduListIs(a: Asdu)
    requires AppSize(a) < 0x1_0000
    ensures var n, list := FieldsSize(a), Serialize(Constructed(0xA2, [AsduTlv(a)]));
            list == [0xA2, 0x82] + Be16(n + 4) + ([0x30, 0x82] + Be16(n) + Fields(a)) && |list| == n + 8
  {
    FieldsAre(a);
    hide FieldsSize, Be16, Fields, AsduTlv, Serialize, SerializeAll;
    AsduIs(a);
    OneChild(0xA2, AsduTlv(a));
  }

  /** The savPdu's octets, spelled out. */
  lemma SavPduIs(a: Asdu)
    requires AppSize(a) < 0x1_0000
    ensures Serialize(SavPdu(a)) == [0x60, 0x82] + Be16(FieldsSize(a) + 11) + InSavPdu(a)
    ensures |Serialize(SavPdu(a))| == FieldsSize(a) + 15
  {
    FieldsAre(a);
    hide FieldsSize, Be16, Fields, AsduTlv, Serialize, SerializeAll, IntU16;
    var n, list := FieldsSize(a), Constructed(0xA2, [AsduTlv(a)]);
    AsduListIs(a);
    SavPduOf(list);
    Blocks();
    Regroup([0x80, 1, 1], [0xA2, 0x82], Be16(n + 4), [0x30, 0x82], Be16(n), Fields(a),
            [0x80, 1, 1, 0xA2, 0x82], Serialize(list));
  }

  lemma Regroup(x: seq<byte>, y: seq<byte>, z: seq<byte>, u: seq<byte>, v: seq<byte>, w: seq<byte>,
                xy: seq<byte>, body: seq<byte>)
    requires xy == x + y && body == y + z + (u + v + w)
    ensures x + body == xy + z + u + v + w
  {
  }

  lemma AsduIs(a: Asdu)
    requires FieldsSize(a) < 0x1_0000
    ensures Serialize(AsduTlv(a)) == [0x30, 0x82] + Be16(FieldsSize(a)) + Fields(a)
  {
    FieldsAre(a);
    hide FieldsSize, Be16;
  }

  lemma OneChild(tag: byte, child: Tlv)
    requires |Serialize(child)| < 0x1_0000
    ensures Serialize(Constructed(tag, [child])) == [tag, 0x82] + Be16(|Serialize(child)|) + Serialize(child)
  {
    hide Be16;
    assert [child][1..] == [];
    assert SerializeAll([child]) == Serialize(child) + SerializeAll([]);
  }

  lemma SavPduOf(list: Tlv)
    requires |Serialize(list)| + 3 < 0x1_0000
    ensures Serialize(Constructed(0x60, [Primitive(0x80, IntU16(1)), list]))
         == [0x60, 0x82] + Be16(|Serialize(list)| + 3) + ([0x80, 1, 1] + Serialize(list))
  {
    hide Be16;
    SerializePair(Primitive(0x80, IntU16(1)), list);
    assert Serialize(Primitive(0x80, IntU16(1))) == [0x80, 1, 1];
  }

  // ---- The encoder ----

  lemma L2Over(p: FrameParams, available: nat)
    ensures Sum(L2Writes(p)) == |L2Header(p)|
    ensures FirstOver(L2Writes(p), 0, available)
         == if 6 > available then 6 else if 12 > available then 12
            else if 14 > available then 14 else if p.vlan.Some? && 16 > available then 16 else |L2Header(p)|
  {
    var tag: seq<nat> := if p.vlan.Some? then [2, 2] else [];
    TwoWrites(6, 6, 0, available);
    TwoWrites(2, 2, 12, available);
    OneWrite(2, 12 + Sum(tag), available);
    FirstOverThree([6, 6], tag, [2], 0, available);
  }

  method EncodeL2Header(cur: Cursor, p: FrameParams) returns (r: Result<()>)
    requires cur.Valid() && cur.pos == 0
    modifies cur, cur.buf
    ensures cur.Valid()
    ensures r.Ok? <==> |L2Header(p)| <= |cur.original|
    ensures r.Ok? ==> cur.written == L2Header(p)
    ensures r.Err? ==> NoRoom(r.error, L2Writes(p), 0, |cur.original|)
  {
    L2Over(p, |cur.original|);
    hide FirstOver, Sum, L2Writes;
    var _ :- cur.Write(p.dstMac);
    var _ :- cur.Write(p.srcMac);
    if p.vlan.Some? {
      var _ :- cur.WriteU16Be(TPID_8021Q);
      var _ :- cur.WriteU16Be(Tci(p.vlan.value));
    }
    var _ :- cur.WriteU16Be(ETHERTYPE_SV);
    assert cur.written == L2Header(p);
    r := Ok(());
  }

  lemma OpeningOver(p: FrameParams, available: nat)
    ensures Sum(OpeningWrites(p)) == |Opening(p)|
    ensures var h := |L2Header(p)|;
            FirstOver(OpeningWrites(p), 0, available)
            == if h > available then FirstOver(L2Writes(p), 0, available)
               else if h + 8 > available then FirstOver(AppHeaderWrites(), h, available)
               else if h + 15 > available then FirstOver(SavPduHeadWrites(), h + 8, available)
               else FirstOver(ListHeadWrites(), h + 15, available)
  {
    var h := |L2Header(p)|;
    L2Over(p, available);
    HeadSums();
    hide L2Header, FirstOver, Sum, L2Writes, AppHeaderWrites, SavPduHeadWrites, ListHeadWrites;
    SumConcat(SavPduHeadWrites(), ListHeadWrites());
    FirstOverThree(L2Writes(p), AppHeaderWrites(), SavPduHeadWrites() + ListHeadWrites(), 0, available);
    if h + 8 <= available {
      FirstOverConcat(SavPduHeadWrites(), ListHeadWrites(), h + 8, available);
    }
  }

  lemma HeadSums()
    ensures Sum(AppHeaderWrites()) == 8 && Sum(SavPduHeadWrites()) == 7 && Sum(ListHeadWrites()) == 8
  {
    TwoWrites(2, 2, 0, 0);
    SumConcat([2, 2], [2, 2]);
    OneWrite(1, 0, 0);
    TwoWrites(1, 2, 0, 0);
    TlvOver(1, 0, 0);
    FirstOverThree([1], [1, 2], TlvWrites(1), 0, 0);
    SumConcat([1], [1, 2]);
    SumConcat([1] + [1, 2], [1] + [1, 2]);
    hide Sum;
  }

  /** Everything ahead of the ASDU's fields, with zero lengths. */
  method EncodeOpening(cur: Cursor, p: FrameParams) returns (r: Result<Places>)
    requires cur.Valid() && cur.pos == 0
    modifies cur, cur.buf
    ensures cur.Valid()
    ensures r.Ok? <==> |Opening(p)| <= |cur.original|
    ensures r.Ok? ==> cur.written == Opening(p)
    ensures r.Ok? ==> r.value == LengthPlaces(p)
    ensures r.Err? ==> NoRoom(r.error, OpeningWrites(p), 0, |cur.original|)
  {
    OpeningOver(p, |cur.original|);
    hide L2Header, Be16, FirstOver, Sum, OpeningWrites, L2Writes, AppHeaderWrites, SavPduHeadWrites, ListHeadWrites;
    var _ :- EncodeL2Header(cur, p);
    var nine2LenPos :- EncodeAppHeader(cur, p.appid);
    var savPduLenPos :- EncodeSavPduHead(cur);
    var asduSeqLenPos :- EncodeListHead(cur);
    var asduLenPos := asduSeqLenPos + 4;
    assert cur.written == Opening(p);
    r := Ok(Places(nine2LenPos, savPduLenPos, asduSeqLenPos, asduLenPos));
  }

  /** APPID, a zero Length and two reserved words; the result is where the Length starts. */
  method EncodeAppHeader(cur: Cursor, appid: u16) returns (r: Result<nat>)
    requires cur.Valid()
    modifies cur, cur.buf
    ensures cur.Valid()
    ensures r.Ok? <==> old(cur.pos) + 8 <= |cur.original|
    ensures r.Ok? ==> r.value == old(cur.pos) + 2
    ensures r.Ok? ==> cur.written == old(cur.written) + Be16(appid) + [0, 0] + [0, 0, 0, 0]
    ensures r.Err? ==> NoRoom(r.error, AppHeaderWrites(), old(cur.pos), |cur.original|)
  {
    ghost var pos, available := cur.pos, |cur.original|;
    TwoWrites(2, 2, pos, available);
    TwoWrites(2, 2, pos + 4, available);
    FirstOverConcat([2, 2], [2, 2], pos, available);
    hide FirstOver, Sum;
    var _ :- cur.WriteU16Be(appid);
    var nine2LenPos := cur.pos;
    var _ :- cur.WriteU16Be(0);
    var _ :- cur.WriteU16Be(0);
    var _ :- cur.WriteU16Be(0);
    r := Ok(nine2LenPos);
  }

  lemma ListHeadOver(pos: nat, available: nat)
    requires pos <= available
    ensures FirstOver(ListHeadWrites(), pos, available)
         == if pos + 1 > available then pos + 1
            else if pos + 4 > available then FirstOver([1, 2], pos + 1, available)
            else if pos + 5 > available then pos + 5 else FirstOver([1, 2], pos + 5, available)
  {
    OneWrite(1, pos, available);
    TwoWrites(1, 2, pos + 1, available);
    OneWrite(1, pos + 4, available);
    FirstOverThree([1], [1, 2], [1] + [1, 2], pos, available);
    if pos + 4 <= available {
      FirstOverConcat([1], [1, 2], pos + 4, available);
    }
    hide FirstOver, Sum;
  }

  /** The headers of the ASDU list and of its one ASDU; the reserved lengths lie four octets apart. */
  method EncodeListHead(cur: Cursor) returns (r: Result<nat>)
    requires cur.Valid()
    modifies cur, cur.buf
    ensures cur.Valid()
    ensures r.Ok? <==> old(cur.pos) + 8 <= |cur.original|
    ensures r.Ok? ==> r.value == old(cur.pos) + 2
    ensures r.Ok? ==> cur.written == old(cur.written) + [0xA2, 0x82, 0, 0] + [0x30, 0x82, 0, 0]
    ensures r.Err? ==> NoRoom(r.error, ListHeadWrites(), old(cur.pos), |cur.original|)
  {
    ghost var pos, available := cur.pos, |cur.original|;
    ListHeadOver(pos, available);
    hide FirstOver, Sum, ListHeadWrites;
    var _ :- cur.WriteU8(0xA2);
    var asduSeqLenPos :- cur.ReserveLength16();
    var _ :- cur.WriteU8(0x30);
    var asduLenPos :- cur.ReserveLength16();
    assert asduLenPos == asduSeqLenPos + 4;
    r := Ok(asduSeqLenPos);
  }

  method EncodeSavPduHead(cur: Cursor) returns (r: Result<nat>)
    requires cur.Valid()
    modifies cur, cur.buf
    ensures cur.Valid()
    ensures r.Ok? <==> old(cur.pos) + 7 <= |cur.original|
    ensures r.Ok? ==> r.value == old(cur.pos) + 2
    ensures r.Ok? ==> cur.written == old(cur.written) + [0x60, 0x82, 0, 0] + [0x80, 1, 1]
    ensures r.Err? ==> NoRoom(r.error, SavPduHeadWrites(), old(cur.pos), |cur.original|)
  {
    ghost var pos, available := cur.pos, |cur.original|;
    OneWrite(1, pos, available);
    TwoWrites(1, 2, pos + 1, available);
    FirstOverThree([1], [1, 2], TlvWrites(1), pos, available);
    assert IntU16(1) == [1] && PrimitiveOctets(0x80, [1]) == [0x80, 1, 1];
    hide FirstOver, Sum, TlvWrites, PrimitiveOctets, LengthOctets, IntU16;
    var _ :- cur.WriteU8(0x60);
    var savPduLenPos :- cur.ReserveLength16();
    var _ :- WritePrimitiveTlv(cur, 0x80, IntU16(1));
    r := Ok(savPduLenPos);
  }

  lemma FieldsSums(a: Asdu)
    ensures Sum(FieldsHeadWrites(a)) == |FieldsHead(a)| && Sum(FieldsTailWrites(a)) == |FieldsTail(a)|
  {
    TlvOver(|a.svId|, 0, 0);
    TlvOver(2, 0, 0);
    TlvOver(4, 0, 0);
    TlvOver(1, 0, 0);
    TlvOver(|IntU16(a.smpRate)|, 0, 0);
    TlvOver(64, 0, 0);
    FirstOverThree(TlvWrites(|a.svId|), TlvWrites(2), TlvWrites(4), 0, 0);
    FirstOverThree(TlvWrites(1), TlvWrites(|IntU16(a.smpRate)|), TlvWrites(64), 0, 0);
    hide Sum, FirstOver, TlvWrites, IntU16;
  }

  lemma FieldsOver(a: Asdu, pos: nat, available: nat)
    requires pos <= available
    ensures FirstOver(FieldsWrites(a), pos, available)
         == if pos + |FieldsHead(a)| > available then FirstOver(FieldsHeadWrites(a), pos, available)
            else FirstOver(FieldsTailWrites(a), pos + |FieldsHead(a)|, available)
  {
    FieldsSums(a);
    FirstOverConcat(FieldsHeadWrites(a), FieldsTailWrites(a), pos, available);
    hide FieldsHead, FieldsHeadWrites, FieldsTailWrites, FirstOver, Sum;
  }

  lemma Regrouped(w: seq<byte>, a: seq<byte>, b: seq<byte>, ab: seq<byte>)
    requires ab == a + b
    ensures w + a + b == w + ab
  {
  }

  lemma RegroupedThree(w: seq<byte>, a: seq<byte>, b: seq<byte>, c: seq<byte>, abc: seq<byte>)
    requires abc == a + b + c
    ensures w + a + b + c == w + abc
  {
  }

  /** The six fields of the one ASDU. */
  method EncodeFields(cur: Cursor, a: Asdu) returns (r: Result<()>)
    requires cur.Valid()
    modifies cur, cur.buf
    ensures cur.Valid()
    ensures r.Ok? <==> |a.svId| < 0x1_0000 && old(cur.pos) + FieldsSize(a) <= |cur.original|
    ensures r.Ok? ==> cur.written == old(cur.written) + Fields(a)
    ensures r.Err? ==> if |a.svId| >= 0x1_0000 && old(cur.pos) < |cur.original|
                       then r.error == LengthExceeds16Bit(|a.svId|)
                       else NoRoom(r.error, FieldsWrites(a), old(cur.pos), |cur.original|)
  {
    FieldsAre(a);
    InBounds(cur);
    FieldsOver(a, cur.pos, |cur.original|);
    Regrouped(cur.written, FieldsHead(a), FieldsTail(a), Fields(a));
    hide FieldsHead, FieldsTail, Fields, FirstOver, FieldsWrites, FieldsHeadWrites, FieldsTailWrites, FieldsSize;
    hide TlvSize, Cursor.Valid;
    var _ :- EncodeFieldsHead(cur, a);
    var _ :- EncodeFieldsTail(cur, a);
    r := Ok(());
  }

  function FieldsHead(a: Asdu): (r: seq<byte>)
    ensures |r| == TlvSize(|a.svId|) + 10
  {
    PrimitiveOctets(0x80, a.svId) + PrimitiveOctets(0x82, Be16(a.smpCnt)) + PrimitiveOctets(0x83, Be32(a.confRev))
  }

  function FieldsTail(a: Asdu): (r: seq<byte>)
    ensures |r| == 71 + |IntU16(a.smpRate)|
  {
    PrimitiveOctets(0x85, [a.smpSynch]) + PrimitiveOctets(0x86, IntU16(a.smpRate))
    + PrimitiveOctets(0x87, PackOf(a.samples))
  }

  lemma HeadOver(a: Asdu, pos: nat, available: nat)
    requires pos <= available
    ensures var n := 1 + |LengthOctets(|a.svId|)| + |a.svId|;
            FirstOver(FieldsHeadWrites(a), pos, available)
            == if pos + n > available then FirstOver(TlvWrites(|a.svId|), pos, available)
               else if pos + n + 4 > available then FirstOver(TlvWrites(2), pos + n, available)
               else FirstOver(TlvWrites(4), pos + n + 4, available)
  {
    TlvOver(|a.svId|, pos, available);
    TlvOver(2, 0, 0);
    FirstOverThree(TlvWrites(|a.svId|), TlvWrites(2), TlvWrites(4), pos, available);
    hide FirstOver, Sum, TlvWrites;
  }

  lemma TailOver(a: Asdu, pos: nat, available: nat)
    requires pos <= available
    ensures var n := 2 + |IntU16(a.smpRate)|;
            FirstOver(FieldsTailWrites(a), pos, available)
            == if pos + 3 > available then FirstOver(TlvWrites(1), pos, available)
               else if pos + 3 + n > available then FirstOver(TlvWrites(|IntU16(a.smpRate)|), pos + 3, available)
               else FirstOver(TlvWrites(64), pos + 3 + n, available)
  {
    TlvOver(1, 0, 0);
    TlvOver(|IntU16(a.smpRate)|, 0, 0);
    FirstOverThree(TlvWrites(1), TlvWrites(|IntU16(a.smpRate)|), TlvWrites(64), pos, available);
    hide FirstOver, Sum, TlvWrites, IntU16;
  }

  method EncodeFieldsHead(cur: Cursor, a: Asdu) returns (r: Result<()>)
    requires cur.Valid()
    modifies cur, cur.buf
    ensures cur.Valid()
    ensures r.Ok? <==> |a.svId| < 0x1_0000 && old(cur.pos) + |FieldsHead(a)| <= |cur.original|
    ensures r.Ok? ==> cur.written == old(cur.written) + FieldsHead(a)
    ensures cur.pos == |cur.written|
    ensures r.Err? ==> if |a.svId| >= 0x1_0000 && old(cur.pos) < |cur.original|
                       then r.error == LengthExceeds16Bit(|a.svId|)
                       else NoRoom(r.error, FieldsHeadWrites(a), old(cur.pos), |cur.original|)
  {
    InBounds(cur);
    HeadOver(a, cur.pos, |cur.original|);
    RegroupedThree(cur.written, PrimitiveOctets(0x80, a.svId), PrimitiveOctets(0x82, Be16(a.smpCnt)),
                   PrimitiveOctets(0x83, Be32(a.confRev)), FieldsHead(a));
    hide FirstOver, TlvWrites, FieldsHeadWrites, FieldsHead, PrimitiveOctets, LengthOctets, Be16, Be32, Cursor.Valid;
    var _ :- WritePrimitiveTlv(cur, 0x80, a.svId);
    var _ :- WritePrimitiveTlv(cur, 0x82, Be16(a.smpCnt));
    var _ :- WritePrimitiveTlv(cur, 0x83, Be32(a.confRev));
    r := Ok(());
  }

  method EncodeFieldsTail(cur: Cursor, a: Asdu) returns (r: Result<()>)
    requires cur.Valid()
    modifies cur, cur.buf
    ensures cur.Valid()
    ensures r.Ok? <==> old(cur.pos) + |FieldsTail(a)| <= |cur.original|
    ensures r.Ok? ==> cur.written == old(cur.written) + FieldsTail(a)
    ensures r.Err? ==> NoRoom(r.error, FieldsTailWrites(a), old(cur.pos), |cur.original|)
  {
    InBounds(cur);
    TailOver(a, cur.pos, |cur.original|);
    RegroupedThree(cur.written, PrimitiveOctets(0x85, [a.smpSynch]), PrimitiveOctets(0x86, IntU16(a.smpRate)),
                   PrimitiveOctets(0x87, PackOf(a.samples)), FieldsTail(a));
    hide PrimitiveOctets, LengthOctets, IntU16, PackOf, FirstOver, TlvWrites, FieldsTailWrites, FieldsTail;
    hide Cursor.Valid;
    var _ :- WritePrimitiveTlv(cur, 0x85, [a.smpSynch]);
    var _ :- WritePrimitiveTlv(cur, 0x86, IntU16(a.smpRate));
    var payload := new byte[SAMPLE_PAYLOAD_BYTES];
    Pack(a.samples, payload);
    var _ :- WritePrimitiveTlv(cur, 0x87, payload[..]);
    r := Ok(());
  }

  /** The places of the four lengths of a frame, each further in than the one before. */
  predicate Nested(places: Places, pos: nat)
  {
    places.nine2 + 8 == places.savPdu && places.savPdu + 7 == places.asduSeq && places.asduSeq + 4 == places.asdu
    && places.asdu + 2 <= pos
  }

  /** The frame with all four lengths filled in, given `n` octets of fields. */
  function PatchAll(w: seq<byte>, places: Places, n: nat): (r: seq<byte>)
    requires Nested(places, |w|) && n + 23 < 0x1_0000
    ensures |r| == |w|
  {
    PatchAt(PatchAt(PatchAt(PatchAt(w, places.asdu, n), places.asduSeq, n + 4), places.savPdu, n + 11),
            places.nine2, n + 23)
  }

  /** Patch the lengths inside out; the first one that does not fit sixteen bits is the error. */
  method PatchLengths(cur: Cursor, places: Places, ghost n: nat) returns (r: Result<()>)
    requires cur.Valid() && Nested(places, cur.pos) && cur.pos == places.asdu + 2 + n
    modifies cur`written, cur.buf
    ensures cur.Valid()
    ensures r == if n >= 0x1_0000 then Err(LengthExceeds16Bit(n))
                 else if n + 4 >= 0x1_0000 then Err(LengthExceeds16Bit(n + 4))
                 else if n + 11 >= 0x1_0000 then Err(LengthExceeds16Bit(n + 11))
                 else if n + 23 >= 0x1_0000 then Err(LengthExceeds16Bit(n + 23))
                 else Ok(())
    ensures r.Ok? ==> cur.written == PatchAll(old(cur.written), places, n)
  {
    hide PatchAt;
    var _ :- cur.PatchLength16(places.asdu);
    var _ :- cur.PatchLength16(places.asduSeq);
    var _ :- cur.PatchLength16(places.savPdu);
    // The 9-2 Length field counts its own 8-octet header too.
    var nine2Total := cur.pos - (places.nine2 + 6) + 8;
    if nine2Total > 0xFFFF {
      return Err(LengthExceeds16Bit(nine2Total));
    }
    cur.Patch(places.nine2, nine2Total);
    r := Ok(());
  }

  /** The error an encoder that met `problem` must return. */
  predicate Reports(problem: Problem, e: EncodeError, writes: seq<nat>, available: nat)
  {
    match problem
    case NoProblem => false
    case NoRoomLeft => NoRoom(e, writes, 0, available)
    case TooLong(n) => e == LengthExceeds16Bit(n)
  }

  method EncodeWith(cur: Cursor, p: FrameParams, a: Asdu) returns (r: Result<()>)
    requires cur.Valid() && cur.pos == 0
    modifies cur, cur.buf
    ensures cur.Valid()
    ensures r.Ok? ==> FirstProblem(p, a, |cur.original|) == NoProblem && cur.written == Frame(p, a)
    ensures r.Err? ==> Reports(FirstProblem(p, a, |cur.original|), r.error, FrameWrites(p, a), |cur.original|)
  {
    Sizes(p, a);
    FieldsAre(a);
    OpeningOver(p, |cur.original|);
    FirstOverConcat(OpeningWrites(p), FieldsWrites(a), 0, |cur.original|);
    hide FirstOver, Sum, OpeningWrites, FieldsWrites;
    assert Nested(LengthPlaces(p), |Opening(p)|) && LengthPlaces(p).asdu + 2 == |Opening(p)|;
    hide Fields, Opening, Frame, PatchAll, LengthPlaces, FieldsSize, FrameSize, TlvSize, AppSize, VlanSize, L2Header;
    var places :- EncodeOpening(cur, p);
    var _ :- EncodeFields(cur, a);
    var _ :- PatchLengths(cur, places, FieldsSize(a));
    PatchedIsFrame(p, a);
    r := Ok(());
  }

  /** Encode a complete frame into `out`. It succeeds exactly when nothing is in the way, and then leaves the serialized
      frame in front and everything behind it untouched. */
  method EncodeFrame(p: FrameParams, a: Asdu, out: array<byte>) returns (r: Result<nat>)
    modifies out
    ensures r.Ok? ==> FirstProblem(p, a, out.Length) == NoProblem && r.value == FrameSize(p, a) <= out.Length
    ensures r.Ok? ==> out[..] == Frame(p, a) + old(out[..])[r.value..]
    ensures r.Err? ==> Reports(FirstProblem(p, a, out.Length), r.error, FrameWrites(p, a), out.Length)
  {
    hide Frame, FieldsSize, TlvSize, AppSize, VlanSize;
    var cur := new Cursor(out);
    var _ :- EncodeWith(cur, p, a);
    PatchedIsFrame(p, a);
    r := Ok(cur.pos);
  }

  // ---- Consequences ----

  /** Success is exactly: the size fits the buffer and the part after the L2 header fits sixteen bits. */
  lemma SucceedsIffFits(p: FrameParams, a: Asdu, available: nat)
    ensures FirstProblem(p, a, available) == NoProblem <==> FrameSize(p, a) <= available && AppSize(a) < 0x1_0000
  {
  }

  /** Identifiers of up to 191 octets always fit the publisher's buffer, which is what was promised for 96; one octet
      more no longer fits a tagged frame with a rate of 0x8000 or above. */
  lemma IdentifiersFit(p: FrameParams, a: Asdu)
    ensures |a.svId| <= 191 ==> FirstProblem(p, a, MAX_FRAME_BYTES) == NoProblem
    ensures |a.svId| == 192 && p.vlan.Some? && a.smpRate >= 0x8000
            ==> FirstProblem(p, a, MAX_FRAME_BYTES) == NoRoomLeft
  {
  }

  // ---- The octets on the wire ----

  /** The tag control word: 3 bits of priority, 1 of drop eligibility, 12 of VLAN id. */
  lemma TciFields(tag: VlanTag)
    ensures Tci(tag) / 0x2000 == tag.pcp % 8 && Tci(tag) / 0x1000 % 2 == tag.dei % 2
    ensures Tci(tag) % 0x1000 == tag.vid % 0x1000
  {
    var p, d, v: int := tag.pcp % 8, tag.dei % 2, tag.vid % 0x1000;
    assert Tci(tag) == p * 0x2000 + (d * 0x1000 + v);
    assert Tci(tag) == (p * 2 + d) * 0x1000 + v;
  }

  /** The L2 header of a frame: addresses, an optional 802.1Q tag, the SV EtherType. */
  lemma L2HeaderOctets(p: FrameParams, a: Asdu)
    ensures var f := Frame(p, a);
            && |f| >= 18 && f[..6] == p.dstMac && f[6..12] == p.srcMac
            && (p.vlan.None? ==> f[12..14] == [0x88, 0xBA])
            && (p.vlan.Some? ==>
                && f[12..14] == [0x81, 0x00] && f[16..18] == [0x88, 0xBA]
                && BigEndian(f[14..16]) / 0x2000 == p.vlan.value.pcp % 8
                && BigEndian(f[14..16]) / 0x1000 % 2 == p.vlan.value.dei % 2
                && BigEndian(f[14..16]) % 0x1000 == p.vlan.value.vid % 0x1000)
  {
    var f, h := Frame(p, a), L2Header(p);
    assert |AppFrame(p.appid, a)| >= 8 by {
      hide Serialize;
    }
    assert f[..|h|] == h;
    TypeOctets();
    if p.vlan.Some? {
      TciFields(p.vlan.value);
      BigEndianWords(Tci(p.vlan.value), 0);
      TaggedHeader(f, p.dstMac, p.srcMac, Be16(TPID_8021Q), Be16(Tci(p.vlan.value)), Be16(ETHERTYPE_SV));
    } else {
      TaggedHeader(f, p.dstMac, p.srcMac, [], [], Be16(ETHERTYPE_SV));
    }
    hide Frame, Be16, Tci, BigEndian;
  }

  lemma TypeOctets()
    ensures Be16(TPID_8021Q) == [0x81, 0x00] && Be16(ETHERTYPE_SV) == [0x88, 0xBA]
  {
  }

  lemma TaggedHeader(f: seq<byte>, dst: seq<byte>, src: seq<byte>, tpid: seq<byte>, tci: seq<byte>, kind: seq<byte>)
    requires |dst| == |src| == 6 && |tpid| == |tci| <= 2 && |kind| == 2 && dst + src + (tpid + tci) + kind <= f
    ensures f[..6] == dst && f[6..12] == src && f[12..12 + |tpid|] == tpid
    ensures f[12 + |tpid|..12 + 2 * |tpid|] == tci && f[12 + 2 * |tpid|..14 + 2 * |tpid|] == kind
  {
    var h := dst + src + (tpid + tci) + kind;
    assert f[..|h|] == h;
    assert f[..6] == h[..6] && f[6..12] == h[6..12] && f[12..12 + |tpid|] == h[12..12 + |tpid|];
    assert f[12 + |tpid|..12 + 2 * |tpid|] == h[12 + |tpid|..12 + 2 * |tpid|];
    assert f[12 + 2 * |tpid|..14 + 2 * |tpid|] == h[12 + 2 * |tpid|..14 + 2 * |tpid|];
  }

  /** The octets between the L2 header and the ASDU's fields; `LengthFields` gives the lengths among them. */
  lemma HeadOctets(p: FrameParams, a: Asdu)
    requires AppSize(a) < 0x1_0000
    ensures var f, h := Frame(p, a), if p.vlan.Some? then 18 else 14;
            && |f| == h + 23 + |Fields(a)|
            && BigEndian(f[h..h + 2]) == p.appid && f[h + 4..h + 10] == [0, 0, 0, 0, 0x60, 0x82]
            && f[h + 12..h + 17] == [0x80, 1, 1, 0xA2, 0x82] && f[h + 19..h + 21] == [0x30, 0x82]
            && f[h + 23..] == Fields(a)
  {
    FrameIs(p, a);
    BigEndianWords(p.appid, 0);
    hide FieldsSize, AppSize, Fields, Frame, Be16, BigEndian;
    assert |L2Header(p)| == if p.vlan.Some? then 18 else 14;
    hide L2Header;
    var n := FieldsSize(a);
    Between(Frame(p, a), L2Header(p), Be16(p.appid), Be16(AppSize(a)), [0, 0, 0, 0, 0x60, 0x82], Be16(n + 11),
            [0x80, 1, 1, 0xA2, 0x82], Be16(n + 4), [0x30, 0x82], Be16(n), Fields(a));
  }

  lemma Between(f: seq<byte>, head: seq<byte>, b: seq<byte>, b0: seq<byte>, x1: seq<byte>, b1: seq<byte>,
                x2: seq<byte>, b2: seq<byte>, x3: seq<byte>, b3: seq<byte>, rest: seq<byte>)
    requires f == (head + b) + b0 + x1 + b1 + (x2 + b2 + x3 + b3 + rest)
    requires |b| == |b0| == |b1| == |b2| == |b3| == 2 && |x1| == 6 && |x2| == 5 && |x3| == 2
    ensures var h := |head|;
            && |f| == h + 23 + |rest| && f[h..h + 2] == b && f[h + 4..h + 10] == x1
            && f[h + 12..h + 17] == x2 && f[h + 19..h + 21] == x3 && f[h + 23..] == rest
  {
  }

  /** The six fields, tag by tag; numbers are big-endian. */
  lemma FieldsOctets(a: Asdu)
    requires |a.svId| < 0x1_0000
    ensures Fields(a)
         == ([0x80] + LengthOctets(|a.svId|) + a.svId) + ([0x82, 2] + Be16(a.smpCnt)) + ([0x83, 4] + Be32(a.confRev))
            + ([0x85, 1, a.smpSynch] + ([0x86, |IntU16(a.smpRate)|] + IntU16(a.smpRate))
               + ([0x87, 64] + PackOf(a.samples)))
    ensures BigEndian(Be16(a.smpCnt)) == a.smpCnt && BigEndian(Be32(a.confRev)) == a.confRev
    ensures BigEndian(IntU16(a.smpRate)) == a.smpRate
    ensures if |a.svId| < 128 then LengthOctets(|a.svId|) == [|a.svId|]
            else LengthOctets(|a.svId|)[0] == 0x82 && BigEndian(LengthOctets(|a.svId|)[1..]) == |a.svId|
  {
    FieldsAre(a);
    BigEndianWords(a.smpCnt, a.confRev);
    IntU16Contents(a.smpRate);
    LongLength(|a.svId|);
    hide Fields, Be16, Be32, IntU16, PackOf, BigEndian;
    ShortPrimitive(0x82, Be16(a.smpCnt));
    ShortPrimitive(0x83, Be32(a.confRev));
    ShortPrimitive(0x85, [a.smpSynch]);
    ShortPrimitive(0x86, IntU16(a.smpRate));
    ShortPrimitive(0x87, PackOf(a.samples));
    assert [0x85, 1] + [a.smpSynch] == [0x85, 1, a.smpSynch];
    hide LengthOctets;
  }

  lemma ShortPrimitive(tag: byte, value: seq<byte>)
    requires |value| < 128
    ensures PrimitiveOctets(tag, value) == [tag, |value|] + value
  {
  }

  lemma LongLength(n: nat)
    requires n < 0x1_0000
    ensures n >= 128 ==> LengthOctets(n)[0] == 0x82 && BigEndian(LengthOctets(n)[1..]) == n
  {
    BigEndianWords(n, 0);
    if n >= 128 {
      assert n % 0x1_0000 == n;
      assert LengthOctets(n) == [0x82] + Be16(n);
      assert ([0x82] + Be16(n))[1..] == Be16(n);
    }
    hide BigEndian, Be16;
  }

  /** Each channel's eight octets: the signed value, then the quality word. */
  lemma {:induction false} PackedChannel(channels: seq<ChannelSample>, i: nat)
    requires i < |channels|
    ensures var p, at, c := PackOf(channels), 8 * i, channels[i];
            && BigEndian(p[at..at + 4]) == AsU32(c.value) && BigEndian(p[at + 4..at + 8]) == c.quality
    decreases i
  {
    hide BigEndian, Be32, AsU32;
    var p := PackOf(channels);
    if i == 0 {
      BigEndianWords(0, AsU32(channels[0].value));
      BigEndianWords(0, channels[0].quality);
      assert p[..4] == Be32(AsU32(channels[0].value)) && p[4..8] == Be32(channels[0].quality);
      assert p[0..0 + 4] == p[..4];
    } else {
      PackedChannel(channels[1..], i - 1);
      var at := 8 * i;
      assert p[8..] == PackOf(channels[1..]);
      assert p[at..at + 4] == p[8..][at - 8..at - 4] && p[at + 4..at + 8] == p[8..][at - 4..at];
    }
  }

  /** Each container length counts the octets from its own end to the end of the frame, and the 9-2 Length counts
      everything after the L2 header. */
  lemma LengthFields(p: FrameParams, a: Asdu)
    requires AppSize(a) < 0x1_0000
    ensures |Frame(p, a)| == FrameSize(p, a)
    ensures var f, at := Frame(p, a), LengthPlaces(p);
            && FromBe16(f[at.nine2..at.nine2 + 2]) == |f| - (if p.vlan.Some? then 18 else 14)
            && FromBe16(f[at.savPdu..at.savPdu + 2]) == |f| - (at.savPdu + 2)
            && FromBe16(f[at.asduSeq..at.asduSeq + 2]) == |f| - (at.asduSeq + 2)
            && FromBe16(f[at.asdu..at.asdu + 2]) == |f| - (at.asdu + 2)
  {
    PatchedIsFrame(p, a);
    Sizes(p, a);
    FrameIs(p, a);
    assert LengthPlaces(p) == Places(|L2Header(p)| + 2, |L2Header(p)| + 10, |L2Header(p)| + 17, |L2Header(p)| + 21);
    hide FieldsSize, AppSize, FrameSize, Fields, Frame, Be16, FromBe16, L2Header, TlvSize, Opening, PatchAll;
    hide LengthPlaces;
    LengthsIn(Frame(p, a), L2Header(p) + Be16(p.appid), AppSize(a), FieldsSize(a), Fields(a));
  }

  lemma LengthsIn(f: seq<byte>, top: seq<byte>, length: u16, n: nat, fields: seq<byte>)
    requires n + 11 < 0x1_0000
    requires f == top + Be16(length) + [0, 0, 0, 0, 0x60, 0x82] + Be16(n + 11)
                  + ([0x80, 1, 1, 0xA2, 0x82] + Be16(n + 4) + [0x30, 0x82] + Be16(n) + fields)
    ensures var t := |top|;
            && |f| >= t + 21 && FromBe16(f[t..t + 2]) == length && FromBe16(f[t + 8..t + 10]) == n + 11
            && FromBe16(f[t + 15..t + 17]) == n + 4 && FromBe16(f[t + 19..t + 21]) == n
  {
    Be16RoundTrip(length);
    Be16RoundTrip(n + 11);
    Be16RoundTrip(n + 4);
    Be16RoundTrip(n);
    hide Be16, FromBe16;
    Slices(f, top, Be16(length), [0, 0, 0, 0, 0x60, 0x82], Be16(n + 11),
           [0x80, 1, 1, 0xA2, 0x82], Be16(n + 4), [0x30, 0x82], Be16(n), fields);
  }

  lemma Slices(f: seq<byte>, top: seq<byte>, b0: seq<byte>, x1: seq<byte>, b1: seq<byte>,
               x2: seq<byte>, b2: seq<byte>, x3: seq<byte>, b3: seq<byte>, rest: seq<byte>)
    requires f == top + b0 + x1 + b1 + (x2 + b2 + x3 + b3 + rest)
    requires |b0| == |b1| == |b2| == |b3| == 2 && |x1| == 6 && |x2| == 5 && |x3| == 2
    ensures var t := |top|;
            && |f| >= t + 21 && f[t..t + 2] == b0 && f[t + 8..t + 10] == b1
            && f[t + 15..t + 17] == b2 && f[t + 19..t + 21] == b3
  {
  }
}
