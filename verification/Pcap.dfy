/** The libpcap stream of captured frames. */
module Pcap {
  import opened Bytes
  import opened Options
  import opened SvFrame
  import E = SvEncoder
  import Dec = SvDecoder
  import RT = SvRoundTrip

  const LINKTYPE_ETHERNET: u32 := 1
  const SNAPLEN_MAX: u32 := 65535
  const MICROSECONDS: int := 1_000_000

  datatype Captured = Captured(timestampUs: nat, frame: seq<byte>)

  function Truncated(v: nat): u32
  {
    v % 0x1_0000_0000
  }

  function GlobalHeader(): (r: seq<byte>)
    ensures |r| == 24
  {
    Le32(0xA1B2_C3D4) + Le16(2) + Le16(4) + Le32(0) + Le32(0) + Le32(SNAPLEN_MAX) + Le32(LINKTYPE_ETHERNET)
  }

  function RecordHeader(c: Captured): (r: seq<byte>)
    ensures |r| == 16
  {
    Le32(Truncated(c.timestampUs / MICROSECONDS)) + Le32(c.timestampUs % MICROSECONDS)
    + Le32(Truncated(|c.frame|)) + Le32(Truncated(|c.frame|))
  }

  function RecordBytes(records: seq<Captured>): seq<byte>
  {
    if records == [] then []
    else RecordBytes(records[..|records| - 1]) + RecordHeader(records[|records| - 1]) + records[|records| - 1].frame
  }

  // ---- The writer ----

  /** Overwrites a slice of a header under construction. */
  method CopySlice(dst: array<byte>, at: nat, src: seq<byte>)
    requires at + |src| <= dst.Length
    modifies dst
    ensures dst[..at + |src|] == old(dst[..at]) + src
    ensures dst[at + |src|..] == old(dst[at + |src|..])
  {
    var i := 0;
    while i < |src|
      invariant 0 <= i <= |src|
      invariant dst[..at] == old(dst[..at]) && dst[at..at + i] == src[..i]
      invariant dst[at + i..] == old(dst[at + i..])
    {
      dst[at + i] := src[i];
      assert dst[at..at + i + 1] == dst[at..at + i] + [src[i]];
      i := i + 1;
    }
    assert dst[..at + |src|] == dst[..at] + dst[at..at + |src|];
  }

  class PcapWriter {
    var inner: seq<byte>
    var framesWritten: nat
    ghost var written: seq<Captured>

    ghost predicate Valid()
      reads this
    {
      inner == GlobalHeader() + RecordBytes(written) && framesWritten == |written|
    }

    constructor ()
      ensures Valid() && written == []
    {
      inner, framesWritten, written := [], 0, [];
      new;
      var hdr := BuildGlobalHeader();
      inner := inner + hdr;
    }

    method WriteFrame(timestampUs: nat, frame: seq<byte>)
      requires Valid()
      modifies this
      ensures Valid() && written == old(written) + [Captured(timestampUs, frame)]
    {
      var rec := BuildRecordHeader(timestampUs, frame);
      AppendRecord(inner, written, Captured(timestampUs, frame));
      inner := inner + rec;
      inner := inner + frame;
      framesWritten := framesWritten + 1;
      written := written + [Captured(timestampUs, frame)];
    }
  }

  method BuildGlobalHeader() returns (bytes: seq<byte>)
    ensures bytes == GlobalHeader()
  {
    hide Le32, Le16;
    var hdr := new byte[24](_ => 0);
    CopySlice(hdr, 0, Le32(0xA1B2_C3D4));
    assert hdr[..4] == Le32(0xA1B2_C3D4);
    CopySlice(hdr, 4, Le16(2));
    CopySlice(hdr, 6, Le16(4));
    CopySlice(hdr, 8, Le32(0));
    CopySlice(hdr, 12, Le32(0));
    CopySlice(hdr, 16, Le32(SNAPLEN_MAX));
    CopySlice(hdr, 20, Le32(LINKTYPE_ETHERNET));
    bytes := hdr[..];
    assert bytes == hdr[..24];
  }

  method BuildRecordHeader(timestampUs: nat, frame: seq<byte>) returns (bytes: seq<byte>)
    ensures bytes == RecordHeader(Captured(timestampUs, frame))
  {
    hide Le32, Truncated;
    var rec := new byte[16](_ => 0);
    CopySlice(rec, 0, Le32(Truncated(timestampUs / MICROSECONDS)));
    assert rec[..4] == Le32(Truncated(timestampUs / MICROSECONDS));
    CopySlice(rec, 4, Le32(timestampUs % MICROSECONDS));
    CopySlice(rec, 8, Le32(Truncated(|frame|)));
    CopySlice(rec, 12, Le32(Truncated(|frame|)));
    bytes := rec[..];
    assert bytes == rec[..16];
  }

  lemma AppendRecord(bytes: seq<byte>, records: seq<Captured>, c: Captured)
    requires bytes == GlobalHeader() + RecordBytes(records)
    ensures bytes + RecordHeader(c) + c.frame == GlobalHeader() + RecordBytes(records + [c])
  {
  }

  // ---- Walking a capture ----

  /** The records that follow the global header, each found from the length in the one before. */
  function Walk(bytes: seq<byte>): Option<seq<Captured>>
    decreases |bytes|
  {
    if bytes == [] then Some([])
    else if |bytes| < 16 then None
    else
      var incl := FromLe32(bytes[8..12]);
      if |bytes| < 16 + incl then None
      else
        var rest := Walk(bytes[16 + incl..]);
        if rest.None? then None
        else Some([Captured(FromLe32(bytes[..4]) * MICROSECONDS + FromLe32(bytes[4..8]), bytes[16..16 + incl])]
                  + rest.value)
  }

  function ReadCapture(bytes: seq<byte>): Option<seq<Captured>>
  {
    if |bytes| < 24 || bytes[..4] != Le32(0xA1B2_C3D4) then None else Walk(bytes[24..])
  }

  /** A record as it is read: the file keeps 32 bits of the seconds. */
  function Seen(c: Captured): Captured
  {
    Captured(Truncated(c.timestampUs / MICROSECONDS) * MICROSECONDS + c.timestampUs % MICROSECONDS, c.frame)
  }

  function AllSeen(records: seq<Captured>): (r: seq<Captured>)
    ensures |r| == |records| && forall i :: 0 <= i < |records| ==> r[i] == Seen(records[i])
  {
    seq(|records|, i requires 0 <= i < |records| => Seen(records[i]))
  }

  lemma RecordHeaderParts(c: Captured)
    ensures var h := RecordHeader(c);
            && FromLe32(h[..4]) == Truncated(c.timestampUs / MICROSECONDS)
            && FromLe32(h[4..8]) == c.timestampUs % MICROSECONDS
            && FromLe32(h[8..12]) == Truncated(|c.frame|)
  {
  }

  /** The file header, octet by octet: magic number, version 2.4, no zone, no accuracy, snap length, Ethernet. */
  lemma GlobalHeaderOctets()
    ensures GlobalHeader() == [0xD4, 0xC3, 0xB2, 0xA1, 2, 0, 4, 0, 0, 0, 0, 0, 0, 0, 0, 0,
                               0xFF, 0xFF, 0, 0, 1, 0, 0, 0]
  {
    assert Le32(0xA1B2_C3D4) == [0xD4, 0xC3, 0xB2, 0xA1] && Le32(SNAPLEN_MAX) == [0xFF, 0xFF, 0, 0];
    assert Le32(LINKTYPE_ETHERNET) == [1, 0, 0, 0] && Le32(0) == [0, 0, 0, 0];
    assert Le16(2) == [2, 0] && Le16(4) == [4, 0];
    assert [0xD4, 0xC3, 0xB2, 0xA1] + [2, 0] + [4, 0] == [0xD4, 0xC3, 0xB2, 0xA1, 2, 0, 4, 0];
    assert [0xD4, 0xC3, 0xB2, 0xA1, 2, 0, 4, 0] + [0, 0, 0, 0] + [0, 0, 0, 0]
        == [0xD4, 0xC3, 0xB2, 0xA1, 2, 0, 4, 0, 0, 0, 0, 0, 0, 0, 0, 0];
    hide Le32, Le16;
  }

  /** A record's header: seconds, microseconds, and twice the length, each in four octets, least significant first. */
  lemma RecordHeaderOctets(c: Captured)
    ensures var h := RecordHeader(c);
            && LittleEndian(h[..4]) == c.timestampUs / 1_000_000 % 0x1_0000_0000
            && LittleEndian(h[4..8]) == c.timestampUs % 1_000_000
            && LittleEndian(h[8..12]) == LittleEndian(h[12..16]) == |c.frame| % 0x1_0000_0000
  {
    var seconds, micros, length := Truncated(c.timestampUs / MICROSECONDS), c.timestampUs % MICROSECONDS,
                                   Truncated(|c.frame|);
    LittleEndianWords(0, seconds);
    LittleEndianWords(0, micros);
    LittleEndianWords(0, length);
    var h := RecordHeader(c);
    assert h[..4] == Le32(seconds) && h[4..8] == Le32(micros) && h[8..12] == Le32(length) && h[12..16] == Le32(length);
    hide Le32, LittleEndian;
  }

  lemma WalkOne(c: Captured, rest: seq<byte>)
    requires |c.frame| < 0x1_0000_0000
    ensures Walk(RecordHeader(c) + c.frame + rest)
         == if Walk(rest).None? then None else Some([Seen(c)] + Walk(rest).value)
  {
    hide RecordHeader, FromLe32;
    RecordHeaderParts(c);
    RecordSlices(RecordHeader(c), c.frame, rest);
    WalkStep(RecordHeader(c) + c.frame + rest, |c.frame|);
    hide Walk;
  }

  lemma WalkStep(bytes: seq<byte>, incl: nat)
    requires |bytes| >= 16 + incl && FromLe32(bytes[8..12]) == incl
    ensures var rest := Walk(bytes[16 + incl..]);
            Walk(bytes)
            == if rest.None? then None
               else Some([Captured(FromLe32(bytes[..4]) * MICROSECONDS + FromLe32(bytes[4..8]), bytes[16..16 + incl])]
                         + rest.value)
  {
    hide FromLe32;
  }

  lemma RecordSlices(h: seq<byte>, frame: seq<byte>, rest: seq<byte>)
    requires |h| == 16
    ensures var bytes := h + frame + rest;
            && bytes[..4] == h[..4] && bytes[4..8] == h[4..8] && bytes[8..12] == h[8..12]
            && bytes[16..16 + |frame|] == frame && bytes[16 + |frame|..] == rest
  {
  }

  lemma {:induction false} WalkRecords(records: seq<Captured>, rest: seq<byte>)
    requires forall c :: c in records ==> |c.frame| < 0x1_0000_0000
    ensures Walk(RecordBytes(records) + rest)
         == if Walk(rest).None? then None else Some(AllSeen(records) + Walk(rest).value)
    decreases |records|
  {
    hide Walk, RecordHeader, Seen;
    if records == [] {
      assert RecordBytes(records) + rest == rest;
      if Walk(rest).Some? {
        assert AllSeen(records) + Walk(rest).value == Walk(rest).value;
      }
    } else {
      var init, last := records[..|records| - 1], records[|records| - 1];
      var tail := RecordHeader(last) + last.frame + rest;
      assert RecordBytes(records) + rest == RecordBytes(init) + tail;
      WalkRecords(init, tail);
      assert last in records;
      WalkOne(last, rest);
      if Walk(rest).Some? {
        assert AllSeen(init) + ([Seen(last)] + Walk(rest).value) == AllSeen(records) + Walk(rest).value;
      }
    }
  }

  lemma ShortFramesReadBack(records: seq<Captured>)
    requires forall c :: c in records ==> |c.frame| < 0x1_0000_0000
    ensures ReadCapture(GlobalHeader() + RecordBytes(records)) == Some(AllSeen(records))
  {
    var bytes := GlobalHeader() + RecordBytes(records);
    assert bytes[..4] == Le32(0xA1B2_C3D4) && bytes[24..] == RecordBytes(records);
    WalkRecords(records, []);
    assert RecordBytes(records) + [] == RecordBytes(records);
    assert AllSeen(records) + [] == AllSeen(records);
    hide RecordBytes, AllSeen, Le32;
  }

  /** A walk never finds a frame of 2^32 bytes or more: the length field has no room for it. */
  lemma {:induction false} WalkedFramesFit(bytes: seq<byte>)
    ensures Walk(bytes).Some? ==> forall c :: c in Walk(bytes).value ==> |c.frame| < 0x1_0000_0000
    decreases |bytes|
  {
    hide FromLe32;
    if bytes != [] && |bytes| >= 16 {
      var incl: int := FromLe32(bytes[8..12]);
      if |bytes| >= 16 + incl {
        WalkedFramesFit(bytes[16 + incl..]);
      }
    }
  }

  /** Walking a stream by its length fields finds every record, frame for frame and with the 32 bits of the seconds that
      were kept, if and only if every frame is shorter than 2^32 bytes. */
  lemma CaptureReadsBack(records: seq<Captured>)
    ensures ReadCapture(GlobalHeader() + RecordBytes(records)) == Some(AllSeen(records))
       <==> forall c :: c in records ==> |c.frame| < 0x1_0000_0000
  {
    hide GlobalHeader, RecordBytes, Walk;
    var bytes := GlobalHeader() + RecordBytes(records);
    WalkedFramesFit(bytes[24..]);
    if forall c :: c in records ==> |c.frame| < 0x1_0000_0000 {
      ShortFramesReadBack(records);
    } else {
      var c :| c in records && |c.frame| >= 0x1_0000_0000;
      var i :| 0 <= i < |records| && records[i] == c;
      assert AllSeen(records)[i] in AllSeen(records) && |AllSeen(records)[i].frame| >= 0x1_0000_0000;
    }
  }

  predicate Exact(c: Captured)
  {
    c.timestampUs / MICROSECONDS < 0x1_0000_0000 && |c.frame| < 0x1_0000_0000
  }

  lemma SeenExactly(c: Captured)
    ensures Seen(c) == c <==> c.timestampUs / MICROSECONDS < 0x1_0000_0000
  {
  }

  /** The capture gives back exactly what was written if and only if every time stamp is before 2^32 seconds and every
      frame shorter than 2^32 bytes. */
  lemma CaptureIsExact(records: seq<Captured>)
    ensures ReadCapture(GlobalHeader() + RecordBytes(records)) == Some(records)
       <==> forall c :: c in records ==> Exact(c)
  {
    hide GlobalHeader, RecordBytes, Seen, Walk;
    WalkedFramesFit((GlobalHeader() + RecordBytes(records))[24..]);
    if c :| c in records && |c.frame| >= 0x1_0000_0000 {
      assert !Exact(c);
    } else {
      ShortFramesReadBack(records);
      forall i | 0 <= i < |records| ensures AllSeen(records)[i] == records[i] <==> Exact(records[i]) {
        SeenExactly(records[i]);
      }
      if forall c :: c in records ==> Exact(c) {
        assert AllSeen(records) == records;
      } else {
        var c :| c in records && !Exact(c);
        var i :| 0 <= i < |records| && records[i] == c;
        assert AllSeen(records)[i] != records[i];
      }
    }
  }

  // ---- A stream of published ASDUs ----

  datatype Published = Published(timestampUs: nat, params: FrameParams, asdu: Asdu)

  function Capture(stream: seq<Published>): (r: seq<Captured>)
    ensures |r| == |stream|
    ensures forall i :: 0 <= i < |stream| ==>
      r[i] == Captured(stream[i].timestampUs, Frame(stream[i].params, stream[i].asdu))
  {
    seq(|stream|, i requires 0 <= i < |stream| =>
      Captured(stream[i].timestampUs, Frame(stream[i].params, stream[i].asdu)))
  }

  predicate Encodable(s: Published)
  {
    E.FirstProblem(s.params, s.asdu, MAX_FRAME_BYTES) == E.NoProblem
  }

  predicate ReadsAs(frame: seq<byte>, s: Published)
  {
    E.AppSize(s.asdu) < 0x1_0000 && Dec.Decoded(frame) == Dec.Ok(RT.Expected(s.params, s.asdu))
  }

  lemma FrameReadsBack(s: Published)
    requires Encodable(s)
    ensures |Frame(s.params, s.asdu)| <= MAX_FRAME_BYTES && ReadsAs(Frame(s.params, s.asdu), s)
  {
    hide Frame, Dec.Decoded, E.AppSize, E.FirstProblem, E.FrameSize;
    E.SucceedsIffFits(s.params, s.asdu, MAX_FRAME_BYTES);
    E.PatchedIsFrame(s.params, s.asdu);
    RT.RoundTrip(s.params, s.asdu, MAX_FRAME_BYTES);
  }

  /** Encoding, capturing, walking and decoding a stream of ASDUs gives every ASDU back, in order. */
  lemma StreamReadsBack(stream: seq<Published>)
    requires forall s :: s in stream ==> Encodable(s)
    ensures var read := ReadCapture(GlobalHeader() + RecordBytes(Capture(stream)));
            && read.Some? && |read.value| == |stream|
            && forall i :: 0 <= i < |stream| ==> ReadsAs(read.value[i].frame, stream[i])
  {
    hide ReadCapture, GlobalHeader, RecordBytes, Encodable, ReadsAs, Frame;
    forall i | 0 <= i < |stream|
      ensures |Capture(stream)[i].frame| < 0x1_0000_0000 && ReadsAs(Capture(stream)[i].frame, stream[i])
    {
      FrameReadsBack(stream[i]);
    }
    ShortFramesReadBack(Capture(stream));
  }
}
