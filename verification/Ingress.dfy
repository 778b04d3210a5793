/** From decoded frames to tick records: the ingress ring and the aligner. */
module Ingress {
  import opened Bytes
  import opened Options
  import opened SvFrame
  import opened Ticks

  datatype DecodedSample = DecodedSample(
    svId: seq<byte>, smpCnt: u16, confRev: u32, smpSynch: byte, smpRate: u16, samples: Channels)

  datatype IngressFrame = IngressFrame(timestampNs: nat, samples: seq<DecodedSample>)

  /** The ingress decoder passes on the one ASDU of a frame. */
  function Lift(a: Asdu): seq<DecodedSample>
  {
    [DecodedSample(a.svId, a.smpCnt, a.confRev, a.smpSynch, a.smpRate, a.samples)]
  }

  // ---- The ring between receiver and aligner ----

  class IngressRing {
    var queue: seq<IngressFrame>
    const capacity: nat

    ghost predicate Valid()
      reads this
    {
      0 < capacity && |queue| <= capacity
    }

    constructor (capacity: nat)
      requires capacity > 0
      ensures Valid() && queue == [] && this.capacity == capacity
    {
      this.capacity := capacity;
      queue := [];
    }

    /** A full ring hands the frame back and does not change. */
    method Push(frame: IngressFrame) returns (rejected: Option<IngressFrame>)
      requires Valid()
      modifies this
      ensures Valid()
      ensures rejected == if |old(queue)| == capacity then Some(frame) else None
      ensures queue == old(queue) + if rejected.None? then [frame] else []
    {
      if |queue| >= capacity {
        return Some(frame);
      }
      queue := queue + [frame];
      rejected := None;
    }

    method Pop() returns (frame: Option<IngressFrame>)
      requires Valid()
      modifies this
      ensures Valid()
      ensures if old(queue) == [] then frame == None && queue == []
              else frame.Some? && [frame.value] + queue == old(queue)
    {
      if queue == [] {
        return None;
      }
      frame := Some(queue[0]);
      queue := queue[1..];
    }
  }

  // ---- The aligner ----

  /** A channel as it is stored: its value, the low byte of its quality word, marked live. */
  function LiveSample(c: ChannelSample): Sample
  {
    Sample(c.value, c.quality % 0x100, ORIGIN_LIVE, 0)
  }

  function ChannelCount(frame: IngressFrame): u16
  {
    if frame.samples == [] then 0 else NUM_CHANNELS
  }

  function AlignedSlots(frame: IngressFrame): Slots
  {
    seq(MAX_CHANNELS, i requires 0 <= i =>
      if i < ChannelCount(frame) then LiveSample(frame.samples[0].samples[i]) else EMPTY_SAMPLE)
  }

  /** The one tick a frame becomes. */
  function AlignedTick(id: nat, frame: IngressFrame): Tick
  {
    Stamped(Tick(id, frame.timestampNs, ChannelCount(frame), FLAG_COMPLETE, 0, AlignedSlots(frame)))
  }

  /** What a consumer of an aligned tick may rely on: a frame without an ASDU gives no live channel, any other the eight
      channels of its first one, with origin 1; all other slots are zero. */
  lemma AlignedTickCarriesFrame(id: nat, frame: IngressFrame)
    ensures var t, live := AlignedTick(id, frame), if frame.samples == [] then 0 else 8;
            && t.tickId == id && t.tsUtcNs == frame.timestampNs && t.nChannels == live
            && t.flags == 0x0001 && VerifyCrc(t) == Intact
            && (forall i :: 0 <= i < live ==>
                  t.samples[i].valueQ == frame.samples[0].samples[i].value)
            && (forall i :: 0 <= i < live ==>
                  t.samples[i].quality == frame.samples[0].samples[i].quality % 0x100)
            && (forall i :: 0 <= i < live ==> t.samples[i].origin == 1 && t.samples[i].reserved == 0)
            && (forall i :: live <= i < 64 ==> t.samples[i] == Sample(0, 0, 0, 0))
  {
  }

  class Aligner {
    const binPeriodNs: nat
    var nextTickId: nat

    constructor (binPeriodNs: nat)
      requires binPeriodNs > 0
      ensures nextTickId == 0
    {
      this.binPeriodNs := binPeriodNs;
      nextTickId := 0;
    }

    /** Every frame becomes exactly one tick, with the next id. */
    method ProcessFrame(frame: IngressFrame) returns (ticks: seq<Tick>)
      modifies this
      ensures ticks == [AlignedTick(old(nextTickId), frame)]
      ensures nextTickId == old(nextTickId) + 1
    {
      var tick := new TickRecord.Empty(nextTickId, frame.timestampNs);
      tick.SetFlag(FLAG_COMPLETE);
      ZeroOrComplete();
      if frame.samples != [] {
        var channels := frame.samples[0].samples;
        var i := 0;
        while i < NUM_CHANNELS
          invariant 0 <= i <= NUM_CHANNELS
          invariant tick.Valid() && fresh(tick) && fresh(tick.samples) && tick.nChannels == 0
          invariant tick.tickId == nextTickId && tick.tsUtcNs == frame.timestampNs && tick.flags == FLAG_COMPLETE
          invariant tick.crc == 0 && nextTickId == old(nextTickId)
          invariant forall k :: 0 <= k < i ==> tick.samples[k] == LiveSample(channels[k])
          invariant forall k :: i <= k < MAX_CHANNELS ==> tick.samples[k] == EMPTY_SAMPLE
        {
          tick.samples[i] := Sample(channels[i].value, channels[i].quality % 0x100, ORIGIN_LIVE, 0);
          i := i + 1;
        }
        tick.nChannels := NUM_CHANNELS;
      }
      assert tick.samples[..] == AlignedSlots(frame);
      assert tick.View()
          == Tick(nextTickId, frame.timestampNs, ChannelCount(frame), FLAG_COMPLETE, 0, AlignedSlots(frame));
      tick.StampCrc();
      assert tick.View() == AlignedTick(nextTickId, frame);
      ticks := [tick.View()];
      nextTickId := nextTickId + 1;
    }
  }

  lemma ZeroOrComplete()
    ensures 0 | FLAG_COMPLETE == FLAG_COMPLETE
  {
  }
}
