/** The UDP ingress pipeline: receiver and aligner threads, and the readers of the tick buffer they fill. Each locked
    body is one step; between two of them a thread holds what it took in its hand. */
module Pipeline {
  import opened Bytes
  import opened Options
  import opened SvFrame
  import opened SvDecoder
  import opened Ticks
  import opened Ingress
  import opened Buffers
  import E = SvEncoder
  import RT = SvRoundTrip
  import D = DataPlane

  datatype Datagram = Datagram(bytes: seq<byte>, ts: nat)

  datatype Fate = Undecodable | InHand | Rejected | Accepted

  /** What was received, and what became of it. */
  datatype Entry = Entry(datagram: Datagram, fate: Fate)

  datatype Pipe = Pipe(
    log: seq<Entry>, ringCapacity: nat, ring: seq<IngressFrame>, nextId: nat, hand: Option<Tick>, plane: D.Plane)

  datatype Step =
    | Receive(datagram: Datagram)
    | Offer
    | Align
    | Publish
    | Other(step: D.Step)

  /** The receiver's frame for a datagram: none when it does not decode. */
  function FrameOf(d: Datagram): Option<IngressFrame>
  {
    match DecodedStripped(d.bytes)
    case Ok(f) => Some(IngressFrame(d.ts, Lift(f.asdu)))
    case Err(_) => None
  }

  predicate Holding(p: Pipe)
  {
    p.log != [] && p.log[|p.log| - 1].fate == InHand
  }

  function Settle(log: seq<Entry>, fate: Fate): (r: seq<Entry>)
    requires log != []
    ensures |r| == |log|
  {
    log[..|log| - 1] + [log[|log| - 1].(fate := fate)]
  }

  function Next(p: Pipe, step: Step): (r: Pipe)
    requires D.Bounded(p.plane)
    ensures D.Bounded(r.plane) && r.plane.capacity == p.plane.capacity && r.ringCapacity == p.ringCapacity
  {
    match step
    case Receive(d) =>
      if Holding(p) then p
      else p.(log := p.log + [Entry(d, if FrameOf(d).None? then Undecodable else InHand)])
    case Offer =>
      if !Holding(p) then p
      else
        var frame := FrameOf(p.log[|p.log| - 1].datagram);
        if frame.None? then p
        else if |p.ring| < p.ringCapacity
        then p.(ring := p.ring + [frame.value], log := Settle(p.log, Accepted))
        else p.(log := Settle(p.log, Rejected))
    case Align =>
      if p.ring == [] || p.hand.Some? then p
      else p.(ring := p.ring[1..], hand := Some(AlignedTick(p.nextId, p.ring[0])), nextId := p.nextId + 1)
    case Publish =>
      if p.hand.None? then p
      else p.(plane := D.Next(p.plane, D.Push(p.hand.value)), hand := None)
    case Other(s) => if s.Push? then p else p.(plane := D.Next(p.plane, s))
  }

  function Run(p: Pipe, steps: seq<Step>): (r: Pipe)
    requires D.Bounded(p.plane)
    ensures D.Bounded(r.plane) && r.plane.capacity == p.plane.capacity && r.ringCapacity == p.ringCapacity
    decreases |steps|
  {
    if steps == [] then p else Run(Next(p, steps[0]), steps[1..])
  }

  function Start(ringCapacity: nat, capacity: nat): Pipe
  {
    Pipe([], ringCapacity, [], 0, None, D.Plane(capacity, [], [], 0, map[]))
  }

  // ---- The invariant ----

  /** The frames the ring took, in the order they were received. */
  function Taken(log: seq<Entry>): seq<IngressFrame>
  {
    if log == [] then []
    else Taken(log[..|log| - 1]) + Frames(log[|log| - 1])
  }

  function Frames(e: Entry): seq<IngressFrame>
  {
    if e.fate != Accepted then []
    else match FrameOf(e.datagram) case None => [] case Some(f) => [f]
  }

  function Count(log: seq<Entry>, fate: Fate): nat
  {
    if log == [] then 0
    else Count(log[..|log| - 1], fate) + if log[|log| - 1].fate == fate then 1 else 0
  }

  /** The ticks a list of frames becomes, ids counting up from zero. */
  function TicksOf(frames: seq<IngressFrame>): (r: seq<Tick>)
    ensures |r| == |frames|
  {
    if frames == [] then []
    else TicksOf(frames[..|frames| - 1]) + [AlignedTick(|frames| - 1, frames[|frames| - 1])]
  }

  function HandTicks(p: Pipe): seq<Tick>
  {
    if p.hand.None? then [] else [p.hand.value]
  }

  /** Undecodable datagrams are exactly those that do not decode, and only the last one can be in hand. */
  predicate LogSound(log: seq<Entry>)
  {
    && (forall e :: e in log ==> (e.fate == Undecodable <==> FrameOf(e.datagram).None?))
    && (forall i :: 0 <= i < |log| - 1 ==> log[i].fate != InHand)
  }

  ghost predicate Sound(p: Pipe)
  {
    && LogSound(p.log)
    && 0 < p.ringCapacity && |p.ring| <= p.ringCapacity
    && p.nextId <= |Taken(p.log)| && p.ring == Taken(p.log)[p.nextId..]
    && p.plane.pushed + HandTicks(p) == TicksOf(Taken(p.log)[..p.nextId])
    && D.Accounted(p.plane)
  }

  lemma {:induction false} TicksAt(frames: seq<IngressFrame>, k: nat)
    requires k < |frames|
    ensures TicksOf(frames)[k] == AlignedTick(k, frames[k])
  {
    if k < |frames| - 1 {
      TicksAt(frames[..|frames| - 1], k);
    }
  }

  lemma TicksIncrease(frames: seq<IngressFrame>, s: seq<Tick>)
    requires s <= TicksOf(frames)
    ensures Increasing(s)
  {
    hide TicksOf, AlignedTick;
    forall i, j | 0 <= i < j < |s| ensures s[i].tickId < s[j].tickId {
      TicksAt(frames, i);
      TicksAt(frames, j);
      AlignedId(i, frames[i]);
      AlignedId(j, frames[j]);
    }
  }

  lemma AlignedId(id: nat, frame: IngressFrame)
    ensures AlignedTick(id, frame).tickId == id
  {
  }

  lemma LogReceived(p: Pipe, d: Datagram)
    requires D.Bounded(p.plane) && LogSound(p.log)
    ensures var q := Next(p, Receive(d));
            LogSound(q.log) && Taken(q.log) == Taken(p.log) && q == p.(log := q.log)
  {
    hide DecodedStripped, D.Next, AlignedTick;
    var q := Next(p, Receive(d));
    if !Holding(p) {
      assert q.log[..|q.log| - 1] == p.log;
    }
  }

  lemma ReceiveKeeps(p: Pipe, d: Datagram)
    requires D.Bounded(p.plane) && Sound(p)
    ensures Sound(Next(p, Receive(d)))
  {
    hide TicksOf, D.Accounted, LogSound, Taken, Next;
    LogReceived(p, d);
  }

  lemma SettledSound(log: seq<Entry>, fate: Fate)
    requires LogSound(log) && log != [] && log[|log| - 1].fate == InHand && (fate == Accepted || fate == Rejected)
    ensures FrameOf(log[|log| - 1].datagram).Some? && LogSound(Settle(log, fate))
  {
    hide FrameOf;
    var last := log[|log| - 1];
    assert last in log;
    forall e | e in Settle(log, fate) ensures e.fate == Undecodable <==> FrameOf(e.datagram).None? {
      assert e in log || e == last.(fate := fate);
    }
  }

  lemma SettledTaken(log: seq<Entry>, fate: Fate)
    requires log != [] && log[|log| - 1].fate == InHand && (fate == Accepted || fate == Rejected)
    requires FrameOf(log[|log| - 1].datagram).Some?
    ensures Taken(Settle(log, fate))
         == Taken(log) + if fate == Accepted then [FrameOf(log[|log| - 1].datagram).value] else []
  {
    hide FrameOf;
    var settled, before, last := Settle(log, fate), log[..|log| - 1], log[|log| - 1];
    assert settled[..|log| - 1] == before && settled[|log| - 1] == last.(fate := fate);
    assert Frames(last) == [] && Taken(before) + [] == Taken(before);
    hide Settle;
  }

  lemma TakeOne(taken: seq<IngressFrame>, n: nat, frame: IngressFrame)
    requires n <= |taken|
    ensures (taken + [frame])[n..] == taken[n..] + [frame] && (taken + [frame])[..n] == taken[..n]
  {
  }

  lemma OfferKeeps(p: Pipe)
    requires D.Bounded(p.plane) && Sound(p)
    ensures Sound(Next(p, Offer))
  {
    hide TicksOf, D.Accounted, LogSound, Taken, FrameOf, Settle, D.Next;
    if Holding(p) {
      var fate := if |p.ring| < p.ringCapacity then Accepted else Rejected;
      SettledSound(p.log, fate);
      SettledTaken(p.log, fate);
      TakeOne(Taken(p.log), p.nextId, FrameOf(p.log[|p.log| - 1].datagram).value);
      assert Taken(p.log) + [] == Taken(p.log);
    }
  }

  /** A frame that the receiver holds is rejected exactly when the ring is full; otherwise it joins at the back. */
  lemma RejectedIffFull(p: Pipe)
    requires D.Bounded(p.plane) && Sound(p) && Holding(p)
    ensures var q, last := Next(p, Offer), |p.log| - 1;
            && |q.log| == |p.log| && q.log[..last] == p.log[..last] && q.log[last].datagram == p.log[last].datagram
            && (q.log[last].fate == Rejected <==> |p.ring| == p.ringCapacity)
            && (q.log[last].fate == Rejected ==> q.ring == p.ring)
            && (q.log[last].fate != Rejected ==>
                q.log[last].fate == Accepted && |q.ring| == |p.ring| + 1 && p.ring <= q.ring
                && Some(q.ring[|p.ring|]) == FrameOf(p.log[last].datagram))
  {
    hide TicksOf, D.Accounted, Taken, FrameOf, D.Next;
    assert p.log[|p.log| - 1] in p.log;
  }

  lemma AlignKeeps(p: Pipe)
    requires D.Bounded(p.plane) && Sound(p)
    ensures Sound(Next(p, Align))
  {
    hide D.Accounted, LogSound, AlignedTick, Taken;
    var q := Next(p, Align);
    var taken := Taken(p.log);
    if p.ring != [] && p.hand.None? {
      assert taken[..p.nextId + 1][..p.nextId] == taken[..p.nextId];
      assert taken[p.nextId] == p.ring[0];
      assert p.plane.pushed + [] == p.plane.pushed;
    }
  }

  lemma PublishKeeps(p: Pipe)
    requires D.Bounded(p.plane) && Sound(p)
    ensures Sound(Next(p, Publish))
  {
    var q := Next(p, Publish);
    hide D.Accounted, D.Evict, LogSound, Taken, TicksOf, Increasing;
    if p.hand.Some? {
      PushAppends(p.plane, p.hand.value);
      assert q.plane.pushed + [] == q.plane.pushed;
      TicksIncrease(Taken(p.log)[..p.nextId], q.plane.pushed);
      D.StepKeeps(p.plane, D.Push(p.hand.value));
    }
  }

  lemma PushAppends(p: D.Plane, t: Tick)
    requires D.Bounded(p)
    ensures D.Next(p, D.Push(t)).pushed == p.pushed + [t]
  {
  }

  lemma OtherPushesNothing(p: D.Plane, s: D.Step)
    requires D.Bounded(p) && !s.Push?
    ensures D.Next(p, s).pushed == p.pushed
  {
  }

  lemma OtherKeeps(p: Pipe, s: D.Step)
    requires D.Bounded(p.plane) && Sound(p)
    ensures Sound(Next(p, Other(s)))
  {
    hide D.Accounted, D.Next, LogSound, Taken, TicksOf, Increasing;
    if !s.Push? {
      OtherPushesNothing(p.plane, s);
      TicksIncrease(Taken(p.log)[..p.nextId], p.plane.pushed);
      D.StepKeeps(p.plane, s);
    }
  }

  lemma StepKeeps(p: Pipe, step: Step)
    requires D.Bounded(p.plane) && Sound(p)
    ensures Sound(Next(p, step))
  {
    hide Sound, Next;
    match step
    case Receive(d) => ReceiveKeeps(p, d);
    case Offer => OfferKeeps(p);
    case Align => AlignKeeps(p);
    case Publish => PublishKeeps(p);
    case Other(s) => OtherKeeps(p, s);
  }

  /** Every interleaving of the threads, from the start, keeps the pipeline sound. */
  lemma {:induction false} RunKeepsSound(p: Pipe, steps: seq<Step>)
    requires D.Bounded(p.plane) && Sound(p)
    ensures Sound(Run(p, steps))
    decreases |steps|
  {
    hide Sound, Next;
    if steps == [] {
    } else {
      StepKeeps(p, steps[0]);
      RunKeepsSound(Next(p, steps[0]), steps[1..]);
    }
  }

  lemma StartIsSound(ringCapacity: nat, capacity: nat)
    requires 0 < ringCapacity && 0 < capacity
    ensures D.Bounded(Start(ringCapacity, capacity).plane) && Sound(Start(ringCapacity, capacity))
  {
  }

  // ---- Conservation ----

  lemma {:induction false} CountsAddUp(log: seq<Entry>)
    ensures Count(log, Undecodable) + Count(log, Rejected) + Count(log, Accepted) + Count(log, InHand) == |log|
  {
    if log != [] {
      CountsAddUp(log[..|log| - 1]);
    }
  }

  lemma {:induction false} TakenCounts(log: seq<Entry>)
    requires forall e :: e in log ==> (e.fate == Undecodable <==> FrameOf(e.datagram).None?)
    ensures |Taken(log)| == Count(log, Accepted)
  {
    hide FrameOf;
    if log != [] {
      assert log[|log| - 1] in log;
      TakenCounts(log[..|log| - 1]);
    }
  }

  lemma {:induction false} NoneInHand(log: seq<Entry>)
    requires forall e :: e in log ==> e.fate != InHand
    ensures Count(log, InHand) == 0
  {
    if log != [] {
      NoneInHand(log[..|log| - 1]);
      assert log[|log| - 1] in log;
    }
  }

  lemma OneInHand(p: Pipe)
    requires LogSound(p.log)
    ensures Count(p.log, InHand) == if Holding(p) then 1 else 0
  {
    hide FrameOf;
    if p.log != [] {
      var before := p.log[..|p.log| - 1];
      forall e | e in before ensures e.fate != InHand {
        var i :| 0 <= i < |before| && before[i] == e;
        assert p.log[i] == e;
      }
      NoneInHand(before);
    }
  }

  /** Nothing is lost track of: every received datagram is undecodable, rejected by a full ring, in the receiver's hand,
      queued, or has its tick; every tick is in the aligner's hand or was pushed. */
  lemma Conservation(p: Pipe)
    requires Sound(p)
    ensures |p.log| == Count(p.log, Undecodable) + Count(p.log, Rejected) + (if Holding(p) then 1 else 0)
                       + |p.ring| + p.nextId
    ensures p.nextId == |p.plane.pushed| + (if p.hand.Some? then 1 else 0)
    ensures |p.ring| <= p.ringCapacity && |p.plane.buf| <= p.plane.capacity
  {
    hide FrameOf, Taken, TicksOf, Count, Holding;
    CountsAddUp(p.log);
    TakenCounts(p.log);
    OneInHand(p);
  }

  /** The k-th pushed tick has id k and carries the k-th accepted frame, marked complete and live, with a good CRC. */
  lemma PushedTickCarriesFrame(p: Pipe, k: nat)
    requires Sound(p) && k < |p.plane.pushed|
    ensures k < |Taken(p.log)| && p.plane.pushed[k] == AlignedTick(k, Taken(p.log)[k])
    ensures VerifyCrc(p.plane.pushed[k]) == Intact
  {
    hide FrameOf, Taken, TicksOf, AlignedTick, D.Accounted, LogSound, Stamped;
    var aligned := Taken(p.log)[..p.nextId];
    assert |p.plane.pushed| <= |aligned|;
    TicksAt(aligned, k);
    assert (p.plane.pushed + HandTicks(p))[k] == p.plane.pushed[k];
    AlignedVerifies(k, Taken(p.log)[k]);
  }

  lemma AlignedVerifies(id: nat, frame: IngressFrame)
    ensures VerifyCrc(AlignedTick(id, frame)) == Intact
  {
  }

  // ---- From the wire to the reader ----

  /** A publisher's datagram is taken as a frame with exactly the published ASDU, field for field. */
  lemma PublishedFrame(params: FrameParams, a: Asdu, ts: nat)
    requires E.AppSize(a) < 0x1_0000
    ensures FrameOf(Datagram(AppFrame(params.appid, a), ts)) == Some(IngressFrame(ts, Lift(a)))
    ensures |Lift(a)| == 1
    ensures var s := Lift(a)[0];
            && s.svId == a.svId && s.smpCnt == a.smpCnt && s.confRev == a.confRev && s.smpSynch == a.smpSynch
            && s.smpRate == a.smpRate && s.samples == a.samples
  {
    RT.StrippedRoundTrip(params, a);
    hide DecodedStripped, AppFrame, E.AppSize;
  }

  /** The datagrams behind the frames the ring took. */
  function AcceptedDatagrams(log: seq<Entry>): seq<Datagram>
  {
    if log == [] then []
    else AcceptedDatagrams(log[..|log| - 1])
         + if log[|log| - 1].fate == Accepted then [log[|log| - 1].datagram] else []
  }

  lemma {:induction false} TakenFromDatagrams(log: seq<Entry>, k: nat)
    requires forall e :: e in log ==> (e.fate == Undecodable <==> FrameOf(e.datagram).None?)
    requires k < |Taken(log)|
    ensures |AcceptedDatagrams(log)| == |Taken(log)| && FrameOf(AcceptedDatagrams(log)[k]) == Some(Taken(log)[k])
  {
    hide FrameOf;
    var before, last := log[..|log| - 1], log[|log| - 1];
    assert last in log;
    if k < |Taken(before)| {
      TakenFromDatagrams(before, k);
    } else {
      SameCount(before);
    }
  }

  lemma {:induction false} SameCount(log: seq<Entry>)
    requires forall e :: e in log ==> (e.fate == Undecodable <==> FrameOf(e.datagram).None?)
    ensures |AcceptedDatagrams(log)| == |Taken(log)|
  {
    hide FrameOf;
    if log != [] {
      assert log[|log| - 1] in log;
      SameCount(log[..|log| - 1]);
    }
  }

  /** A tick that carries a published ASDU received at `ts`. */
  predicate Carries(t: Tick, ts: nat, a: Asdu)
  {
    && t.tsUtcNs == ts && t.nChannels == NUM_CHANNELS && t.flags & FLAG_COMPLETE != 0 && VerifyCrc(t) == Intact
    && forall c :: 0 <= c < NUM_CHANNELS ==>
         && t.samples[c].valueQ == a.samples[c].value && t.samples[c].origin == ORIGIN_LIVE
         && t.samples[c].quality == a.samples[c].quality % 0x100
  }

  lemma AlignedCarries(id: nat, ts: nat, a: Asdu)
    ensures Carries(AlignedTick(id, IngressFrame(ts, Lift(a))), ts, a)
  {
  }

  /** From the wire to the buffer, in every run: the k-th tick carries what the publisher put in the k-th accepted
      datagram. */
  lemma WireToTick(p: Pipe, k: nat, params: FrameParams, a: Asdu)
    requires Sound(p) && k < |p.plane.pushed| && k < |AcceptedDatagrams(p.log)|
    requires E.AppSize(a) < 0x1_0000 && AcceptedDatagrams(p.log)[k].bytes == AppFrame(params.appid, a)
    ensures p.plane.pushed[k].tickId == k && Carries(p.plane.pushed[k], AcceptedDatagrams(p.log)[k].ts, a)
  {
    hide FrameOf, Taken, AcceptedDatagrams, TicksOf, AlignedTick, D.Accounted, AppFrame, E.AppSize, Carries;
    PushedTickCarriesFrame(p, k);
    TakenFromDatagrams(p.log, k);
    PublishedFrame(params, a, AcceptedDatagrams(p.log)[k].ts);
    AlignedId(k, Taken(p.log)[k]);
    AlignedCarries(k, AcceptedDatagrams(p.log)[k].ts, a);
  }

  // ---- Readers of the pipeline ----

  /** What a pipeline step does to the buffer and its readers. */
  function PlaneStep(p: Pipe, step: Step): seq<D.Step>
  {
    if step.Publish? && p.hand.Some? then [D.Push(p.hand.value)]
    else if step.Other? && !step.step.Push? then [step.step]
    else []
  }

  function PlaneSteps(p: Pipe, steps: seq<Step>): seq<D.Step>
    requires D.Bounded(p.plane)
    decreases |steps|
  {
    if steps == [] then [] else PlaneStep(p, steps[0]) + PlaneSteps(Next(p, steps[0]), steps[1..])
  }

  lemma OneProjects(p: Pipe, step: Step)
    requires D.Bounded(p.plane)
    ensures D.Run(p.plane, PlaneStep(p, step)) == Next(p, step).plane
  {
    hide FrameOf, D.Next, Settle, AlignedTick, D.Run;
    if PlaneStep(p, step) == [] {
      RunNone(p.plane);
    } else {
      D.RunOne(p.plane, PlaneStep(p, step)[0]);
    }
  }

  lemma RunNone(p: D.Plane)
    requires D.Bounded(p)
    ensures D.Run(p, []) == p
  {
  }

  /** Seen from the buffer, a run of the pipeline is a run of the data plane. */
  lemma {:induction false} RunProjects(p: Pipe, steps: seq<Step>)
    requires D.Bounded(p.plane)
    ensures D.Run(p.plane, PlaneSteps(p, steps)) == Run(p, steps).plane
    decreases |steps|
  {
    hide Next, PlaneStep;
    if steps == [] {
    } else {
      OneProjects(p, steps[0]);
      RunProjects(Next(p, steps[0]), steps[1..]);
      D.RunConcat(p.plane, PlaneStep(p, steps[0]), PlaneSteps(Next(p, steps[0]), steps[1..]));
    }
  }

  lemma PushedIncreases(p: Pipe)
    requires Sound(p)
    ensures Increasing(p.plane.pushed)
  {
    hide FrameOf, Taken, TicksOf, LogSound, Increasing;
    TicksIncrease(Taken(p.log)[..p.nextId], p.plane.pushed);
  }

  /** A reader that keeps pace with the pushes is given the tick of every accepted frame, in order and without a gap. */
  lemma PacedReaderGetsEveryFrame(p: Pipe, k: nat, steps: seq<Step>, budget: nat)
    requires D.Bounded(p.plane) && Sound(p) && k in p.plane.subs
    requires D.Paced(PlaneSteps(p, steps), k, p.plane.capacity, budget)
    requires budget + (|p.plane.pushed| - D.Due(p.plane.gone, p.plane.subs[k])) <= p.plane.capacity
    ensures var q := Run(p, steps);
            var a := D.Due(p.plane.gone, p.plane.subs[k]);
            && k in q.plane.subs && q.plane.subs[k].lost == p.plane.subs[k].lost
            && var b := D.Due(q.plane.gone, q.plane.subs[k]);
            && a <= b <= |q.plane.pushed| <= |Taken(q.log)|
            && D.Flatten(q.plane.subs[k].batches) == D.Flatten(p.plane.subs[k].batches) + q.plane.pushed[a..b]
            && forall i :: a <= i < b ==> q.plane.pushed[i] == AlignedTick(i, Taken(q.log)[i])
  {
    hide Sound, D.Paced, D.Due, D.Flatten, D.Accounted, Run, PlaneSteps, Taken, AlignedTick, Increasing;
    var q := Run(p, steps);
    RunKeepsSound(p, steps);
    RunProjects(p, steps);
    SoundParts(p);
    SoundParts(q);
    D.PacedReadsLoseNothing(p.plane, k, PlaneSteps(p, steps), budget);
    forall i | 0 <= i < |q.plane.pushed| ensures q.plane.pushed[i] == AlignedTick(i, Taken(q.log)[i]) {
      PushedTickCarriesFrame(q, i);
    }
  }

  lemma SoundParts(p: Pipe)
    requires Sound(p)
    ensures D.Accounted(p.plane) && Increasing(p.plane.pushed) && |p.plane.pushed| <= |Taken(p.log)|
  {
    PushedIncreases(p);
    hide FrameOf, Taken, TicksOf, LogSound, Increasing, D.Accounted;
  }

  // ---- The thread bodies ----

  /** One turn of the receiver thread: the steps `Receive` and `Offer`. */
  method ReceiverTurn(ring: IngressRing, received: Option<Datagram>, ghost p: Pipe)
    requires ring.Valid() && p.ring == ring.queue && p.ringCapacity == ring.capacity
    requires D.Bounded(p.plane) && !Holding(p)
    modifies ring
    ensures ring.Valid()
    ensures ring.queue == (if received.None? then p else Next(Next(p, Receive(received.value)), Offer)).ring
  {
    hide DecodedStripped, D.Next;
    if received.Some? {
      var decoded := DecodeL2StrippedFrame(received.value.bytes);
      if decoded.Ok? {
        var rejected := ring.Push(IngressFrame(received.value.ts, Lift(decoded.value.asdu)));
      }
    }
  }

  /** One turn of the aligner thread: the steps `Align` and `Publish`. */
  method AlignerTurn(ring: IngressRing, aligner: Aligner, buffer: TickBuffer, ghost p: Pipe)
    requires ring.Valid() && p.ring == ring.queue && p.ringCapacity == ring.capacity
    requires buffer.Valid() && p.plane.buf == buffer.queue && p.plane.capacity == buffer.capacity
    requires p.nextId == aligner.nextTickId && p.hand == None && D.Bounded(p.plane)
    modifies ring, aligner, buffer
    ensures ring.Valid() && buffer.Valid()
    ensures var q := Next(Next(p, Align), Publish);
            ring.queue == q.ring && buffer.queue == q.plane.buf && aligner.nextTickId == q.nextId
  {
    hide AlignedTick, FrameOf, Settle;
    var frame := ring.Pop();
    if frame.Some? {
      var ticks := aligner.ProcessFrame(frame.value);
      var i := 0;
      while i < |ticks|
        invariant 0 <= i <= |ticks| == 1
        invariant buffer.Valid() && ring.Valid()
        invariant buffer.queue == (if i == 0 then p.plane.buf else AfterPush(p.plane.buf, p.plane.capacity, ticks[0]))
        invariant ring.queue == p.ring[1..] && aligner.nextTickId == p.nextId + 1
      {
        var outcome := buffer.Push(ticks[i]);
        i := i + 1;
      }
      D.PushAsBuffer(p.plane, ticks[0]);
    }
  }
}
