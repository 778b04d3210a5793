/** From datagrams on the wire to rows of the historian's file: the library's parts put together as its integration test
    does. The daemon itself attaches a historian to its synthetic loop only, which `Synthetic` models. */
module EndToEnd {
  import opened Historian
  import opened Ingress
  import opened Options
  import opened Text
  import opened Ticks
  import D = DataPlane
  import O = OpcUa
  import P = Pipeline

  /** The file a historian has written once `delivered` was given to it. */
  function FileText(delivered: seq<Tick>): string
  {
    HeaderLine() + "\n" + RowsText(delivered)
  }

  /** The file is a header and one row for each of the frames from `a` to `b`, which reads back as that frame's tick. */
  predicate HoldsFrames(text: string, frames: seq<IngressFrame>, a: nat, b: nat)
  {
    var lines := Split(text, '\n');
    && a <= b <= |frames| && |lines| == b - a + 2 && lines[0] == HeaderLine()
    && forall i :: a <= i < b ==> ReadRow(lines[1 + (i - a)]) == Some(DataOf(AlignedTick(i, frames[i])))
  }

  lemma SliceHoldsFrames(pushed: seq<Tick>, frames: seq<IngressFrame>, a: nat, b: nat)
    requires a <= b <= |pushed| <= |frames|
    requires forall i :: a <= i < b ==> pushed[i] == AlignedTick(i, frames[i])
    ensures HoldsFrames(FileText(pushed[a..b]), frames, a, b)
  {
    hide Split, HeaderLine, RowsText, ReadRow, DataOf, AlignedTick;
    var delivered := pushed[a..b];
    FileReadsBack(delivered);
    var lines := Split(FileText(delivered), '\n');
    forall i | a <= i < b ensures ReadRow(lines[1 + (i - a)]) == Some(DataOf(AlignedTick(i, frames[i]))) {
      var j: nat := i - a;
      assert ReadRow(lines[1 + j]) == Some(DataOf(delivered[j]));
    }
  }

  // ---- What OPC UA shows of an aligned tick ----

  /** A channel of an aligned tick is live, so its origin leaves the status to its quality: a good one shows as good. */
  lemma AlignedStatusIsQuality(id: nat, frame: IngressFrame, i: nat)
    requires frame.samples != [] && i < 8
    ensures var s, quality := AlignedTick(id, frame).samples[i], frame.samples[0].samples[i].quality % 0x100;
            && O.WithOrigin(O.StatusOfQuality(s.quality), s.origin) == O.StatusOfQuality(quality)
            && (quality == 0 ==> O.WithOrigin(O.StatusOfQuality(s.quality), s.origin) == 0)
  {
    AlignedTickCarriesFrame(id, frame);
    hide AlignedTick;
  }

  // ---- The historian object as a reader of the data plane ----

  /** The historian has written what subscription `k` was given, and its cursor stands where that one's does. */
  ghost predicate Mirrors(h: HistorianFile, p: D.Plane, k: nat)
    reads h, h.subscription
  {
    k in p.subs && h.subscription.cursor == p.subs[k].cursor && h.delivered == D.Flatten(p.subs[k].batches)
  }

  lemma FlattenMore(batches: seq<seq<Tick>>, batch: seq<Tick>)
    ensures D.Flatten(batches + [batch]) == D.Flatten(batches) + batch
  {
    assert (batches + [batch])[..|batches|] == batches;
  }

  /** One call of the historian's `tick` is the read of its subscription. */
  method HistorianTurn(h: HistorianFile, ghost p: D.Plane, ghost k: nat) returns (n: nat)
    requires h.Valid() && h.subscription.buffer.Valid() && D.Bounded(p)
    requires Mirrors(h, p, k) && h.subscription.buffer.queue == p.buf
    modifies h`rowsWritten, h`delivered, h.writer`content, h.subscription
    ensures h.Valid() && Mirrors(h, D.Next(p, D.ReadSince(k)), k)
  {
    hide Buffers.ReadSinceOf, RowsText, D.Flatten;
    FlattenMore(p.subs[k].batches, Buffers.ReadSinceOf(p.buf, p.subs[k].cursor));
    n := h.Tick();
  }

  /** No other step, of the threads or of other readers, touches what the historian was given. */
  lemma OtherStepsMirror(h: HistorianFile, p: P.Pipe, step: P.Step, k: nat)
    requires D.Bounded(p.plane) && Mirrors(h, p.plane, k) && step != P.Other(D.ReadSince(k))
    ensures Mirrors(h, P.Next(p, step).plane, k)
  {
    hide D.Next, AlignedTick, P.FrameOf, D.Flatten;
    if step.Publish? && p.hand.Some? {
      D.StepOn(p.plane, D.Push(p.hand.value), k);
    } else if step.Other? {
      D.StepOn(p.plane, step.step, k);
    }
  }

  /** The file of a historian that keeps pace with the pushes: one row per accepted frame, in order and without a gap,
      and each row reads back as the tick of its frame. */
  lemma PacedHistorianWritesEveryFrame(h: HistorianFile, p: P.Pipe, k: nat, steps: seq<P.Step>, budget: nat)
    requires D.Bounded(p.plane) && P.Sound(p) && k in p.plane.subs && p.plane.subs[k].batches == []
    requires D.Paced(P.PlaneSteps(p, steps), k, p.plane.capacity, budget)
    requires budget + (|p.plane.pushed| - D.Due(p.plane.gone, p.plane.subs[k])) <= p.plane.capacity
    requires h.Valid() && h.base == HeaderLine() + "\n" && Mirrors(h, P.Run(p, steps).plane, k)
    ensures var q := P.Run(p, steps);
            HoldsFrames(h.writer.content, P.Taken(q.log),
                        D.Due(p.plane.gone, p.plane.subs[k]), D.Due(q.plane.gone, q.plane.subs[k]))
  {
    hide P.Sound, D.Paced, D.Due, P.Run, P.PlaneSteps, P.Taken, AlignedTick, D.Bounded, HoldsFrames, RowsText;
    hide HeaderLine;
    P.PacedReaderGetsEveryFrame(p, k, steps, budget);
    var q := P.Run(p, steps);
    var a, b := D.Due(p.plane.gone, p.plane.subs[k]), D.Due(q.plane.gone, q.plane.subs[k]);
    assert D.Flatten(p.plane.subs[k].batches) == [];
    assert [] + q.plane.pushed[a..b] == q.plane.pushed[a..b];
    SliceHoldsFrames(q.plane.pushed, P.Taken(q.log), a, b);
  }
}
