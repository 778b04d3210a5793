/** The console's synthetic loop: in each turn one frame is made, aligned and pushed, and the historian is called once.
    This is the only place where the daemon itself runs a historian. */
module Synthetic {
  import opened Buffers
  import opened EndToEnd
  import opened Historian
  import opened Ingress
  import opened Lists
  import opened Options
  import opened Ticks
  import P = Pipeline

  const BIN_PERIOD_NS := 208_333

  // ---- What a run of the loop delivers ----

  /** What the first push leaves of an earlier run's ticks. */
  function Leftover(queue: seq<Tick>, capacity: nat): seq<Tick>
    requires 0 < capacity && |queue| <= capacity
  {
    if |queue| == capacity then queue[1..] else queue
  }

  function HighestId(queue: seq<Tick>): nat
  {
    if queue == [] then 0
    else
      var rest, last := HighestId(queue[..|queue| - 1]), queue[|queue| - 1];
      if last.tickId > rest then last.tickId else rest
  }

  lemma {:induction false} HighestIdIs(queue: seq<Tick>)
    ensures forall t :: t in queue ==> t.tickId <= HighestId(queue)
    ensures HighestId(queue) > 0 ==> exists t :: t in queue && t.tickId == HighestId(queue)
  {
    if queue != [] {
      var init, last := queue[..|queue| - 1], queue[|queue| - 1];
      HighestIdIs(init);
      assert queue == init + [last];
    }
  }

  /** The ids count up from zero. */
  predicate Counted(ticks: seq<Tick>)
  {
    forall i :: 0 <= i < |ticks| ==> ticks[i].tickId == i
  }

  /** The ticks with ids above `highest`, of ticks that are counted. */
  function Above(ticks: seq<Tick>, highest: nat): (r: seq<Tick>)
    ensures |r| == if highest < |ticks| then |ticks| - 1 - highest else 0
  {
    if highest < |ticks| then ticks[highest + 1..] else []
  }

  /** What a new subscription is given when it reads after each push of `ticks`: first all that is in the buffer, then
      the ticks with ids above all that it found there. */
  function Delivered(queue: seq<Tick>, capacity: nat, ticks: seq<Tick>): seq<Tick>
    requires 0 < capacity && |queue| <= capacity
  {
    if ticks == [] then []
    else
      ReadSinceOf(Leftover(queue, capacity) + [ticks[0]], None)
      + Above(ticks, HighestId(Leftover(queue, capacity)))
  }

  // ---- One turn ----

  lemma PushOnLeftover(queue: seq<Tick>, capacity: nat, t: Tick)
    requires 0 < capacity && |queue| <= capacity
    ensures AfterPush(queue, capacity, t) == Leftover(queue, capacity) + [t]
  {
  }

  /** What the buffer holds of `start` and the ticks pushed since. */
  function Held(start: seq<Tick>, capacity: nat, ticks: seq<Tick>): (r: seq<Tick>)
    ensures |r| <= capacity
  {
    LastOf(start + ticks, capacity)
  }

  lemma PushHeld(start: seq<Tick>, capacity: nat, ticks: seq<Tick>, t: Tick)
    requires 0 < capacity
    ensures Leftover(Held(start, capacity, ticks), capacity) + [t] == Held(start, capacity, ticks + [t])
  {
    assert start + (ticks + [t]) == start + ticks + [t];
  }

  lemma LastOfBatch(batch: seq<Tick>, t: Tick)
    requires Sorted(batch) && t in batch
    ensures t.tickId <= batch[|batch| - 1].tickId
  {
    var i :| 0 <= i < |batch| && batch[i] == t;
  }

  /** After draining everything, the cursor is at the highest id. */
  lemma CursorAtHighest(queue: seq<Tick>, t: Tick)
    requires t.tickId == 0
    ensures AdvancedCursor(None, ReadSinceOf(queue + [t], None)) == Some(HighestId(queue))
  {
    BatchContents(queue + [t], None);
    HighestIdIs(queue);
    var batch, highest := ReadSinceOf(queue + [t], None), HighestId(queue);
    hide ReadSinceOf, HighestId, IsStableSort, Sorted;
    assert t in batch;
    assert batch[|batch| - 1] in batch;
    if highest > 0 {
      var top :| top in queue && top.tickId == highest;
      LastOfBatch(batch, top);
    }
  }

  /** With nothing else after the cursor, a read gives the newest tick or nothing. */
  lemma OneFresh(queue: seq<Tick>, t: Tick, cursor: Option<nat>)
    requires forall x :: x in queue ==> !After(x, cursor)
    ensures ReadSinceOf(queue + [t], cursor) == if After(t, cursor) then [t] else []
  {
    assert (queue + [t])[..|queue|] == queue;
    assert RecentOf(queue + [t], |queue + [t]|) == [t] + Reverse(queue);
    FreshAppend([t], Reverse(queue), cursor);
    ReverseMembers(queue);
    FreshNone(Reverse(queue), cursor);
    FreshOne(t, cursor);
    SortOne(t);
    hide After, Reverse, Fresh, SortById;
  }

  lemma FreshOne(t: Tick, cursor: Option<nat>)
    ensures Fresh([t], cursor) + [] == if After(t, cursor) then [t] else []
  {
    assert [t][..0] == [];
    hide After;
  }

  lemma SortOne(t: Tick)
    ensures SortById([t]) == [t] && SortById([]) == []
  {
    assert [t][1..] == [];
  }

  function Max(a: nat, b: nat): nat
  {
    if a < b then b else a
  }

  predicate IdsUpTo(queue: seq<Tick>, id: nat)
  {
    forall t :: t in queue ==> t.tickId <= id
  }

  /** The buffer and the cursor after the turns that pushed `ticks`, on a buffer that held `start`. */
  predicate Turned(start: seq<Tick>, capacity: nat, ticks: seq<Tick>, queue: seq<Tick>, cursor: Option<nat>)
    requires 0 < capacity && |start| <= capacity
  {
    && queue == Held(start, capacity, ticks)
    && (ticks == [] ==> cursor == None)
    && (ticks != [] ==>
        && cursor == Some(Max(HighestId(Leftover(start, capacity)), |ticks| - 1))
        && IdsUpTo(queue, cursor.value))
  }

  lemma NoTurns(start: seq<Tick>, capacity: nat)
    requires 0 < capacity && |start| <= capacity
    ensures Turned(start, capacity, [], start, None) && Delivered(start, capacity, []) == []
  {
    NothingHeld(start, capacity);
  }

  lemma NothingHeld(start: seq<Tick>, capacity: nat)
    requires |start| <= capacity
    ensures Held(start, capacity, []) == start
  {
    assert start + [] == start;
  }

  lemma FirstRead(left: seq<Tick>, t: Tick)
    requires t.tickId == 0
    ensures AdvancedCursor(None, ReadSinceOf(left + [t], None)) == Some(HighestId(left))
    ensures IdsUpTo(left + [t], HighestId(left))
  {
    CursorAtHighest(left, t);
    HighestIdIs(left);
    hide AdvancedCursor, ReadSinceOf;
  }

  lemma FirstTurn(start: seq<Tick>, capacity: nat, t: Tick)
    requires 0 < capacity && |start| <= capacity && t.tickId == 0
    ensures var left := Leftover(start, capacity);
            var batch := ReadSinceOf(left + [t], None);
            && Turned(start, capacity, [t], left + [t], AdvancedCursor(None, batch))
            && batch == Delivered(start, capacity, [t])
  {
    var left := Leftover(start, capacity);
    NothingHeld(start, capacity);
    PushHeld(start, capacity, [], t);
    FirstRead(left, t);
    hide ReadSinceOf, HighestId, Leftover, Held, AdvancedCursor, IdsUpTo;
    assert [] + [t] == [t];
    var batch := ReadSinceOf(left + [t], None);
    assert batch + [] == batch;
  }

  lemma LaterRead(left: seq<Tick>, t: Tick, highest: nat, n: nat)
    requires n > 0 && t.tickId == n && IdsUpTo(left, Max(highest, n - 1))
    ensures ReadSinceOf(left + [t], Some(Max(highest, n - 1))) == if n > highest then [t] else []
    ensures AdvancedCursor(Some(Max(highest, n - 1)), if n > highest then [t] else []) == Some(Max(highest, n))
    ensures IdsUpTo(left + [t], Max(highest, n))
  {
    OneFresh(left, t, Some(Max(highest, n - 1)));
    hide ReadSinceOf;
  }

  lemma LeftoverIds(queue: seq<Tick>, capacity: nat, id: nat)
    requires 0 < capacity && |queue| <= capacity && IdsUpTo(queue, id)
    ensures IdsUpTo(Leftover(queue, capacity), id)
  {
  }

  /** Each later turn delivers its own tick exactly when its id is above all that the first turn found. */
  lemma LaterTurn(start: seq<Tick>, capacity: nat, ticks: seq<Tick>, t: Tick, queue: seq<Tick>, cursor: Option<nat>)
    requires 0 < capacity && |start| <= capacity && |queue| <= capacity && ticks != [] && t.tickId == |ticks|
    requires Turned(start, capacity, ticks, queue, cursor)
    ensures var left := Leftover(queue, capacity);
            var batch := ReadSinceOf(left + [t], cursor);
            && Turned(start, capacity, ticks + [t], left + [t], AdvancedCursor(cursor, batch))
            && batch == if |ticks| > HighestId(Leftover(start, capacity)) then [t] else []
  {
    hide ReadSinceOf, HighestId, Leftover, Held, AdvancedCursor, IdsUpTo, Max, Turned;
    var left, highest := Leftover(queue, capacity), HighestId(Leftover(start, capacity));
    TurnedParts(start, capacity, ticks, queue, cursor);
    LeftoverIds(queue, capacity, cursor.value);
    LaterRead(left, t, highest, |ticks|);
    PushHeld(start, capacity, ticks, t);
    IsTurned(start, capacity, ticks, t, left + [t], highest);
  }

  lemma TurnedParts(start: seq<Tick>, capacity: nat, ticks: seq<Tick>, queue: seq<Tick>, cursor: Option<nat>)
    requires 0 < capacity && |start| <= capacity && ticks != [] && Turned(start, capacity, ticks, queue, cursor)
    ensures queue == Held(start, capacity, ticks)
    ensures cursor == Some(Max(HighestId(Leftover(start, capacity)), |ticks| - 1)) && IdsUpTo(queue, cursor.value)
  {
    hide Held, HighestId, Leftover, IdsUpTo;
  }

  lemma IsTurned(start: seq<Tick>, capacity: nat, ticks: seq<Tick>, t: Tick, queue: seq<Tick>, highest: nat)
    requires 0 < capacity && |start| <= capacity && highest == HighestId(Leftover(start, capacity))
    requires queue == Held(start, capacity, ticks + [t]) && IdsUpTo(queue, Max(highest, |ticks|))
    ensures Turned(start, capacity, ticks + [t], queue, Some(Max(highest, |ticks|)))
  {
    hide Held, HighestId, Leftover, IdsUpTo;
  }

  lemma OneMoreDelivered(start: seq<Tick>, capacity: nat, ticks: seq<Tick>, t: Tick)
    requires 0 < capacity && |start| <= capacity && ticks != []
    ensures Delivered(start, capacity, ticks + [t])
         == Delivered(start, capacity, ticks) + if |ticks| > HighestId(Leftover(start, capacity)) then [t] else []
  {
    hide ReadSinceOf, HighestId, Leftover;
    var first := ReadSinceOf(Leftover(start, capacity) + [ticks[0]], None);
    AboveMore(first, ticks, t, HighestId(Leftover(start, capacity)));
  }

  lemma AboveMore(first: seq<Tick>, ticks: seq<Tick>, t: Tick, highest: nat)
    ensures first + Above(ticks + [t], highest)
         == first + Above(ticks, highest) + if |ticks| > highest then [t] else []
  {
  }

  lemma TurnDone(start: seq<Tick>, capacity: nat, ticks: seq<Tick>, t: Tick, queue: seq<Tick>, cursor: Option<nat>)
    requires 0 < capacity && |start| <= capacity && |queue| <= capacity && t.tickId == |ticks|
    requires Turned(start, capacity, ticks, queue, cursor)
    ensures var pushed := AfterPush(queue, capacity, t);
            var batch := ReadSinceOf(pushed, cursor);
            && Turned(start, capacity, ticks + [t], pushed, AdvancedCursor(cursor, batch))
            && Delivered(start, capacity, ticks) + batch == Delivered(start, capacity, ticks + [t])
  {
    PushOnLeftover(queue, capacity, t);
    if ticks == [] {
      NothingHeld(start, capacity);
      assert [] + [t] == [t];
      FirstTurn(start, capacity, t);
      var batch := ReadSinceOf(Leftover(queue, capacity) + [t], cursor);
      assert [] + batch == batch;
    } else {
      LaterTurn(start, capacity, ticks, t, queue, cursor);
      OneMoreDelivered(start, capacity, ticks, t);
    }
    hide ReadSinceOf, AfterPush, AdvancedCursor, HighestId, Above, Leftover, Held, IdsUpTo;
  }

  // ---- The loop ----

  lemma TicksMore(frames: seq<IngressFrame>, i: nat)
    requires i < |frames|
    ensures P.TicksOf(frames[..i + 1]) == P.TicksOf(frames[..i]) + [AlignedTick(i, frames[i])]
    ensures AlignedTick(i, frames[i]).tickId == i
  {
    assert frames[..i + 1][..i] == frames[..i];
    P.AlignedId(i, frames[i]);
    hide AlignedTick;
  }

  /** The loop with the frames it makes until it is stopped. */
  method RunPipeline(buffer: TickBuffer, file: TextFile, frames: seq<IngressFrame>) returns (historian: HistorianFile)
    requires buffer.Valid()
    modifies buffer, file
    ensures buffer.Valid() && historian.Valid() && historian.writer == file
    ensures buffer.queue == LastOf(old(buffer.queue) + P.TicksOf(frames), buffer.capacity)
    ensures historian.base == if old(file.existed) then old(file.content) else old(file.content) + HeaderLine() + "\n"
    ensures historian.delivered == Delivered(old(buffer.queue), buffer.capacity, P.TicksOf(frames))
  {
    hide HeaderLine, Content, Delivered, Turned, LastOf, ReadSinceOf, AlignedTick, AfterPush, P.TicksOf, AdvancedCursor;
    var aligner := new Aligner(BIN_PERIOD_NS);
    var subscription := new Subscription(buffer);
    historian := new HistorianFile(file, subscription);
    ghost var start := buffer.queue;
    var turn := 0;
    NoTurns(start, buffer.capacity);
    NoTicks(frames);
    while turn < |frames|
      invariant 0 <= turn <= |frames|
      invariant buffer.Valid() && historian.Valid() && aligner.nextTickId == turn
      invariant Turned(start, buffer.capacity, P.TicksOf(frames[..turn]), buffer.queue, subscription.cursor)
      invariant historian.delivered == Delivered(start, buffer.capacity, P.TicksOf(frames[..turn]))
    {
      ghost var queue, cursor := buffer.queue, subscription.cursor;
      var ticks := aligner.ProcessFrame(frames[turn]);
      var i := 0;
      while i < |ticks|
        invariant 0 <= i <= |ticks| == 1
        invariant buffer.Valid()
        invariant buffer.queue == if i == 0 then queue else AfterPush(queue, buffer.capacity, ticks[0])
        modifies buffer
      {
        var outcome := buffer.Push(ticks[i]);
        i := i + 1;
      }
      var n := historian.Tick();
      TicksMore(frames, turn);
      TurnDone(start, buffer.capacity, P.TicksOf(frames[..turn]), ticks[0], queue, cursor);
      turn := turn + 1;
    }
    assert frames[..turn] == frames;
    AllTurned(start, buffer.capacity, P.TicksOf(frames), buffer.queue, subscription.cursor);
  }

  lemma NoTicks(frames: seq<IngressFrame>)
    ensures P.TicksOf(frames[..0]) == []
  {
  }

  lemma AllTurned(start: seq<Tick>, capacity: nat, ticks: seq<Tick>, queue: seq<Tick>, cursor: Option<nat>)
    requires 0 < capacity && |start| <= capacity && Turned(start, capacity, ticks, queue, cursor)
    ensures queue == LastOf(start + ticks, capacity)
  {
  }

  // ---- What that means ----

  lemma TicksCounted(frames: seq<IngressFrame>)
    ensures Counted(P.TicksOf(frames))
    ensures forall i :: 0 <= i < |frames| ==> P.TicksOf(frames)[i] == AlignedTick(i, frames[i])
  {
    hide P.TicksOf, AlignedTick;
    forall i | 0 <= i < |frames|
      ensures P.TicksOf(frames)[i] == AlignedTick(i, frames[i]) && P.TicksOf(frames)[i].tickId == i
    {
      P.TicksAt(frames, i);
      P.AlignedId(i, frames[i]);
    }
  }

  /** On an empty buffer every tick is delivered, once and in order ... */
  lemma EmptyBufferLosesNothing(capacity: nat, ticks: seq<Tick>)
    requires 0 < capacity && Counted(ticks)
    ensures Delivered([], capacity, ticks) == ticks
  {
    if ticks != [] {
      OneFresh([], ticks[0], None);
      assert [] + [ticks[0]] == [ticks[0]];
      assert ticks == [ticks[0]] + ticks[1..];
    }
    hide ReadSinceOf;
  }

  /** ... so a new file reads back as the loop's frames: here the historian need not be asked to keep pace. */
  lemma LoopFileHoldsFrames(capacity: nat, frames: seq<IngressFrame>)
    requires 0 < capacity
    ensures HoldsFrames(Content(HeaderLine() + "\n", Delivered([], capacity, P.TicksOf(frames))), frames, 0, |frames|)
  {
    hide P.TicksOf, AlignedTick, Delivered, RowsText, HeaderLine, HoldsFrames;
    var ticks := P.TicksOf(frames);
    TicksCounted(frames);
    EmptyBufferLosesNothing(capacity, ticks);
    SliceHoldsFrames(ticks, frames, 0, |frames|);
    assert ticks[0..|frames|] == ticks;
  }

  /** Exactly when every later turn delivers its tick: when the first push leaves no tick of an earlier run, except with
      the id 0. */
  lemma NothingSkippedIff(queue: seq<Tick>, capacity: nat, ticks: seq<Tick>)
    requires 0 < capacity && |queue| <= capacity && |ticks| > 1
    ensures Delivered(queue, capacity, ticks)
         == ReadSinceOf(Leftover(queue, capacity) + [ticks[0]], None) + ticks[1..]
       <==> forall t :: t in Leftover(queue, capacity) ==> t.tickId == 0
  {
    var left := Leftover(queue, capacity);
    var highest := HighestId(left);
    HighestIdIs(left);
    assert highest == 0 <==> forall t :: t in left ==> t.tickId == 0;
    hide ReadSinceOf, Leftover, HighestId;
    SameEndIff(ReadSinceOf(left + [ticks[0]], None), ticks, highest);
  }

  lemma SameEndIff(first: seq<Tick>, ticks: seq<Tick>, highest: nat)
    requires |ticks| > 1
    ensures first + Above(ticks, highest) == first + ticks[1..] <==> highest == 0
  {
    if highest > 0 {
      assert |first + Above(ticks, highest)| < |first + ticks[1..]|;
    }
  }

  /** Stopped after pushing `before` and started again on the same buffer: the ticks that are still buffered are
      delivered again, and the new ones with the ids 1 to |before| - 1 never. */
  lemma RestartRepeatsAndSkips(before: seq<Tick>, capacity: nat, ticks: seq<Tick>)
    requires 1 < capacity && before != [] && ticks != [] && Counted(before)
    ensures var queue := LastOf(before, capacity);
            var first := ReadSinceOf(Leftover(queue, capacity) + [ticks[0]], None);
            && Delivered(queue, capacity, ticks) == first + Above(ticks, |before| - 1)
            && forall t :: t in Leftover(queue, capacity) ==> t in Delivered([], capacity, before) && t in first
  {
    LeftoverOfLast(before, capacity);
    EmptyBufferLosesNothing(capacity, before);
    DrainsAll(Leftover(LastOf(before, capacity), capacity), ticks[0]);
    hide ReadSinceOf, LastOf, Leftover, HighestId, Above;
  }

  lemma DrainsAll(left: seq<Tick>, t: Tick)
    ensures forall x :: x in left ==> x in ReadSinceOf(left + [t], None)
  {
    BatchContents(left + [t], None);
    hide ReadSinceOf, IsStableSort, Sorted;
  }

  lemma LeftoverOfLast(before: seq<Tick>, capacity: nat)
    requires 1 < capacity && before != [] && Counted(before)
    ensures var left := Leftover(LastOf(before, capacity), capacity);
            HighestId(left) == |before| - 1 && forall t :: t in left ==> t in before
  {
    var left := Leftover(LastOf(before, capacity), capacity);
    assert left == before[|before| - |left|..] && left != [];
    assert left[|left| - 1] == before[|before| - 1] && left[|left| - 1] in left;
    assert forall t :: t in left ==> t in before;
    HighestIdIs(left);
    hide HighestId, LastOf, Leftover;
    assert HighestId(left) >= |before| - 1;
  }
}
