/** The CSV historian: a reader of the tick buffer that appends one row per delivered record. */
module Historian {
  import opened Options
  import opened Ticks
  import opened Buffers
  import opened Text

  const COLUMNS := 4 + 3 * MAX_CHANNELS

  // ---- What a row holds ----

  function HeadColumns(t: Tick): seq<string>
  {
    [Numeral(t.tickId, 10), Numeral(t.tsUtcNs, 10), Numeral(t.nChannels, 10), "0x" + Padded(t.flags as int, 16, 4)]
  }

  function SampleColumns(s: Sample): seq<string>
  {
    [Signed(s.valueQ), Numeral(s.quality, 10), Numeral(s.origin, 10)]
  }

  function SlotColumns(samples: seq<Sample>): (r: seq<string>)
    ensures |r| == 3 * |samples|
  {
    if samples == [] then []
    else SlotColumns(samples[..|samples| - 1]) + SampleColumns(samples[|samples| - 1])
  }

  function Columns(t: Tick): (r: seq<string>)
    ensures |r| == COLUMNS
  {
    HeadColumns(t) + SlotColumns(t.samples)
  }

  function RowLine(t: Tick): string
  {
    Join(Columns(t), ',')
  }

  function ChannelName(i: nat, part: string): string
  {
    "ch" + Numeral(i, 10) + part
  }

  function ChannelNames(n: nat): (r: seq<string>)
    ensures |r| == 3 * n
  {
    if n == 0 then []
    else
      ChannelNames(n - 1)
      + [ChannelName(n - 1, "_value"), ChannelName(n - 1, "_quality"), ChannelName(n - 1, "_origin")]
  }

  function HeaderNames(): seq<string>
  {
    ["tick_id", "ts_utc_ns", "n_channels", "flags_hex"]
  }

  function HeaderLine(): string
  {
    Join(HeaderNames() + ChannelNames(MAX_CHANNELS), ',')
  }

  function RowsText(ts: seq<Tick>): string
  {
    if ts == [] then "" else RowsText(ts[..|ts| - 1]) + RowLine(ts[|ts| - 1]) + "\n"
  }

  // ---- Writing ----

  lemma JoinMore(pieces: seq<string>, a: string, sep: char)
    requires pieces != []
    ensures Join(pieces + [a], sep) == Join(pieces, sep) + [sep] + a
  {
  }

  lemma JoinThree(pieces: seq<string>, a: string, b: string, c: string)
    requires pieces != []
    ensures Join(pieces + [a, b, c], ',') == Join(pieces, ',') + "," + a + "," + b + "," + c
  {
    JoinMore(pieces, a, ',');
    JoinMore(pieces + [a], b, ',');
    JoinMore(pieces + [a] + [b], c, ',');
    assert pieces + [a] + [b] + [c] == pieces + [a, b, c];
  }

  lemma JoinFour(a: string, b: string, c: string, d: string)
    ensures Join([a, b, c, d], ',') == a + "," + b + "," + c + "," + d
  {
    JoinThree([a], b, c, d);
    assert [a] + [b, c, d] == [a, b, c, d];
  }

  class TextFile {
    var existed: bool
    var content: string

    /** A path with nothing at it, or a file left by an earlier run. */
    constructor (existed: bool, content: string)
      requires !existed ==> content == ""
      ensures this.existed == existed && this.content == content
    {
      this.existed, this.content := existed, content;
    }
  }

  method WriteCsvHeader(w: TextFile)
    modifies w`content
    ensures w.content == old(w.content) + HeaderLine() + "\n"
  {
    hide Join, ChannelName, HeaderNames;
    var line := "tick_id,ts_utc_ns,n_channels,flags_hex";
    HeaderStart();
    HeaderHasNames();
    assert HeaderNames() + ChannelNames(0) == HeaderNames();
    var i := 0;
    while i < MAX_CHANNELS
      invariant 0 <= i <= MAX_CHANNELS
      invariant w.content == old(w.content) && HeaderNames() != []
      invariant line == Join(HeaderNames() + ChannelNames(i), ',')
    {
      OneMoreChannel(i);
      line := line + "," + ChannelName(i, "_value")
              + "," + ChannelName(i, "_quality") + "," + ChannelName(i, "_origin");
      i := i + 1;
    }
    w.content := w.content + line + "\n";
  }

  lemma HeaderStart()
    ensures "tick_id,ts_utc_ns,n_channels,flags_hex" == Join(HeaderNames(), ',')
  {
    JoinFour("tick_id", "ts_utc_ns", "n_channels", "flags_hex");
    hide Join;
    assert "tick_id" + "," + "ts_utc_ns" == "tick_id,ts_utc_ns";
    assert "tick_id,ts_utc_ns" + "," + "n_channels" == "tick_id,ts_utc_ns,n_channels";
  }

  lemma HeaderHasNames()
    ensures HeaderNames() != []
  {
  }

  lemma OneMoreChannel(i: nat)
    ensures HeaderNames() + ChannelNames(i + 1) != []
    ensures Join(HeaderNames() + ChannelNames(i + 1), ',')
         == Join(HeaderNames() + ChannelNames(i), ',') + "," + ChannelName(i, "_value")
            + "," + ChannelName(i, "_quality") + "," + ChannelName(i, "_origin")
  {
    var v, q, o := ChannelName(i, "_value"), ChannelName(i, "_quality"), ChannelName(i, "_origin");
    JoinThree(HeaderNames() + ChannelNames(i), v, q, o);
    assert HeaderNames() + ChannelNames(i) + [v, q, o] == HeaderNames() + ChannelNames(i + 1);
    hide Join, ChannelName;
  }

  method WriteCsvRow(w: TextFile, t: Tick)
    modifies w`content
    ensures w.content == old(w.content) + RowLine(t) + "\n"
  {
    hide Join, Numeral, Signed, Padded;
    var flags := "0x" + Padded(t.flags as int, 16, 4);
    var line := Numeral(t.tickId, 10) + "," + Numeral(t.tsUtcNs, 10) + "," + Numeral(t.nChannels, 10) + "," + flags;
    JoinFour(Numeral(t.tickId, 10), Numeral(t.tsUtcNs, 10), Numeral(t.nChannels, 10), flags);
    assert HeadColumns(t) + SlotColumns(t.samples[..0]) == HeadColumns(t);
    var i := 0;
    while i < MAX_CHANNELS
      invariant 0 <= i <= MAX_CHANNELS
      invariant w.content == old(w.content)
      invariant line == Join(HeadColumns(t) + SlotColumns(t.samples[..i]), ',')
    {
      var s := t.samples[i];
      line := line + "," + Signed(s.valueQ) + "," + Numeral(s.quality, 10) + "," + Numeral(s.origin, 10);
      OneMoreSlot(t, i);
      i := i + 1;
    }
    assert t.samples[..i] == t.samples;
    assert line == RowLine(t);
    w.content := w.content + line + "\n";
  }

  lemma OneMoreSlot(t: Tick, i: nat)
    requires i < MAX_CHANNELS
    ensures Join(HeadColumns(t) + SlotColumns(t.samples[..i + 1]), ',')
         == Join(HeadColumns(t) + SlotColumns(t.samples[..i]), ',')
            + "," + Signed(t.samples[i].valueQ) + "," + Numeral(t.samples[i].quality, 10)
            + "," + Numeral(t.samples[i].origin, 10)
  {
    var s := t.samples[i];
    hide Join, Numeral, Signed, HeadColumns, SlotColumns;
    NextSlot(t.samples, i);
    var before, more := HeadColumns(t) + SlotColumns(t.samples[..i]), SampleColumns(s);
    assert before + more == HeadColumns(t) + SlotColumns(t.samples[..i + 1]);
    HeadHasColumns(t);
    JoinThree(before, Signed(s.valueQ), Numeral(s.quality, 10), Numeral(s.origin, 10));
  }

  lemma HeadHasColumns(t: Tick)
    ensures HeadColumns(t) != []
  {
  }

  lemma NextSlot(samples: seq<Sample>, i: nat)
    requires i < |samples|
    ensures SlotColumns(samples[..i + 1]) == SlotColumns(samples[..i]) + SampleColumns(samples[i])
  {
    assert samples[..i + 1][..i] == samples[..i];
    hide SampleColumns;
  }

  /** The writing loop of `Tick`. */
  method AppendRows(w: TextFile, batch: seq<Tick>)
    modifies w`content
    ensures w.content == old(w.content) + RowsText(batch)
  {
    hide RowLine;
    var i := 0;
    while i < |batch|
      invariant 0 <= i <= |batch|
      invariant w.content == old(w.content) + RowsText(batch[..i])
    {
      WriteCsvRow(w, batch[i]);
      assert batch[..i + 1][..i] == batch[..i];
      assert old(w.content) + RowsText(batch[..i]) + RowLine(batch[i]) + "\n"
          == old(w.content) + (RowsText(batch[..i]) + RowLine(batch[i]) + "\n");
      i := i + 1;
    }
    assert batch[..i] == batch;
  }

  /** What a file holds that held `base` when it was opened. */
  function Content(base: string, delivered: seq<Tick>): string
  {
    base + RowsText(delivered)
  }

  class HistorianFile {
    const writer: TextFile
    const subscription: Subscription
    var rowsWritten: nat
    ghost const base: string
    ghost var delivered: seq<Tick>

    /** The file is what it was when opened, then one row per delivered record, in delivery order. */
    ghost predicate Valid()
      reads this, writer
    {
      writer.content == Content(base, delivered) && rowsWritten == |delivered|
    }

    constructor (writer: TextFile, subscription: Subscription)
      modifies writer
      ensures Valid() && delivered == [] && this.writer == writer && this.subscription == subscription
      ensures base == if old(writer.existed) then old(writer.content) else old(writer.content) + HeaderLine() + "\n"
    {
      this.writer, this.subscription := writer, subscription;
      rowsWritten, delivered := 0, [];
      base := if writer.existed then writer.content else writer.content + HeaderLine() + "\n";
      new;
      if !writer.existed {
        WriteCsvHeader(writer);
      }
      writer.existed := true;
    }

    /** Drains the subscription into the file. */
    method Tick() returns (n: nat)
      requires Valid() && subscription.buffer.Valid()
      modifies this`rowsWritten, this`delivered, writer`content, subscription
      ensures Valid()
      ensures delivered == old(delivered) + ReadSinceOf(subscription.buffer.queue, old(subscription.cursor))
      ensures subscription.cursor
           == AdvancedCursor(old(subscription.cursor), ReadSinceOf(subscription.buffer.queue, old(subscription.cursor)))
      ensures n == |delivered| - |old(delivered)|
    {
      hide Content, RowsText, ReadSinceOf, AdvancedCursor;
      ghost var before := delivered;
      var batch := subscription.ReadSince();
      AppendRows(writer, batch);
      RowsAfter(base, before, batch);
      rowsWritten := rowsWritten + |batch|;
      delivered := before + batch;
      n := |batch|;
    }
  }

  lemma RowsAfter(base: string, before: seq<Tick>, batch: seq<Tick>)
    ensures Content(base, before) + RowsText(batch) == Content(base, before + batch)
  {
    hide RowsText;
    RowsConcat(before, batch);
    Regroup(base, RowsText(before), RowsText(batch));
  }

  lemma Regroup(a: string, b: string, c: string)
    ensures a + b + c == a + (b + c)
  {
  }

  lemma {:induction false} RowsConcat(a: seq<Tick>, b: seq<Tick>)
    ensures RowsText(a + b) == RowsText(a) + RowsText(b)
    decreases |b|
  {
    hide RowLine;
    if b == [] {
      assert a + b == a;
      assert RowsText(a) + "" == RowsText(a);
    } else {
      var init, last := b[..|b| - 1], b[|b| - 1];
      assert (a + b)[..|a + b| - 1] == a + init;
      RowsConcat(a, init);
      assert RowsText(a) + RowsText(init) + RowLine(last) + "\n"
          == RowsText(a) + (RowsText(init) + RowLine(last) + "\n");
    }
  }

  // ---- Reading back ----

  datatype Slot = Slot(valueQ: int, quality: int, origin: int)

  datatype RowData = RowData(tickId: int, tsUtcNs: int, nChannels: int, flags: int, slots: seq<Slot>)

  function DataOf(t: Tick): RowData
  {
    RowData(t.tickId, t.tsUtcNs, t.nChannels, t.flags as int, SlotsOf(t.samples))
  }

  function SlotsOf(samples: seq<Sample>): (r: seq<Slot>)
    ensures |r| == |samples|
  {
    if samples == [] then []
    else
      var s := samples[|samples| - 1];
      SlotsOf(samples[..|samples| - 1]) + [Slot(s.valueQ, s.quality, s.origin)]
  }

  function ReadSlots(columns: seq<string>): seq<Slot>
  {
    if |columns| < 3 then []
    else
      var n := |columns|;
      ReadSlots(columns[..n - 3])
      + [Slot(SignedValue(columns[n - 3]), ValueOf(columns[n - 2], 10), ValueOf(columns[n - 1], 10))]
  }

  /** A row as a reader of the file takes it apart: none unless it has exactly the header's columns. */
  function ReadRow(line: string): Option<RowData>
  {
    var columns := Split(line, ',');
    if |columns| != |Split(HeaderLine(), ',')| || |columns| < 4 || |columns[3]| < 2 then None
    else Some(RowData(ValueOf(columns[0], 10), ValueOf(columns[1], 10), ValueOf(columns[2], 10),
                      ValueOf(columns[3][2..], 16), ReadSlots(columns[4..])))
  }

  lemma {:induction false} SlotsReadBack(samples: seq<Sample>)
    ensures ReadSlots(SlotColumns(samples)) == SlotsOf(samples)
    decreases |samples|
  {
    hide SignedValue, Signed, ValueOf, Numeral;
    if samples != [] {
      var init, s := samples[..|samples| - 1], samples[|samples| - 1];
      SlotsReadBack(init);
      SignedBack(s.valueQ);
      NumeralBack(s.quality, 10);
      NumeralBack(s.origin, 10);
      var columns := SlotColumns(samples);
      assert columns[..|columns| - 3] == SlotColumns(init);
    }
  }

  predicate Clean(piece: string)
  {
    ',' !in piece && '\n' !in piece
  }

  predicate AllClean(pieces: seq<string>)
  {
    forall p :: p in pieces ==> Clean(p)
  }

  lemma {:induction false} SlotColumnsClean(samples: seq<Sample>)
    ensures AllClean(SlotColumns(samples))
  {
    hide Signed, Numeral;
    if samples != [] {
      SlotColumnsClean(samples[..|samples| - 1]);
      var s := samples[|samples| - 1];
      assert Clean(Signed(s.valueQ)) && Clean(Numeral(s.quality, 10)) && Clean(Numeral(s.origin, 10));
    }
  }

  lemma HeadColumnsClean(t: Tick)
    ensures AllClean(HeadColumns(t))
  {
  }

  lemma {:induction false} ChannelNamesClean(n: nat)
    ensures AllClean(ChannelNames(n))
  {
    if n > 0 {
      ChannelNamesClean(n - 1);
      NameClean(n - 1, "_value");
      NameClean(n - 1, "_quality");
      NameClean(n - 1, "_origin");
    }
    hide ChannelName;
  }

  lemma NameClean(i: nat, part: string)
    requires Clean(part)
    ensures Clean(ChannelName(i, part))
  {
  }

  lemma CleanPieces(a: seq<string>, b: seq<string>)
    requires AllClean(a) && AllClean(b)
    ensures AllClean(a + b)
  {
  }

  lemma CommaFree(pieces: seq<string>)
    requires AllClean(pieces)
    ensures forall i :: 0 <= i < |pieces| ==> ',' !in pieces[i]
  {
    forall i | 0 <= i < |pieces| ensures ',' !in pieces[i] {
      assert pieces[i] in pieces && Clean(pieces[i]);
    }
  }

  lemma {:induction false} JoinClean(pieces: seq<string>)
    requires pieces != [] && AllClean(pieces)
    ensures '\n' !in Join(pieces, ',')
  {
    var last := pieces[|pieces| - 1];
    assert last in pieces;
    if |pieces| > 1 {
      JoinClean(pieces[..|pieces| - 1]);
    }
  }

  lemma RowSplits(t: Tick)
    ensures AllClean(Columns(t)) && Split(RowLine(t), ',') == Columns(t) && '\n' !in RowLine(t)
  {
    hide HeadColumns, Join, Split;
    HeadColumnsClean(t);
    SlotColumnsClean(t.samples);
    CleanPieces(HeadColumns(t), SlotColumns(t.samples));
    CommaFree(Columns(t));
    SplitJoin(Columns(t), ',');
    JoinClean(Columns(t));
  }

  lemma HeaderSplits()
    ensures |Split(HeaderLine(), ',')| == COLUMNS && '\n' !in HeaderLine()
  {
    hide Join, Split, ChannelNames;
    HeaderNamesClean();
    ChannelNamesClean(MAX_CHANNELS);
    CleanPieces(HeaderNames(), ChannelNames(MAX_CHANNELS));
    CommaFree(HeaderNames() + ChannelNames(MAX_CHANNELS));
    SplitJoin(HeaderNames() + ChannelNames(MAX_CHANNELS), ',');
    JoinClean(HeaderNames() + ChannelNames(MAX_CHANNELS));
  }

  lemma HeaderNamesClean()
    ensures AllClean(HeaderNames())
  {
  }

  /** Every row has the header's columns, and they read back as the record's own fields. */
  lemma RowReadsBack(t: Tick)
    ensures |Split(RowLine(t), ',')| == |Split(HeaderLine(), ',')| == COLUMNS
    ensures ReadRow(RowLine(t)) == Some(DataOf(t))
  {
    hide Split, RowLine, HeaderLine, ReadSlots, SlotColumns, SlotsOf, Numeral, ValueOf, Padded;
    RowSplits(t);
    HeaderSplits();
    NumeralBack(t.tickId, 10);
    NumeralBack(t.tsUtcNs, 10);
    NumeralBack(t.nChannels, 10);
    PaddedBack(t.flags as int, 16, 4);
    SlotsReadBack(t.samples);
    var columns := Columns(t);
    assert columns[4..] == SlotColumns(t.samples);
    assert columns[3][2..] == Padded(t.flags as int, 16, 4);
  }

  /** The names of the columns: four for the record, then three for each of the 64 slots, numbered from zero. */
  lemma HeaderColumn(i: nat)
    requires i < 64
    ensures var names := Split(HeaderLine(), ',');
            && |names| == 196 && names[..4] == ["tick_id", "ts_utc_ns", "n_channels", "flags_hex"]
            && names[4 + 3 * i] == "ch" + Numeral(i, 10) + "_value"
            && names[5 + 3 * i] == "ch" + Numeral(i, 10) + "_quality"
            && names[6 + 3 * i] == "ch" + Numeral(i, 10) + "_origin"
  {
    hide Join, Split, Numeral;
    HeaderNamesClean();
    ChannelNamesClean(MAX_CHANNELS);
    ChannelNameAt(MAX_CHANNELS, i);
    hide ChannelNames;
    CleanPieces(HeaderNames(), ChannelNames(MAX_CHANNELS));
    CommaFree(HeaderNames() + ChannelNames(MAX_CHANNELS));
    SplitJoin(HeaderNames() + ChannelNames(MAX_CHANNELS), ',');
  }

  lemma {:induction false} ChannelNameAt(n: nat, i: nat)
    requires i < n
    ensures ChannelNames(n)[3 * i] == "ch" + Numeral(i, 10) + "_value"
    ensures ChannelNames(n)[3 * i + 1] == "ch" + Numeral(i, 10) + "_quality"
    ensures ChannelNames(n)[3 * i + 2] == "ch" + Numeral(i, 10) + "_origin"
  {
    hide Numeral;
    if i < n - 1 {
      ChannelNameAt(n - 1, i);
    }
  }

  /** The columns of a row: the id, the time and the channel count in decimal, the flags as 0x and four capital
      hexadecimal digits, and for every slot its signed value, its quality and its origin in decimal. */
  lemma RowColumn(t: Tick, i: nat)
    requires i < 64
    ensures var columns := Split(RowLine(t), ',');
            && |columns| == 196
            && columns[0] == Numeral(t.tickId, 10) && columns[1] == Numeral(t.tsUtcNs, 10)
            && columns[2] == Numeral(t.nChannels, 10)
            && |columns[3]| == 6 && columns[3][..2] == "0x" && ValueOf(columns[3][2..], 16) == t.flags as int
            && columns[4 + 3 * i] == Signed(t.samples[i].valueQ)
            && columns[5 + 3 * i] == Numeral(t.samples[i].quality, 10)
            && columns[6 + 3 * i] == Numeral(t.samples[i].origin, 10)
  {
    hide Split, RowLine, Numeral, ValueOf, Padded, Signed, SlotColumns;
    RowSplits(t);
    SlotColumnAt(t.samples, i);
    FlagsWidth(t.flags as int);
    PaddedBack(t.flags as int, 16, 4);
    var columns := Columns(t);
    assert columns[3] == "0x" + Padded(t.flags as int, 16, 4);
    assert columns[3][2..] == Padded(t.flags as int, 16, 4);
    assert columns[4..] == SlotColumns(t.samples);
  }

  lemma {:induction false} SlotColumnAt(samples: seq<Sample>, i: nat)
    requires i < |samples|
    ensures SlotColumns(samples)[3 * i] == Signed(samples[i].valueQ)
    ensures SlotColumns(samples)[3 * i + 1] == Numeral(samples[i].quality, 10)
    ensures SlotColumns(samples)[3 * i + 2] == Numeral(samples[i].origin, 10)
  {
    hide Signed, Numeral;
    if i < |samples| - 1 {
      SlotColumnAt(samples[..|samples| - 1], i);
    }
  }

  lemma FlagsWidth(flags: nat)
    requires flags < 0x1_0000
    ensures |Padded(flags, 16, 4)| == 4
  {
    assert |Numeral(flags / 16 / 16 / 16, 16)| == 1;
    assert |Numeral(flags / 16 / 16, 16)| <= 2;
    assert |Numeral(flags / 16, 16)| <= 3;
    assert |Numeral(flags, 16)| <= 4;
  }

  function RowLines(ts: seq<Tick>): (r: seq<string>)
    ensures |r| == |ts|
  {
    if ts == [] then [] else RowLines(ts[..|ts| - 1]) + [RowLine(ts[|ts| - 1])]
  }

  lemma {:induction false} RowLinesAt(ts: seq<Tick>, i: nat)
    requires i < |ts|
    ensures RowLines(ts)[i] == RowLine(ts[i])
  {
    hide RowLine;
    if i < |ts| - 1 {
      RowLinesAt(ts[..|ts| - 1], i);
    }
  }

  lemma LineAppended(text: string, lines: seq<string>, line: string)
    requires Split(text, '\n') == lines + [""] && '\n' !in line
    ensures Split(text + line + "\n", '\n') == lines + [line] + [""]
  {
    SplitAppend(text, line, '\n');
    assert "" + line == line;
    SplitAtSep(text + line, '\n');
    hide Split;
  }

  lemma FirstRowAppended(base: string, line: string)
    requires '\n' !in line
    ensures Split(base + line + "\n", '\n') == LastWith(Split(base, '\n'), line) + [""]
  {
    SplitAppend(base, line, '\n');
    SplitAtSep(base + line, '\n');
    hide Split, LastWith;
  }

  lemma NextRowAppended(base: string, before: seq<Tick>, last: Tick, first: seq<string>)
    requires before != [] && '\n' !in RowLine(last)
    requires Split(base + RowsText(before), '\n') == first + RowLines(before)[1..] + [""]
    ensures Split(base + RowsText(before) + RowLine(last) + "\n", '\n') == first + RowLines(before + [last])[1..] + [""]
  {
    RowLinesMore(before, last);
    hide Split, RowLine, RowLines, RowsText;
    LineAppended(base + RowsText(before), first + RowLines(before)[1..], RowLine(last));
    MoveLast(first, RowLines(before), RowLine(last));
  }

  lemma RowLinesMore(before: seq<Tick>, last: Tick)
    ensures RowLines(before + [last]) == RowLines(before) + [RowLine(last)]
  {
    hide RowLine;
    assert (before + [last])[..|before|] == before;
  }

  lemma MoveLast<T>(first: seq<T>, rows: seq<T>, last: T)
    requires rows != []
    ensures first + rows[1..] + [last] == first + (rows + [last])[1..]
  {
  }

  lemma RowsTextMore(base: string, before: seq<Tick>, last: Tick)
    ensures base + RowsText(before + [last]) == base + RowsText(before) + RowLine(last) + "\n"
  {
    hide RowLine;
    assert (before + [last])[..|before|] == before;
    Regroup(base, RowsText(before), RowLine(last));
    Regroup(base, RowsText(before) + RowLine(last), "\n");
  }

  /** Rows appended to any text: the first one runs into what follows the text's last newline, the others are lines of
      their own. */
  lemma {:induction false} LinesAppended(base: string, ts: seq<Tick>)
    requires ts != []
    ensures Split(base + RowsText(ts), '\n')
         == LastWith(Split(base, '\n'), RowLine(ts[0])) + RowLines(ts)[1..] + [""]
  {
    hide Split, RowLine, LastWith, RowsText, RowLines;
    var init, last := ts[..|ts| - 1], ts[|ts| - 1];
    assert ts == init + [last];
    RowSplits(last);
    RowsTextMore(base, init, last);
    if init == [] {
      NoRows(base);
      FirstRowAppended(base, RowLine(last));
      assert |RowLines(ts)| == 1;
      var first := LastWith(Split(base, '\n'), RowLine(ts[0]));
      assert first + RowLines(ts)[1..] == first;
    } else {
      LinesAppended(base, init);
      NextRowAppended(base, init, last, LastWith(Split(base, '\n'), RowLine(ts[0])));
    }
  }

  lemma NoRows(base: string)
    ensures base + RowsText([]) == base
  {
  }

  predicate EndsLine(text: string)
  {
    text == "" || text[|text| - 1] == '\n'
  }

  lemma {:induction false} LastPiece(text: string)
    ensures var pieces := Split(text, '\n'); pieces[|pieces| - 1] == "" <==> EndsLine(text)
  {
  }

  /** The appended rows are lines of their own, after the lines that were there, if and only if the file was empty or
      ended with a newline. */
  lemma RowsStandAlone(base: string, ts: seq<Tick>)
    ensures var pieces := Split(base, '\n');
            Split(base + RowsText(ts), '\n') == pieces[..|pieces| - 1] + RowLines(ts) + [""] <==> EndsLine(base)
  {
    LastPiece(base);
    hide Split, EndsLine, RowLine;
    var pieces := Split(base, '\n');
    if ts == [] {
      assert base + RowsText(ts) == base;
      assert pieces == pieces[..|pieces| - 1] + [pieces[|pieces| - 1]];
      assert pieces[..|pieces| - 1] + RowLines(ts) + [""] == pieces[..|pieces| - 1] + [""];
    } else {
      LinesAppended(base, ts);
      RowLinesAt(ts, 0);
      FirstRow(pieces, RowLines(ts));
    }
  }

  lemma FirstRow(pieces: seq<string>, rows: seq<string>)
    requires pieces != [] && rows != []
    ensures LastWith(pieces, rows[0]) + rows[1..] + [""] == pieces[..|pieces| - 1] + rows + [""]
       <==> pieces[|pieces| - 1] == ""
  {
    var n, last := |pieces| - 1, pieces[|pieces| - 1];
    var a, b := LastWith(pieces, rows[0]) + rows[1..] + [""], pieces[..n] + rows + [""];
    assert a[n] == last + rows[0] && b[n] == rows[0];
    assert a[..n] == b[..n] && a[n + 1..] == b[n + 1..];
    if last == "" {
      assert last + rows[0] == rows[0];
      assert a == a[..n] + [a[n]] + a[n + 1..] && b == b[..n] + [b[n]] + b[n + 1..];
    } else {
      assert |a[n]| != |b[n]|;
    }
  }

  /** Row `i` of `ts` reads back from the lines that followed the last one of `before`. */
  predicate RowStands(before: seq<string>, lines: seq<string>, ts: seq<Tick>, i: nat)
    requires before != [] && i < |ts|
  {
    |lines| == |before| + |ts| && ReadRow(lines[|before| - 1 + i]) == Some(DataOf(ts[i]))
  }

  lemma LineAt(pieces: seq<string>, first: string, rows: seq<string>, i: nat)
    requires pieces != [] && i < |rows| && (i == 0 ==> pieces[|pieces| - 1] == "" && rows[0] == first)
    ensures |LastWith(pieces, first) + rows[1..] + [""]| == |pieces| + |rows|
    ensures (LastWith(pieces, first) + rows[1..] + [""])[|pieces| - 1 + i] == rows[i]
  {
    assert "" + first == first;
  }

  lemma RowAt(pieces: seq<string>, lines: seq<string>, ts: seq<Tick>, i: nat)
    requires pieces != [] && i < |ts| && (i == 0 ==> pieces[|pieces| - 1] == "")
    requires lines == LastWith(pieces, RowLine(ts[0])) + RowLines(ts)[1..] + [""]
    ensures RowStands(pieces, lines, ts, i)
  {
    hide RowLine, ReadRow, RowLines, DataOf, LastWith;
    RowLinesAt(ts, 0);
    RowLinesAt(ts, i);
    LineAt(pieces, RowLine(ts[0]), RowLines(ts), i);
    RowReadsBack(ts[i]);
  }

  /** Whatever an earlier run left, every row but the first reads back, and so does the first if that run ended its
      last line. */
  lemma AppendedRowsReadBack(base: string, ts: seq<Tick>, i: nat)
    requires i < |ts| && (i > 0 || EndsLine(base))
    ensures RowStands(Split(base, '\n'), Split(base + RowsText(ts), '\n'), ts, i)
  {
    hide Split, RowLine, RowsText, EndsLine, RowLines, LastWith, RowStands;
    LastPiece(base);
    LinesAppended(base, ts);
    RowAt(Split(base, '\n'), Split(base + RowsText(ts), '\n'), ts, i);
  }

  /** A file the historian created reads back as its header and then every record it was delivered, in order. */
  lemma FileReadsBack(ts: seq<Tick>)
    ensures var lines := Split(HeaderLine() + "\n" + RowsText(ts), '\n');
            && |lines| == |ts| + 2 && lines[0] == HeaderLine() && lines[|ts| + 1] == ""
            && forall i :: 0 <= i < |ts| ==> ReadRow(lines[1 + i]) == Some(DataOf(ts[i]))
  {
    hide Split, HeaderLine, RowLine, RowLines, ReadRow, RowsText;
    HeaderSplits();
    SplitNothing();
    LineAppended("", [], HeaderLine());
    assert "" + HeaderLine() == HeaderLine();
    LastPiece(HeaderLine() + "\n");
    RowsStandAlone(HeaderLine() + "\n", ts);
    assert ([HeaderLine()] + [""])[..1] == [HeaderLine()];
    forall i | 0 <= i < |ts| ensures ReadRow(RowLines(ts)[i]) == Some(DataOf(ts[i])) {
      RowReadsBack(ts[i]);
      RowLinesAt(ts, i);
    }
  }

  lemma SplitNothing()
    ensures Split("", '\n') == [] + [""]
  {
  }
}
