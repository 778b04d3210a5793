/** The audit log: a bounded ring in memory beside a file of lines that outlives the process. */
module Audit {
  import opened Lists

  datatype AuditEvent =
    | ScdUpload(muCount: nat)
    | ScdLoadSample(muCount: nat)
    | MuManualRegister(muId: string, total: nat)
    | RegistryCleared(removed: nat)
    | CalibrationSet(muId: string, channelIdx: nat, gain: real, offset: real, unitScale: real)
    | CalibrationReset(muId: string, channelIdx: nat, hadOverride: bool)
    | NorthboundStateChange(layer: string, enabled: bool)

  datatype AuditRecord = AuditRecord(timestampMs: nat, number: nat, event: AuditEvent)

  /** A line of the file: only white space, one record, or something that does not parse. */
  datatype Line = Blank | Entry(record: AuditRecord) | Garbage

  datatype File = Missing | Present(lines: seq<Line>, terminated: bool)

  datatype Replay = Loaded(records: seq<AuditRecord>) | BadLine(line: nat)

  predicate Readable(lines: seq<Line>)
  {
    Garbage !in lines
  }

  function Records(lines: seq<Line>): seq<AuditRecord>
  {
    if lines == [] then []
    else Records(lines[..|lines| - 1])
         + if lines[|lines| - 1].Entry? then [lines[|lines| - 1].record] else []
  }

  /** The highest number in a list of records, 0 when there is none. */
  function Highest(records: seq<AuditRecord>): (r: nat)
    ensures forall x :: x in records ==> x.number <= r
    ensures r > 0 ==> exists x :: x in records && x.number == r
  {
    if records == [] then 0
    else
      var rest, last := Highest(records[..|records| - 1]), records[|records| - 1];
      assert records == records[..|records| - 1] + [last];
      if last.number > rest then last.number else rest
  }

  lemma DropOne<T>(s: seq<T>, n: nat)
    requires 0 < n <= |s|
    ensures LastOf(s, n)[1..] == LastOf(s, n - 1)
  {
  }

  /** What follows an unterminated line runs into it. */
  function Glued(line: Line, next: Line): Line
  {
    if line.Blank? then next else Garbage
  }

  /** The lines that the next write leaves alone: all but an unterminated last one. */
  function Surviving(f: File): seq<Line>
    requires f.Present?
  {
    if f.terminated || f.lines == [] then f.lines else f.lines[..|f.lines| - 1]
  }

  /** What the next write of `line` makes of the file's end. */
  function Landed(f: File, line: Line): Line
    requires f.Present?
  {
    if f.terminated || f.lines == [] then line else Glued(f.lines[|f.lines| - 1], line)
  }

  /** The file after a write of `line`, with or without its newline. */
  function Written(f: File, line: Line, newline: bool): (r: File)
    requires f.Present?
    ensures r.Present?
  {
    Present(Surviving(f) + [Landed(f, line)], newline)
  }

  // ---- The log object ----

  class LogFile {
    var content: File

    constructor ()
      ensures content == Missing
    {
      content := Missing;
    }
  }

  /** The parsing loop of `ReplayFromFile`. */
  method ParseLines(lines: seq<Line>) returns (r: Replay)
    ensures r.Loaded? <==> Readable(lines)
    ensures r.Loaded? ==> r.records == Records(lines)
    ensures r.BadLine? ==>
      0 < r.line <= |lines| && lines[r.line - 1] == Garbage && Readable(lines[..r.line - 1])
  {
    var records := [];
    var i := 0;
    while i < |lines|
      invariant 0 <= i <= |lines|
      invariant Readable(lines[..i]) && records == Records(lines[..i])
    {
      assert lines[..i + 1][..i] == lines[..i];
      match lines[i] {
        case Blank =>
        case Garbage =>
          return BadLine(i + 1);
        case Entry(record) =>
          records := records + [record];
      }
      i := i + 1;
    }
    assert lines[..i] == lines;
    r := Loaded(records);
  }

  method MaxNumber(records: seq<AuditRecord>) returns (max: nat)
    ensures max == Highest(records)
  {
    max := 0;
    var i := 0;
    while i < |records|
      invariant 0 <= i <= |records|
      invariant max == Highest(records[..i])
    {
      assert records[..i + 1][..i] == records[..i];
      if records[i].number > max {
        max := records[i].number;
      }
      i := i + 1;
    }
    assert records[..i] == records;
  }

  class AuditLog {
    var ring: seq<AuditRecord>
    var nextSeq: nat
    var writer: LogFile?
    const capacity: nat

    constructor (capacity: nat)
      ensures ring == [] && nextSeq == 1 && writer == null && this.capacity == capacity
    {
      this.capacity := capacity;
      ring, nextSeq, writer := [], 1, null;
    }

    /** Loads the newest records of an existing file and continues its numbering; a bad line changes nothing. */
    method ReplayFromFile(file: LogFile) returns (r: Replay)
      requires file.content.Present?
      modifies this
      ensures writer == old(writer)
      ensures r.Loaded? <==> Readable(file.content.lines)
      ensures r.Loaded? ==>
        && r.records == Records(file.content.lines)
        && ring == LastOf(r.records, capacity) && nextSeq == Highest(r.records) + 1
      ensures r.BadLine? ==>
        && ring == old(ring) && nextSeq == old(nextSeq)
        && 0 < r.line <= |file.content.lines|
        && file.content.lines[r.line - 1] == Garbage && Readable(file.content.lines[..r.line - 1])
    {
      hide Records, Readable, Highest;
      r := ParseLines(file.content.lines);
      if r.Loaded? {
        var records := r.records;
        var max := MaxNumber(records);
        ring := if |records| <= capacity then records else records[|records| - capacity..];
        nextSeq := max + 1;
      }
    }

    method ConfigurePersistence(file: LogFile) returns (r: Replay)
      modifies this, file
      ensures file.content == if old(file.content).Missing? then Present([], true) else old(file.content)
      ensures old(file.content).Missing? ==>
        r == Loaded([]) && ring == old(ring) && nextSeq == old(nextSeq) && writer == file
      ensures old(file.content).Present? && Readable(old(file.content).lines) ==>
        && r == Loaded(Records(old(file.content).lines))
        && ring == LastOf(r.records, capacity) && nextSeq == Highest(r.records) + 1 && writer == file
      ensures old(file.content).Present? && !Readable(old(file.content).lines) ==>
        r.BadLine? && ring == old(ring) && nextSeq == old(nextSeq) && writer == old(writer)
    {
      r := Loaded([]);
      if file.content.Present? {
        r := ReplayFromFile(file);
        if r.BadLine? {
          return;
        }
      } else {
        file.content := Present([], true);
      }
      writer := file;
    }

    /** The first half of `Record`, under the ring's lock. */
    method Assign(timestampMs: nat, event: AuditEvent) returns (rec: AuditRecord)
      modifies this`ring, this`nextSeq
      ensures rec == AuditRecord(timestampMs, old(nextSeq), event)
      ensures nextSeq == old(nextSeq) + 1
      ensures ring == LastOf(old(ring) + [rec], capacity)
    {
      rec := AuditRecord(timestampMs, nextSeq, event);
      nextSeq := nextSeq + 1;
      ring := ring + [rec];
      ghost var whole := ring;
      while |ring| > capacity
        invariant |LastOf(whole, capacity)| <= |ring| <= |whole|
        invariant ring == LastOf(whole, |ring|) && nextSeq == old(nextSeq) + 1
      {
        DropOne(whole, |ring|);
        ring := ring[1..];
      }
    }

    /** The second half, under the writer's lock; `ok` says whether the write succeeds. */
    method PersistLine(rec: AuditRecord, ok: bool)
      requires writer != null ==> writer.content.Present?
      modifies writer
      ensures writer != null ==>
        writer.content == if ok then Written(old(writer.content), Entry(rec), true) else old(writer.content)
    {
      if writer == null {
        return;
      }
      if ok {
        writer.content := Written(writer.content, Entry(rec), true);
      }
    }

    /** The newest `n` records, newest first. */
    method Recent(n: nat) returns (r: seq<AuditRecord>)
      ensures r == Reverse(LastOf(ring, n))
    {
      r := [];
      var i := |ring|;
      while i > 0 && |r| < n
        invariant 0 <= i <= |ring| && |r| == |ring| - i <= n
        invariant forall k :: 0 <= k < |r| ==> r[k] == ring[|ring| - 1 - k]
      {
        i := i - 1;
        r := r + [ring[i]];
      }
      assert |LastOf(ring, n)| == |r|;
      forall k | 0 <= k < |r| ensures r[k] == Reverse(LastOf(ring, n))[k] {
        ReverseAt(LastOf(ring, n), k);
      }
    }
  }

  // ---- Interleavings, crashes and restarts ----

  datatype Proc =
    | Down
    | Up(capacity: nat, ring: seq<AuditRecord>, nextSeq: nat, inFlight: seq<AuditRecord>, attached: bool)

  datatype World = World(file: File, proc: Proc)

  /** How far a write in progress got when the process died. */
  datatype Tear = Nothing | Fragment | WithoutNewline(index: nat)

  datatype Step =
    | Boot(capacity: nat)
    | Configure
    | Assign(timestampMs: nat, event: AuditEvent)
    | Append(index: nat)
    | Crash(tear: Tear)

  function Without<T>(s: seq<T>, i: nat): seq<T>
    requires i < |s|
  {
    s[..i] + s[i + 1..]
  }

  function Torn(w: World, tear: Tear): File
    requires w.proc.Up?
  {
    if w.file.Missing? || !w.proc.attached then w.file
    else match tear
         case Nothing => w.file
         case Fragment => Written(w.file, Garbage, false)
         case WithoutNewline(i) =>
           if i < |w.proc.inFlight| then Written(w.file, Entry(w.proc.inFlight[i]), false) else w.file
  }

  /** Configuring a process: a file that does not replay makes the daemon exit. */
  function Configured(w: World): World
    requires w.proc.Up?
  {
    if w.file.Missing? then World(Present([], true), w.proc.(attached := true))
    else if !Readable(w.file.lines) then w.(proc := Down)
    else
      var records := Records(w.file.lines);
      w.(proc := w.proc.(ring := LastOf(records, w.proc.capacity), nextSeq := Highest(records) + 1, attached := true))
  }

  function Next(w: World, step: Step): World
  {
    match (step, w.proc)
    case (Boot(capacity), Down) => w.(proc := Up(capacity, [], 1, [], false))
    case (Configure, Up(_, _, _, _, _)) => Configured(w)
    case (Assign(ts, event), Up(capacity, ring, nextSeq, inFlight, attached)) =>
      var rec := AuditRecord(ts, nextSeq, event);
      w.(proc := Up(capacity, LastOf(ring + [rec], capacity), nextSeq + 1, inFlight + [rec], attached))
    case (Append(i), Up(_, _, _, inFlight, attached)) =>
      if i >= |inFlight| then w
      else World(if attached && w.file.Present? then Written(w.file, Entry(inFlight[i]), true) else w.file,
                 w.proc.(inFlight := Without(inFlight, i)))
    case (Crash(tear), Up(_, _, _, _, _)) => World(Torn(w, tear), Down)
    case _ => w
  }

  // ---- The steps are what the object's methods do ----

  /** The object and its file show the state `w` of a running process. */
  ghost predicate Shows(log: AuditLog, file: LogFile, w: World)
    reads log, file
  {
    && w.file == file.content && w.proc.Up?
    && w.proc.capacity == log.capacity && w.proc.ring == log.ring && w.proc.nextSeq == log.nextSeq
    && log.writer == (if w.proc.attached then file else null)
    && (w.proc.attached ==> file.content.Present?)
  }

  method BootTurn(file: LogFile, capacity: nat, ghost w: World) returns (log: AuditLog)
    requires w == World(file.content, Down)
    ensures Shows(log, file, Next(w, Boot(capacity))) && fresh(log)
  {
    log := new AuditLog(capacity);
  }

  method ConfigureTurn(log: AuditLog, file: LogFile, ghost w: World) returns (r: Replay)
    requires Shows(log, file, w)
    modifies log, file
    ensures Next(w, Configure).file == file.content
    ensures r.Loaded? ==> Shows(log, file, Next(w, Configure))
    ensures r.BadLine? ==> Next(w, Configure).proc.Down?
  {
    hide Records, Highest, LastOf, Readable;
    r := log.ConfigurePersistence(file);
  }

  /** The first half of `record`; its record is then in flight. */
  method AssignTurn(log: AuditLog, file: LogFile, timestampMs: nat, event: AuditEvent, ghost w: World)
    returns (rec: AuditRecord)
    requires Shows(log, file, w)
    modifies log`ring, log`nextSeq
    ensures Shows(log, file, Next(w, Assign(timestampMs, event)))
    ensures Next(w, Assign(timestampMs, event)).proc.inFlight == w.proc.inFlight + [rec]
  {
    hide LastOf;
    rec := log.Assign(timestampMs, event);
  }

  /** The second half of `record`; when the write fails the record stays in flight, where the process may leave it. */
  method PersistTurn(log: AuditLog, file: LogFile, rec: AuditRecord, ok: bool, ghost w: World, ghost i: nat)
    requires Shows(log, file, w) && i < |w.proc.inFlight| && w.proc.inFlight[i] == rec
    modifies file
    ensures Shows(log, file, if ok then Next(w, Append(i)) else w)
  {
    hide Surviving, Landed, Without;
    log.PersistLine(rec, ok);
  }

  function Run(w: World, steps: seq<Step>): World
    decreases |steps|
  {
    if steps == [] then w else Run(Next(w, steps[0]), steps[1..])
  }

  predicate NumberIn(n: nat, lines: seq<Line>)
  {
    exists i :: 0 <= i < |lines| && lines[i].Entry? && lines[i].record.number == n
  }

  /** No number stands in two lines. */
  predicate Distinct(lines: seq<Line>)
  {
    forall i, j :: 0 <= i < j < |lines| && lines[i].Entry? && lines[j].Entry? ==>
      lines[i].record.number != lines[j].record.number
  }

  predicate DistinctFile(w: World)
  {
    w.file.Present? ==> Distinct(w.file.lines)
  }

  predicate Below(lines: seq<Line>, n: nat)
  {
    forall i :: 0 <= i < |lines| && lines[i].Entry? ==> lines[i].record.number < n
  }

  /** Records on their way to the file clash neither with it, nor with each other, nor with any still to come. */
  predicate Clear(inFlight: seq<AuditRecord>, lines: seq<Line>, nextSeq: nat)
  {
    && (forall r :: r in inFlight ==> r.number < nextSeq && !NumberIn(r.number, lines))
    && (forall i, j :: 0 <= i < j < |inFlight| ==> inFlight[i].number != inFlight[j].number)
  }

  predicate Unclashing(w: World)
  {
    && (w.file.Present? ==> Distinct(w.file.lines))
    && match w.proc
       case Down => true
       case Up(_, _, nextSeq, inFlight, attached) =>
         Clear(inFlight, if attached && w.file.Present? then Surviving(w.file) else [], nextSeq)
         && (attached ==> w.file.Present? && Below(w.file.lines, nextSeq))
  }

  /** Configuring is safe when no record in flight has a number above all of the file's, or one that a line of the file
      holds which the next write leaves alone. */
  predicate SafeToConfigure(w: World)
  {
    w.proc.Up? && w.file.Present? && Readable(w.file.lines) ==>
      forall r :: r in w.proc.inFlight ==>
        r.number <= Highest(Records(w.file.lines)) && !NumberIn(r.number, Surviving(w.file))
  }

  lemma {:induction false} NumberInRecords(lines: seq<Line>, n: nat)
    ensures NumberIn(n, lines) <==> exists r :: r in Records(lines) && r.number == n
  {
    if lines != [] {
      var before, last := lines[..|lines| - 1], lines[|lines| - 1];
      NumberInRecords(before, n);
      assert lines == before + [last];
      if NumberIn(n, before) {
        var i :| 0 <= i < |before| && before[i].Entry? && before[i].record.number == n;
        assert lines[i] == before[i];
      }
      if last.Entry? && last.record.number == n {
        assert lines[|lines| - 1] == last;
      }
      if NumberIn(n, lines) && !(last.Entry? && last.record.number == n) {
        var i :| 0 <= i < |lines| && lines[i].Entry? && lines[i].record.number == n;
        assert before[i] == lines[i];
      }
    }
  }

  lemma {:induction false} RecordIn(lines: seq<Line>, i: nat)
    requires i < |lines| && lines[i].Entry?
    ensures lines[i].record in Records(lines)
  {
    if i < |lines| - 1 {
      RecordIn(lines[..|lines| - 1], i);
    }
  }

  lemma HighestBounds(lines: seq<Line>)
    ensures Below(lines, Highest(Records(lines)) + 1)
  {
    hide Records;
    forall i | 0 <= i < |lines| && lines[i].Entry? ensures lines[i].record.number < Highest(Records(lines)) + 1 {
      RecordIn(lines, i);
    }
  }

  /** Whatever is written, only the written record's number is new. */
  lemma WrittenNumbers(f: File, line: Line, newline: bool, n: nat)
    requires f.Present?
    ensures NumberIn(n, Written(f, line, newline).lines) ==>
      NumberIn(n, Surviving(f)) || (line.Entry? && line.record.number == n)
  {
    hide Surviving;
    var before, all := Surviving(f), Written(f, line, newline).lines;
    if NumberIn(n, all) {
      var k :| 0 <= k < |all| && all[k].Entry? && all[k].record.number == n;
      assert k < |before| ==> before[k] == all[k];
    }
  }

  lemma WrittenDistinct(f: File, line: Line, newline: bool)
    requires f.Present? && Distinct(f.lines)
    requires line.Entry? ==> !NumberIn(line.record.number, Surviving(f))
    ensures Distinct(Written(f, line, newline).lines)
  {
    assert Distinct(Surviving(f));
    hide Surviving;
    var before, all := Surviving(f), Written(f, line, newline).lines;
    forall i, j | 0 <= i < j < |all| && all[i].Entry? && all[j].Entry?
      ensures all[i].record.number != all[j].record.number
    {
      assert before[i] == all[i];
    }
  }

  lemma AppendKeeps(w: World, i: nat)
    requires Unclashing(w)
    ensures Unclashing(Next(w, Append(i)))
  {
    if w.proc.Up? && i < |w.proc.inFlight| {
      var rec, rest := w.proc.inFlight[i], Without(w.proc.inFlight, i);
      WithoutClear(w.proc.inFlight, i);
      if w.proc.attached {
        hide Surviving, Distinct, Below, Landed, Without;
        WrittenDistinct(w.file, Entry(rec), true);
        forall r | r in rest ensures !NumberIn(r.number, Written(w.file, Entry(rec), true).lines) {
          WrittenNumbers(w.file, Entry(rec), true, r.number);
        }
        TerminatedSurvives(Written(w.file, Entry(rec), true));
        WrittenBelow(w.file, Entry(rec), true, w.proc.nextSeq);
      }
    }
  }

  lemma TerminatedSurvives(f: File)
    requires f.Present? && f.terminated
    ensures Surviving(f) == f.lines
  {
  }

  lemma WithoutClear(s: seq<AuditRecord>, i: nat)
    requires i < |s|
    requires forall a, b :: 0 <= a < b < |s| ==> s[a].number != s[b].number
    ensures forall r :: r in Without(s, i) ==> r in s && r.number != s[i].number
    ensures forall a, b :: 0 <= a < b < |s| - 1 ==> Without(s, i)[a].number != Without(s, i)[b].number
  {
  }

  lemma WrittenBelow(f: File, line: Line, newline: bool, n: nat)
    requires f.Present? && Below(f.lines, n) && (line.Entry? ==> line.record.number < n)
    ensures Below(Written(f, line, newline).lines, n)
  {
  }

  lemma ConfigureKeeps(w: World)
    requires Unclashing(w) && SafeToConfigure(w)
    ensures Unclashing(Next(w, Configure))
  {
    if w.proc.Up? && w.file.Present? {
      HighestBounds(w.file.lines);
    }
  }

  lemma CrashKeeps(w: World, tear: Tear)
    requires Unclashing(w)
    ensures Unclashing(Next(w, Crash(tear)))
  {
    if w.proc.Up? && w.proc.attached {
      hide Surviving, Distinct, Below, Landed;
      WrittenDistinct(w.file, Garbage, false);
      if tear.WithoutNewline? && tear.index < |w.proc.inFlight| {
        assert w.proc.inFlight[tear.index] in w.proc.inFlight;
        WrittenDistinct(w.file, Entry(w.proc.inFlight[tear.index]), false);
      }
    }
  }

  lemma AssignKeeps(w: World, timestampMs: nat, event: AuditEvent)
    requires Unclashing(w)
    ensures Unclashing(Next(w, Assign(timestampMs, event)))
  {
  }

  lemma StepKeeps(w: World, step: Step)
    requires Unclashing(w) && (step == Configure ==> SafeToConfigure(w))
    ensures Unclashing(Next(w, step))
  {
    hide Unclashing, SafeToConfigure;
    match step
    case Boot(capacity) => BootKeeps(w, capacity);
    case Configure => ConfigureKeeps(w);
    case Assign(ts, event) => AssignKeeps(w, ts, event);
    case Append(i) => AppendKeeps(w, i);
    case Crash(tear) => CrashKeeps(w, tear);
  }

  lemma BootKeeps(w: World, capacity: nat)
    requires Unclashing(w)
    ensures Unclashing(Next(w, Boot(capacity)))
  {
  }

  /** Every `Configure` of a run is safe. */
  predicate ConfiguresSafely(w: World, steps: seq<Step>)
    decreases |steps|
  {
    steps == [] || ((steps[0] == Configure ==> SafeToConfigure(w)) && ConfiguresSafely(Next(w, steps[0]), steps[1..]))
  }

  /** In every interleaving of concurrent recorders, with crashes, torn writes and restarts, no sequence number is ever
      in the file twice, in whatever order the lines got there. */
  lemma {:induction false} NumbersStayDistinct(w: World, steps: seq<Step>)
    requires Unclashing(w) && ConfiguresSafely(w, steps)
    ensures Unclashing(Run(w, steps))
    decreases |steps|
  {
    hide Unclashing, SafeToConfigure, Next;
    if steps == [] {
    } else {
      StepKeeps(w, steps[0]);
      NumbersStayDistinct(Next(w, steps[0]), steps[1..]);
    }
  }

  /** After a replay the next number is above every number in the file; a file with a bad line is refused and kept. */
  lemma ReplayContinues(w: World)
    requires w.proc.Up? && w.file.Present?
    ensures var q := Next(w, Configure);
            && q.file == w.file
            && (Readable(w.file.lines) <==> q.proc.Up?)
            && (q.proc.Up? ==> q.proc.attached && Below(w.file.lines, q.proc.nextSeq)
                               && q.proc.ring == LastOf(Records(w.file.lines), w.proc.capacity))
  {
    HighestBounds(w.file.lines);
  }

  // ---- The daemon's own runs ----

  /** The daemon configures right after it boots; a second process is not started beside a running one. */
  datatype DaemonStep =
    | Start(capacity: nat)
    | TakeNumber(timestampMs: nat, event: AuditEvent)
    | WriteLine(index: nat)
    | Die(tear: Tear)

  function StepsOf(w: World, step: DaemonStep): seq<Step>
  {
    match step
    case Start(capacity) => if w.proc.Down? then [Boot(capacity), Configure] else []
    case TakeNumber(ts, event) => [Assign(ts, event)]
    case WriteLine(i) => [Append(i)]
    case Die(tear) => [Crash(tear)]
  }

  function DaemonRun(w: World, steps: seq<DaemonStep>): World
    decreases |steps|
  {
    if steps == [] then w else DaemonRun(Run(w, StepsOf(w, steps[0])), steps[1..])
  }

  /** Configuring right after a boot is safe, whatever the file holds: nothing is in flight yet. */
  lemma StartIsSafe(w: World, step: DaemonStep)
    ensures ConfiguresSafely(w, StepsOf(w, step))
  {
    hide Configured, Torn, Written;
    if step.Start? && w.proc.Down? {
      var b := Next(w, Boot(step.capacity));
      assert b.proc.inFlight == [];
      assert [Boot(step.capacity), Configure][1..] == [Configure] && [Configure][1..] == [];
      assert ConfiguresSafely(b, [Configure]);
    }
  }

  lemma {:induction false} DaemonKeeps(w: World, steps: seq<DaemonStep>)
    requires Unclashing(w)
    ensures Unclashing(DaemonRun(w, steps))
    decreases |steps|
  {
    hide Unclashing, StepsOf, ConfiguresSafely, Run;
    if steps != [] {
      StartIsSafe(w, steps[0]);
      NumbersStayDistinct(w, StepsOf(w, steps[0]));
      DaemonKeeps(Run(w, StepsOf(w, steps[0])), steps[1..]);
    }
  }

  /** From a missing file on, whatever recorders interleave, processes die and writes are torn: no sequence number is
      ever in the daemon's file twice. */
  lemma DaemonNumbersStayDistinct(steps: seq<DaemonStep>)
    ensures DistinctFile(DaemonRun(World(Missing, Down), steps))
  {
    DaemonKeeps(World(Missing, Down), steps);
    hide DaemonRun;
  }

  // ---- What becomes of the file ----

  predicate ReadableFile(f: File)
  {
    f.Present? ==> Readable(f.lines)
  }

  /** The file ends in the middle of a line: the next write runs into it. */
  predicate Unfinished(f: File)
  {
    f.Present? && !f.terminated && f.lines != [] && !f.lines[|f.lines| - 1].Blank?
  }

  /** The step writes to the file. */
  predicate Lands(w: World, step: Step)
  {
    && w.proc.Up? && w.proc.attached && w.file.Present?
    && match step
       case Append(i) => i < |w.proc.inFlight|
       case Crash(Fragment) => true
       case Crash(WithoutNewline(i)) => i < |w.proc.inFlight|
       case _ => false
  }

  /** It writes part of a record only, or into an unfinished line. */
  predicate Spoils(w: World, step: Step)
  {
    Lands(w, step) && (step == Crash(Fragment) || Unfinished(w.file))
  }

  predicate SpoilsNowhere(w: World, steps: seq<Step>)
    decreases |steps|
  {
    steps == [] || (!Spoils(w, steps[0]) && SpoilsNowhere(Next(w, steps[0]), steps[1..]))
  }

  predicate LandsNowhere(w: World, steps: seq<Step>)
    decreases |steps|
  {
    steps == [] || (!Lands(w, steps[0]) && LandsNowhere(Next(w, steps[0]), steps[1..]))
  }

  /** What is written by a step that writes. */
  function LineOf(w: World, step: Step): Line
    requires Lands(w, step)
  {
    match step
    case Append(i) => Entry(w.proc.inFlight[i])
    case Crash(WithoutNewline(i)) => Entry(w.proc.inFlight[i])
    case _ => Garbage
  }

  lemma StepWrites(w: World, step: Step)
    ensures Lands(w, step) ==> Next(w, step).file == Written(w.file, LineOf(w, step), step.Append?)
    ensures !Lands(w, step) ==>
      Next(w, step).file == if step == Configure && w.proc.Up? && w.file.Missing? then Present([], true) else w.file
  {
    hide Written;
  }

  lemma WrittenReadable(f: File, line: Line, newline: bool)
    requires f.Present?
    ensures Readable(Written(f, line, newline).lines) <==> Readable(f.lines) && line != Garbage && !Unfinished(f)
  {
    var n := |f.lines|;
    if !f.terminated && n > 0 {
      assert f.lines == f.lines[..n - 1] + [f.lines[n - 1]];
    }
  }

  lemma StepReadable(w: World, step: Step)
    ensures ReadableFile(Next(w, step).file) <==> ReadableFile(w.file) && !Spoils(w, step)
  {
    StepWrites(w, step);
    if Lands(w, step) {
      WrittenReadable(w.file, LineOf(w, step), step.Append?);
    }
    hide Next, Written, Unfinished;
  }

  /** Exactly when the file still replays, after any interleaving, deaths and restarts: when no step wrote part of a
      record, or into an unfinished line. */
  lemma {:induction false} ReadableIff(w: World, steps: seq<Step>)
    ensures ReadableFile(Run(w, steps).file) <==> ReadableFile(w.file) && SpoilsNowhere(w, steps)
    decreases |steps|
  {
    hide Next, Spoils, ReadableFile;
    if steps != [] {
      StepReadable(w, steps[0]);
      ReadableIff(Next(w, steps[0]), steps[1..]);
    }
  }

  lemma StepKeepsLines(w: World, step: Step)
    requires w.file.Present?
    ensures Next(w, step).file.Present? && Surviving(w.file) <= Surviving(Next(w, step).file)
  {
    StepWrites(w, step);
    hide Next;
  }

  /** No line but an unterminated last one is ever touched again. */
  lemma {:induction false} LinesStay(w: World, steps: seq<Step>)
    requires w.file.Present?
    ensures Run(w, steps).file.Present? && Surviving(w.file) <= Surviving(Run(w, steps).file)
    decreases |steps|
  {
    hide Next, Surviving;
    if steps != [] {
      StepKeepsLines(w, steps[0]);
      LinesStay(Next(w, steps[0]), steps[1..]);
    }
  }

  lemma SurvivingIsPrefix(f: File)
    requires f.Present?
    ensures Surviving(f) <= f.lines && (f.terminated ==> Surviving(f) == f.lines)
  {
  }

  /** A written record stands at its line for ever, through any deaths and restarts, exactly when it was not written
      into an unfinished line. */
  lemma PersistedStaysIff(w: World, i: nat, steps: seq<Step>)
    requires Lands(w, Append(i))
    ensures var f, at := Run(Next(w, Append(i)), steps).file, |Surviving(w.file)|;
            f.Present? && at < |f.lines| && (f.lines[at] == Entry(w.proc.inFlight[i]) <==> !Unfinished(w.file))
  {
    var q := Next(w, Append(i));
    StepWrites(w, Append(i));
    var at := |Surviving(w.file)|;
    assert q.file.lines[at] == Landed(w.file, Entry(w.proc.inFlight[i]));
    assert q.file.terminated && |q.file.lines| == at + 1;
    hide Next, Surviving;
    LinesStay(q, steps);
    SurvivingIsPrefix(q.file);
    SurvivingIsPrefix(Run(q, steps).file);
  }

  lemma {:induction false} GarbageStays(w: World, steps: seq<Step>, at: nat)
    requires w.file.Present? && |Surviving(w.file)| <= at < |w.file.lines| && w.file.lines[at] == Garbage
    ensures Run(w, steps).file.Present?
    ensures at < |Run(w, steps).file.lines| && Run(w, steps).file.lines[at] == Garbage
    decreases |steps|
  {
    if steps != [] {
      var n := Next(w, steps[0]);
      StepWrites(w, steps[0]);
      hide Next;
      if |Surviving(n.file)| <= at {
        GarbageStays(n, steps[1..], at);
      } else {
        LinesStay(n, steps[1..]);
        SurvivingIsPrefix(Run(n, steps[1..]).file);
      }
    }
  }

  /** A record without its newline stays exactly until something is written after it; then its line no longer parses. */
  lemma {:induction false} UnterminatedStaysIff(w: World, steps: seq<Step>)
    requires w.file.Present? && !w.file.terminated && w.file.lines != [] && w.file.lines[|w.file.lines| - 1].Entry?
    ensures var f := Run(w, steps).file;
            && f.Present? && |w.file.lines| <= |f.lines|
            && (if LandsNowhere(w, steps) then f == w.file else f.lines[|w.file.lines| - 1] == Garbage)
    decreases |steps|
  {
    if steps != [] {
      var n, at := Next(w, steps[0]), |w.file.lines| - 1;
      StepWrites(w, steps[0]);
      hide Next;
      if !Lands(w, steps[0]) {
        UnterminatedStaysIff(n, steps[1..]);
      } else {
        assert n.file.lines[at] == Garbage;
        if |Surviving(n.file)| <= at {
          GarbageStays(n, steps[1..], at);
        } else {
          LinesStay(n, steps[1..]);
          SurvivingIsPrefix(Run(n, steps[1..]).file);
        }
      }
    }
  }

  // ---- ... in the daemon's runs ----

  /** The steps of a daemon's run. */
  function AllSteps(w: World, steps: seq<DaemonStep>): seq<Step>
    decreases |steps|
  {
    if steps == [] then []
    else StepsOf(w, steps[0]) + AllSteps(Run(w, StepsOf(w, steps[0])), steps[1..])
  }

  lemma {:induction false} DaemonRunIsRun(w: World, steps: seq<DaemonStep>)
    ensures DaemonRun(w, steps) == Run(w, AllSteps(w, steps))
    decreases |steps|
  {
    hide StepsOf, Next;
    if steps != [] {
      var first := StepsOf(w, steps[0]);
      DaemonRunIsRun(Run(w, first), steps[1..]);
      RunConcat(w, first, AllSteps(Run(w, first), steps[1..]));
    }
  }

  /** Only these two of the daemon's steps can spoil its file. */
  predicate DaemonSpoils(w: World, step: DaemonStep)
  {
    match step
    case WriteLine(i) => Spoils(w, Append(i))
    case Die(tear) => Spoils(w, Crash(tear))
    case _ => false
  }

  predicate DaemonSpoilsNowhere(w: World, steps: seq<DaemonStep>)
    decreases |steps|
  {
    steps == [] || (!DaemonSpoils(w, steps[0]) && DaemonSpoilsNowhere(Run(w, StepsOf(w, steps[0])), steps[1..]))
  }

  lemma DaemonStepReadable(w: World, step: DaemonStep)
    ensures ReadableFile(Run(w, StepsOf(w, step)).file) <==> ReadableFile(w.file) && !DaemonSpoils(w, step)
  {
    ReadableIff(w, StepsOf(w, step));
    if step.Start? && w.proc.Down? {
      var b := Next(w, Boot(step.capacity));
      assert [Boot(step.capacity), Configure][1..] == [Configure] && [Configure][1..] == [];
      assert !Spoils(w, Boot(step.capacity)) && !Spoils(b, Configure);
      assert SpoilsNowhere(b, [Configure]);
    }
    hide Run, Next, ReadableFile, Spoils;
  }

  /** Exactly when the daemon's file still replays after a run of it. */
  lemma {:induction false} DaemonFileReadableIff(w: World, steps: seq<DaemonStep>)
    ensures ReadableFile(DaemonRun(w, steps).file) <==> ReadableFile(w.file) && DaemonSpoilsNowhere(w, steps)
    decreases |steps|
  {
    hide StepsOf, Run, ReadableFile, DaemonSpoils;
    if steps != [] {
      DaemonStepReadable(w, steps[0]);
      DaemonFileReadableIff(Run(w, StepsOf(w, steps[0])), steps[1..]);
    }
  }

  lemma WholeStep(w: World, step: DaemonStep)
    requires !Unfinished(w.file) && (step.Die? ==> step.tear == Nothing)
    ensures !DaemonSpoils(w, step) && !Unfinished(Run(w, StepsOf(w, step)).file)
  {
    match step
    case Start(capacity) =>
      if w.proc.Down? {
        RunOne(w, Boot(capacity));
        RunOne(Next(w, Boot(capacity)), Configure);
        RunConcat(w, [Boot(capacity)], [Configure]);
        assert [Boot(capacity)] + [Configure] == [Boot(capacity), Configure];
      }
      hide Run;
    case TakeNumber(ts, event) => RunOne(w, Assign(ts, event));
    case WriteLine(i) => RunOne(w, Append(i));
    case Die(tear) => RunOne(w, Crash(tear));
  }

  /** As long as no death tears a write, every later start is accepted. */
  lemma {:induction false} WholeDeathsKeepReadable(w: World, steps: seq<DaemonStep>)
    requires ReadableFile(w.file) && !Unfinished(w.file)
    requires forall step :: step in steps && step.Die? ==> step.tear == Nothing
    ensures ReadableFile(DaemonRun(w, steps).file)
    decreases |steps|
  {
    hide ReadableFile, Unfinished, StepsOf, Run, DaemonSpoils;
    if steps != [] {
      assert steps[0] in steps;
      WholeStep(w, steps[0]);
      DaemonStepReadable(w, steps[0]);
      WholeDeathsKeepReadable(Run(w, StepsOf(w, steps[0])), steps[1..]);
    }
  }

  /** No run of the daemon touches a line again, except an unterminated last one. */
  lemma DaemonLinesStay(w: World, steps: seq<DaemonStep>)
    requires w.file.Present?
    ensures DaemonRun(w, steps).file.Present? && Surviving(w.file) <= DaemonRun(w, steps).file.lines
  {
    hide Run, DaemonRun, Surviving;
    DaemonRunIsRun(w, steps);
    LinesStay(w, AllSteps(w, steps));
    SurvivingIsPrefix(DaemonRun(w, steps).file);
  }

  lemma RefusedStart(w: World, step: DaemonStep)
    requires w.proc.Down? && !ReadableFile(w.file)
    ensures Run(w, StepsOf(w, step)) == w
  {
    match step
    case Start(capacity) =>
      RunOne(w, Boot(capacity));
      RunOne(Next(w, Boot(capacity)), Configure);
      RunConcat(w, [Boot(capacity)], [Configure]);
      assert [Boot(capacity)] + [Configure] == [Boot(capacity), Configure];
      hide Run;
    case TakeNumber(ts, event) => RunOne(w, Assign(ts, event));
    case WriteLine(i) => RunOne(w, Append(i));
    case Die(tear) => RunOne(w, Crash(tear));
  }

  /** A daemon that is down with a file that does not replay never runs again, and nothing changes its file. */
  lemma {:induction false} RefusedForever(w: World, steps: seq<DaemonStep>)
    requires w.proc.Down? && !ReadableFile(w.file)
    ensures DaemonRun(w, steps) == w
    decreases |steps|
  {
    hide ReadableFile, StepsOf, Run;
    if steps != [] {
      RefusedStart(w, steps[0]);
      RefusedForever(w, steps[1..]);
    }
  }

  lemma DaemonFirst(w: World, step: DaemonStep, steps: seq<DaemonStep>)
    ensures DaemonRun(w, [step] + steps) == DaemonRun(Run(w, StepsOf(w, step)), steps)
  {
    hide StepsOf, Run;
    assert ([step] + steps)[1..] == steps;
  }

  /** A death in the middle of a record is the daemon's last: every later start is refused. */
  lemma FragmentIsTheEnd(w: World, steps: seq<DaemonStep>)
    requires w.proc.Up? && w.proc.attached && w.file.Present?
    ensures DaemonRun(w, [Die(Fragment)] + steps) == World(Written(w.file, Garbage, false), Down)
  {
    RunOne(w, Crash(Fragment));
    DaemonFirst(w, Die(Fragment), steps);
    WrittenReadable(w.file, Garbage, false);
    hide Run, Written, DaemonRun;
    RefusedForever(World(Written(w.file, Garbage, false), Down), steps);
  }

  /** A run of the daemon that writes one record. */
  function NextRun(capacity: nat, timestampMs: nat, event: AuditEvent): seq<DaemonStep>
  {
    [Start(capacity), TakeNumber(timestampMs, event), WriteLine(0), Die(Nothing)]
  }

  lemma DaemonStarts(w: World, capacity: nat)
    requires w.proc.Down? && w.file.Present? && Readable(w.file.lines)
    ensures var q := Run(w, StepsOf(w, Start(capacity)));
            && q.file == w.file && q.proc.Up? && q.proc.attached && q.proc.inFlight == []
            && Below(w.file.lines, q.proc.nextSeq)
  {
    RunOne(w, Boot(capacity));
    RunOne(Next(w, Boot(capacity)), Configure);
    RunConcat(w, [Boot(capacity)], [Configure]);
    assert [Boot(capacity)] + [Configure] == [Boot(capacity), Configure];
    HighestBounds(w.file.lines);
    hide Run, Highest, Records, LastOf;
  }

  /** One record of a daemon with nothing in flight, which then dies. */
  lemma RecordAndDie(w: World, timestampMs: nat, event: AuditEvent, steps: seq<DaemonStep>)
    requires w.proc.Up? && w.proc.attached && w.proc.inFlight == [] && w.file.Present?
    ensures DaemonRun(w, [TakeNumber(timestampMs, event), WriteLine(0), Die(Nothing)] + steps)
         == DaemonRun(World(Written(w.file, Entry(AuditRecord(timestampMs, w.proc.nextSeq, event)), true), Down), steps)
  {
    hide LastOf, Written, Run, DaemonRun;
    var a := Next(w, Assign(timestampMs, event));
    var b := Next(a, Append(0));
    RunOne(w, Assign(timestampMs, event));
    RunOne(a, Append(0));
    RunOne(b, Crash(Nothing));
    DaemonFirst(w, TakeNumber(timestampMs, event), [WriteLine(0), Die(Nothing)] + steps);
    DaemonFirst(a, WriteLine(0), [Die(Nothing)] + steps);
    DaemonFirst(b, Die(Nothing), steps);
    assert [WriteLine(0)] + ([Die(Nothing)] + steps) == [WriteLine(0), Die(Nothing)] + steps;
    assert [TakeNumber(timestampMs, event)] + ([WriteLine(0), Die(Nothing)] + steps)
        == [TakeNumber(timestampMs, event), WriteLine(0), Die(Nothing)] + steps;
  }

  /** The record whose newline was lost is replayed by the next run ... */
  lemma TornIsReplayed(f: File)
    requires Unfinished(f) && Readable(f.lines)
    ensures f.lines[|f.lines| - 1].Entry? && f.lines[|f.lines| - 1].record in Records(f.lines)
  {
    RecordIn(f.lines, |f.lines| - 1);
  }

  /** ... but that run's first record runs into it: both are lost, and every start after that is refused. */
  lemma TornLineIsTheEnd(w: World, capacity: nat, timestampMs: nat, event: AuditEvent, steps: seq<DaemonStep>)
    requires w.proc.Down? && Unfinished(w.file) && Readable(w.file.lines)
    ensures DaemonRun(w, NextRun(capacity, timestampMs, event) + steps)
         == World(Present(w.file.lines[..|w.file.lines| - 1] + [Garbage], true), Down)
  {
    NextRunGoes(w, capacity, timestampMs, event, steps);
    var rec := AuditRecord(timestampMs, Run(w, StepsOf(w, Start(capacity))).proc.nextSeq, event);
    RunsInto(w.file, Entry(rec));
    hide Run, StepsOf, DaemonRun, NextRun, Next, Readable, Written, Unfinished;
    RefusedForever(World(Written(w.file, Entry(rec), true), Down), steps);
  }

  lemma NextRunGoes(w: World, capacity: nat, timestampMs: nat, event: AuditEvent, steps: seq<DaemonStep>)
    requires w.proc.Down? && w.file.Present? && Readable(w.file.lines)
    ensures var n := Run(w, StepsOf(w, Start(capacity)));
            && n.proc.Up?
            && DaemonRun(w, NextRun(capacity, timestampMs, event) + steps)
               == DaemonRun(World(Written(w.file, Entry(AuditRecord(timestampMs, n.proc.nextSeq, event)), true), Down),
                            steps)
  {
    hide Run, StepsOf, DaemonRun, Below, Records, Written, Readable, Next;
    DaemonStarts(w, capacity);
    var first := [TakeNumber(timestampMs, event), WriteLine(0), Die(Nothing)];
    assert NextRun(capacity, timestampMs, event) + steps == [Start(capacity)] + (first + steps);
    DaemonFirst(w, Start(capacity), first + steps);
    RecordAndDie(Run(w, StepsOf(w, Start(capacity))), timestampMs, event, steps);
  }

  lemma RunsInto(f: File, line: Line)
    requires Unfinished(f)
    ensures Written(f, line, true) == Present(f.lines[..|f.lines| - 1] + [Garbage], true)
    ensures !Readable(Written(f, line, true).lines)
  {
    var lines := f.lines[..|f.lines| - 1] + [Garbage];
    assert lines[|f.lines| - 1] == Garbage;
  }

  /** Such a file is what a death in `WithoutNewline` leaves of a whole one. */
  lemma TornIsUnfinished(w: World, i: nat)
    requires w.proc.Up? && w.proc.attached && w.file.Present? && w.file.terminated && Readable(w.file.lines)
    requires i < |w.proc.inFlight|
    ensures var q := Run(w, StepsOf(w, Die(WithoutNewline(i))));
            && q.proc.Down? && q.file == Present(w.file.lines + [Entry(w.proc.inFlight[i])], false)
            && Unfinished(q.file) && Readable(q.file.lines)
  {
    RunOne(w, Crash(WithoutNewline(i)));
    hide Run;
  }

  // ---- When configuring is not safe ----

  /** No run from here, whose further configures are safe, writes a number twice. */
  ghost predicate NeverClashes(w: World)
  {
    forall steps :: ConfiguresSafely(w, steps) ==> DistinctFile(Run(w, steps))
  }

  const ANY_EVENT := RegistryCleared(0)

  function Assigns(k: nat): (r: seq<Step>)
    ensures Configure !in r
  {
    if k == 0 then [] else [Assign(0, ANY_EVENT)] + Assigns(k - 1)
  }

  /** The steps that write a number twice after an unsafe configure, with `count` records in flight: take `k` numbers
      and one more, write the last one, which an unterminated line may swallow, then record `i`, and then the one that
      got the same number, if there is one. */
  function Clash(count: nat, i: nat, k: nat): (r: seq<Step>)
    requires i < count
    ensures Configure !in r
  {
    Assigns(k) + [Assign(0, ANY_EVENT), Append(count + k), Append(i)] + if k > 0 then [Append(count + k - 2)] else []
  }

  lemma {:induction false} AssignMany(w: World, k: nat)
    requires w.proc.Up?
    ensures var q := Run(w, Assigns(k));
            && q.file == w.file && q.proc.Up? && q.proc.attached == w.proc.attached
            && |q.proc.inFlight| == |w.proc.inFlight| + k && q.proc.inFlight[..|w.proc.inFlight|] == w.proc.inFlight
            && (k > 0 ==> q.proc.inFlight[|w.proc.inFlight| + k - 1].number == w.proc.nextSeq + k - 1)
    decreases k
  {
    hide LastOf;
    if k > 0 {
      var n := Next(w, Assign(0, ANY_EVENT));
      assert Assigns(k)[1..] == Assigns(k - 1);
      AssignMany(n, k - 1);
      var q := Run(w, Assigns(k));
      assert q.proc.inFlight[..|w.proc.inFlight|] == q.proc.inFlight[..|n.proc.inFlight|][..|w.proc.inFlight|];
      assert q.proc.inFlight[|w.proc.inFlight|] == q.proc.inFlight[..|n.proc.inFlight|][|w.proc.inFlight|];
    }
  }

  lemma {:induction false} RunConcat(w: World, a: seq<Step>, b: seq<Step>)
    ensures Run(w, a + b) == Run(Run(w, a), b)
    decreases |a|
  {
    hide Next;
    if a == [] {
      assert a + b == b;
    } else {
      assert (a + b)[1..] == a[1..] + b;
      RunConcat(Next(w, a[0]), a[1..], b);
    }
  }

  lemma RunOne(w: World, a: Step)
    ensures Run(w, [a]) == Next(w, a)
  {
    hide Next;
    assert [a][1..] == [];
    assert Run(Next(w, a), []) == Next(w, a);
  }

  lemma RunThree(w: World, a: Step, b: Step, c: Step)
    ensures Run(w, [a, b, c]) == Next(Next(Next(w, a), b), c)
  {
    hide Next, Run;
    RunOne(w, a);
    RunOne(Next(w, a), b);
    RunOne(Next(Next(w, a), b), c);
    RunConcat(w, [a], [b]);
    RunConcat(w, [a] + [b], [c]);
    assert [a] + [b] + [c] == [a, b, c];
  }

  /** Taking a number and writing it terminates the file and leaves everything else in flight. */
  lemma Sacrifice(w: World)
    requires w.proc.Up? && w.proc.attached && w.file.Present?
    ensures var q := Next(Next(w, Assign(0, ANY_EVENT)), Append(|w.proc.inFlight|));
            && q.proc.Up? && q.proc.attached && q.proc.inFlight == w.proc.inFlight
            && q.file.Present? && q.file.terminated && Surviving(w.file) <= q.file.lines
  {
    hide LastOf, Surviving, Landed;
    var a := Next(w, Assign(0, ANY_EVENT));
    assert Without(a.proc.inFlight, |w.proc.inFlight|) == w.proc.inFlight;
  }

  lemma WriteHeld(w: World, i: nat)
    requires w.proc.Up? && w.proc.attached && w.file.Present? && w.file.terminated && i < |w.proc.inFlight|
    requires NumberIn(w.proc.inFlight[i].number, w.file.lines)
    ensures var q := Next(w, Append(i)); q.file.Present? && !Distinct(q.file.lines)
  {
    hide Without;
    var rec, lines := w.proc.inFlight[i], w.file.lines;
    var k :| 0 <= k < |lines| && lines[k].Entry? && lines[k].record.number == rec.number;
    var all := lines + [Entry(rec)];
    assert all[k] == lines[k] && all[|lines|] == Entry(rec);
  }

  lemma WriteTwins(w: World, i: nat, j: nat)
    requires w.proc.Up? && w.proc.attached && w.file.Present? && w.file.terminated && i < j < |w.proc.inFlight|
    requires w.proc.inFlight[i].number == w.proc.inFlight[j].number
    ensures var q := Next(Next(w, Append(i)), Append(j - 1)); q.file.Present? && !Distinct(q.file.lines)
  {
    var rec, twin := w.proc.inFlight[i], w.proc.inFlight[j];
    assert Without(w.proc.inFlight, i)[j - 1] == twin;
    var all := w.file.lines + [Entry(rec)] + [Entry(twin)];
    assert all[|w.file.lines|] == Entry(rec) && all[|w.file.lines| + 1] == Entry(twin);
    hide Without;
  }

  /** Beyond the configure: a record in flight whose number survives in the file ... */
  lemma ClashHeld(c: World, i: nat)
    requires c.proc.Up? && c.proc.attached && c.file.Present? && i < |c.proc.inFlight|
    requires NumberIn(c.proc.inFlight[i].number, Surviving(c.file))
    ensures !DistinctFile(Run(c, Clash(|c.proc.inFlight|, i, 0)))
  {
    hide Next, Surviving, Run, Distinct;
    var count := |c.proc.inFlight|;
    Sacrifice(c);
    var s := Next(Next(c, Assign(0, ANY_EVENT)), Append(count));
    StillIn(c.proc.inFlight[i].number, Surviving(c.file), s.file.lines);
    WriteHeld(s, i);
    RunThree(c, Assign(0, ANY_EVENT), Append(count), Append(i));
    assert Clash(count, i, 0) == [Assign(0, ANY_EVENT), Append(count), Append(i)];
  }

  lemma StillIn(n: nat, a: seq<Line>, b: seq<Line>)
    requires NumberIn(n, a) && a <= b
    ensures NumberIn(n, b)
  {
    var k :| 0 <= k < |a| && a[k].Entry? && a[k].record.number == n;
    assert b[k] == a[k];
  }

  /** ... or one that the numbering will come to again. */
  lemma ClashAhead(c: World, i: nat, k: nat)
    requires c.proc.Up? && c.proc.attached && c.file.Present? && i < |c.proc.inFlight|
    requires k > 0 && c.proc.inFlight[i].number == c.proc.nextSeq + k - 1
    ensures !DistinctFile(Run(c, Clash(|c.proc.inFlight|, i, k)))
  {
    hide Next, Surviving, Run, Distinct;
    var count := |c.proc.inFlight|;
    AssignMany(c, k);
    var a := Run(c, Assigns(k));
    assert a.proc.inFlight[i] == a.proc.inFlight[..count][i];
    Sacrifice(a);
    var s := Next(Next(a, Assign(0, ANY_EVENT)), Append(count + k));
    WriteTwins(s, i, count + k - 1);
    RunThree(a, Assign(0, ANY_EVENT), Append(count + k), Append(i));
    RunOne(Next(s, Append(i)), Append(count + k - 2));
    RunConcat(a, [Assign(0, ANY_EVENT), Append(count + k), Append(i)], [Append(count + k - 2)]);
    var rest := [Assign(0, ANY_EVENT), Append(count + k), Append(i)] + [Append(count + k - 2)];
    RunConcat(c, Assigns(k), rest);
    assert Clash(count, i, k) == Assigns(k) + rest;
  }

  lemma {:induction false} NoConfigureIsSafe(w: World, steps: seq<Step>)
    requires Configure !in steps
    ensures ConfiguresSafely(w, steps)
    decreases |steps|
  {
    hide Next, SafeToConfigure;
    if steps != [] {
      assert steps[0] in steps;
      NoConfigureIsSafe(Next(w, steps[0]), steps[1..]);
    }
  }

  /** After an unsafe configure some run writes a number twice. */
  lemma UnsafeConfigureCanClash(w: World)
    requires !SafeToConfigure(w)
    ensures !NeverClashes(Next(w, Configure))
  {
    var c, highest := Next(w, Configure), Highest(Records(w.file.lines));
    var rec :| rec in w.proc.inFlight && (rec.number > highest || NumberIn(rec.number, Surviving(w.file)));
    var i :| 0 <= i < |w.proc.inFlight| && w.proc.inFlight[i] == rec;
    hide Next, Run, Clash, ConfiguresSafely, Highest, Records, Surviving, LastOf;
    ConfiguredWorld(w);
    var k := if NumberIn(rec.number, Surviving(w.file)) then 0 else rec.number - highest;
    if k == 0 {
      ClashHeld(c, i);
    } else {
      ClashAhead(c, i, k);
    }
    NoConfigureIsSafe(c, Clash(|c.proc.inFlight|, i, k));
  }

  lemma ConfiguredWorld(w: World)
    requires w.proc.Up? && w.file.Present? && Readable(w.file.lines)
    ensures var c := Next(w, Configure);
            && c.file == w.file && c.proc.Up? && c.proc.attached && c.proc.inFlight == w.proc.inFlight
            && c.proc.nextSeq == Highest(Records(w.file.lines)) + 1
  {
  }

  /** The condition is exact: configuring is safe if and only if no run beyond it writes a number twice, whatever the
      file holds and whether or not its last line is terminated. */
  lemma ConfigureSafeIff(w: World)
    requires w.proc.Up? && Unclashing(w)
    ensures SafeToConfigure(w) <==> NeverClashes(Next(w, Configure))
  {
    var c := Next(w, Configure);
    if SafeToConfigure(w) {
      ConfigureKeeps(w);
      hide Unclashing, SafeToConfigure, Next, Run, ConfiguresSafely;
      forall steps | ConfiguresSafely(c, steps) ensures DistinctFile(Run(c, steps)) {
        NumbersStayDistinct(c, steps);
        UnclashingIsDistinct(Run(c, steps));
      }
    } else {
      UnsafeConfigureCanClash(w);
    }
  }

  lemma UnclashingIsDistinct(w: World)
    requires Unclashing(w)
    ensures DistinctFile(w)
  {
  }

  // ---- Sequential use ----

  datatype Happening = Happening(timestampMs: nat, event: AuditEvent)

  /** One caller: record events one after the other, and restart with any capacity. */
  datatype Act = RecordEvent(happening: Happening) | Restart(capacity: nat)

  function AfterAct(w: World, act: Act): World
  {
    match act
    case RecordEvent(h) => Next(Next(w, Assign(h.timestampMs, h.event)), Append(0))
    case Restart(capacity) => Next(Next(Next(w, Crash(Nothing)), Boot(capacity)), Configure)
  }

  function AfterActs(w: World, acts: seq<Act>): World
    decreases |acts|
  {
    if acts == [] then w else AfterActs(AfterAct(w, acts[0]), acts[1..])
  }

  function Recorded(acts: seq<Act>): seq<Happening>
  {
    if acts == [] then []
    else (match acts[0] case RecordEvent(h) => [h] case Restart(_) => []) + Recorded(acts[1..])
  }

  /** Events numbered from one. */
  function Numbered(events: seq<Happening>): (r: seq<AuditRecord>)
    ensures |r| == |events|
  {
    if events == [] then []
    else
      var last := events[|events| - 1];
      Numbered(events[..|events| - 1]) + [AuditRecord(last.timestampMs, |events|, last.event)]
  }

  function Entries(records: seq<AuditRecord>): (r: seq<Line>)
    ensures |r| == |records| && forall i :: 0 <= i < |r| ==> r[i] == Entry(records[i])
  {
    seq(|records|, i requires 0 <= i < |records| => Entry(records[i]))
  }

  /** File and ring tell the same history: the file all of it, the ring its end. */
  predicate InStep(w: World, events: seq<Happening>)
  {
    && w.file == Present(Entries(Numbered(events)), true)
    && w.proc.Up? && w.proc.attached && w.proc.inFlight == []
    && w.proc.nextSeq == |events| + 1
    && w.proc.ring == LastOf(Numbered(events), w.proc.capacity)
  }

  lemma {:induction false} NumberedAt(events: seq<Happening>, i: nat)
    requires i < |events|
    ensures Numbered(events)[i] == AuditRecord(events[i].timestampMs, i + 1, events[i].event)
  {
    if i < |events| - 1 {
      NumberedAt(events[..|events| - 1], i);
    }
  }

  lemma {:induction false} RecordsOfEntries(records: seq<AuditRecord>)
    ensures Records(Entries(records)) == records && Readable(Entries(records))
  {
    if records != [] {
      var before := records[..|records| - 1];
      assert Entries(records)[..|records| - 1] == Entries(before);
      RecordsOfEntries(before);
      assert records == before + [records[|records| - 1]];
    }
  }

  lemma {:induction false} HighestNumbered(events: seq<Happening>)
    ensures Highest(Numbered(events)) == |events|
  {
    if events != [] {
      var before := events[..|events| - 1];
      HighestNumbered(before);
      assert Numbered(events)[..|events| - 1] == Numbered(before);
    }
  }

  lemma KeepLast<T>(s: seq<T>, x: T, n: nat)
    ensures LastOf(LastOf(s, n) + [x], n) == LastOf(s + [x], n)
  {
  }

  lemma RecordInStep(w: World, events: seq<Happening>, h: Happening)
    requires InStep(w, events)
    ensures InStep(AfterAct(w, RecordEvent(h)), events + [h])
  {
    var rec := AuditRecord(h.timestampMs, w.proc.nextSeq, h.event);
    assert (events + [h])[..|events|] == events;
    assert Numbered(events + [h]) == Numbered(events) + [rec];
    assert Entries(Numbered(events) + [rec]) == Entries(Numbered(events)) + [Entry(rec)];
    KeepLast(Numbered(events), rec, w.proc.capacity);
    assert Without([rec], 0) == [];
    hide LastOf, Numbered, Entries;
  }

  lemma RestartInStep(w: World, events: seq<Happening>, capacity: nat)
    requires InStep(w, events)
    ensures InStep(AfterAct(w, Restart(capacity)), events)
  {
    RecordsOfEntries(Numbered(events));
    HighestNumbered(events);
    hide LastOf, Numbered, Entries, Records, Highest;
  }

  /** Any number of records and restarts with any capacities: the file holds the events numbered 1..k in order, and the
      ring their last `min(capacity, k)`. */
  lemma {:induction false} SequentialHistory(w: World, events: seq<Happening>, acts: seq<Act>)
    requires InStep(w, events)
    ensures InStep(AfterActs(w, acts), events + Recorded(acts))
    decreases |acts|
  {
    hide InStep, AfterAct;
    if acts == [] {
      assert events + [] == events;
    } else {
      match acts[0] {
        case RecordEvent(h) =>
          RecordInStep(w, events, h);
          SequentialHistory(AfterAct(w, acts[0]), events + [h], acts[1..]);
          assert events + [h] + Recorded(acts[1..]) == events + Recorded(acts);
        case Restart(capacity) =>
          RestartInStep(w, events, capacity);
          SequentialHistory(AfterAct(w, acts[0]), events, acts[1..]);
          assert events + Recorded(acts) == events + Recorded(acts[1..]);
      }
    }
  }

  lemma FirstBootInStep(capacity: nat)
    ensures InStep(Next(Next(World(Missing, Down), Boot(capacity)), Configure), [])
  {
  }

  /** `Recent` answers as if it read the file backwards, as far as the ring reaches. */
  lemma RecentReadsFileBackwards(w: World, events: seq<Happening>, n: nat, j: nat)
    requires InStep(w, events)
    ensures var recent := Reverse(LastOf(w.proc.ring, n));
            && |recent| == Least(n, w.proc.capacity, |events|)
            && (j < |recent| ==> Entry(recent[j]) == w.file.lines[|events| - 1 - j] && recent[j].number == |events| - j)
  {
    LastOfLast(Numbered(events), w.proc.capacity, n, j);
    if j < Least(n, w.proc.capacity, |events|) {
      NumberedAt(events, |events| - 1 - j);
    }
    hide Numbered, LastOf, Reverse, Entries;
  }

  lemma LastOfLast<T>(s: seq<T>, m: nat, n: nat, j: nat)
    ensures |Reverse(LastOf(LastOf(s, m), n))| == Least(n, m, |s|)
    ensures j < Least(n, m, |s|) ==> Reverse(LastOf(LastOf(s, m), n))[j] == s[|s| - 1 - j]
  {
    hide Reverse;
    if j < Least(n, m, |s|) {
      ReverseAt(LastOf(LastOf(s, m), n), j);
    }
  }

  function Least(a: nat, b: nat, c: nat): nat
  {
    if a <= b && a <= c then a else if b <= c then b else c
  }
}
