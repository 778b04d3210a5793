/** The OPC UA node list and the updates that the publisher writes to it. */
module OpcUa {
  import opened Bytes
  import opened Options
  import opened Text

  datatype VariableKind =
    | InstMagI | InstMagF | Quality | Time | TickId | LastTickId | LastTsUtcNs | NChannels

  datatype NodeKind = Folder | Container | Variable(variable: VariableKind)

  datatype Node = Node(nodeId: string, browseName: string, kind: NodeKind, parent: Option<string>)

  datatype MuSpec = MuSpec(svId: string, channelNames: seq<string>)

  // ---- The tree ----

  function ChannelName(idx: nat, name: string): string
  {
    "Ch" + Padded(idx, 10, 2) + "_" + name
  }

  datatype Leaf = Leaf(suffix: string, kind: VariableKind)

  function ChannelLeaves(): seq<Leaf>
  {
    [Leaf("instMag.i", InstMagI), Leaf("instMag.f", InstMagF), Leaf("q", Quality), Leaf("t", Time),
     Leaf("tick_id", TickId)]
  }

  function StatusLeaves(): seq<Leaf>
  {
    [Leaf("last_tick_id", LastTickId), Leaf("last_ts_utc_ns", LastTsUtcNs), Leaf("n_channels", NChannels)]
  }

  /** The variables below a node. */
  function LeafNodes(parent: string, leaves: seq<Leaf>): (r: seq<Node>)
    ensures |r| == |leaves|
  {
    if leaves == [] then []
    else
      var leaf := leaves[|leaves| - 1];
      LeafNodes(parent, leaves[..|leaves| - 1])
      + [Node(parent + "." + leaf.suffix, leaf.suffix, Variable(leaf.kind), Some(parent))]
  }

  function ChannelNodes(registryId: string, idx: nat, name: string): (r: seq<Node>)
  {
    var id := registryId + "." + ChannelName(idx, name);
    [Node(id, ChannelName(idx, name), Container, Some(registryId))] + LeafNodes(id, ChannelLeaves())
  }

  function AllChannelNodes(registryId: string, names: seq<string>): seq<Node>
  {
    if names == [] then []
    else AllChannelNodes(registryId, names[..|names| - 1])
         + ChannelNodes(registryId, |names| - 1, names[|names| - 1])
  }

  function StatusNodes(muId: string): seq<Node>
  {
    [Node(muId + ".TickStatus", "TickStatus", Folder, Some(muId))] + LeafNodes(muId + ".TickStatus", StatusLeaves())
  }

  function MuNodes(substationId: string, mu: MuSpec): seq<Node>
  {
    var muId := substationId + "." + mu.svId;
    [Node(muId, mu.svId, Container, Some(substationId)),
     Node(muId + ".ChannelRegistry", "ChannelRegistry", Folder, Some(muId))]
    + AllChannelNodes(muId + ".ChannelRegistry", mu.channelNames) + StatusNodes(muId)
  }

  function AllMuNodes(substationId: string, mus: seq<MuSpec>): seq<Node>
  {
    if mus == [] then [] else AllMuNodes(substationId, mus[..|mus| - 1]) + MuNodes(substationId, mus[|mus| - 1])
  }

  function SubstationId(substation: string): string
  {
    "s=Substations." + substation
  }

  function RootNodes(substation: string): seq<Node>
  {
    [Node("s=Substations", "Substations", Folder, None),
     Node(SubstationId(substation), substation, Folder, Some("s=Substations"))]
  }

  function Nodes(substation: string, mus: seq<MuSpec>): seq<Node>
  {
    RootNodes(substation) + AllMuNodes(SubstationId(substation), mus)
  }

  // ---- The updates ----

  /** What the publisher knows of one channel. */
  datatype Reading = Reading(raw: i32, calibrated: real, quality: byte, origin: byte)

  datatype Snapshot = Snapshot(tickId: nat, tsUtcNs: nat, nChannels: u16, samples: seq<Reading>)

  datatype DataType = Int32 | Float | UInt16 | UtcTime | UInt64

  datatype Value =
    | OfInt32(i: i32)
    | OfFloat(f: real)
    | OfUInt16(u: u16)
    | OfUtcTime(ns: nat)
    | OfUInt64(n: nat)

  /** A value for a node; the status is given for the two measured values only. */
  datatype Update = Update(nodeId: string, value: Value, status: Option<u32>)

  function TypeOf(v: Value): DataType
  {
    match v
    case OfInt32(_) => Int32
    case OfFloat(_) => Float
    case OfUInt16(_) => UInt16
    case OfUtcTime(_) => UtcTime
    case OfUInt64(_) => UInt64
  }

  /** The type a variable is registered with. */
  function RegisteredType(kind: VariableKind): DataType
  {
    match kind
    case InstMagI => Int32
    case TickId => Int32
    case InstMagF => Float
    case Quality => UInt16
    case Time => UtcTime
    case LastTickId => UInt64
    case LastTsUtcNs => UInt64
    case NChannels => UInt16
  }

  function ReadingOf(snapshot: Snapshot, idx: nat): Reading
  {
    if idx < |snapshot.samples| then snapshot.samples[idx] else Reading(0, 0.0, 0, 1)
  }

  // ---- Status codes ----

  const GOOD: u32 := 0
  const UNCERTAIN_LAST_USABLE_VALUE: u32 := 0x4090_0000
  const UNCERTAIN_INTERPOLATED_VALUE: u32 := 0x408F_0000
  const BAD_NO_DATA: u32 := 0x80AB_0000
  const BAD_OUT_OF_RANGE: u32 := 0x803B_0000
  const BAD_NO_COMMUNICATION: u32 := 0x80B1_0000

  /** The status of a quality byte: bit 7 is a failure, bit 2 an overflow, bits 0 and 1 the validity. */
  function StatusOfQuality(q: byte): u32
  {
    if q >= 0x80 then BAD_NO_COMMUNICATION
    else if q % 4 == 2 then BAD_NO_DATA
    else if q / 4 % 2 == 1 then BAD_OUT_OF_RANGE
    else if q % 4 == 3 then UNCERTAIN_LAST_USABLE_VALUE
    else GOOD
  }

  /** Interpolated (2) and estimated (3) samples are marked as such, unless they are bad already. */
  function WithOrigin(status: u32, origin: byte): u32
  {
    if status >= 0x8000_0000 then status
    else if origin == 2 then UNCERTAIN_INTERPOLATED_VALUE
    else if origin == 3 then UNCERTAIN_LAST_USABLE_VALUE
    else status
  }

  /** The top two bits of a status: 0 is good, 1 uncertain, 2 bad. */
  function Severity(status: u32): nat
  {
    status / 0x4000_0000
  }

  /** The origin never makes a status look better. A sample is bad for a failure, invalid or overflow; else uncertain
      when questionable, interpolated or estimated; else good. */
  lemma SeverityOfSample(q: byte, origin: byte)
    ensures var s := WithOrigin(StatusOfQuality(q), origin);
            && Severity(s) >= Severity(StatusOfQuality(q))
            && (Severity(s) == 2 <==> q >= 0x80 || q % 4 == 2 || q / 4 % 2 == 1)
            && (Severity(s) == 0 <==> s == GOOD)
            && (s == GOOD <==> q < 0x80 && q % 4 < 2 && q / 4 % 2 == 0 && origin != 2 && origin != 3)
  {
  }

  /** The origin replaces every status that is not bad, good or not: these are the ones that it changes. */
  lemma OriginReplacesIff(status: u32, origin: byte)
    ensures WithOrigin(status, origin) != status
       <==> Severity(status) < 2
            && ((origin == 2 && status != UNCERTAIN_INTERPOLATED_VALUE)
                || (origin == 3 && status != UNCERTAIN_LAST_USABLE_VALUE))
  {
  }

  /** So it does not keep to the good samples: it replaces the status of exactly the questionable ones, without failure
      or overflow, that are interpolated. */
  lemma OriginReplacesUncertainIff(q: byte, origin: byte)
    ensures StatusOfQuality(q) != GOOD && WithOrigin(StatusOfQuality(q), origin) != StatusOfQuality(q)
       <==> q < 0x80 && q % 4 == 3 && q / 4 % 2 == 0 && origin == 2
  {
  }

  /** The exact status codes, and what decides between them: first a failure (bit 7), then the validity in bits 0 and 1
      (2 is invalid, 3 questionable) and an overflow (bit 2). */
  lemma StatusCodes(q: byte)
    ensures var s, failure, validity, overflow := StatusOfQuality(q), q / 0x80 == 1, q % 4, q / 4 % 2 == 1;
            && (s == 0x80B1_0000 <==> failure)
            && (s == 0x80AB_0000 <==> !failure && validity == 2)
            && (s == 0x803B_0000 <==> !failure && validity != 2 && overflow)
            && (s == 0x4090_0000 <==> !failure && validity == 3 && !overflow)
            && (s == 0 <==> !failure && validity < 2 && !overflow)
  {
  }

  /** ... and what the origins 2 and 3 make of a status that is not bad; any other origin keeps it. */
  lemma OriginCodes(status: u32, origin: byte)
    ensures status < 0x8000_0000 && origin == 2 ==> WithOrigin(status, origin) == 0x408F_0000
    ensures status < 0x8000_0000 && origin == 3 ==> WithOrigin(status, origin) == 0x4090_0000
    ensures status >= 0x8000_0000 || (origin != 2 && origin != 3) ==> WithOrigin(status, origin) == status
  {
  }

  /** A questionable, interpolated sample: the last usable value becomes an interpolated one. */
  lemma QuestionableInterpolated()
    ensures StatusOfQuality(3) == UNCERTAIN_LAST_USABLE_VALUE
    ensures WithOrigin(StatusOfQuality(3), 2) == UNCERTAIN_INTERPOLATED_VALUE != UNCERTAIN_LAST_USABLE_VALUE
  {
  }

  function SampleStatus(r: Reading): u32
  {
    WithOrigin(StatusOfQuality(r.quality), r.origin)
  }

  // The five variables of a channel, and the three of a MU, as the publisher writes them.

  function ChannelUpdates(registryId: string, snapshot: Snapshot, idx: nat, name: string): seq<Update>
  {
    var id := registryId + "." + ChannelName(idx, name);
    var r := ReadingOf(snapshot, idx);
    [Update(id + ".instMag.i", OfInt32(r.raw), Some(SampleStatus(r))),
     Update(id + ".instMag.f", OfFloat(r.calibrated), Some(SampleStatus(r))),
     Update(id + ".q", OfUInt16(r.quality), None), Update(id + ".t", OfUtcTime(snapshot.tsUtcNs), None),
     Update(id + ".tick_id", OfInt32(AsI32(snapshot.tickId % 0x1_0000_0000)), None)]
  }

  function AllChannelUpdates(registryId: string, snapshot: Snapshot, names: seq<string>): seq<Update>
  {
    if names == [] then []
    else AllChannelUpdates(registryId, snapshot, names[..|names| - 1])
         + ChannelUpdates(registryId, snapshot, |names| - 1, names[|names| - 1])
  }

  function StatusUpdates(statusId: string, snapshot: Snapshot): seq<Update>
  {
    [Update(statusId + ".last_tick_id", OfUInt64(snapshot.tickId), None),
     Update(statusId + ".last_ts_utc_ns", OfUInt64(snapshot.tsUtcNs), None),
     Update(statusId + ".n_channels", OfUInt16(snapshot.nChannels), None)]
  }

  /** The publisher writes below `s=Substations.Demo`, whatever the substation's name. */
  function MuUpdates(snapshot: Snapshot, mu: MuSpec): seq<Update>
  {
    AllChannelUpdates("s=Substations.Demo." + mu.svId + ".ChannelRegistry", snapshot, mu.channelNames)
    + StatusUpdates("s=Substations.Demo." + mu.svId + ".TickStatus", snapshot)
  }

  function Updates(snapshot: Snapshot, mus: seq<MuSpec>): seq<Update>
  {
    if mus == [] then [] else Updates(snapshot, mus[..|mus| - 1]) + MuUpdates(snapshot, mus[|mus| - 1])
  }

  /** What the publisher writes to a variable of each kind: of the tick id, a channel gets the low 32 bits as a signed
      number, the MU all of it. */
  function Shown(snapshot: Snapshot, idx: nat, kind: VariableKind): Value
  {
    var r := ReadingOf(snapshot, idx);
    match kind
    case InstMagI => OfInt32(r.raw)
    case InstMagF => OfFloat(r.calibrated)
    case Quality => OfUInt16(r.quality)
    case Time => OfUtcTime(snapshot.tsUtcNs)
    case TickId => OfInt32(AsI32(snapshot.tickId % 0x1_0000_0000))
    case LastTickId => OfUInt64(snapshot.tickId)
    case LastTsUtcNs => OfUInt64(snapshot.tsUtcNs)
    case NChannels => OfUInt16(snapshot.nChannels)
  }

  /** The status that goes with it: the sample's, for its two measured values. */
  function ShownStatus(snapshot: Snapshot, idx: nat, kind: VariableKind): Option<u32>
  {
    if kind.InstMagI? || kind.InstMagF? then Some(SampleStatus(ReadingOf(snapshot, idx))) else None
  }

  // ---- Building ----

  method AddLeaves(out: seq<Node>, parent: string, leaves: seq<Leaf>) returns (r: seq<Node>)
    ensures r == out + LeafNodes(parent, leaves)
  {
    r := out;
    var i := 0;
    while i < |leaves|
      invariant 0 <= i <= |leaves|
      invariant r == out + LeafNodes(parent, leaves[..i])
    {
      assert leaves[..i + 1][..i] == leaves[..i];
      var suffix, kind := leaves[i].suffix, leaves[i].kind;
      r := r + [Node(parent + "." + suffix, suffix, Variable(kind), Some(parent))];
      i := i + 1;
    }
    assert leaves[..i] == leaves;
  }

  method AddMu(out: seq<Node>, substationId: string, mu: MuSpec) returns (r: seq<Node>)
    ensures r == out + MuNodes(substationId, mu)
  {
    hide LeafNodes, ChannelName, ChannelLeaves, StatusLeaves;
    var muId := substationId + "." + mu.svId;
    r := out + [Node(muId, mu.svId, Container, Some(substationId))];
    var registryId := muId + ".ChannelRegistry";
    r := r + [Node(registryId, "ChannelRegistry", Folder, Some(muId))];
    ghost var start := r;
    assert start + AllChannelNodes(registryId, mu.channelNames[..0]) == start;
    var idx := 0;
    while idx < |mu.channelNames|
      invariant 0 <= idx <= |mu.channelNames|
      invariant r == start + AllChannelNodes(registryId, mu.channelNames[..idx])
    {
      var browse := ChannelName(idx, mu.channelNames[idx]);
      var chId := registryId + "." + browse;
      r := r + [Node(chId, browse, Container, Some(registryId))];
      r := AddLeaves(r, chId, ChannelLeaves());
      NextChannel(start, registryId, mu.channelNames, idx);
      idx := idx + 1;
    }
    assert mu.channelNames[..idx] == mu.channelNames;
    r := r + [Node(muId + ".TickStatus", "TickStatus", Folder, Some(muId))];
    r := AddLeaves(r, muId + ".TickStatus", StatusLeaves());
    MuParts(out, substationId, mu, muId);
  }

  lemma NextChannel(start: seq<Node>, registryId: string, names: seq<string>, idx: nat)
    requires idx < |names|
    ensures start + AllChannelNodes(registryId, names[..idx])
            + [Node(registryId + "." + ChannelName(idx, names[idx]), ChannelName(idx, names[idx]), Container,
                    Some(registryId))]
            + LeafNodes(registryId + "." + ChannelName(idx, names[idx]), ChannelLeaves())
         == start + AllChannelNodes(registryId, names[..idx + 1])
  {
    assert names[..idx + 1][..idx] == names[..idx];
    hide LeafNodes, ChannelName, ChannelLeaves;
  }

  lemma MuParts(out: seq<Node>, substationId: string, mu: MuSpec, muId: string)
    requires muId == substationId + "." + mu.svId
    ensures out + [Node(muId, mu.svId, Container, Some(substationId))]
            + [Node(muId + ".ChannelRegistry", "ChannelRegistry", Folder, Some(muId))]
            + AllChannelNodes(muId + ".ChannelRegistry", mu.channelNames)
            + [Node(muId + ".TickStatus", "TickStatus", Folder, Some(muId))]
            + LeafNodes(muId + ".TickStatus", StatusLeaves())
         == out + MuNodes(substationId, mu)
  {
    hide AllChannelNodes, LeafNodes, StatusLeaves;
  }

  method BuildNodes(substation: string, mus: seq<MuSpec>) returns (out: seq<Node>)
    ensures out == Nodes(substation, mus)
  {
    hide MuNodes;
    var substationsId := "s=Substations";
    out := [Node(substationsId, "Substations", Folder, None)];
    var substationId := "s=Substations." + substation;
    out := out + [Node(substationId, substation, Folder, Some(substationsId))];
    var i := 0;
    while i < |mus|
      invariant 0 <= i <= |mus|
      invariant out == RootNodes(substation) + AllMuNodes(SubstationId(substation), mus[..i])
    {
      out := AddMu(out, substationId, mus[i]);
      assert mus[..i + 1][..i] == mus[..i];
      i := i + 1;
    }
    assert mus[..i] == mus;
  }

  method PushValue(out: seq<Update>, id: string, value: Value, status: Option<u32>) returns (r: seq<Update>)
    ensures r == out + [Update(id, value, status)]
  {
    r := out + [Update(id, value, status)];
  }

  method AddChannelUpdates(out: seq<Update>, registryPrefix: string, snapshot: Snapshot, idx: nat, name: string)
    returns (r: seq<Update>)
    ensures r == out + ChannelUpdates(registryPrefix, snapshot, idx, name)
  {
    hide ChannelName, StatusOfQuality, WithOrigin;
    var chPrefix := registryPrefix + "." + ChannelName(idx, name);
    var reading := ReadingOf(snapshot, idx);
    var baseStatus := StatusOfQuality(reading.quality);
    var status := WithOrigin(baseStatus, reading.origin);
    r := PushValue(out, chPrefix + ".instMag.i", OfInt32(reading.raw), Some(status));
    r := PushValue(r, chPrefix + ".instMag.f", OfFloat(reading.calibrated), Some(status));
    r := PushValue(r, chPrefix + ".q", OfUInt16(reading.quality), None);
    r := PushValue(r, chPrefix + ".t", OfUtcTime(snapshot.tsUtcNs), None);
    r := PushValue(r, chPrefix + ".tick_id", OfInt32(AsI32(snapshot.tickId % 0x1_0000_0000)), None);
  }

  method AddMuUpdates(out: seq<Update>, snapshot: Snapshot, mu: MuSpec) returns (r: seq<Update>)
    ensures r == out + MuUpdates(snapshot, mu)
  {
    hide ChannelUpdates;
    r := out;
    var registryPrefix := "s=Substations.Demo." + mu.svId + ".ChannelRegistry";
    var idx := 0;
    while idx < |mu.channelNames|
      invariant 0 <= idx <= |mu.channelNames|
      invariant r == out + AllChannelUpdates(registryPrefix, snapshot, mu.channelNames[..idx])
    {
      r := AddChannelUpdates(r, registryPrefix, snapshot, idx, mu.channelNames[idx]);
      assert mu.channelNames[..idx + 1][..idx] == mu.channelNames[..idx];
      idx := idx + 1;
    }
    assert mu.channelNames[..idx] == mu.channelNames;
    var statusPrefix := "s=Substations.Demo." + mu.svId + ".TickStatus";
    r := PushValue(r, statusPrefix + ".last_tick_id", OfUInt64(snapshot.tickId), None);
    r := PushValue(r, statusPrefix + ".last_ts_utc_ns", OfUInt64(snapshot.tsUtcNs), None);
    r := PushValue(r, statusPrefix + ".n_channels", OfUInt16(snapshot.nChannels), None);
  }

  method BuildUpdates(mus: seq<MuSpec>, snapshot: Snapshot) returns (out: seq<Update>)
    ensures out == Updates(snapshot, mus)
  {
    hide MuUpdates;
    out := [];
    var i := 0;
    while i < |mus|
      invariant 0 <= i <= |mus|
      invariant out == Updates(snapshot, mus[..i])
    {
      out := AddMuUpdates(out, snapshot, mus[i]);
      assert mus[..i + 1][..i] == mus[..i];
      i := i + 1;
    }
    assert mus[..i] == mus;
  }

  // ---- Updates address the variables ----

  function Variables(nodes: seq<Node>): seq<Node>
  {
    if nodes == [] then []
    else Variables(nodes[..|nodes| - 1]) + if nodes[|nodes| - 1].kind.Variable? then [nodes[|nodes| - 1]] else []
  }

  /** One update for each variable node, in the same order, with a value of the type the node was registered with. */
  predicate Addressed(variables: seq<Node>, updates: seq<Update>)
  {
    && |variables| == |updates|
    && forall i :: 0 <= i < |updates| ==>
         && variables[i].kind.Variable? && variables[i].nodeId == updates[i].nodeId
         && TypeOf(updates[i].value) == RegisteredType(variables[i].kind.variable)
  }

  lemma {:induction false} VariablesConcat(a: seq<Node>, b: seq<Node>)
    ensures Variables(a + b) == Variables(a) + Variables(b)
    decreases |b|
  {
    if b == [] {
      assert a + b == a;
    } else {
      assert (a + b)[..|a + b| - 1] == a + b[..|b| - 1];
      VariablesConcat(a, b[..|b| - 1]);
    }
  }

  lemma {:induction false} LeavesAreVariables(parent: string, leaves: seq<Leaf>)
    ensures Variables(LeafNodes(parent, leaves)) == LeafNodes(parent, leaves)
  {
    if leaves != [] {
      var nodes := LeafNodes(parent, leaves);
      assert nodes[..|nodes| - 1] == LeafNodes(parent, leaves[..|leaves| - 1]);
      LeavesAreVariables(parent, leaves[..|leaves| - 1]);
    }
  }

  lemma {:induction false} LeafAt(parent: string, leaves: seq<Leaf>, i: nat)
    requires i < |leaves|
    ensures LeafNodes(parent, leaves)[i]
         == Node(parent + "." + leaves[i].suffix, leaves[i].suffix, Variable(leaves[i].kind), Some(parent))
  {
    if i < |leaves| - 1 {
      LeafAt(parent, leaves[..|leaves| - 1], i);
    }
  }

  /** An update of each variable of a list, showing what its kind shows of channel `idx`. */
  predicate Shows(variables: seq<Node>, updates: seq<Update>, snapshot: Snapshot, idx: nat)
  {
    && |variables| == |updates|
    && forall i :: 0 <= i < |updates| ==>
         && variables[i].kind.Variable?
         && var kind := variables[i].kind.variable;
            updates[i] == Update(variables[i].nodeId, Shown(snapshot, idx, kind), ShownStatus(snapshot, idx, kind))
  }

  /** The update is the variable's own, and shows what its kind shows of channel `idx`. */
  predicate Published(variable: Node, update: Update, snapshot: Snapshot, idx: nat)
  {
    && variable.kind.Variable?
    && var kind := variable.kind.variable;
       update == Update(variable.nodeId, Shown(snapshot, idx, kind), ShownStatus(snapshot, idx, kind))
  }

  predicate AllPublished(variables: seq<Node>, updates: seq<Update>, snapshot: Snapshot, channels: seq<nat>)
  {
    && |variables| == |updates| == |channels|
    && forall i :: 0 <= i < |updates| ==> Published(variables[i], updates[i], snapshot, channels[i])
  }

  /** The channels whose readings the variables below `n` channels show: five of each. */
  function ChannelIndices(n: nat): (r: seq<nat>)
    ensures |r| == 5 * n
  {
    if n == 0 then [] else ChannelIndices(n - 1) + [n - 1, n - 1, n - 1, n - 1, n - 1]
  }

  /** The same for all variables; the three of a MU's status, which show no channel, count as channel 0. */
  function AllChannelIndices(mus: seq<MuSpec>): seq<nat>
  {
    if mus == [] then []
    else AllChannelIndices(mus[..|mus| - 1]) + (ChannelIndices(|mus[|mus| - 1].channelNames|) + [0, 0, 0])
  }

  lemma ShowsIsPublished(variables: seq<Node>, updates: seq<Update>, snapshot: Snapshot, idx: nat, channels: seq<nat>)
    requires Shows(variables, updates, snapshot, idx)
    requires |channels| == |updates| && forall i :: 0 <= i < |channels| ==> channels[i] == idx
    ensures AllPublished(variables, updates, snapshot, channels)
  {
    hide Shown, ShownStatus;
  }

  lemma PublishedConcat(a: seq<Node>, x: seq<Update>, m: seq<nat>, b: seq<Node>, y: seq<Update>, n: seq<nat>,
                        snapshot: Snapshot)
    requires AllPublished(a, x, snapshot, m) && AllPublished(b, y, snapshot, n)
    ensures AllPublished(a + b, x + y, snapshot, m + n)
  {
    hide Published;
  }

  lemma PublishedType(variable: Node, update: Update, snapshot: Snapshot, idx: nat)
    requires Published(variable, update, snapshot, idx)
    ensures variable.kind.Variable? && variable.nodeId == update.nodeId
    ensures TypeOf(update.value) == RegisteredType(variable.kind.variable)
  {
  }

  lemma PublishedIsAddressed(variables: seq<Node>, updates: seq<Update>, snapshot: Snapshot, channels: seq<nat>)
    requires AllPublished(variables, updates, snapshot, channels)
    ensures Addressed(variables, updates)
  {
    hide Published, TypeOf, RegisteredType;
    forall i | 0 <= i < |updates|
      ensures variables[i].kind.Variable? && variables[i].nodeId == updates[i].nodeId
      ensures TypeOf(updates[i].value) == RegisteredType(variables[i].kind.variable)
    {
      PublishedType(variables[i], updates[i], snapshot, channels[i]);
    }
  }

  /** The channel's own updates go to its own nodes: its value twice, its quality, the time, and the low 32 bits of the
      tick id as a signed number (`TickIdShownIff` says when that is the tick id). */
  lemma ChannelShows(registryId: string, snapshot: Snapshot, idx: nat, name: string)
    ensures Shows(Variables(ChannelNodes(registryId, idx, name)), ChannelUpdates(registryId, snapshot, idx, name),
                  snapshot, idx)
  {
    hide ChannelName, SampleStatus;
    var id := registryId + "." + ChannelName(idx, name);
    var leaves := ChannelLeaves();
    ChannelVariables(registryId, idx, name);
    LeafAt(id, leaves, 0);
    LeafAt(id, leaves, 1);
    LeafAt(id, leaves, 2);
    LeafAt(id, leaves, 3);
    LeafAt(id, leaves, 4);
    ChannelIds(id);
  }

  lemma ChannelVariables(registryId: string, idx: nat, name: string)
    ensures Variables(ChannelNodes(registryId, idx, name))
         == LeafNodes(registryId + "." + ChannelName(idx, name), ChannelLeaves())
  {
    hide ChannelName, ChannelLeaves;
    var id := registryId + "." + ChannelName(idx, name);
    var own := [Node(id, ChannelName(idx, name), Container, Some(registryId))];
    VariablesConcat(own, LeafNodes(id, ChannelLeaves()));
    LeavesAreVariables(id, ChannelLeaves());
    assert own[..0] == [];
    assert Variables(own) == [];
    assert [] + LeafNodes(id, ChannelLeaves()) == LeafNodes(id, ChannelLeaves());
  }

  lemma ChannelIds(id: string)
    ensures id + "." + "instMag.i" == id + ".instMag.i" && id + "." + "instMag.f" == id + ".instMag.f"
    ensures id + "." + "q" == id + ".q" && id + "." + "t" == id + ".t" && id + "." + "tick_id" == id + ".tick_id"
  {
  }

  lemma StatusIds(id: string)
    ensures id + "." + "last_tick_id" == id + ".last_tick_id"
    ensures id + "." + "last_ts_utc_ns" == id + ".last_ts_utc_ns"
    ensures id + "." + "n_channels" == id + ".n_channels"
  {
  }

  lemma StatusShows(muId: string, snapshot: Snapshot)
    ensures Shows(Variables(StatusNodes(muId)), StatusUpdates(muId + ".TickStatus", snapshot), snapshot, 0)
  {
    var id := muId + ".TickStatus";
    StatusVariables(muId);
    LeafAt(id, StatusLeaves(), 0);
    LeafAt(id, StatusLeaves(), 1);
    LeafAt(id, StatusLeaves(), 2);
    StatusIds(id);
  }

  lemma StatusVariables(muId: string)
    ensures Variables(StatusNodes(muId)) == LeafNodes(muId + ".TickStatus", StatusLeaves())
  {
    hide StatusLeaves;
    var id := muId + ".TickStatus";
    var own := [Node(id, "TickStatus", Folder, Some(muId))];
    VariablesConcat(own, LeafNodes(id, StatusLeaves()));
    LeavesAreVariables(id, StatusLeaves());
    assert own[..0] == [];
    assert Variables(own) == [];
    assert [] + LeafNodes(id, StatusLeaves()) == LeafNodes(id, StatusLeaves());
  }

  lemma {:induction false} ChannelsPublished(registryId: string, snapshot: Snapshot, names: seq<string>)
    ensures AllPublished(Variables(AllChannelNodes(registryId, names)), AllChannelUpdates(registryId, snapshot, names),
                         snapshot, ChannelIndices(|names|))
    decreases |names|
  {
    hide ChannelNodes, ChannelUpdates, AllPublished, Shows;
    if names == [] {
      NothingPublished(snapshot);
    } else {
      var init, idx := names[..|names| - 1], |names| - 1;
      ChannelsPublished(registryId, snapshot, init);
      ChannelShows(registryId, snapshot, idx, names[idx]);
      var five := [idx, idx, idx, idx, idx];
      FiveUpdates(registryId, snapshot, idx, names[idx]);
      ShowsIsPublished(Variables(ChannelNodes(registryId, idx, names[idx])),
                       ChannelUpdates(registryId, snapshot, idx, names[idx]), snapshot, idx, five);
      VariablesConcat(AllChannelNodes(registryId, init), ChannelNodes(registryId, idx, names[idx]));
      PublishedConcat(Variables(AllChannelNodes(registryId, init)), AllChannelUpdates(registryId, snapshot, init),
                      ChannelIndices(idx), Variables(ChannelNodes(registryId, idx, names[idx])),
                      ChannelUpdates(registryId, snapshot, idx, names[idx]), five, snapshot);
    }
  }

  lemma FiveUpdates(registryId: string, snapshot: Snapshot, idx: nat, name: string)
    ensures |ChannelUpdates(registryId, snapshot, idx, name)| == 5
  {
  }

  lemma NothingPublished(snapshot: Snapshot)
    ensures Variables([]) == [] && AllPublished([], [], snapshot, [])
  {
  }

  lemma MuPublished(snapshot: Snapshot, mu: MuSpec)
    ensures AllPublished(Variables(MuNodes(SubstationId("Demo"), mu)), MuUpdates(snapshot, mu), snapshot,
                         ChannelIndices(|mu.channelNames|) + [0, 0, 0])
  {
    hide AllChannelNodes, AllChannelUpdates, StatusNodes, StatusUpdates, AllPublished, Shows, SubstationId;
    DemoId(mu.svId);
    var muId := SubstationId("Demo") + "." + mu.svId;
    var own := [Node(muId, mu.svId, Container, Some(SubstationId("Demo"))),
                Node(muId + ".ChannelRegistry", "ChannelRegistry", Folder, Some(muId))];
    var channels, status := AllChannelNodes(muId + ".ChannelRegistry", mu.channelNames), StatusNodes(muId);
    NoVariables(own);
    VariablesConcat(own + channels, status);
    VariablesConcat(own, channels);
    assert [] + Variables(channels) == Variables(channels);
    ChannelsPublished(muId + ".ChannelRegistry", snapshot, mu.channelNames);
    StatusShows(muId, snapshot);
    ThreeUpdates(muId + ".TickStatus", snapshot);
    ShowsIsPublished(Variables(status), StatusUpdates(muId + ".TickStatus", snapshot), snapshot, 0, [0, 0, 0]);
    PublishedConcat(Variables(channels), AllChannelUpdates(muId + ".ChannelRegistry", snapshot, mu.channelNames),
                    ChannelIndices(|mu.channelNames|), Variables(status), StatusUpdates(muId + ".TickStatus", snapshot),
                    [0, 0, 0], snapshot);
  }

  lemma ThreeUpdates(statusId: string, snapshot: Snapshot)
    ensures |StatusUpdates(statusId, snapshot)| == 3
  {
  }

  lemma DemoId(svId: string)
    ensures SubstationId("Demo") + "." + svId == "s=Substations.Demo." + svId
  {
  }

  lemma {:induction false} NoVariables(nodes: seq<Node>)
    requires forall i :: 0 <= i < |nodes| ==> !nodes[i].kind.Variable?
    ensures Variables(nodes) == []
  {
    if nodes != [] {
      NoVariables(nodes[..|nodes| - 1]);
    }
  }

  lemma {:induction false} MusPublished(snapshot: Snapshot, mus: seq<MuSpec>)
    ensures AllPublished(Variables(AllMuNodes(SubstationId("Demo"), mus)), Updates(snapshot, mus), snapshot,
                         AllChannelIndices(mus))
    decreases |mus|
  {
    hide MuNodes, MuUpdates, AllPublished, SubstationId;
    if mus == [] {
      NothingPublished(snapshot);
    } else {
      var init, mu := mus[..|mus| - 1], mus[|mus| - 1];
      var id := SubstationId("Demo");
      MusPublished(snapshot, init);
      MuPublished(snapshot, mu);
      VariablesConcat(AllMuNodes(id, init), MuNodes(id, mu));
      PublishedConcat(Variables(AllMuNodes(id, init)), Updates(snapshot, init), AllChannelIndices(init),
                      Variables(MuNodes(id, mu)), MuUpdates(snapshot, mu),
                      ChannelIndices(|mu.channelNames|) + [0, 0, 0], snapshot);
    }
  }

  /** For substation "Demo" and any MUs, the updates address exactly the variable nodes, in the same order, each with
      what its kind shows, so with a value of the registered type. */
  lemma UpdatesAddressVariables(snapshot: Snapshot, mus: seq<MuSpec>)
    ensures AllPublished(Variables(Nodes("Demo", mus)), Updates(snapshot, mus), snapshot, AllChannelIndices(mus))
    ensures Addressed(Variables(Nodes("Demo", mus)), Updates(snapshot, mus))
  {
    hide AllMuNodes, Updates, AllPublished, Addressed, SubstationId;
    MusPublished(snapshot, mus);
    NoVariables(RootNodes("Demo"));
    VariablesConcat(RootNodes("Demo"), AllMuNodes(SubstationId("Demo"), mus));
    var all := Variables(AllMuNodes(SubstationId("Demo"), mus));
    assert [] + all == all;
    PublishedIsAddressed(Variables(Nodes("Demo", mus)), Updates(snapshot, mus), snapshot, AllChannelIndices(mus));
  }

  // ---- When a variable shows the tick id ----

  /** The number in an integer value. */
  function Number(v: Value): Option<int>
  {
    match v
    case OfInt32(i) => Some(i)
    case OfUInt16(u) => Some(u)
    case OfUInt64(n) => Some(n)
    case OfUtcTime(_) => None
    case OfFloat(_) => None
  }

  /** The MU's variable shows the tick id, the channel's exactly when it is below 2^31. */
  lemma TickIdShown(snapshot: Snapshot, idx: nat)
    ensures Number(Shown(snapshot, idx, LastTickId)) == Some(snapshot.tickId)
    ensures Number(Shown(snapshot, idx, TickId)) == Some(snapshot.tickId) <==> snapshot.tickId < 0x8000_0000
  {
  }

  /** At 2^31 the channel's variable jumps to the least 32-bit number. */
  lemma TickIdWraps(snapshot: Snapshot, idx: nat)
    requires snapshot.tickId == 0x8000_0000
    ensures Shown(snapshot, idx, TickId) == OfInt32(-0x8000_0000)
  {
  }

  /** Two tick ids show alike exactly when they are congruent modulo 2^32. */
  lemma TickIdsShowAlikeIff(s: Snapshot, t: Snapshot, idx: nat)
    ensures Shown(s, idx, TickId) == Shown(t, idx, TickId) <==> s.tickId % 0x1_0000_0000 == t.tickId % 0x1_0000_0000
  {
  }

  /** Every variable of this kind shows the tick id. */
  predicate ShowTickId(variables: seq<Node>, updates: seq<Update>, snapshot: Snapshot, kind: VariableKind)
    requires |variables| == |updates|
  {
    forall i :: 0 <= i < |updates| && variables[i].kind == Variable(kind) ==>
      Number(updates[i].value) == Some(snapshot.tickId)
  }

  predicate HasKind(nodes: seq<Node>, kind: NodeKind)
  {
    exists i :: 0 <= i < |nodes| && nodes[i].kind == kind
  }

  lemma HasKindConcat(a: seq<Node>, b: seq<Node>, kind: NodeKind)
    ensures HasKind(a + b, kind) <==> HasKind(a, kind) || HasKind(b, kind)
  {
    var all := a + b;
    assert forall i :: 0 <= i < |a| ==> all[i] == a[i];
    assert forall i :: 0 <= i < |b| ==> all[|a| + i] == b[i];
    if HasKind(all, kind) {
      var i :| 0 <= i < |all| && all[i].kind == kind;
      assert if i < |a| then a[i].kind == kind else b[i - |a|].kind == kind;
    }
  }

  lemma {:induction false} HasKindVariables(nodes: seq<Node>, kind: VariableKind)
    ensures HasKind(Variables(nodes), Variable(kind)) <==> HasKind(nodes, Variable(kind))
  {
    if nodes != [] {
      var init, last := nodes[..|nodes| - 1], nodes[|nodes| - 1];
      HasKindVariables(init, kind);
      HasKindConcat(init, [last], Variable(kind));
      HasKindConcat(Variables(init), if last.kind.Variable? then [last] else [], Variable(kind));
      assert nodes == init + [last];
      assert HasKind([last], Variable(kind)) <==> last.kind == Variable(kind) by {
        assert [last][0] == last;
      }
    }
  }

  lemma {:induction false} LeavesHaveKind(parent: string, leaves: seq<Leaf>, kind: VariableKind)
    ensures HasKind(LeafNodes(parent, leaves), Variable(kind)) <==> exists leaf :: leaf in leaves && leaf.kind == kind
  {
    if exists leaf :: leaf in leaves && leaf.kind == kind {
      var leaf :| leaf in leaves && leaf.kind == kind;
      var i :| 0 <= i < |leaves| && leaves[i] == leaf;
      LeafAt(parent, leaves, i);
    }
    if HasKind(LeafNodes(parent, leaves), Variable(kind)) {
      var i :| 0 <= i < |leaves| && LeafNodes(parent, leaves)[i].kind == Variable(kind);
      LeafAt(parent, leaves, i);
      assert leaves[i] in leaves;
    }
  }

  lemma ChannelHasTickId(registryId: string, idx: nat, name: string)
    ensures HasKind(ChannelNodes(registryId, idx, name), Variable(TickId))
  {
    hide ChannelName;
    var id := registryId + "." + ChannelName(idx, name);
    assert ChannelLeaves()[4] in ChannelLeaves();
    LeavesHaveKind(id, ChannelLeaves(), TickId);
    HasKindConcat([Node(id, ChannelName(idx, name), Container, Some(registryId))], LeafNodes(id, ChannelLeaves()),
                  Variable(TickId));
  }

  lemma ChannelsHaveTickId(registryId: string, names: seq<string>)
    ensures HasKind(AllChannelNodes(registryId, names), Variable(TickId)) <==> names != []
  {
    hide ChannelNodes;
    if names != [] {
      var init, idx := names[..|names| - 1], |names| - 1;
      ChannelHasTickId(registryId, idx, names[idx]);
      HasKindConcat(AllChannelNodes(registryId, init), ChannelNodes(registryId, idx, names[idx]), Variable(TickId));
    }
  }

  lemma StatusHasNoTickId(muId: string)
    ensures !HasKind(StatusNodes(muId), Variable(TickId))
  {
    var id := muId + ".TickStatus";
    LeavesHaveKind(id, StatusLeaves(), TickId);
    HasKindConcat([Node(id, "TickStatus", Folder, Some(muId))], LeafNodes(id, StatusLeaves()), Variable(TickId));
  }

  lemma MuHasTickId(substationId: string, mu: MuSpec)
    ensures HasKind(MuNodes(substationId, mu), Variable(TickId)) <==> mu.channelNames != []
  {
    hide AllChannelNodes, StatusNodes;
    var muId := substationId + "." + mu.svId;
    var own := [Node(muId, mu.svId, Container, Some(substationId)),
                Node(muId + ".ChannelRegistry", "ChannelRegistry", Folder, Some(muId))];
    var channels, status := AllChannelNodes(muId + ".ChannelRegistry", mu.channelNames), StatusNodes(muId);
    ChannelsHaveTickId(muId + ".ChannelRegistry", mu.channelNames);
    StatusHasNoTickId(muId);
    HasKindConcat(own, channels, Variable(TickId));
    HasKindConcat(own + channels, status, Variable(TickId));
  }

  predicate HasChannels(mus: seq<MuSpec>)
  {
    exists m :: 0 <= m < |mus| && mus[m].channelNames != []
  }

  lemma {:induction false} MusHaveTickId(substationId: string, mus: seq<MuSpec>)
    ensures HasKind(AllMuNodes(substationId, mus), Variable(TickId)) <==> HasChannels(mus)
    decreases |mus|
  {
    hide MuNodes;
    if mus != [] {
      var init, mu := mus[..|mus| - 1], mus[|mus| - 1];
      MusHaveTickId(substationId, init);
      MuHasTickId(substationId, mu);
      HasKindConcat(AllMuNodes(substationId, init), MuNodes(substationId, mu), Variable(TickId));
      assert HasChannels(mus) <==> HasChannels(init) || mu.channelNames != [] by {
        assert mus == init + [mu];
        assert forall m :: 0 <= m < |init| ==> mus[m] == init[m];
      }
    }
  }

  lemma PublishedTickId(variable: Node, update: Update, snapshot: Snapshot, idx: nat)
    requires Published(variable, update, snapshot, idx)
    ensures variable.kind == Variable(LastTickId) ==> Number(update.value) == Some(snapshot.tickId)
    ensures variable.kind == Variable(TickId) ==>
      (Number(update.value) == Some(snapshot.tickId) <==> snapshot.tickId < 0x8000_0000)
  {
    TickIdShown(snapshot, idx);
    hide Shown, ShownStatus, Number;
  }

  /** Every MU's `last_tick_id` shows the tick id, and every channel's `tick_id` does if and only if the tick id is
      below 2^31 or there is no channel. */
  lemma TickIdShownIff(snapshot: Snapshot, mus: seq<MuSpec>)
    ensures |Variables(Nodes("Demo", mus))| == |Updates(snapshot, mus)|
    ensures ShowTickId(Variables(Nodes("Demo", mus)), Updates(snapshot, mus), snapshot, LastTickId)
    ensures ShowTickId(Variables(Nodes("Demo", mus)), Updates(snapshot, mus), snapshot, TickId)
       <==> snapshot.tickId < 0x8000_0000 || !HasChannels(mus)
  {
    hide Updates, Addressed, Published, AllMuNodes, HasChannels, Number, Variables;
    UpdatesAddressVariables(snapshot, mus);
    MusHaveTickId(SubstationId("Demo"), mus);
    HasKindConcat(RootNodes("Demo"), AllMuNodes(SubstationId("Demo"), mus), Variable(TickId));
    HasKindVariables(Nodes("Demo", mus), TickId);
    var variables, updates := Variables(Nodes("Demo", mus)), Updates(snapshot, mus);
    forall i | 0 <= i < |updates|
      ensures variables[i].kind == Variable(LastTickId) ==> Number(updates[i].value) == Some(snapshot.tickId)
      ensures variables[i].kind == Variable(TickId) ==>
        (Number(updates[i].value) == Some(snapshot.tickId) <==> snapshot.tickId < 0x8000_0000)
    {
      PublishedTickId(variables[i], updates[i], snapshot, AllChannelIndices(mus)[i]);
    }
  }

  // ---- Which update is where, and what it carries ----

  /** How many updates come before those of MU `m`. */
  function UpdatesBefore(mus: seq<MuSpec>, m: nat): nat
    requires m <= |mus|
  {
    if m == 0 then 0 else UpdatesBefore(mus, m - 1) + 5 * |mus[m - 1].channelNames| + 3
  }

  lemma {:induction false} UpdatesCount(snapshot: Snapshot, mus: seq<MuSpec>, m: nat)
    requires m <= |mus|
    ensures |Updates(snapshot, mus[..m])| == UpdatesBefore(mus, m)
    ensures Updates(snapshot, mus[..m]) <= Updates(snapshot, mus)
    decreases |mus|, m
  {
    hide MuUpdates;
    if m > 0 {
      assert mus[..m][..m - 1] == mus[..m - 1];
      UpdatesCount(snapshot, mus, m - 1);
      MuUpdatesCount(snapshot, mus[m - 1]);
    }
    if m == |mus| {
      assert mus[..m] == mus;
    } else {
      var init := mus[..|mus| - 1];
      assert init[..m] == mus[..m];
      UpdatesCount(snapshot, init, m);
    }
  }

  lemma MuUpdatesCount(snapshot: Snapshot, mu: MuSpec)
    ensures |MuUpdates(snapshot, mu)| == 5 * |mu.channelNames| + 3
  {
    ChannelUpdatesAt("s=Substations.Demo." + mu.svId + ".ChannelRegistry", snapshot, mu.channelNames, 0);
    hide AllChannelUpdates;
  }

  lemma {:induction false} ChannelUpdatesAt(registryId: string, snapshot: Snapshot, names: seq<string>, idx: nat)
    ensures |AllChannelUpdates(registryId, snapshot, names)| == 5 * |names|
    ensures idx < |names| ==>
      AllChannelUpdates(registryId, snapshot, names)[5 * idx..5 * idx + 5]
      == ChannelUpdates(registryId, snapshot, idx, names[idx])
    decreases |names|
  {
    hide ChannelUpdates;
    if names != [] {
      var n := |names| - 1;
      ChannelUpdatesAt(registryId, snapshot, names[..n], idx);
      FiveUpdates(registryId, snapshot, n, names[n]);
      if idx == n {
        assert AllChannelUpdates(registryId, snapshot, names)[5 * n..5 * n + 5]
            == ChannelUpdates(registryId, snapshot, n, names[n]);
      } else if idx < n {
        var before := AllChannelUpdates(registryId, snapshot, names[..n]);
        var last := ChannelUpdates(registryId, snapshot, n, names[n]);
        assert (before + last)[5 * idx..5 * idx + 5] == before[5 * idx..5 * idx + 5];
      }
    }
  }

  lemma UpdatesOfMu(snapshot: Snapshot, mus: seq<MuSpec>, m: nat)
    requires m < |mus|
    ensures var at, n := UpdatesBefore(mus, m), 5 * |mus[m].channelNames| + 3;
            at + n <= |Updates(snapshot, mus)| && Updates(snapshot, mus)[at..at + n] == MuUpdates(snapshot, mus[m])
  {
    hide Updates, MuUpdates, UpdatesBefore;
    UpdatesCount(snapshot, mus, m);
    UpdatesCount(snapshot, mus, m + 1);
    OneMoreMu(snapshot, mus, m);
    MuUpdatesCount(snapshot, mus[m]);
    PieceOf(Updates(snapshot, mus[..m]), MuUpdates(snapshot, mus[m]), Updates(snapshot, mus));
  }

  lemma OneMoreMu(snapshot: Snapshot, mus: seq<MuSpec>, m: nat)
    requires m < |mus|
    ensures Updates(snapshot, mus[..m + 1]) == Updates(snapshot, mus[..m]) + MuUpdates(snapshot, mus[m])
  {
    hide MuUpdates;
    assert mus[..m + 1][..m] == mus[..m];
  }

  lemma PieceOf<T>(before: seq<T>, piece: seq<T>, all: seq<T>)
    requires before + piece <= all
    ensures all[|before|..|before| + |piece|] == piece
  {
    var upTo := before + piece;
    assert all[..|upTo|] == upTo;
    assert all[|before|..|upTo|] == upTo[|before|..];
  }

  /** The five updates of a channel carry this sample. */
  predicate Carries(updates: seq<Update>, id: string, snapshot: Snapshot, sample: Reading)
  {
    var status := WithOrigin(StatusOfQuality(sample.quality), sample.origin);
    && |updates| == 5
    && updates[0] == Update(id + ".instMag.i", OfInt32(sample.raw), Some(status))
    && updates[1] == Update(id + ".instMag.f", OfFloat(sample.calibrated), Some(status))
    && updates[2] == Update(id + ".q", OfUInt16(sample.quality), None)
    && updates[3] == Update(id + ".t", OfUtcTime(snapshot.tsUtcNs), None)
    && updates[4].nodeId == id + ".tick_id"
  }

  lemma ChannelCarries(registryId: string, snapshot: Snapshot, idx: nat, name: string)
    ensures var updates := ChannelUpdates(registryId, snapshot, idx, name);
            var id := registryId + "." + ChannelName(idx, name);
            && (idx < |snapshot.samples| ==> Carries(updates, id, snapshot, snapshot.samples[idx]))
            && (idx >= |snapshot.samples| ==> Carries(updates, id, snapshot, Reading(0, 0.0, 0, 1)))
  {
    hide ChannelName, StatusOfQuality, WithOrigin;
  }

  /** Channel `idx` of MU `m` is given sample number `idx` of the snapshot, or zeros with origin 1 when there are not
      that many samples. Every MU shows the same samples. */
  lemma ChannelShowsItsSample(snapshot: Snapshot, mus: seq<MuSpec>, m: nat, idx: nat)
    requires m < |mus| && idx < |mus[m].channelNames|
    ensures var at := UpdatesBefore(mus, m) + 5 * idx;
            var id := "s=Substations.Demo." + mus[m].svId + ".ChannelRegistry" + "."
                      + ChannelName(idx, mus[m].channelNames[idx]);
            && at + 5 <= |Updates(snapshot, mus)|
            && (idx < |snapshot.samples| ==>
                Carries(Updates(snapshot, mus)[at..at + 5], id, snapshot, snapshot.samples[idx]))
            && (idx >= |snapshot.samples| ==>
                Carries(Updates(snapshot, mus)[at..at + 5], id, snapshot, Reading(0, 0.0, 0, 1)))
  {
    hide Updates, MuUpdates, ChannelUpdates, ChannelName, Carries;
    var mu := mus[m];
    var registryId := "s=Substations.Demo." + mu.svId + ".ChannelRegistry";
    UpdatesOfMu(snapshot, mus, m);
    ChannelInMu(snapshot, mu, idx);
    ChannelCarries(registryId, snapshot, idx, mu.channelNames[idx]);
    var at, n, all := UpdatesBefore(mus, m), 5 * |mu.channelNames| + 3, Updates(snapshot, mus);
    SliceInSlice(all, at, at + n, 5 * idx, 5 * idx + 5);
  }

  lemma ChannelInMu(snapshot: Snapshot, mu: MuSpec, idx: nat)
    requires idx < |mu.channelNames|
    ensures |MuUpdates(snapshot, mu)| == 5 * |mu.channelNames| + 3
    ensures MuUpdates(snapshot, mu)[5 * idx..5 * idx + 5]
         == ChannelUpdates("s=Substations.Demo." + mu.svId + ".ChannelRegistry", snapshot, idx, mu.channelNames[idx])
  {
    hide AllChannelUpdates, ChannelUpdates;
    var registryId := "s=Substations.Demo." + mu.svId + ".ChannelRegistry";
    ChannelUpdatesAt(registryId, snapshot, mu.channelNames, idx);
    MuUpdatesCount(snapshot, mu);
    var channels := AllChannelUpdates(registryId, snapshot, mu.channelNames);
    assert MuUpdates(snapshot, mu)[5 * idx..5 * idx + 5] == channels[5 * idx..5 * idx + 5];
  }

  lemma SliceInSlice<T>(s: seq<T>, i: nat, j: nat, a: nat, b: nat)
    requires i <= j <= |s| && a <= b <= j - i
    ensures s[i..j][a..b] == s[i + a..i + b]
  {
    var t := s[i..j];
    forall x | a <= x < b ensures t[x] == s[i + x] {
    }
  }

  /** After its channels come the MU's three: the tick id, the time and the channel count of the snapshot. */
  lemma StatusCarries(snapshot: Snapshot, mus: seq<MuSpec>, m: nat)
    requires m < |mus|
    ensures var at := UpdatesBefore(mus, m) + 5 * |mus[m].channelNames|;
            var id := "s=Substations.Demo." + mus[m].svId + ".TickStatus";
            && at + 3 <= |Updates(snapshot, mus)|
            && Updates(snapshot, mus)[at..at + 3]
               == [Update(id + ".last_tick_id", OfUInt64(snapshot.tickId), None),
                   Update(id + ".last_ts_utc_ns", OfUInt64(snapshot.tsUtcNs), None),
                   Update(id + ".n_channels", OfUInt16(snapshot.nChannels), None)]
  {
    hide Updates, AllChannelUpdates;
    var mu := mus[m];
    UpdatesOfMu(snapshot, mus, m);
    MuUpdatesCount(snapshot, mu);
    ChannelUpdatesAt("s=Substations.Demo." + mu.svId + ".ChannelRegistry", snapshot, mu.channelNames, 0);
    var at, n, all := UpdatesBefore(mus, m), 5 * |mu.channelNames|, Updates(snapshot, mus);
    SliceInSlice(all, at, at + n + 3, n, n + 3);
  }

  lemma Cancel(p: string, a: string, b: string, q: string)
    requires p + a + q == p + b + q
    ensures a == b
  {
    assert |a| == |b|;
    assert a == (p + a + q)[|p|..|p| + |a|] && b == (p + b + q)[|p|..|p| + |b|];
  }

  /** The last variable of a non-empty list of MUs. */
  lemma LastVariable(substation: string, mus: seq<MuSpec>)
    requires mus != []
    ensures var vs := Variables(Nodes(substation, mus));
            && vs != []
            && vs[|vs| - 1].nodeId
               == SubstationId(substation) + "." + mus[|mus| - 1].svId + ".TickStatus" + "." + "n_channels"
  {
  }

  lemma LastUpdate(snapshot: Snapshot, mus: seq<MuSpec>)
    requires mus != []
    ensures var us := Updates(snapshot, mus);
            && us != []
            && us[|us| - 1].nodeId == "s=Substations.Demo." + mus[|mus| - 1].svId + ".TickStatus" + ".n_channels"
  {
  }

  /** Under any other substation name the updates miss the nodes. */
  lemma OnlyDemoIsAddressed(snapshot: Snapshot, substation: string, mus: seq<MuSpec>)
    ensures Addressed(Variables(Nodes(substation, mus)), Updates(snapshot, mus)) <==> substation == "Demo" || mus == []
  {
    if mus == [] {
      NoVariables(Nodes(substation, mus));
    } else if substation == "Demo" {
      UpdatesAddressVariables(snapshot, mus);
    } else if Addressed(Variables(Nodes(substation, mus)), Updates(snapshot, mus)) {
      LastVariable(substation, mus);
      LastUpdate(snapshot, mus);
      SameIdMeansDemo(substation, mus[|mus| - 1].svId);
      assert false;
    }
    hide Variables, Nodes, Updates;
  }

  lemma SameIdMeansDemo(substation: string, svId: string)
    requires SubstationId(substation) + "." + svId + ".TickStatus" + "." + "n_channels"
          == "s=Substations.Demo." + svId + ".TickStatus" + ".n_channels"
    ensures substation == "Demo"
  {
    DemoId(svId);
    StatusIds(svId + ".TickStatus");
    var rest := "." + svId + ".TickStatus" + ".n_channels";
    assert "s=Substations." + substation + rest
        == SubstationId(substation) + "." + svId + ".TickStatus" + "." + "n_channels";
    assert "s=Substations." + "Demo" + rest == SubstationId("Demo") + "." + svId + ".TickStatus" + ".n_channels";
    Cancel("s=Substations.", substation, "Demo", rest);
  }

  // ---- Which node is where ----

  lemma {:induction false} NodesOfMu(substationId: string, mus: seq<MuSpec>, m: nat)
    requires m < |mus|
    ensures var at, all := Total(mus[..m]), AllMuNodes(substationId, mus);
            && at + |MuNodes(substationId, mus[m])| <= |all|
            && all[at..at + |MuNodes(substationId, mus[m])|] == MuNodes(substationId, mus[m])
    decreases |mus|
  {
    hide MuNodes;
    var n := |mus| - 1;
    MuNodesCount(substationId, mus[..m]);
    MuNodesCount(substationId, mus[..n]);
    var before, last := AllMuNodes(substationId, mus[..n]), MuNodes(substationId, mus[n]);
    if m < n {
      assert mus[..n][..m] == mus[..m];
      NodesOfMu(substationId, mus[..n], m);
      var at, k := Total(mus[..m]), |MuNodes(substationId, mus[m])|;
      assert (before + last)[at..at + k] == before[at..at + k];
    }
  }

  lemma {:induction false} ChannelNodesAt(registryId: string, names: seq<string>, idx: nat)
    requires idx < |names|
    ensures |AllChannelNodes(registryId, names)| == 6 * |names|
    ensures AllChannelNodes(registryId, names)[6 * idx..6 * idx + 6] == ChannelNodes(registryId, idx, names[idx])
    decreases |names|
  {
    hide ChannelNodes;
    var n := |names| - 1;
    ChannelNodesCount(registryId, names);
    ChannelNodesCount(registryId, names[..n]);
    var before, last := AllChannelNodes(registryId, names[..n]), ChannelNodes(registryId, n, names[n]);
    SixNodes(registryId, n, names[n]);
    if idx < n {
      ChannelNodesAt(registryId, names[..n], idx);
      assert (before + last)[6 * idx..6 * idx + 6] == before[6 * idx..6 * idx + 6];
    } else {
      assert (before + last)[6 * n..6 * n + 6] == last;
    }
  }

  lemma SixNodes(registryId: string, idx: nat, name: string)
    ensures |ChannelNodes(registryId, idx, name)| == 6
  {
    hide ChannelName;
  }

  /** A channel's nodes: a container and its five variables. */
  lemma ChannelNodesAre(registryId: string, idx: nat, name: string)
    ensures var browse := ChannelName(idx, name);
            var id := registryId + "." + browse;
            ChannelNodes(registryId, idx, name)
            == [Node(id, browse, Container, Some(registryId)),
                Node(id + "." + "instMag.i", "instMag.i", Variable(InstMagI), Some(id)),
                Node(id + "." + "instMag.f", "instMag.f", Variable(InstMagF), Some(id)),
                Node(id + "." + "q", "q", Variable(Quality), Some(id)),
                Node(id + "." + "t", "t", Variable(Time), Some(id)),
                Node(id + "." + "tick_id", "tick_id", Variable(TickId), Some(id))]
  {
    hide ChannelName;
    var id := registryId + "." + ChannelName(idx, name);
    LeafAt(id, ChannelLeaves(), 0);
    LeafAt(id, ChannelLeaves(), 1);
    LeafAt(id, ChannelLeaves(), 2);
    LeafAt(id, ChannelLeaves(), 3);
    LeafAt(id, ChannelLeaves(), 4);
    hide LeafNodes;
  }

  /** A MU's status: a folder and its three variables. */
  lemma StatusNodesAre(muId: string)
    ensures var id := muId + ".TickStatus";
            StatusNodes(muId)
            == [Node(id, "TickStatus", Folder, Some(muId)),
                Node(id + "." + "last_tick_id", "last_tick_id", Variable(LastTickId), Some(id)),
                Node(id + "." + "last_ts_utc_ns", "last_ts_utc_ns", Variable(LastTsUtcNs), Some(id)),
                Node(id + "." + "n_channels", "n_channels", Variable(NChannels), Some(id))]
  {
    var id := muId + ".TickStatus";
    LeafAt(id, StatusLeaves(), 0);
    LeafAt(id, StatusLeaves(), 1);
    LeafAt(id, StatusLeaves(), 2);
    hide LeafNodes;
  }

  /** Where everything stands: two nodes for the root and the substation; then for each MU its container, its registry
      folder, six nodes for each channel in order, and four for its status. */
  lemma NodePlaces(substation: string, mus: seq<MuSpec>, m: nat)
    requires m < |mus|
    ensures var all, at, n := Nodes(substation, mus), 2 + Total(mus[..m]), |mus[m].channelNames|;
            var root := "s=Substations";
            var muId := root + "." + substation + "." + mus[m].svId;
            && all[..2] == [Node(root, "Substations", Folder, None),
                            Node(root + "." + substation, substation, Folder, Some(root))]
            && at + 6 + 6 * n <= |all|
            && all[at..at + 2] == [Node(muId, mus[m].svId, Container, Some(root + "." + substation)),
                                   Node(muId + ".ChannelRegistry", "ChannelRegistry", Folder, Some(muId))]
            && (forall idx :: 0 <= idx < n ==>
                  all[at + 2 + 6 * idx..at + 2 + 6 * idx + 6]
                  == ChannelNodes(muId + ".ChannelRegistry", idx, mus[m].channelNames[idx]))
            && all[at + 2 + 6 * n..at + 6 + 6 * n] == StatusNodes(muId)
  {
    hide AllMuNodes, AllChannelNodes, ChannelNodes, StatusNodes;
    var root, mu := "s=Substations", mus[m];
    assert SubstationId(substation) == root + "." + substation;
    var id := SubstationId(substation);
    NodesOfMu(id, mus, m);
    MuNodesSize(id, mu);
    var all, at, n := Nodes(substation, mus), 2 + Total(mus[..m]), |mu.channelNames|;
    var tail := AllMuNodes(id, mus);
    assert all == RootNodes(substation) + tail;
    assert all[2..] == tail;
    SliceInSlice(all, 2, |all|, at - 2, at - 2 + 6 + 6 * n);
    assert all[2..|all|] == tail;
    hide Nodes;
    assert all[at..at + 6 + 6 * n] == MuNodes(id, mu);
    PlacesInMu(id, mu);
    SliceInSlice(all, at, at + 6 + 6 * n, 0, 2);
    SliceInSlice(all, at, at + 6 + 6 * n, 2 + 6 * n, 6 + 6 * n);
    forall idx | 0 <= idx < n
      ensures all[at + 2 + 6 * idx..at + 2 + 6 * idx + 6]
           == ChannelNodes(id + "." + mu.svId + ".ChannelRegistry", idx, mu.channelNames[idx])
    {
      SliceInSlice(all, at, at + 6 + 6 * n, 2 + 6 * idx, 2 + 6 * idx + 6);
    }
  }

  lemma MuNodesSize(substationId: string, mu: MuSpec)
    ensures |MuNodes(substationId, mu)| == 6 + 6 * |mu.channelNames|
  {
    ChannelNodesCount(substationId + "." + mu.svId + ".ChannelRegistry", mu.channelNames);
    hide AllChannelNodes;
  }

  lemma PlacesInMu(substationId: string, mu: MuSpec)
    ensures var nodes, n, muId := MuNodes(substationId, mu), |mu.channelNames|, substationId + "." + mu.svId;
            && |nodes| == 6 + 6 * n
            && nodes[0..2] == [Node(muId, mu.svId, Container, Some(substationId)),
                               Node(muId + ".ChannelRegistry", "ChannelRegistry", Folder, Some(muId))]
            && (forall idx :: 0 <= idx < n ==>
                  nodes[2 + 6 * idx..2 + 6 * idx + 6]
                  == ChannelNodes(muId + ".ChannelRegistry", idx, mu.channelNames[idx]))
            && nodes[2 + 6 * n..6 + 6 * n] == StatusNodes(muId)
  {
    hide AllChannelNodes, ChannelNodes, StatusNodes;
    MuNodesSize(substationId, mu);
    var n, muId := |mu.channelNames|, substationId + "." + mu.svId;
    var own := [Node(muId, mu.svId, Container, Some(substationId)),
                Node(muId + ".ChannelRegistry", "ChannelRegistry", Folder, Some(muId))];
    var channels := AllChannelNodes(muId + ".ChannelRegistry", mu.channelNames);
    ChannelNodesCount(muId + ".ChannelRegistry", mu.channelNames);
    var nodes := MuNodes(substationId, mu);
    assert nodes == own + channels + StatusNodes(muId);
    assert nodes[2..2 + 6 * n] == channels;
    forall idx | 0 <= idx < n
      ensures nodes[2 + 6 * idx..2 + 6 * idx + 6]
           == ChannelNodes(muId + ".ChannelRegistry", idx, mu.channelNames[idx])
    {
      ChannelNodesAt(muId + ".ChannelRegistry", mu.channelNames, idx);
      SliceInSlice(nodes, 2, 2 + 6 * n, 6 * idx, 6 * idx + 6);
    }
  }

  /** A channel's browse name: "Ch", its number in decimal with at least two digits, an underscore, its own name. */
  lemma ChannelNameIs(idx: nat, name: string)
    ensures var number := Padded(idx, 10, 2);
            && ChannelName(idx, name) == "Ch" + number + "_" + name
            && (forall c :: c in number ==> '0' <= c <= '9') && ValueOf(number, 10) == idx
            && |number| >= 2 && (|number| > 2 ==> number[0] != '0')
  {
    PaddedBack(idx, 10, 2);
    PaddedIs(idx, 10, 2);
    NumeralIs(idx, 10);
    hide Padded, Numeral, ValueOf;
  }

  // ---- The shape of the list ----

  function Total(mus: seq<MuSpec>): nat
  {
    if mus == [] then 0 else Total(mus[..|mus| - 1]) + 6 + 6 * |mus[|mus| - 1].channelNames|
  }

  lemma {:induction false} ChannelNodesCount(registryId: string, names: seq<string>)
    ensures |AllChannelNodes(registryId, names)| == 6 * |names|
  {
    if names != [] {
      ChannelNodesCount(registryId, names[..|names| - 1]);
    }
  }

  lemma {:induction false} MuNodesCount(substationId: string, mus: seq<MuSpec>)
    ensures |AllMuNodes(substationId, mus)| == Total(mus)
  {
    if mus != [] {
      MuNodesCount(substationId, mus[..|mus| - 1]);
      var mu := mus[|mus| - 1];
      ChannelNodesCount(substationId + "." + mu.svId + ".ChannelRegistry", mu.channelNames);
    }
  }

  predicate HasId(nodes: seq<Node>, id: string)
  {
    exists i :: 0 <= i < |nodes| && nodes[i].nodeId == id
  }

  /** Every parent stands in `earlier` or before its child. */
  predicate ParentsFirst(earlier: seq<Node>, nodes: seq<Node>)
  {
    forall i :: 0 <= i < |nodes| && nodes[i].parent.Some? ==>
      HasId(earlier, nodes[i].parent.value) || HasId(nodes[..i], nodes[i].parent.value)
  }

  lemma ParentsFirstConcat(earlier: seq<Node>, a: seq<Node>, b: seq<Node>)
    requires ParentsFirst(earlier, a) && ParentsFirst(earlier + a, b)
    ensures ParentsFirst(earlier, a + b)
  {
    var all := a + b;
    forall i | 0 <= i < |all| && all[i].parent.Some?
      ensures HasId(earlier, all[i].parent.value) || HasId(all[..i], all[i].parent.value)
    {
      var id := all[i].parent.value;
      if i < |a| {
        assert all[..i] == a[..i];
      } else {
        assert all[..i] == a + b[..i - |a|];
        assert b[i - |a|] == all[i];
        if HasId(earlier + a, id) {
          HasIdConcat(earlier, a, id);
        }
        HasIdConcat(a, b[..i - |a|], id);
      }
    }
  }

  lemma HasIdConcat(a: seq<Node>, b: seq<Node>, id: string)
    ensures HasId(a + b, id) <==> HasId(a, id) || HasId(b, id)
  {
    if HasId(a, id) {
      var i :| 0 <= i < |a| && a[i].nodeId == id;
      assert (a + b)[i] == a[i];
    }
    if HasId(b, id) {
      var i :| 0 <= i < |b| && b[i].nodeId == id;
      assert (a + b)[|a| + i] == b[i];
    }
    if HasId(a + b, id) {
      var i :| 0 <= i < |a + b| && (a + b)[i].nodeId == id;
      assert if i < |a| then a[i].nodeId == id else b[i - |a|].nodeId == id;
    }
  }

  lemma LeavesBelow(earlier: seq<Node>, parent: string, leaves: seq<Leaf>)
    requires HasId(earlier, parent)
    ensures ParentsFirst(earlier, LeafNodes(parent, leaves))
  {
    forall i | 0 <= i < |leaves| ensures LeafNodes(parent, leaves)[i].parent == Some(parent) {
      LeafAt(parent, leaves, i);
    }
  }

  lemma OneBelow(earlier: seq<Node>, node: Node)
    requires node.parent.Some? ==> HasId(earlier, node.parent.value)
    ensures ParentsFirst(earlier, [node]) && HasId(earlier + [node], node.nodeId)
  {
    assert (earlier + [node])[|earlier|] == node;
  }

  /** A folder or object below a known parent, with its leaves. */
  lemma BranchBelow(earlier: seq<Node>, node: Node, leaves: seq<Leaf>)
    requires node.parent.Some? && HasId(earlier, node.parent.value)
    ensures ParentsFirst(earlier, [node] + LeafNodes(node.nodeId, leaves))
  {
    hide ParentsFirst, HasId;
    OneBelow(earlier, node);
    LeavesBelow(earlier + [node], node.nodeId, leaves);
    ParentsFirstConcat(earlier, [node], LeafNodes(node.nodeId, leaves));
  }

  lemma {:induction false} ChannelsBelow(earlier: seq<Node>, registryId: string, names: seq<string>)
    requires HasId(earlier, registryId)
    ensures ParentsFirst(earlier, AllChannelNodes(registryId, names))
    decreases |names|
  {
    hide HasId, ChannelName, ChannelLeaves, LeafNodes, ParentsFirst;
    if names == [] {
      NothingBelow(earlier);
    } else {
      var init, idx := names[..|names| - 1], |names| - 1;
      ChannelsBelow(earlier, registryId, init);
      HasIdConcat(earlier, AllChannelNodes(registryId, init), registryId);
      var browse := ChannelName(idx, names[idx]);
      BranchBelow(earlier + AllChannelNodes(registryId, init),
                  Node(registryId + "." + browse, browse, Container, Some(registryId)), ChannelLeaves());
      ParentsFirstConcat(earlier, AllChannelNodes(registryId, init), ChannelNodes(registryId, idx, names[idx]));
    }
  }

  lemma NothingBelow(earlier: seq<Node>)
    ensures ParentsFirst(earlier, [])
  {
  }

  lemma MuBelow(earlier: seq<Node>, substationId: string, mu: MuSpec)
    requires HasId(earlier, substationId)
    ensures ParentsFirst(earlier, MuNodes(substationId, mu))
  {
    hide HasId, AllChannelNodes, LeafNodes, StatusLeaves, ParentsFirst;
    var muId := substationId + "." + mu.svId;
    var registryId := muId + ".ChannelRegistry";
    var own := [Node(muId, mu.svId, Container, Some(substationId))];
    var registry := [Node(registryId, "ChannelRegistry", Folder, Some(muId))];
    var channels := AllChannelNodes(registryId, mu.channelNames);
    OneBelow(earlier, own[0]);
    OneBelow(earlier + own, registry[0]);
    ParentsFirstConcat(earlier, own, registry);
    HasIdConcat(earlier + own, registry, muId);
    assert earlier + own + registry == earlier + (own + registry);
    ChannelsBelow(earlier + (own + registry), registryId, mu.channelNames);
    ParentsFirstConcat(earlier, own + registry, channels);
    HasIdConcat(earlier + (own + registry), channels, muId);
    assert earlier + (own + registry) + channels == earlier + (own + registry + channels);
    BranchBelow(earlier + (own + registry + channels), Node(muId + ".TickStatus", "TickStatus", Folder, Some(muId)),
                StatusLeaves());
    ParentsFirstConcat(earlier, own + registry + channels, StatusNodes(muId));
    assert own + registry == [own[0], registry[0]];
  }

  lemma {:induction false} MusBelow(earlier: seq<Node>, substationId: string, mus: seq<MuSpec>)
    requires HasId(earlier, substationId)
    ensures ParentsFirst(earlier, AllMuNodes(substationId, mus))
    decreases |mus|
  {
    hide HasId, MuNodes, ParentsFirst;
    if mus == [] {
      NothingBelow(earlier);
    } else {
      var init, mu := mus[..|mus| - 1], mus[|mus| - 1];
      MusBelow(earlier, substationId, init);
      HasIdConcat(earlier, AllMuNodes(substationId, init), substationId);
      MuBelow(earlier + AllMuNodes(substationId, init), substationId, mu);
      ParentsFirstConcat(earlier, AllMuNodes(substationId, init), MuNodes(substationId, mu));
    }
  }

  /** Every node comes after its parent, so one forward pass can register them; and the list has the size expected. */
  lemma ParentBeforeChild(substation: string, mus: seq<MuSpec>)
    ensures ParentsFirst([], Nodes(substation, mus)) && |Nodes(substation, mus)| == 2 + Total(mus)
  {
    hide ParentsFirst, AllMuNodes, SubstationId;
    MuNodesCount(SubstationId(substation), mus);
    var root := RootNodes(substation);
    OneBelow([], root[0]);
    OneBelow([] + [root[0]], root[1]);
    ParentsFirstConcat([], [root[0]], [root[1]]);
    assert [root[0]] + [root[1]] == root;
    assert [] + [root[0]] + [root[1]] == [] + root;
    MusBelow([] + root, SubstationId(substation), mus);
    ParentsFirstConcat([], root, AllMuNodes(SubstationId(substation), mus));
  }

  // ---- No id twice ----

  predicate DistinctIds(nodes: seq<Node>)
  {
    forall i, j :: 0 <= i < j < |nodes| ==> nodes[i].nodeId != nodes[j].nodeId
  }

  predicate Apart(a: seq<Node>, b: seq<Node>)
  {
    forall i, j :: 0 <= i < |a| && 0 <= j < |b| ==> a[i].nodeId != b[j].nodeId
  }

  predicate AllStart(nodes: seq<Node>, p: string)
  {
    forall i :: 0 <= i < |nodes| ==> p <= nodes[i].nodeId
  }

  lemma DistinctConcat(a: seq<Node>, b: seq<Node>)
    requires DistinctIds(a) && DistinctIds(b) && Apart(a, b)
    ensures DistinctIds(a + b)
  {
  }

  predicate DistinctSuffixes(leaves: seq<Leaf>)
  {
    forall i, j :: 0 <= i < j < |leaves| ==> leaves[i].suffix != leaves[j].suffix
  }

  /** A node with its leaves: the leaves differ from each other and are longer than the node's own id. */
  lemma BranchDistinct(node: Node, leaves: seq<Leaf>)
    requires DistinctSuffixes(leaves)
    ensures DistinctIds([node] + LeafNodes(node.nodeId, leaves))
    ensures AllStart([node] + LeafNodes(node.nodeId, leaves), node.nodeId)
  {
    var id := node.nodeId;
    var all := [node] + LeafNodes(id, leaves);
    forall i | 0 < i < |all| ensures all[i].nodeId == id + "." + leaves[i - 1].suffix {
      LeafAt(id, leaves, i - 1);
    }
    hide LeafNodes;
    forall i, j | 0 <= i < j < |all| ensures all[i].nodeId != all[j].nodeId {
      if i > 0 && all[i].nodeId == all[j].nodeId {
        assert id + "." + leaves[i - 1].suffix + "" == id + "." + leaves[j - 1].suffix + "";
        Cancel(id + ".", leaves[i - 1].suffix, leaves[j - 1].suffix, "");
      }
    }
  }

  lemma LeavesDiffer()
    ensures DistinctSuffixes(ChannelLeaves()) && DistinctSuffixes(StatusLeaves())
  {
  }

  function ChannelStart(registryId: string, idx: nat): string
  {
    registryId + ".Ch" + Padded(idx, 10, 2) + "_"
  }

  lemma ChannelDistinct(registryId: string, idx: nat, name: string)
    ensures DistinctIds(ChannelNodes(registryId, idx, name))
    ensures AllStart(ChannelNodes(registryId, idx, name), ChannelStart(registryId, idx))
  {
    LeavesDiffer();
    hide LeafNodes, ChannelLeaves, StatusLeaves, Padded, DistinctIds;
    var browse := ChannelName(idx, name);
    var node := Node(registryId + "." + browse, browse, Container, Some(registryId));
    BranchDistinct(node, ChannelLeaves());
    assert "." + "Ch" == ".Ch";
    assert node.nodeId == ChannelStart(registryId, idx) + name;
    assert ChannelStart(registryId, idx) <= node.nodeId;
  }

  /** Two strings with prefixes `p + a + [c]` and `p + b + [c]` differ unless `a == b`, when `c` is in neither. */
  lemma CutAt(p: string, a: string, b: string, c: char, id: string)
    requires p + a + [c] <= id && p + b + [c] <= id && c !in a && c !in b
    ensures a == b
  {
    assert id[|p| + |a|] == c && id[|p| + |b|] == c;
    assert a == id[|p|..|p| + |a|] && b == id[|p|..|p| + |b|];
  }

  lemma ChannelsApart(registryId: string, idx: nat, jdx: nat, id: string)
    requires ChannelStart(registryId, idx) <= id && ChannelStart(registryId, jdx) <= id
    ensures idx == jdx
  {
    CutAt(registryId + ".Ch", Padded(idx, 10, 2), Padded(jdx, 10, 2), '_', id);
    PaddedBack(idx, 10, 2);
    PaddedBack(jdx, 10, 2);
  }

  predicate StartBelow(nodes: seq<Node>, registryId: string, n: nat)
  {
    forall i :: 0 <= i < |nodes| ==> exists k: nat :: k < n && ChannelStart(registryId, k) <= nodes[i].nodeId
  }

  lemma {:induction false} ChannelsDistinct(registryId: string, names: seq<string>)
    ensures DistinctIds(AllChannelNodes(registryId, names))
    ensures StartBelow(AllChannelNodes(registryId, names), registryId, |names|)
    decreases |names|
  {
    hide ChannelNodes, ChannelStart, DistinctIds;
    if names == [] {
      NoneDistinct();
    } else {
      var init, idx := names[..|names| - 1], |names| - 1;
      ChannelsDistinct(registryId, init);
      ChannelDistinct(registryId, idx, names[idx]);
      var a, b := AllChannelNodes(registryId, init), ChannelNodes(registryId, idx, names[idx]);
      forall i, j | 0 <= i < |a| && 0 <= j < |b| ensures a[i].nodeId != b[j].nodeId {
        var k: nat :| k < idx && ChannelStart(registryId, k) <= a[i].nodeId;
        if a[i].nodeId == b[j].nodeId {
          ChannelsApart(registryId, k, idx, a[i].nodeId);
        }
      }
      DistinctConcat(a, b);
    }
  }

  lemma NoneDistinct()
    ensures DistinctIds([])
  {
  }

  lemma ChannelsStart(registryId: string, names: seq<string>)
    ensures AllStart(AllChannelNodes(registryId, names), registryId + ".")
  {
    ChannelsDistinct(registryId, names);
    var nodes := AllChannelNodes(registryId, names);
    hide AllChannelNodes, Padded;
    forall i | 0 <= i < |nodes| ensures registryId + "." <= nodes[i].nodeId {
      var k: nat :| k < |names| && ChannelStart(registryId, k) <= nodes[i].nodeId;
      assert ".Ch" == "." + "Ch";
      assert ChannelStart(registryId, k) == (registryId + ".") + ("Ch" + Padded(k, 10, 2) + "_");
    }
  }

  lemma StatusDistinct(muId: string)
    ensures DistinctIds(StatusNodes(muId)) && AllStart(StatusNodes(muId), muId + ".TickStatus")
  {
    LeavesDiffer();
    hide StatusLeaves, LeafNodes;
    BranchDistinct(Node(muId + ".TickStatus", "TickStatus", Folder, Some(muId)), StatusLeaves());
  }

  lemma PairDistinct(a: Node, b: Node)
    requires a.nodeId != b.nodeId
    ensures DistinctIds([a, b])
  {
  }

  lemma ChannelsVersusStatus(muId: string, id: string)
    requires muId + ".ChannelRegistry" + "." <= id
    ensures !(muId + ".TickStatus" <= id)
  {
    assert id[|muId| + 1] == ".ChannelRegistry"[1] == 'C';
  }

  lemma MuDistinct(substationId: string, mu: MuSpec)
    ensures DistinctIds(MuNodes(substationId, mu))
  {
    var muId := substationId + "." + mu.svId;
    var registryId := muId + ".ChannelRegistry";
    var own := [Node(muId, mu.svId, Container, Some(substationId)),
                Node(registryId, "ChannelRegistry", Folder, Some(muId))];
    var channels, status := AllChannelNodes(registryId, mu.channelNames), StatusNodes(muId);
    hide AllChannelNodes, StatusNodes;
    PairDistinct(own[0], own[1]);
    ChannelsDistinct(registryId, mu.channelNames);
    ChannelsStart(registryId, mu.channelNames);
    StatusDistinct(muId);
    OwnApart(own, muId, channels, status);
    DistinctConcat(own, channels);
    forall i | 0 <= i < |channels| ensures !(muId + ".TickStatus" <= channels[i].nodeId) {
      ChannelsVersusStatus(muId, channels[i].nodeId);
    }
    ApartLeft(own, channels, status);
    DistinctConcat(own + channels, status);
  }

  lemma ApartLeft(a: seq<Node>, b: seq<Node>, c: seq<Node>)
    requires Apart(a, c) && Apart(b, c)
    ensures Apart(a + b, c)
  {
  }

  lemma OwnApart(own: seq<Node>, muId: string, channels: seq<Node>, status: seq<Node>)
    requires |own| == 2 && own[0].nodeId == muId && own[1].nodeId == muId + ".ChannelRegistry"
    requires AllStart(channels, muId + ".ChannelRegistry" + ".") && AllStart(status, muId + ".TickStatus")
    ensures Apart(own, channels) && Apart(own, status)
  {
    forall i, j | 0 <= i < 2 && 0 <= j < |channels| ensures own[i].nodeId != channels[j].nodeId {
      assert |channels[j].nodeId| > |muId + ".ChannelRegistry"|;
    }
    forall i, j | 0 <= i < 2 && 0 <= j < |status| ensures own[i].nodeId != status[j].nodeId {
      assert status[j].nodeId[|muId| + 1] == ".TickStatus"[1] == 'T';
      assert (muId + ".ChannelRegistry")[|muId| + 1] == ".ChannelRegistry"[1] == 'C';
    }
  }

  // ---- Paths below a MU ----

  function LeafPaths(parent: string, leaves: seq<Leaf>): (r: seq<string>)
    ensures |r| == |leaves|
  {
    if leaves == [] then []
    else LeafPaths(parent, leaves[..|leaves| - 1]) + [parent + "." + leaves[|leaves| - 1].suffix]
  }

  function ChannelPaths(idx: nat, name: string): (r: seq<string>)
    ensures |r| == 6
  {
    var path := ".ChannelRegistry" + "." + ChannelName(idx, name);
    [path] + LeafPaths(path, ChannelLeaves())
  }

  function AllChannelPaths(names: seq<string>): seq<string>
  {
    if names == [] then [] else AllChannelPaths(names[..|names| - 1]) + ChannelPaths(|names| - 1, names[|names| - 1])
  }

  function StatusPaths(): seq<string>
  {
    [".TickStatus"] + LeafPaths(".TickStatus", StatusLeaves())
  }

  /** What the ids of a MU's nodes add to the MU's own: nothing for itself, then a path for each node below it. */
  function Paths(mu: MuSpec): seq<string>
  {
    ["", ".ChannelRegistry"] + AllChannelPaths(mu.channelNames) + StatusPaths()
  }

  predicate Along(nodes: seq<Node>, base: string, paths: seq<string>)
  {
    |nodes| == |paths| && forall i :: 0 <= i < |nodes| ==> nodes[i].nodeId == base + paths[i]
  }

  lemma AlongConcat(a: seq<Node>, b: seq<Node>, base: string, p: seq<string>, q: seq<string>)
    requires Along(a, base, p) && Along(b, base, q)
    ensures Along(a + b, base, p + q)
  {
  }

  lemma Regroup(a: string, b: string, c: string, d: string)
    ensures a + b + c + d == a + (b + c + d)
  {
  }

  lemma {:induction false} LeavesAlong(base: string, parent: string, leaves: seq<Leaf>)
    ensures Along(LeafNodes(base + parent, leaves), base, LeafPaths(parent, leaves))
  {
    if leaves != [] {
      var init, leaf := leaves[..|leaves| - 1], leaves[|leaves| - 1];
      LeavesAlong(base, parent, init);
      Regroup(base, parent, ".", leaf.suffix);
      AlongConcat(LeafNodes(base + parent, init), [LeafNodes(base + parent, leaves)[|init|]], base,
                  LeafPaths(parent, init), [parent + "." + leaf.suffix]);
    }
  }

  lemma BranchAlong(base: string, parent: string, node: Node, leaves: seq<Leaf>)
    requires node.nodeId == base + parent
    ensures Along([node] + LeafNodes(node.nodeId, leaves), base, [parent] + LeafPaths(parent, leaves))
  {
    hide LeafNodes, LeafPaths;
    LeavesAlong(base, parent, leaves);
    AlongConcat([node], LeafNodes(node.nodeId, leaves), base, [parent], LeafPaths(parent, leaves));
  }

  lemma {:induction false} ChannelsAlong(muId: string, names: seq<string>)
    ensures Along(AllChannelNodes(muId + ".ChannelRegistry", names), muId, AllChannelPaths(names))
    decreases |names|
  {
    hide Along, LeafNodes, LeafPaths, ChannelLeaves, ChannelName;
    if names == [] {
      NothingAlong(muId);
    } else {
      var init, idx := names[..|names| - 1], |names| - 1;
      var browse := ChannelName(idx, names[idx]);
      var path := ".ChannelRegistry" + "." + browse;
      ChannelsAlong(muId, init);
      Regroup(muId, ".ChannelRegistry", ".", browse);
      var node := Node(muId + ".ChannelRegistry" + "." + browse, browse, Container, Some(muId + ".ChannelRegistry"));
      BranchAlong(muId, path, node, ChannelLeaves());
      AlongConcat(AllChannelNodes(muId + ".ChannelRegistry", init),
                  ChannelNodes(muId + ".ChannelRegistry", idx, names[idx]),
                  muId, AllChannelPaths(init), ChannelPaths(idx, names[idx]));
    }
  }

  lemma NothingAlong(base: string)
    ensures Along([], base, [])
  {
  }

  lemma MuAlong(substationId: string, mu: MuSpec)
    ensures Along(MuNodes(substationId, mu), substationId + "." + mu.svId, Paths(mu))
  {
    hide AllChannelNodes, AllChannelPaths, LeafNodes, LeafPaths, StatusLeaves;
    var muId := substationId + "." + mu.svId;
    var own := [Node(muId, mu.svId, Container, Some(substationId)),
                Node(muId + ".ChannelRegistry", "ChannelRegistry", Folder, Some(muId))];
    assert muId + "" == muId;
    assert Along(own, muId, ["", ".ChannelRegistry"]);
    ChannelsAlong(muId, mu.channelNames);
    BranchAlong(muId, ".TickStatus", Node(muId + ".TickStatus", "TickStatus", Folder, Some(muId)), StatusLeaves());
    AlongConcat(own, AllChannelNodes(muId + ".ChannelRegistry", mu.channelNames), muId,
                ["", ".ChannelRegistry"], AllChannelPaths(mu.channelNames));
    AlongConcat(own + AllChannelNodes(muId + ".ChannelRegistry", mu.channelNames), StatusNodes(muId), muId,
                ["", ".ChannelRegistry"] + AllChannelPaths(mu.channelNames), StatusPaths());
  }

  // ---- Exactly when no id occurs twice ----

  /** No node of one MU has, below the substation, the name of a node of the other. */
  predicate PathsApart(a: MuSpec, b: MuSpec)
  {
    forall i, j :: 0 <= i < |Paths(a)| && 0 <= j < |Paths(b)| ==> a.svId + Paths(a)[i] != b.svId + Paths(b)[j]
  }

  lemma SameTail(substationId: string, a: string, p: string, b: string, q: string)
    ensures substationId + "." + a + p == substationId + "." + b + q <==> a + p == b + q
  {
    var base := substationId + ".";
    assert base + a + p == base + (a + p) && base + b + q == base + (b + q);
    assert (base + (a + p))[|base|..] == a + p && (base + (b + q))[|base|..] == b + q;
  }

  lemma ApartIffPathsApart(substationId: string, a: MuSpec, b: MuSpec)
    ensures Apart(MuNodes(substationId, a), MuNodes(substationId, b)) <==> PathsApart(a, b)
  {
    hide MuNodes, Paths;
    MuAlong(substationId, a);
    MuAlong(substationId, b);
    var x, y, p, q := MuNodes(substationId, a), MuNodes(substationId, b), Paths(a), Paths(b);
    forall i, j | 0 <= i < |x| && 0 <= j < |y|
      ensures x[i].nodeId == y[j].nodeId <==> a.svId + p[i] == b.svId + q[j]
    {
      SameTail(substationId, a.svId, p[i], b.svId, q[j]);
    }
  }

  predicate AllApart(substationId: string, mus: seq<MuSpec>)
  {
    forall m, n :: 0 <= m < n < |mus| ==> Apart(MuNodes(substationId, mus[m]), MuNodes(substationId, mus[n]))
  }

  lemma {:induction false} ApartFromAll(substationId: string, mus: seq<MuSpec>, b: seq<Node>)
    ensures Apart(AllMuNodes(substationId, mus), b)
       <==> forall m :: 0 <= m < |mus| ==> Apart(MuNodes(substationId, mus[m]), b)
    decreases |mus|
  {
    hide MuNodes, Apart;
    if mus == [] {
      NothingApart(b);
    } else {
      var init := mus[..|mus| - 1];
      ApartFromAll(substationId, init, b);
      ApartSplit(AllMuNodes(substationId, init), MuNodes(substationId, mus[|mus| - 1]), b);
      assert forall m :: 0 <= m < |init| ==> init[m] == mus[m];
    }
  }

  lemma ApartSplit(a: seq<Node>, b: seq<Node>, c: seq<Node>)
    ensures Apart(a + b, c) <==> Apart(a, c) && Apart(b, c)
  {
    var all := a + b;
    if Apart(all, c) {
      forall i, j | 0 <= i < |a| && 0 <= j < |c| ensures a[i].nodeId != c[j].nodeId {
        assert all[i] == a[i];
      }
      forall i, j | 0 <= i < |b| && 0 <= j < |c| ensures b[i].nodeId != c[j].nodeId {
        assert all[|a| + i] == b[i];
      }
    }
  }

  lemma NothingApart(b: seq<Node>)
    ensures Apart([], b)
  {
  }

  lemma DistinctSplit(a: seq<Node>, b: seq<Node>)
    ensures DistinctIds(a + b) <==> DistinctIds(a) && DistinctIds(b) && Apart(a, b)
  {
    var all := a + b;
    if DistinctIds(all) {
      forall i, j | 0 <= i < |a| && 0 <= j < |b| ensures a[i].nodeId != b[j].nodeId {
        assert all[i] == a[i] && all[|a| + j] == b[j];
      }
      assert forall i :: 0 <= i < |a| ==> all[i] == a[i];
      forall i, j | 0 <= i < j < |b| ensures b[i].nodeId != b[j].nodeId {
        assert all[|a| + i] == b[i] && all[|a| + j] == b[j];
      }
    }
  }

  lemma {:induction false} MusDistinctIff(substationId: string, mus: seq<MuSpec>)
    ensures DistinctIds(AllMuNodes(substationId, mus)) <==> AllApart(substationId, mus)
    decreases |mus|
  {
    hide MuNodes, DistinctIds, Apart;
    if mus == [] {
      NoneDistinct();
    } else {
      var init, mu := mus[..|mus| - 1], mus[|mus| - 1];
      MusDistinctIff(substationId, init);
      MuDistinct(substationId, mu);
      DistinctSplit(AllMuNodes(substationId, init), MuNodes(substationId, mu));
      ApartFromAll(substationId, init, MuNodes(substationId, mu));
      AllApartMore(substationId, init, mu);
      assert mus == init + [mu];
    }
  }

  lemma AllApartMore(substationId: string, init: seq<MuSpec>, mu: MuSpec)
    ensures AllApart(substationId, init + [mu])
       <==> AllApart(substationId, init)
            && forall m :: 0 <= m < |init| ==> Apart(MuNodes(substationId, init[m]), MuNodes(substationId, mu))
  {
    hide MuNodes, Apart;
    var mus := init + [mu];
    assert mus[|init|] == mu && forall m :: 0 <= m < |init| ==> mus[m] == init[m];
  }

  lemma {:induction false} MusBelowSubstation(substationId: string, mus: seq<MuSpec>)
    ensures forall i :: 0 <= i < |AllMuNodes(substationId, mus)| ==>
      |AllMuNodes(substationId, mus)[i].nodeId| > |substationId|
    decreases |mus|
  {
    hide MuNodes, Paths;
    if mus != [] {
      var init, mu := mus[..|mus| - 1], mus[|mus| - 1];
      MusBelowSubstation(substationId, init);
      MuAlong(substationId, mu);
    }
  }

  /** For any MUs: no id occurs twice if and only if the nodes of any two MUs are called differently. */
  lemma DistinctIffPathsApart(substation: string, mus: seq<MuSpec>)
    ensures DistinctIds(Nodes(substation, mus)) <==> forall m, n :: 0 <= m < n < |mus| ==> PathsApart(mus[m], mus[n])
  {
    hide AllMuNodes, MuNodes, PathsApart, Apart, DistinctIds;
    var id := SubstationId(substation);
    var root, all := RootNodes(substation), AllMuNodes(id, mus);
    RootApart(substation, mus);
    DistinctSplit(root, all);
    MusDistinctIff(id, mus);
    forall m, n | 0 <= m < n < |mus|
      ensures Apart(MuNodes(id, mus[m]), MuNodes(id, mus[n])) <==> PathsApart(mus[m], mus[n])
    {
      ApartIffPathsApart(id, mus[m], mus[n]);
    }
  }

  lemma RootApart(substation: string, mus: seq<MuSpec>)
    ensures DistinctIds(RootNodes(substation))
    ensures Apart(RootNodes(substation), AllMuNodes(SubstationId(substation), mus))
  {
    hide AllMuNodes;
    MusBelowSubstation(SubstationId(substation), mus);
    PairDistinct(RootNodes(substation)[0], RootNodes(substation)[1]);
  }

  /** `svId` is the name of MU `mu` itself or of one of the nodes below it. */
  predicate Names(svId: string, mu: MuSpec)
  {
    exists i :: 0 <= i < |Paths(mu)| && svId == mu.svId + Paths(mu)[i]
  }

  predicate DotFreeChannels(mu: MuSpec)
  {
    forall i :: 0 <= i < |mu.channelNames| ==> '.' !in mu.channelNames[i]
  }

  /** No dot inside the path is followed by the name of a folder that stands directly below a MU. */
  predicate Plain(path: string)
  {
    forall k :: 0 < k && k + 1 < |path| && path[k] == '.' ==>
      path[k + 1] != 'T' && (path[k + 1] == 'C' ==> k + 3 < |path| && path[k + 3] != 'a')
  }

  /** The path of a node below a MU starts with the name of one of those folders. */
  predicate Below(path: string)
  {
    |path| > 3 && path[0] == '.' && (path[1] == 'T' || (path[1] == 'C' && path[3] == 'a'))
  }

  lemma PlainJoint(x: string, y: string)
    requires Plain(x) && x != "" && '.' !in y && y != "" && y[0] != 'T' && (y[0] == 'C' ==> |y| > 2 && y[2] != 'a')
    ensures Plain(x + "." + y)
  {
    var p := x + "." + y;
    assert forall k :: 0 <= k < |x| ==> p[k] == x[k];
    assert p[|x|] == '.' && forall k :: 0 <= k < |y| ==> p[|x| + 1 + k] == y[k];
    forall k | 0 < k && k + 1 < |p| && p[k] == '.'
      ensures p[k + 1] != 'T' && (p[k + 1] == 'C' ==> k + 3 < |p| && p[k + 3] != 'a')
    {
      if k == |x| {
        assert p[k + 1] == p[|x| + 1 + 0] == y[0];
        if y[0] == 'C' {
          assert p[k + 3] == p[|x| + 1 + 2] == y[2];
        }
      } else if k < |x| {
        assert x[k] == '.';
      }
    }
  }

  /** A suffix without dots, or "instMag" with one more character after a dot. */
  predicate LeafShape(y: string)
  {
    && y != "" && y[0] != 'T' && y[0] != 'C'
    && ('.' in y ==> |y| == 9 && y == "instMag" + "." + y[8..] && y[8] != '.' && y[8] != 'T' && y[8] != 'C')
  }

  lemma ChannelShapes()
    ensures LeafShape("instMag.i") && LeafShape("instMag.f") && LeafShape("q") && LeafShape("t") && LeafShape("tick_id")
  {
  }

  lemma StatusShapes()
    ensures LeafShape("last_tick_id") && LeafShape("last_ts_utc_ns") && LeafShape("n_channels")
  {
  }

  lemma PlainLeaf(x: string, leaf: Leaf)
    requires Plain(x) && x != "" && (leaf in ChannelLeaves() || leaf in StatusLeaves())
    ensures Plain(x + "." + leaf.suffix)
  {
    hide Plain, LeafShape;
    ChannelShapes();
    StatusShapes();
    PlainSuffix(x, leaf.suffix);
  }

  /** Suffixes without dots can be joined at once, the other two in two steps. */
  lemma PlainSuffix(x: string, y: string)
    requires Plain(x) && x != "" && LeafShape(y)
    ensures Plain(x + "." + y)
  {
    hide Plain;
    if '.' in y {
      var last := y[8..];
      assert last == [y[8]];
      PlainJoint(x, "instMag");
      PlainJoint(x + "." + "instMag", last);
      assert x + "." + "instMag" + "." + last == x + "." + ("instMag" + "." + last);
    } else {
      PlainJoint(x, y);
    }
  }

  predicate PlainBelow(paths: seq<string>)
  {
    forall i :: 0 <= i < |paths| ==> Plain(paths[i]) && Below(paths[i])
  }

  lemma {:induction false} PlainLeaves(parent: string, leaves: seq<Leaf>)
    requires Plain(parent) && Below(parent)
    requires forall l :: l in leaves ==> l in ChannelLeaves() || l in StatusLeaves()
    ensures PlainBelow(LeafPaths(parent, leaves))
  {
    hide Plain, ChannelLeaves, StatusLeaves;
    if leaves != [] {
      var leaf := leaves[|leaves| - 1];
      PlainLeaves(parent, leaves[..|leaves| - 1]);
      PlainLeaf(parent, leaf);
    }
  }

  lemma PlainChannel(idx: nat, name: string)
    requires '.' !in name
    ensures PlainBelow(ChannelPaths(idx, name))
  {
    var browse := ChannelName(idx, name);
    var digits := Padded(idx, 10, 2);
    assert browse[2] == digits[0] && digits[0] in digits;
    assert '.' !in browse;
    PlainRegistry();
    hide Plain, ChannelLeaves, Padded, ChannelName;
    PlainJoint(".ChannelRegistry", browse);
    PlainLeaves(".ChannelRegistry" + "." + browse, ChannelLeaves());
  }

  lemma PlainRegistry()
    ensures Plain(".ChannelRegistry") && Below(".ChannelRegistry") && Plain(".TickStatus") && Below(".TickStatus")
  {
  }

  lemma {:induction false} PlainChannels(names: seq<string>)
    requires forall i :: 0 <= i < |names| ==> '.' !in names[i]
    ensures PlainBelow(AllChannelPaths(names))
  {
    hide Plain, Below, ChannelPaths;
    if names != [] {
      PlainChannels(names[..|names| - 1]);
      PlainChannel(|names| - 1, names[|names| - 1]);
    }
  }

  lemma PlainPaths(mu: MuSpec)
    requires DotFreeChannels(mu)
    ensures Paths(mu) != [] && Paths(mu)[0] == "" && Plain("") && PlainBelow(Paths(mu)[1..])
  {
    PlainRegistry();
    hide Plain, Below, AllChannelPaths, LeafPaths, StatusLeaves, ChannelLeaves;
    PlainChannels(mu.channelNames);
    PlainLeaves(".TickStatus", StatusLeaves());
    assert Paths(mu)[1..] == [".ChannelRegistry"] + AllChannelPaths(mu.channelNames) + StatusPaths();
    EmptyIsPlain();
  }

  lemma EmptyIsPlain()
    ensures Plain("")
  {
  }

  /** Two equal names, cut where the shorter MU name and where the longer one ends. */
  lemma CutNames(a: string, p: string, b: string, q: string) returns (s: string)
    requires a + p == b + q && |a| <= |b|
    ensures b == a + s && p == s + q
  {
    s := (a + p)[|a|..|b|];
    assert b == (b + q)[..|b|] && (a + p)[..|b|] == a + s;
    assert p == (a + p)[|a|..] && q == (b + q)[|b|..];
  }

  /** A name that two MUs share is the name of one of the two. */
  lemma SharedName(a: MuSpec, b: MuSpec, i: nat, j: nat)
    requires DotFreeChannels(a) && DotFreeChannels(b)
    requires i < |Paths(a)| && j < |Paths(b)| && a.svId + Paths(a)[i] == b.svId + Paths(b)[j] && |a.svId| <= |b.svId|
    ensures Names(b.svId, a)
  {
    PlainPaths(a);
    PlainPaths(b);
    hide Paths, Plain, Below, DotFreeChannels, Names;
    var p, q := Paths(a)[i], Paths(b)[j];
    var s := CutNames(a.svId, p, b.svId, q);
    if j == 0 {
      assert s + q == s;
      NameAt(b.svId, a, i);
    } else if s == "" {
      assert a.svId + s == a.svId + Paths(a)[0];
      NameAt(b.svId, a, 0);
    } else {
      assert q == Paths(b)[1..][j - 1];
      assert i > 0 ==> p == Paths(a)[1..][i - 1];
      NotInside(p, s, q);
    }
  }

  lemma NameAt(svId: string, mu: MuSpec, i: nat)
    requires i < |Paths(mu)| && svId == mu.svId + Paths(mu)[i]
    ensures Names(svId, mu)
  {
  }

  lemma NotInside(p: string, s: string, q: string)
    requires Below(q) && s != "" && p == s + q
    ensures !Plain(p)
  {
    var k := |s|;
    assert p[k] == q[0] && p[k + 1] == q[1] && p[k + 3] == q[3];
  }

  lemma PathsApartIff(a: MuSpec, b: MuSpec)
    requires DotFreeChannels(a) && DotFreeChannels(b)
    ensures PathsApart(a, b) <==> !Names(a.svId, b) && !Names(b.svId, a)
  {
    PlainPaths(a);
    PlainPaths(b);
    hide Paths, DotFreeChannels, PlainBelow;
    if PathsApart(a, b) {
      assert a.svId + Paths(a)[0] == a.svId && b.svId + Paths(b)[0] == b.svId;
    } else {
      var i, j :| 0 <= i < |Paths(a)| && 0 <= j < |Paths(b)| && a.svId + Paths(a)[i] == b.svId + Paths(b)[j];
      if |a.svId| <= |b.svId| {
        SharedName(a, b, i, j);
      } else {
        SharedName(b, a, j, i);
      }
    }
  }

  /** When channel names have no dots: no id occurs twice if and only if no MU is called like another one or like a node
      below another one. */
  lemma NoDuplicateIds(substation: string, mus: seq<MuSpec>)
    requires forall m :: 0 <= m < |mus| ==> DotFreeChannels(mus[m])
    ensures DistinctIds(Nodes(substation, mus))
       <==> forall m, n :: 0 <= m < |mus| && 0 <= n < |mus| && m != n ==> !Names(mus[m].svId, mus[n])
  {
    hide Nodes, DistinctIds, PathsApart, Names, DotFreeChannels;
    DistinctIffPathsApart(substation, mus);
    forall m, n | 0 <= m < n < |mus|
      ensures PathsApart(mus[m], mus[n]) <==> !Names(mus[m].svId, mus[n]) && !Names(mus[n].svId, mus[m])
    {
      PathsApartIff(mus[m], mus[n]);
    }
  }

  /** With any channel names: a MU called like another one, or like a node below it, always gives a duplicate id. */
  lemma SameNameDuplicates(substation: string, mus: seq<MuSpec>, m: nat, n: nat)
    requires m < |mus| && n < |mus| && m != n && Names(mus[m].svId, mus[n])
    ensures !DistinctIds(Nodes(substation, mus))
  {
    NamesNotApart(mus[m], mus[n]);
    hide Nodes, DistinctIds, PathsApart, Names;
    DistinctIffPathsApart(substation, mus);
  }

  lemma NamesNotApart(a: MuSpec, b: MuSpec)
    requires Names(a.svId, b)
    ensures !PathsApart(a, b) && !PathsApart(b, a)
  {
    assert a.svId == a.svId + Paths(a)[0] by {
      hide Names;
    }
  }

  /** One name is the other, or continues it after a dot. */
  predicate Continues(a: string, b: string)
  {
    a == b || b + "." <= a
  }

  predicate Dotted(paths: seq<string>)
  {
    forall i :: 0 <= i < |paths| ==> paths[i] != "" && paths[i][0] == '.'
  }

  lemma {:induction false} LeavesDotted(parent: string, leaves: seq<Leaf>)
    requires parent != "" && parent[0] == '.'
    ensures Dotted(LeafPaths(parent, leaves))
  {
    if leaves != [] {
      LeavesDotted(parent, leaves[..|leaves| - 1]);
    }
  }

  lemma {:induction false} ChannelsDotted(names: seq<string>)
    ensures Dotted(AllChannelPaths(names))
  {
    hide LeafPaths, ChannelLeaves, ChannelName;
    if names != [] {
      ChannelsDotted(names[..|names| - 1]);
      LeavesDotted(".ChannelRegistry" + "." + ChannelName(|names| - 1, names[|names| - 1]), ChannelLeaves());
    }
  }

  lemma PathsDotted(mu: MuSpec)
    ensures Paths(mu) != [] && Paths(mu)[0] == ""
    ensures forall i :: 0 < i < |Paths(mu)| ==> Paths(mu)[i] != "" && Paths(mu)[i][0] == '.'
  {
    hide AllChannelPaths, LeafPaths, StatusLeaves;
    ChannelsDotted(mu.channelNames);
    LeavesDotted(".TickStatus", StatusLeaves());
    var paths := Paths(mu);
    assert paths[1..] == [".ChannelRegistry"] + AllChannelPaths(mu.channelNames) + StatusPaths();
    forall i | 0 < i < |paths| ensures paths[i] != "" && paths[i][0] == '.' {
      assert paths[i] == paths[1..][i - 1];
    }
  }

  lemma LongerContinues(a: MuSpec, b: string, i: nat, rest: string)
    requires i < |Paths(a)| && a.svId + Paths(a)[i] == b + rest && |a.svId| <= |b|
    ensures Continues(b, a.svId)
  {
    PathsDotted(a);
    hide Paths;
    var s := CutNames(a.svId, Paths(a)[i], b, rest);
    if s == "" {
      assert b == a.svId;
    } else {
      assert s[0] == Paths(a)[i][0];
      assert s == "." + s[1..] && b == a.svId + "." + s[1..];
    }
  }

  lemma ApartNames(a: MuSpec, b: MuSpec)
    requires !Continues(a.svId, b.svId) && !Continues(b.svId, a.svId)
    ensures PathsApart(a, b)
  {
    hide Paths, Continues;
    forall i, j | 0 <= i < |Paths(a)| && 0 <= j < |Paths(b)| ensures a.svId + Paths(a)[i] != b.svId + Paths(b)[j] {
      if a.svId + Paths(a)[i] == b.svId + Paths(b)[j] {
        if |a.svId| <= |b.svId| {
          LongerContinues(a, b.svId, i, Paths(b)[j]);
        } else {
          LongerContinues(b, a.svId, j, Paths(a)[i]);
        }
      }
    }
  }

  /** With any channel names: when no MU's name is or continues another's after a dot, no id occurs twice. */
  lemma NoContinuationNoDuplicates(substation: string, mus: seq<MuSpec>)
    requires forall m, n :: 0 <= m < |mus| && 0 <= n < |mus| && m != n ==> !Continues(mus[m].svId, mus[n].svId)
    ensures DistinctIds(Nodes(substation, mus))
  {
    hide Nodes, DistinctIds, PathsApart, Continues;
    DistinctIffPathsApart(substation, mus);
    forall m, n | 0 <= m < n < |mus| ensures PathsApart(mus[m], mus[n]) {
      ApartNames(mus[m], mus[n]);
    }
  }

  /** Dots can make distinct names collide: the MU "A.ChannelRegistry" has the id of A's registry. */
  lemma DottedNameDuplicates(substation: string)
    ensures !DistinctIds(Nodes(substation, [MuSpec("A", []), MuSpec("A.ChannelRegistry", [])]))
  {
    var mus := [MuSpec("A", []), MuSpec("A.ChannelRegistry", [])];
    assert "A.ChannelRegistry" == "A" + Paths(mus[0])[1];
    assert Names(mus[1].svId, mus[0]);
    hide Nodes, DistinctIds, Names, Paths;
    SameNameDuplicates(substation, mus, 1, 0);
  }
}
