/** The runtime budget compiler: profile ceilings scaled by what the machine has left, never below a floor.

    A budget is a table indexed by field, one enumeration per group of the report. */
module RuntimeBudget {

  import opened Wrappers
  import Text

  const USIZE_MAX: nat := Text.U64_MAX
  const MB: nat := 1024 * 1024

  // ---------------------------------------------------------------- fields

  datatype CoreField = Records | WorkingSet | LongTermScan
  datatype GraphField = Hops | Seeds | Expanded | Neighbors | Nodes | Edges | Backlinks | CompactNodes | CompactEdges
  datatype FacetField = QueryFacets | IndexDocs | Anchors | ExpandedFacets
  datatype DeliveryField = Selected | Rendered | CapsuleChars | LedgerEntries
  datatype GovernedField =
    | ValidityJoins | LineageDepth | LongTermRevisions | SkillOwners | SkillLineage | ToolOwners | ToolRevisions
    | ToolEvidence | AsOfCandidates | ObsoleteDecisions | ProceduralCandidates | Premises | PremiseReads
    | StateTransitions | SoulEntries | SoulRevisions | SoulTombstones | SoulMutations
  datatype StoreField =
    | MetricSources | EventLog | KvEntries | BlobBytes | SnapshotBytes | NamespaceBytes | KeyBytes | EventKeyBytes
    | ExportBytes | ImportBytes
  datatype AdapterField = HeaderBytes | BodyBytes | FrameBytes | Subscriptions | SessionFrames
  datatype SourceField = ContextChars | RecentMessages | RecallCandidates
  datatype MaintenanceField = UserChars | UserBytes | ReplyChars | ReplyBytes
  datatype JobField = Concurrent | Background | BatchItems
  datatype GatewayField =
    | CacheRuntimes | RenderChars | GatewayMessages | GatewayUserChars | GatewayReplyChars | JsonBytes | ChunkBytes
    | StreamEventBytes | StreamEvents | ResponseBytes
  datatype TranscriptField =
    | PageSize | HostRefs | TurnAttrs | MessageAttrs | RedactionItems | DerivedRefs | RepairIssues

  datatype Field =
    | Core(core: CoreField)
    | Graph(graph: GraphField)
    | Facet(facet: FacetField)
    | Delivery(delivery: DeliveryField)
    | Governed(governed: GovernedField)
    | Store(store: StoreField)
    | Adapter(adapter: AdapterField)
    | Source(source: SourceField)
    | Render
    | Maintenance(maintenance: MaintenanceField)
    | Job(job: JobField)
    | Gateway(gateway: GatewayField)
    | Transcript(transcript: TranscriptField)

  type Table = Field -> nat

  // ---------------------------------------------------------------- profiles

  datatype Profile =
    | EspEmbeddedSdk | EspStandaloneMemory | LinuxDeviceStandaloneMemory
    | DesktopMacosEmbeddedSdk | DesktopLinuxEmbeddedSdk | DesktopWindowsEmbeddedSdk
    | DesktopMacosStandaloneMemory | ServerLinuxMemoryGateway
    | DesktopMacosDevFull | DesktopWindowsDevFull | ServerLinuxDevFull

  datatype Target = Esp | LinuxDevice | DesktopMacos | DesktopLinux | DesktopWindows | ServerLinux

  datatype Role = StandaloneMemory | EmbeddedSdk | MemoryGateway | DevelopmentFull

  function TargetOf(p: Profile): Target {
    match p
    case EspEmbeddedSdk | EspStandaloneMemory => Esp
    case LinuxDeviceStandaloneMemory => LinuxDevice
    case DesktopMacosStandaloneMemory | DesktopMacosEmbeddedSdk | DesktopMacosDevFull => DesktopMacos
    case DesktopLinuxEmbeddedSdk => DesktopLinux
    case DesktopWindowsEmbeddedSdk | DesktopWindowsDevFull => DesktopWindows
    case ServerLinuxMemoryGateway | ServerLinuxDevFull => ServerLinux
  }

  function RoleOf(p: Profile): Role {
    match p
    case EspStandaloneMemory | LinuxDeviceStandaloneMemory | DesktopMacosStandaloneMemory => StandaloneMemory
    case EspEmbeddedSdk | DesktopMacosEmbeddedSdk | DesktopLinuxEmbeddedSdk | DesktopWindowsEmbeddedSdk => EmbeddedSdk
    case ServerLinuxMemoryGateway => MemoryGateway
    case DesktopMacosDevFull | DesktopWindowsDevFull | ServerLinuxDevFull => DevelopmentFull
  }

  datatype Spec = Spec(
    memoryFloor: nat, storageFloor: nat, records: nat, revisions: nat, skillOwners: nat, lineage: nat, events: nat,
    metricSources: nat, blob: nat, snapshot: nat, body: nat, response: nat, sourceChars: nat, renderChars: nat,
    maintenanceChars: nat, runtimes: nat, subscriptions: nat, hops: nat, defaultHops: bool, evalHops: bool)

  function SpecOf(p: Profile): Spec {
    match p
    case EspEmbeddedSdk =>
      Spec(128 * MB, 8 * MB, 512, 4, 16, 4, 256, 1, MB, 256 * 1024, 8 * 1024, 64 * 1024, 1024, 2048, 1024, 8, 4, 1,
           false, false)
    case EspStandaloneMemory =>
      Spec(256 * MB, 16 * MB, 4096, 4, 64, 4, 2048, 1, 4 * MB, MB, 16 * 1024, 256 * 1024, 2048, 4096, 2048, 16, 8, 1,
           false, false)
    case LinuxDeviceStandaloneMemory =>
      Spec(512 * MB, 256 * MB, 12000, 8, 256, 8, 4096, 2, 16 * MB, 4 * MB, 64 * 1024, MB, 4096, 8192, 4096, 32, 16, 1,
           false, false)
    case DesktopMacosStandaloneMemory =>
      Spec(1024 * MB, 512 * MB, 20000, 16, 512, 16, 8192, 2, 32 * MB, 8 * MB, 96 * 1024, 2 * MB, 8192, 12288, 8192, 64,
           32, 1, false, false)
    case ServerLinuxMemoryGateway =>
      Spec(1024 * MB, 1024 * MB, 40000, 32, 1024, 32, 16384, 2, 64 * MB, 16 * MB, 128 * 1024, 8 * MB, 8192, 16384,
           8192, 128, 64, 2, true, true)
    case DesktopMacosDevFull => DevFull()
    case DesktopWindowsDevFull => DevFull()
    case ServerLinuxDevFull => DevFull()
    case _ =>
      Spec(512 * MB, 256 * MB, 4096, 8, 128, 8, 8192, 2, 8 * MB, 2 * MB, 32 * 1024, 512 * 1024, 2048, 4096, 2048, 16,
           8, 1, false, false)
  }

  function DevFull(): Spec {
    Spec(2048 * MB, 2048 * MB, 80000, 32, 2048, 32, 32768, 2, 128 * MB, 32 * MB, 256 * 1024, 16 * MB, 16384, 32768,
         16384, 256, 128, 2, true, true)
  }

  function Max(a: nat, b: nat): nat {
    if a >= b then a else b
  }

  function Min(a: nat, b: nat): nat {
    if a <= b then a else b
  }

  function ByRecords(s: Spec, large: nat, small: nat): nat {
    if s.records >= 4096 then large else small
  }

  function GovernedCeiling(s: Spec, f: GovernedField): nat {
    match f
    case ValidityJoins => Max(s.records / 256, 2)
    case LineageDepth => ByRecords(s, 16, 4)
    case LongTermRevisions => s.revisions
    case SkillOwners => s.skillOwners
    case SkillLineage => s.lineage
    case ToolOwners => s.skillOwners
    case ToolRevisions => s.lineage
    case ToolEvidence => Max(s.sourceChars / 128, 8)
    case AsOfCandidates => Max(s.records / 512, 2)
    case ObsoleteDecisions => Max(s.records / 256, 2)
    case ProceduralCandidates => Max(s.sourceChars / 256, 2)
    case Premises => Max(s.sourceChars / 1024, 2)
    case PremiseReads => Max(s.sourceChars / 512, 2)
    case StateTransitions => ByRecords(s, 8, 2)
    case SoulEntries => Max(s.records / 16, 16)
    case SoulRevisions => s.revisions
    case SoulTombstones => ByRecords(s, 8, 2)
    case SoulMutations => Max(s.records / 128, 16)
  }

  function GraphCeiling(s: Spec, f: GraphField): nat {
    match f
    case Hops => s.hops
    case Seeds => Max(s.records / 64, 4)
    case Expanded => Max(s.records / 128, 8)
    case Neighbors => Max(s.records / 512, 2)
    case Nodes => Max(s.records / 16, 16)
    case Edges => Max(s.records / 8, 32)
    case Backlinks => Max(s.records / 8, 32)
    case CompactNodes => ByRecords(s, 32, 16)
    case CompactEdges => ByRecords(s, 32, 16)
  }

  function StoreCeiling(s: Spec, f: StoreField): nat {
    match f
    case MetricSources => s.metricSources
    case EventLog => s.events
    case KvEntries => s.records
    case BlobBytes => s.blob
    case SnapshotBytes => s.snapshot
    case NamespaceBytes => 96
    case KeyBytes => Max(s.snapshot / 1024, 512)
    case EventKeyBytes => Max(s.snapshot / 1024, 512)
    case ExportBytes => s.snapshot
    case ImportBytes => s.snapshot
  }

  function GatewayCeiling(s: Spec, f: GatewayField): nat {
    match f
    case CacheRuntimes => s.runtimes
    case RenderChars => s.renderChars
    case GatewayMessages => Max(s.sourceChars / 256, 4)
    case GatewayUserChars => s.maintenanceChars
    case GatewayReplyChars => s.maintenanceChars
    case JsonBytes => s.response
    case ChunkBytes => s.body
    case StreamEventBytes => s.body
    case StreamEvents => s.events
    case ResponseBytes => s.response
  }

  function TranscriptCeiling(s: Spec, f: TranscriptField): nat {
    match f
    case PageSize => Max(s.sourceChars / 256, 4)
    case HostRefs => Max(s.body / 8192, 1)
    case TurnAttrs => Max(s.sourceChars / 512, 2)
    case MessageAttrs => Max(s.sourceChars / 512, 2)
    case RedactionItems => Max(s.sourceChars / 128, 8)
    case DerivedRefs => Max(s.records / 512, 4)
    case RepairIssues => Max(s.events / 512, 4)
  }

  function Ceiling(s: Spec, f: Field): nat {
    match f
    case Core(Records) => s.records
    case Core(WorkingSet) => Max(s.records / 16, 16)
    case Core(LongTermScan) => Max(s.records / 8, 32)
    case Graph(g) => GraphCeiling(s, g)
    case Facet(QueryFacets) => Max(s.sourceChars / 256, 4)
    case Facet(IndexDocs) => Max(s.records / 8, 32)
    case Facet(Anchors) => Max(s.records / 128, 8)
    case Facet(ExpandedFacets) => Max(s.records / 256, 8)
    case Delivery(Selected) => Max(s.sourceChars / 128, 8)
    case Delivery(Rendered) => Max(s.sourceChars / 512, 2)
    case Delivery(CapsuleChars) => Max(s.renderChars / 3, 256)
    case Delivery(LedgerEntries) => Max(s.sourceChars / 256, 4)
    case Governed(g) => GovernedCeiling(s, g)
    case Store(g) => StoreCeiling(s, g)
    case Adapter(HeaderBytes) => 16 * 1024
    case Adapter(BodyBytes) => s.body
    case Adapter(FrameBytes) => s.body
    case Adapter(Subscriptions) => s.subscriptions
    case Adapter(SessionFrames) => Max(Min(s.subscriptions * 8, USIZE_MAX), 8)
    case Source(ContextChars) => s.sourceChars
    case Source(_) => Max(s.sourceChars / 256, 4)
    case Render => s.renderChars
    case Maintenance(UserChars) => s.maintenanceChars
    case Maintenance(ReplyChars) => s.maintenanceChars
    case Maintenance(_) => s.maintenanceChars * 2
    case Job(Concurrent) => Max(s.runtimes / 4, 1)
    case Job(Background) => Max(s.runtimes / 8, 1)
    case Job(BatchItems) => Max(s.records / 64, 4)
    case Gateway(g) => GatewayCeiling(s, g)
    case Transcript(g) => TranscriptCeiling(s, g)
  }

  /** The least a field is scaled down to. */
  function Floor(f: Field): nat {
    match f
    case Core(Records) => 64
    case Core(_) => 4
    case Graph(Hops) => 1
    case Graph(Neighbors) => 1
    case Graph(CompactNodes) => 1
    case Graph(CompactEdges) => 1
    case Graph(_) => 4
    case Facet(_) => 4
    case Delivery(Selected) => 4
    case Delivery(CapsuleChars) => 128
    case Delivery(_) => 1
    case Governed(SoulEntries) => 8
    case Governed(SoulMutations) => 8
    case Governed(_) => 1
    case Store(MetricSources) => 1
    case Store(EventLog) => 64
    case Store(KvEntries) => 64
    case Store(NamespaceBytes) => 96
    case Store(KeyBytes) => 128
    case Store(EventKeyBytes) => 128
    case Store(_) => 64 * 1024
    case Adapter(HeaderBytes) => 16 * 1024
    case Adapter(Subscriptions) => 1
    case Adapter(SessionFrames) => 4
    case Adapter(_) => 4 * 1024
    case Source(ContextChars) => 1024
    case Source(_) => 1
    case Render => 512
    case Maintenance(UserChars) => 512
    case Maintenance(ReplyChars) => 512
    case Maintenance(_) => 1024
    case Job(_) => 1
    case Gateway(RenderChars) => 512
    case Gateway(GatewayUserChars) => 512
    case Gateway(GatewayReplyChars) => 512
    case Gateway(CacheRuntimes) => 1
    case Gateway(GatewayMessages) => 1
    case Gateway(StreamEvents) => 1
    case Gateway(_) => 4 * 1024
    case Transcript(_) => 1
  }

  // ---------------------------------------------------------------- scales

  datatype Pressure = Normal | Cautious | Critical

  datatype Medium = VolatileMemory | PersistentFilesystem | EmbeddedFlash

  datatype Reason = ProbeNotConfigured | ProbeFailed | SnapshotStale | MemoryUnavailable | StorageUnavailable

  datatype ProbeSource = FirmwareManifest | HostMacos | HostLinux | HostWindows | HostOther

  /** One observation of the machine; absent facts are `None`. */
  datatype Snapshot = Snapshot(
    source: ProbeSource, observedAt: nat, ttlMs: nat, stale: bool, pressure: Pressure, parallelism: Option<nat>,
    memoryTotal: Option<nat>, memoryAvailable: Option<nat>,
    heapFree: Option<nat>, heapMinimum: Option<nat>, heapLargest: Option<nat>,
    psramTotal: Option<nat>, psramFree: Option<nat>, psramLargest: Option<nat>,
    storageTotal: Option<nat>, storageAvailable: Option<nat>, unavailable: Option<Reason>, detail: Option<string>)

  datatype Manifest = Manifest(
    profile: Profile, target: Target, role: Role, medium: Medium, memoryFloor: nat, storageFloor: nat)

  function Scale(value: nat, percent: nat): nat {
    Min(value * percent, USIZE_MAX) / 100
  }

  function PressureScale(p: Pressure): nat {
    match p case Normal => 100 case Cautious => 60 case Critical => 35
  }

  function RoomScale(available: nat, floor: nat): nat {
    if available <= floor then 50 else if available <= Min(floor * 2, USIZE_MAX) then 75 else 100
  }

  /** The first memory fact there is: host memory, internal heap, then PSRAM. */
  function MemoryFact(s: Snapshot): Option<nat> {
    if s.memoryAvailable.Some? then s.memoryAvailable
    else if s.heapFree.Some? then s.heapFree
    else s.psramFree
  }

  function MemoryScale(s: Snapshot, m: Manifest): nat {
    match MemoryFact(s) case None => 50 case Some(available) => RoomScale(available, m.memoryFloor)
  }

  function StorageScale(s: Snapshot, m: Manifest): nat {
    match s.storageAvailable case None => 60 case Some(available) => RoomScale(available, m.storageFloor)
  }

  datatype Basis = BySource | ByStore | ByPressure | Fixed

  function BasisOf(f: Field): Basis {
    match f
    case Graph(Hops) => Fixed
    case Store(NamespaceBytes) => Fixed
    case Adapter(HeaderBytes) => Fixed
    case Store(_) => ByStore
    case Render => ByPressure
    case _ => BySource
  }

  /** The scale, in percent, that a basis gets from a snapshot. */
  function Percent(s: Snapshot, m: Manifest, basis: Basis): nat {
    var pressure, memory, storage := PressureScale(s.pressure), MemoryScale(s, m), StorageScale(s, m);
    match basis
    case BySource => Min(memory, pressure)
    case ByStore =>
      (match m.medium
       case VolatileMemory => Min(memory, pressure)
       case PersistentFilesystem => Min(storage, pressure)
       case EmbeddedFlash => Min(Min(memory, storage), pressure))
    case ByPressure => pressure
    case Fixed => 100
  }

  // ---------------------------------------------------------------- compilation

  /** Gateway limits that repeat another field of the report. */
  function Origin(f: Field): Field {
    match f
    case Gateway(RenderChars) => Render
    case Gateway(GatewayMessages) => Source(RecentMessages)
    case Gateway(GatewayUserChars) => Maintenance(UserChars)
    case Gateway(GatewayReplyChars) => Maintenance(ReplyChars)
    case _ => f
  }

  function Scaled(spec: Spec, percent: nat, f: Field): nat {
    match BasisOf(f)
    case Fixed => if f == Graph(Hops) then Min(Max(Ceiling(spec, f), 1), 2) else Ceiling(spec, f)
    case _ => Max(Scale(Ceiling(spec, f), percent), Floor(f))
  }

  datatype Input = Input(profile: Profile, snapshot: Snapshot, manifest: Manifest, promptCap: Option<nat>)

  function Value(i: Input, f: Field): nat {
    var origin := Origin(f);
    var scaled := Scaled(SpecOf(i.profile), Percent(i.snapshot, i.manifest, BasisOf(origin)), origin);
    if origin.Render? && i.promptCap.Some? then Min(scaled, i.promptCap.value) else scaled
  }

  function Values(i: Input): Table {
    (f: Field) => Value(i, f)
  }

  const MAX_DOCUMENT_BYTES: nat := 256 * 1024
  const MAX_BODY_BYTES: nat := 256 * 1024
  const MAX_CHUNK_BYTES: nat := 32 * 1024
  const MAX_CHUNKS: nat := 64
  const ENVELOPE: nat := 64 + MAX_CHUNKS + 1

  /** What follows from the store, job and core budgets for evidence documents. */
  datatype Evidence = Evidence(
    document: nat, body: nat, chunk: nat, chunks: nat, perTransaction: nat, perRead: nat, totalBytes: nat)

  function EvidenceOf(t: Table): Evidence {
    var total := t(Store(SnapshotBytes)) / 2;
    var document := Min(total, MAX_DOCUMENT_BYTES);
    var body := Min(document, MAX_BODY_BYTES);
    var documents := Max(Min(Min(t(Job(BatchItems)), t(Store(EventLog))), t(Store(KvEntries)) / ENVELOPE), 1);
    Evidence(document, body, Min(body, MAX_CHUNK_BYTES), Min(t(Core(WorkingSet)), MAX_CHUNKS), documents, documents,
      total)
  }

  datatype Report = Report(
    id: string, input: Input, values: Table, defaultHops: bool, evalHops: bool, evidence: Evidence,
    limitedBy: seq<string>, unavailableReasons: seq<Reason>)

  type Digest = Report -> string

  /** The report with the id that covers everything else in it. */
  function Finalize(digest: Digest, r: Report): Report {
    r.(id := digest(r.(id := "")))
  }

  function When(condition: bool, text: string): seq<string> {
    if condition then [text] else []
  }

  function PressureName(p: Pressure): string {
    match p case Normal => "Normal" case Cautious => "Cautious" case Critical => "Critical"
  }

  function LimitedBy(i: Input): seq<string> {
    var s, m := i.snapshot, i.manifest;
    When(s.unavailable.Some?, "runtime_resource_snapshot_unavailable") +
    When(s.stale, "runtime_resource_snapshot_stale") +
    When(!s.pressure.Normal?, "resource_pressure:" + PressureName(s.pressure)) +
    When(MemoryScale(s, m) < 100, "memory_scale:" + Text.Decimal(MemoryScale(s, m))) +
    When(!m.medium.VolatileMemory? && StorageScale(s, m) < 100, "storage_scale:" + Text.Decimal(StorageScale(s, m))) +
    When(i.promptCap.Some?, "provider_model_context_limit")
  }

  function Compile(digest: Digest, i: Input): Report {
    var spec, values := SpecOf(i.profile), Values(i);
    Finalize(digest, Report("", i, values, spec.defaultHops, spec.evalHops, EvidenceOf(values), LimitedBy(i),
                            if i.snapshot.unavailable.Some? then [i.snapshot.unavailable.value] else []))
  }

  // ---------------------------------------------------------------- bounds

  lemma {:induction false} ScaleBounds(value: nat, percent: nat)
    requires percent <= 100
    ensures Scale(value, percent) <= value
  {
    assert value * percent <= value * 100;
  }

  lemma ScaleMonotone(value: nat, p: nat, q: nat)
    requires p <= q
    ensures Scale(value, p) <= Scale(value, q)
  {
    assert value * p <= value * q;
  }

  /** What the profile table guarantees of every row. */
  predicate Roomy(s: Spec) {
    && s.records >= 512 && s.revisions >= 1 && s.skillOwners >= 1 && s.lineage >= 1
    && s.events >= 64 && s.metricSources >= 1
    && s.blob >= 64 * 1024 && s.snapshot >= 256 * 1024 && s.body >= 8192 && s.response >= 8192 && s.sourceChars >= 1024
    && s.renderChars >= 512 && s.maintenanceChars >= 512 && s.runtimes >= 8 && s.subscriptions >= 1
    && 1 <= s.hops <= 2 && (s.defaultHops || s.evalHops ==> s.hops == 2)
  }

  lemma ProfilesAreRoomy(p: Profile)
    ensures Roomy(SpecOf(p))
  {
  }

  lemma FloorBelowCeiling(s: Spec, f: Field)
    requires Roomy(s)
    ensures 1 <= Floor(f) <= Ceiling(s, f)
  {
  }

  lemma PercentAtMost100(s: Snapshot, m: Manifest, basis: Basis)
    ensures Percent(s, m, basis) <= 100
  {
  }

  lemma ScaledBounds(spec: Spec, percent: nat, f: Field)
    requires Roomy(spec) && percent <= 100
    ensures Floor(f) <= Scaled(spec, percent, f) <= Ceiling(spec, f)
  {
    FloorBelowCeiling(spec, f);
    ScaleBounds(Ceiling(spec, f), percent);
  }

  lemma OriginBounds(spec: Spec, f: Field)
    ensures Floor(Origin(f)) == Floor(f) && Ceiling(spec, Origin(f)) == Ceiling(spec, f)
  {
  }

  /** A provider limit below the floor of what is rendered. */
  predicate CappedBelowFloor(i: Input, f: Field) {
    Origin(f).Render? && i.promptCap.Some? && i.promptCap.value < Floor(f)
  }

  /** Every field is at most its ceiling, and at least its floor unless a provider limit on rendering is lower. */
  lemma ValueBounds(i: Input, f: Field)
    ensures Value(i, f) <= Ceiling(SpecOf(i.profile), f)
    ensures Floor(f) <= Value(i, f) <==> !CappedBelowFloor(i, f)
    ensures CappedBelowFloor(i, f) ==> Value(i, f) == i.promptCap.value
  {
    var spec, origin := SpecOf(i.profile), Origin(f);
    ProfilesAreRoomy(i.profile);
    PercentAtMost100(i.snapshot, i.manifest, BasisOf(origin));
    ScaledBounds(spec, Percent(i.snapshot, i.manifest, BasisOf(origin)), origin);
    OriginBounds(spec, f);
  }

  // ---------------------------------------------------------------- monotonicity

  function Load(p: Pressure): nat {
    match p case Normal => 0 case Cautious => 1 case Critical => 2
  }

  /** The same fact is present and is no smaller. */
  predicate NoLess(a: Option<nat>, b: Option<nat>) {
    if a.Some? then b.Some? && a.value <= b.value else b.None?
  }

  /** `b` has at least the room of `a`: no more pressure, and no less of the same facts. */
  predicate Roomier(a: Snapshot, b: Snapshot) {
    Load(b.pressure) <= Load(a.pressure) && NoLess(MemoryFact(a), MemoryFact(b))
      && NoLess(a.storageAvailable, b.storageAvailable)
  }

  lemma PercentMonotone(a: Snapshot, b: Snapshot, m: Manifest, basis: Basis)
    requires Roomier(a, b)
    ensures Percent(a, m, basis) <= Percent(b, m, basis)
  {
  }

  lemma ScaledMonotone(spec: Spec, p: nat, q: nat, f: Field)
    requires p <= q
    ensures Scaled(spec, p, f) <= Scaled(spec, q, f)
  {
    ScaleMonotone(Ceiling(spec, f), p, q);
  }

  lemma ValueMonotone(i: Input, j: Input, f: Field)
    requires j == i.(snapshot := j.snapshot) && Roomier(i.snapshot, j.snapshot)
    ensures Value(i, f) <= Value(j, f)
  {
    var origin := Origin(f);
    PercentMonotone(i.snapshot, j.snapshot, i.manifest, BasisOf(origin));
    ScaledMonotone(SpecOf(i.profile), Percent(i.snapshot, i.manifest, BasisOf(origin)),
                   Percent(j.snapshot, j.manifest, BasisOf(origin)), origin);
  }

  predicate EvidenceAtMost(a: Evidence, b: Evidence) {
    && a.document <= b.document && a.body <= b.body && a.chunk <= b.chunk && a.chunks <= b.chunks
    && a.perTransaction <= b.perTransaction && a.perRead <= b.perRead && a.totalBytes <= b.totalBytes
  }

  ghost predicate AtMost(a: Table, b: Table) {
    forall f: Field :: a(f) <= b(f)
  }

  lemma EvidenceMonotone(a: Table, b: Table)
    requires AtMost(a, b)
    ensures EvidenceAtMost(EvidenceOf(a), EvidenceOf(b))
  {
    assert a(Store(SnapshotBytes)) <= b(Store(SnapshotBytes)) && a(Store(EventLog)) <= b(Store(EventLog));
    assert a(Store(KvEntries)) <= b(Store(KvEntries)) && a(Job(BatchItems)) <= b(Job(BatchItems));
    assert a(Core(WorkingSet)) <= b(Core(WorkingSet));
  }

  /** More room never lowers any limit of the report, derived ones included. */
  lemma CompileMonotone(digest: Digest, i: Input, j: Input)
    requires j == i.(snapshot := j.snapshot) && Roomier(i.snapshot, j.snapshot)
    ensures AtMost(Compile(digest, i).values, Compile(digest, j).values)
    ensures EvidenceAtMost(Compile(digest, i).evidence, Compile(digest, j).evidence)
    ensures Compile(digest, i).defaultHops == Compile(digest, j).defaultHops
    ensures Compile(digest, i).evalHops == Compile(digest, j).evalHops
  {
    forall f: Field ensures Values(i)(f) <= Values(j)(f) {
      ValueMonotone(i, j, f);
    }
    EvidenceMonotone(Values(i), Values(j));
  }

  // ---------------------------------------------------------------- explanations

  lemma NotLimited(i: Input)
    requires LimitedBy(i) == []
    ensures i.snapshot.pressure.Normal? && i.promptCap.None? && MemoryScale(i.snapshot, i.manifest) >= 100
    ensures i.manifest.medium.VolatileMemory? || StorageScale(i.snapshot, i.manifest) >= 100
  {
  }

  lemma FullScale(value: nat)
    requires value * 100 <= USIZE_MAX
    ensures Scale(value, 100) == value
  {
  }

  /** No ceiling is so large that scaling it saturates. */
  lemma CeilingsAreSmall(p: Profile, f: Field)
    ensures Ceiling(SpecOf(p), f) <= 0x1000_0000
  {
  }

  /** Whatever is cut is explained: a report without a limiting label is the profile ceiling, field by field. */
  lemma EveryCutIsExplained(digest: Digest, i: Input, f: Field)
    requires Compile(digest, i).limitedBy == []
    ensures Compile(digest, i).values(f) == Ceiling(SpecOf(i.profile), f)
  {
    var spec, origin := SpecOf(i.profile), Origin(f);
    NotLimited(i);
    CeilingsAreSmall(i.profile, origin);
    FullScale(Ceiling(spec, origin));
    ProfilesAreRoomy(i.profile);
    FloorBelowCeiling(spec, origin);
    OriginBounds(spec, f);
  }

  // ---------------------------------------------------------------- exact values

  /** The memory the compiler goes by, host memory before internal heap before PSRAM, is at most `bound`. */
  predicate MemoryAtMost(s: Snapshot, bound: nat) {
    || (s.memoryAvailable.Some? && s.memoryAvailable.value <= bound)
    || (s.memoryAvailable.None? && s.heapFree.Some? && s.heapFree.value <= bound)
    || (s.memoryAvailable.None? && s.heapFree.None? && s.psramFree.Some? && s.psramFree.value <= bound)
  }

  predicate MemoryUnknown(s: Snapshot) {
    s.memoryAvailable.None? && s.heapFree.None? && s.psramFree.None?
  }

  predicate StorageAtMost(s: Snapshot, bound: nat) {
    s.storageAvailable.Some? && s.storageAvailable.value <= bound
  }

  predicate IsFixed(f: Field) {
    f == Graph(Hops) || f == Store(NamespaceBytes) || f == Adapter(HeaderBytes)
  }

  predicate IsRendering(f: Field) {
    f == Render || f == Gateway(RenderChars)
  }

  /** Store fields follow what the store is made of, rendering follows pressure alone, the rest follows memory. */
  predicate FollowsMemory(f: Field, medium: Medium) {
    !IsRendering(f) && (f.Store? ==> !medium.PersistentFilesystem?)
  }

  predicate FollowsStorage(f: Field, medium: Medium) {
    f.Store? && !medium.VolatileMemory?
  }

  predicate MemoryCutsTo(s: Snapshot, floor: nat, percent: nat) {
    || (percent == 50 && (MemoryUnknown(s) || MemoryAtMost(s, floor)))
    || (percent == 75 && MemoryAtMost(s, Min(floor * 2, USIZE_MAX)))
  }

  predicate StorageCutsTo(s: Snapshot, floor: nat, percent: nat) {
    || (percent == 60 && s.storageAvailable.None?)
    || (percent == 50 && StorageAtMost(s, floor))
    || (percent == 75 && StorageAtMost(s, Min(floor * 2, USIZE_MAX)))
  }

  /** Something cuts the field to `percent` of its ceiling: pressure, little memory or little storage. */
  predicate CutsTo(i: Input, f: Field, percent: nat) {
    var s, m := i.snapshot, i.manifest;
    || percent == 100
    || (percent == 60 && s.pressure == Cautious)
    || (percent == 35 && s.pressure == Critical)
    || (FollowsMemory(f, m.medium) && MemoryCutsTo(s, m.memoryFloor, percent))
    || (FollowsStorage(f, m.medium) && StorageCutsTo(s, m.storageFloor, percent))
  }

  function Share(value: nat, percent: nat): nat {
    value * percent / 100
  }

  /** `percent` of the ceiling, or the floor if that is more, or the provider's limit on rendering if that is less. */
  function AtPercent(i: Input, f: Field, percent: nat): nat {
    var cut := Max(Share(Ceiling(SpecOf(i.profile), f), percent), Floor(f));
    if IsRendering(f) && i.promptCap.Some? then Min(cut, i.promptCap.value) else cut
  }

  /** The percentage used is the least of the cuts. */
  lemma PercentIsLeastCut(i: Input, f: Field, percent: nat)
    requires !IsFixed(f)
    ensures var used := Percent(i.snapshot, i.manifest, BasisOf(Origin(f)));
      CutsTo(i, f, used) && (CutsTo(i, f, percent) ==> used <= percent)
  {
  }

  lemma ScaleExact(value: nat, percent: nat)
    requires value <= 0x1000_0000 && percent <= 100
    ensures Scale(value, percent) == Share(value, percent)
  {
    ProductMonotone(value, percent, 100);
  }

  lemma {:induction false} ProductMonotone(value: nat, p: nat, q: nat)
    requires p <= q
    ensures value * p <= value * q && Share(value, p) <= Share(value, q)
  {
    var low, high := value * p, value * q;
    assert high - low == value * (q - p);
  }

  lemma OriginSays(f: Field)
    ensures (BasisOf(Origin(f)).Fixed? <==> IsFixed(f)) && (Origin(f).Render? <==> IsRendering(f))
  {
  }

  lemma ScaledExact(spec: Spec, percent: nat, f: Field)
    requires !BasisOf(f).Fixed? && Ceiling(spec, f) <= 0x1000_0000 && percent <= 100
    ensures Scaled(spec, percent, f) == Max(Share(Ceiling(spec, f), percent), Floor(f))
  {
    ScaleExact(Ceiling(spec, f), percent);
  }

  lemma ValueAtPercent(i: Input, f: Field, used: nat)
    requires !IsFixed(f) && used == Percent(i.snapshot, i.manifest, BasisOf(Origin(f)))
    ensures Value(i, f) == AtPercent(i, f, used)
  {
    CeilingsAreSmall(i.profile, Origin(f));
    PercentAtMost100(i.snapshot, i.manifest, BasisOf(Origin(f)));
    OriginSays(f);
    ScaledExact(SpecOf(i.profile), used, Origin(f));
    OriginBounds(SpecOf(i.profile), f);
  }

  lemma AtPercentMonotone(i: Input, f: Field, p: nat, q: nat)
    requires p <= q
    ensures AtPercent(i, f, p) <= AtPercent(i, f, q)
  {
    ProductMonotone(Ceiling(SpecOf(i.profile), f), p, q);
  }

  /** Every field is exactly what the deepest cut leaves of its ceiling; the fixed ones are never cut. */
  lemma ValueExactly(i: Input, f: Field)
    ensures IsFixed(f) ==> Value(i, f) == Ceiling(SpecOf(i.profile), f)
    ensures !IsFixed(f) ==> exists percent :: CutsTo(i, f, percent) && Value(i, f) == AtPercent(i, f, percent)
    ensures !IsFixed(f) ==> forall percent | CutsTo(i, f, percent) :: Value(i, f) <= AtPercent(i, f, percent)
  {
    if IsFixed(f) {
      ProfilesAreRoomy(i.profile);
    } else {
      var used := Percent(i.snapshot, i.manifest, BasisOf(Origin(f)));
      ValueAtPercent(i, f, used);
      PercentIsLeastCut(i, f, used);
      forall percent | CutsTo(i, f, percent) ensures Value(i, f) <= AtPercent(i, f, percent) {
        PercentIsLeastCut(i, f, percent);
        AtPercentMonotone(i, f, used, percent);
      }
    }
  }

  /** The labels in their places: two fixed texts, pressure, memory, storage, and the provider's limit. */
  lemma LabelPlaces(i: Input, x: string)
    ensures var s, m := i.snapshot, i.manifest;
      x in LimitedBy(i) <==>
        || (s.unavailable.Some? && x == "runtime_resource_snapshot_unavailable")
        || (s.stale && x == "runtime_resource_snapshot_stale")
        || (!s.pressure.Normal? && x == "resource_pressure:" + PressureName(s.pressure))
        || (MemoryScale(s, m) < 100 && x == "memory_scale:" + Text.Decimal(MemoryScale(s, m)))
        || (!m.medium.VolatileMemory? && StorageScale(s, m) < 100 &&
            x == "storage_scale:" + Text.Decimal(StorageScale(s, m)))
        || (i.promptCap.Some? && x == "provider_model_context_limit")
  {
  }

  /** Each label is there exactly for its reason. */
  lemma LabelsExactly(i: Input)
    ensures "runtime_resource_snapshot_unavailable" in LimitedBy(i) <==> i.snapshot.unavailable.Some?
    ensures "runtime_resource_snapshot_stale" in LimitedBy(i) <==> i.snapshot.stale
    ensures "resource_pressure:Cautious" in LimitedBy(i) <==> i.snapshot.pressure == Cautious
    ensures "resource_pressure:Critical" in LimitedBy(i) <==> i.snapshot.pressure == Critical
    ensures "provider_model_context_limit" in LimitedBy(i) <==> i.promptCap.Some?
  {
    LabelPlaces(i, "runtime_resource_snapshot_unavailable");
    LabelPlaces(i, "runtime_resource_snapshot_stale");
    LabelPlaces(i, "resource_pressure:Cautious");
    LabelPlaces(i, "resource_pressure:Critical");
    LabelPlaces(i, "provider_model_context_limit");
  }

  // ---------------------------------------------------------------- larger profiles

  /** Profile row `b` has at least what row `a` has. */
  predicate NoSmaller(a: Spec, b: Spec) {
    && a.records <= b.records && a.revisions <= b.revisions && a.skillOwners <= b.skillOwners
    && a.lineage <= b.lineage && a.events <= b.events && a.metricSources <= b.metricSources
    && a.blob <= b.blob && a.snapshot <= b.snapshot && a.body <= b.body && a.response <= b.response
    && a.sourceChars <= b.sourceChars && a.renderChars <= b.renderChars
    && a.maintenanceChars <= b.maintenanceChars && a.runtimes <= b.runtimes
    && a.subscriptions <= b.subscriptions && a.hops <= b.hops
  }

  lemma GovernedMonotone(a: Spec, b: Spec, f: GovernedField)
    requires NoSmaller(a, b)
    ensures GovernedCeiling(a, f) <= GovernedCeiling(b, f)
  {
  }

  lemma GraphMonotone(a: Spec, b: Spec, f: GraphField)
    requires NoSmaller(a, b)
    ensures GraphCeiling(a, f) <= GraphCeiling(b, f)
  {
  }

  lemma StoreMonotone(a: Spec, b: Spec, f: StoreField)
    requires NoSmaller(a, b)
    ensures StoreCeiling(a, f) <= StoreCeiling(b, f)
  {
  }

  lemma TranscriptMonotone(a: Spec, b: Spec, f: TranscriptField)
    requires NoSmaller(a, b)
    ensures TranscriptCeiling(a, f) <= TranscriptCeiling(b, f)
  {
  }

  /** A row that has no less of anything has no lower ceiling for any field. */
  lemma CeilingMonotone(a: Spec, b: Spec, f: Field)
    requires NoSmaller(a, b)
    ensures Ceiling(a, f) <= Ceiling(b, f)
  {
    match f
    case Governed(g) => GovernedMonotone(a, b, g);
    case Graph(g) => GraphMonotone(a, b, g);
    case Store(g) => StoreMonotone(a, b, g);
    case Transcript(g) => TranscriptMonotone(a, b, g);
    case _ =>
  }
}
