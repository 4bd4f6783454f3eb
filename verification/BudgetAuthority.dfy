/** Limits and ceilings over a compiled budget, and the authority that holds the current report. */
module BudgetAuthority {

  import opened Wrappers
  import opened RuntimeBudget
  import Text

  // ---------------------------------------------------------------- limits

  type StoreTable = StoreField -> nat

  datatype GraphLimit = GraphLimit(values: GraphField -> nat, defaultHops: bool, evalHops: bool)

  /** The limits a non-production replay may put on the compiled budget. */
  datatype Limits = Limits(
    graph: Option<GraphLimit>, facet: Option<FacetField -> nat>, delivery: Option<DeliveryField -> nat>,
    transcript: Option<TranscriptField -> nat>, store: Option<StoreTable>)

  predicate GraphLimitValid(l: GraphLimit) {
    && (forall g: GraphField :: l.values(g) != 0)
    && l.values(Hops) <= 2
    && (l.values(Hops) == 1 ==> !l.defaultHops && !l.evalHops)
  }

  predicate StoreLimitValid(t: StoreTable) {
    && (forall s: StoreField :: t(s) != 0)
    && t(SnapshotBytes) >= 2
    && t(KeyBytes) >= t(NamespaceBytes) && t(EventKeyBytes) >= t(NamespaceBytes)
    && t(KvEntries) >= ENVELOPE
  }

  predicate LimitsValid(l: Limits) {
    && (l.graph.Some? ==> GraphLimitValid(l.graph.value))
    && (l.facet.Some? ==> forall g: FacetField :: l.facet.value(g) != 0)
    && (l.delivery.Some? ==>
          (forall g: DeliveryField :: l.delivery.value(g) != 0) &&
          l.delivery.value(Rendered) <= l.delivery.value(Selected))
    && (l.transcript.Some? ==>
          (forall g: TranscriptField :: l.transcript.value(g) != 0) &&
          l.transcript.value(MessageAttrs) <= l.transcript.value(TurnAttrs))
    && (l.store.Some? ==> StoreLimitValid(l.store.value))
  }

  function At<F>(limit: Option<F -> nat>, f: F, value: nat): nat {
    if limit.Some? then Min(value, limit.value(f)) else value
  }

  function LimitedValue(l: Limits, f: Field, value: nat): nat {
    match f
    case Graph(g) => if l.graph.Some? then Min(value, l.graph.value.values(g)) else value
    case Facet(g) => At(l.facet, g, value)
    case Delivery(g) => At(l.delivery, g, value)
    case Transcript(g) => At(l.transcript, g, value)
    case Store(g) => At(l.store, g, value)
    case _ => value
  }

  function LimitedValues(l: Limits, values: Table): Table {
    (f: Field) => LimitedValue(l, f, values(f))
  }

  function InsertLabel(sorted: seq<string>, text: string): seq<string> {
    if sorted == [] || Text.Less(text, sorted[0]) then [text] + sorted
    else if sorted[0] == text then sorted
    else [sorted[0]] + InsertLabel(sorted[1..], text)
  }

  /** Sorted, without repetitions. */
  function SortedLabels(labels: seq<string>): seq<string> {
    if labels == [] then [] else InsertLabel(SortedLabels(labels[1..]), labels[0])
  }

  ghost predicate StrictlyOrdered(labels: seq<string>) {
    forall i, j | 0 <= i < j < |labels| :: Text.Less(labels[i], labels[j])
  }

  lemma {:induction false} InsertLabelKeeps(sorted: seq<string>, text: string)
    requires StrictlyOrdered(sorted)
    ensures StrictlyOrdered(InsertLabel(sorted, text))
    ensures forall x :: x in InsertLabel(sorted, text) <==> x == text || x in sorted
  {
    if sorted != [] {
      Text.LessTotal(text, sorted[0]);
      if Text.Less(text, sorted[0]) {
        forall i | 0 < i < |sorted| ensures Text.Less(text, sorted[i]) {
          Text.LessTransitive(text, sorted[0], sorted[i]);
        }
      } else if text != sorted[0] {
        InsertLabelKeeps(sorted[1..], text);
        forall x | x in InsertLabel(sorted[1..], text) ensures Text.Less(sorted[0], x) {
        }
      }
      assert sorted == [sorted[0]] + sorted[1..];
    }
  }

  /** Sorting labels keeps exactly the labels, in order, once each. */
  lemma {:induction false} SortedLabelsKeep(labels: seq<string>)
    ensures StrictlyOrdered(SortedLabels(labels))
    ensures forall x :: x in SortedLabels(labels) <==> x in labels
  {
    if labels != [] {
      SortedLabelsKeep(labels[1..]);
      InsertLabelKeeps(SortedLabels(labels[1..]), labels[0]);
      assert labels == [labels[0]] + labels[1..];
    }
  }

  predicate GraphBinds(l: Limits, r: Report) {
    && l.graph.Some?
    && (|| (exists g: GraphField :: l.graph.value.values(g) < r.values(Graph(g)))
        || (r.defaultHops && !l.graph.value.defaultHops) || (r.evalHops && !l.graph.value.evalHops))
  }

  function LimitLabels(l: Limits, r: Report): seq<string> {
    When(GraphBinds(l, r), "nonproduction_graph_expansion_limit") +
    When(l.facet.Some? && exists g: FacetField :: l.facet.value(g) < r.values(Facet(g)),
         "nonproduction_facet_recall_limit") +
    When(l.delivery.Some? && exists g: DeliveryField :: l.delivery.value(g) < r.values(Delivery(g)),
         "nonproduction_recall_delivery_limit") +
    When(l.transcript.Some? && exists g: TranscriptField :: l.transcript.value(g) < r.values(Transcript(g)),
         "nonproduction_transcript_governance_limit") +
    When(l.store.Some? && exists g: StoreField :: l.store.value(g) < r.values(Store(g)),
         "nonproduction_store_budget_limit")
  }

  function ApplyLimits(digest: Digest, r: Report, l: Limits): Report {
    var values := LimitedValues(l, r.values);
    Finalize(digest, r.(values := values,
                        defaultHops := r.defaultHops && (l.graph.Some? ==> l.graph.value.defaultHops),
                        evalHops := r.evalHops && (l.graph.Some? ==> l.graph.value.evalHops),
                        evidence := EvidenceOf(values),
                        limitedBy := SortedLabels(r.limitedBy + LimitLabels(l, r))))
  }

  /** The limit put on a field, if there is one. */
  function LimitOn(l: Limits, f: Field): Option<nat> {
    if f.Graph? && l.graph.Some? then Some(l.graph.value.values(f.graph))
    else if f.Facet? && l.facet.Some? then Some(l.facet.value(f.facet))
    else if f.Delivery? && l.delivery.Some? then Some(l.delivery.value(f.delivery))
    else if f.Transcript? && l.transcript.Some? then Some(l.transcript.value(f.transcript))
    else if f.Store? && l.store.Some? then Some(l.store.value(f.store))
    else None
  }

  /** Limits lower each field to its limit and nothing else, and forbid what they do not allow. */
  lemma LimitsExactly(digest: Digest, r: Report, l: Limits, f: Field)
    ensures var limited := ApplyLimits(digest, r, l);
      && (LimitOn(l, f).None? ==> limited.values(f) == r.values(f))
      && (LimitOn(l, f).Some? ==>
            limited.values(f) <= r.values(f) && limited.values(f) <= LimitOn(l, f).value
            && limited.values(f) in {r.values(f), LimitOn(l, f).value})
      && (limited.defaultHops <==> r.defaultHops && (l.graph.None? || l.graph.value.defaultHops))
      && (limited.evalHops <==> r.evalHops && (l.graph.None? || l.graph.value.evalHops))
      && limited.input == r.input && limited.unavailableReasons == r.unavailableReasons
  {
  }

  /** Each limit has its own label, there exactly if the limit is below the value of one of its fields. */
  lemma LimitLabelPlaces(l: Limits, r: Report, text: string)
    ensures text in LimitLabels(l, r) <==>
            || (text == "nonproduction_graph_expansion_limit" && GraphBinds(l, r))
            || (text == "nonproduction_facet_recall_limit" && l.facet.Some? &&
                exists g: FacetField :: l.facet.value(g) < r.values(Facet(g)))
            || (text == "nonproduction_recall_delivery_limit" && l.delivery.Some? &&
                exists g: DeliveryField :: l.delivery.value(g) < r.values(Delivery(g)))
            || (text == "nonproduction_transcript_governance_limit" && l.transcript.Some? &&
                exists g: TranscriptField :: l.transcript.value(g) < r.values(Transcript(g)))
            || (text == "nonproduction_store_budget_limit" && l.store.Some? &&
                exists g: StoreField :: l.store.value(g) < r.values(Store(g)))
  {
  }

  /** No label is lost, and those of the limits that bind are added. */
  lemma LimitIsExplained(digest: Digest, r: Report, l: Limits, text: string)
    ensures text in ApplyLimits(digest, r, l).limitedBy <==> text in r.limitedBy || text in LimitLabels(l, r)
  {
    SortedLabelsKeep(r.limitedBy + LimitLabels(l, r));
  }

  // ---------------------------------------------------------------- the admission ceiling

  function StoreOf(values: Table): StoreTable {
    (s: StoreField) => values(Store(s))
  }

  function CappedValues(ceiling: StoreTable, values: Table): Table {
    (f: Field) => if f.Store? then Min(values(f), ceiling(f.store)) else values(f)
  }

  predicate CeilingBinds(ceiling: StoreTable, values: Table) {
    exists s: StoreField :: ceiling(s) < values(Store(s))
  }

  function ApplyCeiling(digest: Digest, r: Report, ceiling: StoreTable): Report {
    if CeilingBinds(ceiling, r.values) then
      var values := CappedValues(ceiling, r.values);
      Finalize(digest, r.(values := values, evidence := EvidenceOf(values),
                          limitedBy := SortedLabels(r.limitedBy + [CEILING_LABEL])))
    else r
  }

  /** The ceiling holds, is exact, and applying it again does nothing. */
  lemma CeilingIsIdempotent(digest: Digest, r: Report, ceiling: StoreTable)
    ensures forall f: Field ::
              ApplyCeiling(digest, r, ceiling).values(f)
              == if f.Store? then Min(r.values(f), ceiling(f.store)) else r.values(f)
    ensures ApplyCeiling(digest, ApplyCeiling(digest, r, ceiling), ceiling) == ApplyCeiling(digest, r, ceiling)
  {
    var capped := ApplyCeiling(digest, r, ceiling);
    if CeilingBinds(ceiling, r.values) {
      assert forall s: StoreField :: capped.values(Store(s)) == Min(r.values(Store(s)), ceiling(s));
      assert !CeilingBinds(ceiling, capped.values);
    } else {
      assert forall s: StoreField :: ceiling(s) >= r.values(Store(s));
    }
  }

  const CEILING_LABEL: string := "runtime_store_admission_ceiling"

  /** The ceiling is named as a limit exactly when it lowered a store field, and no other label is lost. */
  lemma CeilingIsExplained(digest: Digest, r: Report, ceiling: StoreTable)
    requires CEILING_LABEL !in r.limitedBy
    ensures CEILING_LABEL in ApplyCeiling(digest, r, ceiling).limitedBy <==>
            exists s: StoreField :: ApplyCeiling(digest, r, ceiling).values(Store(s)) != r.values(Store(s))
    ensures forall x | x != CEILING_LABEL :: x in ApplyCeiling(digest, r, ceiling).limitedBy <==> x in r.limitedBy
  {
    SortedLabelsKeep(r.limitedBy + [CEILING_LABEL]);
    if CeilingBinds(ceiling, r.values) {
      var s: StoreField :| ceiling(s) < r.values(Store(s));
      assert ApplyCeiling(digest, r, ceiling).values(Store(s)) == ceiling(s);
    }
  }

  // ---------------------------------------------------------------- well-formed budgets

  /** No field is zero, unless a provider limit of zero leaves nothing to render. */
  ghost predicate Positive(t: Table) {
    forall f: Field :: Origin(f) != Render ==> t(f) >= 1
  }

  predicate KeysFit(t: Table) {
    t(Store(NamespaceBytes)) <= t(Store(KeyBytes)) && t(Store(NamespaceBytes)) <= t(Store(EventKeyBytes))
  }

  predicate HopsFit(t: Table, defaultHops: bool, evalHops: bool) {
    1 <= t(Graph(Hops)) <= 2 && (defaultHops || evalHops ==> t(Graph(Hops)) == 2)
  }

  ghost predicate TableFits(t: Table, defaultHops: bool, evalHops: bool) {
    && Positive(t)
    && KeysFit(t)
    && HopsFit(t, defaultHops, evalHops)
    && t(Delivery(Rendered)) <= t(Delivery(Selected))
    && t(Transcript(MessageAttrs)) <= t(Transcript(TurnAttrs))
    && t(Store(SnapshotBytes)) >= 2
  }

  ghost predicate WellFormed(r: Report) {
    TableFits(r.values, r.defaultHops, r.evalHops) && r.evidence == EvidenceOf(r.values)
  }

  /** What well-formed store, job and core budgets mean for evidence documents. */
  lemma EvidenceFits(r: Report)
    requires WellFormed(r)
    ensures var e := r.evidence;
      && 1 <= e.chunk <= e.body <= e.document <= e.totalBytes == r.values(Store(SnapshotBytes)) / 2
      && 1 <= e.chunks && 1 <= e.perTransaction == e.perRead
      && (e.perTransaction * ENVELOPE <= r.values(Store(KvEntries)) <==> ENVELOPE <= r.values(Store(KvEntries)))
  {
    assert r.values(Core(WorkingSet)) >= 1;
  }

  lemma ScaledTogether(a: nat, b: nat, floor: nat, floor': nat, p: nat)
    requires a <= b && floor <= floor'
    ensures Max(Scale(a, p), floor) <= Max(Scale(b, p), floor')
  {
    assert a * p <= b * p;
  }

  /** Rendered capsules are scaled with the candidates they come from. */
  lemma RenderedFits(i: Input)
    ensures Value(i, Delivery(Rendered)) <= Value(i, Delivery(Selected))
  {
    var s := SpecOf(i.profile);
    ScaledTogether(Max(s.sourceChars / 512, 2), Max(s.sourceChars / 128, 8), 1, 4,
                   Percent(i.snapshot, i.manifest, BySource));
  }

  lemma CompileIsPositive(i: Input)
    ensures Positive(Values(i))
  {
    forall f: Field | Origin(f) != Render ensures Values(i)(f) >= 1 {
      ProfilesAreRoomy(i.profile);
      FloorBelowCeiling(SpecOf(i.profile), f);
      ValueBounds(i, f);
    }
  }

  lemma CompiledKeysFit(i: Input)
    ensures KeysFit(Values(i)) && Values(i)(Store(SnapshotBytes)) >= 2
  {
    ValueBounds(i, Store(NamespaceBytes));
    ValueBounds(i, Store(KeyBytes));
    ValueBounds(i, Store(EventKeyBytes));
    ValueBounds(i, Store(SnapshotBytes));
  }

  lemma CompiledHopsFit(i: Input)
    ensures HopsFit(Values(i), SpecOf(i.profile).defaultHops, SpecOf(i.profile).evalHops)
  {
    ProfilesAreRoomy(i.profile);
  }

  lemma CompiledAttrsFit(i: Input)
    ensures Value(i, Transcript(MessageAttrs)) <= Value(i, Transcript(TurnAttrs))
  {
  }

  lemma CompiledTableFits(i: Input, t: Table)
    requires t == Values(i)
    ensures TableFits(t, SpecOf(i.profile).defaultHops, SpecOf(i.profile).evalHops)
  {
    CompileIsPositive(i);
    CompiledKeysFit(i);
    CompiledHopsFit(i);
    RenderedFits(i);
    CompiledAttrsFit(i);
    assert t(Delivery(Rendered)) == Value(i, Delivery(Rendered))
      && t(Delivery(Selected)) == Value(i, Delivery(Selected));
    assert t(Transcript(MessageAttrs)) == Value(i, Transcript(MessageAttrs));
  }

  lemma CompileIsWellFormed(digest: Digest, i: Input)
    ensures WellFormed(Compile(digest, i))
  {
    CompiledTableFits(i, Values(i));
  }

  lemma LimitsKeepPositive(l: Limits, values: Table)
    requires LimitsValid(l) && Positive(values)
    ensures Positive(LimitedValues(l, values))
  {
  }

  lemma LimitsKeepWellFormed(digest: Digest, r: Report, l: Limits)
    requires WellFormed(r) && LimitsValid(l)
    ensures WellFormed(ApplyLimits(digest, r, l))
  {
    LimitsKeepPositive(l, r.values);
    assert 1 <= r.values(Graph(Hops));
  }

  /** The ceiling is fit to be the store budget of a well-formed report. */
  ghost predicate CeilingSound(ceiling: StoreTable) {
    && (forall s: StoreField :: ceiling(s) >= 1)
    && ceiling(SnapshotBytes) >= 2
    && ceiling(NamespaceBytes) <= ceiling(KeyBytes) && ceiling(NamespaceBytes) <= ceiling(EventKeyBytes)
  }

  lemma CappedFits(t: Table, defaultHops: bool, evalHops: bool, ceiling: StoreTable)
    requires TableFits(t, defaultHops, evalHops) && CeilingSound(ceiling)
    ensures TableFits(CappedValues(ceiling, t), defaultHops, evalHops)
  {
    assert t(Store(SnapshotBytes)) >= 2;
  }

  lemma CeilingKeepsWellFormed(digest: Digest, r: Report, ceiling: StoreTable)
    requires WellFormed(r) && CeilingSound(ceiling)
    ensures WellFormed(ApplyCeiling(digest, r, ceiling))
  {
    if CeilingBinds(ceiling, r.values) {
      CappedFits(r.values, r.defaultHops, r.evalHops, ceiling);
    }
  }

  // ---------------------------------------------------------------- snapshots

  predicate Expired(s: Snapshot, now: nat) {
    now < s.observedAt || now - s.observedAt >= (s.ttlMs + 999) / 1000
  }

  /** What stands in for a snapshot the probe could not give. */
  function Unavailable(now: nat, source: ProbeSource, reason: Reason, detail: string): Snapshot {
    Snapshot(source, now, 30000, false, Cautious, None, None, None, None, None, None, None, None, None, None, None,
             Some(reason), Some(detail))
  }

  function MarkStale(s: Snapshot): Snapshot {
    s.(stale := true, pressure := if s.pressure.Normal? then Cautious else s.pressure,
       unavailable := Some(SnapshotStale))
  }

  /** A snapshot marked stale never buys more than the fresh one. */
  lemma StaleBuysNoMore(digest: Digest, i: Input)
    ensures AtMost(Compile(digest, i.(snapshot := MarkStale(i.snapshot))).values, Compile(digest, i).values)
  {
    CompileMonotone(digest, i.(snapshot := MarkStale(i.snapshot)), i);
  }

  /** `None` of the facts, or all of them with each bound kept. */
  predicate HeapValid(s: Snapshot) {
    if s.unavailable.Some? && s.heapFree.None? && s.heapMinimum.None? && s.heapLargest.None? then true
    else
      && s.heapFree.Some? && s.heapMinimum.Some? && s.heapLargest.Some?
      && s.heapMinimum.value <= s.heapFree.value && s.heapLargest.value <= s.heapFree.value
  }

  predicate PsramValid(s: Snapshot) {
    if s.psramTotal.None? && s.psramFree.None? && s.psramLargest.None? then true
    else
      && s.psramTotal.Some? && s.psramFree.Some? && s.psramLargest.Some?
      && s.psramFree.value <= s.psramTotal.value && s.psramLargest.value <= s.psramFree.value
  }

  predicate StorageValid(s: Snapshot) {
    if s.unavailable.Some? && s.storageTotal.None? && s.storageAvailable.None? then true
    else s.storageTotal.Some? && s.storageAvailable.Some? && s.storageAvailable.value <= s.storageTotal.value
  }

  predicate EspValid(s: Snapshot) {
    && s.memoryTotal.None? && s.memoryAvailable.None?
    && (s.unavailable.Some? ==> s.parallelism.None?)
    && HeapValid(s) && PsramValid(s) && StorageValid(s)
  }

  predicate HostValid(s: Snapshot, medium: Medium) {
    && s.heapFree.None? && s.heapMinimum.None? && s.heapLargest.None?
    && s.psramTotal.None? && s.psramFree.None? && s.psramLargest.None?
    && (s.memoryTotal.Some? && s.memoryAvailable.Some? ==> s.memoryAvailable.value <= s.memoryTotal.value)
    && (medium.PersistentFilesystem? ==> StorageValid(s))
  }

  datatype Config = Config(profile: Profile, manifest: Manifest, promptCap: Option<nat>, limits: Option<Limits>,
      source: ProbeSource)

  /** The checks on a fresh snapshot; being expired already is not among them. */
  predicate SnapshotValid(c: Config, s: Snapshot, now: nat) {
    && s.ttlMs != 0 && s.observedAt <= now && !s.stale && s.source == c.source
    && if TargetOf(c.profile).Esp? then EspValid(s) else HostValid(s, c.manifest.medium)
  }

  // ---------------------------------------------------------------- the authority

  /** What profile, manifest, provider limit and compile mode make of a snapshot, before the admission ceiling. */
  type Compiler = Snapshot -> Report

  function LimitedReport(digest: Digest, c: Config, s: Snapshot): Report {
    var compiled := Compile(digest, Input(c.profile, s, c.manifest, c.promptCap));
    if c.limits.Some? then ApplyLimits(digest, compiled, c.limits.value) else compiled
  }

  function CompilerOf(digest: Digest, c: Config): Compiler {
    (s: Snapshot) => LimitedReport(digest, c, s)
  }

  datatype Authority = Authority(config: Config, ceiling: StoreTable, snapshot: Snapshot, report: Report)

  datatype Answer = Observed(snapshot: Snapshot) | ProbeError(text: string)

  /** The first report is not capped; its store budget becomes the ceiling of every later one. */
  function First(compile: Compiler, c: Config, s: Snapshot): Authority {
    Authority(c, StoreOf(compile(s).values), s, compile(s))
  }

  function Replaced(digest: Digest, compile: Compiler, a: Authority, s: Snapshot): Authority {
    a.(snapshot := s, report := ApplyCeiling(digest, compile(s), a.ceiling))
  }

  function Usable(c: Config, answer: Answer, now: nat): Option<Snapshot> {
    if answer.Observed? && SnapshotValid(c, answer.snapshot, now) then Some(answer.snapshot) else None
  }

  /** `due` says whether the monotonic refresh deadline has passed. */
  predicate NeedsRefresh(s: Snapshot, now: nat, due: bool) {
    s.stale || Expired(s, now) || due
  }

  datatype Call = CurrentReport(now: nat, due: bool, answer: Answer) | Refresh(now: nat, answer: Answer)

  function Substitute(c: Config, answer: Answer, now: nat): Snapshot {
    Unavailable(now, c.source, ProbeFailed,
                "automatic_refresh_failed:" + if answer.ProbeError? then answer.text else "invalid_snapshot")
  }

  /** The snapshot a call installs, if it installs one. */
  function Installed(c: Config, held: Snapshot, call: Call): Option<Snapshot> {
    var usable := Usable(c, call.answer, call.now);
    match call
    case CurrentReport(now, due, answer) =>
      if !NeedsRefresh(held, now, due) then None
      else if usable.Some? then usable
      else Some(Substitute(c, answer, now))
    case Refresh(_, _) => usable
  }

  function Next(digest: Digest, compile: Compiler, a: Authority, call: Call): Authority {
    match Installed(a.config, a.snapshot, call)
    case None => a
    case Some(s) => Replaced(digest, compile, a, s)
  }

  function Run(digest: Digest, compile: Compiler, a: Authority, calls: seq<Call>): Authority
    decreases |calls|
  {
    if calls == [] then a else Run(digest, compile, Next(digest, compile, a, calls[0]), calls[1..])
  }

  // ---------------------------------------------------------------- what every run keeps

  predicate Covers(digest: Digest, r: Report) {
    r.id == digest(r.(id := ""))
  }

  /** A well-formed report of the snapshot, identified by its payload. */
  ghost predicate GoodReport(digest: Digest, r: Report, s: Snapshot) {
    WellFormed(r) && Covers(digest, r) && r.input.snapshot == s
  }

  ghost predicate CompilesWell(digest: Digest, compile: Compiler) {
    forall s {:trigger GoodReport(digest, compile(s), s)} :: GoodReport(digest, compile(s), s)
  }

  ghost predicate Sound(digest: Digest, compile: Compiler, a: Authority) {
    && CompilesWell(digest, compile)
    && CeilingSound(a.ceiling)
    && a.report == ApplyCeiling(digest, compile(a.snapshot), a.ceiling)
  }

  predicate Configured(c: Config) {
    c.limits.Some? ==> LimitsValid(c.limits.value)
  }

  lemma LimitedReportIsGood(digest: Digest, c: Config, s: Snapshot)
    requires Configured(c)
    ensures GoodReport(digest, LimitedReport(digest, c, s), s)
  {
    var i := Input(c.profile, s, c.manifest, c.promptCap);
    CompileIsWellFormed(digest, i);
    if c.limits.Some? {
      LimitsKeepWellFormed(digest, Compile(digest, i), c.limits.value);
    }
  }

  lemma CompilerIsGood(digest: Digest, c: Config)
    requires Configured(c)
    ensures CompilesWell(digest, CompilerOf(digest, c))
  {
    forall s ensures GoodReport(digest, CompilerOf(digest, c)(s), s) {
      LimitedReportIsGood(digest, c, s);
    }
  }

  lemma OwnStoreIsSound(r: Report)
    requires WellFormed(r)
    ensures CeilingSound(StoreOf(r.values)) && !CeilingBinds(StoreOf(r.values), r.values)
  {
    assert forall s: StoreField :: r.values(Store(s)) >= 1;
  }

  lemma FirstIsSound(digest: Digest, compile: Compiler, c: Config, s: Snapshot)
    requires CompilesWell(digest, compile)
    ensures Sound(digest, compile, First(compile, c, s))
  {
    assert GoodReport(digest, compile(s), s);
    OwnStoreIsSound(compile(s));
  }

  lemma NextIsSound(digest: Digest, compile: Compiler, a: Authority, call: Call)
    requires Sound(digest, compile, a)
    ensures Sound(digest, compile, Next(digest, compile, a, call))
    ensures Next(digest, compile, a, call).ceiling == a.ceiling && Next(digest, compile, a, call).config == a.config
  {
  }

  lemma {:induction false} RunIsSound(digest: Digest, compile: Compiler, a: Authority, calls: seq<Call>)
    requires Sound(digest, compile, a)
    ensures Sound(digest, compile, Run(digest, compile, a, calls))
    ensures Run(digest, compile, a, calls).ceiling == a.ceiling && Run(digest, compile, a, calls).config == a.config
    decreases |calls|
  {
    if calls != [] {
      NextIsSound(digest, compile, a, calls[0]);
      RunIsSound(digest, compile, Next(digest, compile, a, calls[0]), calls[1..]);
    }
  }

  lemma HeldIsGood(digest: Digest, compile: Compiler, a: Authority)
    requires Sound(digest, compile, a)
    ensures GoodReport(digest, a.report, a.snapshot)
    ensures forall f: StoreField :: a.report.values(Store(f)) <= a.ceiling(f)
  {
    var limited := compile(a.snapshot);
    assert GoodReport(digest, limited, a.snapshot);
    CeilingKeepsWellFormed(digest, limited, a.ceiling);
    CeilingIsIdempotent(digest, limited, a.ceiling);
  }

  /** The report held after any run: compiled from the held snapshot, capped by the first store budget,
      well-formed and identified by its payload. */
  lemma HeldReportIsGood(digest: Digest, c: Config, s: Snapshot, calls: seq<Call>)
    requires Configured(c)
    ensures var compile := CompilerOf(digest, c);
      var first, held := First(compile, c, s), Run(digest, compile, First(compile, c, s), calls);
      && held.report == ApplyCeiling(digest, compile(held.snapshot), first.ceiling)
      && GoodReport(digest, held.report, held.snapshot)
      && (forall f: StoreField :: held.report.values(Store(f)) <= first.ceiling(f))
  {
    CompilerIsGood(digest, c);
    HeldAfterRun(digest, CompilerOf(digest, c), c, s, calls);
  }

  lemma HeldAfterRun(digest: Digest, compile: Compiler, c: Config, s: Snapshot, calls: seq<Call>)
    requires CompilesWell(digest, compile)
    ensures var first, held := First(compile, c, s), Run(digest, compile, First(compile, c, s), calls);
      && held.report == ApplyCeiling(digest, compile(held.snapshot), first.ceiling)
      && GoodReport(digest, held.report, held.snapshot)
      && (forall f: StoreField :: held.report.values(Store(f)) <= first.ceiling(f))
  {
    FirstIsSound(digest, compile, c, s);
    RunIsSound(digest, compile, First(compile, c, s), calls);
    HeldIsGood(digest, compile, Run(digest, compile, First(compile, c, s), calls));
  }

  /** The check a transaction makes before it trusts a report. */
  predicate Admissible(digest: Digest, r: Report, now: nat) {
    Covers(digest, r) && !r.input.snapshot.stale && !Expired(r.input.snapshot, now)
  }

  /** The probe answered with a snapshot that passes every check although it has expired already. */
  predicate BornExpired(c: Config, held: Snapshot, now: nat, due: bool, answer: Answer) {
    NeedsRefresh(held, now, due) && Usable(c, answer, now).Some? && Expired(answer.snapshot, now)
  }

  lemma SnapshotDecides(c: Config, held: Snapshot, now: nat, due: bool, answer: Answer)
    ensures var installed := Installed(c, held, CurrentReport(now, due, answer));
      var s := if installed.Some? then installed.value else held;
      !s.stale && !Expired(s, now) <==> !BornExpired(c, held, now, due, answer)
  {
  }

  lemma CurrentIsAdmissible(digest: Digest, compile: Compiler, a: Authority, now: nat, due: bool, answer: Answer)
    requires Sound(digest, compile, a)
    ensures Admissible(digest, Next(digest, compile, a, CurrentReport(now, due, answer)).report, now) <==>
            !BornExpired(a.config, a.snapshot, now, due, answer)
  {
    var call := CurrentReport(now, due, answer);
    NextIsSound(digest, compile, a, call);
    HeldIsGood(digest, compile, Next(digest, compile, a, call));
    SnapshotDecides(a.config, a.snapshot, now, due, answer);
  }

  /** A report just asked for is admissible, except exactly when the probe's own answer had expired. */
  lemma CurrentReportIsAdmissible(digest: Digest, c: Config, s: Snapshot, calls: seq<Call>, now: nat, due: bool,
                                  answer: Answer)
    requires Configured(c)
    ensures var compile := CompilerOf(digest, c);
      var a := Run(digest, compile, First(compile, c, s), calls);
      Admissible(digest, Next(digest, compile, a, CurrentReport(now, due, answer)).report, now) <==>
      !BornExpired(c, a.snapshot, now, due, answer)
  {
    var compile := CompilerOf(digest, c);
    CompilerIsGood(digest, c);
    FirstIsSound(digest, compile, c, s);
    RunIsSound(digest, compile, First(compile, c, s), calls);
    CurrentIsAdmissible(digest, compile, Run(digest, compile, First(compile, c, s), calls), now, due, answer);
  }

  // ---------------------------------------------------------------- the authority as an object

  predicate AcceptsSource(target: Target, source: ProbeSource) {
    match target
    case Esp => source.FirmwareManifest?
    case DesktopMacos => source.HostMacos?
    case DesktopWindows => source.HostWindows?
    case LinuxDevice | DesktopLinux | ServerLinux => source.HostLinux?
  }

  /** What a host probe watches: nothing for firmware, else memory alone or a filesystem too. */
  datatype Watched = Firmware | HostMemory | HostFilesystem

  predicate ConfigurationValid(c: Config, watched: Watched, harness: bool) {
    && c.manifest.profile == c.profile
    && c.manifest.target == TargetOf(c.profile) && c.manifest.role == RoleOf(c.profile)
    && (RoleOf(c.profile).DevelopmentFull? ==> harness)
    && AcceptsSource(TargetOf(c.profile), c.source)
    && (match watched
        case Firmware => c.source.FirmwareManifest? && !c.manifest.medium.PersistentFilesystem?
        case HostMemory => !c.source.FirmwareManifest? && c.manifest.medium.VolatileMemory?
        case HostFilesystem => !c.source.FirmwareManifest? && c.manifest.medium.PersistentFilesystem?)
  }

  /** An authority that may be opened, and an answer of its probe that expired nine seconds before it was given. */
  lemma AnswerMayBeExpired() returns (c: Config, s: Snapshot)
    ensures Configured(c) && ConfigurationValid(c, HostMemory, false) && Usable(c, Observed(s), 0) == Some(s)
    ensures BornExpired(c, s, 10, true, Observed(s))
  {
    c := Config(DesktopLinuxEmbeddedSdk,
                Manifest(DesktopLinuxEmbeddedSdk, DesktopLinux, EmbeddedSdk, VolatileMemory, 0, 0),
                None, None, HostLinux);
    s := Snapshot(HostLinux, 0, 1000, false, Normal, None, None, None, None, None, None, None, None, None, None, None,
                  None, None);
  }

  /** The report such an answer leads to is not admissible, although the authority has just returned it. */
  lemma ExpiredAnswerIsInstalled(digest: Digest) returns (c: Config, s: Snapshot)
    ensures Configured(c) && ConfigurationValid(c, HostMemory, false) && Usable(c, Observed(s), 0) == Some(s)
    ensures var compile := CompilerOf(digest, c);
      !Admissible(digest, Next(digest, compile, First(compile, c, s), CurrentReport(10, true, Observed(s))).report, 10)
  {
    c, s := AnswerMayBeExpired();
    CurrentReportIsAdmissible(digest, c, s, [], 10, true, Observed(s));
  }

  class RuntimeBudgetAuthority {
    const digest: Digest
    const compile: Compiler
    const config: Config
    const ceiling: StoreTable
    var snapshot: Snapshot
    var report: Report

    ghost function State(): Authority
      reads this
    {
      Authority(config, ceiling, snapshot, report)
    }

    ghost predicate Valid()
      reads this
    {
      Sound(digest, compile, State())
    }

    constructor (digest: Digest, compile: Compiler, config: Config, first: Snapshot)
      requires CompilesWell(digest, compile)
      ensures Valid() && this.digest == digest && this.compile == compile && State() == First(compile, config, first)
    {
      FirstIsSound(digest, compile, config, first);
      this.digest, this.compile, this.config, ceiling := digest, compile, config, StoreOf(compile(first).values);
      snapshot, report := first, compile(first);
    }

    /** Replaces snapshot and report together. */
    method Install(s: Snapshot)
      requires Valid()
      modifies this
      ensures Valid() && snapshot == s && report == ApplyCeiling(digest, compile(s), ceiling)
    {
      report := ApplyCeiling(digest, compile(s), ceiling);
      snapshot := s;
    }

    method Current(now: nat, due: bool, answer: Answer) returns (r: Report)
      requires Valid()
      modifies this
      ensures Valid() && r == report && State() == Next(digest, compile, old(State()), CurrentReport(now, due, answer))
      ensures Admissible(digest, r, now) <==> !BornExpired(config, old(snapshot), now, due, answer)
    {
      CurrentIsAdmissible(digest, compile, State(), now, due, answer);
      if snapshot.stale || Expired(snapshot, now) || due {
        if answer.Observed? && SnapshotValid(config, answer.snapshot, now) {
          Install(answer.snapshot);
        } else {
          Install(Substitute(config, answer, now));
        }
      }
      return report;
    }

    /** A refresh that fails changes nothing. */
    method Renew(now: nat, answer: Answer) returns (r: Option<Report>)
      requires Valid()
      modifies this
      ensures Valid() && State() == Next(digest, compile, old(State()), Refresh(now, answer))
      ensures r == if Usable(config, answer, now).Some? then Some(report) else None
      ensures r.None? ==> report == old(report) && snapshot == old(snapshot)
    {
      if answer.ProbeError? || !SnapshotValid(config, answer.snapshot, now) {
        return None;
      }
      Install(answer.snapshot);
      return Some(report);
    }
  }

  /** An authority exists only for valid limits, a valid configuration and a first snapshot that passes every check. */
  method Open(digest: Digest, config: Config, watched: Watched, harness: bool, now: nat, answer: Answer)
    returns (r: Option<RuntimeBudgetAuthority>)
    ensures r.Some? <==>
      Configured(config) && ConfigurationValid(config, watched, harness) && Usable(config, answer, now).Some?
    ensures r.Some? ==> fresh(r.value) && r.value.Valid() &&
                        r.value.State() == First(CompilerOf(digest, config), config, answer.snapshot)
  {
    if !Configured(config) || !ConfigurationValid(config, watched, harness) || answer.ProbeError? ||
       !SnapshotValid(config, answer.snapshot, now)
    {
      return None;
    }
    CompilerIsGood(digest, config);
    var authority := new RuntimeBudgetAuthority(digest, CompilerOf(digest, config), config, answer.snapshot);
    return Some(authority);
  }
}
