/** The runtime metrics report: a fold over lifecycle summaries and raw write events.

    Folds run from the front with the state as an accumulator, so a loop that has consumed a prefix
    has the rest of the fold left to do. The ordered map of raw write transactions is its list of
    entries in key order. */
module RuntimeMetrics {

  import opened Wrappers
  import opened MetricEvents
  import Text

  const MAX: nat := Text.U64_MAX

  datatype Evidence = Evidence(stores: nat, input: nat, admitted: nat, duplicates: nat)

  datatype Error =
    | EvidenceMismatch
    | EventIdentity
    | CompletionUntyped
    | CompletionResult
    | CompletionFinalize
    | CompletionTerminal
    | PayloadUntyped(key: string)
    | PayloadMissing(key: string)
    | HitCountMismatch
    | WriteSummary
    | WriteChangedCount
    | TransactionMissing
    | TransactionRepeated
    | RawSpansTimestamps
    | ZeroChangeOwnsWrite
    | TransactionSpansTimestamps

  type Checked<+T> = Result<T, Error>

  // ---------------------------------------------------------------- typed payload

  function Field(p: Payload, key: string): string {
    if key in p then p[key] else ""
  }

  function OptionalBool(p: Payload, key: string): (r: Checked<Option<bool>>)
    ensures r.Ok? <==> IsFlag(p, key)
    ensures r == Ok(Some(true)) <==> Is(p, key, "true")
    ensures r == Ok(Some(false)) <==> Is(p, key, "false")
  {
    match Field(p, key)
    case "" => Ok(None)
    case "true" => Ok(Some(true))
    case "false" => Ok(Some(false))
    case _ => Err(PayloadUntyped(key))
  }

  function RequiredBool(p: Payload, key: string): (r: Checked<bool>)
    ensures r.Ok? <==> IsBool(p, key)
    ensures r == Ok(true) <==> Is(p, key, "true")
  {
    var found :- OptionalBool(p, key);
    match found
    case None => Err(PayloadMissing(key))
    case Some(b) => Ok(b)
  }

  function Flag(p: Payload, key: string): (r: Checked<bool>)
    ensures r.Ok? <==> IsFlag(p, key)
    ensures r == Ok(true) <==> Is(p, key, "true")
  {
    var found :- OptionalBool(p, key);
    Ok(found == Some(true))
  }

  function OptionalU64(p: Payload, key: string): (r: Checked<Option<nat>>)
    ensures r.Ok? <==> Blank(p, key) || IsNumber(p, key)
    ensures IsNumber(p, key) ==> r == Ok(Some(Number(p, key)))
    ensures Blank(p, key) ==> r == Ok(None)
  {
    if Field(p, key) == "" then Ok(None)
    else
      match Text.ParseU64(Field(p, key))
      case None => Err(PayloadUntyped(key))
      case Some(n) => Ok(Some(n))
  }

  function RequiredU64(p: Payload, key: string): (r: Checked<nat>)
    ensures r.Ok? <==> IsNumber(p, key)
    ensures r.Ok? ==> r.value == Number(p, key)
  {
    var found :- OptionalU64(p, key);
    match found
    case None => Err(PayloadMissing(key))
    case Some(n) => Ok(n)
  }

  predicate IsWriteOperation(s: string) {
    "write." <= s
  }

  // ---------------------------------------------------------------- lifecycle events

  /** Whether a lifecycle event reports an outcome only a successful call can have. */
  function ClaimsSuccess(e: Event): (r: Checked<bool>)
    ensures IsFlag(e.payload, "finalize_request") && IsFlag(e.payload, "finalize_committed") ==>
              (r == Ok(false) <==> ClaimsNothing(e.payload))
  {
    var pair := (Field(e.payload, "operation"), Field(e.payload, "result_summary"));
    if (IsWriteOperation(pair.0) && IsWriteOperation(pair.1)) || pair in {
      ("recall", "recall_completed"), ("project", "projection_completed"), ("maintain", "maintenance_completed"),
      ("export", "export_completed"), ("import", "import_completed")} then Ok(true)
    else
      var request :- Flag(e.payload, "finalize_request");
      if request then Ok(true) else
      var committed :- Flag(e.payload, "finalize_committed");
      if committed then Ok(true) else Flag(e.payload, "deferred_governance_job")
  }

  /** Validates completion; for a lifecycle event, returns its typed success. */
  function Completion(e: Event): (r: Checked<bool>)
    ensures r == Ok(true) <==> Succeeded(e)
    ensures r == Ok(false) <==> !e.kind.RuntimeLifecycle? || Failed(e)
  {
    if !e.kind.RuntimeLifecycle? then Ok(false)
    else
      match RequiredBool(e.payload, "success")
      case Err(_) => Err(CompletionUntyped)
      case Ok(success) =>
        if Field(e.payload, "result") != (if success then "ok" else "failed") then Err(CompletionResult)
        else
          var request :- Flag(e.payload, "finalize_request");
          var committed :- Flag(e.payload, "finalize_committed");
          if committed && !request then Err(CompletionFinalize)
          else if success then Ok(true)
          else
            var claims :- ClaimsSuccess(e);
            if claims then Err(CompletionTerminal) else Ok(false)
  }

  /** The typed change count of a successful lifecycle write, if the event is one. */
  function WriteChange(e: Event): (r: Checked<Option<nat>>)
    ensures r.Ok? <==> WriteReported(e)
    ensures r.Ok? ==> r.value == if Summarizes(e) then Some(Number(e.payload, "changed_count")) else None
  {
    if !e.kind.RuntimeLifecycle? || !IsWriteOperation(Field(e.payload, "operation")) then Ok(None)
    else
      var success :- Completion(e);
      if !success then Ok(None)
      else if Field(e.payload, "result_summary") != Field(e.payload, "operation") then Err(WriteSummary)
      else
        var count :- OptionalU64(e.payload, "changed_count");
        if count.None? then Err(WriteChangedCount) else Ok(count)
  }

  // ---------------------------------------------------------------- order

  predicate Before(a: Event, b: Event) {
    a.at < b.at || (a.at == b.at && Text.Less(a.id, b.id))
  }

  /** Inserts after every event that is not later, which makes the sort stable. */
  function Insert(sorted: seq<Event>, e: Event): (r: seq<Event>)
    ensures multiset(r) == multiset(sorted) + multiset{e}
  {
    if sorted == [] then [e]
    else if Before(e, sorted[|sorted| - 1]) then
      var front := sorted[..|sorted| - 1];
      assert sorted == front + [sorted[|sorted| - 1]];
      Insert(front, e) + [sorted[|sorted| - 1]]
    else sorted + [e]
  }

  function Sort(events: seq<Event>): (r: seq<Event>)
    ensures multiset(r) == multiset(events)
  {
    if events == [] then []
    else
      assert events == events[..|events| - 1] + [events[|events| - 1]];
      Insert(Sort(events[..|events| - 1]), events[|events| - 1])
  }

  // ---------------------------------------------------------------- identities and evidence

  function Ids(events: seq<Event>): set<string> {
    set e | e in events :: e.id
  }

  /** Every id is non-blank and they are pairwise different. */
  predicate IdsUnique(events: seq<Event>) {
    (forall e :: e in events ==> Text.Trim(e.id) != "") && |Ids(events)| == |events|
  }

  predicate EvidenceMatches(count: nat, v: Evidence) {
    v.stores != 0 && v.admitted == count && v.input == Plus(v.admitted, v.duplicates) && count <= MAX
  }

  /** Saturating addition. */
  function Plus(a: nat, b: nat): nat {
    if a + b > MAX then MAX else a + b
  }

  // ---------------------------------------------------------------- write transactions

  datatype Summary = Summary(at: nat, changed: nat)

  function AddSummary(m: map<string, Summary>, e: Event): Checked<map<string, Summary>> {
    var change :- WriteChange(e);
    var tx := Field(e.payload, "transaction_id");
    if change.None? then Ok(m)
    else if tx == "" then (if change.value > 0 then Err(TransactionMissing) else Ok(m))
    else if tx in m then Err(TransactionRepeated)
    else Ok(m[tx := Summary(e.at, change.value)])
  }

  predicate IdentityLess(a: Identity, b: Identity) {
    if a.OfEvent? then b.OfTransaction? || Text.Less(a.id, b.id)
    else b.OfTransaction? && Text.Less(a.id, b.id)
  }

  predicate IsRawWrite(e: Event)
    ensures IsRawWrite(e) <==> WritesMemory(e)
  {
    e.kind.MemoryWrite? && IsWriteOperation(Field(e.payload, "operation"))
  }

  function RawIdentity(e: Event): (id: Identity)
    ensures id == WriteIdentity(e)
  {
    var tx := Field(e.payload, "transaction_id");
    if tx == "" then OfEvent(e.id) else OfTransaction(tx)
  }

  datatype Entry = Entry(key: Identity, at: nat, changed: nat)

  /** Counts one more raw event under `key`, keeping the entries in key order. */
  function Upsert(entries: seq<Entry>, key: Identity, at: nat): Checked<seq<Entry>> {
    if entries == [] || IdentityLess(key, entries[0].key) then Ok([Entry(key, at, 1)] + entries)
    else if entries[0].key == key then
      if entries[0].at != at then Err(RawSpansTimestamps)
      else Ok([entries[0].(changed := Plus(entries[0].changed, 1))] + entries[1..])
    else
      var rest :- Upsert(entries[1..], key, at);
      Ok([entries[0]] + rest)
  }

  function AddRaw(entries: seq<Entry>, e: Event): Checked<seq<Entry>> {
    if IsRawWrite(e) then Upsert(entries, RawIdentity(e), e.at) else Ok(entries)
  }

  // ---------------------------------------------------------------- counters

  datatype Counters = Counters(
    writes: nat, changes: nat, recalls: nat, hits: nat, projections: nat, injections: nat, maintenances: nat,
    finalizes: nat, commits: nat, deferred: nat, exports: nat, imports: nat, storeEvents: nat)

  predicate InWindow(at: nat, since: Option<nat>) {
    since.None? || since.value <= at
  }

  function CountWrite(c: Counters, changed: nat): Counters {
    c.(writes := Plus(c.writes, 1), changes := Plus(c.changes, changed))
  }

  /** A raw entry whose transaction has a lifecycle summary is owned by it and not counted again. */
  function AddEntry(c: Counters, summaries: map<string, Summary>, since: Option<nat>, entry: Entry): Checked<Counters> {
    if entry.key.OfTransaction? && entry.key.id in summaries then
      var owner := summaries[entry.key.id];
      if owner.changed == 0 then Err(ZeroChangeOwnsWrite)
      else if owner.at != entry.at then Err(TransactionSpansTimestamps)
      else Ok(c)
    else Ok(if InWindow(entry.at, since) then CountWrite(c, entry.changed) else c)
  }

  datatype Projection = Projection(at: nat, id: string, chars: nat)

  datatype Tally = Tally(counters: Counters, latest: Option<Projection>)

  function One(b: bool): nat {
    if b then 1 else 0
  }

  function AddRecall(c: Counters, e: Event): Checked<Counters> {
    if Field(e.payload, "operation") == "recall" && Field(e.payload, "result_summary") == "recall_completed" &&
       Field(e.payload, "trigger") == "sdk_call"
    then
      var hit :- RequiredBool(e.payload, "memory_hit");
      var count :- RequiredU64(e.payload, "hit_count");
      if hit != (count > 0) then Err(HitCountMismatch)
      else Ok(c.(recalls := Plus(c.recalls, 1), hits := Plus(c.hits, One(hit))))
    else Ok(c)
  }

  function AddProjection(t: Tally, e: Event): Checked<Tally> {
    if Field(e.payload, "operation") == "project" && Field(e.payload, "result_summary") == "projection_completed" then
      var injected :- RequiredBool(e.payload, "projection_injected");
      var chars :- RequiredU64(e.payload, "system_memory_chars");
      var c := t.counters;
      Ok(Tally(c.(projections := Plus(c.projections, 1), injections := Plus(c.injections, One(injected))),
               Some(Projection(e.at, e.id, chars))))
    else Ok(t)
  }

  function AddFinalize(c: Counters, e: Event): Checked<Counters> {
    var request :- Flag(e.payload, "finalize_request");
    if !request then Ok(c)
    else
      var committed :- Flag(e.payload, "finalize_committed");
      Ok(c.(finalizes := Plus(c.finalizes, 1), commits := Plus(c.commits, One(committed))))
  }

  /** What a successful lifecycle event says was written, recalled or projected. */
  function AddContent(t: Tally, since: Option<nat>, e: Event): Checked<Tally> {
    var change :- WriteChange(e);
    var counted := if change.Some? && change.value > 0 && InWindow(e.at, since)
                   then CountWrite(t.counters, change.value) else t.counters;
    var recalled :- AddRecall(counted, e);
    AddProjection(Tally(recalled, t.latest), e)
  }

  /** What a successful lifecycle event says was maintained, finalized, deferred or moved. */
  function AddOutcome(c: Counters, e: Event): Checked<Counters> {
    var pair := (Field(e.payload, "operation"), Field(e.payload, "result_summary"));
    var maintained := c.(maintenances := Plus(c.maintenances, One(pair == ("maintain", "maintenance_completed"))));
    var finalized :- AddFinalize(maintained, e);
    var deferred :- Flag(e.payload, "deferred_governance_job");
    Ok(finalized.(deferred := Plus(finalized.deferred, One(deferred)),
                  exports := Plus(finalized.exports, One(pair == ("export", "export_completed"))),
                  imports := Plus(finalized.imports, One(pair == ("import", "import_completed")))))
  }

  function AddLifecycle(t: Tally, since: Option<nat>, e: Event): Checked<Tally> {
    var success :- Completion(e);
    if !success then Ok(t)
    else
      var content :- AddContent(t, since, e);
      var counters :- AddOutcome(content.counters, e);
      Ok(Tally(counters, content.latest))
  }

  // ---------------------------------------------------------------- the report

  function Validate(events: seq<Event>): Checked<()> {
    if events == [] then Ok(())
    else
      var _ :- Completion(events[0]);
      Validate(events[1..])
  }

  function Summaries(m: map<string, Summary>, events: seq<Event>): Checked<map<string, Summary>>
    decreases |events|
  {
    if events == [] then Ok(m)
    else
      var m' :- AddSummary(m, events[0]);
      Summaries(m', events[1..])
  }

  function Raws(entries: seq<Entry>, events: seq<Event>): Checked<seq<Entry>>
    decreases |events|
  {
    if events == [] then Ok(entries)
    else
      var entries' :- AddRaw(entries, events[0]);
      Raws(entries', events[1..])
  }

  function CountRaws(c: Counters, summaries: map<string, Summary>, since: Option<nat>,
                     entries: seq<Entry>): Checked<Counters>
    decreases |entries|
  {
    if entries == [] then Ok(c)
    else
      var c' :- AddEntry(c, summaries, since, entries[0]);
      CountRaws(c', summaries, since, entries[1..])
  }

  function CountLifecycles(t: Tally, since: Option<nat>, events: seq<Event>): Checked<Tally>
    decreases |events|
  {
    if events == [] then Ok(t)
    else
      var t' :- AddLifecycle(t, since, events[0]);
      CountLifecycles(t', since, events[1..])
  }

  datatype Report = Report(
    budgetReportId: string, since: Option<nat>, latestAt: Option<nat>, latestChars: Option<nat>,
    evidence: Evidence, counters: Counters)

  function Zeros(storeEvents: nat): Counters {
    Counters(0, 0, 0, 0, 0, 0, 0, 0, 0, 0, 0, 0, storeEvents)
  }

  function Finish(t: Tally, since: Option<nat>, v: Evidence, budgetReportId: string): Report {
    Report(budgetReportId, since,
           if t.latest.None? then None else Some(t.latest.value.at),
           if t.latest.None? then None else Some(t.latest.value.chars), v, t.counters)
  }

  /** Everything after the sort. */
  function SortedReport(sorted: seq<Event>, since: Option<nat>, v: Evidence, budgetReportId: string): Checked<Report> {
    var _ :- Validate(sorted);
    var summaries :- Summaries(map[], sorted);
    var entries :- Raws([], sorted);
    var counted :- CountRaws(Zeros(v.admitted), summaries, since, entries);
    var t :- CountLifecycles(Tally(counted, None), since, sorted);
    Ok(Finish(t, since, v, budgetReportId))
  }

  function BuildReport(events: seq<Event>, since: Option<nat>, v: Evidence, budgetReportId: string): Checked<Report> {
    if !EvidenceMatches(|events|, v) then Err(EvidenceMismatch)
    else if !IdsUnique(events) then Err(EventIdentity)
    else SortedReport(Sort(events), since, v, budgetReportId)
  }

  lemma IdsAppend(events: seq<Event>, i: nat)
    requires i < |events|
    ensures Ids(events[..i + 1]) == Ids(events[..i]) + {events[i].id}
  {
    assert events[..i + 1] == events[..i] + [events[i]];
  }

  lemma {:induction false} IdsBounded(events: seq<Event>, i: nat)
    requires i <= |events|
    ensures |Ids(events[..i])| <= i
  {
    if i > 0 {
      IdsBounded(events, i - 1);
      IdsAppend(events, i - 1);
    }
  }

  /** A repeated id is never made up for. */
  lemma {:induction false} IdsStayShort(events: seq<Event>, i: nat)
    requires i <= |events| && |Ids(events[..i])| < i
    ensures |Ids(events)| < |events|
    decreases |events| - i
  {
    if i == |events| {
      assert events[..i] == events;
    } else {
      IdsAppend(events, i);
      IdsStayShort(events, i + 1);
    }
  }

  /** The report as the source builds it: five passes, the last four over the sorted events. */
  method BuildRuntimeMetricsReport(events: seq<Event>, since: Option<nat>, v: Evidence, budgetReportId: string)
    returns (r: Checked<Report>)
    ensures r == BuildReport(events, since, v, budgetReportId)
  {
    if !EvidenceMatches(|events|, v) {
      return Err(EvidenceMismatch);
    }
    var ids: set<string> := {};
    for i := 0 to |events|
      invariant ids == Ids(events[..i]) && |ids| == i
      invariant forall e :: e in events[..i] ==> Text.Trim(e.id) != ""
    {
      IdsAppend(events, i);
      if Text.Trim(events[i].id) == "" || events[i].id in ids {
        if events[i].id in ids {
          IdsStayShort(events, i + 1);
        }
        return Err(EventIdentity);
      }
      ids := ids + {events[i].id};
    }
    assert events[..|events|] == events;
    var sorted := Sort(events);
    for i := 0 to |sorted|
      invariant Validate(sorted[i..]) == Validate(sorted)
    {
      var done := Completion(sorted[i]);
      if done.Err? {
        return Err(done.error);
      }
      assert sorted[i..][1..] == sorted[i + 1..];
    }
    var summaries := map[];
    for i := 0 to |sorted|
      invariant Summaries(summaries, sorted[i..]) == Summaries(map[], sorted)
    {
      var added := AddSummary(summaries, sorted[i]);
      if added.Err? {
        return Err(added.error);
      }
      summaries := added.value;
      assert sorted[i..][1..] == sorted[i + 1..];
    }
    var entries := [];
    for i := 0 to |sorted|
      invariant Raws(entries, sorted[i..]) == Raws([], sorted)
    {
      var added := AddRaw(entries, sorted[i]);
      if added.Err? {
        return Err(added.error);
      }
      entries := added.value;
      assert sorted[i..][1..] == sorted[i + 1..];
    }
    r := CountEvents(sorted, entries, summaries, since, v, budgetReportId);
  }

  method CountEvents(sorted: seq<Event>, entries: seq<Entry>, summaries: map<string, Summary>, since: Option<nat>,
                     v: Evidence, budgetReportId: string) returns (r: Checked<Report>)
    ensures var counted := CountRaws(Zeros(v.admitted), summaries, since, entries);
      if counted.Err? then r == Err(counted.error)
      else
        var t := CountLifecycles(Tally(counted.value, None), since, sorted);
        r == if t.Err? then Err(t.error) else Ok(Finish(t.value, since, v, budgetReportId))
  {
    var c := Zeros(v.admitted);
    for i := 0 to |entries|
      invariant CountRaws(c, summaries, since, entries[i..]) == CountRaws(Zeros(v.admitted), summaries, since, entries)
    {
      var added := AddEntry(c, summaries, since, entries[i]);
      if added.Err? {
        return Err(added.error);
      }
      c := added.value;
      assert entries[i..][1..] == entries[i + 1..];
    }
    var t := Tally(c, None);
    for i := 0 to |sorted|
      invariant CountLifecycles(t, since, sorted[i..]) == CountLifecycles(Tally(c, None), since, sorted)
    {
      var added := AddLifecycle(t, since, sorted[i]);
      if added.Err? {
        return Err(added.error);
      }
      t := added.value;
      assert sorted[i..][1..] == sorted[i + 1..];
    }
    return Ok(Finish(t, since, v, budgetReportId));
  }
}
