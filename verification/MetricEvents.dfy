/** Metric events and what their payloads say, in the words of the payload: keys, texts and numbers. */
module MetricEvents {

  import opened Wrappers
  import Text

  datatype Kind = MemoryWrite | RuntimeLifecycle | NonMetric

  type Payload = map<string, string>

  datatype Event = Event(id: string, kind: Kind, at: nat, payload: Payload)

  // ---------------------------------------------------------------- payload entries

  predicate Is(p: Payload, key: string, text: string) {
    key in p && p[key] == text
  }

  predicate Blank(p: Payload, key: string) {
    key !in p || p[key] == ""
  }

  predicate IsBool(p: Payload, key: string) {
    Is(p, key, "true") || Is(p, key, "false")
  }

  /** An optional boolean. */
  predicate IsFlag(p: Payload, key: string) {
    Blank(p, key) || IsBool(p, key)
  }

  predicate IsNumber(p: Payload, key: string) {
    key in p && Text.ParseU64(p[key]).Some?
  }

  function Number(p: Payload, key: string): nat
    requires IsNumber(p, key)
  {
    Text.ParseU64(p[key]).value
  }

  /** The text names a write operation. */
  predicate Writes(p: Payload, key: string) {
    key in p && "write." <= p[key]
  }

  predicate Reports(p: Payload, operation: string, summary: string) {
    Is(p, "operation", operation) && Is(p, "result_summary", summary)
  }

  // ---------------------------------------------------------------- lifecycle events

  /** The finalize flags are typed, and a commit comes with its request. */
  predicate FinalizesInOrder(p: Payload) {
    && IsFlag(p, "finalize_request") && IsFlag(p, "finalize_committed")
    && (Is(p, "finalize_committed", "true") ==> Is(p, "finalize_request", "true"))
  }

  /** Nothing in the payload claims an outcome of a successful call. */
  predicate ClaimsNothing(p: Payload) {
    && !(Writes(p, "operation") && Writes(p, "result_summary"))
    && !Reports(p, "recall", "recall_completed") && !Reports(p, "project", "projection_completed")
    && !Reports(p, "maintain", "maintenance_completed")
    && !Reports(p, "export", "export_completed") && !Reports(p, "import", "import_completed")
    && !Is(p, "finalize_request", "true") && !Is(p, "finalize_committed", "true")
    && (Blank(p, "deferred_governance_job") || Is(p, "deferred_governance_job", "false"))
  }

  predicate Succeeded(e: Event) {
    && e.kind.RuntimeLifecycle? && Is(e.payload, "success", "true") && Is(e.payload, "result", "ok")
    && FinalizesInOrder(e.payload)
  }

  predicate Failed(e: Event) {
    && e.kind.RuntimeLifecycle? && Is(e.payload, "success", "false") && Is(e.payload, "result", "failed")
    && FinalizesInOrder(e.payload) && ClaimsNothing(e.payload)
  }

  /** A successful lifecycle write with its change count: the summary of its transaction. */
  predicate Summarizes(e: Event) {
    && Succeeded(e) && Writes(e.payload, "operation") && Is(e.payload, "result_summary", e.payload["operation"])
    && IsNumber(e.payload, "changed_count")
  }

  /** A lifecycle write is the summary of its transaction, or has failed. */
  predicate WriteReported(e: Event) {
    e.kind.RuntimeLifecycle? && Writes(e.payload, "operation") ==> Summarizes(e) || Failed(e)
  }

  // ---------------------------------------------------------------- writes

  function Tx(e: Event): string {
    if "transaction_id" in e.payload then e.payload["transaction_id"] else ""
  }

  predicate WritesMemory(e: Event) {
    e.kind.MemoryWrite? && Writes(e.payload, "operation")
  }

  datatype Identity = OfEvent(id: string) | OfTransaction(id: string)

  /** A memory write belongs to its transaction, or stands for itself. */
  function WriteIdentity(e: Event): Identity {
    if Blank(e.payload, "transaction_id") then OfEvent(e.id) else OfTransaction(e.payload["transaction_id"])
  }
}
