/** Exactly when the metrics report is built, said of the events alone, and what an owned raw write changes. */
module MetricsAcceptance {

  import opened Wrappers
  import opened MetricEvents
  import opened RuntimeMetrics
  import opened MetricsProofs
  import Text

  /** A completed recall and projection carry their typed fields. */
  predicate Typed(e: Event) {
    && (IsRecall(e) ==>
          && IsBool(e.payload, "memory_hit") && IsNumber(e.payload, "hit_count")
          && (Is(e.payload, "memory_hit", "true") <==> Number(e.payload, "hit_count") > 0))
    && (IsProjection(e) ==> IsBool(e.payload, "projection_injected") && IsNumber(e.payload, "system_memory_chars"))
    && (Succeeded(e) ==> IsFlag(e.payload, "deferred_governance_job"))
  }

  /** A changed write names its transaction. */
  predicate SummarySound(e: Event) {
    WriteReported(e) && (Summarizes(e) && Tx(e) == "" ==> Number(e.payload, "changed_count") == 0)
  }

  /** The conditions one event meets by itself. */
  predicate Sound(e: Event) {
    (e.kind.RuntimeLifecycle? ==> Succeeded(e) || Failed(e)) && SummarySound(e) && Typed(e)
  }

  /** One summary a transaction. */
  predicate OneSummary(e: Event, f: Event) {
    Summarizes(e) && Summarizes(f) && Tx(e) == Tx(f) != "" ==> e == f
  }

  /** Raw writes of one identity happen at one time. */
  predicate OneTime(e: Event, f: Event) {
    WritesMemory(e) && WritesMemory(f) && WriteIdentity(e) == WriteIdentity(f) ==> e.at == f.at
  }

  /** A raw write and the summary that owns it agree. */
  predicate OwnerAgrees(e: Event, s: Event) {
    WritesMemory(e) && Summarizes(s) && Tx(e) == Tx(s) != "" ==> ChangeOf(s) > 0 && s.at == e.at
  }

  ghost predicate Consistent(events: seq<Event>) {
    && (forall e | e in events :: Sound(e))
    && (forall e, f | e in events && f in events :: OneSummary(e, f))
    && (forall e, f | e in events && f in events :: OneTime(e, f))
    && (forall e, f | e in events && f in events :: OwnerAgrees(e, f))
  }

  // ---------------------------------------------------------------- the passes one by one

  lemma {:induction false} ValidateAccepts(events: seq<Event>)
    ensures Validate(events).Ok? <==> forall e | e in events :: Completion(e).Ok?
  {
    if events != [] {
      ValidateAccepts(events[1..]);
      assert events == [events[0]] + events[1..];
    }
  }

  lemma LifecycleAccepts(t: Tally, since: Option<nat>, e: Event)
    requires Completion(e).Ok? && WriteReported(e)
    ensures AddLifecycle(t, since, e).Ok? <==> Typed(e)
  {
  }

  lemma {:induction false} LifecyclesAccept(t: Tally, since: Option<nat>, events: seq<Event>)
    requires forall e | e in events :: Completion(e).Ok? && WriteReported(e)
    ensures CountLifecycles(t, since, events).Ok? <==> forall e | e in events :: Typed(e)
    decreases |events|
  {
    if events != [] {
      LifecycleAccepts(t, since, events[0]);
      assert events == [events[0]] + events[1..];
      if AddLifecycle(t, since, events[0]).Ok? {
        LifecyclesAccept(AddLifecycle(t, since, events[0]).value, since, events[1..]);
      }
    }
  }

  predicate Names(e: Event, m: map<string, Summary>) {
    Summarizes(e) && Tx(e) in m
  }

  ghost predicate Distinct(events: seq<Event>) {
    forall i, j | 0 <= i < j < |events| :: events[i] != events[j]
  }

  ghost predicate SummariesFit(m: map<string, Summary>, events: seq<Event>) {
    && (forall e | e in events :: SummarySound(e) && !Names(e, m))
    && (forall e, f | e in events && f in events :: OneSummary(e, f))
  }

  lemma SummaryAccepts(m: map<string, Summary>, e: Event)
    requires "" !in m
    ensures AddSummary(m, e).Ok? <==> SummarySound(e) && !Names(e, m)
    ensures AddSummary(m, e).Ok? ==>
      AddSummary(m, e).value.Keys == m.Keys + (if Summarizes(e) && Tx(e) != "" then {Tx(e)} else {})
  {
  }

  lemma SummariesFitCons(m: map<string, Summary>, m': map<string, Summary>, e: Event, rest: seq<Event>)
    requires "" !in m && SummarySound(e) && !Names(e, m) && e !in rest
    requires m'.Keys == m.Keys + (if Summarizes(e) && Tx(e) != "" then {Tx(e)} else {})
    ensures SummariesFit(m, [e] + rest) <==> SummariesFit(m', rest)
  {
    assert forall x :: x in [e] + rest <==> x == e || x in rest;
    if SummariesFit(m, [e] + rest) {
      forall x | x in rest ensures SummarySound(x) && !Names(x, m') {
        assert OneSummary(e, x);
      }
    }
  }

  lemma {:induction false} SummariesAccept(m: map<string, Summary>, events: seq<Event>)
    requires "" !in m && Distinct(events)
    ensures Summaries(m, events).Ok? <==> SummariesFit(m, events)
    decreases |events|
  {
    if events != [] {
      var e, rest := events[0], events[1..];
      assert events == [e] + rest;
      SummaryAccepts(m, e);
      if AddSummary(m, e).Ok? {
        var m' := AddSummary(m, e).value;
        SummariesAccept(m', rest);
        SummariesFitCons(m, m', e, rest);
      }
    }
  }

  // ---------------------------------------------------------------- raw entries

  function Pairs(entries: seq<Entry>): set<(Identity, nat)> {
    set entry | entry in entries :: (entry.key, entry.at)
  }

  function RawPairs(events: seq<Event>): set<(Identity, nat)> {
    set e | e in events && WritesMemory(e) :: (WriteIdentity(e), e.at)
  }

  lemma PairsCons(first: Entry, rest: seq<Entry>)
    ensures Pairs([first] + rest) == Pairs(rest) + {(first.key, first.at)}
  {
    assert forall x :: x in [first] + rest <==> x == first || x in rest;
  }

  predicate FitsPair(pair: (Identity, nat), key: Identity, at: nat) {
    pair.0 == key ==> pair.1 == at
  }

  ghost predicate Fits(pairs: set<(Identity, nat)>, key: Identity, at: nat) {
    forall pair | pair in pairs :: FitsPair(pair, key, at)
  }

  lemma {:induction false} UpsertAccepts(entries: seq<Entry>, key: Identity, at: nat)
    requires KeysSorted(entries)
    ensures Upsert(entries, key, at).Ok? <==> Fits(Pairs(entries), key, at)
    ensures Upsert(entries, key, at).Ok? ==> Pairs(Upsert(entries, key, at).value) == Pairs(entries) + {(key, at)}
    decreases |entries|
  {
    if entries == [] {
      PairsCons(Entry(key, at, 1), []);
    } else {
      var first, rest := entries[0], entries[1..];
      assert entries == [first] + rest;
      PairsCons(first, rest);
      if IdentityLess(key, first.key) {
        PairsCons(Entry(key, at, 1), entries);
        KeyAbsent(entries, key);
      } else if first.key == key {
        PairsCons(first.(changed := Plus(first.changed, 1)), rest);
        KeyAbsentAfter(entries);
        assert (first.key, first.at) in Pairs(entries);
      } else {
        UpsertAccepts(rest, key, at);
        if Upsert(rest, key, at).Ok? {
          PairsCons(first, Upsert(rest, key, at).value);
        }
      }
    }
  }

  lemma KeyAbsent(entries: seq<Entry>, key: Identity)
    requires KeysSorted(entries) && entries != [] && IdentityLess(key, entries[0].key)
    ensures forall pair | pair in Pairs(entries) :: pair.0 != key
  {
    forall i | 0 <= i < |entries| ensures entries[i].key != key {
      if i > 0 {
        IdentityLessTransitive(key, entries[0].key, entries[i].key);
      }
      IdentityLessTotal(key, entries[i].key);
    }
  }

  lemma KeyAbsentAfter(entries: seq<Entry>)
    requires KeysSorted(entries) && entries != []
    ensures forall pair | pair in Pairs(entries[1..]) :: pair.0 != entries[0].key
  {
    forall i | 0 < i < |entries| ensures entries[i].key != entries[0].key {
      IdentityLessTotal(entries[0].key, entries[i].key);
    }
  }

  lemma RawPairsCons(e: Event, rest: seq<Event>)
    ensures RawPairs([e] + rest) == RawPairs(rest) + (if WritesMemory(e) then {(WriteIdentity(e), e.at)} else {})
  {
    assert forall x :: x in [e] + rest <==> x == e || x in rest;
  }

  predicate SameTime(a: (Identity, nat), b: (Identity, nat)) {
    a.0 == b.0 ==> a.1 == b.1
  }

  /** No identity in `known` or `new` has two times. */
  ghost predicate Fit(known: set<(Identity, nat)>, new_: set<(Identity, nat)>) {
    && (forall a, b | a in known && b in new_ :: SameTime(a, b))
    && (forall a, b | a in new_ && b in new_ :: SameTime(a, b))
  }

  lemma FitCons(known: set<(Identity, nat)>, pair: (Identity, nat), rest: set<(Identity, nat)>)
    requires forall a | a in known :: SameTime(a, pair)
    ensures Fit(known, rest + {pair}) <==> Fit(known + {pair}, rest)
  {
    if Fit(known + {pair}, rest) {
      forall a, b | a in rest + {pair} && b in rest + {pair} ensures SameTime(a, b) {
        assert SameTime(b, a) ==> SameTime(a, b);
      }
    }
  }

  lemma {:induction false} RawsAccept(entries: seq<Entry>, events: seq<Event>)
    requires KeysSorted(entries)
    ensures Raws(entries, events).Ok? <==> Fit(Pairs(entries), RawPairs(events))
    ensures Raws(entries, events).Ok? ==> Pairs(Raws(entries, events).value) == Pairs(entries) + RawPairs(events)
    decreases |events|
  {
    if events != [] {
      var e, rest := events[0], events[1..];
      assert events == [e] + rest;
      RawPairsCons(e, rest);
      if WritesMemory(e) {
        var pair := (WriteIdentity(e), e.at);
        UpsertAccepts(entries, pair.0, pair.1);
        assert pair in RawPairs(events);
        if Upsert(entries, pair.0, pair.1).Ok? {
          var entries' := Upsert(entries, pair.0, pair.1).value;
          UpsertSorted(entries, pair.0, pair.1);
          RawsAccept(entries', rest);
          forall a | a in Pairs(entries) ensures SameTime(a, pair) {
            assert FitsPair(a, pair.0, pair.1);
          }
          FitCons(Pairs(entries), pair, RawPairs(rest));
        } else {
          var a :| a in Pairs(entries) && !FitsPair(a, pair.0, pair.1);
          assert !SameTime(a, pair);
        }
      } else {
        RawsAccept(entries, rest);
      }
    }
  }

  /** An entry is counted or left to a summary that agrees with it. */
  predicate OwnerFits(pair: (Identity, nat), summaries: map<string, Summary>) {
    pair.0.OfTransaction? && pair.0.id in summaries ==>
      summaries[pair.0.id].changed > 0 && summaries[pair.0.id].at == pair.1
  }

  lemma {:induction false} CountsAccept(c: Counters, summaries: map<string, Summary>, since: Option<nat>,
                                        entries: seq<Entry>)
    ensures CountRaws(c, summaries, since, entries).Ok?
      <==> forall pair | pair in Pairs(entries) :: OwnerFits(pair, summaries)
    decreases |entries|
  {
    if entries != [] {
      var first, rest := entries[0], entries[1..];
      assert entries == [first] + rest;
      PairsCons(first, rest);
      if AddEntry(c, summaries, since, first).Ok? {
        CountsAccept(AddEntry(c, summaries, since, first).value, summaries, since, rest);
      } else {
        assert (first.key, first.at) in Pairs(entries);
      }
    }
  }

  // ---------------------------------------------------------------- all passes together

  lemma TimesAgree(events: seq<Event>)
    ensures Fit({}, RawPairs(events)) <==> forall e, f | e in events && f in events :: OneTime(e, f)
  {
    if Fit({}, RawPairs(events)) {
      forall e, f | e in events && f in events ensures OneTime(e, f) {
        if WritesMemory(e) && WritesMemory(f) {
          assert SameTime((WriteIdentity(e), e.at), (WriteIdentity(f), f.at));
        }
      }
    }
    if forall e, f | e in events && f in events :: OneTime(e, f) {
      forall a, b | a in RawPairs(events) && b in RawPairs(events) ensures SameTime(a, b) {
        var e :| e in events && WritesMemory(e) && a == (WriteIdentity(e), e.at);
        var f :| f in events && WritesMemory(f) && b == (WriteIdentity(f), f.at);
        assert OneTime(e, f);
      }
    }
  }

  /** The summary recorded for a transaction is the one event that reports it. */
  lemma OwnerFitsEvent(events: seq<Event>, summaries: map<string, Summary>, e: Event, s: Event)
    requires Summaries(map[], events) == Ok(summaries) && s in events && Summarizes(s)
    requires WritesMemory(e) && Tx(e) == Tx(s) != ""
    ensures OwnerFits((WriteIdentity(e), e.at), summaries) <==> OwnerAgrees(e, s)
  {
    SummariesCover(map[], events);
  }

  lemma OwnersAgreeFrom(events: seq<Event>, summaries: map<string, Summary>)
    requires Summaries(map[], events) == Ok(summaries)
    requires forall pair | pair in RawPairs(events) :: OwnerFits(pair, summaries)
    ensures forall e, s | e in events && s in events :: OwnerAgrees(e, s)
  {
    forall e, s | e in events && s in events ensures OwnerAgrees(e, s) {
      if WritesMemory(e) && Summarizes(s) && Tx(e) == Tx(s) != "" {
        assert (WriteIdentity(e), e.at) in RawPairs(events);
        OwnerFitsEvent(events, summaries, e, s);
      }
    }
  }

  lemma OwnersAgreeTo(events: seq<Event>, summaries: map<string, Summary>)
    requires Summaries(map[], events) == Ok(summaries)
    requires forall e, s | e in events && s in events :: OwnerAgrees(e, s)
    ensures forall pair | pair in RawPairs(events) :: OwnerFits(pair, summaries)
  {
    SummariesNamed(map[], events);
    forall pair | pair in RawPairs(events) ensures OwnerFits(pair, summaries) {
      var e :| e in events && WritesMemory(e) && pair == (WriteIdentity(e), e.at);
      if pair.0.OfTransaction? && pair.0.id in summaries {
        var s := SummaryEvent(events, summaries, pair.0.id);
        OwnerFitsEvent(events, summaries, e, s);
      }
    }
  }

  lemma SummaryEvent(events: seq<Event>, summaries: map<string, Summary>, tx: string) returns (s: Event)
    requires Summaries(map[], events) == Ok(summaries) && tx in summaries
    ensures s in events && Summarizes(s) && Tx(s) == tx
  {
    SummariesCover(map[], events);
    s :| s in events && Summarizes(s) && Tx(s) == tx;
  }

  lemma OwnersAgree(events: seq<Event>, summaries: map<string, Summary>)
    requires Summaries(map[], events) == Ok(summaries)
    ensures (forall pair | pair in RawPairs(events) :: OwnerFits(pair, summaries)) <==>
            (forall e, s | e in events && s in events :: OwnerAgrees(e, s))
  {
    if forall pair | pair in RawPairs(events) :: OwnerFits(pair, summaries) {
      OwnersAgreeFrom(events, summaries);
    }
    if forall e, s | e in events && s in events :: OwnerAgrees(e, s) {
      OwnersAgreeTo(events, summaries);
    }
  }

  lemma ConsistentParts(events: seq<Event>)
    ensures Consistent(events) <==>
            && (forall e | e in events :: Completion(e).Ok?)
            && SummariesFit(map[], events)
            && (forall e, f | e in events && f in events :: OneTime(e, f))
            && (forall e, f | e in events && f in events :: OwnerAgrees(e, f))
            && (forall e | e in events :: Typed(e))
  {
    if Consistent(events) {
      assert forall e | e in events :: Sound(e);
    } else if SummariesFit(map[], events) {
      assert forall e | e in events :: SummarySound(e);
    }
  }

  lemma WritesAccept(events: seq<Event>, summaries: map<string, Summary>, c: Counters, since: Option<nat>)
    requires Summaries(map[], events) == Ok(summaries) && Raws([], events).Ok?
    ensures CountRaws(c, summaries, since, Raws([], events).value).Ok? <==>
            forall e, f | e in events && f in events :: OwnerAgrees(e, f)
  {
    RawsAccept([], events);
    CountsAccept(c, summaries, since, Raws([], events).value);
    OwnersAgree(events, summaries);
  }

  lemma SortedAccepts(events: seq<Event>, since: Option<nat>, v: Evidence, id: string)
    requires Distinct(events)
    ensures SortedReport(events, since, v, id).Ok? <==> Consistent(events)
  {
    ConsistentParts(events);
    ValidateAccepts(events);
    SummariesAccept(map[], events);
    RawsAccept([], events);
    TimesAgree(events);
    if Validate(events).Ok? && Summaries(map[], events).Ok? && Raws([], events).Ok? {
      var summaries, entries, c := Summaries(map[], events).value, Raws([], events).value, Zeros(v.admitted);
      WritesAccept(events, summaries, c, since);
      if CountRaws(c, summaries, since, entries).Ok? {
        forall e | e in events ensures Completion(e).Ok? && WriteReported(e) {
          assert SummarySound(e);
        }
        LifecyclesAccept(Tally(CountRaws(c, summaries, since, entries).value, None), since, events);
      }
    }
  }

  lemma ConsistentOfSame(a: seq<Event>, b: seq<Event>)
    requires multiset(a) == multiset(b) && Consistent(a)
    ensures Consistent(b)
  {
    forall e | e in b ensures e in a {
      assert e in multiset(b);
    }
  }

  lemma StrictIsDistinct(events: seq<Event>)
    requires StrictlySorted(events)
    ensures Distinct(events)
  {
    forall i, j | 0 <= i < j < |events| ensures events[i] != events[j] {
      BeforeTotal(events[i], events[j]);
    }
  }

  /** Some character of the text is not white space. */
  predicate Named(text: string) {
    exists i :: 0 <= i < |text| && !Text.IsWhitespace(text[i])
  }

  ghost predicate IdsDiffer(events: seq<Event>) {
    forall i, j | 0 <= i < j < |events| :: events[i].id != events[j].id
  }

  lemma {:induction false} IdsDifferExactly(events: seq<Event>, n: nat)
    requires n <= |events|
    ensures |Ids(events[..n])| == n <==> IdsDiffer(events[..n])
  {
    if n > 0 {
      IdsDifferExactly(events, n - 1);
      IdsAppend(events, n - 1);
      IdsBounded(events, n - 1);
      assert events[..n] == events[..n - 1] + [events[n - 1]];
      IdsDifferSnoc(events[..n - 1], events[n - 1]);
    }
  }

  lemma IdsDifferSnoc(front: seq<Event>, e: Event)
    ensures IdsDiffer(front + [e]) <==> IdsDiffer(front) && e.id !in Ids(front)
  {
    var events := front + [e];
    if IdsDiffer(events) {
      assert forall i | 0 <= i < |front| :: front[i] == events[i];
      assert forall i | 0 <= i < |front| :: events[i].id != events[|front|].id;
    } else if IdsDiffer(front) {
      var i, j :| 0 <= i < j < |events| && events[i].id == events[j].id;
      assert front[i] in front;
    }
  }

  lemma UniqueExactly(events: seq<Event>)
    ensures IdsUnique(events) <==> IdsDiffer(events) && forall e | e in events :: Named(e.id)
  {
    IdsDifferExactly(events, |events|);
    assert events[..|events|] == events;
    forall e | e in events ensures Text.Trim(e.id) != "" <==> Named(e.id) {
      Text.TrimBlank(e.id);
    }
  }

  lemma Accepts(events: seq<Event>, since: Option<nat>, v: Evidence, id: string)
    ensures BuildReport(events, since, v, id).Ok? <==>
            EvidenceMatches(|events|, v) && IdsUnique(events) && Consistent(events)
  {
    if IdsUnique(events) {
      SortStrict(events);
      StrictIsDistinct(Sort(events));
      SortedAccepts(Sort(events), since, v, id);
      if Consistent(events) {
        ConsistentOfSame(events, Sort(events));
      }
      if Consistent(Sort(events)) {
        ConsistentOfSame(Sort(events), events);
      }
    }
  }

  /** A report is built exactly when the evidence adds up, every event has a name of its own and the events are
      consistent. */
  lemma AcceptedExactly(events: seq<Event>, since: Option<nat>, v: Evidence, id: string)
    ensures BuildReport(events, since, v, id).Ok? <==>
            && v.stores > 0 && v.admitted == |events| <= Text.U64_MAX
            && v.input == Capped(v.admitted + v.duplicates)
            && IdsDiffer(events) && (forall e | e in events :: Named(e.id))
            && Consistent(events)
  {
    UniqueExactly(events);
    Accepts(events, since, v, id);
  }

  // ---------------------------------------------------------------- owned raw writes

  function Without(events: seq<Event>, k: nat): seq<Event>
    requires k < |events|
  {
    events[..k] + events[k + 1..]
  }

  lemma WithoutElements(events: seq<Event>, k: nat)
    requires k < |events|
    ensures forall x :: x in events <==> x == events[k] || x in Without(events, k)
    ensures Ids(events) == Ids(Without(events, k)) + {events[k].id}
  {
    assert events == events[..k] + [events[k]] + events[k + 1..];
  }

  lemma WithoutSum(share: Event -> nat, events: seq<Event>, k: nat)
    requires k < |events|
    ensures Sum(share, events) == Sum(share, Without(events, k)) + share(events[k])
  {
    assert events == events[..k] + ([events[k]] + events[k + 1..]);
    SumAppend(share, events[..k], [events[k]] + events[k + 1..]);
    SumAppend(share, [events[k]], events[k + 1..]);
    SumAppend(share, events[..k], events[k + 1..]);
    assert Sum(share, [events[k]]) == share(events[k]);
  }

  lemma WithoutUnique(events: seq<Event>, k: nat)
    requires k < |events| && IdsUnique(events)
    ensures IdsUnique(Without(events, k))
  {
    var rest := Without(events, k);
    WithoutElements(events, k);
    IdsBounded(rest, |rest|);
    assert rest[..|rest|] == rest;
  }

  /** A raw write whose transaction has a summary. */
  predicate IsOwned(e: Event, events: seq<Event>) {
    WritesMemory(e) && Tx(e) in Owned(events)
  }

  lemma WithoutIdentities(events: seq<Event>, k: nat, since: Option<nat>)
    requires k < |events| && IsOwned(events[k], events)
    ensures Owned(Without(events, k)) == Owned(events)
    ensures WriteIdentities(Without(events, k), since) == WriteIdentities(events, since)
  {
    var rest := Without(events, k);
    WithoutElements(events, k);
    assert Owned(rest) == Owned(events);
    assert SummaryIdentities(rest, since) == SummaryIdentities(events, since);
    assert RawIdentities(rest, Owned(events), since) == RawIdentities(events, Owned(events), since);
  }

  lemma GreatestUnique(p: Event, q: Event, events: seq<Event>, k: nat)
    requires k < |events| && !IsProjection(events[k])
    requires IsGreatestProjection(p, events) && IsGreatestProjection(q, Without(events, k))
    ensures p == q
  {
    WithoutElements(events, k);
    BeforeTotal(p, q);
  }

  lemma SameLatest(r: Report, r': Report, events: seq<Event>, k: nat)
    requires k < |events| && !IsProjection(events[k])
    requires ShowsGreatest(r, events) && ShowsGreatest(r', Without(events, k))
    ensures r.latestAt == r'.latestAt && r.latestChars == r'.latestChars
  {
    WithoutElements(events, k);
    if r.latestAt.Some? && r'.latestAt.Some? {
      var p :| IsGreatestProjection(p, events) && r.latestAt == Some(p.at) && r.latestChars == Some(Shown(p).chars);
      var q :| IsGreatestProjection(q, Without(events, k)) && r'.latestAt == Some(q.at)
        && r'.latestChars == Some(Shown(q).chars);
      GreatestUnique(p, q, events, k);
    }
  }

  lemma WithoutAccepted(events: seq<Event>, k: nat, since: Option<nat>, v: Evidence, v': Evidence, id: string)
    requires BuildReport(events, since, v, id).Ok? && k < |events| && EvidenceMatches(|events| - 1, v')
    ensures BuildReport(Without(events, k), since, v', id).Ok?
  {
    Accepts(events, since, v, id);
    Accepts(Without(events, k), since, v', id);
    WithoutUnique(events, k);
    WithoutElements(events, k);
  }

  lemma SameCounters(a: Counters, b: Counters)
    requires a.writes == b.writes && a.changes == b.changes && forall m: Meter :: Read(a, m) == Read(b, m)
    ensures a == b.(storeEvents := a.storeEvents)
  {
    assert forall m: Meter :: Read(a, m) == Read(b, m);
    assert Read(a, Recalls) == Read(b, Recalls) && Read(a, Hits) == Read(b, Hits);
    assert Read(a, Projections) == Read(b, Projections) && Read(a, Injections) == Read(b, Injections);
    assert Read(a, Maintenances) == Read(b, Maintenances) && Read(a, Finalizes) == Read(b, Finalizes);
    assert Read(a, Commits) == Read(b, Commits) && Read(a, Deferred) == Read(b, Deferred);
    assert Read(a, Exports) == Read(b, Exports) && Read(a, Imports) == Read(b, Imports);
  }

  lemma WithoutMeters(events: seq<Event>, k: nat, since: Option<nat>, v: Evidence, v': Evidence, id: string,
                      r: Report, r': Report, m: Meter)
    requires k < |events| && WritesMemory(events[k])
    requires BuildReport(events, since, v, id) == Ok(r) && BuildReport(Without(events, k), since, v', id) == Ok(r')
    ensures Read(r.counters, m) == Read(r'.counters, m) && r'.counters.storeEvents == |events| - 1
  {
    MetersCountEvents(events, since, v, id, m);
    MetersCountEvents(Without(events, k), since, v', id, m);
    WithoutSum(Moved(m), events, k);
  }

  lemma OwnedSharesNothing(e: Event, events: seq<Event>, since: Option<nat>)
    requires IsOwned(e, events)
    ensures Share(Owned(events), since)(e) == 0
  {
  }

  lemma WithoutWrites(events: seq<Event>, k: nat, since: Option<nat>, v: Evidence, v': Evidence, id: string,
                      r: Report, r': Report)
    requires k < |events| && IsOwned(events[k], events)
    requires BuildReport(events, since, v, id) == Ok(r) && BuildReport(Without(events, k), since, v', id) == Ok(r')
    ensures r.counters.writes == r'.counters.writes && r.counters.changes == r'.counters.changes
  {
    WritesCountOnce(events, since, v, id);
    WritesCountOnce(Without(events, k), since, v', id);
    WithoutIdentities(events, k, since);
    OwnedSharesNothing(events[k], events, since);
    WithoutSum(Share(Owned(events), since), events, k);
  }

  lemma WithoutCounters(events: seq<Event>, k: nat, since: Option<nat>, v: Evidence, v': Evidence, id: string,
                        r: Report, r': Report)
    requires k < |events| && IsOwned(events[k], events)
    requires BuildReport(events, since, v, id) == Ok(r) && BuildReport(Without(events, k), since, v', id) == Ok(r')
    ensures r'.counters == r.counters.(storeEvents := |events| - 1)
  {
    WithoutWrites(events, k, since, v, v', id, r, r');
    forall m: Meter ensures Read(r.counters, m) == Read(r'.counters, m) && r'.counters.storeEvents == |events| - 1 {
      WithoutMeters(events, k, since, v, v', id, r, r', m);
    }
    assert Read(r.counters, Recalls) == Read(r'.counters, Recalls);
    SameCounters(r'.counters, r.counters);
  }

  lemma WithoutLatest(events: seq<Event>, k: nat, since: Option<nat>, v: Evidence, v': Evidence, id: string,
                      r: Report, r': Report)
    requires k < |events| && WritesMemory(events[k])
    requires BuildReport(events, since, v, id) == Ok(r) && BuildReport(Without(events, k), since, v', id) == Ok(r')
    ensures r.latestAt == r'.latestAt && r.latestChars == r'.latestChars
  {
    LatestIsGreatest(events, since, v, id);
    LatestIsGreatest(Without(events, k), since, v', id);
    SameLatest(r, r', events, k);
  }

  lemma ReportCarries(events: seq<Event>, since: Option<nat>, v: Evidence, id: string, r: Report)
    requires BuildReport(events, since, v, id) == Ok(r)
    ensures r == Report(id, since, r.latestAt, r.latestChars, v, r.counters)
  {
  }

  /** Dropping a raw write that a summary owns changes the evidence counts and nothing else. */
  lemma OwnedWriteIsInvisible(events: seq<Event>, k: nat, since: Option<nat>, v: Evidence, v': Evidence, id: string,
                              r: Report)
    requires BuildReport(events, since, v, id) == Ok(r) && k < |events| && IsOwned(events[k], events)
    requires EvidenceMatches(|events| - 1, v')
    ensures BuildReport(Without(events, k), since, v', id) ==
            Ok(r.(evidence := v', counters := r.counters.(storeEvents := |events| - 1)))
  {
    WithoutAccepted(events, k, since, v, v', id);
    var r' := BuildReport(Without(events, k), since, v', id).value;
    WithoutCounters(events, k, since, v, v', id, r, r');
    WithoutLatest(events, k, since, v, v', id, r, r');
    ReportCarries(events, since, v, id, r);
    ReportCarries(Without(events, k), since, v', id, r');
  }
}
