/** What the metrics report promises: it does not depend on input order, and each write counts once. */
module MetricsProofs {

  import opened Wrappers
  import opened MetricEvents
  import opened RuntimeMetrics
  import Text

  // ---------------------------------------------------------------- input order

  ghost predicate StrictlySorted(events: seq<Event>) {
    forall i, j | 0 <= i < j < |events| :: Before(events[i], events[j])
  }

  lemma BeforeTransitive(a: Event, b: Event, c: Event)
    requires Before(a, b) && Before(b, c)
    ensures Before(a, c)
  {
    if a.at == b.at == c.at {
      Text.LessTransitive(a.id, b.id, c.id);
    }
  }

  lemma BeforeTotal(a: Event, b: Event)
    ensures a.id == b.id || Before(a, b) || Before(b, a)
    ensures !(Before(a, b) && Before(b, a))
  {
    Text.LessTotal(a.id, b.id);
  }

  lemma {:induction false} InsertStrict(sorted: seq<Event>, e: Event)
    requires StrictlySorted(sorted) && forall x | x in sorted :: x.id != e.id
    ensures StrictlySorted(Insert(sorted, e))
  {
    if sorted != [] {
      var front, last := sorted[..|sorted| - 1], sorted[|sorted| - 1];
      BeforeTotal(e, last);
      if Before(e, last) {
        InsertStrict(front, e);
        forall x | x in Insert(front, e) ensures Before(x, last) {
          assert x in multiset(front) + multiset{e};
        }
      } else {
        forall x | x in sorted ensures Before(x, e) {
          if x != last {
            BeforeTransitive(x, last, e);
          }
        }
      }
    }
  }

  lemma {:induction false} SortStrict(events: seq<Event>)
    requires |Ids(events)| == |events|
    ensures StrictlySorted(Sort(events))
  {
    if events != [] {
      var n := |events| - 1;
      var front := events[..n];
      IdsAppend(events, n);
      assert events[..n + 1] == events;
      IdsBounded(events, n);
      SortStrict(front);
      forall x | x in Sort(front) ensures x.id != events[n].id {
        assert x in multiset(front);
        assert x.id in Ids(front);
      }
      InsertStrict(Sort(front), events[n]);
    }
  }

  lemma LastIsGreatest(a: seq<Event>, x: Event)
    requires StrictlySorted(a) && x in multiset(a)
    ensures a != [] && (x == a[|a| - 1] || Before(x, a[|a| - 1]))
  {
    assert x in a;
  }

  lemma SameLast(a: seq<Event>, b: seq<Event>)
    requires StrictlySorted(a) && StrictlySorted(b) && multiset(a) == multiset(b) && a != []
    ensures b != [] && a[|a| - 1] == b[|b| - 1]
  {
    var x := a[|a| - 1];
    LastIsGreatest(b, x);
    var y := b[|b| - 1];
    LastIsGreatest(a, y);
    BeforeTotal(x, y);
  }

  lemma DropLast(a: seq<Event>)
    requires a != []
    ensures multiset(a[..|a| - 1]) == multiset(a) - multiset{a[|a| - 1]}
  {
    assert a == a[..|a| - 1] + [a[|a| - 1]];
  }

  /** Distinct keys leave one strictly sorted arrangement. */
  lemma {:induction false} OneOrder(a: seq<Event>, b: seq<Event>)
    requires StrictlySorted(a) && StrictlySorted(b) && multiset(a) == multiset(b)
    ensures a == b
  {
    assert |a| == |multiset(a)| == |b|;
    if a != [] {
      var n := |a| - 1;
      SameLast(a, b);
      DropLast(a);
      DropLast(b);
      OneOrder(a[..n], b[..n]);
      assert a == a[..n] + [a[n]] && b == b[..n] + [b[n]];
    }
  }

  lemma SameIds(a: seq<Event>, b: seq<Event>)
    requires multiset(a) == multiset(b)
    ensures |a| == |b| && Ids(a) == Ids(b) && (IdsUnique(a) <==> IdsUnique(b))
  {
    assert |a| == |multiset(a)| == |b|;
    assert forall e :: e in a <==> e in multiset(a);
    assert forall e :: e in b <==> e in multiset(b);
  }

  /** The whole result, report or error, is the same for every arrangement of the same events. */
  lemma OrderIsInvisible(a: seq<Event>, b: seq<Event>, since: Option<nat>, v: Evidence, id: string)
    requires multiset(a) == multiset(b)
    ensures BuildReport(a, since, v, id) == BuildReport(b, since, v, id)
  {
    SameIds(a, b);
    if IdsUnique(a) {
      SortStrict(a);
      SortStrict(b);
      OneOrder(Sort(a), Sort(b));
    }
  }

  // ---------------------------------------------------------------- saturation

  function Capped(n: nat): nat {
    if n > MAX then MAX else n
  }

  // ---------------------------------------------------------------- lifecycle writes

  function ChangeOf(e: Event): nat {
    if Summarizes(e) then Number(e.payload, "changed_count") else 0
  }

  /** A summary that reports a change inside the window. */
  predicate Changed(e: Event, since: Option<nat>) {
    ChangeOf(e) > 0 && (since.None? || since.value <= e.at)
  }

  function SummaryCount(events: seq<Event>, since: Option<nat>): nat {
    if events == [] then 0 else One(Changed(events[0], since)) + SummaryCount(events[1..], since)
  }

  function SummaryChanges(events: seq<Event>, since: Option<nat>): nat {
    if events == [] then 0
    else (if Changed(events[0], since) then ChangeOf(events[0]) else 0) + SummaryChanges(events[1..], since)
  }

  ghost predicate Bounded(c: Counters) {
    c.writes <= MAX && c.changes <= MAX && c.hits <= c.recalls && c.injections <= c.projections
      && c.commits <= c.finalizes
  }

  function SummaryChange(e: Event, since: Option<nat>): nat {
    if Changed(e, since) then ChangeOf(e) else 0
  }

  /** `after` counts `writes` more writes and `changes` more changes than `before`, up to saturation. */
  ghost predicate Counted(before: Counters, after: Counters, writes: nat, changes: nat) {
    && after.writes == Capped(before.writes + writes)
    && after.changes == Capped(before.changes + changes)
    && Bounded(after)
  }

  lemma CountedTransitive(a: Counters, b: Counters, c: Counters, w: nat, x: nat, w': nat, x': nat)
    requires Counted(a, b, w, x) && Counted(b, c, w', x')
    ensures Counted(a, c, w + w', x + x')
  {
  }

  lemma ContentCounts(t: Tally, since: Option<nat>, e: Event, t': Tally)
    requires AddContent(t, since, e) == Ok(t') && Bounded(t.counters)
    ensures Counted(t.counters, t'.counters, One(Changed(e, since)), SummaryChange(e, since))
  {
  }

  lemma OutcomeCounts(c: Counters, e: Event, c': Counters)
    requires AddOutcome(c, e) == Ok(c') && Bounded(c)
    ensures Counted(c, c', 0, 0)
  {
  }

  lemma LifecycleStep(t: Tally, since: Option<nat>, e: Event, t': Tally)
    requires AddLifecycle(t, since, e) == Ok(t') && Bounded(t.counters)
    ensures Counted(t.counters, t'.counters, One(Changed(e, since)), SummaryChange(e, since))
  {
    if Succeeded(e) {
      var content := AddContent(t, since, e).value;
      ContentCounts(t, since, e, content);
      OutcomeCounts(content.counters, e, t'.counters);
    }
  }

  lemma {:induction false} LifecycleCounts(t: Tally, since: Option<nat>, events: seq<Event>)
    requires CountLifecycles(t, since, events).Ok? && Bounded(t.counters)
    ensures Counted(t.counters, CountLifecycles(t, since, events).value.counters,
                    SummaryCount(events, since), SummaryChanges(events, since))
    decreases |events|
  {
    if events != [] {
      var t', rest := AddLifecycle(t, since, events[0]).value, events[1..];
      LifecycleStep(t, since, events[0], t');
      LifecycleCounts(t', since, rest);
      CountedTransitive(t.counters, t'.counters, CountLifecycles(t', since, rest).value.counters,
                        One(Changed(events[0], since)), SummaryChange(events[0], since),
                        SummaryCount(rest, since), SummaryChanges(rest, since));
    }
  }

  // ---------------------------------------------------------------- one summary a transaction

  /** What it takes for the summaries to be collected without error. */
  lemma {:induction false} SummariesCover(m: map<string, Summary>, events: seq<Event>)
    requires Summaries(m, events).Ok?
    ensures var found := Summaries(m, events).value;
      && (forall t | t in m :: t in found && found[t] == m[t])
      && (forall e | e in events && Summarizes(e) && Tx(e) != "" ::
            Tx(e) !in m && Tx(e) in found && found[Tx(e)] == Summary(e.at, ChangeOf(e)))
      && (forall e | e in events && Summarizes(e) && Tx(e) == "" :: ChangeOf(e) == 0)
      && (forall t | t in found && t !in m :: exists e :: e in events && Summarizes(e) && Tx(e) == t)
    decreases |events|
  {
    if events != [] {
      var e, m' := events[0], AddSummary(m, events[0]).value;
      SummariesCover(m', events[1..]);
      var found := Summaries(m, events).value;
      forall t | t in found && t !in m ensures exists e :: e in events && Summarizes(e) && Tx(e) == t {
        if t !in m' {
          var x :| x in events[1..] && Summarizes(x) && Tx(x) == t;
          assert x in events;
        } else {
          assert e in events && Summarizes(e) && Tx(e) == t;
        }
      }
    }
  }

  function SummaryIdentities(events: seq<Event>, since: Option<nat>): set<Identity> {
    set e | e in events && Changed(e, since) :: OfTransaction(Tx(e))
  }

  lemma SummaryIdentitiesCons(events: seq<Event>, since: Option<nat>)
    requires events != []
    ensures SummaryIdentities(events, since) ==
            SummaryIdentities(events[1..], since) +
            (if Changed(events[0], since) then {OfTransaction(Tx(events[0]))} else {})
  {
    assert events == [events[0]] + events[1..];
  }

  lemma ChangedIsFresh(m: map<string, Summary>, events: seq<Event>, since: Option<nat>)
    requires events != [] && Summaries(m, events).Ok? && Changed(events[0], since)
    ensures OfTransaction(Tx(events[0])) !in SummaryIdentities(events[1..], since)
  {
    var m' := AddSummary(m, events[0]).value;
    assert Tx(events[0]) in m';
    SummariesCover(m', events[1..]);
  }

  /** Changed summaries belong to different transactions, so counting events counts transactions. */
  lemma {:induction false} SummariesAreDistinct(m: map<string, Summary>, events: seq<Event>, since: Option<nat>)
    requires Summaries(m, events).Ok?
    ensures |SummaryIdentities(events, since)| == SummaryCount(events, since) <= |events|
    ensures SummaryCount(events, since) <= SummaryChanges(events, since)
    decreases |events|
  {
    if events == [] {
      assert SummaryIdentities(events, since) == {};
    } else {
      SummariesAreDistinct(AddSummary(m, events[0]).value, events[1..], since);
      SummaryIdentitiesCons(events, since);
      if Changed(events[0], since) {
        ChangedIsFresh(m, events, since);
      }
    }
  }

  // ---------------------------------------------------------------- raw write entries

  lemma IdentityLessTransitive(a: Identity, b: Identity, c: Identity)
    requires IdentityLess(a, b) && IdentityLess(b, c)
    ensures IdentityLess(a, c)
  {
    if a.OfEvent? == b.OfEvent? == c.OfEvent? {
      Text.LessTransitive(a.id, b.id, c.id);
    }
  }

  lemma IdentityLessTotal(a: Identity, b: Identity)
    ensures a == b <==> !IdentityLess(a, b) && !IdentityLess(b, a)
  {
    Text.LessTotal(a.id, b.id);
  }

  ghost predicate KeysSorted(entries: seq<Entry>) {
    forall i, j | 0 <= i < j < |entries| :: IdentityLess(entries[i].key, entries[j].key)
  }

  /** An identity no summary owns, seen inside the window. */
  predicate Free(key: Identity, at: nat, owned: set<string>, since: Option<nat>) {
    !(key.OfTransaction? && key.id in owned) && (since.None? || since.value <= at)
  }

  function FreeKeys(entries: seq<Entry>, owned: set<string>, since: Option<nat>): set<Identity> {
    set entry | entry in entries && Free(entry.key, entry.at, owned, since) :: entry.key
  }

  function EntryCount(entries: seq<Entry>, owned: set<string>, since: Option<nat>): nat {
    if entries == [] then 0
    else One(Free(entries[0].key, entries[0].at, owned, since)) + EntryCount(entries[1..], owned, since)
  }

  function EntryChanges(entries: seq<Entry>, owned: set<string>, since: Option<nat>): nat {
    if entries == [] then 0
    else (if Free(entries[0].key, entries[0].at, owned, since) then entries[0].changed else 0) +
         EntryChanges(entries[1..], owned, since)
  }

  /** Every entry counts at least one and at most `most` events. */
  ghost predicate Filled(entries: seq<Entry>, most: nat) {
    forall entry | entry in entries :: 1 <= entry.changed <= most
  }

  lemma FreeKeysCons(first: Entry, rest: seq<Entry>, owned: set<string>, since: Option<nat>)
    ensures FreeKeys([first] + rest, owned, since) ==
            FreeKeys(rest, owned, since) + (if Free(first.key, first.at, owned, since) then {first.key} else {})
  {
    assert forall x :: x in [first] + rest <==> x == first || x in rest;
  }

  lemma EntriesCons(first: Entry, rest: seq<Entry>, owned: set<string>, since: Option<nat>)
    ensures EntryChanges([first] + rest, owned, since) ==
            EntryChanges(rest, owned, since) + (if Free(first.key, first.at, owned, since) then first.changed else 0)
  {
    assert ([first] + rest)[1..] == rest;
  }

  lemma {:induction false} UpsertSorted(entries: seq<Entry>, key: Identity, at: nat)
    requires KeysSorted(entries) && Upsert(entries, key, at).Ok?
    ensures KeysSorted(Upsert(entries, key, at).value)
    ensures forall entry | entry in Upsert(entries, key, at).value ::
              entry.key == key || exists known :: known in entries && known.key == entry.key
    decreases |entries|
  {
    if entries == [] {
    } else if IdentityLess(key, entries[0].key) {
      forall i | 0 <= i < |entries| ensures IdentityLess(key, entries[i].key) {
        if i > 0 {
          IdentityLessTransitive(key, entries[0].key, entries[i].key);
        }
      }
    } else if entries[0].key != key {
      IdentityLessTotal(key, entries[0].key);
      UpsertSorted(entries[1..], key, at);
      var rest := Upsert(entries[1..], key, at).value;
      forall entry | entry in rest ensures IdentityLess(entries[0].key, entry.key) {
        if entry.key != key {
          var known :| known in entries[1..] && known.key == entry.key;
        }
      }
    }
  }

  /** One raw event adds its identity, and one change, if it is free. */
  lemma {:induction false} UpsertCounts(entries: seq<Entry>, key: Identity, at: nat, owned: set<string>,
                                        since: Option<nat>, most: nat)
    requires Upsert(entries, key, at).Ok? && Filled(entries, most) && most < MAX
    ensures var r := Upsert(entries, key, at).value;
      && Filled(r, most + 1)
      && FreeKeys(r, owned, since) == FreeKeys(entries, owned, since)
         + (if Free(key, at, owned, since) then {key} else {})
      && EntryChanges(r, owned, since) == EntryChanges(entries, owned, since) + One(Free(key, at, owned, since))
    decreases |entries|
  {
    if entries == [] || IdentityLess(key, entries[0].key) {
      FreeKeysCons(Entry(key, at, 1), entries, owned, since);
      EntriesCons(Entry(key, at, 1), entries, owned, since);
    } else {
      var first, rest := entries[0], entries[1..];
      assert entries == [first] + rest;
      FreeKeysCons(first, rest, owned, since);
      EntriesCons(first, rest, owned, since);
      if first.key == key {
        var first' := first.(changed := Plus(first.changed, 1));
        FreeKeysCons(first', rest, owned, since);
        EntriesCons(first', rest, owned, since);
      } else {
        UpsertCounts(rest, key, at, owned, since, most);
        var rest' := Upsert(rest, key, at).value;
        FreeKeysCons(first, rest', owned, since);
        EntriesCons(first, rest', owned, since);
      }
    }
  }

  /** Distinct keys: the free entries are as many as the free identities, and no more than their changes. */
  lemma {:induction false} EntriesAreDistinct(entries: seq<Entry>, owned: set<string>, since: Option<nat>, most: nat)
    requires KeysSorted(entries) && Filled(entries, most)
    ensures |FreeKeys(entries, owned, since)| == EntryCount(entries, owned, since)
      <= EntryChanges(entries, owned, since)
  {
    if entries == [] {
      assert FreeKeys(entries, owned, since) == {};
    } else {
      var first, rest := entries[0], entries[1..];
      assert entries == [first] + rest;
      FreeKeysCons(first, rest, owned, since);
      EntriesAreDistinct(rest, owned, since, most);
      forall entry | entry in rest ensures entry.key != first.key {
        IdentityLessTotal(first.key, entry.key);
      }
    }
  }

  lemma EntryStep(c: Counters, summaries: map<string, Summary>, since: Option<nat>, entry: Entry)
    requires AddEntry(c, summaries, since, entry).Ok? && Bounded(c)
    ensures var free := Free(entry.key, entry.at, summaries.Keys, since);
      Counted(c, AddEntry(c, summaries, since, entry).value, One(free),
                        if free then entry.changed else 0)
  {
  }

  lemma {:induction false} RawCounts(c: Counters, summaries: map<string, Summary>, since: Option<nat>,
                                     entries: seq<Entry>)
    requires CountRaws(c, summaries, since, entries).Ok? && Bounded(c)
    ensures Counted(c, CountRaws(c, summaries, since, entries).value,
                    EntryCount(entries, summaries.Keys, since), EntryChanges(entries, summaries.Keys, since))
    decreases |entries|
  {
    if entries != [] {
      var c', rest, free := AddEntry(c, summaries, since, entries[0]).value, entries[1..],
                            Free(entries[0].key, entries[0].at, summaries.Keys, since);
      EntryStep(c, summaries, since, entries[0]);
      RawCounts(c', summaries, since, rest);
      CountedTransitive(c, c', CountRaws(c', summaries, since, rest).value, One(free),
                        if free then entries[0].changed else 0,
                        EntryCount(rest, summaries.Keys, since), EntryChanges(rest, summaries.Keys, since));
    }
  }

  /** A raw write event that no summary owns, inside the window. */
  predicate FreeRaw(e: Event, owned: set<string>, since: Option<nat>) {
    WritesMemory(e) && Free(WriteIdentity(e), e.at, owned, since)
  }

  function RawIdentities(events: seq<Event>, owned: set<string>, since: Option<nat>): set<Identity> {
    set e | e in events && FreeRaw(e, owned, since) :: WriteIdentity(e)
  }

  function RawChanges(events: seq<Event>, owned: set<string>, since: Option<nat>): nat {
    if events == [] then 0 else One(FreeRaw(events[0], owned, since)) + RawChanges(events[1..], owned, since)
  }

  lemma RawIdentitiesCons(events: seq<Event>, owned: set<string>, since: Option<nat>)
    requires events != []
    ensures RawIdentities(events, owned, since) ==
            RawIdentities(events[1..], owned, since) +
            (if FreeRaw(events[0], owned, since) then {WriteIdentity(events[0])} else {})
  {
    assert events == [events[0]] + events[1..];
  }

  lemma RawStep(entries: seq<Entry>, e: Event, owned: set<string>, since: Option<nat>, most: nat)
    requires AddRaw(entries, e).Ok? && KeysSorted(entries) && Filled(entries, most) && most < MAX
    ensures var r := AddRaw(entries, e).value;
      && KeysSorted(r)
      && Filled(r, most + 1)
      && FreeKeys(r, owned, since) ==
         FreeKeys(entries, owned, since) + (if FreeRaw(e, owned, since) then {WriteIdentity(e)} else {})
      && EntryChanges(r, owned, since) == EntryChanges(entries, owned, since) + One(FreeRaw(e, owned, since))
  {
    if WritesMemory(e) {
      UpsertSorted(entries, WriteIdentity(e), e.at);
      UpsertCounts(entries, WriteIdentity(e), e.at, owned, since, most);
    }
  }

  /** The entries are exactly the raw identities, and their changes are the raw events. */
  lemma {:induction false} RawsCover(entries: seq<Entry>, events: seq<Event>, owned: set<string>, since: Option<nat>,
                                     most: nat)
    requires Raws(entries, events).Ok? && KeysSorted(entries) && Filled(entries, most) && most + |events| <= MAX
    ensures var r := Raws(entries, events).value;
      && KeysSorted(r)
      && Filled(r, most + |events|)
      && FreeKeys(r, owned, since) == FreeKeys(entries, owned, since) + RawIdentities(events, owned, since)
      && EntryChanges(r, owned, since) == EntryChanges(entries, owned, since) + RawChanges(events, owned, since)
    decreases |events|
  {
    if events != [] {
      var entries' := AddRaw(entries, events[0]).value;
      RawStep(entries, events[0], owned, since, most);
      RawsCover(entries', events[1..], owned, since, most + 1);
      RawIdentitiesCons(events, owned, since);
    }
  }

  // ---------------------------------------------------------------- every write counts once

  /** The transactions that have a lifecycle summary. */
  function Owned(events: seq<Event>): set<string> {
    set e | e in events && Summarizes(e) && Tx(e) != "" :: Tx(e)
  }

  /** The write identities of the window: transactions with a changed summary, and raw identities no summary owns. */
  function WriteIdentities(events: seq<Event>, since: Option<nat>): set<Identity> {
    SummaryIdentities(events, since) + RawIdentities(events, Owned(events), since)
  }

  /** What an event adds to the changes of the window. */
  function Share(owned: set<string>, since: Option<nat>): Event -> nat {
    (e: Event) => if Changed(e, since) then ChangeOf(e) else One(FreeRaw(e, owned, since))
  }

  function Sum(share: Event -> nat, events: seq<Event>): nat {
    if events == [] then 0 else share(events[0]) + Sum(share, events[1..])
  }

  lemma {:induction false} SumAppend(share: Event -> nat, a: seq<Event>, b: seq<Event>)
    ensures Sum(share, a + b) == Sum(share, a) + Sum(share, b)
  {
    if a == [] {
      assert a + b == b;
    } else {
      assert (a + b)[1..] == a[1..] + b;
      SumAppend(share, a[1..], b);
    }
  }

  lemma SumSnoc(share: Event -> nat, a: seq<Event>, e: Event)
    ensures Sum(share, a + [e]) == Sum(share, a) + share(e)
  {
    SumAppend(share, a, [e]);
    assert Sum(share, [e]) == share(e);
  }

  lemma {:induction false} SumInsert(share: Event -> nat, sorted: seq<Event>, e: Event)
    ensures Sum(share, Insert(sorted, e)) == Sum(share, sorted) + share(e)
  {
    if sorted == [] {
      assert Sum(share, [e]) == share(e);
    } else if Before(e, sorted[|sorted| - 1]) {
      var front, last := sorted[..|sorted| - 1], sorted[|sorted| - 1];
      assert sorted == front + [last];
      SumInsert(share, front, e);
      SumSnoc(share, Insert(front, e), last);
      SumSnoc(share, front, last);
    } else {
      SumSnoc(share, sorted, e);
    }
  }

  lemma {:induction false} SumSort(share: Event -> nat, events: seq<Event>)
    ensures Sum(share, Sort(events)) == Sum(share, events)
  {
    if events != [] {
      var front, last := events[..|events| - 1], events[|events| - 1];
      assert events == front + [last];
      SumSort(share, front);
      SumInsert(share, Sort(front), last);
      SumSnoc(share, front, last);
    }
  }

  lemma ShareSplits(e: Event, owned: set<string>, since: Option<nat>)
    ensures Share(owned, since)(e) == SummaryChange(e, since) + One(FreeRaw(e, owned, since))
    ensures One(Changed(e, since)) + One(FreeRaw(e, owned, since)) <= 1
  {
  }

  lemma {:induction false} SumSplits(events: seq<Event>, owned: set<string>, since: Option<nat>)
    ensures Sum(Share(owned, since), events) == SummaryChanges(events, since) + RawChanges(events, owned, since)
    ensures SummaryCount(events, since) + RawChanges(events, owned, since) <= |events|
  {
    if events != [] {
      ShareSplits(events[0], owned, since);
      SumSplits(events[1..], owned, since);
    }
  }

  /** The map of summaries has exactly the owned transactions for keys. */
  lemma SummariesOwn(events: seq<Event>)
    requires Summaries(map[], events).Ok?
    ensures Summaries(map[], events).value.Keys == Owned(events)
  {
    SummariesCover(map[], events);
    assert "" !in Summaries(map[], events).value by {
      SummariesNamed(map[], events);
    }
  }

  lemma {:induction false} SummariesNamed(m: map<string, Summary>, events: seq<Event>)
    requires Summaries(m, events).Ok? && "" !in m
    ensures "" !in Summaries(m, events).value
    decreases |events|
  {
    if events != [] {
      SummariesNamed(AddSummary(m, events[0]).value, events[1..]);
    }
  }

  lemma IdentitiesAreDisjoint(events: seq<Event>, since: Option<nat>)
    requires Summaries(map[], events).Ok?
    ensures SummaryIdentities(events, since) !! RawIdentities(events, Owned(events), since)
  {
    SummariesCover(map[], events);
  }

  /** The two stages together: the identities and changes that are left to count. */
  lemma StagesAddUp(events: seq<Event>, entries: seq<Entry>, since: Option<nat>)
    requires Summaries(map[], events).Ok? && Raws([], events) == Ok(entries) && |events| <= MAX
    ensures var owned := Owned(events);
      && EntryCount(entries, owned, since) + SummaryCount(events, since) == |WriteIdentities(events, since)| <= |events|
      && EntryChanges(entries, owned, since) + SummaryChanges(events, since) == Sum(Share(owned, since), events)
      && |WriteIdentities(events, since)| <= Sum(Share(owned, since), events)
  {
    var owned := Owned(events);
    RawsCover([], events, owned, since, 0);
    EntriesAreDistinct(entries, owned, since, |events|);
    SummariesAreDistinct(map[], events, since);
    IdentitiesAreDisjoint(events, since);
    SumSplits(events, owned, since);
  }

  lemma StagesCount(events: seq<Event>, summaries: map<string, Summary>, entries: seq<Entry>, c0: Counters,
                    since: Option<nat>)
    requires Bounded(c0) && CountRaws(c0, summaries, since, entries).Ok?
    requires CountLifecycles(Tally(CountRaws(c0, summaries, since, entries).value, None), since, events).Ok?
    ensures Counted(c0,
                    CountLifecycles(Tally(CountRaws(c0, summaries, since, entries).value, None), since,
                      events).value.counters,
                    EntryCount(entries, summaries.Keys, since) + SummaryCount(events, since),
                    EntryChanges(entries, summaries.Keys, since) + SummaryChanges(events, since))
  {
    var c := CountRaws(c0, summaries, since, entries).value;
    RawCounts(c0, summaries, since, entries);
    LifecycleCounts(Tally(c, None), since, events);
    CountedTransitive(c0, c, CountLifecycles(Tally(c, None), since, events).value.counters,
                      EntryCount(entries, summaries.Keys, since), EntryChanges(entries, summaries.Keys, since),
                      SummaryCount(events, since), SummaryChanges(events, since));
  }

  /** The stages of a successful report. */
  lemma ReportStages(events: seq<Event>, since: Option<nat>, v: Evidence, id: string, r: Report)
    returns (summaries: map<string, Summary>, entries: seq<Entry>, counted: Counters, t: Tally)
    requires SortedReport(events, since, v, id) == Ok(r)
    ensures Summaries(map[], events) == Ok(summaries) && Raws([], events) == Ok(entries)
    ensures CountRaws(Zeros(v.admitted), summaries, since, entries) == Ok(counted)
    ensures CountLifecycles(Tally(counted, None), since, events) == Ok(t) && r == Finish(t, since, v, id)
  {
    summaries, entries := Summaries(map[], events).value, Raws([], events).value;
    counted := CountRaws(Zeros(v.admitted), summaries, since, entries).value;
    t := CountLifecycles(Tally(counted, None), since, events).value;
  }

  lemma CountsOverSorted(events: seq<Event>, since: Option<nat>, v: Evidence, id: string, r: Report)
    requires SortedReport(events, since, v, id) == Ok(r) && |events| <= MAX
    ensures Counted(Zeros(v.admitted), r.counters, |WriteIdentities(events, since)|,
      Sum(Share(Owned(events), since), events))
    ensures |WriteIdentities(events, since)| <= MAX
    ensures |WriteIdentities(events, since)| <= Sum(Share(Owned(events), since), events)
  {
    var summaries, entries, counted, t := ReportStages(events, since, v, id, r);
    SummariesOwn(events);
    StagesAddUp(events, entries, since);
    StagesCount(events, summaries, entries, Zeros(v.admitted), since);
  }

  lemma SameElements(a: seq<Event>, b: seq<Event>, since: Option<nat>)
    requires multiset(a) == multiset(b)
    ensures WriteIdentities(a, since) == WriteIdentities(b, since) && Owned(a) == Owned(b)
  {
    assert forall e :: e in a <==> e in multiset(a);
    assert forall e :: e in b <==> e in multiset(b);
  }

  /** On success every write identity of the window is counted exactly once, whatever arrangement the events came in. */
  lemma WritesCountOnce(events: seq<Event>, since: Option<nat>, v: Evidence, id: string)
    requires BuildReport(events, since, v, id).Ok?
    ensures var c := BuildReport(events, since, v, id).value.counters;
      && c.writes == |WriteIdentities(events, since)|
      && c.changes == Capped(Sum(Share(Owned(events), since), events))
      && c.writes <= c.changes
      && c.hits <= c.recalls && c.injections <= c.projections && c.commits <= c.finalizes
  {
    assert |Sort(events)| == |multiset(Sort(events))| == |events|;
    CountsOverSorted(Sort(events), since, v, id, BuildReport(events, since, v, id).value);
    SameElements(Sort(events), events, since);
    SumSort(Share(Owned(events), since), events);
  }

  // ---------------------------------------------------------------- the other counters

  /** The counters that only lifecycle events move. */
  datatype Meter = Recalls | Hits | Projections | Injections | Maintenances | Finalizes | Commits | Deferred | Exports
      | Imports

  function Read(c: Counters, m: Meter): nat {
    match m
    case Recalls => c.recalls
    case Hits => c.hits
    case Projections => c.projections
    case Injections => c.injections
    case Maintenances => c.maintenances
    case Finalizes => c.finalizes
    case Commits => c.commits
    case Deferred => c.deferred
    case Exports => c.exports
    case Imports => c.imports
  }

  /** A successful lifecycle event with the given operation and result. */
  predicate Completed(e: Event, operation: string, summary: string) {
    && Succeeded(e)
    && Is(e.payload, "operation", operation) && Is(e.payload, "result_summary", summary)
  }

  predicate IsRecall(e: Event) {
    Completed(e, "recall", "recall_completed") && Is(e.payload, "trigger", "sdk_call")
  }

  predicate IsProjection(e: Event) {
    Completed(e, "project", "projection_completed")
  }

  predicate Says(e: Event, key: string) {
    Succeeded(e) && Is(e.payload, key, "true")
  }

  /** The events a counter stands for. */
  predicate Moves(e: Event, m: Meter) {
    match m
    case Recalls => IsRecall(e)
    case Hits => IsRecall(e) && Says(e, "memory_hit")
    case Projections => IsProjection(e)
    case Injections => IsProjection(e) && Says(e, "projection_injected")
    case Maintenances => Completed(e, "maintain", "maintenance_completed")
    case Finalizes => Says(e, "finalize_request")
    case Commits => Says(e, "finalize_request") && Says(e, "finalize_committed")
    case Deferred => Says(e, "deferred_governance_job")
    case Exports => Completed(e, "export", "export_completed")
    case Imports => Completed(e, "import", "import_completed")
  }

  function Moved(m: Meter): Event -> nat {
    (e: Event) => One(Moves(e, m))
  }

  /** `after` reads `n` more than `before`, up to saturation. */
  ghost predicate Metered(before: Counters, after: Counters, m: Meter, n: nat) {
    Read(after, m) == Capped(Read(before, m) + n) && after.storeEvents == before.storeEvents
  }

  lemma MeteredTransitive(a: Counters, b: Counters, c: Counters, m: Meter, n: nat, n': nat)
    requires Metered(a, b, m, n) && Metered(b, c, m, n')
    ensures Metered(a, c, m, n + n')
  {
  }

  predicate ReportsContent(m: Meter) {
    m.Recalls? || m.Hits? || m.Projections? || m.Injections?
  }

  lemma ContentMeters(t: Tally, since: Option<nat>, e: Event, t': Tally, m: Meter)
    requires Succeeded(e) && AddContent(t, since, e) == Ok(t') && Read(t.counters, m) <= MAX
    ensures Metered(t.counters, t'.counters, m, One(ReportsContent(m) && Moves(e, m)))
  {
  }

  lemma OutcomeMeters(c: Counters, e: Event, c': Counters, m: Meter)
    requires Succeeded(e) && AddOutcome(c, e) == Ok(c') && Read(c, m) <= MAX
    ensures Metered(c, c', m, One(!ReportsContent(m) && Moves(e, m)))
  {
  }

  lemma OnlySuccessMoves(e: Event, m: Meter)
    requires Moves(e, m)
    ensures Succeeded(e)
  {
  }

  lemma MeterStep(t: Tally, since: Option<nat>, e: Event, t': Tally, m: Meter)
    requires AddLifecycle(t, since, e) == Ok(t') && Read(t.counters, m) <= MAX
    ensures Metered(t.counters, t'.counters, m, One(Moves(e, m)))
  {
    if Succeeded(e) {
      var content := AddContent(t, since, e).value;
      ContentMeters(t, since, e, content, m);
      OutcomeMeters(content.counters, e, t'.counters, m);
    } else if Moves(e, m) {
      OnlySuccessMoves(e, m);
    }
  }

  lemma {:induction false} MeterCounts(t: Tally, since: Option<nat>, events: seq<Event>, m: Meter)
    requires CountLifecycles(t, since, events).Ok? && Read(t.counters, m) <= MAX
    ensures Metered(t.counters, CountLifecycles(t, since, events).value.counters, m, Sum(Moved(m), events))
    decreases |events|
  {
    if events != [] {
      var t' := AddLifecycle(t, since, events[0]).value;
      MeterStep(t, since, events[0], t', m);
      MeterCounts(t', since, events[1..], m);
      MeteredTransitive(t.counters, t'.counters, CountLifecycles(t', since, events[1..]).value.counters, m,
                        One(Moves(events[0], m)), Sum(Moved(m), events[1..]));
    }
  }

  lemma {:induction false} RawsMoveNoMeter(c: Counters, summaries: map<string, Summary>, since: Option<nat>,
                                           entries: seq<Entry>, m: Meter)
    requires CountRaws(c, summaries, since, entries).Ok?
    ensures var c' := CountRaws(c, summaries, since, entries).value;
      Read(c', m) == Read(c, m) && c'.storeEvents == c.storeEvents
    decreases |entries|
  {
    if entries != [] {
      RawsMoveNoMeter(AddEntry(c, summaries, since, entries[0]).value, summaries, since, entries[1..], m);
    }
  }

  lemma MetersOverSorted(sorted: seq<Event>, since: Option<nat>, v: Evidence, id: string, m: Meter)
    requires SortedReport(sorted, since, v, id).Ok?
    ensures Metered(Zeros(v.admitted), SortedReport(sorted, since, v, id).value.counters, m, Sum(Moved(m), sorted))
  {
    var summaries, entries := Summaries(map[], sorted).value, Raws([], sorted).value;
    RawsMoveNoMeter(Zeros(v.admitted), summaries, since, entries, m);
    var counted := CountRaws(Zeros(v.admitted), summaries, since, entries).value;
    MeterCounts(Tally(counted, None), since, sorted, m);
  }

  /** On success every other counter is the saturated number of the events it stands for. */
  lemma MetersCountEvents(events: seq<Event>, since: Option<nat>, v: Evidence, id: string, m: Meter)
    requires BuildReport(events, since, v, id).Ok?
    ensures var c := BuildReport(events, since, v, id).value.counters;
      Read(c, m) == Capped(Sum(Moved(m), events)) && c.storeEvents == |events|
  {
    MetersOverSorted(Sort(events), since, v, id, m);
    SumSort(Moved(m), events);
  }

  // ---------------------------------------------------------------- the latest projection

  /** What the report shows of a projection. */
  function Shown(e: Event): Projection {
    Projection(e.at, e.id,
               if IsNumber(e.payload, "system_memory_chars") then Number(e.payload, "system_memory_chars") else 0)
  }

  /** `after` shows the last projection of `events`, or still `before` if there is none. */
  ghost predicate ShowsLast(before: Option<Projection>, after: Option<Projection>, events: seq<Event>) {
    || (after == before && forall e | e in events :: !IsProjection(e))
    || exists i :: 0 <= i < |events| && IsProjection(events[i]) && after == Some(Shown(events[i])) &&
                   forall j | i < j < |events| :: !IsProjection(events[j])
  }

  lemma LatestStep(t: Tally, since: Option<nat>, e: Event)
    requires AddLifecycle(t, since, e).Ok?
    ensures AddLifecycle(t, since, e).value.latest == if IsProjection(e) then Some(Shown(e)) else t.latest
  {
  }

  lemma ShowsLastCons(before: Option<Projection>, after: Option<Projection>, events: seq<Event>)
    requires events != []
    requires ShowsLast(if IsProjection(events[0]) then Some(Shown(events[0])) else before, after, events[1..])
    ensures ShowsLast(before, after, events)
  {
    var rest := events[1..];
    if exists i :: 0 <= i < |rest| && IsProjection(rest[i]) && after == Some(Shown(rest[i])) &&
                   forall j | i < j < |rest| :: !IsProjection(rest[j]) {
      var i :| 0 <= i < |rest| && IsProjection(rest[i]) && after == Some(Shown(rest[i])) &&
               forall j | i < j < |rest| :: !IsProjection(rest[j]);
      assert IsProjection(events[i + 1]);
      assert forall j | i + 1 < j < |events| :: events[j] == rest[j - 1];
    } else if IsProjection(events[0]) {
      assert forall j | 0 < j < |events| :: events[j] == rest[j - 1] && events[j] in rest;
    } else {
      assert events == [events[0]] + rest;
    }
  }

  lemma {:induction false} LatestIsLast(t: Tally, since: Option<nat>, events: seq<Event>)
    requires CountLifecycles(t, since, events).Ok?
    ensures ShowsLast(t.latest, CountLifecycles(t, since, events).value.latest, events)
    decreases |events|
  {
    if events != [] {
      LatestStep(t, since, events[0]);
      LatestIsLast(AddLifecycle(t, since, events[0]).value, since, events[1..]);
      ShowsLastCons(t.latest, CountLifecycles(t, since, events).value.latest, events);
    }
  }

  /** `p` is the greatest projection of `events` in (timestamp, id) order. */
  ghost predicate IsGreatestProjection(p: Event, events: seq<Event>) {
    && p in events && IsProjection(p)
    && forall q | q in events && IsProjection(q) ::
         q == p || q.at < p.at || (q.at == p.at && Text.Less(q.id, p.id))
  }

  lemma LastIsGreatestProjection(latest: Option<Projection>, sorted: seq<Event>)
    requires StrictlySorted(sorted) && ShowsLast(None, latest, sorted)
    ensures latest.None? ==> forall e | e in sorted :: !IsProjection(e)
    ensures latest.Some? ==> exists p :: IsGreatestProjection(p, sorted) && latest.value == Shown(p)
  {
    if latest.Some? {
      var i :| 0 <= i < |sorted| && IsProjection(sorted[i]) && latest == Some(Shown(sorted[i])) &&
               forall j | i < j < |sorted| :: !IsProjection(sorted[j]);
      assert IsGreatestProjection(sorted[i], sorted);
    }
  }

  /** The report shows the greatest projection, and nothing exactly when there is none. */
  ghost predicate ShowsGreatest(r: Report, events: seq<Event>) {
    if r.latestAt.None? then r.latestChars.None? && forall e | e in events :: !IsProjection(e)
    else exists p ::
      IsGreatestProjection(p, events) && r.latestAt == Some(p.at) && r.latestChars == Some(Shown(p).chars)
  }

  lemma LatestOverSorted(sorted: seq<Event>, since: Option<nat>, v: Evidence, id: string)
    requires StrictlySorted(sorted) && SortedReport(sorted, since, v, id).Ok?
    ensures ShowsGreatest(SortedReport(sorted, since, v, id).value, sorted)
  {
    var summaries, entries := Summaries(map[], sorted).value, Raws([], sorted).value;
    var counted := CountRaws(Zeros(v.admitted), summaries, since, entries).value;
    LatestIsLast(Tally(counted, None), since, sorted);
    LastIsGreatestProjection(CountLifecycles(Tally(counted, None), since, sorted).value.latest, sorted);
  }

  lemma GreatestOfSame(r: Report, a: seq<Event>, b: seq<Event>)
    requires multiset(a) == multiset(b) && ShowsGreatest(r, a)
    ensures ShowsGreatest(r, b)
  {
    assert forall e :: e in a <==> e in multiset(a);
    assert forall e :: e in b <==> e in multiset(b);
    if r.latestAt.Some? {
      var p :| IsGreatestProjection(p, a) && r.latestAt == Some(p.at) && r.latestChars == Some(Shown(p).chars);
      assert IsGreatestProjection(p, b);
    }
  }

  lemma LatestIsGreatest(events: seq<Event>, since: Option<nat>, v: Evidence, id: string)
    requires BuildReport(events, since, v, id).Ok?
    ensures ShowsGreatest(BuildReport(events, since, v, id).value, events)
  {
    SortStrict(events);
    LatestOverSorted(Sort(events), since, v, id);
    GreatestOfSame(BuildReport(events, since, v, id).value, Sort(events), events);
  }

  /** The report repeats what was asked and the evidence it was built from. */
  lemma ReportRepeatsTheQuery(events: seq<Event>, since: Option<nat>, v: Evidence, id: string)
    requires BuildReport(events, since, v, id).Ok?
    ensures var r := BuildReport(events, since, v, id).value;
      r.budgetReportId == id && r.since == since && r.evidence == v
  {
  }

  // ---------------------------------------------------------------- failed events

  /** A lifecycle event that validates as failed carries none of the outcomes that are counted for successful ones. */
  lemma FailedEventsClaimNothing(e: Event)
    requires e.kind.RuntimeLifecycle? && Completion(e) == Ok(false)
    ensures ClaimsNothing(e.payload)
  {
  }

  // ---------------------------------------------------------------- which identities are counted

  /** The transaction has a summary that reports a change inside the window. */
  ghost predicate SummaryCounts(events: seq<Event>, since: Option<nat>, tx: string) {
    exists e :: e in events && Summarizes(e) && Tx(e) == tx && Number(e.payload, "changed_count") > 0 &&
                (since.None? || since.value <= e.at)
  }

  ghost predicate HasSummary(events: seq<Event>, tx: string) {
    exists e :: e in events && Summarizes(e) && Tx(e) == tx
  }

  /** There is a memory write with that transaction text inside the window; the text may be empty. */
  ghost predicate WritesInWindow(events: seq<Event>, since: Option<nat>, tx: string) {
    exists e :: e in events && WritesMemory(e) && Tx(e) == tx && (since.None? || since.value <= e.at)
  }

  ghost predicate EventCounts(events: seq<Event>, since: Option<nat>, id: string) {
    exists e :: e in events && WritesMemory(e) && Tx(e) == "" && e.id == id && (since.None? || since.value <= e.at)
  }

  /** A transaction counts if its summary reports a change inside the window, or if it has no summary and a memory
      write inside the window; a memory write without a transaction counts for itself. */
  lemma IdentitiesCounted(events: seq<Event>, since: Option<nat>, id: Identity)
    requires Summaries(map[], events).Ok?
    ensures id in WriteIdentities(events, since) <==>
            if id.OfEvent? then EventCounts(events, since, id.id)
            else
              || SummaryCounts(events, since, id.id)
              || (id.id != "" && !HasSummary(events, id.id) && WritesInWindow(events, since, id.id))
  {
    if id in SummaryIdentities(events, since) {
      var e :| e in events && Changed(e, since) && id == OfTransaction(Tx(e));
      assert SummaryCounts(events, since, Tx(e));
    }
    if id in RawIdentities(events, Owned(events), since) {
      var e :| e in events && FreeRaw(e, Owned(events), since) && id == WriteIdentity(e);
      assert Tx(e) in Owned(events) <==> Tx(e) != "" && HasSummary(events, Tx(e));
    }
    match id
    case OfEvent(name) =>
      if e :| e in events && WritesMemory(e) && Tx(e) == "" && e.id == name && (since.None? || since.value <= e.at) {
        assert FreeRaw(e, Owned(events), since) && WriteIdentity(e) == id;
      }
    case OfTransaction(tx) =>
      if e :| e in events && Summarizes(e) && Tx(e) == tx && Number(e.payload, "changed_count") > 0 &&
              (since.None? || since.value <= e.at) {
        assert Changed(e, since);
      }
      if tx != "" && !HasSummary(events, tx) {
        if e :| e in events && WritesMemory(e) && Tx(e) == tx && (since.None? || since.value <= e.at) {
          assert FreeRaw(e, Owned(events), since) && WriteIdentity(e) == id;
        }
      }
  }
}
