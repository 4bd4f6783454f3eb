/** What the front does to a connection, said of its runs: when its read is interrupted, and how its call returns. */
module NetworkOutcomes {

  import opened Wrappers
  import opened NetworkFront

  // ---------------------------------------------------------------- leaving the registry

  predicate Holds(r: Registry, t: Ticket, id: nat) {
    id in r.active && r.active[id].ticket == t
  }

  ghost predicate Leaves(r: Registry, r': Registry, t: Ticket, why: Departure) {
    t !in r.left && t in r'.left && r'.left[t] == why
  }

  /** What makes the connection of `t` leave: its deadline at a supervisor pass, the sweep of `shutdown`, or a lease
      that ends with its id. */
  ghost predicate Cause(s: Front, step: Step, t: Ticket, why: Departure) {
    match why
    case Expired =>
      && step.Global? && step.g.Supervise? && !s.registry.stopping
      && exists id :: Holds(s.registry, t, id) && s.registry.active[id].expiresAt <= s.clock
    case Swept => step == Global(StopReads) && exists id :: Holds(s.registry, t, id)
    case Completed =>
      var ending := Ends(s, step); ending.Some? && ending.value in s.ids && Holds(s.registry, t, s.ids[ending.value])
  }

  lemma DepartLeaves(r: Registry, ids: map<Ticket, nat>, gone: set<nat>, why: Departure, t: Ticket, w: Departure)
    requires BooksBalanced(r, ids)
    ensures Leaves(r, Depart(r, gone, why), t, w) <==> w == why && exists id :: id in gone && Holds(r, t, id)
  {
    var r' := Depart(r, gone, why);
    if Leaves(r, r', t, w) {
      var id :| id in gone && id in r.active && r.active[id].ticket == t;
      assert Holds(r, t, id);
    }
    if id :| id in gone && Holds(r, t, id) {
      assert r.active[id].ticket in r'.left;
    }
  }

  lemma SuperviseLeaves(s: Front, lag: nat, first: Option<nat>, t: Ticket, why: Departure)
    requires BooksBalanced(s.registry, s.ids)
    ensures Leaves(s.registry, Supervised(s, lag, first).registry, t, why) <==>
            Cause(s, Global(Supervise(lag, first)), t, why)
  {
    if !s.registry.stopping {
      DepartLeaves(s.registry, s.ids, Due(s.registry, s.clock), Expired, t, why);
    }
  }

  lemma SweepLeaves(s: Front, t: Ticket, why: Departure)
    requires BooksBalanced(s.registry, s.ids)
    ensures Leaves(s.registry, Sweep(s.registry), t, why) <==> Cause(s, Global(StopReads), t, why)
  {
    DepartLeaves(s.registry, s.ids, s.registry.active.Keys, Swept, t, why);
  }

  lemma CompleteLeaves(s: Front, step: Step, ending: Ticket, t: Ticket, why: Departure)
    requires BooksBalanced(s.registry, s.ids) && Ends(s, step) == Some(ending) && ending in s.ids
    ensures Leaves(s.registry, Complete(s.registry, s.ids[ending]), t, why) <==> Cause(s, step, t, why)
  {
    DepartLeaves(s.registry, s.ids, {s.ids[ending]}, Completed, t, why);
  }

  lemma StepLeaves(s: Front, step: Step, t: Ticket, why: Departure)
    requires Inv(s) && Enabled(s, step)
    ensures Leaves(s.registry, Apply(s, step).registry, t, why) <==> Cause(s, step, t, why)
  {
    assert BooksBalanced(s.registry, s.ids);
    if Ends(s, step).Some? {
      EndsWithId(s, step);
      CompleteLeaves(s, step, Ends(s, step).value, t, why);
    } else if step.Global? && step.g.Supervise? {
      SuperviseLeaves(s, step.g.lag, step.g.first, t, why);
    } else if step == Global(StopReads) {
      SweepLeaves(s, t, why);
    } else {
      OthersStay(s, step);
    }
  }

  lemma EndsWithId(s: Front, step: Step)
    requires Inv(s) && Enabled(s, step) && Ends(s, step).Some?
    ensures Ends(s, step).value in s.ids
    ensures Apply(s, step).registry == Complete(s.registry, s.ids[Ends(s, step).value])
  {
  }

  lemma OthersStay(s: Front, step: Step)
    requires Enabled(s, step) && Ends(s, step).None?
    requires !(step.Global? && step.g.Supervise?) && step != Global(StopReads)
    ensures Apply(s, step).registry.left == s.registry.left
  {
  }

  /** In every run a connection leaves the registry exactly when there is a cause, and for that reason. */
  lemma LeavesExactly(run: seq<Front>, steps: seq<Step>, i: nat, t: Ticket, why: Departure)
    requires IsRun(run, steps) && i < |steps|
    ensures Leaves(run[i].registry, run[i + 1].registry, t, why) <==> Cause(run[i], steps[i], t, why)
  {
    InvAlways(run, steps, i);
    RunStep(run, steps, i);
    StepLeaves(run[i], steps[i], t, why);
  }

  /** A supervisor pass keeps exactly the connections whose deadline is still to come. */
  lemma PassKeepsExactly(run: seq<Front>, steps: seq<Step>, i: nat, id: nat)
    requires IsRun(run, steps) && i < |steps| && steps[i].Global? && steps[i].g.Supervise?
    requires !run[i].registry.stopping
    ensures id in run[i + 1].registry.active <==>
            id in run[i].registry.active && run[i].clock < run[i].registry.active[id].expiresAt
    ensures id in run[i + 1].registry.active ==> run[i + 1].registry.active[id] == run[i].registry.active[id]
  {
    RunStep(run, steps, i);
  }

  // ---------------------------------------------------------------- the read deadline

  lemma ConfigurationStep(s: Front, step: Step)
    requires Enabled(s, step)
    ensures Apply(s, step).readDeadline == s.readDeadline && Apply(s, step).maxInFlight == s.maxInFlight
  {
  }

  lemma {:induction false} ConfigurationStays(run: seq<Front>, steps: seq<Step>, i: nat)
    requires IsRun(run, steps) && i < |run|
    ensures run[i].readDeadline == run[0].readDeadline && run[i].maxInFlight == run[0].maxInFlight
  {
    if i > 0 {
      ConfigurationStays(run, steps, i - 1);
      RunStep(run, steps, i - 1);
      ConfigurationStep(run[i - 1], steps[i - 1]);
    }
  }

  /** In step `a` the call `t` configures its socket and takes the time. */
  ghost predicate ConfiguresAt(run: seq<Front>, steps: seq<Step>, a: nat, t: Ticket)
    requires |run| == |steps| + 1
  {
    a < |steps| && steps[a] == Advance(t, true) && t in run[a].dispatches && run[a].dispatches[t].Configuring?
  }

  lemma NumberedStep(s: Front, step: Step, t: Ticket)
    requires Enabled(s, step)
    ensures var s' := Apply(s, step);
      t in s'.dispatches && s'.dispatches[t].Numbered? ==>
        && t in s.dispatches
        && (s'.dispatches[t] == s.dispatches[t] ||
            (step == Advance(t, true) && s.dispatches[t].Configuring? &&
             s'.dispatches[t] == Numbered(s.clock + s.readDeadline)))
  {
  }

  lemma {:induction false} NumberedFrom(run: seq<Front>, steps: seq<Step>, i: nat, t: Ticket) returns (a: nat)
    requires IsRun(run, steps) && i < |run| && t in run[i].dispatches && run[i].dispatches[t].Numbered?
    ensures a < i && ConfiguresAt(run, steps, a, t)
    ensures run[i].dispatches[t].expiresAt == run[a].clock + run[0].readDeadline
  {
    RunStep(run, steps, i - 1);
    NumberedStep(run[i - 1], steps[i - 1], t);
    if run[i].dispatches[t] == run[i - 1].dispatches[t] {
      a := NumberedFrom(run, steps, i - 1, t);
    } else {
      ConfigurationStays(run, steps, i - 1);
      a := i - 1;
    }
  }

  lemma ArmedStep(s: Front, step: Step, id: nat)
    requires Enabled(s, step)
    ensures var s' := Apply(s, step);
      id in s'.registry.active ==>
        var e := s'.registry.active[id];
        || (id in s.registry.active && s.registry.active[id] == e)
        || (e.ticket in s.dispatches && s.dispatches[e.ticket] == Numbered(e.expiresAt))
  {
  }

  /** The deadline of a registered connection is the configured time after its call took the time. */
  lemma {:induction false} DeadlineIsFull(run: seq<Front>, steps: seq<Step>, i: nat, id: nat) returns (a: nat)
    requires IsRun(run, steps) && i < |run| && id in run[i].registry.active
    ensures a < i && ConfiguresAt(run, steps, a, run[i].registry.active[id].ticket)
    ensures run[i].registry.active[id].expiresAt == run[a].clock + run[0].readDeadline
  {
    RunStep(run, steps, i - 1);
    ArmedStep(run[i - 1], steps[i - 1], id);
    if id in run[i - 1].registry.active && run[i - 1].registry.active[id] == run[i].registry.active[id] {
      a := DeadlineIsFull(run, steps, i - 1, id);
    } else {
      a := NumberedFrom(run, steps, i - 1, run[i].registry.active[id].ticket);
    }
  }

  /** No read is interrupted for its deadline before the configured time has passed since its call took the time. */
  lemma ExpiresOnTime(run: seq<Front>, steps: seq<Step>, i: nat, t: Ticket) returns (a: nat)
    requires IsRun(run, steps) && i < |steps| && Leaves(run[i].registry, run[i + 1].registry, t, Expired)
    ensures a < i && ConfiguresAt(run, steps, a, t) && run[a].clock + run[0].readDeadline <= run[i].clock
  {
    LeavesExactly(run, steps, i, t, Expired);
    var id :| Holds(run[i].registry, t, id) && run[i].registry.active[id].expiresAt <= run[i].clock;
    a := DeadlineIsFull(run, steps, i, id);
  }

  // ---------------------------------------------------------------- how a call returns

  /** The permit a call could not use is given back only after a failure: the branches of the send that refuse are
      never taken. */
  ghost predicate OnlyFails(dispatches: map<Ticket, Dispatch>) {
    forall t | t in dispatches ::
      !dispatches[t].DroppingLease? && (dispatches[t].DroppingPermit? ==> dispatches[t].outcome == Failed)
  }

  lemma OnlyFailsMoves(dispatches: map<Ticket, Dispatch>, t: Ticket, d: Dispatch)
    requires OnlyFails(dispatches) && !d.DroppingLease? && (d.DroppingPermit? ==> d.outcome == Failed)
    ensures OnlyFails(dispatches[t := d])
  {
  }

  lemma OnlyFailsStep(run: seq<Front>, steps: seq<Step>, i: nat)
    requires IsRun(run, steps) && i < |steps| && OnlyFails(run[i].dispatches)
    ensures OnlyFails(run[i + 1].dispatches)
  {
    RunStep(run, steps, i);
    match steps[i]
    case Start(t) => OnlyFailsMoves(run[i].dispatches, t, run[i + 1].dispatches[t]);
    case Advance(t, lucky) =>
      if run[i].dispatches[t].Sending? {
        SendAlwaysAccepts(run, steps, i, t);
      }
      OnlyFailsMoves(run[i].dispatches, t, run[i + 1].dispatches[t]);
    case _ =>
  }

  lemma {:induction false} OnlyFailsAlways(run: seq<Front>, steps: seq<Step>, i: nat)
    requires IsRun(run, steps) && i < |run|
    ensures OnlyFails(run[i].dispatches)
  {
    if i > 0 {
      OnlyFailsAlways(run, steps, i - 1);
      OnlyFailsStep(run, steps, i - 1);
    }
  }

  predicate HasReturned(s: Front, t: Ticket) {
    t in s.dispatches && s.dispatches[t].Returned?
  }

  /** Why a call returns with an outcome: it found the sender gone, it compared a full count, it was queued, or it
      gave its permit back. */
  ghost predicate Because(s: Front, step: Step, t: Ticket, outcome: Outcome) {
    match outcome
    case RejectedShuttingDown => step == Start(t) && !s.senderOpen
    case RejectedSaturated =>
      && step.Advance? && step.t == t && t in s.dispatches
      && s.dispatches[t].Comparing? && s.dispatches[t].current >= s.maxInFlight
    case Accepted => step.Advance? && step.t == t && t in s.dispatches && s.dispatches[t].Sending?
    case Failed => step.Advance? && step.t == t && t in s.dispatches && s.dispatches[t] == DroppingPermit(Failed)
  }

  /** In every run a call returns with an outcome exactly when it has the reason for it. */
  lemma ReturnsExactly(run: seq<Front>, steps: seq<Step>, i: nat, t: Ticket, outcome: Outcome)
    requires IsRun(run, steps) && i < |steps|
    ensures !HasReturned(run[i], t) && t in run[i + 1].dispatches && run[i + 1].dispatches[t] == Returned(outcome) <==>
            Because(run[i], steps[i], t, outcome)
  {
    OnlyFailsAlways(run, steps, i);
    RunStep(run, steps, i);
    if steps[i].Advance? && run[i].dispatches[steps[i].t].Sending? {
      SendAlwaysAccepts(run, steps, i, steps[i].t);
    }
  }

  lemma ReturnedStays(s: Front, step: Step, t: Ticket)
    requires Enabled(s, step) && HasReturned(s, t)
    ensures t in Apply(s, step).dispatches && Apply(s, step).dispatches[t] == s.dispatches[t]
  {
  }

  /** The call that has returned did so in one step, for its reason. */
  lemma {:induction false} ReturnedFor(run: seq<Front>, steps: seq<Step>, j: nat, t: Ticket) returns (i: nat)
    requires IsRun(run, steps) && j < |run| && HasReturned(run[j], t)
    ensures i < j && Because(run[i], steps[i], t, run[j].dispatches[t].outcome)
  {
    if HasReturned(run[j - 1], t) {
      RunStep(run, steps, j - 1);
      ReturnedStays(run[j - 1], steps[j - 1], t);
      i := ReturnedFor(run, steps, j - 1, t);
    } else {
      i := j - 1;
      ReturnsExactly(run, steps, i, t, run[j].dispatches[t].outcome);
    }
  }

  // ---------------------------------------------------------------- refused only when full

  lemma ComparingStep(s: Front, step: Step, t: Ticket)
    requires Enabled(s, step)
    ensures var s' := Apply(s, step);
      t in s'.dispatches && s'.dispatches[t].Comparing? ==>
        && t in s.dispatches
        && (s'.dispatches[t] == s.dispatches[t] ||
            (s'.dispatches[t].current == s.inFlight && (s.dispatches[t].Loading? || s.dispatches[t].Comparing?)))
  {
  }

  /** The count a call compares is the count of permits at some moment of the call. */
  lemma {:induction false} CountWasRead(run: seq<Front>, steps: seq<Step>, j: nat, t: Ticket) returns (m: nat)
    requires IsRun(run, steps) && j < |run| && t in run[j].dispatches && run[j].dispatches[t].Comparing?
    ensures m < j && t in run[m].dispatches && !run[m].dispatches[t].Returned?
    ensures run[m].inFlight == run[j].dispatches[t].current
  {
    RunStep(run, steps, j - 1);
    ComparingStep(run[j - 1], steps[j - 1], t);
    if run[j - 1].dispatches[t] == run[j].dispatches[t] {
      m := CountWasRead(run, steps, j - 1, t);
    } else {
      m := j - 1;
    }
  }

  /** A call is refused as saturated only if every permit was taken at some moment of the call. */
  lemma RefusedOnlyWhenFull(run: seq<Front>, steps: seq<Step>, j: nat, t: Ticket) returns (m: nat)
    requires IsRun(run, steps) && j < |run| && t in run[j].dispatches
    requires run[j].dispatches[t] == Returned(RejectedSaturated)
    ensures m < j && t in run[m].dispatches && !run[m].dispatches[t].Returned?
    ensures run[m].inFlight == run[0].maxInFlight
  {
    var i := ReturnedFor(run, steps, j, t);
    m := CountWasRead(run, steps, i, t);
    InvAlways(run, steps, m);
    ConfigurationStays(run, steps, m);
    ConfigurationStays(run, steps, i);
  }

  /** A call that began while the sender was there is never told that the front is shutting down, and one that began
      afterwards is told nothing else. */
  lemma {:induction false} ToldShuttingDownExactly(run: seq<Front>, steps: seq<Step>, b: nat, j: nat, t: Ticket)
    requires IsRun(run, steps) && b < j < |run| && steps[b] == Start(t)
    ensures t in run[j].dispatches
    ensures run[j].dispatches[t] == Returned(RejectedShuttingDown) <==> !run[b].senderOpen
    decreases j
  {
    RunStep(run, steps, j - 1);
    if j == b + 1 {
    } else {
      ToldShuttingDownExactly(run, steps, b, j - 1, t);
      if HasReturned(run[j - 1], t) {
        ReturnedStays(run[j - 1], steps[j - 1], t);
      } else {
        ReturnsExactly(run, steps, j - 1, t, RejectedShuttingDown);
      }
    }
  }
}
