/** The TCP admission front: permits, bounded queue, fixed workers, deadline supervisor and shutdown.

    The deadline registry is the state behind one mutex; `ConnectionReadDeadlines` mutates it in place
    and is specified by the `Registry` functions. The whole front is a step system in which every
    atomic access (a load, a compare-exchange, a critical section, a channel operation) is one step,
    so a run is an arbitrary interleaving of dispatch calls, workers, the supervisor and shutdown. */
module NetworkFront {

  import opened Wrappers

  // ---------------------------------------------------------------- deadline registry

  /** One `try_dispatch` call. The source does not name calls; tickets let us speak about them. */
  type Ticket = nat

  /** Connection ids are a wrapping 64-bit counter. */
  const ID_SPACE: nat := 0x1_0000_0000_0000_0000

  datatype Armed = Armed(ticket: Ticket, expiresAt: nat)

  /** How a connection left the registry; `Expired` and `Swept` shut its read half down. */
  datatype Departure = Completed | Expired | Swept

  /** `active` and `stopping` are the source's fields; `armed` and `left` record the past. */
  datatype Registry = Registry(
    active: map<nat, Armed>, stopping: bool, armed: set<Ticket>, left: map<Ticket, Departure>)

  predicate CanArm(r: Registry, id: nat) {
    !r.stopping && id !in r.active
  }

  function Arm(r: Registry, id: nat, entry: Armed): Registry {
    if CanArm(r, id) then r.(active := r.active[id := entry], armed := r.armed + {entry.ticket}) else r
  }

  function Depart(r: Registry, ids: set<nat>, why: Departure): Registry {
    r.(active := r.active - ids,
       left := r.left + map id | id in ids && id in r.active :: r.active[id].ticket := why)
  }

  function Complete(r: Registry, id: nat): Registry {
    Depart(r, {id}, Completed)
  }

  function Sweep(r: Registry): Registry {
    Depart(r, r.active.Keys, Swept).(stopping := true)
  }

  function Due(r: Registry, now: nat): set<nat> {
    set id | id in r.active && r.active[id].expiresAt <= now
  }

  function Expire(r: Registry, now: nat): Registry {
    Depart(r, Due(r, now), Expired)
  }

  /** `first` is the earliest expiry in `active`, `None` exactly when nothing is armed. */
  ghost predicate IsEarliest(active: map<nat, Armed>, first: Option<nat>) {
    match first
    case None => active == map[]
    case Some(at) =>
      && (exists id :: id in active && active[id].expiresAt == at)
      && (forall id :: id in active ==> at <= active[id].expiresAt)
  }

  /** The mutex-guarded object itself. */
  class ConnectionReadDeadlines {
    var active: map<nat, Armed>
    var stopping: bool
    var interrupted: set<Ticket>
    ghost var armed: set<Ticket>
    ghost var left: map<Ticket, Departure>

    ghost function View(): Registry
      reads this
    {
      Registry(active, stopping, armed, left)
    }

    constructor ()
      ensures View() == Registry(map[], false, {}, map[]) && interrupted == {}
    {
      active, stopping, interrupted := map[], false, {};
      armed, left := {}, map[];
    }

    method Register(id: nat, entry: Armed) returns (ok: bool)
      modifies this
      ensures ok == old(CanArm(View(), id))
      ensures View() == Arm(old(View()), id, entry) && interrupted == old(interrupted)
    {
      if stopping || id in active {
        return false;
      }
      active := active[id := entry];
      armed := armed + {entry.ticket};
      return true;
    }

    method CompleteLease(id: nat)
      modifies this
      ensures View() == Complete(old(View()), id) && interrupted == old(interrupted)
    {
      ghost var before := View();
      left := Complete(before, id).left;
      active := active - {id};
    }

    method StopAndInterruptAllReads()
      modifies this
      ensures View() == Sweep(old(View()))
      ensures interrupted == old(interrupted) + set id | id in old(active) :: old(active)[id].ticket
    {
      ghost var before := View();
      stopping := true;
      var pending := active.Keys;
      while pending != {}
        invariant pending <= active.Keys == before.active.Keys && active == before.active
        invariant stopping && armed == before.armed && left == before.left
        invariant interrupted == old(interrupted) + set id | id in active && id !in pending :: active[id].ticket
        decreases pending
      {
        var id :| id in pending;
        interrupted := interrupted + {active[id].ticket};
        pending := pending - {id};
      }
      left := Sweep(before).left;
      active := map[];
    }

    /** The supervisor's retain pass: shut down and drop every entry that is due. */
    method RetainUnexpired(now: nat)
      modifies this
      ensures View() == Expire(old(View()), now)
      ensures forall id :: id in active <==> id in old(active) && now < old(active)[id].expiresAt
      ensures forall id | id in active :: active[id] == old(active)[id]
      ensures interrupted == old(interrupted) +
          set id | id in old(active) && old(active)[id].expiresAt <= now :: old(active)[id].ticket
    {
      ghost var before := View();
      var pending := active.Keys;
      while pending != {}
        invariant pending <= active.Keys && View() == before
        invariant interrupted == old(interrupted) +
          set id | id in Due(before, now) && id !in pending :: active[id].ticket
        decreases pending
      {
        var id :| id in pending;
        if active[id].expiresAt <= now {
          interrupted := interrupted + {active[id].ticket};
        }
        pending := pending - {id};
      }
      left := Expire(before, now).left;
      active := map id | id in active && now < active[id].expiresAt :: active[id];
    }
  }

  /** The supervisor's next wake-up: the minimum over the armed expiries. */
  method NextExpiry(active: map<nat, Armed>) returns (first: Option<nat>)
    ensures IsEarliest(active, first)
  {
    var pending := active.Keys;
    first := None;
    while pending != {}
      invariant pending <= active.Keys
      invariant first.None? ==> pending == active.Keys
      invariant first.Some? ==> exists id :: id in active && active[id].expiresAt == first.value
      invariant first.Some? ==> forall id :: id in active && id !in pending ==> first.value <= active[id].expiresAt
      decreases pending
    {
      var id :| id in pending;
      if first.None? || active[id].expiresAt < first.value {
        first := Some(active[id].expiresAt);
      }
      pending := pending - {id};
    }
    if first.None? {
      assert active.Keys == {};
    }
  }

  // ---------------------------------------------------------------- the whole front

  datatype Outcome = Accepted | RejectedSaturated | RejectedShuttingDown | Failed

  /** Where one `try_dispatch` call is. */
  datatype Dispatch =
    | Loading
    | Comparing(current: int)
    | Configuring
    | Numbered(expiresAt: nat)
    | Notifying
    | Sending
    | DroppingLease(outcome: Outcome)
    | DroppingPermit(outcome: Outcome)
    | Returned(outcome: Outcome)
  {
    predicate HasPermit() {
      !Loading? && !Comparing? && !Returned?
    }
    predicate HasLease() {
      Notifying? || Sending? || DroppingLease?
    }
  }

  datatype Worker = Receiving | Handling(job: Ticket) | Releasing | Exited {
    predicate HasPermit() {
      Handling? || Releasing?
    }
  }

  datatype Supervisor = Awake | Sleeping(until: Option<nat>, lag: nat) | Stopped

  datatype Shutdown = NotStarted | SenderTaken | SweepDone | Joining | Joined

  /** A queued or running job is named by its call; `ids` holds the connection id each call drew.
      `inFlight` is an `int` so that releasing a permit twice would show as a wrong or negative
      count. `accepted`, `started` and `finished` record the past. */
  datatype Front = Front(
    maxInFlight: nat, readDeadline: nat,
    inFlight: int, numbered: nat, senderOpen: bool, queue: seq<Ticket>,
    dispatches: map<Ticket, Dispatch>, workers: map<nat, Worker>,
    registry: Registry, supervisor: Supervisor, clock: nat, shutdown: Shutdown,
    ids: map<Ticket, nat>, accepted: seq<Ticket>, started: seq<Ticket>, finished: set<Ticket>)

  predicate Init(s: Front) {
    && 0 < |s.workers| <= s.maxInFlight
    && (forall w :: w in s.workers ==> s.workers[w] == Receiving)
    && s == Front(s.maxInFlight, s.readDeadline, 0, 0, true, [], map[], s.workers,
                  Registry(map[], false, {}, map[]), Awake, s.clock, NotStarted, map[], [], [], {})
  }

  /** `Advance` runs the next atomic action of a dispatch call; `lucky` is false when that action may
      fail and does (a weak compare-exchange, a socket option, cloning the transport). `Work` runs the
      next action of a worker; a panic of the handler is caught, so it ends the job like a return.
      `Global` is the supervisor, the clock or `shutdown`. */
  datatype Step =
    | Start(t: Ticket)
    | Advance(t: Ticket, lucky: bool)
    | Work(w: nat)
    | Global(g: GlobalStep)

  datatype GlobalStep =
    | Supervise(lag: nat, first: Option<nat>)
    | Wake
    | Tick(to: nat)
    | TakeSender
    | StopReads
    | NotifyAll
    | Join

  predicate ReceiverAlive(s: Front) {
    exists w :: w in s.workers && !s.workers[w].Exited?
  }

  ghost predicate Enabled(s: Front, step: Step) {
    match step
    case Start(t) => t !in s.dispatches && s.shutdown in {NotStarted, Joined}
    case Advance(t, _) => t in s.dispatches && !s.dispatches[t].Returned?
    case Work(w) =>
      && w in s.workers && !s.workers[w].Exited?
      && (s.workers[w].Receiving? ==> s.queue != [] || !s.senderOpen)
    case Global(g) => GloballyEnabled(s, g)
  }

  ghost predicate GloballyEnabled(s: Front, g: GlobalStep) {
    match g
    case Supervise(_, first) => s.supervisor.Awake? && IsEarliest(Expire(s.registry, s.clock).active, first)
    case Wake => s.supervisor.Sleeping?
    case Tick(to) => s.clock <= to
    // `shutdown` takes the front exclusively, so no dispatch call is in progress
    case TakeSender => s.shutdown.NotStarted? && forall t :: t in s.dispatches ==> s.dispatches[t].Returned?
    case StopReads => s.shutdown.SenderTaken?
    case NotifyAll => s.shutdown.SweepDone?
    case Join =>
      && s.shutdown.Joining? && s.supervisor.Stopped?
      && (forall w :: w in s.workers ==> s.workers[w].Exited?)
  }

  function Woken(v: Supervisor): Supervisor {
    if v.Sleeping? then Awake else v
  }

  function IdOf(s: Front, t: Ticket): nat {
    if t in s.ids then s.ids[t] else 0
  }

  /** What a dispatch call does next, apart from its own position. */
  function Effect(s: Front, t: Ticket, lucky: bool): (e: Front)
    requires t in s.dispatches
    ensures e.dispatches == s.dispatches && e.workers == s.workers && e.maxInFlight == s.maxInFlight
    ensures e.started == s.started && e.finished == s.finished && e.clock == s.clock
    ensures e.shutdown == s.shutdown && e.senderOpen == s.senderOpen && e.registry.stopping == s.registry.stopping
  {
    var next := Following(s, t, lucky);
    match s.dispatches[t]
    case Comparing(current) => if next.Configuring? then s.(inFlight := current + 1) else s
    case Configuring =>
      if next.Numbered? then s.(numbered := s.numbered + 1, ids := s.ids[t := s.numbered % ID_SPACE]) else s
    case Numbered(expiresAt) =>
      if next.Notifying? then s.(registry := Arm(s.registry, IdOf(s, t), Armed(t, expiresAt))) else s
    case Notifying => s.(supervisor := Woken(s.supervisor))
    case Sending => if next.Returned? then s.(queue := s.queue + [t], accepted := s.accepted + [t]) else s
    case DroppingLease(_) => s.(registry := Complete(s.registry, IdOf(s, t)))
    case DroppingPermit(_) => s.(inFlight := s.inFlight - 1)
    case _ => s
  }

  /** Where a dispatch call goes next. */
  function Following(s: Front, t: Ticket, lucky: bool): Dispatch
    requires t in s.dispatches
  {
    match s.dispatches[t]
    case Loading => Comparing(s.inFlight)
    case Comparing(current) =>
      if current >= s.maxInFlight then Returned(RejectedSaturated)
      else if current == s.inFlight && lucky then Configuring
      else Comparing(s.inFlight)
    case Configuring => if lucky then Numbered(s.clock + s.readDeadline) else DroppingPermit(Failed)
    case Numbered(_) => if lucky && CanArm(s.registry, IdOf(s, t)) then Notifying else DroppingPermit(Failed)
    case Notifying => Sending
    case Sending =>
      if !ReceiverAlive(s) then DroppingLease(RejectedShuttingDown)
      else if |s.queue| >= s.maxInFlight then DroppingLease(RejectedSaturated)
      else Returned(Accepted)
    case DroppingLease(outcome) => DroppingPermit(outcome)
    case DroppingPermit(outcome) => Returned(outcome)
    case Returned(outcome) => Returned(outcome)
  }

  function Moved(s: Front, t: Ticket, d: Dispatch): Front {
    s.(dispatches := s.dispatches[t := d])
  }

  function Worked(s: Front, w: nat): (e: Front)
    requires w in s.workers
    ensures e.dispatches == s.dispatches && e.ids == s.ids && e.numbered == s.numbered
    ensures e.accepted == s.accepted && e.maxInFlight == s.maxInFlight && e.clock == s.clock
    ensures e.shutdown == s.shutdown && e.senderOpen == s.senderOpen && e.registry.stopping == s.registry.stopping
    ensures e.supervisor == s.supervisor
  {
    match s.workers[w]
    case Receiving =>
      if s.queue == [] then s.(workers := s.workers[w := Exited])
      else s.(workers := s.workers[w := Handling(s.queue[0])], queue := s.queue[1..],
              started := s.started + [s.queue[0]])
    case Handling(job) =>
      s.(workers := s.workers[w := Releasing], registry := Complete(s.registry, IdOf(s, job)),
         finished := s.finished + {job})
    case Releasing => s.(workers := s.workers[w := Receiving], inFlight := s.inFlight - 1)
    case Exited => s
  }

  /** One supervisor pass. The wait starts `lag` after the instant whose expiries it compared. */
  function Supervised(s: Front, lag: nat, first: Option<nat>): Front {
    if s.registry.stopping then s.(supervisor := Stopped)
    else s.(registry := Expire(s.registry, s.clock), clock := s.clock + lag,
            supervisor := Sleeping(if first.None? then None else Some(first.value + lag), lag))
  }

  ghost function Apply(s: Front, step: Step): Front
    requires Enabled(s, step)
  {
    match step
    case Start(t) => Moved(s, t, if s.senderOpen then Loading else Returned(RejectedShuttingDown))
    case Advance(t, lucky) => Moved(Effect(s, t, lucky), t, Following(s, t, lucky))
    case Work(w) => Worked(s, w)
    case Global(g) => Globally(s, g)
  }

  function Globally(s: Front, g: GlobalStep): (e: Front)
    ensures e.dispatches == s.dispatches && e.ids == s.ids && e.numbered == s.numbered
    ensures e.workers == s.workers && e.queue == s.queue && e.inFlight == s.inFlight && e.maxInFlight == s.maxInFlight
    ensures e.accepted == s.accepted && e.started == s.started && e.finished == s.finished
  {
    match g
    case Supervise(lag, first) => Supervised(s, lag, first)
    case Wake => s.(supervisor := Awake)
    case Tick(to) => s.(clock := to)
    case TakeSender => s.(senderOpen := false, shutdown := SenderTaken)
    case StopReads => s.(registry := Sweep(s.registry), shutdown := SweepDone)
    case NotifyAll => s.(shutdown := Joining, supervisor := Woken(s.supervisor))
    case Join => s.(shutdown := Joined)
  }

  ghost predicate Follows(s: Front, step: Step, s': Front) {
    Enabled(s, step) && s' == Apply(s, step)
  }

  ghost predicate IsRun(run: seq<Front>, steps: seq<Step>) {
    && |run| == |steps| + 1
    && Init(run[0])
    && (forall i {:trigger steps[i]} :: 0 <= i < |steps| ==> Follows(run[i], steps[i], run[i + 1]))
  }

  // ---------------------------------------------------------------- permits

  function Dispatching(dispatches: map<Ticket, Dispatch>): set<Ticket> {
    set t | t in dispatches && dispatches[t].HasPermit()
  }

  function Executing(workers: map<nat, Worker>): set<nat> {
    set w | w in workers && workers[w].HasPermit()
  }

  /** Permit conservation: the counter is the number of permits alive. */
  ghost predicate PermitsConserved(s: Front) {
    && s.inFlight == |Dispatching(s.dispatches)| + |s.queue| + |Executing(s.workers)|
    && s.inFlight <= s.maxInFlight
  }

  function One(permit: bool): int {
    if permit then 1 else 0
  }

  lemma DispatchingAfter(dispatches: map<Ticket, Dispatch>, t: Ticket, d: Dispatch)
    ensures |Dispatching(dispatches[t := d])| ==
            |Dispatching(dispatches)| + One(d.HasPermit()) - One(t in dispatches && dispatches[t].HasPermit())
  {
    var after := Dispatching(dispatches[t := d]);
    if d.HasPermit() {
      assert after == Dispatching(dispatches) + {t};
    } else {
      assert after == Dispatching(dispatches) - {t};
    }
  }

  lemma ExecutingAfter(workers: map<nat, Worker>, w: nat, k: Worker)
    ensures |Executing(workers[w := k])| ==
            |Executing(workers)| + One(k.HasPermit()) - One(w in workers && workers[w].HasPermit())
  {
    var after := Executing(workers[w := k]);
    if k.HasPermit() {
      assert after == Executing(workers) + {w};
    } else {
      assert after == Executing(workers) - {w};
    }
  }

  /** Each action of a dispatch call moves the counter with the permit it takes, keeps or returns. */
  lemma AdvanceAccounts(s: Front, t: Ticket, lucky: bool)
    requires t in s.dispatches
    ensures var e := Effect(s, t, lucky);
      && e.inFlight - s.inFlight ==
         One(Following(s, t, lucky).HasPermit()) - One(s.dispatches[t].HasPermit()) + |e.queue| - |s.queue|
      && (s.inFlight <= s.maxInFlight ==> e.inFlight <= e.maxInFlight)
  {
    match s.dispatches[t]
    case Comparing(_) =>
    case Sending =>
    case _ =>
  }

  lemma PermitsStep(s: Front, step: Step)
    requires PermitsConserved(s) && Enabled(s, step)
    ensures PermitsConserved(Apply(s, step))
  {
    match step
    case Start(t) => DispatchingAfter(s.dispatches, t, Apply(s, step).dispatches[t]);
    case Advance(t, lucky) =>
      AdvanceAccounts(s, t, lucky);
      DispatchingAfter(s.dispatches, t, Following(s, t, lucky));
    case Work(w) => ExecutingAfter(s.workers, w, Worked(s, w).workers[w]);
    case _ =>
  }

  // ---------------------------------------------------------------- jobs

  ghost predicate Distinct(ts: seq<Ticket>) {
    forall i, j :: 0 <= i < j < |ts| ==> ts[i] != ts[j]
  }

  ghost predicate InHand(workers: map<nat, Worker>, t: Ticket) {
    exists w :: w in workers && workers[w].Handling? && workers[w].job == t
  }

  /** A call that is giving its permit back was not accepted. */
  predicate Refused(d: Dispatch) {
    d.DroppingLease? || d.DroppingPermit? ==> d.outcome != Accepted
  }

  ghost predicate OutcomesSound(dispatches: map<Ticket, Dispatch>) {
    forall t | t in dispatches :: Refused(dispatches[t])
  }

  /** Jobs leave the queue in the order they were accepted and each is in exactly one place. */
  ghost predicate JobsOnce(s: Front) {
    && s.accepted == s.started + s.queue
    && Distinct(s.accepted)
    && (forall t :: t in s.accepted <==> t in s.dispatches && s.dispatches[t] == Returned(Accepted))
    && (forall t :: t in s.started ==> t in s.finished || InHand(s.workers, t))
    && (forall t :: t in s.finished ==> t in s.started)
    && (forall w :: w in s.workers && s.workers[w].Handling? ==>
          s.workers[w].job in s.started && s.workers[w].job !in s.finished)
    && (forall w, v | w in s.workers && v in s.workers && s.workers[w].Handling? && s.workers[v].Handling? ::
          s.workers[w].job == s.workers[v].job ==> w == v)
    && OutcomesSound(s.dispatches)
  }

  /** While the sender is open every worker listens; afterwards nothing is sent and a worker that has
      left saw the queue drained. */
  ghost predicate ChannelSound(s: Front) {
    && s.workers != map[]
    && (s.senderOpen <==> s.shutdown.NotStarted?)
    && (!s.senderOpen ==> forall t :: t in s.dispatches ==> s.dispatches[t].Returned?)
    && (forall w :: w in s.workers && s.workers[w].Exited? ==> !s.senderOpen && s.queue == [])
  }

  lemma ChannelStep(s: Front, step: Step)
    requires ChannelSound(s) && Enabled(s, step)
    ensures ChannelSound(Apply(s, step))
  {
  }

  /** The part of a dispatch action the channel sees: nothing, or exactly one job sent. */
  ghost predicate SendsAtMostOne(s: Front, e: Front, t: Ticket, d: Dispatch) {
    && e.dispatches == s.dispatches && e.workers == s.workers
    && e.started == s.started && e.finished == s.finished
    && if d == Returned(Accepted)
       then e.queue == s.queue + [t] && e.accepted == s.accepted + [t]
       else e.queue == s.queue && e.accepted == s.accepted
  }

  lemma AdvanceSends(s: Front, t: Ticket, lucky: bool)
    requires t in s.dispatches && !s.dispatches[t].Returned?
    requires Refused(s.dispatches[t])
    ensures SendsAtMostOne(s, Effect(s, t, lucky), t, Following(s, t, lucky))
    ensures Refused(Following(s, t, lucky))
  {
  }

  lemma JobsMoved(s: Front, e: Front, t: Ticket, d: Dispatch)
    requires JobsOnce(s) && t in s.dispatches && !s.dispatches[t].Returned? && SendsAtMostOne(s, e, t, d)
    requires Refused(d)
    ensures JobsOnce(Moved(e, t, d))
  {
    var s' := Moved(e, t, d);
    assert t !in s.accepted;
    if d == Returned(Accepted) {
      assert s'.accepted == s'.started + s'.queue;
    }
  }

  lemma JobsReceive(s: Front, w: nat)
    requires JobsOnce(s) && w in s.workers && s.workers[w].Receiving? && s.queue != []
    ensures JobsOnce(Worked(s, w))
  {
    var s', t := Worked(s, w), s.queue[0];
    assert s.queue == [t] + s'.queue;
    assert s.accepted == s'.started + s'.queue;
    assert s.accepted[|s.started|] == t;
    assert forall i :: 0 <= i < |s.started| ==> s.accepted[i] == s.started[i];
    assert s'.workers[w].job == t;
    forall u | u in s'.started ensures u in s'.finished || InHand(s'.workers, u) {
      if u != t && u !in s.finished {
        var v :| v in s.workers && s.workers[v].Handling? && s.workers[v].job == u;
        assert s'.workers[v] == s.workers[v];
      }
    }
  }

  lemma JobsWork(s: Front, w: nat)
    requires JobsOnce(s) && w in s.workers
    ensures JobsOnce(Worked(s, w))
  {
    var s' := Worked(s, w);
    if s.workers[w].Receiving? && s.queue != [] {
      JobsReceive(s, w);
    } else {
      forall u | u in s'.started ensures u in s'.finished || InHand(s'.workers, u) {
        if u !in s'.finished {
          var v :| v in s.workers && s.workers[v].Handling? && s.workers[v].job == u;
          assert s'.workers[v] == s.workers[v];
        }
      }
    }
  }

  lemma JobsStep(s: Front, step: Step)
    requires JobsOnce(s) && Enabled(s, step)
    ensures JobsOnce(Apply(s, step))
  {
    match step
    case Advance(t, lucky) =>
      AdvanceSends(s, t, lucky);
      JobsMoved(s, Effect(s, t, lucky), t, Following(s, t, lucky));
    case Work(w) => JobsWork(s, w);
    case _ =>
  }

  // ---------------------------------------------------------------- leases and the registry

  /** A lease is alive from registration until its owner drops it. */
  ghost predicate LeaseAlive(d: Dispatch, finished: bool) {
    d.HasLease() || (d == Returned(Accepted) && !finished)
  }

  predicate NeedsId(d: Dispatch) {
    d.Numbered? || d.HasLease() || d == Returned(Accepted)
  }

  predicate BeforeId(d: Dispatch) {
    d.Loading? || d.Comparing? || d.Configuring?
  }

  /** Connection ids are drawn once, by calls past their configuration, and every lease has one. */
  ghost predicate IdsSound(dispatches: map<Ticket, Dispatch>, ids: map<Ticket, nat>) {
    && (forall t | t in ids :: t in dispatches && !BeforeId(dispatches[t]))
    && (forall t | t in dispatches && NeedsId(dispatches[t]) :: t in ids)
  }

  /** Until the counter wraps, ids are pairwise different. */
  ghost predicate IdsDistinct(ids: map<Ticket, nat>, numbered: nat) {
    numbered <= ID_SPACE ==>
      && (forall t | t in ids :: ids[t] < numbered)
      && (forall t, u | t in ids && u in ids :: ids[t] == ids[u] ==> t == u)
  }

  lemma AdvanceIds(s: Front, t: Ticket, lucky: bool)
    requires t in s.dispatches && !s.dispatches[t].Returned?
    requires Refused(s.dispatches[t])
    ensures var e, d := Effect(s, t, lucky), Following(s, t, lucky);
      if d.Numbered? then
        s.dispatches[t].Configuring? && e.ids == s.ids[t := s.numbered % ID_SPACE] && e.numbered == s.numbered + 1
      else
        && e.ids == s.ids && e.numbered == s.numbered
        && (NeedsId(d) ==> NeedsId(s.dispatches[t]))
        && (BeforeId(d) ==> BeforeId(s.dispatches[t]))
  {
  }

  lemma IdsMoved(dispatches: map<Ticket, Dispatch>, ids: map<Ticket, nat>, t: Ticket, d: Dispatch, drawn: nat)
    requires IdsSound(dispatches, ids) && t in dispatches
    ensures (NeedsId(d) ==> NeedsId(dispatches[t])) && (BeforeId(d) ==> BeforeId(dispatches[t])) ==>
              IdsSound(dispatches[t := d], ids)
    ensures d.Numbered? ==> IdsSound(dispatches[t := d], ids[t := drawn])
  {
  }

  lemma IdsDrawn(ids: map<Ticket, nat>, numbered: nat, t: Ticket)
    requires IdsDistinct(ids, numbered) && t !in ids
    ensures IdsDistinct(ids[t := numbered % ID_SPACE], numbered + 1)
  {
  }

  lemma IdsAdvance(s: Front, t: Ticket, lucky: bool)
    requires IdsSound(s.dispatches, s.ids) && IdsDistinct(s.ids, s.numbered) && OutcomesSound(s.dispatches)
    requires t in s.dispatches && !s.dispatches[t].Returned?
    ensures var e := Effect(s, t, lucky);
      IdsSound(s.dispatches[t := Following(s, t, lucky)], e.ids) && IdsDistinct(e.ids, e.numbered)
  {
    AdvanceIds(s, t, lucky);
    IdsMoved(s.dispatches, s.ids, t, Following(s, t, lucky), s.numbered % ID_SPACE);
    if Following(s, t, lucky).Numbered? {
      IdsDrawn(s.ids, s.numbered, t);
    }
  }

  lemma IdsStep(s: Front, step: Step)
    requires IdsSound(s.dispatches, s.ids) && IdsDistinct(s.ids, s.numbered) && OutcomesSound(s.dispatches)
    requires Enabled(s, step)
    ensures var s' := Apply(s, step); IdsSound(s'.dispatches, s'.ids) && IdsDistinct(s'.ids, s'.numbered)
  {
    match step
    case Advance(t, lucky) => IdsAdvance(s, t, lucky);
    case _ =>
  }

  /** Every armed connection is either still active, under its own id, or has left; never both. */
  ghost predicate BooksBalanced(r: Registry, ids: map<Ticket, nat>) {
    && (r.stopping ==> r.active == map[])
    && (forall id | id in r.active ::
          var t := r.active[id].ticket; t in ids && ids[t] == id && t in r.armed && t !in r.left)
    && (forall t | t in r.armed :: t in r.left || (t in ids && ids[t] in r.active && r.active[ids[t]].ticket == t))
    && (forall t | t in r.left :: t in r.armed)
  }

  lemma BooksDepart(r: Registry, ids: map<Ticket, nat>, gone: set<nat>, why: Departure)
    requires BooksBalanced(r, ids)
    ensures BooksBalanced(Depart(r, gone, why), ids)
  {
  }

  lemma BooksArm(r: Registry, ids: map<Ticket, nat>, entry: Armed)
    requires BooksBalanced(r, ids) && entry.ticket in ids && entry.ticket !in r.armed
    ensures BooksBalanced(Arm(r, ids[entry.ticket], entry), ids)
  {
  }

  lemma BooksDraw(r: Registry, ids: map<Ticket, nat>, t: Ticket, id: nat)
    requires BooksBalanced(r, ids) && t !in ids
    ensures BooksBalanced(r, ids[t := id])
  {
  }

  /** Each active entry belongs to a live lease, and registration is behind every armed call. */
  ghost predicate LeasesSound(
    r: Registry, ids: map<Ticket, nat>, dispatches: map<Ticket, Dispatch>, finished: set<Ticket>)
  {
    && BooksBalanced(r, ids)
    && (forall id | id in r.active :: var t := r.active[id].ticket;
          t in dispatches && LeaseAlive(dispatches[t], t in finished))
    && (forall t | t in r.armed :: t in ids && t in dispatches && !dispatches[t].Numbered?)
  }

  lemma LeaseMoves(r: Registry, ids: map<Ticket, nat>, dispatches: map<Ticket, Dispatch>, finished: set<Ticket>,
                   t: Ticket, d: Dispatch)
    requires LeasesSound(r, ids, dispatches, finished) && t in dispatches
    requires LeaseAlive(dispatches[t], t in finished) ==> LeaseAlive(d, t in finished)
    requires d.Numbered? ==> t !in r.armed
    ensures LeasesSound(r, ids, dispatches[t := d], finished)
  {
  }

  lemma LeaseArms(r: Registry, ids: map<Ticket, nat>, dispatches: map<Ticket, Dispatch>, finished: set<Ticket>,
                  entry: Armed)
    requires LeasesSound(r, ids, dispatches, finished) && entry.ticket in ids && entry.ticket in dispatches
    requires dispatches[entry.ticket].Numbered?
    ensures LeasesSound(Arm(r, ids[entry.ticket], entry), ids, dispatches[entry.ticket := Notifying], finished)
  {
    BooksArm(r, ids, entry);
  }

  /** Ending a lease keeps the books, whoever holds its id by then. */
  lemma LeaseEnds(r: Registry, ids: map<Ticket, nat>, dispatches: map<Ticket, Dispatch>, finished: set<Ticket>,
                  t: Ticket)
    requires LeasesSound(r, ids, dispatches, finished) && t in ids && t in dispatches
    ensures var r' := Complete(r, ids[t]);
      && (forall d: Dispatch | !d.Numbered? :: LeasesSound(r', ids, dispatches[t := d], finished))
      && LeasesSound(r', ids, dispatches, finished + {t})
  {
    BooksDepart(r, ids, {ids[t]}, Completed);
  }

  ghost predicate LeasesHeld(s: Front) {
    && IdsSound(s.dispatches, s.ids)
    && IdsDistinct(s.ids, s.numbered)
    && LeasesSound(s.registry, s.ids, s.dispatches, s.finished)
  }

  /** What one action of the call `t` means to the leases. */
  ghost predicate LeaseAction(r: Registry, ids: map<Ticket, nat>, r': Registry, ids': map<Ticket, nat>,
                              t: Ticket, d: Dispatch, d': Dispatch, drawn: nat) {
    if d.Configuring? && d'.Numbered? then r' == r && ids' == ids[t := drawn]
    else if d.Numbered? && d'.Notifying? then
      t in ids && r' == Arm(r, ids[t], Armed(t, d.expiresAt)) && ids' == ids
    else if d.DroppingLease? then t in ids && r' == Complete(r, ids[t]) && ids' == ids && d'.DroppingPermit?
    else r' == r && ids' == ids && !d'.Numbered? && (d.HasLease() ==> d'.HasLease() || d' == Returned(Accepted))
  }

  lemma AdvanceActs(s: Front, t: Ticket, lucky: bool)
    requires t in s.dispatches && !s.dispatches[t].Returned? && (NeedsId(s.dispatches[t]) ==> t in s.ids)
    ensures LeaseAction(s.registry, s.ids, Effect(s, t, lucky).registry, Effect(s, t, lucky).ids,
                        t, s.dispatches[t], Following(s, t, lucky), s.numbered % ID_SPACE)
  {
  }

  lemma LeasesAct(r: Registry, ids: map<Ticket, nat>, r': Registry, ids': map<Ticket, nat>,
                  dispatches: map<Ticket, Dispatch>, finished: set<Ticket>, t: Ticket, d': Dispatch, drawn: nat)
    requires LeasesSound(r, ids, dispatches, finished) && t in dispatches && !dispatches[t].Returned? && t !in finished
    requires LeaseAction(r, ids, r', ids', t, dispatches[t], d', drawn)
    requires dispatches[t].Configuring? ==> t !in ids
    ensures LeasesSound(r', ids', dispatches[t := d'], finished)
  {
    var d := dispatches[t];
    if d.Configuring? && d'.Numbered? {
      BooksDraw(r, ids, t, drawn);
      LeaseMoves(r, ids', dispatches, finished, t, d');
    } else if d.Numbered? && d'.Notifying? {
      LeaseArms(r, ids, dispatches, finished, Armed(t, d.expiresAt));
    } else if d.DroppingLease? {
      LeaseEnds(r, ids, dispatches, finished, t);
    } else {
      LeaseMoves(r, ids, dispatches, finished, t, d');
    }
  }

  lemma LeasesAdvance(s: Front, t: Ticket, lucky: bool)
    requires LeasesHeld(s) && OutcomesSound(s.dispatches) && t in s.dispatches && !s.dispatches[t].Returned?
    requires t !in s.finished
    ensures var e := Effect(s, t, lucky);
      LeasesSound(e.registry, e.ids, s.dispatches[t := Following(s, t, lucky)], s.finished)
  {
    AdvanceActs(s, t, lucky);
    LeasesAct(s.registry, s.ids, Effect(s, t, lucky).registry, Effect(s, t, lucky).ids, s.dispatches, s.finished,
              t, Following(s, t, lucky), s.numbered % ID_SPACE);
  }

  lemma LeasesWork(s: Front, w: nat)
    requires LeasesHeld(s) && JobsOnce(s) && w in s.workers
    ensures var e := Worked(s, w); LeasesSound(e.registry, s.ids, s.dispatches, e.finished)
  {
    if s.workers[w].Handling? {
      assert s.workers[w].job in s.accepted;
      LeaseEnds(s.registry, s.ids, s.dispatches, s.finished, s.workers[w].job);
    }
  }

  lemma LeasesGlobally(s: Front, g: GlobalStep)
    requires LeasesHeld(s)
    ensures LeasesSound(Globally(s, g).registry, s.ids, s.dispatches, s.finished)
  {
    BooksDepart(s.registry, s.ids, Due(s.registry, s.clock), Expired);
    BooksDepart(s.registry, s.ids, s.registry.active.Keys, Swept);
  }

  lemma LeasesStep(s: Front, step: Step)
    requires LeasesHeld(s) && JobsOnce(s) && Enabled(s, step)
    ensures LeasesHeld(Apply(s, step))
  {
    IdsStep(s, step);
    match step
    case Start(t) =>
    case Advance(t, lucky) =>
      assert t !in s.finished by { assert t !in s.accepted; }
      LeasesAdvance(s, t, lucky);
    case Work(w) => LeasesWork(s, w);
    case Global(g) => LeasesGlobally(s, g);
  }

  ghost predicate Preserves(before: map<Ticket, Departure>, after: map<Ticket, Departure>) {
    forall t | t in before :: t in after && after[t] == before[t]
  }

  lemma DepartPreserves(r: Registry, ids: map<Ticket, nat>, gone: set<nat>, why: Departure)
    requires BooksBalanced(r, ids)
    ensures Preserves(r.left, Depart(r, gone, why).left)
  {
  }

  ghost predicate Continues(r: Registry, r': Registry) {
    Preserves(r.left, r'.left) && r.armed <= r'.armed
  }

  lemma AdvanceContinues(s: Front, t: Ticket, lucky: bool)
    requires BooksBalanced(s.registry, s.ids) && t in s.dispatches
    ensures Continues(s.registry, Effect(s, t, lucky).registry)
  {
    DepartPreserves(s.registry, s.ids, {IdOf(s, t)}, Completed);
    if s.dispatches[t].DroppingLease? || s.dispatches[t].Numbered? {
    } else {
      assert Effect(s, t, lucky).registry == s.registry;
    }
  }

  lemma WorkContinues(s: Front, w: nat)
    requires BooksBalanced(s.registry, s.ids) && w in s.workers
    ensures Continues(s.registry, Worked(s, w).registry)
  {
    if s.workers[w].Handling? {
      DepartPreserves(s.registry, s.ids, {IdOf(s, s.workers[w].job)}, Completed);
    }
  }

  lemma GloballyContinues(s: Front, g: GlobalStep)
    requires BooksBalanced(s.registry, s.ids)
    ensures Continues(s.registry, Globally(s, g).registry)
  {
    DepartPreserves(s.registry, s.ids, Due(s.registry, s.clock), Expired);
    DepartPreserves(s.registry, s.ids, s.registry.active.Keys, Swept);
  }

  /** A departure is never revised. */
  lemma DeparturesStand(s: Front, step: Step)
    requires BooksBalanced(s.registry, s.ids) && Enabled(s, step)
    ensures Continues(s.registry, Apply(s, step).registry)
  {
    match step
    case Advance(t, lucky) => AdvanceContinues(s, t, lucky);
    case Work(w) => WorkContinues(s, w);
    case Global(g) => GloballyContinues(s, g);
    case Start(_) =>
  }

  // ---------------------------------------------------------------- the supervisor's sleep

  /** Whatever a sleeping supervisor would not wake up for in time is about to be announced to it. */
  ghost predicate Covered(active: map<nat, Armed>, dispatches: map<Ticket, Dispatch>, v: Supervisor) {
    v.Sleeping? ==> forall id | id in active ::
      || (active[id].ticket in dispatches && dispatches[active[id].ticket].Notifying?)
      || (v.until.Some? && v.until.value <= active[id].expiresAt + v.lag)
  }

  /** `stopping` follows shutdown; nothing is armed after it and nobody sleeps through it. */
  ghost predicate StopSound(s: Front) {
    && (s.registry.stopping <==> s.shutdown in {SweepDone, Joining, Joined})
    && (s.registry.stopping ==> s.registry.active == map[])
    && (s.supervisor.Stopped? ==> s.registry.stopping)
    && (s.supervisor.Sleeping? && s.registry.stopping ==> s.shutdown.SweepDone?)
    && (s.shutdown.Joined? ==> s.supervisor.Stopped? && forall w | w in s.workers :: s.workers[w].Exited?)
  }

  /** A dispatch action leaves a stopped registry alone. */
  lemma StopAdvance(s: Front, t: Ticket, lucky: bool)
    requires StopSound(s) && t in s.dispatches
    ensures StopSound(Effect(s, t, lucky))
    ensures s.registry.stopping ==> Effect(s, t, lucky).registry.armed == s.registry.armed
  {
  }

  lemma StopWork(s: Front, w: nat)
    requires StopSound(s) && w in s.workers && !s.workers[w].Exited?
    ensures StopSound(Worked(s, w))
    ensures Worked(s, w).registry.armed == s.registry.armed
  {
  }

  lemma StopGlobally(s: Front, g: GlobalStep)
    requires StopSound(s) && GloballyEnabled(s, g)
    ensures StopSound(Globally(s, g))
    ensures s.registry.stopping ==>
      Globally(s, g).registry.stopping && Globally(s, g).registry.armed == s.registry.armed
  {
  }

  lemma StopStep(s: Front, step: Step)
    requires StopSound(s) && Enabled(s, step)
    ensures StopSound(Apply(s, step))
    ensures s.registry.stopping ==> Apply(s, step).registry.stopping
    ensures s.registry.stopping ==> Apply(s, step).registry.armed == s.registry.armed
  {
    match step
    case Start(t) =>
    case Advance(t, lucky) => StopAdvance(s, t, lucky);
    case Work(w) => StopWork(s, w);
    case Global(g) => StopGlobally(s, g);
  }

  lemma CoverMoves(active: map<nat, Armed>, dispatches: map<Ticket, Dispatch>, v: Supervisor,
                   t: Ticket, d: Dispatch, id: nat, expiresAt: nat)
    requires Covered(active, dispatches, v) && t in dispatches && !dispatches[t].Notifying?
    ensures Covered(active, dispatches[t := d], v)
    ensures Covered(active - {id}, dispatches[t := d], v)
    ensures Covered(active[id := Armed(t, expiresAt)], dispatches[t := Notifying], v)
  {
  }

  lemma CoverAdvance(s: Front, t: Ticket, lucky: bool)
    requires Covered(s.registry.active, s.dispatches, s.supervisor) && t in s.dispatches
    ensures var e := Effect(s, t, lucky);
      Covered(e.registry.active, s.dispatches[t := Following(s, t, lucky)], e.supervisor)
  {
    var d, next := s.dispatches[t], Following(s, t, lucky);
    if !d.Notifying? {
      CoverMoves(s.registry.active, s.dispatches, s.supervisor, t, next, IdOf(s, t),
                 if d.Numbered? then d.expiresAt else 0);
      assert Effect(s, t, lucky).supervisor == s.supervisor;
    }
  }

  lemma CoverStep(s: Front, step: Step)
    requires Covered(s.registry.active, s.dispatches, s.supervisor) && Enabled(s, step)
    ensures var s' := Apply(s, step); Covered(s'.registry.active, s'.dispatches, s'.supervisor)
  {
    match step
    case Advance(t, lucky) => CoverAdvance(s, t, lucky);
    case _ =>
  }

  // ---------------------------------------------------------------- every run

  ghost predicate Inv(s: Front) {
    && PermitsConserved(s) && JobsOnce(s) && ChannelSound(s) && StopSound(s)
    && Covered(s.registry.active, s.dispatches, s.supervisor)
    && LeasesHeld(s)
  }

  lemma InvInit(s: Front)
    requires Init(s)
    ensures Inv(s)
  {
    assert Dispatching(s.dispatches) == {} && Executing(s.workers) == {};
  }

  lemma InvStep(s: Front, step: Step)
    requires Inv(s) && Enabled(s, step)
    ensures Inv(Apply(s, step))
  {
    PermitsStep(s, step);
    JobsStep(s, step);
    ChannelStep(s, step);
    StopStep(s, step);
    CoverStep(s, step);
    LeasesStep(s, step);
  }

  /** Whatever the interleaving, the invariant holds in every state of every run. */
  lemma {:induction false} InvAlways(run: seq<Front>, steps: seq<Step>, i: nat)
    requires IsRun(run, steps) && i < |run|
    ensures Inv(run[i])
  {
    if i == 0 {
      InvInit(run[0]);
    } else {
      InvAlways(run, steps, i - 1);
      InvStep(run[i - 1], steps[i - 1]);
    }
  }

  /** A call that reaches the queue holds one of at most `maxInFlight` permits, so there is room for
      its job and a worker to take it: neither refusal of `try_send` happens in any run. */
  lemma SendAlwaysAccepts(run: seq<Front>, steps: seq<Step>, i: nat, t: Ticket)
    requires IsRun(run, steps) && i < |steps| && steps[i].Advance? && steps[i].t == t
    requires run[i].dispatches[t].Sending?
    ensures run[i + 1].dispatches[t] == Returned(Accepted)
  {
    InvAlways(run, steps, i);
    var s := run[i];
    assert {t} <= Dispatching(s.dispatches);
    SubsetSize({t}, Dispatching(s.dispatches));
    var w :| w in s.workers;
    assert !s.workers[w].Exited?;
  }

  lemma SubsetSize(a: set<nat>, b: set<nat>)
    requires a <= b
    ensures |a| <= |b|
  {
    assert b == a + (b - a);
  }

  /** Once no call is in progress and every worker has left, every accepted job was started once, in
      order, and finished; no permit is missing; and every armed connection has left the registry. */
  lemma QuietFrontIsDrained(run: seq<Front>, steps: seq<Step>, i: nat)
    requires IsRun(run, steps) && i < |run|
    requires forall t | t in run[i].dispatches :: run[i].dispatches[t].Returned?
    requires forall w | w in run[i].workers :: run[i].workers[w].Exited?
    ensures run[i].inFlight == 0 && run[i].queue == []
    ensures run[i].started == run[i].accepted && Distinct(run[i].started)
    ensures run[i].finished == set t | t in run[i].accepted
    ensures run[i].registry.active == map[] && run[i].registry.left.Keys == run[i].registry.armed
  {
    InvAlways(run, steps, i);
    var s := run[i];
    var w :| w in s.workers;
    assert Dispatching(s.dispatches) == {} && Executing(s.workers) == {};
    assert forall id :: id in s.registry.active ==> false;
    assert s.registry.active == map[];
  }

  /** `shutdown` has joined: the front is drained and stays so. */
  lemma JoinedFrontIsDrained(run: seq<Front>, steps: seq<Step>, i: nat)
    requires IsRun(run, steps) && i < |run| && run[i].shutdown.Joined?
    ensures run[i].inFlight == 0 && run[i].started == run[i].accepted
    ensures run[i].finished == set t | t in run[i].accepted
    ensures run[i].supervisor.Stopped? && run[i].registry.active == map[]
    ensures run[i].registry.left.Keys == run[i].registry.armed
  {
    InvAlways(run, steps, i);
    QuietFrontIsDrained(run, steps, i);
  }

  lemma RunStep(run: seq<Front>, steps: seq<Step>, j: nat)
    requires IsRun(run, steps) && j < |steps|
    ensures Enabled(run[j], steps[j]) && run[j + 1] == Apply(run[j], steps[j])
  {
  }

  lemma BooksAlways(run: seq<Front>, steps: seq<Step>, i: nat)
    requires IsRun(run, steps) && i < |run|
    ensures BooksBalanced(run[i].registry, run[i].ids)
  {
    InvAlways(run, steps, i);
  }

  lemma ContinuesOnce(run: seq<Front>, steps: seq<Step>, i: nat)
    requires IsRun(run, steps) && i < |steps|
    ensures Continues(run[i].registry, run[i + 1].registry)
  {
    BooksAlways(run, steps, i);
    RunStep(run, steps, i);
    DeparturesStand(run[i], steps[i]);
  }

  lemma ContinuesOn(a: Registry, b: Registry, c: Registry)
    requires Continues(a, b) && Continues(b, c)
    ensures Continues(a, c)
  {
  }

  /** A connection that has left stays left, for the reason it left; with `BooksBalanced` in every state,
      each armed connection leaves once, even when connection ids wrap around. */
  lemma {:induction false} DeparturesAreFinal(run: seq<Front>, steps: seq<Step>, i: nat, j: nat)
    requires IsRun(run, steps) && i <= j < |run|
    ensures BooksBalanced(run[j].registry, run[j].ids) && Continues(run[i].registry, run[j].registry)
    decreases j
  {
    BooksAlways(run, steps, j);
    if i < j {
      DeparturesAreFinal(run, steps, i, j - 1);
      ContinuesOnce(run, steps, j - 1);
      ContinuesOn(run[i].registry, run[j - 1].registry, run[j].registry);
    }
  }

  lemma StopSoundAlways(run: seq<Front>, steps: seq<Step>, i: nat)
    requires IsRun(run, steps) && i < |run|
    ensures StopSound(run[i])
  {
    InvAlways(run, steps, i);
  }

  lemma StaysStopped(run: seq<Front>, steps: seq<Step>, j: nat, s: Front, s': Front)
    requires IsRun(run, steps) && j < |steps| && run[j] == s && run[j + 1] == s' && s.registry.stopping
    ensures s'.registry.stopping && s'.registry.active == map[] && s'.registry.armed == s.registry.armed
  {
    StopSoundAlways(run, steps, j);
    StopSoundAlways(run, steps, j + 1);
    RunStep(run, steps, j);
    StopStep(s, steps[j]);
  }

  /** Once the front is stopping, nothing is armed any more. */
  lemma {:induction false} StoppingIsFinal(run: seq<Front>, steps: seq<Step>, i: nat, j: nat)
    requires IsRun(run, steps) && i <= j < |run| && run[i].registry.stopping
    ensures run[j].registry.stopping && run[j].registry.active == map[]
      && run[j].registry.armed == run[i].registry.armed
    decreases j
  {
    if i < j {
      StoppingIsFinal(run, steps, i, j - 1);
      StaysStopped(run, steps, j - 1, run[j - 1], run[j]);
    } else {
      StopSoundAlways(run, steps, j);
    }
  }

  /** A sleeping supervisor wakes by every armed expiry, late by no more than its own last pass took,
      unless the call that armed it is still about to notify; and it never sleeps through a stop whose
      notification is out. */
  lemma SupervisorNeverOversleeps(run: seq<Front>, steps: seq<Step>, i: nat, id: nat)
    requires IsRun(run, steps) && i < |run| && run[i].supervisor.Sleeping?
    ensures id in run[i].registry.active ==>
              var entry := run[i].registry.active[id];
              || (entry.ticket in run[i].dispatches && run[i].dispatches[entry.ticket].Notifying?)
              || (run[i].supervisor.until.Some?
                  && run[i].supervisor.until.value <= entry.expiresAt + run[i].supervisor.lag)
    ensures run[i].registry.stopping ==> run[i].shutdown.SweepDone?
  {
    InvAlways(run, steps, i);
  }

  // ---------------------------------------------------------------- whose connection a lease completes

  /** The entry under the id of `t` belongs to another connection. */
  predicate StrangerHolds(r: Registry, ids: map<Ticket, nat>, t: Ticket) {
    t in ids && ids[t] in r.active && r.active[ids[t]].ticket != t
  }

  /** Some connection other than `t` leaves between `r` and `r'`. */
  ghost predicate StrangerLeaves(r: Registry, r': Registry, t: Ticket) {
    exists u :: u != t && u !in r.left && u in r'.left
  }

  /** Ending a lease completes another connection exactly when that connection holds its id by then. */
  lemma LeaseEndsExactly(r: Registry, ids: map<Ticket, nat>, t: Ticket)
    requires BooksBalanced(r, ids) && t in ids
    ensures StrangerLeaves(r, Complete(r, ids[t]), t) <==> StrangerHolds(r, ids, t)
  {
    var r' := Complete(r, ids[t]);
    if StrangerHolds(r, ids, t) {
      var u := r.active[ids[t]].ticket;
      assert u !in r.left && u in r'.left;
    }
  }

  /** The call whose lease a step ends, if it ends one. */
  function Ends(s: Front, step: Step): Option<Ticket> {
    match step
    case Advance(t, _) => if t in s.dispatches && s.dispatches[t].DroppingLease? then Some(t) else None
    case Work(w) => if w in s.workers && s.workers[w].Handling? then Some(s.workers[w].job) else None
    case _ => None
  }

  lemma EndsLease(s: Front, step: Step, t: Ticket)
    requires Inv(s) && Enabled(s, step) && Ends(s, step) == Some(t)
    ensures t in s.ids && Apply(s, step).registry == Complete(s.registry, s.ids[t])
  {
    if step.Work? {
      assert s.workers[step.w].job in s.accepted;
    }
  }

  lemma NoStranger(s: Front, t: Ticket)
    requires LeasesHeld(s) && s.numbered <= ID_SPACE
    ensures !StrangerHolds(s.registry, s.ids, t)
  {
  }

  /** In every run a step that ends a lease completes only its own connection, if and only if no other
      connection holds the id by then; and none can before the id counter has wrapped. */
  lemma CompletesOnlyItsOwn(run: seq<Front>, steps: seq<Step>, i: nat, t: Ticket)
    requires IsRun(run, steps) && i < |steps| && Ends(run[i], steps[i]) == Some(t)
    ensures StrangerLeaves(run[i].registry, run[i + 1].registry, t) <==> StrangerHolds(run[i].registry, run[i].ids, t)
    ensures run[i].numbered <= ID_SPACE ==> !StrangerLeaves(run[i].registry, run[i + 1].registry, t)
  {
    InvAlways(run, steps, i);
    RunStep(run, steps, i);
    EndsLease(run[i], steps[i], t);
    LeaseEndsExactly(run[i].registry, run[i].ids, t);
    if run[i].numbered <= ID_SPACE {
      NoStranger(run[i], t);
    }
  }

  // ---------------------------------------------------------------- a run that wraps

  ghost predicate Reachable(s: Front) {
    exists run, steps :: IsRun(run, steps) && run[|steps|] == s
  }

  lemma RunExtends(run: seq<Front>, steps: seq<Step>, step: Step, s': Front)
    requires IsRun(run, steps) && Follows(run[|steps|], step, s')
    ensures IsRun(run + [s'], steps + [step])
  {
    var run', steps' := run + [s'], steps + [step];
    forall i {:trigger steps'[i]} | 0 <= i < |steps'| ensures Follows(run'[i], steps'[i], run'[i + 1]) {
      if i < |steps| {
        assert run'[i] == run[i] && run'[i + 1] == run[i + 1] && steps'[i] == steps[i];
      }
    }
  }

  lemma ReachableStep(s: Front, step: Step)
    requires Reachable(s) && Enabled(s, step)
    ensures Reachable(Apply(s, step))
  {
    var run, steps :| IsRun(run, steps) && run[|steps|] == s;
    var s' := Apply(s, step);
    RunExtends(run, steps, step, s');
    assert (run + [s'])[|steps + [step]|] == s';
  }

  lemma Advances(s: Front, t: Ticket, lucky: bool) returns (s': Front)
    requires Reachable(s) && t in s.dispatches && !s.dispatches[t].Returned?
    ensures Reachable(s') && s' == Moved(Effect(s, t, lucky), t, Following(s, t, lucky))
  {
    ReachableStep(s, Advance(t, lucky));
    s' := Apply(s, Advance(t, lucky));
  }

  /** A call can always take a permit and draw a connection id while a permit is free. */
  lemma Reserves(s: Front, t: Ticket) returns (s': Front)
    requires Reachable(s) && t !in s.dispatches && s.shutdown.NotStarted? && s.senderOpen && s.inFlight < s.maxInFlight
    ensures Reachable(s')
    ensures s' == s.(dispatches := s.dispatches[t := Configuring], inFlight := s.inFlight + 1)
  {
    ReachableStep(s, Start(t));
    var s1 := Apply(s, Start(t));
    assert s1 == s.(dispatches := s.dispatches[t := Loading]);
    var s2 := Advances(s1, t, true);
    assert s2 == s.(dispatches := s.dispatches[t := Comparing(s.inFlight)]);
    s' := Advances(s2, t, true);
    assert s'.dispatches == s.dispatches[t := Configuring];
  }

  lemma DrawsId(s: Front, t: Ticket) returns (s': Front)
    requires Reachable(s) && t !in s.dispatches && s.shutdown.NotStarted? && s.senderOpen && s.inFlight < s.maxInFlight
    ensures Reachable(s')
    ensures s' == s.(dispatches := s.dispatches[t := Numbered(s.clock + s.readDeadline)], inFlight := s.inFlight + 1,
                     numbered := s.numbered + 1, ids := s.ids[t := s.numbered % ID_SPACE])
  {
    var s1 := Reserves(s, t);
    s' := Advances(s1, t, true);
    assert s'.dispatches == s.dispatches[t := Numbered(s.clock + s.readDeadline)];
  }

  /** A call whose registration fails leaves nothing but its number behind. */
  lemma BurnsId(s: Front, t: Ticket) returns (s': Front)
    requires Reachable(s) && t !in s.dispatches && s.shutdown.NotStarted? && s.senderOpen && s.inFlight < s.maxInFlight
    ensures Reachable(s')
    ensures s' == s.(dispatches := s.dispatches[t := Returned(Failed)],
                     numbered := s.numbered + 1, ids := s.ids[t := s.numbered % ID_SPACE])
  {
    var s1 := DrawsId(s, t);
    var s2 := Advances(s1, t, false);
    assert s2 == s1.(dispatches := s.dispatches[t := DroppingPermit(Failed)]);
    s' := Advances(s2, t, true);
  }

  /** The first call's handler is still running although its read deadline has passed, and `n` ids were drawn. */
  ghost predicate Lingering(s: Front, n: nat) {
    && Reachable(s) && s.numbered == n
    && s.maxInFlight == 2 && s.readDeadline == 0 && s.inFlight == 1 && s.shutdown.NotStarted? && s.senderOpen
    && s.workers == map[0 := Handling(0)]
    && s.registry.active == map[] && !s.registry.stopping && s.registry.left == map[0 := Expired]
    && 0 in s.ids && s.ids[0] == 0 && (forall t | t in s.dispatches :: t < n)
  }

  lemma FirstNumbered() returns (s: Front)
    ensures Reachable(s)
    ensures s == Front(2, 0, 1, 1, true, [], map[0 := Numbered(0)], map[0 := Receiving],
                       Registry(map[], false, {}, map[]), Awake, 0, NotStarted, map[0 := 0], [], [], {})
  {
    var s0 := Front(2, 0, 0, 0, true, [], map[], map[0 := Receiving], Registry(map[], false, {}, map[]), Awake, 0,
                    NotStarted, map[], [], [], {});
    assert Reachable(s0) by {
      assert IsRun([s0], []);
    }
    s := DrawsId(s0, 0);
    assert s.ids == map[0 := 0] && s.dispatches == map[0 := Numbered(0)];
  }

  lemma FirstArmed() returns (s: Front)
    ensures Reachable(s)
    ensures s == Front(2, 0, 1, 1, true, [], map[0 := Notifying], map[0 := Receiving],
                       Registry(map[0 := Armed(0, 0)], false, {0}, map[]), Awake, 0, NotStarted,
                       map[0 := 0], [], [], {})
  {
    var s1 := FirstNumbered();
    s := Advances(s1, 0, true);
    assert s.dispatches == map[0 := Notifying] && s.registry.active == map[0 := Armed(0, 0)];
  }

  lemma FirstAccepted() returns (s: Front)
    ensures Reachable(s)
    ensures s == Front(2, 0, 1, 1, true, [0], map[0 := Returned(Accepted)], map[0 := Receiving],
                       Registry(map[0 := Armed(0, 0)], false, {0}, map[]), Awake, 0, NotStarted,
                       map[0 := 0], [0], [], {})
  {
    var s1 := FirstArmed();
    var s2 := Advances(s1, 0, true);
    assert s2 == s1.(dispatches := map[0 := Sending]);
    assert ReceiverAlive(s2) by {
      assert !s2.workers[0].Exited?;
    }
    s := Advances(s2, 0, true);
    assert s.dispatches == map[0 := Returned(Accepted)];
  }

  lemma {:induction false} LingersAt(n: nat) returns (s: Front)
    requires n >= 1
    ensures Lingering(s, n)
  {
    if n == 1 {
      var s1 := FirstAccepted();
      ReachableStep(s1, Work(0));
      var s2 := Apply(s1, Work(0));
      assert s2.workers == map[0 := Handling(0)];
      assert Due(s2.registry, 0) == {0};
      var expired := Expire(s2.registry, 0);
      assert expired.active == map[] && expired.left == map[0 := Expired];
      ReachableStep(s2, Global(Supervise(0, None)));
      s := Apply(s2, Global(Supervise(0, None)));
    } else {
      var before := LingersAt(n - 1);
      s := BurnsId(before, n - 1);
    }
  }

  /** A run whose id counter wraps and in which ending a lease completes a stranger's connection. */
  lemma ReusedIdCompletesAStranger() returns (s: Front, s': Front)
    ensures Reachable(s) && Enabled(s, Work(0)) && s' == Apply(s, Work(0)) && Ends(s, Work(0)) == Some(0)
    ensures s.numbered == ID_SPACE + 1 && StrangerHolds(s.registry, s.ids, 0)
    ensures StrangerLeaves(s.registry, s'.registry, 0)
  {
    var t := ID_SPACE;
    var waiting := LingersAt(ID_SPACE);
    var numbered := DrawsId(waiting, t);
    assert numbered.ids[t] == 0;
    s := Advances(numbered, t, true);
    assert s.registry.active == map[0 := Armed(t, waiting.clock)] && s.workers == waiting.workers;
    s' := Apply(s, Work(0));
    assert t !in s.registry.left && t in s'.registry.left;
  }
}
