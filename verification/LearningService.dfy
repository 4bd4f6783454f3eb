/** The learning service: one worker, any number of calls that attach, detach, wake or stop.

    Locks are steps that wait for the lock to be free, the condition variable is a sleeping worker
    that a notification marks, and a sleeping worker may also wake by itself when its poll elapses. */
module LearningService {

  import opened Wrappers
  import Text

  const MAX: nat := Text.U64_MAX

  // ---------------------------------------------------------------- attachments

  /** `authority` stands for the Store, MemorySpace and SubjectRegistry a runtime shares. */
  datatype Identity = Identity(authority: string, subject: string)

  /** An attachment; `token` tells apart two attachments of one identity at different times. */
  datatype Entry = Entry(identity: Identity, token: nat)

  datatype Verdict = Push | Existing | NoAuthority | ForeignAuthority | Full | NotInstalled

  predicate Attached(list: seq<Entry>, identity: Identity) {
    exists i :: 0 <= i < |list| && list[i].identity == identity
  }

  /** What an attach call may do, decided under the lock. */
  function Judge(list: seq<Entry>, max: nat, identity: Identity): Verdict {
    if list == [] then NoAuthority
    else if list[0].identity.authority != identity.authority then ForeignAuthority
    else if Attached(list, identity) then Existing
    else if |list| >= max then Full
    else Push
  }

  function Without(list: seq<Entry>, entry: Entry): (r: seq<Entry>)
    ensures |r| <= |list| && forall e :: e in r <==> e in list && e != entry
  {
    if list == [] then []
    else if list[0] == entry then Without(list[1..], entry)
    else [list[0]] + Without(list[1..], entry)
  }

  /** Identities differ, fit the capacity, and share one authority. */
  ghost predicate ListSound(list: seq<Entry>, max: nat) {
    && |list| <= max
    && (forall i, j | 0 <= i < j < |list| :: list[i].identity != list[j].identity)
    && (forall i, j | 0 <= i < |list| && 0 <= j < |list| :: list[i].identity.authority == list[j].identity.authority)
  }

  lemma PushKeepsSound(list: seq<Entry>, max: nat, entry: Entry)
    requires ListSound(list, max) && Judge(list, max, entry.identity).Push?
    ensures ListSound(list + [entry], max)
  {
    var list' := list + [entry];
    forall i, j | 0 <= i < j < |list'| ensures list'[i].identity != list'[j].identity {
      assert !Attached(list, entry.identity);
    }
  }

  lemma {:induction false} WithoutKeepsSound(list: seq<Entry>, max: nat, entry: Entry)
    requires ListSound(list, max)
    ensures ListSound(Without(list, entry), max)
  {
    if list != [] {
      var rest := Without(list[1..], entry);
      WithoutKeepsSound(list[1..], max, entry);
      forall i | 0 <= i < |rest|
        ensures rest[i].identity != list[0].identity && rest[i].identity.authority == list[0].identity.authority
      {
        assert rest[i] in list[1..];
      }
    }
  }

  /** The attachment vector and its reported length, changed together under one lock. */
  class AttachmentList {
    var list: seq<Entry>
    var count: nat
    const max: nat

    ghost predicate Valid()
      reads this
    {
      ListSound(list, max) && count == |list|
    }

    constructor (max: nat, first: Entry)
      requires max >= 1
      ensures Valid() && list == [first] && this.max == max
    {
      this.max, list, count := max, [first], 1;
    }

    /** `installed` says whether installing the current governance binding succeeds. */
    method Attach(entry: Entry, installed: bool) returns (v: Verdict)
      requires Valid()
      modifies this
      ensures Valid()
      ensures var judged := Judge(old(list), max, entry.identity);
        v == if judged.Push? && !installed then NotInstalled else judged
      ensures v.Push? <==>
              && old(list) != [] && old(list)[0].identity.authority == entry.identity.authority
              && (forall e | e in old(list) :: e.identity != entry.identity) && |old(list)| < max && installed
      ensures list == if v.Push? then old(list) + [entry] else old(list)
    {
      if list == [] {
        return NoAuthority;
      }
      if list[0].identity.authority != entry.identity.authority {
        return ForeignAuthority;
      }
      for i := 0 to |list|
        invariant forall j | 0 <= j < i :: list[j].identity != entry.identity
      {
        if list[i].identity == entry.identity {
          return Existing;
        }
      }
      if |list| >= max {
        return Full;
      }
      if !installed {
        return NotInstalled;
      }
      PushKeepsSound(list, max, entry);
      list := list + [entry];
      count := |list|;
      return Push;
    }

    /** Other handles, or a worker's copy, keep the attachment: more than two owners of its report. */
    method Detach(entry: Entry, owners: nat)
      requires Valid()
      modifies this
      ensures Valid() && list == if owners > 2 then old(list) else Without(old(list), entry)
    {
      if owners > 2 {
        return;
      }
      var kept := [];
      for i := 0 to |list|
        invariant list == old(list) && count == old(count)
        invariant kept + Without(list[i..], entry) == Without(list, entry)
      {
        assert list[i..][1..] == list[i + 1..];
        if list[i] != entry {
          kept := kept + [list[i]];
        }
      }
      assert kept == Without(list, entry);
      WithoutKeepsSound(list, max, entry);
      list := kept;
      count := |list|;
    }
  }

  // ---------------------------------------------------------------- calls

  datatype Request = Attach(identity: Identity) | Detach(entry: Entry) | Stop

  datatype Phase =
    | Entering
    | Holding
    | Approved
    | Changed
    | Counted
    | Notifying
    | Returned
  {
    predicate HasLock() {
      Holding? || Approved? || Changed? || Counted?
    }
  }

  datatype Op = Op(request: Request, phase: Phase)

  /** What the attachments lock guards; the stop flag is written under it and read anywhere. */
  datatype Registry = Registry(
    list: seq<Entry>, count: nat, max: nat, stop: bool, lock: Option<nat>, ops: map<nat, Op>)

  function To(r: Registry, t: nat, phase: Phase): Registry
    requires t in r.ops
  {
    r.(ops := r.ops[t := r.ops[t].(phase := phase)])
  }

  function Release(r: Registry, t: nat, phase: Phase): Registry
    requires t in r.ops
  {
    To(r, t, phase).(lock := None)
  }

  function Begun(r: Registry, t: nat, request: Request, kept: bool): Registry {
    var over := (request.Attach? && r.stop) || (request.Detach? && kept);
    r.(ops := r.ops[t := Op(request, if over then Returned else Entering)])
  }

  /** One step of the call `t`; `Notifying` is left to the service, which also moves the worker. */
  function Advanced(r: Registry, t: nat): Registry
    requires t in r.ops
  {
    var request := r.ops[t].request;
    match r.ops[t].phase
    case Entering => To(r, t, Holding).(lock := Some(t))
    case Holding =>
      if request.Attach? && (r.stop || !Judge(r.list, r.max, request.identity).Push?) then Release(r, t, Returned)
      else To(r, t, Approved)
    case Approved =>
      (match request
       case Attach(identity) => To(r, t, Changed).(list := r.list + [Entry(identity, t)])
       case Detach(entry) => To(r, t, Changed).(list := Without(r.list, entry))
       case Stop => To(r, t, Counted).(stop := true))
    case Changed => To(r, t, Counted).(count := |r.list|)
    case Counted => Release(r, t, Notifying)
    case Notifying => To(r, t, Returned)
    case Returned => r
  }

  // ---------------------------------------------------------------- the worker

  datatype Worker =
    | Head
    | Snapshotting
    | Passing(rest: seq<Entry>, progressed: bool)
    | Deciding(progressed: bool)
    | Sleeping(signalled: bool)
    | Done

  /** `generation` and `observed` are the source's counters. The rest is history: how many notifications
      there were, how many when `observed` was last read, and how many when the last pass began. */
  datatype Wake = Wake(
    generation: nat, observed: nat, worker: Worker, snapshot: seq<Entry>, notifications: nat, seen: nat, passBegan: nat)

  function Saturated(n: nat): nat {
    if n > MAX then MAX else n
  }

  function Notified(w: Wake): Wake {
    w.(generation := Saturated(w.generation + 1), notifications := w.notifications + 1,
       worker := if w.worker.Sleeping? then Sleeping(true) else w.worker)
  }

  function Observe(w: Wake): Wake {
    w.(observed := w.generation, seen := w.notifications, worker := Head)
  }

  /** One step of the worker loop; `progress` is what an attachment cycle reports. */
  function Worked(w: Wake, list: seq<Entry>, stop: bool, progress: bool): Wake {
    match w.worker
    case Head => w.(worker := if stop then Done else Snapshotting)
    case Snapshotting => w.(snapshot := list, passBegan := w.notifications, worker := Passing(list, false))
    case Passing(rest, progressed) =>
      w.(worker := if stop then Done
                   else if rest == [] then Deciding(progressed)
                   else Passing(rest[1..], progressed || progress))
    case Deciding(progressed) =>
      if w.generation == w.observed && !progressed then w.(worker := Sleeping(false)) else Observe(w)
    case Sleeping(_) => Observe(w)
    case Done => w
  }

  // ---------------------------------------------------------------- the whole service

  datatype Service = Service(registry: Registry, wake: Wake)

  /** `kept` says that a detach call finds other owners and returns at once; `Refuse` is an attach call whose
      binding cannot be installed after it was approved. */
  datatype Step =
    | Begin(t: nat, request: Request, kept: bool)
    | Advance(t: nat)
    | Refuse(t: nat)
    | Notify
    | Work(progress: bool)

  ghost predicate Init(s: Service) {
    && (exists first: Identity, max: nat ::
          max >= 1 && s.registry == Registry([Entry(first, 0)], 1, max, false, None, map[]))
    && s.wake == Wake(0, 0, Head, [], 0, 0, 0)
  }

  ghost predicate Enabled(s: Service, step: Step) {
    match step
    case Begin(t, _, _) => t != 0 && t !in s.registry.ops
    case Advance(t) =>
      && t in s.registry.ops && !s.registry.ops[t].phase.Returned?
      && (s.registry.ops[t].phase.Entering? ==> s.registry.lock.None?)
    case Refuse(t) => t in s.registry.ops && s.registry.ops[t].phase.Approved? && s.registry.ops[t].request.Attach?
    case Notify => true
    case Work(_) => s.wake.worker.Snapshotting? ==> s.registry.lock.None?
  }

  ghost function Apply(s: Service, step: Step): Service
    requires Enabled(s, step)
  {
    match step
    case Begin(t, request, kept) => s.(registry := Begun(s.registry, t, request, kept))
    case Advance(t) =>
      Service(Advanced(s.registry, t), if s.registry.ops[t].phase.Notifying? then Notified(s.wake) else s.wake)
    case Refuse(t) => s.(registry := Release(s.registry, t, Returned))
    case Notify => s.(wake := Notified(s.wake))
    case Work(progress) => s.(wake := Worked(s.wake, s.registry.list, s.registry.stop, progress))
  }

  ghost predicate IsRun(run: seq<Service>, steps: seq<Step>) {
    && |run| == |steps| + 1
    && Init(run[0])
    && (forall i {:trigger steps[i]} :: 0 <= i < |steps| ==>
          Enabled(run[i], steps[i]) && run[i + 1] == Apply(run[i], steps[i]))
  }

  // ---------------------------------------------------------------- the registry

  ghost predicate OpSound(r: Registry, t: nat) {
    t in r.ops ==>
      var op := r.ops[t];
      && (op.phase.HasLock() <==> r.lock == Some(t))
      && (op.phase.Approved? && op.request.Attach? ==> !r.stop && Judge(r.list, r.max, op.request.identity).Push?)
      && (op.phase.Changed? ==> !op.request.Stop?)
      && (op.phase.Counted? || op.phase.Notifying? ==> op.request.Stop? ==> r.stop)
  }

  ghost predicate RegistrySound(r: Registry) {
    && ListSound(r.list, r.max)
    && (forall t :: OpSound(r, t))
    && (r.lock.Some? ==> r.lock.value in r.ops)
    && (r.count == |r.list| || (r.lock.Some? && r.ops[r.lock.value].phase.Changed?))
  }

  lemma AdvanceKeepsRegistry(r: Registry, t: nat)
    requires RegistrySound(r) && t in r.ops && (r.ops[t].phase.Entering? ==> r.lock.None?)
    ensures RegistrySound(Advanced(r, t))
  {
    assert OpSound(r, t);
    var op, r' := r.ops[t], Advanced(r, t);
    if op.phase.Approved? {
      match op.request
      case Attach(identity) => PushKeepsSound(r.list, r.max, Entry(identity, t));
      case Detach(entry) => WithoutKeepsSound(r.list, r.max, entry);
      case Stop =>
    }
    forall u ensures OpSound(r', u) {
      assert OpSound(r, u);
    }
  }

  lemma RefuseKeepsRegistry(r: Registry, t: nat)
    requires RegistrySound(r) && t in r.ops && r.ops[t].phase.Approved?
    ensures RegistrySound(Release(r, t, Returned))
  {
    assert OpSound(r, t);
    forall u ensures OpSound(Release(r, t, Returned), u) {
      assert OpSound(r, u);
    }
  }

  lemma BeginKeepsRegistry(r: Registry, t: nat, request: Request, kept: bool)
    requires RegistrySound(r) && t !in r.ops
    ensures RegistrySound(Begun(r, t, request, kept))
  {
    forall u ensures OpSound(Begun(r, t, request, kept), u) {
      assert OpSound(r, u);
    }
  }

  // ---------------------------------------------------------------- the wake handshake

  predicate InPass(worker: Worker) {
    worker.Passing? || worker.Deciding? || worker.Sleeping?
  }

  ghost predicate WakeSound(w: Wake) {
    && w.generation == Saturated(w.notifications) && w.observed == Saturated(w.seen)
    && w.seen <= w.notifications && w.passBegan <= w.notifications
    && (InPass(w.worker) ==> w.seen <= w.passBegan)
    && (w.worker == Sleeping(false) ==> w.generation == w.observed)
  }

  predicate Underway(ops: map<nat, Op>, t: nat) {
    t in ops && (ops[t].phase.Changed? || ops[t].phase.Counted? || ops[t].phase.Notifying?)
  }

  /** While a pass runs, every attachment is in it, or its call has yet to notify, or a notification is pending. */
  ghost predicate ListSeen(list: seq<Entry>, ops: map<nat, Op>, w: Wake) {
    InPass(w.worker) && w.passBegan == w.notifications ==>
      forall e | e in list :: e in w.snapshot || Underway(ops, e.token)
  }

  ghost predicate StopReturned(ops: map<nat, Op>) {
    exists t :: t in ops && ops[t].request.Stop? && ops[t].phase.Returned?
  }

  /** Once a stop call has returned, the worker is leaving or still has its notification to see. */
  ghost predicate StopSeen(r: Registry, w: Wake) {
    StopReturned(r.ops) ==> r.stop && (w.worker.Head? || w.worker.Done? || w.seen < w.notifications)
  }

  ghost predicate Inv(s: Service) {
    && RegistrySound(s.registry)
    && WakeSound(s.wake)
    && ListSeen(s.registry.list, s.registry.ops, s.wake)
    && StopSeen(s.registry, s.wake)
  }

  lemma WakeStep(s: Service, step: Step)
    requires WakeSound(s.wake) && Enabled(s, step)
    ensures WakeSound(Apply(s, step).wake)
  {
  }

  lemma ListSeenAdvance(r: Registry, t: nat, w: Wake)
    requires RegistrySound(r) && t in r.ops && WakeSound(w) && ListSeen(r.list, r.ops, w)
    ensures ListSeen(Advanced(r, t).list, Advanced(r, t).ops, if r.ops[t].phase.Notifying? then Notified(w) else w)
  {
    assert OpSound(r, t);
  }

  lemma ListSeenStep(s: Service, step: Step)
    requires Inv(s) && Enabled(s, step)
    ensures ListSeen(Apply(s, step).registry.list, Apply(s, step).registry.ops, Apply(s, step).wake)
  {
    if step.Advance? {
      ListSeenAdvance(s.registry, step.t, s.wake);
    }
  }

  lemma StopSeenStep(s: Service, step: Step)
    requires Inv(s) && Enabled(s, step)
    ensures StopSeen(Apply(s, step).registry, Apply(s, step).wake)
  {
    var s' := Apply(s, step);
    if StopReturned(s'.registry.ops) {
      var t :| t in s'.registry.ops && s'.registry.ops[t].request.Stop? && s'.registry.ops[t].phase.Returned?;
      assert OpSound(s.registry, t);
      assert StopReturned(s.registry.ops) || step == Advance(t);
    }
  }

  lemma InvStep(s: Service, step: Step)
    requires Inv(s) && Enabled(s, step)
    ensures Inv(Apply(s, step))
  {
    WakeStep(s, step);
    ListSeenStep(s, step);
    StopSeenStep(s, step);
    match step
    case Begin(t, request, kept) => BeginKeepsRegistry(s.registry, t, request, kept);
    case Refuse(t) => RefuseKeepsRegistry(s.registry, t);
    case Advance(t) => AdvanceKeepsRegistry(s.registry, t);
    case _ =>
  }

  lemma {:induction false} InvAlways(run: seq<Service>, steps: seq<Step>, i: nat)
    requires IsRun(run, steps) && i < |run|
    ensures Inv(run[i])
  {
    if i > 0 {
      InvAlways(run, steps, i - 1);
      InvStep(run[i - 1], steps[i - 1]);
    }
  }

  // ---------------------------------------------------------------- what every run keeps

  /** No wake-up is lost: an unsignalled sleeper began its last pass after every notification, and that
      pass had every attachment whose call has notified. */
  lemma NoWakeIsLost(run: seq<Service>, steps: seq<Step>, i: nat)
    requires IsRun(run, steps) && i < |run| && (run[i].wake.notifications <= MAX || run[i].wake.seen < MAX)
    requires run[i].wake.worker == Sleeping(false)
    ensures var w, r := run[i].wake, run[i].registry;
      && w.passBegan == w.notifications
      && (forall e | e in r.list && !Underway(r.ops, e.token) :: e in w.snapshot)
      && !StopReturned(r.ops)
  {
    InvAlways(run, steps, i);
  }

  /** When the worker decides, it sleeps exactly if the pass made no progress and there was no notification
      since the counter was last read, or that counter had already saturated. */
  lemma SleepDecision(run: seq<Service>, steps: seq<Step>, i: nat, progressed: bool, progress: bool)
    requires IsRun(run, steps) && i < |run| && run[i].wake.worker == Deciding(progressed)
    ensures var w := run[i].wake;
      Worked(w, run[i].registry.list, run[i].registry.stop, progress).worker.Sleeping? <==>
      !progressed && (w.seen == w.notifications || w.seen >= MAX)
  {
    InvAlways(run, steps, i);
  }

  function Rank(worker: Worker): nat {
    match worker
    case Done => 0
    case Head => 1
    case Passing(_, _) => 1
    case _ => 2
  }

  /** The worker steps that are left at most once the stop flag is set. */
  function StepsLeft(worker: Worker): nat {
    if worker.Deciding? then 3 else Rank(worker)
  }

  /** Once the stop flag is set, every worker step brings the worker nearer its end, and no other step takes it
      further away. */
  lemma StopNearsTheEnd(run: seq<Service>, steps: seq<Step>, i: nat)
    requires IsRun(run, steps) && i < |steps| && run[i].registry.stop
    ensures if steps[i].Work? && !run[i].wake.worker.Done?
            then StepsLeft(run[i + 1].wake.worker) < StepsLeft(run[i].wake.worker)
            else StepsLeft(run[i + 1].wake.worker) == StepsLeft(run[i].wake.worker)
  {
  }

  /** After a stop call has returned at most two worker steps are left, except exactly when the worker is about to
      go to sleep over a counter that had saturated. */
  lemma StopReturnedEndsTheWorker(run: seq<Service>, steps: seq<Step>, i: nat)
    requires IsRun(run, steps) && i < |steps| && steps[i].Work?
    requires StopReturned(run[i].registry.ops) && !run[i].wake.worker.Done?
    ensures Rank(run[i + 1].wake.worker) < Rank(run[i].wake.worker) <==>
            !(run[i].wake.worker == Deciding(false) && run[i].wake.seen >= MAX)
  {
    InvAlways(run, steps, i);
  }

  lemma StopStep(s: Service, step: Step)
    requires Inv(s) && Enabled(s, step) && s.registry.stop
    ensures var r := Apply(s, step).registry; r.stop && forall e | e in r.list :: e in s.registry.list
  {
    if step.Advance? {
      assert OpSound(s.registry, step.t);
    }
  }

  /** Once the stop flag is set the attachments only shrink. */
  lemma {:induction false} StoppedListOnlyShrinks(run: seq<Service>, steps: seq<Step>, i: nat, j: nat)
    requires IsRun(run, steps) && i <= j < |run| && run[i].registry.stop
    ensures run[j].registry.stop && forall e | e in run[j].registry.list :: e in run[i].registry.list
  {
    if i < j {
      StoppedListOnlyShrinks(run, steps, i, j - 1);
      InvAlways(run, steps, j - 1);
      StopStep(run[j - 1], steps[j - 1]);
    }
  }

  /** An attach call that holds the lock is approved exactly if the service runs and the identity is new, of the same
      authority and within capacity; an approved call that is not refused then is attached. */
  lemma AttachesExactly(run: seq<Service>, steps: seq<Step>, i: nat, t: nat)
    requires IsRun(run, steps) && i < |steps| && steps[i] == Advance(t)
    requires t in run[i].registry.ops && run[i].registry.ops[t].request.Attach?
    ensures t in run[i + 1].registry.ops
    ensures var r, r', identity := run[i].registry, run[i + 1].registry, run[i].registry.ops[t].request.identity;
      && (r.ops[t].phase.Holding? ==>
            (r'.ops[t].phase.Approved? <==>
             && !r.stop && r.list != [] && r.list[0].identity.authority == identity.authority
             && (forall e | e in r.list :: e.identity != identity) && |r.list| < r.max))
      && (r.ops[t].phase.Approved? ==> r'.list == r.list + [Entry(identity, t)])
      && (!r.ops[t].phase.Approved? ==> r'.list == r.list)
  {
  }

  /** A detach call takes away exactly its attachment. */
  lemma DetachesExactly(run: seq<Service>, steps: seq<Step>, i: nat, t: nat, e: Entry)
    requires IsRun(run, steps) && i < |steps| && steps[i] == Advance(t)
    requires t in run[i].registry.ops && run[i].registry.ops[t].request.Detach?
    requires run[i].registry.ops[t].phase.Approved?
    ensures e in run[i + 1].registry.list <==>
            e in run[i].registry.list && e != run[i].registry.ops[t].request.entry
  {
  }

  /** How many of the steps from `i` to `j` are the worker's. */
  function Works(steps: seq<Step>, i: nat, j: nat): nat
    requires i <= j <= |steps|
    decreases j
  {
    if i == j then 0 else Works(steps, i, j - 1) + if steps[j - 1].Work? then 1 else 0
  }

  /** Once the stop flag is set, the worker is done after three steps of its own, whatever else happens. */
  lemma {:induction false} StopEndsTheWorker(run: seq<Service>, steps: seq<Step>, i: nat, j: nat)
    requires IsRun(run, steps) && i <= j < |run| && run[i].registry.stop
    ensures run[j].wake.worker.Done? ||
            Works(steps, i, j) + StepsLeft(run[j].wake.worker) <= StepsLeft(run[i].wake.worker)
    ensures Works(steps, i, j) >= 3 ==> run[j].wake.worker.Done?
    decreases j
  {
    if i < j {
      StopEndsTheWorker(run, steps, i, j - 1);
      StoppedListOnlyShrinks(run, steps, i, j - 1);
      StopNearsTheEnd(run, steps, j - 1);
    }
  }

  /** Distinct identities of one authority within capacity, and an exact count whenever the lock is free. */
  lemma ListIsAlwaysSound(run: seq<Service>, steps: seq<Step>, i: nat)
    requires IsRun(run, steps) && i < |run|
    ensures ListSound(run[i].registry.list, run[i].registry.max)
    ensures run[i].registry.lock.None? ==> run[i].registry.count == |run[i].registry.list|
  {
    InvAlways(run, steps, i);
  }

  // ---------------------------------------------------------------- what a pass does

  /** In step `m` the worker runs the cycle of the next attachment of its pass. */
  ghost predicate VisitsAt(run: seq<Service>, steps: seq<Step>, m: nat)
    requires |run| == |steps| + 1
  {
    && m < |steps| && steps[m].Work? && !run[m].registry.stop
    && run[m].wake.worker.Passing? && run[m].wake.worker.rest != []
  }

  ghost function Visits(run: seq<Service>, steps: seq<Step>, b: nat, j: nat): nat
    requires |run| == |steps| + 1 && b <= j <= |steps|
    decreases j
  {
    if b == j then 0 else Visits(run, steps, b, j - 1) + if VisitsAt(run, steps, j - 1) then 1 else 0
  }

  ghost predicate Progresses(run: seq<Service>, steps: seq<Step>, b: nat, j: nat)
    requires |run| == |steps| + 1
  {
    exists m: nat :: b <= m < j && VisitsAt(run, steps, m) && steps[m].progress
  }

  /** The worker is in the pass that began in state `b` with the attachments of that moment. */
  ghost predicate SamePass(run: seq<Service>, b: nat, j: nat)
    requires b <= j < |run|
  {
    && run[b].wake.worker == Passing(run[b].wake.snapshot, false)
    && forall m | b <= m <= j :: run[m].wake.worker.Passing? || run[m].wake.worker.Deciding?
  }

  /** Where the worker is after `visits` cycles of a pass over `snapshot`. */
  ghost predicate PassSound(worker: Worker, snapshot: seq<Entry>, visits: nat, progressed: bool) {
    match worker
    case Passing(rest, p) => visits <= |snapshot| && rest == snapshot[visits..] && p == progressed
    case Deciding(p) => visits == |snapshot| && p == progressed
    case _ => false
  }

  lemma PassStep(w: Wake, list: seq<Entry>, stop: bool, progress: bool, visits: nat, progressed: bool)
    requires PassSound(w.worker, w.snapshot, visits, progressed)
    ensures var w' := Worked(w, list, stop, progress);
      w'.worker.Passing? || w'.worker.Deciding? ==>
        var more := w.worker.Passing? && w.worker.rest != [] && !stop;
        && w'.snapshot == w.snapshot && w.worker.Passing?
        && PassSound(w'.worker, w'.snapshot, visits + if more then 1 else 0, progressed || (more && progress))
  {
  }

  /** A pass runs the cycle of each of its attachments once, in order, and decides whether to sleep by whether one of
      them reported progress. */
  lemma {:induction false} PassVisitsEach(run: seq<Service>, steps: seq<Step>, b: nat, j: nat)
    requires IsRun(run, steps) && b <= j < |run| && SamePass(run, b, j)
    ensures run[j].wake.snapshot == run[b].wake.snapshot
    ensures PassSound(run[j].wake.worker, run[b].wake.snapshot, Visits(run, steps, b, j), Progresses(run, steps, b, j))
    decreases j
  {
    if b < j {
      PassVisitsEach(run, steps, b, j - 1);
      ProgressesStep(run, steps, b, j);
      if steps[j - 1].Work? {
        PassStep(run[j - 1].wake, run[j - 1].registry.list, run[j - 1].registry.stop, steps[j - 1].progress,
                 Visits(run, steps, b, j - 1), Progresses(run, steps, b, j - 1));
      }
    }
  }

  lemma ProgressesStep(run: seq<Service>, steps: seq<Step>, b: nat, j: nat)
    requires |run| == |steps| + 1 && b < j <= |steps|
    ensures Progresses(run, steps, b, j) <==>
            Progresses(run, steps, b, j - 1) || (VisitsAt(run, steps, j - 1) && steps[j - 1].progress)
  {
  }

  // ---------------------------------------------------------------- a run that loses a notification

  ghost predicate Reachable(s: Service) {
    exists run, steps :: IsRun(run, steps) && run[|steps|] == s
  }

  lemma Takes(s: Service, step: Step) returns (s': Service)
    requires Reachable(s) && Enabled(s, step)
    ensures Reachable(s') && s' == Apply(s, step)
  {
    var run, steps :| IsRun(run, steps) && run[|steps|] == s;
    s' := Apply(s, step);
    assert IsRun(run + [s'], steps + [step]) && (run + [s'])[|steps + [step]|] == s';
  }

  lemma {:induction false} Notifies(s: Service, n: nat) returns (s': Service)
    requires Reachable(s) && s.wake.worker.Head? && s.wake.generation + n <= MAX
    ensures Reachable(s')
    ensures s' == s.(wake := s.wake.(generation := s.wake.generation + n, notifications := s.wake.notifications + n))
  {
    if n == 0 {
      s' := s;
    } else {
      var before := Notifies(s, n - 1);
      s' := Takes(before, Notify);
    }
  }

  /** A pass over one attachment that makes no progress. */
  lemma Passes(s: Service) returns (s': Service)
    requires Reachable(s) && s.wake.worker.Head? && |s.registry.list| == 1
    requires !s.registry.stop && s.registry.lock.None?
    ensures Reachable(s')
    ensures s' == s.(wake := s.wake.(snapshot := s.registry.list, passBegan := s.wake.notifications,
                                     worker := Deciding(false)))
  {
    var s1 := Takes(s, Work(false));
    var s2 := Takes(s1, Work(false));
    var s3 := Takes(s2, Work(false));
    assert s3.wake.worker == Passing([], false);
    s' := Takes(s3, Work(false));
  }

  /** A run in which the worker goes to sleep although it was notified after its last pass began: the counter it had
      read was saturated. */
  lemma SaturationLosesWakes(first: Identity) returns (s: Service)
    ensures Reachable(s) && s.wake.worker == Sleeping(false) && s.wake.passBegan < s.wake.notifications
    ensures s.wake.seen == MAX && s.wake.notifications == MAX + 1
  {
    var s0 := Service(Registry([Entry(first, 0)], 1, 1, false, None, map[]), Wake(0, 0, Head, [], 0, 0, 0));
    assert Reachable(s0) by {
      assert IsRun([s0], []);
    }
    var s1 := Notifies(s0, MAX);
    var s2 := Passes(s1);
    var s3 := Takes(s2, Work(false));
    var s4 := Passes(s3);
    var s5 := Takes(s4, Notify);
    s := Takes(s5, Work(false));
  }
}
