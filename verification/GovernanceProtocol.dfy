/** Updates and reads of the revision store by any number of processes, each with any number of threads.

    A call advances one file operation or one critical section at a time. A file operation may fail, and a
    process may crash between any two steps, which ends all its calls and lets go of the file lock. Each process
    keeps the last binding it saw in a `state` cell behind a mutex: an update holds the mutex while it works, and
    every answer is read from the cell after a refresh of the call's own. */
module GovernanceProtocol {

  import opened Wrappers
  import opened GovernanceStore
  import Text

  type Files = map<string, Content>

  // ---------------------------------------------------------------- calls

  /** `View` stands for `view`, and `Execute` for the calls that need an enabled binding. */
  datatype Request = Update(config: Config) | View | Execute

  datatype Caller = Caller(process: nat, request: Request)

  /** The `state` of a process; `writer` is the call that stored last, `holder` the update that has the mutex. */
  datatype Cell = Cell(value: Option<Binding>, writer: Option<nat>, holder: Option<nat>)

  /** History of a call's view: the revision it has published, if any, and how many there were when it began. */
  datatype Ask = Ask(own: nat, began: nat)

  datatype Shown = Blocked | Showing(binding: Option<Binding>)

  /** The next operation a call will try. */
  datatype Phase =
    | Waiting(config: Config)
    | Creating(config: Config)
    | Opening(config: Config)
    | Locking(config: Config)
    | Reading(config: Config)
    | Checking(binding: Binding)
    | Clearing(binding: Binding)
    | Staging(binding: Binding)
    | Filling(binding: Binding)
    | Syncing(binding: Binding)
    | Renaming(binding: Binding)
    | Flushing(binding: Binding)
    | Storing(binding: Binding)
    | Listing(ask: Ask, before: set<string>)
    | Picking(ask: Ask, names: set<string>)
    | Refreshing(ask: Ask, latest: Option<Binding>)
    | Answering(ask: Ask, read: Option<Binding>)
    | Returned(outcome: Result<Shown, Failure>, own: nat)
    | Crashed(own: nat)
  {
    predicate Active() {
      !Returned? && !Crashed?
    }

    predicate HoldsLock() {
      Reading? || Carries() || Flushing?
    }

    /** Has a binding to publish, and has not published it. */
    predicate Carries() {
      Checking? || Clearing? || Staging? || Filling? || Syncing? || Renaming?
    }

    predicate Asking() {
      Waiting? || Creating? || Opening? || Locking? || Reading?
    }

    predicate Viewing() {
      Listing? || Picking? || Refreshing? || Answering?
    }

    predicate TouchesFiles() {
      Active() && !Waiting? && !Storing? && !Refreshing? && !Answering?
    }

    /** The revision the call has published, zero if none. */
    function Own(): nat {
      if Flushing? || Storing? then binding.revision
      else if Viewing() then ask.own
      else if Returned? || Crashed? then own
      else 0
    }
  }

  /** `log` is the history of renames; everything else is what files, processes and calls hold. */
  datatype Directory = Directory(
    files: Files, lock: Option<nat>, cells: map<nat, Cell>, callers: map<nat, Caller>, calls: map<nat, Phase>,
    log: seq<Published>)

  function CellOf(cells: map<nat, Cell>, process: nat): Cell {
    if process in cells then cells[process] else Cell(None, None, None)
  }

  // ---------------------------------------------------------------- steps

  datatype Step =
    | Begin(call: nat, process: nat, request: Request)
    | Proceed(call: nat)
    | List(call: nat, names: set<string>)
    | Fail(call: nat)
    | Crash(process: nat)

  /** What a listing without the lock may return: every file there at its start, except a pending one, since only
      that is ever removed; and nothing that is not there at its end, except a pending file. */
  ghost predicate MayList(before: set<string>, names: set<string>, files: Files) {
    && (forall name | name in before && name != PENDING_FILE :: name in names)
    && (forall name | name in names :: name in files || name == PENDING_FILE)
  }

  ghost predicate MayProceed(s: Directory, p: nat, w: Phase)
    requires p in s.callers
  {
    && w.Active() && !w.Listing?
    && (w.Locking? ==> s.lock.None?)
    && (w.Waiting? || w.Refreshing? || w.Answering? ==> CellOf(s.cells, s.callers[p].process).holder.None?)
  }

  ghost predicate Enabled(s: Directory, step: Step) {
    match step
    case Begin(p, _, _) => p !in s.calls && p !in s.callers
    case Proceed(p) => p in s.calls && p in s.callers && MayProceed(s, p, s.calls[p])
    case List(p, names) =>
      p in s.calls && p in s.callers && s.calls[p].Listing? && MayList(s.calls[p].before, names, s.files)
    case Fail(p) => p in s.calls && p in s.callers && s.calls[p].TouchesFiles()
    case Crash(_) => true
  }

  ghost function Read(normalize: Normalize, id: string, files: Files, config: Config): Result<Binding, Failure> {
    var latest :- ReadLatest(normalize, id, files);
    BuildBinding(id, config, latest)
  }

  /** A view hides what it could not read; the other calls report it. */
  function Refused(request: Request, why: Failure): Result<Shown, Failure> {
    if request.Execute? then Err(why) else Ok(Blocked)
  }

  function Answer(request: Request, value: Option<Binding>): Result<Shown, Failure> {
    if !request.Execute? then Ok(Showing(value))
    else if value.None? then Err(NotConfigured)
    else if !value.value.config.enabled then Err(Disabled)
    else Ok(Showing(value))
  }

  /** What the next operation of a call does to the files. */
  function FilesAfter(files: Files, w: Phase): Files {
    match w
    case Opening(_) => files[LOCK_FILE := LockBytes]
    case Clearing(_) => files - {PENDING_FILE}
    case Staging(_) => if PENDING_FILE in files then files else files[PENDING_FILE := Partial]
    case Filling(b) => files[PENDING_FILE := Whole(b)]
    case Renaming(b) =>
      if PENDING_FILE !in files then files
      else (files - {PENDING_FILE})[RevisionName(b.revision) := files[PENDING_FILE]]
    case _ => files
  }

  /** Where an update goes next, until it has let go of the file lock. */
  ghost function UpdateFollows(normalize: Normalize, id: string, files: Files, w: Phase): Phase {
    match w
    case Waiting(config) => Creating(config)
    case Creating(config) => Opening(config)
    case Opening(config) => Locking(config)
    case Locking(config) => Reading(config)
    case Reading(config) =>
      var built := Read(normalize, id, files, config);
      if built.Err? then Returned(Err(built.error), 0) else Checking(built.value)
    case Checking(b) => if RevisionName(b.revision) in files then Returned(Err(Conflict), 0) else Clearing(b)
    case Clearing(b) => Staging(b)
    case Staging(b) => if PENDING_FILE in files then Returned(Err(Io), 0) else Filling(b)
    case Filling(b) => Syncing(b)
    case Syncing(b) => Renaming(b)
    case Renaming(b) => if PENDING_FILE !in files then Returned(Err(Io), 0) else Flushing(b)
    case Flushing(b) => Storing(b)
    case _ => w
  }

  /** Where the view of a call goes next; an update views the store after it has stored its own binding. */
  ghost function ViewFollows(normalize: Normalize, id: string, files: Files, published: nat, cell: Cell,
                             request: Request, w: Phase): Phase {
    match w
    case Storing(b) => Listing(Ask(b.revision, published), files.Keys)
    case Picking(ask, names) =>
      var read := ReadListed(normalize, id, names, files);
      if read.Err? then Returned(Refused(request, read.error), ask.own) else Refreshing(ask, read.value)
    case Refreshing(ask, latest) => Answering(ask, latest)
    case Answering(ask, _) => Returned(Answer(request, cell.value), ask.own)
    case _ => w
  }

  ghost function Following(normalize: Normalize, id: string, s: Directory, p: nat): Phase
    requires p in s.calls && p in s.callers
  {
    var w := s.calls[p];
    if w.Storing? || w.Viewing() then
      ViewFollows(normalize, id, s.files, |s.log|, CellOf(s.cells, s.callers[p].process), s.callers[p].request, w)
    else UpdateFollows(normalize, id, s.files, w)
  }

  function LogAfter(log: seq<Published>, p: nat, w: Phase, w': Phase): seq<Published> {
    if w.Renaming? && w'.Flushing? then log + [Published(p, w.binding)] else log
  }

  function LockAfter(lock: Option<nat>, p: nat, w: Phase, w': Phase): Option<nat> {
    if w.Locking? && w'.Reading? then Some(p) else if lock == Some(p) && !w'.HoldsLock() then None else lock
  }

  function CellAfter(cell: Cell, p: nat, w: Phase, w': Phase): Cell {
    match w
    case Waiting(_) => cell.(holder := Some(p))
    case Storing(b) => Cell(Some(b), Some(p), None)
    case Refreshing(_, latest) => cell.(value := latest, writer := Some(p))
    case _ => if w'.Returned? && cell.holder == Some(p) then cell.(holder := None) else cell
  }

  /** The call `p` moves to `w'`. */
  ghost function Moved(s: Directory, p: nat, w': Phase): Directory
    requires p in s.calls && p in s.callers
  {
    var w, process := s.calls[p], s.callers[p].process;
    s.(lock := LockAfter(s.lock, p, w, w'), calls := s.calls[p := w'],
       cells := s.cells[process := CellAfter(CellOf(s.cells, process), p, w, w')])
  }

  /** The call `p` does its next operation and moves to `w'`. */
  ghost function Proceeded(s: Directory, p: nat, w': Phase): Directory
    requires p in s.calls && p in s.callers
  {
    Moved(s, p, w').(files := FilesAfter(s.files, s.calls[p]), log := LogAfter(s.log, p, s.calls[p], w'))
  }

  function FailedPhase(request: Request, w: Phase): Phase {
    Returned(if w.Viewing() then Refused(request, Io) else Err(Io), w.Own())
  }

  predicate Lost(callers: map<nat, Caller>, process: nat, p: nat, w: Phase) {
    p in callers && callers[p].process == process && w.Active()
  }

  ghost function AfterCrash(s: Directory, process: nat): Directory {
    s.(calls := map p | p in s.calls ::
                  if Lost(s.callers, process, p, s.calls[p]) then Crashed(s.calls[p].Own()) else s.calls[p],
       lock := if s.lock.Some? && s.lock.value in s.calls
                  && Lost(s.callers, process, s.lock.value, s.calls[s.lock.value])
               then None else s.lock,
       cells := s.cells[process := Cell(None, None, None)])
  }

  ghost function Begun(normalize: Normalize, s: Directory, p: nat, process: nat, request: Request): Directory {
    var normalized := if request.Update? then normalize(request.config) else None;
    var kept := if normalized.Some? then Update(normalized.value) else request;
    var first := if !request.Update? then Listing(Ask(0, |s.log|), s.files.Keys)
                 else if normalized.None? then Returned(Err(InvalidConfig), 0)
                 else Waiting(normalized.value);
    s.(calls := s.calls[p := first], callers := s.callers[p := Caller(process, kept)])
  }

  ghost function Apply(normalize: Normalize, id: string, s: Directory, step: Step): Directory
    requires Enabled(s, step)
  {
    match step
    case Begin(p, process, request) => Begun(normalize, s, p, process, request)
    case Proceed(p) => Proceeded(s, p, Following(normalize, id, s, p))
    case List(p, names) => Moved(s, p, Picking(s.calls[p].ask, names))
    case Fail(p) => Moved(s, p, FailedPhase(s.callers[p].request, s.calls[p]))
    case Crash(process) => AfterCrash(s, process)
  }

  ghost predicate Init(s: Directory) {
    s == Directory(map[], None, map[], map[], map[], [])
  }

  ghost predicate Follows(normalize: Normalize, id: string, s: Directory, step: Step, s': Directory) {
    Enabled(s, step) && s' == Apply(normalize, id, s, step)
  }

  ghost predicate FollowsAt(normalize: Normalize, id: string, run: seq<Directory>, steps: seq<Step>, i: nat)
    requires |run| == |steps| + 1
  {
    i < |steps| ==> Follows(normalize, id, run[i], steps[i], run[i + 1])
  }

  ghost predicate IsRun(normalize: Normalize, id: string, run: seq<Directory>, steps: seq<Step>) {
    && |run| == |steps| + 1
    && Init(run[0])
    && forall i: nat :: FollowsAt(normalize, id, run, steps, i)
  }

  // ---------------------------------------------------------------- invariants

  ghost predicate LockSound(lock: Option<nat>, calls: map<nat, Phase>) {
    forall p :: (p in calls && calls[p].HoldsLock()) <==> lock == Some(p)
  }

  /** What the lock holder has prepared fits the log. */
  ghost predicate Prepared(files: Files, id: string, log: seq<Published>, w: Phase) {
    && (w.Carries() ==>
          w.binding.revision == |log| + 1 <= Text.U64_MAX && w.binding.schema == SCHEMA_VERSION && w.binding.id == id)
    && (w.Staging? ==> PENDING_FILE !in files)
    && (w.Filling? ==> PENDING_FILE in files)
    && (w.Syncing? || w.Renaming? ==> PENDING_FILE in files && files[PENDING_FILE] == Whole(w.binding))
    && (w.Flushing? ==> w.binding.revision == |log|)
  }

  ghost predicate HoldersSound(files: Files, id: string, log: seq<Published>, calls: map<nat, Phase>) {
    forall p | p in calls && calls[p].HoldsLock() :: Prepared(files, id, log, calls[p])
  }

  /** A call's own revision is the one it published, and every publication is some call's own. */
  ghost predicate OwnSound(log: seq<Published>, p: nat, w: Phase) {
    && (w.Own() > 0 ==> w.Own() <= |log| && log[w.Own() - 1].call == p)
    && (w.Flushing? || w.Storing? ==> w.Own() > 0 && log[w.Own() - 1].binding == w.binding)
  }

  ghost predicate CallsSound(log: seq<Published>, calls: map<nat, Phase>) {
    && (forall p | p in calls :: OwnSound(log, p, calls[p]))
    && (forall i | 0 <= i < |log| :: log[i].call in calls && calls[log[i].call].Own() == i + 1)
  }

  /** Each call is in a phase of what it was asked, with the configuration it was asked for. */
  ghost predicate RequestSound(request: Request, w: Phase) {
    match request
    case Update(c) =>
      && (w.Asking() ==> w.config == c)
      && (w.Carries() || w.Flushing? || w.Storing? ==> w.binding.config == c)
      && (w.Viewing() || (w.Returned? && w.outcome.Ok?) ==> w.Own() > 0)
    case _ => !w.Asking() && !w.Carries() && !w.Flushing? && !w.Storing? && w.Own() == 0
  }

  ghost predicate RequestsSound(callers: map<nat, Caller>, calls: map<nat, Phase>, log: seq<Published>) {
    && callers.Keys == calls.Keys
    && (forall p | p in calls && p in callers :: RequestSound(callers[p].request, calls[p]))
    && (forall i | 0 <= i < |log| ::
          log[i].call in callers && callers[log[i].call].request == Update(log[i].binding.config))
  }

  ghost predicate Inv(id: string, s: Directory) {
    && FilesSound(s.files, id, s.log)
    && LockSound(s.lock, s.calls)
    && HoldersSound(s.files, id, s.log, s.calls)
    && CallsSound(s.log, s.calls)
    && RequestsSound(s.callers, s.calls, s.log)
  }

  // ---------------------------------------------------------------- every step

  lemma FilesMove(files: Files, id: string, log: seq<Published>, p: nat, w: Phase, w': Phase)
    requires FilesSound(files, id, log) && (w.Renaming? ==> w'.Flushing? && Prepared(files, id, log, w))
    ensures FilesSound(FilesAfter(files, w), id, LogAfter(log, p, w, w'))
  {
    if w.Renaming? {
      FilesPublished(files, id, log, p, w.binding);
    } else {
      FilesKept(files, FilesAfter(files, w), id, log);
    }
  }

  lemma FilesStep(normalize: Normalize, id: string, s: Directory, p: nat, w': Phase)
    requires Inv(id, s) && Enabled(s, Proceed(p)) && w' == Following(normalize, id, s, p)
    ensures FilesSound(FilesAfter(s.files, s.calls[p]), id, LogAfter(s.log, p, s.calls[p], w'))
  {
    assert s.calls[p].Renaming? ==> Prepared(s.files, id, s.log, s.calls[p]);
    FilesMove(s.files, id, s.log, p, s.calls[p], w');
  }

  lemma LockMoves(lock: Option<nat>, calls: map<nat, Phase>, p: nat, w': Phase)
    requires LockSound(lock, calls) && p in calls
    requires w'.HoldsLock() ==> calls[p].HoldsLock() || (calls[p].Locking? && w'.Reading? && lock.None?)
    requires calls[p].Locking? && w'.Reading? ==> lock.None?
    ensures LockSound(LockAfter(lock, p, calls[p], w'), calls[p := w'])
  {
  }

  lemma ReadPrepares(normalize: Normalize, id: string, files: Files, log: seq<Published>, config: Config)
    requires FilesSound(files, id, log) && Read(normalize, id, files, config).Ok?
    ensures var b := Read(normalize, id, files, config).value;
      && b.revision == |log| + 1 <= Text.U64_MAX && b.schema == SCHEMA_VERSION && b.id == id && b.config == config
  {
    LatestIsLast(normalize, id, files, log);
    if log != [] {
      assert Kept(files, id, log[|log| - 1].binding, |log|);
    }
  }

  lemma OwnPrepared(normalize: Normalize, id: string, files: Files, log: seq<Published>, p: nat, w: Phase)
    requires FilesSound(files, id, log) && (w.HoldsLock() ==> Prepared(files, id, log, w))
    ensures var w' := UpdateFollows(normalize, id, files, w);
      w'.HoldsLock() ==> Prepared(FilesAfter(files, w), id, LogAfter(log, p, w, w'), w')
  {
    if w.Reading? && Read(normalize, id, files, w.config).Ok? {
      ReadPrepares(normalize, id, files, log, w.config);
    }
  }

  /** A call without the lock touches neither the pending file nor the log. */
  lemma OthersPrepared(id: string, files: Files, log: seq<Published>, p: nat, w: Phase, w': Phase, v: Phase)
    requires !w.HoldsLock() && Prepared(files, id, log, v)
    ensures Prepared(FilesAfter(files, w), id, LogAfter(log, p, w, w'), v)
  {
  }

  lemma HoldersMove(files: Files, id: string, log: seq<Published>, lock: Option<nat>, calls: map<nat, Phase>, p: nat,
                    w': Phase)
    requires LockSound(lock, calls) && HoldersSound(files, id, log, calls) && p in calls
    requires w'.HoldsLock() ==> calls[p].HoldsLock() || lock.None?
    requires w'.HoldsLock() ==> Prepared(FilesAfter(files, calls[p]), id, LogAfter(log, p, calls[p], w'), w')
    ensures HoldersSound(FilesAfter(files, calls[p]), id, LogAfter(log, p, calls[p], w'), calls[p := w'])
  {
    var calls' := calls[p := w'];
    forall q | q in calls' && calls'[q].HoldsLock()
      ensures Prepared(FilesAfter(files, calls[p]), id, LogAfter(log, p, calls[p], w'), calls'[q])
    {
      if q != p {
        assert lock == Some(q) && !calls[p].HoldsLock();
        OthersPrepared(id, files, log, p, calls[p], w', calls[q]);
      }
    }
  }

  /** What follows holds the lock only if the call had it or was about to take it, and is prepared then. */
  lemma FollowingPrepared(normalize: Normalize, id: string, s: Directory, p: nat, w': Phase)
    requires FilesSound(s.files, id, s.log) && p in s.calls && p in s.callers && w' == Following(normalize, id, s, p)
    requires s.calls[p].HoldsLock() ==> Prepared(s.files, id, s.log, s.calls[p])
    ensures w'.HoldsLock() ==> s.calls[p].HoldsLock() || s.calls[p].Locking?
    ensures w'.HoldsLock() ==> Prepared(FilesAfter(s.files, s.calls[p]), id, LogAfter(s.log, p, s.calls[p], w'), w')
  {
    if !s.calls[p].Storing? && !s.calls[p].Viewing() {
      OwnPrepared(normalize, id, s.files, s.log, p, s.calls[p]);
    }
  }

  lemma HoldersStep(normalize: Normalize, id: string, s: Directory, p: nat, w': Phase)
    requires Inv(id, s) && Enabled(s, Proceed(p)) && w' == Following(normalize, id, s, p)
    ensures HoldersSound(FilesAfter(s.files, s.calls[p]), id, LogAfter(s.log, p, s.calls[p], w'), s.calls[p := w'])
  {
    assert s.calls[p].HoldsLock() ==> Prepared(s.files, id, s.log, s.calls[p]);
    FollowingPrepared(normalize, id, s, p, w');
    HoldersMove(s.files, id, s.log, s.lock, s.calls, p, w');
  }

  lemma HoldersOf(files: Files, id: string, log: seq<Published>, calls: map<nat, Phase>, calls': map<nat, Phase>)
    requires HoldersSound(files, id, log, calls)
    requires forall p | p in calls' && calls'[p].HoldsLock() :: p in calls && calls'[p] == calls[p]
    ensures HoldersSound(files, id, log, calls')
  {
  }

  /** The own revision of a call moves only with its publication. */
  lemma OwnMoves(log: seq<Published>, calls: map<nat, Phase>, p: nat, w': Phase)
    requires CallsSound(log, calls) && p in calls && w'.Own() == calls[p].Own() && !w'.Flushing?
    requires w'.Storing? ==> calls[p].Flushing? && w'.binding == calls[p].binding
    ensures CallsSound(log, calls[p := w'])
  {
    assert OwnSound(log, p, calls[p]);
  }

  lemma OwnPublished(log: seq<Published>, calls: map<nat, Phase>, p: nat, b: Binding)
    requires CallsSound(log, calls) && p in calls && calls[p].Own() == 0 && b.revision == |log| + 1
    ensures CallsSound(log + [Published(p, b)], calls[p := Flushing(b)])
  {
    var log', calls' := log + [Published(p, b)], calls[p := Flushing(b)];
    forall q | q in calls' ensures OwnSound(log', q, calls'[q]) {
      if q != p {
        assert OwnSound(log, q, calls[q]);
      }
    }
  }

  predicate KeepsOwn(w: Phase, w': Phase) {
    && w'.Own() == w.Own() && !w'.Flushing?
    && (w'.Storing? ==> w.Flushing? && w'.binding == w.binding)
  }

  lemma UpdateKeepsOwn(normalize: Normalize, id: string, files: Files, w: Phase)
    requires w.Active() && !w.Renaming? && !w.Storing? && !w.Viewing()
    ensures KeepsOwn(w, UpdateFollows(normalize, id, files, w))
  {
  }

  lemma ViewKeepsOwn(normalize: Normalize, id: string, files: Files, n: nat, cell: Cell, request: Request, w: Phase)
    requires w.Storing? || w.Viewing()
    ensures KeepsOwn(w, ViewFollows(normalize, id, files, n, cell, request, w))
  {
  }

  lemma CallsStep(normalize: Normalize, id: string, s: Directory, p: nat, w': Phase)
    requires Inv(id, s) && Enabled(s, Proceed(p)) && w' == Following(normalize, id, s, p)
    ensures CallsSound(LogAfter(s.log, p, s.calls[p], w'), s.calls[p := w'])
  {
    var w, cell := s.calls[p], CellOf(s.cells, s.callers[p].process);
    if w.Renaming? {
      assert Prepared(s.files, id, s.log, w);
      OwnPublished(s.log, s.calls, p, w.binding);
    } else {
      if w.Storing? || w.Viewing() {
        ViewKeepsOwn(normalize, id, s.files, |s.log|, cell, s.callers[p].request, w);
      } else {
        UpdateKeepsOwn(normalize, id, s.files, w);
      }
      OwnMoves(s.log, s.calls, p, w');
    }
  }

  lemma CrashKeepsOwn(log: seq<Published>, p: nat, w: Phase, w': Phase)
    requires w' == w || w' == Crashed(w.Own())
    ensures w'.Own() == w.Own() && (OwnSound(log, p, w) ==> OwnSound(log, p, w'))
  {
  }

  lemma CallsCrash(log: seq<Published>, calls: map<nat, Phase>, calls': map<nat, Phase>)
    requires CallsSound(log, calls) && calls'.Keys == calls.Keys
    requires forall p | p in calls && p in calls' :: calls'[p] == calls[p] || calls'[p] == Crashed(calls[p].Own())
    ensures CallsSound(log, calls')
  {
    forall p | p in calls' ensures OwnSound(log, p, calls'[p]) && calls'[p].Own() == calls[p].Own() {
      CrashKeepsOwn(log, p, calls[p], calls'[p]);
    }
  }

  lemma UpdateKeepsRequest(normalize: Normalize, id: string, files: Files, log: seq<Published>, request: Request,
                           w: Phase)
    requires FilesSound(files, id, log) && RequestSound(request, w) && !w.Storing? && !w.Viewing() && w.Active()
    requires w.HoldsLock() ==> Prepared(files, id, log, w)
    ensures RequestSound(request, UpdateFollows(normalize, id, files, w))
  {
    if w.Reading? && Read(normalize, id, files, w.config).Ok? {
      ReadPrepares(normalize, id, files, log, w.config);
    }
  }

  lemma ViewKeepsRequest(normalize: Normalize, id: string, files: Files, n: nat, cell: Cell, request: Request, w: Phase)
    requires RequestSound(request, w) && (w.Storing? || w.Viewing()) && (w.Storing? ==> w.Own() > 0)
    ensures RequestSound(request, ViewFollows(normalize, id, files, n, cell, request, w))
  {
  }

  lemma FollowingRequest(normalize: Normalize, id: string, s: Directory, p: nat)
    requires Inv(id, s) && Enabled(s, Proceed(p))
    ensures RequestSound(s.callers[p].request, Following(normalize, id, s, p))
  {
    var w, request := s.calls[p], s.callers[p].request;
    assert RequestSound(request, w) && OwnSound(s.log, p, w);
    if w.Storing? || w.Viewing() {
      ViewKeepsRequest(normalize, id, s.files, |s.log|, CellOf(s.cells, s.callers[p].process), request, w);
    } else {
      assert w.HoldsLock() ==> Prepared(s.files, id, s.log, w);
      UpdateKeepsRequest(normalize, id, s.files, s.log, request, w);
    }
  }

  lemma RequestsMove(callers: map<nat, Caller>, calls: map<nat, Phase>, log: seq<Published>, p: nat, w': Phase)
    requires RequestsSound(callers, calls, log) && p in calls && RequestSound(callers[p].request, w')
    ensures RequestsSound(callers, calls[p := w'], log)
    ensures calls[p].Renaming? ==> RequestsSound(callers, calls[p := w'], log + [Published(p, calls[p].binding)])
  {
    assert RequestSound(callers[p].request, calls[p]);
  }

  lemma InvFollows(id: string, s: Directory, p: nat, w': Phase)
    requires Inv(id, s) && p in s.calls && p in s.callers
    requires FilesSound(FilesAfter(s.files, s.calls[p]), id, LogAfter(s.log, p, s.calls[p], w'))
    requires LockSound(LockAfter(s.lock, p, s.calls[p], w'), s.calls[p := w'])
    requires HoldersSound(FilesAfter(s.files, s.calls[p]), id, LogAfter(s.log, p, s.calls[p], w'), s.calls[p := w'])
    requires CallsSound(LogAfter(s.log, p, s.calls[p], w'), s.calls[p := w'])
    requires RequestSound(s.callers[p].request, w')
    ensures Inv(id, Proceeded(s, p, w'))
  {
    RequestsMove(s.callers, s.calls, s.log, p, w');
  }

  lemma InvProceeds(normalize: Normalize, id: string, s: Directory, p: nat, w': Phase)
    requires Inv(id, s) && Enabled(s, Proceed(p)) && w' == Following(normalize, id, s, p)
    ensures Inv(id, Proceeded(s, p, w'))
  {
    FilesStep(normalize, id, s, p, w');
    LockMoves(s.lock, s.calls, p, w');
    HoldersStep(normalize, id, s, p, w');
    CallsStep(normalize, id, s, p, w');
    FollowingRequest(normalize, id, s, p);
    InvFollows(id, s, p, w');
  }

  /** A call moves on without touching files or log, and keeps its own revision. */
  lemma InvMoves(id: string, s: Directory, p: nat, w': Phase)
    requires Inv(id, s) && p in s.calls && p in s.callers && !w'.HoldsLock() && !w'.Storing?
      && w'.Own() == s.calls[p].Own()
    requires RequestSound(s.callers[p].request, w')
    ensures Inv(id, Moved(s, p, w'))
  {
    LockMoves(s.lock, s.calls, p, w');
    OwnMoves(s.log, s.calls, p, w');
    RequestsMove(s.callers, s.calls, s.log, p, w');
    HoldersOf(s.files, id, s.log, s.calls, s.calls[p := w']);
  }

  lemma RequestsCrash(callers: map<nat, Caller>, calls: map<nat, Phase>, calls': map<nat, Phase>, log: seq<Published>)
    requires RequestsSound(callers, calls, log) && calls'.Keys == calls.Keys
    requires forall p | p in calls && p in calls' :: calls'[p] == calls[p] || calls'[p] == Crashed(calls[p].Own())
    ensures RequestsSound(callers, calls', log)
  {
    forall p | p in calls' && p in callers ensures RequestSound(callers[p].request, calls'[p]) {
      assert RequestSound(callers[p].request, calls[p]);
    }
  }

  lemma CrashEnds(s: Directory, process: nat)
    ensures var calls' := AfterCrash(s, process).calls;
      && calls'.Keys == s.calls.Keys
      && (forall p | p in s.calls && p in calls' :: calls'[p] == s.calls[p] || calls'[p] == Crashed(s.calls[p].Own()))
  {
  }

  lemma LockCrash(s: Directory, process: nat)
    requires LockSound(s.lock, s.calls)
    ensures LockSound(AfterCrash(s, process).lock, AfterCrash(s, process).calls)
  {
  }

  lemma InvCrashes(id: string, s: Directory, process: nat)
    requires Inv(id, s)
    ensures Inv(id, AfterCrash(s, process))
  {
    var calls' := AfterCrash(s, process).calls;
    CrashEnds(s, process);
    LockCrash(s, process);
    CallsCrash(s.log, s.calls, calls');
    HoldersOf(s.files, id, s.log, s.calls, calls');
    RequestsCrash(s.callers, s.calls, calls', s.log);
  }

  lemma CallsBegin(log: seq<Published>, calls: map<nat, Phase>, p: nat, w: Phase)
    requires CallsSound(log, calls) && p !in calls && w.Own() == 0 && !w.Flushing? && !w.Storing?
    ensures CallsSound(log, calls[p := w])
  {
    var calls' := calls[p := w];
    forall q | q in calls' ensures OwnSound(log, q, calls'[q]) {
      if q != p {
        assert OwnSound(log, q, calls[q]);
      }
    }
  }

  lemma RequestsBegin(callers: map<nat, Caller>, calls: map<nat, Phase>, log: seq<Published>, p: nat,
                      c: Caller, w: Phase)
    requires RequestsSound(callers, calls, log) && p !in calls && RequestSound(c.request, w)
    ensures RequestsSound(callers[p := c], calls[p := w], log)
  {
  }

  lemma InvBegins(normalize: Normalize, id: string, s: Directory, p: nat, process: nat, request: Request)
    requires Inv(id, s) && p !in s.calls
    ensures Inv(id, Begun(normalize, s, p, process, request))
  {
    var s' := Begun(normalize, s, p, process, request);
    var w, caller := s'.calls[p], s'.callers[p];
    assert !w.HoldsLock() && RequestSound(caller.request, w);
    LockBegins(s.lock, s.calls, p, w);
    HoldersOf(s.files, id, s.log, s.calls, s.calls[p := w]);
    CallsBegin(s.log, s.calls, p, w);
    RequestsBegin(s.callers, s.calls, s.log, p, caller, w);
  }

  lemma LockBegins(lock: Option<nat>, calls: map<nat, Phase>, p: nat, w: Phase)
    requires LockSound(lock, calls) && p !in calls && !w.HoldsLock()
    ensures LockSound(lock, calls[p := w])
  {
  }

  lemma InvLists(id: string, s: Directory, p: nat, names: set<string>)
    requires Inv(id, s) && p in s.calls && p in s.callers && s.calls[p].Listing?
    ensures Inv(id, Moved(s, p, Picking(s.calls[p].ask, names)))
  {
    assert RequestSound(s.callers[p].request, s.calls[p]);
    InvMoves(id, s, p, Picking(s.calls[p].ask, names));
  }

  lemma FailureKeepsRequest(request: Request, w: Phase)
    requires RequestSound(request, w) && w.TouchesFiles()
    ensures RequestSound(request, FailedPhase(request, w)) && FailedPhase(request, w).Own() == w.Own()
  {
  }

  lemma InvFails(id: string, s: Directory, p: nat)
    requires Inv(id, s) && p in s.calls && p in s.callers && s.calls[p].TouchesFiles()
    ensures Inv(id, Moved(s, p, FailedPhase(s.callers[p].request, s.calls[p])))
  {
    assert RequestSound(s.callers[p].request, s.calls[p]);
    FailureKeepsRequest(s.callers[p].request, s.calls[p]);
    InvMoves(id, s, p, FailedPhase(s.callers[p].request, s.calls[p]));
  }

  lemma InvStep(normalize: Normalize, id: string, s: Directory, step: Step)
    requires Inv(id, s) && Enabled(s, step)
    ensures Inv(id, Apply(normalize, id, s, step))
  {
    match step
    case Begin(p, process, request) => InvBegins(normalize, id, s, p, process, request);
    case Proceed(p) => InvProceeds(normalize, id, s, p, Following(normalize, id, s, p));
    case List(p, names) => InvLists(id, s, p, names);
    case Fail(p) => InvFails(id, s, p);
    case Crash(process) => InvCrashes(id, s, process);
  }

  lemma RunStep(normalize: Normalize, id: string, run: seq<Directory>, steps: seq<Step>, i: nat)
    requires IsRun(normalize, id, run, steps) && i < |steps|
    ensures Follows(normalize, id, run[i], steps[i], run[i + 1])
  {
    assert FollowsAt(normalize, id, run, steps, i);
  }

  lemma {:induction false} InvAlways(normalize: Normalize, id: string, run: seq<Directory>, steps: seq<Step>, i: nat)
    requires IsRun(normalize, id, run, steps) && i < |run|
    ensures Inv(id, run[i])
  {
    if i > 0 {
      InvAlways(normalize, id, run, steps, i - 1);
      RunStep(normalize, id, run, steps, i - 1);
      InvStep(normalize, id, run[i - 1], steps[i - 1]);
    }
  }

  // ---------------------------------------------------------------- what is published

  predicate WholeUnderOwnName(files: Files, r: nat) {
    RevisionName(r) in files && files[RevisionName(r)].Whole? && files[RevisionName(r)].binding.revision == r
  }

  /** At every moment the published revisions are exactly 1..n, each whole and under its own number. */
  lemma PublishedExactly(normalize: Normalize, id: string, run: seq<Directory>, steps: seq<Step>, i: nat)
    requires IsRun(normalize, id, run, steps) && i < |run|
    ensures var files := run[i].files;
      && (forall r :: r in Revisions(files.Keys) <==> 1 <= r <= |run[i].log|)
      && (forall r | r in Revisions(files.Keys) :: WholeUnderOwnName(files, r))
      && (forall name | name in files :: Expected(name))
  {
    InvAlways(normalize, id, run, steps, i);
    RevisionsAreExact(run[i].files, id, run[i].log);
    forall r | r in Revisions(run[i].files.Keys) ensures WholeUnderOwnName(run[i].files, r) {
      assert Kept(run[i].files, id, run[i].log[r - 1].binding, r);
    }
  }

  lemma LogStep(normalize: Normalize, id: string, s: Directory, step: Step)
    requires Enabled(s, step)
    ensures var s' := Apply(normalize, id, s, step);
      s.log <= s'.log && |s'.log| <= |s.log| + 1
  {
  }

  lemma CallersStep(normalize: Normalize, id: string, s: Directory, step: Step, p: nat)
    requires Enabled(s, step) && p in s.callers
    ensures var s' := Apply(normalize, id, s, step); p in s'.callers && s'.callers[p] == s.callers[p]
  {
  }

  lemma {:induction false} LogGrows(normalize: Normalize, id: string, run: seq<Directory>, steps: seq<Step>, i: nat,
                                    j: nat)
    requires IsRun(normalize, id, run, steps) && i <= j < |run|
    ensures run[i].log <= run[j].log
  {
    if i < j {
      LogGrows(normalize, id, run, steps, i, j - 1);
      RunStep(normalize, id, run, steps, j - 1);
      LogStep(normalize, id, run[j - 1], steps[j - 1]);
    }
  }

  lemma {:induction false} CallersStay(normalize: Normalize, id: string, run: seq<Directory>, steps: seq<Step>,
                                       i: nat, j: nat, p: nat)
    requires IsRun(normalize, id, run, steps) && i <= j < |run| && p in run[i].callers
    ensures p in run[j].callers && run[j].callers[p] == run[i].callers[p]
  {
    if i < j {
      CallersStay(normalize, id, run, steps, i, j - 1, p);
      RunStep(normalize, id, run, steps, j - 1);
      CallersStep(normalize, id, run[j - 1], steps[j - 1], p);
    }
  }

  /** A published revision keeps its contents for ever. */
  lemma RevisionsAreImmutable(normalize: Normalize, id: string, run: seq<Directory>, steps: seq<Step>, i: nat, j: nat,
                              r: nat)
    requires IsRun(normalize, id, run, steps) && i <= j < |run| && r in Revisions(run[i].files.Keys)
    ensures RevisionName(r) in run[i].files && RevisionName(r) in run[j].files
    ensures run[j].files[RevisionName(r)] == run[i].files[RevisionName(r)]
  {
    InvAlways(normalize, id, run, steps, i);
    InvAlways(normalize, id, run, steps, j);
    RevisionsAreExact(run[i].files, id, run[i].log);
    LogGrows(normalize, id, run, steps, i, j);
    assert Kept(run[i].files, id, run[i].log[r - 1].binding, r);
    assert Kept(run[j].files, id, run[j].log[r - 1].binding, r);
  }

  /** What a revision executes as never changes once it is readable, and it is missing exactly until published. */
  lemma ExecutionIsStable(normalize: Normalize, id: string, run: seq<Directory>, steps: seq<Step>, i: nat, j: nat,
                          r: nat)
    requires IsRun(normalize, id, run, steps) && i <= j < |run| && 1 <= r <= Text.U64_MAX
    ensures ReadRevision(normalize, id, run[i].files, r) == Err(NotFound) <==> r > |run[i].log|
    ensures r <= |run[i].log| ==>
              ExecutionBinding(normalize, id, run[j].files, r) == ExecutionBinding(normalize, id, run[i].files, r)
    ensures r > |run[i].log| ==> ExecutionBinding(normalize, id, run[i].files, r) == Err(NotFound)
    ensures r <= |run[i].log| ==>
              var b := run[i].log[r - 1].binding;
              ExecutionBinding(normalize, id, run[i].files, r) ==
                if normalize(b.config).None? then Err(Mismatch) else if b.config.enabled then Ok(b) else Err(Disabled)
  {
    InvAlways(normalize, id, run, steps, i);
    InvAlways(normalize, id, run, steps, j);
    LogGrows(normalize, id, run, steps, i, j);
    if r <= |run[i].log| {
      ReadsPublished(normalize, id, run[i].files, run[i].log, r);
      ReadsPublished(normalize, id, run[j].files, run[j].log, r);
    } else {
      NamesApart(r, r);
    }
  }

  ghost predicate HasPublished(s: Directory, p: nat) {
    exists i :: 0 <= i < |s.log| && s.log[i].call == p
  }

  lemma PublishedIsOwn(id: string, s: Directory, p: nat)
    requires Inv(id, s) && p in s.calls
    ensures HasPublished(s, p) <==> s.calls[p].Own() > 0
  {
    assert OwnSound(s.log, p, s.calls[p]);
    if s.calls[p].Own() > 0 {
      assert s.log[s.calls[p].Own() - 1].call == p;
    }
  }

  /** A call publishes nothing or exactly one revision; an update that returns Ok has published, and a reader
      never does. */
  lemma CallsPublishOnce(normalize: Normalize, id: string, run: seq<Directory>, steps: seq<Step>, i: nat, p: nat)
    requires IsRun(normalize, id, run, steps) && i < |run| && p in run[i].calls
    ensures p in run[i].callers
    ensures forall a, b | 0 <= a < |run[i].log| && 0 <= b < |run[i].log| ::
              run[i].log[a].call == p == run[i].log[b].call ==> a == b
    ensures run[i].callers[p].request.Update? && run[i].calls[p].Returned? && run[i].calls[p].outcome.Ok? ==>
              HasPublished(run[i], p)
    ensures !run[i].callers[p].request.Update? ==> !HasPublished(run[i], p)
  {
    InvAlways(normalize, id, run, steps, i);
    assert RequestSound(run[i].callers[p].request, run[i].calls[p]);
    PublishedIsOwn(id, run[i], p);
  }

  /** The call has renamed its revision into place. */
  predicate PastRename(request: Request, w: Phase) {
    w.Flushing? || w.Storing? || (request.Update? && w.Viewing())
  }

  lemma PastRenameIsOwn(id: string, s: Directory, p: nat)
    requires Inv(id, s) && p in s.calls && s.calls[p].Active()
    ensures p in s.callers && (s.calls[p].Own() > 0 <==> PastRename(s.callers[p].request, s.calls[p]))
  {
    assert RequestSound(s.callers[p].request, s.calls[p]) && OwnSound(s.log, p, s.calls[p]);
  }

  /** A call that is cut short, by an error or a crash, has published exactly when it had come past the rename:
      an update that fails with an error, exactly when it was syncing the directory. */
  lemma CutShortMayHavePublished(normalize: Normalize, id: string, run: seq<Directory>, steps: seq<Step>, i: nat,
                                 p: nat)
    requires IsRun(normalize, id, run, steps) && i < |steps| && p in run[i].calls && run[i].calls[p].Active()
    requires steps[i] == Fail(p) || (steps[i].Crash? && p in run[i + 1].calls && run[i + 1].calls[p].Crashed?)
    ensures p in run[i].callers && p in run[i + 1].calls && run[i + 1].files == run[i].files
    ensures HasPublished(run[i + 1], p) <==> PastRename(run[i].callers[p].request, run[i].calls[p])
    ensures run[i].callers[p].request.Update? && run[i + 1].calls[p].Returned? && run[i + 1].calls[p].outcome.Err? ==>
              (HasPublished(run[i + 1], p) <==> run[i].calls[p].Flushing?)
  {
    InvAlways(normalize, id, run, steps, i);
    RunStep(normalize, id, run, steps, i);
    PastRenameIsOwn(id, run[i], p);
    PublishedIsOwn(id, run[i], p);
    assert run[i + 1].log == run[i].log;
  }

  lemma OverStays(normalize: Normalize, id: string, s: Directory, step: Step, p: nat)
    requires Enabled(s, step) && p in s.calls && !s.calls[p].Active()
    ensures var s' := Apply(normalize, id, s, step); p in s'.calls && s'.calls[p] == s.calls[p]
  {
  }

  lemma {:induction false} OverIsFinal(normalize: Normalize, id: string, run: seq<Directory>, steps: seq<Step>,
                                       i: nat, j: nat, p: nat)
    requires IsRun(normalize, id, run, steps) && i <= j < |run| && p in run[i].calls && !run[i].calls[p].Active()
    ensures p in run[j].calls && run[j].calls[p] == run[i].calls[p]
  {
    if i < j {
      OverIsFinal(normalize, id, run, steps, i, j - 1, p);
      RunStep(normalize, id, run, steps, j - 1);
      OverStays(normalize, id, run[j - 1], steps[j - 1], p);
    }
  }

  lemma UpdateBegins(normalize: Normalize, id: string, s: Directory, s': Directory, p: nat,
                     process: nat, config: Config)
    requires Follows(normalize, id, s, Begin(p, process, Update(config)), s')
    ensures p in s'.calls && p in s'.callers
    ensures normalize(config).None? ==> s'.calls[p] == Returned(Err(InvalidConfig), 0)
    ensures normalize(config).Some? ==> s'.callers[p].request == Update(normalize(config).value)
  {
  }

  /** A call publishes nothing but the normalized configuration it was asked for, and nothing if that is invalid. */
  lemma UpdatePublishesItsConfig(normalize: Normalize, id: string, run: seq<Directory>, steps: seq<Step>,
                                 i: nat, j: nat, p: nat, process: nat, config: Config, k: nat)
    requires IsRun(normalize, id, run, steps) && i < j < |run| && steps[i] == Begin(p, process, Update(config))
    requires k < |run[j].log| && run[j].log[k].call == p
    ensures normalize(config) == Some(run[j].log[k].binding.config)
  {
    RunStep(normalize, id, run, steps, i);
    UpdateBegins(normalize, id, run[i], run[i + 1], p, process, config);
    CallersStay(normalize, id, run, steps, i + 1, j, p);
    InvAlways(normalize, id, run, steps, j);
    if normalize(config).None? {
      OverIsFinal(normalize, id, run, steps, i + 1, j, p);
    }
  }
}
