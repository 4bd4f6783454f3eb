/** Runs of the revision store in which a call answers something other than one might expect. */
module GovernanceRuns {

  import opened Wrappers
  import opened GovernanceStore
  import opened GovernanceProtocol
  import opened GovernanceViews
  import opened GovernanceAnswers
  import Text

  /** Every configuration is valid as it is. */
  function Keep(): Normalize {
    (c: Config) => Some(c)
  }

  ghost predicate Reachable(id: string, s: Directory) {
    exists run, steps :: IsRun(Keep(), id, run, steps) && run[|steps|] == s
  }

  lemma RunExtends(id: string, run: seq<Directory>, steps: seq<Step>, step: Step, s': Directory)
    requires IsRun(Keep(), id, run, steps) && Follows(Keep(), id, run[|steps|], step, s')
    ensures IsRun(Keep(), id, run + [s'], steps + [step])
  {
    var run', steps' := run + [s'], steps + [step];
    forall i: nat ensures FollowsAt(Keep(), id, run', steps', i) {
      if i < |steps| {
        RunStep(Keep(), id, run, steps, i);
        assert run'[i] == run[i] && run'[i + 1] == run[i + 1] && steps'[i] == steps[i];
      }
    }
  }

  lemma Takes(id: string, s: Directory, step: Step) returns (s': Directory)
    requires Reachable(id, s) && Enabled(s, step)
    ensures Reachable(id, s') && s' == Apply(Keep(), id, s, step)
  {
    var run, steps :| IsRun(Keep(), id, run, steps) && run[|steps|] == s;
    s' := Apply(Keep(), id, s, step);
    RunExtends(id, run, steps, step, s');
    assert (run + [s'])[|steps + [step]|] == s';
  }

  lemma ReachableIsSound(id: string, s: Directory)
    requires Reachable(id, s)
    ensures Inv(id, s) && Seen(s) && s.callers.Keys == s.calls.Keys
  {
    var run, steps :| IsRun(Keep(), id, run, steps) && run[|steps|] == s;
    InvAlways(Keep(), id, run, steps, |steps|);
    SeenAlways(Keep(), id, run, steps, |steps|);
  }

  lemma ReachableFiles(id: string, s: Directory)
    requires Reachable(id, s)
    ensures FilesSound(s.files, id, s.log)
  {
    ReachableIsSound(id, s);
  }

  ghost predicate SameCells(cells: map<nat, Cell>, cells': map<nat, Cell>, process: nat, cell: Cell) {
    CellOf(cells', process) == cell && forall c | c != process :: CellOf(cells', c) == CellOf(cells, c)
  }

  /** Only the call `p` and its process have moved since `s0`. */
  ghost predicate At(s0: Directory, s: Directory, p: nat, caller: Caller, w: Phase, lock: Option<nat>, cell: Cell) {
    && s.calls == s0.calls[p := w] && s.callers == s0.callers[p := caller] && s.lock == lock && s.log == s0.log
    && SameCells(s0.cells, s.cells, caller.process, cell)
    && forall name | name in s0.files && name != PENDING_FILE :: name in s.files
  }

  lemma Moves(id: string, s0: Directory, s: Directory, p: nat, caller: Caller, w: Phase, lock: Option<nat>,
              cell: Cell, w': Phase)
    returns (s': Directory)
    requires Reachable(id, s) && At(s0, s, p, caller, w, lock, cell) && MayProceed(s, p, w)
    requires !w.Storing? && !w.Viewing() && !w.Renaming? && w' == UpdateFollows(Keep(), id, s.files, w)
    ensures Reachable(id, s')
    ensures At(s0, s', p, caller, w', LockAfter(lock, p, w, w'), CellAfter(cell, p, w, w'))
  {
    s' := Takes(id, s, Proceed(p));
    assert s'.calls == s0.calls[p := w'];
  }

  lemma ReadsNext(id: string, files: Files, log: seq<Published>, config: Config)
    requires FilesSound(files, id, log) && |log| < Text.U64_MAX
    ensures Read(Keep(), id, files, config) == Ok(Binding(SCHEMA_VERSION, id, config, |log| + 1))
  {
    LatestIsLast(Keep(), id, files, log);
    if log != [] {
      assert Kept(files, id, log[|log| - 1].binding, |log|);
    }
  }

  ghost predicate MayUpdate(id: string, s: Directory, p: nat, process: nat) {
    && Reachable(id, s) && p !in s.calls && p !in s.callers && s.lock.None? && CellOf(s.cells, process).holder.None?
    && |s.log| < Text.U64_MAX
  }

  function NextBinding(id: string, s: Directory, config: Config): Binding {
    Binding(SCHEMA_VERSION, id, config, |s.log| + 1)
  }

  /** The cell of a process while its update `p` works. */
  function Held(s: Directory, process: nat, p: nat): Cell {
    CellOf(s.cells, process).(holder := Some(p))
  }

  lemma Waits(id: string, s0: Directory, p: nat, process: nat, config: Config) returns (s: Directory)
    requires MayUpdate(id, s0, p, process)
    ensures Reachable(id, s)
    ensures At(s0, s, p, Caller(process, Update(config)), Waiting(config), None, CellOf(s0.cells, process))
  {
    s := Takes(id, s0, Begin(p, process, Update(config)));
  }

  lemma Opens(id: string, s0: Directory, p: nat, process: nat, config: Config) returns (s: Directory)
    requires MayUpdate(id, s0, p, process)
    ensures Reachable(id, s)
    ensures At(s0, s, p, Caller(process, Update(config)), Opening(config), None, Held(s0, process, p))
  {
    var caller, cell, held := Caller(process, Update(config)), CellOf(s0.cells, process), Held(s0, process, p);
    var s1 := Waits(id, s0, p, process, config);
    var s2 := Moves(id, s0, s1, p, caller, Waiting(config), None, cell, Creating(config));
    s := Moves(id, s0, s2, p, caller, Creating(config), None, held, Opening(config));
  }

  lemma TakesLock(id: string, s0: Directory, p: nat, process: nat, config: Config) returns (s: Directory)
    requires MayUpdate(id, s0, p, process)
    ensures Reachable(id, s)
    ensures At(s0, s, p, Caller(process, Update(config)), Reading(config), Some(p), Held(s0, process, p))
  {
    var caller, held := Caller(process, Update(config)), Held(s0, process, p);
    var s1 := Opens(id, s0, p, process, config);
    var s2 := Moves(id, s0, s1, p, caller, Opening(config), None, held, Locking(config));
    s := Moves(id, s0, s2, p, caller, Locking(config), None, held, Reading(config));
  }

  lemma ChecksNext(id: string, s: Directory, b: Binding)
    requires Reachable(id, s) && b.revision == |s.log| + 1 <= Text.U64_MAX
    ensures UpdateFollows(Keep(), id, s.files, Checking(b)) == Clearing(b)
  {
    ReachableFiles(id, s);
    CheckingClears(Keep(), id, s.files, s.log, b);
  }

  lemma BuildsNext(id: string, s: Directory, config: Config)
    requires Reachable(id, s) && |s.log| < Text.U64_MAX
    ensures UpdateFollows(Keep(), id, s.files, Reading(config)) == Checking(NextBinding(id, s, config))
  {
    ReachableFiles(id, s);
    ReadsNext(id, s.files, s.log, config);
  }

  lemma Checks(id: string, s0: Directory, p: nat, process: nat, config: Config) returns (s: Directory)
    requires MayUpdate(id, s0, p, process)
    ensures Reachable(id, s)
    ensures At(s0, s, p, Caller(process, Update(config)), Checking(NextBinding(id, s0, config)), Some(p),
               Held(s0, process, p))
  {
    var s1 := TakesLock(id, s0, p, process, config);
    BuildsNext(id, s1, config);
    s := Moves(id, s0, s1, p, Caller(process, Update(config)), Reading(config), Some(p), Held(s0, process, p),
               Checking(NextBinding(id, s0, config)));
  }

  lemma Stages(id: string, s0: Directory, p: nat, process: nat, config: Config) returns (s: Directory)
    requires MayUpdate(id, s0, p, process)
    ensures Reachable(id, s)
    ensures At(s0, s, p, Caller(process, Update(config)), Staging(NextBinding(id, s0, config)), Some(p),
               Held(s0, process, p))
  {
    var caller, held, b := Caller(process, Update(config)), Held(s0, process, p), NextBinding(id, s0, config);
    var s1 := Checks(id, s0, p, process, config);
    ChecksNext(id, s1, b);
    var s2 := Moves(id, s0, s1, p, caller, Checking(b), Some(p), held, Clearing(b));
    s := Moves(id, s0, s2, p, caller, Clearing(b), Some(p), held, Staging(b));
  }

  lemma NothingPending(id: string, s: Directory, p: nat)
    requires Reachable(id, s) && p in s.calls && (s.calls[p].Staging? || s.calls[p].Renaming?)
    ensures s.calls[p].Staging? ==> PENDING_FILE !in s.files
    ensures s.calls[p].Renaming? ==> PENDING_FILE in s.files
  {
    ReachableIsSound(id, s);
    assert Prepared(s.files, id, s.log, s.calls[p]);
  }

  lemma Prepares(id: string, s0: Directory, p: nat, process: nat, config: Config) returns (s: Directory)
    requires MayUpdate(id, s0, p, process)
    ensures Reachable(id, s)
    ensures At(s0, s, p, Caller(process, Update(config)), Syncing(NextBinding(id, s0, config)), Some(p),
               Held(s0, process, p))
  {
    var caller, held, b := Caller(process, Update(config)), Held(s0, process, p), NextBinding(id, s0, config);
    var s1 := Stages(id, s0, p, process, config);
    NothingPending(id, s1, p);
    var s2 := Moves(id, s0, s1, p, caller, Staging(b), Some(p), held, Filling(b));
    s := Moves(id, s0, s2, p, caller, Filling(b), Some(p), held, Syncing(b));
  }

  lemma Renames(id: string, s0: Directory, s: Directory, p: nat, caller: Caller, b: Binding, cell: Cell)
    returns (s': Directory)
    requires Reachable(id, s) && At(s0, s, p, caller, Renaming(b), Some(p), cell)
    ensures Reachable(id, s')
    ensures At(s0.(log := s0.log + [Published(p, b)]), s', p, caller, Flushing(b), Some(p), cell)
  {
    NothingPending(id, s, p);
    s' := Takes(id, s, Proceed(p));
    assert s'.calls == s0.calls[p := Flushing(b)];
  }

  lemma Flushes(id: string, s0: Directory, p: nat, process: nat, config: Config) returns (s: Directory)
    requires MayUpdate(id, s0, p, process)
    ensures Reachable(id, s)
    ensures var b := NextBinding(id, s0, config);
      At(s0.(log := s0.log + [Published(p, b)]), s, p, Caller(process, Update(config)), Storing(b), None,
         Held(s0, process, p))
  {
    var caller, held, b := Caller(process, Update(config)), Held(s0, process, p), NextBinding(id, s0, config);
    var s1 := Prepares(id, s0, p, process, config);
    var s2 := Moves(id, s0, s1, p, caller, Syncing(b), Some(p), held, Renaming(b));
    var s3 := Renames(id, s0, s2, p, caller, b, held);
    s := Moves(id, s0.(log := s0.log + [Published(p, b)]), s3, p, caller, Flushing(b), Some(p), held, Storing(b));
  }

  /** From any reachable state without an update in the way, a call can publish and begin its view. */
  lemma Publishes(id: string, s0: Directory, p: nat, process: nat, config: Config) returns (s: Directory)
    requires MayUpdate(id, s0, p, process)
    ensures Reachable(id, s)
    ensures var b := NextBinding(id, s0, config);
      At(s0.(log := s0.log + [Published(p, b)]), s, p, Caller(process, Update(config)),
         Listing(Ask(b.revision, b.revision), s.files.Keys), None, Cell(Some(b), Some(p), None))
  {
    var b := NextBinding(id, s0, config);
    var s1 := Flushes(id, s0, p, process, config);
    s := Takes(id, s1, Proceed(p));
    assert s.calls == s0.calls[p := Listing(Ask(b.revision, b.revision), s.files.Keys)];
  }

  /** A reader begins its view. */
  lemma Views(id: string, s: Directory, p: nat, process: nat) returns (s': Directory)
    requires Reachable(id, s) && p !in s.calls && p !in s.callers
    ensures Reachable(id, s') && s'.files == s.files
    ensures At(s, s', p, Caller(process, View), Listing(Ask(0, |s.log|), s.files.Keys), s.lock,
      CellOf(s.cells, process))
  {
    s' := Takes(id, s, Begin(p, process, View));
  }

  lemma PicksLatest(id: string, s: Directory, cell: Cell, request: Request, ask: Ask)
    requires Reachable(id, s)
    ensures ViewFollows(Keep(), id, s.files, |s.log|, cell, request, Picking(ask, s.files.Keys)) ==
            Refreshing(ask, Version(s.log, |s.log|))
  {
    ReachableFiles(id, s);
    LatestIsLast(Keep(), id, s.files, s.log);
  }

  lemma Lists(id: string, s: Directory, p: nat) returns (s': Directory)
    requires Reachable(id, s) && p in s.calls && p in s.callers && s.calls[p].Listing? && s.lock != Some(p)
    requires forall name | name in s.calls[p].before && name != PENDING_FILE :: name in s.files
    ensures Reachable(id, s') && s'.files == s.files
    ensures At(s, s', p, s.callers[p], Picking(s.calls[p].ask, s.files.Keys), s.lock,
      CellOf(s.cells, s.callers[p].process))
  {
    s' := Takes(id, s, List(p, s.files.Keys));
  }

  lemma Picks(id: string, s: Directory, p: nat) returns (s': Directory)
    requires Reachable(id, s) && p in s.calls && p in s.callers && s.lock != Some(p)
    requires s.calls[p].Picking? && s.calls[p].names == s.files.Keys
    ensures Reachable(id, s') && s'.files == s.files
    ensures At(s, s', p, s.callers[p], Refreshing(s.calls[p].ask, Version(s.log, |s.log|)), s.lock,
               CellOf(s.cells, s.callers[p].process))
  {
    PicksLatest(id, s, CellOf(s.cells, s.callers[p].process), s.callers[p].request, s.calls[p].ask);
    s' := Takes(id, s, Proceed(p));
  }

  lemma ViewsHoldNoLock(id: string, s: Directory, p: nat)
    requires Reachable(id, s) && p in s.calls && s.calls[p].Viewing()
    ensures s.lock != Some(p)
  {
    ReachableIsSound(id, s);
  }

  /** A view lists what is there now and reads it. */
  lemma Reads(id: string, s: Directory, p: nat) returns (s': Directory)
    requires Reachable(id, s) && p in s.calls && p in s.callers && s.calls[p].Listing?
    requires forall name | name in s.calls[p].before && name != PENDING_FILE :: name in s.files
    ensures Reachable(id, s') && s'.files == s.files
    ensures At(s, s', p, s.callers[p], Refreshing(s.calls[p].ask, Version(s.log, |s.log|)), s.lock,
               CellOf(s.cells, s.callers[p].process))
  {
    ViewsHoldNoLock(id, s, p);
    var s1 := Lists(id, s, p);
    s' := Picks(id, s1, p);
    assert s'.calls == s.calls[p := s'.calls[p]] && s'.callers == s.callers[p := s.callers[p]];
  }

  lemma Stores(id: string, s: Directory, p: nat) returns (s': Directory)
    requires Reachable(id, s) && p in s.calls && p in s.callers && s.calls[p].Refreshing?
    requires CellOf(s.cells, s.callers[p].process).holder.None?
    ensures Reachable(id, s') && s'.files == s.files
    ensures At(s, s', p, s.callers[p], Answering(s.calls[p].ask, s.calls[p].latest), s.lock,
               Cell(s.calls[p].latest, Some(p), None))
  {
    ViewsHoldNoLock(id, s, p);
    s' := Takes(id, s, Proceed(p));
  }

  // ---------------------------------------------------------------- the runs

  lemma Starts(id: string) returns (s: Directory)
    ensures Reachable(id, s) && s == Directory(map[], None, map[], map[], map[], [])
  {
    s := Directory(map[], None, map[], map[], map[], []);
    assert IsRun(Keep(), id, [s], []);
  }

  /** Call 1 has published and call 2 after it, from another process, before the view of call 1 lists the directory. */
  lemma TwoPublished(id: string, mine: Config, other: Config) returns (s: Directory)
    ensures Reachable(id, s) && 1 in s.calls && 1 in s.callers && s.callers[1] == Caller(1, Update(mine))
    ensures |s.log| == 2 && s.log[0].call == 1 && s.log[0].binding.config == mine && s.log[1].binding.config == other
    ensures s.calls[1].Listing? && s.calls[1].ask == Ask(1, 1) && CellOf(s.cells, 1).holder.None?
    ensures forall name | name in s.calls[1].before && name != PENDING_FILE :: name in s.files
  {
    var s0 := Starts(id);
    var s1 := Publishes(id, s0, 1, 1, mine);
    s := Publishes(id, s1, 2, 2, other);
  }

  /** A run in which an update shows another update's configuration. */
  lemma UpdateShowsAnother(id: string, mine: Config, other: Config) returns (s: Directory, s': Directory)
    ensures Reachable(id, s) && Enabled(s, Proceed(1)) && s' == Apply(Keep(), id, s, Proceed(1))
    ensures |s.log| == 2 && s.log[0].call == 1 && s.log[0].binding.config == mine && s.log[1].binding.config == other
    ensures 1 in s'.calls && s'.calls[1] == Returned(Ok(Showing(Some(s.log[1].binding))), 1)
  {
    var s1 := TwoPublished(id, mine, other);
    var s2 := Reads(id, s1, 1);
    s := Stores(id, s2, 1);
    s' := Takes(id, s, Proceed(1));
  }

  /** The view 11 has read revision 1, and then revision 2 was published. */
  lemma StaleRead(id: string, c: Config) returns (s: Directory)
    ensures Reachable(id, s) && 11 in s.calls && 11 in s.callers && s.callers[11] == Caller(1, View)
    ensures s.calls[11].Refreshing? && Revision(s.calls[11].latest) == 1
    ensures |s.log| == 2 && s.log[1].binding.revision == 2 && CellOf(s.cells, 1).holder.None?
    ensures 12 !in s.calls && 12 !in s.callers
  {
    var s0 := Starts(id);
    var s1 := Publishes(id, s0, 1, 2, c);
    var s2 := Views(id, s1, 11, 1);
    var s3 := Reads(id, s2, 11);
    s := Publishes(id, s3, 2, 2, c);
  }

  /** Two views of one process, 11 and 12: 11 has read revision 1 before revision 2 was published, and stores it
      after 12, which began later, has stored revision 2. */
  lemma StaleStore(id: string, c: Config) returns (s: Directory)
    ensures Reachable(id, s) && Enabled(s, Proceed(12)) && |s.log| == 2 && 12 in s.calls && 12 in s.callers
    ensures s.calls[12].Answering? && s.calls[12].ask == Ask(0, 2) && Revision(s.calls[12].read) == 2
    ensures Revision(CellValue(s, 12)) == 1 && s.callers[12].request.View?
  {
    var s1 := StaleRead(id, c);
    var s2 := Views(id, s1, 12, 1);
    var s3 := Reads(id, s2, 12);
    var s4 := Stores(id, s3, 12);
    s := Stores(id, s4, 11);
  }

  /** What is older than the view was not the latest at any moment of it. */
  lemma ShowsStale(id: string, run: seq<Directory>, steps: seq<Step>, j: nat, p: nat) returns (i: nat)
    requires IsRun(Keep(), id, run, steps) && j < |steps| && steps[j] == Proceed(p) && p in run[j].callers
    requires p in run[j].calls && run[j].calls[p].Answering?
    requires Revision(CellValue(run[j], p)) < run[j].calls[p].ask.began
    ensures i <= j && BeganAt(run, i, p, run[j].calls[p].ask)
    ensures p in run[j + 1].calls
    ensures run[j + 1].calls[p]
         == Returned(Answer(run[j].callers[p].request, CellValue(run[j], p)), run[j].calls[p].ask.own)
    ensures forall m | i <= m <= j :: !WasLatest(run[m], CellValue(run[j], p))
  {
    AnswerFollows(Keep(), id, run, steps, j, p);
    i := ViewBegan(Keep(), id, run, steps, j, p);
    CallIsSound(Keep(), id, run, steps, j, p);
    CellIsVersion(run[j], p);
    LatestDuring(Keep(), id, run, steps, i, j, CellValue(run[j], p));
  }

  /** A run in which a view shows a binding that was not the latest at any moment of the view. */
  lemma ViewShowsStale(id: string, c: Config) returns (run: seq<Directory>, steps: seq<Step>, i: nat, j: nat)
    ensures IsRun(Keep(), id, run, steps) && i <= j < |steps| && 12 in run[j].calls && 12 in run[j].callers
    ensures run[j].calls[12].Answering? && BeganAt(run, i, 12, run[j].calls[12].ask)
    ensures 12 in run[j + 1].calls && run[j + 1].calls[12] == Returned(Ok(Showing(CellValue(run[j], 12))), 0)
    ensures forall m | i <= m <= j :: !WasLatest(run[m], CellValue(run[j], 12))
  {
    var s := StaleStore(id, c);
    var run0, steps0 :| IsRun(Keep(), id, run0, steps0) && run0[|steps0|] == s;
    var s' := Apply(Keep(), id, s, Proceed(12));
    RunExtends(id, run0, steps0, Proceed(12), s');
    run, steps, j := run0 + [s'], steps0 + [Proceed(12)], |steps0|;
    assert run[j] == s && steps[j] == Proceed(12);
    i := ShowsStale(id, run, steps, j, 12);
  }
}
