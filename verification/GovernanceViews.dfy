/** What a call of the revision store reads, without the lock, and why calls fail. */
module GovernanceViews {

  import opened Wrappers
  import opened GovernanceStore
  import opened GovernanceProtocol
  import Text

  // ---------------------------------------------------------------- versions

  /** The revision a value shows, zero for none. */
  function Revision(v: Option<Binding>): nat {
    if v.None? then 0 else v.value.revision
  }

  /** The latest binding when `n` were published. */
  function Version(log: seq<Published>, n: nat): Option<Binding>
    requires n <= |log|
  {
    if n == 0 then None else Some(log[n - 1].binding)
  }

  ghost predicate IsVersion(log: seq<Published>, v: Option<Binding>) {
    Revision(v) <= |log| && v == Version(log, Revision(v))
  }

  /** `v` was the latest binding in state `s`. */
  ghost predicate WasLatest(s: Directory, v: Option<Binding>) {
    v == Version(s.log, |s.log|)
  }

  ghost predicate Holds(names: set<string>, n: nat) {
    forall r | 1 <= r <= n :: RevisionName(r) in names
  }

  ghost predicate Within(names: set<string>, n: nat) {
    forall name | name in names ::
      Expected(name) && (ParseRevisionName(name).Some? ==> 1 <= ParseRevisionName(name).value <= n)
  }

  /** What a view has read is no older than its beginning, and no newer than now. */
  ghost predicate ViewSound(log: seq<Published>, w: Phase) {
    match w
    case Listing(ask, before) => ask.own <= ask.began <= |log| && Holds(before, ask.began) && Within(before, |log|)
    case Picking(ask, names) => ask.own <= ask.began <= |log| && Holds(names, ask.began) && Within(names, |log|)
    case Refreshing(ask, latest) => ask.own <= ask.began <= Revision(latest) && IsVersion(log, latest)
    case Answering(ask, read) => ask.own <= ask.began <= Revision(read) && IsVersion(log, read)
    case Returned(outcome, _) => outcome.Ok? && outcome.value.Showing? ==> IsVersion(log, outcome.value.binding)
    case _ => true
  }

  ghost predicate ViewsSound(log: seq<Published>, calls: map<nat, Phase>) {
    forall p | p in calls :: ViewSound(log, calls[p])
  }

  ghost predicate CellsSound(log: seq<Published>, cells: map<nat, Cell>) {
    forall c | c in cells :: IsVersion(log, cells[c].value)
  }

  /** A cell last stored by a call that is about to answer holds what that call read. */
  ghost predicate StoresSound(cells: map<nat, Cell>, callers: map<nat, Caller>, calls: map<nat, Phase>) {
    forall p | p in calls && p in callers && calls[p].Answering? ::
      CellOf(cells, callers[p].process).writer == Some(p) ==> CellOf(cells, callers[p].process).value == calls[p].read
  }

  ghost predicate Seen(s: Directory) {
    ViewsSound(s.log, s.calls) && CellsSound(s.log, s.cells) && StoresSound(s.cells, s.callers, s.calls)
  }

  // ---------------------------------------------------------------- every step

  lemma VersionGrows(log: seq<Published>, log': seq<Published>, v: Option<Binding>)
    requires IsVersion(log, v) && log <= log'
    ensures IsVersion(log', v)
  {
  }

  lemma ViewGrows(log: seq<Published>, log': seq<Published>, w: Phase)
    requires ViewSound(log, w) && log <= log'
    ensures ViewSound(log', w)
  {
  }

  lemma NamesNow(id: string, files: Files, log: seq<Published>)
    requires FilesSound(files, id, log)
    ensures Holds(files.Keys, |log|) && Within(files.Keys, |log|)
  {
    forall r | 1 <= r <= |log| ensures RevisionName(r) in files.Keys {
      assert Kept(files, id, log[r - 1].binding, r);
    }
  }

  lemma ListedNames(id: string, files: Files, log: seq<Published>, before: set<string>, names: set<string>, n: nat)
    requires FilesSound(files, id, log) && MayList(before, names, files) && Holds(before, n) && n <= |log|
    ensures Holds(names, n) && Within(names, |log|)
  {
    forall r | 1 <= r <= n ensures RevisionName(r) in names {
      NamesApart(r, r);
    }
    NotARevision(PENDING_FILE);
  }

  /** The newest of the listed revisions. */
  ghost function NewestOf(names: set<string>): nat {
    if Revisions(names) == {} then 0 else Max(Revisions(names))
  }

  lemma NewestListed(names: set<string>, n: nat, m: nat)
    requires Holds(names, n) && Within(names, m) && n <= m <= Text.U64_MAX
    ensures n <= NewestOf(names) <= m && (Revisions(names) == {} <==> NewestOf(names) == 0)
    ensures forall name | name in names :: Expected(name)
  {
    if n > 0 {
      NamesApart(n, n);
      assert n in Revisions(names);
    }
  }

  lemma ListedIsVersion(normalize: Normalize, id: string, files: Files, log: seq<Published>, names: set<string>, n: nat)
    requires FilesSound(files, id, log) && Holds(names, n) && Within(names, |log|) && n <= |log|
    ensures var read := ReadListed(normalize, id, names, files);
      if read.Ok? then IsVersion(log, read.value) && Revision(read.value) == NewestOf(names) >= n
      else read.error == Mismatch && NewestOf(names) > 0 && normalize(log[NewestOf(names) - 1].binding.config).None?
  {
    NewestListed(names, n, |log|);
    if Revisions(names) != {} {
      ReadsPublished(normalize, id, files, log, NewestOf(names));
      assert Kept(files, id, log[NewestOf(names) - 1].binding, NewestOf(names));
    }
  }

  lemma ViewFollowsSound(normalize: Normalize, id: string, files: Files, log: seq<Published>, cell: Cell,
                         request: Request, w: Phase)
    requires FilesSound(files, id, log) && ViewSound(log, w) && IsVersion(log, cell.value)
    requires w.Storing? ==> w.binding.revision <= |log|
    ensures ViewSound(log, ViewFollows(normalize, id, files, |log|, cell, request, w))
  {
    match w
    case Storing(_) => NamesNow(id, files, log);
    case Picking(ask, names) => ListedIsVersion(normalize, id, files, log, names, ask.began);
    case _ =>
  }

  lemma FollowingSound(normalize: Normalize, id: string, s: Directory, p: nat, log': seq<Published>)
    requires Inv(id, s) && Seen(s) && Enabled(s, Proceed(p)) && s.log <= log'
    ensures ViewSound(log', Following(normalize, id, s, p))
  {
    var w := s.calls[p];
    assert ViewSound(s.log, w) && OwnSound(s.log, p, w);
    if w.Storing? || w.Viewing() {
      ViewFollowsSound(normalize, id, s.files, s.log, CellOf(s.cells, s.callers[p].process), s.callers[p].request, w);
      ViewGrows(s.log, log', Following(normalize, id, s, p));
    }
  }

  lemma ViewsMove(log: seq<Published>, log': seq<Published>, calls: map<nat, Phase>, p: nat, w': Phase)
    requires ViewsSound(log, calls) && log <= log' && ViewSound(log', w')
    ensures ViewsSound(log', calls[p := w'])
  {
    forall q | q in calls && q != p ensures ViewSound(log', calls[q]) {
      ViewGrows(log, log', calls[q]);
    }
  }

  lemma CellsMove(log: seq<Published>, log': seq<Published>, cells: map<nat, Cell>, process: nat, cell: Cell)
    requires CellsSound(log, cells) && log <= log' && IsVersion(log', cell.value)
    ensures CellsSound(log', cells[process := cell])
  {
  }

  /** What a call stores is a version: its own publication, or what its view has read. */
  lemma StoredIsVersion(log: seq<Published>, cell: Cell, p: nat, w: Phase, w': Phase)
    requires IsVersion(log, cell.value) && ViewSound(log, w) && OwnSound(log, p, w)
    requires w.Storing? ==> log[w.binding.revision - 1].binding == w.binding
    ensures IsVersion(log, CellAfter(cell, p, w, w').value)
  {
  }

  lemma StoresMove(cells: map<nat, Cell>, callers: map<nat, Caller>, calls: map<nat, Phase>, p: nat, w': Phase)
    requires StoresSound(cells, callers, calls) && p in calls && p in callers
    requires w'.Answering? ==> calls[p].Refreshing? && w'.read == calls[p].latest
    ensures var process := callers[p].process;
      StoresSound(cells[process := CellAfter(CellOf(cells, process), p, calls[p], w')], callers, calls[p := w'])
  {
  }

  /** One call moves to `w'`, and the log may grow. */
  lemma SeenMoves(s: Directory, s': Directory, p: nat, w': Phase)
    requires Seen(s) && p in s.calls && p in s.callers && OwnSound(s.log, p, s.calls[p]) && s.log <= s'.log
    requires s' == Moved(s, p, w').(files := s'.files, log := s'.log)
    requires ViewSound(s'.log, w') && (w'.Answering? ==> s.calls[p].Refreshing? && w'.read == s.calls[p].latest)
    ensures Seen(s')
  {
    var process := s.callers[p].process;
    var cell := CellAfter(CellOf(s.cells, process), p, s.calls[p], w');
    assert ViewSound(s.log, s.calls[p]);
    StoredIsVersion(s.log, CellOf(s.cells, process), p, s.calls[p], w');
    VersionGrows(s.log, s'.log, cell.value);
    ViewsMove(s.log, s'.log, s.calls, p, w');
    CellsMove(s.log, s'.log, s.cells, process, cell);
    StoresMove(s.cells, s.callers, s.calls, p, w');
  }

  lemma SeenCrash(s: Directory, process: nat)
    requires Seen(s)
    ensures Seen(AfterCrash(s, process))
  {
    var s' := AfterCrash(s, process);
    forall p | p in s'.calls ensures ViewSound(s'.log, s'.calls[p]) {
      assert ViewSound(s.log, s.calls[p]);
    }
  }

  lemma SeenBegin(normalize: Normalize, id: string, s: Directory, p: nat, process: nat, request: Request)
    requires Inv(id, s) && Seen(s) && p !in s.calls && p !in s.callers
    ensures Seen(Begun(normalize, s, p, process, request))
  {
    NamesNow(id, s.files, s.log);
    ViewsMove(s.log, s.log, s.calls, p, Begun(normalize, s, p, process, request).calls[p]);
  }

  lemma FollowingAnswers(normalize: Normalize, id: string, s: Directory, p: nat, w': Phase)
    requires p in s.calls && p in s.callers && w' == Following(normalize, id, s, p) && !s.calls[p].Answering?
    ensures w'.Answering? ==> s.calls[p].Refreshing? && w'.read == s.calls[p].latest
  {
  }

  lemma AnsweringReturns(normalize: Normalize, id: string, s: Directory, p: nat)
    requires p in s.calls && p in s.callers && s.calls[p].Answering?
    ensures Following(normalize, id, s, p) ==
            Returned(Answer(s.callers[p].request, CellOf(s.cells, s.callers[p].process).value), s.calls[p].ask.own)
  {
  }

  lemma SeenProceeds(normalize: Normalize, id: string, s: Directory, p: nat, w': Phase)
    requires Inv(id, s) && Seen(s) && Enabled(s, Proceed(p)) && w' == Following(normalize, id, s, p)
    ensures Seen(Proceeded(s, p, w'))
  {
    var s' := Proceeded(s, p, w');
    assert OwnSound(s.log, p, s.calls[p]);
    FollowingSound(normalize, id, s, p, s'.log);
    if s.calls[p].Answering? {
      AnsweringReturns(normalize, id, s, p);
    } else {
      FollowingAnswers(normalize, id, s, p, w');
    }
    SeenMoves(s, s', p, w');
  }

  lemma SeenLists(id: string, s: Directory, p: nat, names: set<string>)
    requires Inv(id, s) && Seen(s) && Enabled(s, List(p, names))
    ensures Seen(Moved(s, p, Picking(s.calls[p].ask, names)))
  {
    assert ViewSound(s.log, s.calls[p]) && OwnSound(s.log, p, s.calls[p]);
    ListedNames(id, s.files, s.log, s.calls[p].before, names, s.calls[p].ask.began);
    SeenMoves(s, Moved(s, p, Picking(s.calls[p].ask, names)), p, Picking(s.calls[p].ask, names));
  }

  lemma SeenFails(id: string, s: Directory, p: nat)
    requires Inv(id, s) && Seen(s) && Enabled(s, Fail(p))
    ensures Seen(Moved(s, p, FailedPhase(s.callers[p].request, s.calls[p])))
  {
    var w' := FailedPhase(s.callers[p].request, s.calls[p]);
    assert OwnSound(s.log, p, s.calls[p]);
    SeenMoves(s, Moved(s, p, w'), p, w');
  }

  lemma SeenStep(normalize: Normalize, id: string, s: Directory, step: Step)
    requires Inv(id, s) && Seen(s) && Enabled(s, step)
    ensures Seen(Apply(normalize, id, s, step))
  {
    match step
    case Begin(p, process, request) => SeenBegin(normalize, id, s, p, process, request);
    case Proceed(p) => SeenProceeds(normalize, id, s, p, Following(normalize, id, s, p));
    case List(p, names) => SeenLists(id, s, p, names);
    case Fail(p) => SeenFails(id, s, p);
    case Crash(process) => SeenCrash(s, process);
  }

  lemma {:induction false} SeenAlways(normalize: Normalize, id: string, run: seq<Directory>, steps: seq<Step>, i: nat)
    requires IsRun(normalize, id, run, steps) && i < |run|
    ensures Seen(run[i])
  {
    if i > 0 {
      SeenAlways(normalize, id, run, steps, i - 1);
      InvAlways(normalize, id, run, steps, i - 1);
      RunStep(normalize, id, run, steps, i - 1);
      SeenStep(normalize, id, run[i - 1], steps[i - 1]);
    }
  }

  // ---------------------------------------------------------------- the read itself

  /** The log grows by at most one, so every length in between is reached. */
  lemma {:induction false} LengthReached(normalize: Normalize, id: string, run: seq<Directory>, steps: seq<Step>,
                                         i: nat, j: nat, n: nat)
    returns (m: nat)
    requires IsRun(normalize, id, run, steps) && i <= j < |run| && |run[i].log| <= n <= |run[j].log|
    ensures i <= m <= j && |run[m].log| == n
    decreases j - i
  {
    if |run[i].log| == n {
      m := i;
    } else {
      RunStep(normalize, id, run, steps, i);
      LogStep(normalize, id, run[i], steps[i]);
      m := LengthReached(normalize, id, run, steps, i + 1, j, n);
    }
  }

  /** A value was the latest at some moment of a stretch exactly when its revision lies between the two ends. */
  lemma LatestDuring(normalize: Normalize, id: string, run: seq<Directory>, steps: seq<Step>, i: nat, j: nat,
                     v: Option<Binding>)
    requires IsRun(normalize, id, run, steps) && i <= j < |run| && IsVersion(run[j].log, v)
    ensures (exists m :: i <= m <= j && WasLatest(run[m], v)) <==> |run[i].log| <= Revision(v)
  {
    if |run[i].log| <= Revision(v) {
      var m := LengthReached(normalize, id, run, steps, i, j, Revision(v));
      LogGrows(normalize, id, run, steps, m, j);
      assert WasLatest(run[m], v);
    }
    if exists m :: i <= m <= j && WasLatest(run[m], v) {
      var m :| i <= m <= j && WasLatest(run[m], v);
      InvAlways(normalize, id, run, steps, m);
      LogGrows(normalize, id, run, steps, i, m);
      if |run[m].log| > 0 {
        assert Kept(run[m].files, id, run[m].log[|run[m].log| - 1].binding, |run[m].log|);
      }
    }
  }

  /** A listing taken between two moments of a run: it has every name that stayed throughout, and only names
      that were there at some moment. */
  ghost predicate IsListing(run: seq<Directory>, i: nat, j: nat, names: set<string>)
    requires i <= j < |run|
  {
    && (forall name | name in names :: exists t | i <= t <= j :: name in run[t].files)
    && (forall name | (forall t | i <= t <= j :: name in run[t].files) :: name in names)
  }

  lemma NamesStayOnce(normalize: Normalize, id: string, s: Directory, step: Step, name: string)
    requires Enabled(s, step) && name in s.files && name != PENDING_FILE
    ensures name in Apply(normalize, id, s, step).files
  {
  }

  lemma {:induction false} NamesStay(normalize: Normalize, id: string, run: seq<Directory>, steps: seq<Step>, i: nat,
                                     j: nat, name: string)
    requires IsRun(normalize, id, run, steps) && i <= j < |run| && name in run[i].files && name != PENDING_FILE
    ensures name in run[j].files
  {
    if i < j {
      NamesStay(normalize, id, run, steps, i, j - 1, name);
      RunStep(normalize, id, run, steps, j - 1);
      NamesStayOnce(normalize, id, run[j - 1], steps[j - 1], name);
    }
  }

  /** Every such listing is one the listing step allows. */
  lemma ListingsAreAllowed(normalize: Normalize, id: string, run: seq<Directory>, steps: seq<Step>, i: nat, j: nat,
                           names: set<string>)
    requires IsRun(normalize, id, run, steps) && i <= j < |run| && IsListing(run, i, j, names)
    ensures MayList(run[i].files.Keys, names, run[j].files)
  {
    forall name | name in run[i].files.Keys && name != PENDING_FILE ensures name in names {
      forall t | i <= t <= j ensures name in run[t].files {
        NamesStay(normalize, id, run, steps, i, t, name);
      }
    }
    forall name | name in names ensures name in run[j].files || name == PENDING_FILE {
      var t :| i <= t <= j && name in run[t].files;
      if name != PENDING_FILE {
        NamesStay(normalize, id, run, steps, t, j, name);
      }
    }
  }

  /** A view's stretch: `i` is the moment it began. */
  ghost predicate BeganAt(run: seq<Directory>, i: nat, p: nat, ask: Ask)
    requires i < |run|
  {
    && p in run[i].calls && run[i].calls[p] == Listing(ask, run[i].files.Keys) && ask.began == |run[i].log|
  }

  lemma ViewBeginsOnce(normalize: Normalize, id: string, s: Directory, step: Step, p: nat)
    requires Enabled(s, step)
    ensures var s' := Apply(normalize, id, s, step);
      p in s'.calls && s'.calls[p].Viewing() ==>
        || (p in s.calls && s.calls[p].Viewing() && s.calls[p].ask == s'.calls[p].ask)
        || (s'.files == s.files && s'.log == s.log && s'.calls[p].Listing? && s'.calls[p].before == s'.files.Keys &&
            s'.calls[p].ask.began == |s'.log|)
  {
  }

  lemma {:induction false} ViewBegan(normalize: Normalize, id: string, run: seq<Directory>, steps: seq<Step>, j: nat,
                                     p: nat)
    returns (i: nat)
    requires IsRun(normalize, id, run, steps) && j < |run| && p in run[j].calls && run[j].calls[p].Viewing()
    ensures i <= j && BeganAt(run, i, p, run[j].calls[p].ask)
  {
    RunStep(normalize, id, run, steps, j - 1);
    ViewBeginsOnce(normalize, id, run[j - 1], steps[j - 1], p);
    if p in run[j - 1].calls && run[j - 1].calls[p].Viewing() && run[j - 1].calls[p].ask == run[j].calls[p].ask {
      i := ViewBegan(normalize, id, run, steps, j - 1, p);
    } else {
      i := j;
    }
  }

  /** What a call reads for itself was the latest binding at some moment since its view began, and is no older
      than what the call has published. */
  lemma ReadersSeeALatest(normalize: Normalize, id: string, run: seq<Directory>, steps: seq<Step>, j: nat, p: nat)
    returns (i: nat, m: nat)
    requires IsRun(normalize, id, run, steps) && j < |run| && p in run[j].calls && run[j].calls[p].Answering?
    ensures i <= m <= j && BeganAt(run, i, p, run[j].calls[p].ask) && WasLatest(run[m], run[j].calls[p].read)
    ensures run[j].calls[p].ask.own <= |run[i].log| <= Revision(run[j].calls[p].read)
  {
    i := ViewBegan(normalize, id, run, steps, j, p);
    SeenAlways(normalize, id, run, steps, j);
    assert ViewSound(run[j].log, run[j].calls[p]);
    LatestDuring(normalize, id, run, steps, i, j, run[j].calls[p].read);
    m :| i <= m <= j && WasLatest(run[m], run[j].calls[p].read);
  }

  ghost predicate Numbered(log: seq<Published>) {
    forall i | 0 <= i < |log| :: log[i].binding.revision == i + 1
  }

  lemma LogIsNumbered(id: string, files: Files, log: seq<Published>)
    requires FilesSound(files, id, log)
    ensures Numbered(log)
  {
    forall i | 0 <= i < |log| ensures log[i].binding.revision == i + 1 {
      assert Kept(files, id, log[i].binding, i + 1);
    }
  }

  lemma VersionIsOwn(log: seq<Published>, v: Option<Binding>, own: nat)
    requires Numbered(log) && IsVersion(log, v) && own <= |log|
    ensures v == Version(log, own) <==> Revision(v) == own
  {
  }

  lemma NewestIsOwn(names: set<string>, own: nat)
    requires own <= NewestOf(names) && (Revisions(names) == {} <==> NewestOf(names) == 0)
    ensures NewestOf(names) == own <==> forall r | r in Revisions(names) :: r <= own
  {
    if Revisions(names) != {} {
      assert NewestOf(names) in Revisions(names);
    }
  }

  lemma ReadIsOwn(normalize: Normalize, id: string, files: Files, log: seq<Published>, w: Phase,
                  latest: Option<Binding>)
    requires FilesSound(files, id, log) && w.Picking? && ViewSound(log, w)
    requires ReadListed(normalize, id, w.names, files) == Ok(latest)
    ensures w.ask.own <= |log|
    ensures latest == Version(log, w.ask.own) <==> forall r | r in Revisions(w.names) :: r <= w.ask.own
  {
    ListedIsVersion(normalize, id, files, log, w.names, w.ask.began);
    NewestListed(w.names, w.ask.began, |log|);
    LogIsNumbered(id, files, log);
    VersionIsOwn(log, latest, w.ask.own);
    NewestIsOwn(w.names, w.ask.own);
  }

  lemma PickingFollows(normalize: Normalize, id: string, s: Directory, p: nat, latest: Option<Binding>)
    requires p in s.calls && p in s.callers && s.calls[p].Picking?
    requires Following(normalize, id, s, p) == Refreshing(s.calls[p].ask, latest)
    ensures ReadListed(normalize, id, s.calls[p].names, s.files) == Ok(latest)
  {
  }

  /** What a call reads is its own publication if and only if its listing had nothing newer. */
  lemma ReadsItsOwn(normalize: Normalize, id: string, run: seq<Directory>, steps: seq<Step>, j: nat, p: nat,
                    latest: Option<Binding>)
    requires IsRun(normalize, id, run, steps) && j < |steps| && steps[j] == Proceed(p)
    requires p in run[j].calls && run[j].calls[p].Picking?
    requires p in run[j + 1].calls && run[j + 1].calls[p] == Refreshing(run[j].calls[p].ask, latest)
    ensures var ask, names := run[j].calls[p].ask, run[j].calls[p].names;
      && ask.own <= |run[j].log|
      && (latest == Version(run[j].log, ask.own) <==> forall r | r in Revisions(names) :: r <= ask.own)
  {
    SeenAlways(normalize, id, run, steps, j);
    InvAlways(normalize, id, run, steps, j);
    RunStep(normalize, id, run, steps, j);
    PickingFollows(normalize, id, run[j], p, latest);
    ReadIsOwn(normalize, id, run[j].files, run[j].log, run[j].calls[p], latest);
  }

  // ---------------------------------------------------------------- failures

  /** What normalizing produced validates again when it is read back. */
  ghost predicate Stable(normalize: Normalize) {
    forall c :: normalize(c).Some? ==> normalize(normalize(c).value).Some?
  }

  /** The configuration of an update that is under way or has published is a normalized one. */
  ghost predicate Normalized(normalize: Normalize, request: Request, w: Phase) {
    request.Update? && (w.Active() || w.Own() > 0) ==> normalize(request.config).Some?
  }

  /**
   * Updates fail on I/O, on their own configuration or when revisions are used up; reads on I/O or on what is shown.
   */
  predicate FailsFor(request: Request, why: Failure) {
    if request.Update? then why in {Io, InvalidConfig, Overflow}
    else request.Execute? && why in {Io, NotConfigured, Disabled}
  }

  ghost predicate Honest(normalize: Normalize, request: Request, w: Phase) {
    && Normalized(normalize, request, w)
    && (w.Returned? && w.outcome.Err? ==> FailsFor(request, w.outcome.error))
  }

  ghost predicate AllHonest(normalize: Normalize, s: Directory) {
    forall p | p in s.calls && p in s.callers :: Honest(normalize, s.callers[p].request, s.calls[p])
  }

  lemma LogNormalized(normalize: Normalize, id: string, s: Directory, i: nat)
    requires Inv(id, s) && AllHonest(normalize, s) && i < |s.log|
    ensures normalize(s.log[i].binding.config).Some?
  {
    var p := s.log[i].call;
    assert Honest(normalize, s.callers[p].request, s.calls[p]);
  }

  /** With every published configuration valid, no directory read fails but for I/O. */
  lemma ReadsSucceed(normalize: Normalize, id: string, s: Directory, w: Phase)
    requires Inv(id, s) && AllHonest(normalize, s) && ViewSound(s.log, w)
    ensures ReadLatest(normalize, id, s.files).Ok?
    ensures w.Picking? ==> ReadListed(normalize, id, w.names, s.files).Ok?
  {
    forall i | 0 <= i < |s.log| ensures normalize(s.log[i].binding.config).Some? {
      LogNormalized(normalize, id, s, i);
    }
    LatestIsLast(normalize, id, s.files, s.log);
    if w.Picking? {
      ListedIsVersion(normalize, id, s.files, s.log, w.names, w.ask.began);
      NewestListed(w.names, w.ask.began, |s.log|);
    }
  }

  lemma NextIsFree(id: string, files: Files, log: seq<Published>)
    requires FilesSound(files, id, log) && |log| < Text.U64_MAX
    ensures RevisionName(|log| + 1) !in files
  {
    NamesApart(|log| + 1, |log| + 1);
  }

  /** With a readable directory and the next name free, an update stops only on I/O or exhausted revisions. */
  lemma UpdateFailure(normalize: Normalize, id: string, files: Files, w: Phase)
    requires ReadLatest(normalize, id, files).Ok? && w.Active()
    requires w.Checking? ==> RevisionName(w.binding.revision) !in files
    ensures var w' := UpdateFollows(normalize, id, files, w);
      w'.Returned? ==> w'.outcome == Err(Io) || w'.outcome == Err(Overflow)
  {
  }

  lemma CheckingClears(normalize: Normalize, id: string, files: Files, log: seq<Published>, b: Binding)
    requires FilesSound(files, id, log) && b.revision == |log| + 1 <= Text.U64_MAX
    ensures UpdateFollows(normalize, id, files, Checking(b)) == Clearing(b)
  {
    NextIsFree(id, files, log);
  }

  lemma CheckingIsHonest(normalize: Normalize, id: string, files: Files, log: seq<Published>, request: Request,
                         w: Phase)
    requires FilesSound(files, id, log) && w.Checking? && Prepared(files, id, log, w)
    requires request.Update? && Honest(normalize, request, w)
    ensures Honest(normalize, request, UpdateFollows(normalize, id, files, w))
  {
    CheckingClears(normalize, id, files, log, w.binding);
  }

  lemma UpdateIsHonest(normalize: Normalize, id: string, files: Files, request: Request, w: Phase)
    requires ReadLatest(normalize, id, files).Ok? && w.Active() && request.Update? && Honest(normalize, request, w)
    requires !w.Checking?
    ensures Honest(normalize, request, UpdateFollows(normalize, id, files, w))
  {
    UpdateFailure(normalize, id, files, w);
  }

  lemma ViewIsHonest(normalize: Normalize, id: string, files: Files, n: nat, cell: Cell, request: Request, w: Phase)
    requires Honest(normalize, request, w) && (w.Viewing() || w.Storing?)
    requires w.Picking? ==> ReadListed(normalize, id, w.names, files).Ok?
    requires w.Storing? ==> request.Update?
    ensures Honest(normalize, request, ViewFollows(normalize, id, files, n, cell, request, w))
  {
  }

  lemma HonestProceeds(normalize: Normalize, id: string, s: Directory, p: nat)
    requires Inv(id, s) && Seen(s) && AllHonest(normalize, s) && Enabled(s, Proceed(p))
    ensures Honest(normalize, s.callers[p].request, Following(normalize, id, s, p))
  {
    var w, request := s.calls[p], s.callers[p].request;
    assert Honest(normalize, request, w) && RequestSound(request, w) && ViewSound(s.log, w);
    ReadsSucceed(normalize, id, s, w);
    if w.Storing? || w.Viewing() {
      ViewIsHonest(normalize, id, s.files, |s.log|, CellOf(s.cells, s.callers[p].process), request, w);
    } else {
      assert w.HoldsLock() ==> Prepared(s.files, id, s.log, w);
      if w.Checking? {
        CheckingIsHonest(normalize, id, s.files, s.log, request, w);
      } else {
        UpdateIsHonest(normalize, id, s.files, request, w);
      }
    }
  }

  lemma HonestCrash(normalize: Normalize, s: Directory, process: nat)
    requires AllHonest(normalize, s)
    ensures AllHonest(normalize, AfterCrash(s, process))
  {
    var s' := AfterCrash(s, process);
    forall p | p in s'.calls && p in s'.callers ensures Honest(normalize, s'.callers[p].request, s'.calls[p]) {
      assert Honest(normalize, s.callers[p].request, s.calls[p]);
    }
  }

  lemma HonestMoves(normalize: Normalize, s: Directory, s': Directory, p: nat)
    requires AllHonest(normalize, s) && s'.callers == s.callers && p in s.callers && p in s'.calls
    requires s'.calls == s.calls[p := s'.calls[p]] && Honest(normalize, s.callers[p].request, s'.calls[p])
    ensures AllHonest(normalize, s')
  {
  }

  lemma HonestStep(normalize: Normalize, id: string, s: Directory, step: Step)
    requires Stable(normalize) && Inv(id, s) && Seen(s) && AllHonest(normalize, s) && Enabled(s, step)
    ensures AllHonest(normalize, Apply(normalize, id, s, step))
  {
    match step
    case Begin(p, process, request) =>
    case Proceed(p) =>
      HonestProceeds(normalize, id, s, p);
      HonestMoves(normalize, s, Proceeded(s, p, Following(normalize, id, s, p)), p);
    case List(p, names) =>
      assert Honest(normalize, s.callers[p].request, s.calls[p]);
      HonestMoves(normalize, s, Moved(s, p, Picking(s.calls[p].ask, names)), p);
    case Fail(p) =>
      assert Honest(normalize, s.callers[p].request, s.calls[p]) && RequestSound(s.callers[p].request, s.calls[p]);
      HonestMoves(normalize, s, Moved(s, p, FailedPhase(s.callers[p].request, s.calls[p])), p);
    case Crash(process) => HonestCrash(normalize, s, process);
  }

  /** A conflict, a foreign file or an unreadable revision never happen, to no update and no reader. */
  lemma {:induction false} FailuresAreHonest(normalize: Normalize, id: string, run: seq<Directory>, steps: seq<Step>,
                                             i: nat)
    requires Stable(normalize) && IsRun(normalize, id, run, steps) && i < |run|
    ensures AllHonest(normalize, run[i])
  {
    if i > 0 {
      SeenAlways(normalize, id, run, steps, i - 1);
      InvAlways(normalize, id, run, steps, i - 1);
      FailuresAreHonest(normalize, id, run, steps, i - 1);
      RunStep(normalize, id, run, steps, i - 1);
      HonestStep(normalize, id, run[i - 1], steps[i - 1]);
    }
  }

  lemma NeverBlocks(normalize: Normalize, id: string, s: Directory, p: nat, w': Phase)
    requires Inv(id, s) && Seen(s) && AllHonest(normalize, s) && Enabled(s, Proceed(p))
    requires w' == Following(normalize, id, s, p)
    ensures w'.Returned? ==> w'.outcome != Ok(Blocked)
  {
    assert ViewSound(s.log, s.calls[p]);
    ReadsSucceed(normalize, id, s, s.calls[p]);
  }

  /** A view is blocked only by an I/O failure of its own, never by what another call does. */
  lemma BlockedOnlyByIo(normalize: Normalize, id: string, run: seq<Directory>, steps: seq<Step>, j: nat, p: nat)
    requires Stable(normalize) && IsRun(normalize, id, run, steps) && j < |steps| && steps[j] == Proceed(p)
    ensures p in run[j + 1].calls && run[j + 1].calls[p] != Returned(Ok(Blocked), run[j + 1].calls[p].Own())
  {
    SeenAlways(normalize, id, run, steps, j);
    InvAlways(normalize, id, run, steps, j);
    FailuresAreHonest(normalize, id, run, steps, j);
    RunStep(normalize, id, run, steps, j);
    NeverBlocks(normalize, id, run[j], p, run[j + 1].calls[p]);
  }
}
