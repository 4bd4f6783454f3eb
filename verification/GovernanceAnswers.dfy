/** What a call of the revision store answers: the value last stored into the cell its process shares. */
module GovernanceAnswers {

  import opened Wrappers
  import opened GovernanceStore
  import opened GovernanceProtocol
  import opened GovernanceViews

  // ---------------------------------------------------------------- the last store

  /** The value the answer is made of: what the cell holds when the call reads it. */
  function CellValue(s: Directory, p: nat): Option<Binding>
    requires p in s.callers
  {
    CellOf(s.cells, s.callers[p].process).value
  }

  /** The step stores a binding into the cell of `process`. */
  ghost predicate StoresInto(s: Directory, step: Step, process: nat) {
    && step.Proceed? && step.call in s.calls && step.call in s.callers && s.callers[step.call].process == process
    && (s.calls[step.call].Storing? || s.calls[step.call].Refreshing?)
  }

  function Stored(w: Phase): Option<Binding>
    requires w.Storing? || w.Refreshing?
  {
    if w.Storing? then Some(w.binding) else w.latest
  }

  /** Nothing else writes a cell, except a crash of its process. */
  lemma CellStep(normalize: Normalize, id: string, s: Directory, step: Step, process: nat)
    requires Enabled(s, step)
    ensures var cell, cell' := CellOf(s.cells, process), CellOf(Apply(normalize, id, s, step).cells, process);
      if StoresInto(s, step, process) then
        cell'.value == Stored(s.calls[step.call]) && cell'.writer == Some(step.call)
      else if step == Crash(process) then cell'.writer.None?
      else cell'.value == cell.value && cell'.writer == cell.writer
  {
  }

  ghost predicate StoresAt(run: seq<Directory>, steps: seq<Step>, k: nat, process: nat)
    requires |run| == |steps| + 1
  {
    k < |steps| && StoresInto(run[k], steps[k], process)
  }

  /** The phase of the call that stores in step `k`. */
  ghost function StorePhase(run: seq<Directory>, steps: seq<Step>, k: nat, process: nat): Phase
    requires |run| == |steps| + 1 && StoresAt(run, steps, k, process)
  {
    run[k].calls[steps[k].call]
  }

  ghost predicate LeavesAlone(run: seq<Directory>, steps: seq<Step>, m: nat, process: nat)
    requires |run| == |steps| + 1
  {
    !StoresAt(run, steps, m, process) && (m < |steps| ==> steps[m] != Crash(process))
  }

  /** Step `k` is the last one before `j` that stores into the cell of `process`, which has not crashed since. */
  ghost predicate LastStore(run: seq<Directory>, steps: seq<Step>, process: nat, k: nat, j: nat)
    requires |run| == |steps| + 1
  {
    k < j && StoresAt(run, steps, k, process) && forall m | k < m < j :: LeavesAlone(run, steps, m, process)
  }

  lemma {:induction false} CellIsLastStore(normalize: Normalize, id: string, run: seq<Directory>, steps: seq<Step>,
                                           process: nat, j: nat)
    returns (k: nat)
    requires IsRun(normalize, id, run, steps) && j < |run| && CellOf(run[j].cells, process).writer.Some?
    ensures LastStore(run, steps, process, k, j)
    ensures CellOf(run[j].cells, process).writer == Some(steps[k].call)
    ensures CellOf(run[j].cells, process).value == Stored(StorePhase(run, steps, k, process))
  {
    RunStep(normalize, id, run, steps, j - 1);
    CellStep(normalize, id, run[j - 1], steps[j - 1], process);
    if StoresAt(run, steps, j - 1, process) {
      k := j - 1;
    } else {
      k := CellIsLastStore(normalize, id, run, steps, process, j - 1);
    }
  }

  // ---------------------------------------------------------------- a call about to answer has refreshed

  lemma AnsweringStep(normalize: Normalize, id: string, s: Directory, step: Step, p: nat)
    requires Enabled(s, step)
    ensures var s' := Apply(normalize, id, s, step);
      p in s'.calls && s'.calls[p].Answering? ==>
        && p in s.calls
        && if s.calls[p].Answering? then
             s'.calls[p] == s.calls[p] && (p in s.callers ==> step != Crash(s.callers[p].process))
           else step == Proceed(p) && s.calls[p] == Refreshing(s'.calls[p].ask, s'.calls[p].read)
  {
    if step.Proceed? && step.call in s.calls {
      ProceedsToAnswer(normalize, id, s, step.call);
    }
  }

  lemma ProceedsToAnswer(normalize: Normalize, id: string, s: Directory, p: nat)
    requires p in s.calls && p in s.callers && s.calls[p].Active()
    ensures var w' := Following(normalize, id, s, p);
      w'.Answering? ==> s.calls[p] == Refreshing(w'.ask, w'.read)
  {
  }

  /** Step `o` is the refresh of the view that call `p` is about to answer in state `j`. */
  ghost predicate OwnRefresh(run: seq<Directory>, steps: seq<Step>, o: nat, j: nat, p: nat)
    requires |run| == |steps| + 1 && j < |run| && p in run[j].calls && run[j].calls[p].Answering?
  {
    && o < j && steps[o] == Proceed(p) && p in run[o].calls
    && run[o].calls[p] == Refreshing(run[j].calls[p].ask, run[j].calls[p].read)
    && forall m | o < m <= j :: p in run[m].calls && run[m].calls[p] == run[j].calls[p]
  }

  lemma {:induction false} HasRefreshed(normalize: Normalize, id: string, run: seq<Directory>, steps: seq<Step>,
                                        j: nat, p: nat)
    returns (o: nat)
    requires IsRun(normalize, id, run, steps) && j < |run| && p in run[j].calls && run[j].calls[p].Answering?
    ensures OwnRefresh(run, steps, o, j, p)
    ensures p in run[j].callers && CellOf(run[j].cells, run[j].callers[p].process).writer.Some?
  {
    RunStep(normalize, id, run, steps, j - 1);
    InvAlways(normalize, id, run, steps, j - 1);
    AnsweringStep(normalize, id, run[j - 1], steps[j - 1], p);
    var process := run[j - 1].callers[p].process;
    CallersStep(normalize, id, run[j - 1], steps[j - 1], p);
    CellStep(normalize, id, run[j - 1], steps[j - 1], process);
    if run[j - 1].calls[p].Answering? {
      o := HasRefreshed(normalize, id, run, steps, j - 1, p);
    } else {
      o := j - 1;
    }
  }

  // ---------------------------------------------------------------- what a refresh had listed

  /** In step `m` the call `q` reads the newest revision it has listed and goes on to refresh with it, as `w`. */
  ghost predicate PickedAt(run: seq<Directory>, steps: seq<Step>, m: nat, q: nat, w: Phase)
    requires |run| == |steps| + 1
  {
    && m < |steps| && steps[m] == Proceed(q) && q in run[m].calls && run[m].calls[q].Picking?
    && q in run[m + 1].calls && run[m + 1].calls[q] == w
  }

  lemma RefreshingStep(normalize: Normalize, id: string, s: Directory, step: Step, q: nat)
    requires Enabled(s, step)
    ensures var s' := Apply(normalize, id, s, step);
      q in s'.calls && s'.calls[q].Refreshing? ==>
        && q in s.calls
        && (s'.calls[q] == s.calls[q] || (step == Proceed(q) && s.calls[q].Picking?))
  {
    if step.Proceed? && step.call in s.calls {
      ProceedsToRefresh(normalize, id, s, step.call);
    }
  }

  lemma ProceedsToRefresh(normalize: Normalize, id: string, s: Directory, p: nat)
    requires p in s.calls && p in s.callers && s.calls[p].Active()
    ensures Following(normalize, id, s, p).Refreshing? ==> s.calls[p].Picking?
  {
  }

  lemma {:induction false} HasPicked(normalize: Normalize, id: string, run: seq<Directory>, steps: seq<Step>,
                                     k: nat, q: nat)
    returns (m: nat)
    requires IsRun(normalize, id, run, steps) && k < |run| && q in run[k].calls && run[k].calls[q].Refreshing?
    ensures m < k && PickedAt(run, steps, m, q, run[k].calls[q])
  {
    RunStep(normalize, id, run, steps, k - 1);
    RefreshingStep(normalize, id, run[k - 1], steps[k - 1], q);
    if run[k - 1].calls[q] == run[k].calls[q] {
      m := HasPicked(normalize, id, run, steps, k - 1, q);
    } else {
      m := k - 1;
    }
  }

  /** The names have the revision `r` and none newer. */
  ghost predicate IsNewest(names: set<string>, r: nat) {
    r in Revisions(names) && forall q | q in Revisions(names) :: q <= r
  }

  /** The names have a revision at least `n`, unless none is asked for. */
  ghost predicate HasSince(names: set<string>, n: nat) {
    n == 0 || exists r :: r in Revisions(names) && n <= r
  }

  lemma NewestSays(names: set<string>, n: nat)
    requires Revisions(names) == {} <==> NewestOf(names) == 0
    ensures n <= NewestOf(names) <==> HasSince(names, n)
    ensures n > 0 ==> (NewestOf(names) == n <==> IsNewest(names, n))
  {
    if Revisions(names) != {} {
      assert NewestOf(names) in Revisions(names);
    }
  }

  lemma PickedIsNewest(normalize: Normalize, id: string, run: seq<Directory>, steps: seq<Step>, m: nat, q: nat,
                       w: Phase)
    requires IsRun(normalize, id, run, steps) && PickedAt(run, steps, m, q, w) && w.Refreshing?
    ensures var names := run[m].calls[q].names;
      Revision(w.latest) == NewestOf(names) && (Revisions(names) == {} <==> NewestOf(names) == 0)
  {
    SeenAlways(normalize, id, run, steps, m);
    InvAlways(normalize, id, run, steps, m);
    RunStep(normalize, id, run, steps, m);
    PickingAsks(normalize, id, run[m], q, w);
    PickingFollows(normalize, id, run[m], q, w.latest);
    PickedRevision(normalize, id, run[m].files, run[m].log, run[m].calls[q], w.latest);
  }

  lemma PickingAsks(normalize: Normalize, id: string, s: Directory, p: nat, w: Phase)
    requires p in s.calls && p in s.callers && s.calls[p].Picking? && w.Refreshing?
    requires Following(normalize, id, s, p) == w
    ensures w.ask == s.calls[p].ask
  {
  }

  lemma PickedRevision(normalize: Normalize, id: string, files: Files, log: seq<Published>, w: Phase,
                       latest: Option<Binding>)
    requires FilesSound(files, id, log) && w.Picking? && ViewSound(log, w)
    requires ReadListed(normalize, id, w.names, files) == Ok(latest)
    ensures Revision(latest) == NewestOf(w.names) && (Revisions(w.names) == {} <==> NewestOf(w.names) == 0)
  {
    ListedIsVersion(normalize, id, files, log, w.names, w.ask.began);
    NewestListed(w.names, w.ask.began, |log|);
  }

  // ---------------------------------------------------------------- what decides the answer

  /** The store of step `k` is as new as `n`: the call had published such a revision, or had listed one. */
  ghost predicate StoredSince(run: seq<Directory>, steps: seq<Step>, k: nat, process: nat, n: nat)
    requires |run| == |steps| + 1 && StoresAt(run, steps, k, process)
  {
    var q, w := steps[k].call, StorePhase(run, steps, k, process);
    if w.Storing? then n <= w.binding.revision
    else exists m: nat :: m < k && PickedAt(run, steps, m, q, w) && HasSince(run[m].calls[q].names, n)
  }

  /** The store of step `k` is a refresh whose listing had revision `r` and nothing newer. */
  ghost predicate RefreshedTo(run: seq<Directory>, steps: seq<Step>, k: nat, process: nat, r: nat)
    requires |run| == |steps| + 1 && StoresAt(run, steps, k, process)
  {
    var q, w := steps[k].call, StorePhase(run, steps, k, process);
    w.Refreshing? && exists m: nat :: m < k && PickedAt(run, steps, m, q, w) && IsNewest(run[m].calls[q].names, r)
  }

  lemma StoreSays(normalize: Normalize, id: string, run: seq<Directory>, steps: seq<Step>, k: nat, process: nat, n: nat)
    requires IsRun(normalize, id, run, steps) && StoresAt(run, steps, k, process)
    ensures var w := StorePhase(run, steps, k, process);
      && (n <= Revision(Stored(w)) <==> StoredSince(run, steps, k, process, n))
      && (w.Refreshing? && n > 0 ==> (Revision(Stored(w)) == n <==> RefreshedTo(run, steps, k, process, n)))
  {
    var q, w := steps[k].call, StorePhase(run, steps, k, process);
    if w.Refreshing? {
      var m := HasPicked(normalize, id, run, steps, k, q);
      forall o: nat | o < k && PickedAt(run, steps, o, q, w)
        ensures n <= Revision(w.latest) <==> HasSince(run[o].calls[q].names, n)
        ensures n > 0 ==> (Revision(w.latest) == n <==> IsNewest(run[o].calls[q].names, n))
      {
        PickedIsNewest(normalize, id, run, steps, o, q, w);
        NewestSays(run[o].calls[q].names, n);
      }
    }
  }

  lemma AnswerFollows(normalize: Normalize, id: string, run: seq<Directory>, steps: seq<Step>, j: nat, p: nat)
    requires IsRun(normalize, id, run, steps) && j < |steps| && steps[j] == Proceed(p)
    requires p in run[j].calls && run[j].calls[p].Answering?
    ensures p in run[j].callers && p in run[j + 1].calls
    ensures run[j + 1].calls[p]
         == Returned(Answer(run[j].callers[p].request, CellValue(run[j], p)), run[j].calls[p].ask.own)
  {
    RunStep(normalize, id, run, steps, j);
    AnsweringReturns(normalize, id, run[j], p);
  }

  /** A call answers with what was last stored into the cell of its process, and that was stored by its own refresh
      or after it. */
  lemma AnswersLastStore(normalize: Normalize, id: string, run: seq<Directory>, steps: seq<Step>, j: nat, p: nat)
    returns (o: nat, k: nat)
    requires IsRun(normalize, id, run, steps) && j < |steps| && steps[j] == Proceed(p)
    requires p in run[j].calls && run[j].calls[p].Answering?
    ensures p in run[j].callers && OwnRefresh(run, steps, o, j, p) && o <= k
    ensures LastStore(run, steps, run[j].callers[p].process, k, j) && (steps[k].call == p ==> k == o)
    ensures CellValue(run[j], p) == Stored(StorePhase(run, steps, k, run[j].callers[p].process))
    ensures steps[k].call == p ==>
              && StorePhase(run, steps, k, run[j].callers[p].process).Refreshing?
              && CellValue(run[j], p) == run[j].calls[p].read
  {
    o := HasRefreshed(normalize, id, run, steps, j, p);
    k := CellIsLastStore(normalize, id, run, steps, run[j].callers[p].process, j);
    RefreshStores(normalize, id, run, steps, o, j, p);
    assert !LeavesAlone(run, steps, o, run[j].callers[p].process);
    assert o < k ==> run[k].calls[p] == run[j].calls[p];
  }

  lemma RefreshStores(normalize: Normalize, id: string, run: seq<Directory>, steps: seq<Step>, o: nat, j: nat, p: nat)
    requires IsRun(normalize, id, run, steps) && j < |steps|
    requires p in run[j].calls && run[j].calls[p].Answering? && OwnRefresh(run, steps, o, j, p)
    ensures p in run[j].callers && StoresAt(run, steps, o, run[j].callers[p].process)
  {
    RunStep(normalize, id, run, steps, o);
    CallersStay(normalize, id, run, steps, o, j, p);
  }

  /** A call answers with what was last stored into the cell of its process. That was the latest binding at some
      moment of its view if and only if the call that stored it had published or listed a revision as new as the
      view. */
  lemma AnswersExactly(normalize: Normalize, id: string, run: seq<Directory>, steps: seq<Step>, j: nat, p: nat)
    returns (i: nat, k: nat)
    requires IsRun(normalize, id, run, steps) && j < |steps| && steps[j] == Proceed(p)
    requires p in run[j].calls && run[j].calls[p].Answering?
    ensures p in run[j].callers && p in run[j + 1].calls && i <= j && BeganAt(run, i, p, run[j].calls[p].ask)
    ensures run[j + 1].calls[p].Returned? && run[j + 1].calls[p].own == run[j].calls[p].ask.own
    ensures !run[j].callers[p].request.Execute? ==> run[j + 1].calls[p].outcome == Ok(Showing(CellValue(run[j], p)))
    ensures LastStore(run, steps, run[j].callers[p].process, k, j)
    ensures CellValue(run[j], p) == Stored(StorePhase(run, steps, k, run[j].callers[p].process))
    ensures (exists m :: i <= m <= j && WasLatest(run[m], CellValue(run[j], p))) <==>
            StoredSince(run, steps, k, run[j].callers[p].process, |run[i].log|)
    ensures steps[k].call == p ==>
              CellValue(run[j], p) == run[j].calls[p].read && |run[i].log| <= Revision(CellValue(run[j], p))
  {
    AnswerFollows(normalize, id, run, steps, j, p);
    var o: nat;
    o, k := AnswersLastStore(normalize, id, run, steps, j, p);
    i := ViewBegan(normalize, id, run, steps, j, p);
    CallIsSound(normalize, id, run, steps, j, p);
    CellIsVersion(run[j], p);
    LatestDuring(normalize, id, run, steps, i, j, CellValue(run[j], p));
    StoreSays(normalize, id, run, steps, k, run[j].callers[p].process, |run[i].log|);
    assert ViewSound(run[j].log, run[j].calls[p]);
  }

  /** A view that no other call of its process has stored over since its own refresh is never stale: it shows what it
      has read. */
  lemma UndisturbedViewIsFresh(normalize: Normalize, id: string, run: seq<Directory>, steps: seq<Step>, o: nat,
                               j: nat, p: nat)
    returns (i: nat, m: nat)
    requires IsRun(normalize, id, run, steps) && j < |steps| && steps[j] == Proceed(p)
    requires p in run[j].calls && p in run[j].callers && run[j].calls[p].Answering?
    requires OwnRefresh(run, steps, o, j, p)
    requires forall k | o < k < j :: !StoresAt(run, steps, k, run[j].callers[p].process)
    ensures CellValue(run[j], p) == run[j].calls[p].read
    ensures i <= m <= j && BeganAt(run, i, p, run[j].calls[p].ask) && WasLatest(run[m], CellValue(run[j], p))
  {
    var a, k := AnswersLastStore(normalize, id, run, steps, j, p);
    assert k == o;
    i, m := ReadersSeeALatest(normalize, id, run, steps, j, p);
  }

  lemma OwnOfUpdate(log: seq<Published>, p: nat, request: Request, w: Phase)
    requires OwnSound(log, p, w) && RequestSound(request, w) && request.Update? && w.Answering?
    ensures 1 <= w.ask.own <= |log| && log[w.ask.own - 1].call == p
  {
  }

  lemma CellIsVersion(s: Directory, p: nat)
    requires CellsSound(s.log, s.cells) && p in s.callers
    ensures IsVersion(s.log, CellValue(s, p))
  {
  }

  lemma CallIsSound(normalize: Normalize, id: string, run: seq<Directory>, steps: seq<Step>, j: nat, p: nat)
    requires IsRun(normalize, id, run, steps) && j < |run| && p in run[j].calls
    ensures Numbered(run[j].log) && Seen(run[j]) && p in run[j].callers
    ensures OwnSound(run[j].log, p, run[j].calls[p]) && RequestSound(run[j].callers[p].request, run[j].calls[p])
  {
    InvAlways(normalize, id, run, steps, j);
    SeenAlways(normalize, id, run, steps, j);
    LogIsNumbered(id, run[j].files, run[j].log);
  }

  /** Another call of the process stores its own publication, which is not that of `p`. */
  lemma StoresAnother(normalize: Normalize, id: string, run: seq<Directory>, steps: seq<Step>, k: nat, j: nat,
                      process: nat, p: nat, own: nat)
    requires IsRun(normalize, id, run, steps) && k <= j < |run| && StoresAt(run, steps, k, process)
    requires StorePhase(run, steps, k, process).Storing? && steps[k].call != p
    requires 1 <= own <= |run[j].log| && run[j].log[own - 1].call == p
    ensures StorePhase(run, steps, k, process).binding.revision != own
  {
    CallIsSound(normalize, id, run, steps, k, steps[k].call);
    LogGrows(normalize, id, run, steps, k, j);
  }

  lemma LastStoreIsOwn(normalize: Normalize, id: string, run: seq<Directory>, steps: seq<Step>, k: nat, j: nat,
                       process: nat, p: nat, own: nat)
    requires IsRun(normalize, id, run, steps) && k <= j < |run| && StoresAt(run, steps, k, process)
    requires steps[k].call == p ==> StorePhase(run, steps, k, process).Refreshing?
    requires 1 <= own <= |run[j].log| && run[j].log[own - 1].call == p
    ensures Revision(Stored(StorePhase(run, steps, k, process))) == own <==> RefreshedTo(run, steps, k, process, own)
  {
    StoreSays(normalize, id, run, steps, k, process, own);
    if StorePhase(run, steps, k, process).Storing? {
      StoresAnother(normalize, id, run, steps, k, j, process, p, own);
    }
  }

  lemma OwnIsShown(normalize: Normalize, id: string, run: seq<Directory>, steps: seq<Step>, j: nat, p: nat, own: nat)
    requires IsRun(normalize, id, run, steps) && j < |run| && p in run[j].calls && run[j].calls[p].Answering?
    requires p in run[j].callers && run[j].callers[p].request.Update? && own == run[j].calls[p].ask.own
    ensures 1 <= own <= |run[j].log| && run[j].log[own - 1].call == p && own <= Revision(run[j].calls[p].read)
    ensures CellValue(run[j], p) == Some(run[j].log[own - 1].binding) <==> Revision(CellValue(run[j], p)) == own
  {
    CallIsSound(normalize, id, run, steps, j, p);
    OwnOfUpdate(run[j].log, p, run[j].callers[p].request, run[j].calls[p]);
    CellIsVersion(run[j], p);
    VersionIsOwn(run[j].log, CellValue(run[j], p), own);
    assert ViewSound(run[j].log, run[j].calls[p]);
  }

  /** An update shows its own binding if and only if the last store into the cell of its process before its answer
      was a refresh whose listing had its own revision and nothing newer. */
  lemma UpdateAnswersExactly(normalize: Normalize, id: string, run: seq<Directory>, steps: seq<Step>, j: nat, p: nat)
    returns (k: nat)
    requires IsRun(normalize, id, run, steps) && j < |steps| && steps[j] == Proceed(p)
    requires p in run[j].calls && run[j].calls[p].Answering?
    requires p in run[j].callers && run[j].callers[p].request.Update?
    ensures var s, own, process := run[j], run[j].calls[p].ask.own, run[j].callers[p].process;
      && 1 <= own <= |s.log| && s.log[own - 1].call == p
      && p in run[j + 1].calls && run[j + 1].calls[p] == Returned(Ok(Showing(CellValue(s, p))), own)
      && LastStore(run, steps, process, k, j)
      && (CellValue(s, p) == Some(s.log[own - 1].binding) <==> RefreshedTo(run, steps, k, process, own))
      && (steps[k].call == p ==> own <= Revision(CellValue(s, p)))
  {
    var own, process := run[j].calls[p].ask.own, run[j].callers[p].process;
    AnswerFollows(normalize, id, run, steps, j, p);
    OwnIsShown(normalize, id, run, steps, j, p, own);
    var o: nat;
    o, k := AnswersLastStore(normalize, id, run, steps, j, p);
    LastStoreIsOwn(normalize, id, run, steps, k, j, process, p, own);
  }

  // ---------------------------------------------------------------- executions

  /** What is executed is enabled: a call that executes returns an enabled binding or an error, never a view. */
  ghost predicate ExecutesEnabled(request: Request, w: Phase) {
    request.Execute? && w.Returned? && w.outcome.Ok? ==>
      && w.outcome.value.Showing? && w.outcome.value.binding.Some?
      && w.outcome.value.binding.value.config.enabled
  }

  ghost predicate AllEnabled(s: Directory) {
    forall p | p in s.calls && p in s.callers :: ExecutesEnabled(s.callers[p].request, s.calls[p])
  }

  lemma EnabledFollows(normalize: Normalize, id: string, s: Directory, p: nat)
    requires p in s.calls && p in s.callers && s.calls[p].Active()
    ensures ExecutesEnabled(s.callers[p].request, Following(normalize, id, s, p))
  {
  }

  lemma EnabledMoves(s: Directory, s': Directory, p: nat)
    requires AllEnabled(s) && s'.callers == s.callers && p in s.callers && p in s'.calls
    requires s'.calls == s.calls[p := s'.calls[p]] && ExecutesEnabled(s.callers[p].request, s'.calls[p])
    ensures AllEnabled(s')
  {
  }

  lemma EnabledStep(normalize: Normalize, id: string, s: Directory, step: Step)
    requires AllEnabled(s) && Enabled(s, step)
    ensures AllEnabled(Apply(normalize, id, s, step))
  {
    match step
    case Begin(p, process, request) =>
    case Proceed(p) =>
      EnabledFollows(normalize, id, s, p);
      EnabledMoves(s, Proceeded(s, p, Following(normalize, id, s, p)), p);
    case List(p, names) => EnabledMoves(s, Moved(s, p, Picking(s.calls[p].ask, names)), p);
    case Fail(p) => EnabledMoves(s, Moved(s, p, FailedPhase(s.callers[p].request, s.calls[p])), p);
    case Crash(process) =>
  }

  /** In every run nothing but an enabled binding is ever executed. */
  lemma {:induction false} OnlyEnabledExecutes(normalize: Normalize, id: string, run: seq<Directory>, steps: seq<Step>,
                                               i: nat)
    requires IsRun(normalize, id, run, steps) && i < |run|
    ensures AllEnabled(run[i])
  {
    if i > 0 {
      OnlyEnabledExecutes(normalize, id, run, steps, i - 1);
      RunStep(normalize, id, run, steps, i - 1);
      EnabledStep(normalize, id, run[i - 1], steps[i - 1]);
    }
  }

  /** An execution returns the last stored binding if it is enabled, says that it is disabled exactly if it is not, and
      that there is none exactly if none was stored. */
  lemma ExecutesExactly(normalize: Normalize, id: string, run: seq<Directory>, steps: seq<Step>, j: nat, p: nat)
    returns (k: nat)
    requires IsRun(normalize, id, run, steps) && j < |steps| && steps[j] == Proceed(p)
    requires p in run[j].calls && run[j].calls[p].Answering?
    requires p in run[j].callers && run[j].callers[p].request.Execute?
    ensures LastStore(run, steps, run[j].callers[p].process, k, j)
    ensures p in run[j + 1].calls && run[j + 1].calls[p].Returned?
    ensures var v, o := Stored(StorePhase(run, steps, k, run[j].callers[p].process)), run[j + 1].calls[p].outcome;
      && (o == Err(NotConfigured) <==> v.None?)
      && (o == Err(Disabled) <==> v.Some? && !v.value.config.enabled)
      && (o.Ok? <==> v.Some? && v.value.config.enabled)
      && (o.Ok? ==> o.value == Showing(v))
  {
    AnswerFollows(normalize, id, run, steps, j, p);
    var o: nat;
    o, k := AnswersLastStore(normalize, id, run, steps, j, p);
  }

  /** An I/O failure of a view shows as a blocked view; of an execution, or of an update that has not come to its view,
      as an error. */
  lemma FailsExactly(normalize: Normalize, id: string, run: seq<Directory>, steps: seq<Step>, i: nat, p: nat)
    requires IsRun(normalize, id, run, steps) && i < |steps| && steps[i] == Fail(p)
    ensures p in run[i].calls && p in run[i].callers && p in run[i + 1].calls && run[i + 1].calls[p].Returned?
    ensures run[i + 1].calls[p].outcome == Ok(Blocked) <==>
            run[i].calls[p].Viewing() && !run[i].callers[p].request.Execute?
    ensures run[i + 1].calls[p].outcome == Err(Io) <==>
            !run[i].calls[p].Viewing() || run[i].callers[p].request.Execute?
  {
    RunStep(normalize, id, run, steps, i);
  }
}
