/**
 The worker pool that reviews one patchset: a main worker and up to one extra worker per spare permit take
 jobs off a shared stack, stop early when the review window closes, and the coordinator adds up the failures.
 Every step is atomic; a run is any interleaving of the steps that are enabled.
 */
module Scheduler {
  import opened Tables

  /** How the review of one patch ended. */
  datatype Outcome = Succeeded | Paused | ReviewFailed

  /** Where a worker stands in its loop: before the pause check, before the pop, reviewing a job, or out. */
  datatype Worker = Checking(failed: nat) | Popping(failed: nat) | Busy(job: nat, failed: nat) | Exited(failed: nat)

  /** Where the coordinator stands: spawning extra workers, working, adding up the tallies, or writing the status. */
  datatype Phase = TrySpawn | CheckSpawn | Working | Joining(next: nat, tally: nat) | Deciding(tally: nat)
                 | Writing(seen: Status, tally: nat) | Done

  /**
   Jobs are numbered in their original order. `queue` is the reversed vector, popped at its end. Worker 0 is the
   main worker, whose permit was taken before the coordinator started; `free` counts permits nobody holds and `others`
   those held by other coordinators. `popped` and `results` record what happened.
   */
  datatype State = State(
    jobs: nat,
    queue: seq<nat>,
    workers: seq<Worker>,
    paused: bool,
    phase: Phase,
    free: nat,
    others: nat,
    status: Status,
    popped: seq<nat>,
    results: map<nat, Outcome>)

  datatype Action =
    | Acquire              // try_acquire_owned succeeds: one more worker
    | GiveUp               // try_acquire_owned fails: the main worker starts
    | CompareRemaining     // enough workers for the remaining jobs?
    | Check(w: nat)        // read the pause flag
    | Pop(w: nat)          // take a job under the lock
    | Finish(w: nat, outcome: Outcome)
    | Join                 // await the next handle
    | Decide               // all handles awaited: look at the pause flag, then at the stored status
    | Write                // store the final status
    | OtherTakes           // another coordinator acquires a permit
    | OtherReturns
    | OtherWrites(status: Status)   // a cancellation, a rerun, or any other update of the row

  /** The jobs 0..n-1, last first. */
  function Reversed(n: nat): (q: seq<nat>)
    ensures |q| == n && forall i :: 0 <= i < n ==> q[i] == n - 1 - i
  {
    seq(n, i requires 0 <= i < n => n - 1 - i)
  }

  /** The coordinator once the jobs are queued. `patches` counts all patches of the set, skipped ones included. */
  function Start(jobs: nat, patches: nat, free: nat, others: nat): State {
    State(jobs, Reversed(jobs), [Checking(0)], false,
          if patches >= 10 && jobs > 1 then TrySpawn else Working,
          free, others, InReview, [], map[])
  }

  predicate Started(phase: Phase) {
    !phase.TrySpawn? && !phase.CheckSpawn?
  }

  predicate MayStep(s: State, w: nat) {
    w < |s.workers| && (w == 0 ==> Started(s.phase))
  }

  predicate Enabled(s: State, a: Action) {
    match a
    case Acquire => s.phase.TrySpawn? && s.free > 0
    case GiveUp => s.phase.TrySpawn? && s.free == 0
    case CompareRemaining => s.phase.CheckSpawn?
    case Check(w) => MayStep(s, w) && s.workers[w].Checking?
    case Pop(w) => MayStep(s, w) && s.workers[w].Popping?
    case Finish(w, _) => MayStep(s, w) && s.workers[w].Busy?
    case Join => (s.phase.Working? && s.workers != [] && s.workers[0].Exited?)
                 || (s.phase.Joining? && s.phase.next < |s.workers| && s.workers[s.phase.next].Exited?)
    case Decide => (s.phase.Joining? && s.phase.next == |s.workers|) || s.phase.Deciding?
    case Write => s.phase.Writing?
    case OtherTakes => s.free > 0
    case OtherReturns => s.others > 0
    case OtherWrites(_) => true
  }

  /** An extra worker drops its permit when it leaves its loop; the main worker's permit outlives the coordinator. */
  function Leave(s: State, w: nat, failed: nat): State
    requires w < |s.workers|
  {
    s.(workers := s.workers[w := Exited(failed)], free := if w > 0 then s.free + 1 else s.free)
  }

  function Record(s: State, job: nat, o: Outcome): State {
    s.(results := s.results[job := o], paused := s.paused || o.Paused?)
  }

  function Apply(s: State, a: Action): State
    requires Enabled(s, a)
  {
    match a
    case Acquire => s.(free := s.free - 1, workers := s.workers + [Checking(0)], phase := CheckSpawn)
    case GiveUp => s.(phase := Working)
    case CompareRemaining => s.(phase := if |s.queue| <= |s.workers| - 1 then Working else TrySpawn)
    case Check(w) =>
      if s.paused then Leave(s, w, s.workers[w].failed)
      else s.(workers := s.workers[w := Popping(s.workers[w].failed)])
    case Pop(w) =>
      if s.queue == [] then Leave(s, w, s.workers[w].failed) else
        var job := s.queue[|s.queue| - 1];
        s.(queue := s.queue[..|s.queue| - 1], popped := s.popped + [job],
           workers := s.workers[w := Busy(job, s.workers[w].failed)])
    case Finish(w, o) =>
      var s1 := Record(s, s.workers[w].job, o);
      var failed := s.workers[w].failed;
      (match o
       case Succeeded => s1.(workers := s1.workers[w := Checking(failed)])
       case ReviewFailed => s1.(workers := s1.workers[w := Checking(failed + 1)])
       case Paused => Leave(s1, w, failed))
    case Join =>
      if s.phase.Working? then s.(phase := Joining(1, s.workers[0].failed))
      else s.(phase := Joining(s.phase.next + 1, s.phase.tally + s.workers[s.phase.next].failed))
    case Decide =>
      if s.phase.Joining? then
        (if s.paused then s.(status := Pending, phase := Done) else s.(phase := Deciding(s.phase.tally)))
      else s.(phase := Writing(s.status, s.phase.tally))
    case Write =>
      if s.phase.seen == Cancelled then s.(phase := Done)
      else s.(status := if s.phase.tally == 0 then Reviewed else Failed, phase := Done)
    case OtherTakes => s.(free := s.free - 1, others := s.others + 1)
    case OtherReturns => s.(free := s.free + 1, others := s.others - 1)
    case OtherWrites(status) => s.(status := status)
  }

  /** The states a run passes through: each action was enabled where it was taken. */
  ghost predicate IsRun(run: seq<State>, actions: seq<Action>) {
    && |run| == |actions| + 1
    && (exists jobs, patches, free, others :: run[0] == Start(jobs, patches, free, others))
    && forall i :: 0 <= i < |actions| ==> Enabled(run[i], actions[i]) && run[i + 1] == Apply(run[i], actions[i])
  }

  // ---------------------------------------------------------------- the invariant

  /** Pops come out in original order, each once, and what is not popped is still queued. */
  ghost predicate Conserved(s: State) {
    && |s.popped| + |s.queue| == s.jobs
    && (forall i :: 0 <= i < |s.popped| ==> s.popped[i] == i)
    && (forall i :: 0 <= i < |s.queue| ==> s.queue[i] == s.jobs - 1 - i)
  }

  /** A popped job has a result, or is being reviewed by exactly one worker. */
  ghost predicate Accounted(s: State) {
    && (forall j :: j in s.results ==> j < |s.popped|)
    && (forall w :: 0 <= w < |s.workers| && s.workers[w].Busy? ==>
                    s.workers[w].job < |s.popped| && s.workers[w].job !in s.results)
    && (forall v, w :: 0 <= v < w < |s.workers| && s.workers[v].Busy? && s.workers[w].Busy? ==>
                       s.workers[v].job != s.workers[w].job)
    && (forall j: nat :: j < |s.popped| ==> j in s.results || InHand(s, j))
  }

  ghost predicate InHand(s: State, j: nat) {
    exists w :: 0 <= w < |s.workers| && s.workers[w].Busy? && s.workers[w].job == j
  }

  /** The pause flag is up exactly when some review was paused. */
  ghost predicate PauseExplained(s: State) {
    s.paused <==> exists j :: j in s.results && s.results[j].Paused?
  }

  /** Without a pause a worker leaves only when the queue is empty. */
  ghost predicate LeavesExplained(s: State) {
    forall w :: 0 <= w < |s.workers| && s.workers[w].Exited? ==> s.paused || s.queue == []
  }

  function Failures(workers: seq<Worker>): nat {
    if workers == [] then 0 else Failures(workers[..|workers| - 1]) + workers[|workers| - 1].failed
  }

  function FailedJobs(results: map<nat, Outcome>): set<nat> {
    set j | j in results && results[j].ReviewFailed?
  }

  /** The workers' tallies add up to the number of failed jobs. */
  ghost predicate Tallied(s: State) {
    Failures(s.workers) == |FailedJobs(s.results)|
  }

  function Permits(workers: seq<Worker>): nat {
    if workers == [] then 0
    else Permits(workers[..|workers| - 1]) + (if |workers| > 1 && workers[|workers| - 1].Exited? then 0 else 1)
  }

  /** The coordinator has joined what it counts, and only workers that are out have been joined. */
  ghost predicate Joined(s: State) {
    && |s.workers| >= 1
    && (!Started(s.phase) ==> s.workers[0] == Checking(0))
    && (s.phase.Joining? ==> JoinedSoFar(s, s.phase.next) && s.phase.tally == Failures(s.workers[..s.phase.next]))
    && (s.phase.Deciding? || s.phase.Writing? ==> AllOut(s) && s.phase.tally == Failures(s.workers) && !s.paused)
    && (s.phase.Done? ==> AllOut(s))
  }

  ghost predicate JoinedSoFar(s: State, next: nat) {
    1 <= next <= |s.workers| && forall w :: 0 <= w < next ==> s.workers[w].Exited?
  }

  ghost predicate AllOut(s: State) {
    forall w :: 0 <= w < |s.workers| ==> s.workers[w].Exited?
  }

  /** There are never more extra workers than jobs. */
  ghost predicate Bounded(s: State) {
    && |s.workers| - 1 <= s.jobs
    && (s.phase.TrySpawn? ==> |s.workers| - 1 < s.jobs)
  }

  ghost predicate Inv(s: State) {
    Conserved(s) && Accounted(s) && PauseExplained(s) && LeavesExplained(s) && Tallied(s) && Joined(s) && Bounded(s)
  }

  // ---------------------------------------------------------------- every step keeps it

  lemma FailuresUpdate(ws: seq<Worker>, w: nat, x: Worker)
    requires w < |ws|
    ensures Failures(ws[w := x]) == Failures(ws) - ws[w].failed + x.failed
  {
    var ws' := ws[w := x];
    if w == |ws| - 1 {
      assert ws'[..|ws| - 1] == ws[..|ws| - 1];
    } else {
      FailuresUpdate(ws[..|ws| - 1], w, x);
      assert ws'[..|ws| - 1] == ws[..|ws| - 1][w := x];
    }
  }

  lemma FailuresAppend(ws: seq<Worker>, x: Worker)
    ensures Failures(ws + [x]) == Failures(ws) + x.failed
  {
    assert (ws + [x])[..|ws|] == ws;
  }

  lemma PermitsUpdate(ws: seq<Worker>, w: nat, x: Worker)
    requires w < |ws|
    ensures Permits(ws[w := x]) == Permits(ws) - (if w > 0 && ws[w].Exited? then 0 else 1)
                                               + (if w > 0 && x.Exited? then 0 else 1)
  {
    var ws' := ws[w := x];
    if w == |ws| - 1 {
      assert ws'[..|ws| - 1] == ws[..|ws| - 1];
    } else {
      PermitsUpdate(ws[..|ws| - 1], w, x);
      assert ws'[..|ws| - 1] == ws[..|ws| - 1][w := x];
    }
  }

  lemma FailedJobsRecord(results: map<nat, Outcome>, j: nat, o: Outcome)
    requires j !in results
    ensures |FailedJobs(results[j := o])| == |FailedJobs(results)| + (if o.ReviewFailed? then 1 else 0)
  {
    assert FailedJobs(results[j := o]) == FailedJobs(results) + (if o.ReviewFailed? then {j} else {});
  }

  lemma StartInv(jobs: nat, patches: nat, free: nat, others: nat)
    ensures Inv(Start(jobs, patches, free, others))
  {
    var s := Start(jobs, patches, free, others);
    assert FailedJobs(s.results) == {};
    assert s.workers[..|s.workers| - 1] == [];
  }

  lemma PopKeeps(s: State, w: nat)
    requires Inv(s) && Enabled(s, Pop(w))
    ensures Inv(Apply(s, Pop(w)))
  {
    FailuresUpdate(s.workers, w, Apply(s, Pop(w)).workers[w]);
    if s.queue != [] { PopAccounts(s, w); } else { InHandKept(s, Apply(s, Pop(w)), w); }
  }

  /** The popped job is now in the worker's hand, and no other job has moved. */
  lemma PopAccounts(s: State, w: nat)
    requires Conserved(s) && Accounted(s) && Enabled(s, Pop(w)) && s.queue != []
    ensures Conserved(Apply(s, Pop(w))) && Accounted(Apply(s, Pop(w)))
  {
    var s' := Apply(s, Pop(w));
    var job := s.queue[|s.queue| - 1];
    assert s'.popped == s.popped + [job] && s'.results == s.results;
    forall j: nat | j < |s'.popped| ensures j in s'.results || InHand(s', j) {
      if j == job { assert s'.workers[w].Busy? && s'.workers[w].job == j; } else { InHandKept(s, s', w); }
    }
  }

  /** Replacing a worker that has no job in hand leaves every other job where it was. */
  lemma InHandKept(s: State, s': State, w: nat)
    requires w < |s.workers| == |s'.workers| && s'.workers == s.workers[w := s'.workers[w]]
    requires !s.workers[w].Busy?
    ensures forall j: nat :: InHand(s, j) ==> InHand(s', j)
  {
    forall j: nat | InHand(s, j) ensures InHand(s', j) {
      var v :| 0 <= v < |s.workers| && s.workers[v].Busy? && s.workers[v].job == j;
      assert s'.workers[v].Busy? && s'.workers[v].job == j;
    }
  }

  lemma FinishKeeps(s: State, w: nat, o: Outcome)
    requires Inv(s) && Enabled(s, Finish(w, o))
    ensures Inv(Apply(s, Finish(w, o)))
  {
    FailuresUpdate(s.workers, w, Apply(s, Finish(w, o)).workers[w]);
    FailedJobsRecord(s.results, s.workers[w].job, o);
    FinishAccounts(s, w, o);
    FinishExplains(s, w, o);
  }

  /** The finished job has its result, and no other job has moved. */
  lemma FinishAccounts(s: State, w: nat, o: Outcome)
    requires Accounted(s) && Enabled(s, Finish(w, o))
    ensures Accounted(Apply(s, Finish(w, o)))
  {
    var s' := Apply(s, Finish(w, o));
    var job := s.workers[w].job;
    assert s'.results == s.results[job := o] && s'.popped == s.popped;
    forall j: nat | j < |s'.popped| ensures j in s'.results || InHand(s', j) {
      if j != job && j !in s.results {
        assert InHand(s, j);
        var v :| 0 <= v < |s.workers| && s.workers[v].Busy? && s.workers[v].job == j;
        assert s'.workers[v].Busy? && s'.workers[v].job == j;
      }
    }
  }

  lemma FinishExplains(s: State, w: nat, o: Outcome)
    requires Accounted(s) && PauseExplained(s) && Enabled(s, Finish(w, o))
    ensures PauseExplained(Apply(s, Finish(w, o)))
  {
    var s' := Apply(s, Finish(w, o));
    var job := s.workers[w].job;
    assert s'.results[job] == o;
    if s.paused {
      var j :| j in s.results && s.results[j].Paused?;
      assert j in s'.results && s'.results[j].Paused?;
    }
    if j :| j in s'.results && s'.results[j].Paused? {
      assert j == job || (j in s.results && s.results[j].Paused?);
    }
  }

  lemma CheckKeeps(s: State, w: nat)
    requires Inv(s) && Enabled(s, Check(w))
    ensures Inv(Apply(s, Check(w)))
  {
    var s' := Apply(s, Check(w));
    FailuresUpdate(s.workers, w, s'.workers[w]);
    InHandKept(s, s', w);
  }

  lemma AcquireKeeps(s: State)
    requires Inv(s) && Enabled(s, Acquire)
    ensures Inv(Apply(s, Acquire))
  {
    var s' := Apply(s, Acquire);
    FailuresAppend(s.workers, Checking(0));
    forall j: nat | InHand(s, j) ensures InHand(s', j) {
      var v :| 0 <= v < |s.workers| && s.workers[v].Busy? && s.workers[v].job == j;
      assert s'.workers[v].Busy? && s'.workers[v].job == j;
    }
  }

  /** What a step that leaves workers, queue and results alone keeps without more ado. */
  lemma BookkeepingKept(s: State, s': State)
    requires Inv(s)
    requires s' == s.(phase := s'.phase, free := s'.free, others := s'.others, status := s'.status)
    ensures Conserved(s') && Accounted(s') && PauseExplained(s') && LeavesExplained(s') && Tallied(s')
  {
    forall j: nat | InHand(s, j) ensures InHand(s', j) {
      var v :| 0 <= v < |s.workers| && s.workers[v].Busy? && s.workers[v].job == j;
      assert s'.workers[v].Busy? && s'.workers[v].job == j;
    }
  }

  lemma JoinKeeps(s: State)
    requires Inv(s) && Enabled(s, Join)
    ensures Inv(Apply(s, Join))
  {
    var s' := Apply(s, Join);
    BookkeepingKept(s, s');
    var n := s'.phase.next;
    assert s.workers[..n] == s.workers[..n - 1] + [s.workers[n - 1]];
    FailuresAppend(s.workers[..n - 1], s.workers[n - 1]);
    assert s.phase.Working? ==> s.workers[..0] == [];
    assert JoinedSoFar(s', n);
  }

  lemma OtherStepKeeps(s: State, a: Action)
    requires Inv(s) && Enabled(s, a)
    requires a.GiveUp? || a.CompareRemaining? || a.Decide? || a.Write?
          || a.OtherTakes? || a.OtherReturns? || a.OtherWrites?
    ensures Inv(Apply(s, a))
  {
    BookkeepingKept(s, Apply(s, a));
    assert s.workers[..|s.workers|] == s.workers;
  }

  lemma StepKeeps(s: State, a: Action)
    requires Inv(s) && Enabled(s, a)
    ensures Inv(Apply(s, a))
  {
    match a
    case Acquire => AcquireKeeps(s);
    case Check(w) => CheckKeeps(s, w);
    case Pop(w) => PopKeeps(s, w);
    case Finish(w, o) => FinishKeeps(s, w, o);
    case Join => JoinKeeps(s);
    case _ => OtherStepKeeps(s, a);
  }

  /** Permits held and free permits always add up to the same total. */
  lemma PermitsConserved(s: State, a: Action)
    requires Inv(s) && Enabled(s, a)
    ensures var s' := Apply(s, a);
            s'.free + s'.others + Permits(s'.workers) == s.free + s.others + Permits(s.workers)
  {
    var s' := Apply(s, a);
    match a
    case Acquire => assert s'.workers[..|s.workers|] == s.workers;
    case Check(w) => PermitsUpdate(s.workers, w, s'.workers[w]);
    case Pop(w) => PermitsUpdate(s.workers, w, s'.workers[w]);
    case Finish(w, o) => PermitsUpdate(s.workers, w, s'.workers[w]);
    case _ =>
  }

  // ---------------------------------------------------------------- whole runs

  /**
   In every interleaving: pops come out in the original order and are, with the queue, exactly the valid jobs;
   every popped job has one result or one worker; extra workers never outnumber the jobs; and permits held plus
   free permits equal what there was at the start.
   */
  lemma {:induction false} RunInvariant(run: seq<State>, actions: seq<Action>, i: nat)
    requires IsRun(run, actions) && i < |run|
    ensures Inv(run[i])
    ensures run[i].jobs == run[0].jobs
    ensures run[i].free + run[i].others + Permits(run[i].workers) == run[0].free + run[0].others + 1
  {
    if i == 0 {
      var jobs, patches, free, others :| run[0] == Start(jobs, patches, free, others);
      StartInv(jobs, patches, free, others);
      assert run[0].workers[..0] == [];
    } else {
      RunInvariant(run, actions, i - 1);
      assert Enabled(run[i - 1], actions[i - 1]) && run[i] == Apply(run[i - 1], actions[i - 1]);
      StepKeeps(run[i - 1], actions[i - 1]);
      PermitsConserved(run[i - 1], actions[i - 1]);
    }
  }

  /** All jobs have a result, and no review is still running. */
  ghost predicate AllReviewed(s: State) {
    s.queue == [] && forall j: nat :: j in s.results <==> j < s.jobs
  }

  lemma QuietMeansReviewed(s: State)
    requires Inv(s) && !s.paused && AllOut(s)
    ensures AllReviewed(s)
  {
    assert s.workers[0].Exited?;
    forall j: nat | j < s.jobs ensures j in s.results {
      assert j in s.results || InHand(s, j);
    }
  }

  /**
   When the coordinator writes a verdict, every job was reviewed and none paused; the verdict is `Reviewed` exactly
   when every review succeeded, else `Failed`; and a cancellation the coordinator has seen is left in place.
   */
  lemma RunVerdict(run: seq<State>, actions: seq<Action>, i: nat)
    requires IsRun(run, actions) && i < |actions| && actions[i] == Write
    ensures AllReviewed(run[i]) && !run[i].paused
    ensures run[i].phase.seen == Cancelled ==> run[i + 1].status == run[i].status
    ensures run[i].phase.seen != Cancelled ==>
              run[i + 1].status == if forall j: nat :: j < run[i].jobs ==> run[i].results[j].Succeeded?
                                   then Reviewed else Failed
  {
    RunInvariant(run, actions, i);
    var s := run[i];
    assert Enabled(s, actions[i]) && run[i + 1] == Apply(s, actions[i]);
    QuietMeansReviewed(s);
    assert s.phase.tally == |FailedJobs(s.results)|;
    if forall j: nat :: j < s.jobs ==> s.results[j].Succeeded? {
      assert FailedJobs(s.results) == {};
    } else {
      var j: nat :| j < s.jobs && !s.results[j].Succeeded?;
      assert !s.results[j].Paused?;
      assert j in FailedJobs(s.results);
    }
  }

  /** When the window closed on some review, the patchset goes back to `Pending` and the coordinator is done. */
  lemma RunPaused(run: seq<State>, actions: seq<Action>, i: nat)
    requires IsRun(run, actions) && i < |actions| && actions[i] == Decide && run[i].phase.Joining?
    ensures run[i].paused <==> exists j :: j in run[i].results && run[i].results[j].Paused?
    ensures run[i].paused ==> run[i + 1].status == Pending && run[i + 1].phase == Done
    ensures !run[i].paused ==> AllReviewed(run[i]) && run[i + 1].status == run[i].status
  {
    RunInvariant(run, actions, i);
    assert Enabled(run[i], actions[i]) && run[i + 1] == Apply(run[i], actions[i]);
    if !run[i].paused { QuietMeansReviewed(run[i]); }
  }

  // ---------------------------------------------------------------- what the pause flag stops

  /** A worker that has not yet passed its check of the pause flag, or that has left. */
  predicate Stopped(w: Worker) {
    w.Checking? || w.Exited?
  }

  /** The workers that have passed the check and not yet taken a job. */
  function PastCheck(workers: seq<Worker>): set<nat> {
    set w: nat | w < |workers| && workers[w].Popping?
  }

  lemma PastCheckSubset(before: seq<Worker>, after: seq<Worker>, gone: set<nat>)
    requires PastCheck(after) <= PastCheck(before) - gone && gone <= PastCheck(before)
    ensures |PastCheck(after)| + |gone| <= |PastCheck(before)|
  {
    SubsetSize(PastCheck(after), PastCheck(before) - gone);
    SubsetSize(gone, PastCheck(before));
    assert PastCheck(before) - gone + gone == PastCheck(before);
  }

  lemma {:induction false} SubsetSize<T>(a: set<T>, b: set<T>)
    requires a <= b
    ensures |a| <= |b|
  {
    assert b == a + (b - a);
  }

  /** From s to s', both paused: who had stopped stays stopped, and each job taken uses up a worker past the check. */
  ghost predicate OnlyFinishing(s: State, s': State) {
    && s'.paused && |s.workers| <= |s'.workers|
    && (forall w: nat :: w < |s'.workers| && (w < |s.workers| ==> Stopped(s.workers[w])) ==> Stopped(s'.workers[w]))
    && |s'.popped| + |PastCheck(s'.workers)| <= |s.popped| + |PastCheck(s.workers)|
  }

  lemma PausedStep(run: seq<State>, actions: seq<Action>, k: nat)
    requires IsRun(run, actions) && k < |actions| && run[k].paused
    ensures OnlyFinishing(run[k], run[k + 1])
  {
    var (s, a) := (run[k], actions[k]);
    assert Enabled(s, a) && run[k + 1] == Apply(s, a);
    PastCheckSubset(s.workers, Apply(s, a).workers, if a.Pop? then {a.w} else {});
  }

  lemma OnlyFinishingTrans(s: State, t: State, u: State)
    requires OnlyFinishing(s, t) && OnlyFinishing(t, u)
    ensures OnlyFinishing(s, u)
  {
  }

  lemma {:induction false} StaysPaused(run: seq<State>, actions: seq<Action>, i: nat, j: nat)
    requires IsRun(run, actions) && i <= j < |run| && run[i].paused
    ensures run[j].paused
    decreases j
  {
    if i < j {
      StaysPaused(run, actions, i, j - 1);
      PausedStep(run, actions, j - 1);
    }
  }

  lemma {:induction false} FinishingOn(run: seq<State>, i: nat, j: nat)
    requires i <= j < |run| && run[i].paused
    requires forall k :: i <= k < j ==> OnlyFinishing(run[k], run[k + 1])
    ensures OnlyFinishing(run[i], run[j])
    decreases j
  {
    if i < j {
      FinishingOn(run, i, j - 1);
      assert OnlyFinishing(run[j - 1], run[j - 1 + 1]);
      OnlyFinishingTrans(run[i], run[j - 1], run[j]);
    }
  }

  /**
   In every interleaving, once the pause flag is up at i, a worker that had not passed its check then, or was not
   there yet, never takes another job; and no more jobs are taken than there were workers between check and pop.
   */
  lemma PauseStopsWorkers(run: seq<State>, actions: seq<Action>, i: nat, j: nat)
    requires IsRun(run, actions) && i <= j < |run| && run[i].paused
    ensures OnlyFinishing(run[i], run[j])
  {
    forall k | i <= k < j ensures OnlyFinishing(run[k], run[k + 1]) {
      StaysPaused(run, actions, i, k);
      PausedStep(run, actions, k);
    }
    FinishingOn(run, i, j);
  }

  // ---------------------------------------------------------------- how many workers there are

  lemma {:induction false} SmallSetsSpawnNone(run: seq<State>, actions: seq<Action>, i: nat)
    requires IsRun(run, actions) && i < |run| && Started(run[0].phase) && |run[0].workers| == 1
    ensures Started(run[i].phase) && |run[i].workers| == 1
  {
    if i > 0 {
      SmallSetsSpawnNone(run, actions, i - 1);
      assert Enabled(run[i - 1], actions[i - 1]) && run[i - 1 + 1] == Apply(run[i - 1], actions[i - 1]);
    }
  }

  /**
   Extra workers are only taken on for ten patches or more with two jobs or more; then the coordinator goes on until
   no permit is free, or the extra workers are as many as the jobs still queued.
   */
  lemma RunSpawns(run: seq<State>, actions: seq<Action>, jobs: nat, patches: nat, free: nat, others: nat, i: nat)
    requires IsRun(run, actions) && i < |run| && run[0] == Start(jobs, patches, free, others)
    ensures !(patches >= 10 && jobs > 1) ==> Started(run[i].phase) && |run[i].workers| == 1
    ensures patches >= 10 && jobs > 1 ==> !Started(run[0].phase)
    ensures i < |actions| && !Started(run[i].phase) && Started(run[i + 1].phase) ==>
              if run[i].phase.TrySpawn? then run[i].free == 0 else |run[i].queue| <= |run[i].workers| - 1
  {
    if !(patches >= 10 && jobs > 1) { SmallSetsSpawnNone(run, actions, i); }
    if i < |actions| { assert Enabled(run[i], actions[i]) && run[i + 1] == Apply(run[i], actions[i]); }
  }

  // ---------------------------------------------------------------- what becomes of a cancellation

  /** A verdict is about to be written on a status that was read before the cancellation. */
  predicate Racing(s: State) {
    s.phase.Writing? && s.phase.seen != Cancelled
  }

  /** Where a cancellation that stood with `racing` as the only threat can be now. */
  ghost predicate CancelState(s: State, racing: bool) {
    if s.phase.Done? then s.status == Cancelled <==> !s.paused && !racing
    else s.status == Cancelled && (Racing(s) <==> racing)
  }

  lemma CancelStep(s: State, a: Action, racing: bool)
    requires Inv(s) && Enabled(s, a) && CancelState(s, racing) && !a.OtherWrites?
    ensures CancelState(Apply(s, a), racing)
  {
  }

  /** Point k of a run passes the cancellation's state on to the next. */
  ghost predicate PassesOn(run: seq<State>, k: nat, racing: bool)
    requires k + 1 < |run|
  {
    CancelState(run[k], racing) ==> CancelState(run[k + 1], racing)
  }

  lemma RunPassesOn(run: seq<State>, actions: seq<Action>, k: nat, racing: bool)
    requires IsRun(run, actions) && k < |actions| && !actions[k].OtherWrites?
    ensures PassesOn(run, k, racing)
  {
    RunInvariant(run, actions, k);
    assert Enabled(run[k], actions[k]) && run[k + 1] == Apply(run[k], actions[k]);
    if CancelState(run[k], racing) { CancelStep(run[k], actions[k], racing); }
  }

  lemma {:induction false} PassedOn(run: seq<State>, i: nat, n: nat, racing: bool)
    requires i <= n < |run| && CancelState(run[i], racing)
    requires forall k :: i <= k < n ==> PassesOn(run, k, racing)
    ensures CancelState(run[n], racing)
    decreases n
  {
    if i < n {
      PassedOn(run, i, n - 1, racing);
      assert PassesOn(run, n - 1, racing);
    }
  }

  /**
   In every interleaving, a cancellation that arrives while the patchset is being reviewed, and is not itself
   overwritten from outside, is what the row says in the end exactly when no review paused and the coordinator had
   not already read the status it decides on.
   */
  lemma CancelSurvivesIff(run: seq<State>, actions: seq<Action>, i: nat, n: nat)
    requires IsRun(run, actions) && i <= n < |run|
    requires run[i].status == Cancelled && !run[i].phase.Done? && run[n].phase.Done?
    requires forall k :: i <= k < n ==> !actions[k].OtherWrites?
    ensures run[n].status == Cancelled <==>
              !run[n].paused && !(run[i].phase.Writing? && run[i].phase.seen != Cancelled)
  {
    var racing := Racing(run[i]);
    forall k | i <= k < n ensures PassesOn(run, k, racing) { RunPassesOn(run, actions, k, racing); }
    PassedOn(run, i, n, racing);
  }

  /** A run with one more step. */
  lemma RunStep(run: seq<State>, actions: seq<Action>, a: Action, s: State)
    requires IsRun(run, actions) && Enabled(run[|actions|], a) && s == Apply(run[|actions|], a)
    ensures IsRun(run + [s], actions + [a])
  {
    var jobs, patches, free, others :| run[0] == Start(jobs, patches, free, others);
    assert (run + [s])[0] == Start(jobs, patches, free, others);
  }

  /** One job, popped by the main worker. */
  function OneJob(worker: Worker, phase: Phase, status: Status): State {
    State(1, [], [worker], false, phase, 0, 0, status, [0], map[])
  }

  lemma OneJobTaken()
    ensures IsRun([Start(1, 1, 0, 0), Start(1, 1, 0, 0).(workers := [Popping(0)]),
                   OneJob(Busy(0, 0), Working, InReview)], [Check(0), Pop(0)])
  {
    var s0 := Start(1, 1, 0, 0);
    assert IsRun([s0], []);
    var s1 := s0.(workers := [Popping(0)]);
    RunStep([s0], [], Check(0), s1);
    RunStep([s0, s1], [Check(0)], Pop(0), OneJob(Busy(0, 0), Working, InReview));
    assert [s0] + [s1] == [s0, s1] && [] + [Check(0)] == [Check(0)];
  }

  /** A cancellation lost to a pause: it arrives while the one job is reviewed, and then the window closes. */
  lemma PauseLosesCancellation() returns (run: seq<State>, actions: seq<Action>)
    ensures |run| == 7 && |actions| == 6 && IsRun(run, actions)
    ensures actions[2] == OtherWrites(Cancelled) && run[3].status == Cancelled
    ensures run[6].phase.Done? && run[6].status == Pending
  {
    OneJobTaken();
    var s0 := Start(1, 1, 0, 0);
    var s1, s2 := s0.(workers := [Popping(0)]), OneJob(Busy(0, 0), Working, InReview);
    var s3 := s2.(status := Cancelled);
    RunStep([s0, s1, s2], [Check(0), Pop(0)], OtherWrites(Cancelled), s3);
    var s4 := s3.(workers := [Exited(0)], paused := true, results := map[0 := Paused]);
    RunStep([s0, s1, s2, s3], [Check(0), Pop(0), OtherWrites(Cancelled)], Finish(0, Paused), s4);
    var s5 := s4.(phase := Joining(1, 0));
    RunStep([s0, s1, s2, s3, s4], [Check(0), Pop(0), OtherWrites(Cancelled), Finish(0, Paused)], Join, s5);
    var s6 := s5.(status := Pending, phase := Done);
    RunStep([s0, s1, s2, s3, s4, s5], [Check(0), Pop(0), OtherWrites(Cancelled), Finish(0, Paused), Join], Decide, s6);
    run := [s0, s1, s2, s3, s4, s5, s6];
    actions := [Check(0), Pop(0), OtherWrites(Cancelled), Finish(0, Paused), Join, Decide];
  }

  /** The one job has been reviewed and the coordinator has joined its worker. */
  lemma OneJobJoined() returns (run: seq<State>, actions: seq<Action>)
    ensures |run| == 7 && |actions| == 6 && IsRun(run, actions)
    ensures run[6] == OneJob(Exited(0), Joining(1, 0), InReview).(results := map[0 := Succeeded])
  {
    OneJobTaken();
    var s0 := Start(1, 1, 0, 0);
    var s1, s2 := s0.(workers := [Popping(0)]), OneJob(Busy(0, 0), Working, InReview);
    var s3 := OneJob(Checking(0), Working, InReview).(results := map[0 := Succeeded]);
    RunStep([s0, s1, s2], [Check(0), Pop(0)], Finish(0, Succeeded), s3);
    var s4 := s3.(workers := [Popping(0)]);
    RunStep([s0, s1, s2, s3], [Check(0), Pop(0), Finish(0, Succeeded)], Check(0), s4);
    var s5 := s3.(workers := [Exited(0)]);
    RunStep([s0, s1, s2, s3, s4], [Check(0), Pop(0), Finish(0, Succeeded), Check(0)], Pop(0), s5);
    var s6 := s5.(phase := Joining(1, 0));
    RunStep([s0, s1, s2, s3, s4, s5], [Check(0), Pop(0), Finish(0, Succeeded), Check(0), Pop(0)], Join, s6);
    run := [s0, s1, s2, s3, s4, s5, s6];
    actions := [Check(0), Pop(0), Finish(0, Succeeded), Check(0), Pop(0), Join];
  }

  /** A cancellation lost to a race: it arrives between reading the status and writing the verdict. */
  lemma RaceLosesCancellation() returns (run: seq<State>, actions: seq<Action>)
    ensures |run| == 11 && |actions| == 10 && IsRun(run, actions)
    ensures actions[8] == OtherWrites(Cancelled) && run[9].status == Cancelled
    ensures run[10].phase.Done? && run[10].status == Reviewed
  {
    run, actions := OneJobJoined();
    var s7 := run[6].(phase := Deciding(0));
    RunStep(run, actions, Decide, s7);
    var s8 := s7.(phase := Writing(InReview, 0));
    RunStep(run + [s7], actions + [Decide], Decide, s8);
    var s9 := s8.(status := Cancelled);
    RunStep(run + [s7] + [s8], actions + [Decide] + [Decide], OtherWrites(Cancelled), s9);
    var s10 := s9.(status := Reviewed, phase := Done);
    RunStep(run + [s7] + [s8] + [s9], actions + [Decide] + [Decide] + [OtherWrites(Cancelled)], Write, s10);
    run := run + [s7] + [s8] + [s9] + [s10];
    actions := actions + [Decide] + [Decide] + [OtherWrites(Cancelled)] + [Write];
  }

  // ---------------------------------------------------------------- the coordinator always ends

  predicate Own(a: Action) {
    !a.OtherTakes? && !a.OtherReturns? && !a.OtherWrites?
  }

  function Rank(w: Worker): nat {
    match w
    case Checking(_) => 2
    case Popping(_) => 1
    case Busy(_, _) => 3
    case Exited(_) => 0
  }

  function Ranks(workers: seq<Worker>): nat {
    if workers == [] then 0 else Ranks(workers[..|workers| - 1]) + Rank(workers[|workers| - 1])
  }

  lemma RanksUpdate(ws: seq<Worker>, w: nat, x: Worker)
    requires w < |ws|
    ensures Ranks(ws[w := x]) == Ranks(ws) - Rank(ws[w]) + Rank(x)
  {
    var ws' := ws[w := x];
    if w == |ws| - 1 {
      assert ws'[..|ws| - 1] == ws[..|ws| - 1];
    } else {
      RanksUpdate(ws[..|ws| - 1], w, x);
      assert ws'[..|ws| - 1] == ws[..|ws| - 1][w := x];
    }
  }

  ghost function PhaseRank(s: State): int {
    match s.phase
    case CheckSpawn => s.jobs + 9
    case TrySpawn => s.jobs + 8
    case Working => s.jobs + 7
    case Joining(next, _) => |s.workers| - next + 4
    case Deciding(_) => 2
    case Writing(_, _) => 1
    case Done => 0
  }

  /** What is left to do: workers to spawn, jobs to pop, loop turns, and the closing phases. */
  ghost function Remaining(s: State): int {
    8 * (s.jobs - (|s.workers| - 1)) + PhaseRank(s) + 4 * |s.queue| + Ranks(s.workers)
  }

  lemma WorkerStepDecreases(s: State, a: Action)
    requires Enabled(s, a) && (a.Check? || a.Pop? || a.Finish?)
    ensures Remaining(Apply(s, a)) < Remaining(s)
  {
    RanksUpdate(s.workers, a.w, Apply(s, a).workers[a.w]);
  }

  lemma TaskStepDecreases(s: State, a: Action)
    requires Bounded(s) && Joined(s) && Enabled(s, a) && !(a.Check? || a.Pop? || a.Finish?)
    ensures Own(a) ==> Remaining(Apply(s, a)) < Remaining(s)
    ensures !Own(a) ==> Remaining(Apply(s, a)) == Remaining(s)
  {
    if a.Acquire? { assert Apply(s, a).workers[..|s.workers|] == s.workers; }
  }

  lemma StepDecreases(s: State, a: Action)
    requires Inv(s) && Enabled(s, a)
    ensures Own(a) ==> Remaining(Apply(s, a)) < Remaining(s)
    ensures !Own(a) ==> Remaining(Apply(s, a)) == Remaining(s)
  {
    if a.Check? || a.Pop? || a.Finish? { WorkerStepDecreases(s, a); } else { TaskStepDecreases(s, a); }
  }

  /** Until it is done the coordinator can always take a step of its own. */
  lemma NeverStuck(s: State)
    requires Inv(s) && !s.phase.Done?
    ensures exists a :: Own(a) && Enabled(s, a)
  {
    if s.phase.TrySpawn? { assert Enabled(s, if s.free > 0 then Acquire else GiveUp); }
    else if s.phase.CheckSpawn? { assert Enabled(s, CompareRemaining); }
    else if s.phase.Working? { WorkerCanStep(s, 0); }
    else if s.phase.Joining? {
      if s.phase.next == |s.workers| { assert Enabled(s, Decide); } else { WorkerCanStep(s, s.phase.next); }
    }
    else if s.phase.Deciding? { assert Enabled(s, Decide); }
    else { assert Enabled(s, Write); }
  }

  lemma WorkerCanStep(s: State, w: nat)
    requires w < |s.workers| && Started(s.phase)
    requires (s.phase.Working? && w == 0) || (s.phase.Joining? && s.phase.next == w)
    ensures exists a :: Own(a) && Enabled(s, a)
  {
    match s.workers[w]
    case Checking(_) => assert Enabled(s, Check(w));
    case Popping(_) => assert Enabled(s, Pop(w));
    case Busy(_, _) => assert Enabled(s, Finish(w, Succeeded));
    case Exited(_) => assert Enabled(s, Join);
  }

  function OwnSteps(actions: seq<Action>): nat {
    if actions == [] then 0
    else OwnSteps(actions[..|actions| - 1]) + (if Own(actions[|actions| - 1]) then 1 else 0)
  }

  /** However the steps interleave, the coordinator takes a bounded number of them. */
  lemma {:induction false} RunEnds(run: seq<State>, actions: seq<Action>)
    requires IsRun(run, actions)
    ensures OwnSteps(actions) <= Remaining(run[0]) - Remaining(run[|actions|]) <= Remaining(run[0])
    decreases |actions|
  {
    if actions != [] {
      var n := |actions| - 1;
      assert IsRun(run[..n + 1], actions[..n]);
      RunEnds(run[..n + 1], actions[..n]);
      RunInvariant(run, actions, n);
      assert Enabled(run[n], actions[n]) && run[n + 1] == Apply(run[n], actions[n]);
      StepDecreases(run[n], actions[n]);
    }
    RunInvariant(run, actions, |actions|);
  }
}
