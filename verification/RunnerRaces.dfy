/** Interleavings the job runner really allows (src/web/jobs.cpp:192-208, src/web/job_runner.cpp:32-43). */
module RunnerRaces {
  import opened Jobs
  import opened JobRunner
  import opened RunnerSafety

  /** Two calling threads, jobs and workers as given, nothing locked. */
  function Quiet(job: JobRecord, first: ClientPc, second: ClientPc, workers: seq<WorkerThread>, active: nat): State {
    State(map[1 := job], {1}, 2, Nobody, Nobody, Nobody, active, |workers| - 1, map[0 := first, 1 := second], workers)
  }

  function Begin(second: ClientPc): State {
    State(map[], {}, 1, Nobody, Nobody, Nobody, 0, -1, map[0 := Idle, 1 := second], [])
  }

  /** Thread 0 creates job 1 and hands it to worker 0, while thread 1 stands outside every lock. */
  lemma Launch(second: ClientPc)
    requires Reachable(Begin(second)) && !HoldsRunner(second)
    ensures Reachable(Quiet(JobRecord(Queued, false), Idle, second, [WorkerThread(1, Looking, true)], 1))
  {
    hide Reachable;
    var s0 := Begin(second);
    var s1 := Created(s0, second);
    Launched(s1, second);
  }

  lemma Created(s0: State, second: ClientPc) returns (s: State)
    requires Reachable(s0) && s0 == Begin(second)
    ensures s == Quiet(JobRecord(Queued, false), Idle, second, [], 0) && Reachable(s)
  {
    hide Reachable;
    var s1 := s0.(clients := map[0 := Creating({}), 1 := second], registryLock := Client(0));
    ManageArrives(s0, CreateEnter(0), s1);
    s := Quiet(JobRecord(Queued, false), Idle, second, [], 0);
    ManageArrives(s1, CreateDone(0), s);
  }

  lemma Launched(s0: State, second: ClientPc)
    requires Reachable(s0) && s0 == Quiet(JobRecord(Queued, false), Idle, second, [], 0)
    ensures Reachable(Quiet(JobRecord(Queued, false), Idle, second, [WorkerThread(1, Looking, true)], 1))
  {
    hide Reachable;
    var s1 := s0.(clients := map[0 := RunEntered(1), 1 := second], runnerLock := Client(0));
    RunArrives(s0, RunEnter(0, 1), s1);
    var s2 := s1.(clients := map[0 := RunJoining(1), 1 := second]);
    RunArrives(s1, RunFree(0), s2);
    var s3 := s2.(clients := map[0 := RunLooking(1), 1 := second]);
    RunArrives(s2, RunJoin(0), s3);
    LaunchedLate(s3, second);
  }

  lemma LaunchedLate(s3: State, second: ClientPc)
    requires s3 == Quiet(JobRecord(Queued, false), RunLooking(1), second, [], 0).(runnerLock := Client(0))
    requires Reachable(s3)
    ensures Reachable(Quiet(JobRecord(Queued, false), Idle, second, [WorkerThread(1, Looking, true)], 1))
  {
    hide Reachable;
    var s4 := s3.(clients := map[0 := RunTesting(1), 1 := second]);
    RunArrives(s3, RunLook(0), s4);
    var s5 := s4.(clients := map[0 := RunLaunching(1), 1 := second]);
    RunArrives(s4, RunTest(0), s5);
    RunArrives(s5, RunLaunch(0), Quiet(JobRecord(Queued, false), Idle, second, [WorkerThread(1, Looking, true)], 1));
  }

  // One more step of a run, by kind of action.

  lemma RunArrives(s: State, a: Action, u: State)
    requires Reachable(s) && CanRun(s, a) && DoRun(s, a) == u
    ensures Reachable(u)
  {
    Extends(s, a);
  }

  lemma CancelArrives(s: State, a: Action, u: State)
    requires Reachable(s) && CanCancel(s, a) && DoCancel(s, a) == u
    ensures Reachable(u)
  {
    Extends(s, a);
  }

  lemma ShutArrives(s: State, a: Action, u: State)
    requires Reachable(s) && CanShut(s, a) && DoShut(s, a) == u
    ensures Reachable(u)
  {
    Extends(s, a);
  }

  lemma ManageArrives(s: State, a: Action, u: State)
    requires Reachable(s) && CanManage(s, a) && DoManage(s, a) == u
    ensures Reachable(u)
  {
    Extends(s, a);
  }

  lemma WorkArrives(s: State, a: Action, u: State)
    requires Reachable(s) && CanWork(s, a) && DoWork(s, a) == u
    ensures Reachable(u)
  {
    Extends(s, a);
  }

  function InHand(state: JobState, second: ClientPc, pc: WorkerPc): State {
    Quiet(JobRecord(state, false), Idle, second, [WorkerThread(1, pc, true)], 1)
  }

  /** The worker finds its job and moves it to RUNNING. */
  lemma Starts(second: ClientPc)
    requires Reachable(InHand(Queued, second, Looking))
    ensures Reachable(InHand(Running, second, Entering))
  {
    hide Reachable;
    WorkArrives(InHand(Queued, second, Looking), WorkerLook(0), InHand(Queued, second, Starting));
    WorkArrives(InHand(Queued, second, Starting), WorkerStart(0), InHand(Running, second, Entering));
  }

  /** The worker enters the session, sees no flag and calls the task. */
  lemma Executes(second: ClientPc)
    requires Reachable(InHand(Running, second, Entering))
    ensures Reachable(InHand(Running, second, Executing).(sessionLock := Worker(0)))
  {
    hide Reachable;
    WorkArrives(InHand(Running, second, Entering), WorkerEnter(0),
      InHand(Running, second, Testing).(sessionLock := Worker(0)));
    WorkArrives(InHand(Running, second, Testing).(sessionLock := Worker(0)), WorkerTest(0),
      InHand(Running, second, Executing).(sessionLock := Worker(0)));
  }

  lemma Fresh(second: ClientPc)
    requires second == Idle
    ensures Reachable(Begin(second))
  {
    assert Trace([Begin(Idle)], []);
  }

  /** shutdown finds nothing running and leaves its first section. */
  lemma ShutdownBetween(second: ClientPc)
    requires second == ShutAgain(0, false)
    ensures Reachable(Begin(second))
  {
    hide Reachable;
    Fresh(Idle);
    var s1 := Begin(ShutEntered).(runnerLock := Client(1));
    ShutArrives(Begin(Idle), ShutEnter(1), s1);
    var s2 := Begin(ShutLeaving(false)).(runnerLock := Client(1));
    ShutArrives(s1, ShutCancel(1), s2);
    ShutArrives(s2, ShutLeave(1), Begin(ShutAgain(0, false)));
  }

  lemma SawQueued()
    ensures Reachable(InHand(Queued, CancelSwapping(1, false), Looking))
  {
    hide Reachable;
    Fresh(Idle);
    Launch(Idle);
    CancelArrives(InHand(Queued, Idle, Looking), CancelEnter(1, 1), InHand(Queued, CancelLoading(1, false), Looking));
    CancelArrives(InHand(Queued, CancelLoading(1, false), Looking), CancelLoad(1),
      InHand(Queued, CancelSwapping(1, false), Looking));
  }

  /**
   * A cancel that saw QUEUED may make its exchange after the worker moved the job to RUNNING:
   * the job is CANCELLED while its task is executing.
   */
  lemma CancelledWhileExecuting() returns (s: State)
    ensures Reachable(s)
    ensures 1 in s.jobs && s.jobs[1].state == Cancelled && s.workers == [WorkerThread(1, Executing, true)]
  {
    hide Reachable;
    SawQueued();
    Starts(CancelSwapping(1, false));
    Executes(CancelSwapping(1, false));
    s := InHand(Cancelled, CancelStoring(1, false), Executing).(sessionLock := Worker(0));
    CancelArrives(InHand(Running, CancelSwapping(1, false), Executing).(sessionLock := Worker(0)), CancelSwap(1), s);
  }

  lemma SawRunning()
    ensures Reachable(InHand(Running, CancelFlagging(1, false), Entering))
  {
    hide Reachable;
    Fresh(Idle);
    Launch(Idle);
    Starts(Idle);
    CancelArrives(InHand(Running, Idle, Entering), CancelEnter(1, 1),
      InHand(Running, CancelLoading(1, false), Entering));
    CancelArrives(InHand(Running, CancelLoading(1, false), Entering), CancelLoad(1),
      InHand(Running, CancelFlagging(1, false), Entering));
  }

  /** A cancel that saw RUNNING may store its flag on a job that has completed meanwhile. */
  lemma FlagOnCompleted() returns (s: State)
    ensures Reachable(s)
    ensures 1 in s.jobs && s.jobs[1] == JobRecord(Completed, true)
  {
    hide Reachable;
    SawRunning();
    var late := CancelFlagging(1, false);
    Executes(late);
    Completes(late);
    s := Quiet(JobRecord(Completed, true), Idle, Idle, [WorkerThread(1, Freeing, true)], 1);
    CancelArrives(InHand(Completed, late, Freeing), CancelFlag(1), s);
  }

  lemma Completes(second: ClientPc)
    requires Reachable(InHand(Running, second, Executing).(sessionLock := Worker(0)))
    ensures Reachable(InHand(Completed, second, Freeing))
  {
    hide Reachable;
    Returns(second);
    WorkArrives(InHand(Running, second, Finishing(Succeeded)), WorkerFinish(0), InHand(Completed, second, Freeing));
  }

  lemma Returns(second: ClientPc)
    requires Reachable(InHand(Running, second, Executing).(sessionLock := Worker(0)))
    ensures Reachable(InHand(Running, second, Finishing(Succeeded)))
  {
    hide Reachable;
    var s1 := InHand(Running, second, Leaving(Succeeded)).(sessionLock := Worker(0));
    WorkArrives(InHand(Running, second, Executing).(sessionLock := Worker(0)), WorkerReturn(0, Succeeded), s1);
    WorkArrives(s1, WorkerLeave(0), InHand(Running, second, Finishing(Succeeded)));
  }

  lemma Unasked(s: State)
    requires s == InHand(Queued, ShutJoining(0, 0, false), Looking).(thread := -1)
    ensures JobsOk(s) && !Asked(s, 0)
  {
  }

  /** A run between the two sections of shutdown: it then joins a worker nobody has asked to stop. */
  lemma ShutdownMissesWorker() returns (s: State)
    ensures Reachable(s) && JobsOk(s)
    ensures 1 in s.clients && s.clients[1] == ShutJoining(0, 0, false) && |s.workers| == 1 && !Asked(s, 0)
  {
    hide Reachable;
    ShutdownBetween(ShutAgain(0, false));
    Launch(ShutAgain(0, false));
    var s1 := InHand(Queued, ShutTaking(0, false), Looking).(runnerLock := Client(1));
    ShutArrives(InHand(Queued, ShutAgain(0, false), Looking), ShutReenter(1), s1);
    s := InHand(Queued, ShutJoining(0, 0, false), Looking).(thread := -1);
    ShutArrives(s1, ShutTake(1), s);
    Unasked(s);
    hide JobsOk, Asked;
  }

  /** Worker 0 is inside its task while its job, RUNNING and without a flag, is in no registry any more. */
  function Orphan(second: ClientPc): State {
    InHand(Running, second, Executing).(registered := {}, sessionLock := Worker(0))
  }

  lemma Orphaned()
    ensures Reachable(Orphan(Idle))
  {
    hide Reachable;
    Fresh(Idle);
    Launch(Idle);
    Starts(Idle);
    Executes(Idle);
    ManageArrives(InHand(Running, Idle, Executing).(sessionLock := Worker(0)), Remove(0, 1), Orphan(Idle));
  }

  /** shutdown asks the registry, which no longer knows the job. */
  lemma AsksInVain()
    requires Reachable(Orphan(Idle))
    ensures Reachable(Orphan(ShutAgain(1, true)))
  {
    hide Reachable;
    var s1 := Orphan(ShutEntered).(runnerLock := Client(1));
    ShutArrives(Orphan(Idle), ShutEnter(1), s1);
    var s2 := Orphan(ShutLeaving(true)).(runnerLock := Client(1));
    ShutArrives(s1, ShutCancel(1), s2);
    ShutArrives(s2, ShutLeave(1), Orphan(ShutAgain(1, true)));
  }

  /**
   * A job removed while it runs: shutdown, even with no other call meanwhile, joins a worker nobody has asked
   * to stop.
   */
  lemma ShutdownMissesRemoved() returns (s: State)
    ensures Reachable(s) && JobsOk(s) && s.workers == [WorkerThread(1, Executing, true)]
    ensures s == Orphan(ShutJoining(0, 1, true)).(thread := -1)
    ensures 1 in s.clients && s.clients[1] == ShutJoining(0, 1, true)
    ensures 1 in s.jobs && s.jobs[1] == JobRecord(Running, false) && !Asked(s, 0)
  {
    hide Reachable;
    Orphaned();
    AsksInVain();
    var s1 := Orphan(ShutTaking(1, true)).(runnerLock := Client(1));
    ShutArrives(Orphan(ShutAgain(1, true)), ShutReenter(1), s1);
    s := Orphan(ShutJoining(0, 1, true)).(thread := -1);
    ShutArrives(s1, ShutTake(1), s);
    Unflagged(s);
    hide JobsOk, Asked;
  }

  lemma Unflagged(s: State)
    requires s == Orphan(ShutJoining(0, 1, true)).(thread := -1)
    ensures JobsOk(s) && !Asked(s, 0)
  {
  }

  /** Two calling threads while worker 0 is inside its task, with nothing for thread_ to refer to. */
  function Deserted(first: ClientPc): State {
    Orphan(ShutJoining(0, 1, true)).(thread := -1, clients := map[0 := first, 1 := ShutJoining(0, 1, true)])
  }

  lemma SecondShutdown()
    requires Reachable(Deserted(Idle))
    ensures Reachable(Deserted(ShutAgain(1, true)))
  {
    hide Reachable;
    var s1 := Deserted(ShutEntered).(runnerLock := Client(0));
    ShutArrives(Deserted(Idle), ShutEnter(0), s1);
    var s2 := Deserted(ShutLeaving(true)).(runnerLock := Client(0));
    ShutArrives(s1, ShutCancel(0), s2);
    ShutArrives(s2, ShutLeave(0), Deserted(ShutAgain(1, true)));
  }

  /** A second shutdown finds no thread to join and returns while the worker is still inside its task. */
  lemma ShutdownReturnsEarly() returns (s: State, a: Action)
    ensures Reachable(s) && LeavesShutdown(s, a) && a.t == 0 && Reachable(DoShut(s, a))
    ensures s.clients[0].seen == 1 && |s.workers| == 1 && s.workers[0].pc == Executing
  {
    hide Reachable;
    var joining := ShutdownMissesRemoved();
    assert joining == Deserted(Idle);
    SecondShutdown();
    s, a := Deserted(ShutTaking(1, true)).(runnerLock := Client(0)), ShutTake(0);
    ShutArrives(Deserted(ShutAgain(1, true)), ShutReenter(0), s);
    ShutArrives(s, a, Deserted(Idle));
  }
}
