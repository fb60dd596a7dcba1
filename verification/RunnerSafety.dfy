/** What holds in every interleaving of run, the workers, request_cancel, shutdown and the registry. */
module RunnerSafety {
  import opened Jobs
  import opened JobRunner

  // --- Runs ---

  ghost predicate Trace(states: seq<State>, acts: seq<Action>) {
    && |states| == |acts| + 1 && Init(states[0])
    && forall i :: 0 <= i < |acts| ==> Enabled(states[i], acts[i]) && states[i + 1] == Next(states[i], acts[i])
  }

  ghost predicate Reachable(s: State) {
    exists states, acts :: Trace(states, acts) && states[|acts|] == s
  }

  lemma {:induction false} Always(states: seq<State>, acts: seq<Action>, i: nat)
    requires Trace(states, acts) && i < |states|
    ensures Inv(states[i])
  {
    if i == 0 {
      InitInv(states[0]);
    } else {
      Always(states, acts, i - 1);
      InvKept(states[i - 1], acts[i - 1]);
    }
  }

  lemma InitInv(s: State)
    requires Init(s)
    ensures Inv(s)
  {
  }

  lemma Holds(s: State)
    requires Reachable(s)
    ensures Inv(s)
  {
    var states, acts :| Trace(states, acts) && states[|acts|] == s;
    Always(states, acts, |acts|);
  }

  lemma Extends(s: State, a: Action)
    requires Reachable(s) && Enabled(s, a)
    ensures Reachable(Next(s, a))
  {
    hide Enabled, Next;
    var states, acts :| Trace(states, acts) && states[|acts|] == s;
    assert Trace(states + [Next(s, a)], acts + [a]);
  }

  // --- Safety ---

  /** One task at a time, nothing else in the session meanwhile, and no job run twice. */
  lemma OneTask(s: State, v: nat, w: nat)
    requires Reachable(s) && v < |s.workers| && w < |s.workers|
    ensures s.workers[v].pc != Done && s.workers[w].pc != Done ==> v == w
    ensures InTask(s.workers[v].pc) ==> forall t :: t in s.clients ==> s.clients[t] != InSession
    ensures s.workers[v].job == s.workers[w].job ==> v == w
  {
    Holds(s);
  }

  /** A free slot means no job is running and every worker is done. */
  lemma FreeMeansQuiet(s: State)
    requires Reachable(s) && s.active == 0
    ensures forall j :: j in s.jobs ==> s.jobs[j].state != Running
    ensures forall w :: 0 <= w < |s.workers| ==> s.workers[w].pc == Done
  {
    Holds(s);
  }

  /**
   * From finish_slot on, the job of a worker that found it is finished, even if it was removed meanwhile.
   * A worker that found nothing never started its job, which remove had taken before.
   */
  lemma FreedMeansFinished(s: State, w: nat)
    requires Reachable(s) && w < |s.workers| && s.workers[w].pc in {Freeing, Clearing, Done}
    ensures s.workers[w].job in s.jobs
    ensures s.workers[w].found ==> !IsActive(s.jobs[s.workers[w].job].state)
    ensures !s.workers[w].found ==>
              s.workers[w].job !in s.registered && s.jobs[s.workers[w].job].state in {Queued, Cancelled}
  {
    Holds(s);
  }

  /**
   * run joins only threads that have given the runner mutex back: the join needs no lock any more.
   * The thread itself may still be returning.
   */
  lemma JoinNeverWaits(s: State, t: nat)
    requires Reachable(s) && t in s.clients && s.clients[t].RunJoining?
    ensures Enabled(s, RunJoin(t))
  {
    Holds(s);
    FreeSlot(s, t);
  }

  /** At most one registered job is QUEUED or RUNNING. */
  lemma OneActiveJob(s: State, i: nat, j: nat)
    requires Reachable(s) && i in s.registered && j in s.registered
    ensures i in s.jobs && j in s.jobs
    ensures IsActive(s.jobs[i].state) && IsActive(s.jobs[j].state) ==> i == j
  {
    Holds(s);
  }

  /** The step that stores job j's flag, by the thread that cancelled it. */
  predicate Settles(s: State, a: Action, j: nat) {
    (a.CancelStore? || a.WorkerStore?) && Enabled(s, a) && j in Next(s, a).jobs && Next(s, a).jobs[j].cancelRequested
  }

  /** A cancelled job's flag is set unless the very thread that cancelled it is one step away from storing it. */
  lemma CancelledIsFlagged(s: State, j: nat) returns (a: Action)
    requires Reachable(s) && j in s.jobs && s.jobs[j].state == Cancelled && !s.jobs[j].cancelRequested
    ensures Settles(s, a, j)
  {
    Holds(s);
    assert JobsOk(s) && Owed(s, j);
    hide JobsOk, Inv, Next;
    if t :| t in s.clients && s.clients[t].CancelStoring? && s.clients[t].job == j {
      a := CancelStore(t);
      StoreSettles(s, a, j);
    } else {
      var w :| 0 <= w < |s.workers| && s.workers[w].job == j && s.workers[w].pc == Storing;
      a := WorkerStore(w);
      StoreSettles(s, a, j);
    }
  }

  lemma StoreSettles(s: State, a: Action, j: nat)
    requires j in s.jobs
    requires (a.CancelStore? && a.t in s.clients && s.clients[a.t].CancelStoring? && s.clients[a.t].job == j)
             || (a.WorkerStore? && a.w < |s.workers| && s.workers[a.w].job == j && s.workers[a.w].pc == Storing)
    ensures Settles(s, a, j)
  {
  }

  /**
   * Whom shutdown joins without having asked it to stop: a worker launched after the first section,
   * or the one whose job was out of the registry when that section looked.
   */
  lemma ShutdownTells(s: State, t: nat)
    requires Reachable(s) && t in s.clients && s.clients[t].ShutJoining?
    ensures JobsOk(s) && s.clients[t].w < |s.workers|
    ensures !Asked(s, s.clients[t].w) && s.clients[t].w < s.clients[t].seen ==>
              && s.clients[t].missed && s.clients[t].w == s.clients[t].seen - 1
              && s.workers[s.clients[t].w].job !in s.registered
  {
    Holds(s);
    assert ShutSeen(s.clients[t]) && AskedUpTo(s, s.clients[t].seen, s.clients[t].missed);
    hide RunnerOk, SessionOk, RegistryOk, WorkOk, OnceOk, PolicyOk, FlagsOk, Asked;
  }

  /** What the first section notes: whether the job of the last worker, still busy, was out of the registry. */
  lemma MissedMeansRemoved(s: State, a: Action)
    requires Reachable(s) && a.ShutCancel? && CanShut(s, a)
    ensures DoShut(s, a).clients[a.t] == ShutLeaving(true) <==> s.active != 0 && s.active !in s.registered
    ensures s.active != 0 ==> HasLast(s) && s.active == s.workers[|s.workers| - 1].job
  {
    Holds(s);
    assert SlotOk(s);
    hide Inv, Reachable;
  }

  /** run stores its new thread only over one that was joined: a std::thread is never overwritten while it runs. */
  lemma LaunchIsFree(s: State, t: nat)
    requires Reachable(s) && t in s.clients && s.clients[t].RunLaunching?
    ensures s.thread == -1 && Enabled(s, RunLaunch(t))
  {
    Holds(s);
    hide RunnerOk, SessionOk, RegistryOk, SlotOk, JobsOk, WorkOk, OnceOk, PolicyOk, FlagsOk, AskedOk;
  }

  /** The step with which shutdown returns: the end of its join, or finding no thread to join. */
  predicate LeavesShutdown(s: State, a: Action) {
    CanShut(s, a) && (a.ShutJoin? || (a.ShutTake? && s.thread < 0))
  }

  /**
   * When shutdown returns, every worker launched before it left its first section is done, or is being
   * joined by another shutdown.
   */
  lemma ShutdownWaits(s: State, a: Action, w: nat)
    requires Reachable(s) && LeavesShutdown(s, a) && w < |s.workers| && w < s.clients[a.t].seen
    ensures s.workers[w].pc == Done
            || exists r :: r in s.clients && r != a.t && s.clients[r].ShutJoining? && s.clients[r].w == w
  {
    Holds(s);
    hide RunnerOk, SessionOk, RegistryOk, SlotOk, JobsOk, WorkOk, OnceOk, PolicyOk, FlagsOk, AskedOk;
    if s.workers[w].pc != Done {
      assert w == s.thread || Joined(s, w);
    }
  }

  /** So when it is the only shutdown, they are all done: it has waited for the worker. */
  lemma LoneShutdownWaits(s: State, a: Action, w: nat)
    requires Reachable(s) && LeavesShutdown(s, a) && w < |s.workers| && w < s.clients[a.t].seen
    requires forall r :: r in s.clients && r != a.t ==> !s.clients[r].ShutJoining?
    ensures s.workers[w].pc == Done
  {
    ShutdownWaits(s, a, w);
  }

  /** The registry's active_job_id gives 0 only when no registered job is active, and an id only of an active one. */
  lemma AnswersTrue(s: State, a: Action)
    requires Reachable(s) && CanManage(s, a) && s.clients[a.t].Listing? && !s.clients[a.t].clear
    ensures a.ListDone? ==> forall j :: j in s.registered ==> j in s.jobs && !IsActive(s.jobs[j].state)
    ensures a.ListLook? && DoManage(s, a).clients[a.t] == Idle ==>
        a.job in s.registered && IsActive(s.jobs[a.job].state)
  {
    Holds(s);
    hide RunnerOk, SessionOk, RegistryOk, SlotOk, WorkOk, OnceOk, FlagsOk, AskedOk, ThreadOk;
  }

  /**
   * create refuses exactly at a look that finds an active job, and makes its new QUEUED job only when none
   * of the registered ones is active.
   */
  lemma CreateRefuses(s: State, a: Action)
    requires Reachable(s) && CanManage(s, a) && s.clients[a.t].Creating?
    ensures DoManage(s, a).clients[a.t] == Idle && DoManage(s, a).jobs == s.jobs
            <==> a.CreateLook? && a.job in s.jobs && IsActive(s.jobs[a.job].state)
    ensures DoManage(s, a).jobs != s.jobs ==>
              && (forall j :: j in s.registered ==> j in s.jobs && !IsActive(s.jobs[j].state))
              && DoManage(s, a).jobs == s.jobs[s.nextId := JobRecord(Queued, false)] && s.nextId !in s.jobs
  {
    Holds(s);
    assert a.CreateDone? ==> s.nextId in DoManage(s, a).jobs && s.nextId !in s.jobs;
    hide RunnerOk, SessionOk, RegistryOk, SlotOk, WorkOk, OnceOk, FlagsOk, AskedOk, ThreadOk;
  }

  /** The step with which run returns false. */
  predicate RunRefuses(s: State, a: Action) {
    CanRun(s, a) && DoRun(s, a).clients[a.t] == Idle && DoRun(s, a).workers == s.workers
  }

  /**
   * run refuses exactly when some worker is not done, or else when the job is not registered or no longer
   * QUEUED as run looks; otherwise the worker it starts has the job, and no other worker is still on its way.
   */
  lemma RunRefusesExactly(s: State, a: Action)
    requires Reachable(s) && CanRun(s, a) && !a.RunEnter?
    ensures RunRefuses(s, a) <==>
              || a.RunBusy? || (a.RunLook? && s.clients[a.t].job !in s.registered)
              || (a.RunTest? && s.clients[a.t].job in s.jobs && s.jobs[s.clients[a.t].job].state != Queued)
    ensures a.RunBusy? ==> exists w :: 0 <= w < |s.workers| && s.workers[w].pc != Done
    ensures !a.RunBusy? ==> forall w :: 0 <= w < |s.workers| ==> s.workers[w].pc == Done
    ensures DoRun(s, a).workers != s.workers <==> a.RunLaunch?
    ensures a.RunLaunch? ==> DoRun(s, a).workers == s.workers + [WorkerThread(s.clients[a.t].job, Looking, true)]
  {
    Holds(s);
    hide RunnerOk, SessionOk, RegistryOk, WorkOk, OnceOk, PolicyOk, FlagsOk, AskedOk, ThreadOk;
  }

  /** clear_finished removes a job exactly when it looks at it and finds it finished. */
  lemma ClearsFinished(s: State, a: Action)
    requires Reachable(s) && CanManage(s, a) && s.clients[a.t].Listing? && s.clients[a.t].clear
    ensures forall j :: j in s.registered ==>
              (j !in DoManage(s, a).registered <==> a.ListLook? && a.job == j && !IsActive(s.jobs[j].state))
  {
    Holds(s);
    hide RunnerOk, SessionOk, RegistryOk, SlotOk, WorkOk, OnceOk, PolicyOk, FlagsOk, AskedOk, ThreadOk;
  }

  // --- Whole runs ---

  /** A job only moves forward, a finished one never changes state, a flag stays set, an id never comes back. */
  predicate Forward(s: State, u: State, j: nat) {
    j in s.jobs ==>
      && j in u.jobs && Precedes(s.jobs[j].state, u.jobs[j].state)
      && (!IsActive(s.jobs[j].state) ==> u.jobs[j].state == s.jobs[j].state)
      && (s.jobs[j].cancelRequested ==> u.jobs[j].cancelRequested) && (j in u.registered ==> j in s.registered)
  }

  lemma ForwardClient(s: State, u: State, t: nat, j: nat)
    requires ClientStep(s, u, t) && JobsOk(s)
    ensures Forward(s, u, j)
  {
  }

  lemma ForwardWorker(s: State, u: State, w: nat, j: nat)
    requires WorkerStep(s, u, w) && JobsOk(s)
    ensures Forward(s, u, j)
  {
  }

  lemma StepForward(s: State, a: Action, j: nat)
    requires JobsOk(s) && Enabled(s, a)
    ensures Forward(s, Next(s, a), j)
  {
    hide Forward, ClientStep, WorkerStep, JobsOk;
    StepShape(s, a);
    if CanWork(s, a) {
      ForwardWorker(s, Next(s, a), a.w, j);
    } else {
      ForwardClient(s, Next(s, a), a.t, j);
    }
  }

  lemma TraceForward(states: seq<State>, acts: seq<Action>, k: nat, j: nat)
    requires Trace(states, acts) && k + 1 < |states|
    ensures Forward(states[k], states[k + 1], j)
  {
    hide Enabled, Next, Forward, JobsOk;
    Always(states, acts, k);
    StepForward(states[k], acts[k], j);
  }

  lemma ForwardTrans(s: State, u: State, v: State, j: nat)
    requires Forward(s, u, j) && Forward(u, v, j)
    ensures Forward(s, v, j)
  {
  }

  /** Over any stretch of any run. */
  lemma {:induction false} JobsForward(states: seq<State>, acts: seq<Action>, i: nat, k: nat, j: nat)
    requires Trace(states, acts) && i <= k < |states|
    ensures Forward(states[i], states[k], j)
    decreases k - i
  {
    hide Trace;
    if i < k {
      hide *;
      JobsForward(states, acts, i, k - 1, j);
      TraceForward(states, acts, k - 1, j);
      ForwardTrans(states[i], states[k - 1], states[k], j);
    }
  }

  /**
   * While a worker has its job in hand the job leaves RUNNING, other than by the worker's own
   * last transition, exactly when a cancel that had seen it QUEUED makes its exchange.
   */
  lemma OnlyLateCancel(s: State, a: Action, w: nat)
    requires Reachable(s) && Enabled(s, a) && w < |s.workers| && HasStarted(s.workers[w].pc)
    requires s.workers[w].job in s.jobs && s.jobs[s.workers[w].job].state == Running
    requires !(a.WorkerFinish? && a.w == w)
    ensures s.workers[w].job in Next(s, a).jobs
    ensures Next(s, a).jobs[s.workers[w].job].state != Running
            <==> (a.CancelSwap? && s.clients[a.t].job == s.workers[w].job)
    ensures a.CancelSwap? && s.clients[a.t].job == s.workers[w].job ==>
        Next(s, a).jobs[s.workers[w].job].state == Cancelled
  {
    Holds(s);
    OnlyLateCancelStep(s, a, w);
  }

  /** What a client's step makes of an existing job. */
  function Touched(s: State, a: Action, j: nat): JobRecord
    requires j in s.jobs && !CanWork(s, a) && Enabled(s, a)
  {
    if a.CancelSwap? && s.clients[a.t].job == j && IsActive(s.jobs[j].state) then s.jobs[j].(state := Cancelled)
    else if (a.CancelStore? || a.CancelFlag?) && s.clients[a.t].job == j then s.jobs[j].(cancelRequested := true)
    else s.jobs[j]
  }

  lemma RunTouches(s: State, a: Action, j: nat)
    requires j in s.jobs && CanRun(s, a)
    ensures DoRun(s, a).jobs == s.jobs && Touched(s, a, j) == s.jobs[j]
  {
  }

  lemma CancelTouches(s: State, a: Action, j: nat)
    requires j in s.jobs && CanCancel(s, a)
    ensures j in DoCancel(s, a).jobs && DoCancel(s, a).jobs[j] == Touched(s, a, j)
  {
  }

  lemma ShutTouches(s: State, a: Action, j: nat)
    requires j in s.jobs && CanShut(s, a)
    ensures DoShut(s, a).jobs == s.jobs && Touched(s, a, j) == s.jobs[j]
  {
  }

  lemma ManageTouches(s: State, a: Action, j: nat)
    requires JobsOk(s) && j in s.jobs && CanManage(s, a)
    ensures j in DoManage(s, a).jobs && DoManage(s, a).jobs[j] == Touched(s, a, j)
  {
  }

  lemma ClientTouches(s: State, a: Action, j: nat)
    requires JobsOk(s) && j in s.jobs && Enabled(s, a) && !CanWork(s, a)
    ensures j in Next(s, a).jobs && Next(s, a).jobs[j] == Touched(s, a, j)
  {
    hide DoRun, DoCancel, DoShut, DoManage, DoWork, Touched, JobsOk;
    if CanRun(s, a) {
      RunTouches(s, a, j);
    } else if CanCancel(s, a) {
      CancelTouches(s, a, j);
    } else if CanShut(s, a) {
      ShutTouches(s, a, j);
    } else {
      ManageTouches(s, a, j);
    }
  }

  lemma OnlyLateCancelStep(s: State, a: Action, w: nat)
    requires JobsOk(s) && SlotOk(s) && Enabled(s, a) && w < |s.workers| && HasStarted(s.workers[w].pc)
    requires s.jobs[s.workers[w].job].state == Running
    requires !(a.WorkerFinish? && a.w == w)
    ensures s.workers[w].job in Next(s, a).jobs
    ensures Next(s, a).jobs[s.workers[w].job].state ==
            if a.CancelSwap? && s.clients[a.t].job == s.workers[w].job then Cancelled else Running
  {
    if CanWork(s, a) {
      StepShape(s, a);
    } else {
      ClientTouches(s, a, s.workers[w].job);
    }
    hide Next, Enabled;
  }

  /** A finished job's flag changes exactly when a request_cancel that saw it RUNNING stores it. */
  lemma OnlyLateFlag(s: State, a: Action, j: nat)
    requires Reachable(s) && Enabled(s, a) && j in s.jobs && s.jobs[j].state in {Completed, Failed}
    requires !s.jobs[j].cancelRequested
    ensures j in Next(s, a).jobs
    ensures Next(s, a).jobs[j].cancelRequested <==> a.CancelFlag? && s.clients[a.t].job == j
  {
    Holds(s);
    OnlyLateFlagStep(s, a, j);
  }

  lemma OnlyLateFlagStep(s: State, a: Action, j: nat)
    requires JobsOk(s) && WorkOk(s) && FlagsOk(s) && Enabled(s, a)
    requires j in s.jobs && s.jobs[j].state in {Completed, Failed} && !s.jobs[j].cancelRequested
    ensures j in Next(s, a).jobs
    ensures Next(s, a).jobs[j].cancelRequested <==> a.CancelFlag? && s.clients[a.t].job == j
  {
    if CanWork(s, a) {
      StepShape(s, a);
      hide Next, Enabled, JobsOk, FlagsOk;
    } else {
      ClientTouches(s, a, j);
      hide Next, Enabled, JobsOk, WorkOk;
    }
  }

  // --- No deadlock ---

  predicate Begins(a: Action) {
    || a.RunEnter? || a.CancelEnter? || a.ShutEnter? || a.CreateEnter? || a.ListEnter?
    || a.AskEnter? || a.Remove? || a.SessionEnter?
  }

  function Actor(a: Action): Holder {
    match a
    case WorkerLook(w) => Worker(w)
    case WorkerStart(w) => Worker(w)
    case WorkerEnter(w) => Worker(w)
    case WorkerTest(w) => Worker(w)
    case WorkerReturn(w, _) => Worker(w)
    case WorkerLeave(w) => Worker(w)
    case WorkerFinish(w) => Worker(w)
    case WorkerStore(w) => Worker(w)
    case WorkerTake(w) => Worker(w)
    case WorkerClear(w) => Worker(w)
    case _ => Client(a.t)
  }

  /** The thread is inside an operation. */
  predicate Busy(s: State, x: Holder) {
    match x
    case Nobody => false
    case Client(t) => t in s.clients && s.clients[t] != Idle
    case Worker(w) => w < |s.workers| && s.workers[w].pc != Done
  }

  /** The thread, already inside an operation, can go on. */
  predicate Continues(s: State, a: Action, x: Holder) {
    Enabled(s, a) && !Begins(a) && Actor(a) == x
  }

  /** Thread x cannot go on before thread y does: y has the mutex x needs, or x joins y. */
  predicate Waits(s: State, x: Holder, y: Holder) {
    y != Nobody &&
    match x
    case Nobody => false
    case Client(t) => t in s.clients && ClientWaits(s, s.clients[t], y)
    case Worker(w) => w < |s.workers| && WorkerWaits(s, s.workers[w].pc, y)
  }

  predicate ClientWaits(s: State, pc: ClientPc, y: Holder) {
    || ((pc.RunLooking? || (pc == ShutEntered && s.active != 0)) && y == s.registryLock)
    || (pc.ShutAgain? && y == s.runnerLock)
    || (pc.ShutJoining? && y == Worker(pc.w) && !IsAt(s, pc.w, Done))
  }

  predicate WorkerWaits(s: State, pc: WorkerPc, y: Holder) {
    || (pc == Looking && y == s.registryLock)
    || (pc == Entering && y == s.sessionLock)
    || (pc == Freeing && y == s.runnerLock)
  }

  /** Each thread of the chain waits for the next, and the last can take step a. */
  predicate Leads(s: State, chain: seq<Holder>, a: Action) {
    && chain != [] && Continues(s, a, chain[|chain| - 1])
    && forall i :: 0 <= i < |chain| - 1 ==> Waits(s, chain[i], chain[i + 1])
  }

  lemma Prepend(s: State, x: Holder, chain: seq<Holder>, a: Action)
    requires Leads(s, chain, a) && Waits(s, x, chain[0])
    ensures Leads(s, [x] + chain, a)
  {
    hide Continues, Waits;
    assert forall i :: 0 < i < |chain| ==> ([x] + chain)[i] == chain[i - 1];
  }

  lemma Alone(s: State, x: Holder, a: Action)
    requires Continues(s, a, x)
    ensures Leads(s, [x], a)
  {
  }

  /** Whoever holds the registry mutex can go on. */
  lemma RegistryMoves(s: State) returns (a: Action)
    requires RegistryOk(s) && JobsOk(s) && s.registryLock != Nobody
    ensures Continues(s, a, s.registryLock)
  {
    var t := s.registryLock.t;
    if j :| j in s.registered && j !in s.clients[t].checked {
      a := if s.clients[t].Creating? then CreateLook(t, j) else ListLook(t, j);
    } else {
      a := if s.clients[t].Creating? then CreateDone(t) else ListDone(t);
    }
  }

  /** Inside the session nothing waits. */
  lemma SessionMoves(s: State) returns (a: Action)
    requires SessionOk(s) && JobsOk(s) && s.sessionLock != Nobody
    ensures Continues(s, a, s.sessionLock)
  {
    if s.sessionLock.Client? {
      a := SessionLeave(s.sessionLock.t);
    } else {
      var w := s.sessionLock.w;
      a := if s.workers[w].pc == Testing then WorkerTest(w)
        else if s.workers[w].pc == Executing then WorkerReturn(w, Succeeded) else WorkerLeave(w);
    }
  }

  lemma ReservedMoves(s: State, t: nat) returns (a: Action)
    requires SlotOk(s) && JobsOk(s) && WorkOk(s) && t in s.clients && SlotReserved(s.clients[t])
    requires s.clients[t].RunLooking? ==> s.registryLock == Nobody
    ensures Continues(s, a, Client(t))
  {
    FreeSlot(s, t);
    a := if s.clients[t].RunJoining? then RunJoin(t) else if s.clients[t].RunLooking? then RunLook(t)
      else if s.clients[t].RunTesting? then RunTest(t) else RunLaunch(t);
  }

  lemma CancelMoves(s: State, t: nat) returns (a: Action)
    requires JobsOk(s) && t in s.clients && Cancelling(s.clients[t])
    ensures Continues(s, a, Client(t))
  {
    a := if s.clients[t].CancelLoading? then CancelLoad(t) else if s.clients[t].CancelSwapping? then CancelSwap(t)
      else if s.clients[t].CancelStoring? then CancelStore(t) else CancelFlag(t);
  }

  lemma OtherMoves(s: State, t: nat) returns (a: Action)
    requires t in s.clients && HoldsRunner(s.clients[t])
    requires !SlotReserved(s.clients[t]) && !Cancelling(s.clients[t])
    requires s.clients[t] == ShutEntered ==> s.active == 0 || s.registryLock == Nobody
    ensures Continues(s, a, Client(t))
  {
    var pc := s.clients[t];
    a := if pc.RunEntered? && s.active != 0 then RunBusy(t) else if pc.RunEntered? then RunFree(t)
      else if pc == ShutEntered then ShutCancel(t) else if pc.ShutLeaving? then ShutLeave(t)
      else if pc == Asking then AskLeave(t) else ShutTake(t);
  }

  /** A thread holding the runner mutex waits for the registry at most. */
  lemma RunnerLeads(s: State, t: nat) returns (chain: seq<Holder>, a: Action)
    requires RegistryOk(s) && SlotOk(s) && JobsOk(s) && WorkOk(s) && t in s.clients && HoldsRunner(s.clients[t])
    ensures chain != [] && chain[0] == Client(t) && |chain| <= 2 && Leads(s, chain, a)
  {
    hide RegistryOk, JobsOk, WorkOk, SlotOk, Continues, Leads;
    chain := [Client(t)];
    var pc := s.clients[t];
    if (pc.RunLooking? || (pc == ShutEntered && s.active != 0)) && s.registryLock != Nobody {
      a := RegistryMoves(s);
      Alone(s, s.registryLock, a);
      Prepend(s, Client(t), [s.registryLock], a);
      chain := chain + [s.registryLock];
    } else {
      if SlotReserved(pc) {
        a := ReservedMoves(s, t);
      } else if Cancelling(pc) {
        a := CancelMoves(s, t);
      } else {
        a := OtherMoves(s, t);
      }
      Alone(s, Client(t), a);
    }
  }

  lemma HolderLeads(s: State) returns (chain: seq<Holder>, a: Action)
    requires Inv(s) && s.runnerLock != Nobody
    ensures chain != [] && chain[0] == s.runnerLock && |chain| <= 2 && Leads(s, chain, a)
  {
    hide SessionOk, SlotOk, JobsOk, WorkOk, OnceOk, PolicyOk, FlagsOk, AskedOk, Leads;
    if s.runnerLock.Client? {
      chain, a := RunnerLeads(s, s.runnerLock.t);
    } else {
      chain, a := [s.runnerLock], WorkerClear(s.runnerLock.w);
      Alone(s, s.runnerLock, a);
    }
  }

  lemma WorkerMoves(s: State, w: nat) returns (a: Action)
    requires RunnerOk(s) && SessionOk(s) && JobsOk(s) && w < |s.workers| && s.workers[w].pc != Done
    requires forall y :: !Waits(s, Worker(w), y)
    ensures Continues(s, a, Worker(w))
  {
    var pc := s.workers[w].pc;
    if InTask(pc) {
      a := SessionMoves(s);
    } else {
      assert !Waits(s, Worker(w), s.registryLock) && !Waits(s, Worker(w), s.sessionLock)
          && !Waits(s, Worker(w), s.runnerLock);
      a := if pc == Looking then WorkerLook(w) else if pc == Starting then WorkerStart(w)
        else if pc == Entering then WorkerEnter(w) else if pc.Finishing? then WorkerFinish(w)
        else if pc == Storing then WorkerStore(w) else if pc == Freeing then WorkerTake(w) else WorkerClear(w);
    }
  }

  lemma WorkerLeads(s: State, w: nat) returns (chain: seq<Holder>, a: Action)
    requires Inv(s) && w < |s.workers| && s.workers[w].pc != Done
    ensures chain != [] && chain[0] == Worker(w) && |chain| <= 3 && Leads(s, chain, a)
  {
    hide RunnerOk, SessionOk, RegistryOk, SlotOk, JobsOk, WorkOk, OnceOk, PolicyOk, FlagsOk, AskedOk, Leads, Continues;
    var me := Worker(w);
    if y :| Waits(s, me, y) {
      if s.workers[w].pc == Freeing {
        chain, a := HolderLeads(s);
      } else if s.workers[w].pc == Looking {
        a := RegistryMoves(s);
        chain := [y];
        Alone(s, y, a);
      } else {
        a := SessionMoves(s);
        chain := [y];
        Alone(s, y, a);
      }
      Prepend(s, me, chain, a);
      chain := [me] + chain;
    } else {
      a := WorkerMoves(s, w);
      chain := [me];
      Alone(s, me, a);
    }
  }

  lemma ClientLeads(s: State, t: nat) returns (chain: seq<Holder>, a: Action)
    requires Inv(s) && t in s.clients && s.clients[t] != Idle
    ensures chain != [] && chain[0] == Client(t) && |chain| <= 4 && Leads(s, chain, a)
  {
    hide RunnerOk, SessionOk, RegistryOk, JobsOk, WorkOk, OnceOk, PolicyOk, FlagsOk, AskedOk, Leads, Continues;
    var me, pc := Client(t), s.clients[t];
    chain := [me];
    if HoldsRunner(pc) {
      chain, a := RunnerLeads(s, t);
    } else if pc.ShutAgain? && s.runnerLock != Nobody {
      chain, a := HolderLeads(s);
      Prepend(s, me, chain, a);
      chain := [me] + chain;
    } else if pc.ShutJoining? && !IsAt(s, pc.w, Done) {
      chain, a := WorkerLeads(s, pc.w);
      Prepend(s, me, chain, a);
      chain := [me] + chain;
    } else {
      a := FreeMoves(s, t);
      Alone(s, me, a);
    }
  }

  /** A thread outside the runner mutex that waits for nobody. */
  lemma FreeMoves(s: State, t: nat) returns (a: Action)
    requires RegistryOk(s) && JobsOk(s) && t in s.clients && s.clients[t] != Idle && !HoldsRunner(s.clients[t])
    requires s.clients[t].ShutAgain? ==> s.runnerLock == Nobody
    requires s.clients[t].ShutJoining? ==> IsAt(s, s.clients[t].w, Done)
    ensures Continues(s, a, Client(t))
  {
    hide JobsOk;
    var pc := s.clients[t];
    if Cancelling(pc) {
      a := CancelMoves(s, t);
    } else if HoldsRegistry(pc) {
      a := RegistryMoves(s);
    } else {
      a := if pc.ShutAgain? then ShutReenter(t) else if pc.ShutJoining? then ShutJoin(t) else SessionLeave(t);
    }
  }

  /**
   * No thread is stuck: from each one inside an operation a chain of waiting, of at most four
   * threads, ends in one that can take a step.
   */
  lemma NoDeadlock(s: State, x: Holder) returns (chain: seq<Holder>, a: Action)
    requires Reachable(s) && Busy(s, x)
    ensures chain != [] && chain[0] == x && |chain| <= 4 && Leads(s, chain, a)
  {
    Holds(s);
    hide Inv, Leads;
    if x.Client? {
      chain, a := ClientLeads(s, x.t);
    } else {
      chain, a := WorkerLeads(s, x.w);
    }
  }

  lemma ClientStops(s: State, y: Holder, a: Action)
    requires Actor(a).Client? && Waits(s, Actor(a), y) && !Begins(a)
    ensures !Enabled(s, a)
  {
  }

  lemma WorkerStops(s: State, y: Holder, a: Action)
    requires Actor(a).Worker? && Waits(s, Actor(a), y)
    ensures !Enabled(s, a)
  {
  }

  lemma WaitingStops(s: State, x: Holder, y: Holder, a: Action)
    requires Waits(s, x, y) && Actor(a) == x && !Begins(a)
    ensures !Enabled(s, a)
  {
    hide ClientWaits, WorkerWaits, Begins, Actor, Enabled;
    if x.Client? {
      ClientStops(s, y, a);
    } else {
      WorkerStops(s, y, a);
    }
  }

  /** Waiting is exactly being unable to go on. */
  lemma WaitsExactly(s: State, x: Holder)
    requires Reachable(s) && Busy(s, x)
    ensures (exists y :: Waits(s, x, y)) <==> !exists a :: Continues(s, a, x)
  {
    hide Waits, Enabled, Busy, Reachable;
    var chain, a := NoDeadlock(s, x);
    if |chain| > 1 {
      assert Waits(s, x, chain[1]);
      forall b
        ensures !Continues(s, b, x)
      {
        if Continues(s, b, x) {
          WaitingStops(s, x, chain[1], b);
        }
      }
    } else {
      forall y
        ensures !Waits(s, x, y)
      {
        if Waits(s, x, y) {
          WaitingStops(s, x, y, a);
        }
      }
    }
  }
}
