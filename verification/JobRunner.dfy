/**
 * The job runner as atomic steps of any number of threads (src/web/job_runner.cpp with
 * src/web/jobs.cpp): each step is one lock operation, one load, one compare-and-swap or
 * one store, in sequentially consistent order.
 */
module JobRunner {
  import opened Jobs

  datatype JobRecord = JobRecord(state: JobState, cancelRequested: bool)

  datatype Holder = Nobody | Client(t: nat) | Worker(w: nat)

  /** Where a calling thread stands. down says that request_cancel was called by shutdown. */
  datatype ClientPc =
    | Idle
    | RunEntered(job: nat)                       // run: holds runner_mtx_, before testing active_
    | RunJoining(job: nat)                       // active_ is 0, joining the previous thread
    | RunLooking(job: nat)                       // before registry_.get
    | RunTesting(job: nat)                       // before the QUEUED test
    | RunLaunching(job: nat)                     // the job was QUEUED
    | CancelLoading(job: nat, down: bool)        // request_cancel: holds the job, before loading its state
    | CancelSwapping(job: nat, down: bool)       // saw QUEUED, before the exchange to CANCELLED
    | CancelStoring(job: nat, down: bool)        // the exchange succeeded, before storing the flag
    | CancelFlagging(job: nat, down: bool)       // saw RUNNING, before storing the flag
    | ShutEntered                                // shutdown: holds runner_mtx_ for the first time
    | ShutLeaving(missed: bool)                  // before releasing it; missed: the active job was not in the registry
    | ShutAgain(seen: nat, missed: bool)         // before taking it a second time; seen workers existed at the release
    | ShutTaking(seen: nat, missed: bool)        // holds it, before moving thread_ out
    | ShutJoining(w: nat, seen: nat, missed: bool) // joining worker w without any lock
    | Asking                                     // busy or active_job_id of the runner: holds runner_mtx_
    | Creating(checked: set<nat>)                // create: holds the registry lock
    | Listing(checked: set<nat>, clear: bool)    // clear_finished, or the registry's active_job_id: holds it too
    | InSession                                  // some other operation holding the session mutex

  datatype TaskResult = WasCancelled | Succeeded | WentWrong

  datatype WorkerPc =
    | Looking                                    // before registry_.get
    | Starting                                   // before the exchange QUEUED -> RUNNING
    | Entering                                   // before taking the session mutex
    | Testing                                    // holds it, before loading the cancel flag
    | Executing                                  // inside the task
    | Leaving(r: TaskResult)                     // before releasing the session mutex
    | Finishing(r: TaskResult)                   // before the terminal exchange
    | Storing                                    // its cancel() succeeded, before storing the flag
    | Freeing                                    // before taking runner_mtx_ in finish_slot
    | Clearing                                   // holds it
    | Done

  /** found: registry_.get gave the worker its job (it holds until the look-up says otherwise). */
  datatype WorkerThread = WorkerThread(job: nat, pc: WorkerPc, found: bool)

  datatype State = State(
    jobs: map<nat, JobRecord>,                   // every job object ever made
    registered: set<nat>,                        // the ids in the registry's map
    nextId: nat, registryLock: Holder, runnerLock: Holder, sessionLock: Holder, active: nat,
    thread: int,                                 // the worker thread_ refers to, or -1
    clients: map<nat, ClientPc>, workers: seq<WorkerThread>)

  // --- Steps ---

  datatype Action =
    | RunEnter(t: nat, job: nat) | RunBusy(t: nat) | RunFree(t: nat) | RunJoin(t: nat) | RunLook(t: nat)
    | RunTest(t: nat) | RunLaunch(t: nat)
    | CancelEnter(t: nat, job: nat) | CancelLoad(t: nat) | CancelSwap(t: nat) | CancelStore(t: nat) | CancelFlag(t: nat)
    | ShutEnter(t: nat) | ShutCancel(t: nat) | ShutLeave(t: nat)
    | ShutReenter(t: nat) | ShutTake(t: nat) | ShutJoin(t: nat)
    | CreateEnter(t: nat) | CreateLook(t: nat, job: nat) | CreateDone(t: nat)
    | ListEnter(t: nat, clear: bool) | ListLook(t: nat, job: nat) | ListDone(t: nat)
    | AskEnter(t: nat) | AskLeave(t: nat)
    | Remove(t: nat, job: nat) | SessionEnter(t: nat) | SessionLeave(t: nat)
    | WorkerLook(w: nat) | WorkerStart(w: nat) | WorkerEnter(w: nat) | WorkerTest(w: nat)
    | WorkerReturn(w: nat, r: TaskResult) | WorkerLeave(w: nat) | WorkerFinish(w: nat) | WorkerStore(w: nat)
    | WorkerTake(w: nat) | WorkerClear(w: nat)

  predicate At(s: State, t: nat, pc: ClientPc) {
    t in s.clients && s.clients[t] == pc
  }

  predicate IsAt(s: State, w: int, pc: WorkerPc) {
    0 <= w < |s.workers| && s.workers[w].pc == pc
  }

  function Move(s: State, t: nat, pc: ClientPc): State
    requires t in s.clients
  {
    s.(clients := s.clients[t := pc])
  }

  function Advance(s: State, w: nat, pc: WorkerPc): State
    requires w < |s.workers|
  {
    s.(workers := s.workers[w := s.workers[w].(pc := pc)])
  }

  function SetState(s: State, j: nat, st: JobState): State
    requires j in s.jobs
  {
    s.(jobs := s.jobs[j := s.jobs[j].(state := st)])
  }

  function Flag(s: State, j: nat): State
    requires j in s.jobs
  {
    s.(jobs := s.jobs[j := s.jobs[j].(cancelRequested := true)])
  }

  /** Where request_cancel returns to. */
  function AfterCancel(down: bool): ClientPc {
    if down then ShutLeaving(false) else Idle
  }

  // run

  predicate CanRun(s: State, a: Action) {
    match a
    case RunEnter(t, _) => At(s, t, Idle) && s.runnerLock == Nobody
    case RunBusy(t) => t in s.clients && s.clients[t].RunEntered? && s.active != 0
    case RunFree(t) => t in s.clients && s.clients[t].RunEntered? && s.active == 0
    case RunJoin(t) =>
      && t in s.clients && s.clients[t].RunJoining?
      && (s.thread < 0 || (s.thread < |s.workers| && s.workers[s.thread].pc == Done))
    case RunLook(t) => t in s.clients && s.clients[t].RunLooking? && s.registryLock == Nobody
    case RunTest(t) => t in s.clients && s.clients[t].RunTesting? && s.clients[t].job in s.jobs
    case RunLaunch(t) => t in s.clients && s.clients[t].RunLaunching?
    case _ => false
  }

  function DoRun(s: State, a: Action): State
    requires CanRun(s, a)
  {
    match a
    case RunEnter(t, j) => Move(s, t, RunEntered(j)).(runnerLock := Client(t))
    case RunBusy(t) => Move(s, t, Idle).(runnerLock := Nobody)
    case RunFree(t) => Move(s, t, RunJoining(s.clients[t].job))
    case RunJoin(t) => Move(s, t, RunLooking(s.clients[t].job)).(thread := -1)
    case RunLook(t) =>
      if s.clients[t].job in s.registered then Move(s, t, RunTesting(s.clients[t].job))
      else Move(s, t, Idle).(runnerLock := Nobody)
    case RunTest(t) =>
      if s.jobs[s.clients[t].job].state == Queued then Move(s, t, RunLaunching(s.clients[t].job))
      else Move(s, t, Idle).(runnerLock := Nobody)
    case RunLaunch(t) =>
      Move(s, t, Idle).(runnerLock := Nobody, active := s.clients[t].job, thread := |s.workers|,
                        workers := s.workers + [WorkerThread(s.clients[t].job, Looking, true)])
  }

  // request_cancel

  predicate CanCancel(s: State, a: Action) {
    match a
    case CancelEnter(t, j) => At(s, t, Idle) && s.registryLock == Nobody && j in s.registered
    case CancelLoad(t) => t in s.clients && s.clients[t].CancelLoading? && s.clients[t].job in s.jobs
    case CancelSwap(t) => t in s.clients && s.clients[t].CancelSwapping? && s.clients[t].job in s.jobs
    case CancelStore(t) => t in s.clients && s.clients[t].CancelStoring? && s.clients[t].job in s.jobs
    case CancelFlag(t) => t in s.clients && s.clients[t].CancelFlagging? && s.clients[t].job in s.jobs
    case _ => false
  }

  function DoCancel(s: State, a: Action): State
    requires CanCancel(s, a)
  {
    match a
    case CancelEnter(t, j) => Move(s, t, CancelLoading(j, false))
    case CancelLoad(t) =>
      var pc := s.clients[t];
      if s.jobs[pc.job].state == Queued then Move(s, t, CancelSwapping(pc.job, pc.down))
      else if s.jobs[pc.job].state == Running then Move(s, t, CancelFlagging(pc.job, pc.down))
      else Move(s, t, AfterCancel(pc.down))
    case CancelSwap(t) =>
      var pc := s.clients[t];
      if IsActive(s.jobs[pc.job].state) then Move(SetState(s, pc.job, Cancelled), t, CancelStoring(pc.job, pc.down))
      else Move(s, t, AfterCancel(pc.down))
    case CancelStore(t) => Move(Flag(s, s.clients[t].job), t, AfterCancel(s.clients[t].down))
    case CancelFlag(t) => Move(Flag(s, s.clients[t].job), t, AfterCancel(s.clients[t].down))
  }

  // shutdown

  predicate CanShut(s: State, a: Action) {
    match a
    case ShutEnter(t) => At(s, t, Idle) && s.runnerLock == Nobody
    case ShutCancel(t) => At(s, t, ShutEntered) && (s.active == 0 || s.registryLock == Nobody)
    case ShutLeave(t) => t in s.clients && s.clients[t].ShutLeaving?
    case ShutReenter(t) => t in s.clients && s.clients[t].ShutAgain? && s.runnerLock == Nobody
    case ShutTake(t) => t in s.clients && s.clients[t].ShutTaking?
    case ShutJoin(t) => t in s.clients && s.clients[t].ShutJoining? && IsAt(s, s.clients[t].w, Done)
    case _ => false
  }

  function DoShut(s: State, a: Action): State
    requires CanShut(s, a)
  {
    match a
    case ShutEnter(t) => Move(s, t, ShutEntered).(runnerLock := Client(t))
    case ShutCancel(t) =>
      if s.active != 0 && s.active in s.registered then Move(s, t, CancelLoading(s.active, true))
      else Move(s, t, ShutLeaving(s.active != 0))
    case ShutLeave(t) => Move(s, t, ShutAgain(|s.workers|, s.clients[t].missed)).(runnerLock := Nobody)
    case ShutReenter(t) => Move(s, t, ShutTaking(s.clients[t].seen, s.clients[t].missed)).(runnerLock := Client(t))
    case ShutTake(t) =>
      var pc := s.clients[t];
      var next := if s.thread >= 0 then ShutJoining(s.thread, pc.seen, pc.missed) else Idle;
      Move(s, t, next).(runnerLock := Nobody, thread := -1)
    case ShutJoin(t) => Move(s, t, Idle)
  }

  // the registry and the session

  predicate CanManage(s: State, a: Action) {
    match a
    case CreateEnter(t) => At(s, t, Idle) && s.registryLock == Nobody
    case CreateLook(t, j) =>
      t in s.clients && s.clients[t].Creating? && j in s.registered && j in s.jobs && j !in s.clients[t].checked
    case CreateDone(t) => t in s.clients && s.clients[t].Creating? && s.registered <= s.clients[t].checked
    case Remove(t, j) => At(s, t, Idle) && s.registryLock == Nobody
    case ListEnter(t, _) => At(s, t, Idle) && s.registryLock == Nobody
    case ListLook(t, j) =>
      t in s.clients && s.clients[t].Listing? && j in s.registered && j in s.jobs && j !in s.clients[t].checked
    case ListDone(t) => t in s.clients && s.clients[t].Listing? && s.registered <= s.clients[t].checked
    case AskEnter(t) => At(s, t, Idle) && s.runnerLock == Nobody
    case AskLeave(t) => At(s, t, Asking)
    case SessionEnter(t) => At(s, t, Idle) && s.sessionLock == Nobody
    case SessionLeave(t) => At(s, t, InSession)
    case _ => false
  }

  function DoManage(s: State, a: Action): State
    requires CanManage(s, a)
  {
    match a
    case CreateEnter(t) => Move(s, t, Creating({})).(registryLock := Client(t))
    case CreateLook(t, j) =>
      if IsActive(s.jobs[j].state) then Move(s, t, Idle).(registryLock := Nobody)
      else Move(s, t, Creating(s.clients[t].checked + {j}))
    case CreateDone(t) =>
      Move(s, t, Idle).(registryLock := Nobody, nextId := s.nextId + 1, registered := s.registered + {s.nextId},
                        jobs := s.jobs[s.nextId := JobRecord(Queued, false)])
    case Remove(t, j) => s.(registered := s.registered - {j})
    case ListEnter(t, clear) => Move(s, t, Listing({}, clear)).(registryLock := Client(t))
    case ListLook(t, j) =>
      var pc := s.clients[t];
      if pc.clear && !IsActive(s.jobs[j].state) then s.(registered := s.registered - {j})
      else if !pc.clear && IsActive(s.jobs[j].state) then Move(s, t, Idle).(registryLock := Nobody)
      else Move(s, t, Listing(pc.checked + {j}, pc.clear))
    case ListDone(t) => Move(s, t, Idle).(registryLock := Nobody)
    case AskEnter(t) => Move(s, t, Asking).(runnerLock := Client(t))
    case AskLeave(t) => Move(s, t, Idle).(runnerLock := Nobody)
    case SessionEnter(t) => Move(s, t, InSession).(sessionLock := Client(t))
    case SessionLeave(t) => Move(s, t, Idle).(sessionLock := Nobody)
  }

  // the worker

  predicate CanWork(s: State, a: Action) {
    match a
    case WorkerLook(w) => IsAt(s, w, Looking) && s.registryLock == Nobody
    case WorkerStart(w) => IsAt(s, w, Starting) && s.workers[w].job in s.jobs
    case WorkerEnter(w) => IsAt(s, w, Entering) && s.sessionLock == Nobody
    case WorkerTest(w) => IsAt(s, w, Testing) && s.workers[w].job in s.jobs
    case WorkerReturn(w, _) => IsAt(s, w, Executing)
    case WorkerLeave(w) => w < |s.workers| && s.workers[w].pc.Leaving?
    case WorkerFinish(w) => w < |s.workers| && s.workers[w].pc.Finishing? && s.workers[w].job in s.jobs
    case WorkerStore(w) => IsAt(s, w, Storing) && s.workers[w].job in s.jobs
    case WorkerTake(w) => IsAt(s, w, Freeing) && s.runnerLock == Nobody
    case WorkerClear(w) => IsAt(s, w, Clearing)
    case _ => false
  }

  function DoWork(s: State, a: Action): State
    requires CanWork(s, a)
  {
    match a
    case WorkerLook(w) =>
      if s.workers[w].job in s.registered then Advance(s, w, Starting)
      else s.(workers := s.workers[w := s.workers[w].(pc := Freeing, found := false)])
    case WorkerStart(w) =>
      var j := s.workers[w].job;
      if s.jobs[j].state == Queued then Advance(SetState(s, j, Running), w, Entering) else Advance(s, w, Freeing)
    case WorkerEnter(w) => Advance(s, w, Testing).(sessionLock := Worker(w))
    case WorkerTest(w) =>
      Advance(s, w, if s.jobs[s.workers[w].job].cancelRequested then Leaving(WasCancelled) else Executing)
    case WorkerReturn(w, r) => Advance(s, w, Leaving(r))
    case WorkerLeave(w) => Advance(s, w, Finishing(s.workers[w].pc.r)).(sessionLock := Nobody)
    case WorkerFinish(w) =>
      var j := s.workers[w].job;
      if s.workers[w].pc.r == Succeeded then Advance(SetState(s, j, CompletedFrom(s.jobs[j].state)), w, Freeing)
      else if s.workers[w].pc.r == WentWrong then Advance(SetState(s, j, FailedFrom(s.jobs[j].state)), w, Freeing)
      else if IsActive(s.jobs[j].state) then Advance(SetState(s, j, Cancelled), w, Storing)
      else Advance(s, w, Freeing)
    case WorkerStore(w) => Advance(Flag(s, s.workers[w].job), w, Freeing)
    case WorkerTake(w) => Advance(s, w, Clearing).(runnerLock := Worker(w))
    case WorkerClear(w) => Advance(s, w, Done).(runnerLock := Nobody, active := 0)
  }

  predicate Enabled(s: State, a: Action) {
    CanRun(s, a) || CanCancel(s, a) || CanShut(s, a) || CanManage(s, a) || CanWork(s, a)
  }

  function Next(s: State, a: Action): State
    requires Enabled(s, a)
  {
    if CanRun(s, a) then DoRun(s, a)
    else if CanCancel(s, a) then DoCancel(s, a)
    else if CanShut(s, a) then DoShut(s, a)
    else if CanManage(s, a) then DoManage(s, a)
    else DoWork(s, a)
  }

  predicate Init(s: State) {
    && s.jobs == map[] && s.registered == {} && s.nextId == 1
    && s.registryLock == Nobody && s.runnerLock == Nobody && s.sessionLock == Nobody
    && s.active == 0 && s.thread == -1 && s.workers == []
    && forall t :: t in s.clients ==> s.clients[t] == Idle
  }

  // --- The invariant ---

  predicate HoldsRunner(pc: ClientPc) {
    match pc
    case RunEntered(_) | RunJoining(_) | RunLooking(_) | RunTesting(_) | RunLaunching(_) => true
    case CancelLoading(_, down) => down
    case CancelSwapping(_, down) => down
    case CancelStoring(_, down) => down
    case CancelFlagging(_, down) => down
    case ShutEntered | ShutLeaving(_) | ShutTaking(_, _) | Asking => true
    case _ => false
  }

  predicate HoldsRegistry(pc: ClientPc) {
    pc.Creating? || pc.Listing?
  }

  /** Looking through the registry for an active job: what was passed over was finished. */
  predicate Seeking(pc: ClientPc) {
    pc.Creating? || (pc.Listing? && !pc.clear)
  }

  /** run has joined the previous thread and not yet stored the next one. */
  predicate Threadless(pc: ClientPc) {
    pc.RunLooking? || pc.RunTesting? || pc.RunLaunching?
  }

  /** run has found the slot free and still holds the lock. */
  predicate SlotReserved(pc: ClientPc) {
    pc.RunJoining? || pc.RunLooking? || pc.RunTesting? || pc.RunLaunching?
  }

  predicate InTask(pc: WorkerPc) {
    pc == Testing || pc == Executing || pc.Leaving?
  }

  predicate HasStarted(pc: WorkerPc) {
    pc == Entering || InTask(pc) || pc.Finishing?
  }

  predicate Cancelling(pc: ClientPc) {
    pc.CancelLoading? || pc.CancelSwapping? || pc.CancelStoring? || pc.CancelFlagging?
  }

  /** run has the job object in hand. */
  predicate Holding(pc: ClientPc) {
    pc.RunTesting? || pc.RunLaunching?
  }

  /** Each mutex has exactly the holder it names. */
  predicate RunnerOk(s: State) {
    && (forall t :: t in s.clients ==> (HoldsRunner(s.clients[t]) <==> s.runnerLock == Client(t)))
    && (forall w :: 0 <= w < |s.workers| ==> (s.workers[w].pc == Clearing <==> s.runnerLock == Worker(w)))
    && (s.runnerLock.Client? ==> s.runnerLock.t in s.clients)
    && (s.runnerLock.Worker? ==> s.runnerLock.w < |s.workers|)
  }

  predicate SessionOk(s: State) {
    && (forall t :: t in s.clients ==> (s.clients[t] == InSession <==> s.sessionLock == Client(t)))
    && (forall w :: 0 <= w < |s.workers| ==> (InTask(s.workers[w].pc) <==> s.sessionLock == Worker(w)))
    && (s.sessionLock.Client? ==> s.sessionLock.t in s.clients)
    && (s.sessionLock.Worker? ==> s.sessionLock.w < |s.workers|)
  }

  predicate RegistryOk(s: State) {
    && (forall t :: t in s.clients ==> (HoldsRegistry(s.clients[t]) <==> s.registryLock == Client(t)))
    && !s.registryLock.Worker? && (s.registryLock.Client? ==> s.registryLock.t in s.clients)
  }

  /** The worker started last; every other one is done. */
  predicate HasLast(s: State) {
    s.workers != [] && s.workers[|s.workers| - 1].pc != Done
  }

  /** The slot belongs to the one worker that has not finished, if there is one. */
  predicate SlotOk(s: State) {
    && (forall w :: 0 <= w < |s.workers| && s.workers[w].pc != Done ==>
        s.active == s.workers[w].job && w == |s.workers| - 1)
    && (s.active != 0 ==> HasLast(s))
    && (forall t :: t in s.clients && SlotReserved(s.clients[t]) ==> s.active == 0)
    && -1 <= s.thread < |s.workers|
    && (forall t :: t in s.clients && s.clients[t].ShutJoining? ==> s.clients[t].w < |s.workers|)
  }

  /** Every job mentioned exists, under an id handed out before. */
  predicate JobsOk(s: State) {
    && s.nextId >= 1
    && (forall j :: j in s.jobs ==> 1 <= j < s.nextId)
    && s.registered <= s.jobs.Keys
    && (forall w :: 0 <= w < |s.workers| ==> s.workers[w].job in s.jobs)
    && (forall t :: t in s.clients && (Holding(s.clients[t]) || Cancelling(s.clients[t])) ==>
        s.clients[t].job in s.jobs)
  }

  /** How far a job can be, given where its worker stands. */
  predicate Fits(wk: WorkerThread, st: JobState, registered: bool) {
    if wk.pc == Looking || wk.pc == Starting then wk.found && (st == Queued || st == Cancelled)
    else if HasStarted(wk.pc) then wk.found && (st == Running || st == Cancelled)
    else if wk.pc == Storing then wk.found && st == Cancelled
    else if wk.found then !IsActive(st)
    else !registered && (st == Queued || st == Cancelled)
  }

  predicate WorkOk(s: State)
    requires JobsOk(s)
  {
    && (forall w :: 0 <= w < |s.workers| ==>
          Fits(s.workers[w], s.jobs[s.workers[w].job].state, s.workers[w].job in s.registered))
    && (forall j :: j in s.jobs && s.jobs[j].state == Running ==> RunBy(s, j))
  }

  /** The last worker is in the middle of job j. */
  predicate RunBy(s: State, j: nat) {
    s.workers != [] && s.workers[|s.workers| - 1].job == j && HasStarted(s.workers[|s.workers| - 1].pc)
  }

  /** No job is ever given to two workers. */
  predicate OnceOk(s: State)
    requires JobsOk(s)
  {
    && (forall v, w :: 0 <= v < w < |s.workers| ==> s.workers[v].job != s.workers[w].job)
    && (forall t, w :: t in s.clients && s.clients[t].RunLaunching? && 0 <= w < |s.workers| ==>
        s.workers[w].job != s.clients[t].job)
    && (forall t, w :: t in s.clients && s.clients[t].RunTesting? && 0 <= w < |s.workers| ==>
          s.workers[w].job == s.clients[t].job ==> !IsActive(s.jobs[s.clients[t].job].state))
    && (forall t :: t in s.clients && s.clients[t].RunLaunching? ==>
          s.jobs[s.clients[t].job].state == Queued || s.jobs[s.clients[t].job].state == Cancelled)
  }

  /** At most one registered job is active, and whoever looks for one has passed over only finished ones. */
  predicate PolicyOk(s: State)
    requires JobsOk(s)
  {
    && (forall i, j :: i in s.registered && j in s.registered ==>
          IsActive(s.jobs[i].state) && IsActive(s.jobs[j].state) ==> i == j)
    && (forall t, j :: t in s.clients && Seeking(s.clients[t]) && j in s.clients[t].checked && j in s.registered ==>
          !IsActive(s.jobs[j].state))
  }

  /** A cancelled job carries the flag, or the thread that cancelled it is about to store it. */
  predicate FlagsOk(s: State)
    requires JobsOk(s)
  {
    && (forall j :: j in s.jobs && s.jobs[j].state == Cancelled ==> s.jobs[j].cancelRequested || Owed(s, j))
    && (forall t :: t in s.clients && s.clients[t].CancelStoring? ==> s.jobs[s.clients[t].job].state == Cancelled)
  }

  predicate Owed(s: State, j: nat) {
    (exists t :: t in s.clients && s.clients[t].CancelStoring? && s.clients[t].job == j) ||
    (exists w :: 0 <= w < |s.workers| && s.workers[w].job == j && s.workers[w].pc == Storing)
  }

  /** Worker w needs no more telling: it is done, its job is over, or flagged. */
  predicate Asked(s: State, w: nat)
    requires JobsOk(s) && w < |s.workers|
  {
    var j := s.workers[w].job;
    s.workers[w].pc == Done || !IsActive(s.jobs[j].state) || s.jobs[j].cancelRequested
  }

  /** Of the first seen workers all are asked, but for the last when its job was out of the registry. */
  predicate AskedUpTo(s: State, seen: nat, missed: bool)
    requires JobsOk(s)
  {
    && seen <= |s.workers|
    && (forall w :: 0 <= w < seen && !(missed && w == seen - 1) ==> Asked(s, w))
    && (missed ==> seen > 0 && s.workers[seen - 1].job !in s.registered)
  }

  /** After its first section shutdown has asked every worker launched before it, if it found its job. */
  predicate AskedOk(s: State)
    requires JobsOk(s)
  {
    && (forall t :: t in s.clients && Cancelling(s.clients[t]) && s.clients[t].down ==> s.clients[t].job == s.active)
    && (forall t :: t in s.clients && s.clients[t].ShutLeaving? ==> AskedUpTo(s, |s.workers|, s.clients[t].missed))
    && (forall t :: t in s.clients && ShutSeen(s.clients[t]) ==> AskedUpTo(s, s.clients[t].seen, s.clients[t].missed))
  }

  /** Some shutdown is joining worker w. */
  predicate Joined(s: State, w: nat) {
    exists t :: t in s.clients && s.clients[t].ShutJoining? && s.clients[t].w == w
  }

  /**
   * Every worker that is not done is the one thread_ refers to, or some shutdown joins it; thread_ refers
   * to none where run is about to store a new one; and to a new one if any while a shutdown is joining.
   */
  predicate ThreadOk(s: State) {
    && (forall w :: 0 <= w < |s.workers| && s.workers[w].pc != Done ==> w == s.thread || Joined(s, w))
    && (forall t :: t in s.clients && Threadless(s.clients[t]) ==> s.thread == -1)
    && (forall t :: t in s.clients && s.clients[t].ShutJoining? && s.thread >= 0 ==> s.clients[t].seen <= s.thread)
  }

  predicate ShutSeen(pc: ClientPc) {
    pc.ShutAgain? || pc.ShutTaking? || pc.ShutJoining?
  }

  predicate Inv(s: State) {
    && RunnerOk(s) && SessionOk(s) && RegistryOk(s) && SlotOk(s) && JobsOk(s)
    && WorkOk(s) && OnceOk(s) && PolicyOk(s) && FlagsOk(s) && AskedOk(s) && ThreadOk(s)
  }

  // --- What one step may do, seen from the thread that takes it ---

  /** A mutex is taken only when free and given up by its holder. */
  predicate Hands(had: bool, has: bool, me: Holder, before: Holder, after: Holder) {
    if had == has then after == before
    else if has then before == Nobody && after == me
    else after == Nobody
  }

  /** States move forward, only CancelSwapping changes one, and flags stay up. */
  predicate ClientJobs(s: State, u: State, p: ClientPc, q: ClientPc) {
    && (forall j :: j in s.jobs ==>
          && j in u.jobs && (s.jobs[j].cancelRequested ==> u.jobs[j].cancelRequested)
          && (u.jobs[j].state == s.jobs[j].state
              || (IsActive(s.jobs[j].state) && u.jobs[j].state == Cancelled && q.CancelStoring? && q.job == j)))
    && (p.CancelStoring? && p.job in u.jobs ==> u.jobs[p.job].cancelRequested && !q.CancelStoring?)
    && (q.CancelStoring? ==> q.job in u.jobs && u.jobs[q.job].state == Cancelled)
  }

  /** The registry gains a job only through create, which saw every other one finished. */
  predicate ClientRegistry(s: State, u: State, p: ClientPc, q: ClientPc) {
    if u.nextId == s.nextId then
      && u.jobs.Keys == s.jobs.Keys && u.registered <= s.registered
      && (Seeking(q) && Seeking(p) ==>
            && p.checked <= q.checked
            && forall j :: j in q.checked && j !in p.checked ==> j in s.jobs && !IsActive(s.jobs[j].state))
      && (Seeking(q) && !Seeking(p) ==> q.checked == {})
    else
      && u.nextId == s.nextId + 1 && u.jobs == s.jobs[s.nextId := JobRecord(Queued, false)]
      && p.Creating? && !Seeking(q) && s.registered <= p.checked && u.registered == s.registered + {s.nextId}
  }

  /** shutdown leaves its first section when nothing runs, it missed the active job, or its request_cancel has ended. */
  predicate Told(s: State, u: State, p: ClientPc, missed: bool) {
    if p == ShutEntered then missed == (s.active != 0) && (s.active == 0 || s.active !in s.registered)
    else
      && Cancelling(p) && p.down && !missed
      && (p.job in u.jobs ==> u.jobs[p.job].cancelRequested || !IsActive(u.jobs[p.job].state))
  }

  /** thread_ changes when run joins it, when shutdown takes it to join it, and when run stores a new one. */
  predicate ThreadStep(s: State, u: State, p: ClientPc, q: ClientPc) {
    && (s.thread >= 0 && u.thread != s.thread ==>
          || (p.RunJoining? && u.thread == -1 && IsAt(s, s.thread, Done))
          || (p.ShutTaking? && q.ShutJoining? && u.thread == -1)
          || p.RunLaunching?)
    && (Threadless(q) ==> u.thread == -1 || (Threadless(p) && u.thread == s.thread))
    && (q.ShutJoining? ==> p.ShutTaking? && u.thread == -1)
    && (p.ShutJoining? ==> IsAt(s, p.w, Done))
  }

  predicate ClientStep(s: State, u: State, t: nat) {
    && t in s.clients && t in u.clients && u.clients == s.clients[t := u.clients[t]]
    && var p, q := s.clients[t], u.clients[t];
    && Hands(HoldsRunner(p), HoldsRunner(q), Client(t), s.runnerLock, u.runnerLock)
    && Hands(p == InSession, q == InSession, Client(t), s.sessionLock, u.sessionLock)
    && Hands(HoldsRegistry(p), HoldsRegistry(q), Client(t), s.registryLock, u.registryLock)
    && (if u.workers == s.workers then u.active == s.active && (u.thread == s.thread || u.thread == -1)
        else
          && p.RunLaunching? && q == Idle && u.active == p.job && u.thread == |s.workers|
          && u.workers == s.workers + [WorkerThread(p.job, Looking, true)])
    && (SlotReserved(q) ==> HoldsRunner(p) && (SlotReserved(p) || s.active == 0))
    && (q.ShutJoining? ==> q.w == s.thread && p == ShutTaking(q.seen, q.missed))
    && (q.ShutTaking? ==> p == ShutAgain(q.seen, q.missed))
    && (q.ShutAgain? ==> p == ShutLeaving(q.missed) && q.seen == |s.workers| == |u.workers|)
    && (q.ShutLeaving? ==> Told(s, u, p, q.missed) && u.workers == s.workers)
    && (Cancelling(q) && q.down ==>
        (Cancelling(p) && p.down && q.job == p.job) || (p == ShutEntered && q.job == s.active))
    && (Holding(q) || Cancelling(q) ==> q.job in s.jobs || q.job in s.registered)
    && (q.RunTesting? ==> SlotReserved(p) && q.job in s.registered)
    && (q.RunLaunching? ==>
        p == RunTesting(q.job) && q.job in s.jobs && s.jobs[q.job].state == Queued && u.jobs == s.jobs)
    && ThreadStep(s, u, p, q) && ClientJobs(s, u, p, q) && ClientRegistry(s, u, p, q)
  }

  lemma RunShape(s: State, a: Action)
    requires CanRun(s, a)
    ensures ClientStep(s, DoRun(s, a), a.t)
  {
  }

  predicate Writes(a: Action) {
    a.CancelSwap? || a.CancelStore? || a.CancelFlag?
  }

  lemma ReadShape(s: State, a: Action)
    requires CanCancel(s, a) && !Writes(a)
    ensures ClientStep(s, DoCancel(s, a), a.t)
  {
  }

  lemma WriteShape(s: State, a: Action)
    requires CanCancel(s, a) && Writes(a)
    ensures ClientStep(s, DoCancel(s, a), a.t)
  {
  }

  lemma CancelShape(s: State, a: Action)
    requires CanCancel(s, a)
    ensures ClientStep(s, DoCancel(s, a), a.t)
  {
    hide ClientStep, DoCancel;
    if Writes(a) {
      WriteShape(s, a);
    } else {
      ReadShape(s, a);
    }
  }

  lemma ShutThread(s: State, a: Action)
    requires CanShut(s, a)
    ensures a.t in s.clients && a.t in DoShut(s, a).clients
    ensures ThreadStep(s, DoShut(s, a), s.clients[a.t], DoShut(s, a).clients[a.t])
  {
  }

  lemma ShutShape(s: State, a: Action)
    requires CanShut(s, a)
    ensures ClientStep(s, DoShut(s, a), a.t)
  {
    ShutThread(s, a);
    hide ThreadStep;
  }

  predicate Creates(a: Action) {
    a.CreateLook? || a.CreateDone?
  }

  predicate Lists(a: Action) {
    a.ListLook? || a.ListDone?
  }

  lemma CreateShape(s: State, a: Action)
    requires CanManage(s, a) && JobsOk(s) && Creates(a)
    ensures ClientStep(s, DoManage(s, a), a.t)
  {
  }

  lemma ListShape(s: State, a: Action)
    requires CanManage(s, a) && Lists(a)
    ensures ClientStep(s, DoManage(s, a), a.t)
  {
  }

  lemma ManageThread(s: State, a: Action)
    requires CanManage(s, a)
    ensures a.t in s.clients && a.t in DoManage(s, a).clients
    ensures ThreadStep(s, DoManage(s, a), s.clients[a.t], DoManage(s, a).clients[a.t])
  {
  }

  lemma OtherShape(s: State, a: Action)
    requires CanManage(s, a) && !Creates(a) && !Lists(a)
    ensures ClientStep(s, DoManage(s, a), a.t)
  {
    ManageThread(s, a);
    hide ThreadStep;
  }

  lemma ManageShape(s: State, a: Action)
    requires CanManage(s, a) && JobsOk(s)
    ensures ClientStep(s, DoManage(s, a), a.t)
  {
    hide ClientStep, DoManage, JobsOk;
    if Creates(a) {
      CreateShape(s, a);
    } else if Lists(a) {
      ListShape(s, a);
    } else {
      OtherShape(s, a);
    }
  }

  predicate WorkerMove(s: State, u: State, w: nat) {
    && w < |s.workers| && w < |u.workers|
    && u.clients == s.clients && u.workers == s.workers[w := u.workers[w]] && u.workers[w].job == s.workers[w].job
    && var p, q, j := s.workers[w].pc, u.workers[w].pc, s.workers[w].job;
    && Hands(p == Clearing, q == Clearing, Worker(w), s.runnerLock, u.runnerLock)
    && Hands(InTask(p), InTask(q), Worker(w), s.sessionLock, u.sessionLock)
    && u.registryLock == s.registryLock && u.thread == s.thread && u.nextId == s.nextId && u.registered == s.registered
    && p != Done && (if p == Clearing then q == Done && u.active == 0 else q != Done && u.active == s.active)
    && u.jobs.Keys == s.jobs.Keys && (j in s.jobs ==> u.jobs == s.jobs[j := u.jobs[j]])
  }

  predicate WorkerStep(s: State, u: State, w: nat) {
    && WorkerMove(s, u, w)
    && var j := s.workers[w].job;
    && (j in s.jobs ==> WorkerJob(s.workers[w], u.workers[w], s.jobs[j], u.jobs[j], j in s.registered))
  }

  predicate WorkerJob(p: WorkerThread, q: WorkerThread, before: JobRecord, after: JobRecord, registered: bool) {
    && (Fits(p, before.state, registered) ==> Fits(q, after.state, registered))
    && (after.state == Running ==> HasStarted(q.pc) || before.state == Running)
    && (HasStarted(p.pc) && after.state == Running ==> HasStarted(q.pc))
    && Precedes(before.state, after.state) && (before.cancelRequested ==> after.cancelRequested)
    && (after.state == Cancelled ==> before.state == Cancelled || q.pc == Storing)
    && (p.pc == Storing ==> after.cancelRequested)
    && (after.cancelRequested ==> before.cancelRequested || p.pc == Storing)
    && (after.state != Running && before.state == Running ==> p.pc.Finishing?)
  }

  predicate BeforeTask(a: Action) {
    a.WorkerLook? || a.WorkerStart? || a.WorkerEnter? || a.WorkerTest?
  }

  lemma EarlyMove(s: State, a: Action)
    requires CanWork(s, a) && BeforeTask(a)
    ensures WorkerMove(s, DoWork(s, a), a.w)
  {
  }

  lemma LateMove(s: State, a: Action)
    requires CanWork(s, a) && !BeforeTask(a)
    ensures WorkerMove(s, DoWork(s, a), a.w)
  {
  }

  lemma WorkMove(s: State, a: Action)
    requires CanWork(s, a)
    ensures WorkerMove(s, DoWork(s, a), a.w)
  {
    hide WorkerMove, DoWork;
    if BeforeTask(a) {
      EarlyMove(s, a);
    } else {
      LateMove(s, a);
    }
  }

  lemma WorkShape(s: State, a: Action)
    requires CanWork(s, a)
    ensures WorkerStep(s, DoWork(s, a), a.w)
  {
    WorkMove(s, a);
    hide WorkerMove;
  }

  lemma RunnerClient(s: State, u: State, t: nat)
    requires ClientStep(s, u, t) && RunnerOk(s)
    ensures RunnerOk(u)
  {
  }

  lemma RunnerWorker(s: State, u: State, w: nat)
    requires WorkerStep(s, u, w) && RunnerOk(s)
    ensures RunnerOk(u)
  {
  }

  lemma SessionClient(s: State, u: State, t: nat)
    requires ClientStep(s, u, t) && SessionOk(s)
    ensures SessionOk(u)
  {
  }

  lemma SessionWorker(s: State, u: State, w: nat)
    requires WorkerStep(s, u, w) && SessionOk(s)
    ensures SessionOk(u)
  {
  }

  lemma RegistryClient(s: State, u: State, t: nat)
    requires ClientStep(s, u, t) && RegistryOk(s)
    ensures RegistryOk(u)
  {
  }

  lemma RegistryWorker(s: State, u: State, w: nat)
    requires WorkerStep(s, u, w) && RegistryOk(s)
    ensures RegistryOk(u)
  {
  }

  lemma SlotClient(s: State, u: State, t: nat)
    requires ClientStep(s, u, t) && SlotOk(s) && RunnerOk(s) && JobsOk(s)
    ensures SlotOk(u)
  {
    hide ClientRegistry, Told;
  }

  lemma SlotWorker(s: State, u: State, w: nat)
    requires WorkerStep(s, u, w) && SlotOk(s) && RunnerOk(s)
    ensures SlotOk(u)
  {
  }

  lemma JobsClient(s: State, u: State, t: nat)
    requires ClientStep(s, u, t) && JobsOk(s)
    ensures JobsOk(u)
  {
  }

  lemma JobsWorker(s: State, u: State, w: nat)
    requires WorkerStep(s, u, w) && JobsOk(s)
    ensures JobsOk(u)
  {
  }

  /** While run holds the free slot every worker is done, so its job is finished or gone from the registry. */
  lemma FreeSlot(s: State, t: nat)
    requires SlotOk(s) && JobsOk(s) && WorkOk(s) && t in s.clients && SlotReserved(s.clients[t])
    ensures s.active == 0
    ensures forall w :: 0 <= w < |s.workers| ==>
              s.workers[w].pc == Done
                && (IsActive(s.jobs[s.workers[w].job].state) ==> s.workers[w].job !in s.registered)
    ensures forall j :: j in s.jobs ==> s.jobs[j].state != Running
  {
  }

  lemma FitsClient(s: State, u: State, t: nat, w: nat)
    requires ClientStep(s, u, t) && JobsOk(s) && JobsOk(u) && WorkOk(s) && OnceOk(s) && w < |u.workers|
    ensures Fits(u.workers[w], u.jobs[u.workers[w].job].state, u.workers[w].job in u.registered)
  {
    assert w < |s.workers| ==> u.workers[w] == s.workers[w];
  }

  lemma WorkClient(s: State, u: State, t: nat)
    requires ClientStep(s, u, t) && SlotOk(s) && JobsOk(s) && JobsOk(u) && WorkOk(s) && OnceOk(s)
    ensures WorkOk(u)
  {
    hide OnceOk, SlotOk;
    if SlotReserved(s.clients[t]) {
      FreeSlot(s, t);
    }
    forall w | 0 <= w < |u.workers|
      ensures Fits(u.workers[w], u.jobs[u.workers[w].job].state, u.workers[w].job in u.registered)
    {
      FitsClient(s, u, t, w);
    }
  }

  lemma WorkWorker(s: State, u: State, w: nat)
    requires WorkerStep(s, u, w) && SlotOk(s) && JobsOk(s) && JobsOk(u) && WorkOk(s) && OnceOk(s)
    ensures WorkOk(u)
  {
  }

  lemma OnceClient(s: State, u: State, t: nat)
    requires ClientStep(s, u, t) && RunnerOk(s) && SlotOk(s) && JobsOk(s) && JobsOk(u) && WorkOk(s) && OnceOk(s)
    ensures OnceOk(u)
  {
    hide WorkOk, SlotOk;
    if SlotReserved(s.clients[t]) {
      FreeSlot(s, t);
    }
  }

  lemma OnceWorker(s: State, u: State, w: nat)
    requires WorkerStep(s, u, w) && SlotOk(s) && JobsOk(s) && JobsOk(u) && WorkOk(s) && OnceOk(s)
    ensures OnceOk(u)
  {
  }

  lemma PolicyClient(s: State, u: State, t: nat)
    requires ClientStep(s, u, t) && RegistryOk(s) && JobsOk(s) && JobsOk(u) && PolicyOk(s)
    ensures PolicyOk(u)
  {
  }

  lemma PolicyWorker(s: State, u: State, w: nat)
    requires WorkerStep(s, u, w) && JobsOk(s) && JobsOk(u) && PolicyOk(s)
    ensures PolicyOk(u)
  {
  }

  /** A debt passes on or is paid. */
  lemma DebtKeptClient(s: State, u: State, t: nat, j: nat)
    requires ClientStep(s, u, t) && JobsOk(s) && JobsOk(u) && FlagsOk(s) && j in u.jobs && u.jobs[j].state == Cancelled
    ensures u.jobs[j].cancelRequested || Owed(u, j)
  {
    if j in s.jobs && s.jobs[j].state == Cancelled && !s.jobs[j].cancelRequested {
      if r :| r in s.clients && s.clients[r].CancelStoring? && s.clients[r].job == j {
        assert r != t ==> u.clients[r] == s.clients[r];
      } else {
        var w :| 0 <= w < |s.workers| && s.workers[w].job == j && s.workers[w].pc == Storing;
        assert u.workers[w] == s.workers[w];
      }
    } else if !u.jobs[j].cancelRequested {
      assert u.clients[t].CancelStoring? && u.clients[t].job == j;
    }
  }

  lemma DebtKeptWorker(s: State, u: State, w: nat, j: nat)
    requires WorkerStep(s, u, w) && JobsOk(s) && JobsOk(u) && FlagsOk(s) && j in u.jobs && u.jobs[j].state == Cancelled
    ensures u.jobs[j].cancelRequested || Owed(u, j)
  {
    if s.jobs[j].state == Cancelled && !s.jobs[j].cancelRequested {
      if r :| r in s.clients && s.clients[r].CancelStoring? && s.clients[r].job == j {
        assert u.clients[r] == s.clients[r];
      } else {
        var v :| 0 <= v < |s.workers| && s.workers[v].job == j && s.workers[v].pc == Storing;
        assert v != w ==> u.workers[v] == s.workers[v];
      }
    } else if !u.jobs[j].cancelRequested {
      assert u.workers[w].job == j && u.workers[w].pc == Storing;
    }
  }

  lemma FlagsClient(s: State, u: State, t: nat)
    requires ClientStep(s, u, t) && JobsOk(s) && JobsOk(u) && FlagsOk(s)
    ensures FlagsOk(u)
  {
    forall j | j in u.jobs && u.jobs[j].state == Cancelled
      ensures u.jobs[j].cancelRequested || Owed(u, j)
    {
      DebtKeptClient(s, u, t, j);
    }
  }

  lemma FlagsWorker(s: State, u: State, w: nat)
    requires WorkerStep(s, u, w) && JobsOk(s) && JobsOk(u) && FlagsOk(s)
    ensures FlagsOk(u)
  {
    forall j | j in u.jobs && u.jobs[j].state == Cancelled
      ensures u.jobs[j].cancelRequested || Owed(u, j)
    {
      DebtKeptWorker(s, u, w, j);
    }
  }

  lemma AskedStaysClient(s: State, u: State, t: nat, w: nat)
    requires ClientStep(s, u, t) && JobsOk(s) && JobsOk(u) && w < |s.workers| && Asked(s, w)
    ensures w < |u.workers| && Asked(u, w)
  {
    assert u.workers[w] == s.workers[w];
  }

  lemma AskedUpToClient(s: State, u: State, t: nat, seen: nat, missed: bool)
    requires ClientStep(s, u, t) && JobsOk(s) && JobsOk(u) && AskedUpTo(s, seen, missed)
    ensures AskedUpTo(u, seen, missed)
  {
    forall w | 0 <= w < seen && !(missed && w == seen - 1)
      ensures Asked(u, w)
    {
      AskedStaysClient(s, u, t, w);
    }
    if missed {
      assert u.workers[seen - 1] == s.workers[seen - 1];
    }
    hide Asked;
  }

  /** The last worker is asked or missed when shutdown leaves its first section; the others are done. */
  lemma AskedAtLeaving(s: State, u: State, t: nat)
    requires ClientStep(s, u, t) && SlotOk(s) && JobsOk(s) && JobsOk(u) && AskedOk(s) && u.clients[t].ShutLeaving?
    ensures AskedUpTo(u, |u.workers|, u.clients[t].missed)
  {
    assert Told(s, u, s.clients[t], u.clients[t].missed);
    forall w | 0 <= w < |s.workers| && !(u.clients[t].missed && w == |s.workers| - 1)
      ensures Asked(u, w)
    {
      if s.workers[w].pc != Done {
        assert s.active == s.workers[w].job;
      }
    }
  }

  lemma AskedSeen(s: State, u: State, t: nat, r: nat)
    requires ClientStep(s, u, t) && JobsOk(s) && JobsOk(u) && AskedOk(s) && r in u.clients && ShutSeen(u.clients[r])
    ensures AskedUpTo(u, u.clients[r].seen, u.clients[r].missed)
  {
    assert r != t ==> u.clients[r] == s.clients[r];
    AskedUpToClient(s, u, t, u.clients[r].seen, u.clients[r].missed);
    hide AskedUpTo, ClientJobs, ClientRegistry, ThreadStep, JobsOk, Told, Hands;
  }

  lemma AskedClient(s: State, u: State, t: nat)
    requires ClientStep(s, u, t) && RunnerOk(s) && SlotOk(s) && JobsOk(s) && JobsOk(u) && AskedOk(s)
    ensures AskedOk(u)
  {
    forall r | r in u.clients && ShutSeen(u.clients[r])
      ensures AskedUpTo(u, u.clients[r].seen, u.clients[r].missed)
    {
      AskedSeen(s, u, t, r);
    }
    AskedOthers(s, u, t);
    forall r | r in u.clients && u.clients[r].ShutLeaving?
      ensures AskedUpTo(u, |u.workers|, u.clients[r].missed)
    {
      if r == t {
        AskedAtLeaving(s, u, t);
      } else {
        AskedUpToClient(s, u, t, |s.workers|, s.clients[r].missed);
      }
    }
    hide AskedUpTo, ClientJobs, ClientRegistry, ThreadStep, SlotOk, JobsOk, Told, Hands, RunnerOk, ShutSeen;
  }

  /** While another thread holds the runner mutex, no worker is launched and the slot stays as it is. */
  lemma AskedOthers(s: State, u: State, t: nat)
    requires ClientStep(s, u, t) && RunnerOk(s)
    ensures forall r :: r in s.clients && r != t && HoldsRunner(s.clients[r]) ==>
              u.clients[r] == s.clients[r] && u.workers == s.workers && u.active == s.active
  {
    hide ClientJobs, ClientRegistry, ThreadStep, Told;
  }

  lemma ThreadClient(s: State, u: State, t: nat)
    requires ClientStep(s, u, t) && RunnerOk(s) && SlotOk(s) && JobsOk(s) && WorkOk(s) && AskedOk(s) && ThreadOk(s)
    ensures ThreadOk(u)
  {
    hide ClientJobs, ClientRegistry, Told, Asked, WorkOk, JobsOk;
    if SlotReserved(s.clients[t]) {
      FreeSlot(s, t);
    }
    forall w | 0 <= w < |u.workers| && u.workers[w].pc != Done
      ensures w == u.thread || Joined(u, w)
    {
      StillJoined(s, u, t, w);
    }
    hide SlotOk;
  }

  /** A worker that is not done stays the one of thread_, or joined. */
  lemma StillJoined(s: State, u: State, t: nat, w: nat)
    requires ClientStep(s, u, t) && SlotOk(s) && ThreadOk(s) && w < |u.workers| && u.workers[w].pc != Done
    requires SlotReserved(s.clients[t]) ==> forall v :: 0 <= v < |s.workers| ==> s.workers[v].pc == Done
    ensures w == u.thread || Joined(u, w)
  {
    hide ClientJobs, ClientRegistry, Told;
    if w < |s.workers| {
      assert u.workers[w] == s.workers[w];
      if r :| r in s.clients && s.clients[r].ShutJoining? && s.clients[r].w == w {
        assert r != t ==> u.clients[r] == s.clients[r];
      } else if u.thread != s.thread {
        assert u.clients[t].ShutJoining? && u.clients[t].w == s.thread;
      }
    }
  }

  lemma ThreadWorker(s: State, u: State, w: nat)
    requires WorkerStep(s, u, w) && ThreadOk(s)
    ensures ThreadOk(u)
  {
    hide WorkerJob;
    forall v | 0 <= v < |u.workers| && u.workers[v].pc != Done
      ensures v == u.thread || Joined(u, v)
    {
      assert v != w ==> u.workers[v] == s.workers[v];
    }
  }

  lemma AskedUpToWorker(s: State, u: State, w: nat, seen: nat, missed: bool)
    requires WorkerStep(s, u, w) && JobsOk(s) && JobsOk(u) && AskedUpTo(s, seen, missed)
    ensures AskedUpTo(u, seen, missed)
  {
    forall v | 0 <= v < seen && !(missed && v == seen - 1)
      ensures Asked(u, v)
    {
      assert Asked(s, v);
    }
  }

  lemma AskedWorker(s: State, u: State, w: nat)
    requires WorkerStep(s, u, w) && RunnerOk(s) && JobsOk(s) && JobsOk(u) && AskedOk(s)
    ensures AskedOk(u)
  {
    forall seen: nat, missed: bool | AskedUpTo(s, seen, missed)
      ensures AskedUpTo(u, seen, missed)
    {
      AskedUpToWorker(s, u, w, seen, missed);
    }
    hide AskedUpTo, WorkerJob, JobsOk;
  }

  // --- Every run ---

  lemma StepShape(s: State, a: Action)
    requires Enabled(s, a) && JobsOk(s)
    ensures CanWork(s, a) ==> WorkerStep(s, Next(s, a), a.w)
    ensures !CanWork(s, a) ==> ClientStep(s, Next(s, a), a.t)
  {
    hide ClientStep, WorkerStep, DoRun, DoCancel, DoShut, DoManage, DoWork, JobsOk;
    if CanRun(s, a) {
      RunShape(s, a);
    } else if CanCancel(s, a) {
      CancelShape(s, a);
    } else if CanShut(s, a) {
      ShutShape(s, a);
    } else if CanManage(s, a) {
      ManageShape(s, a);
    } else {
      WorkShape(s, a);
    }
  }

  lemma InvClient(s: State, u: State, t: nat)
    requires Inv(s) && ClientStep(s, u, t)
    ensures Inv(u)
  {
    hide RunnerOk, SessionOk, RegistryOk, SlotOk, JobsOk, WorkOk, OnceOk, PolicyOk, FlagsOk, AskedOk, ThreadOk,
      ClientStep;
    RunnerClient(s, u, t);
    SessionClient(s, u, t);
    RegistryClient(s, u, t);
    SlotClient(s, u, t);
    JobsClient(s, u, t);
    WorkClient(s, u, t);
    OnceClient(s, u, t);
    PolicyClient(s, u, t);
    FlagsClient(s, u, t);
    AskedClient(s, u, t);
    ThreadClient(s, u, t);
  }

  lemma InvWorker(s: State, u: State, w: nat)
    requires WorkerStep(s, u, w)
    ensures Inv(s) ==> Inv(u)
  {
    hide RunnerOk, SessionOk, RegistryOk, SlotOk, JobsOk, WorkOk, OnceOk, PolicyOk, FlagsOk, AskedOk, ThreadOk,
      WorkerStep;
    if Inv(s) {
      RunnerWorker(s, u, w);
      SessionWorker(s, u, w);
      RegistryWorker(s, u, w);
      SlotWorker(s, u, w);
      JobsWorker(s, u, w);
      WorkWorker(s, u, w);
      OnceWorker(s, u, w);
      PolicyWorker(s, u, w);
      FlagsWorker(s, u, w);
      AskedWorker(s, u, w);
      ThreadWorker(s, u, w);
    }
  }

  lemma InvKept(s: State, a: Action)
    requires Inv(s) && Enabled(s, a)
    ensures Inv(Next(s, a))
  {
    StepShape(s, a);
    if CanWork(s, a) {
      InvWorker(s, Next(s, a), a.w);
    } else {
      InvClient(s, Next(s, a), a.t);
    }
  }
}
