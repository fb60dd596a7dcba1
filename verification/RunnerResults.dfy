/** How jobs end: the final state of a job is what its worker's task came to, unless a late cancel was faster. */
module RunnerResults {
  import opened Jobs
  import opened JobRunner
  import opened RunnerSafety

  /** What is known of a worker's task. */
  datatype Outcome = Nothing | CameTo(r: TaskResult)

  // --- What happened so far in a run ---

  /** What a worker's task came to: what it returned, or that the worker saw the flag up at its test and left it out. */
  function ToldBy(s: State, a: Action, w: nat, before: Outcome): Outcome {
    if a.WorkerReturn? && a.w == w then CameTo(a.r)
    else if a.WorkerTest? && a.w == w && SeesFlag(s, w) then CameTo(WasCancelled)
    else before
  }

  predicate SeesFlag(s: State, w: nat) {
    w < |s.workers| && s.workers[w].job in s.jobs && s.jobs[s.workers[w].job].cancelRequested
  }

  /** A request_cancel exchanges the state of a job that is still QUEUED or RUNNING. */
  predicate Swaps(s: State, a: Action, j: nat) {
    && a.CancelSwap? && a.t in s.clients && s.clients[a.t].CancelSwapping? && s.clients[a.t].job == j
    && j in s.jobs && s.jobs[j].state in {Queued, Running}
  }

  ghost function ResultOf(states: seq<State>, acts: seq<Action>, k: nat, w: nat): Outcome
    requires k <= |acts| <= |states|
  {
    if k == 0 then Nothing else ToldBy(states[k - 1], acts[k - 1], w, ResultOf(states, acts, k - 1, w))
  }

  ghost predicate Swapped(states: seq<State>, acts: seq<Action>, k: nat, j: nat)
    requires k <= |acts| <= |states|
  {
    k > 0 && (Swaps(states[k - 1], acts[k - 1], j) || Swapped(states, acts, k - 1, j))
  }

  /** At some moment before. */
  lemma {:induction false} SwappedSpec(states: seq<State>, acts: seq<Action>, k: nat, j: nat)
    requires k <= |acts| <= |states|
    ensures Swapped(states, acts, k, j) <==> exists i :: 0 <= i < k && Swaps(states[i], acts[i], j)
  {
    hide Swaps;
    if k > 0 {
      SwappedSpec(states, acts, k - 1, j);
    }
  }

  // --- What that says of the states ---

  /** A cancel that made its exchange settles the state; else it is as given. */
  function Unless(cancelled: bool, st: JobState): JobState {
    if cancelled then Cancelled else st
  }

  function EndOf(r: TaskResult): JobState {
    match r
    case Succeeded => Completed
    case WentWrong => Failed
    case WasCancelled => Cancelled
  }

  predicate Tale(pc: WorkerPc, st: JobState, told: Outcome, cancelled: bool) {
    match pc
    case Looking | Starting => told == Nothing && st == Unless(cancelled, Queued)
    case Entering | Testing | Executing => told == Nothing && st == Unless(cancelled, Running)
    case Leaving(r) => told == CameTo(r) && st == Unless(cancelled, Running)
    case Finishing(r) => told == CameTo(r) && st == Unless(cancelled, Running)
    case Storing => told == CameTo(WasCancelled) && st == Cancelled
    case _ => st == Unless(cancelled, if told == Nothing then Queued else EndOf(told.r))
  }

  predicate Unclaimed(s: State, j: nat) {
    forall w :: 0 <= w < |s.workers| ==> s.workers[w].job != j
  }

  ghost predicate Story(s: State, told: nat -> Outcome, cancelled: nat -> bool)
    requires JobsOk(s)
  {
    && (forall j: nat :: cancelled(j) ==> j in s.jobs && s.jobs[j].state == Cancelled)
    && (forall j: nat :: j in s.jobs && Unclaimed(s, j) ==> s.jobs[j].state == Unless(cancelled(j), Queued))
    && (forall w: nat :: w >= |s.workers| ==> told(w) == Nothing)
    && (forall w: nat :: w < |s.workers| ==>
          Tale(s.workers[w].pc, s.jobs[s.workers[w].job].state, told(w), cancelled(s.workers[w].job)))
  }

  /** What the worker's own step makes of its tale. */
  predicate OwnTale(s: State, a: Action, told: Outcome, cancelled: bool)
    requires CanWork(s, a) && s.workers[a.w].job in s.jobs
  {
    var u, j := DoWork(s, a), s.workers[a.w].job;
    && |u.workers| == |s.workers| && u.workers[a.w].job == j && j in u.jobs
    && Tale(u.workers[a.w].pc, u.jobs[j].state, ToldBy(s, a, a.w, told), cancelled)
    && (cancelled ==> u.jobs[j].state == Cancelled)
  }

  lemma EarlyTale(s: State, a: Action, told: Outcome, cancelled: bool)
    requires CanWork(s, a) && BeforeTask(a) && s.workers[a.w].job in s.jobs
    requires Tale(s.workers[a.w].pc, s.jobs[s.workers[a.w].job].state, told, cancelled)
    requires cancelled ==> s.jobs[s.workers[a.w].job].state == Cancelled
    ensures OwnTale(s, a, told, cancelled)
  {
  }

  lemma ReturnTale(s: State, a: Action, told: Outcome, cancelled: bool)
    requires CanWork(s, a) && (a.WorkerReturn? || a.WorkerLeave? || a.WorkerFinish?) && s.workers[a.w].job in s.jobs
    requires Tale(s.workers[a.w].pc, s.jobs[s.workers[a.w].job].state, told, cancelled)
    requires cancelled ==> s.jobs[s.workers[a.w].job].state == Cancelled
    ensures OwnTale(s, a, told, cancelled)
  {
  }

  lemma LateTale(s: State, a: Action, told: Outcome, cancelled: bool)
    requires CanWork(s, a) && (a.WorkerStore? || a.WorkerTake? || a.WorkerClear?) && s.workers[a.w].job in s.jobs
    requires Tale(s.workers[a.w].pc, s.jobs[s.workers[a.w].job].state, told, cancelled)
    requires cancelled ==> s.jobs[s.workers[a.w].job].state == Cancelled
    ensures OwnTale(s, a, told, cancelled)
  {
  }

  lemma WorkerTale(s: State, a: Action, told: Outcome, cancelled: bool)
    requires CanWork(s, a) && s.workers[a.w].job in s.jobs
    requires Tale(s.workers[a.w].pc, s.jobs[s.workers[a.w].job].state, told, cancelled)
    requires cancelled ==> s.jobs[s.workers[a.w].job].state == Cancelled
    ensures OwnTale(s, a, told, cancelled)
  {
    if BeforeTask(a) {
      EarlyTale(s, a, told, cancelled);
    } else if a.WorkerReturn? || a.WorkerLeave? || a.WorkerFinish? {
      ReturnTale(s, a, told, cancelled);
    } else {
      LateTale(s, a, told, cancelled);
    }
    hide *;
  }

  // --- One step ---

  /** told and cancelled after the step are what it makes of them before. */
  ghost predicate Grows(s: State, a: Action, told: nat -> Outcome, cancelled: nat -> bool,
                        told': nat -> Outcome, cancelled': nat -> bool)
  {
    && (forall w: nat :: told'(w) == ToldBy(s, a, w, told(w)))
    && (forall j: nat :: cancelled'(j) == (Swaps(s, a, j) || cancelled(j)))
  }

  /** The one worker moves, and no job but its own changes. */
  predicate OnlyOwn(s: State, u: State, w: nat) {
    && w < |s.workers| == |u.workers|
    && u.workers == s.workers[w := u.workers[w]] && u.workers[w].job == s.workers[w].job
    && s.workers[w].job in s.jobs && s.workers[w].job in u.jobs
    && u.jobs == s.jobs[s.workers[w].job := u.jobs[s.workers[w].job]]
    && forall v :: 0 <= v < |s.workers| && v != w ==> s.workers[v].job != s.workers[w].job
  }

  lemma WorkerOnlyOwn(s: State, a: Action)
    requires CanWork(s, a) && JobsOk(s) && OnceOk(s)
    ensures OnlyOwn(s, DoWork(s, a), a.w)
  {
    WorkMove(s, a);
    hide DoWork, CanWork;
  }

  lemma NoSwap(s: State, a: Action, j: nat)
    requires CanWork(s, a)
    ensures !Swaps(s, a, j)
  {
  }

  lemma OtherWorker(s: State, a: Action, w: nat, before: Outcome)
    requires CanWork(s, a) && a.w != w
    ensures ToldBy(s, a, w, before) == before
  {
  }

  lemma StoryOwn(s: State, u: State, w: nat, told: nat -> Outcome, cancelled: nat -> bool,
                 told': nat -> Outcome, cancelled': nat -> bool)
    requires OnlyOwn(s, u, w) && JobsOk(s) && JobsOk(u) && Story(s, told, cancelled)
    requires forall v: nat :: v != w ==> told'(v) == told(v)
    requires forall j: nat :: cancelled'(j) == cancelled(j)
    requires Tale(u.workers[w].pc, u.jobs[u.workers[w].job].state, told'(w), cancelled(u.workers[w].job))
    requires cancelled(u.workers[w].job) ==> u.jobs[u.workers[w].job].state == Cancelled
    ensures Story(u, told', cancelled')
  {
    hide Tale, JobsOk, Unless;
    forall j: nat | Unclaimed(u, j)
      ensures Unclaimed(s, j) && j != s.workers[w].job
    {
      assert forall v :: 0 <= v < |s.workers| ==> u.workers[v].job == s.workers[v].job;
    }
  }

  lemma StoryWorker(s: State, a: Action, told: nat -> Outcome, cancelled: nat -> bool,
                    told': nat -> Outcome, cancelled': nat -> bool)
    requires CanWork(s, a) && JobsOk(s) && OnceOk(s) && JobsOk(DoWork(s, a)) && Story(s, told, cancelled)
    requires Grows(s, a, told, cancelled, told', cancelled')
    ensures Story(DoWork(s, a), told', cancelled')
  {
    WorkerOnlyOwn(s, a);
    WorkerTale(s, a, told(a.w), cancelled(s.workers[a.w].job));
    hide DoWork, Tale, Swaps, ToldBy, OnceOk, JobsOk;
    forall j: nat
      ensures cancelled'(j) == cancelled(j)
    {
      NoSwap(s, a, j);
    }
    forall w: nat | w != a.w
      ensures told'(w) == told(w)
    {
      OtherWorker(s, a, w, told(w));
    }
    hide CanWork;
    StoryOwn(s, DoWork(s, a), a.w, told, cancelled, told', cancelled');
  }

  /**
   * Jobs change by the exchange of a request_cancel alone; new ones are QUEUED; a new worker takes a job of no
   * other.
   */
  predicate FromOutside(s: State, u: State, a: Action) {
    && (forall j :: j in s.jobs ==>
          j in u.jobs && u.jobs[j].state == if Swaps(s, a, j) then Cancelled else s.jobs[j].state)
    && (forall j :: j in u.jobs && j !in s.jobs ==> u.jobs[j].state == Queued)
    && (u.workers == s.workers
        || exists j :: j in s.jobs && Unclaimed(s, j) && u.workers == s.workers + [WorkerThread(j, Looking, true)])
  }

  lemma ClientJob(s: State, a: Action, j: nat)
    requires JobsOk(s) && j in s.jobs && Enabled(s, a) && !CanWork(s, a)
    ensures j in Next(s, a).jobs
    ensures Next(s, a).jobs[j].state == if Swaps(s, a, j) then Cancelled else s.jobs[j].state
  {
    ClientTouches(s, a, j);
    hide Next, JobsOk;
  }

  lemma NewOutside(s: State, u: State, t: nat)
    requires ClientStep(s, u, t) && JobsOk(s) && OnceOk(s)
    ensures forall j :: j in u.jobs && j !in s.jobs ==> u.jobs[j].state == Queued
    ensures u.workers == s.workers
            || exists j :: j in s.jobs && Unclaimed(s, j) && u.workers == s.workers + [WorkerThread(j, Looking, true)]
  {
    hide Hands, JobRunner.Told, ThreadStep, ClientJobs;
    if u.workers != s.workers {
      assert Unclaimed(s, s.clients[t].job);
    }
  }

  lemma OldJobs(s: State, a: Action)
    requires JobsOk(s) && Enabled(s, a) && !CanWork(s, a)
    ensures forall j :: j in s.jobs ==>
              && j in Next(s, a).jobs
              && Next(s, a).jobs[j].state == if Swaps(s, a, j) then Cancelled else s.jobs[j].state
  {
    hide JobsOk, CanWork, Next, Swaps;
    forall j | j in s.jobs
      ensures j in Next(s, a).jobs && Next(s, a).jobs[j].state == if Swaps(s, a, j) then Cancelled else s.jobs[j].state
    {
      ClientJob(s, a, j);
    }
    hide Enabled;
  }

  lemma SomeClient(s: State, a: Action) returns (t: nat)
    requires Enabled(s, a) && !CanWork(s, a) && JobsOk(s)
    ensures ClientStep(s, Next(s, a), t)
  {
    hide Next, ClientStep, JobsOk;
    StepShape(s, a);
    t := a.t;
  }

  lemma ClientFromOutside(s: State, a: Action)
    requires Enabled(s, a) && !CanWork(s, a) && JobsOk(s) && OnceOk(s)
    ensures FromOutside(s, Next(s, a), a)
  {
    hide Enabled, CanWork, Next, ClientStep, Swaps, Unclaimed, JobsOk, OnceOk;
    var t := SomeClient(s, a);
    NewOutside(s, Next(s, a), t);
    OldJobs(s, a);
  }

  lemma NotWork(s: State, a: Action, w: nat, before: Outcome)
    requires Enabled(s, a) && !CanWork(s, a)
    ensures ToldBy(s, a, w, before) == before
  {
  }

  lemma TaleCancelled(pc: WorkerPc, st: JobState, told: Outcome, cancelled: bool)
    requires Tale(pc, st, told, cancelled)
    ensures Tale(pc, Cancelled, told, true)
  {
  }

  lemma OldTale(s: State, u: State, a: Action, w: nat, told: nat -> Outcome, cancelled: nat -> bool,
                told': nat -> Outcome, cancelled': nat -> bool)
    requires JobsOk(s) && FromOutside(s, u, a) && Story(s, told, cancelled) && w < |s.workers|
    requires told'(w) == told(w)
    requires forall j: nat :: cancelled'(j) == (Swaps(s, a, j) || cancelled(j))
    ensures s.workers[w].job in u.jobs
    ensures Tale(s.workers[w].pc, u.jobs[s.workers[w].job].state, told'(w), cancelled'(s.workers[w].job))
  {
    hide Swaps, Tale;
    TaleCancelled(s.workers[w].pc, s.jobs[s.workers[w].job].state, told(w), cancelled(s.workers[w].job));
  }

  lemma StoryClient(s: State, a: Action, told: nat -> Outcome, cancelled: nat -> bool,
                    told': nat -> Outcome, cancelled': nat -> bool)
    requires Enabled(s, a) && !CanWork(s, a)
    requires JobsOk(s) && OnceOk(s) && JobsOk(Next(s, a)) && Story(s, told, cancelled)
    requires Grows(s, a, told, cancelled, told', cancelled')
    ensures Story(Next(s, a), told', cancelled')
  {
    hide Enabled, CanWork, Next, OnceOk, Swaps, ToldBy;
    var u := Next(s, a);
    ClientFromOutside(s, a);
    forall w: nat
      ensures told'(w) == told(w)
    {
      NotWork(s, a, w, told(w));
    }
    forall j: nat | Unclaimed(u, j)
      ensures Unclaimed(s, j)
    {
      assert forall w :: 0 <= w < |s.workers| ==> u.workers[w] == s.workers[w];
    }
    forall w: nat | w < |u.workers|
      ensures Tale(u.workers[w].pc, u.jobs[u.workers[w].job].state, told'(w), cancelled'(u.workers[w].job))
    {
      if w < |s.workers| {
        assert u.workers[w] == s.workers[w];
        OldTale(s, u, a, w, told, cancelled, told', cancelled');
      }
    }
    assert forall j: nat :: Swaps(s, a, j) ==> j in s.jobs by {
      SwapsExisting(s, a);
    }
    hide Tale;
  }

  lemma SwapsExisting(s: State, a: Action)
    ensures forall j: nat :: Swaps(s, a, j) ==> j in s.jobs && IsActive(s.jobs[j].state)
  {
  }

  // --- Every run ---

  ghost function KnownAt(states: seq<State>, acts: seq<Action>, k: nat): nat -> Outcome
    requires k <= |acts| <= |states|
  {
    (w: nat) => ResultOf(states, acts, k, w)
  }

  ghost function SwappedAt(states: seq<State>, acts: seq<Action>, k: nat): nat -> bool
    requires k <= |acts| <= |states|
  {
    (j: nat) => Swapped(states, acts, k, j)
  }

  lemma InvParts(states: seq<State>, acts: seq<Action>, k: nat)
    requires Trace(states, acts) && k <= |acts|
    ensures JobsOk(states[k]) && OnceOk(states[k])
    ensures k > 0 ==> Enabled(states[k - 1], acts[k - 1]) && states[k] == Next(states[k - 1], acts[k - 1])
  {
    Always(states, acts, k);
    hide Enabled, Next, JobsOk, OnceOk;
  }

  lemma {:induction false} StoryAlways(states: seq<State>, acts: seq<Action>, k: nat)
    requires Trace(states, acts) && k <= |acts|
    ensures JobsOk(states[k]) && Story(states[k], KnownAt(states, acts, k), SwappedAt(states, acts, k))
  {
    InvParts(states, acts, k);
    if k > 0 {
      InvParts(states, acts, k - 1);
      StoryAlways(states, acts, k - 1);
      hide Trace, Enabled, Next, JobsOk, OnceOk, Story, Swaps, ToldBy;
      StoryNext(states[k - 1], acts[k - 1], KnownAt(states, acts, k - 1), SwappedAt(states, acts, k - 1),
                KnownAt(states, acts, k), SwappedAt(states, acts, k));
    }
  }

  lemma StoryNext(s: State, a: Action, told: nat -> Outcome, cancelled: nat -> bool,
                  told': nat -> Outcome, cancelled': nat -> bool)
    requires Enabled(s, a) && JobsOk(s) && OnceOk(s) && JobsOk(Next(s, a)) && Story(s, told, cancelled)
    requires Grows(s, a, told, cancelled, told', cancelled')
    ensures Story(Next(s, a), told', cancelled')
  {
    hide Story, Grows, OnceOk, JobsOk;
    if CanWork(s, a) {
      StoryWorker(s, a, told, cancelled, told', cancelled');
    } else {
      StoryClient(s, a, told, cancelled, told', cancelled');
    }
  }

  // --- How jobs end ---

  /** Worker w comes to know its task's result with this step: the task returned it, or the flag was up at the test. */
  predicate Learns(s: State, a: Action, w: nat, r: TaskResult) {
    a == WorkerReturn(w, r) || (a == WorkerTest(w) && SeesFlag(s, w) && r == WasCancelled)
  }

  /** Past the exchange that ends its job, or past giving it up. */
  predicate Ended(pc: WorkerPc) {
    pc == Storing || pc == Freeing || pc == Clearing || pc == Done
  }

  /** A worker learns at most once, and what it learnt stays. */
  lemma {:induction false} LearntOnce(states: seq<State>, acts: seq<Action>, i: nat, k: nat, w: nat, r: TaskResult)
    requires Trace(states, acts) && i < k <= |acts| && Learns(states[i], acts[i], w, r)
    ensures ResultOf(states, acts, k, w) == CameTo(r)
    decreases k
  {
    hide Enabled, Next, JobsOk, Story;
    if i + 1 < k {
      LearntOnce(states, acts, i, k - 1, w, r);
      StoryAlways(states, acts, k - 1);
      InvParts(states, acts, k);
      hide Trace, Learns, SeesFlag;
      StillTold(states[k - 1], acts[k - 1], KnownAt(states, acts, k - 1), SwappedAt(states, acts, k - 1), w);
    }
  }

  lemma StillTold(s: State, a: Action, told: nat -> Outcome, cancelled: nat -> bool, w: nat)
    requires JobsOk(s) && Story(s, told, cancelled) && Enabled(s, a) && told(w) != Nothing
    ensures ToldBy(s, a, w, told(w)) == told(w)
  {
  }

  /** The result known is the one of the step with which the worker learnt it. */
  lemma {:induction false} ResultSpec(states: seq<State>, acts: seq<Action>, k: nat, w: nat, r: TaskResult)
    requires Trace(states, acts) && k <= |acts|
    ensures ResultOf(states, acts, k, w) == CameTo(r)
            <==> exists i :: 0 <= i < k && Learns(states[i], acts[i], w, r)
  {
    if k > 0 && ResultOf(states, acts, k, w) == CameTo(r) {
      if !Learns(states[k - 1], acts[k - 1], w, r) {
        ResultSpec(states, acts, k - 1, w, r);
      }
    }
    if i :| 0 <= i < k && Learns(states[i], acts[i], w, r) {
      LearntOnce(states, acts, i, k, w, r);
    }
  }

  /**
   * What a worker learnt decides how its job ends: until then it is RUNNING, then COMPLETED, FAILED or
   * CANCELLED as the task came out, and CANCELLED at once where a request_cancel made its exchange.
   */
  lemma LearntDecides(states: seq<State>, acts: seq<Action>, i: nat, k: nat, w: nat, r: TaskResult)
    requires Trace(states, acts) && i < k <= |acts| && Learns(states[i], acts[i], w, r)
    ensures w < |states[k].workers| && states[k].workers[w].job in states[k].jobs
    ensures var pc, j := states[k].workers[w].pc, states[k].workers[w].job;
            var st := states[k].jobs[j].state;
            && (pc == Leaving(r) || pc == Finishing(r) || Ended(pc))
            && (Swapped(states, acts, k, j) ==> st == Cancelled)
            && (!Swapped(states, acts, k, j) && !Ended(pc) ==> st == Running)
            && (!Swapped(states, acts, k, j) && Ended(pc) ==>
                  && (r == Succeeded ==> st == Completed) && (r == WentWrong ==> st == Failed)
                  && (r == WasCancelled ==> st == Cancelled))
  {
    LearntOnce(states, acts, i, k, w, r);
    StoryAlways(states, acts, k);
    assert KnownAt(states, acts, k)(w) == CameTo(r);
    hide Trace, Learns, ResultOf, Swapped;
  }

  /** A cancelled task's job is never COMPLETED or FAILED, at any later moment. */
  lemma CancelledNeverFinishes(states: seq<State>, acts: seq<Action>, i: nat, k: nat, w: nat)
    requires Trace(states, acts) && i < k <= |acts| && Learns(states[i], acts[i], w, WasCancelled)
    ensures w < |states[k].workers| && states[k].workers[w].job in states[k].jobs
    ensures states[k].jobs[states[k].workers[w].job].state !in {Completed, Failed}
  {
    LearntDecides(states, acts, i, k, w, WasCancelled);
  }

  /** The flag is read once, at the test: up, the task is never entered; down, it is entered there. */
  lemma TestDecides(states: seq<State>, acts: seq<Action>, i: nat, k: nat, w: nat)
    requires Trace(states, acts) && i < k <= |acts| && acts[i] == WorkerTest(w)
    ensures w < |states[k].workers|
    ensures SeesFlag(states[i], w) ==> states[k].workers[w].pc != Executing
    ensures !SeesFlag(states[i], w) ==> states[i + 1].workers[w].pc == Executing
  {
    InvParts(states, acts, i + 1);
    if SeesFlag(states[i], w) {
      LearntDecides(states, acts, i, k, w, WasCancelled);
    } else {
      MoreWorkers(states, acts, i + 1, k);
    }
  }

  lemma MoreAfter(s: State, a: Action)
    requires JobsOk(s) && Enabled(s, a)
    ensures |s.workers| <= |Next(s, a).workers|
  {
    hide JobsOk, Next;
    StepShape(s, a);
    hide Enabled, Hands, ThreadStep, ClientJobs, ClientRegistry, JobRunner.Told;
  }

  lemma {:induction false} MoreWorkers(states: seq<State>, acts: seq<Action>, i: nat, k: nat)
    requires Trace(states, acts) && i <= k <= |acts|
    ensures |states[i].workers| <= |states[k].workers|
    decreases k
  {
    if i < k {
      MoreWorkers(states, acts, i, k - 1);
      InvParts(states, acts, k - 1);
      InvParts(states, acts, k);
      MoreAfter(states[k - 1], acts[k - 1]);
      hide *;
    }
  }

  /** Some worker of job j has learnt r and made its last exchange. */
  ghost predicate EndedBy(states: seq<State>, acts: seq<Action>, k: nat, j: nat, r: TaskResult)
    requires k <= |acts| < |states|
  {
    exists w :: 0 <= w < |states[k].workers| && states[k].workers[w].job == j && Ended(states[k].workers[w].pc)
                && ResultOf(states, acts, k, w) == CameTo(r)
  }

  /** Each final state has exactly its own cause. */
  lemma EndsExactly(states: seq<State>, acts: seq<Action>, k: nat, j: nat)
    requires Trace(states, acts) && k <= |acts| && j in states[k].jobs
    ensures states[k].jobs[j].state == Completed
            <==> !Swapped(states, acts, k, j) && EndedBy(states, acts, k, j, Succeeded)
    ensures states[k].jobs[j].state == Failed
            <==> !Swapped(states, acts, k, j) && EndedBy(states, acts, k, j, WentWrong)
    ensures states[k].jobs[j].state == Cancelled
            <==> Swapped(states, acts, k, j) || EndedBy(states, acts, k, j, WasCancelled)
  {
    StoryAlways(states, acts, k);
    EndsInStory(states[k], KnownAt(states, acts, k), SwappedAt(states, acts, k), j);
  }

  predicate EndedIn(s: State, told: nat -> Outcome, j: nat, r: TaskResult) {
    exists w :: 0 <= w < |s.workers| && s.workers[w].job == j && Ended(s.workers[w].pc) && told(w) == CameTo(r)
  }

  lemma EndsInStory(s: State, told: nat -> Outcome, cancelled: nat -> bool, j: nat)
    requires JobsOk(s) && Story(s, told, cancelled) && j in s.jobs
    ensures s.jobs[j].state == Completed <==> !cancelled(j) && EndedIn(s, told, j, Succeeded)
    ensures s.jobs[j].state == Failed <==> !cancelled(j) && EndedIn(s, told, j, WentWrong)
    ensures s.jobs[j].state == Cancelled <==> cancelled(j) || EndedIn(s, told, j, WasCancelled)
  {
  }

  lemma CancelSettles(s: State, a: Action)
    requires JobsOk(s) && CanCancel(s, a) && Cancelling(s.clients[a.t])
    ensures var u, j := Next(s, a), s.clients[a.t].job;
            a.t in u.clients && j in u.jobs
            && (Cancelling(u.clients[a.t]) || u.jobs[j].cancelRequested || !IsActive(u.jobs[j].state))
  {
  }

  /** When request_cancel is over its job is flagged or no longer active; a QUEUED one it does not leave so. */
  lemma CancelReturns(s: State, a: Action)
    requires Reachable(s) && CanCancel(s, a) && Cancelling(s.clients[a.t])
    ensures var u, j := Next(s, a), s.clients[a.t].job;
            a.t in u.clients && j in u.jobs
            && (Cancelling(u.clients[a.t]) || u.jobs[j].cancelRequested || !IsActive(u.jobs[j].state))
  {
    Holds(s);
    CancelSettles(s, a);
    hide *;
  }
}
