/** Job state transitions and the job registry, one thread at a time (src/web/jobs.cpp). */
module Jobs {
  datatype JobState = Queued | Running | Completed | Failed | Cancelled

  predicate IsActive(s: JobState) {
    s == Queued || s == Running
  }

  // --- Transitions as functions: the outcome of one compare-and-swap ---

  function Started(s: JobState): JobState { if s == Queued then Running else s }
  function CompletedFrom(s: JobState): JobState { if s == Running then Completed else s }
  function FailedFrom(s: JobState): JobState { if IsActive(s) then Failed else s }
  function CancelledFrom(s: JobState): JobState { if IsActive(s) then Cancelled else s }

  /** The life of a job: every transition goes forward along these arrows or changes nothing. */
  predicate Precedes(a: JobState, b: JobState) {
    a == b || a == Queued || (a == Running && b != Queued)
  }

  lemma TransitionsForward(s: JobState)
    ensures Precedes(s, Started(s)) && Precedes(s, CompletedFrom(s)) && Precedes(s, FailedFrom(s))
    ensures Precedes(s, CancelledFrom(s))
    ensures !IsActive(s) ==> Started(s) == s == CompletedFrom(s) == FailedFrom(s) == CancelledFrom(s)
    ensures forall a, b, c :: Precedes(a, b) && Precedes(b, c) ==> Precedes(a, c)
    ensures forall a, b :: Precedes(a, b) && Precedes(b, a) ==> a == b
  {
  }

  class Job {
    const id: nat
    var state: JobState
    var cancelRequested: bool
    var count: nat
    var error: string

    constructor (id: nat)
      ensures this.id == id && state == Queued && !cancelRequested && count == 0 && error == ""
    {
      this.id := id;
      state, cancelRequested, count, error := Queued, false, 0, "";
    }

    /** compare_exchange_strong from one state to another. */
    method Transition(from: JobState, to: JobState) returns (ok: bool)
      modifies `state
      ensures ok == (old(state) == from) && state == (if ok then to else old(state))
    {
      ok := state == from;
      if ok {
        state := to;
      }
    }

    /** The retry loop: with no other thread the first exchange succeeds. */
    method TransitionActiveTo(to: JobState) returns (ok: bool)
      modifies `state
      ensures ok == IsActive(old(state)) && state == (if ok then to else old(state))
    {
      var cur := state;
      if cur != Queued && cur != Running {
        return false;
      }
      ok := Transition(cur, to);
    }

    method Start() returns (ok: bool)
      modifies `state
      ensures ok == (old(state) == Queued) && state == Started(old(state))
    {
      ok := Transition(Queued, Running);
    }

    method Complete(n: nat) returns (ok: bool)
      modifies `state, `count
      ensures ok == (old(state) == Running) && state == CompletedFrom(old(state))
      ensures count == (if ok then n else old(count))
    {
      ok := Transition(Running, Completed);
      if ok {
        count := n;
      }
    }

    method Fail(message: string) returns (ok: bool)
      modifies `state, `error
      ensures ok == IsActive(old(state)) && state == FailedFrom(old(state))
      ensures error == (if ok then message else old(error))
    {
      ok := TransitionActiveTo(Failed);
      if ok {
        error := message;
      }
    }

    method Cancel() returns (ok: bool)
      modifies `state, `cancelRequested
      ensures ok == IsActive(old(state)) && state == CancelledFrom(old(state))
      ensures cancelRequested == (old(cancelRequested) || ok)
    {
      ok := TransitionActiveTo(Cancelled);
      if ok {
        cancelRequested := true;
      }
    }

    method RequestCancel()
      modifies `cancelRequested
      ensures cancelRequested
    {
      cancelRequested := true;
    }
  }

  class JobRegistry {
    var nextId: nat
    var jobs: map<nat, Job>

    /** Ids are handed out upwards from 1, each to its own job, and at most one job is active. */
    ghost predicate Valid()
      reads this, jobs.Values
    {
      && nextId >= 1
      && (forall i :: i in jobs ==> 1 <= i < nextId && jobs[i].id == i)
      && (forall i, j :: i in jobs && j in jobs && IsActive(jobs[i].state) && IsActive(jobs[j].state) ==> i == j)
    }

    constructor ()
      ensures Valid() && nextId == 1 && jobs == map[]
    {
      nextId, jobs := 1, map[];
    }

    /** A new QUEUED job under an id never used before, or 0 when one is active already. */
    method Create() returns (id: nat)
      requires Valid()
      modifies this
      ensures Valid()
      ensures id == 0 <==> exists i :: i in old(jobs) && IsActive(old(jobs[i].state))
      ensures id == 0 ==> jobs == old(jobs) && nextId == old(nextId)
      ensures id != 0 ==>
                && id == old(nextId) && nextId == id + 1 && id !in old(jobs)
                && jobs.Keys == old(jobs).Keys + {id} && (forall i :: i in old(jobs) ==> jobs[i] == old(jobs)[i])
                && fresh(jobs[id]) && jobs[id].state == Queued && !jobs[id].cancelRequested
    {
      var rest := jobs.Keys;
      while rest != {}
        invariant rest <= jobs.Keys
        invariant forall i :: i in jobs && i !in rest ==> !IsActive(jobs[i].state)
        decreases |rest|
      {
        var i :| i in rest;
        var s := jobs[i].state;
        if s == Queued || s == Running {
          return 0;
        }
        rest := rest - {i};
      }
      id := nextId;
      nextId := nextId + 1;
      var job := new Job(id);
      jobs := jobs[id := job];
    }

    /** QUEUED: cancelled on the spot; RUNNING: only the flag; finished: nothing, not even the flag. */
    method RequestCancel(id: nat) returns (ok: bool)
      requires Valid()
      modifies if id in jobs then {jobs[id]} else {}
      ensures Valid() && ok == (id in jobs)
      ensures id in jobs ==>
                && jobs[id].state == (if old(jobs[id].state) == Queued then Cancelled else old(jobs[id].state))
                && jobs[id].cancelRequested == (old(jobs[id].cancelRequested) || IsActive(old(jobs[id].state)))
                && jobs[id].count == old(jobs[id].count) && jobs[id].error == old(jobs[id].error)
    {
      if id !in jobs {
        return false;
      }
      var j := jobs[id];
      if j.state == Queued {
        ok := j.Cancel();
        return;
      }
      if j.state == Running {
        j.RequestCancel();
      }
      return true;
    }

    /** Only finished jobs go; the others stay as they are. */
    method ClearFinished()
      requires Valid()
      modifies this`jobs
      ensures Valid()
      ensures jobs.Keys == set i | i in old(jobs) && IsActive(old(jobs)[i].state)
      ensures forall i :: i in jobs ==> jobs[i] == old(jobs)[i]
    {
      var rest := jobs.Keys;
      while rest != {}
        invariant rest <= jobs.Keys <= old(jobs).Keys
        invariant forall i :: i in jobs ==> jobs[i] == old(jobs)[i]
        invariant forall i :: i in old(jobs) && i !in rest ==> (i in jobs <==> IsActive(old(jobs)[i].state))
        decreases |rest|
      {
        var i :| i in rest;
        var s := jobs[i].state;
        if s == Completed || s == Failed || s == Cancelled {
          jobs := jobs - {i};
        }
        rest := rest - {i};
      }
    }

    method Remove(id: nat) returns (ok: bool)
      requires Valid()
      modifies this`jobs
      ensures Valid() && ok == (id in old(jobs)) && jobs == old(jobs) - {id}
    {
      ok := id in jobs;
      jobs := jobs - {id};
    }

    /** The id of the one active job, or 0. */
    method ActiveJobId() returns (id: nat)
      requires Valid()
      ensures id == 0 ==> forall i :: i in jobs ==> !IsActive(jobs[i].state)
      ensures id != 0 ==> id in jobs && IsActive(jobs[id].state)
    {
      var rest := jobs.Keys;
      while rest != {}
        invariant rest <= jobs.Keys
        invariant forall i :: i in jobs && i !in rest ==> !IsActive(jobs[i].state)
        decreases |rest|
      {
        var i :| i in rest;
        if IsActive(jobs[i].state) {
          return i;
        }
        rest := rest - {i};
      }
      return 0;
    }
  }
}
