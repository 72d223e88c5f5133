/**
 * The scheduler engine as the registry sees it.  Its dispatch loop, triggers
 * and threads are not part of this model; what the registry relies on is its
 * lifecycle, the jobs it has accepted, and whether each call into it returned
 * or raised, which is an input here.
 */
module Engine {
  import opened Jobs

  datatype Lifecycle = Created | Running | Stopped

  /** The result of a call into the engine: it returned, or raised an exception with this text. */
  datatype Outcome = Returned | Raised(detail: string)

  /** `stop` ends a running scheduler and leaves any other state as it is. */
  function AfterStop(state: Lifecycle): Lifecycle {
    if state == Running then Stopped else state
  }

  class Scheduler {
    var state: Lifecycle
    var jobs: seq<JobSpec>
    const retryInterval: int

    constructor (retryInterval: int)
      ensures state == Created && jobs == [] && this.retryInterval == retryInterval
    {
      state := Created;
      jobs := [];
      this.retryInterval := retryInterval;
    }

    method Start(outcome: Outcome) returns (started: bool)
      modifies this
      ensures started <==> outcome.Returned?
      ensures state == (if started then Running else old(state))
      ensures jobs == old(jobs)
    {
      started := outcome.Returned?;
      if started {
        state := Running;
      }
    }

    method Stop()
      modifies this
      ensures state == AfterStop(old(state))
      ensures jobs == old(jobs)
    {
      state := AfterStop(state);
    }

    method ScheduleJob(spec: JobSpec, outcome: Outcome) returns (scheduled: bool)
      modifies this
      ensures scheduled <==> outcome.Returned?
      ensures jobs == (if scheduled then old(jobs) + [spec] else old(jobs))
      ensures state == old(state)
    {
      scheduled := outcome.Returned?;
      if scheduled {
        jobs := jobs + [spec];
      }
    }
  }
}
