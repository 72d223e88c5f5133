/**
 * The process-wide registry of job schedulers: a dictionary from a badge to a
 * scheduler, with operations to create, destroy, start and stop the scheduler
 * of a badge and to schedule one job or a batch of jobs on it.  Every
 * operation reports its problems by appending messages to the caller's
 * optional error list.
 */
module SchedulerRegistry {
  import opened Wrappers
  import opened CronPattern
  import opened ErrorLog
  import opened Jobs
  import opened Engine

  const DefaultBadge: string := "__default__"

  /** The badge `AssertAccess` creates and destroys. */
  const TempBadge: string := "__temp__"

  /** The retry interval, in minutes, when the environment does not set one. */
  const DefaultRetryInterval: int := 10

  /** What the registry can observe of one scheduler. */
  datatype Snapshot = Snapshot(state: Lifecycle, jobs: seq<JobSpec>, retryInterval: int)

  // ---------------------------------------------------------------------------
  // Scheduling one job on a scheduler.

  /**
   * The CRON pre-check: an absent or empty expression is not checked at all;
   * any other must pass the pattern search.
   */
  predicate CronPasses(pattern: Pattern, cron: Option<string>) {
    cron.None? || cron.value == [] || Search(pattern, cron.value)
  }

  /** A request ends up scheduled when it passes the pre-check and the engine accepts it. */
  predicate Admitted(pattern: Pattern, spec: JobSpec, outcome: Outcome) {
    CronPasses(pattern, spec.cron) && outcome.Returned?
  }

  /** The message a request leaves in the error list, if any. */
  function Complaint(pattern: Pattern, spec: JobSpec, outcome: Outcome): seq<string> {
    if !CronPasses(pattern, spec.cron) then [InvalidCron(spec.cron.value)]
    else if outcome.Raised? then [ScheduleFailed(spec.name, spec.id, spec.cron, outcome.detail)]
    else []
  }

  /** Every request is either scheduled or reported, and reported at most once. */
  lemma ScheduledOrReported(pattern: Pattern, spec: JobSpec, outcome: Outcome)
    ensures Admitted(pattern, spec, outcome) <==> Complaint(pattern, spec, outcome) == []
    ensures |Complaint(pattern, spec, outcome)| <= 1
  {
  }

  /**
   * With the pattern as written, a job whose CRON expression is an alias such
   * as `@daily` never reaches the engine and is reported as invalid.
   */
  lemma AliasRefusedAsWritten(spec: JobSpec, outcome: Outcome, a: string)
    requires a in Aliases && spec.cron == Some("@" + a)
    ensures !Admitted(AsWritten, spec, outcome)
    ensures Complaint(AsWritten, spec, outcome) == [InvalidCron("@" + a)]
  {
    AliasesRejectedAsWritten(a);
  }

  /** With the corrected pattern, the same job goes to the engine, whose outcome decides. */
  lemma AliasAdmittedCorrected(spec: JobSpec, outcome: Outcome, a: string)
    requires a in Aliases && spec.cron == Some("@" + a)
    ensures Admitted(Corrected, spec, outcome) <==> outcome.Returned?
    ensures Complaint(Corrected, spec, outcome) ==
            (if outcome.Raised? then [ScheduleFailed(spec.name, spec.id, spec.cron, outcome.detail)] else [])
  {
    AliasesAccepted(a);
  }

  /**
   * Schedule `spec` on `scheduler`: a non-empty CRON expression that fails the
   * pre-check is reported and the engine is not called; otherwise the engine's
   * outcome decides.
   */
  method ScheduleOn(pattern: Pattern, errors: Errors, scheduler: Scheduler, spec: JobSpec, outcome: Outcome)
    returns (scheduled: bool, errs: Errors)
    modifies scheduler
    ensures scheduled <==> Admitted(pattern, spec, outcome)
    ensures scheduler.jobs == old(scheduler.jobs) + (if scheduled then [spec] else [])
    ensures scheduler.state == old(scheduler.state)
    ensures errs == Log(errors, Complaint(pattern, spec, outcome))
  {
    scheduled := false;
    var message: Option<string> := None;
    if spec.cron.Some? && spec.cron.value != [] && !Search(pattern, spec.cron.value) {
      message := Some(InvalidCron(spec.cron.value));
    } else {
      scheduled := scheduler.ScheduleJob(spec, outcome);
      if !scheduled {
        message := Some(ScheduleFailed(spec.name, spec.id, spec.cron, outcome.detail));
      }
    }
    errs := errors;
    if message.Some? {
      errs := Log(errors, [message.value]);
    } else {
      LogNothing(errors);
    }
  }

  // ---------------------------------------------------------------------------
  // A batch of requests.

  /** The requests of a batch that end up scheduled, in order. */
  function Scheduled(pattern: Pattern, specs: seq<JobSpec>, outcomes: seq<Outcome>): (done: seq<JobSpec>)
    requires |specs| <= |outcomes|
    ensures |done| <= |specs|
    ensures forall spec | spec in done :: spec in specs
    decreases |specs|
  {
    if specs == [] then []
    else
      var n := |specs| - 1;
      Scheduled(pattern, specs[..n], outcomes) + (if Admitted(pattern, specs[n], outcomes[n]) then [specs[n]] else [])
  }

  /** The messages a batch leaves in the error list, in order. */
  function Complaints(pattern: Pattern, specs: seq<JobSpec>, outcomes: seq<Outcome>): seq<string>
    requires |specs| <= |outcomes|
    decreases |specs|
  {
    if specs == [] then []
    else
      var n := |specs| - 1;
      Complaints(pattern, specs[..n], outcomes) + Complaint(pattern, specs[n], outcomes[n])
  }

  /**
   * A failing request does not stop the batch: every request is either
   * scheduled or leaves exactly one message.
   */
  lemma {:induction false} BatchAccounting(pattern: Pattern, specs: seq<JobSpec>, outcomes: seq<Outcome>)
    requires |specs| <= |outcomes|
    ensures |Scheduled(pattern, specs, outcomes)| + |Complaints(pattern, specs, outcomes)| == |specs|
    decreases |specs|
  {
    if specs != [] {
      var n := |specs| - 1;
      BatchAccounting(pattern, specs[..n], outcomes);
      ScheduledOrReported(pattern, specs[n], outcomes[n]);
    }
  }

  /** With no engine failure and no rejected CRON expression, the whole batch is scheduled. */
  lemma {:induction false} CleanBatchAllScheduled(pattern: Pattern, specs: seq<JobSpec>, outcomes: seq<Outcome>)
    requires |specs| <= |outcomes|
    requires forall k | 0 <= k < |specs| :: Admitted(pattern, specs[k], outcomes[k])
    ensures Scheduled(pattern, specs, outcomes) == specs
    ensures Complaints(pattern, specs, outcomes) == []
    decreases |specs|
  {
    if specs != [] {
      var n := |specs| - 1;
      CleanBatchAllScheduled(pattern, specs[..n], outcomes);
      assert specs[..n] + [specs[n]] == specs;
    }
  }

  /** Appending two pieces in turn appends them together. */
  lemma AppendTwice<T>(a: seq<T>, b: seq<T>, c: seq<T>)
    ensures a + b + c == a + (b + c)
  {
  }

  /**
   * One more entry of the batch, read without raising: its request is appended
   * to those before it, and its outcome to theirs.
   */
  lemma BatchStep(pattern: Pattern, ds: seq<Descriptor>, outcomes: seq<Outcome>, k: nat)
    requires forall k | 0 <= k < |ds| :: Typed(ds[k])
    requires |outcomes| == |ds| && k < UntilRaise(ds)
    ensures k + 1 <= |UnpackUntilRaise(ds)|
    ensures UnpackUntilRaise(ds)[k] == Unpack(ds[k])
    ensures Scheduled(pattern, UnpackUntilRaise(ds)[..k + 1], outcomes) ==
            Scheduled(pattern, UnpackUntilRaise(ds)[..k], outcomes)
            + (if Admitted(pattern, Unpack(ds[k]), outcomes[k]) then [Unpack(ds[k])] else [])
    ensures Complaints(pattern, UnpackUntilRaise(ds)[..k + 1], outcomes) ==
            Complaints(pattern, UnpackUntilRaise(ds)[..k], outcomes) + Complaint(pattern, Unpack(ds[k]), outcomes[k])
  {
    var specs := UnpackUntilRaise(ds);
    assert specs[k] == Unpack(ds[..UntilRaise(ds)][k]);
    assert specs[..k + 1][..k] == specs[..k];
  }

  /**
   * Schedule every entry of a batch on `scheduler`, in order, the `k`-th entry
   * meeting engine outcome `outcomes[k]`; a request that fails does not stop
   * the loop, but an entry whose reading raises does: the exception leaves the
   * batch, so no count is returned (`None`), while what was scheduled and
   * logged before it stays.  Otherwise the count is how many were scheduled.
   */
  method ScheduleBatchOn(pattern: Pattern, errors: Errors, scheduler: Scheduler,
                         descriptors: seq<Descriptor>, outcomes: seq<Outcome>)
    returns (count: Option<nat>, errs: Errors)
    requires forall k | 0 <= k < |descriptors| :: Typed(descriptors[k])
    requires |outcomes| == |descriptors|
    modifies scheduler
    ensures count.None? <==> UntilRaise(descriptors) < |descriptors|
    ensures count.Some? ==> count.value == |Scheduled(pattern, UnpackUntilRaise(descriptors), outcomes)| <= |descriptors|
    ensures scheduler.jobs == old(scheduler.jobs) + Scheduled(pattern, UnpackUntilRaise(descriptors), outcomes)
    ensures scheduler.state == old(scheduler.state)
    ensures errs == Log(errors, Complaints(pattern, UnpackUntilRaise(descriptors), outcomes))
  {
    ghost var specs := UnpackUntilRaise(descriptors);
    ghost var done: seq<JobSpec> := [];
    var n := 0;
    errs := errors;
    LogNothing(errors);
    var k := 0;
    // Reading entry `k` raises exactly when `Raises(descriptors[k])`; the
    // exception then leaves the loop.
    while k < |descriptors| && !Raises(descriptors[k])
      invariant 0 <= k <= |specs|
      invariant done == Scheduled(pattern, specs[..k], outcomes)
      invariant scheduler.jobs == old(scheduler.jobs) + done
      invariant scheduler.state == old(scheduler.state)
      invariant n == |done|
      invariant errs == Log(errors, Complaints(pattern, specs[..k], outcomes))
    {
      BatchStep(pattern, descriptors, outcomes, k);
      var scheduled;
      scheduled, errs := ScheduleOn(pattern, errs, scheduler, Unpack(descriptors[k]), outcomes[k]);
      ghost var step := if scheduled then [specs[k]] else [];
      AppendTwice(old(scheduler.jobs), done, step);
      done := done + step;
      LogTwice(errors, Complaints(pattern, specs[..k], outcomes), Complaint(pattern, specs[k], outcomes[k]));
      if scheduled {
        n := n + 1;
      }
      k := k + 1;
    }
    assert k == |specs| && specs[..k] == specs;
    count := if k < |descriptors| then None else Some(n);
  }

  // ---------------------------------------------------------------------------
  // The registry.

  class Registry {
    /** The schedulers created so far, by badge. */
    var schedulers: map<string, Scheduler>

    /** The form of the CRON pre-check pattern the registry searches with. */
    const pattern: Pattern

    /** No two badges share a scheduler. */
    ghost predicate Valid()
      reads this
    {
      forall a, b | a in schedulers && b in schedulers && a != b :: schedulers[a] != schedulers[b]
    }

    /** What the registry holds, scheduler by scheduler. */
    ghost function View(): map<string, Snapshot>
      reads this, schedulers.Values
    {
      map b | b in schedulers :: Snapshot(schedulers[b].state, schedulers[b].jobs, schedulers[b].retryInterval)
    }

    constructor (pattern: Pattern)
      ensures Valid() && schedulers == map[] && this.pattern == pattern
    {
      schedulers := map[];
      this.pattern := pattern;
    }

    /**
     * The scheduler of `badge`, if created; when it must exist and does not,
     * one "has not been created" message is logged.
     */
    method Lookup(errors: Errors, badge: string, mustExist: bool := true)
      returns (found: Option<Scheduler>, errs: Errors)
      ensures found.Some? <==> badge in schedulers
      ensures found.Some? ==> found.value == schedulers[badge]
      ensures errs == (if mustExist && badge !in schedulers then Log(errors, [NotCreated(badge)]) else errors)
    {
      found := None;
      errs := errors;
      if badge in schedulers {
        found := Some(schedulers[badge]);
      } else if mustExist {
        errs := Log(errors, [NotCreated(badge)]);
      }
    }

    /**
     * Create the scheduler of `badge` unless one exists.  `construction` says
     * whether building the engine returned or raised.
     */
    method Create(errors: Errors, construction: Outcome,
                  badge: string := DefaultBadge, retryInterval: int := DefaultRetryInterval)
      returns (created: bool, errs: Errors)
      requires Valid()
      modifies this
      ensures Valid()
      ensures created <==> badge !in old(schedulers) && construction.Returned?
      ensures schedulers.Keys == old(schedulers.Keys) + (if created then {badge} else {})
      ensures forall b | b in old(schedulers) :: schedulers[b] == old(schedulers[b])
      ensures created ==> fresh(schedulers[badge])
      ensures View() == (if created then old(View())[badge := Snapshot(Created, [], retryInterval)] else old(View()))
      ensures errs == (if badge !in old(schedulers) && construction.Raised?
                       then Log(errors, [CreateFailed(badge, construction.detail)]) else errors)
    {
      created := false;
      var found;
      found, errs := Lookup(errors, badge, false);
      if found.None? {
        if construction.Returned? {
          var scheduler := new Scheduler(retryInterval);
          schedulers := schedulers[badge := scheduler];
          created := true;
        } else {
          errs := Log(errs, [CreateFailed(badge, construction.detail)]);
        }
      }
    }

    /** Stop and discard the scheduler of `badge`; nothing happens when there is none. */
    method Destroy(badge: string := DefaultBadge)
      requires Valid()
      modifies this, if badge in schedulers then {schedulers[badge]} else {}
      ensures Valid()
      ensures schedulers == old(schedulers) - {badge}
      ensures View() == old(View()) - {badge}
      ensures badge in old(schedulers) ==> old(schedulers[badge]).state == AfterStop(old(schedulers[badge].state))
    {
      if badge in schedulers {
        var scheduler := schedulers[badge];
        scheduler.Stop();
        schedulers := schedulers - {badge};
      }
    }

    /** Start the scheduler of `badge`; `outcome` says whether the engine's start returned. */
    method Start(errors: Errors, outcome: Outcome, badge: string := DefaultBadge)
      returns (started: bool, errs: Errors)
      requires Valid()
      modifies schedulers.Values
      ensures started <==> badge in schedulers && outcome.Returned?
      ensures schedulers == old(schedulers)
      ensures View() == (if started then old(View())[badge := old(View())[badge].(state := Running)] else old(View()))
      ensures errs == (if badge !in schedulers then Log(errors, [NotCreated(badge)])
                       else if outcome.Raised? then Log(errors, [StartFailed(badge, outcome.detail)])
                       else errors)
    {
      started := false;
      var found;
      found, errs := Lookup(errors, badge);
      if found.Some? {
        started := found.value.Start(outcome);
        if !started {
          errs := Log(errs, [StartFailed(badge, outcome.detail)]);
        }
      }
    }

    /** Stop the scheduler of `badge`; it stays registered. */
    method Stop(errors: Errors, badge: string := DefaultBadge)
      returns (stopped: bool, errs: Errors)
      requires Valid()
      modifies schedulers.Values
      ensures stopped <==> badge in schedulers
      ensures schedulers == old(schedulers)
      ensures View() == (if stopped then old(View())[badge := old(View())[badge].(state := AfterStop(old(View())[badge].state))]
                         else old(View()))
      ensures errs == (if stopped then errors else Log(errors, [NotCreated(badge)]))
    {
      stopped := false;
      var found;
      found, errs := Lookup(errors, badge);
      if found.Some? {
        found.value.Stop();
        stopped := true;
      }
    }

    /** Schedule one job on the scheduler of `badge`. */
    method AddJob(errors: Errors, spec: JobSpec, outcome: Outcome, badge: string := DefaultBadge)
      returns (added: bool, errs: Errors)
      requires Valid()
      modifies schedulers.Values
      ensures added <==> badge in schedulers && Admitted(pattern, spec, outcome)
      ensures schedulers == old(schedulers)
      ensures View() == (if badge in schedulers
                         then old(View())[badge := old(View())[badge].(jobs := old(View())[badge].jobs + (if added then [spec] else []))]
                         else old(View()))
      ensures errs == (if badge in schedulers then Log(errors, Complaint(pattern, spec, outcome)) else Log(errors, [NotCreated(badge)]))
    {
      added := false;
      var found;
      found, errs := Lookup(errors, badge);
      if found.Some? {
        added, errs := ScheduleOn(pattern, errs, found.value, spec, outcome);
      }
    }

    /**
     * Schedule every entry of a batch on the scheduler of `badge`, the `k`-th
     * entry meeting engine outcome `outcomes[k]`.  The count is `None` when an
     * entry's reading raises and the exception leaves the call; the entries
     * before it stay scheduled and their messages stay logged.
     */
    method AddJobs(errors: Errors, descriptors: seq<Descriptor>, outcomes: seq<Outcome>, badge: string := DefaultBadge)
      returns (count: Option<nat>, errs: Errors)
      requires Valid()
      requires badge in schedulers ==> forall k | 0 <= k < |descriptors| :: Typed(descriptors[k])
      requires |outcomes| == |descriptors|
      modifies schedulers.Values
      ensures schedulers == old(schedulers)
      ensures count.None? <==> badge in schedulers && UntilRaise(descriptors) < |descriptors|
      ensures count.Some? ==> count.value <= |descriptors|
      ensures count.Some? ==> count.value == (if badge in schedulers
                                              then |Scheduled(pattern, UnpackUntilRaise(descriptors), outcomes)| else 0)
      ensures View() == (if badge in schedulers
                         then old(View())[badge := old(View())[badge].(jobs := old(View())[badge].jobs
                                                                      + Scheduled(pattern, UnpackUntilRaise(descriptors), outcomes))]
                         else old(View()))
      ensures errs == (if badge in schedulers then Log(errors, Complaints(pattern, UnpackUntilRaise(descriptors), outcomes))
                       else Log(errors, [NotCreated(badge)]))
    {
      count := Some(0);
      var found;
      found, errs := Lookup(errors, badge);
      if found.Some? {
        count, errs := ScheduleBatchOn(pattern, errs, found.value, descriptors, outcomes);
      }
    }

    /**
     * Check that a scheduler can be created, by creating and destroying one
     * under the badge `__temp__`; the registry is left as it was found.
     */
    method AssertAccess(errors: Errors, construction: Outcome)
      returns (ok: bool, errs: Errors)
      requires Valid()
      modifies this
      ensures Valid()
      ensures ok <==> TempBadge !in old(schedulers) && construction.Returned?
      ensures schedulers == old(schedulers)
      ensures View() == old(View())
      ensures errs == (if TempBadge !in old(schedulers) && construction.Raised?
                       then Log(errors, [CreateFailed(TempBadge, construction.detail)]) else errors)
    {
      ok, errs := Create(errors, construction, TempBadge);
      if ok {
        Destroy(TempBadge);
      }
    }
  }

  /**
   * On a registry that searches with the pattern as written, adding a job whose
   * CRON expression is an alias such as `@daily` fails: the scheduler gains
   * nothing and the one message logged is "Invalid CRON expression".
   */
  method AliasJobRefusedAsWritten(registry: Registry, errors: Errors, spec: JobSpec, outcome: Outcome,
                                  a: string, badge: string)
    returns (added: bool, errs: Errors)
    requires registry.Valid() && registry.pattern == AsWritten
    requires a in Aliases && spec.cron == Some("@" + a) && badge in registry.schedulers
    modifies registry.schedulers.Values
    ensures !added
    ensures registry.View() == old(registry.View())
    ensures errs == Log(errors, [InvalidCron("@" + a)])
  {
    AliasRefusedAsWritten(spec, outcome, a);
    ghost var before := registry.View();
    added, errs := registry.AddJob(errors, spec, outcome, badge);
    assert before[badge].jobs + [] == before[badge].jobs;
    assert before[badge := before[badge].(jobs := before[badge].jobs)] == before;
  }

  /** Destroying twice leaves the registry as destroying once does. */
  method DestroyTwice(registry: Registry, badge: string)
    requires registry.Valid()
    modifies registry, registry.schedulers.Values
    ensures registry.Valid()
    ensures registry.schedulers == old(registry.schedulers) - {badge}
    ensures registry.View() == old(registry.View()) - {badge}
    ensures badge in old(registry.schedulers) ==>
              old(registry.schedulers[badge]).state == AfterStop(old(registry.schedulers[badge].state))
  {
    registry.Destroy(badge);
    ghost var once := registry.schedulers;
    registry.Destroy(badge);
    assert registry.schedulers == once;
  }
}
