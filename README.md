# Scheduler registry of PyPomes-Scheduling, in Dafny

PyPomes-Scheduling keeps a process-wide registry of threaded job schedulers.
Each scheduler is identified by a caller-chosen *badge*. Application code
creates and destroys the scheduler of a badge, starts and stops it, and
schedules one job or a batch of jobs on it. Every operation reports its
problems by appending messages to an optional error list supplied by the caller.
Before a job reaches the engine, its CRON expression is pre-checked with a
regular-expression search.

This project models that registry:

- `wrappers.dfy` (`Wrappers`): `Option`.
- `cron_pattern.dfy` (`CronPattern`): the CRON pre-check pattern, stated as the
  language it accepts. Because the check is an unanchored search, an expression
  passes when some substring of it matches one of the pattern's three
  alternatives. `AcceptsAsWritten` is the pattern as written. `Accepts` is the
  pattern with the leading slash removed from the alias alternative (see
  Findings). `Search` picks one of the two by a `Pattern` value, `AsWritten` or
  `Corrected`. The lemmas describe what each one accepts and rejects.
- `error_log.dfy` (`ErrorLog`): the caller's optional error list (`None` when no
  list was passed), the `Log` operation that appends only when a list is there,
  and the texts of the registry's messages.
- `jobs.dfy` (`Jobs`): the arguments of one scheduling request, and the batch
  tuple `(callable, id, name, cron, start, args, kwargs)` of which only the first
  three items are required, with how a tuple is read. This is the layout of the
  type hint and of the reads in the loop. The docstring of the batch operation
  lists only six items, without the CRON slot. A tuple laid out that way puts
  its start timestamp where the CRON expression is read. The pattern search
  then raises, outside any `try`, and the exception leaves the batch.
  `Raises` says which tuples raise when read, and `UntilRaise` how much of a
  batch is read before one does.
- `engine.dfy` (`Engine`): the scheduler engine as the registry sees it. Each
  scheduler is an object with a lifecycle state, the jobs it has accepted and its
  retry interval. Whether each call into the engine returned or raised is an
  input (`Outcome`).
- `registry.dfy` (`SchedulerRegistry`): the registry as a class holding the
  badge-to-scheduler dictionary, and the form of the CRON pattern it searches
  with (`pattern`): `AsWritten` is the module's pattern exactly as the source
  has it, `Corrected` the one without the slash. It has one method per public operation, plus
  the badge lookup, the single-job scheduling step and the batch loop. Each
  method states its result, the new dictionary, the new state of every
  scheduler (through `View()`) and the new error list. Around them sit the
  specification functions `Scheduled` and `Complaints`, with lemmas about them.

## Model

| member | source | states |
|---|---|---|
| `CronPattern.AliasesRejectedAsWritten` | src/pypomes_scheduling/scheduling_pomes.py:17-20 | As written, the pattern search rejects each of the seven aliases in the crontab(5) special-string form (`@annually` … `@reboot`) |
| `CronPattern.PlainWordRejectedAsWritten` | src/pypomes_scheduling/scheduling_pomes.py:17-20 | As written, the search rejects any text with no slash, space, digit or asterisk: the alias branch needs a `/`, `@every` needs a space, and every CRON field starts with a digit or `*` |
| `CronPattern.AliasesAccepted` | src/pypomes_scheduling/scheduling_pomes.py:18 | With the slash removed, every alias `@<name>` passes the search |
| `CronPattern.AcceptedAsWrittenStillAccepted` | src/pypomes_scheduling/scheduling_pomes.py:17-20 | Removing the slash only widens the check: every text the pattern as written accepts is still accepted |
| `CronPattern.AcceptsAsWritten` | src/pypomes_scheduling/scheduling_pomes.py:17-20 | The search of line 333 with the pattern exactly as written: some substring is a slash followed by `@` and an alias, or `@every ` and one or more durations, or five to seven fields |
| `CronPattern.Search` | src/pypomes_scheduling/scheduling_pomes.py:333-334 | The pre-check's search with the chosen form of the pattern: `AsWritten` searches as line 18 has it, `Corrected` without the slash |
| `CronPattern.EveryAccepted` | src/pypomes_scheduling/scheduling_pomes.py:19 | `@every ` followed by any number and any of the units ns, us, µs, ms, s, m, h passes, both as written and corrected |
| `CronPattern.FiveMarksAccepted` | src/pypomes_scheduling/scheduling_pomes.py:19 | Any text holding five digits or asterisks in a row passes, because the space after a field is optional, so adjacent digits count as separate fields; this holds both as written and corrected |
| `CronPattern.FourFieldsAccepted` | src/pypomes_scheduling/scheduling_pomes.py:19 | So a text holding four fields shaped like `1 2 3 45` passes, although it has only four space-separated fields, both as written and corrected |
| `CronPattern.WellFormedCronAccepted` | src/pypomes_scheduling/scheduling_pomes.py:19 | A well-formed CRON expression, five to seven tokens (a number, a list, a range or step, or `*`) separated by single spaces, such as `0 12 * * 1-5`, passes, both as written and corrected |
| `CronPattern.SpacedFields` | src/pypomes_scheduling/scheduling_pomes.py:19 | Tokens joined by single spaces are exactly that many fields of the `( ?)` repetition |
| `CronPattern.EveryDurationsAccepted` | src/pypomes_scheduling/scheduling_pomes.py:19 | `@every ` followed by one or more durations one after the other, such as `1h30m`, passes, both as written and corrected |
| `CronPattern.DurationCons` | src/pypomes_scheduling/scheduling_pomes.py:19 | A number and a unit in front of `m` durations make `m + 1` durations, as the `(...)+` of the `@every` alternative repeats |
| `CronPattern.FewMarksRejected` | src/pypomes_scheduling/scheduling_pomes.py:17-20 | A text with no `@` and fewer than five digits and asterisks is rejected |
| `CronPattern.FourStarsRejected` | src/pypomes_scheduling/scheduling_pomes.py:19 | The four-field expression `* * * *` is rejected |
| `CronPattern.FieldsHaveMarks` | src/pypomes_scheduling/scheduling_pomes.py:19 | `n` consecutive CRON fields hold at least `n` digits or asterisks |
| `CronPattern.CronFieldsHoldFiveFields` | src/pypomes_scheduling/scheduling_pomes.py:19 | Under search the `{5,7}` upper bound plays no part: every match of five to seven fields contains a match of exactly five |
| `CronPattern.RepeatedPrefix` | src/pypomes_scheduling/scheduling_pomes.py:19 | The first `m` of `n` consecutive pieces of a repetition form a prefix of the match |
| `ErrorLog.Log` | src/pypomes_scheduling/scheduling_pomes.py:353-357 | A message goes into the caller's error list only when a list was passed (`isinstance(errors, list)`), appended at its end |
| `ErrorLog.LogGrows` | src/pypomes_scheduling/scheduling_pomes.py:353-357 | Logging only appends: the old list is a prefix of the new one and what follows it is exactly the messages given, in order; when no list was passed, none appears |
| `ErrorLog.LogTwice` | src/pypomes_scheduling/scheduling_pomes.py:260-270 | Logging two batches in turn equals logging them together, in order |
| `ErrorLog.NotCreated` | src/pypomes_scheduling/scheduling_pomes.py:290 | The text "Job scheduler '<badge>' has not been created" |
| `ErrorLog.CreateFailed` | src/pypomes_scheduling/scheduling_pomes.py:68 | The text "Error creating the job scheduler '<badge>': <exception>" |
| `ErrorLog.StartFailed` | src/pypomes_scheduling/scheduling_pomes.py:134 | The text "Error starting the scheduler '<badge>': <exception>" |
| `ErrorLog.InvalidCron` | src/pypomes_scheduling/scheduling_pomes.py:336 | The text "Invalid CRON expression: '<cron>'" |
| `ErrorLog.ShowCron` | src/pypomes_scheduling/scheduling_pomes.py:350-351 | An absent CRON expression prints as `None` in a message, as the f-string renders it; a present one prints as itself |
| `ErrorLog.ScheduleFailed` | src/pypomes_scheduling/scheduling_pomes.py:350-351 | The text "Error scheduling the job '<name>', id '<id>', with CRON '<cron>': <exception>" |
| `Jobs.Unpack` | src/pypomes_scheduling/scheduling_pomes.py:250-258 | A batch tuple's callable, id and name are items 0, 1 and 2; the CRON expression is present exactly when item 3 is a string, and is that string; start, args and kwargs are items 4, 5 and 6 when the tuple holds them and `None` otherwise |
| `Jobs.UnpackAll` | src/pypomes_scheduling/scheduling_pomes.py:248-258 | Reading a batch tuple by tuple, built up from the front, gives one request per tuple, and the `k`-th request is what the `k`-th tuple reads as |
| `Jobs.Raises` | src/pypomes_scheduling/scheduling_pomes.py:250-258 | Reading a batch tuple raises when it has fewer than three items (the `job[0]`, `job[1]`, `job[2]` reads) or holds an object other than a string or `None` in the CRON slot (the search of line 333 then raises, outside the `try`) |
| `Jobs.UntilRaise` | src/pypomes_scheduling/scheduling_pomes.py:248-258 | The entries read before the first one that raises: none of them raises, and the entry right after them does, unless the batch is exhausted |
| `Jobs.UnpackUntilRaiseAll` | src/pypomes_scheduling/scheduling_pomes.py:248-258 | A batch none of whose entries raises is read whole |
| `Jobs.DocstringLayoutRaises` | src/pypomes_scheduling/scheduling_pomes.py:224-258 | A six-item tuple laid out as the docstring lists it has its start timestamp in the CRON slot, so reading it raises and no entry from it on is read |
| `Jobs.UnpackPack` | src/pypomes_scheduling/scheduling_pomes.py:250-258 | A full seven-item tuple reads back as exactly the request it was made from |
| `Jobs.MissingItemIsNone` | src/pypomes_scheduling/scheduling_pomes.py:255-258 | A missing trailing item of a tuple reads the same as an explicit `None` in its place |
| `Engine.Scheduler.constructor` | src/pypomes_scheduling/scheduling_pomes.py:59-61 | A new engine is in state Created, has no jobs and keeps the retry interval it was given |
| `Engine.Scheduler.Start` | src/pypomes_scheduling/scheduling_pomes.py:129 | The engine's start succeeds exactly when it returns; then the scheduler is Running, otherwise its state is unchanged; jobs are unchanged |
| `Engine.Scheduler.Stop` | src/pypomes_scheduling/scheduling_pomes.py:160 | The engine's stop ends a running scheduler and leaves any other state as it is; jobs are unchanged |
| `Engine.Scheduler.ScheduleJob` | src/pypomes_scheduling/scheduling_pomes.py:340-347 | The engine's schedule_job succeeds exactly when it returns; the request is then appended to its jobs, otherwise nothing changes |
| `SchedulerRegistry.CronPasses` | src/pypomes_scheduling/scheduling_pomes.py:331-334 | A CRON expression passes the pre-check when it is absent or empty (it is then not searched at all) or the search finds a match |
| `SchedulerRegistry.Admitted` | src/pypomes_scheduling/scheduling_pomes.py:331-350 | A request ends up scheduled exactly when its CRON expression passes the pre-check and the engine's schedule_job returns |
| `SchedulerRegistry.Complaint` | src/pypomes_scheduling/scheduling_pomes.py:331-357 | The message a request leaves: "Invalid CRON expression" when the pre-check fails, "Error scheduling the job" when the engine raises, none otherwise |
| `SchedulerRegistry.ScheduledOrReported` | src/pypomes_scheduling/scheduling_pomes.py:333-357 | A request is scheduled exactly when it leaves no message, and it leaves at most one |
| `SchedulerRegistry.AliasRefusedAsWritten` | src/pypomes_scheduling/scheduling_pomes.py:331-336 | With the pattern as written, a request whose CRON expression is an alias such as `@daily` is never admitted, and its one message is "Invalid CRON expression" |
| `SchedulerRegistry.AliasAdmittedCorrected` | src/pypomes_scheduling/scheduling_pomes.py:331-350 | With the corrected pattern, the same request reaches the engine: it is admitted exactly when the engine returns, and otherwise leaves only the "Error scheduling the job" message |
| `SchedulerRegistry.ScheduleOn` | src/pypomes_scheduling/scheduling_pomes.py:299-359 | For the given form of the pattern, the result is true exactly when the CRON expression is absent, empty or passes the search, and the engine returns. A failing expression never reaches the engine and logs one "Invalid CRON expression"; an engine failure logs one "Error scheduling the job"; the scheduler gains the job exactly when the result is true |
| `SchedulerRegistry.Scheduled` | src/pypomes_scheduling/scheduling_pomes.py:248-270 | The requests of a batch that are scheduled are a selection of the batch, never more than the batch holds |
| `SchedulerRegistry.BatchAccounting` | src/pypomes_scheduling/scheduling_pomes.py:248-270 | A failing entry does not stop the batch: scheduled entries plus logged messages add up to the batch size |
| `SchedulerRegistry.CleanBatchAllScheduled` | src/pypomes_scheduling/scheduling_pomes.py:248-270 | When every entry passes the CRON check and the engine accepts it, the whole batch is scheduled, in order, and nothing is logged |
| `SchedulerRegistry.ScheduleBatchOn` | src/pypomes_scheduling/scheduling_pomes.py:246-272 | The loop reads and schedules entries in order. No count comes back exactly when some entry raises when read; otherwise the count is the number scheduled, at most the batch size. In both cases the scheduler's jobs grow by exactly the entries scheduled before the raising one, and the error list by exactly their messages |
| `SchedulerRegistry.Registry.constructor` | src/pypomes_scheduling/scheduling_pomes.py:17-27 | The registry starts empty and searches with the given form of the CRON pattern |
| `SchedulerRegistry.Registry.Lookup` | src/pypomes_scheduling/scheduling_pomes.py:275-296 | The scheduler of a badge is found exactly when the badge is registered. One "has not been created" message is logged exactly when it must exist and does not, and only into a list the caller passed |
| `SchedulerRegistry.Registry.Create` | src/pypomes_scheduling/scheduling_pomes.py:30-74 | A new scheduler is created exactly when the badge is absent and construction returns. The result is then true and the dictionary gains exactly that badge, bound to a fresh scheduler in state Created; every other badge keeps its scheduler. An existing badge gives false and logs nothing; a failed construction logs one "Error creating" message and adds nothing |
| `SchedulerRegistry.Registry.Destroy` | src/pypomes_scheduling/scheduling_pomes.py:77-90 | Removes exactly the badge, which must first be stopped; it changes nothing when the badge is absent; every other scheduler is untouched |
| `SchedulerRegistry.DestroyTwice` | src/pypomes_scheduling/scheduling_pomes.py:84-90 | Destroying a badge twice leaves the same dictionary and the same schedulers as destroying it once: the badge is gone, every other scheduler is as it was, and the removed one was stopped |
| `SchedulerRegistry.Registry.Start` | src/pypomes_scheduling/scheduling_pomes.py:111-140 | The result is true exactly when the badge exists and the engine's start returns, and then only that scheduler becomes Running. A missing badge logs one "has not been created"; an engine failure logs one "Error starting"; the dictionary is unchanged |
| `SchedulerRegistry.Registry.Stop` | src/pypomes_scheduling/scheduling_pomes.py:143-163 | The result is true exactly when the badge exists. That scheduler is stopped and stays registered, since only destroy removes badges. A missing badge logs one "has not been created" and changes nothing |
| `SchedulerRegistry.Registry.AddJob` | src/pypomes_scheduling/scheduling_pomes.py:166-214 | The result is true exactly when the badge exists and the request is admitted under the registry's pattern; only that scheduler gains the job. A missing badge gives false, logs one "has not been created" and changes nothing |
| `SchedulerRegistry.AliasJobRefusedAsWritten` | src/pypomes_scheduling/scheduling_pomes.py:166-214 | On a registry searching with the pattern as written, adding a job with an alias such as `@daily` on an existing badge gives false, leaves every scheduler as it was and logs exactly one "Invalid CRON expression" |
| `SchedulerRegistry.Registry.AddJobs` | src/pypomes_scheduling/scheduling_pomes.py:217-272 | A missing badge gives 0, logs one "has not been created" and changes nothing; the entries are then not looked at. Otherwise only that scheduler gains the entries scheduled before the first entry that raises, in batch order. No count comes back exactly when such an entry exists; otherwise the count is the number scheduled, at most the batch size |
| `SchedulerRegistry.Registry.AssertAccess` | src/pypomes_scheduling/scheduling_pomes.py:93-108 | The registry is left exactly as it was found. The result is true exactly when `__temp__` was absent and construction returned; when `__temp__` already exists, the result is false and nothing is removed |

## Left out

- The scheduler engine itself (its dispatch loop, triggers, job execution
  threads and retry timing) is not part of this model. Its start, stop,
  construction and schedule_job are abstract operations whose success is an
  input. The engine's own rules, such as refusing a second start or a
  duplicate job id, are not modelled. Stop is assumed never to raise, because
  the registry does not guard it.
- Engine.Scheduler.Start, Engine.Scheduler.Stop, Engine.Scheduler.ScheduleJob: these
  state what the registry relies on of the engine (lifecycle and accepted
  jobs), not the engine's full behaviour, which is not available.
- Logging through the optional `logger`: the same message that goes into the
  error list is also logged. Logging is output and is left out, and so is the
  `logger` argument.
- The exception text produced by the exception formatter is an input (the
  `detail` of `Raised`); its format is not modelled.
- The `is_daemon` flag of creation, the `timezone` argument and the
  thread-safety of the dictionary are left out. So is concurrency between caller
  threads and scheduler threads.
- The retry interval's default is read from the environment; the model uses the
  fallback value 10 as `DefaultRetryInterval`.
- `\d` is modelled as an ASCII digit. Python's `re` also matches other Unicode
  decimal digits in a string pattern.
- Only whether the search finds a match is modelled, not which match the
  regular-expression engine reports.
- SchedulerRegistry.Registry.AddJobs, SchedulerRegistry.ScheduleBatchOn: an exception that
  leaves the batch is modelled as "no count" (`None`); its type and text are
  not. Jobs.Raises treats every object other than a string or `None` in the
  CRON slot as truthy. A falsy one, such as an empty tuple or 0, skips the
  pre-check and goes to the engine as is.
- Jobs.Typed: the id and name of a batch tuple are assumed to be strings, as
  the type hint of the batch says.
- A scheduler handle is assumed to be truthy, so "present" means "registered".
- Handles are objects, and `Lookup` hands one out, but what a caller does with a
  handle held outside the registry is not described. `Valid()` only asks that
  no two badges share a handle.

## Findings

| source | as written | input that shows it | evidently intended | confidence | as-written member | corrected member |
|---|---|---|---|---|---|---|
| src/pypomes_scheduling/scheduling_pomes.py:18 | The alias alternative of the CRON pre-check pattern begins with a literal `/`, so it matches only `/@daily`-style text | `@daily` (or any of the seven aliases): no slash, no `@every `, no digits, so the search fails and the job is refused as "Invalid CRON expression" | The alias alternative without the slash, so that `@daily` and the other aliases pass the pre-check | medium; not executed | `CronPattern.AliasesRejectedAsWritten` | `CronPattern.AliasesAccepted` |

The registry carries the form of the pattern it searches with. For the pattern
as written, `SchedulerRegistry.AliasRefusedAsWritten` and `SchedulerRegistry.AliasJobRefusedAsWritten`
show that an `@daily` job is refused. For the corrected one,
`SchedulerRegistry.AliasAdmittedCorrected` shows that it reaches the engine.
`CronPattern.AcceptedAsWrittenStillAccepted` shows that the correction rejects
nothing the original accepted.
