/**
 * The optional error list every registry operation takes: messages are
 * appended to it in place, and only when the caller passed a list.
 */
module ErrorLog {
  import opened Wrappers

  /** The caller's `errors` argument: `None` when no list was passed. */
  type Errors = Option<seq<string>>

  /** Append `msgs` to the caller's list, when there is one. */
  function Log(errors: Errors, msgs: seq<string>): Errors {
    match errors
    case None => None
    case Some(list) => Some(list + msgs)
  }

  /** `later` is `earlier` with messages appended: nothing is removed or rewritten. */
  predicate Grows(earlier: Errors, later: Errors) {
    match earlier
    case None => later.None?
    case Some(list) => later.Some? && list <= later.value
  }

  /** Logging twice appends both batches, in order. */
  lemma LogTwice(errors: Errors, a: seq<string>, b: seq<string>)
    ensures Log(Log(errors, a), b) == Log(errors, a + b)
  {
    if errors.Some? {
      assert errors.value + a + b == errors.value + (a + b);
    }
  }

  /** Logging no message leaves the list as it is. */
  lemma LogNothing(errors: Errors)
    ensures Log(errors, []) == errors
  {
    if errors.Some? {
      assert errors.value + [] == errors.value;
    }
  }

  /** Logging only ever appends, and appends exactly the messages given. */
  lemma LogGrows(errors: Errors, msgs: seq<string>)
    ensures Grows(errors, Log(errors, msgs))
    ensures Log(errors, msgs).Some? <==> errors.Some?
    ensures errors.Some? ==> Log(errors, msgs).value[|errors.value|..] == msgs
  {
  }

  // The message texts of the registry.

  function NotCreated(badge: string): string {
    "Job scheduler '" + badge + "' has not been created"
  }

  function CreateFailed(badge: string, detail: string): string {
    "Error creating the job scheduler '" + badge + "': " + detail
  }

  function StartFailed(badge: string, detail: string): string {
    "Error starting the scheduler '" + badge + "': " + detail
  }

  function InvalidCron(cron: string): string {
    "Invalid CRON expression: '" + cron + "'"
  }

  /** An absent CRON expression prints as `None`. */
  function ShowCron(cron: Option<string>): string {
    match cron
    case None => "None"
    case Some(text) => text
  }

  function ScheduleFailed(name: string, id: string, cron: Option<string>, detail: string): string {
    "Error scheduling the job '" + name + "', id '" + id + "', with CRON '" + ShowCron(cron) + "': " + detail
  }
}
