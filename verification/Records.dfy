/** How the runner and the API handlers rewrite a task, and what every stored record satisfies. */
module Records {
  import opened Tasks

  /** Finished iff stamped, attempts numbered from one without a gap, and the last attempt explains the outcome. */
  ghost predicate RecordOk(t: Task) {
    && (t.finishedAt.Some? <==> t.status.IsTerminal())
    && Numbered(t.attempts)
    && (t.status.Succeeded? ==> t.attempts != [] && Last(t).error == "")
    && (t.status.Failed? ==> t.attempts != [] && Last(t).error != "")
  }

  ghost predicate Numbered(attempts: seq<Attempt>) {
    forall i :: 0 <= i < |attempts| ==> attempts[i].n == i + 1
  }

  function Last(t: Task): Attempt
    requires t.attempts != []
  {
    t.attempts[|t.attempts| - 1]
  }

  // ---- the runner

  /** One more attempt in the log; its number continues from the log's length. */
  function Recorded(t: Task, res: Result, firedAt: Time): Task {
    t.(attempts := t.attempts + [
      Attempt(|t.attempts| + 1, firedAt, res.statusCode,
              if res.err.Some? then res.err.value else "", res.duration / MILLISECOND)])
  }

  const SKIP_REASON: string := "skipped: past execute_at, exceeds max staleness"

  /** The record of a task retired without delivery. */
  function Skipped(t: Task, fireTime: Time): Task {
    t.(status := Failed,
       attempts := t.attempts + [Attempt(|t.attempts| + 1, fireTime, 0, SKIP_REASON, 0)],
       finishedAt := Some(fireTime))
  }

  /** What retiring a task without delivery adds to it and changes of it. */
  ghost predicate IsSkip(t: Task, fireTime: Time, failed: Task) {
    && failed.status.Failed? && failed.finishedAt == Some(fireTime)
    && failed == t.(status := failed.status, attempts := failed.attempts, finishedAt := failed.finishedAt)
    && |failed.attempts| == |t.attempts| + 1 && t.attempts <= failed.attempts
    && var a := failed.attempts[|t.attempts|];
       && a.n == |t.attempts| + 1 && a.firedAt == fireTime && a.statusCode == 0 && a.durationMs == 0
       && a.error == "skipped: past execute_at, exceeds max staleness"
  }

  lemma SkippedIsSkip(t: Task, fireTime: Time, failed: Task)
    ensures IsSkip(t, fireTime, failed) <==> failed == Skipped(t, fireTime)
  {
    if IsSkip(t, fireTime, failed) {
      assert failed.attempts == t.attempts + [failed.attempts[|t.attempts|]];
    }
  }

  predicate Recurs(t: Task) {
    t.schedule.Every? && t.schedule.interval > 0
  }

  /** The next link of a recurring chain: the task at a new time, under a new identity. */
  function Successor(t: Task, newId: Id, fireTime: Time): Task
    requires Recurs(t)
  {
    t.(id := newId, idempotencyKey := "", executeAt := fireTime + t.schedule.interval,
       status := Pending, attempts := [], finishedAt := None)
  }

  /** The same request to fire again, as a task that has no key and has not run. */
  ghost predicate Repeated(t: Task, next: Task) {
    && next.url == t.url && next.request == t.request && next.schedule == t.schedule && next.onFailureUrl == t.onFailureUrl
    && next.retries == t.retries && next.retryInterval == t.retryInterval && next.retryMode == t.retryMode
    && next.idempotencyKey == "" && next.status.Pending? && next.attempts == [] && next.finishedAt.None?
  }

  /** Whether, and where, a failed task calls back. */
  function CallbackUrl(t: Task, fallback: string): string {
    if t.onFailureUrl == "" then fallback else t.onFailureUrl
  }

  predicate CallsBack(t: Task, fallback: string) {
    CallbackUrl(t, fallback) != "" && t.attempts != []
  }

  // ---- the API handlers

  /** The client-owned fields of a request. */
  datatype Edit = Edit(
    url: string, request: Request, executeAt: Time, retries: int, retryInterval: int,
    retryMode: RetryMode, onFailureUrl: string, schedule: Schedule)

  function Edited(t: Task, e: Edit): Task {
    t.(url := e.url, request := e.request, executeAt := e.executeAt, retries := e.retries,
       retryInterval := e.retryInterval, retryMode := e.retryMode, onFailureUrl := e.onFailureUrl,
       schedule := e.schedule)
  }

  function CancelledAt(t: Task, now: Time): Task {
    t.(status := Cancelled, finishedAt := Some(now))
  }

  function ReplayedAt(t: Task, now: Time): Task {
    t.(status := Pending, executeAt := now, finishedAt := None)
  }

  /** An edit replaces everything the client owns, and nothing the server does. */
  lemma EditReplacesAll(t: Task, u: Task, e: Edit)
    ensures Edited(t, e) == Edited(u, e) <==>
      t.id == u.id && t.idempotencyKey == u.idempotencyKey && t.status == u.status
      && t.attempts == u.attempts && t.finishedAt == u.finishedAt
    ensures Edited(Edited(t, e), e) == Edited(t, e)
  {
  }

  // ---- every rewrite keeps the record in order

  lemma RecordedLog(t: Task, res: Result, firedAt: Time)
    requires Numbered(t.attempts)
    ensures Numbered(Recorded(t, res, firedAt).attempts) && Recorded(t, res, firedAt).attempts != []
    ensures Last(Recorded(t, res, firedAt)).error == "" <==> res.err.None?
  {
  }

  lemma SkippedOk(t: Task, fireTime: Time)
    requires RecordOk(t)
    ensures RecordOk(Skipped(t, fireTime)) && Skipped(t, fireTime).id == t.id
  {
  }

  lemma RewritesOk(t: Task, e: Edit, now: Time, newId: Id)
    requires RecordOk(t)
    ensures t.status.Pending? ==> RecordOk(t.(status := Running))
    ensures t.status.Pending? ==> RecordOk(Edited(t, e))
    ensures RecordOk(CancelledAt(t, now)) && RecordOk(ReplayedAt(t, now))
    ensures t.status.Running? ==> RecordOk(t.(status := Pending))
    ensures Recurs(t) ==> RecordOk(Successor(t, newId, now))
  {
  }
}
