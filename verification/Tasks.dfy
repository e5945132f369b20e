/** The stored entities: a task, its lifecycle status and its attempt log. */
module Tasks {

  type Id = string

  /** An instant, in nanoseconds since the Unix epoch. */
  type Time = int

  const SECOND: int := 1_000_000_000
  const MILLISECOND: int := 1_000_000

  /** Whole seconds since the epoch, rounded towards the past. */
  function Unix(t: Time): (s: int)
    ensures s * 1_000_000_000 <= t < (s + 1) * 1_000_000_000
  {
    t / SECOND
  }

  datatype Option<+T> = None | Some(value: T)

  datatype Status = Pending | Running | Succeeded | Failed | Cancelled {
    predicate IsTerminal() {
      Succeeded? || Failed? || Cancelled?
    }

    function Name(): string {
      match this
      case Pending => "pending"
      case Running => "running"
      case Succeeded => "succeeded"
      case Failed => "failed"
      case Cancelled => "cancelled"
    }
  }

  datatype RetryMode = Fixed | Exponential

  /** The text of an error: the executor never reports an error without one. */
  type ErrorText = s: string | s != "" witness "error"

  /** One request fired at the task's url; `error` is empty exactly on success. */
  datatype Attempt = Attempt(n: int, firedAt: Time, statusCode: int, error: string, durationMs: int)

  /** The `schedule` text, as Go's duration parser reads it. */
  datatype Schedule = OneShot | Every(interval: int) | Malformed(text: string)

  /** The body of a request: what the client gave, or the runner's report of a failed task. */
  datatype Payload =
    | Given(json: string)
    | FailureReport(id: Id, status: Status, attempts: nat, lastError: string, statusCode: int)

  /** What is sent, which no scheduling decision looks at. */
  datatype Request = Request(verb: string, headers: map<string, string>, payload: Payload, timeoutMs: int)

  datatype Task = Task(
    id: Id,
    idempotencyKey: string,
    url: string,
    request: Request,
    executeAt: Time,
    retries: int,
    retryInterval: int,
    retryMode: RetryMode,
    onFailureUrl: string,
    schedule: Schedule,
    status: Status,
    attempts: seq<Attempt>,
    finishedAt: Option<Time>)

  /** The outcome of one call of the executor. */
  datatype Result = Result(statusCode: int, err: Option<ErrorText>, duration: nat, retryAfter: nat)

  function Min(a: int, b: int): int {
    if a < b then a else b
  }

  function Max(a: int, b: int): int {
    if a < b then b else a
  }
}
