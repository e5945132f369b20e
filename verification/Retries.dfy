/** The pacing of retries inside one delivery, and the loop that fires a task until it succeeds or gives up. */
module Retries {
  import opened Tasks
  import opened Backoff
  import opened Records
  import opened Delivery

  /** What the process shows while a request goes out: its store, its claims and the slots in use. */
  datatype Scene = Scene(store: map<Id, Task>, inflight: set<Id>, sem: nat)

  /** A request, when it goes out, and what the process shows then. */
  datatype Sent = Sent(task: Task, at: Time, scene: Scene)

  /** The clock, the sleeping and the network: time never runs backwards, answers are arbitrary. */
  class World {
    var clock: Time
    ghost var slept: int
    ghost var answers: seq<Result>
    ghost var sent: seq<Sent>

    constructor (start: Time)
      ensures clock == start && slept == 0 && answers == [] && sent == []
    {
      clock, slept, answers, sent := start, 0, [], [];
    }

    method Now() returns (t: Time)
      modifies this`clock
      ensures t == clock >= old(clock)
    {
      t :| t >= clock;
      clock := t;
    }

    method Sleep(ns: nat)
      modifies this`clock, this`slept
      ensures clock >= old(clock) + ns && slept == old(slept) + ns
    {
      var woken :| woken >= clock + ns;
      clock := woken;
      slept := slept + ns;
    }

    method Execute(t: Task, ghost scene: Scene) returns (res: Result)
      modifies this`clock, this`answers, this`sent
      ensures clock >= old(clock) && answers == old(answers) + [res] && sent == old(sent) + [Sent(t, old(clock), scene)]
    {
      sent := sent + [Sent(t, clock, scene)];
      var answered :| answered >= clock;
      clock := answered;
      res := *;
      answers := answers + [res];
    }
  }

  // ---- what a delay may be

  /** The wait a server's answer asks for, capped. */
  function HintOf(res: Result): nat {
    if res.err.Some? then Min(res.retryAfter, MAX_BACKOFF) else 0
  }

  /** The delays the strategy allows before retry number `count`: any jitter is possible, the hint is a floor. */
  predicate IsDelay(interval: int, mode: RetryMode, count: nat, hint: nat, d: int) {
    match mode
    case Fixed => d == Max(interval, hint)
    case Exponential => hint <= d <= Max(Ceiling(interval, count), hint)
  }

  /** The longest a single wait can be. */
  function Longest(interval: int, mode: RetryMode): nat {
    if mode.Fixed? then Max(interval, MAX_BACKOFF) else MAX_BACKOFF
  }

  lemma DelayBounded(interval: int, mode: RetryMode, count: nat, hint: nat, d: int)
    requires IsDelay(interval, mode, count, hint, d) && hint <= MAX_BACKOFF
    ensures hint <= d <= Longest(interval, mode)
  {
  }

  /** A retry of a run: when it began, the delay computed for it, and the hint that delay had to respect. */
  datatype Retry = Retry(began: Time, wait: int, floor: nat)

  /** Every delay is one the strategy allows, and every retry but the first began that much after the one before. */
  ghost predicate Paced(interval: int, mode: RetryMode, log: seq<Retry>) {
    && (forall i :: 0 <= i < |log| ==> IsDelay(interval, mode, i, log[i].floor, log[i].wait) && log[i].floor <= MAX_BACKOFF)
    && (forall i :: 1 <= i < |log| ==> log[i].began >= log[i - 1].began + log[i].wait)
  }

  lemma PacedNext(interval: int, mode: RetryMode, log: seq<Retry>, r: Retry)
    requires Paced(interval, mode, log) && IsDelay(interval, mode, |log|, r.floor, r.wait) && r.floor <= MAX_BACKOFF
    requires log != [] ==> r.began >= log[|log| - 1].began + r.wait
    ensures Paced(interval, mode, log + [r])
  {
  }

  /** What is left to wait for a retry, counted from the start of the one before; nothing, if it is the first. */
  function LeftToWait(wait: int, lastTime: Option<Time>, now: Time): nat {
    if lastTime.None? then 0 else Max(wait - (now - lastTime.value), 0)
  }

  /**
   Counted from the answer that asked for it, a server's wait is honoured only in part. Whatever the jitter,
   it is honoured in full exactly when this is not the first retry and either no time has passed since the
   last one began, or the mode is fixed and the interval alone still covers it.
   */
  lemma HintHonouredWhen(interval: int, mode: RetryMode, count: nat, hint: nat, lastTime: Option<Time>, now: Time)
    requires 0 < hint && (lastTime.Some? ==> lastTime.value <= now)
    ensures (forall d :: IsDelay(interval, mode, count, hint, d) ==> LeftToWait(d, lastTime, now) >= hint) <==>
      lastTime.Some?
      && (now == lastTime.value || (mode.Fixed? && interval - (now - lastTime.value) >= hint))
  {
    assert IsDelay(interval, mode, count, hint, if mode.Fixed? then Max(interval, hint) else hint);
  }

  /** The retry strategy of one delivery and how far it has got. */
  class Attempts {
    const interval: int
    const retries: int
    const mode: RetryMode
    var lastTime: Option<Time>
    var count: nat
    var hint: nat

    ghost var log: seq<Retry>
    const world: World

    ghost predicate Valid()
      reads this, world`clock
    {
      && count == |log| <= Max(retries, 0)
      && lastTime == (if log == [] then None else Some(log[|log| - 1].began))
      && (lastTime.Some? ==> lastTime.value <= world.clock)
      && hint <= MAX_BACKOFF
      && Paced(interval, mode, log)
    }

    constructor (world: World, retries: int, intervalMs: int, mode: RetryMode)
      ensures Valid() && count == 0 && hint == 0 && log == []
      ensures this.world == world && this.retries == retries && interval == Millis(intervalMs) && this.mode == mode
    {
      this.world, this.retries, this.interval, this.mode := world, retries, Millis(intervalMs), mode;
      lastTime, count, hint, log := None, 0, 0, [];
    }

    method ServerHint(d: nat)
      requires Valid()
      modifies this`hint
      ensures Valid() && hint == Min(d, MAX_BACKOFF)
    {
      var wait := d;
      if wait > MAX_BACKOFF {
        wait := MAX_BACKOFF;
      }
      hint := wait;
    }

    predicate ShouldRetry()
      reads this
    {
      count < retries
    }

    method Delay() returns (d: int)
      requires hint <= MAX_BACKOFF
      ensures IsDelay(interval, mode, count, hint, d)
    {
      d := interval;
      if mode.Exponential? {
        var backoff := ShiftLeft(interval, count);
        if backoff <= 0 || backoff > MAX_BACKOFF {
          backoff := MAX_BACKOFF;
        }
        d :| 0 <= d <= backoff;
      }
      if hint > d {
        d := hint;
      }
    }

    /**
     Waits for the next retry's turn, if there is one left. The first retry never waits; a later one
     starts at least its delay after the one before started.
     */
    method Next() returns (again: bool, ghost read: Time)
      requires Valid()
      modifies this`lastTime, this`count, this`hint, this`log, world`clock, world`slept
      ensures Valid() && again == (old(count) < retries) && world.clock >= old(world.clock)
      ensures !again ==> log == old(log) && world.slept == old(world.slept)
      ensures again ==> hint == 0 && |log| == old(count) + 1 && log[..old(count)] == old(log) && log[old(count)].floor == old(hint)
      ensures again ==> old(world.clock) <= read <= log[old(count)].began
      ensures again ==> world.slept - old(world.slept) == LeftToWait(log[old(count)].wait, old(lastTime), read)
    {
      read := world.clock;
      if !ShouldRetry() {
        return false, read;
      }
      var d := Delay();
      if lastTime.Some? {
        var now := world.Now();
        read := now;
        var since := now - lastTime.value;
        if since < d {
          world.Sleep(d - since);
        }
      }
      var started := world.Now();
      lastTime := Some(started);
      PacedNext(interval, mode, log, Retry(started, d, hint));
      log := log + [Retry(started, d, hint)];
      count := count + 1;
      hint := 0;
      return true, read;
    }

    /** What follows a failed answer: its hint is noted, and another retry begins if one is left. */
    method RetryAfter(res: Result, ghost longest: nat) returns (again: bool)
      requires Valid() && hint == 0 && res.err.Some? && longest == Longest(interval, mode)
      modifies this`lastTime, this`count, this`hint, this`log, world`clock, world`slept
      ensures Valid() && again == (old(count) < retries) && world.clock >= old(world.clock)
      ensures again ==> hint == 0 && count == old(count) + 1 && log[..old(count)] == old(log) && log[old(count)].floor == HintOf(res)
      ensures again ==> old(world.clock) <= log[old(count)].began
      ensures !again ==> count == old(count) && log == old(log) && world.slept == old(world.slept)
      ensures world.slept - old(world.slept) <= if again && old(count) > 0 then longest else 0
      ensures again && old(count) == 0 ==> world.slept == old(world.slept)
    {
      if res.retryAfter > 0 {
        ServerHint(res.retryAfter);
      }
      ghost var read;
      again, read := Next();
      if again {
        DelayBounded(interval, mode, count - 1, log[count - 1].floor, log[count - 1].wait);
      }
    }
  }

  // ---- the loop

  /** The attempts added to the log are the answers, in order, numbered on from the log's old length. */
  ghost predicate Logs(before: seq<Attempt>, after: seq<Attempt>, answers: seq<Result>) {
    && |after| == |before| + |answers| && before <= after
    && forall i :: 0 <= i < |answers| ==>
         var a := after[|before| + i];
         && a.n == |before| + i + 1 && a.statusCode == answers[i].statusCode && a.durationMs == answers[i].duration / MILLISECOND
         && a.error == (if answers[i].err.Some? then answers[i].err.value else "")
  }

  lemma LogsNext(before: seq<Attempt>, t: Task, answers: seq<Result>, res: Result, firedAt: Time)
    requires Logs(before, t.attempts, answers)
    ensures Logs(before, Recorded(t, res, firedAt).attempts, answers + [res])
  {
  }

  /** Every retry respected the wait its answer asked for. */
  ghost predicate FloorsFrom(log: seq<Retry>, answers: seq<Result>) {
    |log| <= |answers| && forall i :: 0 <= i < |log| ==> log[i].floor == HintOf(answers[i])
  }

  lemma FloorsNext(log: seq<Retry>, answers: seq<Result>, res: Result)
    requires |log| == |answers| + 1 && FloorsFrom(log[..|answers|], answers) && log[|answers|].floor == HintOf(res)
    ensures FloorsFrom(log, answers + [res])
  {
    forall i | 0 <= i < |answers|
      ensures log[i].floor == HintOf(answers[i])
    {
      assert log[..|answers|][i] == log[i];
    }
  }

  ghost predicate AllFailed(answers: seq<Result>) {
    forall i :: 0 <= i < |answers| ==> answers[i].err.Some?
  }

  /** Every attempt so far failed, and each was followed by a retry. */
  ghost predicate Trying(task: Task, t: Task, answers: seq<Result>, log: seq<Retry>) {
    && t == task.(attempts := t.attempts)
    && Logs(task.attempts, t.attempts, answers)
    && AllFailed(answers) && FloorsFrom(log, answers) && |log| == |answers|
  }

  /**
   A finished run: at least one attempt, at most one more than the retries, all but the last failed, and
   the outcome is the last one's. It gives up only when the retries are used up.
   */
  ghost predicate Ended(task: Task, t: Task, answers: seq<Result>, log: seq<Retry>) {
    && 1 <= |answers| == |log| + 1 <= Max(task.retries, 0) + 1
    && t == task.(attempts := t.attempts, status := t.status, finishedAt := t.finishedAt)
    && Logs(task.attempts, t.attempts, answers)
    && AllFailed(answers[..|log|]) && FloorsFrom(log, answers)
    && t.status == (if answers[|log|].err.None? then Succeeded else Failed)
    && (t.status.Failed? ==> |answers| == Max(task.retries, 0) + 1)
  }

  /** The attempts added were fired one after the other, between these two times. */
  ghost predicate InOrder(from: nat, attempts: seq<Attempt>, start: Time, now: Time) {
    && start <= now
    && (forall i :: from <= i < |attempts| ==> start <= attempts[i].firedAt <= now)
    && (forall i, j :: from <= i <= j < |attempts| ==> attempts[i].firedAt <= attempts[j].firedAt)
  }

  lemma InOrderNext(from: nat, attempts: seq<Attempt>, start: Time, now: Time, a: Attempt, later: Time)
    requires InOrder(from, attempts, start, now) && now <= a.firedAt <= later
    ensures InOrder(from, attempts + [a], start, later)
  {
  }

  lemma InOrderLater(from: nat, attempts: seq<Attempt>, start: Time, now: Time, later: Time)
    requires InOrder(from, attempts, start, now) && now <= later
    ensures InOrder(from, attempts, start, later)
  {
  }

  lemma AnswerEnds(task: Task, t: Task, answers: seq<Result>, log: seq<Retry>, res: Result, firedAt: Time)
    requires Trying(task, t, answers, log) && |log| <= Max(task.retries, 0)
    ensures var u := Recorded(t, res, firedAt);
            && (res.err.None? ==> Ended(task, u.(status := Succeeded), answers + [res], log))
            && (res.err.Some? && |log| >= task.retries ==> Ended(task, u.(status := Failed), answers + [res], log))
  {
    LogsNext(task.attempts, t, answers, res, firedAt);
    assert (answers + [res])[..|log|] == answers;
  }

  lemma AnswerContinues(task: Task, t: Task, answers: seq<Result>, log: seq<Retry>, res: Result, firedAt: Time)
    requires log != [] && Trying(task, t, answers, log[..|log| - 1]) && res.err.Some? && log[|log| - 1].floor == HintOf(res)
    ensures Trying(task, Recorded(t, res, firedAt), answers + [res], log)
  {
    LogsNext(task.attempts, t, answers, res, firedAt);
    FloorsNext(log, answers, res);
  }

  /** The most a run with that many retries can have slept: the first retry never waits. */
  function SleepBound(retries: int, longest: nat): nat {
    if retries <= 1 then 0 else SleepBound(retries - 1, longest) + longest
  }

  lemma {:induction false} SleepBoundIs(retries: int, longest: nat)
    ensures SleepBound(retries, longest) == Max(retries - 1, 0) * longest
  {
    if retries > 1 {
      SleepBoundIs(retries - 1, longest);
      assert (retries - 1) * longest == (retries - 2) * longest + longest;
    }
  }

  lemma {:induction false} SleepGrows(count: int, retries: int, longest: nat)
    requires count <= Max(retries, 0)
    ensures SleepBound(count, longest) <= SleepBound(retries, longest)
  {
    if 1 < count < retries {
      SleepGrows(count, retries - 1, longest);
    }
  }

  /** The requests of a run: one for each of its first n attempts, sending the task with the attempts logged by then. */
  ghost predicate Sends(task: Task, attempts: seq<Attempt>, n: nat, scene: Scene, sent: seq<Sent>) {
    && |sent| == n && |attempts| == |task.attempts| + n
    && forall i :: 0 <= i < n ==> sent[i].task == task.(attempts := attempts[..|task.attempts| + i]) && sent[i].scene == scene
  }

  /** Retry i begins after request i went out, and the next request goes out after the retry begins. */
  ghost predicate Between(log: seq<Retry>, sent: seq<Sent>, i: nat)
    requires i < |log| <= |sent|
  {
    sent[i].at <= log[i].began && (i + 1 < |sent| ==> log[i].began <= sent[i + 1].at)
  }

  ghost predicate Interleaved(log: seq<Retry>, sent: seq<Sent>) {
    |log| <= |sent| <= |log| + 1 && forall i :: 0 <= i < |log| ==> Between(log, sent, i)
  }

  lemma InterleavedNext(before: seq<Retry>, log: seq<Retry>, sent: seq<Sent>, s: Sent)
    requires |before| == |sent| && Interleaved(before, sent)
    requires before != [] ==> before[|before| - 1].began <= s.at
    requires LogGrown(before, log, |log| > |before|, s.at)
    ensures Interleaved(log, sent + [s])
  {
    forall i | 0 <= i < |log|
      ensures Between(log, sent + [s], i)
    {
      if i < |before| {
        assert Between(before, sent, i);
        assert log[..|before|][i] == log[i];
      }
    }
  }

  lemma SendsNext(task: Task, t: Task, attempts: seq<Attempt>, n: nat, scene: Scene, sent: seq<Sent>, s: Sent)
    requires Sends(task, t.attempts, n, scene, sent) && t == task.(attempts := t.attempts) && s.task == t && s.scene == scene
    requires |attempts| == |t.attempts| + 1 && attempts[..|t.attempts|] == t.attempts
    ensures Sends(task, attempts, n + 1, scene, sent + [s])
  {
    forall k | 0 <= k <= |t.attempts|
      ensures attempts[..k] == t.attempts[..k]
    {
      assert attempts[..|t.attempts|][..k] == attempts[..k];
    }
  }

  /** One request, logged under the next number and at the time its answer came. */
  method Try(world: World, t: Task, ghost from: nat, ghost start: Time, ghost scene: Scene)
      returns (u: Task, res: Result, firedAt: Time)
    requires InOrder(from, t.attempts, start, world.clock)
    modifies world`clock, world`answers, world`sent
    ensures firedAt == world.clock >= old(world.clock) && u == Recorded(t, res, firedAt)
    ensures world.answers == old(world.answers) + [res]
    ensures world.sent == old(world.sent) + [Sent(t, old(world.clock), scene)]
    ensures InOrder(from, u.attempts, start, firedAt)
  {
    var n := |t.attempts| + 1;
    res := world.Execute(t, scene);
    firedAt := world.Now();
    var a := Attempt(n, firedAt, res.statusCode, if res.err.Some? then res.err.value else "", res.duration / MILLISECOND);
    InOrderNext(from, t.attempts, start, old(world.clock), a, firedAt);
    u := t.(attempts := t.attempts + [a]);
  }

  /** Either nothing was added to the log of retries, or one that began no sooner than `at`. */
  ghost predicate LogGrown(before: seq<Retry>, log: seq<Retry>, again: bool, at: Time) {
    if again then |log| == |before| + 1 && log[..|before|] == before && at <= log[|before|].began else log == before
  }

  /** After a failed attempt, logged as u: another retry has begun, or the task has failed. */
  method GoOn(world: World, attempt: Attempts, ghost task: Task, ghost t: Task, u: Task, ghost answers: seq<Result>, res: Result,
              ghost longest: nat)
      returns (again: bool)
    requires attempt.Valid() && attempt.world == world && attempt.hint == 0 && attempt.retries == task.retries
    requires Trying(task, t, answers, attempt.log) && longest == Longest(attempt.interval, attempt.mode)
    requires res.err.Some? && exists firedAt :: u == Recorded(t, res, firedAt)
    modifies world`clock, world`slept, attempt
    ensures attempt.Valid() && world.clock >= old(world.clock)
    ensures if again then Trying(task, u, answers + [res], attempt.log) && attempt.hint == 0
            else Ended(task, u.(status := Failed), answers + [res], attempt.log)
    ensures LogGrown(old(attempt.log), attempt.log, again, old(world.clock))
    ensures attempt.count == old(attempt.count) + if again then 1 else 0
    ensures world.slept - old(world.slept) <= if old(attempt.count) > 0 then longest else 0
    ensures !again ==> world.slept == old(world.slept)
  {
    ghost var firedAt :| u == Recorded(t, res, firedAt);
    again := attempt.RetryAfter(res, longest);
    if again {
      AnswerContinues(task, t, answers, attempt.log, res, firedAt);
    } else {
      AnswerEnds(task, t, answers, attempt.log, res, firedAt);
    }
  }

  /** One turn of the loop: an attempt is made and logged, and either ends the run or is followed by a retry. */
  method Turn(world: World, attempt: Attempts, ghost task: Task, t: Task, ghost answers: seq<Result>, ghost longest: nat,
              ghost start: Time, ghost scene: Scene)
      returns (u: Task, done: bool, ghost answer: Result)
    requires attempt.Valid() && attempt.world == world && attempt.hint == 0 && attempt.retries == task.retries
    requires Trying(task, t, answers, attempt.log) && longest == Longest(attempt.interval, attempt.mode)
    requires InOrder(|task.attempts|, t.attempts, start, world.clock)
    modifies world, attempt
    ensures attempt.Valid() && world.clock >= old(world.clock)
    ensures world.answers == old(world.answers) + [answer]
    ensures world.sent == old(world.sent) + [Sent(t, old(world.clock), scene)]
    ensures LogGrown(old(attempt.log), attempt.log, !done, old(world.clock))
    ensures |u.attempts| == |t.attempts| + 1 && u.attempts[..|t.attempts|] == t.attempts
    ensures if done then Ended(task, u, answers + [answer], attempt.log)
            else Trying(task, u, answers + [answer], attempt.log) && attempt.hint == 0
    ensures InOrder(|task.attempts|, u.attempts, start, world.clock)
    ensures attempt.count == old(attempt.count) + if done then 0 else 1
    ensures world.slept - old(world.slept) <= if old(attempt.count) > 0 then longest else 0
    ensures done ==> world.slept == old(world.slept)
  {
    var res, firedAt;
    u, res, firedAt := Try(world, t, |task.attempts|, start, scene);
    if res.err.None? {
      AnswerEnds(task, t, answers, attempt.log, res, firedAt);
      return u.(status := Succeeded), true, res;
    }
    var again := GoOn(world, attempt, task, t, u, answers, res, longest);
    InOrderLater(|task.attempts|, u.attempts, start, firedAt, world.clock);
    if again {
      return u, false, res;
    }
    return u.(status := Failed), true, res;
  }

  lemma Appended<T>(s: seq<T>, t: seq<T>, x: T)
    ensures s + t + [x] == s + (t + [x])
  {
  }

  /** How far a run has got: what it was told and sent, and whether it is over. */
  ghost predicate Fired(task: Task, t: Task, done: bool, answers: seq<Result>, log: seq<Retry>, sent: seq<Sent>, scene: Scene) {
    && (if done then Ended(task, t, answers, log) else Trying(task, t, answers, log))
    && Sends(task, t.attempts, |answers|, scene, sent) && Interleaved(log, sent)
  }

  lemma NotTriedYet(task: Task, now: Time, scene: Scene)
    ensures Fired(task, task, false, [], [], [], scene) && InOrder(|task.attempts|, task.attempts, now, now)
  {
  }

  /** The same turn, with everything answered and sent since the run began. */
  method NextTurn(world: World, attempt: Attempts, ghost task: Task, t: Task, ghost told: seq<Result>, ghost answers: seq<Result>,
                  ghost out: seq<Sent>, ghost sent: seq<Sent>, ghost longest: nat, ghost start: Time, ghost scene: Scene)
      returns (u: Task, done: bool, ghost answers': seq<Result>, ghost sent': seq<Sent>)
    requires attempt.Valid() && attempt.world == world && attempt.hint == 0 && attempt.retries == task.retries
    requires longest == Longest(attempt.interval, attempt.mode)
    requires InOrder(|task.attempts|, t.attempts, start, world.clock)
    requires Fired(task, t, false, answers, attempt.log, sent, scene)
    requires world.answers == told + answers && world.sent == out + sent
    modifies world, attempt
    ensures attempt.Valid() && world.clock >= old(world.clock) && (done || attempt.hint == 0)
    ensures world.answers == told + answers' && world.sent == out + sent'
    ensures InOrder(|task.attempts|, u.attempts, start, world.clock)
    ensures Fired(task, u, done, answers', attempt.log, sent', scene)
    ensures attempt.count == old(attempt.count) + if done then 0 else 1
    ensures world.slept - old(world.slept) <= if old(attempt.count) > 0 then longest else 0
    ensures done ==> world.slept == old(world.slept)
  {
    ghost var s, begun := Sent(t, world.clock, scene), attempt.log;
    ghost var answer;
    u, done, answer := Turn(world, attempt, task, t, answers, longest, start, scene);
    SendsNext(task, t, u.attempts, |answers|, scene, sent, s);
    InterleavedNext(begun, attempt.log, sent, s);
    Appended(told, answers, answer);
    Appended(out, sent, s);
    answers', sent' := answers + [answer], sent + [s];
  }

  /** The loop: turn after turn until one of them ends the run. */
  method Attempting(world: World, task: Task, attempt: Attempts, ghost scene: Scene)
      returns (t: Task, ghost answers: seq<Result>, ghost sent: seq<Sent>)
    requires attempt.Valid() && attempt.world == world && attempt.hint == 0 && attempt.log == []
    requires attempt.retries == task.retries
    modifies world, attempt
    ensures attempt.Valid() && world.clock >= old(world.clock)
    ensures world.answers == old(world.answers) + answers && world.sent == old(world.sent) + sent
    ensures Fired(task, t, true, answers, attempt.log, sent, scene)
    ensures InOrder(|task.attempts|, t.attempts, old(world.clock), world.clock)
    ensures world.slept - old(world.slept) <= SleepBound(attempt.count, Longest(attempt.interval, attempt.mode))
  {
    t, answers, sent := task, [], [];
    ghost var longest := Longest(attempt.interval, attempt.mode);
    NotTriedYet(task, world.clock, scene);
    var done := false;
    while !done
      invariant attempt.Valid() && (done || attempt.hint == 0)
      invariant world.answers == old(world.answers) + answers && world.sent == old(world.sent) + sent
      invariant world.clock >= old(world.clock)
      invariant Fired(task, t, done, answers, attempt.log, sent, scene)
      invariant InOrder(|task.attempts|, t.attempts, old(world.clock), world.clock)
      invariant world.slept - old(world.slept) <= SleepBound(attempt.count, longest)
      decreases if done then 0 else 1 + Max(task.retries, 0) - attempt.count
    {
      t, done, answers, sent := NextTurn(world, attempt, task, t, old(world.answers), answers, old(world.sent), sent,
                                         longest, old(world.clock), scene);
    }
  }

  /** Fires a task until an attempt succeeds or the retries run out. */
  method Fire(world: World, task: Task, ghost scene: Scene)
      returns (t: Task, attempt: Attempts, ghost answers: seq<Result>, ghost sent: seq<Sent>)
    modifies world
    ensures fresh(attempt) && attempt.world == world && attempt.Valid() && world.clock >= old(world.clock)
    ensures attempt.interval == Millis(task.retryInterval) && attempt.mode == task.retryMode
    ensures world.answers == old(world.answers) + answers && world.sent == old(world.sent) + sent
    ensures Ended(task, t, answers, attempt.log)
    ensures Sends(task, t.attempts, |answers|, scene, sent) && Interleaved(attempt.log, sent)
    ensures t.finishedAt == Some(world.clock) && InOrder(|task.attempts|, t.attempts, old(world.clock), world.clock)
    ensures world.slept - old(world.slept)
            <= SleepBound(task.retries, Longest(Millis(task.retryInterval), task.retryMode))
  {
    attempt := new Attempts(world, task.retries, task.retryInterval, task.retryMode);
    t, answers, sent := Attempting(world, task, attempt, scene);
    SleepGrows(attempt.count, task.retries, Longest(attempt.interval, attempt.mode));
    var now := world.Now();
    t := t.(finishedAt := Some(now));
  }

  /**
   From the second retry on, retries start at least a delay apart that the strategy allows for that retry and
   that answer: never sooner than asked, in fixed mode never sooner than the interval, and in exponential mode
   after whatever wait was drawn. The requests themselves keep to it: each goes out after its retry has begun.
   */
  lemma RetriesArePaced(interval: int, mode: RetryMode, log: seq<Retry>, answers: seq<Result>, sent: seq<Sent>, i: nat)
    requires Paced(interval, mode, log) && FloorsFrom(log, answers) && Interleaved(log, sent) && 1 <= i < |log|
    ensures IsDelay(interval, mode, i, HintOf(answers[i]), log[i].wait)
    ensures log[i].began - log[i - 1].began >= log[i].wait >= HintOf(answers[i])
    ensures mode.Fixed? ==> log[i].began - log[i - 1].began >= interval
    ensures log[i - 1].began <= sent[i].at <= log[i].began
    ensures i + 1 < |sent| ==> log[i].began <= sent[i + 1].at
  {
    assert IsDelay(interval, mode, i, log[i].floor, log[i].wait);
    assert Between(log, sent, i - 1) && Between(log, sent, i);
  }

  /** However long the server asks for, the first retry begins without any sleep. */
  method FirstRetryAtOnce(world: World, retries: int, intervalMs: int, mode: RetryMode, res: Result) returns (attempt: Attempts)
    requires retries > 0 && res.err.Some? && res.retryAfter > 0
    modifies world
    ensures attempt.Valid() && |attempt.log| == 1 && attempt.log[0].floor == Min(res.retryAfter, MAX_BACKOFF) > 0
    ensures world.slept == old(world.slept)
  {
    attempt := new Attempts(world, retries, intervalMs, mode);
    var again := attempt.RetryAfter(res, Longest(attempt.interval, mode));
    assert again;
  }

  /** What the loop leaves behind is what the step-by-step model of a delivery calls a finished run. */
  lemma LoopIsFinishedRun(c: Config, base: Task, t: Task, answers: seq<Result>, log: seq<Retry>, fireTime: Time)
    requires Ended(base.(status := Running), t, answers, log) && t.finishedAt.Some?
    requires FiredInTime(c, Delivery(base.id, t, base, fireTime, |log|, Finalizing))
    ensures FinishedRun(c, Delivery(base.id, t, base, fireTime, |log|, Finalizing))
  {
    var d := Delivery(base.id, t, base, fireTime, |log|, Finalizing);
    forall i | |base.attempts| <= i < |base.attempts| + d.tries
      ensures t.attempts[i].error != ""
    {
      assert answers[..|log|][i - |base.attempts|].err.Some?;
      assert t.attempts[|base.attempts| + (i - |base.attempts|)] == t.attempts[i];
    }
    assert Last(t) == t.attempts[|base.attempts| + |log|];
    forall i | 0 <= i < |t.attempts|
      ensures t.attempts[i].n == i + 1
    {
      if i >= |base.attempts| {
        var j := i - |base.attempts|;
        assert answers[j].statusCode == t.attempts[|base.attempts| + j].statusCode;
      } else {
        assert t.attempts[i] == base.attempts[i];
      }
    }
  }

  // ---- the loop and the step-by-step model of a delivery

  /** A delivery about to fire, taken through the calls that these answers end at these times. */
  function Answered(c: Config, d: Delivery, answers: seq<Result>, times: seq<Time>): Delivery
    requires |answers| == |times|
  {
    if answers == [] then d
    else
      var n := |answers| - 1;
      var e := Answered(c, d, answers[..n], times[..n]);
      if !e.phase.Firing? then e
      else
        var sight := Sight(times[n], None, false, false);
        Moved(c, Moved(c, e, CallTarget, sight), TargetAnswers(answers[n]), sight)
  }

  ghost function TimesOf(base: Task, t: Task, n: nat): seq<Time>
    requires |base.attempts| + n <= |t.attempts|
  {
    seq(n, i requires 0 <= i < n => t.attempts[|base.attempts| + i].firedAt)
  }

  lemma LoggedAsRecorded(base: Task, t: Task, answers: seq<Result>, i: nat)
    requires Logs(base.attempts, t.attempts, answers) && i < |answers|
    ensures var before := base.(attempts := t.attempts[..|base.attempts| + i]);
            Recorded(before, answers[i], t.attempts[|base.attempts| + i].firedAt).attempts
            == t.attempts[..|base.attempts| + i + 1]
  {
    var a := t.attempts[|base.attempts| + i];
    assert a.n == |base.attempts| + i + 1 && a.statusCode == answers[i].statusCode;
    assert t.attempts[..|base.attempts| + i + 1] == t.attempts[..|base.attempts| + i] + [a];
  }

  /** Where the loop stands after n answers, as a delivery. */
  ghost function Standing(base: Task, t: Task, answers: seq<Result>, fireTime: Time, n: nat): Delivery
    requires n <= |answers| && answers != [] && |base.attempts| + n <= |t.attempts|
  {
    if n < |answers|
    then Delivery(base.id, base.(status := Running, attempts := t.attempts[..|base.attempts| + n]), base, fireTime, n, Firing)
    else Delivery(base.id, t.(finishedAt := base.finishedAt), base, fireTime, |answers| - 1, Settling)
  }

  lemma TurnIsSteps(c: Config, base: Task, t: Task, answers: seq<Result>, log: seq<Retry>, fireTime: Time, n: nat, sight: Sight)
    requires Ended(base.(status := Running), t, answers, log) && n < |answers|
    requires sight.now == t.attempts[|base.attempts| + n].firedAt
    ensures var d := Standing(base, t, answers, fireTime, n);
            Moved(c, Moved(c, d, CallTarget, sight), TargetAnswers(answers[n]), sight) == Standing(base, t, answers, fireTime, n + 1)
  {
    LoggedAsRecorded(base.(status := Running), t, answers, n);
    if n < |log| {
      assert answers[..|log|][n].err.Some?;
    } else {
      assert t.attempts[..|base.attempts| + n + 1] == t.attempts;
    }
  }

  lemma AnsweredNext(c: Config, d: Delivery, answers: seq<Result>, times: seq<Time>, n: nat)
    requires n < |answers| == |times| && Answered(c, d, answers[..n], times[..n]).phase.Firing?
    ensures var sight := Sight(times[n], None, false, false);
            Answered(c, d, answers[..n + 1], times[..n + 1])
            == Moved(c, Moved(c, Answered(c, d, answers[..n], times[..n]), CallTarget, sight), TargetAnswers(answers[n]), sight)
  {
    assert answers[..n + 1][..n] == answers[..n] && times[..n + 1][..n] == times[..n];
  }

  lemma NextStanding(c: Config, d: Delivery, base: Task, t: Task, answers: seq<Result>, log: seq<Retry>, fireTime: Time,
                     times: seq<Time>, n: nat)
    requires Ended(base.(status := Running), t, answers, log) && n < |answers| == |times|
    requires times[n] == t.attempts[|base.attempts| + n].firedAt
    requires Answered(c, d, answers[..n], times[..n]) == Standing(base, t, answers, fireTime, n)
    ensures Answered(c, d, answers[..n + 1], times[..n + 1]) == Standing(base, t, answers, fireTime, n + 1)
  {
    AnsweredNext(c, d, answers, times, n);
    TurnIsSteps(c, base, t, answers, log, fireTime, n, Sight(times[n], None, false, false));
  }

  /** The steps of a delivery follow the loop, answer for answer, to the same record. */
  lemma {:induction false} StepsFollowLoop(c: Config, d: Delivery, base: Task, t: Task, answers: seq<Result>, log: seq<Retry>,
                                           fireTime: Time, n: nat)
    requires Ended(base.(status := Running), t, answers, log) && n <= |answers|
    requires d == Delivery(base.id, base.(status := Running), base, fireTime, 0, Firing)
    ensures Answered(c, d, answers[..n], TimesOf(base, t, |answers|)[..n]) == Standing(base, t, answers, fireTime, n)
  {
    if n == 0 {
      assert t.attempts[..|base.attempts|] == base.attempts;
    } else {
      StepsFollowLoop(c, d, base, t, answers, log, fireTime, n - 1);
      NextStanding(c, d, base, t, answers, log, fireTime, TimesOf(base, t, |answers|), n - 1);
    }
  }
}
