/** What one step can do to the goroutines, to the store and to the books, read off the transition system once. */
module Steps {
  import opened Tasks
  import opened Rows
  import opened Delivery
  import opened Protocol

  /** A goroutine moves, one is started, all vanish in a crash, or only the main loop changes. */
  ghost predicate ControlStep(c: Config, s: State, l: Label, u: Control) {
    match l
    case Run(g, a) =>
      && g in s.ctl.gs && Can(c, s.ctl.gs[g], a, SightOf(c, s, s.ctl.gs[g]))
      && u == ControlAfterRun(c, s.ctl, g, a, SightOf(c, s, s.ctl.gs[g]))
    case Claim => s.ctl.loop.Serving? && s.ctl.loop.batch != [] && u == AfterClaim(s.ctl)
    case Crash => u == Idle(Down, s.ctl.nextG)
    case Tick(due) => DueBatch(s.store, due) && u == s.ctl.(loop := Serving(due))
    case _ =>
      && u == s.ctl.(loop := u.loop, stopping := u.stopping)
      && (u.loop.Serving? ==> u.loop == s.ctl.loop || u.loop == Serving([]))
      && (u.loop.Down? ==> s.ctl.loop.Down?)
      && (u.loop == Stopped(true) ==> s.ctl.loop == Stopped(true) || s.ctl.wg == 0)
  }

  lemma StepOfControl(c: Config, s: State, l: Label)
    requires Enabled(c, s, l)
    ensures ControlStep(c, s, l, After(c, s, l).ctl)
  {
  }

  /** The same, for the goroutines alone. */
  ghost predicate GsStep(c: Config, s: State, l: Label, gs: map<nat, Delivery>) {
    match l
    case Run(g, a) =>
      && g in s.ctl.gs && Can(c, s.ctl.gs[g], a, SightOf(c, s, s.ctl.gs[g]))
      && gs == if a.Finish? then s.ctl.gs - {g} else s.ctl.gs[g := Moved(c, s.ctl.gs[g], a, SightOf(c, s, s.ctl.gs[g]))]
    case Claim =>
      && s.ctl.loop.Serving? && s.ctl.loop.batch != []
      && forall h :: h in gs ==> (h in s.ctl.gs && gs[h] == s.ctl.gs[h]) || gs[h] == NewDelivery(s.ctl.loop.batch[0])
    case Crash => gs == map[]
    case _ => gs == s.ctl.gs
  }

  lemma StepOfGs(c: Config, s: State, l: Label, u: Control)
    requires ControlStep(c, s, l, u)
    ensures GsStep(c, s, l, u.gs)
  {
  }

  /** The record a step saves, if it saves one. */
  function Saved(s: State, l: Label): Option<Task> {
    match l
    case Run(g, a) => if g in s.ctl.gs then Written(s.ctl.gs[g], a) else None
    case WriteBack(h, ok) => if ok && h in s.api.handlers then Some(WrittenBack(s, h)) else None
    case Atomic(id, op) => if id in s.store then Some(Applied(op, s.store[id], s.clock)) else None
    case SaveNew(ok) => if ok && s.api.creator.Some? then Some(s.api.creator.value.task) else None
    case _ => None
  }

  /** One record is saved, some are removed, running ones are requeued, or the store stays as it is. */
  ghost predicate StoreStep(s: State, l: Label, store: Store) {
    match l
    case BulkDelete(ids) => store == s.store - ids
    case Expire(id) => id in s.store && s.store[id].status.IsTerminal() && store == s.store - {id}
    case Restart(ok) => s.ctl.loop.Down? && store == if ok then Requeue(s.store) else s.store
    case Atomic(id, op) => id in s.store && Admits(op, s.store[id]) && store == Upsert(s.store, Saved(s, l))
    case _ => store == Upsert(s.store, Saved(s, l))
  }

  lemma StepOfStore(c: Config, s: State, l: Label)
    requires Enabled(c, s, l)
    ensures StoreStep(s, l, After(c, s, l).store)
  {
  }

  /** The lineage grows by a saved successor or a created task, and by nothing else. */
  ghost predicate BookStep(s: State, l: Label, b: Books) {
    match l
    case Run(g, a) => g in s.ctl.gs && (a.Reschedule? ==> IsFresh(s, a.newId)) && b == BooksAfterRun(s.books, s.ctl.gs[g], a)
    case Lock(t) => IsFresh(s, t.id) && b == s.books.(used := s.books.used + {t.id})
    case SaveNew(ok) =>
      && s.api.creator.Some?
      && var t := s.api.creator.value.task;
         b == if ok then s.books.(lineage := s.books.lineage[t.id := Link(t.id, 0)], roots := s.books.roots[t.id := t]) else s.books
    case BulkDelete(ids) => b == s.books.(removed := s.books.removed + ids * s.store.Keys)
    case Expire(id) => id in s.store && b == s.books.(removed := s.books.removed + {id})
    case _ => b == s.books
  }

  lemma StepOfBooks(c: Config, s: State, l: Label)
    requires Enabled(c, s, l)
    ensures BookStep(s, l, After(c, s, l).books)
  {
  }

  /** The create mutex is taken, its holder pages, decides and leaves, or dies; handlers come and go one at a time. */
  ghost predicate ApiStep(s: State, l: Label, api: Api) {
    match l
    case Load(h, id, op) =>
      && id in s.store && Admits(op, s.store[id])
      && api == s.api.(handlers := s.api.handlers[h := Handler(op, s.store[id])])
    case WriteBack(h, _) => h in s.api.handlers && api == s.api.(handlers := s.api.handlers - {h})
    case Lock(t) =>
      !s.ctl.loop.Down? && s.api.creator.None? && IsNewTask(t) && IsFresh(s, t.id) && api == s.api.(creator := Some(Creator(t, Walking(""))))
    case ReadPage(rows, keys, next) =>
      && s.api.creator.Some? && s.api.creator.value.stage.Walking?
      && Represents(rows, s.store) && KeysOf(keys, rows)
      && IsPage(rows, DuplicateFilter(s.api.creator.value.task), s.api.creator.value.stage.cursor, MAX_PAGE_SIZE, keys, next)
      && api == s.api.(creator := Some(AfterPage(s.api.creator.value, rows, keys, next)))
    case SaveNew(_) => s.api.creator.Some? && s.api.creator.value.stage.Absent? && api == s.api.(creator := None)
    case Unlock => api == s.api.(creator := None)
    case Crash => api == NO_REQUESTS
    case _ => api == s.api
  }

  lemma StepOfApi(c: Config, s: State, l: Label)
    requires Enabled(c, s, l)
    ensures ApiStep(s, l, After(c, s, l).api)
  {
  }

  /** All of it, and time does not run backwards. */
  ghost predicate Stepped(c: Config, s: State, l: Label, t: State) {
    && ControlStep(c, s, l, t.ctl) && StoreStep(s, l, t.store) && BookStep(s, l, t.books) && ApiStep(s, l, t.api)
    && s.clock <= t.clock && (!l.Elapse? ==> t.clock == s.clock)
  }

  lemma StepIs(c: Config, s: State, l: Label)
    requires Enabled(c, s, l)
    ensures Stepped(c, s, l, After(c, s, l))
  {
    StepOfControl(c, s, l);
    StepOfStore(c, s, l);
    StepOfBooks(c, s, l);
    StepOfApi(c, s, l);
  }

  /** The n-th step of a run. */
  lemma RunSteps(c: Config, ss: seq<State>, ls: seq<Label>, n: nat)
    requires IsRun(c, ss, ls) && n < |ls|
    ensures Enabled(c, ss[n], ls[n]) && Stepped(c, ss[n], ls[n], ss[n + 1])
  {
    StepIs(c, ss[n], ls[n]);
  }

  // ---- stretches of runs

  ghost predicate StepAt(c: Config, ss: seq<State>, ls: seq<Label>, i: nat)
    requires |ss| == |ls| + 1 && i < |ls|
  {
    Enabled(c, ss[i], ls[i]) && ss[i + 1] == After(c, ss[i], ls[i])
  }

  /** A stretch of a run, from any state on. */
  ghost predicate IsPath(c: Config, ss: seq<State>, ls: seq<Label>) {
    |ss| == |ls| + 1 && forall i :: 0 <= i < |ls| ==> StepAt(c, ss, ls, i)
  }

  lemma RunIsPath(c: Config, ss: seq<State>, ls: seq<Label>)
    requires IsRun(c, ss, ls)
    ensures IsPath(c, ss, ls)
  {
  }
}
