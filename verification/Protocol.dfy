/**
 The whole server as a transition system: the runner's loop and its delivery goroutines, the API
 handlers, expiry, crashes and restarts, all interleaved step by step over one store.
 */
module Protocol {
  import opened Tasks
  import opened ByteOrder
  import opened Keys
  import opened Rows
  import opened Records
  import opened Delivery

  type Store = map<Id, Task>

  /** What the runner's main goroutine is doing. */
  datatype Loop =
    | Serving(batch: seq<Task>)  // between ticks when the batch is empty
    | Draining
    | Stopped(clean: bool)       // drained, or gave up waiting
    | Down                       // no process

  datatype Op = Put(edit: Edit) | Cancel | Replay

  /** A handler that has loaded a record and not yet written it back. */
  datatype Handler = Handler(op: Op, loaded: Task)

  /** The holder of the create mutex: walking the pending partition, or about to save. */
  datatype Creator = Creator(task: Task, stage: Stage)
  datatype Stage = Walking(cursor: string) | Absent | Duplicate(existing: Task)

  /** Where a task comes from: its chain's first task, and how many reschedules lie between. */
  datatype Link = Link(root: Id, depth: nat)

  /** The runner: its loop, its claims, its slots, its wait group, its goroutines and its counters. */
  datatype Control = Control(
    stopping: bool,
    loop: Loop,
    inflight: set<Id>,
    sem: int,
    wg: int,
    gs: map<nat, Delivery>,
    nextG: nat,
    tally: Tally)

  /** Requests being served. */
  datatype Api = Api(handlers: map<nat, Handler>, creator: Option<Creator>)

  /** What has happened to identities so far; nothing in the server reads it. */
  datatype Books = Books(
    used: set<Id>,            // every identity handed out
    lineage: map<Id, Link>,   // every task ever accepted
    roots: map<Id, Task>,     // the first record of every chain
    removed: set<Id>)         // hard-deleted or expired at some time

  datatype State = State(store: Store, clock: Time, ctl: Control, api: Api, books: Books)

  datatype Label =
    | Run(g: nat, action: Action)
    | Tick(due: seq<Task>)
    | Claim
    | Shutdown
    | BeginDrain
    | DrainDone
    | DrainTimeout
    | Elapse(ns: nat)
    | Load(h: nat, id: Id, op: Op)
    | WriteBack(h: nat, ok: bool)
    | Atomic(id: Id, op: Op)
    | Lock(task: Task)
    | ReadPage(rows: View, keys: seq<string>, next: Cursor)
    | SaveNew(ok: bool)
    | Unlock
    | BulkDelete(ids: set<Id>)
    | Expire(id: Id)
    | Crash
    | Restart(ok: bool)

  const NO_TALLY: Tally := Tally(0, 0, 0, 0, 0, 0, 0, 0)

  /** A runner that has not started a delivery. */
  function Idle(loop: Loop, nextG: nat): Control {
    Control(false, loop, {}, 0, 0, map[], nextG, NO_TALLY)
  }

  const NO_REQUESTS: Api := Api(map[], None)

  function Lookup(store: Store, id: Id): Option<Task> {
    if id in store then Some(store[id]) else None
  }

  predicate IsPending(store: Store, id: Id) {
    id in store && store[id].status.Pending?
  }

  // ---- handlers

  /** What a handler requires of the record it loaded. */
  predicate Admits(op: Op, t: Task) {
    match op
    case Put(_) => t.status.Pending?
    case Cancel => !t.status.IsTerminal()
    case Replay => t.status.IsTerminal()
  }

  function Applied(op: Op, t: Task, now: Time): Task {
    match op
    case Put(e) => Edited(t, e)
    case Cancel => CancelledAt(t, now)
    case Replay => ReplayedAt(t, now)
  }

  // ---- creation

  /** The listing a create request walks: pending tasks, of one url unless it carries a key. */
  function DuplicateFilter(t: Task): ListFilter {
    ListFilter(Status.Pending.Name(), if t.idempotencyKey == "" then t.url else "", None, None)
  }

  /** Whether a pending task is the one a create request would duplicate. */
  predicate IsDuplicate(request: Task, t: Task) {
    if request.idempotencyKey != "" then t.idempotencyKey == request.idempotencyKey
    else t.url == request.url && -SECOND < t.executeAt - request.executeAt < SECOND
  }

  /** Every pending duplicate ahead of the cursor is on the list that the walk goes through. */
  lemma DuplicateIsListed(v: View, request: Task, after: string, k: string)
    requires WellKeyed(v) && k in v && v[k].status.Pending?
    ensures IsDuplicate(request, v[k]) && Less(after, k) ==> k in Listed(v, DuplicateFilter(request), after)
  {
    PartitionPrefix(Status.Pending, v[k]);
  }

  function FirstDuplicate(request: Task, page: seq<Task>): (r: Option<Task>)
    ensures r.Some? ==> r.value in page && IsDuplicate(request, r.value)
    ensures r.None? ==> forall t :: t in page ==> !IsDuplicate(request, t)
  {
    if page == [] then None
    else if IsDuplicate(request, page[0]) then Some(page[0])
    else FirstDuplicate(request, page[1..])
  }

  predicate IsNewTask(t: Task) {
    t.status.Pending? && t.attempts == [] && t.finishedAt.None?
  }

  // ---- steps

  function SightOf(c: Config, s: State, d: Delivery): Sight {
    Sight(s.clock, Lookup(s.store, d.id), s.ctl.sem < c.slots, s.ctl.stopping)
  }

  ghost predicate DueBatch(store: Store, due: seq<Task>) {
    && (forall i :: 0 <= i < |due| ==> Lookup(store, due[i].id) == Some(due[i]) && due[i].status.Pending?)
    && (forall i, j :: 0 <= i < j < |due| ==> due[i].id != due[j].id)
  }

  predicate IsFresh(s: State, id: Id) {
    id !in s.books.used && id !in s.store && ColonFree(id)
  }

  ghost predicate Enabled(c: Config, s: State, l: Label) {
    match l
    case Run(g, a) =>
      && g in s.ctl.gs && Can(c, s.ctl.gs[g], a, SightOf(c, s, s.ctl.gs[g]))
      && (a.Reschedule? ==> IsFresh(s, a.newId))
    case Tick(due) => s.ctl.loop == Serving([]) && DueBatch(s.store, due)
    case Claim => s.ctl.loop.Serving? && s.ctl.loop.batch != []
    case Shutdown => !s.ctl.loop.Down?
    case BeginDrain => s.ctl.loop == Serving([]) && s.ctl.stopping
    case DrainDone => s.ctl.loop.Draining? && s.ctl.wg == 0
    case DrainTimeout => s.ctl.loop.Draining?
    case Elapse(_) => true
    case Load(h, id, op) => !s.ctl.loop.Down? && h !in s.api.handlers && id in s.store && Admits(op, s.store[id])
    case WriteBack(h, _) => h in s.api.handlers
    case Atomic(id, op) => !s.ctl.loop.Down? && id in s.store && Admits(op, s.store[id])
    case Lock(t) => !s.ctl.loop.Down? && s.api.creator.None? && IsNewTask(t) && IsFresh(s, t.id)
    case ReadPage(rows, keys, next) =>
      && s.api.creator.Some? && s.api.creator.value.stage.Walking?
      && Represents(rows, s.store)
      && IsPage(rows, DuplicateFilter(s.api.creator.value.task), s.api.creator.value.stage.cursor, MAX_PAGE_SIZE, keys, next)
      && KeysOf(keys, rows)
    case SaveNew(_) => s.api.creator.Some? && s.api.creator.value.stage.Absent?
    case Unlock => s.api.creator.Some? && !s.api.creator.value.stage.Absent?  // a duplicate, or a page that could not be read
    case BulkDelete(_) => !s.ctl.loop.Down?
    case Expire(id) => id in s.store && s.store[id].status.IsTerminal()
    case Crash => true
    case Restart(_) => s.ctl.loop.Down?
  }

  function Requeue(store: Store): Store {
    map id | id in store :: if store[id].status.Running? then store[id].(status := Pending) else store[id]
  }

  /** The runner after one step of goroutine g. */
  function ControlAfterRun(c: Config, r: Control, g: nat, a: Action, sight: Sight): Control
    requires g in r.gs && Can(c, r.gs[g], a, sight)
  {
    var d := r.gs[g];
    Control(r.stopping, r.loop,
            if a.FreeClaim? then r.inflight - {d.id} else r.inflight,
            if a.TakeSlot? then r.sem + 1 else if a.FreeSlot? then r.sem - 1 else r.sem,
            if a.Finish? then r.wg - 1 else r.wg,
            if a.Finish? then r.gs - {g} else r.gs[g := Moved(c, d, a, sight)],
            r.nextG,
            Counted(c, d, a, sight, r.tally))
  }

  /** The books after goroutine d's step: a saved successor is the next link of its chain. */
  function BooksAfterRun(b: Books, d: Delivery, a: Action): Books {
    if !a.Reschedule? then b
    else
      var used := b.used + {a.newId};
      if Written(d, a).Some? && d.id in b.lineage
      then b.(used := used, lineage := b.lineage[a.newId := Link(b.lineage[d.id].root, b.lineage[d.id].depth + 1)])
      else b.(used := used)
  }

  function Upsert(store: Store, t: Option<Task>): Store {
    if t.Some? then store[t.value.id := t.value] else store
  }

  function AfterRun(c: Config, s: State, g: nat, a: Action): State
    requires g in s.ctl.gs && Can(c, s.ctl.gs[g], a, SightOf(c, s, s.ctl.gs[g]))
  {
    var d := s.ctl.gs[g];
    State(Upsert(s.store, Written(d, a)), s.clock, ControlAfterRun(c, s.ctl, g, a, SightOf(c, s, d)),
          s.api, BooksAfterRun(s.books, d, a))
  }

  function NewDelivery(t: Task): Delivery {
    Delivery(t.id, t, t, 0, 0, Waiting)
  }

  /** The main loop takes the next task of its batch, unless a goroutine already holds it. */
  function AfterClaim(r: Control): Control
    requires r.loop.Serving? && r.loop.batch != []
  {
    var t, rest := r.loop.batch[0], r.loop.batch[1..];
    if t.id in r.inflight then r.(loop := Serving(rest))
    else
      r.(loop := Serving(rest),
         inflight := r.inflight + {t.id},
         wg := r.wg + 1,
         gs := r.gs[r.nextG := NewDelivery(t)],
         nextG := r.nextG + 1)
  }

  function AfterPage(cr: Creator, rows: View, keys: seq<string>, next: Cursor): Creator
    requires forall i :: 0 <= i < |keys| ==> keys[i] in rows
  {
    var found := FirstDuplicate(cr.task, seq(|keys|, i requires 0 <= i < |keys| => rows[keys[i]]));
    var stage :=
      if found.Some? then Duplicate(found.value)
      else if next.At? then Walking(next.key)
      else Absent;
    Creator(cr.task, stage)
  }

  function AfterSaveNew(s: State, ok: bool): State
    requires s.api.creator.Some?
  {
    var t := s.api.creator.value.task;
    var api := s.api.(creator := None);
    if ok then
      s.(api := api, store := s.store[t.id := t],
         books := s.books.(lineage := s.books.lineage[t.id := Link(t.id, 0)], roots := s.books.roots[t.id := t]))
    else s.(api := api)
  }

  function WrittenBack(s: State, h: nat): Task
    requires h in s.api.handlers
  {
    Applied(s.api.handlers[h].op, s.api.handlers[h].loaded, s.clock)
  }

  ghost function After(c: Config, s: State, l: Label): State
    requires Enabled(c, s, l)
  {
    match l
    case Run(g, a) => AfterRun(c, s, g, a)
    case Tick(due) => s.(ctl := s.ctl.(loop := Serving(due)))
    case Claim => s.(ctl := AfterClaim(s.ctl))
    case Shutdown => s.(ctl := s.ctl.(stopping := true))
    case BeginDrain => s.(ctl := s.ctl.(loop := Draining))
    case DrainDone => s.(ctl := s.ctl.(loop := Stopped(true)))
    case DrainTimeout => s.(ctl := s.ctl.(loop := Stopped(false)))
    case Elapse(ns) => s.(clock := s.clock + ns)
    case Load(h, id, op) => s.(api := s.api.(handlers := s.api.handlers[h := Handler(op, s.store[id])]))
    case WriteBack(h, ok) =>
      s.(api := s.api.(handlers := s.api.handlers - {h}),
         store := Upsert(s.store, if ok then Some(WrittenBack(s, h)) else None))
    case Atomic(id, op) => s.(store := Upsert(s.store, Some(Applied(op, s.store[id], s.clock))))
    case Lock(t) =>
      s.(api := s.api.(creator := Some(Creator(t, Walking("")))), books := s.books.(used := s.books.used + {t.id}))
    case ReadPage(rows, keys, next) =>
      s.(api := s.api.(creator := Some(AfterPage(s.api.creator.value, rows, keys, next))))
    case SaveNew(ok) => AfterSaveNew(s, ok)
    case Unlock => s.(api := s.api.(creator := None))
    case BulkDelete(ids) =>
      s.(store := s.store - ids, books := s.books.(removed := s.books.removed + ids * s.store.Keys))
    case Expire(id) => s.(store := s.store - {id}, books := s.books.(removed := s.books.removed + {id}))
    case Crash => s.(ctl := Idle(Down, s.ctl.nextG), api := NO_REQUESTS)
    case Restart(ok) =>
      s.(ctl := s.ctl.(loop := Serving([])), store := if ok then Requeue(s.store) else s.store)
  }

  // ---- runs

  ghost predicate StoreOk(store: Store) {
    forall id :: id in store ==> store[id].id == id && ColonFree(id) && RecordOk(store[id])
  }

  /** A process with nothing in memory yet, or none at all, over any store left by earlier ones. */
  ghost predicate Start(s: State) {
    && StoreOk(s.store)
    && (s.ctl == Idle(Down, 0) || s.ctl == Idle(Serving([]), 0))
    && s.api == NO_REQUESTS
    && s.store.Keys <= s.books.used
    && s.books.roots == s.store && s.books.lineage == (map id | id in s.store :: Link(id, 0))
    && s.books.removed == {}
  }

  ghost predicate IsRun(c: Config, ss: seq<State>, ls: seq<Label>) {
    && |ss| == |ls| + 1
    && Start(ss[0])
    && (forall i :: 0 <= i < |ls| ==> Enabled(c, ss[i], ls[i]) && ss[i + 1] == After(c, ss[i], ls[i]))
  }
}
