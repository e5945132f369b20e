/** Every record in the system is in order, and every identity is accounted for, in every reachable state. */
module Integrity {
  import opened Tasks
  import opened Keys
  import opened Records
  import opened Delivery
  import opened Protocol
  import opened Steps
  import opened Claims

  ghost predicate DeliveriesOk(c: Config, now: Time, gs: map<nat, Delivery>) {
    forall g :: g in gs ==> DeliveryOk(c, now, gs[g])
  }

  /** A loaded record is in order, and still meets its handler's own precondition when it is written back. */
  ghost predicate HandlersOk(hs: map<nat, Handler>) {
    forall h :: h in hs ==> RecordOk(hs[h].loaded) && Admits(hs[h].op, hs[h].loaded)
  }

  ghost predicate RecordsOk(c: Config, s: State) {
    && StoreOk(s.store)
    && DeliveriesOk(c, s.clock, s.ctl.gs)
    && HandlersOk(s.api.handlers)
    && (s.api.creator.Some? ==> IsNewTask(s.api.creator.value.task))
  }

  ghost predicate DeliveriesKnown(gs: map<nat, Delivery>, known: set<Id>) {
    forall g :: g in gs ==> gs[g].id in known
  }

  ghost predicate HandlersKnown(hs: map<nat, Handler>, known: set<Id>) {
    forall h :: h in hs ==> hs[h].loaded.id in known
  }

  ghost predicate BatchKnown(loop: Loop, known: set<Id>) {
    loop.Serving? ==> forall i :: 0 <= i < |loop.batch| ==> loop.batch[i].id in known
  }

  ghost predicate AllColonFree(ids: set<Id>) {
    forall id :: id in ids ==> ColonFree(id)
  }

  ghost predicate CreatorFresh(creator: Option<Creator>, used: set<Id>, known: set<Id>) {
    creator.Some? ==> var id := creator.value.task.id; id in used && ColonFree(id) && id !in known
  }

  /** Ids that may still be written belong to tasks once accepted; the creator's belongs to none yet. */
  ghost predicate IdsOk(s: State) {
    && s.store.Keys <= s.books.lineage.Keys <= s.books.used
    && AllColonFree(s.books.lineage.Keys)
    && DeliveriesKnown(s.ctl.gs, s.books.lineage.Keys)
    && HandlersKnown(s.api.handlers, s.books.lineage.Keys)
    && BatchKnown(s.ctl.loop, s.books.lineage.Keys)
    && CreatorFresh(s.api.creator, s.books.used, s.books.lineage.Keys)
  }

  // ---- records

  lemma TimePasses(c: Config, now: Time, later: Time, gs: map<nat, Delivery>)
    requires DeliveriesOk(c, now, gs) && now <= later
    ensures DeliveriesOk(c, later, gs)
  {
    forall g | g in gs
      ensures DeliveryOk(c, later, gs[g])
    {
      assert DeliveryOk(c, now, gs[g]);
    }
  }

  lemma AppliedOk(op: Op, t: Task, now: Time)
    requires RecordOk(t) && Admits(op, t)
    ensures RecordOk(Applied(op, t, now)) && Applied(op, t, now).id == t.id
  {
    match op {
      case Put(e) => RewritesOk(t, e, now, t.id);
      case Cancel =>
      case Replay =>
    }
  }

  /** Whatever a goroutine saves is in order and carries a known id or a fresh one. */
  lemma RunSavesOk(c: Config, s: State, g: nat, a: Action)
    requires DeliveriesOk(c, s.clock, s.ctl.gs) && DeliveriesKnown(s.ctl.gs, s.books.lineage.Keys)
    requires g in s.ctl.gs && Can(c, s.ctl.gs[g], a, SightOf(c, s, s.ctl.gs[g]))
    requires Written(s.ctl.gs[g], a).Some?
    ensures var t := Written(s.ctl.gs[g], a).value;
            && RecordOk(t) && t.id == (if a.Reschedule? then a.newId else s.ctl.gs[g].id)
            && t.id in BooksAfterRun(s.books, s.ctl.gs[g], a).lineage
  {
    var d := s.ctl.gs[g];
    assert DeliveryOk(c, s.clock, d) && d.id in s.books.lineage.Keys;
    StepWritesOk(c, d, a, SightOf(c, s, d));
  }

  /** Whatever any step saves is in order, under an id the books know by then. */
  lemma SavedOk(c: Config, s: State, l: Label, t: State)
    requires RecordsOk(c, s) && IdsOk(s) && Stepped(c, s, l, t) && Saved(s, l).Some?
    ensures RecordOk(Saved(s, l).value) && Saved(s, l).value.id in t.books.lineage
  {
    match l {
      case Run(g, a) => RunSavesOk(c, s, g, a);
      case WriteBack(h, ok) =>
        assert s.api.handlers[h].loaded.id in s.books.lineage.Keys;
        AppliedOk(s.api.handlers[h].op, s.api.handlers[h].loaded, s.clock);
      case Atomic(id, op) =>
        assert id in s.store.Keys;
        AppliedOk(op, s.store[id], s.clock);
      case _ =>
    }
  }

  lemma RequeueOk(store: Store)
    requires StoreOk(store)
    ensures StoreOk(Requeue(store)) && Requeue(store).Keys == store.Keys
  {
  }

  lemma UpsertOk(store: Store, t: Option<Task>, known: set<Id>)
    requires StoreOk(store) && store.Keys <= known && AllColonFree(known)
    requires t.Some? ==> RecordOk(t.value) && t.value.id in known
    ensures StoreOk(Upsert(store, t)) && Upsert(store, t).Keys <= known
  {
    if t.Some? {
      assert Upsert(store, t).Keys == store.Keys + {t.value.id};
    }
  }

  lemma StoreStaysOk(c: Config, s: State, l: Label, t: State)
    requires RecordsOk(c, s) && IdsOk(s) && Stepped(c, s, l, t)
    ensures StoreOk(t.store) && t.store.Keys <= t.books.lineage.Keys
  {
    BooksGrow(s, l, t.books);
    RequeueOk(s.store);
    if Saved(s, l).Some? {
      SavedOk(c, s, l, t);
    }
    UpsertOk(s.store, Saved(s, l), t.books.lineage.Keys);
    StoreIsOneOf(s, l, t.store);
  }

  lemma StoreIsOneOf(s: State, l: Label, store: Store)
    requires StoreStep(s, l, store)
    ensures store == Upsert(s.store, Saved(s, l)) || store == Requeue(s.store) || exists ids :: store == s.store - ids
  {
  }

  lemma DeliveriesStayOk(c: Config, s: State, l: Label, gs: map<nat, Delivery>)
    requires StoreOk(s.store) && DeliveriesOk(c, s.clock, s.ctl.gs) && GsStep(c, s, l, gs)
    ensures DeliveriesOk(c, s.clock, gs)
  {
    if l.Run? {
      assert DeliveryOk(c, s.clock, s.ctl.gs[l.g]);
      StepKeepsDelivery(c, s.ctl.gs[l.g], l.action, SightOf(c, s, s.ctl.gs[l.g]));
    }
  }

  lemma RequestsStayOk(c: Config, s: State, l: Label, api: Api)
    requires RecordsOk(c, s) && ApiStep(s, l, api)
    ensures HandlersOk(api.handlers) && (api.creator.Some? ==> IsNewTask(api.creator.value.task))
  {
  }

  lemma StepKeepsRecords(c: Config, s: State, l: Label, t: State)
    requires RecordsOk(c, s) && IdsOk(s) && Stepped(c, s, l, t)
    ensures RecordsOk(c, t)
  {
    StoreStaysOk(c, s, l, t);
    StepOfGs(c, s, l, t.ctl);
    DeliveriesStayOk(c, s, l, t.ctl.gs);
    TimePasses(c, s.clock, t.clock, t.ctl.gs);
    RequestsStayOk(c, s, l, t.api);
  }

  // ---- identities

  lemma BooksGrow(s: State, l: Label, b: Books)
    requires IdsOk(s) && BookStep(s, l, b)
    ensures s.books.lineage.Keys <= b.lineage.Keys <= b.used && s.books.used <= b.used
    ensures AllColonFree(b.lineage.Keys)
  {
    match l {
      case Run(g, a) =>
        if a.Reschedule? {
          assert b.lineage.Keys <= s.books.lineage.Keys + {a.newId};
        }
      case SaveNew(ok) => assert b.lineage.Keys <= s.books.lineage.Keys + {s.api.creator.value.task.id};
      case _ =>
    }
  }

  lemma GoroutineIdsKnown(c: Config, s: State, l: Label, gs: map<nat, Delivery>, known: set<Id>)
    requires GsStep(c, s, l, gs) && DeliveriesKnown(s.ctl.gs, known) && BatchKnown(s.ctl.loop, known)
    ensures DeliveriesKnown(gs, known)
  {
    if l.Run? {
      StepClaim(c, s.ctl.gs[l.g], l.action, SightOf(c, s, s.ctl.gs[l.g]));
    }
  }

  lemma BatchIdsKnown(c: Config, s: State, l: Label, u: Control, known: set<Id>)
    requires ControlStep(c, s, l, u) && s.store.Keys <= known && BatchKnown(s.ctl.loop, known)
    ensures BatchKnown(u.loop, known)
  {
    if l.Tick? {
      forall i | 0 <= i < |l.due|
        ensures l.due[i].id in known
      {
        assert Lookup(s.store, l.due[i].id) == Some(l.due[i]);
        assert l.due[i].id in s.store.Keys;
      }
    }
  }

  lemma RequestIdsKnown(s: State, l: Label, api: Api, known: set<Id>)
    requires ApiStep(s, l, api) && HandlersKnown(s.api.handlers, known) && s.store.Keys <= known && StoreOk(s.store)
    ensures HandlersKnown(api.handlers, known)
  {
    if l.Load? {
      assert l.id in s.store.Keys;
    }
  }

  lemma CreatorStaysFresh(s: State, l: Label, t: State)
    requires IdsOk(s) && ApiStep(s, l, t.api) && BookStep(s, l, t.books)
    ensures CreatorFresh(t.api.creator, t.books.used, t.books.lineage.Keys)
  {
    BooksGrow(s, l, t.books);
    if l.Lock? {
      assert l.task.id !in s.books.lineage.Keys;
    }
    if l.Run? {
      assert l.action.Reschedule? ==> t.books.lineage.Keys <= s.books.lineage.Keys + {l.action.newId};
    }
  }

  lemma StepKeepsIds(c: Config, s: State, l: Label, t: State)
    requires RecordsOk(c, s) && IdsOk(s) && Stepped(c, s, l, t)
    ensures IdsOk(t)
  {
    var known := t.books.lineage.Keys;
    BooksGrow(s, l, t.books);
    StoreStaysOk(c, s, l, t);
    StepOfGs(c, s, l, t.ctl);
    GoroutineIdsKnown(c, s, l, t.ctl.gs, known);
    BatchIdsKnown(c, s, l, t.ctl, known);
    RequestIdsKnown(s, l, t.api, known);
    CreatorStaysFresh(s, l, t);
  }

  // ---- all invariants, over whole runs

  ghost predicate Inv(c: Config, s: State) {
    RecordsOk(c, s) && IdsOk(s) && ControlOk(c, s.ctl)
  }

  lemma StartRecords(c: Config, s: State)
    requires Start(s)
    ensures RecordsOk(c, s)
  {
  }

  lemma StartIds(s: State)
    requires Start(s)
    ensures IdsOk(s)
  {
    assert s.books.lineage.Keys == s.store.Keys;
  }

  lemma StartInv(c: Config, s: State)
    requires Start(s)
    ensures Inv(c, s)
  {
    StartRecords(c, s);
    StartIds(s);
    NoGoroutines(c, s.ctl);
  }

  lemma StepKeepsInv(c: Config, s: State, l: Label)
    requires Inv(c, s) && Enabled(c, s, l)
    ensures Inv(c, After(c, s, l))
  {
    StepIs(c, s, l);
    StepKeepsRecords(c, s, l, After(c, s, l));
    StepKeepsIds(c, s, l, After(c, s, l));
    if l.Run? {
      assert DeliveryOk(c, s.clock, s.ctl.gs[l.g]);
    }
    StepKeepsControl(c, s, l, After(c, s, l).ctl);
  }

  /** The invariants hold in every state of every run. */
  lemma {:induction false} InvAlways(c: Config, ss: seq<State>, ls: seq<Label>, n: nat)
    requires IsRun(c, ss, ls) && n <= |ls|
    ensures Inv(c, ss[n])
  {
    if n == 0 {
      StartInv(c, ss[0]);
    } else {
      InvAlways(c, ss, ls, n - 1);
      RunSteps(c, ss, ls, n - 1);
      StepKeepsInv(c, ss[n - 1], ls[n - 1]);
    }
  }

  /** Stale write-backs, crashes and races included, no stored record is ever out of order. */
  lemma RecordsAlwaysOk(c: Config, ss: seq<State>, ls: seq<Label>, n: nat, id: Id)
    requires IsRun(c, ss, ls) && n <= |ls| && id in ss[n].store
    ensures ss[n].store[id].id == id && RecordOk(ss[n].store[id])
  {
    InvAlways(c, ss, ls, n);
  }
}
