/** Idempotent creation: exactly which steps keep every idempotency key to one pending task. */
module Idempotency {
  import opened Tasks
  import opened ByteOrder
  import opened Keys
  import opened Rows
  import opened Delivery
  import opened Protocol
  import opened Steps
  import opened Integrity
  import opened Chains
  import opened Walks

  /** A pending record that carries this idempotency key. */
  predicate Carries(store: Store, key: string, id: Id) {
    IsPending(store, id) && store[id].idempotencyKey == key
  }

  ghost predicate OnePerKey(store: Store) {
    forall key, x, y :: key != "" && Carries(store, key, x) && Carries(store, key, y) ==> x == y
  }

  /** What the creator has learnt by this stage of its walk: no carrier of its key is behind it. */
  ghost predicate WalkOk(cr: Creator, store: Store) {
    cr.task.idempotencyKey != "" ==>
      forall id :: Carries(store, cr.task.idempotencyKey, id) ==> NotPassed(cr, store[id])
  }

  ghost predicate KeysOk(s: State) {
    && OnePerKey(s.store)
    && (s.api.creator.Some? ==> WalkOk(s.api.creator.value, s.store) && !s.ctl.loop.Down?)
  }

  // ---- the steps that keep it so

  /** The record a request writes. */
  function Requested(s: State, l: Label): Option<Task> {
    if l.Atomic? || l.WriteBack? then Saved(s, l) else None
  }

  /** No other pending task carries the record's key, and no create of that key has already passed its place. */
  ghost predicate Unrivalled(s: State, t: Task) {
    t.status.Pending? && t.idempotencyKey != "" ==>
      && (forall y :: Carries(s.store, t.idempotencyKey, y) ==> y == t.id)
      && (s.api.creator.Some? && s.api.creator.value.task.idempotencyKey == t.idempotencyKey ==>
            NotPassed(s.api.creator.value, t))
  }

  /** No two tasks that a restart would leave pending share a key. */
  ghost predicate OneOpenPerKey(store: Store) {
    forall x, y :: Open(store, x) && Open(store, y) && store[x].idempotencyKey == store[y].idempotencyKey != "" ==> x == y
  }

  ghost predicate KeepsKeys(s: State, l: Label) {
    && (Requested(s, l).Some? ==> Unrivalled(s, Requested(s, l).value))
    && (l.Restart? && l.ok ==> OneOpenPerKey(s.store))
  }

  // ---- where a pending record comes from

  /** A pending record was there before, unchanged, or is new, or is what a request writes, or is requeued. */
  lemma PendingSource(c: Config, s: State, l: Label, t: State, id: Id)
    requires Stepped(c, s, l, t) && RecordsOk(c, s) && IsPending(t.store, id) && !Begins(s, l, id)
    ensures
      || (id in s.store && s.store[id] == t.store[id])
      || Requested(s, l) == Some(t.store[id])
      || (l.Restart? && l.ok && Open(s.store, id) && s.store[id].idempotencyKey == t.store[id].idempotencyKey)
  {
    match l {
      case Run(g, a) =>
        if Written(s.ctl.gs[g], a).Some? {
          RunOpens(c, s, g, a);
          assert DeliveryOk(c, s.clock, s.ctl.gs[g]);
          StepWritesOk(c, s.ctl.gs[g], a, SightOf(c, s, s.ctl.gs[g]));
        }
      case _ =>
    }
  }

  /** A new identity takes a key only when a creator that found the key absent saves it. */
  lemma BeginsWithKey(c: Config, s: State, l: Label, t: State, key: string, id: Id)
    requires Stepped(c, s, l, t) && RecordsOk(c, s) && IdsOk(s)
    requires Begins(s, l, id) && key != "" && Carries(t.store, key, id)
    ensures l.SaveNew? && s.api.creator.value.task.idempotencyKey == key && s.api.creator.value.stage.Absent?
  {
    BeginsFresh(s, l, t, id);
    assert id !in s.store.Keys;
    if l.Run? {
      var d := s.ctl.gs[l.g];
      if Written(d, l.action).Some? {
        assert DeliveryOk(c, s.clock, d);
        StepWritesOk(c, d, l.action, SightOf(c, s, d));
      }
    }
  }

  /** How a task comes to carry a key after a step. */
  datatype Source = Before | Created | Asked | Requeued

  ghost predicate From(s: State, l: Label, t: State, key: string, id: Id, source: Source)
    requires id in t.store
  {
    match source
    case Before => Carries(s.store, key, id) && s.store[id] == t.store[id]
    case Created => l.SaveNew? && s.api.creator.Some? && s.api.creator.value.task.id == id && forall y :: !Carries(s.store, key, y)
    case Asked => Requested(s, l) == Some(t.store[id]) && t.store[id].id == id
    case Requeued => l.Restart? && l.ok && Open(s.store, id) && s.store[id].idempotencyKey == key
  }

  lemma CarrierSource(c: Config, s: State, l: Label, t: State, key: string, id: Id) returns (source: Source)
    requires Stepped(c, s, l, t) && RecordsOk(c, s) && IdsOk(s) && KeysOk(s) && StoreOk(t.store)
    requires key != "" && Carries(t.store, key, id)
    ensures From(s, l, t, key, id, source)
  {
    if Begins(s, l, id) {
      BeginsWithKey(c, s, l, t, key, id);
      NoneWhenAbsent(s, key);
      source := Created;
    } else {
      PendingSource(c, s, l, t, id);
      source := if id in s.store && s.store[id] == t.store[id] then Before
                else if Requested(s, l) == Some(t.store[id]) then Asked
                else Requeued;
    }
  }

  lemma NoneWhenAbsent(s: State, key: string)
    requires KeysOk(s) && key != "" && s.api.creator.Some?
    requires s.api.creator.value.stage.Absent? && s.api.creator.value.task.idempotencyKey == key
    ensures forall y :: !Carries(s.store, key, y)
  {
    assert WalkOk(s.api.creator.value, s.store);
  }

  // ---- they do keep it

  lemma SourcesAgree(s: State, l: Label, t: State, key: string, x: Id, y: Id, a: Source, b: Source)
    requires KeysOk(s) && KeepsKeys(s, l) && key != "" && Carries(t.store, key, x) && Carries(t.store, key, y)
    requires From(s, l, t, key, x, a) && From(s, l, t, key, y, b)
    ensures x == y
  {
    if a.Requeued? || b.Requeued? {
      assert Open(s.store, x) && Open(s.store, y);
    } else if a.Asked? {
      assert Unrivalled(s, t.store[x]);
    } else if b.Asked? {
      assert Unrivalled(s, t.store[y]);
    }
  }

  lemma StepKeepsOnePerKey(c: Config, s: State, l: Label, t: State, key: string, x: Id, y: Id)
    requires Stepped(c, s, l, t) && RecordsOk(c, s) && IdsOk(s) && KeysOk(s) && StoreOk(t.store) && KeepsKeys(s, l)
    requires key != "" && Carries(t.store, key, x) && Carries(t.store, key, y)
    ensures x == y
  {
    var a := CarrierSource(c, s, l, t, key, x);
    var b := CarrierSource(c, s, l, t, key, y);
    SourcesAgree(s, l, t, key, x, y, a, b);
  }

  lemma PageKeepsWalk(cr: Creator, store: Store, rows: View, keys: seq<string>, next: Cursor)
    requires cr.stage.Walking? && WalkOk(cr, store) && Represents(rows, store) && KeysOf(keys, rows)
    requires IsPage(rows, DuplicateFilter(cr.task), cr.stage.cursor, MAX_PAGE_SIZE, keys, next)
    ensures WalkOk(AfterPage(cr, rows, keys, next), store)
  {
    if cr.task.idempotencyKey != "" {
      forall id | Carries(store, cr.task.idempotencyKey, id)
        ensures NotPassed(AfterPage(cr, rows, keys, next), store[id])
      {
        PageKeepsNotPassed(cr, store, rows, keys, next, id);
      }
    }
  }

  lemma OthersKeepWalk(c: Config, s: State, l: Label, t: State, cr: Creator)
    requires Stepped(c, s, l, t) && RecordsOk(c, s) && IdsOk(s) && KeysOk(s) && StoreOk(t.store) && KeepsKeys(s, l)
    requires s.api.creator == Some(cr) && !l.SaveNew?
    ensures WalkOk(cr, t.store)
  {
    var key := cr.task.idempotencyKey;
    if key != "" {
      forall id | Carries(t.store, key, id)
        ensures NotPassed(cr, t.store[id])
      {
        var source := CarrierSource(c, s, l, t, key, id);
        assert source.Asked? ==> Unrivalled(s, t.store[id]);
      }
    }
  }

  lemma WalkBegins(task: Task, store: Store)
    ensures WalkOk(Creator(task, Walking("")), store)
  {
    forall id | Carries(store, task.idempotencyKey, id)
      ensures Less("", TaskKey(store[id]))
    {
      assert TaskKey(store[id]) != "";
    }
  }

  lemma StepKeepsWalk(c: Config, s: State, l: Label, t: State, cr: Creator)
    requires Stepped(c, s, l, t) && RecordsOk(c, s) && IdsOk(s) && KeysOk(s) && StoreOk(t.store) && KeepsKeys(s, l)
    requires t.api.creator == Some(cr)
    ensures WalkOk(cr, t.store)
  {
    if l.Lock? {
      WalkBegins(l.task, t.store);
    } else if l.ReadPage? {
      PageKeepsWalk(s.api.creator.value, s.store, l.rows, l.keys, l.next);
    } else {
      SameCreator(s, l, t.api, cr);
      OthersKeepWalk(c, s, l, t, cr);
    }
  }

  lemma SameCreator(s: State, l: Label, api: Api, cr: Creator)
    requires ApiStep(s, l, api) && api.creator == Some(cr) && !l.Lock? && !l.ReadPage?
    ensures s.api.creator == Some(cr) && !l.SaveNew?
  {
  }

  lemma CreatorIsUp(c: Config, s: State, l: Label, t: State)
    requires ControlStep(c, s, l, t.ctl) && ApiStep(s, l, t.api) && KeysOk(s) && t.api.creator.Some?
    ensures !t.ctl.loop.Down?
  {
  }

  lemma StepKeepsKeys(c: Config, s: State, l: Label, t: State)
    requires Stepped(c, s, l, t) && RecordsOk(c, s) && IdsOk(s) && KeysOk(s) && StoreOk(t.store) && KeepsKeys(s, l)
    ensures KeysOk(t)
  {
    forall key, x, y | key != "" && Carries(t.store, key, x) && Carries(t.store, key, y)
      ensures x == y
    {
      StepKeepsOnePerKey(c, s, l, t, key, x, y);
    }
    if t.api.creator.Some? {
      StepKeepsWalk(c, s, l, t, t.api.creator.value);
      CreatorIsUp(c, s, l, t);
    }
  }

  // ---- and no others do

  lemma TwoCarriers(store: Store, key: string, x: Id, y: Id)
    requires Carries(store, key, x) && Carries(store, key, y) && key != "" && x != y
    ensures !OnePerKey(store)
  {
    assert Carries(store, key, x) && Carries(store, key, y);
    assert exists k, v, w :: k != "" && Carries(store, k, v) && Carries(store, k, w) && v != w;
  }

  /** A request's write leaves the creator and every other record as they were. */
  lemma RequestFrame(c: Config, s: State, l: Label)
    requires Enabled(c, s, l) && Requested(s, l).Some?
    ensures After(c, s, l).api.creator == s.api.creator
    ensures After(c, s, l).store == s.store[Requested(s, l).value.id := Requested(s, l).value]
  {
  }

  lemma RivalBreaks(c: Config, s: State, l: Label)
    requires Enabled(c, s, l) && Requested(s, l).Some? && !Unrivalled(s, Requested(s, l).value)
    ensures !KeysOk(After(c, s, l))
  {
    var t, u := Requested(s, l).value, After(c, s, l);
    RequestFrame(c, s, l);
    assert Carries(u.store, t.idempotencyKey, t.id);
    if y :| Carries(s.store, t.idempotencyKey, y) && y != t.id {
      TwoCarriers(u.store, t.idempotencyKey, t.id, y);
    } else {
      assert !WalkOk(s.api.creator.value, u.store);
    }
  }

  lemma RequeueBreaks(store: Store)
    requires !OneOpenPerKey(store)
    ensures !OnePerKey(Requeue(store))
  {
    var x, y :| Open(store, x) && Open(store, y) && store[x].idempotencyKey == store[y].idempotencyKey != "" && x != y;
    TwoCarriers(Requeue(store), store[x].idempotencyKey, x, y);
  }

  lemma RestartStore(c: Config, s: State)
    requires Enabled(c, s, Restart(true))
    ensures After(c, s, Restart(true)).store == Requeue(s.store)
  {
  }

  /** One step, exactly: the invariant survives it if and only if the step keeps the keys. */
  lemma KeepsKeysIsExact(c: Config, s: State, l: Label)
    requires Inv(c, s) && KeysOk(s) && Enabled(c, s, l)
    ensures KeysOk(After(c, s, l)) <==> KeepsKeys(s, l)
  {
    if KeepsKeys(s, l) {
      StepIs(c, s, l);
      StepKeepsRecords(c, s, l, After(c, s, l));
      StepKeepsKeys(c, s, l, After(c, s, l));
    } else if Requested(s, l).Some? && !Unrivalled(s, Requested(s, l).value) {
      RivalBreaks(c, s, l);
    } else {
      RestartStore(c, s);
      RequeueBreaks(s.store);
    }
  }

  // ---- whole runs

  lemma {:induction false} KeysAlwaysOk(c: Config, ss: seq<State>, ls: seq<Label>, n: nat)
    requires IsRun(c, ss, ls) && n <= |ls| && OnePerKey(ss[0].store) && forall i :: 0 <= i < n ==> KeepsKeys(ss[i], ls[i])
    ensures KeysOk(ss[n])
  {
    if n > 0 {
      KeysAlwaysOk(c, ss, ls, n - 1);
      KeysNext(c, ss, ls, n - 1);
    }
  }

  lemma KeysNext(c: Config, ss: seq<State>, ls: seq<Label>, n: nat)
    requires IsRun(c, ss, ls) && n < |ls| && KeysOk(ss[n])
    ensures KeysOk(ss[n + 1]) <==> KeepsKeys(ss[n], ls[n])
  {
    InvAlways(c, ss, ls, n);
    KeepsKeysIsExact(c, ss[n], ls[n]);
  }

  /** Whole runs, exactly: every state is in order if and only if the first store is and every step keeps the keys. */
  lemma KeysOfRuns(c: Config, ss: seq<State>, ls: seq<Label>, n: nat)
    requires IsRun(c, ss, ls) && n <= |ls|
    ensures (forall i :: 0 <= i <= n ==> KeysOk(ss[i])) <==>
            OnePerKey(ss[0].store) && forall i :: 0 <= i < n ==> KeepsKeys(ss[i], ls[i])
  {
    if OnePerKey(ss[0].store) && forall i :: 0 <= i < n ==> KeepsKeys(ss[i], ls[i]) {
      forall i | 0 <= i <= n
        ensures KeysOk(ss[i])
      {
        KeysAlwaysOk(c, ss, ls, i);
      }
    }
    if forall i :: 0 <= i <= n ==> KeysOk(ss[i]) {
      forall i | 0 <= i < n
        ensures KeepsKeys(ss[i], ls[i])
      {
        KeysNext(c, ss, ls, i);
      }
    }
  }

  /**
   However creates, deliveries, edits, replays, cancels, deletions, expiry, crashes and restarts interleave,
   no idempotency key ever has two pending tasks, as long as every step keeps the keys.
   */
  lemma OnePendingPerKey(c: Config, ss: seq<State>, ls: seq<Label>, n: nat, x: Id, y: Id)
    requires IsRun(c, ss, ls) && n <= |ls| && OnePerKey(ss[0].store) && forall i :: 0 <= i < n ==> KeepsKeys(ss[i], ls[i])
    requires IsPending(ss[n].store, x) && IsPending(ss[n].store, y)
    requires ss[n].store[x].idempotencyKey == ss[n].store[y].idempotencyKey != ""
    ensures x == y
  {
    KeysAlwaysOk(c, ss, ls, n);
    var key := ss[n].store[x].idempotencyKey;
    assert Carries(ss[n].store, key, x) && Carries(ss[n].store, key, y);
  }

  /** A keyed create about to save has no pending task with its key beside it, now and not only when it looked. */
  lemma WalkVerdict(c: Config, ss: seq<State>, ls: seq<Label>, n: nat, id: Id)
    requires IsRun(c, ss, ls) && n <= |ls| && OnePerKey(ss[0].store) && forall i :: 0 <= i < n ==> KeepsKeys(ss[i], ls[i])
    requires ss[n].api.creator.Some? && ss[n].api.creator.value.stage.Absent?
    requires ss[n].api.creator.value.task.idempotencyKey != "" && IsPending(ss[n].store, id)
    ensures ss[n].store[id].idempotencyKey != ss[n].api.creator.value.task.idempotencyKey
  {
    KeysAlwaysOk(c, ss, ls, n);
    NoneWhenAbsent(ss[n], ss[n].api.creator.value.task.idempotencyKey);
    assert !Carries(ss[n].store, ss[n].api.creator.value.task.idempotencyKey, id);
  }
}
