/** A recurring chain's cadence: exactly which requests keep it, and that nothing else ever breaks it. */
module Cadence {
  import opened Tasks
  import opened Records
  import opened Delivery
  import opened Protocol
  import opened Steps
  import opened Integrity
  import opened Firing
  import opened Chains

  /** How far apart a task's successors are due, at least. */
  function Beat(t: Task): int {
    if Recurs(t) then t.schedule.interval else 0
  }

  ghost predicate HasRoot(b: Books, id: Id) {
    id in b.lineage && b.lineage[id].root in b.roots
  }

  ghost function First(b: Books, id: Id): Task
    requires HasRoot(b, id)
  {
    b.roots[b.lineage[id].root]
  }

  /** When the task's chain has it due at the earliest: one interval for every reschedule since the first task. */
  ghost function BeatOf(b: Books, id: Id): Time
    requires HasRoot(b, id)
  {
    First(b, id).executeAt + b.lineage[id].depth * Beat(First(b, id))
  }

  ghost predicate OnBeat(b: Books, t: Task) {
    HasRoot(b, t.id) && t.schedule == First(b, t.id).schedule && t.executeAt >= BeatOf(b, t.id)
  }

  /** A request that keeps the chain's beat: a replay once the beat has come, an edit to a time no earlier. */
  ghost predicate KeepsBeat(b: Books, op: Op, id: Id, now: Time) {
    && HasRoot(b, id)
    && match op
       case Put(e) => e.schedule == First(b, id).schedule && e.executeAt >= BeatOf(b, id)
       case Cancel => true
       case Replay => now >= BeatOf(b, id)
  }

  /** Whatever the step writes for a request keeps the beat. */
  ghost predicate InStep(s: State, l: Label) {
    && (l.Atomic? ==> KeepsBeat(s.books, l.op, l.id, s.clock))
    && (l.WriteBack? && l.ok && l.h in s.api.handlers ==>
          KeepsBeat(s.books, s.api.handlers[l.h].op, s.api.handlers[l.h].loaded.id, s.clock))
  }

  ghost predicate StoreOnBeat(b: Books, store: Store) {
    forall id :: id in store ==> OnBeat(b, store[id])
  }

  ghost predicate RunsOnBeat(b: Books, gs: map<nat, Delivery>) {
    forall g :: g in gs && UnderWay(gs[g].phase) ==> OnBeat(b, gs[g].base)
  }

  ghost predicate HandlersOnBeat(b: Books, hs: map<nat, Handler>) {
    forall h :: h in hs ==> OnBeat(b, hs[h].loaded)
  }

  ghost predicate CadenceOk(s: State) {
    && s.books.roots.Keys <= s.books.lineage.Keys
    && StoreOnBeat(s.books, s.store)
    && RunsOnBeat(s.books, s.ctl.gs)
    && HandlersOnBeat(s.books, s.api.handlers)
  }

  /** The books never change what they say of a known record. */
  lemma BeatKept(s: State, l: Label, t: State, rec: Task)
    requires BookStep(s, l, t.books) && IdsOk(s) && s.books.roots.Keys <= s.books.lineage.Keys
    requires OnBeat(s.books, rec)
    ensures OnBeat(t.books, rec)
  {
    NewLinkKept(s, l, t, rec.id);
  }

  lemma NewLinkKept(s: State, l: Label, t: State, id: Id)
    requires BookStep(s, l, t.books) && IdsOk(s) && id in s.books.lineage
    requires s.books.roots.Keys <= s.books.lineage.Keys
    ensures id in t.books.lineage && t.books.lineage[id] == s.books.lineage[id]
    ensures forall r :: r in s.books.roots ==> r in t.books.roots && t.books.roots[r] == s.books.roots[r]
    ensures t.books.roots.Keys <= t.books.lineage.Keys
  {
    BooksGrow(s, l, t.books);
    assert id in s.books.lineage.Keys && id in t.books.lineage.Keys;
    NewLink(s, l, t, id);
    if Begins(s, l, id) {
      BeginsFresh(s, l, t, id);
    }
  }

  /** What a run fires, finishes or reschedules is due when its base record was. */
  lemma RunKeepsSchedule(c: Config, now: Time, d: Delivery)
    requires DeliveryOk(c, now, d) && UnderWay(d.phase)
    ensures d.task.executeAt == d.base.executeAt <= d.fireTime && d.task.schedule == d.base.schedule
    ensures d.task.id == d.base.id == d.id
  {
  }

  lemma SuccessorOnBeat(b: Books, t: Task, newId: Id, fireTime: Time)
    requires OnBeat(b, t) && Recurs(t) && t.executeAt <= fireTime
    ensures OnBeat(b.(lineage := b.lineage[newId := Link(b.lineage[t.id].root, b.lineage[t.id].depth + 1)]),
                   Successor(t, newId, fireTime))
  {
    var link := b.lineage[t.id];
    var i := Beat(b.roots[link.root]);
    assert (link.depth + 1) * i == link.depth * i + i;
  }

  lemma RunSavesOnBeat(c: Config, s: State, l: Label, t: State)
    requires Stepped(c, s, l, t) && RecordsOk(c, s) && IdsOk(s) && CadenceOk(s)
    requires l.Run? && Saved(s, l).Some?
    ensures OnBeat(t.books, Saved(s, l).value)
  {
    var d := s.ctl.gs[l.g];
    assert UnderWay(d.phase) && OnBeat(s.books, d.base);
    RunKeepsSchedule(c, s.clock, d);
    if l.action.Reschedule? {
      SuccessorOnBeat(s.books, d.task, l.action.newId, d.fireTime);
      BooksAfterReschedule(s.books, d, l.action, t.books);
    } else {
      BeatKept(s, l, t, d.base);
    }
  }

  lemma BooksAfterReschedule(b: Books, d: Delivery, a: Action, after: Books)
    requires after == BooksAfterRun(b, d, a) && a.Reschedule? && Written(d, a).Some? && d.id in b.lineage
    ensures after.lineage == b.lineage[a.newId := Link(b.lineage[d.id].root, b.lineage[d.id].depth + 1)]
    ensures after.roots == b.roots
  {
  }

  /** A request's write is on the beat if and only if the request keeps it. */
  lemma AppliedOnBeat(b: Books, op: Op, t: Task, now: Time)
    requires OnBeat(b, t) && RecordOk(t) && Admits(op, t)
    ensures OnBeat(b, Applied(op, t, now)) <==> KeepsBeat(b, op, t.id, now)
  {
    AppliedOk(op, t, now);
  }

  lemma SavedOnBeat(c: Config, s: State, l: Label, t: State)
    requires Stepped(c, s, l, t) && RecordsOk(c, s) && IdsOk(s) && CadenceOk(s)
    requires Saved(s, l).Some?
    ensures InStep(s, l) ==> OnBeat(t.books, Saved(s, l).value)
    ensures l.Atomic? || l.WriteBack? ==> (OnBeat(t.books, Saved(s, l).value) <==> InStep(s, l))
  {
    match l {
      case Run(_, _) => RunSavesOnBeat(c, s, l, t);
      case WriteBack(h, _) => AppliedOnBeat(s.books, s.api.handlers[h].op, s.api.handlers[h].loaded, s.clock);
      case Atomic(id, op) => AppliedOnBeat(s.books, op, s.store[id], s.clock);
      case _ =>
    }
  }

  lemma StoreStaysOnBeat(c: Config, s: State, l: Label, t: State, id: Id)
    requires Stepped(c, s, l, t) && RecordsOk(c, s) && IdsOk(s) && CadenceOk(s) && InStep(s, l)
    requires id in t.store
    ensures OnBeat(t.books, t.store[id])
  {
    StoreIsOneOf(s, l, t.store);
    if Saved(s, l).Some? {
      SavedOnBeat(c, s, l, t);
    }
    if id in s.store {
      BeatKept(s, l, t, s.store[id]);
    }
  }

  lemma RunsStayOnBeat(c: Config, s: State, l: Label, t: State, g: nat)
    requires Stepped(c, s, l, t) && RecordsOk(c, s) && IdsOk(s) && CadenceOk(s)
    requires g in t.ctl.gs && UnderWay(t.ctl.gs[g].phase)
    ensures OnBeat(t.books, t.ctl.gs[g].base)
  {
    StepOfGs(c, s, l, t.ctl);
    if l.Run? && l.g == g && l.action.Reread? {
      RereadIsBase(c, s, l, t, g);
    } else {
      BaseKept(c, s, l, t, g);
    }
    assert OnBeat(s.books, t.ctl.gs[g].base);
    BeatKept(s, l, t, t.ctl.gs[g].base);
  }

  lemma HandlersStayOnBeat(s: State, l: Label, t: State, h: nat)
    requires ApiStep(s, l, t.api) && BookStep(s, l, t.books) && IdsOk(s) && CadenceOk(s)
    requires h in t.api.handlers
    ensures OnBeat(t.books, t.api.handlers[h].loaded)
  {
    if h in s.api.handlers && t.api.handlers[h] == s.api.handlers[h] {
      BeatKept(s, l, t, s.api.handlers[h].loaded);
    } else {
      BeatKept(s, l, t, s.store[l.id]);
    }
  }

  lemma RootsStayKnown(s: State, l: Label, t: State)
    requires BookStep(s, l, t.books) && IdsOk(s) && s.books.roots.Keys <= s.books.lineage.Keys
    ensures t.books.roots.Keys <= t.books.lineage.Keys
  {
    BooksGrow(s, l, t.books);
    if l.SaveNew? && l.ok {
      assert t.books.roots.Keys == s.books.roots.Keys + {s.api.creator.value.task.id};
      assert t.books.lineage.Keys == s.books.lineage.Keys + {s.api.creator.value.task.id};
    }
  }

  lemma StepKeepsCadence(c: Config, s: State, l: Label, t: State)
    requires Stepped(c, s, l, t) && RecordsOk(c, s) && IdsOk(s) && CadenceOk(s) && InStep(s, l)
    ensures CadenceOk(t)
  {
    RootsStayKnown(s, l, t);
    forall id | id in t.store
      ensures OnBeat(t.books, t.store[id])
    {
      StoreStaysOnBeat(c, s, l, t, id);
    }
    forall g | g in t.ctl.gs && UnderWay(t.ctl.gs[g].phase)
      ensures OnBeat(t.books, t.ctl.gs[g].base)
    {
      RunsStayOnBeat(c, s, l, t, g);
    }
    forall h | h in t.api.handlers
      ensures OnBeat(t.books, t.api.handlers[h].loaded)
    {
      HandlersStayOnBeat(s, l, t, h);
    }
  }

  lemma {:induction false} CadenceAlwaysOk(c: Config, ss: seq<State>, ls: seq<Label>, n: nat)
    requires IsRun(c, ss, ls) && n <= |ls| && forall i :: 0 <= i < n ==> InStep(ss[i], ls[i])
    ensures CadenceOk(ss[n])
  {
    if n == 0 {
      StartCadence(ss[0]);
    } else {
      CadenceAlwaysOk(c, ss, ls, n - 1);
      InvAlways(c, ss, ls, n - 1);
      RunSteps(c, ss, ls, n - 1);
      StepKeepsCadence(c, ss[n - 1], ls[n - 1], ss[n]);
    }
  }

  lemma StartCadence(s: State)
    requires Start(s)
    ensures CadenceOk(s)
  {
    assert s.books.lineage.Keys == s.store.Keys;
  }

  /** A request out of step leaves its record off the beat. */
  lemma OutOfStepBreaks(c: Config, s: State, l: Label, t: State)
    requires Stepped(c, s, l, t) && RecordsOk(c, s) && IdsOk(s) && CadenceOk(s) && !InStep(s, l)
    ensures !StoreOnBeat(t.books, t.store)
  {
    SavedOnBeat(c, s, l, t);
    var saved := Saved(s, l).value;
    assert saved.id in t.store && t.store[saved.id] == saved;
  }

  /** One step, exactly: every stored record is on its chain's beat afterwards if and only if the step keeps it. */
  lemma InStepIsExact(c: Config, s: State, l: Label)
    requires Inv(c, s) && CadenceOk(s) && Enabled(c, s, l)
    ensures StoreOnBeat(After(c, s, l).books, After(c, s, l).store) <==> InStep(s, l)
  {
    StepIs(c, s, l);
    if InStep(s, l) {
      StepKeepsCadence(c, s, l, After(c, s, l));
    } else {
      OutOfStepBreaks(c, s, l, After(c, s, l));
    }
  }

  lemma {:induction false} BeatSoFar(c: Config, ss: seq<State>, ls: seq<Label>, n: nat)
    requires IsRun(c, ss, ls) && n <= |ls| && forall i :: 0 <= i <= n ==> StoreOnBeat(ss[i].books, ss[i].store)
    ensures CadenceOk(ss[n]) && forall i :: 0 <= i < n ==> InStep(ss[i], ls[i])
  {
    if n == 0 {
      StartCadence(ss[0]);
    } else {
      BeatSoFar(c, ss, ls, n - 1);
      BeatNext(c, ss, ls, n - 1);
    }
  }

  lemma BeatNext(c: Config, ss: seq<State>, ls: seq<Label>, n: nat)
    requires IsRun(c, ss, ls) && n < |ls| && CadenceOk(ss[n]) && StoreOnBeat(ss[n + 1].books, ss[n + 1].store)
    ensures InStep(ss[n], ls[n]) && CadenceOk(ss[n + 1])
  {
    InvAlways(c, ss, ls, n);
    InStepIsExact(c, ss[n], ls[n]);
    RunSteps(c, ss, ls, n);
    StepKeepsCadence(c, ss[n], ls[n], ss[n + 1]);
  }

  /**
   Whole runs, exactly: the k-th successor of every recurring task is due at least k intervals after the
   first, in every state, if and only if every edit and every replay, late ones included, kept the beat.
   Nothing that fails, stalls, crashes or restarts can break it.
   */
  lemma CadenceOfRuns(c: Config, ss: seq<State>, ls: seq<Label>, n: nat)
    requires IsRun(c, ss, ls) && n <= |ls|
    ensures (forall i :: 0 <= i <= n ==> StoreOnBeat(ss[i].books, ss[i].store)) <==>
            (forall i :: 0 <= i < n ==> InStep(ss[i], ls[i]))
  {
    if forall i :: 0 <= i < n ==> InStep(ss[i], ls[i]) {
      forall i | 0 <= i <= n
        ensures StoreOnBeat(ss[i].books, ss[i].store)
      {
        CadenceAlwaysOk(c, ss, ls, i);
      }
    }
    if forall i :: 0 <= i <= n ==> StoreOnBeat(ss[i].books, ss[i].store) {
      BeatSoFar(c, ss, ls, n);
    }
  }

  /** A missed fire is never made up for: what being on the beat means for one stored record. */
  lemma NeverCatchesUp(c: Config, ss: seq<State>, ls: seq<Label>, n: nat, id: Id)
    requires IsRun(c, ss, ls) && n <= |ls| && forall i :: 0 <= i < n ==> InStep(ss[i], ls[i])
    requires id in ss[n].store
    ensures var b := ss[n].books;
            && id in b.lineage && b.lineage[id].root in b.roots
            && var first, t := b.roots[b.lineage[id].root], ss[n].store[id];
               t.schedule == first.schedule && t.executeAt >= first.executeAt + b.lineage[id].depth * Beat(first)
  {
    CadenceAlwaysOk(c, ss, ls, n);
    InvAlways(c, ss, ls, n);
    assert OnBeat(ss[n].books, ss[n].store[id]);
  }

  /**
   In every run, a recurring task that fires or is skipped is followed by one due exactly one interval after it fired:
   the same request under a new identity, with no key and an empty log. Saving it changes nothing else.
   */
  lemma SuccessorDue(c: Config, ss: seq<State>, ls: seq<Label>, n: nat, g: nat, newId: Id)
    requires IsRun(c, ss, ls) && n < |ls| && ls[n] == Run(g, Reschedule(newId, true))
    ensures g in ss[n].ctl.gs
    ensures var d, after := ss[n].ctl.gs[g], ss[n + 1].store;
            if d.base.schedule.Every? && d.base.schedule.interval > 0 then
              && newId !in ss[n].store && newId in after && after == ss[n].store[newId := after[newId]]
              && after[newId].id == newId && after[newId].executeAt - d.fireTime == d.base.schedule.interval && d.base.executeAt <= d.fireTime
              && Repeated(d.base, after[newId])
            else after == ss[n].store
  {
    InvAlways(c, ss, ls, n);
    RunSteps(c, ss, ls, n);
    RunKeepsRequest(c, ss[n].clock, ss[n].ctl.gs[g]);
    SuccessorSaved(ss[n], ls[n], ss[n + 1].store, ss[n].ctl.gs[g]);
  }

  lemma SuccessorSaved(s: State, l: Label, after: Store, d: Delivery)
    requires StoreStep(s, l, after) && l.Run? && l.action.Reschedule? && l.action.ok && l.g in s.ctl.gs && s.ctl.gs[l.g] == d
    requires d.task == d.base.(status := d.task.status, attempts := d.task.attempts, finishedAt := d.task.finishedAt)
    ensures if d.base.schedule.Every? && d.base.schedule.interval > 0 then
              var next := l.action.newId;
              && next in after && after == s.store[next := after[next]] && after[next].id == next
              && after[next].executeAt - d.fireTime == d.base.schedule.interval && Repeated(d.base, after[next])
            else after == s.store
  {
  }

  lemma RunKeepsRequest(c: Config, now: Time, d: Delivery)
    requires DeliveryOk(c, now, d) && UnderWay(d.phase)
    ensures d.task == d.base.(status := d.task.status, attempts := d.task.attempts, finishedAt := d.task.finishedAt)
    ensures d.base.executeAt <= d.fireTime
  {
  }

  /** Replaying a chain's first task, cancelled before its time, fires it early. */
  lemma EarlyReplayBreaksBeat(c: Config, s: State, id: Id)
    requires Inv(c, s) && Enabled(c, s, Atomic(id, Replay)) && OnBeat(s.books, s.store[id]) && s.store[id].id == id
    requires s.books.lineage[id] == Link(id, 0) && s.clock < s.books.roots[id].executeAt
    ensures var t := After(c, s, Atomic(id, Replay));
            id in t.store && t.store[id].status.Pending? && t.store[id].executeAt < t.books.roots[id].executeAt
  {
    AppliedOk(Replay, s.store[id], s.clock);
  }
}
