/** Recurring chains: one live member at a time, and exactly which steps keep it so. */
module Chains {
  import opened Tasks
  import opened Records
  import opened Delivery
  import opened Protocol
  import opened Steps
  import opened Claims
  import opened Integrity
  import opened Continuations

  // ---- one live member

  /** The store still has work to do for this task. */
  predicate Open(store: Store, id: Id) {
    id in store && !store[id].status.IsTerminal()
  }

  /** A goroutine is between the re-read of this task and the end of its reschedule. */
  ghost predicate Held(gs: map<nat, Delivery>, id: Id) {
    exists g :: g in gs && gs[g].id == id && UnderWay(gs[g].phase)
  }

  ghost predicate Live(s: State, id: Id) {
    Open(s.store, id) || Held(s.ctl.gs, id)
  }

  /** A run that may still save a successor has left nothing open in the store. */
  ghost predicate FinalWritten(store: Store, gs: map<nat, Delivery>) {
    forall g :: g in gs && HandsOver(gs[g]) ==> !Open(store, gs[g].id)
  }

  ghost predicate SameChain(b: Books, x: Id, y: Id) {
    x in b.lineage && y in b.lineage && b.lineage[x].root == b.lineage[y].root
  }

  ghost predicate OneLive(s: State) {
    forall x, y :: Live(s, x) && Live(s, y) && SameChain(s.books, x, y) ==> x == y
  }

  ghost predicate RootsKnown(b: Books) {
    forall id :: id in b.lineage ==> b.lineage[id].root in b.lineage
  }

  ghost predicate ChainsOk(s: State) {
    FinalWritten(s.store, s.ctl.gs) && OneLive(s) && RootsKnown(s.books)
  }

  // ---- the steps that keep it so

  /** A request that opens this task again: a replay, or the late write of an edit or replay over a closed record. */
  predicate Reopens(s: State, l: Label, x: Id) {
    || (l.Atomic? && l.op.Replay? && l.id == x)
    || (l.WriteBack? && l.ok && l.h in s.api.handlers && !s.api.handlers[l.h].op.Cancel?
        && s.api.handlers[l.h].loaded.id == x && !Open(s.store, x))
  }

  /** The task's chain has no other live member, and no run of the task has still to save its successor. */
  ghost predicate Clear(s: State, x: Id) {
    && (forall y :: Live(s, y) && SameChain(s.books, x, y) ==> y == x)
    && (forall g :: g in s.ctl.gs && s.ctl.gs[g].id == x ==> !HandsOver(s.ctl.gs[g]))
  }

  /** The terminal record of a recurring run is not written, and the store keeps an open one. */
  predicate Loses(s: State, l: Label) {
    && l.Run? && l.action.Finalize? && !l.action.ok
    && l.g in s.ctl.gs && Recurs(s.ctl.gs[l.g].task) && Open(s.store, s.ctl.gs[l.g].id)
  }

  ghost predicate Safe(s: State, l: Label) {
    (forall x :: Reopens(s, l, x) ==> Clear(s, x)) && !Loses(s, l)
  }

  /** The identity a step makes live: a created task, or the saved successor of a run. */
  ghost predicate Begins(s: State, l: Label, id: Id) {
    || (l.SaveNew? && s.api.creator.Some? && s.api.creator.value.task.id == id)
    || (l.Run? && l.action.Reschedule? && l.action.newId == id)
  }

  /** The only open records a goroutine writes are its own task's, as running, and its successor. */
  lemma RunOpens(c: Config, s: State, g: nat, a: Action)
    requires g in s.ctl.gs && Can(c, s.ctl.gs[g], a, SightOf(c, s, s.ctl.gs[g])) && DeliveriesOk(c, s.clock, s.ctl.gs)
    requires Written(s.ctl.gs[g], a).Some?
    ensures var t := Written(s.ctl.gs[g], a).value;
            && t.id == (if a.Reschedule? then a.newId else s.ctl.gs[g].id)
            && (!t.status.IsTerminal() ==> a.Reschedule? || (a.MarkRunning? && s.ctl.gs[g].phase.Marking?))
  {
    var d := s.ctl.gs[g];
    assert DeliveryOk(c, s.clock, d);
    StepWritesOk(c, d, a, SightOf(c, s, d));
  }

  /** Likewise for requests: an open record is written over an open one, or re-opens its task. */
  lemma RequestOpens(s: State, l: Label)
    requires HandlersOk(s.api.handlers) && StoreOk(s.store) && (l.Atomic? || l.WriteBack?)
    requires l.Atomic? ==> l.id in s.store && Admits(l.op, s.store[l.id])
    requires Saved(s, l).Some? && !Saved(s, l).value.status.IsTerminal()
    ensures Open(s.store, Saved(s, l).value.id) || Reopens(s, l, Saved(s, l).value.id)
  {
    if l.Atomic? {
      AppliedOk(l.op, s.store[l.id], s.clock);
    } else {
      AppliedOk(s.api.handlers[l.h].op, s.api.handlers[l.h].loaded, s.clock);
    }
  }

  lemma OpenBefore(c: Config, s: State, l: Label, t: State, id: Id)
    requires Stepped(c, s, l, t) && RecordsOk(c, s)
    requires Open(t.store, id) && !Begins(s, l, id) && !Reopens(s, l, id)
    ensures Open(s.store, id) || (l.Run? && l.action.MarkRunning? && s.ctl.gs[l.g].id == id && s.ctl.gs[l.g].phase.Marking?)
  {
    if l.Run? {
      if Written(s.ctl.gs[l.g], l.action).Some? {
        RunOpens(c, s, l.g, l.action);
      }
    } else if (l.Atomic? || l.WriteBack?) && Saved(s, l).Some? && !Saved(s, l).value.status.IsTerminal() {
      RequestOpens(s, l);
    }
  }

  lemma HeldBefore(c: Config, s: State, l: Label, t: State, id: Id)
    requires GsStep(c, s, l, t.ctl.gs) && Held(t.ctl.gs, id)
    ensures Live(s, id)
  {
    var g :| g in t.ctl.gs && t.ctl.gs[g].id == id && UnderWay(t.ctl.gs[g].phase);
    if g in s.ctl.gs && UnderWay(s.ctl.gs[g].phase) {
    } else {
      assert l.Run? && l.g == g && l.action.Reread?;
    }
  }

  lemma LiveBefore(c: Config, s: State, l: Label, t: State, id: Id)
    requires Stepped(c, s, l, t) && RecordsOk(c, s)
    requires Live(t, id) && !Begins(s, l, id) && !Reopens(s, l, id)
    ensures Live(s, id)
  {
    StepOfGs(c, s, l, t.ctl);
    if Held(t.ctl.gs, id) {
      HeldBefore(c, s, l, t, id);
    } else {
      OpenBefore(c, s, l, t, id);
    }
  }

  /** A fresh identity belongs to no goroutine and no chain. */
  lemma BeginsFresh(s: State, l: Label, t: State, id: Id)
    requires IdsOk(s) && BookStep(s, l, t.books) && Begins(s, l, id)
    ensures id !in s.books.lineage && !Held(s.ctl.gs, id)
  {
    assert DeliveriesKnown(s.ctl.gs, s.books.lineage.Keys) && s.books.lineage.Keys <= s.books.used;
  }

  lemma StepKeepsFinal(c: Config, s: State, l: Label, t: State, g: nat)
    requires Stepped(c, s, l, t) && RecordsOk(c, s) && IdsOk(s) && ClaimsExact(s.ctl) && Safe(s, l)
    requires FinalWritten(s.store, s.ctl.gs) && g in t.ctl.gs && HandsOver(t.ctl.gs[g])
    ensures !Open(t.store, t.ctl.gs[g].id)
  {
    StepOfGs(c, s, l, t.ctl);
    var id := t.ctl.gs[g].id;
    PastFinalBefore(c, s, l, t, g);
    if Begins(s, l, id) {
      BeginsFresh(s, l, t, id);
    } else if Reopens(s, l, id) {
      assert Clear(s, id) && t.ctl.gs == s.ctl.gs;
    } else if Open(t.store, id) {
      OpenBefore(c, s, l, t, id);
    }
  }

  /** The final write leaves the task's record terminal. */
  lemma FinalCloses(c: Config, s: State, g: nat, store: Store)
    requires g in s.ctl.gs && s.ctl.gs[g].phase.Finalizing? && DeliveriesOk(c, s.clock, s.ctl.gs)
    requires store == Upsert(s.store, Written(s.ctl.gs[g], Finalize(true)))
    ensures !Open(store, s.ctl.gs[g].id)
  {
    var d := s.ctl.gs[g];
    assert DeliveryOk(c, s.clock, d);
    StepWritesOk(c, d, Finalize(true), SightOf(c, s, d));
  }

  lemma PastFinalBefore(c: Config, s: State, l: Label, t: State, g: nat)
    requires GsStep(c, s, l, t.ctl.gs) && StoreStep(s, l, t.store) && DeliveriesOk(c, s.clock, s.ctl.gs) && Safe(s, l)
    requires g in t.ctl.gs && HandsOver(t.ctl.gs[g])
    ensures g in s.ctl.gs && s.ctl.gs[g].id == t.ctl.gs[g].id && UnderWay(s.ctl.gs[g].phase)
    ensures HandsOver(s.ctl.gs[g]) || !Open(t.store, t.ctl.gs[g].id)
  {
    if l.Run? && l.g == g && l.action.Finalize? && l.action.ok {
      FinalCloses(c, s, g, t.store);
    }
  }

  lemma PredecessorLetsGo(c: Config, s: State, l: Label, t: State)
    requires GsStep(c, s, l, t.ctl.gs) && ClaimsExact(s.ctl) && l.Run? && l.action.Reschedule?
    ensures Held(s.ctl.gs, s.ctl.gs[l.g].id) && !Held(t.ctl.gs, s.ctl.gs[l.g].id)
  {
    var d := s.ctl.gs[l.g];
    assert d.phase.Rescheduling?;
    assert t.ctl.gs == s.ctl.gs[l.g := t.ctl.gs[l.g]];
  }

  /** A successor takes over from the run that saves it: the predecessor is live before, and dead after. */
  lemma SuccessorTakesOver(c: Config, s: State, l: Label, t: State)
    requires Stepped(c, s, l, t) && IdsOk(s) && ClaimsExact(s.ctl) && FinalWritten(s.store, s.ctl.gs)
    requires l.Run? && l.action.Reschedule? && Saved(s, l).Some?
    ensures var x := s.ctl.gs[l.g].id; Live(s, x) && !Live(t, x) && x in s.books.lineage
  {
    var d := s.ctl.gs[l.g];
    StepOfGs(c, s, l, t.ctl);
    PredecessorLetsGo(c, s, l, t);
    assert HandsOver(d) && !Open(s.store, d.id);
    assert d.id in s.books.lineage.Keys && d.id in s.books.used;
  }

  /** Old links are never rewritten; a new one extends the rescheduling task's chain or roots its own. */
  lemma NewLink(s: State, l: Label, t: State, id: Id)
    requires BookStep(s, l, t.books) && IdsOk(s) && id in t.books.lineage
    ensures id in s.books.lineage && !Begins(s, l, id) ==> t.books.lineage[id] == s.books.lineage[id]
    ensures id !in s.books.lineage ==> Begins(s, l, id)
    ensures Begins(s, l, id) && l.SaveNew? ==> t.books.lineage[id] == Link(id, 0)
    ensures Begins(s, l, id) && l.Run? ==>
      Saved(s, l).Some? && s.ctl.gs[l.g].id in s.books.lineage && t.books.lineage[id].root == s.books.lineage[s.ctl.gs[l.g].id].root
  {
    if Begins(s, l, id) {
      BeginsFresh(s, l, t, id);
    }
    if l.Run? {
      assert s.ctl.gs[l.g].id in s.books.lineage.Keys;
    }
  }

  lemma StepKeepsRoots(s: State, l: Label, t: State)
    requires BookStep(s, l, t.books) && IdsOk(s) && RootsKnown(s.books)
    ensures RootsKnown(t.books)
  {
    BooksGrow(s, l, t.books);
    forall id | id in t.books.lineage
      ensures t.books.lineage[id].root in t.books.lineage
    {
      NewLink(s, l, t, id);
      assert t.books.lineage[id].root in t.books.lineage.Keys;
    }
  }

  lemma BeginsIsNoRequest(s: State, l: Label, x: Id, y: Id)
    requires Begins(s, l, x)
    ensures !Reopens(s, l, y)
  {
  }

  /** A member that a step makes live shares its chain with no other live member. */
  lemma BeginsAlone(c: Config, s: State, l: Label, t: State, x: Id, y: Id)
    requires Stepped(c, s, l, t) && RecordsOk(c, s) && IdsOk(s) && ClaimsExact(s.ctl) && ChainsOk(s) && Safe(s, l)
    requires Begins(s, l, x) && Live(t, y) && SameChain(t.books, x, y)
    ensures x == y
  {
    if x != y {
      BeginsFresh(s, l, t, x);
      NewLink(s, l, t, x);
      NewLink(s, l, t, y);
      BeginsIsNoRequest(s, l, x, y);
      LiveBefore(c, s, l, t, y);
      if l.Run? {
        SuccessorTakesOver(c, s, l, t);
        assert SameChain(s.books, s.ctl.gs[l.g].id, y);
      }
    }
  }

  lemma OldLink(s: State, l: Label, t: State, x: Id, y: Id)
    requires BookStep(s, l, t.books) && IdsOk(s) && SameChain(t.books, x, y)
    requires !Begins(s, l, x) && !Begins(s, l, y)
    ensures SameChain(s.books, x, y)
  {
    NewLink(s, l, t, x);
    NewLink(s, l, t, y);
  }

  /** A member that a request re-opens is the only live one of its chain. */
  lemma ReopensAlone(c: Config, s: State, l: Label, t: State, x: Id, y: Id)
    requires Stepped(c, s, l, t) && RecordsOk(c, s) && IdsOk(s) && Safe(s, l)
    requires Reopens(s, l, x) && Live(t, y) && SameChain(t.books, x, y)
    ensures x == y
  {
    assert Clear(s, x);
    OldLink(s, l, t, x, y);
    if !Reopens(s, l, y) {
      LiveBefore(c, s, l, t, y);
    }
  }

  lemma StepKeepsOneLive(c: Config, s: State, l: Label, t: State, x: Id, y: Id)
    requires Stepped(c, s, l, t) && RecordsOk(c, s) && IdsOk(s) && ClaimsExact(s.ctl) && ChainsOk(s) && Safe(s, l)
    requires Live(t, x) && Live(t, y) && SameChain(t.books, x, y)
    ensures x == y
  {
    if Begins(s, l, x) {
      BeginsAlone(c, s, l, t, x, y);
    } else if Begins(s, l, y) {
      BeginsAlone(c, s, l, t, y, x);
    } else if Reopens(s, l, x) {
      ReopensAlone(c, s, l, t, x, y);
    } else if Reopens(s, l, y) {
      ReopensAlone(c, s, l, t, y, x);
    } else {
      OldLink(s, l, t, x, y);
      LiveBefore(c, s, l, t, x);
      LiveBefore(c, s, l, t, y);
      assert OneLive(s);
    }
  }

  lemma StepKeepsAllFinal(c: Config, s: State, l: Label, t: State)
    requires Stepped(c, s, l, t) && RecordsOk(c, s) && IdsOk(s) && ClaimsExact(s.ctl) && Safe(s, l)
    requires FinalWritten(s.store, s.ctl.gs)
    ensures FinalWritten(t.store, t.ctl.gs)
  {
    forall g | g in t.ctl.gs && HandsOver(t.ctl.gs[g])
      ensures !Open(t.store, t.ctl.gs[g].id)
    {
      StepKeepsFinal(c, s, l, t, g);
    }
  }

  lemma StepKeepsAllOneLive(c: Config, s: State, l: Label, t: State)
    requires Stepped(c, s, l, t) && RecordsOk(c, s) && IdsOk(s) && ClaimsExact(s.ctl) && ChainsOk(s) && Safe(s, l)
    ensures OneLive(t)
  {
    forall x, y | Live(t, x) && Live(t, y) && SameChain(t.books, x, y)
      ensures x == y
    {
      StepKeepsOneLive(c, s, l, t, x, y);
    }
  }

  lemma StepKeepsChains(c: Config, s: State, l: Label, t: State)
    requires Stepped(c, s, l, t) && Inv(c, s) && ChainsOk(s) && Safe(s, l)
    ensures ChainsOk(t)
  {
    StepKeepsAllFinal(c, s, l, t);
    StepKeepsAllOneLive(c, s, l, t);
    StepKeepsRoots(s, l, t);
  }

  lemma StartChains(s: State)
    requires Start(s)
    ensures ChainsOk(s)
  {
  }

  // ---- and no others do

  /** A re-opened member whose chain is not clear: two live members, or an open record under a handover. */
  lemma UnclearBreaks(c: Config, s: State, l: Label, x: Id)
    requires Inv(c, s) && Enabled(c, s, l) && Reopens(s, l, x) && !Clear(s, x)
    ensures !ChainsOk(After(c, s, l))
  {
    var t := After(c, s, l);
    ReopensOpens(c, s, l, x);
    if y :| Live(s, y) && SameChain(s.books, x, y) && y != x {
      assert Live(t, x) && Live(t, y) && SameChain(t.books, x, y);
    } else {
      var g :| g in s.ctl.gs && s.ctl.gs[g].id == x && HandsOver(s.ctl.gs[g]);
      assert g in t.ctl.gs && HandsOver(t.ctl.gs[g]) && Open(t.store, t.ctl.gs[g].id);
    }
  }

  lemma ReopensOpens(c: Config, s: State, l: Label, x: Id)
    requires RecordsOk(c, s) && Enabled(c, s, l) && Reopens(s, l, x)
    ensures var t := After(c, s, l);
            t.ctl == s.ctl && t.books == s.books && Open(t.store, x) && forall y :: y != x && Open(s.store, y) ==> Open(t.store, y)
  {
    if l.Atomic? {
      AppliedOk(l.op, s.store[l.id], s.clock);
    } else {
      AppliedOk(s.api.handlers[l.h].op, s.api.handlers[l.h].loaded, s.clock);
    }
  }

  lemma LossBreaks(c: Config, s: State, l: Label)
    requires Enabled(c, s, l) && Loses(s, l)
    ensures !ChainsOk(After(c, s, l))
  {
    var t := After(c, s, l);
    assert l.g in t.ctl.gs && HandsOver(t.ctl.gs[l.g]) && t.ctl.gs[l.g].id == s.ctl.gs[l.g].id && t.store == s.store;
  }

  lemma SafeKeeps(c: Config, s: State, l: Label)
    requires Inv(c, s) && ChainsOk(s) && Enabled(c, s, l) && Safe(s, l)
    ensures ChainsOk(After(c, s, l))
  {
    StepIs(c, s, l);
    StepKeepsChains(c, s, l, After(c, s, l));
  }

  lemma UnsafeBreaks(c: Config, s: State, l: Label)
    requires Inv(c, s) && Enabled(c, s, l) && !Safe(s, l)
    ensures !ChainsOk(After(c, s, l))
  {
    if Loses(s, l) {
      LossBreaks(c, s, l);
    } else {
      var x :| Reopens(s, l, x) && !Clear(s, x);
      UnclearBreaks(c, s, l, x);
    }
  }

  /** One step, exactly: the invariant survives it if and only if the step is safe. */
  lemma SafeIsExact(c: Config, s: State, l: Label)
    requires Inv(c, s) && ChainsOk(s) && Enabled(c, s, l)
    ensures ChainsOk(After(c, s, l)) <==> Safe(s, l)
  {
    if Safe(s, l) {
      SafeKeeps(c, s, l);
    } else {
      UnsafeBreaks(c, s, l);
    }
  }

  lemma {:induction false} ChainsAlwaysOk(c: Config, ss: seq<State>, ls: seq<Label>, n: nat)
    requires IsRun(c, ss, ls) && n <= |ls| && forall i :: 0 <= i < n ==> Safe(ss[i], ls[i])
    ensures ChainsOk(ss[n])
  {
    if n == 0 {
      StartChains(ss[0]);
    } else {
      ChainsAlwaysOk(c, ss, ls, n - 1);
      InvAlways(c, ss, ls, n - 1);
      RunSteps(c, ss, ls, n - 1);
      StepKeepsChains(c, ss[n - 1], ls[n - 1], ss[n]);
    }
  }

  lemma SafeStepOfRun(c: Config, ss: seq<State>, ls: seq<Label>, i: nat)
    requires IsRun(c, ss, ls) && i < |ls| && ChainsOk(ss[i]) && ChainsOk(ss[i + 1])
    ensures Safe(ss[i], ls[i])
  {
    InvAlways(c, ss, ls, i);
    SafeIsExact(c, ss[i], ls[i]);
  }

  /** Whole runs, exactly: every state is in order if and only if every step was safe. */
  lemma SafeRuns(c: Config, ss: seq<State>, ls: seq<Label>, n: nat)
    requires IsRun(c, ss, ls) && n <= |ls|
    ensures (forall i :: 0 <= i <= n ==> ChainsOk(ss[i])) <==> (forall i :: 0 <= i < n ==> Safe(ss[i], ls[i]))
  {
    if forall i :: 0 <= i < n ==> Safe(ss[i], ls[i]) {
      forall i | 0 <= i <= n
        ensures ChainsOk(ss[i])
      {
        ChainsAlwaysOk(c, ss, ls, i);
      }
    }
    if forall i :: 0 <= i <= n ==> ChainsOk(ss[i]) {
      forall i | 0 <= i < n
        ensures Safe(ss[i], ls[i])
      {
        SafeStepOfRun(c, ss, ls, i);
      }
    }
  }

  /**
   Two different members of one recurring chain are never live at once, whatever crashes, cancels, edits,
   replays, deletions and restarts happen in between, as long as every step is safe.
   */
  lemma OneLiveMember(c: Config, ss: seq<State>, ls: seq<Label>, n: nat, x: Id, y: Id)
    requires IsRun(c, ss, ls) && n <= |ls| && forall i :: 0 <= i < n ==> Safe(ss[i], ls[i])
    requires Live(ss[n], x) && Live(ss[n], y) && SameChain(ss[n].books, x, y)
    ensures x == y
  {
    ChainsAlwaysOk(c, ss, ls, n);
  }

  // ---- what an unsafe step leads to

  ghost predicate SafeAt(ss: seq<State>, ls: seq<Label>, k: nat)
    requires |ss| == |ls| + 1 && k < |ls|
  {
    Safe(ss[k], ls[k])
  }

  /** A continuation of safe steps that ends with two live members of one chain. */
  ghost predicate ForkPath(c: Config, s: State, ss: seq<State>, ls: seq<Label>) {
    && IsPath(c, ss, ls) && ss[0] == s
    && (forall k :: 0 <= k < |ls| ==> SafeAt(ss, ls, k))
    && !OneLive(ss[|ls|])
  }

  ghost predicate CanFork(c: Config, s: State) {
    exists ss, ls :: ForkPath(c, s, ss, ls)
  }

  lemma ForkedAlready(c: Config, s: State)
    requires !OneLive(s)
    ensures CanFork(c, s)
  {
    assert ForkPath(c, s, [s], []);
  }

  lemma ForkOneStepLater(c: Config, s: State, l: Label)
    requires Enabled(c, s, l) && Safe(s, l) && CanFork(c, After(c, s, l))
    ensures CanFork(c, s)
  {
    var ss, ls :| ForkPath(c, After(c, s, l), ss, ls);
    PathPrepended(c, s, l, ss, ls);
    forall k | 0 <= k < |[l] + ls|
      ensures SafeAt([s] + ss, [l] + ls, k)
    {
      if k > 0 {
        assert SafeAt(ss, ls, k - 1);
      }
    }
    assert ([s] + ss)[|[l] + ls|] == ss[|ls|];
    assert ForkPath(c, s, [s] + ss, [l] + ls);
  }

  /** A run that has still to save its successor, over an open record, goes on to fork the chain. */
  lemma {:induction false} HandoverForks(c: Config, s: State, g: nat, newId: Id)
    requires Inv(c, s) && IsFresh(s, newId) && g in s.ctl.gs && HandsOver(s.ctl.gs[g]) && Open(s.store, s.ctl.gs[g].id)
    ensures CanFork(c, s)
    decreases StepsLeft(s.ctl.gs[g].phase)
  {
    var l := Run(g, NextAction(s.ctl.gs[g].phase, newId));
    if StepsLeft(s.ctl.gs[g].phase) == 0 {
      SavingForks(c, s, g, newId);
    } else {
      HandoverGoesOn(c, s, g, newId);
      StepKeepsInv(c, s, l);
      HandoverForks(c, After(c, s, l), g, newId);
    }
    ForkOneStepLater(c, s, l);
  }

  lemma SavingForks(c: Config, s: State, g: nat, newId: Id)
    requires IdsOk(s) && IsFresh(s, newId) && g in s.ctl.gs && s.ctl.gs[g].phase.Rescheduling?
    requires Recurs(s.ctl.gs[g].task) && Open(s.store, s.ctl.gs[g].id)
    ensures var l := Run(g, Reschedule(newId, true)); Enabled(c, s, l) && Safe(s, l) && CanFork(c, After(c, s, l))
  {
    assert s.ctl.gs[g].id in s.books.lineage.Keys;
    SavedForks(c, s, g, newId);
    ForkedAlready(c, After(c, s, Run(g, Reschedule(newId, true))));
  }

  lemma HandoverGoesOn(c: Config, s: State, g: nat, newId: Id)
    requires Inv(c, s) && IsFresh(s, newId) && g in s.ctl.gs && HandsOver(s.ctl.gs[g]) && Open(s.store, s.ctl.gs[g].id)
    requires StepsLeft(s.ctl.gs[g].phase) > 0
    ensures var l := Run(g, NextAction(s.ctl.gs[g].phase, newId));
            && Enabled(c, s, l) && Safe(s, l)
            && var t := After(c, s, l);
               && IsFresh(t, newId) && g in t.ctl.gs && HandsOver(t.ctl.gs[g]) && Open(t.store, t.ctl.gs[g].id)
               && StepsLeft(t.ctl.gs[g].phase) < StepsLeft(s.ctl.gs[g].phase)
  {
    RunGoesOn(c, s, g, s.ctl.gs[g].id, newId);
  }

  lemma BrokenCanFork(c: Config, s: State)
    requires Inv(c, s) && RootsKnown(s.books) && !ChainsOk(s)
    ensures CanFork(c, s)
  {
    if !OneLive(s) {
      ForkedAlready(c, s);
    } else {
      var g :| g in s.ctl.gs && HandsOver(s.ctl.gs[g]) && Open(s.store, s.ctl.gs[g].id);
      var newId := SomeFreshId(s);
      HandoverForks(c, s, g, newId);
    }
  }

  lemma {:induction false} ChainsOkAlong(c: Config, ss: seq<State>, ls: seq<Label>, n: nat)
    requires IsPath(c, ss, ls) && n <= |ls| && Inv(c, ss[0]) && ChainsOk(ss[0])
    requires forall k :: 0 <= k < n ==> SafeAt(ss, ls, k)
    ensures ChainsOk(ss[n])
  {
    if n > 0 {
      ChainsOkAlong(c, ss, ls, n - 1);
      InvAlong(c, ss, ls, 0, n - 1);
      ChainsOkNext(c, ss, ls, n);
    }
  }

  lemma ChainsOkNext(c: Config, ss: seq<State>, ls: seq<Label>, n: nat)
    requires IsPath(c, ss, ls) && 0 < n <= |ls| && Inv(c, ss[n - 1]) && ChainsOk(ss[n - 1]) && SafeAt(ss, ls, n - 1)
    ensures ChainsOk(ss[n])
  {
    assert StepAt(c, ss, ls, n - 1);
    SafeKeeps(c, ss[n - 1], ls[n - 1]);
  }

  lemma SoundCannotFork(c: Config, s: State)
    requires Inv(c, s) && ChainsOk(s)
    ensures !CanFork(c, s)
  {
    forall ss, ls
      ensures !ForkPath(c, s, ss, ls)
    {
      if IsPath(c, ss, ls) && ss[0] == s && forall k :: 0 <= k < |ls| ==> SafeAt(ss, ls, k) {
        ChainsOkAlong(c, ss, ls, |ls|);
      }
    }
  }

  /** A step is unsafe if and only if the system can go on from it, by safe steps alone, to a forked chain. */
  lemma UnsafeIsForking(c: Config, s: State, l: Label)
    requires Inv(c, s) && ChainsOk(s) && Enabled(c, s, l)
    ensures CanFork(c, After(c, s, l)) <==> !Safe(s, l)
  {
    var t := After(c, s, l);
    SafeIsExact(c, s, l);
    StepKeepsInv(c, s, l);
    if Safe(s, l) {
      SoundCannotFork(c, t);
    } else {
      StepIs(c, s, l);
      StepKeepsRoots(s, l, t);
      BrokenCanFork(c, t);
    }
  }

  // ---- how chains fork

  /** A replay of an earlier member forks the chain whenever a later one is live. */
  lemma ReplayForks(c: Config, s: State, x: Id, y: Id)
    requires Enabled(c, s, Atomic(x, Replay)) && StoreOk(s.store) && x != y && Open(s.store, y) && SameChain(s.books, x, y)
    ensures var t := After(c, s, Atomic(x, Replay)); Live(t, x) && Live(t, y) && SameChain(t.books, x, y)
  {
  }

  /** So does the late write of an edit or a replay, once the run of the edited member has handed over. */
  lemma LateWriteForks(c: Config, s: State, h: nat, y: Id)
    requires HandlersOk(s.api.handlers) && Enabled(c, s, WriteBack(h, true)) && !s.api.handlers[h].op.Cancel?
    requires var x := s.api.handlers[h].loaded.id; x != y && Open(s.store, y) && SameChain(s.books, x, y)
    ensures var x := s.api.handlers[h].loaded.id; var t := After(c, s, WriteBack(h, true));
            Live(t, x) && Live(t, y) && SameChain(t.books, x, y)
  {
    AppliedOk(s.api.handlers[h].op, s.api.handlers[h].loaded, s.clock);
  }

  /** And so does a lost final write: the old record stays open beside the successor that its run saves. */
  lemma LostFinalWriteForks(c: Config, s: State, t: State, g: nat, newId: Id)
    requires Inv(c, s) && Enabled(c, s, Run(g, Finalize(false))) && t == After(c, s, Run(g, Finalize(false)))
    requires s.ctl.gs[g].task.status.Succeeded? && Recurs(s.ctl.gs[g].task) && Open(s.store, s.ctl.gs[g].id)
    requires IsFresh(s, newId)
    ensures Enabled(c, t, Run(g, Reschedule(newId, true)))
    ensures var x := s.ctl.gs[g].id; var u := After(c, t, Run(g, Reschedule(newId, true)));
            x != newId && Live(u, x) && Live(u, newId) && SameChain(u.books, x, newId)
  {
    assert s.ctl.gs[g].id in s.books.lineage.Keys;
    LostWriteLeaves(c, s, g);
    SavedForks(c, t, g, newId);
  }

  lemma LostWriteLeaves(c: Config, s: State, g: nat)
    requires Enabled(c, s, Run(g, Finalize(false))) && s.ctl.gs[g].task.status.Succeeded?
    ensures var t := After(c, s, Run(g, Finalize(false)));
            t.store == s.store && t.books == s.books && g in t.ctl.gs && t.ctl.gs[g] == s.ctl.gs[g].(phase := Rescheduling)
  {
  }

  lemma SavedForks(c: Config, t: State, g: nat, newId: Id)
    requires Enabled(c, t, Run(g, Reschedule(newId, true))) && Recurs(t.ctl.gs[g].task) && Open(t.store, t.ctl.gs[g].id)
    requires t.ctl.gs[g].id in t.books.lineage
    ensures var x := t.ctl.gs[g].id; var u := After(c, t, Run(g, Reschedule(newId, true)));
            x != newId && Live(u, x) && Live(u, newId) && SameChain(u.books, x, newId)
  {
    var u := After(c, t, Run(g, Reschedule(newId, true)));
    assert Open(u.store, t.ctl.gs[g].id) && Open(u.store, newId);
  }
}
