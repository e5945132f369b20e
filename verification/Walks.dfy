/** One walk of a create request over the pending tasks: what a page rules out, and what no walk ever misses. */
module Walks {
  import opened Tasks
  import opened ByteOrder
  import opened Keys
  import opened Selection
  import opened Rows
  import opened Paging
  import opened Delivery
  import opened Protocol
  import opened Steps

  // ---- one page

  /** A page without a duplicate leaves every pending duplicate ahead of the cursor beyond the page. */
  lemma DuplicateIsBeyond(rows: View, store: Store, request: Task, cursor: string, keys: seq<string>, next: Cursor, id: Id)
    requires Represents(rows, store) && IsPending(store, id) && IsDuplicate(request, store[id])
    requires Less(cursor, TaskKey(store[id])) && KeysOf(keys, rows)
    requires IsPage(rows, DuplicateFilter(request), cursor, MAX_PAGE_SIZE, keys, next)
    requires forall i :: 0 <= i < |keys| ==> !IsDuplicate(request, rows[keys[i]])
    ensures next.At? && Less(next.key, TaskKey(store[id]))
  {
    var k, listed := TaskKey(store[id]), Listed(rows, DuplicateFilter(request), cursor);
    DuplicateIsListed(rows, request, cursor, k);
    assert k !in keys;
    CursorMeansMore(rows, DuplicateFilter(request), cursor, MAX_PAGE_SIZE, keys, next);
    SmallestRest(keys, listed, MAX_PAGE_SIZE, k);
  }

  lemma PageValues(rows: View, keys: seq<string>)
    requires KeysOf(keys, rows)
    ensures seq(|keys|, i requires 0 <= i < |keys| => rows[keys[i]]) == Values(rows, keys)
  {
  }

  lemma FoundIsPending(rows: View, store: Store, request: Task, cursor: string, keys: seq<string>, next: Cursor, i: nat)
    requires Represents(rows, store) && KeysOf(keys, rows) && i < |keys|
    requires IsPage(rows, DuplicateFilter(request), cursor, MAX_PAGE_SIZE, keys, next)
    ensures rows[keys[i]].status.Pending?
  {
    assert keys[i] in Elems(keys);
    assert keys[i] in Listed(rows, DuplicateFilter(request), cursor);
    PartitionPrefix(Status.Pending, rows[keys[i]]);
  }

  lemma NoneOnPage(cr: Creator, rows: View, keys: seq<string>)
    requires KeysOf(keys, rows) && FirstDuplicate(cr.task, seq(|keys|, i requires 0 <= i < |keys| => rows[keys[i]])).None?
    ensures forall i :: 0 <= i < |keys| ==> !IsDuplicate(cr.task, rows[keys[i]])
  {
    PageValues(rows, keys);
    var page := Values(rows, keys);
    forall i | 0 <= i < |keys|
      ensures !IsDuplicate(cr.task, rows[keys[i]])
    {
      assert page[i] in page;
    }
  }

  lemma WalkEnds(cr: Creator, rows: View, keys: seq<string>, next: Cursor)
    requires KeysOf(keys, rows) && forall i :: 0 <= i < |keys| ==> !IsDuplicate(cr.task, rows[keys[i]])
    ensures AfterPage(cr, rows, keys, next) == Creator(cr.task, if next.At? then Walking(next.key) else Absent)
  {
    PageValues(rows, keys);
    var page := Values(rows, keys);
    forall t | t in page
      ensures !IsDuplicate(cr.task, t)
    {
      var i :| 0 <= i < |page| && page[i] == t;
    }
  }

  // ---- one steady duplicate, in any run whatever

  /** The walk has not passed this task: it lies ahead of the cursor, and its absence was not concluded. */
  predicate NotPassed(cr: Creator, rec: Task) {
    && !cr.stage.Absent?
    && (cr.stage.Walking? ==> Less(cr.stage.cursor, TaskKey(rec)))
  }

  lemma PageKeepsNotPassed(cr: Creator, store: Store, rows: View, keys: seq<string>, next: Cursor, id: Id)
    requires cr.stage.Walking? && Represents(rows, store) && KeysOf(keys, rows)
    requires IsPage(rows, DuplicateFilter(cr.task), cr.stage.cursor, MAX_PAGE_SIZE, keys, next)
    requires IsPending(store, id) && IsDuplicate(cr.task, store[id]) && NotPassed(cr, store[id])
    ensures NotPassed(AfterPage(cr, rows, keys, next), store[id])
  {
    if !AfterPage(cr, rows, keys, next).stage.Duplicate? {
      NoneOnPage(cr, rows, keys);
      DuplicateIsBeyond(rows, store, cr.task, cr.stage.cursor, keys, next, id);
    }
  }

  lemma StepKeepsNotPassed(s: State, l: Label, api: Api, id: Id)
    requires ApiStep(s, l, api) && s.api.creator.Some? && api.creator.Some?
    requires IsPending(s.store, id) && IsDuplicate(s.api.creator.value.task, s.store[id])
    requires NotPassed(s.api.creator.value, s.store[id])
    ensures NotPassed(api.creator.value, s.store[id])
  {
    if l.ReadPage? {
      PageKeepsNotPassed(s.api.creator.value, s.store, l.rows, l.keys, l.next, id);
    } else {
      assert api.creator == s.api.creator;
    }
  }

  /** The request holds the create mutex, and the record is in the store as it is. */
  ghost predicate Steady(s: State, request: Task, rec: Task) {
    && s.api.creator.Some? && s.api.creator.value.task == request
    && Lookup(s.store, rec.id) == Some(rec)
  }

  ghost predicate StillAhead(s: State, rec: Task) {
    s.api.creator.Some? && NotPassed(s.api.creator.value, rec)
  }

  lemma AheadAtLock(c: Config, s: State, t: State, request: Task, rec: Task)
    requires Enabled(c, s, Lock(request)) && t == After(c, s, Lock(request))
    ensures StillAhead(t, rec)
  {
    assert TaskKey(rec) != "";
  }

  lemma AheadNext(c: Config, ss: seq<State>, ls: seq<Label>, n: nat, request: Task, rec: Task)
    requires |ss| == |ls| + 1 && n < |ls| && StepAt(c, ss, ls, n)
    requires Steady(ss[n], request, rec) && Steady(ss[n + 1], request, rec) && StillAhead(ss[n], rec)
    requires rec.status.Pending? && IsDuplicate(request, rec)
    ensures StillAhead(ss[n + 1], rec)
  {
    StepOfApi(c, ss[n], ls[n]);
    StepKeepsNotPassed(ss[n], ls[n], ss[n + 1].api, rec.id);
  }

  lemma {:induction false} AheadAlong(c: Config, ss: seq<State>, ls: seq<Label>, i: nat, n: nat, request: Task, rec: Task)
    requires IsPath(c, ss, ls) && i <= n <= |ls| && StillAhead(ss[i], rec)
    requires forall k :: i <= k <= n ==> Steady(ss[k], request, rec)
    requires rec.status.Pending? && IsDuplicate(request, rec)
    ensures StillAhead(ss[n], rec)
  {
    if i < n {
      AheadAlong(c, ss, ls, i, n - 1, request, rec);
      AheadNext(c, ss, ls, n - 1, request, rec);
    }
  }

  /**
   No walk misses a duplicate that stayed pending throughout, with a key or without one, in any run: edits,
   replays and restarts of other tasks, and successors saved by the runner, included. The request neither
   concludes that there is none, nor moves its cursor past the duplicate, nor saves a second task.
   */
  lemma SteadyDuplicateNotMissed(c: Config, ss: seq<State>, ls: seq<Label>, request: Task, rec: Task, i: nat, n: nat)
    requires IsRun(c, ss, ls) && i < n <= |ls| && ls[i] == Lock(request)
    requires forall k :: i < k <= n ==> Steady(ss[k], request, rec)
    requires rec.status.Pending? && IsDuplicate(request, rec)
    ensures ss[n].api.creator.Some? && NotPassed(ss[n].api.creator.value, rec)
    ensures n < |ls| ==> !ls[n].SaveNew?
  {
    AheadAtLock(c, ss[i], ss[i + 1], request, rec);
    RunIsPath(c, ss, ls);
    AheadAlong(c, ss, ls, i + 1, n, request, rec);
    if n < |ls| {
      NotSavedYet(c, ss[n], ls[n], rec);
    }
  }

  lemma NotSavedYet(c: Config, s: State, l: Label, rec: Task)
    requires Enabled(c, s, l) && StillAhead(s, rec)
    ensures !l.SaveNew?
  {
  }

  // ---- the answer of a create that is refused

  lemma FoundAt(s: State, l: Label, api: Api, existing: Task)
    requires ApiStep(s, l, api) && api.creator.Some? && api.creator.value.stage == Duplicate(existing)
    ensures s.api.creator == api.creator || (l.ReadPage? && Lookup(s.store, existing.id) == Some(existing)
              && existing.status.Pending? && IsDuplicate(api.creator.value.task, existing))
  {
    if l.ReadPage? {
      var cr := s.api.creator.value;
      PageValues(l.rows, l.keys);
      var page := Values(l.rows, l.keys);
      var i :| 0 <= i < |page| && page[i] == existing;
      FoundIsPending(l.rows, s.store, cr.task, cr.stage.cursor, l.keys, l.next, i);
    }
  }

  /** In every run: a create that is answered with an existing task read it, as a pending duplicate, from the store. */
  lemma {:induction false} DuplicateWasPending(c: Config, ss: seq<State>, ls: seq<Label>, n: nat) returns (k: nat)
    requires IsRun(c, ss, ls) && n <= |ls| && ss[n].api.creator.Some? && ss[n].api.creator.value.stage.Duplicate?
    ensures var cr := ss[n].api.creator.value;
            && k < n && ls[k].ReadPage? && Lookup(ss[k].store, cr.stage.existing.id) == Some(cr.stage.existing)
            && cr.stage.existing.status.Pending? && IsDuplicate(cr.task, cr.stage.existing)
  {
    assert Start(ss[0]);
    assert n > 0;
    RunSteps(c, ss, ls, n - 1);
    FoundAt(ss[n - 1], ls[n - 1], ss[n].api, ss[n].api.creator.value.stage.existing);
    if ss[n - 1].api.creator == ss[n].api.creator {
      k := DuplicateWasPending(c, ss, ls, n - 1);
    } else {
      k := n - 1;
    }
  }
}
