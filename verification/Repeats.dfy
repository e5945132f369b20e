/** What a step that does not keep the keys leads to: the create under way goes on to make a second task. */
module Repeats {
  import opened Tasks
  import opened ByteOrder
  import opened Keys
  import opened Selection
  import opened Rows
  import opened Scans
  import opened Paging
  import opened Records
  import opened Delivery
  import opened Protocol
  import opened Steps
  import opened Integrity
  import opened Continuations
  import opened Walks
  import opened Idempotency

  ghost predicate KeptAt(ss: seq<State>, ls: seq<Label>, k: nat)
    requires |ss| == |ls| + 1 && k < |ls|
  {
    KeepsKeys(ss[k], ls[k])
  }

  /** A continuation, all of whose steps keep the keys, that ends with two pending tasks of one key. */
  ghost predicate RepeatPath(c: Config, s: State, ss: seq<State>, ls: seq<Label>) {
    && IsPath(c, ss, ls) && ss[0] == s
    && (forall k :: 0 <= k < |ls| ==> KeptAt(ss, ls, k))
    && !OnePerKey(ss[|ls|].store)
  }

  ghost predicate CanRepeat(c: Config, s: State) {
    exists ss, ls :: RepeatPath(c, s, ss, ls)
  }

  lemma RepeatedAlready(c: Config, s: State)
    requires !OnePerKey(s.store)
    ensures CanRepeat(c, s)
  {
    assert RepeatPath(c, s, [s], []);
  }

  lemma RepeatOneStepLater(c: Config, s: State, l: Label)
    requires Enabled(c, s, l) && KeepsKeys(s, l) && CanRepeat(c, After(c, s, l))
    ensures CanRepeat(c, s)
  {
    var ss, ls :| RepeatPath(c, After(c, s, l), ss, ls);
    PathPrepended(c, s, l, ss, ls);
    forall k | 0 <= k < |[l] + ls|
      ensures KeptAt([s] + ss, [l] + ls, k)
    {
      if k > 0 {
        assert KeptAt(ss, ls, k - 1);
      }
    }
    assert ([s] + ss)[|[l] + ls|] == ss[|ls|];
    assert RepeatPath(c, s, [s] + ss, [l] + ls);
  }

  // ---- the walk goes on without finding the task it has passed

  /** The creator has passed the only pending task of its key. */
  ghost predicate Missed(s: State, x: Id) {
    && s.api.creator.Some? && s.api.creator.value.task.idempotencyKey != ""
    && Carries(s.store, s.api.creator.value.task.idempotencyKey, x)
    && !s.api.creator.value.stage.Duplicate? && !NotPassed(s.api.creator.value, s.store[x])
  }

  lemma CreatorIsNew(s: State, x: Id)
    requires IdsOk(s) && s.api.creator.Some? && x in s.store
    ensures x != s.api.creator.value.task.id
  {
    assert s.store.Keys <= s.books.lineage.Keys;
  }

  /** The creator found no carrier of its key, and one is there all the same: saving makes two. */
  lemma SaveMakesTwo(c: Config, s: State, x: Id)
    requires RecordsOk(c, s) && IdsOk(s) && Missed(s, x) && s.api.creator.value.stage.Absent?
    ensures Enabled(c, s, SaveNew(true)) && KeepsKeys(s, SaveNew(true)) && CanRepeat(c, After(c, s, SaveNew(true)))
  {
    var task := s.api.creator.value.task;
    CreatorIsNew(s, x);
    TwoCarriers(s.store[task.id := task], task.idempotencyKey, x, task.id);
    RepeatedAlready(c, After(c, s, SaveNew(true)));
  }

  lemma PageHasNone(s: State, x: Id, rows: View, keys: seq<string>, next: Cursor)
    requires OnePerKey(s.store) && Missed(s, x) && s.api.creator.value.stage.Walking? && Represents(rows, s.store)
    requires KeysOf(keys, rows)
    requires IsPage(rows, DuplicateFilter(s.api.creator.value.task), s.api.creator.value.stage.cursor, MAX_PAGE_SIZE, keys, next)
    ensures forall i :: 0 <= i < |keys| ==> !IsDuplicate(s.api.creator.value.task, rows[keys[i]])
  {
    var cr := s.api.creator.value;
    forall i | 0 <= i < |keys|
      ensures !IsDuplicate(cr.task, rows[keys[i]])
    {
      FoundIsPending(rows, s.store, cr.task, cr.stage.cursor, keys, next, i);
      var t := rows[keys[i]];
      assert keys[i] in Elems(keys) && Less(cr.stage.cursor, keys[i]);
      assert Carries(s.store, cr.task.idempotencyKey, x);
      assert IsDuplicate(cr.task, t) ==> Carries(s.store, cr.task.idempotencyKey, t.id);
    }
  }

  lemma StillMissed(cr: Creator, rec: Task, next: Cursor, keys: seq<string>, rows: View)
    requires cr.stage.Walking? && !Less(cr.stage.cursor, TaskKey(rec))
    requires IsPage(rows, DuplicateFilter(cr.task), cr.stage.cursor, MAX_PAGE_SIZE, keys, next) && next.At?
    ensures !Less(next.key, TaskKey(rec))
    ensures |Listed(rows, DuplicateFilter(cr.task), next.key)| < |Listed(rows, DuplicateFilter(cr.task), cr.stage.cursor)|
  {
    var f := DuplicateFilter(cr.task);
    CursorMeansMore(rows, f, cr.stage.cursor, MAX_PAGE_SIZE, keys, next);
    RestAfterPage(rows, f, cr.stage.cursor, MAX_PAGE_SIZE, keys, next);
    assert next.key in Elems(keys);
    OneMoreThan(Listed(rows, f, next.key), Listed(rows, f, cr.stage.cursor), next.key);
    if Less(next.key, TaskKey(rec)) {
      Transitive(cr.stage.cursor, next.key, TaskKey(rec));
    }
  }

  /** Reading one more page, which finds nothing, leaves the task missed and less of the walk to go. */
  lemma PageGoesOn(c: Config, s: State, x: Id, rows: View, keys: seq<string>, next: Cursor)
    requires OnePerKey(s.store) && Missed(s, x) && s.api.creator.value.stage.Walking?
    requires Represents(rows, s.store) && KeysOf(keys, rows) && !next.Undecodable?
    requires IsPage(rows, DuplicateFilter(s.api.creator.value.task), s.api.creator.value.stage.cursor, MAX_PAGE_SIZE, keys, next)
    ensures Enabled(c, s, ReadPage(rows, keys, next)) && KeepsKeys(s, ReadPage(rows, keys, next))
    ensures var cr := s.api.creator.value; var t := After(c, s, ReadPage(rows, keys, next));
            t.store == s.store && t.api.creator == Some(Creator(cr.task, if next.At? then Walking(next.key) else Absent))
  {
    PageHasNone(s, x, rows, keys, next);
    WalkEnds(s.api.creator.value, rows, keys, next);
  }

  lemma {:induction false} MissedRepeats(c: Config, s: State, x: Id, rows: View, left: nat)
    requires Inv(c, s) && OnePerKey(s.store) && Missed(s, x) && Represents(rows, s.store)
    requires s.api.creator.value.stage.Walking? ==>
      |Listed(rows, DuplicateFilter(s.api.creator.value.task), s.api.creator.value.stage.cursor)| < left
    ensures CanRepeat(c, s)
    decreases left
  {
    var cr := s.api.creator.value;
    if cr.stage.Absent? {
      SaveMakesTwo(c, s, x);
      RepeatOneStepLater(c, s, SaveNew(true));
    } else {
      var keys, next := PageExists(rows, DuplicateFilter(cr.task), cr.stage.cursor);
      var l := ReadPage(rows, keys, next);
      PageGoesOn(c, s, x, rows, keys, next);
      StepKeepsInv(c, s, l);
      if next.At? {
        StillMissed(cr, s.store[x], next, keys, rows);
      }
      MissedRepeats(c, After(c, s, l), x, rows, if left > 0 then left - 1 else 0);
      RepeatOneStepLater(c, s, l);
    }
  }

  lemma PageExists(v: View, f: ListFilter, after: string) returns (keys: seq<string>, next: Cursor)
    ensures IsPage(v, f, after, MAX_PAGE_SIZE, keys, next) && KeysOf(keys, v) && !next.Undecodable?
  {
    keys := SmallestExist(Listed(v, f, after), MAX_PAGE_SIZE);
    next := if |Listed(v, f, after)| > MAX_PAGE_SIZE then At(LastOf(keys)) else NoCursor;
    forall i | 0 <= i < |keys|
      ensures keys[i] in v
    {
      assert keys[i] in Elems(keys);
    }
  }

  // ---- the exact condition, in terms of pending tasks alone

  lemma BrokenCanRepeat(c: Config, s: State)
    requires Inv(c, s) && !KeysOk(s) && (s.api.creator.Some? ==> !s.ctl.loop.Down?)
    ensures CanRepeat(c, s)
  {
    if !OnePerKey(s.store) {
      RepeatedAlready(c, s);
    } else {
      var cr := s.api.creator.value;
      var x :| Carries(s.store, cr.task.idempotencyKey, x) && !NotPassed(cr, s.store[x]);
      var rows := RepresentationExists(s.store);
      var left := if cr.stage.Walking? then |Listed(rows, DuplicateFilter(cr.task), cr.stage.cursor)| + 1 else 0;
      MissedRepeats(c, s, x, rows, left);
    }
  }

  lemma {:induction false} KeysOkAlong(c: Config, ss: seq<State>, ls: seq<Label>, n: nat)
    requires IsPath(c, ss, ls) && n <= |ls| && Inv(c, ss[0]) && KeysOk(ss[0])
    requires forall k :: 0 <= k < n ==> KeptAt(ss, ls, k)
    ensures KeysOk(ss[n])
  {
    if n > 0 {
      KeysOkAlong(c, ss, ls, n - 1);
      InvAlong(c, ss, ls, 0, n - 1);
      KeysOkNext(c, ss, ls, n);
    }
  }

  lemma KeysOkNext(c: Config, ss: seq<State>, ls: seq<Label>, n: nat)
    requires IsPath(c, ss, ls) && 0 < n <= |ls| && Inv(c, ss[n - 1]) && KeysOk(ss[n - 1]) && KeptAt(ss, ls, n - 1)
    ensures KeysOk(ss[n])
  {
    assert StepAt(c, ss, ls, n - 1);
    KeepsKeysIsExact(c, ss[n - 1], ls[n - 1]);
  }

  lemma SoundCannotRepeat(c: Config, s: State)
    requires Inv(c, s) && KeysOk(s)
    ensures !CanRepeat(c, s)
  {
    forall ss, ls
      ensures !RepeatPath(c, s, ss, ls)
    {
      if IsPath(c, ss, ls) && ss[0] == s && forall k :: 0 <= k < |ls| ==> KeptAt(ss, ls, k) {
        KeysOkAlong(c, ss, ls, |ls|);
      }
    }
  }

  /**
   A step does not keep the keys if and only if the system can go on from it, by steps that do, to two pending
   tasks of one key.
   */
  lemma UnkeptIsRepeating(c: Config, s: State, l: Label)
    requires Inv(c, s) && KeysOk(s) && Enabled(c, s, l)
    ensures CanRepeat(c, After(c, s, l)) <==> !KeepsKeys(s, l)
  {
    var t := After(c, s, l);
    KeepsKeysIsExact(c, s, l);
    StepKeepsInv(c, s, l);
    if KeepsKeys(s, l) {
      SoundCannotRepeat(c, t);
    } else {
      StepIs(c, s, l);
      if t.api.creator.Some? {
        CreatorIsUp(c, s, l, t);
      }
      BrokenCanRepeat(c, t);
    }
  }

  /** A replay, a restart and the late write of an edit can each make a second pending task for a key at once. */
  lemma TwoAtOnce(c: Config, s: State, x: Id, y: Id, l: Label)
    requires Inv(c, s) && Enabled(c, s, l) && x != y && x in s.store && IsPending(s.store, y)
    requires s.store[x].idempotencyKey == s.store[y].idempotencyKey != ""
    requires
      || l == Atomic(x, Replay)
      || (l == Restart(true) && s.store[x].status.Running?)
      || (l.WriteBack? && l.ok && l.h in s.api.handlers && s.api.handlers[l.h].op.Put?
          && s.api.handlers[l.h].loaded.id == x && s.api.handlers[l.h].loaded.idempotencyKey == s.store[x].idempotencyKey)
    ensures !OnePerKey(After(c, s, l).store)
  {
    var t := After(c, s, l);
    assert IsPending(t.store, x) && IsPending(t.store, y);
    TwoCarriers(t.store, s.store[y].idempotencyKey, x, y);
  }

  /** An edit that moves the key's only task behind the cursor of a create of that key is one such step. */
  lemma EditSlipsBehind(c: Config, s: State, x: Id, e: Edit)
    requires Inv(c, s) && KeysOk(s) && Enabled(c, s, Atomic(x, Put(e)))
    requires s.api.creator.Some? && s.api.creator.value.stage.Walking?
    requires s.api.creator.value.task.idempotencyKey == s.store[x].idempotencyKey != ""
    requires !Less(s.api.creator.value.stage.cursor, TaskKey(Edited(s.store[x], e)))
    ensures CanRepeat(c, After(c, s, Atomic(x, Put(e))))
  {
    UnkeptIsRepeating(c, s, Atomic(x, Put(e)));
  }
}
