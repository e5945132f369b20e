/** The request handlers, each run without interference: what it answers and what it leaves in the store. */
module Handlers {
  import opened Tasks
  import opened ByteOrder
  import opened Keys
  import opened Selection
  import opened Rows
  import opened Paging
  import opened Records
  import opened Protocol
  import opened Storage

  datatype Reply = Missing | NotFound | Conflict | Done(task: Task)

  /** No row the walk has passed duplicates the request. */
  ghost predicate Passed(v: View, request: Task, after: string) {
    forall k :: k in Listed(v, DuplicateFilter(request), "") && k !in Listed(v, DuplicateFilter(request), after)
      ==> !IsDuplicate(request, v[k])
  }

  ghost predicate FirstOf(v: View, request: Task, t: Task) {
    && TaskKey(t) in v && v[TaskKey(t)] == t && t.status.Pending? && IsDuplicate(request, t)
    && forall k :: k in v && v[k].status.Pending? && IsDuplicate(request, v[k]) ==> k == TaskKey(t) || Less(TaskKey(t), k)
  }

  lemma ListedIsPending(v: View, request: Task, after: string, k: string)
    requires WellKeyed(v) && k in Listed(v, DuplicateFilter(request), after)
    ensures v[k].status.Pending?
  {
    PartitionPrefix(Status.Pending, v[k]);
  }

  /** On a sorted page, key i comes before every later key of the page and every listed key beyond it. */
  lemma FirstOnPage(v: View, f: ListFilter, after: string, keys: seq<string>, next: Cursor, i: nat, k: string)
    requires IsPage(v, f, after, MAX_PAGE_SIZE, keys, next) && i < |keys| && k in Listed(v, f, after)
    requires forall j :: 0 <= j < i ==> keys[j] != k
    ensures k == keys[i] || Less(keys[i], k)
  {
    if k in keys {
      var j :| 0 <= j < |keys| && keys[j] == k;
      assert i <= j;
    } else {
      assert keys[i] in keys;
    }
  }

  /** A page whose first i tasks are no duplicates, and whose next one is. */
  lemma FoundFirst(v: View, request: Task, after: string, keys: seq<string>, next: Cursor, page: seq<Task>, i: nat)
    requires WellKeyed(v) && IsPage(v, DuplicateFilter(request), after, MAX_PAGE_SIZE, keys, next) && KeysOf(keys, v)
    requires Passed(v, request, after) && page == Values(v, keys) && i < |page| && IsDuplicate(request, page[i])
    requires forall j :: 0 <= j < i ==> !IsDuplicate(request, page[j])
    ensures FirstOf(v, request, page[i])
  {
    assert page[i] == v[keys[i]] && keys[i] in Elems(keys);
    ListedIsPending(v, request, after, keys[i]);
    forall k | k in v && v[k].status.Pending? && IsDuplicate(request, v[k])
      ensures k == keys[i] || Less(keys[i], k)
    {
      DuplicateIsListed(v, request, "", k);
      assert k != "";
      forall j | 0 <= j < i
        ensures keys[j] != k
      {
        assert page[j] == v[keys[j]];
      }
      FirstOnPage(v, DuplicateFilter(request), after, keys, next, i, k);
    }
  }

  lemma PagePassed(v: View, request: Task, after: string, keys: seq<string>, next: Cursor, page: seq<Task>)
    requires WellKeyed(v) && IsPage(v, DuplicateFilter(request), after, MAX_PAGE_SIZE, keys, next) && KeysOf(keys, v)
    requires Passed(v, request, after) && page == Values(v, keys)
    requires forall j :: 0 <= j < |page| ==> !IsDuplicate(request, page[j])
    ensures next.At? ==> Passed(v, request, next.key) && Accepts(DuplicateFilter(request), next)
    ensures next.At? ==> |Listed(v, DuplicateFilter(request), next.key)| < |Listed(v, DuplicateFilter(request), after)|
    ensures !next.At? ==> forall k :: k in v && v[k].status.Pending? ==> !IsDuplicate(request, v[k])
  {
    var f := DuplicateFilter(request);
    forall j | 0 <= j < |keys|
      ensures !IsDuplicate(request, v[keys[j]])
    {
      assert page[j] == v[keys[j]];
    }
    if next.At? {
      RestAfterPage(v, f, after, MAX_PAGE_SIZE, keys, next);
      CursorMeansMore(v, f, after, MAX_PAGE_SIZE, keys, next);
      assert next.key in Elems(keys);
      SmallerRest(Listed(v, f, after), Elems(keys), next.key);
      forall k | k in Listed(v, f, "") && k !in Listed(v, f, next.key)
        ensures !IsDuplicate(request, v[k])
      {
        if k in Listed(v, f, after) {
          assert k in Elems(keys);
        }
      }
    } else {
      SmallestAll(keys, Listed(v, f, after), MAX_PAGE_SIZE);
      forall k | k in v && v[k].status.Pending?
        ensures !IsDuplicate(request, v[k])
      {
        DuplicateIsListed(v, request, "", k);
      assert k != "";
        assert k in Listed(v, f, after) ==> k in Elems(keys);
      }
    }
  }

  lemma NoneInStore(v: View, m: Store, request: Task)
    requires Represents(v, m) && forall k :: k in v && v[k].status.Pending? ==> !IsDuplicate(request, v[k])
    ensures forall id :: IsPending(m, id) ==> !IsDuplicate(request, m[id])
  {
    forall id | IsPending(m, id)
      ensures !IsDuplicate(request, m[id])
    {
      assert v[TaskKey(m[id])] == m[id];
    }
  }

  lemma SmallerRest<T>(s: set<T>, gone: set<T>, x: T)
    requires x in s && x in gone
    ensures |s - gone| < |s|
  {
    CardBound(s - gone, s - {x});
  }

  class Handler {
    const store: BadgerStore

    constructor (store: BadgerStore)
      ensures this.store == store
    {
      this.store := store;
    }

    /** The index of a page's first duplicate, or the page's length. */
    static method Match(request: Task, page: seq<Task>) returns (i: nat)
      ensures i <= |page| && (i < |page| ==> IsDuplicate(request, page[i]))
      ensures forall j :: 0 <= j < i ==> !IsDuplicate(request, page[j])
    {
      i := 0;
      while i < |page|
        invariant i <= |page| && forall j :: 0 <= j < i ==> !IsDuplicate(request, page[j])
      {
        if request.idempotencyKey != "" {
          if page[i].idempotencyKey == request.idempotencyKey {
            return;
          }
          i := i + 1;
          continue;
        }
        if page[i].url == request.url && -SECOND < page[i].executeAt - request.executeAt < SECOND {
          return;
        }
        i := i + 1;
      }
    }

    /** Walks the pending partition page by page: the first duplicate in key order, or none if there is none. */
    method FindDuplicate(request: Task) returns (found: Option<Task>)
      requires store.Valid()
      ensures found.Some? ==> FirstOf(store.db.rows, request, found.value)
      ensures found.None? ==> forall id :: IsPending(store.tasks, id) ==> !IsDuplicate(request, store.tasks[id])
    {
      var filter := DuplicateFilter(request);
      var cursor := NoCursor;
      ghost var v := store.db.rows;
      while true
        invariant Accepts(filter, cursor) && Passed(v, request, CursorKey(cursor))
        decreases |Listed(v, filter, CursorKey(cursor))|
      {
        var page, keys := store.ListTasks(filter, cursor, MAX_PAGE_SIZE);
        var i := Match(request, page.tasks);
        ghost var after := CursorKey(cursor);
        if i < |page.tasks| {
          FoundFirst(v, request, after, keys, page.next, page.tasks, i);
          return Some(page.tasks[i]);
        }
        PagePassed(v, request, after, keys, page.next, page.tasks);
        if page.next == NoCursor {
          NoneInStore(v, store.tasks, request);
          return None;
        }
        cursor := page.next;
      }
    }

    /** The locked part of a create: the duplicate is returned, or else the new task is saved. */
    method CreateTask(task: Task) returns (answer: Task, created: bool)
      requires store.Valid() && IsNewTask(task) && ColonFree(task.id) && task.id !in store.tasks
      modifies store
      ensures store.Valid()
      ensures created <==> forall id :: IsPending(old(store.tasks), id) ==> !IsDuplicate(task, old(store.tasks)[id])
      ensures task.idempotencyKey != "" ==>
        (created <==> forall id :: IsPending(old(store.tasks), id) ==> old(store.tasks)[id].idempotencyKey != task.idempotencyKey)
      ensures task.idempotencyKey == "" ==>
        (created <==> forall id :: IsPending(old(store.tasks), id) ==>
           var t := old(store.tasks)[id];
           t.url != task.url || t.executeAt - task.executeAt >= 1_000_000_000 || task.executeAt - t.executeAt >= 1_000_000_000)
      ensures created ==> answer == task && store.tasks == old(store.tasks)[task.id := task]
      ensures !created ==> FirstOf(old(store.db.rows), task, answer) && store.tasks == old(store.tasks)
    {
      var existing := FindDuplicate(task);
      if existing.Some? {
        assert IsPending(store.tasks, existing.value.id);
        return existing.value, false;
      }
      store.Save(task);
      return task, true;
    }

    /** Replaces a pending task's client-owned fields. */
    method UpdateTask(id: Id, e: Edit) returns (reply: Reply)
      requires store.Valid()
      modifies store
      ensures store.Valid() && AnswersText(Put(e), id, 0, old(store.tasks), reply, store.tasks)
      ensures !reply.Done? ==> store.tasks == old(store.tasks)
      ensures reply.Done? ==>
        && reply.task.id in old(store.tasks) && store.tasks == old(store.tasks)[reply.task.id := reply.task]
        && var t, was := reply.task, old(store.tasks)[reply.task.id];
           && was.status.Pending?
           && t.url == e.url && t.request == e.request && t.executeAt == e.executeAt && t.schedule == e.schedule
           && t.retries == e.retries && t.retryInterval == e.retryInterval && t.retryMode == e.retryMode
           && t.onFailureUrl == e.onFailureUrl
           && t.idempotencyKey == was.idempotencyKey && t.status == was.status && t.attempts == was.attempts
           && t.finishedAt == was.finishedAt
      ensures ColonFree(id) && id != "" ==>
        && (reply.Done? <==> id in old(store.tasks) && old(store.tasks)[id].status.Pending?)
        && (reply.Conflict? <==> id in old(store.tasks) && !old(store.tasks)[id].status.Pending?)
        && (reply.Done? ==> reply.task.id == id)
    {
      if id == "" {
        return Missing;
      }
      var task := store.GetTask(id);
      if task.None? {
        NothingEndsIn(store.db.rows, store.tasks, id);
        return NotFound;
      }
      IdsMatch(store.db.rows, store.tasks, task.value);
      if !task.value.status.Pending? {
        return Conflict;
      }
      var t := Edited(task.value, e);
      store.Update(t);
      return Done(t);
    }

    /** Re-arms a finished task: same id, same attempts, due now. */
    method ReplayTask(id: Id, now: Time) returns (reply: Reply)
      requires store.Valid()
      modifies store
      ensures store.Valid() && AnswersText(Replay, id, now, old(store.tasks), reply, store.tasks)
      ensures !reply.Done? ==> store.tasks == old(store.tasks)
      ensures reply.Done? ==>
        && reply.task.id in old(store.tasks) && store.tasks == old(store.tasks)[reply.task.id := reply.task]
        && var t, was := reply.task, old(store.tasks)[reply.task.id];
           && (was.status.Succeeded? || was.status.Failed? || was.status.Cancelled?)
           && t.status.Pending? && t.executeAt == now && t.finishedAt.None? && t.attempts == was.attempts
           && t == was.(status := t.status, executeAt := t.executeAt, finishedAt := t.finishedAt)
      ensures ColonFree(id) && id != "" ==>
        && (reply.Done? <==> id in old(store.tasks) && !(old(store.tasks)[id].status.Pending? || old(store.tasks)[id].status.Running?))
        && (reply.NotFound? <==> id !in old(store.tasks))
        && (reply.Done? ==> reply.task.id == id)
    {
      if id == "" {
        return Missing;
      }
      var task := store.GetTask(id);
      if task.None? {
        NothingEndsIn(store.db.rows, store.tasks, id);
        return NotFound;
      }
      IdsMatch(store.db.rows, store.tasks, task.value);
      if !task.value.status.IsTerminal() {
        return Conflict;
      }
      var t := task.value.(status := Pending, executeAt := now, finishedAt := None);
      store.Update(t);
      return Done(t);
    }

    /** Cancels a task that is not finished; a finished one is left as it is, without complaint. */
    method DeleteTask(id: Id, now: Time) returns (reply: Reply)
      requires store.Valid()
      modifies store
      ensures store.Valid() && AnswersText(Cancel, id, now, old(store.tasks), reply, store.tasks)
      ensures !reply.Done? ==> store.tasks == old(store.tasks)
      ensures reply.Done? ==>
        && reply.task.id in old(store.tasks) && store.tasks == old(store.tasks)[reply.task.id := reply.task]
        && var t, was := reply.task, old(store.tasks)[reply.task.id];
           if was.status.Pending? || was.status.Running?
           then t.status.Cancelled? && t.finishedAt == Some(now) && t == was.(status := t.status, finishedAt := t.finishedAt)
           else t == was
      ensures ColonFree(id) && id != "" ==> (reply.Done? <==> id in old(store.tasks)) && (reply.Done? ==> reply.task.id == id)
    {
      if id == "" {
        return Missing;
      }
      var task := store.GetTask(id);
      if task.None? {
        NothingEndsIn(store.db.rows, store.tasks, id);
        return NotFound;
      }
      var t := task.value;
      IdsMatch(store.db.rows, store.tasks, t);
      if !t.status.IsTerminal() {
        t := t.(status := Cancelled, finishedAt := Some(now));
        store.Update(t);
      }
      return Done(t);
    }
  }

  /**
   The handlers agree with the atomic requests of the step-by-step model. A request that does not fit the
   task's status changes nothing; cancelling a finished task is not even refused.
   */
  predicate Answers(op: Op, id: Id, now: Time, before: Store, reply: Reply, after: Store) {
    if id !in before then reply == NotFound && after == before
    else if !Admits(op, before[id]) then reply == (if op.Cancel? then Done(before[id]) else Conflict) && after == before
    else reply == Done(Applied(op, before[id], now)) && after == before[id := Applied(op, before[id], now)]
  }

  predicate EndsIn(store: Store, id: Id, text: string) {
    id in store && HasSuffix(TaskKey(store[id]), ":" + text)
  }

  /** The same for any text in place of an id: it stands for some task whose key ends in it. */
  ghost predicate AnswersText(op: Op, text: string, now: Time, before: Store, reply: Reply, after: Store) {
    if text == "" then reply == Missing && after == before
    else if reply.NotFound? then after == before && forall id :: !EndsIn(before, id, text)
    else exists id :: EndsIn(before, id, text) && Answers(op, id, now, before, reply, after)
  }

  /** A text without a colon stands for the task of that id and for no other. */
  lemma TextIsId(v: View, op: Op, text: string, now: Time, before: Store, reply: Reply, after: Store)
    requires Represents(v, before) && ColonFree(text) && text != "" && AnswersText(op, text, now, before, reply, after)
    ensures Answers(op, text, now, before, reply, after)
  {
    forall id | id in before
      ensures EndsIn(before, id, text) <==> id == text
    {
      assert TaskKey(before[id]) in v;
      SuffixIsId(before[id], text);
    }
  }

  lemma NothingEndsIn(v: View, m: Store, text: string)
    requires Represents(v, m) && forall k :: k in v ==> !HasSuffix(k, ":" + text)
    ensures forall id :: !EndsIn(m, id, text)
  {
  }

  lemma IdsMatch(v: View, m: Store, t: Task)
    requires Represents(v, m) && t.id in m && m[t.id] == t
    ensures ColonFree(t.id)
    ensures forall id :: id in m ==> m[id].id == id
    ensures forall text :: HasSuffix(TaskKey(t), ":" + text) ==> EndsIn(m, t.id, text)
  {
    assert TaskKey(t) in v;
  }
}
