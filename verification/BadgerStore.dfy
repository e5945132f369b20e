/** The persistent store: every operation is one transaction over the ordered rows. */
module Storage {
  import opened Tasks
  import opened ByteOrder
  import opened Keys
  import opened Selection
  import opened Rows
  import opened Scans

  function Without(txn: Db, keys: set<string>): Db {
    Db(txn.rows - keys, txn.expiry - keys)
  }

  /** What recovery does to a task. */
  function Requeued(t: Task): Task {
    if t.status.Running? then t.(status := Pending) else t
  }

  datatype Counts = Counts(byStatus: map<string, int>, overdue: int)

  /** But for this row, what expires when is the same. */
  ghost predicate SameExpiry(a: map<string, int>, b: map<string, int>, except: string) {
    forall k :: k != except ==> (k in a <==> k in b) && (k in a ==> a[k] == b[k])
  }

  // ---- lookups by id

  ghost predicate NoneEndsIn(ks: seq<string>, suffix: string) {
    forall k :: k in ks ==> !HasSuffix(k, suffix)
  }

  lemma NextMisses(ks: seq<string>, i: nat, suffix: string)
    requires i < |ks| && NoneEndsIn(ks[..i], suffix) && !HasSuffix(ks[i], suffix)
    ensures NoneEndsIn(ks[..i + 1], suffix)
  {
    assert ks[..i + 1] == ks[..i] + [ks[i]];
  }

  lemma FoundById(v: View, m: map<Id, Task>, id: Id, k: string)
    requires Represents(v, m) && k in v && HasSuffix(k, ":" + id)
    ensures ColonFree(id) ==> v[k].id == id && id in m
  {
    if ColonFree(id) {
      SuffixIsId(v[k], id);
    }
  }

  lemma NotFoundById(v: View, m: map<Id, Task>, id: Id, ks: seq<string>)
    requires Represents(v, m) && Elems(ks) == v.Keys
    requires NoneEndsIn(ks, ":" + id)
    ensures forall k :: k in v ==> !HasSuffix(k, ":" + id)
    ensures ColonFree(id) ==> id !in m
  {
    forall k | k in v
      ensures !HasSuffix(k, ":" + id)
    {
      assert k in Elems(ks);
    }
    if ColonFree(id) && id in m {
      SuffixIsId(m[id], id);
    }
  }

  /** Removing the row an id was found under and writing the task back is an upsert. */
  lemma RowRelocated(v: View, m: map<Id, Task>, found: Option<string>, t: Task)
    requires Represents(v, m) && ColonFree(t.id)
    requires found.None? ==> t.id !in m
    requires found.Some? ==> found.value in v && v[found.value].id == t.id
    ensures Represents((if found.Some? then v - {found.value} else v)[TaskKey(t) := t], m[t.id := t])
  {
    var w := if found.Some? then v - {found.value} else v;
    if found.Some? {
      RowRemoved(v, m, found.value);
    } else {
      assert m - {t.id} == m;
    }
    RowInserted(w, m - {t.id}, t);
    assert (m - {t.id})[t.id := t] == m[t.id := t];
  }

  // ---- recovery

  /** `stuck` holds exactly the running tasks of `m`, each once. */
  ghost predicate ListsRunning(m: map<Id, Task>, stuck: seq<Task>) {
    && (forall i :: 0 <= i < |stuck| ==> stuck[i].id in m && m[stuck[i].id] == stuck[i] && stuck[i].status.Running?)
    && (forall id :: id in m && m[id].status.Running? ==> m[id] in stuck)
    && (forall i, j :: 0 <= i < j < |stuck| ==> stuck[i].id != stuck[j].id)
  }

  lemma StuckAreRunning(v: View, m: map<Id, Task>, ks: seq<string>)
    requires Represents(v, m) && Sorted(ks) && KeysOf(ks, v)
    requires forall k :: k in ks ==> k in v && v[k].status.Running?
    requires forall k :: k in v && v[k].status.Running? ==> k in ks
    ensures ListsRunning(m, Values(v, ks))
  {
    var stuck := Values(v, ks);
    forall i | 0 <= i < |stuck|
      ensures stuck[i].id in m && m[stuck[i].id] == stuck[i] && stuck[i].status.Running?
    {
      assert ks[i] in ks;
    }
    forall id | id in m && m[id].status.Running?
      ensures m[id] in stuck
    {
      var k := TaskKey(m[id]);
      assert k in v && v[k] == m[id];
      var i :| 0 <= i < |ks| && ks[i] == k;
      assert stuck[i] == v[k];
    }
    forall i, j | 0 <= i < j < |stuck|
      ensures stuck[i].id != stuck[j].id
    {
      if stuck[i].id == stuck[j].id {
        OneRowPerId(v, m, ks[i], ks[j]);
        SortedOnce(ks, i, j);
      }
    }
  }

  /** `m` after the first i stuck tasks were put back to pending. */
  ghost predicate SweptTo(before: map<Id, Task>, m: map<Id, Task>, stuck: seq<Task>, i: nat)
    requires i <= |stuck|
  {
    && m.Keys == before.Keys
    && (forall j :: i <= j < |stuck| ==> stuck[j].id in m && m[stuck[j].id] == stuck[j])
    && (forall j :: 0 <= j < i ==> stuck[j].id in m && m[stuck[j].id] == stuck[j].(status := Pending))
    && (forall id :: id in before && !before[id].status.Running? ==> m[id] == before[id])
  }

  lemma SweepOne(before: map<Id, Task>, m: map<Id, Task>, stuck: seq<Task>, i: nat)
    requires ListsRunning(before, stuck) && i < |stuck| && SweptTo(before, m, stuck, i)
    ensures SweptTo(before, m[stuck[i].id := stuck[i].(status := Pending)], stuck, i + 1)
  {
    var t := stuck[i];
    var n := m[t.id := t.(status := Pending)];
    assert t.id in m;
    assert n.Keys == m.Keys + {t.id} == before.Keys;
  }

  lemma SweptAll(before: map<Id, Task>, m: map<Id, Task>, stuck: seq<Task>)
    requires ListsRunning(before, stuck) && SweptTo(before, m, stuck, |stuck|)
    requires forall id :: id in before ==> before[id].id == id
    ensures m == map id | id in before :: Requeued(before[id])
  {
    forall id | id in before
      ensures id in m && m[id] == Requeued(before[id])
    {
      assert id in m.Keys;
      if before[id].status.Running? {
        var j :| 0 <= j < |stuck| && stuck[j] == before[id];
        assert m[stuck[j].id] == stuck[j].(status := Pending);
      }
    }
    forall id | id in m
      ensures id in before
    {
      assert id in m.Keys;
    }
  }

  // ---- bulk deletion

  /** What a bulk delete leaves. */
  ghost function Kept(m: map<Id, Task>, f: ListFilter): map<Id, Task> {
    map id | id in m && !DeleteMatches(f, m[id]) :: m[id]
  }

  /** A task is left exactly when it fails one of the criteria: the bounds delete strictly before and strictly after. */
  lemma KeptAre(m: map<Id, Task>, f: ListFilter)
    ensures Kept(m, f).Keys <= m.Keys && forall id :: id in Kept(m, f) ==> Kept(m, f)[id] == m[id]
    ensures forall id :: id in m ==>
      (id in Kept(m, f) <==>
         || (f.url != "" && m[id].url != f.url)
         || (f.status != "" && m[id].status.Name() != f.status)
         || (f.dueBefore.Some? && m[id].executeAt >= f.dueBefore.value)
         || (f.dueAfter.Some? && m[id].executeAt <= f.dueAfter.value))
  {
  }

  lemma RowsDeleted(v: View, m: map<Id, Task>, f: ListFilter)
    requires Represents(v, m)
    ensures Represents(v - Deletable(v, f), Kept(m, f))
  {
    var w := v - Deletable(v, f);
    var n := Kept(m, f);
    forall k | k in w
      ensures w[k].id in n && n[w[k].id] == w[k]
    {
    }
    forall id | id in n
      ensures TaskKey(n[id]) in w
    {
      assert TaskKey(m[id]) in v;
    }
  }

  lemma DeletedCount(v: View, m: map<Id, Task>, f: ListFilter)
    requires Represents(v, m)
    ensures |Deletable(v, f)| == |m| - |Kept(m, f)|
  {
    var rest := Kept(m, f);
    RowsDeleted(v, m, f);
    RowsAreTasks(v, m);
    RowsAreTasks(v - Deletable(v, f), rest);
    assert (v - Deletable(v, f)).Keys == v.Keys - Deletable(v, f) && Deletable(v, f) <= v.Keys;
    assert |v| == |v.Keys| && |v - Deletable(v, f)| == |(v - Deletable(v, f)).Keys|;
  }

  // ---- listing

  /** What the listing loop has collected from the first i scanned keys. */
  ghost predicate PagedUpTo(v: View, wanted: set<string>, ks: seq<string>, i: nat, found: seq<Task>, lastKey: string)
    requires i <= |ks|
  {
    var keys := Select(ks[..i], wanted);
    KeysOf(keys, v) && found == Values(v, keys) && lastKey == LastOf(keys)
  }

  lemma PageNext(v: View, wanted: set<string>, ks: seq<string>, i: nat, found: seq<Task>, lastKey: string)
    requires i < |ks| && ks[i] in v && PagedUpTo(v, wanted, ks, i, found, lastKey)
    ensures if ks[i] in wanted then PagedUpTo(v, wanted, ks, i + 1, found + [v[ks[i]]], ks[i])
            else PagedUpTo(v, wanted, ks, i + 1, found, lastKey)
  {
    SelectNext(ks, i, wanted);
    ValuesAppend(v, Select(ks[..i], wanted), ks[i]);
  }

  ghost predicate IsStatusName(name: string) {
    exists s: Status :: s.Name() == name
  }

  /** What is on a page matches the filter, status included; and a first page without a next one holds every match. */
  lemma PageMatches(v: View, m: map<Id, Task>, f: ListFilter, after: string, limit: int, keys: seq<string>, next: Cursor)
    requires Represents(v, m) && IsPage(v, f, after, limit, keys, next) && KeysOf(keys, v)
    ensures forall t :: t in Values(v, keys) ==> t.id in m && m[t.id] == t && ValueMatches(f, t)
    ensures IsStatusName(f.status) ==> forall t :: t in Values(v, keys) ==> t.status.Name() == f.status
    ensures after == "" && next.NoCursor? && (f.status == "" || IsStatusName(f.status)) ==>
      forall id :: id in m && DeleteMatches(f, m[id]) ==> m[id] in Values(v, keys)
  {
    forall t | t in Values(v, keys)
      ensures t.id in m && m[t.id] == t && ValueMatches(f, t) && (IsStatusName(f.status) ==> t.status.Name() == f.status)
    {
      var i :| 0 <= i < |keys| && Values(v, keys)[i] == t;
      assert keys[i] in Elems(keys);
      if IsStatusName(f.status) {
        OfListedStatus(f, t);
      }
    }
    if after == "" && next.NoCursor? && (f.status == "" || IsStatusName(f.status)) {
      ListingIsDeletion(v, f);
      SmallestAll(keys, Listed(v, f, after), limit);
      forall id | id in m && DeleteMatches(f, m[id])
        ensures m[id] in Values(v, keys)
      {
        assert TaskKey(m[id]) in Elems(keys);
        var i :| 0 <= i < |keys| && keys[i] == TaskKey(m[id]);
        assert Values(v, keys)[i] == m[id];
      }
    }
  }

  lemma OfListedStatus(f: ListFilter, t: Task)
    requires IsStatusName(f.status)
    ensures PrefixOf(f) <= TaskKey(t) <==> t.status.Name() == f.status
  {
    var s: Status :| s.Name() == f.status;
    assert f.status != "";
    PartitionPrefix(s, t);
    NamesDistinct(s, t.status);
  }

  class BadgerStore {
    var db: Db
    const ttl: int

    /** The plain map from ids to tasks that the rows stand in for. */
    ghost var tasks: map<Id, Task>

    ghost predicate Valid()
      reads this
    {
      Represents(db.rows, tasks) && LiveKept(db)
    }

    constructor (ttl: int)
      ensures Valid() && tasks == map[] && this.ttl == ttl
    {
      this.ttl := ttl;
      db := Db(map[], map[]);
      tasks := map[];
    }

    /** The write of one entry: only finished tasks get a time to live. */
    function Put(txn: Db, t: Task): Db {
      var k := TaskKey(t);
      Db(txn.rows[k := t], if t.status.IsTerminal() && ttl > 0 then txn.expiry[k := ttl] else txn.expiry - {k})
    }

    /** A write gives a finished row the store's time to live, takes any from an unfinished one, and no other row's changes. */
    lemma PutKeepsLive(txn: Db, t: Task)
      requires LiveKept(txn)
      ensures LiveKept(Put(txn, t))
      ensures TaskKey(t) in Put(txn, t).expiry <==>
        ttl > 0 && (t.status.Succeeded? || t.status.Failed? || t.status.Cancelled?)
      ensures TaskKey(t) in Put(txn, t).expiry ==> Put(txn, t).expiry[TaskKey(t)] == ttl
      ensures SameExpiry(Put(txn, t).expiry, txn.expiry, TaskKey(t))
    {
    }

    method FindKey(txn: Db, id: Id, ghost m: map<Id, Task>) returns (key: Option<string>)
      requires Represents(txn.rows, m)
      ensures key.None? ==> forall k :: k in txn.rows ==> !HasSuffix(k, ":" + id)
      ensures key.Some? ==> key.value in txn.rows && HasSuffix(key.value, ":" + id)
      ensures ColonFree(id) ==> (key.Some? <==> id in m)
      ensures ColonFree(id) && key.Some? ==> txn.rows[key.value].id == id
    {
      var ks := Scan(txn.rows.Keys, KEY_PREFIX, KEY_PREFIX);
      AllScanned(txn.rows, ks);
      var suffix := ":" + id;
      for i := 0 to |ks|
        invariant NoneEndsIn(ks[..i], suffix)
      {
        var k := ks[i];
        if HasSuffix(k, suffix) {
          FoundById(txn.rows, m, id, k);
          return Some(k);
        }
        NextMisses(ks, i, suffix);
      }
      assert ks[..|ks|] == ks;
      NotFoundById(txn.rows, m, id, ks);
      return None;
    }

    /** Creates a task in the pending partition. Callers pass a fresh id. */
    method Save(t: Task)
      requires Valid() && ColonFree(t.id) && t.id !in tasks
      modifies this
      ensures Valid() && tasks == old(tasks)[t.id := t.(status := Pending)]
      ensures TaskKey(t.(status := Pending)) !in db.expiry
      ensures SameExpiry(db.expiry, old(db.expiry), TaskKey(t.(status := Pending)))
    {
      var task := t.(status := Pending);
      RowInserted(db.rows, tasks, task);
      PutKeepsLive(db, task);
      db := Put(db, task);
      tasks := tasks[t.id := task];
    }

    /** Writes the task under the key of its current status, wherever it was before. */
    method Update(t: Task)
      requires Valid() && ColonFree(t.id)
      modifies this
      ensures Valid() && tasks == old(tasks)[t.id := t]
      ensures TaskKey(t) in db.expiry <==> ttl > 0 && (t.status.Succeeded? || t.status.Failed? || t.status.Cancelled?)
      ensures TaskKey(t) in db.expiry ==> db.expiry[TaskKey(t)] == ttl
      ensures forall k :: k in db.rows && k != TaskKey(t) ==>
        (k in db.expiry <==> k in old(db.expiry)) && (k in db.expiry ==> db.expiry[k] == old(db.expiry)[k])
    {
      var found := FindKey(db, t.id, tasks);
      var txn := db;
      if found.Some? {
        txn := Without(txn, {found.value});
      }
      RowRelocated(db.rows, tasks, found, t);
      PutKeepsLive(txn, t);
      db := Put(txn, t);
      tasks := tasks[t.id := t];
    }

    method Delete(id: Id)
      requires Valid() && ColonFree(id)
      modifies this
      ensures Valid() && tasks == old(tasks) - {id}
    {
      var found := FindKey(db, id, tasks);
      if found.Some? {
        RowRemoved(db.rows, tasks, found.value);
        db := Without(db, {found.value});
      } else {
        assert tasks - {id} == tasks;
      }
      tasks := tasks - {id};
    }

    /** Looks a task up by the suffix of its key, whatever text the caller passes as an id. */
    method GetTask(id: Id) returns (r: Option<Task>)
      requires Valid()
      ensures ColonFree(id) ==> r == if id in tasks then Some(tasks[id]) else None
      ensures r.Some? <==> exists k :: k in db.rows && HasSuffix(k, ":" + id)
      ensures r.Some? ==> HasSuffix(TaskKey(r.value), ":" + id) && r.value.id in tasks && tasks[r.value.id] == r.value
    {
      var found := FindKey(db, id, tasks);
      if found.None? {
        return None;
      }
      return Some(db.rows[found.value]);
    }

    /** The database drops a row whose time to live has run out. */
    method Expire(key: string)
      requires Valid() && key in db.expiry
      modifies this
      ensures Valid() && key in old(db.rows) && old(db.rows[key]).status.IsTerminal()
      ensures tasks == old(tasks) - {old(db.rows[key]).id}
    {
      RowRemoved(db.rows, tasks, key);
      tasks := tasks - {db.rows[key].id};
      db := Without(db, {key});
    }

    /** The first pending tasks, oldest first, whose second lies strictly before `end`'s. */
    method GetDueTasks(end: Time, limit: int) returns (due: seq<Task>)
      requires Valid() && InCalendar(db.rows) && SecondOk(Unix(end))
      ensures IsDueScan(db.rows, Unix(end), DueLimit(limit), due)
    {
      var bound := DueLimit(limit);
      var pfx := StatusPrefix(Pending.Name());
      var endKey := pfx + Pad16(Unix(end));
      var ks := Scan(db.rows.Keys, pfx, pfx);
      ghost var wanted := Due(db.rows, Unix(end));
      PendingScanned(db.rows, ks, Unix(end));
      due := [];
      var i := 0;
      while i < |ks|
        invariant i <= |ks|
        invariant |Select(ks[..i], wanted)| <= bound
        invariant KeysOf(Select(ks[..i], wanted), db.rows)
        invariant due == Values(db.rows, Select(ks[..i], wanted))
      {
        var key := ks[i];
        if Less(endKey, key) {
          RestPast(ks, i, endKey);
          break;
        }
        if |due| == bound {
          break;
        }
        ValuesAppend(db.rows, Select(ks[..i], wanted), key);
        SelectNext(ks, i, wanted);
        due := due + [db.rows[key]];
        i := i + 1;
      }
      ScanFindsSmallest(ks, i, wanted, bound);
      DueScanned(db.rows, Unix(end), bound, Select(ks[..i], wanted));
    }

    /** One page of the listing, in key order, starting after the cursor's key. */
    method ListTasks(f: ListFilter, cursor: Cursor, limit: int) returns (page: Page, ghost keys: seq<string>)
      requires Valid()
      ensures page.InvalidCursor? <==> !Accepts(f, cursor)
      ensures page.Page? ==> IsPage(db.rows, f, CursorKey(cursor), PageLimit(limit), keys, page.next) && KeysOf(keys, db.rows)
      ensures page.Page? ==> page.tasks == Values(db.rows, keys)
      ensures page.Page? ==> forall t :: t in page.tasks ==>
        && t.id in tasks && tasks[t.id] == t
        && (f.url != "" ==> t.url == f.url)
        && (f.dueBefore.Some? ==> t.executeAt < f.dueBefore.value)
        && (f.dueAfter.Some? ==> t.executeAt > f.dueAfter.value)
        && (IsStatusName(f.status) ==> t.status.Name() == f.status)
      ensures page.Page? && cursor.NoCursor? && page.next.NoCursor? && (f.status == "" || IsStatusName(f.status)) ==>
        forall id :: id in tasks
          && (f.url == "" || tasks[id].url == f.url)
          && (f.dueBefore.None? || tasks[id].executeAt < f.dueBefore.value)
          && (f.dueAfter.None? || tasks[id].executeAt > f.dueAfter.value)
          && (f.status == "" || tasks[id].status.Name() == f.status)
          ==> tasks[id] in page.tasks
    {
      var bound := PageLimit(limit);
      var prefix := PrefixOf(f);
      var start := prefix;
      if cursor != NoCursor {
        if cursor.Undecodable? || !(prefix <= cursor.key) {
          return InvalidCursor, [];
        }
        start := cursor.key;
      }
      page, keys := PageFrom(db.rows, f, cursor, start, bound);
      PageMatches(db.rows, tasks, f, CursorKey(cursor), bound, keys, page.next);
    }

    /** The scan of the listing transaction. */
    method PageFrom(v: View, f: ListFilter, cursor: Cursor, start: string, bound: nat) returns (page: Page, ghost keys: seq<string>)
      requires Accepts(f, cursor) && bound >= 1
      requires start == if cursor.NoCursor? then PrefixOf(f) else cursor.key
      ensures page.Page? && IsPage(v, f, CursorKey(cursor), bound, keys, page.next) && KeysOf(keys, v)
      ensures page.tasks == Values(v, keys)
    {
      ghost var wanted := Listed(v, f, CursorKey(cursor));
      var ks := Scan(v.Keys, start, PrefixOf(f));
      ListingScanned(v, f, cursor, start, ks);
      var found: seq<Task> := [];
      var lastKey := "";
      assert ks[..0] == [];
      for i := 0 to |ks|
        invariant PagedUpTo(v, wanted, ks, i, found, lastKey) && |found| <= bound
      {
        var key := ks[i];
        PageNext(v, wanted, ks, i, found, lastKey);
        if cursor != NoCursor && key == start {
          continue;
        }
        if !ValueMatches(f, v[key]) {
          continue;
        }
        if |found| == bound {
          keys := Select(ks[..i], wanted);
          ScanFindsSmallest(ks, i, wanted, bound);
          MoreRemains(ks, i, wanted);
          return Page(found, At(lastKey)), keys;
        }
        found := found + [v[key]];
        lastKey := key;
      }
      keys := Select(ks[..|ks|], wanted);
      ScanFindsSmallest(ks, |ks|, wanted, bound);
      NothingRemains(ks, wanted);
      return Page(found, NoCursor), keys;
    }

    /** Per-status totals and the backlog, read from the keys alone. */
    method Count(now: Time) returns (c: Counts)
      requires Valid() && forall k :: k in db.rows ==> IsInt64(Unix(db.rows[k].executeAt))
      ensures forall s: Status :: Tally(c.byStatus, s.Name()) == |OfStatus(db.rows, s)|
      ensures forall name :: name in c.byStatus ==> IsStatusName(name)
      ensures c.overdue == |Overdue(db.rows, Unix(now))|
    {
      var cutoff := Unix(now);
      var ks := Scan(db.rows.Keys, KEY_PREFIX, KEY_PREFIX);
      AllScanned(db.rows, ks);
      ghost var v := db.rows;
      var byStatus: map<string, int> := map[];
      var overdue := 0;
      for i := 0 to |ks|
        invariant TalliesUpTo(byStatus, v, ks, i)
        invariant overdue == |Select(ks[..i], Overdue(v, cutoff))|
      {
        ParseRecovers(v[ks[i]]);
        var parsed := ParseKey(ks[i]);
        if parsed.None? {
          continue;
        }
        var (status, executeAt) := parsed.value;
        TallyNext(byStatus, v, ks, i);
        SelectNext(ks, i, Overdue(v, cutoff));
        NamesDistinct(v[ks[i]].status, Pending);
        byStatus := byStatus[status := Tally(byStatus, status) + 1];
        if status == Pending.Name() && executeAt <= cutoff {
          overdue := overdue + 1;
        }
      }
      c := Counts(byStatus, overdue);
      TalliesDone(byStatus, v, ks);
      NothingRemains(ks, Overdue(v, cutoff));
    }

    /** Puts every running task back to pending. */
    method RecoverRunning()
      requires Valid()
      modifies this
      ensures Valid()
      ensures tasks.Keys == old(tasks).Keys
      ensures forall id :: id in tasks && old(tasks)[id].status.Running? ==> tasks[id] == old(tasks)[id].(status := Pending)
      ensures forall id :: id in tasks && !old(tasks)[id].status.Running? ==> tasks[id] == old(tasks)[id]
    {
      var stuck := CollectRunning(db, tasks);
      var txn, m := Requeue(db, tasks, stuck);
      db := txn;
      tasks := m;
    }

    /** The first loop of the recovery transaction. */
    method CollectRunning(txn: Db, ghost m: map<Id, Task>) returns (stuck: seq<Task>)
      requires Represents(txn.rows, m)
      ensures ListsRunning(m, stuck)
    {
      var prefix := StatusPrefix(Running.Name());
      var ks := Scan(txn.rows.Keys, prefix, prefix);
      RunningScanned(txn.rows, ks);
      stuck := ValuesOf(txn.rows, ks);
      StuckAreRunning(txn.rows, m, ks);
    }

    /** The second loop: each stuck task moves to the pending partition. */
    method Requeue(txn: Db, ghost before: map<Id, Task>, stuck: seq<Task>) returns (after: Db, ghost m: map<Id, Task>)
      requires Represents(txn.rows, before) && LiveKept(txn) && ListsRunning(before, stuck)
      ensures Represents(after.rows, m) && LiveKept(after)
      ensures m == map id | id in before :: Requeued(before[id])
    {
      after, m := txn, before;
      for i := 0 to |stuck|
        invariant Represents(after.rows, m) && LiveKept(after)
        invariant SweptTo(before, m, stuck, i)
      {
        var t := stuck[i];
        SweepOne(before, m, stuck, i);
        RowRelocated(after.rows, m, Some(TaskKey(t)), t.(status := Pending));
        PutKeepsLive(Without(after, {TaskKey(t)}), t.(status := Pending));
        after := Put(Without(after, {TaskKey(t)}), t.(status := Pending));
        m := m[t.id := t.(status := Pending)];
      }
      SweptAll(before, m, stuck);
    }

    /** Hard-deletes, in one transaction, every task the filter selects, and counts them. */
    method DeleteTasks(f: ListFilter) returns (deleted: int)
      requires Valid()
      modifies this
      ensures Valid()
      ensures db.rows == old(db.rows) - old(Deletable(db.rows, f))
      ensures deleted == |old(Deletable(db.rows, f))|
      ensures tasks.Keys <= old(tasks).Keys && forall id :: id in tasks ==> tasks[id] == old(tasks)[id]
      ensures forall id :: id in old(tasks) ==>
        (id in tasks <==>
           || (f.url != "" && old(tasks)[id].url != f.url)
           || (f.status != "" && old(tasks)[id].status.Name() != f.status)
           || (f.dueBefore.Some? && old(tasks)[id].executeAt >= f.dueBefore.value)
           || (f.dueAfter.Some? && old(tasks)[id].executeAt <= f.dueAfter.value))
      ensures deleted == |old(tasks)| - |tasks|
    {
      RowsDeleted(db.rows, tasks, f);
      DeletedCount(db.rows, tasks, f);
      KeptAre(tasks, f);
      tasks := Kept(tasks, f);
      var txn, n := DeleteMatching(db, f);
      db, deleted := txn, n;
    }

    /** The filter test of a bulk delete, one criterion at a time. */
    static method Selects(f: ListFilter, t: Task) returns (matches: bool)
      ensures matches == DeleteMatches(f, t)
    {
      matches := true;
      if f.url != "" && t.url != f.url {
        matches := false;
      }
      if f.status != "" && t.status.Name() != f.status {
        matches := false;
      }
      if f.dueBefore.Some? && !(t.executeAt < f.dueBefore.value) {
        matches := false;
      }
      if f.dueAfter.Some? && !(t.executeAt > f.dueAfter.value) {
        matches := false;
      }
    }

    /** The scan of the bulk-delete transaction. */
    method DeleteMatching(txn: Db, f: ListFilter) returns (rest: Db, deleted: int)
      requires WellKeyed(txn.rows)
      ensures rest == Without(txn, Deletable(txn.rows, f))
      ensures deleted == |Deletable(txn.rows, f)|
    {
      var ks := Scan(txn.rows.Keys, KEY_PREFIX, KEY_PREFIX);
      AllScanned(txn.rows, ks);
      ghost var doomed := Deletable(txn.rows, f);
      rest, deleted := txn, 0;
      NoneDeletedYet(txn, ks, doomed);
      for i := 0 to |ks|
        invariant DeletedUpTo(txn, rest, deleted, ks, i, doomed)
      {
        DeleteNext(txn, rest, deleted, ks, i, doomed);
        var matches := Selects(f, txn.rows[ks[i]]);
        if matches {
          rest := Without(rest, {ks[i]});
          deleted := deleted + 1;
        }
      }
      AllDeleted(txn, rest, deleted, ks, doomed);
    }
  }

  ghost predicate DeletedUpTo(txn: Db, rest: Db, deleted: int, ks: seq<string>, i: nat, doomed: set<string>)
    requires i <= |ks|
  {
    deleted == |Select(ks[..i], doomed)| && rest == Without(txn, Elems(Select(ks[..i], doomed)))
  }

  lemma NoneDeletedYet(txn: Db, ks: seq<string>, doomed: set<string>)
    ensures DeletedUpTo(txn, txn, 0, ks, 0, doomed)
  {
    assert ks[..0] == [] && Elems([]) == {};
    assert txn.rows - {} == txn.rows && txn.expiry - {} == txn.expiry;
  }

  lemma DeleteNext(txn: Db, rest: Db, deleted: int, ks: seq<string>, i: nat, doomed: set<string>)
    requires i < |ks| && DeletedUpTo(txn, rest, deleted, ks, i, doomed)
    ensures DeletedUpTo(txn, if ks[i] in doomed then Without(rest, {ks[i]}) else rest,
                        if ks[i] in doomed then deleted + 1 else deleted, ks, i + 1, doomed)
  {
    SelectNext(ks, i, doomed);
    WithoutOneMore(txn, Elems(Select(ks[..i], doomed)), ks[i]);
    assert Elems(Select(ks[..i], doomed)) + {} == Elems(Select(ks[..i], doomed));
  }

  lemma AllDeleted(txn: Db, rest: Db, deleted: int, ks: seq<string>, doomed: set<string>)
    requires Sorted(ks) && doomed <= Elems(ks) && DeletedUpTo(txn, rest, deleted, ks, |ks|, doomed)
    ensures deleted == |doomed| && rest == Without(txn, doomed)
  {
    NothingRemains(ks, doomed);
    SelectElems(ks[..|ks|], doomed);
    assert ks[..|ks|] == ks && Elems(ks) * doomed == doomed;
  }

  lemma WithoutOneMore(txn: Db, gone: set<string>, k: string)
    ensures Without(Without(txn, gone), {k}) == Without(txn, gone + {k})
  {
    assert txn.rows - gone - {k} == txn.rows - (gone + {k});
    assert txn.expiry - gone - {k} == txn.expiry - (gone + {k});
  }

  // ---- tallies

  function Tally(counts: map<string, int>, name: string): int {
    if name in counts then counts[name] else 0
  }

  ghost predicate TalliesUpTo(counts: map<string, int>, v: View, ks: seq<string>, i: nat)
    requires i <= |ks|
  {
    && (forall s: Status :: Tally(counts, s.Name()) == |Select(ks[..i], OfStatus(v, s))|)
    && (forall name :: name in counts ==> IsStatusName(name))
  }

  lemma TallyNext(counts: map<string, int>, v: View, ks: seq<string>, i: nat)
    requires i < |ks| && ks[i] in v && TalliesUpTo(counts, v, ks, i)
    ensures var name := v[ks[i]].status.Name(); TalliesUpTo(counts[name := Tally(counts, name) + 1], v, ks, i + 1)
  {
    var name := v[ks[i]].status.Name();
    forall s: Status
      ensures Tally(counts[name := Tally(counts, name) + 1], s.Name()) == |Select(ks[..i + 1], OfStatus(v, s))|
    {
      NamesDistinct(s, v[ks[i]].status);
      SelectNext(ks, i, OfStatus(v, s));
    }
    assert IsStatusName(name);
  }

  lemma TalliesDone(counts: map<string, int>, v: View, ks: seq<string>)
    requires Sorted(ks) && Elems(ks) == v.Keys && TalliesUpTo(counts, v, ks, |ks|)
    ensures forall s: Status :: Tally(counts, s.Name()) == |OfStatus(v, s)|
  {
    forall s: Status
      ensures Tally(counts, s.Name()) == |OfStatus(v, s)|
    {
      NothingRemains(ks, OfStatus(v, s));
    }
  }
}
