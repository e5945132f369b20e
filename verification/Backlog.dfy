/** Draining a backlog: successive due batches, each of which leaves the pending partition. */
module Backlog {
  import opened Tasks
  import opened ByteOrder
  import opened Keys
  import opened Selection
  import opened Rows
  import opened Batches

  /** Nothing is left after n batches exactly when n is at least ceil(size / limit). */
  lemma DrainCount(left: seq<set<string>>, limit: int, batches: seq<seq<string>>, n: nat)
    requires IsDrain(left, limit, batches) && n <= |batches|
    ensures left[n] == {} <==> (|left[0]| + limit - 1) / limit <= n
  {
    DrainedSoFar(left, limit, batches, n);
    DrainedWhen(left[0], Joined(batches, n), left[n], n * limit);
    CeilingDivision(|left[0]|, limit, n);
  }

  lemma DrainContents(left: seq<set<string>>, limit: int, batches: seq<seq<string>>, n: nat)
    requires IsDrain(left, limit, batches) && n <= |batches|
    ensures Sorted(Joined(batches, n)) && Elems(Joined(batches, n)) <= left[0]
    ensures left[n] == {} ==> Elems(Joined(batches, n)) == left[0]
  {
    DrainedSoFar(left, limit, batches, n);
    DrainedWhen(left[0], Joined(batches, n), left[n], n * limit);
  }

  lemma DrainedWhen(s: set<string>, out: seq<string>, rest: set<string>, taken: int)
    requires DrainedTo(s, out, rest, taken)
    ensures rest == {} <==> |s| <= taken
    ensures rest == {} ==> Elems(out) == s
  {
    assert rest == {} <==> |rest| == 0;
  }

  lemma CeilingDivision(size: nat, limit: int, n: nat)
    requires limit >= 1
    ensures (size + limit - 1) / limit <= n <==> size <= n * limit
  {
    var q, r := (size + limit - 1) / limit, (size + limit - 1) % limit;
    assert size + limit - 1 == q * limit + r;
    if q <= n {
      assert q * limit <= n * limit;
    } else {
      assert (n + 1) * limit <= q * limit;
      assert (n + 1) * limit == n * limit + limit;
    }
  }

  /** The due keys a scan returns are ordered by second, then by id. */
  lemma DueOrder(v: View, second: int, keys: seq<string>, n: int, i: nat, j: nat)
    requires WellKeyed(v) && InCalendar(v) && Smallest(keys, Due(v, second), n) && i < j < |keys|
    ensures keys[i] in v && keys[j] in v
    ensures var t, u := v[keys[i]], v[keys[j]];
            Unix(t.executeAt) < Unix(u.executeAt) || (Unix(t.executeAt) == Unix(u.executeAt) && Less(t.id, u.id))
  {
    assert keys[i] in Elems(keys) && keys[j] in Elems(keys);
    PartitionOrder(v[keys[i]], v[keys[j]]);
  }

  // ---- one scan, over ids

  /** The tasks that one scan up to `end` may return: pending, and due in an earlier second. */
  ghost function DueIds(m: map<Id, Task>, end: Time): set<Id> {
    set id | id in m && m[id].status.Pending? && Unix(m[id].executeAt) < Unix(end)
  }

  /** `due` is n of them as stored, or all if there are no more, and none of the rest is due in an earlier second. */
  ghost predicate OldestDue(m: map<Id, Task>, end: Time, n: nat, due: seq<Task>) {
    && |due| == Min(n, |DueIds(m, end)|)
    && (forall i :: 0 <= i < |due| ==> due[i].id in DueIds(m, end) && m[due[i].id] == due[i])
    && (forall i, j :: 0 <= i < j < |due| ==> due[i].id != due[j].id && Unix(due[i].executeAt) <= Unix(due[j].executeAt))
    && (forall t, id :: t in due && id in DueIds(m, end) && m[id] !in due ==> Unix(t.executeAt) <= Unix(m[id].executeAt))
  }

  lemma DueKeysAreIds(v: View, m: map<Id, Task>, end: Time)
    requires Represents(v, m)
    ensures Due(v, Unix(end)) == KeysOfIds(m, DueIds(m, end)) && |Due(v, Unix(end))| == |DueIds(m, end)|
  {
    forall k | k in Due(v, Unix(end))
      ensures k in KeysOfIds(m, DueIds(m, end))
    {
      assert v[k].id in DueIds(m, end) && TaskKey(m[v[k].id]) == k;
    }
    OneKeyEach(v, m, DueIds(m, end));
  }

  lemma ScannedIsDue(v: View, m: map<Id, Task>, end: Time, n: nat, due: seq<Task>, i: nat)
    requires Represents(v, m) && IsDueScan(v, Unix(end), n, due) && i < |due|
    ensures due[i].id in DueIds(m, end) && m[due[i].id] == due[i]
  {
    assert TaskKeys(due)[i] in Elems(TaskKeys(due));
  }

  lemma ScannedInOrder(v: View, m: map<Id, Task>, end: Time, n: nat, due: seq<Task>, i: nat, j: nat)
    requires Represents(v, m) && InCalendar(v) && IsDueScan(v, Unix(end), n, due) && i < j < |due|
    ensures due[i].id != due[j].id && Unix(due[i].executeAt) <= Unix(due[j].executeAt)
  {
    DueOrder(v, Unix(end), TaskKeys(due), n, i, j);
    if due[i].id == due[j].id {
      OneRowPerId(v, m, TaskKey(due[i]), TaskKey(due[j]));
      SortedOnce(TaskKeys(due), i, j);
    }
  }

  lemma NotScanned(v: View, m: map<Id, Task>, end: Time, n: nat, due: seq<Task>, id: Id)
    requires Represents(v, m) && IsDueScan(v, Unix(end), n, due) && id in m
    ensures TaskKey(m[id]) in TaskKeys(due) ==> m[id] in due
  {
    if TaskKey(m[id]) in TaskKeys(due) {
      var j :| 0 <= j < |due| && TaskKeys(due)[j] == TaskKey(m[id]);
      assert due[j] == m[id];
    }
  }

  lemma NoneLeftEarlier(v: View, m: map<Id, Task>, end: Time, n: nat, due: seq<Task>, t: Task, id: Id)
    requires Represents(v, m) && InCalendar(v) && IsDueScan(v, Unix(end), n, due)
    requires t in due && id in DueIds(m, end) && m[id] !in due
    ensures Unix(t.executeAt) <= Unix(m[id].executeAt)
  {
    var keys, k := TaskKeys(due), TaskKey(m[id]);
    var i :| 0 <= i < |due| && due[i] == t;
    assert keys[i] in keys && keys[i] in Elems(keys);
    NotScanned(v, m, end, n, due, id);
    DueKeysAreIds(v, m, end);
    assert Less(keys[i], k);
    PartitionOrder(t, m[id]);
  }

  /** The keyed scan, told in terms of the tasks alone. */
  lemma ScanIsOldestDue(v: View, m: map<Id, Task>, end: Time, n: nat, due: seq<Task>)
    requires Represents(v, m) && InCalendar(v) && IsDueScan(v, Unix(end), n, due)
    ensures OldestDue(m, end, n, due)
  {
    DueKeysAreIds(v, m, end);
    forall i | 0 <= i < |due|
      ensures due[i].id in DueIds(m, end) && m[due[i].id] == due[i]
    {
      ScannedIsDue(v, m, end, n, due, i);
    }
    forall i, j | 0 <= i < j < |due|
      ensures due[i].id != due[j].id && Unix(due[i].executeAt) <= Unix(due[j].executeAt)
    {
      ScannedInOrder(v, m, end, n, due, i, j);
    }
    forall t, id | t in due && id in DueIds(m, end) && m[id] !in due
      ensures Unix(t.executeAt) <= Unix(m[id].executeAt)
    {
      NoneLeftEarlier(v, m, end, n, due, t, id);
    }
  }

  /** When the batch has room for all of them, every due task is in it. */
  lemma AllDueTaken(m: map<Id, Task>, end: Time, n: nat, due: seq<Task>, id: Id)
    requires OldestDue(m, end, n, due) && |DueIds(m, end)| <= n && id in DueIds(m, end)
    ensures m[id] in due
  {
    var ids := seq(|due|, i requires 0 <= i < |due| => due[i].id);
    var taken := set x | x in ids;
    DistinctCard(ids);
    SubsetSameSize(taken, DueIds(m, end));
    assert id in ids;
    var i :| 0 <= i < |ids| && ids[i] == id;
    assert due[i] == m[id];
  }

  lemma {:induction false} DistinctCard<T>(xs: seq<T>)
    requires forall i, j :: 0 <= i < j < |xs| ==> xs[i] != xs[j]
    ensures |set x | x in xs| == |xs|
  {
    if xs == [] {
      assert (set x | x in xs) == {};
    } else {
      var n := |xs| - 1;
      DistinctCard(xs[..n]);
      assert xs == xs[..n] + [xs[n]];
      assert (set x | x in xs) == (set x | x in xs[..n]) + {xs[n]};
    }
  }

  // ---- successive due scans of a changing store

  ghost function KeysOfScans(scans: seq<seq<Task>>): seq<seq<string>> {
    seq(|scans|, i requires 0 <= i < |scans| => TaskKeys(scans[i]))
  }

  ghost function DueSets(views: seq<View>, seconds: seq<int>): seq<set<string>>
    requires |views| == |seconds|
  {
    seq(|views|, i requires 0 <= i < |views| => Due(views[i], seconds[i]))
  }

  /** Call i read views[i] up to seconds[i]; its batch left the due set before the next call, and nothing joined it. */
  ghost predicate CallAt(views: seq<View>, seconds: seq<int>, limit: int, scans: seq<seq<Task>>, i: nat)
    requires |views| == |seconds| == |scans| + 1 && i < |scans|
  {
    && IsDueScan(views[i], seconds[i], limit, scans[i])
    && Due(views[i + 1], seconds[i + 1]) == Due(views[i], seconds[i]) - Elems(TaskKeys(scans[i]))
  }

  ghost predicate AreCalls(views: seq<View>, seconds: seq<int>, limit: int, scans: seq<seq<Task>>) {
    && limit >= 1 && |views| == |seconds| == |scans| + 1
    && forall i :: 0 <= i < |scans| ==> CallAt(views, seconds, limit, scans, i)
  }

  lemma CallsDrain(views: seq<View>, seconds: seq<int>, limit: int, scans: seq<seq<Task>>)
    requires AreCalls(views, seconds, limit, scans)
    ensures IsDrain(DueSets(views, seconds), limit, KeysOfScans(scans))
  {
    var left, batches := DueSets(views, seconds), KeysOfScans(scans);
    forall i | 0 <= i < |batches|
      ensures Smallest(batches[i], left[i], limit) && left[i + 1] == left[i] - Elems(batches[i])
    {
      assert CallAt(views, seconds, limit, scans, i);
    }
  }

  /** A backlog of due tasks is gone after ceil(size / limit) calls and not before. */
  lemma BacklogDrains(views: seq<View>, seconds: seq<int>, limit: int, scans: seq<seq<Task>>, n: nat)
    requires AreCalls(views, seconds, limit, scans) && n <= |scans|
    ensures Due(views[n], seconds[n]) == {} <==> (|Due(views[0], seconds[0])| + limit - 1) / limit <= n
  {
    CallsDrain(views, seconds, limit, scans);
    DrainCount(DueSets(views, seconds), limit, KeysOfScans(scans), n);
  }

  /** No call returns a task that another one returned, and by the time the backlog is gone all have been returned. */
  lemma BacklogReturned(views: seq<View>, seconds: seq<int>, limit: int, scans: seq<seq<Task>>, n: nat)
    requires AreCalls(views, seconds, limit, scans) && n <= |scans|
    ensures Sorted(Joined(KeysOfScans(scans), n)) && Elems(Joined(KeysOfScans(scans), n)) <= Due(views[0], seconds[0])
    ensures Due(views[n], seconds[n]) == {} ==> Elems(Joined(KeysOfScans(scans), n)) == Due(views[0], seconds[0])
  {
    CallsDrain(views, seconds, limit, scans);
    DrainContents(DueSets(views, seconds), limit, KeysOfScans(scans), n);
  }

  /** Over the whole drain, from call to call as within each, tasks come by second and then by id. */
  lemma BacklogInOrder(views: seq<View>, seconds: seq<int>, limit: int, scans: seq<seq<Task>>, n: nat, i: nat, j: nat)
    requires AreCalls(views, seconds, limit, scans) && n <= |scans| && WellKeyed(views[0]) && InCalendar(views[0])
    requires i < j < |Joined(KeysOfScans(scans), n)|
    ensures var v, keys := views[0], Joined(KeysOfScans(scans), n);
            && keys[i] in v && keys[j] in v
            && var t, u := v[keys[i]], v[keys[j]];
               Unix(t.executeAt) < Unix(u.executeAt) || (Unix(t.executeAt) == Unix(u.executeAt) && Less(t.id, u.id))
  {
    CallsDrain(views, seconds, limit, scans);
    DrainedSoFar(DueSets(views, seconds), limit, KeysOfScans(scans), n);
    DueOrder(views[0], seconds[0], Joined(KeysOfScans(scans), n), n * limit, i, j);
  }

  /** The pending tasks due at or before `end`, which is what the store's interface promises. */
  ghost function DueBy(v: View, end: Time): set<string> {
    set k | k in v && v[k].status.Pending? && v[k].executeAt <= end
  }

  /** The scan meets that promise exactly when no pending task due by `end` lies in `end`'s own second. */
  lemma DueWindow(v: View, end: Time)
    ensures Due(v, Unix(end)) <= DueBy(v, end)
    ensures Due(v, Unix(end)) == DueBy(v, end) <==> forall k :: k in DueBy(v, end) ==> Unix(v[k].executeAt) != Unix(end)
  {
    forall k | k in v
      ensures v[k].executeAt <= end ==> Unix(v[k].executeAt) <= Unix(end)
      ensures Unix(v[k].executeAt) < Unix(end) ==> v[k].executeAt <= end
    {
    }
    if Due(v, Unix(end)) == DueBy(v, end) {
      forall k | k in DueBy(v, end)
        ensures Unix(v[k].executeAt) != Unix(end)
      {
        assert k in Due(v, Unix(end));
      }
    }
  }

  /** A task due in the very second of `end` is missed, although the backlog gauge already counts it. */
  lemma SameSecondIsMissed(v: View, k: string, end: Time)
    requires k in v && v[k].status.Pending? && Unix(v[k].executeAt) == Unix(end)
    ensures k !in Due(v, Unix(end)) && k in Overdue(v, Unix(end))
  {
  }
}
