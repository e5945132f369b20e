/** The rows of the database and what the store's queries mean on them. */
module Rows {
  import opened Tasks
  import opened ByteOrder
  import opened Keys
  import opened Selection

  /** A key-to-task view, which is all a query looks at. */
  type View = map<string, Task>

  /** The database: its rows, and the time to live of those that carry one. */
  datatype Db = Db(rows: View, expiry: map<string, int>)

  ghost predicate WellKeyed(v: View) {
    forall k :: k in v ==> k == TaskKey(v[k])
  }

  /** The keyed rows stand in for the plain map `m` from ids to tasks. */
  ghost predicate Represents(v: View, m: map<Id, Task>) {
    && (forall k :: k in v ==> k == TaskKey(v[k]) && ColonFree(v[k].id) && v[k].id in m && m[v[k].id] == v[k])
    && (forall id :: id in m ==> m[id].id == id && TaskKey(m[id]) in v && v[TaskKey(m[id])] == m[id])
  }

  /** Only finished tasks may ever expire. */
  ghost predicate LiveKept(db: Db) {
    forall k :: k in db.expiry ==> k in db.rows && db.rows[k].status.IsTerminal()
  }

  predicate SecondOk(second: int) {
    0 <= second < 10_000_000_000_000_000
  }

  ghost predicate InCalendar(v: View) {
    forall k :: k in v ==> SecondOk(Unix(v[k].executeAt))
  }

  /** Every id has at most one row. */
  lemma OneRowPerId(v: View, m: map<Id, Task>, j: string, k: string)
    requires Represents(v, m) && j in v && k in v && v[j].id == v[k].id
    ensures j == k
  {
  }

  /** A map from ids to tasks is stored in only one way, and that way determines it. */
  lemma RepresentationUnique(v: View, w: View, m: map<Id, Task>, n: map<Id, Task>)
    requires Represents(v, m) && Represents(w, n)
    ensures v == w <==> m == n
  {
    if m == n {
      forall k | k in v
        ensures k in w && w[k] == v[k]
      {
      }
      forall k | k in w
        ensures k in v
      {
      }
    }
    if v == w {
      forall id | id in m
        ensures id in n && n[id] == m[id]
      {
      }
      forall id | id in n
        ensures id in m
      {
      }
    }
  }

  lemma RowRemoved(v: View, m: map<Id, Task>, k: string)
    requires Represents(v, m) && k in v
    ensures Represents(v - {k}, m - {v[k].id})
  {
    var w, n := v - {k}, m - {v[k].id};
    forall j | j in w
      ensures w[j].id in n
    {
      if v[j].id == v[k].id {
        OneRowPerId(v, m, j, k);
      }
    }
    forall id | id in n
      ensures TaskKey(n[id]) in w
    {
    }
  }

  lemma RowInserted(v: View, m: map<Id, Task>, t: Task)
    requires Represents(v, m) && ColonFree(t.id) && t.id !in m
    ensures Represents(v[TaskKey(t) := t], m[t.id := t])
  {
    forall k | k in v
      ensures k != TaskKey(t)
    {
      if k == TaskKey(t) {
        KeyDeterminesTask(v[k], t);
      }
    }
  }

  /** Every map from ids to tasks can be stored. */
  lemma {:induction false} RepresentationExists(m: map<Id, Task>) returns (v: View)
    requires forall id :: id in m ==> m[id].id == id && ColonFree(id)
    ensures Represents(v, m)
    decreases |m|
  {
    if m == map[] {
      v := map[];
    } else {
      var id :| id in m;
      assert (m - {id}).Keys == m.Keys - {id} && |m.Keys| == |m|;
      var w := RepresentationExists(m - {id});
      RowInserted(w, m - {id}, m[id]);
      assert (m - {id})[id := m[id]] == m;
      v := w[TaskKey(m[id]) := m[id]];
    }
  }

  // ---- counting rows

  ghost function KeysOfIds(m: map<Id, Task>, ids: set<Id>): set<string>
    requires ids <= m.Keys
  {
    set id | id in ids :: TaskKey(m[id])
  }

  lemma {:induction false} OneKeyEach(v: View, m: map<Id, Task>, ids: set<Id>)
    requires Represents(v, m) && ids <= m.Keys
    ensures |KeysOfIds(m, ids)| == |ids|
  {
    if ids == {} {
      assert KeysOfIds(m, ids) == {};
    } else {
      var id :| id in ids;
      OneKeyEach(v, m, ids - {id});
      forall other | other in ids - {id}
        ensures TaskKey(m[other]) != TaskKey(m[id])
      {
        assert v[TaskKey(m[other])] == m[other] && v[TaskKey(m[id])] == m[id];
      }
      assert KeysOfIds(m, ids) == KeysOfIds(m, ids - {id}) + {TaskKey(m[id])};
    }
  }

  /** There are as many rows as tasks. */
  lemma RowsAreTasks(v: View, m: map<Id, Task>)
    requires Represents(v, m)
    ensures |v| == |m|
  {
    OneKeyEach(v, m, m.Keys);
    forall k | k in v
      ensures k in KeysOfIds(m, m.Keys)
    {
      assert TaskKey(m[v[k].id]) == k;
    }
    assert KeysOfIds(m, m.Keys) == v.Keys;
    assert |v| == |v.Keys| && |m| == |m.Keys|;
  }

  // ---- selections

  datatype ListFilter = ListFilter(status: string, url: string, dueBefore: Option<Time>, dueAfter: Option<Time>)

  datatype Cursor = NoCursor | At(key: string) | Undecodable

  datatype Page = Page(tasks: seq<Task>, next: Cursor) | InvalidCursor

  const DEFAULT_PAGE_SIZE: int := 100
  const MAX_PAGE_SIZE: int := 1000
  const MAX_DUE_BATCH: int := 1000

  function PageLimit(limit: int): (n: nat)
    ensures limit <= 0 ==> n == 100
    ensures 1 <= limit <= 1000 ==> n == limit
    ensures limit > 1000 ==> n == 1000
  {
    Min(if limit <= 0 then DEFAULT_PAGE_SIZE else limit, MAX_PAGE_SIZE)
  }

  function DueLimit(limit: int): (n: nat)
    ensures 1 <= n <= 1000
    ensures 1 <= limit <= 1000 ==> n == limit
    ensures limit <= 0 || limit > 1000 ==> n == 1000
  {
    if limit <= 0 || limit > MAX_DUE_BATCH then MAX_DUE_BATCH else limit
  }

  function PrefixOf(f: ListFilter): string {
    if f.status == "" then KEY_PREFIX else StatusPrefix(f.status)
  }

  predicate ValueMatches(f: ListFilter, t: Task) {
    && (f.url == "" || t.url == f.url)
    && (f.dueBefore.None? || t.executeAt < f.dueBefore.value)
    && (f.dueAfter.None? || t.executeAt > f.dueAfter.value)
  }

  /** The filter of a bulk delete, which reads the status from the value. */
  predicate DeleteMatches(f: ListFilter, t: Task) {
    (f.status == "" || t.status.Name() == f.status) && ValueMatches(f, t)
  }

  /** The keys a listing still has to return after `after`; the status is read from the key. */
  ghost function Listed(v: View, f: ListFilter, after: string): set<string> {
    set k | k in v && PrefixOf(f) <= k && Less(after, k) && ValueMatches(f, v[k])
  }

  ghost function Deletable(v: View, f: ListFilter): set<string> {
    set k | k in v && DeleteMatches(f, v[k])
  }

  ghost function Due(v: View, second: int): set<string> {
    set k | k in v && v[k].status.Pending? && Unix(v[k].executeAt) < second
  }

  ghost function OfStatus(v: View, s: Status): set<string> {
    set k | k in v && v[k].status == s
  }

  ghost function Overdue(v: View, second: int): set<string> {
    set k | k in v && v[k].status.Pending? && Unix(v[k].executeAt) <= second
  }

  function CursorKey(c: Cursor): string
    requires !c.Undecodable?
  {
    if c.NoCursor? then "" else c.key
  }

  predicate Accepts(f: ListFilter, c: Cursor) {
    match c
    case NoCursor => true
    case At(k) => PrefixOf(f) <= k
    case Undecodable => false
  }

  function LastOf(keys: seq<string>): string {
    if keys == [] then "" else keys[|keys| - 1]
  }

  /** `keys` is one page after `after`, and `next` says whether, and from where, another follows. */
  ghost predicate IsPage(v: View, f: ListFilter, after: string, limit: int, keys: seq<string>, next: Cursor) {
    && limit >= 1
    && var s := Listed(v, f, after);
       && Smallest(keys, s, limit)
       && next == if |s| > limit then At(LastOf(keys)) else NoCursor
  }

  ghost predicate KeysOf(keys: seq<string>, v: View) {
    forall i :: 0 <= i < |keys| ==> keys[i] in v
  }

  function Values(v: View, keys: seq<string>): (r: seq<Task>)
    requires KeysOf(keys, v)
    ensures |r| == |keys|
  {
    seq(|keys|, i requires 0 <= i < |keys| => v[keys[i]])
  }

  function TaskKeys(ts: seq<Task>): (ks: seq<string>)
    ensures |ks| == |ts|
  {
    seq(|ts|, i requires 0 <= i < |ts| => TaskKey(ts[i]))
  }

  /** `due` is the first n pending tasks, by key, whose second lies strictly before `second`, as stored. */
  ghost predicate IsDueScan(v: View, second: int, n: int, due: seq<Task>) {
    && Smallest(TaskKeys(due), Due(v, second), n)
    && forall i :: 0 <= i < |due| ==> TaskKey(due[i]) in v && v[TaskKey(due[i])] == due[i]
  }

  lemma DueScanned(v: View, second: int, n: int, keys: seq<string>)
    requires WellKeyed(v) && KeysOf(keys, v) && Smallest(keys, Due(v, second), n)
    ensures IsDueScan(v, second, n, Values(v, keys))
  {
    assert TaskKeys(Values(v, keys)) == keys;
  }

  /** Decoding the rows of a scan, in its order. */
  method ValuesOf(v: View, keys: seq<string>) returns (r: seq<Task>)
    requires KeysOf(keys, v)
    ensures r == Values(v, keys)
  {
    r := [];
    for i := 0 to |keys|
      invariant |r| == i && forall j :: 0 <= j < i ==> r[j] == v[keys[j]]
    {
      r := r + [v[keys[i]]];
    }
  }

  lemma ValuesAppend(v: View, keys: seq<string>, k: string)
    requires k in v && KeysOf(keys, v)
    ensures KeysOf(keys + [k], v) && Values(v, keys + [k]) == Values(v, keys) + [v[k]]
  {
  }

  // ---- the selections agree

  /** Reading the status from the key prefix or from the value selects the same rows. */
  lemma ListingIsDeletion(v: View, f: ListFilter)
    requires WellKeyed(v)
    requires f.status == "" || exists s: Status :: s.Name() == f.status
    ensures Listed(v, f, "") == Deletable(v, f)
  {
    forall k | k in v
      ensures k in Listed(v, f, "") <==> k in Deletable(v, f)
    {
      PartitionPrefix(v[k].status, v[k]);
      assert k != "";
      if f.status != "" {
        var s: Status :| s.Name() == f.status;
        PartitionPrefix(s, v[k]);
        NamesDistinct(s, v[k].status);
      }
    }
  }

  /** Without a url or time filter, listing a status returns its whole partition. */
  lemma PartitionIsListing(v: View, s: Status)
    requires WellKeyed(v)
    ensures OfStatus(v, s) == Listed(v, ListFilter(s.Name(), "", None, None), "")
  {
    var f := ListFilter(s.Name(), "", None, None);
    ListingIsDeletion(v, f);
    forall k | k in v
      ensures k in OfStatus(v, s) <==> k in Deletable(v, f)
    {
      NamesDistinct(s, v[k].status);
    }
  }
}
