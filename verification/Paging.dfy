/** Walks that follow `next` from page to page, over a store that may change between pages. */
module Paging {
  import opened Tasks
  import opened ByteOrder
  import opened Selection
  import opened Rows
  import opened Batches

  ghost predicate PageAt(views: seq<View>, f: ListFilter, limit: int, pages: seq<seq<string>>, nexts: seq<Cursor>, i: nat)
    requires |views| == |pages| == |nexts| && i < |pages|
  {
    IsPage(views[i], f, Resume(nexts, i), limit, pages[i], nexts[i])
  }

  /** Page i was read from views[i] and ended with nexts[i]; all but the last handed on a cursor. */
  ghost predicate IsWalk(views: seq<View>, f: ListFilter, limit: int, pages: seq<seq<string>>, nexts: seq<Cursor>) {
    && |views| == |pages| == |nexts| >= 1
    && (forall i :: 0 <= i < |pages| - 1 ==> nexts[i].At?)
    && (forall i :: 0 <= i < |pages| ==> PageAt(views, f, limit, pages, nexts, i))
  }

  ghost function Resume(nexts: seq<Cursor>, i: nat): string
    requires i <= |nexts|
  {
    if i == 0 then "" else if nexts[i - 1].At? then nexts[i - 1].key else ""
  }

  ghost predicate Complete(nexts: seq<Cursor>) {
    nexts != [] && nexts[|nexts| - 1].NoCursor?
  }

  /** A cursor is handed on exactly when a further match exists, and it is the page's last key. */
  lemma CursorMeansMore(v: View, f: ListFilter, after: string, limit: int, keys: seq<string>, next: Cursor)
    requires IsPage(v, f, after, limit, keys, next)
    ensures next.At? <==> exists x :: x in Listed(v, f, after) && x !in keys
    ensures next.At? ==> |keys| == limit && next.key == keys[|keys| - 1]
    ensures next.At? <==> keys != [] && Listed(v, f, LastOf(keys)) != {}
  {
    var s := Listed(v, f, after);
    SortedCard(keys);
    if next.At? {
      if s <= Elems(keys) {
        CardBound(s, Elems(keys));
      }
      var x :| x in s && x !in keys;
      SmallestRest(keys, s, limit, x);
      assert x in Listed(v, f, LastOf(keys));
    } else {
      SmallestAll(keys, s, limit);
      if keys != [] && Listed(v, f, LastOf(keys)) != {} {
        var x :| x in Listed(v, f, LastOf(keys));
        assert LastOf(keys) in Elems(keys);
        Transitive(after, LastOf(keys), x);
        assert x in Elems(keys);
        SmallestRest(keys, s, limit, x);
      }
    }
  }

  /** Every key returned so far lies at or before the cursor. */
  ghost predicate UpTo(out: seq<string>, cursor: string) {
    forall k :: k in out ==> k == cursor || Less(k, cursor)
  }

  lemma PageExtends(out: seq<string>, cursor: string, page: seq<string>)
    requires Sorted(out) && UpTo(out, cursor) && Sorted(page) && forall k :: k in page ==> Less(cursor, k)
    ensures Sorted(out + page)
    ensures page != [] ==> UpTo(out + page, page[|page| - 1])
  {
    forall a, b | a in out && b in page
      ensures Less(a, b)
    {
      if a != cursor {
        Transitive(a, cursor, b);
      }
    }
    JoinSorted(out, page);
    if page != [] {
      assert page[|page| - 1] in page;
      SplitLast(page);
    }
  }

  lemma PageIsBeyond(v: View, f: ListFilter, after: string, limit: int, keys: seq<string>, next: Cursor)
    requires IsPage(v, f, after, limit, keys, next)
    ensures Sorted(keys) && forall k :: k in keys ==> Less(after, k)
  {
    assert forall k :: k in keys ==> k in Elems(keys);
  }

  lemma WalkNext(v: View, f: ListFilter, out: seq<string>, after: string, limit: int, page: seq<string>, next: Cursor)
    requires Sorted(out) && UpTo(out, after) && IsPage(v, f, after, limit, page, next)
    ensures Sorted(out + page) && (next.At? ==> UpTo(out + page, next.key))
  {
    PageIsBeyond(v, f, after, limit, page, next);
    PageExtends(out, after, page);
    CursorMeansMore(v, f, after, limit, page, next);
  }

  /** Nothing was repeated so far, and if the walk goes on, everything returned lies at or before the cursor. */
  ghost predicate Walked(out: seq<string>, more: bool, cursor: string) {
    Sorted(out) && (more ==> UpTo(out, cursor))
  }

  lemma WalkNextPage(views: seq<View>, f: ListFilter, limit: int, pages: seq<seq<string>>, nexts: seq<Cursor>, n: nat, out: seq<string>)
    requires IsWalk(views, f, limit, pages, nexts) && n < |pages|
    requires Walked(out, true, Resume(nexts, n))
    ensures Walked(out + pages[n], nexts[n].At?, Resume(nexts, n + 1))
  {
    assert PageAt(views, f, limit, pages, nexts, n);
    WalkNext(views[n], f, out, Resume(nexts, n), limit, pages[n], nexts[n]);
  }

  lemma {:induction false} WalkSoFar(views: seq<View>, f: ListFilter, limit: int, pages: seq<seq<string>>, nexts: seq<Cursor>, n: nat)
    requires IsWalk(views, f, limit, pages, nexts) && n <= |pages|
    ensures Walked(Joined(pages, n), n == 0 || nexts[n - 1].At?, Resume(nexts, n))
  {
    if n > 0 {
      WalkSoFar(views, f, limit, pages, nexts, n - 1);
      WalkNextPage(views, f, limit, pages, nexts, n - 1, Joined(pages, n - 1));
    }
  }

  lemma JoinSorted(a: seq<string>, b: seq<string>)
    requires Sorted(a) && Sorted(b) && forall x, y :: x in a && y in b ==> Less(x, y)
    ensures Sorted(a + b)
  {
  }

  /** However the store changes between pages, no walk returns a key twice, and keys come in order. */
  lemma NoKeyTwice(views: seq<View>, f: ListFilter, limit: int, pages: seq<seq<string>>, nexts: seq<Cursor>)
    requires IsWalk(views, f, limit, pages, nexts)
    ensures Sorted(Flatten(pages))
    ensures forall i, j :: 0 <= i < |Flatten(pages)| && 0 <= j < |Flatten(pages)| && Flatten(pages)[i] == Flatten(pages)[j] ==> i == j
  {
    WalkSoFar(views, f, limit, pages, nexts, |pages|);
    forall i, j | 0 <= i < |Flatten(pages)| && 0 <= j < |Flatten(pages)| && Flatten(pages)[i] == Flatten(pages)[j]
      ensures i == j
    {
      SortedOnce(Flatten(pages), i, j);
    }
  }

  /** The row under `k` is there, and matches, whenever a page is read. */
  ghost predicate Steady(views: seq<View>, f: ListFilter, k: string) {
    PrefixOf(f) <= k && forall i :: 0 <= i < |views| ==> k in views[i] && ValueMatches(f, views[i][k])
  }

  lemma {:induction false} SteadySoFar(views: seq<View>, f: ListFilter, limit: int, pages: seq<seq<string>>, nexts: seq<Cursor>, k: string, n: nat)
    requires IsWalk(views, f, limit, pages, nexts) && Steady(views, f, k) && n <= |pages|
    ensures k in Joined(pages, n) || ((n == 0 || nexts[n - 1].At?) && Less(Resume(nexts, n), k))
  {
    if n == 0 {
      assert k != "";
    } else {
      SteadySoFar(views, f, limit, pages, nexts, k, n - 1);
      if k !in Joined(pages, n - 1) {
        var after, page := Resume(nexts, n - 1), pages[n - 1];
        assert PageAt(views, f, limit, pages, nexts, n - 1);
        var s := Listed(views[n - 1], f, after);
        assert k in s;
        CursorMeansMore(views[n - 1], f, after, limit, page, nexts[n - 1]);
        if k !in page {
          SmallestRest(page, s, limit, k);
        }
      }
    }
  }

  /** A record that stays put and keeps matching is returned by every completed walk, exactly once. */
  lemma SteadyKeyReturned(views: seq<View>, f: ListFilter, limit: int, pages: seq<seq<string>>, nexts: seq<Cursor>, k: string)
      returns (at: nat)
    requires IsWalk(views, f, limit, pages, nexts) && Complete(nexts) && Steady(views, f, k)
    ensures at < |Flatten(pages)| && Flatten(pages)[at] == k
    ensures forall j :: 0 <= j < |Flatten(pages)| && Flatten(pages)[j] == k ==> j == at
  {
    SteadySoFar(views, f, limit, pages, nexts, k, |pages|);
    NoKeyTwice(views, f, limit, pages, nexts);
    at :| 0 <= at < |Flatten(pages)| && Flatten(pages)[at] == k;
  }

  // ---- walks over a store that does not change

  ghost predicate Frozen(views: seq<View>, v: View) {
    forall i :: 0 <= i < |views| ==> views[i] == v
  }

  lemma RestAfterPage(v: View, f: ListFilter, after: string, limit: int, keys: seq<string>, next: Cursor)
    requires IsPage(v, f, after, limit, keys, next) && next.At?
    ensures Listed(v, f, next.key) == Listed(v, f, after) - Elems(keys)
  {
    CursorMeansMore(v, f, after, limit, keys, next);
    var s, t := Listed(v, f, after), Listed(v, f, next.key);
    assert next.key in Elems(keys);
    forall x
      ensures x in t <==> x in s && x !in Elems(keys)
    {
      if x in t {
        Transitive(after, next.key, x);
        assert x in s;
      }
      if x in s {
        SmallestRest(keys, s, limit, x);
      }
    }
  }

  /** The matches still to be returned after i pages. */
  ghost function LeftAt(v: View, f: ListFilter, nexts: seq<Cursor>, i: nat): set<string>
    requires i <= |nexts|
  {
    if i == 0 then Listed(v, f, "") else if nexts[i - 1].At? then Listed(v, f, nexts[i - 1].key) else {}
  }

  ghost function Remaining(v: View, f: ListFilter, nexts: seq<Cursor>): seq<set<string>> {
    seq(|nexts| + 1, i requires 0 <= i <= |nexts| => LeftAt(v, f, nexts, i))
  }

  lemma PageDrains(v: View, views: seq<View>, f: ListFilter, limit: int, pages: seq<seq<string>>, nexts: seq<Cursor>, i: nat)
    requires IsWalk(views, f, limit, pages, nexts) && Frozen(views, v) && i < |pages|
    ensures Smallest(pages[i], LeftAt(v, f, nexts, i), limit)
    ensures LeftAt(v, f, nexts, i + 1) == LeftAt(v, f, nexts, i) - Elems(pages[i])
  {
    var after := Resume(nexts, i);
    assert LeftAt(v, f, nexts, i) == Listed(v, f, after);
    assert PageAt(views, f, limit, pages, nexts, i);
    if nexts[i].At? {
      RestAfterPage(v, f, after, limit, pages[i], nexts[i]);
    } else {
      SmallestAll(pages[i], Listed(v, f, after), limit);
    }
  }

  lemma WalkDrains(v: View, views: seq<View>, f: ListFilter, limit: int, pages: seq<seq<string>>, nexts: seq<Cursor>)
    requires IsWalk(views, f, limit, pages, nexts) && Frozen(views, v)
    ensures IsDrain(Remaining(v, f, nexts), limit, pages)
  {
    assert PageAt(views, f, limit, pages, nexts, 0);
    forall i | 0 <= i < |pages|
      ensures Smallest(pages[i], Remaining(v, f, nexts)[i], limit)
      ensures Remaining(v, f, nexts)[i + 1] == Remaining(v, f, nexts)[i] - Elems(pages[i])
    {
      PageDrains(v, views, f, limit, pages, nexts, i);
    }
  }

  /** Over a store that stays the same, the pages of a completed walk are exactly the matches, in key order. */
  lemma FrozenWalkIsListing(v: View, views: seq<View>, f: ListFilter, limit: int, pages: seq<seq<string>>, nexts: seq<Cursor>)
    requires IsWalk(views, f, limit, pages, nexts) && Frozen(views, v) && Complete(nexts)
    ensures Sorted(Flatten(pages)) && Elems(Flatten(pages)) == Listed(v, f, "")
  {
    WalkDrains(v, views, f, limit, pages, nexts);
    DrainedSoFar(Remaining(v, f, nexts), limit, pages, |pages|);
  }

  /**
   Three ways to the same records: the pages of a completed walk are exactly what a bulk delete with the same
   filter removes, and as many as it counts.
   */
  lemma WalkIsDeletion(v: View, views: seq<View>, f: ListFilter, limit: int, pages: seq<seq<string>>, nexts: seq<Cursor>)
    requires IsWalk(views, f, limit, pages, nexts) && Frozen(views, v) && Complete(nexts)
    requires WellKeyed(v) && (f.status == "" || exists s: Status :: s.Name() == f.status)
    ensures Elems(Flatten(pages)) == Deletable(v, f) && |Flatten(pages)| == |Deletable(v, f)|
  {
    FrozenWalkIsListing(v, views, f, limit, pages, nexts);
    ListingIsDeletion(v, f);
    SortedCard(Flatten(pages));
  }

  lemma PageShape(v: View, views: seq<View>, f: ListFilter, limit: int, pages: seq<seq<string>>, nexts: seq<Cursor>, i: nat)
    requires IsWalk(views, f, limit, pages, nexts) && Frozen(views, v) && i < |pages|
    ensures i < |pages| - 1 ==> |pages[i]| == limit
    ensures 1 <= i ==> LeftAt(v, f, nexts, i) != {} && pages[i] != []
  {
    assert PageAt(views, f, limit, pages, nexts, i);
    CursorMeansMore(v, f, Resume(nexts, i), limit, pages[i], nexts[i]);
    if i >= 1 {
      assert PageAt(views, f, limit, pages, nexts, i - 1);
      CursorMeansMore(v, f, Resume(nexts, i - 1), limit, pages[i - 1], nexts[i - 1]);
      NonEmptySmallest(pages[i], Listed(v, f, Resume(nexts, i)), limit);
    }
  }

  /** What is left of the matches after n pages, counted. */
  lemma LeftCount(v: View, views: seq<View>, f: ListFilter, limit: int, pages: seq<seq<string>>, nexts: seq<Cursor>, n: nat)
    requires IsWalk(views, f, limit, pages, nexts) && Frozen(views, v) && n <= |pages|
    ensures |LeftAt(v, f, nexts, n)| == Max(0, |Listed(v, f, "")| - n * limit)
  {
    WalkDrains(v, views, f, limit, pages, nexts);
    DrainedSoFar(Remaining(v, f, nexts), limit, pages, n);
  }

  lemma PageCount(v: View, views: seq<View>, f: ListFilter, limit: int, pages: seq<seq<string>>, nexts: seq<Cursor>, n: nat)
    requires IsWalk(views, f, limit, pages, nexts) && Frozen(views, v) && n <= |pages|
    ensures LeftAt(v, f, nexts, n) != {} ==> n * limit < |Listed(v, f, "")|
    ensures LeftAt(v, f, nexts, n) == {} ==> |Listed(v, f, "")| <= n * limit
  {
    LeftCount(v, views, f, limit, pages, nexts, n);
    if LeftAt(v, f, nexts, n) != {} {
      SomeElement(LeftAt(v, f, nexts, n));
    }
  }

  /** Pages that are followed by another are full, later ones are never empty, and the walk is as short as it can be. */
  lemma FrozenWalkLength(v: View, views: seq<View>, f: ListFilter, limit: int, pages: seq<seq<string>>, nexts: seq<Cursor>)
    requires IsWalk(views, f, limit, pages, nexts) && Frozen(views, v)
    ensures forall i :: 0 <= i < |pages| - 1 ==> |pages[i]| == limit
    ensures forall i :: 1 <= i < |pages| ==> pages[i] != []
    ensures |pages| == 1 || (|pages| - 1) * limit < |Listed(v, f, "")|
    ensures Complete(nexts) ==> |Listed(v, f, "")| <= |pages| * limit
  {
    var n := |pages|;
    forall i | 0 <= i < n
      ensures i < n - 1 ==> |pages[i]| == limit
      ensures 1 <= i ==> LeftAt(v, f, nexts, i) != {} && pages[i] != []
    {
      PageShape(v, views, f, limit, pages, nexts, i);
    }
    PageCount(v, views, f, limit, pages, nexts, n - 1);
    PageCount(v, views, f, limit, pages, nexts, n);
    if Complete(nexts) {
      CompleteLeavesNone(v, f, nexts);
    }
  }

  lemma CompleteLeavesNone(v: View, f: ListFilter, nexts: seq<Cursor>)
    requires Complete(nexts)
    ensures LeftAt(v, f, nexts, |nexts|) == {}
  {
  }

  lemma SomeElement<T>(s: set<T>)
    requires s != {}
    ensures |s| >= 1
  {
    var x :| x in s;
    assert s == {x} + (s - {x});
  }

  lemma NonEmptySmallest(ks: seq<string>, s: set<string>, n: int)
    requires Smallest(ks, s, n) && s != {} && n >= 1
    ensures ks != []
  {
    SomeElement(s);
  }
}
