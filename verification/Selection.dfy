/** Picking the first keys of a set in byte order: the meaning of every bounded scan. */
module Selection {
  import opened Tasks
  import opened ByteOrder

  ghost predicate Sorted(ks: seq<string>) {
    forall i, j :: 0 <= i < j < |ks| ==> Less(ks[i], ks[j])
  }

  ghost function Elems(ks: seq<string>): set<string> {
    set k | k in ks
  }

  /** `ks` lists the n smallest keys of `s` (all of them, if s has no more), in increasing order. */
  ghost predicate Smallest(ks: seq<string>, s: set<string>, n: int) {
    && Sorted(ks)
    && Elems(ks) <= s
    && |ks| == Min(n, |s|)
    && forall k, x :: k in ks && x in s && x !in ks ==> Less(k, x)
  }

  /** The last key of a sorted list is its greatest, and is not among the others. */
  lemma SplitLast(ks: seq<string>)
    requires Sorted(ks) && ks != []
    ensures Sorted(ks[..|ks| - 1]) && ks == ks[..|ks| - 1] + [ks[|ks| - 1]]
    ensures Elems(ks) == Elems(ks[..|ks| - 1]) + {ks[|ks| - 1]}
    ensures ks[|ks| - 1] !in ks[..|ks| - 1]
    ensures forall x :: x in ks && x != ks[|ks| - 1] ==> Less(x, ks[|ks| - 1])
  {
    Irreflexive(ks[|ks| - 1]);
  }

  lemma {:induction false} SortedCard(ks: seq<string>)
    requires Sorted(ks)
    ensures |Elems(ks)| == |ks|
  {
    if ks == [] {
      assert Elems(ks) == {};
    } else {
      SplitLast(ks);
      SortedCard(ks[..|ks| - 1]);
    }
  }

  /** A sorted list names each of its keys once. */
  lemma SortedOnce(ks: seq<string>, i: nat, j: nat)
    requires Sorted(ks) && i < |ks| && j < |ks| && ks[i] == ks[j]
    ensures i == j
  {
    Irreflexive(ks[i]);
  }

  lemma {:induction false} SortedUnique(a: seq<string>, b: seq<string>)
    requires Sorted(a) && Sorted(b) && Elems(a) == Elems(b)
    ensures a == b
  {
    if a == [] || b == [] {
      SortedCard(a);
      SortedCard(b);
    } else {
      SplitLast(a);
      SplitLast(b);
      SameLast(a, b);
      SortedUnique(a[..|a| - 1], b[..|b| - 1]);
    }
  }

  lemma SameLast(a: seq<string>, b: seq<string>)
    requires Sorted(a) && Sorted(b) && Elems(a) == Elems(b) && a != [] && b != []
    ensures a[|a| - 1] == b[|b| - 1] && Elems(a[..|a| - 1]) == Elems(b[..|b| - 1])
  {
    var x, y := a[|a| - 1], b[|b| - 1];
    SplitLast(a);
    SplitLast(b);
    if x != y {
      assert x in Elems(b) && y in Elems(a);
      Asymmetric(x, y);
    }
  }

  /** There is only one way to list the n smallest keys of a set. */
  lemma SmallestUnique(a: seq<string>, b: seq<string>, s: set<string>, n: int)
    requires Smallest(a, s, n) && Smallest(b, s, n)
    ensures a == b
  {
    SortedCard(a);
    SortedCard(b);
    if x :| x in Elems(a) && x !in Elems(b) {
      var y := Swap(Elems(b), Elems(a), x);
      assert Less(y, x) && Less(x, y);
      Asymmetric(x, y);
    } else {
      assert Elems(a) <= Elems(b);
      SubsetSameSize(Elems(a), Elems(b));
    }
    SortedUnique(a, b);
  }

  lemma SubsetSameSize<T>(a: set<T>, b: set<T>)
    requires a <= b && |a| == |b|
    ensures a == b
  {
    assert b == a + (b - a);
  }

  lemma Swap<T>(a: set<T>, b: set<T>, x: T) returns (y: T)
    requires |a| == |b| && x in b && x !in a
    ensures y in a && y !in b
  {
    if a <= b {
      SubsetSameSize(a, b);
    }
    y :| y in a && y !in b;
  }

  /** The next m smallest keys after the n smallest complete the n + m smallest. */
  lemma SmallestAppend(a: seq<string>, b: seq<string>, s: set<string>, n: nat, m: nat)
    requires Smallest(a, s, n) && Smallest(b, s - Elems(a), m)
    ensures Smallest(a + b, s, n + m)
  {
    SortedCard(a);
    assert |s - Elems(a)| == |s| - |a|;
    assert Elems(a + b) == Elems(a) + Elems(b);
    forall i, j | 0 <= i < j < |a + b|
      ensures Less((a + b)[i], (a + b)[j])
    {
      if i < |a| <= j {
        assert b[j - |a|] in Elems(b);
        assert a[i] in a && b[j - |a|] in s && b[j - |a|] !in a;
      }
    }
  }

  /** With room for every key of the set, all of them are listed. */
  lemma SmallestAll(ks: seq<string>, s: set<string>, n: int)
    requires Smallest(ks, s, n) && |s| <= n
    ensures Elems(ks) == s
  {
    SortedCard(ks);
    SubsetSameSize(Elems(ks), s);
  }

  /** What is left after the smallest keys lies beyond the last of them. */
  lemma SmallestRest(ks: seq<string>, s: set<string>, n: int, x: string)
    requires Smallest(ks, s, n) && ks != [] && x in s
    ensures x !in ks <==> Less(ks[|ks| - 1], x)
  {
    var last := ks[|ks| - 1];
    if x in ks {
      var i :| 0 <= i < |ks| && ks[i] == x;
      if Less(last, x) {
        Asymmetric(last, x);
      }
    } else {
      assert last in ks;
    }
  }

  /** The keys of `ks` that belong to `s`, in the order of `ks`: what a filtering loop accumulates. */
  ghost function Select(ks: seq<string>, s: set<string>): seq<string> {
    if ks == [] then []
    else
      var init, last := ks[..|ks| - 1], ks[|ks| - 1];
      Select(init, s) + if last in s then [last] else []
  }

  /** One step of a filtering loop. */
  lemma SelectNext(ks: seq<string>, i: nat, s: set<string>)
    requires i < |ks|
    ensures Select(ks[..i + 1], s) == Select(ks[..i], s) + if ks[i] in s then [ks[i]] else []
    ensures Elems(Select(ks[..i + 1], s)) == Elems(Select(ks[..i], s)) + if ks[i] in s then {ks[i]} else {}
  {
    assert ks[..i + 1][..i] == ks[..i];
  }

  lemma {:induction false} SelectElems(ks: seq<string>, s: set<string>)
    ensures Elems(Select(ks, s)) == Elems(ks) * s
  {
    if ks == [] {
      assert Elems(ks) == {};
    } else {
      var init, last := ks[..|ks| - 1], ks[|ks| - 1];
      SelectElems(init, s);
      assert Elems(ks) == Elems(init) + {last};
      assert Elems(Select(ks, s)) == Elems(Select(init, s)) + if last in s then {last} else {};
    }
  }

  lemma {:induction false} SelectSorted(ks: seq<string>, s: set<string>)
    requires Sorted(ks)
    ensures Sorted(Select(ks, s))
  {
    if ks != [] {
      var init, last := ks[..|ks| - 1], ks[|ks| - 1];
      SelectSorted(init, s);
      SelectElems(init, s);
      var front := Select(init, s);
      forall i | 0 <= i < |front|
        ensures Less(front[i], last)
      {
        assert front[i] in Elems(front);
        var j :| 0 <= j < |init| && init[j] == front[i];
        assert Less(ks[j], ks[|ks| - 1]);
      }
    }
  }

  lemma SelectCard(ks: seq<string>, s: set<string>)
    requires Sorted(ks)
    ensures |Select(ks, s)| == |Elems(ks) * s|
  {
    SelectElems(ks, s);
    SelectSorted(ks, s);
    SortedCard(Select(ks, s));
  }

  /** A filtering scan that stops when its quota is full has found the smallest keys of the set. */
  lemma ScanFindsSmallest(ks: seq<string>, i: nat, s: set<string>, n: nat)
    requires Sorted(ks) && s <= Elems(ks) && i <= |ks|
    requires |Select(ks[..i], s)| <= n
    requires |Select(ks[..i], s)| == n || forall j :: i <= j < |ks| ==> ks[j] !in s
    ensures Smallest(Select(ks[..i], s), s, n)
  {
    var out := Select(ks[..i], s);
    SelectElems(ks[..i], s);
    SelectSorted(ks[..i], s);
    SortedCard(out);
    forall k, x | k in out && x in s && x !in out
      ensures Less(k, x)
    {
      assert k in Elems(out) && x in Elems(ks);
      var a :| 0 <= a < i && ks[a] == k;
      assert x !in Elems(out) && x !in Elems(ks[..i]) * s;
      assert ks == ks[..i] + ks[i..];
      var b :| 0 <= b < |ks[i..]| && ks[i..][b] == x;
      assert Less(ks[a], ks[i + b]);
    }
    if forall j :: i <= j < |ks| ==> ks[j] !in s {
      forall x | x in s
        ensures x in Elems(out)
      {
        assert x in Elems(ks);
        var b :| 0 <= b < |ks| && ks[b] == x;
        assert ks[..i][b] == x;
      }
      assert Elems(out) == s;
    }
    CardBound(Elems(out), s);
  }

  lemma CardBound<T>(a: set<T>, b: set<T>)
    requires a <= b
    ensures |a| <= |b|
  {
    assert b == a + (b - a);
  }
}
