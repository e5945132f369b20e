/** Ordered scans of the keys, and what the loops over them collect. */
module Scans {
  import opened Tasks
  import opened ByteOrder
  import opened Keys
  import opened Selection
  import opened Rows

  // ---- the database iterator

  function Insert(ks: seq<string>, k: string): seq<string> {
    if ks == [] || Less(k, ks[0]) then [k] + ks else [ks[0]] + Insert(ks[1..], k)
  }

  lemma {:induction false} InsertKeepsOrder(ks: seq<string>, k: string)
    requires Sorted(ks) && k !in ks
    ensures Sorted(Insert(ks, k)) && Elems(Insert(ks, k)) == Elems(ks) + {k}
  {
    if ks == [] {
    } else if Less(k, ks[0]) {
      assert Elems([k] + ks) == Elems(ks) + {k};
      forall j | 0 <= j < |ks|
        ensures Less(k, ks[j])
      {
        if j > 0 {
          Transitive(k, ks[0], ks[j]);
        }
      }
    } else {
      var rest := Insert(ks[1..], k);
      InsertKeepsOrder(ks[1..], k);
      assert Elems([ks[0]] + rest) == Elems(rest) + {ks[0]};
      assert Elems(ks) == Elems(ks[1..]) + {ks[0]};
      Total(k, ks[0]);
      forall j | 0 <= j < |rest|
        ensures Less(ks[0], rest[j])
      {
        assert rest[j] in Elems(rest);
      }
    }
  }

  lemma {:induction false} Sorting(keys: set<string>) returns (ks: seq<string>)
    ensures Sorted(ks) && Elems(ks) == keys
  {
    if keys == {} {
      ks := [];
    } else {
      var k :| k in keys;
      ks := Sorting(keys - {k});
      assert k !in Elems(ks);
      InsertKeepsOrder(ks, k);
      ks := Insert(ks, k);
    }
  }

  /** Every set of keys has its n smallest. */
  lemma SmallestExist(s: set<string>, n: nat) returns (ks: seq<string>)
    ensures Smallest(ks, s, n)
  {
    var all := Sorting(s);
    var m := Min(n, |all|);
    ks := all[..m];
    SortedCard(all);
    forall k, x | k in ks && x in s && x !in ks
      ensures Less(k, x)
    {
      assert x in Elems(all);
      var j :| 0 <= j < |all| && all[j] == x;
      var i :| 0 <= i < |ks| && ks[i] == k;
      assert j >= m;
    }
  }

  method Iterate(keys: set<string>) returns (ks: seq<string>)
    ensures Sorted(ks) && Elems(ks) == keys
  {
    ks := [];
    var rest := keys;
    while rest != {}
      invariant rest <= keys && Sorted(ks) && Elems(ks) == keys - rest
      decreases rest
    {
      var k :| k in rest;
      assert k !in Elems(ks);
      InsertKeepsOrder(ks, k);
      ks := Insert(ks, k);
      rest := rest - {k};
    }
  }

  /** Seek(start), then Next while ValidForPrefix(prefix): exactly the prefixed keys from start on. */
  method Scan(keys: set<string>, start: string, prefix: string) returns (ks: seq<string>)
    requires prefix <= start
    ensures Sorted(ks)
    ensures Elems(ks) == set k | k in keys && prefix <= k && !Less(k, start)
  {
    var it := Iterate(keys);
    var i := 0;
    while i < |it| && Less(it[i], start)
      invariant i <= |it|
      invariant forall j :: 0 <= j < i ==> Less(it[j], start)
    {
      i := i + 1;
    }
    var lo := i;
    while i < |it| && prefix <= it[i]
      invariant lo <= i <= |it|
      invariant forall j :: lo <= j < i ==> prefix <= it[j]
    {
      i := i + 1;
    }
    ks := it[lo..i];
    FromSeekOn(it, lo, start);
    PrefixEnds(it, lo, i, start, prefix);
    forall k | k in keys && prefix <= k && !Less(k, start)
      ensures k in ks
    {
      assert k in Elems(it);
      var j :| 0 <= j < |it| && it[j] == k;
      assert lo <= j < i;
      assert ks[j - lo] == k;
    }
    forall k | k in ks
      ensures k in keys && prefix <= k && !Less(k, start)
    {
      var j :| 0 <= j < |ks| && ks[j] == k;
      assert it[lo + j] == k && k in Elems(it);
    }
  }

  lemma FromSeekOn(it: seq<string>, lo: nat, start: string)
    requires Sorted(it) && lo <= |it| && (lo < |it| ==> !Less(it[lo], start))
    ensures forall j :: lo <= j < |it| ==> !Less(it[j], start)
  {
    forall j | lo <= j < |it|
      ensures !Less(it[j], start)
    {
      if lo < j && Less(it[j], start) {
        Transitive(it[lo], it[j], start);
      }
    }
  }

  lemma PrefixEnds(it: seq<string>, lo: nat, hi: nat, start: string, prefix: string)
    requires Sorted(it) && lo <= hi <= |it| && prefix <= start
    requires forall j :: lo <= j < |it| ==> !Less(it[j], start)
    requires hi < |it| ==> !(prefix <= it[hi])
    ensures forall j :: hi <= j < |it| ==> !(prefix <= it[j])
  {
    forall j | hi < j < |it| && prefix <= it[j]
      ensures false
    {
      Asymmetric(it[hi], it[j]);
      PrefixContiguous(prefix, start, it[hi], it[j]);
    }
  }

  // ---- what a scan of a partition covers

  lemma AllScanned(v: View, ks: seq<string>)
    requires WellKeyed(v)
    requires Elems(ks) == set k | k in v.Keys && KEY_PREFIX <= k && !Less(k, KEY_PREFIX)
    ensures Elems(ks) == v.Keys && KeysOf(ks, v)
  {
    forall k | k in v
      ensures k in Elems(ks)
    {
      PartitionPrefix(v[k].status, v[k]);
      PrefixFirst(KEY_PREFIX, k);
    }
    forall i | 0 <= i < |ks|
      ensures ks[i] in v
    {
      assert ks[i] in Elems(ks);
    }
  }

  lemma PendingScanned(v: View, ks: seq<string>, second: int)
    requires WellKeyed(v) && InCalendar(v) && SecondOk(second)
    requires var pfx := StatusPrefix(Pending.Name());
             Elems(ks) == set k | k in v.Keys && pfx <= k && !Less(k, pfx)
    ensures Due(v, second) <= Elems(ks)
    ensures KeysOf(ks, v)
    ensures forall k :: k in ks ==> (Less(StatusPrefix(Pending.Name()) + Pad16(second), k) <==> k !in Due(v, second))
  {
    var pfx := StatusPrefix(Pending.Name());
    forall k | k in v
      ensures k in Elems(ks) <==> v[k].status.Pending?
      ensures k in Elems(ks) ==> (Less(pfx + Pad16(second), k) <==> k !in Due(v, second))
    {
      PartitionPrefix(Pending, v[k]);
      if v[k].status.Pending? {
        PrefixFirst(pfx, k);
        PastSecond(v[k], second);
      }
    }
    forall k | k in ks
      ensures k in v
      ensures Less(pfx + Pad16(second), k) <==> k !in Due(v, second)
    {
      assert k in Elems(ks);
    }
  }

  lemma RestPast(ks: seq<string>, i: nat, bound: string)
    requires Sorted(ks) && i < |ks| && Less(bound, ks[i])
    ensures forall j :: i <= j < |ks| ==> Less(bound, ks[j])
  {
    forall j | i < j < |ks|
      ensures Less(bound, ks[j])
    {
      Transitive(bound, ks[i], ks[j]);
    }
  }

  lemma ListingScanned(v: View, f: ListFilter, cursor: Cursor, start: string, ks: seq<string>)
    requires Accepts(f, cursor)
    requires start == if cursor.NoCursor? then PrefixOf(f) else cursor.key
    requires Elems(ks) == set k | k in v.Keys && PrefixOf(f) <= k && !Less(k, start)
    ensures Listed(v, f, CursorKey(cursor)) <= Elems(ks)
    ensures KeysOf(ks, v)
    ensures forall k :: k in ks ==>
      (k in Listed(v, f, CursorKey(cursor)) <==> !(cursor != NoCursor && k == start) && ValueMatches(f, v[k]))
  {
    forall k | k in Listed(v, f, CursorKey(cursor))
      ensures k in Elems(ks)
    {
      if cursor.NoCursor? {
        PrefixFirst(start, k);
      } else {
        Asymmetric(start, k);
      }
    }
    forall k | k in ks
      ensures k in v
      ensures k in Listed(v, f, CursorKey(cursor)) <==> !(cursor != NoCursor && k == start) && ValueMatches(f, v[k])
    {
      assert k in Elems(ks);
      Total(start, k);
      Irreflexive(start);
      assert k != "";
    }
  }

  lemma NotBefore(ks: seq<string>, i: nat)
    requires Sorted(ks) && i < |ks|
    ensures Sorted(ks[..i]) && ks[i] !in Elems(ks[..i])
  {
    Irreflexive(ks[i]);
  }

  lemma MoreRemains(ks: seq<string>, i: nat, s: set<string>)
    requires Sorted(ks) && s <= Elems(ks) && i < |ks| && ks[i] in s
    ensures |s| > |Select(ks[..i], s)|
  {
    NotBefore(ks, i);
    SelectCard(ks[..i], s);
    OneMoreThan(Elems(ks[..i]) * s, s, ks[i]);
  }

  lemma OneMoreThan<T>(a: set<T>, b: set<T>, x: T)
    requires a <= b && x in b && x !in a
    ensures |a| < |b|
  {
    CardBound(a + {x}, b);
  }

  lemma NothingRemains(ks: seq<string>, s: set<string>)
    requires Sorted(ks) && s <= Elems(ks)
    ensures |s| == |Select(ks[..|ks|], s)|
  {
    assert ks[..|ks|] == ks;
    SelectCard(ks, s);
    assert Elems(ks) * s == s;
  }

  lemma RunningScanned(v: View, ks: seq<string>)
    requires WellKeyed(v)
    requires var pfx := StatusPrefix(Running.Name());
             Elems(ks) == set k | k in v.Keys && pfx <= k && !Less(k, pfx)
    ensures KeysOf(ks, v)
    ensures forall k :: k in ks ==> k in v && v[k].status.Running?
    ensures forall k :: k in v && v[k].status.Running? ==> k in ks
  {
    var pfx := StatusPrefix(Running.Name());
    forall k | k in v
      ensures k in Elems(ks) <==> v[k].status.Running?
    {
      PartitionPrefix(Running, v[k]);
      if v[k].status.Running? {
        PrefixFirst(pfx, k);
      }
    }
    forall k | k in ks
      ensures k in v
    {
      assert k in Elems(ks);
    }
  }
}
