/** Taking the smallest keys of a set batch by batch, as paging and the due scan both do. */
module Batches {
  import opened Tasks
  import opened Selection

  /** The first n batches, one after the other. */
  ghost function Joined(batches: seq<seq<string>>, n: nat): seq<string>
    requires n <= |batches|
  {
    if n == 0 then [] else Joined(batches, n - 1) + batches[n - 1]
  }

  ghost function Flatten(batches: seq<seq<string>>): seq<string> {
    Joined(batches, |batches|)
  }

  /** left[i] is what remains before batch i; each batch takes the smallest keys remaining. */
  ghost predicate IsDrain(left: seq<set<string>>, limit: int, batches: seq<seq<string>>) {
    && limit >= 1
    && |left| == |batches| + 1
    && (forall i :: 0 <= i < |batches| ==> Smallest(batches[i], left[i], limit))
    && (forall i :: 0 <= i < |batches| ==> left[i + 1] == left[i] - Elems(batches[i]))
  }

  /** The `taken` smallest keys of s, or all of them, are out, in order and once each, and only the rest is left. */
  ghost predicate DrainedTo(s: set<string>, out: seq<string>, rest: set<string>, taken: int) {
    Smallest(out, s, taken) && rest == s - Elems(out) && |rest| == Max(0, |s| - taken)
  }

  lemma DrainStep(s: set<string>, out: seq<string>, rest: set<string>, batch: seq<string>, taken: nat, limit: nat)
    requires DrainedTo(s, out, rest, taken) && Smallest(batch, rest, limit)
    ensures DrainedTo(s, out + batch, rest - Elems(batch), taken + limit)
  {
    SmallestAppend(out, batch, s, taken, limit);
    assert Elems(out + batch) == Elems(out) + Elems(batch);
    SortedCard(batch);
    assert |rest - Elems(batch)| == |rest| - |batch|;
  }

  lemma DrainOne(left: seq<set<string>>, limit: int, batches: seq<seq<string>>, i: nat, taken: nat)
    requires IsDrain(left, limit, batches) && i < |batches| && DrainedTo(left[0], Joined(batches, i), left[i], taken)
    ensures DrainedTo(left[0], Joined(batches, i + 1), left[i + 1], taken + limit)
  {
    DrainStep(left[0], Joined(batches, i), left[i], batches[i], taken, limit);
  }

  /** n batches' worth of keys, by addition alone. */
  function Taken(n: nat, limit: nat): nat {
    if n == 0 then 0 else Taken(n - 1, limit) + limit
  }

  lemma {:induction false} TakenIsProduct(n: nat, limit: nat)
    ensures Taken(n, limit) == n * limit
  {
    if n > 0 {
      TakenIsProduct(n - 1, limit);
      OneMore(n, limit);
    }
  }

  lemma {:induction false} DrainedBy(left: seq<set<string>>, limit: int, batches: seq<seq<string>>, n: nat)
    requires IsDrain(left, limit, batches) && n <= |batches|
    ensures DrainedTo(left[0], Joined(batches, n), left[n], Taken(n, limit))
  {
    if n == 0 {
      NothingDrained(left[0]);
    } else {
      DrainedBy(left, limit, batches, n - 1);
      DrainOne(left, limit, batches, n - 1, Taken(n - 1, limit));
    }
  }

  lemma DrainedSoFar(left: seq<set<string>>, limit: int, batches: seq<seq<string>>, n: nat)
    requires IsDrain(left, limit, batches) && n <= |batches|
    ensures n * limit >= 0 && DrainedTo(left[0], Joined(batches, n), left[n], n * limit)
  {
    DrainedBy(left, limit, batches, n);
    TakenIsProduct(n, limit);
  }

  lemma NothingDrained(s: set<string>)
    ensures DrainedTo(s, [], s, 0)
  {
    assert Elems([]) == {};
  }

  lemma OneMore(n: nat, limit: nat)
    requires n >= 1
    ensures n * limit == (n - 1) * limit + limit
  {
  }
}
