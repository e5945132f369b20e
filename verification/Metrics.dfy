/** The histograms and counters: buckets updated in place, against the plain list of what was observed. */
module Metrics {
  import opened Tasks

  const COUNTER_MOD: int := 0x1_0000_0000_0000_0000

  /** Counters are unsigned 64-bit and wrap around. */
  function Counter(n: int): nat {
    n % COUNTER_MOD
  }

  lemma CounterAdds(a: int, b: int)
    ensures Counter(Counter(a) + b) == Counter(a + b) == Counter(Counter(a) + Counter(b))
  {
    var q, r := a / COUNTER_MOD, b / COUNTER_MOD;
    CounterShift(Counter(a) + b, q);
    CounterShift(Counter(a) + Counter(b), q + r);
  }

  lemma CounterShift(a: int, k: int)
    ensures Counter(a + k * COUNTER_MOD) == Counter(a)
  {
  }

  function Seconds(d: int): (s: real)
    ensures s * 1_000_000_000.0 == d as real
  {
    d as real / SECOND as real
  }

  ghost predicate Ascending(bounds: seq<real>) {
    forall i, j :: 0 <= i <= j < |bounds| ==> bounds[i] <= bounds[j]
  }

  /** The bucket of x: the first bound that is not below it, or the one past them all. */
  ghost predicate IsBucket(bounds: seq<real>, x: real, i: int) {
    && 0 <= i <= |bounds|
    && (i < |bounds| ==> x <= bounds[i])
    && (forall j :: 0 <= j < i ==> bounds[j] < x)
  }

  /** How many of the observations lie in bucket i. */
  ghost function InBucket(bounds: seq<real>, observed: seq<int>, i: int): nat {
    if observed == [] then 0
    else InBucket(bounds, observed[..|observed| - 1], i)
         + if IsBucket(bounds, Seconds(observed[|observed| - 1]), i) then 1 else 0
  }

  /** How many of them lie in the first n buckets. */
  ghost function InFirst(bounds: seq<real>, observed: seq<int>, n: nat): nat {
    if n == 0 then 0 else InFirst(bounds, observed, n - 1) + InBucket(bounds, observed, n - 1)
  }

  /** How many observations are at most `bound`. */
  function AtMost(observed: seq<int>, bound: real): nat {
    if observed == [] then 0
    else AtMost(observed[..|observed| - 1], bound) + if Seconds(observed[|observed| - 1]) <= bound then 1 else 0
  }

  function Total(observed: seq<int>): nat {
    if observed == [] then 0
    else Total(observed[..|observed| - 1]) + Max(observed[|observed| - 1], 0)
  }

  lemma Without<T>(xs: seq<T>, x: T)
    ensures (xs + [x])[..|xs + [x]| - 1] == xs
  {
  }

  // ---- buckets and bounds

  lemma OneBucket(bounds: seq<real>, x: real, i: int, j: int)
    requires IsBucket(bounds, x, i) && IsBucket(bounds, x, j)
    ensures i == j
  {
  }

  /** How often one observation counts among the first n buckets. */
  lemma {:induction false} LastInFirst(bounds: seq<real>, observed: seq<int>, n: nat, b: int)
    requires observed != [] && IsBucket(bounds, Seconds(observed[|observed| - 1]), b)
    ensures InFirst(bounds, observed, n) == InFirst(bounds, observed[..|observed| - 1], n) + if b < n then 1 else 0
  {
    if n > 0 {
      LastInFirst(bounds, observed, n - 1, b);
      if IsBucket(bounds, Seconds(observed[|observed| - 1]), n - 1) {
        OneBucket(bounds, Seconds(observed[|observed| - 1]), n - 1, b);
      }
    }
  }

  lemma {:induction false} SomeBucket(bounds: seq<real>, x: real) returns (b: int)
    requires Ascending(bounds)
    ensures IsBucket(bounds, x, b)
    ensures forall i :: 0 <= i < |bounds| ==> (b <= i <==> x <= bounds[i])
  {
    if bounds == [] || bounds[|bounds| - 1] < x {
      b := |bounds|;
    } else {
      var front := bounds[..|bounds| - 1];
      b := SomeBucket(front, x);
      assert forall i :: 0 <= i < |front| ==> front[i] == bounds[i];
    }
  }

  /** The running sum over the buckets counts exactly the observations at or below each bound. */
  lemma {:induction false} CumulativeIsAtMost(bounds: seq<real>, observed: seq<int>, i: nat)
    requires Ascending(bounds) && i < |bounds|
    ensures InFirst(bounds, observed, i + 1) == AtMost(observed, bounds[i])
  {
    if observed == [] {
      NothingInFirst(bounds, i + 1);
    } else {
      CumulativeIsAtMost(bounds, observed[..|observed| - 1], i);
      var b := SomeBucket(bounds, Seconds(observed[|observed| - 1]));
      LastInFirst(bounds, observed, i + 1, b);
    }
  }

  lemma {:induction false} NothingInFirst(bounds: seq<real>, n: nat)
    ensures InFirst(bounds, [], n) == 0
  {
    if n > 0 {
      NothingInFirst(bounds, n - 1);
    }
  }

  /** All buckets together, the one beyond the last bound included, count every observation once. */
  lemma {:induction false} AllBuckets(bounds: seq<real>, observed: seq<int>)
    requires Ascending(bounds)
    ensures InFirst(bounds, observed, |bounds| + 1) == |observed|
  {
    if observed == [] {
      NothingInFirst(bounds, |bounds| + 1);
    } else {
      AllBuckets(bounds, observed[..|observed| - 1]);
      var b := SomeBucket(bounds, Seconds(observed[|observed| - 1]));
      LastInFirst(bounds, observed, |bounds| + 1, b);
    }
  }

  lemma {:induction false} AtMostGrows(observed: seq<int>, low: real, high: real)
    requires low <= high
    ensures AtMost(observed, low) <= AtMost(observed, high) <= |observed|
  {
    if observed != [] {
      AtMostGrows(observed[..|observed| - 1], low, high);
    }
  }

  // ---- the histogram

  /** The bounds in ascending order, whatever order they were given in. */
  function Sorted(bounds: seq<real>): (r: seq<real>)
    ensures Ascending(r) && multiset(r) == multiset(bounds)
  {
    if bounds == [] then []
    else
      assert bounds == bounds[..|bounds| - 1] + [bounds[|bounds| - 1]];
      Inserted(Sorted(bounds[..|bounds| - 1]), bounds[|bounds| - 1])
  }

  function Inserted(bounds: seq<real>, x: real): (r: seq<real>)
    requires Ascending(bounds)
    ensures Ascending(r) && multiset(r) == multiset(bounds) + multiset{x}
  {
    if bounds == [] || bounds[|bounds| - 1] <= x then bounds + [x]
    else
      var front, last := bounds[..|bounds| - 1], bounds[|bounds| - 1];
      assert bounds == front + [last];
      var rest := Inserted(front, x);
      LastBound(front, last, x, rest);
      rest + [last]
  }

  lemma LastBound(front: seq<real>, last: real, x: real, rest: seq<real>)
    requires Ascending(front + [last]) && x < last && Ascending(rest) && multiset(rest) == multiset(front) + multiset{x}
    ensures Ascending(rest + [last])
  {
    forall i | 0 <= i < |rest|
      ensures rest[i] <= last
    {
      assert rest[i] in multiset(rest);
      if rest[i] in multiset(front) {
        var j :| 0 <= j < |front| && front[j] == rest[i];
        assert (front + [last])[j] <= (front + [last])[|front|];
      }
    }
  }

  /** One more observation, in bucket b: what every counter becomes. */
  lemma OneMore(bounds: seq<real>, observed: seq<int>, d: int, b: nat)
    requires IsBucket(bounds, Seconds(d), b)
    ensures forall i :: i != b ==> InBucket(bounds, observed + [d], i) == InBucket(bounds, observed, i)
    ensures Counter(InBucket(bounds, observed + [d], b)) == Counter(Counter(InBucket(bounds, observed, b)) + 1)
    ensures Counter(Total(observed + [d])) == Counter(Counter(Total(observed)) + Max(d, 0))
    ensures Counter(|observed + [d]|) == Counter(Counter(|observed|) + 1)
  {
    Without(observed, d);
    CounterAdds(Total(observed), Max(d, 0));
    CounterAdds(|observed|, 1);
    forall i
      ensures InBucket(bounds, observed + [d], i) == InBucket(bounds, observed, i) + if i == b then 1 else 0
    {
      if IsBucket(bounds, Seconds(d), i) {
        OneBucket(bounds, Seconds(d), i, b);
      }
    }
    CounterAdds(InBucket(bounds, observed, b), 1);
  }

  class Histogram {
    const upper: seq<real>
    const buckets: array<int>
    var sumNs: int
    var count: int
    ghost var observed: seq<int>

    ghost predicate Valid()
      reads this, buckets
    {
      && Ascending(upper) && buckets.Length == |upper| + 1
      && (forall i :: 0 <= i < buckets.Length ==> buckets[i] == Counter(InBucket(upper, observed, i)))
      && sumNs == Counter(Total(observed)) && count == Counter(|observed|)
    }

    constructor (bounds: seq<real>)
      ensures Valid() && observed == [] && fresh(buckets) && multiset(upper) == multiset(bounds)
    {
      upper := Sorted(bounds);
      var empty := new int[|bounds| + 1](_ => 0);
      buckets := empty;
      sumNs, count, observed := 0, 0, [];
      new;
      assert |multiset(upper)| == |multiset(bounds)|;
    }

    /** Halving search for the first bound that is not below x. */
    method Search(x: real) returns (i: nat)
      requires Ascending(upper)
      ensures IsBucket(upper, x, i)
    {
      var j := |upper|;
      i := 0;
      while i < j
        invariant i <= j <= |upper|
        invariant forall k :: 0 <= k < i ==> upper[k] < x
        invariant j < |upper| ==> x <= upper[j]
      {
        var h := (i + j) / 2;
        if upper[h] < x {
          i := h + 1;
        } else {
          j := h;
        }
      }
    }

    method Observe(d: int)
      requires Valid()
      modifies this`sumNs, this`count, this`observed, buckets
      ensures Valid() && observed == old(observed) + [d]
    {
      var i := Search(Seconds(d));
      OneMore(upper, observed, d, i);
      buckets[i] := Counter(buckets[i] + 1);
      sumNs := Counter(sumNs + Max(d, 0));
      count := Counter(count + 1);
      observed := observed + [d];
    }

    /**
     The rendered series: each line counts exactly the observations at or below its bound, and the last
     one all of them, up to wrap-around.
     */
    method Render() returns (lines: seq<int>)
      requires Valid()
      ensures |lines| == |upper| + 1 && lines[|upper|] == count
      ensures forall i :: 0 <= i < |upper| ==> lines[i] == Counter(AtMost(observed, upper[i]))
    {
      lines := [];
      var cumulative := 0;
      for i := 0 to |upper|
        invariant |lines| == i && cumulative == Counter(InFirst(upper, observed, i))
        invariant forall k :: 0 <= k < i ==> lines[k] == Counter(AtMost(observed, upper[k]))
      {
        CumulativeIsAtMost(upper, observed, i);
        CounterAdds(InFirst(upper, observed, i), InBucket(upper, observed, i));
        cumulative := Counter(cumulative + buckets[i]);
        lines := lines + [cumulative];
      }
      AllBuckets(upper, observed);
      CounterAdds(InFirst(upper, observed, |upper|), InBucket(upper, observed, |upper|));
      cumulative := Counter(cumulative + buckets[|upper|]);
      lines := lines + [cumulative];
    }

    method Reset()
      modifies this, buckets
      requires Valid()
      ensures Valid() && observed == []
    {
      for i := 0 to buckets.Length
        invariant forall j :: 0 <= j < i ==> buckets[j] == 0
      {
        buckets[i] := 0;
      }
      sumNs, count, observed := 0, 0, [];
    }
  }

  /** What line i shows, the last line being the count. */
  function LineOf(bounds: seq<real>, observed: seq<int>, i: nat): nat
    requires i <= |bounds|
  {
    if i < |bounds| then AtMost(observed, bounds[i]) else |observed|
  }

  lemma LineGrows(bounds: seq<real>, observed: seq<int>, i: nat, j: nat)
    requires Ascending(bounds) && i <= j <= |bounds|
    ensures LineOf(bounds, observed, i) <= LineOf(bounds, observed, j) <= |observed|
  {
    if i < |bounds| {
      AtMostGrows(observed, bounds[i], bounds[if j < |bounds| then j else i]);
    }
  }

  /** Until a counter wraps, the rendered series never goes down. */
  lemma SeriesGrows(bounds: seq<real>, observed: seq<int>, lines: seq<int>)
    requires Ascending(bounds) && |observed| < COUNTER_MOD && |lines| == |bounds| + 1
    requires lines[|bounds|] == Counter(|observed|)
    requires forall i :: 0 <= i < |bounds| ==> lines[i] == Counter(AtMost(observed, bounds[i]))
    ensures forall i, j :: 0 <= i <= j < |lines| ==> lines[i] <= lines[j]
  {
    forall i, j | 0 <= i <= j < |lines|
      ensures lines[i] <= lines[j]
    {
      LineGrows(bounds, observed, i, j);
      NoWrap(LineOf(bounds, observed, i));
      NoWrap(LineOf(bounds, observed, j));
    }
  }

  lemma NoWrap(n: nat)
    requires n < COUNTER_MOD
    ensures Counter(n) == n
  {
  }

  /** The process-wide delivery counters and their two histograms. */
  class Meters {
    var deliveriesOK: int
    var deliveriesFail: int
    const deliveryDuration: Histogram
    const lateness: Histogram

    /** Every delivery is timed: the duration histogram counts successes and failures together. */
    ghost predicate Valid()
      reads this, deliveryDuration, lateness, deliveryDuration.buckets, lateness.buckets
    {
      && deliveryDuration != lateness && deliveryDuration.buckets != lateness.buckets
      && deliveryDuration.Valid() && lateness.Valid()
      && deliveryDuration.count == Counter(deliveriesOK + deliveriesFail)
      && (forall i :: 0 <= i < |lateness.observed| ==> lateness.observed[i] >= 0)
    }

    constructor (durations: seq<real>, delays: seq<real>)
      ensures Valid() && deliveriesOK == deliveriesFail == 0
    {
      deliveryDuration := new Histogram(durations);
      lateness := new Histogram(delays);
      deliveriesOK, deliveriesFail := 0, 0;
    }

    method ObserveDelivery(d: int, ok: bool)
      requires Valid()
      modifies this`deliveriesOK, this`deliveriesFail, deliveryDuration, deliveryDuration.buckets
      ensures Valid() && deliveryDuration.observed == old(deliveryDuration.observed) + [d]
      ensures deliveriesOK == if ok then Counter(old(deliveriesOK) + 1) else old(deliveriesOK)
      ensures deliveriesFail == if ok then old(deliveriesFail) else Counter(old(deliveriesFail) + 1)
    {
      CounterAdds(deliveriesOK + deliveriesFail, 1);
      CounterAdds(deliveriesOK + 1, deliveriesFail);
      CounterAdds(deliveriesFail + 1, deliveriesOK);
      CounterAdds(|deliveryDuration.observed|, 1);
      if ok {
        deliveriesOK := Counter(deliveriesOK + 1);
      } else {
        deliveriesFail := Counter(deliveriesFail + 1);
      }
      deliveryDuration.Observe(d);
    }

    /** A task fired a hair early counts as on time. */
    method ObserveLateness(d: int)
      requires Valid()
      modifies lateness, lateness.buckets
      ensures Valid() && lateness.observed == old(lateness.observed) + [Max(d, 0)]
    {
      lateness.Observe(Max(d, 0));
    }
  }
}
