/** The cumulative histogram (backend/internal/metrics/metrics.go, lines 103-132 and 260-282).
    Observations and bounds are reals; the mutex makes every method atomic. */
module Histogram {
  import opened Ordering

  predicate Less(a: real, b: real)
  {
    a < b
  }

  /** How many observations are at most `bound`. */
  function CountAtMost(obs: seq<real>, bound: real): nat
  {
    if obs == [] then 0 else CountAtMost(obs[..|obs| - 1], bound) + (if obs[|obs| - 1] <= bound then 1 else 0)
  }

  function Total(obs: seq<real>): real
  {
    if obs == [] then 0.0 else Total(obs[..|obs| - 1]) + obs[|obs| - 1]
  }

  lemma CountAppend(obs: seq<real>, v: real, bound: real)
    ensures CountAtMost(obs + [v], bound) == CountAtMost(obs, bound) + (if v <= bound then 1 else 0)
  {
    assert (obs + [v])[..|obs|] == obs;
  }

  lemma {:induction false} CountIsCardinality(obs: seq<real>, bound: real)
    ensures CountAtMost(obs, bound) == |set i | 0 <= i < |obs| && obs[i] <= bound|
  {
    var within := set i | 0 <= i < |obs| && obs[i] <= bound;
    if obs == [] {
      assert within == {};
    } else {
      var n := |obs| - 1;
      CountIsCardinality(obs[..n], bound);
      var rest := set i | 0 <= i < |obs[..n]| && obs[..n][i] <= bound;
      assert within == rest + if obs[n] <= bound then {n} else {};
    }
  }

  /** The running sum: nothing at first, then each observation added. */
  lemma TotalAdds(obs: seq<real>, v: real)
    ensures Total([]) == 0.0 && Total(obs + [v]) == Total(obs) + v
  {
    assert (obs + [v])[..|obs|] == obs;
  }

  lemma {:induction false} CountsNeverDecrease(obs: seq<real>, a: real, b: real)
    requires a <= b
    ensures CountAtMost(obs, a) <= CountAtMost(obs, b) <= |obs|
  {
    if obs != [] {
      CountsNeverDecrease(obs[..|obs| - 1], a, b);
    }
  }

  datatype Bound = Le(upTo: real) | PlusInf
  datatype Line = Line(bound: Bound, count: int)

  /** What a scrape owes a histogram: one cumulative line per bound, in ascending order and never
      decreasing, a +Inf line equal to the number of observations, their sum and their number. */
  ghost predicate Exposition(bounds: seq<real>, obs: seq<real>, lines: seq<Line>, sum: real, count: int)
  {
    && |lines| == |bounds| + 1
    && (forall i | 0 <= i < |bounds| :: lines[i] == Line(Le(bounds[i]), CountAtMost(obs, bounds[i])))
    && lines[|bounds|] == Line(PlusInf, |obs|)
    && (forall i, j | 0 <= i < j < |lines| :: lines[i].count <= lines[j].count)
    && sum == Total(obs) && count == |obs|
  }

  lemma ExpositionIsCumulative(bounds: seq<real>, obs: seq<real>, lines: seq<Line>)
    requires Sorted(Less, bounds) && |lines| == |bounds| + 1
    requires forall i | 0 <= i < |bounds| :: lines[i] == Line(Le(bounds[i]), CountAtMost(obs, bounds[i]))
    requires lines[|bounds|] == Line(PlusInf, |obs|)
    ensures forall i, j | 0 <= i < j < |lines| :: lines[i].count <= lines[j].count
  {
    forall i, j | 0 <= i < j < |lines|
      ensures lines[i].count <= lines[j].count
    {
      CountsNeverDecrease(obs, bounds[i], if j < |bounds| then bounds[j] else bounds[i]);
    }
  }

  class Histogram {
    var buckets: array<real>
    var counts: array<int>
    var sum: real
    var total: int
    ghost var obs: seq<real>

    ghost predicate Valid()
      reads this, buckets, counts
    {
      && buckets.Length == counts.Length
      && Sorted(Less, buckets[..])
      && (forall i | 0 <= i < counts.Length :: counts[i] == CountAtMost(obs, buckets[i]))
      && sum == Total(obs) && total == |obs|
    }

    /** `NewHistogram`: copies the bounds, in whatever order they come, and sorts the copy in place. */
    constructor (bounds: seq<real>)
      ensures Valid() && obs == [] && fresh(buckets) && fresh(counts)
      ensures multiset(buckets[..]) == multiset(bounds)
    {
      var b := new real[|bounds|](i requires 0 <= i < |bounds| => bounds[i]);
      assert b[..] == bounds;
      SortInPlace(b, Less);
      buckets := b;
      counts := new int[|bounds|](_ => 0);
      sum, total, obs := 0.0, 0, [];
    }

    method Observe(v: real)
      requires Valid()
      modifies this, counts
      ensures Valid() && obs == old(obs) + [v]
      ensures buckets == old(buckets) && counts == old(counts)
    {
      var i := 0;
      while i < buckets.Length
        invariant 0 <= i <= buckets.Length
        invariant buckets == old(buckets) && counts == old(counts)
        invariant sum == old(sum) && total == old(total) && obs == old(obs)
        invariant forall j | 0 <= j < i :: counts[j] == CountAtMost(obs, buckets[j]) + (if v <= buckets[j] then 1 else 0)
        invariant forall j | i <= j < counts.Length :: counts[j] == CountAtMost(obs, buckets[j])
        modifies counts
      {
        if v <= buckets[i] {
          counts[i] := counts[i] + 1;
        }
        i := i + 1;
      }
      forall j | 0 <= j < counts.Length
        ensures counts[j] == CountAtMost(obs + [v], buckets[j])
      {
        CountAppend(obs, v, buckets[j]);
      }
      assert (obs + [v])[..|obs|] == obs;
      sum := sum + v;
      total := total + 1;
      obs := obs + [v];
    }

    /** `writeHistogram`, without the text around the numbers. */
    method Write() returns (lines: seq<Line>, outSum: real, outCount: int)
      requires Valid()
      ensures Exposition(buckets[..], obs, lines, outSum, outCount)
    {
      lines := [];
      var i := 0;
      while i < buckets.Length
        invariant 0 <= i == |lines| <= buckets.Length
        invariant forall j | 0 <= j < i :: lines[j] == Line(Le(buckets[j]), CountAtMost(obs, buckets[j]))
      {
        lines := lines + [Line(Le(buckets[i]), counts[i])];
        i := i + 1;
      }
      lines := lines + [Line(PlusInf, total)];
      ExpositionIsCumulative(buckets[..], obs, lines);
      outSum, outCount := sum, total;
    }
  }
}
