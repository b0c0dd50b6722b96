/** The latency histogram of router_metrics.hh: power-of-two buckets, merging, quantiles. */
module LatencyHistogram {
  import opened Powers

  const BUCKETS: nat := 64

  /** Position of the highest set bit: 63 minus the count of leading zeros. */
  function Log2(us: nat): (i: nat)
    ensures us > 0 ==> Pow2(i) <= us < Pow2(i + 1)
    ensures us == 0 ==> i == 0
  {
    if us < 2 then 0 else 1 + Log2(us / 2)
  }

  /** A sample lies in bucket `i` or below exactly when it is less than 2^(i + 1). */
  lemma BucketBelow(us: nat, i: nat)
    ensures Log2(us) <= i <==> us < Pow2(i + 1)
  {
    var k := Log2(us);
    if us > 0 {
      if k < i {
        PowLess(k + 1, i + 1);
      } else if i + 1 < k {
        PowLess(i + 1, k);
      }
    }
  }

  // ---- counting samples ----

  /** How many samples are less than `x`. */
  function Below(samples: seq<nat>, x: nat): (n: nat)
    ensures n <= |samples|
  {
    if samples == [] then 0
    else Below(samples[..|samples| - 1], x) + (if samples[|samples| - 1] < x then 1 else 0)
  }

  /** How many samples lie in bucket `i`. */
  function InBucket(samples: seq<nat>, i: nat): (n: nat)
  {
    if samples == [] then 0
    else InBucket(samples[..|samples| - 1], i) + (if Log2(samples[|samples| - 1]) == i then 1 else 0)
  }

  lemma {:induction false} InBucketConcat(a: seq<nat>, b: seq<nat>, i: nat)
    ensures InBucket(a + b, i) == InBucket(a, i) + InBucket(b, i)
  {
    if b == [] {
      assert a + b == a;
    } else {
      InBucketConcat(a, b[..|b| - 1], i);
      assert (a + b)[..|a + b| - 1] == a + b[..|b| - 1];
    }
  }

  lemma InBucketMore(samples: seq<nat>, us: nat)
    ensures forall i: nat :: InBucket(samples + [us], i) == InBucket(samples, i) + (if Log2(us) == i then 1 else 0)
  {
    assert (samples + [us])[..|samples|] == samples;
  }

  /** Every 64-bit sample has its own bucket. */
  lemma FitsBuckets(us: nat)
    requires us < 0x1_0000_0000_0000_0000
    ensures Log2(us) < BUCKETS
  {
    TwoTo64();
    BucketBelow(us, 63);
  }

  /** Bucket `i` holds the samples from its power of two up to the next; the first also holds 0. */
  lemma {:induction false} InBucketIs(samples: seq<nat>, i: nat)
    ensures InBucket(samples, i) == Below(samples, Pow2(i + 1)) - (if i == 0 then 0 else Below(samples, Pow2(i)))
  {
    if samples == [] {
    } else {
      InBucketIs(samples[..|samples| - 1], i);
      var us := samples[|samples| - 1];
      BucketBelow(us, i);
      if i > 0 {
        BucketBelow(us, i - 1);
      }
    }
  }

  lemma {:induction false} BelowMonotone(samples: seq<nat>, x: nat, y: nat)
    requires x <= y
    ensures Below(samples, x) <= Below(samples, y)
  {
    if samples == [] {
    } else {
      BelowMonotone(samples[..|samples| - 1], x, y);
    }
  }

  lemma {:induction false} AllBelow(samples: seq<nat>, x: nat)
    requires forall i :: 0 <= i < |samples| ==> samples[i] < x
    ensures Below(samples, x) == |samples|
  {
    if samples == [] {
    } else {
      AllBelow(samples[..|samples| - 1], x);
    }
  }

  lemma AllFit(samples: seq<nat>)
    requires forall i :: 0 <= i < |samples| ==> samples[i] < 0x1_0000_0000_0000_0000
    ensures Below(samples, Pow2(BUCKETS)) == |samples|
  {
    TwoTo64();
    AllBelow(samples, Pow2(BUCKETS));
  }

  function Sum(counts: seq<nat>): (n: nat)
  {
    if counts == [] then 0 else Sum(counts[..|counts| - 1]) + counts[|counts| - 1]
  }

  /** The first buckets together hold the samples below the end of the last of them. */
  lemma {:induction false} BucketsSum(samples: seq<nat>, buckets: seq<nat>)
    requires forall i :: 0 <= i < |buckets| ==> buckets[i] == InBucket(samples, i)
    ensures Sum(buckets) == if buckets == [] then 0 else Below(samples, Pow2(|buckets|))
  {
    if buckets == [] {
    } else {
      BucketsSum(samples, buckets[..|buckets| - 1]);
      InBucketIs(samples, |buckets| - 1);
    }
  }

  // ---- quantiles ----

  /** `s` is the `rank`-th smallest sample. */
  predicate Ranked(samples: seq<nat>, rank: nat, s: nat)
  {
    Below(samples, s) < rank <= Below(samples, s + 1)
  }

  /** The rank that quantile `q` asks for among `count` samples. */
  function Rank(q: real, count: nat): (rank: nat)
    ensures count > 0 ==> 1 <= rank <= count
    ensures 0.0 <= q <= 1.0 ==> q * count as real <= rank as real
    ensures 0.0 <= q <= 1.0 && rank > 1 ==> (rank - 1) as real < q * count as real
    ensures q <= 0.0 ==> rank == 1
    ensures q >= 1.0 && count > 0 ==> rank == count
  {
    var p := if q < 0.0 then 0.0 else if q > 1.0 then 1.0 else q;
    var c := -((-(p * count as real)).Floor);
    if c <= 0 then 1 else CeilingFits(p, count); c
  }

  lemma CeilingFits(p: real, count: nat)
    requires 0.0 <= p <= 1.0
    ensures -((-(p * count as real)).Floor) <= count
  {
  }

  lemma {:induction false} NoneBelow(samples: seq<nat>)
    ensures Below(samples, 0) == 0
  {
    if samples == [] {
    } else {
      NoneBelow(samples[..|samples| - 1]);
    }
  }

  /** Every rank is that of a sample, and of one value only. */
  lemma {:induction false} RankedExists(samples: seq<nat>, rank: nat, bound: nat) returns (s: nat)
    requires 1 <= rank <= Below(samples, bound)
    ensures s < bound && Ranked(samples, rank, s) && s in samples
    ensures forall t: nat :: Ranked(samples, rank, t) ==> t == s
  {
    NoneBelow(samples);
    if Below(samples, bound - 1) >= rank {
      s := RankedExists(samples, rank, bound - 1);
    } else {
      s := bound - 1;
      Present(samples, s);
      forall t: nat | Ranked(samples, rank, t) ensures t == s {
        if t < s {
          BelowMonotone(samples, t + 1, s);
        } else if s < t {
          BelowMonotone(samples, s + 1, t);
        }
      }
    }
  }

  lemma {:induction false} Present(samples: seq<nat>, s: nat)
    requires Below(samples, s) < Below(samples, s + 1)
    ensures s in samples
  {
    if samples[|samples| - 1] == s {
    } else {
      Present(samples[..|samples| - 1], s);
    }
  }

  /** The bucket in which the cumulative count first reaches `rank` is that of the `rank`-th
      smallest sample. */
  lemma RankedBucket(samples: seq<nat>, rank: nat, s: nat, i: nat)
    requires Ranked(samples, rank, s)
    requires Below(samples, Pow2(i + 1)) >= rank && (i == 0 || Below(samples, Pow2(i)) < rank)
    ensures Log2(s) == i
  {
    if s >= Pow2(i + 1) {
      BelowMonotone(samples, Pow2(i + 1), s);
    }
    BucketBelow(s, i);
    if i > 0 {
      if s < Pow2(i) {
        BelowMonotone(samples, s + 1, Pow2(i));
      }
      BucketBelow(s, i - 1);
    }
  }

  /** A bucket's upper end is less than twice any sample in it, and not below the sample. */
  lemma BucketEnd(s: nat)
    ensures s <= Pow2(Log2(s) + 1) - 1
    ensures Pow2(Log2(s) + 1) - 1 <= (if s == 0 then 1 else 2 * s - 1)
  {
  }

  /** There is a `rank`-th smallest sample; `r` is at least it and less than twice it (1 for a zero). */
  ghost predicate Answers(samples: seq<nat>, rank: nat, r: nat)
  {
    exists s: nat :: Ranked(samples, rank, s) && s in samples && s <= r <= (if s == 0 then 1 else 2 * s - 1)
  }

  lemma FirstReached(samples: seq<nat>, rank: nat, i: nat)
    requires Below(samples, Pow2(i + 1)) >= rank >= 1 && (i == 0 || Below(samples, Pow2(i)) < rank)
    ensures Answers(samples, rank, Pow2(i + 1) - 1)
  {
    var s := RankedExists(samples, rank, Pow2(i + 1));
    RankedBucket(samples, rank, s, i);
    BucketEnd(s);
  }

  class Histogram {
    const buckets: array<nat>
    var count: nat
    /** The samples recorded so far. */
    ghost var samples: seq<nat>

    ghost predicate Valid()
      reads this, buckets
    {
      && buckets.Length == BUCKETS && count == |samples|
      && (forall i :: 0 <= i < |samples| ==> samples[i] < 0x1_0000_0000_0000_0000)
      && forall i :: 0 <= i < BUCKETS ==> buckets[i] == InBucket(samples, i)
    }

    constructor ()
      ensures Valid() && samples == [] && fresh(buckets)
    {
      buckets := new nat[BUCKETS](_ => 0);
      count := 0;
      samples := [];
    }

    /** The buckets together hold `count` samples. */
    lemma CountIsSum()
      requires Valid()
      ensures Sum(buckets[..]) == count
    {
      BucketsSum(samples, buckets[..]);
      AllFit(samples);
    }

    /** add_us: one more sample. */
    method AddUs(us: nat)
      requires Valid() && us < 0x1_0000_0000_0000_0000
      modifies this, buckets
      ensures Valid() && samples == old(samples) + [us]
    {
      count := count + 1;
      var idx := 0;
      FitsBuckets(us);
      if us != 0 {
        idx := Log2(us);
        if idx >= BUCKETS {
          idx := BUCKETS - 1;
        }
      }
      buckets[idx] := buckets[idx] + 1;
      InBucketMore(samples, us);
      samples := samples + [us];
    }

    /** merge_from: the samples of both; the two may be the same histogram. */
    method MergeFrom(other: Histogram)
      requires Valid() && other.Valid() && (other != this ==> other.buckets != buckets)
      modifies this, buckets
      ensures Valid() && samples == old(samples) + old(other.samples)
      ensures other != this ==> other.Valid()
    {
      count := count + other.count;
      AddBuckets(other.buckets);
      ghost var more := other.samples;
      forall i | 0 <= i < buckets.Length ensures buckets[i] == InBucket(samples + more, i) {
        InBucketConcat(samples, more, i);
      }
      samples := samples + more;
    }

    method AddBuckets(more: array<nat>)
      requires more.Length == buckets.Length
      modifies buckets
      ensures forall j :: 0 <= j < buckets.Length ==> buckets[j] == old(buckets[j]) + old(more[j])
    {
      for i := 0 to buckets.Length
        invariant forall j :: 0 <= j < i ==> buckets[j] == old(buckets[j]) + old(more[j])
        invariant forall j :: i <= j < buckets.Length ==> buckets[j] == old(buckets[j])
        invariant more != buckets ==> forall j :: 0 <= j < more.Length ==> more[j] == old(more[j])
      {
        buckets[i] := buckets[i] + more[i];
      }
    }

    /** The cumulative scan: the end of the first bucket that reaches `rank`. */
    method Scan(rank: nat) returns (r: nat)
      requires Valid() && 1 <= rank <= count
      ensures Answers(samples, rank, r)
    {
      var seen := 0;
      for i := 0 to BUCKETS
        invariant seen == if i == 0 then 0 else Below(samples, Pow2(i))
        invariant seen < rank
      {
        seen := seen + buckets[i];
        InBucketIs(samples, i);
        if seen >= rank {
          FirstReached(samples, rank, i);
          return Pow2(i + 1) - 1;
        }
      }
      AllFit(samples);
      assert false;
    }

    /** quantile_us: never below the sample of the asked rank, and less than twice it. */
    method QuantileUs(q: real) returns (r: nat)
      requires Valid()
      ensures if count == 0 then r == 0 else Answers(samples, Rank(q, count), r)
    {
      if count == 0 {
        return 0;
      }
      r := Scan(Rank(q, count));
    }
  }
}
