/** Who owns a hash: the multiply-shift used for routing against the floor-division ranges
    published to clients. */
module HashPartition {
  import opened Wrappers
  import opened Powers

  /** Number of 64-bit hashes. */
  const SPACE: nat := 0x1_0000_0000_0000_0000

  const PORTS: nat := 0x1_0000

  /** The multiply-shift: index of the data shard that owns hash `h` among `d`. */
  function Owner(h: nat, d: nat): (i: nat)
  {
    (h * d) / SPACE
  }

  /** owner_shard and shard_for: the data shards are `first` up to `smp`. */
  function OwnerShard(h: nat, smp: nat, first: nat): (sid: nat)
  {
    if smp <= first then first else first + Owner(h, smp - first)
  }

  /** The inclusive bounds published for data shard `i` of `d`. */
  function Lo(i: nat, d: nat): (r: nat)
    requires d > 0
  {
    (SPACE * i) / d
  }

  function Hi(i: nat, d: nat): (r: int)
    requires d > 0
  {
    (SPACE * (i + 1)) / d - 1
  }

  // ---- division by its defining inequalities ----

  lemma Div(a: nat, b: nat)
    requires b > 0
    ensures b * (a / b) <= a < b * (a / b) + b
  {
  }

  lemma DivIs(a: nat, b: nat, q: nat)
    requires b > 0 && b * q <= a < b * q + b
    ensures a / b == q
  {
    Div(a, b);
    Cancel(b, q, a / b + 1);
    Cancel(b, a / b, q + 1);
  }

  lemma MulMono(b: nat, p: nat, q: nat)
    requires p <= q
    ensures b * p <= b * q
  {
  }

  lemma Cancel(b: nat, p: nat, q: nat)
    requires b * p < b * q
    ensures p < q
  {
  }

  lemma DivLess(a: nat, b: nat, q: nat)
    requires b > 0 && a < b * q
    ensures a / b < q
  {
  }

  // ---- ownership ----

  /** Every hash has an owner among the data shards. */
  lemma OwnerShardInRange(h: nat, smp: nat, first: nat)
    requires h < SPACE && first < smp
    ensures first <= OwnerShard(h, smp, first) < smp
  {
    var d := smp - first;
    MulMono(d, h + 1, SPACE);
    assert d * (h + 1) == h * d + d;
    DivLess(h * d, SPACE, d);
  }

  // ---- published ranges ----

  /** Range `i` holds hash `h`. */
  predicate InRange(h: nat, i: nat, d: nat)
    requires d > 0
  {
    Lo(i, d) <= h <= Hi(i, d)
  }

  /** `h` is at or above the lower end of range `i` exactly when 2^64 i < (h + 1) d. */
  lemma AboveLo(h: nat, i: nat, d: nat)
    requires d > 0
    ensures Lo(i, d) <= h <==> SPACE * i < (h + 1) * d
  {
    var q := Lo(i, d);
    Div(SPACE * i, d);
    if q <= h {
      MulMono(d, q + 1, h + 1);
      assert d * (q + 1) == d * q + d;
    } else {
      MulMono(d, h + 1, q);
    }
  }

  /** The published ranges tile the hash space: they start at 0, each ends where the next
      begins, the last ends at 2^64 - 1, and each holds at least one hash. */
  lemma RangesTile(d: nat, i: nat)
    requires 0 < d <= SPACE && i < d
    ensures Lo(0, d) == 0 && Hi(d - 1, d) == SPACE - 1
    ensures Hi(i, d) + 1 == Lo(i + 1, d)
    ensures Lo(i, d) <= Hi(i, d)
    ensures Hi(i, d) < SPACE
  {
    DivIs(SPACE * 0, d, 0);
    assert SPACE * d == d * SPACE;
    DivIs(SPACE * d, d, SPACE);
    RangeSizes(d, i);
    assert d * 1 <= SPACE;
    Div(SPACE, d);
    Cancel(d, 1, SPACE / d + 1);
    MulMono(SPACE, i + 1, d);
    Div(SPACE * (i + 1), d);
    Cancel(d, Lo(i + 1, d), SPACE + 1);
  }

  /** Their sizes differ by at most one. */
  lemma RangeSizes(d: nat, i: nat)
    requires d > 0
    ensures SPACE / d <= Hi(i, d) - Lo(i, d) + 1 <= SPACE / d + 1
  {
    var q, q', s := Lo(i, d), Lo(i + 1, d), SPACE / d;
    Div(SPACE * i, d);
    Div(SPACE * (i + 1), d);
    Div(SPACE, d);
    assert SPACE * (i + 1) == SPACE * i + SPACE;
    assert d * (q + s) == d * q + d * s;
    assert d * (q' + 1) == d * q' + d;
    assert d * (q + s + 2) == d * q + d * s + 2 * d;
    Cancel(d, q + s, q' + 1);
    Cancel(d, q', q + s + 2);
  }

  /** The number of the published range that holds `h`. */
  function Published(h: nat, d: nat): (i: nat)
    requires d > 0
  {
    ((h + 1) * d - 1) / SPACE
  }

  /** Every hash lies in exactly one published range. */
  lemma PublishedIs(h: nat, i: nat, d: nat)
    requires d > 0 && h < SPACE
    ensures InRange(h, i, d) <==> i == Published(h, d)
    ensures Published(h, d) < d
  {
    var a: nat := (h + 1) * d - 1;
    Div(a, SPACE);
    AboveLo(h, i, d);
    AboveLo(h, i + 1, d);
    assert SPACE * (i + 1) == SPACE * i + SPACE;
    if InRange(h, i, d) {
      DivIs(a, SPACE, i);
    }
    MulMono(d, h + 1, SPACE);
    DivLess(a, SPACE, d);
  }

  // ---- routing against the published ranges ----

  /** The hashes a client that follows the published ranges sends to the wrong shard: the
      lowest hash of a range whose exact lower end is not a whole number. */
  predicate Misrouted(h: nat, d: nat)
    requires d > 0
  {
    var i := Published(h, d);
    h == Lo(i, d) && (SPACE * i) % d != 0
  }

  /** The router agrees with the published ranges except exactly at the misrouted hashes,
      which it gives to the shard before. */
  lemma OwnerAgainstPublished(h: nat, d: nat)
    requires 0 < d <= SPACE && h < SPACE
    ensures Owner(h, d) == if Misrouted(h, d) then Published(h, d) - 1 else Published(h, d)
  {
    var i := Published(h, d);
    PublishedIs(h, i, d);
    AboveLo(h, i, d);
    AboveLo(h, i + 1, d);
    var a := SPACE * i;
    Div(a, d);
    assert (h + 1) * d == h * d + d;
    assert SPACE * (i + 1) == a + SPACE;
    if a <= h * d {
      // The exact end of the range is at or below h: the owner is i.
      DivIs(h * d, SPACE, i);
      if h == Lo(i, d) {
        assert a == d * (a / d) + a % d;
        assert d * h == h * d;
      }
    } else {
      BelowEnd(h, i, d);
    }
  }

  /** The exact end 2^64 i / d of the range lies strictly between `h` and `h + 1`. */
  lemma BelowEnd(h: nat, i: nat, d: nat)
    requires 0 < d <= SPACE && i == Published(h, d) && h < SPACE
    requires h * d < SPACE * i < (h + 1) * d
    ensures i > 0 && Misrouted(h, d) && Owner(h, d) == i - 1
  {
    var a := SPACE * i;
    assert i > 0;
    assert (h + 1) * d == h * d + d;
    assert d * h == h * d;
    DivIs(a, d, h);
    assert a == d * (a / d) + a % d;
    assert SPACE * (i - 1) == a - SPACE;
    DivIs(h * d, SPACE, i - 1);
  }

  /** The router sends a hash of range `i` to data shard `i`, except exactly the range's lowest
      hash when its exact lower end is not whole, which it sends to the shard before. */
  lemma RouterAgainstRange(h: nat, i: nat, smp: nat, first: nat)
    requires first < smp <= SPACE && h < SPACE && InRange(h, i, smp - first)
    ensures OwnerShard(h, smp, first) == first + i - (if h == Lo(i, smp - first) && (SPACE * i) % (smp - first) != 0 then 1 else 0)
  {
    PublishedIs(h, i, smp - first);
    OwnerAgainstPublished(h, smp - first);
  }

  /** The router and the published ranges agree on `h`: the owner's range holds it. */
  predicate Agree(h: nat, d: nat)
    requires d > 0
  {
    InRange(h, Owner(h, d), d)
  }

  /** They agree on every hash exactly when the number of data shards divides 2^64. */
  lemma AgreeEverywhere(d: nat)
    requires 0 < d <= SPACE
    ensures (forall h: nat | h < SPACE :: Agree(h, d)) <==> SPACE % d == 0
  {
    if SPACE % d == 0 {
      forall h: nat | h < SPACE ensures Agree(h, d) {
        Multiple(SPACE, Published(h, d), d);
        OwnerAgainstPublished(h, d);
        PublishedIs(h, Published(h, d), d);
      }
    } else {
      var h := Lo(1, d);
      assert d > 1;
      RangesTile(d, 1);
      PublishedIs(h, 1, d);
      OwnerAgainstPublished(h, d);
      PublishedIs(h, 0, d);
      assert !Agree(h, d);
    }
  }

  lemma Multiple(a: nat, k: nat, d: nat)
    requires d > 0 && a % d == 0
    ensures (a * k) % d == 0
  {
    var q := a / d;
    assert a == d * q;
    assert a * k == d * (q * k);
    DivIs(a * k, d, q * k);
    assert a * k == d * ((a * k) / d) + (a * k) % d;
  }

  // ---- which counts divide the hash space ----

  /** The divisors of a power of two are the smaller powers of two. */
  lemma {:induction false} DividesPower(d: nat, n: nat) returns (k: nat)
    requires d > 0 && Pow2(n) % d == 0
    ensures k <= n && d == Pow2(k)
  {
    var q := Pow2(n) / d;
    assert Pow2(n) == d * q;
    if n == 0 {
      Cancel(q, d, 2) by { assert q * d == 1; assert q > 0; }
      k := 0;
    } else if d % 2 == 0 {
      var e := d / 2;
      assert 2 * Pow2(n - 1) == 2 * (e * q);
      Exact(Pow2(n - 1), e, q);
      k := DividesPower(e, n - 1);
      k := k + 1;
    } else {
      OddFactor(d, q, Pow2(n - 1));
      Exact(Pow2(n - 1), d, q / 2);
      k := DividesPower(d, n - 1);
    }
  }

  lemma Exact(a: nat, d: nat, q: nat)
    requires d > 0 && a == d * q
    ensures a % d == 0
  {
    DivIs(a, d, q);
    assert a == d * (a / d) + a % d;
  }

  lemma OddFactor(d: nat, q: nat, a: nat)
    requires d % 2 == 1 && d * q == 2 * a
    ensures a == d * (q / 2)
  {
    var e, f := d / 2, q / 2;
    assert d == 2 * e + 1;
    var odd := q % 2;
    assert q == 2 * f + odd;
    assert d * q == 2 * (e * q) + q;
    assert odd == 0;
    assert d * (2 * f) == 2 * (d * f);
  }

  /** So routing and published ranges agree everywhere exactly for 1, 2, 4, 8, ... data shards. */
  lemma AgreeForPowersOfTwo(d: nat)
    requires 0 < d <= SPACE
    ensures (forall h: nat | h < SPACE :: Agree(h, d)) <==> exists k: nat :: d == Pow2(k)
  {
    AgreeEverywhere(d);
    TwoTo64();
    if SPACE % d == 0 {
      var k := DividesPower(d, 64);
    }
    if k: nat :| d == Pow2(k) {
      if k > 64 {
        PowLess(64, k);
      }
      PowSum(k, 64 - k);
      Exact(SPACE, d, Pow2(64 - k));
    }
  }

  // ---- the published table ----

  datatype HashRange = HashRange(lo: nat, hi: nat, shard: nat, port: nat)

  /** `v` covers the hash space with one range per data shard, in order and without gaps or
      overlaps, and no range is larger than another by more than one hash. */
  ghost predicate Tiles(v: seq<HashRange>, first: nat)
  {
    && (v != [] ==> v[0].lo == 0 && v[|v| - 1].hi == 0xFFFF_FFFF_FFFF_FFFF)
    && (forall i: nat | i < |v| :: v[i].lo <= v[i].hi && v[i].shard == first + i)
    && (forall i: nat, j: nat | i < |v| && j == i + 1 < |v| :: v[i].hi + 1 == v[j].lo)
    && (forall i: nat, j: nat | i < |v| && j < |v| :: v[i].hi - v[i].lo <= v[j].hi - v[j].lo + 1)
  }

  /** The entry published for data shard `i` of `d`. */
  function RangeFor(i: nat, d: nat, first: nat, basePort: nat): (r: HashRange)
    requires i < d <= SPACE
  {
    RangesTile(d, i);
    HashRange(Lo(i, d), Hi(i, d), first + i, (basePort + first + i) % PORTS)
  }

  /** The table of compute_hash_ranges; `published` is false where it answers the empty
      object. */
  method ComputeHashRanges(smp: nat, portOffset: bool, basePort: nat)
    returns (published: bool, v: seq<HashRange>)
    requires smp <= 0x1_0000_0000
    ensures published <==> smp > 0
    ensures published ==> |v| == smp - (if portOffset then 1 else 0)
    ensures published ==> Tiles(v, if portOffset then 1 else 0)
    ensures published ==> forall i: nat, h: nat | i < |v| && h < SPACE ::
              v[i].lo <= h <= v[i].hi <==> i == Published(h, |v|)
    ensures published ==>
              forall i: nat | i < |v| :: v[i] == RangeFor(i, |v|, if portOffset then 1 else 0, basePort)
    ensures published ==> forall i: nat | i < |v| :: v[i].port == (basePort + v[i].shard) % 0x1_0000
    ensures published ==> AllRouted(v, smp, if portOffset then 1 else 0)
  {
    var first: nat := if portOffset then 1 else 0;
    v := [];
    if smp == 0 || smp < first {
      return false, v;
    }
    var d := smp - first;
    for i := 0 to d
      invariant |v| == i
      invariant forall j: nat | j < i :: v[j] == RangeFor(j, d, first, basePort)
    {
      RangesTile(d, i);
      var sid := first + i;
      v := v + [HashRange((SPACE * i) / d, (SPACE * (i + 1)) / d - 1, sid, (basePort + sid) % PORTS)];
    }
    published := true;
    TableTiles(v, d, first);
    TableRouted(v, smp, first);
  }

  lemma TableRouted(v: seq<HashRange>, smp: nat, first: nat)
    requires first <= smp <= SPACE && |v| == smp - first
    requires forall j: nat | j < |v| :: v[j].lo == Lo(j, |v|) && v[j].hi == Hi(j, |v|) && v[j].shard == first + j
    ensures AllRouted(v, smp, first)
  {
    forall i: nat, h: nat | i < |v| && h < SPACE && v[i].lo <= h <= v[i].hi
      ensures Routed(h, i, v[i], OwnerShard(h, smp, first), |v|)
    {
      RouterAgainstRange(h, i, smp, first);
    }
  }

  /** `sid` is the shard that the entry `r`, number `i` of `d`, names for its hash `h`, or exactly
      at the lower end of a range whose exact end is not whole the shard before. */
  predicate Routed(h: nat, i: nat, r: HashRange, sid: nat, d: nat)
    requires d > 0
  {
    sid == r.shard - (if h == r.lo && (0x1_0000_0000_0000_0000 * i) % d != 0 then 1 else 0)
  }

  /** The router follows the table `v` that far. */
  ghost predicate AllRouted(v: seq<HashRange>, smp: nat, first: nat)
  {
    forall i: nat, h: nat | i < |v| && h < SPACE && v[i].lo <= h <= v[i].hi ::
      Routed(h, i, v[i], OwnerShard(h, smp, first), |v|)
  }

  /** compute_hash: a data shard is told exactly its own entry of that table. */
  method ComputeHash(smp: nat, portOffset: bool, basePort: nat, sid: nat) returns (r: Option<HashRange>)
    requires smp <= 0x1_0000_0000
    ensures var first: nat := if portOffset then 1 else 0;
            && (r.Some? <==> first <= sid < smp)
            && (r.Some? ==> r.value == RangeFor(sid - first, smp - first, first, basePort))
            && (r.Some? ==> r.value.shard == sid && r.value.port == (basePort + sid) % 0x1_0000)
            && (r.Some? ==> forall h: nat | h < SPACE && r.value.lo <= h <= r.value.hi ::
                  Routed(h, sid - first, r.value, OwnerShard(h, smp, first), smp - first))
  {
    var first: nat := if portOffset then 1 else 0;
    if smp == 0 || smp < first {
      return None;
    }
    var d := smp - first;
    if d == 0 || sid < first || sid >= smp {
      return None;
    }
    var i := sid - first;
    RangesTile(d, i);
    r := Some(HashRange((SPACE * i) / d, (SPACE * (i + 1)) / d - 1, sid, (basePort + sid) % PORTS));
    forall h: nat | h < SPACE && r.value.lo <= h <= r.value.hi
      ensures Routed(h, i, r.value, OwnerShard(h, smp, first), d)
    {
      RouterAgainstRange(h, i, smp, first);
    }
  }

  lemma TableTiles(v: seq<HashRange>, d: nat, first: nat)
    requires |v| == d <= SPACE
    requires forall j: nat | j < d :: v[j].lo == Lo(j, d) && v[j].hi == Hi(j, d) && v[j].shard == first + j
    ensures Tiles(v, first)
    ensures forall i: nat, h: nat | i < d && h < SPACE :: v[i].lo <= h <= v[i].hi <==> i == Published(h, d)
  {
    if d > 0 {
      var ends := seq(d + 1, (i: nat) => Lo(i, d));
      forall i: nat | i < d
        ensures v[i].lo == ends[i] <= v[i].hi && v[i].hi + 1 == ends[i + 1]
        ensures SPACE / d <= v[i].hi - v[i].lo + 1 <= SPACE / d + 1
      {
        RangesTile(d, i);
        RangeSizes(d, i);
      }
      RangesTile(d, d - 1);
      EndsTile(v, ends, first, SPACE / d);
      forall i: nat, h: nat | i < d && h < SPACE ensures v[i].lo <= h <= v[i].hi <==> i == Published(h, d) {
        PublishedIs(h, i, d);
      }
    }
  }

  lemma EndsTile(v: seq<HashRange>, ends: seq<nat>, first: nat, size: nat)
    requires v != [] && |ends| == |v| + 1 && ends[0] == 0 && ends[|v|] == SPACE
    requires forall i: nat | i < |v| :: v[i].lo == ends[i] <= v[i].hi && v[i].hi + 1 == ends[i + 1]
    requires forall i: nat | i < |v| :: size <= v[i].hi - v[i].lo + 1 <= size + 1
    requires forall i: nat | i < |v| :: v[i].shard == first + i
    ensures Tiles(v, first)
  {
  }
}
