/** Two ways a write that was acknowledged cannot be read back. */
module LostWrites {
  import opened Wrappers
  import opened Bytes
  import opened SieveSpec
  import opened ShardSpec
  import opened ShardInvariant
  import opened ShardTheory
  import opened FreeSlots
  import opened ReadYourWrite
  import opened ShardRuns
  import LossyMap

  /** A plain set of a key whose expired entry has not been collected takes over that entry's
      expiry: it is acknowledged, but every later get misses. */
  lemma ExpiredLeftover<Id>(s: Shard<Id>, k: Key, v: Value, now: nat, minted: Id, cfg: Config, later: nat)
    requires Inv(s, cfg) && (s.free == [] ==> minted !in s.sv.ents) && now <= later
    requires StillThere(s, k, cfg) && IsExpired(now, s.sv.ents[s.table[k]].expiresAt)
    ensures Get(Set(s, k, v, None, now, minted, cfg), k, later, cfg).1 == None
  {
    WriteKept(s, k, v, None, now, minted, cfg);
    GetInv(Set(s, k, v, None, now, minted, cfg), k, later, cfg);
  }

  /** A pool of one entry, no probation, eviction always due. */
  predicate Tiny(cfg: Config)
  {
    cfg.maxSize == 1 && cfg.probMax == 0 && cfg.sieveBudget == 1 && cfg.softTrigger <= 0.0
  }

  /** The pool's one entry, in use and listed. */
  function Single<Id(==)>(e: Id, rec: Rec, table: map<Key, Id>): (s: Shard<Id>)
  {
    Shard(Sieve(map[e := rec], [e], 0), [], [], None, 0, 1, 0, table, 0, 0, {}, {})
  }

  function Holding(k: Key, v: Value, expiresAt: nat, visited: bool): (rec: Rec)
  {
    Rec(k, v, expiresAt, 0, 0, 0, visited, Sanctuary, true)
  }

  function ExpiryOr0(expiry: Option<nat>): (d: nat) { if expiry.Some? then expiry.value else 0 }

  lemma OneEntryPass<Id>(ents: map<Id, Rec>, e: Id, now: nat, budget: nat)
    requires e in ents && budget == 1
    ensures Pass(ents, [e], now, budget) == if Evictable(ents[e], now) then Scan([], [e], []) else Scan([e], [], [])
  {
  }

  lemma FirstAcquire<Id>(s: Shard<Id>, e: Id, minted: Id, cfg: Config)
    requires s == Initial([e]) && Tiny(cfg)
    ensures Acquire(Recorded(s), minted, cfg) == (Single(e, Holding([], [], 0, true), map[]), e)
  {
    assert s.sv.ents == map[e := BLANK];
    assert s.free[1..] == [] && [] + [e] == [e];
    var s1 := Put(s, e, BLANK.(inUse := true));
    assert s1.sv.ents == map[e := BLANK.(inUse := true)];
    assert s1.sv.ents[e := Holding([], [], 0, true)] == map[e := Holding([], [], 0, true)];
  }

  lemma FirstWritten<Id>(s: Shard<Id>, e: Id, k: Key, v: Value, expiry: Option<nat>, cfg: Config)
    requires s == Single(e, Holding([], [], 0, true), map[])
    ensures s.WF() && Written(s, e, k, v, expiry, cfg) == Single(e, Holding(k, v, ExpiryOr0(expiry), true), map[k := e])
  {
    var rec := Holding(k, v, ExpiryOr0(expiry), true);
    assert s.sv.ents[e := rec] == map[e := rec];
  }

  lemma FirstCheck<Id>(s: Shard<Id>, e: Id, k: Key, v: Value, d: nat, now: nat, cfg: Config)
    requires s == Single(e, Holding(k, v, d, true), map[k := e]) && Tiny(cfg) && !IsExpired(now, d)
    ensures s.WF() && CheckMemory(s, now, cfg) == Single(e, Holding(k, v, d, false), map[k := e])
  {
    OneEntryPass(s.sv.ents, e, now, cfg.sieveBudget);
    assert s.sv.list[0..] == [e];
    assert ClearBits(s.sv.ents, [e]) == map[e := Holding(k, v, d, false)];
    assert [] + [e] + [] == [e];
  }

  lemma SetParts<Id>(s: Shard<Id>, k: Key, v: Value, expiry: Option<nat>, now: nat, minted: Id, cfg: Config,
                     s1: Shard<Id>, e: Id, s2: Shard<Id>, r: Shard<Id>)
    requires s.WF() && s1.WF() && s2.WF() && e in s1.sv.ents
    requires Acquire(Recorded(s), minted, cfg) == (s1, e)
    requires Written(s1, e, k, v, expiry, cfg) == s2 && CheckMemory(s2, now, cfg) == r
    ensures Set(s, k, v, expiry, now, minted, cfg) == r
  {
  }

  /** The first set of `k` fills the pool, and its own pass clears the visited bit. */
  lemma FirstSet<Id>(s: Shard<Id>, e: Id, k: Key, v: Value, expiry: Option<nat>, now: nat, minted: Id, cfg: Config)
    requires s == Initial([e]) && Tiny(cfg) && !IsExpired(now, ExpiryOr0(expiry))
    ensures Set(s, k, v, expiry, now, minted, cfg) == Single(e, Holding(k, v, ExpiryOr0(expiry), false), map[k := e])
    ensures Inv(Set(s, k, v, expiry, now, minted, cfg), cfg)
  {
    var d := ExpiryOr0(expiry);
    var s1, s2 := Single(e, Holding([], [], 0, true), map[]), Single(e, Holding(k, v, d, true), map[k := e]);
    FirstAcquire(s, e, minted, cfg);
    FirstWritten(s1, e, k, v, expiry, cfg);
    FirstCheck(s2, e, k, v, d, now, cfg);
    SetParts(s, k, v, expiry, now, minted, cfg, s1, e, s2, Single(e, Holding(k, v, d, false), map[k := e]));
    InitialInv([e], cfg);
    SetInv(s, k, v, expiry, now, minted, cfg);
  }

  lemma NeglectedAfter<Id>(s: Shard<Id>, e: Id, k: Key, v: Value, d: nat, now: nat, cfg: Config)
    requires s == Single(e, Holding(k, v, d, false), map[k := e]) && Tiny(cfg)
    ensures s.WF() && Neglected(s, k, now, cfg)
  {
    OneEntryPass(s.sv.ents, e, now, cfg.sieveBudget);
    assert s.sv.list[0..] == [e];
  }

  lemma AlwaysDue<Id>(s: Shard<Id>, cfg: Config)
    requires Tiny(cfg)
    ensures DueAfterOverwrite(s, cfg)
  {
    assert FreeAfterOverwrite(s, cfg) <= 1;
  }

  /** A set that overwrites an unvisited key and is due for eviction loses it: on a fresh pool
      of one entry, the second set of a key is acknowledged and the get right after it
      misses. */
  lemma RewriteLost<Id>(s: Shard<Id>, e: Id, minted: Id, k: Key, v: Value, w: Value, now: nat, cfg: Config)
    requires s == Initial([e]) && minted != e && Tiny(cfg)
    ensures var s1 := Set(s, k, v, None, now, minted, cfg);
            var s2 := Set(s1, k, w, None, now, minted, cfg);
            Get(s2, k, now, cfg).1 == None
  {
    var s1 := Single(e, Holding(k, v, 0, false), map[k := e]);
    FirstSet(s, e, k, v, None, now, minted, cfg);
    NeglectedAfter(s1, e, k, v, 0, now, cfg);
    AlwaysDue(s1, cfg);
    LostWhen(s1, k, w, now, minted, cfg);
  }

  lemma LostWhen<Id>(s: Shard<Id>, k: Key, w: Value, now: nat, minted: Id, cfg: Config)
    requires Inv(s, cfg) && (s.free == [] ==> minted !in s.sv.ents)
    requires DueAfterOverwrite(s, cfg) && Neglected(s, k, now, cfg) && s.sv.ents[s.table[k]].expiresAt == 0
    ensures Get(Set(s, k, w, None, now, minted, cfg), k, now, cfg).1 == None
  {
    WriteKept(s, k, w, None, now, minted, cfg);
    GetInv(Set(s, k, w, None, now, minted, cfg), k, now, cfg);
  }

  /** A run into `ExpiredLeftover`: a set with a TTL on a fresh pool of one entry, a plain set of
      the same key after that TTL, and a get that misses. */
  lemma LeftoverReached<Id>(s: Shard<Id>, e: Id, minted: Id, k: Key, v: Value, w: Value, ttl: nat, now: nat, then_: nat,
                            later: nat, cfg: Config)
    requires s == Initial([e]) && minted != e && Tiny(cfg)
    requires 1 <= ttl && now + ttl < TWO_64 && now + ttl <= then_ <= later
    ensures var s1 := Set(s, k, v, Some(LossyMap.Deadline(now, ttl)), now, minted, cfg);
            var s2 := Set(s1, k, w, None, then_, minted, cfg);
            Get(s2, k, later, cfg).1 == None
  {
    var d := LossyMap.Deadline(now, ttl);
    assert d == now + ttl;
    var s1 := Single(e, Holding(k, v, d, false), map[k := e]);
    FirstSet(s, e, k, v, Some(d), now, minted, cfg);
    ExpiredLeftover(s1, k, w, then_, minted, cfg, later);
  }
}
