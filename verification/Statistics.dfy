/** The shard's statistics: the eviction counters count exactly the keys that went. */
module Statistics {
  import opened Wrappers
  import opened SieveSpec
  import opened ShardSpec
  import opened ShardInvariant
  import opened ShardTheory
  import opened FreeSlots

  /** Neither counter has moved. */
  predicate SameCounts<Id>(s: Shard<Id>, r: Shard<Id>) { r.evictions == s.evictions && r.reaped == s.reaped }

  lemma ReleaseCounts<Id>(s: Shard<Id>, e: Id, cfg: Config)
    requires s.WF() && e in s.sv.ents
    ensures SameCounts(s, Release(s, e, cfg)) && Release(s, e, cfg).table == s.table
  {
  }

  lemma PromoteCounts<Id>(s: Shard<Id>, e: Id)
    requires s.WF() && e in s.sv.ents
    ensures SameCounts(s, Promote(s, e))
  {
  }

  lemma EvictKeyCounts<Id>(s: Shard<Id>, k: Key, cfg: Config)
    requires s.WF() && k in s.table
    ensures var r := EvictKey(s, k, cfg); r.evictions == s.evictions + 1 && r.reaped == s.reaped && r.table == s.table - {k}
  {
    ReleaseCounts(s.(table := s.table - {k}), s.table[k], cfg);
  }

  lemma {:induction false} EvictKeysCounts<Id>(s: Shard<Id>, keys: seq<Key>, cfg: Config)
    requires s.WF() && NoDup(keys) && forall k :: k in keys ==> k in s.table
    ensures var r := EvictKeys(s, keys, cfg); r.evictions == s.evictions + |keys| && r.reaped == s.reaped
    decreases |keys|
  {
    if keys == [] {
    } else {
      EvictKeyCounts(s, keys[0], cfg);
      assert forall k :: k in keys[1..] ==> k in keys && k != keys[0];
      EvictKeysCounts(EvictKey(s, keys[0], cfg), keys[1..], cfg);
    }
  }

  /** The reaper counts what it takes, in both counters. */
  lemma ReapCounts<Id>(s: Shard<Id>, cfg: Config, held: set<Id>, owed: nat)
    requires During(s, cfg, held, {}, {}, owed) && forall e :: e in held ==> e !in s.prob
    ensures var r := Reap(s, cfg); r.evictions == s.evictions + ReapCount(s, cfg) && r.reaped == s.reaped + ReapCount(s, cfg)
  {
    var taken := s.prob[..ReapCount(s, cfg)];
    assert NoDup(taken) by {
      Unseal(s, cfg, held, {}, {}, owed);
    }
    if s.prob != [] {
      var s1, lp := Reaped(s, cfg), set e | e in taken;
      ReapedInv(s, cfg, held, owed);
      VictimKeys(s1, taken, s.sv.ents, cfg, held, lp, {}, owed);
      EvictKeysCounts(s1, KeysOf(s.sv.ents, taken), cfg);
    }
  }

  lemma AcquireCounts<Id>(s: Shard<Id>, minted: Id, cfg: Config)
    requires During(s, cfg, {}, {}, {}, Owed(s)) && (s.free == [] ==> minted !in s.sv.ents)
    ensures var r := Acquire(s, minted, cfg).0;
            r.evictions == s.evictions + ReapedNow(s, cfg) && r.reaped == s.reaped + ReapedNow(s, cfg)
  {
    if cfg.probMax == 0 {
    } else if s.free == [] {
      OrphanCounts(s, minted, cfg);
    } else {
      ReapCounts(s, cfg, {}, 0);
    }
  }

  lemma OrphanCounts<Id>(s: Shard<Id>, minted: Id, cfg: Config)
    requires During(s, cfg, {}, {}, {}, 1) && cfg.probMax > 0 && s.free == [] && minted !in s.sv.ents
    ensures var r := AcquireProb(s, minted, cfg).0;
            r.evictions == s.evictions + ReapCount(s, cfg) && r.reaped == s.reaped + ReapCount(s, cfg)
  {
    var s1 := Put(s, minted, BLANK.(inUse := true, poolType := Probation));
    var s2 := s1.(probCount := s.probCount + 1, orphans := s.orphans + {minted});
    OrphanInv(s, minted, s2, cfg);
    ReapCounts(s2, cfg, {minted}, 0);
  }

  lemma WrittenCounts<Id>(s: Shard<Id>, e: Id, k: Key, v: Value, expiry: Option<nat>, cfg: Config)
    requires s.WF() && e in s.sv.ents
    ensures SameCounts(s, Written(s, e, k, v, expiry, cfg))
  {
    var s1 := Filled(s, e, k, v, expiry);
    if k in s1.table {
      var o := s1.table[k];
      var s2 := Put(s1, o, UpdateFrom(s1.sv.ents[o], s1.sv.ents[e], expiry.Some?));
      PromoteCounts(s2, o);
      ReleaseCounts(Promote(s2, o), e, cfg);
    }
  }

  lemma InsertionCounts<Id>(s: Shard<Id>, k: Key, v: Value, expiry: Option<nat>, minted: Id, cfg: Config)
    requires Inv(s, cfg) && (s.free == [] ==> minted !in s.sv.ents)
    ensures var r := Insertion(s, k, v, expiry, minted, cfg);
            r.evictions == s.evictions + ReapedNow(s, cfg) && r.reaped == s.reaped + ReapedNow(s, cfg)
  {
    RecordedInv(s, cfg);
    AcquireCounts(Recorded(s), minted, cfg);
    var (s1, e) := Acquire(Recorded(s), minted, cfg);
    WrittenCounts(s1, e, k, v, expiry, cfg);
  }

  lemma CheckCounts<Id>(s: Shard<Id>, now: nat, cfg: Config)
    requires Inv(s, cfg)
    ensures var r := CheckMemory(s, now, cfg);
            r.evictions == s.evictions + (if Triggered(s, cfg) then |Victims(s, now, cfg)| else 0) && r.reaped == s.reaped
  {
    if Triggered(s, cfg) {
      var vs, s1 := Victims(s, now, cfg), s.(sv := Evict(s.sv, now, cfg.sieveBudget));
      EvictInv(s, now, cfg);
      VictimKeys(s1, vs, s.sv.ents, cfg, {}, {}, (set e | e in vs), 0);
      EvictKeysCounts(s1, KeysOf(s.sv.ents, vs), cfg);
    }
  }

  /** A set counts as evictions exactly the keys it loses: the reaper's and its pass's; the
      reaper's own counter counts the first of them. */
  lemma SetCounts<Id>(s: Shard<Id>, k: Key, v: Value, expiry: Option<nat>, now: nat, minted: Id, cfg: Config)
    requires Inv(s, cfg) && (s.free == [] ==> minted !in s.sv.ents)
    ensures var r, mid := Set(s, k, v, expiry, now, minted, cfg), Insertion(s, k, v, expiry, minted, cfg);
            && r.evictions == s.evictions + |ReapedKeys(s, cfg)| + |EvictedKeys(mid, now, cfg)|
            && r.reaped == s.reaped + |ReapedKeys(s, cfg)|
  {
    InsertionCounts(s, k, v, expiry, minted, cfg);
    InsertionInv(s, k, v, expiry, minted, cfg);
    CheckCounts(Insertion(s, k, v, expiry, minted, cfg), now, cfg);
    ReapedSize(s, cfg);
    EvictedSize(Insertion(s, k, v, expiry, minted, cfg), now, cfg);
  }

  lemma ReapedSize<Id>(s: Shard<Id>, cfg: Config)
    requires Inv(s, cfg)
    ensures |ReapedKeys(s, cfg)| == ReapedNow(s, cfg)
  {
    var taken := s.prob[..ReapCount(s, cfg)];
    assert NoDup(taken) by {
      Unseal(s, cfg, {}, {}, {}, 0);
    }
    if Reaps(s, cfg) && s.prob != [] {
      var lp := set e | e in taken;
      ReapedInv(s, cfg, {}, 0);
      VictimKeys(Reaped(s, cfg), taken, s.sv.ents, cfg, {}, lp, {}, 0);
      SetSize(KeysOf(s.sv.ents, taken));
    }
  }

  lemma EvictedSize<Id>(s: Shard<Id>, now: nat, cfg: Config)
    requires Inv(s, cfg)
    ensures |EvictedKeys(s, now, cfg)| == if Triggered(s, cfg) then |Victims(s, now, cfg)| else 0
  {
    if Triggered(s, cfg) {
      var vs := Victims(s, now, cfg);
      EvictInv(s, now, cfg);
      VictimKeys(s.(sv := Evict(s.sv, now, cfg.sieveBudget)), vs, s.sv.ents, cfg, {}, {}, (set e | e in vs), 0);
      SetSize(KeysOf(s.sv.ents, vs));
    }
  }

  /** A get counts nothing, not even a key it drops because it has expired. */
  lemma GetCounts<Id>(s: Shard<Id>, k: Key, now: nat, cfg: Config)
    requires s.WF()
    ensures SameCounts(s, Get(s, k, now, cfg).0)
  {
    if k in s.table {
      var e := s.table[k];
      ReleaseCounts(s.(sv := Erase(s.sv, e), table := s.table - {k}), e, cfg);
      PromoteCounts(s, e);
    }
  }
}
