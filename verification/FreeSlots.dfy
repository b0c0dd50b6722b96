/** How many entries are free after a set overwrites a key, from the state before it. */
module FreeSlots {
  import opened Wrappers
  import opened SieveSpec
  import opened ShardSpec
  import opened ShardInvariant
  import opened ShardTheory

  function Min(a: nat, b: nat): nat { if a < b then a else b }

  lemma ReleaseFree<Id>(s: Shard<Id>, e: Id, cfg: Config)
    requires s.WF() && e in s.sv.ents && |s.free| <= cfg.maxSize
    ensures |Release(s, e, cfg).free| == Min(cfg.maxSize, |s.free| + 1)
    ensures Release(s, e, cfg).table == s.table
  {
  }

  lemma {:induction false} EvictKeysFree<Id>(s: Shard<Id>, keys: seq<Key>, cfg: Config)
    requires s.WF() && |s.free| <= cfg.maxSize && NoDup(keys) && forall k :: k in keys ==> k in s.table
    ensures |EvictKeys(s, keys, cfg).free| == Min(cfg.maxSize, |s.free| + |keys|)
    decreases |keys|
  {
    if keys == [] {
    } else {
      var k, s1 := keys[0], EvictKey(s, keys[0], cfg);
      EvictKeyFree(s, k, cfg);
      assert forall x :: x in keys[1..] ==> x in s1.table;
      EvictKeysFree(s1, keys[1..], cfg);
    }
  }

  lemma EvictKeyFree<Id>(s: Shard<Id>, k: Key, cfg: Config)
    requires s.WF() && |s.free| <= cfg.maxSize && k in s.table
    ensures |EvictKey(s, k, cfg).free| == Min(cfg.maxSize, |s.free| + 1)
    ensures EvictKey(s, k, cfg).table == s.table - {k}
  {
    ReleaseFree(s.(table := s.table - {k}), s.table[k], cfg);
  }

  lemma ReapFree<Id>(s: Shard<Id>, cfg: Config, held: set<Id>, owed: nat)
    requires During(s, cfg, held, {}, {}, owed) && forall e :: e in held ==> e !in s.prob
    ensures |s.free| <= cfg.maxSize
    ensures |Reap(s, cfg).free| == Min(cfg.maxSize, |s.free| + ReapCount(s, cfg))
  {
    var taken := s.prob[..ReapCount(s, cfg)];
    assert |s.free| <= cfg.maxSize && NoDup(taken) by {
      Unseal(s, cfg, held, {}, {}, owed);
    }
    if s.prob != [] {
      var s1, lp := Reaped(s, cfg), set e | e in taken;
      ReapedInv(s, cfg, held, owed);
      VictimKeys(s1, taken, s.sv.ents, cfg, held, lp, {}, owed);
      EvictKeysFree(s1, KeysOf(s.sv.ents, taken), cfg);
    }
  }

  /** How many entries the reaper of an acquisition takes. */
  ghost function ReapedNow<Id>(s: Shard<Id>, cfg: Config): nat
  {
    if Reaps(s, cfg) then ReapCount(s, cfg) else 0
  }

  lemma AcquireFree<Id>(s: Shard<Id>, minted: Id, cfg: Config)
    requires During(s, cfg, {}, {}, {}, Owed(s)) && (s.free == [] ==> minted !in s.sv.ents)
    ensures |Acquire(s, minted, cfg).0.free|
         == Min(cfg.maxSize, |s.free| + ReapedNow(s, cfg)) - (if s.free == [] then 0 else 1)
  {
    if cfg.probMax == 0 {
      Unseal(s, cfg, {}, {}, {}, Owed(s));
    } else if s.free == [] {
      OrphanFree(s, minted, cfg);
    } else {
      ReapFree(s, cfg, {}, 0);
    }
  }

  lemma OrphanFree<Id>(s: Shard<Id>, minted: Id, cfg: Config)
    requires During(s, cfg, {}, {}, {}, 1) && cfg.probMax > 0 && s.free == [] && minted !in s.sv.ents
    ensures |AcquireProb(s, minted, cfg).0.free| == Min(cfg.maxSize, ReapCount(s, cfg))
  {
    var s1 := Put(s, minted, BLANK.(inUse := true, poolType := Probation));
    var s2 := s1.(probCount := s.probCount + 1, orphans := s.orphans + {minted});
    OrphanInv(s, minted, s2, cfg);
    ReapFree(s2, cfg, {minted}, 0);
  }

  lemma OverwriteFree<Id>(s: Shard<Id>, k: Key, e: Id, withTtl: bool, cfg: Config)
    requires s.WF() && k in s.table && e in s.sv.ents && |s.free| <= cfg.maxSize
    ensures |Overwrite(s, k, e, withTtl, cfg).free| == Min(cfg.maxSize, |s.free| + 1)
  {
    var o := s.table[k];
    var s1 := Put(s, o, UpdateFrom(s.sv.ents[o], s.sv.ents[e], withTtl));
    PromoteFree(s1, o);
    ReleaseFree(Promote(s1, o), e, cfg);
  }

  lemma PromoteFree<Id>(s: Shard<Id>, o: Id)
    requires s.WF() && o in s.sv.ents
    ensures Promote(s, o).free == s.free
  {
  }

  /** The free entries after a set has overwritten a key: what is free now, or the one entry
      made new, and what the reaper frees, up to the pool's size. */
  ghost function FreeAfterOverwrite<Id>(s: Shard<Id>, cfg: Config): nat
  {
    Min(cfg.maxSize, (if s.free == [] then 1 else |s.free|) + ReapedNow(s, cfg))
  }

  lemma WrittenFree<Id>(s: Shard<Id>, e: Id, k: Key, v: Value, expiry: Option<nat>, cfg: Config)
    requires s.WF() && e in s.sv.ents && k in s.table && |s.free| <= cfg.maxSize
    ensures |Written(s, e, k, v, expiry, cfg).free| == Min(cfg.maxSize, |s.free| + 1)
  {
    OverwriteFree(Filled(s, e, k, v, expiry), k, e, expiry.Some?, cfg);
  }

  lemma InsertionFree<Id>(s: Shard<Id>, k: Key, v: Value, expiry: Option<nat>, minted: Id, cfg: Config)
    requires Inv(s, cfg) && (s.free == [] ==> minted !in s.sv.ents)
    requires k in s.table && k !in ReapedKeys(s, cfg)
    ensures |Insertion(s, k, v, expiry, minted, cfg).free| == FreeAfterOverwrite(s, cfg)
  {
    var (s1, e) := Acquire(Recorded(s), minted, cfg);
    AcquiredFree(s, minted, cfg, s1, e);
    WrittenFree(s1, e, k, v, expiry, cfg);
  }

  lemma AcquiredFree<Id>(s: Shard<Id>, minted: Id, cfg: Config, s1: Shard<Id>, e: Id)
    requires Inv(s, cfg) && (s.free == [] ==> minted !in s.sv.ents) && (s1, e) == Acquire(Recorded(s), minted, cfg)
    ensures s1.WF() && e in s1.sv.ents && s1.table == s.table - ReapedKeys(s, cfg)
    ensures |s.free| <= cfg.maxSize && |s1.free| <= cfg.maxSize
    ensures |s1.free| == Min(cfg.maxSize, |s.free| + ReapedNow(s, cfg)) - (if s.free == [] then 0 else 1)
  {
    RecordedInv(s, cfg);
    AcquireInv(Recorded(s), minted, cfg);
    AcquireFree(Recorded(s), minted, cfg);
    FreeBounded(s1, cfg, {e}, 0);
    FreeBounded(Recorded(s), cfg, {}, Owed(s));
  }

  lemma FreeBounded<Id>(s: Shard<Id>, cfg: Config, held: set<Id>, owed: nat)
    requires During(s, cfg, held, {}, {}, owed)
    ensures |s.free| <= cfg.maxSize
  {
    Unseal(s, cfg, held, {}, {}, owed);
  }

  /** The eviction check of a set that overwrites a key is due: the fraction of the pool that
      will be in use has reached the trigger. */
  ghost predicate DueAfterOverwrite<Id>(s: Shard<Id>, cfg: Config)
  {
    && cfg.maxSize != 0
    && (cfg.maxSize - FreeAfterOverwrite(s, cfg)) as real / (cfg.maxSize as real) >= cfg.softTrigger
  }

  lemma DueIs<Id>(s: Shard<Id>, k: Key, v: Value, expiry: Option<nat>, minted: Id, cfg: Config)
    requires Inv(s, cfg) && (s.free == [] ==> minted !in s.sv.ents)
    requires k in s.table && k !in ReapedKeys(s, cfg)
    ensures Triggered(Insertion(s, k, v, expiry, minted, cfg), cfg) <==> DueAfterOverwrite(s, cfg)
  {
    InsertionFree(s, k, v, expiry, minted, cfg);
  }

  /** The free entries after any set, from the state before it: an overwrite gives an entry back,
      a new key keeps one. */
  ghost function FreeAfterSet<Id>(s: Shard<Id>, k: Key, cfg: Config): int
    requires s.WF()
  {
    if k in s.table && k !in ReapedKeys(s, cfg) then FreeAfterOverwrite(s, cfg)
    else Min(cfg.maxSize, |s.free| + ReapedNow(s, cfg)) - (if s.free == [] then 0 else 1)
  }

  lemma SetFree<Id>(s: Shard<Id>, k: Key, v: Value, expiry: Option<nat>, minted: Id, cfg: Config)
    requires Inv(s, cfg) && (s.free == [] ==> minted !in s.sv.ents)
    ensures |Insertion(s, k, v, expiry, minted, cfg).free| == FreeAfterSet(s, k, cfg)
  {
    if k in s.table && k !in ReapedKeys(s, cfg) {
      InsertionFree(s, k, v, expiry, minted, cfg);
    } else {
      var (s1, e) := Acquire(Recorded(s), minted, cfg);
      AcquiredFree(s, minted, cfg, s1, e);
    }
  }

  /** The eviction check of a set is due exactly when the entries that will be in use reach the
      trigger's share of a pool that has entries at all; an exhausted pool reaches every share
      up to the whole. */
  lemma SetDue<Id>(s: Shard<Id>, k: Key, v: Value, expiry: Option<nat>, minted: Id, cfg: Config)
    requires Inv(s, cfg) && (s.free == [] ==> minted !in s.sv.ents)
    ensures var used := cfg.maxSize - FreeAfterSet(s, k, cfg);
            && 0 <= used <= cfg.maxSize
            && (Triggered(Insertion(s, k, v, expiry, minted, cfg), cfg) <==>
                  cfg.maxSize > 0 && cfg.softTrigger * (cfg.maxSize as real) <= used as real)
  {
    SetFree(s, k, v, expiry, minted, cfg);
    InsertionInv(s, k, v, expiry, minted, cfg);
    DueBy(Insertion(s, k, v, expiry, minted, cfg), cfg, FreeAfterSet(s, k, cfg));
  }

  lemma DueBy<Id>(r: Shard<Id>, cfg: Config, free: int)
    requires Inv(r, cfg) && |r.free| == free
    ensures 0 <= cfg.maxSize - free <= cfg.maxSize
    ensures Triggered(r, cfg) <==> cfg.maxSize > 0 && cfg.softTrigger * (cfg.maxSize as real) <= (cfg.maxSize - free) as real
  {
    FreeBounded(r, cfg, {}, 0);
    Fraction(cfg.maxSize - free, cfg.maxSize, cfg.softTrigger);
  }

  lemma Fraction(used: nat, size: nat, share: real)
    ensures size > 0 ==> (used as real / size as real >= share <==> share * (size as real) <= used as real)
  {
    if size > 0 {
      Ratio(used as real, size as real, share);
    }
  }

  lemma Ratio(a: real, b: real, share: real)
    requires b > 0.0
    ensures a / b >= share <==> share * b <= a
  {
    var q := a / b;
    assert q * b == a;
  }

  // ---- the order of the pool ----

  lemma {:induction false} EvictKeysAppend<Id>(s: Shard<Id>, keys: seq<Key>, cfg: Config)
    requires s.WF()
    ensures s.free <= EvictKeys(s, keys, cfg).free
    decreases |keys|
  {
    if keys == [] {
    } else {
      EvictKeyAppend(s, keys[0], cfg);
      EvictKeysAppend(EvictKey(s, keys[0], cfg), keys[1..], cfg);
    }
  }

  lemma EvictKeyAppend<Id>(s: Shard<Id>, k: Key, cfg: Config)
    requires s.WF()
    ensures s.free <= EvictKey(s, k, cfg).free
  {
    if k in s.table {
      ReleaseAppend(s.(table := s.table - {k}), s.table[k], cfg);
    }
  }

  lemma ReleaseAppend<Id>(s: Shard<Id>, e: Id, cfg: Config)
    requires s.WF() && e in s.sv.ents
    ensures s.free <= Release(s, e, cfg).free
  {
  }

  /** The entry handed out is the one that has been free longest, whether or not the reaper runs
      first; a new one is made only when none is free. */
  lemma AcquiresOldest<Id>(s: Shard<Id>, minted: Id, cfg: Config)
    requires s.WF()
    ensures Acquire(s, minted, cfg).1 == if s.free == [] then minted else s.free[0]
  {
    if s.prob != [] {
      EvictKeysAppend(Reaped(s, cfg), KeysOf(s.sv.ents, s.prob[..ReapCount(s, cfg)]), cfg);
    }
  }
}
