/** Every shard operation keeps the invariant and does to the key-value contents what the
    lossy map says. */
module ShardTheory {
  import opened Wrappers
  import opened SieveSpec
  import opened SieveTheory
  import opened ShardSpec
  import opened ShardInvariant
  import LossyMap

  /** The contents of a shard. */
  ghost function Contents<Id>(s: Shard<Id>): (m: LossyMap.Model)
    requires s.WF()
  {
    map k | k in s.table :: LossyMap.Item(s.sv.ents[s.table[k]].value, s.sv.ents[s.table[k]].expiresAt)
  }

  /** Contents depend on the table and on two fields of its entries. */
  lemma SameContents<Id>(s: Shard<Id>, r: Shard<Id>)
    requires s.WF() && r.WF() && r.table == s.table
    requires forall k :: k in s.table ==>
               r.sv.ents[s.table[k]].value == s.sv.ents[s.table[k]].value &&
               r.sv.ents[s.table[k]].expiresAt == s.sv.ents[s.table[k]].expiresAt
    ensures Contents(r) == Contents(s)
  {
  }

  lemma InTable<Id>(s: Shard<Id>, k: Key, cfg: Config, held: set<Id>)
    requires During(s, cfg, held, {}, {}, 0) && k in s.table
    ensures var e := s.table[k];
            e !in held && e !in s.free && e !in s.dead && s.sv.ents[e].key == k
    ensures forall k' :: k' in s.table && k' != k ==> s.table[k'] != s.table[k]
  {
    Unseal(s, cfg, held, {}, {}, 0);
    assert KeyOk(s, k, held);
    forall k' | k' in s.table && k' != k
      ensures s.table[k'] != s.table[k]
    {
      assert KeyOk(s, k', held);
    }
  }

  lemma Held<Id>(s: Shard<Id>, e: Id, cfg: Config)
    requires During(s, cfg, {e}, {}, {}, 0)
    ensures e in s.sv.ents && e !in s.free && e !in s.dead
    ensures forall k :: k in s.table ==> s.table[k] != e
  {
    Unseal(s, cfg, {e}, {}, {}, 0);
    assert EntOk(s, e, {e});
    forall k | k in s.table
      ensures s.table[k] != e
    {
      assert KeyOk(s, k, {e});
    }
  }

  // ---- overwriting ----

  /** After the value has been taken over: promoting the old entry and giving the new one
      back leave the contents alone. A sanctuary entry stays as it is, list and hand too. */
  lemma SettleInv<Id>(s: Shard<Id>, k: Key, e: Id, cfg: Config)
    requires During(s, cfg, {e}, {}, {}, 0) && k in s.table
    ensures e in s.sv.ents
    ensures var r := Release(Promote(s, s.table[k]), e, cfg);
            && During(r, cfg, {}, {}, {}, 0)
            && Contents(r) == Contents(s)
            && |r.prob| <= |s.prob|
            && r.table == s.table
            && Settled(s, s.table[k], e, r)
  {
    var o := s.table[k];
    InTable(s, k, cfg, {e});
    Held(s, e, cfg);
    PromoteInv(s, o, cfg, {e});
    var s1 := Promote(s, o);
    SameContents(s, s1);
    ReleaseInv(s1, e, cfg, {e}, {}, {}, 0);
    assert {e} - {e} == {} && {} - {e} == {};
    assert NoDup(s1.sv.list) && NoDup(s1.prob) && s1.sv.HandOk() && s.sv.HandOk() && NoDup(s.prob) by {
      Unseal(s1, cfg, {e}, {}, {}, 0);
      Unseal(s, cfg, {e}, {}, {}, 0);
    }
    SettledOk(s, o, e, cfg, s1, Release(s1, e, cfg));
    SameContents(s1, Release(s1, e, cfg));
  }

  /** What settling does to the entry that keeps the key. */
  ghost predicate Settled<Id>(s: Shard<Id>, o: Id, e: Id, r: Shard<Id>)
    requires s.WF() && o in s.sv.ents
  {
    && o in r.sv.ents
    && r.sv.ents[o] == (if s.sv.ents[o].poolType == Sanctuary then s.sv.ents[o]
                        else s.sv.ents[o].(visited := true, poolType := Sanctuary))
    && (s.sv.ents[o].poolType == Sanctuary ==>
          && r.sv.list == Drop(s.sv.list, e)
          && (forall x :: x in s.sv.ents && x != e ==> x in r.sv.ents && r.sv.ents[x] == s.sv.ents[x])
          && r.sv.hand == Erase(s.sv, e).hand)
  }

  lemma SettledOk<Id>(s: Shard<Id>, o: Id, e: Id, cfg: Config, s1: Shard<Id>, r: Shard<Id>)
    requires s.WF() && o in s.sv.ents && e in s.sv.ents && o != e && s1.WF()
    requires if s.sv.ents[o].poolType == Sanctuary then s1 == s else Promoted(s, o, s1)
    requires e in s1.sv.ents && Released(s1, e, cfg, r) && r == Release(s1, e, cfg)
    requires NoDup(s1.prob) && NoDup(s.prob)
    ensures Settled(s, o, e, r) && |r.prob| <= |s.prob|
  {
    DropMembers(s1.prob, e);
    DropMembers(s.prob, o);
  }

  lemma OverwriteInv<Id>(s: Shard<Id>, k: Key, e: Id, withTtl: bool, cfg: Config)
    requires During(s, cfg, {e}, {}, {}, 0) && e in s.sv.ents && k in s.table
    ensures During(Overwrite(s, k, e, withTtl, cfg), cfg, {}, {}, {}, 0)
    ensures Contents(Overwrite(s, k, e, withTtl, cfg))
         == LossyMap.Write(Contents(s), k, s.sv.ents[e].value, if withTtl then Some(s.sv.ents[e].expiresAt) else None)
    ensures |Overwrite(s, k, e, withTtl, cfg).prob| <= |s.prob|
    ensures Overwrite(s, k, e, withTtl, cfg).table == s.table
    ensures Settled(Put(s, s.table[k], UpdateFrom(s.sv.ents[s.table[k]], s.sv.ents[e], withTtl)), s.table[k], e,
                    Overwrite(s, k, e, withTtl, cfg))
  {
    var o := s.table[k];
    InTable(s, k, cfg, {e});
    var s1 := Put(s, o, UpdateFrom(s.sv.ents[o], s.sv.ents[e], withTtl));
    WriteInv(s, o, UpdateFrom(s.sv.ents[o], s.sv.ents[e], withTtl), cfg, {e});
    assert Contents(s1) == LossyMap.Write(Contents(s), k, s.sv.ents[e].value,
                                          if withTtl then Some(s.sv.ents[e].expiresAt) else None);
    SettleInv(s1, k, e, cfg);
  }

  // ---- insertion ----

  lemma RecordedInv<Id>(s: Shard<Id>, cfg: Config)
    requires Inv(s, cfg)
    ensures During(Recorded(s), cfg, {}, {}, {}, Owed(s))
  {
    Unseal(s, cfg, {}, {}, {}, 0);
    var r := Recorded(s);
    forall k | k in r.table
      ensures KeyOk(r, k, {})
    {
      assert KeyOk(s, k, {});
    }
    forall x | x in r.sv.ents
      ensures EntOk(r, x, {})
    {
      assert EntOk(s, x, {});
    }
    SameLinks(s, r, {}, {});
    Seal(r, cfg, {}, {}, {}, Owed(s));
  }

  lemma FilledInv<Id>(s: Shard<Id>, e: Id, k: Key, v: Value, expiry: Option<nat>, cfg: Config)
    requires During(s, cfg, {e}, {}, {}, 0)
    ensures e in s.sv.ents
    ensures During(Filled(s, e, k, v, expiry), cfg, {e}, {}, {}, 0)
    ensures Contents(Filled(s, e, k, v, expiry)) == Contents(s)
  {
    Held(s, e, cfg);
    var rec := s.sv.ents[e].(key := k, value := v);
    WriteInv(s, e, if expiry.Some? then rec.(expiresAt := expiry.value) else rec, cfg, {e});
    SameContents(s, Filled(s, e, k, v, expiry));
  }

  /** Entering an absent key or overwriting a present one, as contents. */
  lemma PlacedInv<Id>(s: Shard<Id>, e: Id, k: Key, withTtl: bool, cfg: Config)
    requires During(s, cfg, {e}, {}, {}, 0) && e in s.sv.ents && s.sv.ents[e].key == k
    requires !withTtl ==> s.sv.ents[e].expiresAt == 0
    ensures During(Placed(s, e, k, withTtl, cfg), cfg, {}, {}, {}, 0)
    ensures Contents(Placed(s, e, k, withTtl, cfg))
         == LossyMap.Write(Contents(s), k, s.sv.ents[e].value, if withTtl then Some(s.sv.ents[e].expiresAt) else None)
    ensures |Placed(s, e, k, withTtl, cfg).prob| <= |s.prob|
  {
    if k in s.table {
      OverwriteInv(s, k, e, withTtl, cfg);
    } else {
      EnterInv(s, k, e, cfg);
      Held(s, e, cfg);
    }
  }

  lemma WrittenInv<Id>(s: Shard<Id>, e: Id, k: Key, v: Value, expiry: Option<nat>, cfg: Config)
    requires During(s, cfg, {e}, {}, {}, 0) && e in s.sv.ents && s.sv.ents[e].expiresAt == 0
    ensures Inv(Written(s, e, k, v, expiry, cfg), cfg)
    ensures Contents(Written(s, e, k, v, expiry, cfg)) == LossyMap.Write(Contents(s), k, v, expiry)
    ensures |Written(s, e, k, v, expiry, cfg).prob| <= |s.prob|
  {
    FilledInv(s, e, k, v, expiry, cfg);
    PlacedInv(Filled(s, e, k, v, expiry), e, k, expiry.Some?, cfg);
  }

  lemma AcquiredContents<Id>(s: Shard<Id>, cfg: Config, r: Shard<Id>, e: Id)
    requires s.WF() && r.WF() && AcquireDoes(s, cfg, r, e)
    ensures Contents(r) == Contents(s) - ReapedKeys(s, cfg)
  {
  }

  /** The first half of a set: an entry in hand, at the price of the oldest probation keys
      when the reaper runs. */
  lemma AcquireStep<Id>(s: Shard<Id>, minted: Id, cfg: Config)
    requires Inv(s, cfg) && (s.free == [] ==> minted !in s.sv.ents)
    ensures var (r, e) := Acquire(Recorded(s), minted, cfg);
            && During(r, cfg, {e}, {}, {}, 0)
            && r.sv.ents[e].expiresAt == 0
            && Contents(r) == Contents(s) - ReapedKeys(s, cfg)
  {
    var s0 := Recorded(s);
    RecordedInv(s, cfg);
    AcquireInv(s0, minted, cfg);
    var (r, e) := Acquire(s0, minted, cfg);
    AcquiredContents(s0, cfg, r, e);
    SameContents(s, s0);
  }

  /** A set up to its eviction check: the reaper may have taken the oldest probation keys,
      then the key is written as in the lossy map. */
  lemma InsertionInv<Id>(s: Shard<Id>, k: Key, v: Value, expiry: Option<nat>, minted: Id, cfg: Config)
    requires Inv(s, cfg) && (s.free == [] ==> minted !in s.sv.ents)
    ensures Inv(Insertion(s, k, v, expiry, minted, cfg), cfg)
    ensures Contents(Insertion(s, k, v, expiry, minted, cfg))
         == LossyMap.Write(Contents(s) - ReapedKeys(s, cfg), k, v, expiry)
  {
    AcquireStep(s, minted, cfg);
    var (s1, e) := Acquire(Recorded(s), minted, cfg);
    WrittenInv(s1, e, k, v, expiry, cfg);
  }

  // ---- the eviction check ----

  lemma {:induction false} SetSize<T>(s: seq<T>)
    requires NoDup(s)
    ensures |set x | x in s| == |s|
  {
    if s == [] {
      assert (set x | x in s) == {};
    } else {
      SetSize(s[1..]);
      assert (set x | x in s) == {s[0]} + (set x | x in s[1..]);
      assert s[0] !in (set x | x in s[1..]);
    }
  }

  ghost function Victims<Id>(s: Shard<Id>, now: nat, cfg: Config): seq<Id>
    requires s.WF()
  {
    PassFrom(s.sv, now, cfg.sieveBudget).victims
  }

  lemma EvictLinked<Id>(s: Shard<Id>, r: Shard<Id>, now: nat, cfg: Config)
    requires Parts(s, cfg, {}, {}, {}, 0)
    requires r == s.(sv := Evict(s.sv, now, cfg.sieveBudget))
    ensures Linked(r, {}, set e | e in Victims(s, now, cfg))
  {
    EvictList(s.sv, now, cfg.sieveBudget);
    var ls := set e | e in Victims(s, now, cfg);
    forall x | x in r.sv.ents
      ensures LinkOk(r, x, {}, ls)
    {
      assert LinkOk(s, x, {}, {});
      EvictFrame(s.sv, now, cfg.sieveBudget, x);
    }
  }

  lemma EvictPlaces<Id>(s: Shard<Id>, r: Shard<Id>, now: nat, cfg: Config)
    requires Parts(s, cfg, {}, {}, {}, 0)
    requires r == s.(sv := Evict(s.sv, now, cfg.sieveBudget))
    ensures r.WF() && Places(r, {})
  {
    EvictList(s.sv, now, cfg.sieveBudget);
    forall k | k in r.table
      ensures KeyOk(r, k, {})
    {
      assert KeyOk(s, k, {});
    }
    forall x | x in r.sv.ents
      ensures EntOk(r, x, {})
    {
      assert EntOk(s, x, {}) && LinkOk(s, x, {}, {});
    }
  }

  lemma EvictCounts<Id>(s: Shard<Id>, r: Shard<Id>, now: nat, cfg: Config)
    requires Parts(s, cfg, {}, {}, {}, 0)
    requires r == s.(sv := Evict(s.sv, now, cfg.sieveBudget))
    ensures Lists(r) && Counters(r, cfg, {}, (set e | e in Victims(s, now, cfg)), 0)
    ensures NoDup(Victims(s, now, cfg))
  {
    EvictList(s.sv, now, cfg.sieveBudget);
    SetSize(Victims(s, now, cfg));
  }

  lemma EvictContents<Id>(s: Shard<Id>, r: Shard<Id>, now: nat, cfg: Config)
    requires s.WF() && r.WF() && r == s.(sv := Evict(s.sv, now, cfg.sieveBudget))
    ensures Contents(r) == Contents(s)
  {
    SameContents(s, r);
  }

  /** The SIEVE pass inside the shard: its victims are unlinked but still in the table. */
  lemma EvictInv<Id>(s: Shard<Id>, now: nat, cfg: Config)
    requires Inv(s, cfg)
    ensures var r := s.(sv := Evict(s.sv, now, cfg.sieveBudget));
            && During(r, cfg, {}, {}, (set e | e in Victims(s, now, cfg)), 0)
            && Contents(r) == Contents(s)
    ensures NoDup(Victims(s, now, cfg))
  {
    Unseal(s, cfg, {}, {}, {}, 0);
    var r := s.(sv := Evict(s.sv, now, cfg.sieveBudget));
    EvictCounts(s, r, now, cfg);
    EvictPlaces(s, r, now, cfg);
    EvictLinked(s, r, now, cfg);
    Seal(r, cfg, {}, {}, (set e | e in Victims(s, now, cfg)), 0);
    EvictContents(s, r, now, cfg);
  }

  ghost function EvictedKeys<Id>(s: Shard<Id>, now: nat, cfg: Config): set<Key>
    requires s.WF()
  {
    if Triggered(s, cfg) then KeySet(KeysOf(s.sv.ents, Victims(s, now, cfg))) else {}
  }

  lemma GoneContents<Id>(s: Shard<Id>, keys: seq<Key>, r: Shard<Id>, es: seq<Id>)
    requires s.WF() && r.WF() && OnlyGone(s, keys, r)
    requires Gone(s, keys) == set e | e in es
    requires forall k :: k in s.table && k !in keys ==> s.table[k] !in es
    ensures Contents(r) == Contents(s) - KeySet(keys)
  {
  }

  /** The eviction check: when it is due, exactly the keys of the SIEVE victims go. */
  lemma CheckMemoryInv<Id>(s: Shard<Id>, now: nat, cfg: Config)
    requires Inv(s, cfg)
    ensures Inv(CheckMemory(s, now, cfg), cfg)
    ensures Contents(CheckMemory(s, now, cfg)) == Contents(s) - EvictedKeys(s, now, cfg)
    ensures CheckMemory(s, now, cfg).prob == s.prob
    ensures CheckMemory(s, now, cfg).table == s.table - EvictedKeys(s, now, cfg)
  {
    if !Triggered(s, cfg) {
      assert Contents(s) - {} == Contents(s) && s.table - {} == s.table;
    } else {
      var vs := Victims(s, now, cfg);
      var s1, ls, keys := s.(sv := Evict(s.sv, now, cfg.sieveBudget)), (set e | e in vs), KeysOf(s.sv.ents, vs);
      EvictInv(s, now, cfg);
      VictimKeys(s1, vs, s.sv.ents, cfg, {}, {}, ls, 0);
      EvictKeysInv(s1, keys, cfg, {}, {}, ls, 0);
      assert ls - ls == {} && {} - ls == {};
      VictimsOnly(s, s1, keys, vs, cfg);
      GoneContents(s1, keys, CheckMemory(s, now, cfg), vs);
    }
  }

  lemma VictimsOnly<Id>(s: Shard<Id>, s1: Shard<Id>, keys: seq<Key>, vs: seq<Id>, cfg: Config)
    requires Inv(s, cfg) && s1.table == s.table
    requires (forall e :: e in vs ==> e in s.sv.ents) && keys == KeysOf(s.sv.ents, vs)
    ensures forall k :: k in s1.table && k !in keys ==> s1.table[k] !in vs
  {
    Unseal(s, cfg, {}, {}, {}, 0);
    forall e | e in vs
      ensures s.sv.ents[e].key in keys
    {
      var i :| 0 <= i < |vs| && vs[i] == e;
      assert keys[i] in keys;
    }
    forall k | k in s1.table && k !in keys
      ensures s1.table[k] !in vs
    {
      assert KeyOk(s, k, {});
    }
  }

  // ---- set and get ----

  /** A set, exactly: the reaper's keys go, the key is written, the SIEVE victims' keys go. */
  lemma SetInv<Id>(s: Shard<Id>, k: Key, v: Value, expiry: Option<nat>, now: nat, minted: Id, cfg: Config)
    requires Inv(s, cfg) && (s.free == [] ==> minted !in s.sv.ents)
    ensures Inv(Set(s, k, v, expiry, now, minted, cfg), cfg)
    ensures Contents(Set(s, k, v, expiry, now, minted, cfg))
         == LossyMap.Write(Contents(s) - ReapedKeys(s, cfg), k, v, expiry)
            - EvictedKeys(Insertion(s, k, v, expiry, minted, cfg), now, cfg)
    ensures LossyMap.SetStep(Contents(s), k, v, expiry, Contents(Set(s, k, v, expiry, now, minted, cfg)))
  {
    InsertionInv(s, k, v, expiry, minted, cfg);
    CheckMemoryInv(Insertion(s, k, v, expiry, minted, cfg), now, cfg);
  }

  lemma EraseInv<Id>(s: Shard<Id>, e: Id, cfg: Config)
    requires During(s, cfg, {e}, {}, {}, 0)
    ensures During(s.(sv := Erase(s.sv, e)), cfg, {e}, {}, (if e in s.sv.list then {e} else {}), 0)
  {
    Unseal(s, cfg, {e}, {}, {}, 0);
    var r := s.(sv := Erase(s.sv, e));
    var ls := if e in s.sv.list then {e} else {};
    EraseList(s.sv, e);
    forall k | k in r.table
      ensures KeyOk(r, k, {e})
    {
      assert KeyOk(s, k, {e});
    }
    forall x | x in r.sv.ents
      ensures EntOk(r, x, {e}) && LinkOk(r, x, {}, ls)
    {
      assert EntOk(s, x, {e}) && LinkOk(s, x, {}, {});
    }
    Seal(r, cfg, {e}, {}, ls, 0);
  }

  lemma ExpiredInv<Id>(s: Shard<Id>, k: Key, cfg: Config)
    requires Inv(s, cfg) && k in s.table
    ensures var s1 := s.(sv := Erase(s.sv, s.table[k]), table := s.table - {k});
            var r := Release(s1, s.table[k], cfg);
            && Inv(r, cfg)
            && Contents(r) == Contents(s) - {k}
            && |r.prob| <= |s.prob|
  {
    var e := s.table[k];
    InTable(s, k, cfg, {});
    TakeOut(s, k, cfg, {}, {}, {}, 0);
    assert {} + {e} == {e};
    var t := s.(table := s.table - {k});
    EraseInv(t, e, cfg);
    var s1 := t.(sv := Erase(t.sv, e));
    var ls := if e in s.sv.list then {e} else {};
    ReleaseInv(s1, e, cfg, {e}, {}, ls, 0);
    assert {e} - {e} == {} && {} - {e} == {} && ls - {e} == {};
    assert |Drop(s1.prob, e)| <= |s1.prob|;
  }

  /** A get is a get of the lossy map, exactly; only a set loses anything. */
  lemma GetInv<Id>(s: Shard<Id>, k: Key, now: nat, cfg: Config)
    requires Inv(s, cfg)
    ensures var (r, res) := Get(s, k, now, cfg);
            && Inv(r, cfg)
            && (Contents(r), res) == LossyMap.GetStep(Contents(s), k, now)
            && |r.prob| <= |s.prob|
  {
    if k in s.table {
      var e := s.table[k];
      if IsExpired(now, s.sv.ents[e].expiresAt) {
        ExpiredInv(s, k, cfg);
      } else {
        HitInv(s, k, cfg);
      }
    }
  }

  lemma HitInv<Id>(s: Shard<Id>, k: Key, cfg: Config)
    requires Inv(s, cfg) && k in s.table
    ensures var s1 := Promote(s, s.table[k]);
            var r := s1.(sv := Hit(s1.sv, s.table[k]));
            && Inv(r, cfg)
            && Contents(r) == Contents(s)
            && s1.sv.ents[s.table[k]].value == s.sv.ents[s.table[k]].value
            && |r.prob| <= |s.prob|
  {
    var e := s.table[k];
    InTable(s, k, cfg, {});
    PromoteInv(s, e, cfg, {});
    var s1 := Promote(s, e);
    WriteInv(s1, e, s1.sv.ents[e].(visited := true), cfg, {});
    SameContents(s, s1.(sv := Hit(s1.sv, e)));
    assert |Drop(s.prob, e)| <= |s.prob|;
  }
}
