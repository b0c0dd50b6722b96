/** When a set can be read back: exactly when the key's own eviction pass does not take it
    and the expiry it ends up with has not passed. */
module ReadYourWrite {
  import opened Wrappers
  import opened SieveSpec
  import opened SieveTheory
  import opened ShardSpec
  import opened ShardInvariant
  import opened ShardTheory
  import opened FreeSlots
  import LossyMap

  /** The key is still there after the acquisition that a set starts with. */
  ghost predicate StillThere<Id>(s: Shard<Id>, k: Key, cfg: Config)
    requires s.WF()
  {
    k in s.table && k !in ReapedKeys(s, cfg)
  }

  /** The key's entry sits in the sanctuary. */
  ghost predicate InSanctuary<Id>(s: Shard<Id>, k: Key)
    requires s.WF()
  {
    k in s.table && s.sv.ents[s.table[k]].poolType == Sanctuary
  }

  /** Overwriting does not mark an entry visited: it sits in the sanctuary unvisited, and a
      pass started now would take it. */
  ghost predicate Neglected<Id>(s: Shard<Id>, k: Key, now: nat, cfg: Config)
    requires s.WF()
  {
    InSanctuary(s, k) && !s.sv.ents[s.table[k]].visited && s.table[k] in Victims(s, now, cfg)
  }

  /** The expiry a write ends up with. */
  ghost function EffectiveExpiry<Id>(s: Shard<Id>, k: Key, expiry: Option<nat>, cfg: Config): nat
    requires s.WF()
  {
    if expiry.Some? then expiry.value
    else if StillThere(s, k, cfg) then s.sv.ents[s.table[k]].expiresAt
    else 0
  }

  // ---- the entry after the insertion ----

  /** A sanctuary entry that is overwritten keeps its place, its bit and the hand. */
  ghost predicate Untouched<Id>(s: Shard<Id>, k: Key, r: Shard<Id>)
    requires s.WF() && r.WF() && k in s.table
  {
    && k in r.table && r.table[k] == s.table[k]
    && r.sv.list == s.sv.list && r.sv.hand == s.sv.hand
    && (forall e :: e in s.sv.list && e != s.table[k] ==> r.sv.ents[e] == s.sv.ents[e])
    && r.sv.ents[s.table[k]].visited == s.sv.ents[s.table[k]].visited
  }

  /** The entries on the SIEVE list are those of the sanctuary, and none of them is reaped. */
  lemma ListInTable<Id>(s: Shard<Id>, cfg: Config, x: Id)
    requires Inv(s, cfg) && x in s.sv.list
    ensures s.sv.ents[x].key in s.table && s.table[s.sv.ents[x].key] == x
    ensures s.sv.ents[x].key !in ReapedKeys(s, cfg)
  {
    Unseal(s, cfg, {}, {}, {}, 0);
    assert EntOk(s, x, {}) && LinkOk(s, x, {}, {});
    if Reaps(s, cfg) {
      var taken := s.prob[..ReapCount(s, cfg)];
      forall i | 0 <= i < |taken|
        ensures s.sv.ents[taken[i]].key != s.sv.ents[x].key
      {
        assert taken[i] in s.prob;
        assert EntOk(s, taken[i], {}) && LinkOk(s, taken[i], {}, {});
      }
    }
  }

  lemma SanctuaryListed<Id>(s: Shard<Id>, k: Key, cfg: Config)
    requires Inv(s, cfg) && k in s.table
    ensures InSanctuary(s, k) <==> s.table[k] in s.sv.list
    ensures InSanctuary(s, k) ==> StillThere(s, k, cfg)
  {
    assert (InSanctuary(s, k) <==> s.table[k] in s.sv.list) && s.sv.ents[s.table[k]].key == k by {
      Unseal(s, cfg, {}, {}, {}, 0);
      assert KeyOk(s, k, {}) && LinkOk(s, s.table[k], {}, {});
    }
    if InSanctuary(s, k) {
      ListInTable(s, cfg, s.table[k]);
    }
  }

  /** Taking the acquired entry off the list again restores list and hand. */
  lemma HandRestored<Id>(s: Sieve<Id>, e: Id, ents: map<Id, Rec>, plain: bool)
    requires s.WF() && s.HandOk() && s.list != [] && e !in s.list
    requires forall x :: x in s.list + [e] ==> x in ents
    ensures var t := Sieve(ents, if plain then s.list + [e] else s.list, if plain then Start(s) else s.hand);
            t.WF() && Drop(t.list, e) == s.list && Erase(t, e).hand == s.hand
  {
  }

  lemma ListKept<Id>(s: Shard<Id>, cfg: Config, s1: Shard<Id>, e: Id)
    requires Inv(s, cfg) && AcquireDoes(Recorded(s), cfg, s1, e)
    ensures forall x :: x in s.sv.list ==> x in s1.sv.ents && s1.sv.ents[x] == s.sv.ents[x] && x != e
  {
    forall x | x in s.sv.list
      ensures x in s1.sv.ents && s1.sv.ents[x] == s.sv.ents[x] && x != e
    {
      ListInTable(s, cfg, x);
      assert s.sv.ents[x].key in s1.table;
    }
  }

  lemma OverwriteUntouched<Id>(s: Shard<Id>, k: Key, v: Value, expiry: Option<nat>, cfg: Config, s1: Shard<Id>, e: Id)
    requires Inv(s, cfg) && InSanctuary(s, k)
    requires AcquireDoes(Recorded(s), cfg, s1, e) && During(s1, cfg, {e}, {}, {}, 0)
    ensures Untouched(s, k, Written(s1, e, k, v, expiry, cfg))
  {
    var o := s.table[k];
    SanctuaryListed(s, k, cfg);
    ListKept(s, cfg, s1, e);
    FilledInv(s1, e, k, v, expiry, cfg);
    var s2, r := Filled(s1, e, k, v, expiry), Written(s1, e, k, v, expiry, cfg);
    OverwriteInv(s2, k, e, expiry.Some?, cfg);
    var t := Put(s2, o, UpdateFrom(s2.sv.ents[o], s2.sv.ents[e], expiry.Some?));
    assert s.sv.HandOk() by { Unseal(s, cfg, {}, {}, {}, 0); }
    HandRestored(s.sv, e, t.sv.ents, cfg.probMax == 0);
    assert t.sv == Sieve(t.sv.ents, s1.sv.list, s1.sv.hand);
  }

  lemma WrittenElsewhere<Id>(s: Shard<Id>, k: Key, v: Value, expiry: Option<nat>, cfg: Config, s1: Shard<Id>, e: Id)
    requires Inv(s, cfg) && !InSanctuary(s, k)
    requires AcquireDoes(Recorded(s), cfg, s1, e) && During(s1, cfg, {e}, {}, {}, 0)
    ensures var r := Written(s1, e, k, v, expiry, cfg);
            && k in r.table
            && (r.table[k] !in r.sv.list || r.sv.ents[r.table[k]].visited)
  {
    FilledInv(s1, e, k, v, expiry, cfg);
    var s2, r := Filled(s1, e, k, v, expiry), Written(s1, e, k, v, expiry, cfg);
    if k in s2.table {
      OverwriteInv(s2, k, e, expiry.Some?, cfg);
    } else {
      assert e !in s1.sv.list || cfg.probMax == 0 by {
        Unseal(s1, cfg, {e}, {}, {}, 0);
        assert LinkOk(s1, e, {}, {}) && EntOk(s1, e, {e});
      }
    }
  }

  // ---- the entry after its own eviction pass ----

  /** A pass only asks which entries are evictable. */
  lemma {:induction false} SamePass<Id>(ents: map<Id, Rec>, ents': map<Id, Rec>, todo: seq<Id>, now: nat, budget: nat)
    requires forall e :: e in todo ==> e in ents && e in ents' && (Evictable(ents[e], now) <==> Evictable(ents'[e], now))
    ensures Pass(ents, todo, now, budget) == Pass(ents', todo, now, budget)
    decreases |todo|
  {
    if todo == [] || budget == 0 {
    } else {
      SamePass(ents, ents', todo[1..], now, if Evictable(ents[todo[0]], now) then budget - 1 else budget);
    }
  }

  lemma NotTaken<Id>(s: Sieve<Id>, now: nat, budget: nat, e: Id)
    requires s.WF() && NoDup(s.list) && e in s.ents
    requires e !in s.list || !Evictable(s.ents[e], now)
    ensures e !in PassFrom(s, now, budget).victims
  {
    NoDupParts(s.list, Start(s));
    PassMembers(s.ents, s.list[Start(s)..], now, budget, e);
  }

  /** Before and after the write, an unvisited sanctuary entry is a victim or it is not. */
  lemma SameFate<Id>(s: Shard<Id>, k: Key, now: nat, cfg: Config, r: Shard<Id>)
    requires s.WF() && r.WF() && k in s.table && Untouched(s, k, r) && NoDup(s.sv.list)
    requires !IsExpired(now, r.sv.ents[s.table[k]].expiresAt)
    ensures s.table[k] in Victims(r, now, cfg) <==>
            !s.sv.ents[s.table[k]].visited && s.table[k] in Victims(s, now, cfg)
  {
    var o := s.table[k];
    if s.sv.ents[o].visited {
      NotTaken(r.sv, now, cfg.sieveBudget, o);
    } else {
      var todo := s.sv.list[Start(s.sv)..];
      assert forall e :: e in todo ==> e in s.sv.list;
      SamePass(s.sv.ents, r.sv.ents, todo, now, cfg.sieveBudget);
    }
  }

  /** The written key is taken by the check's own pass exactly when it was neglected. */
  lemma OwnPass<Id>(s: Shard<Id>, k: Key, v: Value, expiry: Option<nat>, now: nat, minted: Id, cfg: Config)
    requires Inv(s, cfg) && (s.free == [] ==> minted !in s.sv.ents)
    requires !IsExpired(now, EffectiveExpiry(s, k, expiry, cfg))
    ensures var r := Insertion(s, k, v, expiry, minted, cfg);
            && k in r.table && (r.table[k] in Victims(r, now, cfg) <==> Neglected(s, k, now, cfg))
  {
    RecordedInv(s, cfg);
    AcquireInv(Recorded(s), minted, cfg);
    var (s1, e) := Acquire(Recorded(s), minted, cfg);
    var r := Insertion(s, k, v, expiry, minted, cfg);
    InsertionInv(s, k, v, expiry, minted, cfg);
    ExpiryWritten(s, k, v, expiry, minted, cfg);
    OwnPassFrom(s, k, v, expiry, now, cfg, s1, e, r);
  }

  lemma ExpiryWritten<Id>(s: Shard<Id>, k: Key, v: Value, expiry: Option<nat>, minted: Id, cfg: Config)
    requires Inv(s, cfg) && (s.free == [] ==> minted !in s.sv.ents)
    ensures var r := Insertion(s, k, v, expiry, minted, cfg);
            && k in r.table && r.sv.ents[r.table[k]].expiresAt == EffectiveExpiry(s, k, expiry, cfg)
            && r.sv.ents[r.table[k]].value == v
  {
    var r := Insertion(s, k, v, expiry, minted, cfg);
    InsertionInv(s, k, v, expiry, minted, cfg);
    ItemWritten(Contents(s), ReapedKeys(s, cfg), k, v, expiry);
    assert k in Contents(r) && Contents(r)[k] == LossyMap.Item(v, EffectiveExpiry(s, k, expiry, cfg));
  }

  lemma ItemWritten(m: LossyMap.Model, lost: set<Key>, k: Key, v: Value, expiry: Option<nat>)
    ensures var w := LossyMap.Write(m - lost, k, v, expiry);
            k in w && w[k] == LossyMap.Item(v, if expiry.Some? then expiry.value
                                              else if k in m && k !in lost then m[k].expiresAt else 0)
  {
  }

  lemma OwnPassFrom<Id>(s: Shard<Id>, k: Key, v: Value, expiry: Option<nat>, now: nat, cfg: Config,
                        s1: Shard<Id>, e: Id, r: Shard<Id>)
    requires Inv(s, cfg) && Inv(r, cfg) && k in r.table
    requires AcquireDoes(Recorded(s), cfg, s1, e) && During(s1, cfg, {e}, {}, {}, 0)
    requires r == Written(s1, e, k, v, expiry, cfg)
    requires !IsExpired(now, r.sv.ents[r.table[k]].expiresAt)
    ensures r.table[k] in Victims(r, now, cfg) <==> Neglected(s, k, now, cfg)
  {
    if InSanctuary(s, k) {
      OverwriteUntouched(s, k, v, expiry, cfg, s1, e);
      assert NoDup(s.sv.list) by { Unseal(s, cfg, {}, {}, {}, 0); }
      SameFate(s, k, now, cfg, r);
    } else {
      WrittenElsewhere(s, k, v, expiry, cfg, s1, e);
      assert NoDup(r.sv.list) by { Unseal(r, cfg, {}, {}, {}, 0); }
      NotTaken(r.sv, now, cfg.sieveBudget, r.table[k]);
    }
  }

  /** The written key is there after the check unless its own pass took it. */
  lemma WriteKept<Id>(s: Shard<Id>, k: Key, v: Value, expiry: Option<nat>, now: nat, minted: Id, cfg: Config)
    requires Inv(s, cfg) && (s.free == [] ==> minted !in s.sv.ents)
    ensures var r := Set(s, k, v, expiry, now, minted, cfg);
            && Inv(r, cfg)
            && (k in Contents(r) ==> Contents(r)[k] == LossyMap.Item(v, EffectiveExpiry(s, k, expiry, cfg)))
            && (!IsExpired(now, EffectiveExpiry(s, k, expiry, cfg)) ==>
                  (k in Contents(r) <==> !(DueAfterOverwrite(s, cfg) && Neglected(s, k, now, cfg))))
  {
    InsertionInv(s, k, v, expiry, minted, cfg);
    var r := Insertion(s, k, v, expiry, minted, cfg);
    CheckMemoryInv(r, now, cfg);
    ExpiryWritten(s, k, v, expiry, minted, cfg);
    if !IsExpired(now, EffectiveExpiry(s, k, expiry, cfg)) {
      OwnPass(s, k, v, expiry, now, minted, cfg);
    }
    if InSanctuary(s, k) {
      SanctuaryListed(s, k, cfg);
      DueIs(s, k, v, expiry, minted, cfg);
    }
    KeyOfVictim(r, k, now, cfg);
  }

  /** Read your write, exactly. A set followed by a get of the same key returns the new value
      if and only if the expiry the write ends up with has not passed and the key is not a
      neglected sanctuary entry while the eviction check will be due. All of it is decided by
      the state before the set. In particular a set of an absent key, of a probation key or
      of a visited key never evicts that key. */
  lemma ReadYourWrite<Id>(s: Shard<Id>, k: Key, v: Value, expiry: Option<nat>, now: nat, minted: Id, cfg: Config, later: nat)
    requires Inv(s, cfg) && (s.free == [] ==> minted !in s.sv.ents) && now <= later
    ensures Get(Set(s, k, v, expiry, now, minted, cfg), k, later, cfg).1 == Some(v) <==>
              && !IsExpired(later, EffectiveExpiry(s, k, expiry, cfg))
              && !(DueAfterOverwrite(s, cfg) && Neglected(s, k, now, cfg))
  {
    WriteKept(s, k, v, expiry, now, minted, cfg);
    GetInv(Set(s, k, v, expiry, now, minted, cfg), k, later, cfg);
  }

  /** A key is evicted by the check exactly when its entry is a victim of a pass that is due. */
  lemma KeyOfVictim<Id>(s: Shard<Id>, k: Key, now: nat, cfg: Config)
    requires Inv(s, cfg) && k in s.table
    ensures k in EvictedKeys(s, now, cfg) <==> Triggered(s, cfg) && s.table[k] in Victims(s, now, cfg)
  {
    var vs := Victims(s, now, cfg);
    var keys := KeysOf(s.sv.ents, vs);
    if s.table[k] in vs {
      var i :| 0 <= i < |vs| && vs[i] == s.table[k];
      InTable(s, k, cfg, {});
      assert keys[i] == k && keys[i] in keys;
    }
    if k in keys {
      VictimsOnly(s, s, keys, vs, cfg);
      var i :| 0 <= i < |keys| && keys[i] == k;
      assert vs[i] in vs;
      ListInTable(s, cfg, vs[i]);
    }
  }
}
