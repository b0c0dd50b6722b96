/** What a client can count on: how long a value stays readable, and exactly which other keys a
    set can lose. Everything is told from the state before the operations. */
module Retention {
  import opened Wrappers
  import opened Bytes
  import opened SieveSpec
  import opened ShardSpec
  import opened ShardInvariant
  import opened ShardTheory
  import opened FreeSlots
  import opened ReadYourWrite
  import opened ShardRuns
  import SecondChance
  import LossyMap

  /** What a get of `k` at `later` returns right after operation `op` at `now`. */
  function ReadAfter<Id(==)>(s: Shard<Id>, op: LossyMap.Op, now: nat, k: Key, later: nat, minted: Id, cfg: Config): (r: Option<Value>)
    requires s.WF()
  {
    var s1 := Perform(s, Call(LossyMap.Event(op, now), minted), cfg).0;
    Perform(s1, Call(LossyMap.Event(LossyMap.Get(k), later), minted), cfg).1
  }

  /** Reading back what `op` has written with the expiry `d`. */
  lemma ReadBack<Id>(s: Shard<Id>, op: LossyMap.Op, d: Option<nat>, now: nat, later: nat, minted: Id, cfg: Config)
    requires Inv(s, cfg) && (s.free == [] ==> minted !in s.sv.ents) && now <= later
    requires !op.Get? && d == LossyMap.Expiry(LossyMap.Event(op, now))
    ensures ReadAfter(s, op, now, op.k, later, minted, cfg) == Some(op.v) <==>
              && !IsExpired(later, EffectiveExpiry(s, op.k, d, cfg))
              && !(DueAfterOverwrite(s, cfg) && Neglected(s, op.k, now, cfg))
  {
    ReadYourWrite.ReadYourWrite(s, op.k, op.v, d, now, minted, cfg, later);
  }

  /** The expiry of a TTL set. */
  lemma ExpiryIs(op: LossyMap.Op, now: nat, d: nat)
    requires op.SetTtl? && d == (if now + op.ttl < TWO_64 then now + op.ttl else now + op.ttl - TWO_64) && d < TWO_64
    ensures LossyMap.Expiry(LossyMap.Event(op, now)) == Some(d)
  {
  }

  /** Set with a TTL and read back: the value is there exactly until `ttl` after the set, unless
      the set's own eviction pass takes the key. */
  lemma TtlReadBack<Id>(s: Shard<Id>, k: Key, v: Value, ttl: nat, now: nat, later: nat, minted: Id, cfg: Config)
    requires Inv(s, cfg) && (s.free == [] ==> minted !in s.sv.ents) && now <= later
    requires 1 <= ttl && now + ttl < 0x1_0000_0000_0000_0000
    ensures ReadAfter(s, LossyMap.SetTtl(k, v, ttl), now, k, later, minted, cfg) == Some(v) <==>
              later < now + ttl && !(DueAfterOverwrite(s, cfg) && Neglected(s, k, now, cfg))
  {
    var op := LossyMap.SetTtl(k, v, ttl);
    ExpiryIs(op, now, now + ttl);
    ReadBack(s, op, Some(now + ttl), now, later, minted, cfg);
  }

  /** A TTL that runs over 64 bits is taken modulo 2^64; what is left may lie in the past, and
      nothing at all means no expiry. */
  lemma LongTtlWraps<Id>(s: Shard<Id>, k: Key, v: Value, ttl: nat, now: nat, later: nat, minted: Id, cfg: Config)
    requires Inv(s, cfg) && (s.free == [] ==> minted !in s.sv.ents) && now <= later
    requires 0x1_0000_0000_0000_0000 <= now + ttl < 2 * 0x1_0000_0000_0000_0000
    ensures ReadAfter(s, LossyMap.SetTtl(k, v, ttl), now, k, later, minted, cfg) == Some(v) <==>
              && (now + ttl == 0x1_0000_0000_0000_0000 || later < now + ttl - 0x1_0000_0000_0000_0000)
              && !(DueAfterOverwrite(s, cfg) && Neglected(s, k, now, cfg))
  {
    var op := LossyMap.SetTtl(k, v, ttl);
    ExpiryIs(op, now, now + ttl - TWO_64);
    ReadBack(s, op, Some(now + ttl - TWO_64), now, later, minted, cfg);
  }

  /** A plain set of a key that is not there can be read back at any time. */
  lemma PlainReadBack<Id>(s: Shard<Id>, k: Key, v: Value, now: nat, later: nat, minted: Id, cfg: Config)
    requires Inv(s, cfg) && (s.free == [] ==> minted !in s.sv.ents) && now <= later && k !in s.table
    ensures ReadAfter(s, LossyMap.Set(k, v), now, k, later, minted, cfg) == Some(v)
  {
    ReadBack(s, LossyMap.Set(k, v), None, now, later, minted, cfg);
  }

  lemma TtlWritten<Id>(s: Shard<Id>, s1: Shard<Id>, op: LossyMap.Op, d: nat, now: nat, minted: Id, cfg: Config)
    requires Inv(s, cfg) && (s.free == [] ==> minted !in s.sv.ents) && op.SetTtl? && d == now + op.ttl < TWO_64
    requires s1 == Perform(s, Call(LossyMap.Event(op, now), minted), cfg).0
    ensures Inv(s1, cfg) && (op.k in s1.table ==> s1.sv.ents[s1.table[op.k]].expiresAt == d)
  {
    ExpiryIs(op, now, d);
    WriteKept(s, op.k, op.v, Some(d), now, minted, cfg);
    assert op.k in s1.table ==> op.k in Contents(s1);
  }

  /** A plain set keeps the time to live that the key has, and a TTL set replaces it. `s1` is the
      state after a set with `ttl` at `now`; the key is still there when the second set comes. */
  lemma TtlPreserved<Id>(s: Shard<Id>, s1: Shard<Id>, k: Key, v: Value, ttl: nat, now: nat, w: Value, then_: nat, later: nat,
                         minted: Id, minted': Id, cfg: Config)
    requires Inv(s, cfg) && (s.free == [] ==> minted !in s.sv.ents)
    requires 1 <= ttl && now + ttl < 0x1_0000_0000_0000_0000 && now <= then_ <= later
    requires s1 == Perform(s, Call(LossyMap.Event(LossyMap.SetTtl(k, v, ttl), now), minted), cfg).0
    requires (s1.free == [] ==> minted' !in s1.sv.ents) && StillThere(s1, k, cfg)
    ensures ReadAfter(s1, LossyMap.Set(k, w), then_, k, later, minted', cfg) == Some(w) <==>
              later < now + ttl && !(DueAfterOverwrite(s1, cfg) && Neglected(s1, k, then_, cfg))
  {
    TtlWritten(s, s1, LossyMap.SetTtl(k, v, ttl), now + ttl, now, minted, cfg);
    ReadBack(s1, LossyMap.Set(k, w), None, then_, later, minted', cfg);
  }

  // ---- which other keys a set loses ----

  /** The key's entry is among the oldest on probation, as many as the reaper takes, and the
      reaper runs: the pool is empty or the counter has reached the threshold. */
  ghost predicate OldOnProbation<Id>(s: Shard<Id>, k: Key, cfg: Config)
  {
    && k in s.table && cfg.probMax > 0 && (|s.free| == 0 || s.probCount >= cfg.threshold)
    && exists i :: 0 <= i < |s.prob| && i < cfg.reaperBudget && s.prob[i] == s.table[k]
  }

  lemma ReapedAre<Id>(s: Shard<Id>, k: Key, cfg: Config)
    requires Inv(s, cfg) && k in s.table
    ensures k in ReapedKeys(s, cfg) <==> OldOnProbation(s, k, cfg)
  {
    var n := ReapCount(s, cfg);
    var taken := s.prob[..n];
    var keys := KeysOf(s.sv.ents, taken);
    InTable(s, k, cfg, {});
    if k in ReapedKeys(s, cfg) {
      var i :| 0 <= i < |keys| && keys[i] == k;
      ProbInTable(s, cfg, taken[i]);
    }
    if OldOnProbation(s, k, cfg) {
      var i :| 0 <= i < |s.prob| && i < cfg.reaperBudget && s.prob[i] == s.table[k];
      assert taken[i] == s.table[k] && keys[i] == k && keys[i] in keys;
    }
  }

  lemma ProbInTable<Id>(s: Shard<Id>, cfg: Config, x: Id)
    requires Inv(s, cfg) && x in s.prob
    ensures s.sv.ents[x].key in s.table && s.table[s.sv.ents[x].key] == x
  {
    Unseal(s, cfg, {}, {}, {}, 0);
    assert EntOk(s, x, {}) && LinkOk(s, x, {}, {});
  }

  lemma InsertionTable<Id>(s: Shard<Id>, k: Key, v: Value, expiry: Option<nat>, minted: Id, cfg: Config, k2: Key)
    requires Inv(s, cfg) && (s.free == [] ==> minted !in s.sv.ents) && k2 != k
    ensures var r := Insertion(s, k, v, expiry, minted, cfg);
            && (k2 in r.table <==> k2 in s.table && k2 !in ReapedKeys(s, cfg))
            && (k2 in r.table ==> r.table[k2] == s.table[k2])
  {
    var (s1, e) := Acquire(Recorded(s), minted, cfg);
    RecordedInv(s, cfg);
    AcquireInv(Recorded(s), minted, cfg);
    WrittenTable(s1, e, k, v, expiry, cfg, k2);
  }

  lemma WrittenTable<Id>(s: Shard<Id>, e: Id, k: Key, v: Value, expiry: Option<nat>, cfg: Config, k2: Key)
    requires During(s, cfg, {e}, {}, {}, 0) && e in s.sv.ents && k2 != k
    ensures var r := Written(s, e, k, v, expiry, cfg);
            (k2 in r.table <==> k2 in s.table) && (k2 in r.table ==> r.table[k2] == s.table[k2])
  {
    FilledInv(s, e, k, v, expiry, cfg);
    var s2 := Filled(s, e, k, v, expiry);
    if k in s2.table {
      OverwriteInv(s2, k, e, expiry.Some?, cfg);
    }
  }

  /** Exactly which other keys a set loses: the oldest on probation when the reaper runs, and the
      victims of its eviction pass when that is due. */
  lemma SetLoses<Id>(s: Shard<Id>, k: Key, v: Value, expiry: Option<nat>, now: nat, minted: Id, cfg: Config, k2: Key)
    requires Inv(s, cfg) && (s.free == [] ==> minted !in s.sv.ents) && k2 != k && k2 in s.table
    ensures k2 !in Set(s, k, v, expiry, now, minted, cfg).table <==>
              || OldOnProbation(s, k2, cfg)
              || (&& cfg.maxSize > 0 && cfg.softTrigger * (cfg.maxSize as real) <= (cfg.maxSize - FreeAfterSet(s, k, cfg)) as real
                  && s.table[k2] in Victims(Insertion(s, k, v, expiry, minted, cfg), now, cfg))
  {
    var r := Insertion(s, k, v, expiry, minted, cfg);
    InsertionTable(s, k, v, expiry, minted, cfg, k2);
    ReapedAre(s, k2, cfg);
    SetDue(s, k, v, expiry, minted, cfg);
    InsertionInv(s, k, v, expiry, minted, cfg);
    CheckMemoryInv(r, now, cfg);
    if k2 in r.table {
      KeyOfVictim(r, k2, now, cfg);
    } else {
      assert r.table == r.table;
    }
  }

  // ---- what has just been read is safe ----

  /** In the sanctuary with its visited bit. */
  ghost predicate Protected<Id>(s: Shard<Id>, k: Key)
    requires s.WF()
  {
    k in s.table && s.table[k] in s.sv.list && s.sv.ents[s.table[k]].visited
  }

  /** A hit protects its key, whether it was on probation or in the sanctuary. */
  lemma HitProtects<Id>(s: Shard<Id>, k: Key, now: nat, cfg: Config)
    requires Inv(s, cfg) && Get(s, k, now, cfg).1.Some?
    ensures Inv(Get(s, k, now, cfg).0, cfg) && Protected(Get(s, k, now, cfg).0, k)
    ensures Contents(Get(s, k, now, cfg).0) == Contents(s)
  {
    var e := s.table[k];
    GetInv(s, k, now, cfg);
    SanctuaryListed(s, k, cfg);
    InTable(s, k, cfg, {});
    PromoteInv(s, e, cfg, {});
  }

  /** A protected key outlives the next set of another key, until it expires. */
  lemma ProtectedSurvives<Id>(s: Shard<Id>, k: Key, k2: Key, v: Value, expiry: Option<nat>, now: nat, minted: Id, cfg: Config)
    requires Inv(s, cfg) && (s.free == [] ==> minted !in s.sv.ents) && k2 != k
    requires Protected(s, k) && !IsExpired(now, s.sv.ents[s.table[k]].expiresAt)
    ensures var r := Set(s, k2, v, expiry, now, minted, cfg);
            && Inv(r, cfg) && k in Contents(r) && Contents(r)[k] == Contents(s)[k]
  {
    var r := Insertion(s, k2, v, expiry, minted, cfg);
    SetInv(s, k2, v, expiry, now, minted, cfg);
    ListInTable(s, cfg, s.table[k]);
    InTable(s, k, cfg, {});
    InsertionTable(s, k2, v, expiry, minted, cfg, k);
    InsertionInv(s, k2, v, expiry, minted, cfg);
    assert Contents(r)[k] == Contents(s)[k];
    SecondChance.InsertionBare(s, k2, v, expiry, minted, cfg, s.table[k]);
    assert NoDup(r.sv.list) by { Unseal(r, cfg, {}, {}, {}, 0); }
    NotTaken(r.sv, now, cfg.sieveBudget, r.table[k]);
    KeyOfVictim(r, k, now, cfg);
  }

  /** A key that has just been hit is hit again after any set of another key: until it expires
      neither the reaper nor the eviction pass of that set can take it. */
  lemma HitSurvives<Id>(s: Shard<Id>, k: Key, then_: nat, k2: Key, v: Value, ttl: nat, plain: bool, now: nat, minted: Id, cfg: Config)
    requires Inv(s, cfg) && k2 != k
    requires var (s1, hit) := Get(s, k, then_, cfg); hit.Some? && (s1.free == [] ==> minted !in s1.sv.ents)
    requires !IsExpired(now, Contents(s)[k].expiresAt)
    ensures var (s1, hit) := Get(s, k, then_, cfg);
            ReadAfter(s1, if plain then LossyMap.Set(k2, v) else LossyMap.SetTtl(k2, v, ttl), now, k, now, minted, cfg) == hit
  {
    var (s1, hit) := Get(s, k, then_, cfg);
    HitProtects(s, k, then_, cfg);
    GetInv(s, k, then_, cfg);
    var op := if plain then LossyMap.Set(k2, v) else LossyMap.SetTtl(k2, v, ttl);
    ProtectedSurvives(s1, k, k2, v, LossyMap.Expiry(LossyMap.Event(op, now)), now, minted, cfg);
    GetInv(Set(s1, k2, v, LossyMap.Expiry(LossyMap.Event(op, now)), now, minted, cfg), k, now, cfg);
  }
}
