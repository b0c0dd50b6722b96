/** One shard's cache engine on values: the key table, the entry pool with its probation
    list, and the SIEVE list, with every operation as a function of the whole state. */
module ShardSpec {
  import opened Wrappers
  import opened Bytes
  import opened SieveSpec

  /** Sizes and limits fixed when the pool is initialised. */
  datatype Config = Config(maxSize: nat, probMax: nat, threshold: nat, reaperBudget: nat,
                           sieveBudget: nat, softTrigger: real)

  /** `free`, `prob` and `probHand` are the pool's free queue, probation list and hand (None
      is end()). `orphans` and `dead` are bookkeeping without a counterpart in the source:
      the entries counted on probation but never linked, and the entries destroyed. */
  datatype Shard<Id> = Shard(sv: Sieve<Id>, free: seq<Id>, prob: seq<Id>, probHand: Option<Id>,
                             probCount: nat, sancCount: nat, reaped: nat,
                             table: map<Key, Id>, evictions: nat, fallbacks: nat,
                             orphans: set<Id>, dead: set<Id>)
  {
    ghost predicate WF() {
      && sv.WF()
      && (forall e :: e in prob ==> e in sv.ents)
      && (forall e :: e in free ==> e in sv.ents)
      && (forall k :: k in table ==> table[k] in sv.ents)
    }
  }

  function Put<Id(==)>(s: Shard<Id>, e: Id, rec: Rec): (r: Shard<Id>)
    requires s.WF()
    ensures r.WF() && r.sv.ents.Keys == s.sv.ents.Keys + {e}
  {
    s.(sv := s.sv.(ents := s.sv.ents[e := rec]))
  }

  // ---- the pool ----

  /** remove_from_probation. */
  function Unprobate<Id(==)>(s: Shard<Id>, e: Id): (r: Shard<Id>)
    requires s.WF()
    ensures r.WF() && r.sv == s.sv
  {
    if e !in s.prob then s
    else
      var i := IndexOf(s.prob, e);
      var next := if i + 1 == |s.prob| then s.prob[0] else s.prob[i + 1];
      var prob := Without(s.prob, e);
      s.(prob := prob,
         probCount := if s.probCount > 0 then s.probCount - 1 else s.probCount,
         probHand := if prob == [] then None else if s.probHand == Some(e) then Some(next) else s.probHand)
  }

  /** promote_to_sanctuary. */
  function Promote<Id(==)>(s: Shard<Id>, e: Id): (r: Shard<Id>)
    requires s.WF() && e in s.sv.ents
    ensures r.WF() && r.sv.ents.Keys == s.sv.ents.Keys
  {
    if s.sv.ents[e].poolType == Sanctuary then s
    else
      var s1 := Unprobate(s, e);
      s1.(sv := Insert(s1.sv, e), sancCount := s1.sancCount + 1, orphans := s1.orphans - {e})
  }

  /** The end of both release paths: a slot for the entry, or its destruction. */
  function Push<Id(==)>(s: Shard<Id>, e: Id, cfg: Config): (r: Shard<Id>)
    requires s.WF() && e in s.sv.ents
    ensures r.WF() && r.sv == s.sv && |r.free| >= |s.free|
  {
    if |s.free| < cfg.maxSize then s.(free := s.free + [e]) else s.(dead := s.dead + {e})
  }

  /** Unlinks a sanctuary entry and counts it out. */
  function Unseat<Id(==)>(s: Shard<Id>, e: Id): (r: Shard<Id>)
    requires s.WF()
    ensures r.WF() && r.sv.ents == s.sv.ents && r.free == s.free
  {
    s.(sv := Erase(s.sv, e), sancCount := if s.sancCount > 0 then s.sancCount - 1 else s.sancCount)
  }

  /** release: do_release without a probation pool, do_prob_release with one. */
  function Release<Id(==)>(s: Shard<Id>, e: Id, cfg: Config): (r: Shard<Id>)
    requires s.WF() && e in s.sv.ents
    ensures r.WF() && r.sv.ents.Keys == s.sv.ents.Keys && |r.free| >= |s.free|
  {
    var s1 :=
      if cfg.probMax == 0 then Unseat(Put(s, e, BLANK), e)
      else Put(if s.sv.ents[e].poolType == Probation then Unprobate(s, e) else Unseat(s, e), e, BLANK);
    Push(s1.(orphans := s1.orphans - {e}), e, cfg)
  }

  /** Extracts one key from the table and releases its entry: the body of both victim loops. */
  function EvictKey<Id(==)>(s: Shard<Id>, k: Key, cfg: Config): (r: Shard<Id>)
    requires s.WF()
    ensures r.WF() && r.sv.ents.Keys == s.sv.ents.Keys && |r.free| >= |s.free|
  {
    if k !in s.table then s
    else
      var s1 := Release(s.(table := s.table - {k}), s.table[k], cfg);
      s1.(evictions := s1.evictions + 1)
  }

  function EvictKeys<Id(==)>(s: Shard<Id>, keys: seq<Key>, cfg: Config): (r: Shard<Id>)
    requires s.WF()
    ensures r.WF() && r.sv.ents.Keys == s.sv.ents.Keys && |r.free| >= |s.free|
    decreases |keys|
  {
    if keys == [] then s else EvictKeys(EvictKey(s, keys[0], cfg), keys[1..], cfg)
  }

  function KeysOf<Id>(ents: map<Id, Rec>, es: seq<Id>): (r: seq<Key>)
    requires forall e :: e in es ==> e in ents
    ensures |r| == |es| && forall i :: 0 <= i < |es| ==> r[i] == ents[es[i]].key
  {
    seq(|es|, i requires 0 <= i < |es| => ents[es[i]].key)
  }

  /** A 64-bit counter after `n` decrements. */
  function Minus64(c: nat, n: nat): (r: nat) { if c >= n then c - n else (c - n) % TWO_64 }

  /** How many entries one run of the reaper takes. */
  function ReapCount<Id>(s: Shard<Id>, cfg: Config): (n: nat)
    ensures n <= |s.prob|
  {
    if cfg.reaperBudget < |s.prob| then cfg.reaperBudget else |s.prob|
  }

  /** The reaper's loop: the oldest entries leave the probation list. */
  function Reaped<Id>(s: Shard<Id>, cfg: Config): (r: Shard<Id>)
    requires s.WF()
    ensures r.WF() && r.sv == s.sv && r.free == s.free
  {
    var n := ReapCount(s, cfg);
    var prob := s.prob[n..];
    s.(prob := prob, probCount := Minus64(s.probCount, n), reaped := s.reaped + n,
       probHand := if prob == [] then None else Some(prob[0]))
  }

  /** run_sequential_reaper with the store's eviction callback. */
  function Reap<Id(==)>(s: Shard<Id>, cfg: Config): (r: Shard<Id>)
    requires s.WF()
    ensures r.WF() && r.sv.ents.Keys == s.sv.ents.Keys && |r.free| >= |s.free|
  {
    if s.prob == [] then s
    else EvictKeys(Reaped(s, cfg), KeysOf(s.sv.ents, s.prob[..ReapCount(s, cfg)]), cfg)
  }

  /** do_acquire; `minted` is the entry allocated when the pool is empty. */
  function AcquirePlain<Id(==)>(s: Shard<Id>, minted: Id): (r: (Shard<Id>, Id))
    requires s.WF()
    ensures r.0.WF() && r.1 in r.0.sv.ents
  {
    var e := if s.free == [] then minted else s.free[0];
    var rec := if s.free == [] then BLANK else s.sv.ents[e];
    var s1 := Put(s, e, rec.(inUse := true));
    var s2 := s1.(free := if s.free == [] then [] else s.free[1..], sancCount := s.sancCount + 1);
    (s2.(sv := Insert(s2.sv, e)), e)
  }

  /** do_prob_acquire. With an empty pool the new entry is counted but not linked. */
  function AcquireProb<Id(==)>(s: Shard<Id>, minted: Id, cfg: Config): (r: (Shard<Id>, Id))
    requires s.WF()
    ensures r.0.WF() && r.1 in r.0.sv.ents
  {
    if s.free == [] then
      var s1 := Put(s, minted, BLANK.(inUse := true, poolType := Probation));
      (Reap(s1.(probCount := s.probCount + 1, orphans := s.orphans + {minted}), cfg), minted)
    else
      var s1 := if s.probCount >= cfg.threshold then Reap(s, cfg) else s;
      var e := s1.free[0];
      var s2 := Put(s1, e, s1.sv.ents[e].(inUse := true, poolType := Probation));
      (s2.(free := s1.free[1..], probCount := s1.probCount + 1, prob := s1.prob + [e]), e)
  }

  function Acquire<Id(==)>(s: Shard<Id>, minted: Id, cfg: Config): (r: (Shard<Id>, Id))
    requires s.WF()
    ensures r.0.WF() && r.1 in r.0.sv.ents
  {
    if cfg.probMax == 0 then AcquirePlain(s, minted) else AcquireProb(s, minted, cfg)
  }

  // ---- the store ----

  /** Soft eviction is due: the used fraction of the pool has reached the trigger. */
  predicate Triggered<Id>(s: Shard<Id>, cfg: Config)
  {
    cfg.maxSize != 0 && (cfg.maxSize - |s.free|) as real / (cfg.maxSize as real) >= cfg.softTrigger
  }

  /** check_memory_and_evict. */
  function CheckMemory<Id(==)>(s: Shard<Id>, now: nat, cfg: Config): (r: Shard<Id>)
    requires s.WF()
    ensures r.WF()
  {
    if !Triggered(s, cfg) then s
    else
      EvictKeys(s.(sv := Evict(s.sv, now, cfg.sieveBudget)),
                KeysOf(s.sv.ents, PassFrom(s.sv, now, cfg.sieveBudget).victims), cfg)
  }

  /** Entry::update_from. */
  function UpdateFrom(old_: Rec, new_: Rec, withTtl: bool): (r: Rec)
  {
    if withTtl then old_.(value := new_.value, expiresAt := new_.expiresAt, ver := (old_.ver + 1) % 0x1_0000_0000)
    else old_.(value := new_.value)
  }

  /** The key is already there: its entry takes the value over and is promoted, the
      acquired entry goes back. */
  function Overwrite<Id(==)>(s: Shard<Id>, k: Key, e: Id, withTtl: bool, cfg: Config): (r: Shard<Id>)
    requires s.WF() && k in s.table && e in s.sv.ents
    ensures r.WF()
  {
    var o := s.table[k];
    var s1 := Put(s, o, UpdateFrom(s.sv.ents[o], s.sv.ents[e], withTtl));
    Release(Promote(s1, o), e, cfg)
  }

  /** A fallback allocation is recorded when the pool is empty. */
  function Recorded<Id>(s: Shard<Id>): (r: Shard<Id>)
    requires s.WF()
    ensures r.WF()
  {
    if s.free == [] then s.(fallbacks := s.fallbacks + 1) else s
  }

  /** The acquired entry with the key, the value and, for a TTL, the expiry written into it. */
  function Filled<Id(==)>(s: Shard<Id>, e: Id, k: Key, v: Value, expiry: Option<nat>): (r: Shard<Id>)
    requires s.WF() && e in s.sv.ents
    ensures r.WF() && e in r.sv.ents
  {
    var rec := s.sv.ents[e].(key := k, value := v);
    Put(s, e, if expiry.Some? then rec.(expiresAt := expiry.value) else rec)
  }

  /** try_emplace and, when the key was there, the overwrite. */
  function Placed<Id(==)>(s: Shard<Id>, e: Id, k: Key, withTtl: bool, cfg: Config): (r: Shard<Id>)
    requires s.WF() && e in s.sv.ents
    ensures r.WF()
  {
    if k in s.table then Overwrite(s, k, e, withTtl, cfg) else s.(table := s.table[k := e])
  }

  function Written<Id(==)>(s: Shard<Id>, e: Id, k: Key, v: Value, expiry: Option<nat>, cfg: Config): (r: Shard<Id>)
    requires s.WF() && e in s.sv.ents
    ensures r.WF()
  {
    Placed(Filled(s, e, k, v, expiry), e, k, expiry.Some?, cfg)
  }

  /** set (`expiry` None) or set_with_ttl up to the eviction check. */
  function Insertion<Id(==)>(s: Shard<Id>, k: Key, v: Value, expiry: Option<nat>, minted: Id, cfg: Config): (r: Shard<Id>)
    requires s.WF()
    ensures r.WF()
  {
    var (s1, e) := Acquire(Recorded(s), minted, cfg);
    Written(s1, e, k, v, expiry, cfg)
  }

  function Set<Id(==)>(s: Shard<Id>, k: Key, v: Value, expiry: Option<nat>, now: nat, minted: Id, cfg: Config): (r: Shard<Id>)
    requires s.WF()
    ensures r.WF()
  {
    CheckMemory(Insertion(s, k, v, expiry, minted, cfg), now, cfg)
  }

  /** get: an expired entry is dropped, a live one is promoted and marked visited. */
  function Get<Id(==)>(s: Shard<Id>, k: Key, now: nat, cfg: Config): (r: (Shard<Id>, Option<Value>))
    requires s.WF()
    ensures r.0.WF()
  {
    if k !in s.table then (s, None)
    else
      var e := s.table[k];
      if IsExpired(now, s.sv.ents[e].expiresAt) then
        var s1 := s.(sv := Erase(s.sv, e), table := s.table - {k});
        (Release(s1, e, cfg), None)
      else
        var s1 := Promote(s, e);
        (s1.(sv := Hit(s1.sv, e)), Some(s1.sv.ents[e].value))
  }
}
