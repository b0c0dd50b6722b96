/** The engine as it runs: entry objects shared by the table, the pool and the two lists,
    updated in place. Every method is tied to its function on values. */
module CacheEngine {
  import opened Wrappers
  import opened Bytes
  import opened SieveSpec
  import opened ShardSpec
  import opened ShardInvariant
  import opened Seals
  import opened ShardTheory
  import ShardRuns
  import LossyMap

  class Entry {
    var key: Key
    var value: Value
    var expiresAt: nat
    var ver: nat
    var heat: nat
    var lastAccess: nat
    var visited: bool
    var poolType: PoolType
    var inUse: bool

    constructor ()
      ensures Snapshot() == BLANK
    {
      key, value, expiresAt, ver, heat, lastAccess := [], [], 0, 0, 0, 0;
      visited, poolType, inUse := false, Probation, false;
    }

    function Snapshot(): Rec
      reads this
    {
      Rec(key, value, expiresAt, ver, heat, lastAccess, visited, poolType, inUse)
    }

    /** Takes the value over and, for a TTL set, the expiry. */
    method UpdateFrom(updated: Entry, updateTtl: bool)
      modifies this
      ensures Snapshot() == ShardSpec.UpdateFrom(old(Snapshot()), old(updated.Snapshot()), updateTtl)
      ensures value == old(updated.value) && expiresAt == (if updateTtl then old(updated.expiresAt) else old(expiresAt))
      ensures ver == (if updateTtl then (old(ver) + 1) % 0x1_0000_0000 else old(ver))
    {
      value := updated.value;
      if updateTtl {
        expiresAt := updated.expiresAt;
        ver := (ver + 1) % 0x1_0000_0000;
      }
    }

    /** What both release paths do to the fields. */
    method Reset()
      modifies this
      ensures Snapshot() == BLANK
    {
      inUse := false;
      visited := false;
      value := [];
      key := [];
      expiresAt := 0;
      ver := 0;
      heat := 0;
      lastAccess := 0;
      poolType := Probation;
    }
  }

  /** The fields of all entries made so far. */
  ghost function Ents(live: set<Entry>): (r: map<Entry, Rec>)
    reads live
    ensures r.Keys == live
  {
    map e | e in live :: e.Snapshot()
  }

  class SievePolicy {
    var list: seq<Entry>
    var hand: nat
    const budget: nat

    constructor (budget: nat)
      ensures list == [] && hand == 0 && this.budget == budget
    {
      list, hand := [], 0;
      this.budget := budget;
    }

    ghost function View(live: set<Entry>): Sieve<Entry>
      reads this, live
    {
      Sieve(Ents(live), list, hand)
    }

    method OnInsert(e: Entry, ghost live: set<Entry>)
      requires e in live && View(live).WF()
      modifies this, e
      ensures View(live) == Insert(old(View(live)), e)
    {
      if e in list {
        return;
      }
      e.visited := true;
      e.poolType := Sanctuary;
      var atEnd := hand == |list|;
      list := list + [e];
      if atEnd {
        hand := 0;
      }
      assert Ents(live) == old(Ents(live))[e := e.Snapshot()];
    }

    method OnErase(e: Entry, ghost live: set<Entry>)
      requires View(live).WF()
      modifies this
      ensures View(live) == Erase(old(View(live)), e)
    {
      if e !in list {
        return;
      }
      var i := IndexOf(list, e);
      if hand == i {
        hand := hand + 1;
        if hand == |list| {
          hand := 0;
        }
      }
      list := list[..i] + list[i + 1..];
      if list == [] {
        hand := 0;
      } else if hand > i {
        hand := hand - 1;
      }
    }

    method OnHit(e: Entry, ghost live: set<Entry>)
      requires e in live && View(live).WF()
      modifies e
      ensures View(live) == Hit(old(View(live)), e)
    {
      e.visited := true;
      assert Ents(live) == old(Ents(live))[e := e.Snapshot()];
    }

    /** The entry under the hand: off the list with its key handed out, or passed over with
        its bit cleared. */
    method ScanOne(now: nat, ghost live: set<Entry>) returns (victim: Option<Key>)
      requires hand < |list| && list[hand] in live
      modifies this, list[hand]
      ensures var cur, rec := old(list[hand]), old(list[hand].Snapshot());
              if Evictable(rec, now) then
                && victim == Some(rec.key)
                && list == old(list)[..old(hand)] + old(list)[old(hand) + 1..] && hand == old(hand)
                && Ents(live) == old(Ents(live))
              else
                && victim == None
                && list == old(list) && hand == old(hand) + 1
                && Ents(live) == old(Ents(live))[cur := rec.(visited := false)]
    {
      var cur := list[hand];
      if IsExpired(now, cur.expiresAt) || !cur.visited {
        victim := Some(cur.key);
        list := list[..hand] + list[hand + 1..];
        assert Ents(live) == old(Ents(live));
      } else {
        victim := None;
        cur.visited := false;
        hand := hand + 1;
      }
    }

    /** One round of the pass that started in `s0` and has come as far as `sc`. */
    method ScanRound(now: nat, ghost live: set<Entry>, victims: seq<Key>, ghost s0: Sieve<Entry>, ghost sc: Scan<Entry>)
      returns (victims': seq<Key>, ghost sc': Scan<Entry>)
      requires s0.WF() && ScanOk(s0, now, budget, sc, list, hand, Ents(live)) && hand < |list|
      requires |victims| == |sc.victims| < budget && victims == ShardSpec.KeysOf(s0.ents, sc.victims)
      modifies this, live
      ensures ScanOk(s0, now, budget, sc', list, hand, Ents(live)) && |victims'| == |sc'.victims| <= budget
      ensures victims' == ShardSpec.KeysOf(s0.ents, sc'.victims) && |sc'.rest| < |sc.rest|
    {
      ScanTerms(s0, now, budget, sc, list, hand, Ents(live));
      ScanStep(s0, now, budget, sc, list, hand, Ents(live));
      var cur := list[hand];
      var victim := ScanOne(now, live);
      if victim.Some? {
        victims' := victims + [victim.value];
        KeysMore(s0.ents, sc.victims, cur);
        sc' := Scan(sc.kept, sc.victims + [cur], sc.rest[1..]);
      } else {
        victims' := victims;
        sc' := Scan(sc.kept + [cur], sc.victims, sc.rest[1..]);
      }
    }

    /** One bounded pass from the hand to the end of the list. */
    method EvictVictims(now: nat, ghost live: set<Entry>) returns (victims: seq<Key>)
      requires View(live).WF() && NoDup(list)
      modifies this, live
      ensures View(live) == Evict(old(View(live)), now, budget)
      ensures victims == ShardSpec.KeysOf(old(Ents(live)), PassFrom(old(View(live)), now, budget).victims)
    {
      victims := [];
      if list == [] {
        return;
      }
      if hand == |list| {
        hand := 0;
      }
      ghost var s0, sc := old(View(live)), Scan([], [], list[hand..]);
      ScanStart(s0, now, budget);
      while |victims| < budget && hand != |list|
        invariant ScanOk(s0, now, budget, sc, list, hand, Ents(live)) && |victims| == |sc.victims| <= budget
        invariant hand <= |list| && victims == ShardSpec.KeysOf(s0.ents, sc.victims)
        decreases |sc.rest|
      {
        victims, sc := ScanRound(now, live, victims, s0, sc);
        ScanTerms(s0, now, budget, sc, list, hand, Ents(live));
      }
      ScanDone(s0, now, budget, sc, list, hand, Ents(live));
      if hand == |list| {
        hand := 0;
      }
    }
  }

  /** The part of a shard's state that the pool does not own. */
  datatype Rest = Rest(table: map<Key, Entry>, evictions: nat, fallbacks: nat)

  class CacheEntryPool {
    const cfg: Config
    const sieve: SievePolicy
    var free: seq<Entry>
    var prob: seq<Entry>
    var probHand: Option<Entry>
    var probCount: nat
    var sancCount: nat
    var reaped: nat

    ghost var live: set<Entry>
    ghost var orphans: set<Entry>
    ghost var dead: set<Entry>

    /** Prepopulates the pool with `maxSize` blank entries. */
    constructor (cfg: Config, sieve: SievePolicy)
      requires sieve.list == [] && sieve.hand == 0
      ensures this.cfg == cfg && this.sieve == sieve
      ensures |free| == cfg.maxSize && NoDup(free) && fresh(live)
      ensures View(Rest(map[], 0, 0)) == ShardRuns.Initial(free)
    {
      this.cfg, this.sieve := cfg, sieve;
      free, prob, probHand, probCount, sancCount, reaped := [], [], None, 0, 0, 0;
      live, orphans, dead := {}, {}, {};
      new;
      for i := 0 to cfg.maxSize
        invariant |free| == i && NoDup(free) && fresh(live)
        invariant prob == [] && probHand == None && probCount == 0 && sancCount == 0 && reaped == 0
        invariant orphans == {} && dead == {} && sieve.list == [] && sieve.hand == 0
        invariant forall e :: e in free <==> e in live
        invariant forall e :: e in live ==> e.Snapshot() == BLANK
      {
        var e := new Entry();
        free := free + [e];
        live := live + {e};
      }
      assert Ents(live) == ShardRuns.Initial(free).sv.ents;
    }

    ghost function View(rest: Rest): Shard<Entry>
      reads this, sieve, live
    {
      Shard(sieve.View(live), free, prob, probHand, probCount, sancCount, reaped,
            rest.table, rest.evictions, rest.fallbacks, orphans, dead)
    }

    /** Takes a linked entry off the probation list; a hand on it moves to the next entry. */
    method Unlist(e: Entry)
      requires e in prob
      modifies this`prob, this`probHand, this`probCount
      ensures prob == Without(old(prob), e)
      ensures probCount == if old(probCount) > 0 then old(probCount) - 1 else old(probCount)
      ensures var i := IndexOf(old(prob), e);
              var next := if i + 1 == |old(prob)| then old(prob)[0] else old(prob)[i + 1];
              probHand == if prob == [] then None else if old(probHand) == Some(e) then Some(next) else old(probHand)
    {
      var i := IndexOf(prob, e);
      var next := if i + 1 == |prob| then prob[0] else prob[i + 1];
      var removedHand := probHand == Some(e);
      prob := prob[..i] + prob[i + 1..];
      if probCount > 0 {
        probCount := probCount - 1;
      }
      if prob == [] {
        probHand := None;
      } else if removedHand {
        probHand := Some(next);
      }
    }

    method RemoveFromProbation(e: Entry, ghost rest: Rest)
      requires View(rest).WF()
      modifies this`prob, this`probHand, this`probCount
      ensures View(rest) == Unprobate(old(View(rest)), e)
    {
      if e !in prob {
        return;
      }
      Unlist(e);
    }

    method PromoteToSanctuary(e: Entry, ghost rest: Rest)
      requires View(rest).WF() && e in live
      modifies this, sieve, e
      ensures View(rest) == Promote(old(View(rest)), e)
    {
      if e.poolType == Sanctuary {
        return;
      }
      RemoveFromProbation(e, rest);
      sieve.OnInsert(e, live);
      sancCount := sancCount + 1;
      orphans := orphans - {e};
    }

    method ResetEntry(e: Entry, ghost rest: Rest)
      requires View(rest).WF() && e in live
      modifies e
      ensures View(rest) == Put(old(View(rest)), e, BLANK)
    {
      e.Reset();
      assert Ents(live) == old(Ents(live))[e := BLANK];
    }

    method Unlink(e: Entry, ghost rest: Rest)
      requires View(rest).WF()
      modifies this, sieve
      ensures View(rest) == Unseat(old(View(rest)), e)
    {
      sieve.OnErase(e, live);
      if sancCount > 0 {
        sancCount := sancCount - 1;
      }
    }

    method Return(e: Entry, ghost rest: Rest)
      requires View(rest).WF() && e in live
      modifies this
      ensures var s := old(View(rest)); View(rest) == Push(s.(orphans := s.orphans - {e}), e, cfg)
    {
      orphans := orphans - {e};
      if |free| < cfg.maxSize {
        free := free + [e];
        return;
      }
      dead := dead + {e};
    }

    /** release: resets before unlinking without a probation pool, after it with one. */
    method ReleaseEntry(e: Entry, ghost rest: Rest)
      requires View(rest).WF() && e in live
      modifies this, sieve, e
      ensures View(rest) == Release(old(View(rest)), e, cfg)
    {
      if cfg.probMax == 0 {
        ResetEntry(e, rest);
        Unlink(e, rest);
      } else {
        if e.poolType == Probation {
          RemoveFromProbation(e, rest);
        } else {
          Unlink(e, rest);
        }
        ResetEntry(e, rest);
      }
      Return(e, rest);
    }

    /** The reaper's loop, with its hand: the keys of the entries it takes off the list. The
        counter covers the list, so its unguarded decrements cannot wrap. */
    method ReaperLoop() returns (victims: seq<Key>)
      requires prob != [] && |prob| <= probCount
      modifies this`prob, this`probHand, this`probCount
      ensures var n := if cfg.reaperBudget < |old(prob)| then cfg.reaperBudget else |old(prob)|;
              && |victims| == n && prob == old(prob)[n..] && probCount == old(probCount) - n
              && probHand == (if prob == [] then None else Some(prob[0]))
              && forall i :: 0 <= i < n ==> victims[i] == old(prob)[i].key
    {
      probHand := Some(prob[0]);
      victims := [];
      var evicted := 0;
      while evicted < cfg.reaperBudget && prob != []
        invariant evicted <= cfg.reaperBudget && evicted <= |old(prob)| && |victims| == evicted
        invariant prob == old(prob)[evicted..]
        invariant probHand == if prob == [] then None else Some(prob[0])
        invariant probCount == old(probCount) - evicted
        invariant forall i :: 0 <= i < evicted ==> victims[i] == old(prob)[i].key
        decreases |prob|
      {
        var victim := probHand.value;
        var i := IndexOf(prob, victim);
        var next := if i + 1 == |prob| then prob[0] else prob[i + 1];
        victims := victims + [victim.key];
        prob := prob[..i] + prob[i + 1..];
        probCount := probCount - 1;
        evicted := evicted + 1;
        probHand := if prob == [] then None else Some(next);
      }
    }

    method TakeOldest(ghost rest: Rest) returns (victims: seq<Key>)
      requires View(rest).WF() && prob != [] && |prob| <= probCount
      modifies this`prob, this`probHand, this`probCount, this`reaped
      ensures View(rest) == Reaped(old(View(rest)), cfg)
      ensures victims == KeysOf(old(Ents(live)), old(prob)[..ReapCount(old(View(rest)), cfg)])
    {
      victims := ReaperLoop();
      reaped := reaped + |victims|;
    }
  }

  class Store {
    const pool: CacheEntryPool
    const sieve: SievePolicy
    var table: map<Key, Entry>
    var evictions: nat
    var fallbacks: nat

    /** start: an empty table over a fresh pool. */
    constructor (cfg: Config)
      ensures pool.cfg == cfg && Valid() && Contents(State()) == map[]
      ensures fresh(pool) && fresh(sieve) && fresh(pool.live)
    {
      var policy := new SievePolicy(cfg.sieveBudget);
      var entries := new CacheEntryPool(cfg, policy);
      pool, sieve := entries, policy;
      table, evictions, fallbacks := map[], 0, 0;
      ShardRuns.InitialInv(entries.free, cfg);
    }

    ghost function Own(): Rest
      reads this
    {
      Rest(table, evictions, fallbacks)
    }

    ghost function State(): Shard<Entry>
      reads this, pool, pool.sieve, pool.live
    {
      pool.View(Own())
    }

    ghost predicate Wired()
      reads this, pool
    {
      pool.sieve == sieve && sieve.budget == pool.cfg.sieveBudget
    }

    ghost predicate Valid()
      reads this, pool, sieve, pool.sieve, pool.live
    {
      Wired() && Inv(State(), pool.cfg)
    }

    /** extract: the key leaves the table, its entry is handed out. */
    method Extract(k: Key) returns (e: Entry)
      requires State().WF() && k in table
      modifies this`table
      ensures var s := old(State()); e == s.table[k] && State() == s.(table := s.table - {k})
      ensures e in pool.live && State().WF()
    {
      e := table[k];
      table := table - {k};
    }

    method RecordEviction()
      modifies this`evictions
      ensures var s := old(State()); State() == s.(evictions := s.evictions + 1)
    {
      evictions := evictions + 1;
    }

    method GiveBack(e: Entry)
      requires Wired() && State().WF() && e in pool.live
      modifies pool, sieve, e
      ensures State() == Release(old(State()), e, pool.cfg)
    {
      pool.ReleaseEntry(e, Own());
    }

    /** One iteration of a victim loop. */
    method EvictOne(k: Key)
      requires Wired() && State().WF()
      modifies this, pool, sieve, pool.live
      ensures State() == EvictKey(old(State()), k, pool.cfg)
    {
      if k in table {
        var e := Extract(k);
        GiveBack(e);
        RecordEviction();
      }
    }

    /** The loop over a list of victims, shared by the reaper's callback and the eviction
        check. */
    method EvictAll(keys: seq<Key>)
      requires Wired() && State().WF()
      modifies this, pool, sieve, pool.live
      ensures State() == EvictKeys(old(State()), keys, pool.cfg)
    {
      ghost var live, s0 := pool.live, State();
      for i := 0 to |keys|
        invariant pool.live == live && State().WF()
        invariant EvictKeys(State(), keys[i..], pool.cfg) == EvictKeys(s0, keys, pool.cfg)
      {
        EvictOne(keys[i]);
        assert keys[i..][1..] == keys[i + 1..];
      }
    }

    /** run_sequential_reaper. */
    method RunSequentialReaper()
      requires Wired() && State().WF() && |pool.prob| <= pool.probCount
      modifies this, pool, sieve, pool.live
      ensures State() == Reap(old(State()), pool.cfg)
    {
      if pool.prob == [] {
        return;
      }
      var victims := pool.TakeOldest(Own());
      EvictAll(victims);
    }

    /** The eviction check once it is due. */
    method EvictDue(now: nat)
      requires Wired() && State().WF() && NoDup(sieve.list)
      modifies this, pool, sieve, pool.live
      ensures EvictedOk(old(State()), now, pool.cfg, State())
      ensures pool.live == old(pool.live)
    {
      var victims := sieve.EvictVictims(now, pool.live);
      EvictAll(victims);
    }

    /** check_memory_and_evict. */
    method CheckMemoryAndEvict(now: nat)
      requires Wired() && State().WF() && NoDup(sieve.list)
      modifies this, pool, sieve, pool.live
      ensures CheckOk(old(State()), now, pool.cfg, State())
      ensures pool.live == old(pool.live)
    {
      ghost var s := State();
      if pool.cfg.maxSize == 0 {
        CheckIs(s, now, pool.cfg, s);
        return;
      }
      var used := (pool.cfg.maxSize - |pool.free|) as real / (pool.cfg.maxSize as real);
      if used >= pool.cfg.softTrigger {
        EvictDue(now);
      }
      CheckIs(s, now, pool.cfg, State());
    }

    // ---- acquire ----

    /** Entry allocation when the pool is empty. */
    method Mint() returns (e: Entry)
      requires State().WF()
      modifies pool`live
      ensures fresh(e) && pool.live == old(pool.live) + {e}
      ensures State() == Put(old(State()), e, BLANK)
    {
      e := new Entry();
      pool.live := pool.live + {e};
      assert Ents(pool.live) == old(Ents(pool.live))[e := BLANK];
    }

    method MarkUsed(e: Entry)
      requires State().WF() && e in pool.live
      modifies e`inUse
      ensures var s := old(State()); State() == Put(s, e, s.sv.ents[e].(inUse := true))
    {
      e.inUse := true;
      assert Ents(pool.live) == old(Ents(pool.live))[e := e.Snapshot()];
    }

    /** The first free entry, or a new one, marked in use. */
    method TakeEntry() returns (e: Entry)
      requires State().WF()
      modifies pool`free, pool`live, pool.live
      ensures Taken(old(State()), e, State())
      ensures pool.live == old(pool.live) + {e} && (if old(pool.free) == [] then fresh(e) else e in old(pool.live))
    {
      ghost var s := State();
      if pool.free == [] {
        e := Mint();
        MarkUsed(e);
        UsedTwice(s, e);
      } else {
        e := pool.free[0];
        pool.free := pool.free[1..];
        MarkUsed(e);
      }
    }

    /** Counts an entry into the sanctuary and links it. */
    method Seat(e: Entry)
      requires Wired() && State().WF() && e in pool.live
      modifies pool`sancCount, sieve, e
      ensures var s := old(State()); State() == s.(sancCount := s.sancCount + 1, sv := Insert(s.sv, e))
    {
      pool.sancCount := pool.sancCount + 1;
      sieve.OnInsert(e, pool.live);
    }

    /** do_acquire. */
    method DoAcquire() returns (e: Entry)
      requires Wired() && State().WF()
      modifies pool, sieve, pool.live
      ensures (State(), e) == AcquirePlain(old(State()), e)
      ensures pool.live == old(pool.live) + {e} && (if old(pool.free) == [] then fresh(e) else e in old(pool.live))
    {
      ghost var s := State();
      e := TakeEntry();
      ghost var s1 := State();
      Seat(e);
      PlainIs(s, e, s1, State());
    }

    /** Links an entry at the back of the probation list and counts it. */
    method LinkProbation(e: Entry)
      requires State().WF() && e in pool.live
      modifies pool`probCount, pool`prob, e`poolType
      ensures LinkedLast(old(State()), e, State())
    {
      e.poolType := Probation;
      pool.probCount := pool.probCount + 1;
      pool.prob := pool.prob + [e];
      assert Ents(pool.live) == old(Ents(pool.live))[e := e.Snapshot()];
    }

    /** Counts an entry on probation without linking it. */
    method CountOrphan(e: Entry)
      requires State().WF() && e in pool.live
      modifies pool`probCount, pool`orphans, e`poolType
      ensures CountedOnly(old(State()), e, State())
    {
      e.poolType := Probation;
      pool.probCount := pool.probCount + 1;
      pool.orphans := pool.orphans + {e};
      assert Ents(pool.live) == old(Ents(pool.live))[e := e.Snapshot()];
    }

    /** do_prob_acquire with an empty pool. */
    method DoProbAcquireFallback() returns (e: Entry)
      requires Wired() && State().WF() && |pool.prob| <= pool.probCount && pool.free == []
      modifies this, pool, sieve, pool.live
      ensures (State(), e) == AcquireProb(old(State()), e, pool.cfg)
      ensures pool.live == old(pool.live) + {e} && fresh(e)
    {
      ghost var s := State();
      e := TakeEntry();
      ghost var s1 := State();
      CountOrphan(e);
      ghost var s2 := State();
      FallbackIs(s, e, s1, s2, pool.cfg);
      RunSequentialReaper();
    }

    /** do_prob_acquire with a free entry. */
    method DoProbAcquirePooled() returns (e: Entry)
      requires Wired() && State().WF() && |pool.prob| <= pool.probCount && pool.free != []
      modifies this, pool, sieve, pool.live
      ensures (State(), e) == AcquireProb(old(State()), e, pool.cfg)
      ensures pool.live == old(pool.live) + {e} && e in old(pool.live)
    {
      ghost var s := State();
      if pool.probCount >= pool.cfg.threshold {
        RunSequentialReaper();
      }
      ghost var s1 := State();
      e := TakeEntry();
      ghost var s2 := State();
      LinkProbation(e);
      PooledIs(s, s1, e, s2, State(), pool.cfg);
    }

    /** acquire: never fails. */
    method AcquireEntry() returns (e: Entry)
      requires Wired() && State().WF() && |pool.prob| <= pool.probCount
      modifies this, pool, sieve, pool.live
      ensures AcquireOk(old(State()), e, pool.cfg, State())
      ensures pool.live == old(pool.live) + {e} && (if old(pool.free) == [] then fresh(e) else e in old(pool.live))
    {
      if pool.cfg.probMax == 0 {
        e := DoAcquire();
      } else if pool.free == [] {
        e := DoProbAcquireFallback();
      } else {
        e := DoProbAcquirePooled();
      }
    }

    // ---- set and get ----

    method RecordFallback()
      requires State().WF()
      modifies this`fallbacks
      ensures State() == Recorded(old(State()))
    {
      if |pool.free| == 0 {
        fallbacks := fallbacks + 1;
      }
    }

    method Fill(e: Entry, k: Key, v: Value, expiry: Option<nat>)
      requires State().WF() && e in pool.live
      modifies e
      ensures State() == Filled(old(State()), e, k, v, expiry)
    {
      e.key := k;
      e.value := v;
      if expiry.Some? {
        e.expiresAt := expiry.value;
      }
      assert Ents(pool.live) == old(Ents(pool.live))[e := e.Snapshot()];
    }

    method TakeOver(o: Entry, e: Entry, withTtl: bool)
      requires State().WF() && o in pool.live && e in pool.live
      modifies o
      ensures var s := old(State()); State() == Put(s, o, UpdateFrom(s.sv.ents[o], s.sv.ents[e], withTtl))
    {
      o.UpdateFrom(e, withTtl);
      assert Ents(pool.live) == old(Ents(pool.live))[o := o.Snapshot()];
    }

    method PromoteEntry(e: Entry)
      requires Wired() && State().WF() && e in pool.live
      modifies pool, sieve, e
      ensures State() == Promote(old(State()), e)
    {
      pool.PromoteToSanctuary(e, Own());
    }

    /** try_emplace; when the key is there its entry takes the value over and is promoted, and
        the acquired entry goes back. */
    method Place(k: Key, e: Entry, withTtl: bool)
      requires Wired() && State().WF() && e in pool.live
      modifies this, pool, sieve, pool.live
      ensures State() == Placed(old(State()), e, k, withTtl, pool.cfg)
    {
      if k !in table {
        table := table[k := e];
      } else {
        var o := table[k];
        TakeOver(o, e, withTtl);
        PromoteEntry(o);
        GiveBack(e);
      }
    }

    method WriteEntry(e: Entry, k: Key, v: Value, expiry: Option<nat>)
      requires Wired() && State().WF() && e in pool.live
      modifies this, pool, sieve, pool.live
      ensures WrittenOk(old(State()), e, k, v, expiry, pool.cfg, State())
      ensures pool.live == old(pool.live)
    {
      Fill(e, k, v, expiry);
      Place(k, e, expiry.Some?);
    }

    /** Either setter up to the eviction check. */
    method InsertKey(k: Key, v: Value, expiry: Option<nat>) returns (e: Entry)
      requires Wired() && State().WF() && |pool.prob| <= pool.probCount
      modifies this, pool, sieve, pool.live
      ensures InsertionOk(old(State()), k, v, expiry, e, pool.cfg, State())
      ensures pool.live == old(pool.live) + {e} && (if old(pool.free) == [] then fresh(e) else e in old(pool.live))
    {
      ghost var s := State();
      RecordFallback();
      e := AcquireEntry();
      ghost var s1 := State();
      WriteEntry(e, k, v, expiry);
      InsertionIs(s, k, v, expiry, e, pool.cfg, s1, State());
    }

    /** The two setters, which differ in the expiry only. `minted` is the entry acquired. */
    method SetEntry(k: Key, v: Value, expiry: Option<nat>, now: nat) returns (ghost minted: Entry)
      requires Valid()
      modifies this, pool, sieve, pool.live
      ensures Valid() && SetOk(old(State()), k, v, expiry, now, minted, pool.cfg, State())
      ensures pool.live == old(pool.live) + {minted} && (if old(pool.free) == [] then fresh(minted) else minted in old(pool.live))
    {
      ghost var s := State();
      CounterCovers(s, pool.cfg);
      minted := InsertKey(k, v, expiry);
      ghost var s1 := State();
      InsertedHealthy(s, k, v, expiry, minted, pool.cfg, s1);
      CheckMemoryAndEvict(now);
      SetIs(s, k, v, expiry, now, minted, pool.cfg, s1, State());
    }

    /** set: always stores. */
    method Set(k: Key, v: Value, now: nat) returns (ok: bool, ghost minted: Entry)
      requires Valid()
      modifies this, pool, sieve, pool.live
      ensures Valid() && ok
      ensures State() == ShardSpec.Set(old(State()), k, v, None, now, minted, pool.cfg)
      ensures LossyMap.SetStep(old(Contents(State())), k, v, None, Contents(State()))
      ensures pool.live == old(pool.live) + {minted} && (if old(pool.free) == [] then fresh(minted) else minted in old(pool.live))
    {
      ghost var s := State();
      minted := SetEntry(k, v, None, now);
      ok := true;
      SetUnsealed(s, k, v, None, now, minted, pool.cfg, State());
    }

    /** set_with_ttl: always stores, with an absolute expiry. */
    method SetWithTtl(k: Key, v: Value, ttl: nat, now: nat) returns (ok: bool, ghost minted: Entry)
      requires Valid()
      modifies this, pool, sieve, pool.live
      ensures Valid() && ok
      ensures State() == ShardSpec.Set(old(State()), k, v, Some((now + ttl) % 0x1_0000_0000_0000_0000), now, minted, pool.cfg)
      ensures LossyMap.SetStep(old(Contents(State())), k, v, Some((now + ttl) % 0x1_0000_0000_0000_0000), Contents(State()))
      ensures pool.live == old(pool.live) + {minted} && (if old(pool.free) == [] then fresh(minted) else minted in old(pool.live))
    {
      ghost var s := State();
      var expiresAt := (now + ttl) % TWO_64;
      minted := SetEntry(k, v, Some(expiresAt), now);
      ok := true;
      SetUnsealed(s, k, v, Some(expiresAt), now, minted, pool.cfg, State());
    }

    /** get. */
    method Get(k: Key, now: nat) returns (r: Option<Value>)
      requires Valid()
      modifies this, pool, sieve, pool.live
      ensures Valid()
      ensures (State(), r) == ShardSpec.Get(old(State()), k, now, pool.cfg)
      ensures (Contents(State()), r) == LossyMap.GetStep(old(Contents(State())), k, now)
      ensures pool.live == old(pool.live)
    {
      ghost var s := State();
      GetInv(s, k, now, pool.cfg);
      if k !in table {
        return None;
      }
      var e := table[k];
      if IsExpired(now, e.expiresAt) {
        Expire(k);
        r := None;
      } else {
        r := Touch(e);
      }
    }

    method Expire(k: Key)
      requires Wired() && State().WF() && k in table
      modifies this, pool, sieve, pool.live
      ensures Wired() && pool.live == old(pool.live)
      ensures var s := old(State());
              var s1 := s.(sv := Erase(s.sv, s.table[k]), table := s.table - {k});
              State() == Release(s1, s.table[k], pool.cfg)
    {
      sieve.OnErase(table[k], pool.live);
      var e := Extract(k);
      GiveBack(e);
    }

    method Touch(e: Entry) returns (r: Option<Value>)
      requires Wired() && State().WF() && e in pool.live
      modifies pool, sieve, e
      ensures Wired() && pool.live == old(pool.live)
      ensures var s := old(State());
              var s1 := Promote(s, e);
              State() == s1.(sv := Hit(s1.sv, e)) && r == Some(s1.sv.ents[e].value)
    {
      PromoteEntry(e);
      sieve.OnHit(e, pool.live);
      r := Some(e.value);
    }
  }

  // ---- results of the larger steps, unfolded only where they are put together ----

  ghost predicate AcquireOk(s: Shard<Entry>, e: Entry, cfg: Config, r: Shard<Entry>)
    requires s.WF()
  {
    && r.WF() && e in r.sv.ents
    && forall t {:trigger Open(AcquireSeal, t)} :: Open(AcquireSeal, t) ==> (r, e) == Acquire(s, e, cfg)
  }

  ghost predicate WrittenOk(s: Shard<Entry>, e: Entry, k: Key, v: Value, expiry: Option<nat>, cfg: Config, r: Shard<Entry>)
    requires s.WF() && e in s.sv.ents
  {
    && r.WF()
    && forall t {:trigger Open(WriteSeal, t)} :: Open(WriteSeal, t) ==> r == Written(s, e, k, v, expiry, cfg)
  }

  ghost predicate InsertionOk(s: Shard<Entry>, k: Key, v: Value, expiry: Option<nat>, e: Entry, cfg: Config, r: Shard<Entry>)
    requires s.WF()
  {
    && r.WF()
    && forall t {:trigger Open(InsertionSeal, t)} :: Open(InsertionSeal, t) ==> r == Insertion(s, k, v, expiry, e, cfg)
  }

  ghost predicate EvictedOk(s: Shard<Entry>, now: nat, cfg: Config, r: Shard<Entry>)
    requires s.WF()
  {
    && r.WF()
    && forall t {:trigger Open(EvictSeal, t)} :: Open(EvictSeal, t) ==>
         r == EvictKeys(s.(sv := Evict(s.sv, now, cfg.sieveBudget)),
                        KeysOf(s.sv.ents, PassFrom(s.sv, now, cfg.sieveBudget).victims), cfg)
  }

  ghost predicate CheckOk(s: Shard<Entry>, now: nat, cfg: Config, r: Shard<Entry>)
    requires s.WF()
  {
    && r.WF()
    && forall t {:trigger Open(CheckSeal, t)} :: Open(CheckSeal, t) ==> r == CheckMemory(s, now, cfg)
  }

  ghost predicate SetOk(s: Shard<Entry>, k: Key, v: Value, expiry: Option<nat>, now: nat, e: Entry, cfg: Config, r: Shard<Entry>)
    requires s.WF()
  {
    && r.WF()
    && forall t {:trigger Open(SetSeal, t)} :: Open(SetSeal, t) ==>
         r == ShardSpec.Set(s, k, v, expiry, now, e, cfg) && LossyMap.SetStep(Contents(s), k, v, expiry, Contents(r))
  }

  lemma InsertionIs(s: Shard<Entry>, k: Key, v: Value, expiry: Option<nat>, e: Entry, cfg: Config, s1: Shard<Entry>, r: Shard<Entry>)
    requires s.WF() && AcquireOk(Recorded(s), e, cfg, s1) && WrittenOk(s1, e, k, v, expiry, cfg, r)
    ensures InsertionOk(s, k, v, expiry, e, cfg, r)
  {
    assert Open(AcquireSeal, true) && Open(WriteSeal, true);
  }

  lemma CounterCovers(s: Shard<Entry>, cfg: Config)
    requires Inv(s, cfg)
    ensures |s.prob| <= s.probCount
  {
    ShardRuns.Conservation(s, cfg);
  }

  lemma InsertedHealthy(s: Shard<Entry>, k: Key, v: Value, expiry: Option<nat>, e: Entry, cfg: Config, r: Shard<Entry>)
    requires Inv(s, cfg) && (s.free == [] ==> e !in s.sv.ents) && InsertionOk(s, k, v, expiry, e, cfg, r)
    ensures NoDup(r.sv.list)
  {
    assert Open(InsertionSeal, true);
    InsertionInv(s, k, v, expiry, e, cfg);
    Unseal(r, cfg, {}, {}, {}, 0);
  }

  lemma SetIs(s: Shard<Entry>, k: Key, v: Value, expiry: Option<nat>, now: nat, e: Entry, cfg: Config, s1: Shard<Entry>, r: Shard<Entry>)
    requires Inv(s, cfg) && (s.free == [] ==> e !in s.sv.ents)
    requires InsertionOk(s, k, v, expiry, e, cfg, s1) && CheckOk(s1, now, cfg, r)
    ensures Inv(r, cfg) && SetOk(s, k, v, expiry, now, e, cfg, r)
  {
    assert r == ShardSpec.Set(s, k, v, expiry, now, e, cfg) by { assert Open(InsertionSeal, true) && Open(CheckSeal, true); }
    SetInv(s, k, v, expiry, now, e, cfg);
  }

  lemma SetUnsealed(s: Shard<Entry>, k: Key, v: Value, expiry: Option<nat>, now: nat, e: Entry, cfg: Config, r: Shard<Entry>)
    requires s.WF() && SetOk(s, k, v, expiry, now, e, cfg, r)
    ensures r == ShardSpec.Set(s, k, v, expiry, now, e, cfg)
    ensures LossyMap.SetStep(Contents(s), k, v, expiry, Contents(r))
  {
    assert Open(SetSeal, true);
  }

  /** `e` has been taken from the pool or made new, and is in use. */
  ghost predicate Taken(s: Shard<Entry>, e: Entry, r: Shard<Entry>)
    requires s.WF()
  {
    if s.free == [] then e !in s.sv.ents && r == Put(s, e, BLANK.(inUse := true))
    else e == s.free[0] && r == Put(s, e, s.sv.ents[e].(inUse := true)).(free := s.free[1..])
  }

  ghost predicate LinkedLast(s: Shard<Entry>, e: Entry, r: Shard<Entry>)
    requires s.WF() && e in s.sv.ents
  {
    r == Put(s, e, s.sv.ents[e].(poolType := Probation)).(probCount := s.probCount + 1, prob := s.prob + [e])
  }

  ghost predicate CountedOnly(s: Shard<Entry>, e: Entry, r: Shard<Entry>)
    requires s.WF() && e in s.sv.ents
  {
    r == Put(s, e, s.sv.ents[e].(poolType := Probation)).(probCount := s.probCount + 1, orphans := s.orphans + {e})
  }

  lemma PlainIs(s: Shard<Entry>, e: Entry, s1: Shard<Entry>, r: Shard<Entry>)
    requires s.WF() && s1.WF() && Taken(s, e, s1) && e in s1.sv.ents
    requires r == s1.(sancCount := s1.sancCount + 1, sv := Insert(s1.sv, e))
    ensures (r, e) == AcquirePlain(s, e)
  {
  }

  lemma UsedTwice(s: Shard<Entry>, e: Entry)
    requires s.WF()
    ensures Put(Put(s, e, BLANK), e, BLANK.(inUse := true)) == Put(s, e, BLANK.(inUse := true))
  {
  }

  lemma OrphanState(s: Shard<Entry>, e: Entry, s1: Shard<Entry>, s2: Shard<Entry>)
    requires s.WF() && s1.WF() && s.free == [] && Taken(s, e, s1) && e in s1.sv.ents && CountedOnly(s1, e, s2)
    ensures s2 == Put(s, e, BLANK.(inUse := true, poolType := Probation))
                  .(probCount := s.probCount + 1, orphans := s.orphans + {e})
  {
  }

  lemma FallbackIs(s: Shard<Entry>, e: Entry, s1: Shard<Entry>, s2: Shard<Entry>, cfg: Config)
    requires s.WF() && s1.WF() && s2.WF() && s.free == [] && Taken(s, e, s1) && e in s1.sv.ents && CountedOnly(s1, e, s2)
    ensures AcquireProb(s, e, cfg) == (Reap(s2, cfg), e)
    ensures s2.prob == s.prob && s2.probCount == s.probCount + 1
  {
    OrphanState(s, e, s1, s2);
  }

  lemma LinkedState(s: Shard<Entry>, e: Entry, s1: Shard<Entry>, r: Shard<Entry>)
    requires s.WF() && s1.WF() && s.free != [] && Taken(s, e, s1) && e in s1.sv.ents && LinkedLast(s1, e, r)
    ensures e == s.free[0]
    ensures r == Put(s, e, s.sv.ents[e].(inUse := true, poolType := Probation))
                 .(free := s.free[1..], probCount := s.probCount + 1, prob := s.prob + [e])
  {
    assert r.sv.ents == s.sv.ents[e := s.sv.ents[e].(inUse := true, poolType := Probation)];
  }

  lemma PooledIs(s: Shard<Entry>, s1: Shard<Entry>, e: Entry, s2: Shard<Entry>, r: Shard<Entry>, cfg: Config)
    requires s.WF() && s.free != [] && s1 == if s.probCount >= cfg.threshold then Reap(s, cfg) else s
    requires s1.free != [] && s2.WF() && Taken(s1, e, s2) && e in s2.sv.ents && LinkedLast(s2, e, r)
    ensures AcquireProb(s, e, cfg) == (r, e)
  {
    LinkedState(s1, e, s2, r);
  }

  lemma CheckIs(s: Shard<Entry>, now: nat, cfg: Config, r: Shard<Entry>)
    requires s.WF() && r.WF()
    requires Triggered(s, cfg) ==> EvictedOk(s, now, cfg, r)
    requires !Triggered(s, cfg) ==> r == s
    ensures CheckOk(s, now, cfg, r)
  {
    assert Open(EvictSeal, true);
  }

  lemma DropFirst<T>(a: seq<T>, b: seq<T>)
    requires b != []
    ensures (a + b)[..|a|] + (a + b)[|a| + 1..] == a + b[1..]
  {
  }

  lemma MoveFirst<T>(a: seq<T>, b: seq<T>, c: seq<T>)
    requires c != []
    ensures a + b + c == a + (b + [c[0]]) + c[1..]
  {
  }

  lemma ClearMore(ents: map<Entry, Rec>, kept: seq<Entry>, e: Entry)
    requires e in ents && e !in kept
    ensures ClearBits(ents, kept + [e]) == ClearBits(ents, kept)[e := ents[e].(visited := false)]
  {
  }

  lemma KeysMore(ents: map<Entry, Rec>, es: seq<Entry>, e: Entry)
    requires e in ents && forall x :: x in es ==> x in ents
    ensures forall x :: x in es + [e] ==> x in ents
    ensures ShardSpec.KeysOf(ents, es + [e]) == ShardSpec.KeysOf(ents, es) + [ents[e].key]
  {
  }

  lemma NoDupTail<T>(s: seq<T>, h: nat)
    requires NoDup(s) && h <= |s|
    ensures NoDup(s[h..])
  {
  }

  /** A pass from `s` that has got as far as `sc` ends like the pass from the start. */
  ghost predicate Resumes(s: Sieve<Entry>, now: nat, budget: nat, sc: Scan<Entry>)
    requires s.WF()
  {
    && (forall e :: e in sc.rest ==> e in s.ents && e !in sc.kept)
    && (forall e :: e in sc.victims ==> e in s.ents)
    && NoDup(sc.rest)
    && |sc.victims| <= budget
    && var p, q := PassFrom(s, now, budget), Pass(s.ents, sc.rest, now, budget - |sc.victims|);
       p.kept == sc.kept + q.kept && p.victims == sc.victims + q.victims && p.rest == q.rest
  }

  /** The list, the hand and the fields in the middle of a pass. */
  ghost predicate ScanState(s: Sieve<Entry>, now: nat, budget: nat, sc: Scan<Entry>,
                         list: seq<Entry>, hand: nat, ents: map<Entry, Rec>)
    requires s.WF()
  {
    var before := s.list[..Start(s)];
    && Resumes(s, now, budget, sc)
    && list == before + sc.kept + sc.rest && hand == |before + sc.kept|
    && ents == ClearBits(s.ents, sc.kept)
  }

  /** The same behind a quantifier, so that the loop carries it without looking inside. */
  ghost predicate ScanOk(s: Sieve<Entry>, now: nat, budget: nat, sc: Scan<Entry>,
                         list: seq<Entry>, hand: nat, ents: map<Entry, Rec>)
    requires s.WF()
  {
    && (forall e :: e in sc.victims ==> e in s.ents)
    && forall t {:trigger Open(ScanSeal, t)} :: Open(ScanSeal, t) ==> ScanState(s, now, budget, sc, list, hand, ents)
  }

  lemma ScanStart(s: Sieve<Entry>, now: nat, budget: nat)
    requires s.WF() && NoDup(s.list)
    ensures ScanOk(s, now, budget, Scan([], [], s.list[Start(s)..]), s.list, Start(s), s.ents)
  {
    var p, h := PassFrom(s, now, budget), Start(s);
    assert [] + p.kept == p.kept && [] + p.victims == p.victims;
    NoDupTail(s.list, h);
    assert s.list == s.list[..h] + [] + s.list[h..];
    assert ClearBits(s.ents, []) == s.ents;
  }

  lemma ScanTerms(s: Sieve<Entry>, now: nat, budget: nat, sc: Scan<Entry>, list: seq<Entry>, hand: nat, ents: map<Entry, Rec>)
    requires s.WF() && ScanOk(s, now, budget, sc, list, hand, ents)
    ensures hand <= |list| && (hand == |list| <==> sc.rest == [])
    ensures hand < |list| ==>
              && list[hand] == sc.rest[0] && list[hand] in ents && list[hand] in s.ents
              && ents[list[hand]] == s.ents[list[hand]]
  {
    assert Open(ScanSeal, true);
  }

  lemma ResumesStep(s: Sieve<Entry>, now: nat, budget: nat, sc: Scan<Entry>)
    requires s.WF() && Resumes(s, now, budget, sc) && sc.rest != [] && |sc.victims| < budget
    ensures if Evictable(s.ents[sc.rest[0]], now)
            then Resumes(s, now, budget, Scan(sc.kept, sc.victims + [sc.rest[0]], sc.rest[1..]))
            else Resumes(s, now, budget, Scan(sc.kept + [sc.rest[0]], sc.victims, sc.rest[1..]))
  {
    var todo := sc.rest;
    var cur, q := todo[0], Pass(s.ents, todo, now, budget - |sc.victims|);
    NoDupTail(todo, 1);
    forall e | e in todo[1..]
      ensures e in todo && e != cur
    {
      var i :| 0 <= i < |todo[1..]| && todo[1..][i] == e;
      assert todo[i + 1] == e;
    }
    if Evictable(s.ents[cur], now) {
      assert sc.victims + q.victims
          == sc.victims + [cur] + Pass(s.ents, todo[1..], now, budget - |sc.victims| - 1).victims;
      assert forall e :: e in sc.victims + [cur] ==> e in s.ents;
    } else {
      assert sc.kept + q.kept == sc.kept + [cur] + Pass(s.ents, todo[1..], now, budget - |sc.victims|).kept;
    }
  }

  lemma ScanStep(s: Sieve<Entry>, now: nat, budget: nat, sc: Scan<Entry>, list: seq<Entry>, hand: nat, ents: map<Entry, Rec>)
    requires s.WF() && ScanOk(s, now, budget, sc, list, hand, ents) && sc.rest != [] && |sc.victims| < budget
    requires sc.rest[0] in ents && hand < |list|
    ensures var cur := sc.rest[0];
            if Evictable(ents[cur], now)
            then ScanOk(s, now, budget, Scan(sc.kept, sc.victims + [cur], sc.rest[1..]),
                        list[..hand] + list[hand + 1..], hand, ents)
            else ScanOk(s, now, budget, Scan(sc.kept + [cur], sc.victims, sc.rest[1..]),
                        list, hand + 1, ents[cur := ents[cur].(visited := false)])
  {
    assert Open(ScanSeal, true);
    ResumesStep(s, now, budget, sc);
    var before := s.list[..Start(s)];
    DropFirst(before + sc.kept, sc.rest);
    MoveFirst(before, sc.kept, sc.rest);
    ClearMore(s.ents, sc.kept, sc.rest[0]);
  }

  lemma ScanDone(s: Sieve<Entry>, now: nat, budget: nat, sc: Scan<Entry>, list: seq<Entry>, hand: nat, ents: map<Entry, Rec>)
    requires s.WF() && ScanOk(s, now, budget, sc, list, hand, ents) && (hand == |list| || |sc.victims| == budget)
    requires s.list != []
    ensures PassFrom(s, now, budget) == sc
    ensures Evict(s, now, budget) == Sieve(ents, list, if hand == |list| then 0 else hand)
  {
    assert Open(ScanSeal, true);
    assert sc.kept + [] == sc.kept && sc.victims + [] == sc.victims;
  }
}
