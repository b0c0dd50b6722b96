/** Whole runs of one shard, from a freshly initialised pool. */
module ShardRuns {
  import opened Wrappers
  import opened SieveSpec
  import opened ShardSpec
  import opened ShardInvariant
  import opened ShardTheory
  import LossyMap

  /** A shard whose pool has been prepopulated with `ids`. */
  function Initial<Id(==)>(ids: seq<Id>): (s: Shard<Id>)
    ensures s.WF()
  {
    var ents := map e | e in ids :: BLANK;
    Shard(Sieve(ents, [], 0), ids, [], None, 0, 0, 0, map[], 0, 0, {}, {})
  }

  lemma InitialInv<Id>(ids: seq<Id>, cfg: Config)
    requires NoDup(ids) && |ids| == cfg.maxSize
    ensures Inv(Initial(ids), cfg) && Contents(Initial(ids)) == map[]
  {
    var s := Initial(ids);
    assert forall e :: e in s.sv.ents ==> EntOk(s, e, {}) && LinkOk(s, e, {}, {});
    Seal(s, cfg, {}, {}, {}, 0);
  }

  /** One operation; `minted` names the entry allocated should the pool be empty. */
  datatype Call<Id> = Call(ev: LossyMap.Event, minted: Id)

  function Perform<Id(==)>(s: Shard<Id>, c: Call<Id>, cfg: Config): (r: (Shard<Id>, Option<Value>))
    requires s.WF()
    ensures r.0.WF()
  {
    if c.ev.op.Get? then Get(s, c.ev.op.k, c.ev.now, cfg)
    else (Set(s, c.ev.op.k, c.ev.op.v, LossyMap.Expiry(c.ev), c.ev.now, c.minted, cfg), None)
  }

  /** An allocated entry is a new one. */
  predicate Fresh<Id(==)>(s: Shard<Id>, c: Call<Id>)
  {
    s.free == [] && !c.ev.op.Get? ==> c.minted !in s.sv.ents
  }

  /** One step of the forward simulation: every operation keeps the invariant and is a step
      of the lossy map with the same result. */
  lemma PerformInv<Id>(s: Shard<Id>, c: Call<Id>, cfg: Config)
    requires Inv(s, cfg) && Fresh(s, c)
    ensures var (r, res) := Perform(s, c, cfg);
            && Inv(r, cfg)
            && LossyMap.Step(Contents(s), c.ev, Contents(r), res)
  {
    if c.ev.op.Get? {
      GetInv(s, c.ev.op.k, c.ev.now, cfg);
    } else {
      SetInv(s, c.ev.op.k, c.ev.op.v, LossyMap.Expiry(c.ev), c.ev.now, c.minted, cfg);
    }
  }

  ghost predicate PerformsAt<Id>(states: seq<Shard<Id>>, calls: seq<Call<Id>>, results: seq<Option<Value>>, cfg: Config, i: nat)
    requires |states| == |calls| + 1 == |results| + 1 && i < |calls|
  {
    states[i].WF() && Fresh(states[i], calls[i]) && (states[i + 1], results[i]) == Perform(states[i], calls[i], cfg)
  }

  /** A run of `calls` from a fresh pool, with its states and results. */
  ghost predicate IsRun<Id>(ids: seq<Id>, states: seq<Shard<Id>>, calls: seq<Call<Id>>, results: seq<Option<Value>>, cfg: Config)
  {
    && NoDup(ids) && |ids| == cfg.maxSize
    && |states| == |calls| + 1 == |results| + 1
    && states[0] == Initial(ids)
    && (forall i :: 0 <= i < |states| ==> states[i].WF())
    && (forall i {:trigger PerformsAt(states, calls, results, cfg, i)} :: 0 <= i < |calls| ==>
          PerformsAt(states, calls, results, cfg, i))
  }

  lemma StepInv<Id>(ids: seq<Id>, states: seq<Shard<Id>>, calls: seq<Call<Id>>, results: seq<Option<Value>>, cfg: Config, i: nat)
    requires IsRun(ids, states, calls, results, cfg) && i < |calls| && Inv(states[i], cfg)
    ensures Inv(states[i + 1], cfg)
    ensures LossyMap.Step(Contents(states[i]), calls[i].ev, Contents(states[i + 1]), results[i])
  {
    assert PerformsAt(states, calls, results, cfg, i);
    PerformInv(states[i], calls[i], cfg);
  }

  lemma {:induction false} RunInv<Id>(ids: seq<Id>, states: seq<Shard<Id>>, calls: seq<Call<Id>>,
                                      results: seq<Option<Value>>, cfg: Config, i: nat)
    requires IsRun(ids, states, calls, results, cfg) && i < |states|
    ensures Inv(states[i], cfg)
  {
    InitialInv(ids, cfg);
    for j := 0 to i
      invariant Inv(states[j], cfg)
    {
      StepInv(ids, states, calls, results, cfg, j);
    }
  }

  ghost function Models<Id>(states: seq<Shard<Id>>): (ms: seq<LossyMap.Model>)
    requires forall i :: 0 <= i < |states| ==> states[i].WF()
    ensures |ms| == |states| && forall i :: 0 <= i < |states| ==> ms[i] == Contents(states[i])
  {
    seq(|states|, i requires 0 <= i < |states| => Contents(states[i]))
  }

  function Events<Id>(calls: seq<Call<Id>>): (evs: seq<LossyMap.Event>)
    ensures |evs| == |calls| && forall i :: 0 <= i < |calls| ==> evs[i] == calls[i].ev
  {
    seq(|calls|, i requires 0 <= i < |calls| => calls[i].ev)
  }

  /** The headline: over every run the engine behaves like the lossy map, with the same
      results. */
  lemma RunSimulates<Id>(ids: seq<Id>, states: seq<Shard<Id>>, calls: seq<Call<Id>>, results: seq<Option<Value>>, cfg: Config)
    requires IsRun(ids, states, calls, results, cfg)
    ensures LossyMap.IsRun(Models(states), Events(calls), results)
  {
    InitialInv(ids, cfg);
    forall i | 0 <= i < |calls|
      ensures LossyMap.Step(Contents(states[i]), calls[i].ev, Contents(states[i + 1]), results[i])
    {
      RunInv(ids, states, calls, results, cfg, i);
      StepInv(ids, states, calls, results, cfg, i);
    }
  }

  /** So a hit returns the value of the last set of its key; the item hit has no expiry, or
      that of the last TTL set `t` of its key, with the key there ever since, and it has not
      passed. */
  lemma RunHits<Id>(ids: seq<Id>, states: seq<Shard<Id>>, calls: seq<Call<Id>>, results: seq<Option<Value>>, cfg: Config, i: nat)
    returns (j: nat, t: nat)
    requires IsRun(ids, states, calls, results, cfg) && i < |calls| && calls[i].ev.op.Get? && results[i].Some?
    ensures LossyMap.LastSet(Events(calls), calls[i].ev.op.k, j, i)
    ensures results[i] == Some(calls[j].ev.op.v)
    ensures calls[j].ev.op.SetTtl? ==>
              !IsExpired(calls[i].ev.now, LossyMap.Deadline(calls[j].ev.now, calls[j].ev.op.ttl))
    ensures var k := calls[i].ev.op.k;
            && k in Contents(states[i])
            && (Contents(states[i])[k].expiresAt == 0
                || LossyMap.Unexpired(Models(states), Events(calls), k, t, i, calls[i].ev.now))
  {
    RunSimulates(ids, states, calls, results, cfg);
    j, t := LossyMap.HitIsLastWrite(Models(states), Events(calls), results, i);
  }

  // ---- what the invariant says, spelled out ----

  /** The entries in the table are the disjoint union of the probation list, the SIEVE list
      and the orphans; a linked entry is found under its own key and its kind is that of its
      list; free entries are blank and in none of these. */
  lemma Partition<Id>(s: Shard<Id>, cfg: Config, e: Id)
    requires Inv(s, cfg) && e in s.sv.ents
    ensures (exists k :: k in s.table && s.table[k] == e) <==> e in s.prob || e in s.sv.list || e in s.orphans
    ensures !(e in s.prob && e in s.sv.list) && !(e in s.prob && e in s.orphans) && !(e in s.sv.list && e in s.orphans)
    ensures e in s.prob || e in s.sv.list || e in s.orphans ==>
              s.sv.ents[e].key in s.table && s.table[s.sv.ents[e].key] == e
    ensures e in s.prob || e in s.orphans ==> s.sv.ents[e].poolType == Probation
    ensures e in s.sv.list ==> s.sv.ents[e].poolType == Sanctuary
    ensures e in s.free ==> s.sv.ents[e] == BLANK && e !in s.prob && e !in s.sv.list && e !in s.orphans
  {
    Unseal(s, cfg, {}, {}, {}, 0);
    assert EntOk(s, e, {}) && LinkOk(s, e, {}, {});
    if k :| k in s.table && s.table[k] == e {
      assert KeyOk(s, k, {});
    }
  }

  /** The counters: `sancCount` is the length of the SIEVE list; `probCount` is the length of
      the probation list plus all fallback allocations ever made, so it drifts; slots are
      conserved up to fallbacks made and entries destroyed; the pool never overflows. */
  lemma Conservation<Id>(s: Shard<Id>, cfg: Config)
    requires Inv(s, cfg)
    ensures s.sancCount == |s.sv.list|
    ensures s.probCount == |s.prob| + (if cfg.probMax > 0 then s.fallbacks else 0)
    ensures |s.free| + |s.table| == cfg.maxSize + s.fallbacks - |s.dead|
    ensures |s.free| <= cfg.maxSize
    ensures s.sv.HandOk()
  {
    Unseal(s, cfg, {}, {}, {}, 0);
  }

  // ---- fallback allocations ----

  lemma EvictKeyFallbacks<Id>(s: Shard<Id>, k: Key, cfg: Config)
    requires s.WF()
    ensures EvictKey(s, k, cfg).fallbacks == s.fallbacks
  {
  }

  lemma {:induction false} EvictKeysFallbacks<Id>(s: Shard<Id>, keys: seq<Key>, cfg: Config)
    requires s.WF()
    ensures EvictKeys(s, keys, cfg).fallbacks == s.fallbacks
    decreases |keys|
  {
    if keys == [] {
    } else {
      EvictKeyFallbacks(s, keys[0], cfg);
      EvictKeysFallbacks(EvictKey(s, keys[0], cfg), keys[1..], cfg);
    }
  }

  lemma ReapFallbacks<Id>(s: Shard<Id>, cfg: Config)
    requires s.WF()
    ensures Reap(s, cfg).fallbacks == s.fallbacks
  {
    if s.prob != [] {
      EvictKeysFallbacks(Reaped(s, cfg), KeysOf(s.sv.ents, s.prob[..ReapCount(s, cfg)]), cfg);
    }
  }

  lemma AcquireFallbacks<Id>(s: Shard<Id>, minted: Id, cfg: Config)
    requires s.WF()
    ensures Acquire(s, minted, cfg).0.fallbacks == s.fallbacks
  {
    ReapFallbacks(s, cfg);
    var s1 := Put(s, minted, BLANK.(inUse := true, poolType := Probation));
    ReapFallbacks(s1.(probCount := s.probCount + 1, orphans := s.orphans + {minted}), cfg);
  }

  lemma SetFallbacks<Id>(s: Shard<Id>, k: Key, v: Value, expiry: Option<nat>, now: nat, minted: Id, cfg: Config)
    requires s.WF()
    ensures Set(s, k, v, expiry, now, minted, cfg).fallbacks == Recorded(s).fallbacks
  {
    AcquireFallbacks(Recorded(s), minted, cfg);
    var (s1, e) := Acquire(Recorded(s), minted, cfg);
    WrittenFallbacks(s1, e, k, v, expiry, cfg);
    var r := Written(s1, e, k, v, expiry, cfg);
    EvictKeysFallbacks(r.(sv := Evict(r.sv, now, cfg.sieveBudget)),
                       KeysOf(r.sv.ents, PassFrom(r.sv, now, cfg.sieveBudget).victims), cfg);
  }

  lemma WrittenFallbacks<Id>(s: Shard<Id>, e: Id, k: Key, v: Value, expiry: Option<nat>, cfg: Config)
    requires s.WF() && e in s.sv.ents
    ensures Written(s, e, k, v, expiry, cfg).fallbacks == s.fallbacks
  {
    var s1 := Filled(s, e, k, v, expiry);
    if k in s1.table {
      var o := s1.table[k];
      var s2 := Put(s1, o, UpdateFrom(s1.sv.ents[o], s1.sv.ents[e], expiry.Some?));
      PromoteFallbacks(s2, o);
      ReleaseFallbacks(Promote(s2, o), e, cfg);
    }
  }

  lemma PromoteFallbacks<Id>(s: Shard<Id>, e: Id)
    requires s.WF() && e in s.sv.ents
    ensures Promote(s, e).fallbacks == s.fallbacks
  {
  }

  lemma ReleaseFallbacks<Id>(s: Shard<Id>, e: Id, cfg: Config)
    requires s.WF() && e in s.sv.ents
    ensures Release(s, e, cfg).fallbacks == s.fallbacks
  {
  }

  /** How many of the first `i` calls were sets that found the pool empty. */
  function EmptyPoolSets<Id>(states: seq<Shard<Id>>, calls: seq<Call<Id>>, i: nat): (n: nat)
    requires i <= |calls| < |states|
  {
    if i == 0 then 0
    else EmptyPoolSets(states, calls, i - 1) + (if !calls[i - 1].ev.op.Get? && states[i - 1].free == [] then 1 else 0)
  }

  lemma PerformFallbacks<Id>(s: Shard<Id>, c: Call<Id>, cfg: Config)
    requires s.WF()
    ensures Perform(s, c, cfg).0.fallbacks == s.fallbacks + (if !c.ev.op.Get? && s.free == [] then 1 else 0)
  {
    if c.ev.op.Get? {
      GetFallbacks(s, c.ev.op.k, c.ev.now, cfg);
    } else {
      SetFallbacks(s, c.ev.op.k, c.ev.op.v, LossyMap.Expiry(c.ev), c.ev.now, c.minted, cfg);
    }
  }

  lemma StepFallbacks<Id>(ids: seq<Id>, states: seq<Shard<Id>>, calls: seq<Call<Id>>, results: seq<Option<Value>>, cfg: Config, i: nat)
    requires IsRun(ids, states, calls, results, cfg) && i < |calls|
    ensures states[i + 1].fallbacks == states[i].fallbacks + (if !calls[i].ev.op.Get? && states[i].free == [] then 1 else 0)
  {
    PerformFallbacks(states[i], calls[i], cfg);
    assert PerformsAt(states, calls, results, cfg, i);
  }

  lemma {:induction false} FallbacksCounted<Id>(ids: seq<Id>, states: seq<Shard<Id>>, calls: seq<Call<Id>>,
                                                results: seq<Option<Value>>, cfg: Config, i: nat)
    requires IsRun(ids, states, calls, results, cfg) && i < |states|
    ensures states[i].fallbacks == EmptyPoolSets(states, calls, i)
  {
    if i == 0 {
    } else {
      FallbacksCounted(ids, states, calls, results, cfg, i - 1);
      StepFallbacks(ids, states, calls, results, cfg, i - 1);
    }
  }

  /** The fallback statistic counts exactly the sets that found the pool empty; with a
      probation pool, so does the drift of `probCount`. */
  lemma RunFallbacks<Id>(ids: seq<Id>, states: seq<Shard<Id>>, calls: seq<Call<Id>>, results: seq<Option<Value>>, cfg: Config, i: nat)
    requires IsRun(ids, states, calls, results, cfg) && i < |states|
    ensures states[i].fallbacks == EmptyPoolSets(states, calls, i)
    ensures cfg.probMax > 0 ==> states[i].probCount == |states[i].prob| + EmptyPoolSets(states, calls, i)
  {
    FallbacksCounted(ids, states, calls, results, cfg, i);
    RunInv(ids, states, calls, results, cfg, i);
    Conservation(states[i], cfg);
  }

  lemma GetFallbacks<Id>(s: Shard<Id>, k: Key, now: nat, cfg: Config)
    requires s.WF()
    ensures Get(s, k, now, cfg).0.fallbacks == s.fallbacks
  {
  }

  // ---- the probation list stays bounded ----

  function ProbCap(cfg: Config): nat { if cfg.threshold > 1 then cfg.threshold else 1 }

  lemma AcquireProbSize<Id>(s: Shard<Id>, minted: Id, cfg: Config)
    requires Inv(s, cfg) && (s.free == [] ==> minted !in s.sv.ents)
    requires cfg.reaperBudget >= 1 && |s.prob| <= ProbCap(cfg)
    ensures |Acquire(Recorded(s), minted, cfg).0.prob| <= ProbCap(cfg)
  {
    RecordedInv(s, cfg);
    Conservation(s, cfg);
    if cfg.probMax > 0 {
      if s.free == [] {
        AcquireProbOrphan(Recorded(s), minted, cfg);
      } else {
        AcquireProbLinked(s, minted, cfg);
      }
    }
  }

  lemma SetProbSize<Id>(s: Shard<Id>, k: Key, v: Value, expiry: Option<nat>, now: nat, minted: Id, cfg: Config)
    requires Inv(s, cfg) && (s.free == [] ==> minted !in s.sv.ents)
    requires cfg.reaperBudget >= 1 && |s.prob| <= ProbCap(cfg)
    ensures |Set(s, k, v, expiry, now, minted, cfg).prob| <= ProbCap(cfg)
  {
    AcquireProbSize(s, minted, cfg);
    AcquireStep(s, minted, cfg);
    var (s1, e) := Acquire(Recorded(s), minted, cfg);
    WrittenInv(s1, e, k, v, expiry, cfg);
    CheckMemoryInv(Written(s1, e, k, v, expiry, cfg), now, cfg);
  }

  lemma PerformProbSize<Id>(s: Shard<Id>, c: Call<Id>, cfg: Config)
    requires Inv(s, cfg) && Fresh(s, c) && cfg.reaperBudget >= 1 && |s.prob| <= ProbCap(cfg)
    ensures |Perform(s, c, cfg).0.prob| <= ProbCap(cfg)
  {
    if c.ev.op.Get? {
      GetInv(s, c.ev.op.k, c.ev.now, cfg);
    } else {
      SetProbSize(s, c.ev.op.k, c.ev.op.v, LossyMap.Expiry(c.ev), c.ev.now, c.minted, cfg);
    }
  }

  /** With a reaper budget of at least one, the probation list never grows beyond the
      threshold (or one entry), however far its counter has drifted. */
  lemma {:induction false} RunProbSize<Id>(ids: seq<Id>, states: seq<Shard<Id>>, calls: seq<Call<Id>>,
                                           results: seq<Option<Value>>, cfg: Config, i: nat)
    requires IsRun(ids, states, calls, results, cfg) && i < |states| && cfg.reaperBudget >= 1
    ensures |states[i].prob| <= ProbCap(cfg)
  {
    if i == 0 {
    } else {
      RunProbSize(ids, states, calls, results, cfg, i - 1);
      RunInv(ids, states, calls, results, cfg, i - 1);
      StepProbSize(ids, states, calls, results, cfg, i - 1);
    }
  }

  lemma StepProbSize<Id>(ids: seq<Id>, states: seq<Shard<Id>>, calls: seq<Call<Id>>, results: seq<Option<Value>>, cfg: Config, i: nat)
    requires IsRun(ids, states, calls, results, cfg) && i < |calls| && cfg.reaperBudget >= 1
    requires Inv(states[i], cfg) && |states[i].prob| <= ProbCap(cfg)
    ensures |states[i + 1].prob| <= ProbCap(cfg)
  {
    assert PerformsAt(states, calls, results, cfg, i);
    PerformProbSize(states[i], calls[i], cfg);
  }
}
