/** Second chance over whole runs of a shard: the engine never takes the visited bit of a listed
    entry other than by an eviction pass that goes over it. */
module SecondChance {
  import opened Wrappers
  import opened SieveSpec
  import SieveTheory
  import opened ShardSpec
  import opened ShardInvariant
  import opened ShardTheory
  import ReadYourWrite
  import opened ShardRuns
  import opened Seals
  import LossyMap

  /** `e` is on the SIEVE list without its visited bit. */
  ghost predicate Bare<Id>(s: Shard<Id>, e: Id)
    requires s.WF()
  {
    e in s.sv.list && e in s.sv.ents && !s.sv.ents[e].visited
  }

  /** An entry bare in `r` was bare in `s`, under the same key. */
  ghost predicate BareBefore<Id>(s: Shard<Id>, r: Shard<Id>, e: Id)
    requires s.WF() && r.WF()
  {
    Bare(r, e) ==> Bare(s, e) && s.sv.ents[e].key == r.sv.ents[e].key
  }

  // ---- one operation ----

  /** Listed entries are of the sanctuary. */
  lemma ListedKind<Id>(s: Shard<Id>, cfg: Config, held: set<Id>, e: Id)
    requires During(s, cfg, held, {}, {}, 0) && e in s.sv.list
    ensures e in s.sv.ents && s.sv.ents[e].poolType == Sanctuary
  {
    Unseal(s, cfg, held, {}, {}, 0);
    assert LinkOk(s, e, {}, {});
  }

  lemma AcquireBare<Id>(s: Shard<Id>, cfg: Config, s1: Shard<Id>, e0: Id, e: Id)
    requires Inv(s, cfg) && AcquireDoes(Recorded(s), cfg, s1, e0) && During(s1, cfg, {e0}, {}, {}, 0)
    ensures BareBefore(s, s1, e) && (Bare(s1, e) ==> e != e0)
  {
    if Bare(s1, e) {
      ReadYourWrite.ListKept(s, cfg, s1, e0);
      ListedKind(s1, cfg, {e0}, e);
    }
  }

  lemma PromoteBare<Id>(s: Shard<Id>, o: Id, e: Id)
    requires s.WF() && o in s.sv.ents
    ensures BareBefore(s, Promote(s, o), e)
  {
  }

  lemma ReleaseBare<Id>(s: Shard<Id>, o: Id, cfg: Config, r: Shard<Id>, e: Id)
    requires s.WF() && o in s.sv.ents && r.WF() && Released(s, o, cfg, r) && e != o
    ensures BareBefore(s, r, e)
  {
  }

  lemma OverwriteBare<Id>(s: Shard<Id>, k: Key, e0: Id, withTtl: bool, cfg: Config, e: Id)
    requires During(s, cfg, {e0}, {}, {}, 0) && e0 in s.sv.ents && k in s.table && e != e0
    ensures BareBefore(s, Overwrite(s, k, e0, withTtl, cfg), e)
  {
    var o := s.table[k];
    InTable(s, k, cfg, {e0});
    var rec := UpdateFrom(s.sv.ents[o], s.sv.ents[e0], withTtl);
    var s1 := Put(s, o, rec);
    WriteInv(s, o, rec, cfg, {e0});
    InTable(s1, k, cfg, {e0});
    PromoteInv(s1, o, cfg, {e0});
    PromoteBare(s1, o, e);
    ReleaseInv(Promote(s1, o), e0, cfg, {e0}, {}, {}, 0);
    ReleaseBare(Promote(s1, o), e0, cfg, Release(Promote(s1, o), e0, cfg), e);
  }

  /** The acquired entry is not bare after the write: it is free again, on probation or visited. */
  lemma AcquiredNotBare<Id>(s: Shard<Id>, e0: Id, k: Key, v: Value, expiry: Option<nat>, cfg: Config)
    requires During(s, cfg, {e0}, {}, {}, 0) && e0 in s.sv.ents
    requires e0 in s.sv.list ==> s.sv.ents[e0].visited
    requires Inv(Written(s, e0, k, v, expiry, cfg), cfg)
    ensures !Bare(Written(s, e0, k, v, expiry, cfg), e0)
  {
    var r, f := Written(s, e0, k, v, expiry, cfg), Filled(s, e0, k, v, expiry);
    FilledInv(s, e0, k, v, expiry, cfg);
    if k in f.table && e0 in r.sv.list {
      OverwriteReleases(f, k, e0, expiry.Some?, cfg);
      ListedKind(r, cfg, {}, e0);
    }
  }

  lemma OverwriteReleases<Id>(s: Shard<Id>, k: Key, e0: Id, withTtl: bool, cfg: Config)
    requires During(s, cfg, {e0}, {}, {}, 0) && e0 in s.sv.ents && k in s.table
    ensures e0 in Overwrite(s, k, e0, withTtl, cfg).sv.ents && Overwrite(s, k, e0, withTtl, cfg).sv.ents[e0] == BLANK
  {
    var o := s.table[k];
    InTable(s, k, cfg, {e0});
    var rec := UpdateFrom(s.sv.ents[o], s.sv.ents[e0], withTtl);
    var s1 := Put(s, o, rec);
    WriteInv(s, o, rec, cfg, {e0});
    InTable(s1, k, cfg, {e0});
    PromoteInv(s1, o, cfg, {e0});
    ReleaseInv(Promote(s1, o), e0, cfg, {e0}, {}, {}, 0);
  }

  lemma WrittenBare<Id>(s: Shard<Id>, e0: Id, k: Key, v: Value, expiry: Option<nat>, cfg: Config, e: Id)
    requires During(s, cfg, {e0}, {}, {}, 0) && e0 in s.sv.ents && e != e0
    ensures BareBefore(s, Written(s, e0, k, v, expiry, cfg), e)
  {
    FilledInv(s, e0, k, v, expiry, cfg);
    var f := Filled(s, e0, k, v, expiry);
    if k in f.table {
      OverwriteBare(f, k, e0, expiry.Some?, cfg, e);
    }
  }

  /** Up to its check, a set takes no bit: neither acquisition nor overwriting does. */
  lemma InsertionBare<Id>(s: Shard<Id>, k: Key, v: Value, expiry: Option<nat>, minted: Id, cfg: Config, e: Id)
    requires Inv(s, cfg) && (s.free == [] ==> minted !in s.sv.ents)
    ensures BareBefore(s, Insertion(s, k, v, expiry, minted, cfg), e)
  {
    RecordedInv(s, cfg);
    AcquireInv(Recorded(s), minted, cfg);
    var (s1, e0) := Acquire(Recorded(s), minted, cfg);
    InsertionInv(s, k, v, expiry, minted, cfg);
    if e == e0 {
      AcquiredVisited(s, cfg, s1, e0);
      AcquiredNotBare(s1, e0, k, v, expiry, cfg);
    } else {
      WrittenBare(s1, e0, k, v, expiry, cfg, e);
      AcquireBare(s, cfg, s1, e0, e);
    }
  }

  lemma AcquiredVisited<Id>(s: Shard<Id>, cfg: Config, s1: Shard<Id>, e0: Id)
    requires Inv(s, cfg) && AcquireDoes(Recorded(s), cfg, s1, e0) && During(s1, cfg, {e0}, {}, {}, 0)
    ensures e0 in s1.sv.list ==> s1.sv.ents[e0].visited
  {
    if e0 in s1.sv.list {
      ListedKind(s1, cfg, {e0}, e0);
    }
  }

  /** The pass of a check that is due on `s` goes over `e` and keeps it. */
  ghost predicate Passes<Id>(s: Shard<Id>, now: nat, cfg: Config, e: Id)
    requires s.WF()
  {
    Triggered(s, cfg) && e in PassFrom(s.sv, now, cfg.sieveBudget).kept
  }

  /** The check takes a bit only by going over the entry. */
  lemma CheckBare<Id>(s: Shard<Id>, now: nat, cfg: Config, e: Id)
    requires Inv(s, cfg)
    ensures var r := CheckMemory(s, now, cfg);
            Bare(r, e) ==>
              e in s.sv.list && s.sv.ents[e].key == r.sv.ents[e].key && (Bare(s, e) || Passes(s, now, cfg, e))
  {
    var r := CheckMemory(s, now, cfg);
    if Triggered(s, cfg) && Bare(r, e) {
      CheckKeeps(s, now, cfg, r, e);
      SieveTheory.EvictFrame(s.sv, now, cfg.sieveBudget, e);
    }
  }

  /** An entry listed after the check is as the pass left it. */
  lemma CheckKeeps<Id>(s: Shard<Id>, now: nat, cfg: Config, r: Shard<Id>, e: Id)
    requires Inv(s, cfg) && Triggered(s, cfg) && r == CheckMemory(s, now, cfg) && e in r.sv.list
    ensures NoDup(s.sv.list) && e in s.sv.list && e in s.sv.ents
    ensures e in Evict(s.sv, now, cfg.sieveBudget).ents && r.sv.ents[e] == Evict(s.sv, now, cfg.sieveBudget).ents[e]
  {
    EvictInv(s, now, cfg);
    VictimsGone(s.(sv := Evict(s.sv, now, cfg.sieveBudget)), Victims(s, now, cfg), s.sv.ents, cfg, r);
    PassKeeps(s, now, cfg, e);
  }

  lemma VictimsGone<Id>(s: Shard<Id>, vs: seq<Id>, ents: map<Id, Rec>, cfg: Config, r: Shard<Id>)
    requires During(s, cfg, {}, {}, (set e | e in vs), 0) && NoDup(vs)
    requires forall e :: e in vs ==> e in ents && e in s.sv.ents && ents[e].key == s.sv.ents[e].key
    requires r == EvictKeys(s, KeysOf(ents, vs), cfg)
    ensures r.sv.list == s.sv.list && r.sv.ents.Keys == s.sv.ents.Keys
    ensures forall e :: e in s.sv.ents && e !in vs ==> r.sv.ents[e] == s.sv.ents[e]
  {
    var ls := set e | e in vs;
    VictimKeys(s, vs, ents, cfg, {}, {}, ls, 0);
    EvictKeysInv(s, KeysOf(ents, vs), cfg, {}, {}, ls, 0);
  }

  lemma PassKeeps<Id>(s: Shard<Id>, now: nat, cfg: Config, e: Id)
    requires Inv(s, cfg) && e in Evict(s.sv, now, cfg.sieveBudget).list
    ensures NoDup(s.sv.list) && e in s.sv.list && e in s.sv.ents && e !in Victims(s, now, cfg)
  {
    Unseal(s, cfg, {}, {}, {}, 0);
    SieveTheory.EvictList(s.sv, now, cfg.sieveBudget);
  }

  lemma GetBare<Id>(s: Shard<Id>, k: Key, now: nat, cfg: Config, e: Id)
    requires Inv(s, cfg)
    ensures BareBefore(s, Get(s, k, now, cfg).0, e)
    ensures Bare(Get(s, k, now, cfg).0, e) ==> s.sv.ents[e].key != k
  {
    if k in s.table {
      var o := s.table[k];
      InTable(s, k, cfg, {});
      if IsExpired(now, s.sv.ents[o].expiresAt) {
        ExpiredBare(s, k, cfg, e);
      } else {
        PromoteBare(s, o, e);
      }
    }
    if Bare(s, e) {
      ReadYourWrite.ListInTable(s, cfg, e);
    }
  }

  lemma ExpiredBare<Id>(s: Shard<Id>, k: Key, cfg: Config, e: Id)
    requires Inv(s, cfg) && k in s.table
    ensures var s1 := s.(sv := Erase(s.sv, s.table[k]), table := s.table - {k});
            var r := Release(s1, s.table[k], cfg);
            BareBefore(s, r, e) && (Bare(r, e) ==> e != s.table[k])
  {
    var o := s.table[k];
    ExpiredInv(s, k, cfg);
    var s1 := s.(sv := Erase(s.sv, o), table := s.table - {k});
    var r := Release(s1, o, cfg);
    if Bare(r, e) {
      ListedKind(r, cfg, {}, e);
      ReleaseKeepsOthers(s1, o, cfg, e);
      ErasedFrom(s.sv, o, e);
    }
  }

  /** Releasing one entry blanks it and touches no other. */
  lemma ReleaseKeepsOthers<Id>(s: Shard<Id>, o: Id, cfg: Config, e: Id)
    requires s.WF() && o in s.sv.ents
    ensures Release(s, o, cfg).sv.ents == s.sv.ents[o := BLANK]
    ensures e in Release(s, o, cfg).sv.list ==> e in s.sv.list
  {
    ErasedFrom(s.sv, o, e);
  }

  lemma ErasedFrom<Id>(s: Sieve<Id>, o: Id, e: Id)
    requires s.WF()
    ensures e in Erase(s, o).list ==> e in s.list
  {
  }

  // ---- whole runs ----

  /** The state on which the check of a set is made. */
  ghost function Inserted<Id>(s: Shard<Id>, c: Call<Id>, cfg: Config): (r: Shard<Id>)
    requires s.WF() && !c.ev.op.Get?
    ensures r.WF()
  {
    Insertion(s, c.ev.op.k, c.ev.op.v, LossyMap.Expiry(c.ev), c.minted, cfg)
  }

  /** Call `c` on `s` is a set whose check is due and goes over `e`. Sealed. */
  ghost predicate GoesOver<Id>(s: Shard<Id>, c: Call<Id>, cfg: Config, e: Id)
    requires s.WF()
  {
    !c.ev.op.Get? && forall t {:trigger Open(PassSeal, t)} :: Open(PassSeal, t) ==> Passes(Inserted(s, c, cfg), c.ev.now, cfg, e)
  }

  predicate Gets<Id>(c: Call<Id>, k: Key) { c.ev.op.Get? && c.ev.op.k == k }

  /** How an entry can come out of one call without its bit. */
  lemma CallBare<Id>(s: Shard<Id>, c: Call<Id>, cfg: Config, e: Id)
    requires Inv(s, cfg) && Fresh(s, c) && Bare(Perform(s, c, cfg).0, e)
    ensures GoesOver(s, c, cfg, e) ||
            (BareBefore(s, Perform(s, c, cfg).0, e) && !Gets(c, s.sv.ents[e].key))
  {
    if c.ev.op.Get? {
      GetBare(s, c.ev.op.k, c.ev.now, cfg, e);
    } else {
      SetBare(s, c.ev.op.k, c.ev.op.v, LossyMap.Expiry(c.ev), c.ev.now, c.minted, cfg, e);
    }
  }

  lemma SetBare<Id>(s: Shard<Id>, k: Key, v: Value, expiry: Option<nat>, now: nat, minted: Id, cfg: Config, e: Id)
    requires Inv(s, cfg) && (s.free == [] ==> minted !in s.sv.ents)
    ensures Passes(Insertion(s, k, v, expiry, minted, cfg), now, cfg, e) ||
            BareBefore(s, Set(s, k, v, expiry, now, minted, cfg), e)
  {
    InsertionInv(s, k, v, expiry, minted, cfg);
    InsertionBare(s, k, v, expiry, minted, cfg, e);
    CheckBare(Insertion(s, k, v, expiry, minted, cfg), now, cfg, e);
  }

  /** Before call `i`, `e` is listed without its bit under the key `k`. */
  ghost predicate BareAs<Id>(states: seq<Shard<Id>>, i: nat, e: Id, k: Key)
    requires i < |states|
  {
    states[i].WF() && Bare(states[i], e) && states[i].sv.ents[e].key == k
  }

  /** After call `t` and up to call `i`, `e` has been on the list under its key `k` without its
      bit, and no get asked for that key. */
  ghost predicate BareSince<Id>(states: seq<Shard<Id>>, calls: seq<Call<Id>>, e: Id, k: Key, t: nat, i: nat)
    requires i < |states| == |calls| + 1
  {
    && (forall u {:trigger BareAs(states, u, e, k)} :: t < u <= i ==> BareAs(states, u, e, k))
    && (forall u :: t < u < i ==> !Gets(calls[u], k))
  }

  /** Set `t` was due for eviction and its pass went over `e`, which it kept; ever since, up to
      call `i`, `e` has been on the list under its key `k`, and no get asked for that key. */
  ghost predicate PassedAt<Id>(states: seq<Shard<Id>>, calls: seq<Call<Id>>, cfg: Config, e: Id, k: Key, t: nat, i: nat)
    requires i < |states| == |calls| + 1
  {
    && t < i && states[t].WF() && GoesOver(states[t], calls[t], cfg, e)
    && BareSince(states, calls, e, k, t, i)
  }

  lemma StepBare<Id>(ids: seq<Id>, states: seq<Shard<Id>>, calls: seq<Call<Id>>, results: seq<Option<Value>>, cfg: Config,
                     i: nat, e: Id, k: Key)
    requires IsRun(ids, states, calls, results, cfg) && i < |calls| && BareAs(states, i + 1, e, k)
    ensures states[i].WF()
    ensures GoesOver(states[i], calls[i], cfg, e) || (BareAs(states, i, e, k) && !Gets(calls[i], k))
  {
    RunInv(ids, states, calls, results, cfg, i);
    assert PerformsAt(states, calls, results, cfg, i);
    CallBare(states[i], calls[i], cfg, e);
  }

  /** A listed entry without its bit has been passed over, and not asked for since. */
  lemma {:induction false} BareWasPassed<Id>(ids: seq<Id>, states: seq<Shard<Id>>, calls: seq<Call<Id>>,
                                             results: seq<Option<Value>>, cfg: Config, i: nat, e: Id, k: Key)
    returns (t: nat)
    requires IsRun(ids, states, calls, results, cfg) && i < |states| && BareAs(states, i, e, k)
    ensures PassedAt(states, calls, cfg, e, k, t, i)
  {
    if i == 0 {
      NothingListed(ids, states, calls, results, cfg);
    } else {
      StepBare(ids, states, calls, results, cfg, i - 1, e, k);
      t := i - 1;
      if !GoesOver(states[i - 1], calls[i - 1], cfg, e) {
        t := BareWasPassed(ids, states, calls, results, cfg, i - 1, e, k);
        SinceOn(states, calls, e, k, t, i);
      }
    }
  }

  lemma NothingListed<Id>(ids: seq<Id>, states: seq<Shard<Id>>, calls: seq<Call<Id>>, results: seq<Option<Value>>, cfg: Config)
    requires IsRun(ids, states, calls, results, cfg)
    ensures states[0].sv.list == []
  {
  }

  lemma SinceOn<Id>(states: seq<Shard<Id>>, calls: seq<Call<Id>>, e: Id, k: Key, t: nat, i: nat)
    requires 0 < i < |states| == |calls| + 1 && BareSince(states, calls, e, k, t, i - 1)
    requires BareAs(states, i, e, k) && !Gets(calls[i - 1], k)
    ensures BareSince(states, calls, e, k, t, i)
  {
    forall u | t < u <= i ensures BareAs(states, u, e, k) {
      assert u == i || BareAs(states, u, e, k);
    }
  }

  /** A victim that has not expired is bare. */
  lemma VictimBare<Id>(s: Shard<Id>, now: nat, cfg: Config, e: Id)
    requires Inv(s, cfg) && e in Victims(s, now, cfg)
    ensures e in s.sv.ents && (IsExpired(now, s.sv.ents[e].expiresAt) || Bare(s, e))
  {
    Unseal(s, cfg, {}, {}, {}, 0);
    SieveTheory.NoDupParts(s.sv.list, Start(s.sv));
    SieveTheory.PassMembers(s.sv.ents, s.sv.list[Start(s.sv)..], now, cfg.sieveBudget, e);
  }

  /** Second chance, over every run of the engine: when the check of set `i` takes an entry that
      has not expired, an earlier set `t` was due for eviction and its pass went over that entry
      and took its bit; the entry has been listed under the same key ever since, and no get has
      asked for the key. */
  lemma EvictedWasPassed<Id>(ids: seq<Id>, states: seq<Shard<Id>>, calls: seq<Call<Id>>,
                             results: seq<Option<Value>>, cfg: Config, i: nat, e: Id)
    returns (t: nat)
    requires IsRun(ids, states, calls, results, cfg) && i < |calls| && !calls[i].ev.op.Get?
    requires e in Victims(Inserted(states[i], calls[i], cfg), calls[i].ev.now, cfg)
    requires e in Inserted(states[i], calls[i], cfg).sv.ents
    requires !IsExpired(calls[i].ev.now, Inserted(states[i], calls[i], cfg).sv.ents[e].expiresAt)
    ensures PassedAt(states, calls, cfg, e, Inserted(states[i], calls[i], cfg).sv.ents[e].key, t, i)
  {
    var s, c := states[i], calls[i];
    RunInv(ids, states, calls, results, cfg, i);
    assert PerformsAt(states, calls, results, cfg, i);
    InsertedBare(s, c, cfg, e);
    t := BareWasPassed(ids, states, calls, results, cfg, i, e, Inserted(s, c, cfg).sv.ents[e].key);
  }

  lemma InsertedBare<Id>(s: Shard<Id>, c: Call<Id>, cfg: Config, e: Id)
    requires Inv(s, cfg) && Fresh(s, c) && !c.ev.op.Get?
    requires e in Victims(Inserted(s, c, cfg), c.ev.now, cfg)
    ensures e in Inserted(s, c, cfg).sv.ents
    ensures !IsExpired(c.ev.now, Inserted(s, c, cfg).sv.ents[e].expiresAt) ==>
              Bare(s, e) && s.sv.ents[e].key == Inserted(s, c, cfg).sv.ents[e].key
  {
    var k, v, d := c.ev.op.k, c.ev.op.v, LossyMap.Expiry(c.ev);
    InsertionInv(s, k, v, d, c.minted, cfg);
    VictimBare(Insertion(s, k, v, d, c.minted, cfg), c.ev.now, cfg, e);
    InsertionBare(s, k, v, d, c.minted, cfg, e);
  }
}
