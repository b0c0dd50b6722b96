/** What every shard operation keeps: where entries are, how they are linked, and what the
    counters say about it. */
module ShardInvariant {
  import opened Wrappers
  import opened SieveSpec
  import opened SieveTheory
  import opened ShardSpec
  import opened Seals

  /** The three lists hold each entry at most once, and both hands are valid. */
  ghost predicate Lists<Id>(s: Shard<Id>)
  {
    && s.WF() && s.sv.HandOk()
    && NoDup(s.sv.list) && NoDup(s.prob) && NoDup(s.free)
    && (s.probHand.Some? ==> s.probHand.value in s.prob)
  }

  /** The entry of a key is that key's entry, and neither free nor held nor destroyed. */
  ghost predicate KeyOk<Id>(s: Shard<Id>, k: Key, held: set<Id>)
    requires s.WF() && k in s.table
  {
    var e := s.table[k];
    s.sv.ents[e].key == k && e !in s.free && e !in held && e !in s.dead
  }

  /** An entry is in exactly one place: in the free queue and blank, in the hands of the
      running operation, destroyed, or in the table under its own key. */
  ghost predicate EntOk<Id>(s: Shard<Id>, e: Id, held: set<Id>)
    requires e in s.sv.ents
  {
    && (e in s.free ==> s.sv.ents[e] == BLANK && e !in held && e !in s.dead)
    && (e in held ==> e !in s.dead)
    && (e in s.free || e in held || e in s.dead ||
        (s.sv.ents[e].key in s.table && s.table[s.sv.ents[e].key] == e))
  }

  ghost predicate Places<Id>(s: Shard<Id>, held: set<Id>)
    requires s.WF()
  {
    && held <= s.sv.ents.Keys && s.dead <= s.sv.ents.Keys
    && (forall k {:trigger KeyOk(s, k, held)} :: k in s.table ==> KeyOk(s, k, held))
    && (forall e {:trigger EntOk(s, e, held)} :: e in s.sv.ents ==> EntOk(s, e, held))
  }

  /** How one entry is linked. In use, a sanctuary entry is on the SIEVE list and a probation
      entry is on the probation list or an orphan; `lp` and `ls` are the probation and
      sanctuary entries that the running operation has unlinked already. */
  ghost predicate LinkOk<Id>(s: Shard<Id>, e: Id, lp: set<Id>, ls: set<Id>)
    requires e in s.sv.ents
  {
    if e in s.free || e in s.dead then
      e !in s.sv.list && e !in s.prob && e !in s.orphans && e !in lp && e !in ls
    else if s.sv.ents[e].poolType == Sanctuary then
      (e in s.sv.list <==> e !in ls) && e !in s.prob && e !in s.orphans && e !in lp
    else
      && e !in s.sv.list && e !in ls
      && (e in s.prob || e in s.orphans || e in lp)
      && !(e in s.prob && e in s.orphans) && !(e in s.prob && e in lp) && !(e in s.orphans && e in lp)
  }

  ghost predicate Linked<Id>(s: Shard<Id>, lp: set<Id>, ls: set<Id>)
  {
    && s.orphans <= s.sv.ents.Keys && lp <= s.sv.ents.Keys && ls <= s.sv.ents.Keys
    && forall e {:trigger LinkOk(s, e, lp, ls)} :: e in s.sv.ents ==> LinkOk(s, e, lp, ls)
  }

  /** What the counters count. `owed` is 1 while a fallback entry has been recorded but not
      made yet. */
  ghost predicate Counters<Id>(s: Shard<Id>, cfg: Config, held: set<Id>, ls: set<Id>, owed: nat)
  {
    && |s.free| <= cfg.maxSize && owed <= s.fallbacks
    && s.sancCount == |s.sv.list| + |ls|
    && (if cfg.probMax == 0 then s.prob == [] && s.probCount == 0 && s.orphans == {}
        else s.probCount + owed == |s.prob| + s.fallbacks)
    && |s.free| + |s.table| + |held| + |s.dead| + owed == cfg.maxSize + s.fallbacks
  }

  /** The invariant inside an operation, in full. */
  ghost predicate Parts<Id>(s: Shard<Id>, cfg: Config, held: set<Id>, lp: set<Id>, ls: set<Id>, owed: nat)
  {
    && Lists(s)
    && Places(s, held)
    && Linked(s, lp, ls)
    && Counters(s, cfg, held, ls, owed)
    && (cfg.probMax == 0 ==> lp == {})
  }

  /** The same behind a quantifier, so that proofs see its parts only after `Unseal`. */
  ghost predicate During<Id>(s: Shard<Id>, cfg: Config, held: set<Id>, lp: set<Id>, ls: set<Id>, owed: nat)
  {
    && s.WF()
    && forall t {:trigger Open(InvariantSeal, t)} :: Open(InvariantSeal, t) ==> Parts(s, cfg, held, lp, ls, owed)
  }

  lemma Unseal<Id>(s: Shard<Id>, cfg: Config, held: set<Id>, lp: set<Id>, ls: set<Id>, owed: nat)
    requires During(s, cfg, held, lp, ls, owed)
    ensures Parts(s, cfg, held, lp, ls, owed)
  {
    assert Open(InvariantSeal, true);
  }

  lemma Seal<Id>(s: Shard<Id>, cfg: Config, held: set<Id>, lp: set<Id>, ls: set<Id>, owed: nat)
    requires Parts(s, cfg, held, lp, ls, owed)
    ensures During(s, cfg, held, lp, ls, owed)
  {
  }

  /** The invariant between operations. */
  ghost predicate Inv<Id>(s: Shard<Id>, cfg: Config) { During(s, cfg, {}, {}, {}, 0) }

  // ---- release ----

  function Drop<T(==)>(s: seq<T>, x: T): seq<T> { if x in s then Without(s, x) else s }

  lemma DropMembers<T>(s: seq<T>, x: T)
    requires NoDup(s)
    ensures NoDup(Drop(s, x))
    ensures forall y :: y in Drop(s, x) <==> y in s && y != x
    ensures |Drop(s, x)| == |s| - (if x in s then 1 else 0)
  {
  }

  /** What a release does to each component, whatever the path. */
  ghost predicate Released<Id>(s: Shard<Id>, e: Id, cfg: Config, r: Shard<Id>)
    requires s.WF() && e in s.sv.ents
  {
    && r.sv.ents == s.sv.ents[e := BLANK]
    && r.sv.list == Drop(s.sv.list, e)
    && r.prob == Drop(s.prob, e)
    && r.sancCount == (if s.sv.ents[e].poolType == Sanctuary then Sub1(s.sancCount) else s.sancCount)
    && r.probCount == (if e in s.prob then Sub1(s.probCount) else s.probCount)
    && r.table == s.table && r.orphans == s.orphans - {e} && r.fallbacks == s.fallbacks
    && (if |s.free| < cfg.maxSize then r.free == s.free + [e] && r.dead == s.dead
        else r.free == s.free && r.dead == s.dead + {e})
  }

  function Sub1(n: nat): nat { if n > 0 then n - 1 else 0 }

  /** Sanctuary entries are not on probation and the other way round. */
  ghost predicate Sided<Id>(s: Shard<Id>, e: Id, cfg: Config)
    requires e in s.sv.ents
  {
    && (s.sv.ents[e].poolType == Sanctuary ==> e !in s.prob)
    && (s.sv.ents[e].poolType == Probation ==> e !in s.sv.list)
    && (cfg.probMax == 0 ==> s.sv.ents[e].poolType == Sanctuary)
  }

  lemma ReleaseDoes<Id>(s: Shard<Id>, e: Id, cfg: Config)
    requires s.WF() && e in s.sv.ents && Sided(s, e, cfg)
    ensures Released(s, e, cfg, Release(s, e, cfg))
    ensures Release(s, e, cfg).sv.list == Erase(s.sv, e).list && Release(s, e, cfg).sv.hand == Erase(s.sv, e).hand
    ensures Release(s, e, cfg).probHand == Unprobate(s, e).probHand
  {
  }

  lemma UnprobateHand<Id>(s: Shard<Id>, e: Id)
    requires s.WF() && NoDup(s.prob)
    requires s.probHand.Some? ==> s.probHand.value in s.prob
    ensures Unprobate(s, e).prob == Drop(s.prob, e)
    ensures Unprobate(s, e).probHand.Some? ==> Unprobate(s, e).probHand.value in Drop(s.prob, e)
  {
  }

  lemma ReleaseLists<Id>(s: Shard<Id>, e: Id, cfg: Config)
    requires Lists(s) && e in s.sv.ents && Sided(s, e, cfg) && e !in s.free
    ensures Lists(Release(s, e, cfg))
  {
    ReleaseDoes(s, e, cfg);
    UnprobateHand(s, e);
    EraseList(s.sv, e);
    DropMembers(s.prob, e);
  }

  lemma ReleasePlaces<Id>(s: Shard<Id>, e: Id, cfg: Config, held: set<Id>, r: Shard<Id>)
    requires s.WF() && r.WF() && Places(s, held) && e in held && Released(s, e, cfg, r)
    ensures Places(r, held - {e})
  {
    forall k | k in r.table
      ensures KeyOk(r, k, held - {e})
    {
      assert KeyOk(s, k, held);
    }
    forall x | x in r.sv.ents
      ensures EntOk(r, x, held - {e})
    {
      assert EntOk(s, x, held);
    }
  }

  lemma ReleaseLinked<Id>(s: Shard<Id>, e: Id, cfg: Config, held: set<Id>, lp: set<Id>, ls: set<Id>, r: Shard<Id>)
    requires Lists(s) && Linked(s, lp, ls) && e in s.sv.ents && Released(s, e, cfg, r)
    ensures Linked(r, lp - {e}, ls - {e})
  {
    DropMembers(s.sv.list, e);
    DropMembers(s.prob, e);
    forall x | x in r.sv.ents
      ensures LinkOk(r, x, lp - {e}, ls - {e})
    {
      assert LinkOk(s, x, lp, ls);
    }
  }

  lemma MinusSize<T>(s: set<T>, x: T)
    ensures |s - {x}| == |s| - (if x in s then 1 else 0)
    ensures |s + {x}| == |s| + (if x in s then 0 else 1)
  {
  }

  lemma ReleaseCounters<Id>(s: Shard<Id>, e: Id, cfg: Config, held: set<Id>, lp: set<Id>, ls: set<Id>, owed: nat, r: Shard<Id>)
    requires s.WF() && e in s.sv.ents && NoDup(s.sv.list) && NoDup(s.prob)
    requires Counters(s, cfg, held, ls, owed) && LinkOk(s, e, lp, ls)
    requires e in held && e !in s.dead && e !in s.free && Released(s, e, cfg, r)
    ensures Counters(r, cfg, held - {e}, ls - {e}, owed)
  {
  }

  lemma ReleaseInv<Id>(s: Shard<Id>, e: Id, cfg: Config, held: set<Id>, lp: set<Id>, ls: set<Id>, owed: nat)
    requires During(s, cfg, held, lp, ls, owed) && e in held
    ensures e in s.sv.ents
    ensures During(Release(s, e, cfg), cfg, held - {e}, lp - {e}, ls - {e}, owed)
    ensures Released(s, e, cfg, Release(s, e, cfg))
  {
    Unseal(s, cfg, held, lp, ls, owed);
    var r := Release(s, e, cfg);
    assert LinkOk(s, e, lp, ls) && EntOk(s, e, held);
    ReleaseDoes(s, e, cfg);
    ReleaseLists(s, e, cfg);
    ReleasePlaces(s, e, cfg, held, r);
    ReleaseLinked(s, e, cfg, held, lp, ls, r);
    ReleaseCounters(s, e, cfg, held, lp, ls, owed, r);
  }

  // ---- the victim loops ----

  lemma TakeOutPlaces<Id>(s: Shard<Id>, k: Key, held: set<Id>)
    requires s.WF() && Places(s, held) && k in s.table
    ensures Places(s.(table := s.table - {k}), held + {s.table[k]})
  {
    var e, s' := s.table[k], s.(table := s.table - {k});
    assert KeyOk(s, k, held);
    forall x | x in s'.table
      ensures KeyOk(s', x, held + {e})
    {
      assert KeyOk(s, x, held);
    }
    forall x | x in s'.sv.ents
      ensures EntOk(s', x, held + {e})
    {
      assert EntOk(s, x, held);
    }
  }

  /** Links do not depend on the table. */
  lemma SameLinks<Id>(s: Shard<Id>, s': Shard<Id>, lp: set<Id>, ls: set<Id>)
    requires Linked(s, lp, ls)
    requires s'.sv == s.sv && s'.free == s.free && s'.prob == s.prob && s'.orphans == s.orphans && s'.dead == s.dead
    ensures Linked(s', lp, ls)
  {
    forall x | x in s'.sv.ents
      ensures LinkOk(s', x, lp, ls)
    {
      assert LinkOk(s, x, lp, ls);
    }
  }

  lemma TakeOut<Id>(s: Shard<Id>, k: Key, cfg: Config, held: set<Id>, lp: set<Id>, ls: set<Id>, owed: nat)
    requires During(s, cfg, held, lp, ls, owed) && k in s.table
    ensures During(s.(table := s.table - {k}), cfg, held + {s.table[k]}, lp, ls, owed)
  {
    var e, s' := s.table[k], s.(table := s.table - {k});
    Unseal(s, cfg, held, lp, ls, owed);
    assert KeyOk(s, k, held);
    MinusSize(held, e);
    assert s'.table.Keys == s.table.Keys - {k};
    MinusSize(s.table.Keys, k);
    TakeOutPlaces(s, k, held);
    SameLinks(s, s', lp, ls);
  }

  /** The entries that the keys lead to. */
  ghost function Gone<Id>(s: Shard<Id>, keys: seq<Key>): set<Id>
  {
    set k | k in keys && k in s.table :: s.table[k]
  }

  function KeySet(keys: seq<Key>): set<Key> { set k | k in keys }

  /** What removing unlinked victims changes: their table entries and fields, nothing else. */
  ghost predicate OnlyGone<Id>(s: Shard<Id>, keys: seq<Key>, r: Shard<Id>)
  {
    && r.table == s.table - KeySet(keys)
    && r.sv.ents.Keys == s.sv.ents.Keys
    && (forall e :: e in s.sv.ents && e !in Gone(s, keys) ==> r.sv.ents[e] == s.sv.ents[e])
    && r.sv.list == s.sv.list && r.sv.hand == s.sv.hand
    && r.prob == s.prob && r.probHand == s.probHand && r.probCount == s.probCount
    && r.fallbacks == s.fallbacks && r.reaped == s.reaped
    && r.orphans == s.orphans
  }

  /** Statistics play no part in the invariant. */
  lemma StatsIrrelevant<Id>(s: Shard<Id>, s': Shard<Id>, cfg: Config, held: set<Id>, lp: set<Id>, ls: set<Id>, owed: nat)
    requires During(s, cfg, held, lp, ls, owed)
    requires s' == s.(evictions := s'.evictions, reaped := s'.reaped)
    ensures During(s', cfg, held, lp, ls, owed)
  {
    Unseal(s, cfg, held, lp, ls, owed);
    forall k | k in s'.table
      ensures KeyOk(s', k, held)
    {
      assert KeyOk(s, k, held);
    }
    forall x | x in s'.sv.ents
      ensures EntOk(s', x, held)
    {
      assert EntOk(s, x, held);
    }
    SameLinks(s, s', lp, ls);
  }

  lemma EvictKeyInv<Id>(s: Shard<Id>, k: Key, cfg: Config, held: set<Id>, lp: set<Id>, ls: set<Id>, owed: nat)
    requires During(s, cfg, held, lp, ls, owed) && k in s.table && s.table[k] in lp + ls
    ensures During(EvictKey(s, k, cfg), cfg, held, lp - {s.table[k]}, ls - {s.table[k]}, owed)
    ensures OnlyGone(s, [k], EvictKey(s, k, cfg))
  {
    var e := s.table[k];
    var s1 := s.(table := s.table - {k});
    assert LinkOk(s, e, lp, ls) && e !in s.free && e !in held by {
      Unseal(s, cfg, held, lp, ls, owed);
      assert KeyOk(s, k, held);
    }
    TakeOut(s, k, cfg, held, lp, ls, owed);
    ReleaseInv(s1, e, cfg, held + {e}, lp, ls, owed);
    assert held + {e} - {e} == held;
    StatsIrrelevant(Release(s1, e, cfg), EvictKey(s, k, cfg), cfg, held, lp - {e}, ls - {e}, owed);
    EvictKeyOnly(s, k, cfg, lp, ls);
  }

  lemma EvictKeyOnly<Id>(s: Shard<Id>, k: Key, cfg: Config, lp: set<Id>, ls: set<Id>)
    requires s.WF() && k in s.table
    requires Released(s.(table := s.table - {k}), s.table[k], cfg, Release(s.(table := s.table - {k}), s.table[k], cfg))
    requires LinkOk(s, s.table[k], lp, ls) && s.table[k] in lp + ls && s.table[k] !in s.free
    ensures OnlyGone(s, [k], EvictKey(s, k, cfg))
  {
    var e := s.table[k];
    assert Gone(s, [k]) == {e};
    assert KeySet([k]) == {k};
  }

  lemma GoneStep<Id>(s: Shard<Id>, keys: seq<Key>, s': Shard<Id>)
    requires keys != [] && keys[0] in s.table && s'.table == s.table - KeySet([keys[0]])
    ensures Gone(s, keys) == {s.table[keys[0]]} + Gone(s', keys[1..])
    ensures KeySet(keys) == {keys[0]} + KeySet(keys[1..])
  {
    var k := keys[0];
    assert KeySet([k]) == {k};
    assert forall x :: x in keys <==> x == k || x in keys[1..];
    forall e | e in Gone(s, keys)
      ensures e in {s.table[k]} + Gone(s', keys[1..])
    {
      var x :| x in keys && x in s.table && s.table[x] == e;
      if x != k {
        assert x in keys[1..] && x in s'.table;
      }
    }
    forall e | e in {s.table[k]} + Gone(s', keys[1..])
      ensures e in Gone(s, keys)
    {
      if e != s.table[k] {
        var x :| x in keys[1..] && x in s'.table && s'.table[x] == e;
        assert x in keys;
      }
    }
  }

  /** Every key has an entry, and it has been unlinked already. */
  ghost predicate Loose<Id>(s: Shard<Id>, keys: seq<Key>, lp: set<Id>, ls: set<Id>)
  {
    && (forall i, j :: 0 <= i < j < |keys| ==> keys[i] != keys[j])
    && (forall k :: k in keys ==> k in s.table && s.table[k] in lp + ls)
  }

  lemma StillLoose<Id>(s: Shard<Id>, keys: seq<Key>, s': Shard<Id>, cfg: Config,
                       held: set<Id>, lp: set<Id>, ls: set<Id>, owed: nat)
    requires During(s, cfg, held, lp, ls, owed) && Loose(s, keys, lp, ls) && keys != []
    requires s'.table == s.table - KeySet([keys[0]])
    ensures Loose(s', keys[1..], lp - {s.table[keys[0]]}, ls - {s.table[keys[0]]})
  {
    var k := keys[0];
    var e := s.table[k];
    assert KeySet([k]) == {k};
    Unseal(s, cfg, held, lp, ls, owed);
    forall x | x in keys[1..]
      ensures x in s'.table && s'.table[x] in (lp - {e}) + (ls - {e})
    {
      assert x in keys && x != k;
      assert KeyOk(s, x, held) && KeyOk(s, k, held);
    }
  }

  ghost predicate StepAt<Id>(ts: seq<Shard<Id>>, keys: seq<Key>, cfg: Config, i: nat)
    requires i < |keys| == |ts| - 1
  {
    ts[i].WF() && ts[i + 1] == EvictKey(ts[i], keys[i], cfg)
  }

  /** The states the victim loop goes through. */
  ghost predicate IsTrace<Id>(ts: seq<Shard<Id>>, keys: seq<Key>, cfg: Config)
  {
    && |ts| == |keys| + 1
    && forall i {:trigger StepAt(ts, keys, cfg, i)} :: 0 <= i < |keys| ==> StepAt(ts, keys, cfg, i)
  }

  lemma {:induction false} TraceOf<Id>(s: Shard<Id>, keys: seq<Key>, cfg: Config) returns (ts: seq<Shard<Id>>)
    requires s.WF()
    ensures IsTrace(ts, keys, cfg) && ts[0] == s && ts[|keys|] == EvictKeys(s, keys, cfg)
    decreases |keys|
  {
    if keys == [] {
      ts := [s];
    } else {
      var s1 := EvictKey(s, keys[0], cfg);
      var more := TraceOf(s1, keys[1..], cfg);
      ts := [s] + more;
      TraceCons(s, more, keys, cfg);
      FirstEvicted(s, keys, cfg, s1);
      assert ts[|keys|] == more[|keys| - 1];
    }
  }

  lemma {:induction false} FirstEvicted<Id>(s: Shard<Id>, keys: seq<Key>, cfg: Config, s1: Shard<Id>)
    requires s.WF() && keys != [] && s1 == EvictKey(s, keys[0], cfg)
    ensures EvictKeys(s, keys, cfg) == EvictKeys(s1, keys[1..], cfg)
  {
  }

  lemma TraceCons<Id>(s: Shard<Id>, more: seq<Shard<Id>>, keys: seq<Key>, cfg: Config)
    requires s.WF() && keys != [] && IsTrace(more, keys[1..], cfg) && more[0] == EvictKey(s, keys[0], cfg)
    ensures IsTrace([s] + more, keys, cfg)
  {
    forall i | 0 <= i < |keys|
      ensures StepAt([s] + more, keys, cfg, i)
    {
      if i > 0 {
        StepMoved(s, more, keys, cfg, i);
      }
    }
  }

  lemma StepMoved<Id>(s: Shard<Id>, more: seq<Shard<Id>>, keys: seq<Key>, cfg: Config, i: nat)
    requires 0 < i < |keys| && |more| == |keys| && StepAt(more, keys[1..], cfg, i - 1)
    ensures StepAt([s] + more, keys, cfg, i)
  {
  }

  lemma TraceTail<Id>(ts: seq<Shard<Id>>, keys: seq<Key>, cfg: Config)
    requires IsTrace(ts, keys, cfg) && keys != []
    ensures IsTrace(ts[1..], keys[1..], cfg)
  {
    forall i | 0 <= i < |keys| - 1
      ensures StepAt(ts[1..], keys[1..], cfg, i)
    {
      assert StepAt(ts, keys, cfg, i + 1);
    }
  }

  lemma TraceStep<Id>(ts: seq<Shard<Id>>, keys: seq<Key>, cfg: Config,
                      held: set<Id>, lp: set<Id>, ls: set<Id>, owed: nat)
    requires IsTrace(ts, keys, cfg) && keys != [] && During(ts[0], cfg, held, lp, ls, owed)
    requires Loose(ts[0], keys, lp, ls)
    ensures During(ts[1], cfg, held, lp - {ts[0].table[keys[0]]}, ls - {ts[0].table[keys[0]]}, owed)
    ensures OnlyGone(ts[0], [keys[0]], ts[1])
  {
    assert StepAt(ts, keys, cfg, 0);
    EvictKeyInv(ts[0], keys[0], cfg, held, lp, ls, owed);
  }

  lemma TailIndex<T>(ts: seq<T>)
    requires |ts| > 1
    ensures ts[1..][0] == ts[1] && ts[1..][|ts| - 2] == ts[|ts| - 1]
  {
  }

  lemma MinusTwice<T>(s: set<T>, x: T, g: set<T>, all: set<T>)
    requires all == {x} + g
    ensures s - {x} - g == s - all
  {
  }

  lemma {:induction false} TraceInv<Id>(ts: seq<Shard<Id>>, keys: seq<Key>, cfg: Config,
                                        held: set<Id>, lp: set<Id>, ls: set<Id>, owed: nat)
    requires IsTrace(ts, keys, cfg) && During(ts[0], cfg, held, lp, ls, owed)
    requires Loose(ts[0], keys, lp, ls)
    ensures During(ts[|keys|], cfg, held, lp - Gone(ts[0], keys), ls - Gone(ts[0], keys), owed)
    ensures OnlyGone(ts[0], keys, ts[|keys|])
    decreases |keys|
  {
    if keys == [] {
      NothingGone(ts[0], lp, ls);
    } else {
      TraceInvStep(ts, keys, cfg, held, lp, ls, owed);
    }
  }

  lemma NothingGone<Id>(s: Shard<Id>, lp: set<Id>, ls: set<Id>)
    ensures lp - Gone(s, []) == lp && ls - Gone(s, []) == ls && OnlyGone(s, [], s)
  {
  }

  lemma {:induction false} TraceInvStep<Id>(ts: seq<Shard<Id>>, keys: seq<Key>, cfg: Config,
                                            held: set<Id>, lp: set<Id>, ls: set<Id>, owed: nat)
    requires IsTrace(ts, keys, cfg) && During(ts[0], cfg, held, lp, ls, owed)
    requires Loose(ts[0], keys, lp, ls) && keys != []
    ensures During(ts[|keys|], cfg, held, lp - Gone(ts[0], keys), ls - Gone(ts[0], keys), owed)
    ensures OnlyGone(ts[0], keys, ts[|keys|])
    decreases |keys|, 0
  {
    var s := ts[0];
    var e, s', g := s.table[keys[0]], ts[1], Gone(ts[1], keys[1..]);
    TraceStep(ts, keys, cfg, held, lp, ls, owed);
    StillLoose(s, keys, s', cfg, held, lp, ls, owed);
    TraceTail(ts, keys, cfg);
    TraceInv(ts[1..], keys[1..], cfg, held, lp - {e}, ls - {e}, owed);
    GoneStep(s, keys, s');
    TailIndex(ts);
    MinusTwice(lp, e, g, Gone(s, keys));
    MinusTwice(ls, e, g, Gone(s, keys));
    OnlyGoneTwice(s, keys[0], s', keys, ts[|keys|]);
  }

  /** Both victim loops: every key is there, its entry unlinked; they all go. */
  lemma EvictKeysInv<Id>(s: Shard<Id>, keys: seq<Key>, cfg: Config, held: set<Id>, lp: set<Id>, ls: set<Id>, owed: nat)
    requires During(s, cfg, held, lp, ls, owed)
    requires Loose(s, keys, lp, ls)
    ensures During(EvictKeys(s, keys, cfg), cfg, held, lp - Gone(s, keys), ls - Gone(s, keys), owed)
    ensures OnlyGone(s, keys, EvictKeys(s, keys, cfg))
  {
    var ts := TraceOf(s, keys, cfg);
    TraceInv(ts, keys, cfg, held, lp, ls, owed);
  }

  lemma OnlyGoneTwice<Id>(s: Shard<Id>, k: Key, s': Shard<Id>, keys: seq<Key>, r: Shard<Id>)
    requires keys != [] && k == keys[0] && k in s.table
    requires OnlyGone(s, [k], s') && OnlyGone(s', keys[1..], r)
    ensures OnlyGone(s, keys, r)
  {
  }

  // ---- the reaper ----

  lemma ReapedInv<Id>(s: Shard<Id>, cfg: Config, held: set<Id>, owed: nat)
    requires During(s, cfg, held, {}, {}, owed) && s.prob != []
    ensures var taken := s.prob[..ReapCount(s, cfg)];
            During(Reaped(s, cfg), cfg, held, (set e | e in taken), {}, owed)
  {
    Unseal(s, cfg, held, {}, {}, owed);
    var n := ReapCount(s, cfg);
    var r, lp := Reaped(s, cfg), set e | e in s.prob[..n];
    NoDupParts(s.prob, n);
    forall k | k in r.table
      ensures KeyOk(r, k, held)
    {
      assert KeyOk(s, k, held);
    }
    forall x | x in r.sv.ents
      ensures EntOk(r, x, held) && LinkOk(r, x, lp, {})
    {
      assert EntOk(s, x, held) && LinkOk(s, x, {}, {});
    }
    Seal(r, cfg, held, lp, {}, owed);
  }

  /** Unlinked entries that are not held are in the table, each under its own key. */
  lemma VictimKeys<Id>(s: Shard<Id>, es: seq<Id>, ents: map<Id, Rec>, cfg: Config,
                       held: set<Id>, lp: set<Id>, ls: set<Id>, owed: nat)
    requires During(s, cfg, held, lp, ls, owed)
    requires NoDup(es) && forall e :: e in es ==> e in lp + ls && e !in held
    requires forall e :: e in es ==> e in ents && e in s.sv.ents && ents[e].key == s.sv.ents[e].key
    ensures Loose(s, KeysOf(ents, es), lp, ls)
    ensures Gone(s, KeysOf(ents, es)) == set e | e in es
  {
    Unseal(s, cfg, held, lp, ls, owed);
    var keys := KeysOf(ents, es);
    forall i | 0 <= i < |es|
      ensures keys[i] in s.table && s.table[keys[i]] == es[i]
    {
      assert es[i] in es;
      assert EntOk(s, es[i], held) && LinkOk(s, es[i], lp, ls);
    }
    forall e | e in es
      ensures e in Gone(s, keys)
    {
      var i :| 0 <= i < |es| && es[i] == e;
      assert keys[i] in keys;
    }
  }

  /** What one run of the reaper changes: the oldest `ReapCount` entries of the probation
      list leave the list, the table and the counters; nothing else is touched. */
  ghost predicate ReapDoes<Id>(s: Shard<Id>, cfg: Config, r: Shard<Id>)
    requires s.WF()
  {
    var n := ReapCount(s, cfg);
    var taken := s.prob[..n];
    && r.prob == s.prob[n..] && r.probCount + n == s.probCount
    && r.table == s.table - KeySet(KeysOf(s.sv.ents, taken))
    && r.sv.list == s.sv.list && r.sv.hand == s.sv.hand
    && r.sv.ents.Keys == s.sv.ents.Keys
    && (forall e :: e in s.sv.ents && e !in taken ==> r.sv.ents[e] == s.sv.ents[e])
    && r.fallbacks == s.fallbacks && r.orphans == s.orphans
    && r.reaped == s.reaped + n
  }

  lemma ReapInv<Id>(s: Shard<Id>, cfg: Config, held: set<Id>, owed: nat)
    requires During(s, cfg, held, {}, {}, owed)
    requires forall e :: e in held ==> e !in s.prob
    ensures During(Reap(s, cfg), cfg, held, {}, {}, owed)
    ensures ReapDoes(s, cfg, Reap(s, cfg))
  {
    if s.prob == [] {
      assert KeySet([]) == {};
      assert s.table - {} == s.table;
    } else {
      var taken := s.prob[..ReapCount(s, cfg)];
      var s1, lp, keys := Reaped(s, cfg), (set e | e in taken), KeysOf(s.sv.ents, taken);
      assert NoDup(taken) && s.probCount >= |s.prob| by {
        Unseal(s, cfg, held, {}, {}, owed);
      }
      ReapedInv(s, cfg, held, owed);
      VictimKeys(s1, taken, s.sv.ents, cfg, held, lp, {}, owed);
      EvictKeysInv(s1, keys, cfg, held, lp, {}, owed);
      assert lp - lp == {} && {} - lp == {};
    }
  }

  // ---- acquire ----

  /** An entry comes into the hands of the operation: from the front of the free queue, or
      new. `rec` is what it looks like then. */
  ghost predicate Arrives<Id>(s: Shard<Id>, e: Id, rec: Rec, r: Shard<Id>)
  {
    && r.sv.ents == s.sv.ents[e := rec]
    && r.table == s.table && r.dead == s.dead && r.fallbacks == s.fallbacks
    && (if s.free == [] then e !in s.sv.ents && r.free == [] else e == s.free[0] && r.free == s.free[1..])
  }

  lemma ArrivesPlaces<Id>(s: Shard<Id>, e: Id, rec: Rec, r: Shard<Id>)
    requires s.WF() && r.WF() && NoDup(s.free) && Places(s, {}) && Arrives(s, e, rec, r)
    ensures Places(r, {e}) && NoDup(r.free)
  {
    if s.free != [] {
      assert EntOk(s, e, {});
    }
    forall k | k in r.table
      ensures KeyOk(r, k, {e})
    {
      assert KeyOk(s, k, {});
    }
    forall x | x in r.sv.ents
      ensures EntOk(r, x, {e})
    {
      if x != e {
        assert EntOk(s, x, {});
      }
    }
  }

  /** How the links change when `e`, unlinked so far, is linked as `rec` and `r` say. */
  lemma ArrivesLinked<Id>(s: Shard<Id>, e: Id, rec: Rec, r: Shard<Id>)
    requires s.WF() && NoDup(s.free) && s.dead <= s.sv.ents.Keys && Linked(s, {}, {}) && Arrives(s, e, rec, r)
    requires e in s.sv.ents ==> e !in s.dead
    requires if rec.poolType == Sanctuary then r.sv.list == s.sv.list + [e] && r.prob == s.prob && r.orphans == s.orphans
             else r.sv.list == s.sv.list &&
                  ((r.prob == s.prob + [e] && r.orphans == s.orphans) || (r.prob == s.prob && r.orphans == s.orphans + {e}))
    ensures Linked(r, {}, {})
    ensures e !in s.sv.list && e !in s.prob && e !in s.orphans
  {
    if s.free != [] {
      assert LinkOk(s, e, {}, {});
    }
    forall x | x in r.sv.ents
      ensures LinkOk(r, x, {}, {})
    {
      if x != e {
        assert LinkOk(s, x, {}, {});
      }
    }
  }

  ghost function Owed<Id>(s: Shard<Id>): nat { if s.free == [] then 1 else 0 }

  lemma ArrivesSizes<Id>(s: Shard<Id>, e: Id, rec: Rec, r: Shard<Id>, cfg: Config)
    requires Counters(s, cfg, {}, {}, Owed(s)) && Arrives(s, e, rec, r)
    ensures |r.free| <= cfg.maxSize
    ensures |r.free| + |r.table| + |{e}| + |r.dead| == cfg.maxSize + r.fallbacks
  {
  }

  lemma AcquirePlainInv<Id>(s: Shard<Id>, minted: Id, cfg: Config)
    requires During(s, cfg, {}, {}, {}, Owed(s)) && cfg.probMax == 0
    requires s.free == [] ==> minted !in s.sv.ents
    ensures var (r, e) := AcquirePlain(s, minted);
            && During(r, cfg, {e}, {}, {}, 0)
            && Arrives(s, e, BLANK.(inUse := true, visited := true, poolType := Sanctuary), r)
            && r.sv.list == s.sv.list + [e]
            && r.sv.hand == Start(s.sv)
  {
    Unseal(s, cfg, {}, {}, {}, Owed(s));
    var (r, e) := AcquirePlain(s, minted);
    var rec := BLANK.(inUse := true, visited := true, poolType := Sanctuary);
    if s.free != [] {
      assert EntOk(s, e, {}) && LinkOk(s, e, {}, {});
    }
    assert Arrives(s, e, rec, r);
    ArrivesPlaces(s, e, rec, r);
    ArrivesLinked(s, e, rec, r);
    ArrivesSizes(s, e, rec, r, cfg);
    Seal(r, cfg, {e}, {}, {}, 0);
  }

  lemma LinkProbInv<Id>(s: Shard<Id>, r: Shard<Id>, cfg: Config)
    requires During(s, cfg, {}, {}, {}, 0) && cfg.probMax > 0 && s.free != []
    requires var e := s.free[0];
             r == Put(s, e, s.sv.ents[e].(inUse := true, poolType := Probation))
                  .(free := s.free[1..], probCount := s.probCount + 1, prob := s.prob + [e])
    ensures During(r, cfg, {s.free[0]}, {}, {}, 0)
    ensures Arrives(s, s.free[0], BLANK.(inUse := true), r)
  {
    Unseal(s, cfg, {}, {}, {}, 0);
    var e, rec := s.free[0], BLANK.(inUse := true);
    assert EntOk(s, e, {}) && LinkOk(s, e, {}, {});
    assert Arrives(s, e, rec, r);
    ArrivesPlaces(s, e, rec, r);
    ArrivesLinked(s, e, rec, r);
    ArrivesSizes(s, e, rec, r, cfg);
    Seal(r, cfg, {e}, {}, {}, 0);
  }

  lemma OrphanInv<Id>(s: Shard<Id>, e: Id, r: Shard<Id>, cfg: Config)
    requires During(s, cfg, {}, {}, {}, 1) && cfg.probMax > 0 && s.free == [] && e !in s.sv.ents
    requires r == Put(s, e, BLANK.(inUse := true, poolType := Probation))
                  .(probCount := s.probCount + 1, orphans := s.orphans + {e})
    ensures During(r, cfg, {e}, {}, {}, 0)
    ensures Arrives(s, e, BLANK.(inUse := true), r)
    ensures e !in s.prob
  {
    Unseal(s, cfg, {}, {}, {}, 1);
    var rec := BLANK.(inUse := true);
    assert Arrives(s, e, rec, r);
    ArrivesPlaces(s, e, rec, r);
    ArrivesLinked(s, e, rec, r);
    ArrivesSizes(s, e, rec, r, cfg);
    Seal(r, cfg, {e}, {}, {}, 0);
  }

  /** The reaper runs in this acquisition. */
  ghost predicate Reaps<Id>(s: Shard<Id>, cfg: Config)
  {
    cfg.probMax > 0 && (s.free == [] || s.probCount >= cfg.threshold)
  }

  /** The keys an acquisition evicts: those of the oldest probation entries, if the reaper runs. */
  ghost function ReapedKeys<Id>(s: Shard<Id>, cfg: Config): set<Key>
    requires s.WF()
  {
    if Reaps(s, cfg) then KeySet(KeysOf(s.sv.ents, s.prob[..ReapCount(s, cfg)])) else {}
  }

  /** What an acquisition does: some of the oldest probation keys may go; the other keys keep
      their entries unchanged; the entry it hands out is blank but for its use. */
  ghost predicate AcquireDoes<Id>(s: Shard<Id>, cfg: Config, r: Shard<Id>, e: Id)
    requires s.WF()
  {
    && r.table == s.table - ReapedKeys(s, cfg)
    && e in r.sv.ents
    && r.sv.ents[e] == BLANK.(inUse := true, visited := cfg.probMax == 0,
                              poolType := if cfg.probMax == 0 then Sanctuary else Probation)
    && (forall k :: k in r.table ==> s.table[k] in r.sv.ents && s.table[k] in s.sv.ents &&
                                     r.sv.ents[s.table[k]] == s.sv.ents[s.table[k]] && s.table[k] != e)
    && r.sv.list == (if cfg.probMax == 0 then s.sv.list + [e] else s.sv.list)
    && r.sv.hand == (if cfg.probMax == 0 then Start(s.sv) else s.sv.hand)
  }

  lemma SurvivorsKept<Id>(s: Shard<Id>, cfg: Config, r: Shard<Id>, owed: nat, held: set<Id>)
    requires During(s, cfg, held, {}, {}, owed) && ReapDoes(s, cfg, r)
    ensures forall k :: k in r.table ==> k in s.table && r.table[k] == s.table[k] && r.sv.ents[s.table[k]] == s.sv.ents[s.table[k]]
  {
    Unseal(s, cfg, held, {}, {}, owed);
    var taken := s.prob[..ReapCount(s, cfg)];
    var keys := KeysOf(s.sv.ents, taken);
    forall e | e in taken
      ensures s.sv.ents[e].key in KeySet(keys)
    {
      var i :| 0 <= i < |taken| && taken[i] == e;
      assert keys[i] in keys;
    }
    forall k | k in r.table
      ensures r.sv.ents[s.table[k]] == s.sv.ents[s.table[k]]
    {
      assert KeyOk(s, k, held);
    }
  }

  /** Before the entry is linked: the reaper has run if it was due. */
  lemma Prepared<Id>(s: Shard<Id>, s1: Shard<Id>, cfg: Config)
    requires During(s, cfg, {}, {}, {}, 0) && cfg.probMax > 0 && s.free != []
    requires s1 == if s.probCount >= cfg.threshold then Reap(s, cfg) else s
    ensures During(s1, cfg, {}, {}, {}, 0) && s1.free != []
    ensures s1.table == s.table - ReapedKeys(s, cfg)
    ensures s1.sv.list == s.sv.list && s1.sv.hand == s.sv.hand
    ensures forall k :: k in s1.table ==> s1.sv.ents[s.table[k]] == s.sv.ents[s.table[k]]
    ensures |s1.prob| == |s.prob| - (if Reaps(s, cfg) then ReapCount(s, cfg) else 0)
  {
    if s.probCount >= cfg.threshold {
      ReapInv(s, cfg, {}, 0);
      SurvivorsKept(s, cfg, s1, 0, {});
    } else {
      assert s.table - {} == s.table;
    }
  }

  lemma HeldNotInTable<Id>(r: Shard<Id>, cfg: Config, e: Id)
    requires During(r, cfg, {e}, {}, {}, 0)
    ensures forall k :: k in r.table ==> r.table[k] != e
  {
    Unseal(r, cfg, {e}, {}, {}, 0);
    forall k | k in r.table
      ensures r.table[k] != e
    {
      assert KeyOk(r, k, {e});
    }
  }

  lemma AcquireProbLinked<Id>(s: Shard<Id>, minted: Id, cfg: Config)
    requires During(s, cfg, {}, {}, {}, 0) && cfg.probMax > 0 && s.free != []
    ensures var (r, e) := AcquireProb(s, minted, cfg);
            && During(r, cfg, {e}, {}, {}, 0)
            && AcquireDoes(s, cfg, r, e)
            && e in r.prob && |r.prob| <= |s.prob| + 1 - (if Reaps(s, cfg) then ReapCount(s, cfg) else 0)
  {
    var s1 := if s.probCount >= cfg.threshold then Reap(s, cfg) else s;
    Prepared(s, s1, cfg);
    var (r, e) := AcquireProb(s, minted, cfg);
    LinkProbInv(s1, r, cfg);
    HeldNotInTable(r, cfg, e);
  }

  lemma AcquireProbOrphan<Id>(s: Shard<Id>, minted: Id, cfg: Config)
    requires During(s, cfg, {}, {}, {}, 1) && cfg.probMax > 0 && s.free == [] && minted !in s.sv.ents
    ensures var (r, e) := AcquireProb(s, minted, cfg);
            && During(r, cfg, {e}, {}, {}, 0)
            && AcquireDoes(s, cfg, r, e)
            && e in r.orphans && |r.prob| <= |s.prob|
  {
    var s1 := Put(s, minted, BLANK.(inUse := true, poolType := Probation));
    var s2 := s1.(probCount := s.probCount + 1, orphans := s.orphans + {minted});
    OrphanAcquired(s, minted, s2, cfg, Reap(s2, cfg));
    OrphanInv(s, minted, s2, cfg);
    OrphanReaped(s, minted, s2, cfg, Reap(s2, cfg));
  }

  lemma OrphanAcquired<Id>(s: Shard<Id>, e: Id, s2: Shard<Id>, cfg: Config, r: Shard<Id>)
    requires s.WF() && s.free == [] && cfg.probMax > 0 && s2.WF() && r == Reap(s2, cfg)
    requires s2 == Put(s, e, BLANK.(inUse := true, poolType := Probation)).(probCount := s.probCount + 1, orphans := s.orphans + {e})
    ensures AcquireProb(s, e, cfg) == (r, e)
  {
  }

  lemma OrphanReaped<Id>(s: Shard<Id>, e: Id, s2: Shard<Id>, cfg: Config, r: Shard<Id>)
    requires s.WF() && s.free == [] && cfg.probMax > 0 && e in s2.orphans
    requires During(s2, cfg, {e}, {}, {}, 0) && Arrives(s, e, BLANK.(inUse := true), s2) && e !in s.prob
    requires s2.prob == s.prob && s2.sv.list == s.sv.list && s2.sv.hand == s.sv.hand && r == Reap(s2, cfg)
    ensures During(r, cfg, {e}, {}, {}, 0) && AcquireDoes(s, cfg, r, e)
    ensures e in r.orphans && |r.prob| <= |s.prob|
  {
    ReapInv(s2, cfg, {e}, 0);
    SurvivorsKept(s2, cfg, r, 0, {e});
    OrphanDoes(s, e, s2, cfg, r);
  }

  lemma OrphanDoes<Id>(s: Shard<Id>, e: Id, s2: Shard<Id>, cfg: Config, r: Shard<Id>)
    requires s.WF() && s2.WF() && s.free == [] && cfg.probMax > 0
    requires Arrives(s, e, BLANK.(inUse := true), s2) && e !in s.prob
    requires s2.prob == s.prob && s2.sv.list == s.sv.list && s2.sv.hand == s.sv.hand
    requires ReapDoes(s2, cfg, r)
    requires forall k :: k in r.table ==> k in s2.table && r.sv.ents[s2.table[k]] == s2.sv.ents[s2.table[k]]
    ensures AcquireDoes(s, cfg, r, e)
  {
    var taken := s.prob[..ReapCount(s, cfg)];
    assert forall x :: x in taken ==> x in s.prob;
    assert KeysOf(s2.sv.ents, taken) == KeysOf(s.sv.ents, taken);
  }

  lemma AcquireInv<Id>(s: Shard<Id>, minted: Id, cfg: Config)
    requires During(s, cfg, {}, {}, {}, Owed(s))
    requires s.free == [] ==> minted !in s.sv.ents
    ensures var (r, e) := Acquire(s, minted, cfg);
            && During(r, cfg, {e}, {}, {}, 0)
            && AcquireDoes(s, cfg, r, e)
  {
    if cfg.probMax == 0 {
      AcquirePlainInv(s, minted, cfg);
      var (r, e) := Acquire(s, minted, cfg);
      assert s.table - {} == s.table;
      Unseal(r, cfg, {e}, {}, {}, 0);
      forall k | k in r.table
        ensures s.table[k] != e
      {
        assert KeyOk(r, k, {e});
      }
    } else if s.free == [] {
      AcquireProbOrphan(s, minted, cfg);
    } else {
      AcquireProbLinked(s, minted, cfg);
    }
  }

  // ---- writing, entering, promoting ----

  /** Writing the fields of an entry in use, but for its kind and, in the table, its key. */
  lemma WriteInv<Id>(s: Shard<Id>, e: Id, rec: Rec, cfg: Config, held: set<Id>)
    requires During(s, cfg, held, {}, {}, 0) && e in s.sv.ents && e !in s.free
    requires rec.poolType == s.sv.ents[e].poolType
    requires e in held || rec.key == s.sv.ents[e].key
    ensures During(Put(s, e, rec), cfg, held, {}, {}, 0)
  {
    Unseal(s, cfg, held, {}, {}, 0);
    var r := Put(s, e, rec);
    forall k | k in r.table
      ensures KeyOk(r, k, held)
    {
      assert KeyOk(s, k, held);
    }
    forall x | x in r.sv.ents
      ensures EntOk(r, x, held) && LinkOk(r, x, {}, {})
    {
      assert EntOk(s, x, held) && LinkOk(s, x, {}, {});
    }
    Seal(r, cfg, held, {}, {}, 0);
  }

  /** The held entry enters the table under its own, absent key. */
  lemma EnterInv<Id>(s: Shard<Id>, k: Key, e: Id, cfg: Config)
    requires During(s, cfg, {e}, {}, {}, 0) && e in s.sv.ents && s.sv.ents[e].key == k && k !in s.table
    ensures s.(table := s.table[k := e]).WF()
    ensures During(s.(table := s.table[k := e]), cfg, {}, {}, {}, 0)
  {
    Unseal(s, cfg, {e}, {}, {}, 0);
    var r := s.(table := s.table[k := e]);
    assert EntOk(s, e, {e});
    forall x | x in r.table
      ensures KeyOk(r, x, {})
    {
      if x != k {
        assert KeyOk(s, x, {e});
      }
    }
    forall x | x in r.sv.ents
      ensures EntOk(r, x, {})
    {
      assert EntOk(s, x, {e});
    }
    SameLinks(s, r, {}, {});
    assert r.table.Keys == s.table.Keys + {k};
    MinusSize(s.table.Keys, k);
    Seal(r, cfg, {}, {}, {}, 0);
  }

  /** What promoting a probation entry does to each component. */
  ghost predicate Promoted<Id>(s: Shard<Id>, e: Id, r: Shard<Id>)
    requires s.WF() && e in s.sv.ents
  {
    && r.sv.ents == s.sv.ents[e := s.sv.ents[e].(visited := true, poolType := Sanctuary)]
    && r.sv.list == s.sv.list + [e] && r.sv.hand == Start(s.sv)
    && r.prob == Drop(s.prob, e) && r.orphans == s.orphans - {e}
    && r.probCount == (if e in s.prob then Sub1(s.probCount) else s.probCount)
    && r.sancCount == s.sancCount + 1
    && r.table == s.table && r.free == s.free && r.dead == s.dead && r.fallbacks == s.fallbacks
    && (r.probHand.Some? ==> r.probHand.value in r.prob)
  }

  lemma PromoteDoes<Id>(s: Shard<Id>, e: Id)
    requires Lists(s) && e in s.sv.ents && e !in s.sv.list && s.sv.ents[e].poolType == Probation
    ensures Promoted(s, e, Promote(s, e))
  {
    UnprobateHand(s, e);
  }

  lemma PromotedParts<Id>(s: Shard<Id>, e: Id, r: Shard<Id>, cfg: Config, held: set<Id>)
    requires Parts(s, cfg, held, {}, {}, 0) && e in s.sv.ents && r.WF() && r.sv.HandOk()
    requires e !in s.free && e !in s.dead && s.sv.ents[e].poolType == Probation && Promoted(s, e, r)
    ensures Parts(r, cfg, held, {}, {}, 0)
  {
    assert LinkOk(s, e, {}, {});
    DropMembers(s.prob, e);
    forall k | k in r.table
      ensures KeyOk(r, k, held)
    {
      assert KeyOk(s, k, held);
    }
    forall x | x in r.sv.ents
      ensures EntOk(r, x, held) && LinkOk(r, x, {}, {})
    {
      assert EntOk(s, x, held) && LinkOk(s, x, {}, {});
    }
  }

  lemma PromoteInv<Id>(s: Shard<Id>, e: Id, cfg: Config, held: set<Id>)
    requires During(s, cfg, held, {}, {}, 0) && e in s.sv.ents && e !in s.free && e !in s.dead
    ensures During(Promote(s, e), cfg, held, {}, {}, 0)
    ensures s.sv.ents[e].poolType == Probation ==> Promoted(s, e, Promote(s, e))
  {
    if s.sv.ents[e].poolType == Probation {
      Unseal(s, cfg, held, {}, {}, 0);
      assert LinkOk(s, e, {}, {});
      PromoteDoes(s, e);
      PromotedParts(s, e, Promote(s, e), cfg, held);
      Seal(Promote(s, e), cfg, held, {}, {}, 0);
    }
  }
}
