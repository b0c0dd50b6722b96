/** What SIEVE passes do, one at a time and over whole runs. */
module SieveTheory {
  import opened SieveSpec

  // ---- one pass ----

  /** The entries of `todo` a pass would take (`take`) or leave (`!take`), in order. */
  function Select<Id>(ents: map<Id, Rec>, todo: seq<Id>, now: nat, take: bool): (r: seq<Id>)
    requires forall e :: e in todo ==> e in ents
  {
    if todo == [] then []
    else
      var more := Select(ents, todo[1..], now, take);
      if Evictable(ents[todo[0]], now) == take then [todo[0]] + more else more
  }

  lemma {:induction false} SelectMembers<Id>(ents: map<Id, Rec>, todo: seq<Id>, now: nat, take: bool, e: Id)
    requires forall e :: e in todo ==> e in ents
    ensures e in Select(ents, todo, now, take) <==> e in todo && Evictable(ents[e], now) == take
  {
    if todo == [] {
    } else {
      SelectMembers(ents, todo[1..], now, take, e);
    }
  }

  /** How much of `todo` a pass scans. */
  function Reach<Id>(p: Scan<Id>): nat { |p.kept| + |p.victims| }

  /** A pass scans a front part of the list; of that it takes exactly the evictable entries
      and leaves exactly the others, in order; it stops at the end of the list or just
      behind the victim that uses up the budget, and nowhere else. */
  lemma {:induction false} PassIs<Id>(ents: map<Id, Rec>, todo: seq<Id>, now: nat, budget: nat)
    requires forall e :: e in todo ==> e in ents
    ensures var p := Pass(ents, todo, now, budget);
            var n := Reach(p);
            && n <= |todo|
            && p.victims == Select(ents, todo[..n], now, true)
            && p.kept == Select(ents, todo[..n], now, false)
            && p.rest == todo[n..]
            && |p.victims| <= budget
            && (p.rest != [] ==> |p.victims| == budget)
            && (p.rest != [] && budget > 0 ==> Evictable(ents[todo[n - 1]], now))
  {
    if todo == [] || budget == 0 {
    } else {
      var b := if Evictable(ents[todo[0]], now) then budget - 1 else budget;
      PassIs(ents, todo[1..], now, b);
      var n := Reach(Pass(ents, todo, now, budget));
      assert todo[..n][1..] == todo[1..][..n - 1];
      assert todo[n..] == todo[1..][n - 1..];
    }
  }

  /** In particular the victims are the first `budget` evictable entries from the hand on. */
  lemma {:induction false} VictimsAreFirst<Id>(ents: map<Id, Rec>, todo: seq<Id>, now: nat, budget: nat)
    requires forall e :: e in todo ==> e in ents
    ensures var all := Select(ents, todo, now, true);
            Pass(ents, todo, now, budget).victims == if |all| <= budget then all else all[..budget]
  {
    if todo == [] || budget == 0 {
    } else {
      var b := if Evictable(ents[todo[0]], now) then budget - 1 else budget;
      VictimsAreFirst(ents, todo[1..], now, b);
    }
  }

  /** A pass drops nothing and duplicates nothing. */
  lemma {:induction false} PassMembers<Id>(ents: map<Id, Rec>, todo: seq<Id>, now: nat, budget: nat, e: Id)
    requires forall e :: e in todo ==> e in ents
    requires NoDup(todo)
    ensures var p := Pass(ents, todo, now, budget);
            && (e in todo <==> e in p.kept || e in p.victims || e in p.rest)
            && !(e in p.kept && e in p.victims) && !(e in p.kept && e in p.rest) && !(e in p.victims && e in p.rest)
            && (e in p.kept ==> !Evictable(ents[e], now))
            && (e in p.victims ==> Evictable(ents[e], now))
    ensures NoDup(Pass(ents, todo, now, budget).kept + Pass(ents, todo, now, budget).rest)
    ensures NoDup(Pass(ents, todo, now, budget).victims)
    decreases |todo|
  {
    if todo != [] && budget > 0 {
      var b := if Evictable(ents[todo[0]], now) then budget - 1 else budget;
      var p := Pass(ents, todo[1..], now, b);
      PassMembers(ents, todo[1..], now, b, e);
      forall x | x in p.kept || x in p.victims || x in p.rest
        ensures x in todo[1..] && x != todo[0]
      {
        assert x in todo[1..];
      }
      if Evictable(ents[todo[0]], now) {
        ConsNoDup(todo[0], p.victims);
      } else {
        ConsNoDup(todo[0], p.kept + p.rest);
        assert [todo[0]] + p.kept + p.rest == [todo[0]] + (p.kept + p.rest);
      }
    }
    assert [] + todo == todo;
  }

  lemma ConsNoDup<T>(x: T, s: seq<T>)
    requires NoDup(s) && x !in s
    ensures NoDup([x] + s)
  {
  }

  lemma NoDupParts<T>(s: seq<T>, h: nat)
    requires NoDup(s) && h <= |s|
    ensures NoDup(s[..h]) && NoDup(s[h..])
    ensures forall x :: x in s[..h] ==> x !in s[h..]
    ensures forall x :: x in s <==> x in s[..h] || x in s[h..]
  {
  }

  lemma ConcatNoDup<T>(a: seq<T>, b: seq<T>)
    requires NoDup(a) && NoDup(b)
    requires forall x :: x in a ==> x !in b
    ensures NoDup(a + b)
  {
    var c := a + b;
    forall i, j | 0 <= i < j < |c|
      ensures c[i] != c[j]
    {
      if i < |a| <= j {
        assert c[i] in a && c[j] == b[j - |a|] && c[j] in b;
      }
    }
  }

  /** The list after an evict call: the victims are gone, every other entry is still there
      once, and the hand is on a live entry unless the list is empty. */
  lemma EvictList<Id>(s: Sieve<Id>, now: nat, budget: nat)
    requires s.WF() && s.HandOk() && NoDup(s.list)
    ensures Evict(s, now, budget).WF() && Evict(s, now, budget).HandOk() && NoDup(Evict(s, now, budget).list)
    ensures forall e :: e in Evict(s, now, budget).list <==> e in s.list && e !in PassFrom(s, now, budget).victims
    ensures forall e :: e in PassFrom(s, now, budget).victims ==> e in s.list
    ensures NoDup(PassFrom(s, now, budget).victims)
    ensures |Evict(s, now, budget).list| == |s.list| - |PassFrom(s, now, budget).victims|
  {
    var h, p := Start(s), PassFrom(s, now, budget);
    var before, todo := s.list[..h], s.list[h..];
    NoDupParts(s.list, h);
    PassSplits(s.ents, todo, now, budget);
    if s.list != [] {
      assert before + p.kept + p.rest == before + (p.kept + p.rest);
      ConcatNoDup(before, p.kept + p.rest);
    }
  }

  /** A pass splits what it was given into kept, victims and rest. */
  lemma PassSplits<Id>(ents: map<Id, Rec>, todo: seq<Id>, now: nat, budget: nat)
    requires (forall e :: e in todo ==> e in ents) && NoDup(todo)
    ensures var p := Pass(ents, todo, now, budget);
            && NoDup(p.kept + p.rest) && NoDup(p.victims)
            && (forall e :: e in todo <==> e in p.kept || e in p.victims || e in p.rest)
            && (forall e :: e in p.victims ==> e !in p.kept && e !in p.rest)
  {
    var p := Pass(ents, todo, now, budget);
    if todo == [] {
      assert p.kept + p.rest == [];
    } else {
      PassMembers(ents, todo, now, budget, todo[0]);
    }
    forall e
      ensures e in todo <==> e in p.kept || e in p.victims || e in p.rest
      ensures !(e in p.victims && (e in p.kept || e in p.rest))
    {
      PassMembers(ents, todo, now, budget, e);
    }
  }

  /** Entries before the hand keep their place, their bit and everything else; of the others
      only the visited bit of those passed and kept changes, and it is cleared. */
  lemma EvictFrame<Id>(s: Sieve<Id>, now: nat, budget: nat, e: Id)
    requires s.WF() && NoDup(s.list) && e in s.ents
    ensures var r, p, h := Evict(s, now, budget), PassFrom(s, now, budget), Start(s);
            && r.list[..h] == s.list[..h]
            && (e in s.list[..h] ==> e !in p.kept && r.ents[e] == s.ents[e])
            && r.ents[e] == (if e in p.kept then s.ents[e].(visited := false) else s.ents[e])
            && (e in p.kept ==> s.ents[e].visited && !IsExpired(now, s.ents[e].expiresAt))
  {
    var h, p := Start(s), PassFrom(s, now, budget);
    NoDupParts(s.list, h);
    PassMembers(s.ents, s.list[h..], now, budget, e);
    if s.list != [] {
      assert (s.list[..h] + p.kept + p.rest)[..h] == s.list[..h];
    }
  }

  // ---- draining ----

  function VisitedIn<Id>(ents: map<Id, Rec>, list: seq<Id>): (n: nat)
    requires forall e :: e in list ==> e in ents
    ensures n <= |list|
  {
    if list == [] then 0 else (if ents[list[0]].visited then 1 else 0) + VisitedIn(ents, list[1..])
  }

  lemma {:induction false} VisitedConcat<Id>(ents: map<Id, Rec>, a: seq<Id>, b: seq<Id>)
    requires forall e :: e in a || e in b ==> e in ents
    ensures (forall e :: e in a + b ==> e in ents)
         && VisitedIn(ents, a + b) == VisitedIn(ents, a) + VisitedIn(ents, b)
  {
    if a == [] {
      assert a + b == b;
    } else {
      assert (a + b)[1..] == a[1..] + b;
      VisitedConcat(ents, a[1..], b);
    }
  }

  lemma {:induction false} VisitedFrame<Id>(ents: map<Id, Rec>, ents': map<Id, Rec>, list: seq<Id>)
    requires forall e :: e in list ==> e in ents && e in ents'
    requires forall e :: e in list ==> ents'[e].visited == ents[e].visited
    ensures VisitedIn(ents, list) == VisitedIn(ents', list)
  {
    if list == [] {
    } else {
      VisitedFrame(ents, ents', list[1..]);
    }
  }

  lemma {:induction false} VisitedNone<Id>(ents: map<Id, Rec>, list: seq<Id>)
    requires forall e :: e in list ==> e in ents && !ents[e].visited
    ensures VisitedIn(ents, list) == 0
  {
    if list == [] {
    } else {
      VisitedNone(ents, list[1..]);
    }
  }

  /** What a pass scans, it takes or it had found visited. */
  lemma {:induction false} PassPays<Id>(ents: map<Id, Rec>, todo: seq<Id>, now: nat, budget: nat)
    requires forall e :: e in todo ==> e in ents
    ensures var p := Pass(ents, todo, now, budget);
            && (forall e :: e in p.rest ==> e in todo)
            && VisitedIn(ents, todo) >= |p.kept| + VisitedIn(ents, p.rest)
            && (todo != [] && budget > 0 ==> |p.kept| + |p.victims| > 0)
  {
    if todo == [] || budget == 0 {
    } else {
      PassPays(ents, todo[1..], now, if Evictable(ents[todo[0]], now) then budget - 1 else budget);
    }
  }

  /** The draining measure: entries on the list plus bits set among them. */
  function Load<Id>(s: Sieve<Id>): (n: nat)
    requires s.WF()
  {
    |s.list| + VisitedIn(s.ents, s.list)
  }

  /** The bits left after a pass: those before the hand and those not reached. */
  lemma VisitedLeft<Id>(ents: map<Id, Rec>, ents': map<Id, Rec>, before: seq<Id>, kept: seq<Id>, rest: seq<Id>)
    requires forall e :: e in before ==> e in ents && e in ents' && ents'[e] == ents[e]
    requires forall e :: e in rest ==> e in ents && e in ents' && ents'[e] == ents[e]
    requires forall e :: e in kept ==> e in ents' && !ents'[e].visited
    ensures forall e :: e in before + kept + rest ==> e in ents'
    ensures VisitedIn(ents', before + kept + rest) == VisitedIn(ents, before) + VisitedIn(ents, rest)
  {
    VisitedConcat(ents', before, kept);
    VisitedConcat(ents', before + kept, rest);
    VisitedFrame(ents, ents', before);
    VisitedFrame(ents, ents', rest);
    VisitedNone(ents', kept);
  }

  lemma EvictLoad<Id>(s: Sieve<Id>, now: nat, budget: nat)
    requires s.WF() && s.HandOk() && NoDup(s.list) && Evict(s, now, budget).WF()
    requires budget > 0 && s.list != []
    ensures Load(Evict(s, now, budget)) < Load(s)
  {
    var h, p, r := Start(s), PassFrom(s, now, budget), Evict(s, now, budget);
    var before, todo := s.list[..h], s.list[h..];
    PassPays(s.ents, todo, now, budget);
    assert s.list == before + todo;
    VisitedConcat(s.ents, before, todo);
    forall e | e in before ensures e in s.ents && r.ents[e] == s.ents[e] {
      EvictFrame(s, now, budget, e);
    }
    forall e | e in p.rest ensures e in s.ents && r.ents[e] == s.ents[e] {
      NoDupParts(s.list, h);
      PassMembers(s.ents, todo, now, budget, e);
    }
    VisitedLeft(s.ents, r.ents, before, p.kept, p.rest);
  }

  /** Evict calls one after the other, at the given times. */
  function EvictAll<Id>(s: Sieve<Id>, nows: seq<nat>, budget: nat): (r: Sieve<Id>)
    requires s.WF() && s.HandOk() && NoDup(s.list)
    decreases |nows|
  {
    if nows == [] then s
    else
      EvictList(s, nows[0], budget);
      EvictAll(Evict(s, nows[0], budget), nows[1..], budget)
  }

  /** With no hits or inserts in between, 2n evict calls empty a list of n entries. */
  lemma {:induction false} Drains<Id>(s: Sieve<Id>, nows: seq<nat>, budget: nat)
    requires s.WF() && s.HandOk() && NoDup(s.list) && budget > 0
    ensures |nows| >= Load(s) ==> EvictAll(s, nows, budget).list == []
    ensures |nows| >= 2 * |s.list| ==> EvictAll(s, nows, budget).list == []
    decreases |nows|
  {
    if nows == [] {
    } else {
      EvictList(s, nows[0], budget);
      if s.list != [] {
        EvictLoad(s, nows[0], budget);
      }
      Drains(Evict(s, nows[0], budget), nows[1..], budget);
    }
  }

  // ---- whole runs ----

  /** What can happen to the policy: its four operations, and its owner writing an entry or
      dropping one that is not listed. */
  datatype Op<Id> =
    | OnInsert(e: Id)
    | OnErase(e: Id)
    | OnHit(e: Id)
    | OnEvict(now: nat, budget: nat)
    | Write(e: Id, rec: Rec)
    | Forget(e: Id)

  ghost predicate Allowed<Id>(s: Sieve<Id>, op: Op<Id>)
    requires s.WF()
  {
    match op
    case OnInsert(e) => e in s.ents
    case OnErase(e) => true
    case OnHit(e) => e in s.ents
    case OnEvict(_, _) => true
    case Write(_, _) => true
    case Forget(e) => e !in s.list
  }

  function Apply<Id(==)>(s: Sieve<Id>, op: Op<Id>): (r: Sieve<Id>)
    requires s.WF() && Allowed(s, op)
  {
    match op
    case OnInsert(e) => Insert(s, e)
    case OnErase(e) => Erase(s, e)
    case OnHit(e) => Hit(s, e)
    case OnEvict(now, budget) => Evict(s, now, budget)
    case Write(e, rec) => s.(ents := s.ents[e := rec])
    case Forget(e) => s.(ents := s.ents - {e})
  }

  ghost predicate Healthy<Id>(s: Sieve<Id>) { s.WF() && s.HandOk() && NoDup(s.list) }

  lemma EraseList<Id>(s: Sieve<Id>, e: Id)
    requires Healthy(s)
    ensures Healthy(Erase(s, e))
    ensures forall x :: x in Erase(s, e).list <==> x in s.list && x != e
  {
  }

  lemma InsertList<Id>(s: Sieve<Id>, e: Id)
    requires Healthy(s) && e in s.ents
    ensures Healthy(Insert(s, e))
    ensures forall x :: x in Insert(s, e).list <==> x in s.list || x == e
  {
  }

  /** Every operation keeps the list free of repetition and the hand on a live entry. */
  lemma ApplyHealthy<Id>(s: Sieve<Id>, op: Op<Id>)
    requires Healthy(s) && Allowed(s, op)
    ensures Healthy(Apply(s, op))
  {
    match op
    case OnInsert(e) => InsertList(s, e);
    case OnErase(e) => EraseList(s, e);
    case OnHit(_) =>
    case OnEvict(now, budget) => EvictList(s, now, budget);
    case Write(_, _) =>
    case Forget(_) =>
  }

  /** `states` are the states of a run of `ops` from an empty list. */
  ghost predicate IsRun<Id>(states: seq<Sieve<Id>>, ops: seq<Op<Id>>)
  {
    && |states| == |ops| + 1
    && states[0].list == [] && states[0].hand == 0
    && forall i :: 0 <= i < |ops| ==>
         states[i].WF() && Allowed(states[i], ops[i]) && states[i + 1] == Apply(states[i], ops[i])
  }

  /** Operation `op` takes the bit of `e`: a pass goes over it and keeps it, or the owner
      writes it without its bit. */
  ghost predicate Clears<Id>(s: Sieve<Id>, op: Op<Id>, e: Id)
    requires s.WF()
  {
    || (op.OnEvict? && e in PassFrom(s, op.now, op.budget).kept)
    || (op.Write? && op.e == e && !op.rec.visited)
  }

  /** Step `i` took the bit of `e`; since then, up to step `k`, it has stayed on the list and
      has not been hit. */
  ghost predicate ClearedAt<Id>(states: seq<Sieve<Id>>, ops: seq<Op<Id>>, e: Id, i: nat, k: nat)
    requires IsRun(states, ops) && k <= |ops|
  {
    && i < k
    && Clears(states[i], ops[i], e)
    && forall j :: i < j < k ==> e in states[j].list && ops[j] != OnHit(e)
  }

  lemma {:induction false} RunHealthy<Id>(states: seq<Sieve<Id>>, ops: seq<Op<Id>>, k: nat)
    requires IsRun(states, ops) && k <= |ops|
    ensures Healthy(states[k])
  {
    if k == 0 {
    } else {
      RunHealthy(states, ops, k - 1);
      ApplyHealthy(states[k - 1], ops[k - 1]);
    }
  }

  /** How a listed entry can come out of one step without its bit. */
  lemma BitHistory<Id>(s: Sieve<Id>, op: Op<Id>, e: Id)
    requires Healthy(s) && Allowed(s, op)
    requires e in Apply(s, op).list && e in Apply(s, op).ents && !Apply(s, op).ents[e].visited
    ensures op != OnHit(e)
    ensures e in s.list
    ensures Clears(s, op, e) || !s.ents[e].visited
  {
    match op
    case OnInsert(x) => InsertList(s, x);
    case OnErase(x) => EraseList(s, x);
    case OnHit(_) =>
    case OnEvict(now, budget) => EvictList(s, now, budget);
    case Write(_, _) =>
    case Forget(_) =>
  }

  /** Over every run of the policy, with an owner that writes entries as it likes: a listed
      entry without its bit lost it to a pass that went over it, or to its owner, and has not
      been hit since. */
  lemma {:induction false} UnvisitedWasCleared<Id>(states: seq<Sieve<Id>>, ops: seq<Op<Id>>, e: Id, k: nat) returns (i: nat)
    requires IsRun(states, ops) && k <= |ops|
    requires e in states[k].list && e in states[k].ents && !states[k].ents[e].visited
    ensures ClearedAt(states, ops, e, i, k)
  {
    RunHealthy(states, ops, k);
    if k == 0 {
      assert false;
    }
    RunHealthy(states, ops, k - 1);
    BitHistory(states[k - 1], ops[k - 1], e);
    if Clears(states[k - 1], ops[k - 1], e) {
      i := k - 1;
    } else {
      i := UnvisitedWasCleared(states, ops, e, k - 1);
    }
  }

  /** So an unexpired victim of a call had its bit taken by an earlier pass or by the owner, and
      has not been hit since. In particular an entry visited when a call starts is not an
      unexpired victim of it. */
  lemma PolicySecondChance<Id>(states: seq<Sieve<Id>>, ops: seq<Op<Id>>, k: nat, e: Id) returns (i: nat)
    requires IsRun(states, ops) && k < |ops| && ops[k].OnEvict?
    requires e in PassFrom(states[k], ops[k].now, ops[k].budget).victims
    ensures e in states[k].ents
    ensures !IsExpired(ops[k].now, states[k].ents[e].expiresAt) ==>
              !states[k].ents[e].visited && ClearedAt(states, ops, e, i, k)
  {
    RunHealthy(states, ops, k);
    EvictList(states[k], ops[k].now, ops[k].budget);
    var s := states[k];
    NoDupParts(s.list, Start(s));
    PassMembers(s.ents, s.list[Start(s)..], ops[k].now, ops[k].budget, e);
    i := 0;
    if !IsExpired(ops[k].now, s.ents[e].expiresAt) {
      i := UnvisitedWasCleared(states, ops, e, k);
    }
  }
}
