/** The SIEVE list without positions: two queues, the entries still ahead of the hand and those
    behind it. The list with its moving hand refines it. */
module SieveClock {
  import opened SieveSpec
  import opened SieveTheory

  datatype Clock<Id> = Clock(ahead: seq<Id>, behind: seq<Id>)

  /** What is ahead of the hand and what is behind it. */
  function View<Id>(s: Sieve<Id>): (c: Clock<Id>)
    requires s.WF()
  {
    Clock(s.list[s.hand..], s.list[..s.hand])
  }

  /** When nothing is left ahead, the hand starts over. */
  function Turned<Id>(c: Clock<Id>): (r: Clock<Id>)
  {
    if c.ahead == [] then Clock(c.behind, []) else c
  }

  /** `s` without its elements equal to `x`. */
  function Removed<T(==)>(s: seq<T>, x: T): (r: seq<T>)
  {
    if s == [] then [] else (if s[0] == x then [] else [s[0]]) + Removed(s[1..], x)
  }

  /** Its expiry has come, or it was not hit since a pass went over it. */
  predicate IsStale(r: Rec, now: nat) { (r.expiresAt > 0 && r.expiresAt <= now) || !r.visited }

  /** The stale entries of a queue in order, and the others. */
  function Taken<Id>(ents: map<Id, Rec>, q: seq<Id>, now: nat): (r: seq<Id>)
    requires forall e :: e in q ==> e in ents
  {
    if q == [] then [] else (if IsStale(ents[q[0]], now) then [q[0]] else []) + Taken(ents, q[1..], now)
  }

  function Spared<Id>(ents: map<Id, Rec>, q: seq<Id>, now: nat): (r: seq<Id>)
    requires forall e :: e in q ==> e in ents
  {
    if q == [] then [] else (if IsStale(ents[q[0]], now) then [] else [q[0]]) + Spared(ents, q[1..], now)
  }

  /** A pass reaches `reach` entries: to the end of the queue, or to the victim that uses up the
      budget. */
  ghost predicate Reaches<Id>(ents: map<Id, Rec>, q: seq<Id>, now: nat, budget: nat, reach: nat)
    requires forall e :: e in q ==> e in ents
  {
    && reach <= |q|
    && var done := q[..reach];
       && |Taken(ents, done, now)| <= budget
       && (reach == |q| || |Taken(ents, done, now)| == budget)
       && (reach > 0 && |Taken(ents, done, now)| == budget ==> IsStale(ents[done[reach - 1]], now))
  }

  /** One operation on the two queues. New entries are the last to be reached; a pass moves the
      entries it spares behind the hand. */
  ghost predicate Ticks<Id>(ents: map<Id, Rec>, c: Clock<Id>, op: Op<Id>, r: Clock<Id>)
    requires forall e :: e in c.ahead ==> e in ents
  {
    match op
    case OnInsert(e) => r == if e in c.ahead || e in c.behind then c else Clock(c.ahead + [e], c.behind)
    case OnErase(e) => r == Turned(Clock(Removed(c.ahead, e), Removed(c.behind, e)))
    case OnEvict(now, budget) =>
      exists reach: nat :: Reaches(ents, c.ahead, now, budget, reach) &&
                      r == Turned(Clock(c.ahead[reach..], c.behind + Spared(ents, c.ahead[..reach], now)))
    case OnHit(_) => r == c
    case Write(_, _) => r == c
    case Forget(_) => r == c
  }

  lemma {:induction false} RemovedAbsent<T>(s: seq<T>, x: T)
    requires x !in s
    ensures Removed(s, x) == s
  {
    if s == [] {
    } else {
      RemovedAbsent(s[1..], x);
    }
  }

  lemma {:induction false} RemovedAt<T>(s: seq<T>, i: nat)
    requires NoDup(s) && i < |s|
    ensures Removed(s, s[i]) == s[..i] + s[i + 1..]
  {
    if i == 0 {
      RemovedAbsent(s[1..], s[0]);
    } else {
      RemovedAt(s[1..], i - 1);
      assert s[1..][i - 1] == s[i] && s[1..][..i - 1] == s[1..i] && s[1..][i..] == s[i + 1..];
      assert [s[0]] + s[1..i] == s[..i];
    }
  }

  lemma InsertTicks<Id>(s: Sieve<Id>, e: Id)
    requires Healthy(s) && e in s.ents
    ensures Ticks(s.ents, View(s), OnInsert(e), View(Insert(s, e)))
  {
    var c := View(s);
    assert c.behind + c.ahead == s.list;
    assert e in s.list <==> e in c.ahead || e in c.behind;
  }

  lemma EraseTicks<Id>(s: Sieve<Id>, e: Id)
    requires Healthy(s)
    ensures Ticks(s.ents, View(s), OnErase(e), View(Erase(s, e)))
  {
    var c := View(s);
    assert c.behind + c.ahead == s.list;
    if e !in s.list {
      RemovedAbsent(c.ahead, e);
      RemovedAbsent(c.behind, e);
    } else {
      var i := IndexOf(s.list, e);
      if i < s.hand {
        EraseBehind(s, e, i);
      } else {
        EraseAhead(s, e, i);
      }
    }
  }

  lemma ErasedAt<Id>(s: Sieve<Id>, e: Id, i: nat)
    requires Healthy(s) && e in s.list && i == IndexOf(s.list, e)
    ensures Erase(s, e).list == s.list[..i] + s.list[i + 1..]
    ensures i < s.hand ==> Erase(s, e).hand == s.hand - 1
    ensures s.hand <= i ==> Erase(s, e).hand == if s.hand == i && i + 1 == |s.list| then 0 else s.hand
  {
  }

  lemma EraseBehind<Id>(s: Sieve<Id>, e: Id, i: nat)
    requires Healthy(s) && e in s.list && i == IndexOf(s.list, e) && i < s.hand
    ensures View(Erase(s, e)) == Clock(Removed(View(s).ahead, e), Removed(View(s).behind, e))
    ensures View(s).ahead != []
  {
    ErasedAt(s, e, i);
    RemovedBehind(s.list, i, s.hand);
    CutBehind(s.list, i, s.hand);
  }

  lemma RemovedBehind<T>(list: seq<T>, i: nat, h: nat)
    requires NoDup(list) && i < h <= |list|
    ensures Removed(list[h..], list[i]) == list[h..]
    ensures Removed(list[..h], list[i]) == list[..i] + list[i + 1..h]
  {
    RemovedAbsent(list[h..], list[i]);
    RemovedAt(list[..h], i);
    assert list[..h][..i] == list[..i] && list[..h][i + 1..] == list[i + 1..h];
  }

  lemma CutBehind<T>(list: seq<T>, i: nat, h: nat)
    requires i < h <= |list|
    ensures (list[..i] + list[i + 1..])[h - 1..] == list[h..]
    ensures (list[..i] + list[i + 1..])[..h - 1] == list[..i] + list[i + 1..h]
  {
  }

  lemma EraseAhead<Id>(s: Sieve<Id>, e: Id, i: nat)
    requires Healthy(s) && e in s.list && i == IndexOf(s.list, e) && s.hand <= i
    ensures View(Erase(s, e)) == Turned(Clock(Removed(View(s).ahead, e), Removed(View(s).behind, e)))
  {
    ErasedAt(s, e, i);
    RemovedAhead(s.list, i, s.hand);
    CutAhead(s.list, i, s.hand);
  }

  lemma RemovedAhead<T>(list: seq<T>, i: nat, h: nat)
    requires NoDup(list) && h <= i < |list|
    ensures Removed(list[..h], list[i]) == list[..h]
    ensures Removed(list[h..], list[i]) == list[h..i] + list[i + 1..]
  {
    RemovedAbsent(list[..h], list[i]);
    RemovedAt(list[h..], i - h);
    assert list[h..][..i - h] == list[h..i] && list[h..][i - h + 1..] == list[i + 1..];
  }

  lemma CutAhead<T>(list: seq<T>, i: nat, h: nat)
    requires h <= i < |list|
    ensures (list[..i] + list[i + 1..])[h..] == list[h..i] + list[i + 1..]
    ensures (list[..i] + list[i + 1..])[..h] == list[..h]
  {
  }

  /** A pass takes the stale entries up to where it reaches and spares the others. */
  lemma {:induction false} PassReaches<Id>(ents: map<Id, Rec>, q: seq<Id>, now: nat, budget: nat) returns (reach: nat)
    requires forall e :: e in q ==> e in ents
    ensures Reaches(ents, q, now, budget, reach)
    ensures Pass(ents, q, now, budget) == Scan(Spared(ents, q[..reach], now), Taken(ents, q[..reach], now), q[reach..])
    decreases |q|
  {
    if q == [] || budget == 0 {
      reach := 0;
      assert q[..0] == [] && q[0..] == q;
    } else {
      var left := if IsStale(ents[q[0]], now) then budget - 1 else budget;
      var n := PassReaches(ents, q[1..], now, left);
      reach := n + 1;
      assert q[..reach][1..] == q[1..][..n] && q[1..][n..] == q[reach..];
      if n > 0 {
        assert q[..reach][reach - 1] == q[1..][..n][n - 1];
      }
    }
  }

  lemma EvictTicks<Id>(s: Sieve<Id>, now: nat, budget: nat)
    requires Healthy(s)
    ensures Ticks(s.ents, View(s), OnEvict(now, budget), View(Evict(s, now, budget)))
  {
    var c := View(s);
    var reach := PassReaches(s.ents, c.ahead, now, budget);
    var kept, rest := Spared(s.ents, c.ahead[..reach], now), c.ahead[reach..];
    if s.list == [] {
      assert Turned(Clock(rest, c.behind + kept)) == View(s);
    } else {
      assert Start(s) == s.hand;
      var r := Evict(s, now, budget);
      assert r.list == c.behind + kept + rest;
      assert r.list[..|c.behind + kept|] == c.behind + kept;
    }
  }

  /** Every operation of the policy is one on the two queues. */
  lemma ApplyTicks<Id>(s: Sieve<Id>, op: Op<Id>)
    requires Healthy(s) && Allowed(s, op)
    ensures Apply(s, op).WF() && Ticks(s.ents, View(s), op, View(Apply(s, op)))
  {
    match op
    case OnInsert(e) => InsertTicks(s, e);
    case OnErase(e) => EraseTicks(s, e);
    case OnHit(_) =>
    case OnEvict(now, budget) => EvictTicks(s, now, budget);
    case Write(_, _) =>
    case Forget(_) =>
  }
}
