/** Cache entries and the SIEVE list over them, on values. `Id` names an entry object: the
    classes instantiate it with the objects themselves. */
module SieveSpec {
  import opened Bytes

  type Key = seq<byte>
  type Value = seq<byte>

  datatype PoolType = Probation | Sanctuary

  /** The fields of one entry. */
  datatype Rec = Rec(key: Key, value: Value, expiresAt: nat, ver: nat, heat: nat, lastAccess: nat,
                     visited: bool, poolType: PoolType, inUse: bool)

  /** A new or reset entry. */
  const BLANK: Rec := Rec([], [], 0, 0, 0, 0, false, Probation, false)

  predicate IsExpired(now: nat, expiresAt: nat) { expiresAt != 0 && now >= expiresAt }

  /** What an eviction pass takes: expired, or not visited since the last pass. */
  predicate Evictable(r: Rec, now: nat) { IsExpired(now, r.expiresAt) || !r.visited }

  // ---- sequences without repetition ----

  ghost predicate NoDup<T>(s: seq<T>) { forall i, j :: 0 <= i < j < |s| ==> s[i] != s[j] }

  function IndexOf<T(==)>(s: seq<T>, x: T): (i: nat)
    requires x in s
    ensures i < |s| && s[i] == x
    ensures forall j :: 0 <= j < i ==> s[j] != x
  {
    if s[0] == x then 0 else 1 + IndexOf(s[1..], x)
  }

  function Without<T(==)>(s: seq<T>, x: T): (r: seq<T>)
    requires x in s
    ensures |r| == |s| - 1
  {
    var i := IndexOf(s, x);
    s[..i] + s[i + 1..]
  }

  // ---- the list ----

  /** The entries' fields, the SIEVE list and the index of its hand; `|list|` stands for end(). */
  datatype Sieve<Id> = Sieve(ents: map<Id, Rec>, list: seq<Id>, hand: nat) {

    ghost predicate WF() {
      hand <= |list| && forall e :: e in list ==> e in ents
    }

    /** The hand is on an entry of the list unless the list is empty. */
    ghost predicate HandOk() {
      if list == [] then hand == 0 else hand < |list|
    }
  }

  /** on_insert. */
  function Insert<Id(==)>(s: Sieve<Id>, e: Id): (r: Sieve<Id>)
    requires s.WF() && e in s.ents
    ensures r.WF() && r.ents.Keys == s.ents.Keys
  {
    if e in s.list then s
    else
      Sieve(s.ents[e := s.ents[e].(visited := true, poolType := Sanctuary)],
            s.list + [e],
            if s.hand == |s.list| then 0 else s.hand)
  }

  /** on_erase: a hand on the erased entry first moves on, around the end if need be. */
  function Erase<Id(==)>(s: Sieve<Id>, e: Id): (r: Sieve<Id>)
    requires s.WF()
    ensures r.WF() && r.ents == s.ents
  {
    if e !in s.list then s
    else
      var i := IndexOf(s.list, e);
      var list := Without(s.list, e);
      var h := if s.hand != i then s.hand else if i + 1 == |s.list| then 0 else i + 1;
      Sieve(s.ents, list, if list == [] then 0 else if h > i then h - 1 else h)
  }

  /** on_hit. */
  function Hit<Id(==)>(s: Sieve<Id>, e: Id): (r: Sieve<Id>)
    requires s.WF() && e in s.ents
    ensures r.WF()
  {
    s.(ents := s.ents[e := s.ents[e].(visited := true)])
  }

  datatype Scan<Id> = Scan(kept: seq<Id>, victims: seq<Id>, rest: seq<Id>)

  /** One pass over `todo`: evictable entries go, up to the budget; the others passed on the
      way stay; `rest` was not reached. */
  function Pass<Id>(ents: map<Id, Rec>, todo: seq<Id>, now: nat, budget: nat): (p: Scan<Id>)
    requires forall e :: e in todo ==> e in ents
    ensures |p.kept| + |p.victims| + |p.rest| == |todo|
    ensures (forall e :: e in p.kept ==> e in todo) && (forall e :: e in p.victims ==> e in todo) && (forall e :: e in p.rest ==> e in todo)
  {
    if todo == [] || budget == 0 then Scan([], [], todo)
    else if Evictable(ents[todo[0]], now) then
      var p := Pass(ents, todo[1..], now, budget - 1);
      p.(victims := [todo[0]] + p.victims)
    else
      var p := Pass(ents, todo[1..], now, budget);
      p.(kept := [todo[0]] + p.kept)
  }

  function ClearBits<Id>(ents: map<Id, Rec>, kept: seq<Id>): (r: map<Id, Rec>)
    ensures r.Keys == ents.Keys
    ensures forall e :: e in ents ==> r[e] == if e in kept then ents[e].(visited := false) else ents[e]
  {
    map e | e in ents :: if e in kept then ents[e].(visited := false) else ents[e]
  }

  /** Where a pass starts. */
  function Start<Id>(s: Sieve<Id>): (h: nat)
    requires s.WF()
    ensures h <= |s.list|
  {
    if s.hand == |s.list| then 0 else s.hand
  }

  function PassFrom<Id>(s: Sieve<Id>, now: nat, budget: nat): (p: Scan<Id>)
    requires s.WF()
    ensures (forall e :: e in p.kept ==> e in s.list) && (forall e :: e in p.victims ==> e in s.list) && (forall e :: e in p.rest ==> e in s.list)
  {
    Pass(s.ents, s.list[Start(s)..], now, budget)
  }

  /** evict, as one pass: the list, the hand and the bits it leaves. */
  function Evict<Id>(s: Sieve<Id>, now: nat, budget: nat): (r: Sieve<Id>)
    requires s.WF()
    ensures r.WF() && r.ents.Keys == s.ents.Keys
  {
    if s.list == [] then s
    else
      var h, p := Start(s), PassFrom(s, now, budget);
      Sieve(ClearBits(s.ents, p.kept),
            s.list[..h] + p.kept + p.rest,
            if p.rest == [] then 0 else h + |p.kept|)
  }
}
