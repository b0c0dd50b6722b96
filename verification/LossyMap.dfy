/** The simple thing a shard, and the whole service, behaves like: a map with expiry times
    that may forget keys while it is written to. */
module LossyMap {
  import opened Wrappers
  import opened Bytes
  import opened SieveSpec

  datatype Item = Item(value: Value, expiresAt: nat)

  type Model = map<Key, Item>

  /** Writing keeps the expiry of a key that is there unless a new one is given; a key that
      is not there starts without one. */
  function Write(m: Model, k: Key, v: Value, expiry: Option<nat>): (r: Model)
  {
    m[k := Item(v, match expiry
                   case Some(d) => d
                   case None => if k in m then m[k].expiresAt else 0)]
  }

  /** A set: some keys may be lost before the write and some after it. */
  ghost predicate SetStep(m: Model, k: Key, v: Value, expiry: Option<nat>, m': Model)
  {
    exists before: set<Key>, after: set<Key> :: m' == Write(m - before, k, v, expiry) - after
  }

  /** A get: nothing is lost but the key itself when it has expired; a hit is the value
      written last, and it has not expired. */
  function GetStep(m: Model, k: Key, now: nat): (r: (Model, Option<Value>))
  {
    if k !in m then (m, None)
    else if IsExpired(now, m[k].expiresAt) then (m - {k}, None)
    else (m, Some(m[k].value))
  }

  /** The absolute expiry of a TTL, in 64 bits. */
  function Deadline(now: nat, ttl: nat): (d: nat) { (now + ttl) % TWO_64 }

  datatype Op = Set(k: Key, v: Value) | SetTtl(k: Key, v: Value, ttl: nat) | Get(k: Key)

  datatype Event = Event(op: Op, now: nat)

  /** What a set operation asks for as expiry. */
  function Expiry(ev: Event): (d: Option<nat>)
  {
    if ev.op.SetTtl? then Some(Deadline(ev.now, ev.op.ttl)) else None
  }

  ghost predicate Step(m: Model, ev: Event, m': Model, res: Option<Value>)
  {
    if ev.op.Get? then (m', res) == GetStep(m, ev.op.k, ev.now)
    else SetStep(m, ev.op.k, ev.op.v, Expiry(ev), m') && res == None
  }

  // ---- runs ----

  ghost predicate IsRun(ms: seq<Model>, evs: seq<Event>, results: seq<Option<Value>>)
  {
    && |ms| == |evs| + 1 == |results| + 1
    && ms[0] == map[]
    && forall i :: 0 <= i < |evs| ==> Step(ms[i], evs[i], ms[i + 1], results[i])
  }

  predicate SetsKey(ev: Event, k: Key) { !ev.op.Get? && ev.op.k == k }

  /** Event `j` is the last one before `i` to set `k`. */
  ghost predicate LastSet(evs: seq<Event>, k: Key, j: nat, i: nat)
    requires i <= |evs|
  {
    j < i && SetsKey(evs[j], k) && forall t :: j < t < i ==> !SetsKey(evs[t], k)
  }

  /** Event `j` is the last one before `i` to give `k` a TTL. */
  ghost predicate LastTtl(evs: seq<Event>, k: Key, j: nat, i: nat)
    requires i <= |evs|
  {
    j < i && SetsKey(evs[j], k) && evs[j].op.SetTtl? && forall t :: j < t < i && SetsKey(evs[t], k) ==> !evs[t].op.SetTtl?
  }

  /** Event `t` is the last before `i` to give `k` a TTL, and `k` has been there ever since. */
  ghost predicate ExpiryFrom(ms: seq<Model>, evs: seq<Event>, k: Key, t: nat, i: nat)
    requires i <= |evs| < |ms|
  {
    LastTtl(evs, k, t, i) && forall u :: t < u <= i ==> k in ms[u]
  }

  /** The item of `k` before event `i` has an expiry from event `t`, which has not passed at `now`. */
  ghost predicate Unexpired(ms: seq<Model>, evs: seq<Event>, k: Key, t: nat, i: nat, now: nat)
    requires i <= |evs| < |ms|
  {
    && ExpiryFrom(ms, evs, k, t, i) && k in ms[i]
    && ms[i][k].expiresAt == Deadline(evs[t].now, evs[t].op.ttl)
    && !IsExpired(now, Deadline(evs[t].now, evs[t].op.ttl))
  }

  /** What one step does to one key that is there afterwards. */
  lemma KeyStep(m: Model, ev: Event, m': Model, res: Option<Value>, k: Key)
    requires Step(m, ev, m', res) && k in m'
    ensures !SetsKey(ev, k) ==> k in m && m'[k] == m[k]
    ensures SetsKey(ev, k) ==> m'[k].value == ev.op.v
    ensures SetsKey(ev, k) && ev.op.SetTtl? ==> m'[k].expiresAt == Deadline(ev.now, ev.op.ttl)
    ensures SetsKey(ev, k) && !ev.op.SetTtl? ==>
              m'[k].expiresAt == 0 || (k in m && m'[k].expiresAt == m[k].expiresAt)
  {
    if !ev.op.Get? {
      var before: set<Key>, after: set<Key> :| m' == Write(m - before, ev.op.k, ev.op.v, Expiry(ev)) - after;
    }
  }

  /** The history of an item: its value is that of the last set of the key, and an expiry
      it has comes from the last TTL set of the key, in particular from the last set
      itself when that one had a TTL; the key has been there ever since that TTL set, so a
      plain set of an absent key leaves none. */
  lemma {:induction false} ItemHistory(ms: seq<Model>, evs: seq<Event>, results: seq<Option<Value>>, i: nat, k: Key)
    returns (j: nat, t: nat)
    requires IsRun(ms, evs, results) && i <= |evs| && k in ms[i]
    ensures LastSet(evs, k, j, i) && ms[i][k].value == evs[j].op.v
    ensures evs[j].op.SetTtl? ==> ms[i][k].expiresAt == Deadline(evs[j].now, evs[j].op.ttl)
    ensures ms[i][k].expiresAt != 0 ==> ExpiryFrom(ms, evs, k, t, i) && ms[i][k].expiresAt == Deadline(evs[t].now, evs[t].op.ttl)
  {
    var ev := evs[i - 1];
    KeyStep(ms[i - 1], ev, ms[i], results[i - 1], k);
    j, t := i - 1, i - 1;
    if !SetsKey(ev, k) {
      j, t := ItemHistory(ms, evs, results, i - 1, k);
    } else if !ev.op.SetTtl? && ms[i][k].expiresAt != 0 {
      var j';
      j', t := ItemHistory(ms, evs, results, i - 1, k);
    }
  }

  /** A plain set of a key that is not there leaves it without an expiry, whatever it had
      before. */
  lemma PlainSetOfAbsent(ms: seq<Model>, evs: seq<Event>, results: seq<Option<Value>>, u: nat, i: nat, k: Key)
    requires IsRun(ms, evs, results) && u < i <= |evs| && k in ms[i]
    requires k !in ms[u] && forall w :: u <= w < i && SetsKey(evs[w], k) ==> !evs[w].op.SetTtl?
    ensures ms[i][k].expiresAt == 0
  {
    var j, t := ItemHistory(ms, evs, results, i, k);
  }

  /** Over every run: a hit returns exactly the value of the last set of that key. The item
      hit either has no expiry, or that of the last TTL set of the key, since which the key
      has been there all the time, and it has not passed; a last set with a TTL is that set. */
  lemma HitIsLastWrite(ms: seq<Model>, evs: seq<Event>, results: seq<Option<Value>>, i: nat) returns (j: nat, t: nat)
    requires IsRun(ms, evs, results) && i < |evs| && evs[i].op.Get? && results[i].Some?
    ensures LastSet(evs, evs[i].op.k, j, i) && results[i] == Some(evs[j].op.v)
    ensures evs[j].op.SetTtl? ==> !IsExpired(evs[i].now, Deadline(evs[j].now, evs[j].op.ttl))
    ensures evs[i].op.k in ms[i]
    ensures ms[i][evs[i].op.k].expiresAt == 0 || Unexpired(ms, evs, evs[i].op.k, t, i, evs[i].now)
  {
    assert Step(ms[i], evs[i], ms[i + 1], results[i]);
    j, t := ItemHistory(ms, evs, results, i, evs[i].op.k);
  }
}
