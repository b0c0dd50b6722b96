/** All shards of a node: requests are executed on the shard that owns their key, at most
    one hop away, and the node as a whole is one lossy map. */
module Service {
  import opened Wrappers
  import opened SieveSpec
  import opened ShardSpec
  import opened ShardInvariant
  import opened ShardTheory
  import opened HashPartition
  import opened Seals
  import ShardRuns
  import LossyMap

  /** The node's configuration: the hash function, the first data shard and the limits of
      every shard. */
  datatype Env = Env(hash: Key -> nat, first: nat, cfgs: seq<Config>)
  {
    ghost predicate Valid() {
      first < |cfgs| && forall k :: hash(k) < SPACE
    }

    function Home(k: Key): (sid: nat)
    {
      OwnerShard(hash(k), |cfgs|, first)
    }
  }

  /** A request that was forwarded and has not been executed yet. */
  datatype Msg = Msg(id: nat, op: LossyMap.Op, target: nat)

  datatype Node<Id> = Node(shards: seq<Shard<Id>>, inflight: seq<Msg>)
  {
    ghost predicate WF() {
      forall i :: 0 <= i < |shards| ==> shards[i].WF()
    }
  }

  /** A request that was executed: where, when and with what result. */
  datatype Done = Done(id: nat, sid: nat, ev: LossyMap.Event, res: Option<Value>)

  /** Either the handler runs on shard `at`, or a forwarded request, any one of them, runs on
      its target. `minted` is the entry allocated should the pool be empty. */
  datatype Action<Id> =
    | Receive(at: nat, id: nat, op: LossyMap.Op, now: nat, minted: Id)
    | Deliver(i: nat, now: nat, minted: Id)

  /** Runs one operation on one shard. */
  function Execute<Id(==)>(n: Node<Id>, sid: nat, c: ShardRuns.Call<Id>, env: Env): (r: (Node<Id>, Option<Value>))
    requires n.WF() && sid < |n.shards| == |env.cfgs|
    ensures r.0.WF() && |r.0.shards| == |n.shards|
  {
    var (s, res) := ShardRuns.Perform(n.shards[sid], c, env.cfgs[sid]);
    (n.(shards := n.shards[sid := s]), res)
  }

  /** Call `c` on shard `sid` leads from `n` to `n'` with result `res`; an entry it allocates
      is a new one. Sealed. */
  ghost predicate Executes<Id>(n: Node<Id>, sid: nat, c: ShardRuns.Call<Id>, n': Node<Id>, res: Option<Value>, env: Env)
  {
    forall t {:trigger Open(ExecuteSeal, t)} :: Open(ExecuteSeal, t) ==>
      && n.WF() && sid < |n.shards| == |env.cfgs|
      && ShardRuns.Fresh(n.shards[sid], c) && (n', res) == Execute(n, sid, c, env)
  }

  /** Action `a` leads from `n` to `n'` and completes `out`, if anything. */
  ghost predicate Takes<Id>(n: Node<Id>, a: Action<Id>, n': Node<Id>, out: Option<Done>, env: Env)
  {
    match a
    case Receive(at, id, op, now, minted) =>
      if env.Home(op.k) == at then
        var ev := LossyMap.Event(op, now);
        && out.Some? && out.value == Done(id, at, ev, out.value.res)
        && Executes(n, at, ShardRuns.Call(ev, minted), n', out.value.res, env)
      else
        out == None && n' == n.(inflight := n.inflight + [Msg(id, op, env.Home(op.k))])
    case Deliver(i, now, minted) =>
      && i < |n.inflight|
      && var m := n.inflight[i];
      && var ev := LossyMap.Event(m.op, now);
      && out.Some? && out.value == Done(m.id, m.target, ev, out.value.res)
      && n'.inflight == n.inflight[..i] + n.inflight[i + 1..]
      && Executes(n, m.target, ShardRuns.Call(ev, minted), n'.(inflight := n.inflight), out.value.res, env)
  }

  // ---- the node's invariant ----

  /** A key is only ever stored on the shard that owns it. */
  ghost predicate Homed<Id>(s: Shard<Id>, sid: nat, env: Env)
  {
    forall k :: k in s.table ==> env.Home(k) == sid
  }

  ghost predicate ShardOk<Id>(n: Node<Id>, env: Env, sid: nat)
    requires sid < |n.shards| == |env.cfgs|
  {
    Inv(n.shards[sid], env.cfgs[sid]) && Homed(n.shards[sid], sid, env)
  }

  ghost predicate NodeInv<Id>(n: Node<Id>, env: Env)
  {
    && env.Valid() && n.WF() && |n.shards| == |env.cfgs|
    && (forall sid :: 0 <= sid < |n.shards| ==> ShardOk(n, env, sid))
    && (forall m :: m in n.inflight ==> m.target == env.Home(m.op.k))
  }

  /** The contents of all shards together. */
  ghost function Union<Id>(shards: seq<Shard<Id>>): (m: LossyMap.Model)
    requires forall i :: 0 <= i < |shards| ==> shards[i].WF()
  {
    if shards == [] then map[]
    else Union(shards[..|shards| - 1]) + Contents(shards[|shards| - 1])
  }

  ghost function Merged<Id>(n: Node<Id>): (m: LossyMap.Model)
    requires n.WF()
  {
    Union(n.shards)
  }

  /** What a key maps to is decided by its own shard alone. */
  lemma {:induction false} UnionAt<Id>(shards: seq<Shard<Id>>, env: Env, k: Key)
    requires forall i :: 0 <= i < |shards| ==> shards[i].WF() && Homed(shards[i], i, env)
    ensures k in Union(shards) <==> env.Home(k) < |shards| && k in shards[env.Home(k)].table
    ensures k in Union(shards) ==> Union(shards)[k] == Contents(shards[env.Home(k)])[k]
  {
    if shards == [] {
    } else {
      UnionAt(shards[..|shards| - 1], env, k);
    }
  }

  lemma MergedAt<Id>(n: Node<Id>, env: Env, k: Key)
    requires NodeInv(n, env)
    ensures env.Home(k) < |n.shards|
    ensures k in Merged(n) <==> k in Contents(n.shards[env.Home(k)])
    ensures k in Merged(n) ==> Merged(n)[k] == Contents(n.shards[env.Home(k)])[k]
  {
    OwnerShardInRange(env.hash(k), |env.cfgs|, env.first);
    forall i | 0 <= i < |n.shards| ensures Homed(n.shards[i], i, env) {
      assert ShardOk(n, env, i);
    }
    UnionAt(n.shards, env, k);
  }

  // ---- one shard's step is the node's step ----

  /** `m'` differs from `m` only in the keys of shard `sid`, where it has changed from `c`
      to `c'`. */
  ghost predicate Lifts(m: LossyMap.Model, m': LossyMap.Model, c: LossyMap.Model, c': LossyMap.Model, sid: nat, env: Env)
  {
    && (forall k :: k in c ==> env.Home(k) == sid)
    && (forall k :: k in c' ==> env.Home(k) == sid)
    && (forall k :: env.Home(k) == sid ==> ((k in m <==> k in c) && (k in m ==> m[k] == c[k])))
    && (forall k :: env.Home(k) == sid ==> ((k in m' <==> k in c') && (k in m' ==> m'[k] == c'[k])))
    && (forall k :: env.Home(k) != sid ==> ((k in m' <==> k in m) && (k in m ==> m'[k] == m[k])))
  }

  lemma LiftSet(m: LossyMap.Model, m': LossyMap.Model, c: LossyMap.Model, c': LossyMap.Model, sid: nat, env: Env,
                k: Key, v: Value, expiry: Option<nat>)
    requires Lifts(m, m', c, c', sid, env) && env.Home(k) == sid
    requires LossyMap.SetStep(c, k, v, expiry, c')
    ensures LossyMap.SetStep(m, k, v, expiry, m')
  {
    var before: set<Key>, after: set<Key> :| c' == LossyMap.Write(c - before, k, v, expiry) - after;
    var lost, gone := before * c.Keys, after * (c.Keys + {k});
    var w := LossyMap.Write(m - lost, k, v, expiry) - gone;
    forall x: Key ensures (x in w <==> x in m') && (x in w ==> w[x] == m'[x]) {
      assert env.Home(x) == sid || env.Home(x) != sid;
    }
    assert w == m';
  }

  lemma LiftGet(m: LossyMap.Model, m': LossyMap.Model, c: LossyMap.Model, c': LossyMap.Model, sid: nat, env: Env,
                k: Key, now: nat, res: Option<Value>)
    requires Lifts(m, m', c, c', sid, env) && env.Home(k) == sid
    requires (c', res) == LossyMap.GetStep(c, k, now)
    ensures (m', res) == LossyMap.GetStep(m, k, now)
  {
    var w := LossyMap.GetStep(m, k, now).0;
    forall x: Key ensures (x in w <==> x in m') && (x in w ==> w[x] == m'[x]) {
      assert env.Home(x) == sid || env.Home(x) != sid;
    }
    assert w == m';
  }

  /** After one step of the lossy map, only its key can be new. */
  lemma StepKeys(m: LossyMap.Model, ev: LossyMap.Event, m': LossyMap.Model, res: Option<Value>)
    requires LossyMap.Step(m, ev, m', res)
    ensures forall k :: k in m' ==> k in m || k == ev.op.k
  {
    if !ev.op.Get? {
      var before: set<Key>, after: set<Key> :|
        m' == LossyMap.Write(m - before, ev.op.k, ev.op.v, LossyMap.Expiry(ev)) - after;
    }
  }

  /** A shard that takes one of its own operations stays within its keys. */
  lemma PerformHomed<Id>(s: Shard<Id>, c: ShardRuns.Call<Id>, cfg: Config, sid: nat, env: Env)
    requires Inv(s, cfg) && ShardRuns.Fresh(s, c) && Homed(s, sid, env) && env.Home(c.ev.op.k) == sid
    ensures var (r, res) := ShardRuns.Perform(s, c, cfg);
            && Inv(r, cfg) && Homed(r, sid, env)
            && LossyMap.Step(Contents(s), c.ev, Contents(r), res)
  {
    ShardRuns.PerformInv(s, c, cfg);
    var (r, res) := ShardRuns.Perform(s, c, cfg);
    StepHomed(s, r, c.ev, res, sid, env);
  }

  lemma StepHomed<Id>(s: Shard<Id>, r: Shard<Id>, ev: LossyMap.Event, res: Option<Value>, sid: nat, env: Env)
    requires s.WF() && r.WF() && Homed(s, sid, env) && env.Home(ev.op.k) == sid
    requires LossyMap.Step(Contents(s), ev, Contents(r), res)
    ensures Homed(r, sid, env)
  {
    StepKeys(Contents(s), ev, Contents(r), res);
    forall k | k in r.table ensures env.Home(k) == sid {
      assert k in Contents(r);
    }
  }

  lemma ShardReplaced<Id>(n: Node<Id>, sid: nat, s: Shard<Id>, env: Env)
    requires NodeInv(n, env) && sid < |n.shards| && s.WF() && Inv(s, env.cfgs[sid]) && Homed(s, sid, env)
    ensures NodeInv(n.(shards := n.shards[sid := s]), env)
  {
    var n' := n.(shards := n.shards[sid := s]);
    forall i | 0 <= i < |n'.shards| ensures ShardOk(n', env, i) {
      assert ShardOk(n, env, i);
    }
  }

  lemma ExecuteLifts<Id>(n: Node<Id>, sid: nat, n': Node<Id>, env: Env)
    requires NodeInv(n, env) && NodeInv(n', env) && sid < |n.shards|
    requires forall i :: 0 <= i < |n.shards| && i != sid ==> n'.shards[i] == n.shards[i]
    ensures Lifts(Merged(n), Merged(n'), Contents(n.shards[sid]), Contents(n'.shards[sid]), sid, env)
  {
    assert ShardOk(n, env, sid) && ShardOk(n', env, sid);
    forall k: Key
      ensures env.Home(k) < |n.shards|
      ensures k in Merged(n) <==> k in Contents(n.shards[env.Home(k)])
      ensures k in Merged(n) ==> Merged(n)[k] == Contents(n.shards[env.Home(k)])[k]
      ensures k in Merged(n') <==> k in Contents(n'.shards[env.Home(k)])
      ensures k in Merged(n') ==> Merged(n')[k] == Contents(n'.shards[env.Home(k)])[k]
    {
      MergedAt(n, env, k);
      MergedAt(n', env, k);
    }
  }

  /** Executing an operation on its home shard is a step of the node's lossy map. */
  lemma ExecuteSteps<Id>(n: Node<Id>, sid: nat, c: ShardRuns.Call<Id>, n': Node<Id>, res: Option<Value>, env: Env)
    requires NodeInv(n, env) && env.Home(c.ev.op.k) == sid && Executes(n, sid, c, n', res, env)
    ensures NodeInv(n', env) && LossyMap.Step(Merged(n), c.ev, Merged(n'), res) && n'.inflight == n.inflight
  {
    assert Open(ExecuteSeal, true);
    assert ShardOk(n, env, sid);
    PerformHomed(n.shards[sid], c, env.cfgs[sid], sid, env);
    ShardReplaced(n, sid, n'.shards[sid], env);
    ExecuteLifts(n, sid, n', env);
    LiftStep(Merged(n), Merged(n'), Contents(n.shards[sid]), Contents(n'.shards[sid]), sid, env, c.ev, res);
  }

  lemma LiftStep(m: LossyMap.Model, m': LossyMap.Model, c: LossyMap.Model, c': LossyMap.Model, sid: nat, env: Env,
                 ev: LossyMap.Event, res: Option<Value>)
    requires Lifts(m, m', c, c', sid, env) && env.Home(ev.op.k) == sid
    requires LossyMap.Step(c, ev, c', res)
    ensures LossyMap.Step(m, ev, m', res)
  {
    if ev.op.Get? {
      LiftGet(m, m', c, c', sid, env, ev.op.k, ev.now, res);
    } else {
      LiftSet(m, m', c, c', sid, env, ev.op.k, ev.op.v, LossyMap.Expiry(ev));
    }
  }

  // ---- whole runs ----

  /** A node whose pools have been prepopulated. */
  ghost function InitialNode<Id>(pools: seq<seq<Id>>): (n: Node<Id>)
    ensures n.WF() && |n.shards| == |pools| && n.inflight == []
    ensures forall i :: 0 <= i < |pools| ==> n.shards[i] == ShardRuns.Initial(pools[i])
  {
    Node(seq(|pools|, i requires 0 <= i < |pools| => ShardRuns.Initial(pools[i])), [])
  }

  ghost predicate Prepopulated<Id>(pools: seq<seq<Id>>, env: Env)
  {
    && env.Valid() && |pools| == |env.cfgs|
    && forall i :: 0 <= i < |pools| ==> NoDup(pools[i]) && |pools[i]| == env.cfgs[i].maxSize
  }

  lemma InitialNodeInv<Id>(pools: seq<seq<Id>>, env: Env)
    requires Prepopulated(pools, env)
    ensures NodeInv(InitialNode(pools), env) && Merged(InitialNode(pools)) == map[]
  {
    var n := InitialNode(pools);
    forall i | 0 <= i < |n.shards| ensures ShardOk(n, env, i) && Contents(n.shards[i]) == map[] {
      ShardRuns.InitialInv(pools[i], env.cfgs[i]);
    }
    forall k: Key ensures k !in Merged(n) {
      MergedAt(n, env, k);
    }
  }

  /** A run of the node from prepopulated pools, with its states and what each step completed. */
  ghost predicate IsRun<Id>(pools: seq<seq<Id>>, nodes: seq<Node<Id>>, actions: seq<Action<Id>>,
                            outs: seq<Option<Done>>, env: Env)
  {
    && |nodes| == |actions| + 1 == |outs| + 1
    && Prepopulated(pools, env) && nodes[0] == InitialNode(pools)
    && forall i :: 0 <= i < |actions| ==> Takes(nodes[i], actions[i], nodes[i + 1], outs[i], env)
  }

  /** The requests completed by the first `i` steps. */
  function Log(outs: seq<Option<Done>>, i: nat): (log: seq<Done>)
    requires i <= |outs|
  {
    if i == 0 then []
    else Log(outs, i - 1) + (if outs[i - 1].Some? then [outs[i - 1].value] else [])
  }

  /** One step keeps the invariant; a step that completes a request does so on the home
      shard of its key and is a step of the lossy map, and any other step changes no
      contents. */
  ghost predicate Steps<Id>(n: Node<Id>, n': Node<Id>, out: Option<Done>, env: Env)
    requires n.WF() && n'.WF()
  {
    match out
    case None => Merged(n') == Merged(n)
    case Some(d) => LossyMap.Step(Merged(n), d.ev, Merged(n'), d.res) && d.sid == env.Home(d.ev.op.k)
  }

  lemma SameShards<Id>(n: Node<Id>, inflight: seq<Msg>, env: Env)
    requires NodeInv(n, env) && forall m :: m in inflight ==> m.target == env.Home(m.op.k)
    ensures NodeInv(n.(inflight := inflight), env)
  {
    var n' := n.(inflight := inflight);
    forall i | 0 <= i < |n'.shards| ensures ShardOk(n', env, i) {
      assert ShardOk(n, env, i);
    }
  }

  lemma TakesSteps<Id>(n: Node<Id>, a: Action<Id>, n': Node<Id>, out: Option<Done>, env: Env)
    requires NodeInv(n, env) && Takes(n, a, n', out, env)
    ensures NodeInv(n', env) && Steps(n, n', out, env)
  {
    match a
    case Receive(at, id, op, now, minted) =>
      if env.Home(op.k) == at {
        ExecuteSteps(n, at, ShardRuns.Call(LossyMap.Event(op, now), minted), n', out.value.res, env);
      } else {
        SameShards(n, n'.inflight, env);
      }
    case Deliver(i, now, minted) =>
      var m := n.inflight[i];
      assert m in n.inflight;
      var n1 := n'.(inflight := n.inflight);
      ExecuteSteps(n, m.target, ShardRuns.Call(LossyMap.Event(m.op, now), minted), n1, out.value.res, env);
      SameShards(n1, n'.inflight, env);
      assert n1.(inflight := n'.inflight) == n';
  }

  function EventsOf(log: seq<Done>): (evs: seq<LossyMap.Event>)
    ensures |evs| == |log| && forall i :: 0 <= i < |log| ==> evs[i] == log[i].ev
  {
    seq(|log|, i requires 0 <= i < |log| => log[i].ev)
  }

  function ResultsOf(log: seq<Done>): (results: seq<Option<Value>>)
    ensures |results| == |log| && forall i :: 0 <= i < |log| ==> results[i] == log[i].res
  {
    seq(|log|, i requires 0 <= i < |log| => log[i].res)
  }

  /** `ms` are the models between the requests of `log`, each executed at home. */
  ghost predicate Explains(ms: seq<LossyMap.Model>, log: seq<Done>, env: Env)
  {
    && |ms| == |log| + 1 && ms[0] == map[]
    && (forall i :: 0 <= i < |log| ==> LossyMap.Step(ms[i], log[i].ev, ms[i + 1], log[i].res))
    && (forall i :: 0 <= i < |log| ==> log[i].sid == env.Home(log[i].ev.op.k))
  }

  lemma ExplainsMore<Id>(ms: seq<LossyMap.Model>, log: seq<Done>, env: Env, n: Node<Id>, n': Node<Id>, d: Done)
    requires Explains(ms, log, env) && n.WF() && n'.WF() && ms[|log|] == Merged(n) && Steps(n, n', Some(d), env)
    ensures Explains(ms + [Merged(n')], log + [d], env)
  {
    var ms', log' := ms + [Merged(n')], log + [d];
    forall i | 0 <= i < |log'| ensures LossyMap.Step(ms'[i], log'[i].ev, ms'[i + 1], log'[i].res) {
      if i == |log| {
        assert ms'[i] == Merged(n) && ms'[i + 1] == Merged(n');
      }
    }
  }

  /** After step `j` the node holds what the model does after the requests completed by then. */
  ghost predicate Tracks<Id>(ms: seq<LossyMap.Model>, outs: seq<Option<Done>>, nodes: seq<Node<Id>>, j: nat)
    requires j <= |outs| && j < |nodes|
  {
    nodes[j].WF() && |Log(outs, j)| < |ms| && ms[|Log(outs, j)|] == Merged(nodes[j])
  }

  lemma TracksMore<Id>(ms: seq<LossyMap.Model>, more: seq<LossyMap.Model>, outs: seq<Option<Done>>, nodes: seq<Node<Id>>, i: nat)
    requires i <= |outs| && i < |nodes| && forall j: nat :: j <= i ==> Tracks(ms, outs, nodes, j)
    ensures forall j: nat :: j <= i ==> Tracks(ms + more, outs, nodes, j)
  {
    forall j: nat | j <= i ensures Tracks(ms + more, outs, nodes, j) {
      assert Tracks(ms, outs, nodes, j);
    }
  }

  lemma RunStep<Id>(pools: seq<seq<Id>>, nodes: seq<Node<Id>>, actions: seq<Action<Id>>,
                    outs: seq<Option<Done>>, env: Env, i: nat)
    requires IsRun(pools, nodes, actions, outs, env) && i < |actions| && NodeInv(nodes[i], env)
    ensures NodeInv(nodes[i + 1], env) && Steps(nodes[i], nodes[i + 1], outs[i], env)
  {
    TakesSteps(nodes[i], actions[i], nodes[i + 1], outs[i], env);
  }

  lemma {:induction false} RunModels<Id>(pools: seq<seq<Id>>, nodes: seq<Node<Id>>, actions: seq<Action<Id>>,
                                         outs: seq<Option<Done>>, env: Env, i: nat)
    returns (ms: seq<LossyMap.Model>)
    requires IsRun(pools, nodes, actions, outs, env) && i <= |actions|
    ensures NodeInv(nodes[i], env)
    ensures Explains(ms, Log(outs, i), env) && ms[|ms| - 1] == Merged(nodes[i])
    ensures forall j: nat :: j <= i ==> Tracks(ms, outs, nodes, j)
  {
    if i == 0 {
      InitialNodeInv(pools, env);
      ms := [map[]];
    } else {
      ms := RunModels(pools, nodes, actions, outs, env, i - 1);
      RunStep(pools, nodes, actions, outs, env, i - 1);
      ms := ModelsMore(ms, nodes, outs, env, i - 1);
    }
  }

  lemma ModelsMore<Id>(ms: seq<LossyMap.Model>, nodes: seq<Node<Id>>, outs: seq<Option<Done>>, env: Env, i: nat)
    returns (ms': seq<LossyMap.Model>)
    requires i < |outs| == |nodes| - 1 && NodeInv(nodes[i], env) && NodeInv(nodes[i + 1], env)
    requires Steps(nodes[i], nodes[i + 1], outs[i], env)
    requires Explains(ms, Log(outs, i), env) && ms[|ms| - 1] == Merged(nodes[i])
    requires forall j: nat :: j <= i ==> Tracks(ms, outs, nodes, j)
    ensures Explains(ms', Log(outs, i + 1), env) && ms'[|ms'| - 1] == Merged(nodes[i + 1])
    ensures forall j: nat :: j <= i + 1 ==> Tracks(ms', outs, nodes, j)
  {
    ms' := ms;
    if outs[i].Some? {
      ExplainsMore(ms, Log(outs, i), env, nodes[i], nodes[i + 1], outs[i].value);
      TracksMore(ms, [Merged(nodes[i + 1])], outs, nodes, i);
      ms' := ms + [Merged(nodes[i + 1])];
    }
    assert Tracks(ms', outs, nodes, i + 1);
  }

  /** The node is one lossy map: whatever way requests arrive at its shards and whatever
      order forwarded ones are delivered in, the completed requests, in the order they were
      executed, are a run of a single lossy map with the same results; each was executed on
      the shard that owns its key. */
  lemma NodeSimulates<Id>(pools: seq<seq<Id>>, nodes: seq<Node<Id>>, actions: seq<Action<Id>>,
                          outs: seq<Option<Done>>, env: Env)
    returns (ms: seq<LossyMap.Model>)
    requires IsRun(pools, nodes, actions, outs, env)
    ensures var log := Log(outs, |outs|);
            && LossyMap.IsRun(ms, EventsOf(log), ResultsOf(log))
            && forall i :: 0 <= i < |log| ==> log[i].sid == env.Home(log[i].ev.op.k)
    ensures forall j: nat :: j <= |outs| ==> Tracks(ms, outs, nodes, j)
  {
    ms := RunModels(pools, nodes, actions, outs, env, |outs|);
  }

  /** So a hit anywhere on the node is the value of the last executed set of its key; the item
      hit has no expiry, or that of the last executed TTL set `t` of its key, with the key
      there ever since, and it has not passed. `ms` are the node's contents in between. */
  lemma NodeHits<Id>(pools: seq<seq<Id>>, nodes: seq<Node<Id>>, actions: seq<Action<Id>>,
                     outs: seq<Option<Done>>, env: Env, i: nat)
    returns (ms: seq<LossyMap.Model>, j: nat, t: nat)
    requires IsRun(pools, nodes, actions, outs, env)
    requires i < |Log(outs, |outs|)| && Log(outs, |outs|)[i].ev.op.Get? && Log(outs, |outs|)[i].res.Some?
    ensures var log := Log(outs, |outs|);
            && LossyMap.IsRun(ms, EventsOf(log), ResultsOf(log))
            && (forall u: nat :: u <= |outs| ==> Tracks(ms, outs, nodes, u))
            && LossyMap.LastSet(EventsOf(log), log[i].ev.op.k, j, i) && log[i].res == Some(log[j].ev.op.v)
            && (log[j].ev.op.SetTtl? ==>
                  !IsExpired(log[i].ev.now, LossyMap.Deadline(log[j].ev.now, log[j].ev.op.ttl)))
            && log[j].sid == log[i].sid == env.Home(log[i].ev.op.k)
            && log[i].ev.op.k in ms[i]
            && (ms[i][log[i].ev.op.k].expiresAt == 0
                || LossyMap.Unexpired(ms, EventsOf(log), log[i].ev.op.k, t, i, log[i].ev.now))
  {
    ms := NodeSimulates(pools, nodes, actions, outs, env);
    var log := Log(outs, |outs|);
    j, t := LossyMap.HitIsLastWrite(ms, EventsOf(log), ResultsOf(log), i);
  }

  /** Over every run a key is stored nowhere but on the shard that owns it. */
  lemma KeysAtHome<Id>(pools: seq<seq<Id>>, nodes: seq<Node<Id>>, actions: seq<Action<Id>>,
                       outs: seq<Option<Done>>, env: Env, i: nat, sid: nat, k: Key)
    requires IsRun(pools, nodes, actions, outs, env) && i < |nodes|
    requires sid < |nodes[i].shards| && k in nodes[i].shards[sid].table
    ensures sid == env.Home(k)
  {
    var ms := RunModels(pools, nodes, actions, outs, env, i);
    assert ShardOk(nodes[i], env, sid);
  }

  // ---- every request once ----

  function One(b: bool): nat { if b then 1 else 0 }

  /** How often request `id` with `op` was received in the first `i` actions. */
  function Received<Id>(actions: seq<Action<Id>>, i: nat, id: nat, op: LossyMap.Op): (c: nat)
    requires i <= |actions|
  {
    if i == 0 then 0
    else Received(actions, i - 1, id, op)
         + One(actions[i - 1].Receive? && actions[i - 1].id == id && actions[i - 1].op == op)
  }

  function Completed(log: seq<Done>, id: nat, op: LossyMap.Op): (c: nat)
  {
    if log == [] then 0
    else Completed(log[..|log| - 1], id, op) + One(log[|log| - 1].id == id && log[|log| - 1].ev.op == op)
  }

  function Waiting(ms: seq<Msg>, id: nat, op: LossyMap.Op): (c: nat)
  {
    if ms == [] then 0
    else Waiting(ms[..|ms| - 1], id, op) + One(ms[|ms| - 1].id == id && ms[|ms| - 1].op == op)
  }

  lemma CompletedMore(log: seq<Done>, d: Done, id: nat, op: LossyMap.Op)
    ensures Completed(log + [d], id, op) == Completed(log, id, op) + One(d.id == id && d.ev.op == op)
  {
  }

  lemma WaitingMore(ms: seq<Msg>, m: Msg, id: nat, op: LossyMap.Op)
    ensures Waiting(ms + [m], id, op) == Waiting(ms, id, op) + One(m.id == id && m.op == op)
  {
  }

  lemma {:induction false} WaitingWithout(ms: seq<Msg>, i: nat, id: nat, op: LossyMap.Op)
    requires i < |ms|
    ensures Waiting(ms, id, op) == Waiting(ms[..i] + ms[i + 1..], id, op) + One(ms[i].id == id && ms[i].op == op)
  {
    var last := |ms| - 1;
    var rest := ms[..i] + ms[i + 1..];
    if i == last {
      assert rest == ms[..last];
    } else {
      var init := ms[..last];
      WaitingWithout(init, i, id, op);
      assert rest == (init[..i] + init[i + 1..]) + [ms[last]];
      WaitingMore(init[..i] + init[i + 1..], ms[last], id, op);
    }
  }

  lemma ExecuteKeepsQueue<Id>(n: Node<Id>, a: Action<Id>, n': Node<Id>, out: Option<Done>, env: Env)
    requires Takes(n, a, n', out, env) && a.Receive? && out.Some?
    ensures n'.inflight == n.inflight
  {
    assert Open(ExecuteSeal, true);
  }

  /** A step passes on what it receives, or completes it. */
  predicate Conserves<Id>(n: Node<Id>, a: Action<Id>, n': Node<Id>, out: Option<Done>, id: nat, op: LossyMap.Op)
  {
    Waiting(n.inflight, id, op) + One(a.Receive? && a.id == id && a.op == op)
    == Waiting(n'.inflight, id, op) + One(out.Some? && out.value.id == id && out.value.ev.op == op)
  }

  lemma NextConserves<Id>(n: Node<Id>, a: Action<Id>, n': Node<Id>, out: Option<Done>, env: Env, id: nat, op: LossyMap.Op)
    requires Takes(n, a, n', out, env)
    ensures Conserves(n, a, n', out, id, op)
  {
    if a.Receive? {
      if out.Some? {
        ExecuteKeepsQueue(n, a, n', out, env);
      }
      WaitingMore(n.inflight, Msg(a.id, a.op, env.Home(a.op.k)), id, op);
    } else {
      WaitingWithout(n.inflight, a.i, id, op);
    }
  }

  lemma {:induction false} LogMore(outs: seq<Option<Done>>, i: nat, id: nat, op: LossyMap.Op)
    requires 0 < i <= |outs|
    ensures Completed(Log(outs, i), id, op) == Completed(Log(outs, i - 1), id, op)
              + One(outs[i - 1].Some? && outs[i - 1].value.id == id && outs[i - 1].value.ev.op == op)
  {
    if outs[i - 1].Some? {
      CompletedMore(Log(outs, i - 1), outs[i - 1].value, id, op);
    } else {
      assert Log(outs, i) == Log(outs, i - 1);
    }
  }

  lemma {:induction false} AllConserved<Id>(nodes: seq<Node<Id>>, actions: seq<Action<Id>>, outs: seq<Option<Done>>,
                                            i: nat, id: nat, op: LossyMap.Op)
    requires |nodes| == |actions| + 1 == |outs| + 1 && i <= |actions| && nodes[0].inflight == []
    requires forall j :: 0 <= j < |actions| ==> Conserves(nodes[j], actions[j], nodes[j + 1], outs[j], id, op)
    ensures Received(actions, i, id, op) == Completed(Log(outs, i), id, op) + Waiting(nodes[i].inflight, id, op)
  {
    if i == 0 {
    } else {
      AllConserved(nodes, actions, outs, i - 1, id, op);
      assert Conserves(nodes[i - 1], actions[i - 1], nodes[i - 1 + 1], outs[i - 1], id, op);
      LogMore(outs, i, id, op);
    }
  }

  /** Every request is executed at most once, and is on its way until it is: it has been
      received as often as it was completed or is in flight. */
  lemma ExactlyOnce<Id>(pools: seq<seq<Id>>, nodes: seq<Node<Id>>, actions: seq<Action<Id>>,
                        outs: seq<Option<Done>>, env: Env, i: nat, id: nat, op: LossyMap.Op)
    requires IsRun(pools, nodes, actions, outs, env) && i <= |actions|
    ensures Received(actions, i, id, op) == Completed(Log(outs, i), id, op) + Waiting(nodes[i].inflight, id, op)
  {
    forall j | 0 <= j < |actions|
      ensures Conserves(nodes[j], actions[j], nodes[j + 1], outs[j], id, op)
    {
      NextConserves(nodes[j], actions[j], nodes[j + 1], outs[j], env, id, op);
    }
    AllConserved(nodes, actions, outs, i, id, op);
  }
}
