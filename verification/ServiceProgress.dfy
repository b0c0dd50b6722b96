/** Requests on a node that follow the published table, and requests under way: where they are
    executed, and that they can always be. */
module ServiceProgress {
  import opened Wrappers
  import opened SieveSpec
  import opened ShardSpec
  import opened HashPartition
  import opened Service
  import ShardRuns
  import LossyMap

  /** A request sent to the shard that the published table names for its key is executed there at
      once, unless its hash is the lowest of a range whose exact lower end is not whole; then it
      takes one hop, to the shard before. */
  lemma FollowsTable<Id>(n: Node<Id>, a: Action<Id>, n': Node<Id>, out: Option<Done>, env: Env, i: nat)
    requires env.Valid() && |env.cfgs| <= SPACE && a.Receive? && Takes(n, a, n', out, env)
    requires var d := |env.cfgs| - env.first; InRange(env.hash(a.op.k), i, d) && a.at == env.first + i
    ensures var d, h := |env.cfgs| - env.first, env.hash(a.op.k);
            if h == Lo(i, d) && (SPACE * i) % d != 0
            then out == None && n' == n.(inflight := n.inflight + [Msg(a.id, a.op, a.at - 1)])
            else out.Some? && out.value.id == a.id && out.value.sid == a.at && out.value.ev == LossyMap.Event(a.op, a.now)
  {
    RouterAgainstRange(env.hash(a.op.k), i, |env.cfgs|, env.first);
  }

  /** Call `c` on shard `sid` can always be made. */
  lemma CanExecute<Id>(n: Node<Id>, sid: nat, c: ShardRuns.Call<Id>, env: Env) returns (n': Node<Id>, res: Option<Value>)
    requires n.WF() && sid < |n.shards| == |env.cfgs| && ShardRuns.Fresh(n.shards[sid], c)
    ensures Executes(n, sid, c, n', res, env) && n'.inflight == n.inflight
  {
    var r := Execute(n, sid, c, env);
    n', res := r.0, r.1;
  }

  /** Every request can be received on every shard. */
  lemma CanReceive<Id>(n: Node<Id>, a: Action<Id>, env: Env) returns (n': Node<Id>, out: Option<Done>)
    requires NodeInv(n, env) && a.Receive?
    requires ShardRuns.Fresh(n.shards[HomeOf(n, a.op.k, env)], ShardRuns.Call(LossyMap.Event(a.op, a.now), a.minted))
    ensures Takes(n, a, n', out, env)
    ensures out.Some? ==> out.value.id == a.id && out.value.ev == LossyMap.Event(a.op, a.now) && n'.inflight == n.inflight
    ensures out == None ==> n' == n.(inflight := n.inflight + [Msg(a.id, a.op, HomeOf(n, a.op.k, env))])
  {
    var sid, c := HomeOf(n, a.op.k, env), ShardRuns.Call(LossyMap.Event(a.op, a.now), a.minted);
    if sid == a.at {
      var res;
      n', res := CanExecute(n, sid, c, env);
      out := Some(Done(a.id, a.at, c.ev, res));
    } else {
      n', out := n.(inflight := n.inflight + [Msg(a.id, a.op, sid)]), None;
    }
  }

  /** The shard that owns a key. */
  ghost function HomeOf<Id>(n: Node<Id>, k: Key, env: Env): (sid: nat)
    requires NodeInv(n, env)
    ensures sid < |n.shards| && sid == env.Home(k)
  {
    OwnerShardInRange(env.hash(k), |env.cfgs|, env.first);
    env.Home(k)
  }

  /** Every request under way can be executed next, whichever it is. */
  lemma CanDeliver<Id>(n: Node<Id>, i: nat, now: nat, minted: Id, env: Env) returns (n': Node<Id>, out: Option<Done>)
    requires NodeInv(n, env) && i < |n.inflight|
    requires var m := n.inflight[i];
             ShardRuns.Fresh(n.shards[HomeOf(n, m.op.k, env)], ShardRuns.Call(LossyMap.Event(m.op, now), minted))
    ensures Takes(n, Deliver(i, now, minted), n', out, env)
    ensures n'.inflight == n.inflight[..i] + n.inflight[i + 1..]
    ensures out.Some? && out.value.id == n.inflight[i].id && out.value.ev == LossyMap.Event(n.inflight[i].op, now)
  {
    var m := n.inflight[i];
    var sid, c := HomeOf(n, m.op.k, env), ShardRuns.Call(LossyMap.Event(m.op, now), minted);
    assert m in n.inflight;
    var n1, res := CanExecute(n, sid, c, env);
    n', out := n1.(inflight := n.inflight[..i] + n.inflight[i + 1..]), Some(Done(m.id, m.target, c.ev, res));
    assert n'.(inflight := n.inflight) == n1;
  }

  lemma RunOn<Id>(pools: seq<seq<Id>>, nodes: seq<Node<Id>>, actions: seq<Action<Id>>, outs: seq<Option<Done>>, env: Env,
                  a: Action<Id>, n': Node<Id>, out: Option<Done>)
    requires IsRun(pools, nodes, actions, outs, env) && Takes(nodes[|actions|], a, n', out, env)
    ensures IsRun(pools, nodes + [n'], actions + [a], outs + [out], env)
  {
    var nodes', actions', outs' := nodes + [n'], actions + [a], outs + [out];
    forall i | 0 <= i < |actions'|
      ensures Takes(nodes'[i], actions'[i], nodes'[i + 1], outs'[i], env)
    {
      if i < |actions| {
        StepOf(pools, nodes, actions, outs, env, i, nodes'[i], actions'[i], nodes'[i + 1], outs'[i]);
      } else {
        SameStep(nodes[|actions|], a, n', out, nodes'[i], actions'[i], nodes'[i + 1], outs'[i], env);
      }
    }
  }

  lemma SameStep<Id>(n: Node<Id>, a: Action<Id>, n': Node<Id>, out: Option<Done>,
                     m: Node<Id>, b: Action<Id>, m': Node<Id>, res: Option<Done>, env: Env)
    requires Takes(n, a, n', out, env) && m == n && b == a && m' == n' && res == out
    ensures Takes(m, b, m', res, env)
  {
  }

  lemma StepOf<Id>(pools: seq<seq<Id>>, nodes: seq<Node<Id>>, actions: seq<Action<Id>>, outs: seq<Option<Done>>, env: Env,
                   i: nat, n: Node<Id>, a: Action<Id>, n': Node<Id>, out: Option<Done>)
    requires IsRun(pools, nodes, actions, outs, env) && i < |actions|
    requires n == nodes[i] && a == actions[i] && n' == nodes[i + 1] && out == outs[i]
    ensures Takes(n, a, n', out, env)
  {
  }

  /** A supply of new entries. */
  ghost predicate Mints<Id(!new)>(mint: set<Id> -> Id) { forall used :: mint(used) !in used }

  lemma {:induction false} LogSame(outs: seq<Option<Done>>, outs': seq<Option<Done>>, i: nat)
    requires i <= |outs| && outs <= outs'
    ensures Log(outs', i) == Log(outs, i)
  {
    if i == 0 {
    } else {
      LogSame(outs, outs', i - 1);
    }
  }

  lemma LogSnoc(outs: seq<Option<Done>>, out: Option<Done>)
    ensures Log(outs + [out], |outs| + 1)
         == Log(outs, |outs|) + (if out.Some? then [out.value] else [])
  {
    LogSame(outs, outs + [out], |outs|);
  }

  lemma NodeOk<Id>(pools: seq<seq<Id>>, nodes: seq<Node<Id>>, actions: seq<Action<Id>>, outs: seq<Option<Done>>, env: Env,
                   n: Node<Id>)
    requires IsRun(pools, nodes, actions, outs, env) && n == nodes[|actions|]
    ensures NodeInv(n, env)
  {
    var ms := RunModels(pools, nodes, actions, outs, env, |actions|);
  }

  /** A request arrives on shard `at`: it is executed there, or is under way. */
  lemma ReceiveNext<Id(!new)>(pools: seq<seq<Id>>, nodes: seq<Node<Id>>, actions: seq<Action<Id>>, outs: seq<Option<Done>>,
                              env: Env, at: nat, id: nat, op: LossyMap.Op, now: nat, mint: set<Id> -> Id)
    returns (nodes': seq<Node<Id>>, actions': seq<Action<Id>>, outs': seq<Option<Done>>, out: Option<Done>)
    requires IsRun(pools, nodes, actions, outs, env) && Mints(mint)
    ensures IsRun(pools, nodes', actions', outs', env)
    ensures Log(outs', |outs'|) == Log(outs, |outs|) + (if out.Some? then [out.value] else [])
    ensures var q, q' := nodes[|actions|].inflight, nodes'[|actions'|].inflight;
            if out.Some? then q' == q && out.value.id == id && out.value.ev == LossyMap.Event(op, now)
            else |q'| == |q| + 1 && q'[..|q|] == q && q'[|q|].id == id && q'[|q|].op == op
  {
    var n := nodes[|actions|];
    NodeOk(pools, nodes, actions, outs, env, n);
    var minted := mint(n.shards[HomeOf(n, op.k, env)].sv.ents.Keys);
    var a := Receive(at, id, op, now, minted);
    var n';
    n', out := CanReceive(n, a, env);
    RunOn(pools, nodes, actions, outs, env, a, n', out);
    LogSnoc(outs, out);
    nodes', actions', outs' := nodes + [n'], actions + [a], outs + [out];
  }

  lemma DeliverStep<Id(!new)>(n: Node<Id>, env: Env, now: nat, mint: set<Id> -> Id)
    returns (a: Action<Id>, n': Node<Id>, out: Option<Done>)
    requires NodeInv(n, env) && Mints(mint) && n.inflight != []
    ensures a.Deliver? && Takes(n, a, n', out, env) && n'.inflight == n.inflight[1..]
    ensures out.Some? && out.value.id == n.inflight[0].id && out.value.ev == LossyMap.Event(n.inflight[0].op, now)
  {
    var minted := mint(n.shards[HomeOf(n, n.inflight[0].op.k, env)].sv.ents.Keys);
    a := Deliver(0, now, minted);
    n', out := CanDeliver(n, 0, now, minted, env);
  }

  /** The first request under way is executed. */
  lemma DeliverFirst<Id(!new)>(pools: seq<seq<Id>>, nodes: seq<Node<Id>>, actions: seq<Action<Id>>,
                               outs: seq<Option<Done>>, env: Env, now: nat, mint: set<Id> -> Id)
    returns (nodes': seq<Node<Id>>, actions': seq<Action<Id>>, outs': seq<Option<Done>>, d: Done)
    requires IsRun(pools, nodes, actions, outs, env) && Mints(mint) && nodes[|actions|].inflight != []
    ensures IsRun(pools, nodes', actions', outs', env)
    ensures |actions'| == |actions| + 1 && actions'[..|actions|] == actions && actions'[|actions|].Deliver?
    ensures var m := nodes[|actions|].inflight[0];
            && nodes'[|actions'|].inflight == nodes[|actions|].inflight[1..]
            && d.id == m.id && d.ev == LossyMap.Event(m.op, now) && Log(outs', |outs'|) == Log(outs, |outs|) + [d]
  {
    var n := nodes[|actions|];
    NodeOk(pools, nodes, actions, outs, env, n);
    var a, n', out := DeliverStep(n, env, now, mint);
    d := out.value;
    RunOn(pools, nodes, actions, outs, env, a, n', out);
    LogSnoc(outs, out);
    nodes', actions', outs' := nodes + [n'], actions + [a], outs + [out];
  }

  /** Every run can be continued until nothing is under way any more, and every request that was
      has been executed then. */
  lemma {:induction false} AllLand<Id(!new)>(pools: seq<seq<Id>>, nodes: seq<Node<Id>>, actions: seq<Action<Id>>,
                                             outs: seq<Option<Done>>, env: Env, now: nat, mint: set<Id> -> Id)
    returns (nodes': seq<Node<Id>>, actions': seq<Action<Id>>, outs': seq<Option<Done>>)
    requires IsRun(pools, nodes, actions, outs, env) && Mints(mint)
    ensures IsRun(pools, nodes', actions', outs', env) && actions <= actions'
    ensures nodes'[|actions'|].inflight == []
    ensures forall i :: |actions| <= i < |actions'| ==> actions'[i].Deliver?
    ensures forall id, op :: Received(actions, |actions|, id, op) == Completed(Log(outs', |outs'|), id, op)
    decreases |nodes[|actions|].inflight|
  {
    if nodes[|actions|].inflight == [] {
      nodes', actions', outs' := nodes, actions, outs;
      forall id, op ensures Received(actions, |actions|, id, op) == Completed(Log(outs, |outs|), id, op) {
        ExactlyOnce(pools, nodes, actions, outs, env, |actions|, id, op);
      }
    } else {
      var nodes1, actions1, outs1, d := DeliverFirst(pools, nodes, actions, outs, env, now, mint);
      nodes', actions', outs' := AllLand(pools, nodes1, actions1, outs1, env, now, mint);
      assert actions1 == actions + [actions1[|actions|]];
      forall id, op ensures Received(actions, |actions|, id, op) == Completed(Log(outs', |outs'|), id, op) {
        ReceivedSame(actions, actions1[|actions|], id, op);
      }
    }
  }

  lemma ReceivedSame<Id>(actions: seq<Action<Id>>, a: Action<Id>, id: nat, op: LossyMap.Op)
    requires a.Deliver?
    ensures Received(actions + [a], |actions + [a]|, id, op) == Received(actions, |actions|, id, op)
  {
    ReceivedPrefix(actions, actions + [a], |actions|, id, op);
  }

  lemma {:induction false} ReceivedPrefix<Id>(actions: seq<Action<Id>>, actions': seq<Action<Id>>, i: nat, id: nat, op: LossyMap.Op)
    requires actions <= actions' && i <= |actions|
    ensures Received(actions', i, id, op) == Received(actions, i, id, op)
  {
    if i == 0 {
    } else {
      ReceivedPrefix(actions, actions', i - 1, id, op);
    }
  }
}
