/** From the operations a client writes to what it reads: extraction, dispatch, execution on the
    node, reply texts, the pipelined connection and the client's own reader together. */
module EndToEnd {
  import opened Wrappers
  import opened Bytes
  import opened RespStream
  import opened RespRoundTrip
  import opened Commands
  import opened Client
  import Connection
  import ConnectionTheory
  import ConnectionLiveness
  import Service
  import ServiceProgress
  import LossyMap

  // ---- what a client reads is what was executed ----

  /** `d` is the execution of request `id` as `op`, and `text` the reply to it. */
  predicate Completes(d: Service.Done, id: nat, op: LossyMap.Op, text: seq<byte>)
  {
    d.id == id && d.ev.op == op && text == ReplyText(op, d.res)
  }

  /** The handler of request `id` answers `text`: at once, or after its execution in `log`. */
  ghost predicate Handled(req: Request, id: nat, log: seq<Service.Done>, text: seq<byte>)
  {
    match Dispatched(req)
    case Reply(t) => text == t
    case Run(op) => exists i :: 0 <= i < |log| && Completes(log[i], id, op, text)
    case Elsewhere => true
  }

  /** The replies of a connection are those of its requests, numbered from `base` on the node. */
  ghost predicate HandledAll(s: Connection.Conn, base: nat, log: seq<Service.Done>)
  {
    forall j :: 0 <= j < |s.replies| && j < |s.issued| && s.replies[j].Ready? ==>
      Handled(s.issued[j], base + j, log, s.replies[j].text)
  }

  predicate Sendable(ops: seq<LossyMap.Op>) { forall i :: 0 <= i < |ops| ==> Askable(ops[i]) && Fits(ops[i]) }

  /** What a client should read for `ops` when `done[i]` is the execution of `ops[i]`. */
  function Outcomes(ops: seq<LossyMap.Op>, done: seq<Service.Done>): (r: seq<Resp>)
    requires |ops| == |done|
    ensures |r| == |ops|
  {
    seq(|ops|, i requires 0 <= i < |ops| => Meaning(ops[i], done[i].res))
  }

  lemma {:induction false} ConcatSnoc(parts: seq<seq<byte>>, x: seq<byte>)
    ensures Concat(parts + [x]) == Concat(parts) + x
  {
    if parts == [] {
      assert [x][1..] == [] && x + [] == x;
    } else {
      assert (parts + [x])[1..] == parts[1..] + [x];
      ConcatSnoc(parts[1..], x);
      assert parts[0] + (Concat(parts[1..]) + x) == parts[0] + Concat(parts[1..]) + x;
    }
  }

  lemma {:induction false} TextIsConcat(replies: seq<Connection.Reply>, texts: seq<seq<byte>>, n: nat)
    requires n <= |replies| && n <= |texts| && forall j :: 0 <= j < n ==> replies[j] == Connection.Ready(texts[j])
    ensures Connection.Text(replies, n) == Concat(texts[..n])
  {
    if n == 0 {
    } else {
      TextIsConcat(replies, texts, n - 1);
      ConcatSnoc(texts[..n - 1], texts[n - 1]);
      assert texts[..n - 1] + [texts[n - 1]] == texts[..n];
    }
  }

  /** The texts of executed operations, one after the other, are read as their outcomes. */
  lemma OutcomesRead(ops: seq<LossyMap.Op>, done: seq<Service.Done>, texts: seq<seq<byte>>)
    requires |ops| == |done| == |texts|
    requires forall i :: 0 <= i < |ops| ==> texts[i] == ReplyText(ops[i], done[i].res)
    ensures DecodeAll(Concat(texts)) == Some(Outcomes(ops, done))
  {
    forall i, t | 0 <= i < |texts|
      ensures Decode(texts[i] + t) == Some((Outcomes(ops, done)[i], t))
    {
      ReplyRead(ops[i], done[i].res, t);
    }
    RepliesRead(texts, Outcomes(ops, done));
  }

  /** The execution that answered request `i`. */
  lemma AnsweredBy(req: Request, id: nat, log: seq<Service.Done>, text: seq<byte>, op: LossyMap.Op) returns (i: nat)
    requires Handled(req, id, log, text) && Dispatched(req) == Run(op)
    ensures i < |log| && Completes(log[i], id, op, text)
  {
    i :| 0 <= i < |log| && Completes(log[i], id, op, text);
  }

  lemma {:induction false} AllAnswered(ops: seq<LossyMap.Op>, s: Connection.Conn, base: nat, log: seq<Service.Done>, n: nat)
    returns (at: seq<nat>)
    requires n <= |ops| == |s.issued| == |s.replies| && HandledAll(s, base, log)
    requires forall i :: 0 <= i < |ops| ==> s.replies[i].Ready? && Dispatched(s.issued[i]) == Run(ops[i])
    ensures |at| == n
    ensures forall i :: 0 <= i < n ==> at[i] < |log| && Completes(log[at[i]], base + i, ops[i], s.replies[i].text)
  {
    if n == 0 {
      at := [];
    } else {
      at := AllAnswered(ops, s, base, log, n - 1);
      var i := AnsweredBy(s.issued[n - 1], base + n - 1, log, s.replies[n - 1].text, ops[n - 1]);
      at := at + [i];
    }
  }

  function Picked(log: seq<Service.Done>, at: seq<nat>): (r: seq<Service.Done>)
    requires forall i :: 0 <= i < |at| ==> at[i] < |log|
    ensures |r| == |at| && forall i :: 0 <= i < |at| ==> r[i] == log[at[i]]
  {
    seq(|at|, i requires 0 <= i < |at| => log[at[i]])
  }

  /** End to end, for every run: a client that writes operations, in any cut, on a connection
      whose handlers execute on the node reads, on a clean end, exactly one reply for each, in
      their order, and each tells the outcome of that operation's own execution. */
  lemma ClientReads(ops: seq<LossyMap.Op>, states: seq<Connection.Conn>, actions: seq<Connection.Action>, base: nat,
                    log: seq<Service.Done>)
    returns (at: seq<nat>)
    requires Sendable(ops) && Connection.IsRun(states, actions)
    requires var s := states[|actions|];
             s.wr.Exited? && Concat(s.input) == EncodeAll(ArgsOf(ops)) && HandledAll(s, base, log)
    ensures |at| == |ops|
    ensures forall i :: 0 <= i < |ops| ==> at[i] < |log| && log[at[i]].id == base + i && log[at[i]].ev.op == ops[i]
    ensures DecodeAll(states[|actions|].written) == Some(Outcomes(ops, Picked(log, at)))
  {
    var s := states[|actions|];
    Arrived(ops, states, actions, s);
    at := AllAnswered(ops, s, base, log, |ops|);
    var texts := seq(|ops|, i requires 0 <= i < |ops| => s.replies[i].text);
    TextIsConcat(s.replies, texts, |ops|);
    assert texts[..|ops|] == texts;
    OutcomesRead(ops, Picked(log, at), texts);
  }

  lemma Arrived(ops: seq<LossyMap.Op>, states: seq<Connection.Conn>, actions: seq<Connection.Action>, s: Connection.Conn)
    requires Sendable(ops) && Connection.IsRun(states, actions) && s == states[|actions|]
    requires s.wr.Exited? && Concat(s.input) == EncodeAll(ArgsOf(ops))
    ensures |s.issued| == |s.replies| == |ops| && s.written == Connection.Text(s.replies, |ops|)
    ensures forall i :: 0 <= i < |ops| ==> s.replies[i].Ready? && Dispatched(s.issued[i]) == Run(ops[i])
  {
    AllCommands(ops);
    ConnectionTheory.OneReplyPerCommand(ArgsOf(ops), states, actions, |actions|);
    OperationsArrive(ops, s.input);
    RoundTrip(ArgsOf(ops), s.input);
  }

  lemma AllCommands(ops: seq<LossyMap.Op>)
    requires Sendable(ops)
    ensures AreCommands(ArgsOf(ops))
  {
    forall i | 0 <= i < |ops| ensures IsCommand(ArgsOf(ops)[i]) {
      ArgsFit(ops[i]);
    }
  }

  /** And over every run of the node: a value the client reads is that of the last set of its key
      executed before, and was executed on the shard that owns the key. */
  lemma ClientHits<Id>(pools: seq<seq<Id>>, nodes: seq<Service.Node<Id>>, acts: seq<Service.Action<Id>>,
                       outs: seq<Option<Service.Done>>, env: Service.Env, ops: seq<LossyMap.Op>, at: seq<nat>, i: nat)
    returns (j: nat)
    requires Service.IsRun(pools, nodes, acts, outs, env)
    requires var log := Service.Log(outs, |outs|);
             && |at| == |ops| && (forall x :: 0 <= x < |ops| ==> at[x] < |log| && log[at[x]].ev.op == ops[x])
             && i < |ops| && Outcomes(ops, Picked(log, at))[i].Bulk?
    ensures var log := Service.Log(outs, |outs|);
            && ops[i].Get? && LossyMap.LastSet(Service.EventsOf(log), ops[i].k, j, at[i])
            && Outcomes(ops, Picked(log, at))[i] == Bulk(log[j].ev.op.v) && log[j].sid == env.Home(ops[i].k)
  {
    var ms, t;
    ms, j, t := Service.NodeHits(pools, nodes, acts, outs, env, at[i]);
  }

  // ---- and it can always be so ----

  /** `log` holds the executions of the first `n` operations, in order, at their times. */
  predicate InOrder(log: seq<Service.Done>, ops: seq<LossyMap.Op>, time: nat -> nat, n: nat)
  {
    |log| == n <= |ops| && forall i :: 0 <= i < n ==> log[i].id == i && log[i].ev == LossyMap.Event(ops[i], time(i))
  }

  /** A run of the node that has executed the first `n` operations and has nothing under way. */
  ghost predicate Executed<Id>(pools: seq<seq<Id>>, nodes: seq<Service.Node<Id>>, acts: seq<Service.Action<Id>>,
                               outs: seq<Option<Service.Done>>, env: Service.Env, ops: seq<LossyMap.Op>,
                               time: nat -> nat, n: nat)
  {
    && Service.IsRun(pools, nodes, acts, outs, env) && nodes[|acts|].inflight == []
    && InOrder(Service.Log(outs, |outs|), ops, time, n)
  }

  /** The message of the operation under way, if it was not executed at once. */
  ghost predicate Sent<Id>(pools: seq<seq<Id>>, nodes: seq<Service.Node<Id>>, acts: seq<Service.Action<Id>>,
                           outs: seq<Option<Service.Done>>, env: Service.Env, ops: seq<LossyMap.Op>,
                           time: nat -> nat, n: nat)
  {
    && Service.IsRun(pools, nodes, acts, outs, env) && n < |ops|
    && InOrder(Service.Log(outs, |outs|), ops, time, n)
    && var q := nodes[|acts|].inflight; |q| == 1 && q[0].id == n && q[0].op == ops[n]
  }

  lemma ReceiveMore<Id(!new)>(pools: seq<seq<Id>>, nodes: seq<Service.Node<Id>>, acts: seq<Service.Action<Id>>,
                              outs: seq<Option<Service.Done>>, env: Service.Env, ops: seq<LossyMap.Op>,
                              time: nat -> nat, n: nat, at: nat, mint: set<Id> -> Id)
    returns (nodes': seq<Service.Node<Id>>, acts': seq<Service.Action<Id>>, outs': seq<Option<Service.Done>>)
    requires Executed(pools, nodes, acts, outs, env, ops, time, n) && n < |ops| && ServiceProgress.Mints(mint)
    ensures Executed(pools, nodes', acts', outs', env, ops, time, n + 1) || Sent(pools, nodes', acts', outs', env, ops, time, n)
  {
    var out;
    nodes', acts', outs', out := ServiceProgress.ReceiveNext(pools, nodes, acts, outs, env, at, n, ops[n], time(n), mint);
  }

  lemma DeliverMore<Id(!new)>(pools: seq<seq<Id>>, nodes: seq<Service.Node<Id>>, acts: seq<Service.Action<Id>>,
                              outs: seq<Option<Service.Done>>, env: Service.Env, ops: seq<LossyMap.Op>,
                              time: nat -> nat, n: nat, mint: set<Id> -> Id)
    returns (nodes': seq<Service.Node<Id>>, acts': seq<Service.Action<Id>>, outs': seq<Option<Service.Done>>)
    requires Sent(pools, nodes, acts, outs, env, ops, time, n) && ServiceProgress.Mints(mint)
    ensures Executed(pools, nodes', acts', outs', env, ops, time, n + 1)
  {
    var d;
    nodes', acts', outs', d := ServiceProgress.DeliverFirst(pools, nodes, acts, outs, env, time(n), mint);
  }

  lemma {:induction false} ExecuteAll<Id(!new)>(pools: seq<seq<Id>>, env: Service.Env, ops: seq<LossyMap.Op>, time: nat -> nat,
                                                n: nat, at: nat -> nat, mint: set<Id> -> Id)
    returns (nodes: seq<Service.Node<Id>>, acts: seq<Service.Action<Id>>, outs: seq<Option<Service.Done>>)
    requires Service.Prepopulated(pools, env) && n <= |ops| && ServiceProgress.Mints(mint)
    ensures Executed(pools, nodes, acts, outs, env, ops, time, n)
  {
    if n == 0 {
      nodes, acts, outs := [Service.InitialNode(pools)], [], [];
    } else {
      nodes, acts, outs := ExecuteAll(pools, env, ops, time, n - 1, at, mint);
      nodes, acts, outs := ReceiveMore(pools, nodes, acts, outs, env, ops, time, n - 1, at(n - 1), mint);
      if !Executed(pools, nodes, acts, outs, env, ops, time, n) {
        nodes, acts, outs := DeliverMore(pools, nodes, acts, outs, env, ops, time, n - 1, mint);
      }
    }
  }

  lemma {:induction false} TextsAre(text: nat -> seq<byte>, texts: seq<seq<byte>>, n: nat)
    requires n <= |texts| && forall i :: 0 <= i < n ==> texts[i] == text(i)
    ensures ConnectionLiveness.Texts(text, n) == Concat(texts[..n])
  {
    if n == 0 {
    } else {
      TextsAre(text, texts, n - 1);
      ConcatSnoc(texts[..n - 1], texts[n - 1]);
      assert texts[..n - 1] + [texts[n - 1]] == texts[..n];
    }
  }

  /** For all operations, all cuts, all shards they are received on and all times: there is a run
      of the node from its fresh pools that executes them in order, and a run of the connection
      without any failure that ends cleanly, after which the client reads their outcomes. */
  lemma ClientServed<Id(!new)>(pools: seq<seq<Id>>, env: Service.Env, ops: seq<LossyMap.Op>, chunks: seq<seq<byte>>,
                               at: nat -> nat, time: nat -> nat, mint: set<Id> -> Id)
    returns (nodes: seq<Service.Node<Id>>, acts: seq<Service.Action<Id>>, outs: seq<Option<Service.Done>>,
             states: seq<Connection.Conn>, actions: seq<Connection.Action>)
    requires Service.Prepopulated(pools, env) && ServiceProgress.Mints(mint) && Sendable(ops)
    requires Concat(chunks) == EncodeAll(ArgsOf(ops)) && forall i :: 0 <= i < |chunks| ==> chunks[i] != []
    ensures Executed(pools, nodes, acts, outs, env, ops, time, |ops|)
    ensures Connection.IsRun(states, actions) && ConnectionLiveness.Clean(actions)
    ensures var s := states[|actions|];
            && s.wr.Exited? && s.input == chunks && s.flushed == |s.written|
            && DecodeAll(s.written) == Some(Outcomes(ops, Service.Log(outs, |outs|)))
  {
    nodes, acts, outs := ExecuteAll(pools, env, ops, time, |ops|, at, mint);
    var log := Service.Log(outs, |outs|);
    var texts := seq(|ops|, i requires 0 <= i < |ops| => ReplyText(ops[i], log[i].res));
    var text: nat -> seq<byte> := (i: nat) => if i < |texts| then texts[i] else [];
    AllCommands(ops);
    states, actions := ConnectionLiveness.CommandsAnswered(ArgsOf(ops), chunks, text);
    TextsAre(text, texts, |ops|);
    assert texts[..|ops|] == texts;
    OutcomesRead(ops, log, texts);
  }
}
