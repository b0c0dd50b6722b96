/** What a connection can always still do: answer and flush everything it has read, end cleanly,
    or be cut off after any byte. */
module ConnectionLiveness {
  import opened Bytes
  import opened RespStream
  import opened RespRoundTrip
  import opened Connection
  import opened ConnectionTheory

  /** The text of the reply to request number `i`. */
  type Answers = nat -> seq<byte>

  /** Steps of the two loops and of handlers that succeed: no input, no failure. */
  predicate Regular(a: Action)
  {
    a.Parse? || a.Issue? || (a.Settle? && a.reply.Ready?) || a.Test? || a.Receive? || a.Wrote? || a.Flushed?
  }

  /** No handler has failed, and replies that are there say what `text` says. */
  ghost predicate Answering(s: Conn, text: Answers)
  {
    forall j :: 0 <= j < |s.replies| ==> s.replies[j] == Pending || s.replies[j] == Ready(text(j))
  }

  /** Both loops wait for input, or have ended. */
  predicate Rested(s: Conn) { (s.rd.Reading? || s.rd.Done?) && (s.wr.Sleeping? || s.wr.Exited?) }

  /** Unless both loops are at rest, one of them or a handler can go on without failing. */
  lemma CanStep(s: Conn, text: Answers) returns (a: Action)
    requires Protocol(s) && s.ctl.Ok() && !s.wr.Aborted? && Answering(s, text) && !Rested(s)
    ensures Enabled(s, a) && Regular(a) && (a.Settle? ==> a.reply == Ready(text(a.i)))
  {
    match s.wr
    case Check => a := Test;
    case Awaiting(i) => a := if s.replies[i].Pending? then Settle(i, Ready(text(i))) else Receive;
    case Writing(_) => a := Wrote;
    case Flushing => a := Flushed;
    case _ => a := if s.rd.Parsing? then Parse else Issue;
  }

  lemma RegularKeeps(s: Conn, a: Action, text: Answers)
    requires Inv(s) && !s.wr.Aborted? && Answering(s, text)
    requires Enabled(s, a) && Regular(a) && (a.Settle? ==> a.reply == Ready(text(a.i)))
    ensures var r := Next(s, a);
            && Inv(r) && !r.wr.Aborted? && Answering(r, text) && Work(r) < Work(s)
            && r.input == s.input && r.eof == s.eof
  {
    NextKeeps(s, a);
    WorkDecreases(s, a);
    RegularFrame(s, a, text);
  }

  lemma RegularFrame(s: Conn, a: Action, text: Answers)
    requires Queued(s) && !s.wr.Aborted? && Answering(s, text)
    requires Enabled(s, a) && Regular(a) && (a.Settle? ==> a.reply == Ready(text(a.i)))
    ensures var r := Next(s, a); !r.wr.Aborted? && Answering(r, text) && r.input == s.input && r.eof == s.eof
  {
  }

  /** `actions` begin with `before` and are regular from there on. */
  predicate RegularSince(before: seq<Action>, actions: seq<Action>)
  {
    before <= actions && forall i :: |before| <= i < |actions| ==> Regular(actions[i])
  }

  lemma RegularOn(before: seq<Action>, a: Action, actions: seq<Action>)
    requires Regular(a) && RegularSince(before + [a], actions)
    ensures RegularSince(before, actions)
  {
    assert actions[|before|] == (before + [a])[|before|] == a;
  }

  /** From `s`, the end of `states`, regular steps lead to rest. */
  lemma {:induction false} Settles(s: Conn, states: seq<Conn>, actions: seq<Action>, text: Answers)
    returns (states': seq<Conn>, actions': seq<Action>)
    requires Leads(states, actions) && states[|actions|] == s
    requires Inv(s) && !s.wr.Aborted? && Answering(s, text)
    ensures Leads(states', actions') && states <= states' && RegularSince(actions, actions')
    ensures var r := states'[|actions'|];
            Inv(r) && Rested(r) && Answering(r, text) && r.input == s.input && r.eof == s.eof
    decreases Work(s)
  {
    if Rested(s) {
      states', actions' := states, actions;
    } else {
      var a := CanStep(s, text);
      RegularKeeps(s, a, text);
      LeadsOn(states, actions, a);
      states', actions' := Settles(Next(s, a), states + [Next(s, a)], actions + [a], text);
      RegularOn(actions, a, actions');
    }
  }

  /** The first `n` texts, one after the other. */
  function Texts(text: Answers, n: nat): (r: seq<byte>)
  {
    if n == 0 then [] else Texts(text, n - 1) + text(n - 1)
  }

  lemma {:induction false} TextIs(replies: seq<Reply>, text: Answers, n: nat)
    requires n <= |replies| && forall j :: 0 <= j < n ==> replies[j] == Ready(text(j))
    ensures Text(replies, n) == Texts(text, n)
  {
    if n == 0 {
    } else {
      TextIs(replies, text, n - 1);
    }
  }

  /** At rest every request read has been issued, answered and flushed. */
  lemma RestedAnswered(s: Conn, text: Answers)
    requires Inv(s) && Rested(s) && Answering(s, text)
    ensures s.issued == Session(NeedStar, [], s.input).outs
    ensures s.written == Texts(text, |s.issued|) && s.flushed == |s.written|
    ensures s.wr.Exited? <==> s.eof
    ensures s.rd.Reading? <==> !s.eof
  {
    JoinAssoc(s.issued, [], []);
    TextIs(s.replies, text, |s.replies|);
  }

  /** Everything is as it should be after a clean end. */
  ghost predicate Complete(s: Conn, text: Answers)
  {
    && s.issued == Session(NeedStar, [], s.input).outs
    && s.written == Texts(text, |s.issued|) && s.flushed == |s.written|
  }

  /** From every reachable state that is not aborted, with handlers that answer `text`, the
      connection can go on to answer and flush everything it has read, in order; it needs no
      more input for that and nothing has to fail. */
  lemma CanAnswer(states: seq<Conn>, actions: seq<Action>, text: Answers)
    returns (states': seq<Conn>, actions': seq<Action>)
    requires IsRun(states, actions)
    requires var s := states[|actions|]; !s.wr.Aborted? && Answering(s, text)
    ensures IsRun(states', actions') && RegularSince(actions, actions')
    ensures var r := states'[|actions'|];
            r.input == states[|actions|].input && Complete(r, text) && Rested(r)
  {
    var s := states[|actions|];
    RunKeeps(states, actions, |actions|);
    states', actions' := Settles(s, states, actions, text);
    assert states'[0] == states[0];
    RestedAnswered(states'[|actions'|], text);
  }

  /** Neither a failure nor a spurious wake-up. */
  predicate Clean(actions: seq<Action>)
  {
    forall i :: 0 <= i < |actions| ==> Regular(actions[i]) || actions[i].Read? || actions[i].ReadEnds?
  }

  lemma CleanOn(before: seq<Action>, actions: seq<Action>)
    requires Clean(before) && RegularSince(before, actions)
    ensures Clean(actions)
  {
    forall i | 0 <= i < |actions|
      ensures Regular(actions[i]) || actions[i].Read? || actions[i].ReadEnds?
    {
      if i < |before| {
        assert actions[i] == before[i];
      }
    }
  }

  lemma CleanMore(actions: seq<Action>, a: Action)
    requires Clean(actions) && (a.Read? || a.ReadEnds?)
    ensures Clean(actions + [a])
  {
  }

  /** A run that has read `chunks` and is at rest before the next one. */
  ghost predicate Serving(states: seq<Conn>, actions: seq<Action>, chunks: seq<seq<byte>>, text: Answers)
  {
    && IsRun(states, actions) && Clean(actions)
    && var s := states[|actions|];
       Inv(s) && Rested(s) && s.rd.Reading? && !s.eof && Answering(s, text) && s.input == chunks
  }

  lemma {:induction false} CanServe(chunks: seq<seq<byte>>, text: Answers) returns (states: seq<Conn>, actions: seq<Action>)
    requires forall i :: 0 <= i < |chunks| ==> chunks[i] != []
    ensures Serving(states, actions, chunks, text)
  {
    if chunks == [] {
      RunKeeps([INITIAL], [], 0);
      states, actions := Settles(INITIAL, [INITIAL], [], text);
      CleanOn([], actions);
      RestedAnswered(states[|actions|], text);
    } else {
      var n := |chunks| - 1;
      states, actions := CanServe(chunks[..n], text);
      states, actions := ServeMore(states, actions, chunks[..n], chunks[n], text);
      assert chunks[..n] + [chunks[n]] == chunks;
    }
  }

  lemma ServeMore(states: seq<Conn>, actions: seq<Action>, chunks: seq<seq<byte>>, chunk: seq<byte>, text: Answers)
    returns (states': seq<Conn>, actions': seq<Action>)
    requires Serving(states, actions, chunks, text) && chunk != []
    ensures Serving(states', actions', chunks + [chunk], text)
  {
    var s, a := states[|actions|], Read(chunk);
    var r := Next(s, a);
    NextKeeps(s, a);
    LeadsOn(states, actions, a);
    states', actions' := Settles(r, states + [r], actions + [a], text);
    assert states'[0] == (states + [r])[0] == states[0];
    CleanMore(actions, a);
    CleanOn(actions + [a], actions');
    RestedAnswered(states'[|actions'|], text);
  }

  /** Whatever a client sends, in whatever cut, and whatever the handlers answer: there is a run
      without any failure that reads it all, writes exactly the answers in order, flushes them
      and ends cleanly. */
  lemma CanFinish(chunks: seq<seq<byte>>, text: Answers) returns (states: seq<Conn>, actions: seq<Action>)
    requires forall i :: 0 <= i < |chunks| ==> chunks[i] != []
    ensures IsRun(states, actions) && Clean(actions)
    ensures var s := states[|actions|]; s.wr.Exited? && s.input == chunks && Complete(s, text)
  {
    states, actions := CanServe(chunks, text);
    var s := states[|actions|];
    var r := Next(s, ReadEnds);
    var before := states;
    NextKeeps(s, ReadEnds);
    LeadsOn(states, actions, ReadEnds);
    CleanMore(actions, ReadEnds);
    var actions1 := actions + [ReadEnds];
    states, actions := Settles(r, states + [r], actions1, text);
    assert states[0] == (before + [r])[0] == before[0];
    CleanOn(actions1, actions);
    RestedAnswered(states[|actions|], text);
  }

  /** In particular for commands: one reply each, in order. */
  lemma CommandsAnswered(cmds: seq<seq<seq<byte>>>, chunks: seq<seq<byte>>, text: Answers)
    returns (states: seq<Conn>, actions: seq<Action>)
    requires AreCommands(cmds) && Concat(chunks) == EncodeAll(cmds)
    requires forall i :: 0 <= i < |chunks| ==> chunks[i] != []
    ensures IsRun(states, actions) && Clean(actions)
    ensures var s := states[|actions|];
            && s.wr.Exited? && s.input == chunks && s.issued == Requests(cmds)
            && s.written == Texts(text, |cmds|) && s.flushed == |s.written|
  {
    states, actions := CanFinish(chunks, text);
    RoundTrip(cmds, chunks);
  }

  // ---- cut off anywhere ----

  lemma WrittenGrows(s: Conn, a: Action, w: seq<byte>)
    requires Protocol(s) && Enabled(s, a) && !a.WriteFails?
    requires s.written <= w && !(Next(s, a).written <= w) && w <= Next(s, a).written
    ensures var cut := WriteFails(|w| - |s.written|);
            Enabled(s, cut) && Next(s, cut).wr.Aborted? && Next(s, cut).written == w
  {
    assert a.Wrote?;
    var text := s.replies[s.wr.i].text;
    assert w == s.written + text[..|w| - |s.written|];
  }

  /** The last state of a run up to which not more than `w` has been written. */
  lemma {:induction false} FirstBeyond(states: seq<Conn>, actions: seq<Action>, w: seq<byte>, n: nat) returns (i: nat)
    requires IsRun(states, actions) && Clean(actions) && n <= |actions|
    requires w < states[n].written
    ensures i < n && states[i].written <= w && !(states[i + 1].written <= w) && w <= states[i + 1].written
  {
    if n == 0 {
      assert false;
    }
    RunKeeps(states, actions, n - 1);
    CleanWrites(states[n - 1], actions[n - 1]);
    if w < states[n - 1].written {
      i := FirstBeyond(states, actions, w, n - 1);
    } else {
      i := n - 1;
      PrefixOrder(states[n - 1].written, w, states[n].written);
    }
  }

  lemma PrefixOrder<T>(a: seq<T>, b: seq<T>, whole: seq<T>)
    requires a <= whole && b <= whole
    ensures a <= b || b < a
  {
    if |a| <= |b| {
      assert a == whole[..|a|] == b[..|a|];
    } else {
      assert b == whole[..|b|] == a[..|b|];
    }
  }

  lemma CleanWrites(s: Conn, a: Action)
    requires Enabled(s, a) && (Regular(a) || a.Read? || a.ReadEnds?)
    ensures s.written <= Next(s, a).written
  {
  }

  lemma {:induction false} PrefixChain<T>(parts: seq<seq<T>>, i: nat, n: nat)
    requires i <= n < |parts| && forall j: nat, k: nat :: j + 1 == k < |parts| ==> parts[j] <= parts[k]
    ensures parts[i] <= parts[n]
  {
    if i == n {
    } else {
      PrefixChain(parts, i, n - 1);
    }
  }

  lemma InputGrows(states: seq<Conn>, actions: seq<Action>, i: nat, n: nat)
    requires IsRun(states, actions) && i <= n <= |actions|
    ensures states[i].input <= states[n].input
  {
    var parts := seq(|states|, j requires 0 <= j < |states| => states[j].input);
    forall j: nat, k: nat | j + 1 == k < |parts|
      ensures parts[j] <= parts[k]
    {
      InputStep(states[j], actions[j]);
    }
    PrefixChain(parts, i, n);
  }

  lemma InputStep(s: Conn, a: Action)
    requires Enabled(s, a)
    ensures s.input <= Next(s, a).input
  {
  }

  lemma LeadsUpTo(states: seq<Conn>, actions: seq<Action>, i: nat)
    requires IsRun(states, actions) && i <= |actions|
    ensures IsRun(states[..i + 1], actions[..i])
  {
  }

  /** The run up to its state `i`, and then step `a`. */
  lemma Branch(states: seq<Conn>, actions: seq<Action>, i: nat, a: Action) returns (states': seq<Conn>, actions': seq<Action>)
    requires IsRun(states, actions) && i <= |actions| && Enabled(states[i], a)
    ensures IsRun(states', actions') && states'[|actions'|] == Next(states[i], a)
  {
    LeadsUpTo(states, actions, i);
    LeadsOn(states[..i + 1], actions[..i], a);
    states', actions' := states[..i + 1] + [Next(states[i], a)], actions[..i] + [a];
  }

  /** A connection can be cut off after any byte: for every proper prefix of the answers there is
      a run on the same input in which exactly that prefix has been written when a write fails. */
  lemma CanBreak(chunks: seq<seq<byte>>, text: Answers, w: seq<byte>) returns (states: seq<Conn>, actions: seq<Action>)
    requires forall i :: 0 <= i < |chunks| ==> chunks[i] != []
    requires w < Texts(text, |Session(NeedStar, [], chunks).outs|)
    ensures IsRun(states, actions)
    ensures var s := states[|actions|]; s.wr.Aborted? && s.written == w && s.input <= chunks
  {
    states, actions := CanFinish(chunks, text);
    var i := FirstBeyond(states, actions, w, |actions|);
    RunKeeps(states, actions, i);
    WrittenGrows(states[i], actions[i], w);
    InputGrows(states, actions, i, |actions|);
    states, actions := Branch(states, actions, i, WriteFails(|w| - |states[i].written|));
  }

  lemma FlushSteps(s: Conn, a: Action, n: nat)
    requires Enabled(s, a) && s.flushed < n && Next(s, a).flushed == n
    ensures Enabled(s, FlushFails) && Next(s, FlushFails).wr.Aborted?
    ensures |s.written| == n && Next(s, FlushFails).written == s.written && Next(s, FlushFails).flushed == s.flushed
  {
  }

  lemma {:induction false} LastFlush(states: seq<Conn>, actions: seq<Action>, m: nat, n: nat) returns (i: nat)
    requires IsRun(states, actions) && n <= |actions| && states[n].flushed == m > 0
    requires forall j :: 0 <= j <= n ==> states[j].flushed <= m
    ensures i < n && states[i].flushed < m && states[i + 1].flushed == m
  {
    if n == 0 {
      assert false;
    }
    if states[n - 1].flushed == m {
      i := LastFlush(states, actions, m, n - 1);
    } else {
      i := n - 1;
    }
  }

  lemma {:induction false} FlushedBelow(states: seq<Conn>, actions: seq<Action>, n: nat)
    requires IsRun(states, actions) && Clean(actions) && n <= |actions|
    ensures forall j :: 0 <= j <= n ==> states[j].flushed <= |states[n].written|
  {
    RunKeeps(states, actions, n);
    if n == 0 {
    } else {
      FlushedBelow(states, actions, n - 1);
      CleanWrites(states[n - 1], actions[n - 1]);
    }
  }

  /** The flush of the last answer can fail: all has been written then, and not all has left. */
  lemma CanLoseFlush(chunks: seq<seq<byte>>, text: Answers) returns (states: seq<Conn>, actions: seq<Action>)
    requires forall i :: 0 <= i < |chunks| ==> chunks[i] != []
    requires Texts(text, |Session(NeedStar, [], chunks).outs|) != []
    ensures IsRun(states, actions)
    ensures var s := states[|actions|];
            && s.wr.Aborted? && s.flushed < |s.written| && s.input <= chunks
            && |s.written| == |Texts(text, |Session(NeedStar, [], chunks).outs|)|
  {
    states, actions := CanFinish(chunks, text);
    var m := states[|actions|].flushed;
    FlushedBelow(states, actions, |actions|);
    var i := LastFlush(states, actions, m, |actions|);
    FlushSteps(states[i], actions[i], m);
    InputGrows(states, actions, i, |actions|);
    states, actions := Branch(states, actions, i, FlushFails);
  }
}
