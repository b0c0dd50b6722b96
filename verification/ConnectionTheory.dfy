/** What the invariant of a connection gives over whole runs: ordered replies, conserved
    slots, no deadlock, bounded work, and the way an aborted connection can hang. */
module ConnectionTheory {
  import opened Bytes
  import opened RespStream
  import opened RespWriter
  import opened RespRoundTrip
  import opened Connection

  // ---- replies ----

  lemma {:induction false} TextMonotone(replies: seq<Reply>, m: nat, n: nat)
    requires m <= n <= |replies|
    ensures Text(replies, m) <= Text(replies, n)
  {
    if m == n {
    } else {
      TextMonotone(replies, m, n - 1);
    }
  }

  /** Whatever order the handlers finish in, the bytes written are the replies of a prefix of
      the requests in the order of the requests, each once, and after an abort possibly a
      part of the next; the requests are those extracted from the bytes read. */
  lemma RepliesInOrder(states: seq<Conn>, actions: seq<Action>, i: nat)
    requires IsRun(states, actions) && i < |states|
    ensures var s := states[i];
            && s.answered <= |s.replies| == |s.issued|
            && (forall j :: 0 <= j < s.answered ==> s.replies[j].Ready?)
            && Text(s.replies, s.answered) <= s.written <= Text(s.replies, |s.replies|)
            && (!s.wr.Aborted? ==> s.written == Text(s.replies, s.answered))
            && s.issued <= Session(NeedStar, [], s.input).outs
  {
    RunKeeps(states, actions, i);
    var s := states[i];
    TextMonotone(s.replies, s.answered, |s.replies|);
    if s.answered < |s.replies| {
      TextMonotone(s.replies, s.answered + 1, |s.replies|);
    }
    IssuedPrefix(s);
  }

  lemma IssuedPrefix(s: Conn)
    requires Faithful(s)
    ensures s.issued <= Session(NeedStar, [], s.input).outs
  {
  }

  /** A write loop that ended cleanly has written and flushed the reply of every request in
      the bytes read. */
  lemma CleanExit(states: seq<Conn>, actions: seq<Action>, i: nat)
    requires IsRun(states, actions) && i < |states| && states[i].wr.Exited?
    ensures var s := states[i];
            && s.issued == Session(NeedStar, [], s.input).outs
            && s.answered == |s.issued| == |s.replies|
            && s.written == Text(s.replies, |s.replies|) && s.flushed == |s.written|
  {
    RunKeeps(states, actions, i);
    JoinAssoc(states[i].issued, [], []);
  }

  /** Whenever the write loop sleeps, everything issued so far is answered and flushed. */
  lemma NothingUnflushed(states: seq<Conn>, actions: seq<Action>, i: nat)
    requires IsRun(states, actions) && i < |states| && states[i].wr.Sleeping?
    ensures var s := states[i];
            && s.queue == [] && s.answered == |s.issued|
            && s.written == Text(s.replies, |s.replies|) && s.flushed == |s.written|
  {
    RunKeeps(states, actions, i);
  }

  /** End to end: a client that sends written commands, cut into chunks in any way, and
      closes gets, on a clean end, exactly one reply per command and in their order. */
  lemma OneReplyPerCommand(cmds: seq<seq<seq<byte>>>, states: seq<Conn>, actions: seq<Action>, i: nat)
    requires IsRun(states, actions) && i < |states| && states[i].wr.Exited?
    requires AreCommands(cmds) && Concat(states[i].input) == EncodeAll(cmds)
    ensures var s := states[i];
            && s.issued == Requests(cmds) && |s.replies| == |cmds|
            && (forall j :: 0 <= j < |cmds| ==> s.replies[j].Ready?)
            && s.written == Text(s.replies, |cmds|) && s.flushed == |s.written|
  {
    CleanExit(states, actions, i);
    RepliesInOrder(states, actions, i);
    RoundTrip(cmds, states[i].input);
  }

  /** A written reply is flushed exactly when no other is waiting to be written; otherwise the
      flush is left to a later one, and the slot is given back at once. */
  lemma FlushedTogether(states: seq<Conn>, actions: seq<Action>, i: nat)
    requires IsRun(states, actions) && i < |actions| && actions[i].Wrote?
    ensures var s, r := states[i], states[i + 1];
            if |s.issued| == s.answered + 1 then r.wr.Flushing? && r.slots == s.slots
            else r.wr.Check? && r.slots + r.rd.Held() == s.slots + s.rd.Held() + 1
  {
    RunKeeps(states, actions, i);
  }

  // ---- slots ----

  /** Slots are conserved: free, granted, queued and in the writer's hand make 1024, and 2047
      once the write loop has given up; so many requests at most are in flight. */
  lemma SlotsConserved(states: seq<Conn>, actions: seq<Action>, i: nat)
    requires IsRun(states, actions) && i < |states|
    ensures var s := states[i];
            && s.slots + s.rd.Held() + |s.queue| + s.wr.Held()
               == (if s.wr.Aborted? then 2047 else 1024)
            && |s.issued| - s.answered <= (if s.wr.Aborted? then 2048 else 1024)
  {
    RunKeeps(states, actions, i);
  }

  // ---- no deadlock ----

  /** A reader waits for a slot only while the write loop is at work on all of them; the
      write loop sleeps only while the reader can still wake it. */
  lemma NoDeadlock(states: seq<Conn>, actions: seq<Action>, i: nat)
    requires IsRun(states, actions) && i < |states| && !states[i].wr.Aborted?
    ensures var s := states[i];
            && (s.rd.WaitSlot? ==> |s.queue| + s.wr.Held() == 1024 && !s.wr.Sleeping? && !s.wr.Exited?)
            && (s.wr.Sleeping? ==> s.rd.Reading? || s.rd.Parsing? || s.rd.Granted?)
            && (s.wr.Exited? ==> s.rd.Done?)
  {
    RunKeeps(states, actions, i);
  }

  /** Steps that need more input or a spurious wake-up. */
  predicate External(a: Action) { a.Read? || a.ReadEnds? || a.Wake? }

  /** Nothing can happen any more without more input. */
  ghost predicate Quiet(s: Conn) { forall a :: Enabled(s, a) ==> External(a) }

  /** A connection that has come to rest has answered and flushed every request it has read. */
  lemma QuietMeansAnswered(states: seq<Conn>, actions: seq<Action>, i: nat)
    requires IsRun(states, actions) && i < |states| && !states[i].wr.Aborted? && Quiet(states[i])
    ensures var s := states[i];
            && s.issued == Session(NeedStar, [], s.input).outs && s.answered == |s.issued|
            && s.written == Text(s.replies, |s.replies|) && s.flushed == |s.written|
  {
    RunKeeps(states, actions, i);
    AtRest(states[i]);
    JoinAssoc(states[i].issued, [], []);
  }

  lemma AtRest(s: Conn)
    requires Protocol(s) && s.ctl.Ok() && !s.wr.Aborted? && Quiet(s)
    ensures (s.rd.Reading? || s.rd.Done?) && (s.wr.Sleeping? || s.wr.Exited?)
  {
    assert Enabled(s, Parse) ==> External(Parse);
    assert Enabled(s, Issue) ==> External(Issue);
    assert Enabled(s, Test) ==> External(Test);
    assert Enabled(s, GiveUp) ==> External(GiveUp);
    assert Enabled(s, Wrote) ==> External(Wrote);
    assert Enabled(s, Flushed) ==> External(Flushed);
  }

  // ---- bounded work ----

  function Pendings(replies: seq<Reply>): (n: nat)
  {
    if replies == [] then 0
    else Pendings(replies[..|replies| - 1]) + (if replies[|replies| - 1].Pending? then 1 else 0)
  }

  function ReaderRank(rd: Reader): nat
  {
    match rd
    case Done => 0
    case Reading => 2
    case Parsing => 3
    case Granted(_) => 10
    case WaitSlot(_) => 11
  }

  function WriterRank(wr: Writer): nat
  {
    match wr
    case Exited => 0
    case Aborted => 0
    case Sleeping => 1
    case Check => 2
    case Flushing => 3
    case Writing(_) => 4
    case Awaiting(_) => 5
  }

  function Buffered(s: Conn): nat { |s.ctl.Scanned()| + |s.rest| }

  /** An upper bound on the steps still to come without more input or spurious wake-ups. */
  function Work(s: Conn): (w: nat)
  {
    9 * Buffered(s) + ReaderRank(s.rd) + 4 * |s.queue| + Pendings(s.replies) + WriterRank(s.wr)
  }

  lemma {:induction false} PendingSettled(replies: seq<Reply>, i: nat, reply: Reply)
    requires i < |replies| && replies[i].Pending? && !reply.Pending?
    ensures Pendings(replies[i := reply]) + 1 == Pendings(replies)
  {
    var last := |replies| - 1;
    if i < last {
      PendingSettled(replies[..last], i, reply);
      assert replies[i := reply][..last] == replies[..last][i := reply];
    } else {
      assert replies[i := reply][..last] == replies[..last];
    }
  }

  lemma ParseShrinks(s: Conn)
    requires s.rd.Parsing? && s.ctl.Ok()
    ensures Work(Parsed(s)) < Work(s)
  {
    ExtractConserves(s.ctl, s.rest);
  }

  /** Every step but a read and a spurious wake-up uses up work. */
  lemma WorkDecreases(s: Conn, a: Action)
    requires Enabled(s, a) && !a.Read? && !a.Wake?
    ensures Work(Next(s, a)) < Work(s)
  {
    if a.Parse? {
      ParseShrinks(s);
    } else if a.Settle? {
      PendingSettled(s.replies, a.i, a.reply);
    } else if a.Issue? {
      assert (s.replies + [Pending])[..|s.replies|] == s.replies;
    }
  }

  lemma StepWorks(states: seq<Conn>, actions: seq<Action>, i: nat)
    requires IsRun(states, actions) && i < |actions| && !actions[i].Read? && !actions[i].Wake?
    ensures Work(states[i + 1]) < Work(states[i])
  {
    WorkDecreases(states[i], actions[i]);
  }

  /** So between two reads only so many steps fit, and the connection comes to rest. */
  lemma {:induction false} ComesToRest(states: seq<Conn>, actions: seq<Action>, i: nat, j: nat)
    requires IsRun(states, actions) && i <= j < |states|
    requires forall t :: i <= t < j ==> !actions[t].Read? && !actions[t].Wake?
    ensures j - i <= Work(states[i]) - Work(states[j])
  {
    if i == j {
    } else {
      ComesToRest(states, actions, i, j - 1);
      StepWorks(states, actions, j - 1);
    }
  }

  // ---- after an abort ----

  lemma WaitsOn(s: Conn, a: Action)
    requires s.wr.Aborted? && s.rd.WaitSlot? && Enabled(s, a)
    ensures Next(s, a).wr.Aborted? && Next(s, a).rd == s.rd
  {
  }

  /** A reader that waits for a slot after the write loop has given up waits forever: whatever
      happens then, it neither ends nor takes another request. */
  lemma {:induction false} AbortedWaitsForever(states: seq<Conn>, actions: seq<Action>, i: nat, j: nat)
    requires IsRun(states, actions) && i <= j < |states|
    requires states[i].wr.Aborted? && states[i].rd.WaitSlot?
    ensures states[j].wr.Aborted? && states[j].rd == states[i].rd
  {
    if i == j {
    } else {
      AbortedWaitsForever(states, actions, i, j - 1);
      WaitsOn(states[j - 1], actions[j - 1]);
    }
  }

  lemma AbortedOn(s: Conn, a: Action)
    requires s.wr.Aborted? && Enabled(s, a)
    ensures Next(s, a).wr.Aborted? && Popped(Next(s, a)) == Popped(s)
  {
  }

  lemma {:induction false} AbortedStays(states: seq<Conn>, actions: seq<Action>, i: nat, j: nat)
    requires IsRun(states, actions) && i <= j < |states| && states[i].wr.Aborted?
    ensures states[j].wr.Aborted? && Popped(states[j]) == Popped(states[i])
  {
    if i == j {
    } else {
      AbortedStays(states, actions, i, j - 1);
      AbortedOn(states[j - 1], actions[j - 1]);
    }
  }

  /** The requests that have a slot or still find one. */
  function Room(s: Conn): (n: nat) { |s.issued| + s.rd.Held() + s.slots }

  lemma SettledOuts(s: Conn)
    requires Faithful(s)
    ensures |s.issued| + |s.rd.InHand()| <= |Session(NeedStar, [], s.input).outs|
    ensures s.rd.Reading? || s.rd.Done? ==> |Session(NeedStar, [], s.input).outs| == |s.issued|
  {
  }

  lemma RoomLeft(s: Conn, t: Conn)
    requires Slots(s) && Slots(t) && s.wr.Aborted? && t.wr.Aborted? && Popped(s) == Popped(t)
    ensures t.rd.WaitSlot? <==> |t.issued| + |t.rd.InHand()| > Room(s)
  {
  }

  lemma ReaderAtRest(s: Conn)
    requires Quiet(s) && s.ctl.Ok()
    ensures s.rd.Reading? || s.rd.WaitSlot? || s.rd.Done?
  {
    assert !Enabled(s, Parse) && !Enabled(s, Issue);
  }

  /** Exactly when an aborted connection hangs, at any time after the abort and however the
      requests arrive: when more of them have been extracted than had room at the abort. Come
      to rest, it hangs exactly when the bytes received hold more than that. */
  lemma WaitsIff(states: seq<Conn>, actions: seq<Action>, i: nat, j: nat)
    requires IsRun(states, actions) && i <= j < |states| && states[i].wr.Aborted?
    ensures var s, room := states[j], Room(states[i]);
            && s.wr.Aborted?
            && (s.rd.WaitSlot? <==> |s.issued| + |s.rd.InHand()| > room)
            && (s.rd.WaitSlot? ==> |Session(NeedStar, [], s.input).outs| > room)
            && (Quiet(s) ==> (s.rd.WaitSlot? <==> |Session(NeedStar, [], s.input).outs| > room))
  {
    RunKeeps(states, actions, i);
    RunKeeps(states, actions, j);
    AbortedStays(states, actions, i, j);
    RoomLeft(states[i], states[j]);
    SettledOuts(states[j]);
    if Quiet(states[j]) {
      ReaderAtRest(states[j]);
    }
  }

  lemma LeadsOn(states: seq<Conn>, actions: seq<Action>, a: Action)
    requires Leads(states, actions) && Enabled(states[|actions|], a)
    ensures Leads(states + [Next(states[|actions|], a)], actions + [a])
  {
    var states', actions' := states + [Next(states[|actions|], a)], actions + [a];
    forall i | 0 <= i < |actions'|
      ensures Enabled(states'[i], actions'[i]) && states'[i + 1] == Next(states'[i], actions'[i])
    {
      if i < |actions| {
        assert states'[i] == states[i] && actions'[i] == actions[i] && states'[i + 1] == states[i + 1];
      } else {
        assert states'[i] == states[|actions|] && actions'[i] == a;
      }
    }
  }

  /** The reader of an aborted connection on its own, from before extracting until it stops. */
  function Advance(s: Conn): (r: Conn)
    requires s.wr.Aborted? && s.rd.Parsing? && s.ctl.Ok()
    decreases Buffered(s)
  {
    var s1 := Parsed(s);
    if s1.rd.Granted? then Advance(Issued(s1)) else s1
  }

  /** Exactly when it hangs: when the buffer holds more requests than there are slots. */
  lemma {:induction false} HangsIff(s: Conn)
    requires s.wr.Aborted? && s.rd.Parsing? && s.ctl.Ok()
    ensures Advance(s).wr.Aborted?
    ensures Advance(s).rd.WaitSlot? <==> |Drain(s.ctl, s.rest).outs| > s.slots
    ensures !Advance(s).rd.WaitSlot? ==> Advance(s).rd.Reading?
    decreases Buffered(s)
  {
    var s1 := Parsed(s);
    if !s1.rd.Granted? {
    } else {
      HangsIff(Issued(s1));
    }
  }

  lemma {:induction false} AdvanceLeads(s: Conn, states: seq<Conn>, actions: seq<Action>)
    returns (states': seq<Conn>, actions': seq<Action>)
    requires s.wr.Aborted? && s.rd.Parsing? && s.ctl.Ok()
    requires Leads(states, actions) && states[|actions|] == s
    ensures Leads(states', actions') && states'[0] == states[0] && states'[|actions'|] == Advance(s)
    decreases Buffered(s)
  {
    LeadsOn(states, actions, Parse);
    var s1 := Parsed(s);
    states', actions' := states + [s1], actions + [Parse];
    if !s1.rd.Granted? {
    } else {
      LeadsOn(states', actions', Issue);
      states', actions' := AdvanceLeads(Issued(s1), states' + [Issued(s1)], actions' + [Issue]);
    }
  }

  /** The first of `cmds` is extracted. */
  lemma FirstExtracted(cmds: seq<seq<seq<byte>>>) returns (s: Conn)
    requires AreCommands(cmds) && cmds != []
    ensures EncodeAll(cmds) != []
    ensures s == Next(INITIAL, Read(EncodeAll(cmds))) && s.ctl == NeedStar
    ensures s.rd == Parsing && s.wr == Check && s.slots == MAX_INFLIGHT
    ensures s.queue == [] && s.issued == [] && s.replies == []
    ensures Extract(s.ctl, s.rest) == Output(Request(EncodeArray(cmds[0]), cmds[0]), EncodeAll(cmds[1..]))
  {
    CommandExtracted(cmds[0], EncodeAll(cmds[1..]));
    assert [] + EncodeAll(cmds) == EncodeAll(cmds);
    s := Next(INITIAL, Read(EncodeAll(cmds)));
    RequestHeader(cmds[0]);
  }

  lemma RequestHeader(argv: seq<seq<byte>>)
    ensures EncodeArray(argv) != []
  {
  }

  lemma ParsesFirst(s: Conn, req: Request, left: seq<byte>)
    requires s.ctl.Ok() && Extract(s.ctl, s.rest) == Output(req, left) && s.slots > 0
    ensures Parsed(s) == s.(ctl := NeedStar, rest := left, rd := Granted(req), slots := s.slots - 1)
  {
  }

  /** One request goes out and its handler is given up on. */
  lemma GivenUp(states: seq<Conn>, actions: seq<Action>, s: Conn) returns (states': seq<Conn>, actions': seq<Action>)
    requires Leads(states, actions) && states[|actions|] == s
    requires s.rd.Granted? && s.wr == Check && s.queue == [] && s.issued == []
    ensures Leads(states', actions') && states'[0] == states[0]
    ensures var r := states'[|actions'|];
            r.wr.Aborted? && r.rd.Parsing? && r.ctl == s.ctl && r.rest == s.rest && r.slots == s.slots + MAX_INFLIGHT
  {
    var s1 := Next(s, Issue);
    LeadsOn(states, actions, Issue);
    var s2 := Next(s1, Test);
    LeadsOn(states + [s1], actions + [Issue], Test);
    LeadsOn(states + [s1] + [s2], actions + [Issue] + [Test], GiveUp);
    states', actions' := states + [s1] + [s2] + [Next(s2, GiveUp)], actions + [Issue] + [Test] + [GiveUp];
  }

  /** One request goes out, its handler is given up on, and the rest of `cmds` is still in
      the buffer. */
  lemma AbortedWith(cmds: seq<seq<seq<byte>>>) returns (states: seq<Conn>, actions: seq<Action>)
    requires AreCommands(cmds) && cmds != []
    ensures IsRun(states, actions)
    ensures var s := states[|actions|];
            s.wr.Aborted? && s.rd.Parsing? && s.ctl == NeedStar && s.rest == EncodeAll(cmds[1..])
            && s.slots == 2 * MAX_INFLIGHT - 1
  {
    var read := Read(EncodeAll(cmds));
    var s1 := FirstExtracted(cmds);
    LeadsOn([INITIAL], [], read);
    ParsesFirst(s1, Request(EncodeArray(cmds[0]), cmds[0]), EncodeAll(cmds[1..]));
    LeadsOn([INITIAL] + [s1], [] + [read], Parse);
    states, actions := GivenUp([INITIAL] + [s1] + [Parsed(s1)], [] + [read] + [Parse], Parsed(s1));
  }

  /** Releasing 1024 slots on giving up does not end the read loop: after a stuck handler, a
      client with 2048 more commands under way leaves it waiting forever, and the connection
      is never closed. With fewer it reads on. */
  lemma AbortCanHang(cmds: seq<seq<seq<byte>>>) returns (states: seq<Conn>, actions: seq<Action>)
    requires AreCommands(cmds) && cmds != []
    ensures IsRun(states, actions)
    ensures var s := states[|actions|];
            && s.wr.Aborted?
            && (s.rd.WaitSlot? <==> |cmds| > 2048)
            && (s.rd.Reading? <==> |cmds| <= 2048)
  {
    states, actions := AbortedWith(cmds);
    var s := states[|actions|];
    CommandsDrained(cmds[1..]);
    HangsIff(s);
    states, actions := AdvanceLeads(s, states, actions);
  }
}
