/** One pipelined connection: the read loop and the write loop as two processes that share
    the queue of reply futures, a condition variable and the in-flight semaphore, with the
    socket and the request handlers as environment. Every suspension point is a state. */
module Connection {
  import opened Bytes
  import opened RespStream

  const MAX_INFLIGHT: nat := 1024

  /** A reply future. */
  datatype Reply = Pending | Ready(text: seq<byte>) | Failed

  /** Where the read loop stands: in read(), before extracting, waiting for a slot with a
      request in hand, about to queue it with the slot taken, or finished. */
  datatype Reader = Reading | Parsing | WaitSlot(req: Request) | Granted(req: Request) | Done
  {
    function Held(): (n: nat) { if Granted? then 1 else 0 }
    function InHand(): (r: seq<Request>) { if WaitSlot? || Granted? then [req] else [] }
  }

  /** Where the write loop stands: before its test of the queue, in the wait of the condition
      variable, waiting for a popped future, writing its text, flushing, or finished. */
  datatype Writer = Check | Sleeping | Awaiting(i: nat) | Writing(i: nat) | Flushing | Exited | Aborted
  {
    predicate Popping() { Awaiting? || Writing? }
    function Held(): (n: nat) { if Popping() || Flushing? then 1 else 0 }
  }

  /** `queue` holds futures by number: the one of request `issued[i]` is `replies[i]`.
      `answered` counts the replies written in full and `flushed` the bytes known to have
      left; both are bookkeeping, as are `input` and `issued`. */
  datatype Conn = Conn(rd: Reader, ctl: Ctl, rest: seq<byte>, input: seq<seq<byte>>,
                       issued: seq<Request>, replies: seq<Reply>,
                       queue: seq<nat>, eof: bool, slots: nat,
                       wr: Writer, written: seq<byte>, answered: nat, flushed: nat)

  const INITIAL: Conn :=
    Conn(Reading, NeedStar, [], [], [], [], [], false, MAX_INFLIGHT, Check, [], 0, 0)

  datatype Action =
    | Read(chunk: seq<byte>)
    | ReadEnds
    | Parse
    | Issue
    | Settle(i: nat, reply: Reply)
    | Test
    | Wake
    | Receive
    | GiveUp
    | Wrote
    | WriteFails(sent: nat)
    | Flushed
    | FlushFails

  /** signal() of the condition variable: without a waiter it is lost. */
  function Signal(s: Conn): (r: Conn) { if s.wr.Sleeping? then s.(wr := Check) else s }

  /** signal(n) of the semaphore: a waiting reader takes its unit at once. */
  function Give(s: Conn, n: nat): (r: Conn)
    requires n > 0
  {
    if s.rd.WaitSlot? then s.(rd := Granted(s.rd.req), slots := s.slots + n - 1) else s.(slots := s.slots + n)
  }

  /** The write loop gives the connection up. */
  function Abort(s: Conn): (r: Conn)
  {
    Give(s.(eof := true, wr := Aborted), MAX_INFLIGHT)
  }

  predicate Enabled(s: Conn, a: Action)
  {
    match a
    case Read(chunk) => s.rd.Reading? && chunk != []
    case ReadEnds => s.rd.Reading?
    case Parse => s.rd.Parsing? && s.ctl.Ok()
    case Issue => s.rd.Granted?
    case Settle(i, reply) => i < |s.replies| && s.replies[i].Pending? && !reply.Pending?
    case Test => s.wr.Check?
    case Wake => s.wr.Sleeping?
    case Receive => s.wr.Awaiting? && s.wr.i < |s.replies| && s.replies[s.wr.i].Ready?
    case GiveUp => s.wr.Awaiting?
    case Wrote => s.wr.Writing? && s.wr.i < |s.replies| && s.replies[s.wr.i].Ready?
    case WriteFails(sent) =>
      s.wr.Writing? && s.wr.i < |s.replies| && s.replies[s.wr.i].Ready? && sent <= |s.replies[s.wr.i].text|
    case Flushed => s.wr.Flushing?
    case FlushFails => s.wr.Flushing?
  }

  /** Extracts the next request, if there is one, and asks for a slot. */
  function Parsed(s: Conn): (r: Conn)
    requires s.ctl.Ok()
  {
    ParsedAs(s, Extract(s.ctl, s.rest))
  }

  function ParsedAs(s: Conn, x: Extraction): (r: Conn)
  {
    match x
    case Idle(c, rest) => s.(rd := Reading, ctl := c, rest := rest)
    case Output(req, left) =>
      var s1 := s.(ctl := NeedStar, rest := left);
      if s.slots > 0 then s1.(rd := Granted(req), slots := s.slots - 1) else s1.(rd := WaitSlot(req))
  }

  /** Calls the handler and queues its future. */
  function Issued(s: Conn): (r: Conn)
    requires s.rd.Granted?
  {
    Signal(s.(rd := Parsing, issued := s.issued + [s.rd.req], replies := s.replies + [Pending],
              queue := s.queue + [|s.issued|]))
  }

  /** The head of the write loop, up to where it suspends. */
  function Tested(s: Conn): (r: Conn)
  {
    if s.queue != [] then s.(wr := Awaiting(s.queue[0]), queue := s.queue[1..])
    else if s.eof then s.(wr := Exited)
    else s.(wr := Sleeping)
  }

  /** The write of a reply has ended: flush when the queue is empty. */
  function AfterWrite(s: Conn, text: seq<byte>): (r: Conn)
  {
    var s1 := s.(written := s.written + text, answered := s.answered + 1);
    if s.queue == [] then s1.(wr := Flushing) else Give(s1.(wr := Check), 1)
  }

  function Next(s: Conn, a: Action): (r: Conn)
    requires Enabled(s, a)
  {
    match a
    case Read(chunk) => s.(rd := Parsing, rest := s.rest + chunk, input := s.input + [chunk])
    case ReadEnds => Signal(s.(rd := Done, eof := true))
    case Parse => Parsed(s)
    case Issue => Issued(s)
    case Settle(i, reply) => s.(replies := s.replies[i := reply])
    case Test => Tested(s)
    case Wake => s.(wr := Check)
    case Receive => s.(wr := Writing(s.wr.i))
    case GiveUp => Abort(s)
    case Wrote => AfterWrite(s, s.replies[s.wr.i].text)
    case WriteFails(sent) => Abort(s.(written := s.written + s.replies[s.wr.i].text[..sent]))
    case Flushed => Give(s.(wr := Check, flushed := |s.written|), 1)
    case FlushFails => Abort(s)
  }

  /** `actions` lead from `states[0]` to the last of `states`. */
  predicate Leads(states: seq<Conn>, actions: seq<Action>)
  {
    && |states| == |actions| + 1
    && forall i :: 0 <= i < |actions| ==> Enabled(states[i], actions[i]) && states[i + 1] == Next(states[i], actions[i])
  }

  predicate IsRun(states: seq<Conn>, actions: seq<Action>) { Leads(states, actions) && states[0] == INITIAL }

  // ---- the invariant ----

  /** The first `n` replies, in the order of their requests. */
  function Text(replies: seq<Reply>, n: nat): (r: seq<byte>)
    requires n <= |replies|
  {
    if n == 0 then []
    else Text(replies, n - 1) + (if replies[n - 1].Ready? then replies[n - 1].text else [])
  }

  function Popped(s: Conn): (n: int) { |s.issued| - |s.queue| }

  /** The queue holds the futures not popped yet, in order. */
  predicate Queued(s: Conn)
  {
    |s.replies| == |s.issued| && Popped(s) >= 0 && forall j :: 0 <= j < |s.queue| ==> s.queue[j] == Popped(s) + j
  }

  /** What has been written when the write loop gave up: all answered replies and a part of
      the next. */
  predicate CutOff(s: Conn)
    requires Queued(s) && s.answered <= |s.replies|
  {
    && s.answered <= Popped(s) <= s.answered + 1
    && Text(s.replies, s.answered) <= s.written
    && if Popped(s) == s.answered || !s.replies[s.answered].Ready? then s.written == Text(s.replies, s.answered)
       else s.written <= Text(s.replies, s.answered + 1)
  }

  /** Replies are written in order, each once. */
  predicate InOrder(s: Conn)
    requires Queued(s)
  {
    && s.answered <= |s.replies|
    && (forall j :: 0 <= j < s.answered ==> s.replies[j].Ready?)
    && if s.wr.Aborted? then CutOff(s)
       else
         && s.written == Text(s.replies, s.answered)
         && Popped(s) == s.answered + (if s.wr.Popping() then 1 else 0)
         && (s.wr.Popping() ==> s.wr.i == s.answered)
         && (s.wr.Writing? ==> s.replies[s.wr.i].Ready?)
  }

  /** Slots are conserved; a reader only waits while there is none. */
  predicate Slots(s: Conn)
  {
    && s.slots + s.rd.Held() + |s.queue| + s.wr.Held() == (if s.wr.Aborted? then 2 * MAX_INFLIGHT - 1 else MAX_INFLIGHT)
    && (s.rd.WaitSlot? ==> s.slots == 0)
  }

  /** No wake-up is lost, and an idle writer has nothing left to flush. */
  predicate Awake(s: Conn)
  {
    && s.flushed <= |s.written|
    && (if s.wr.Aborted? then s.eof else s.eof <==> s.rd.Done?)
    && (s.wr.Sleeping? || s.wr.Exited? ==> s.queue == [])
    && (s.wr.Sleeping? ==> !s.eof)
    && (s.wr.Exited? ==> s.eof)
    && (s.queue == [] && (s.wr.Check? || s.wr.Sleeping? || s.wr.Exited?) ==> s.flushed == |s.written|)
  }

  /** Requests `outs` have come out of `input`; `c` and `rest` are what the extractor has left
      of it, with nothing more to extract when the reader is at `rest`. */
  ghost predicate Consumed(input: seq<seq<byte>>, outs: seq<Request>, c: Ctl, rest: seq<byte>, settled: bool)
  {
    && c.Ok()
    && Session(NeedStar, [], input) ==
       (if settled then Drained(outs, c, rest)
        else var d := Drain(c, rest); Drained(outs + d.outs, d.ctl, d.rest))
  }

  /** The requests issued, in hand and still in the buffer are those of the bytes read. */
  ghost predicate Faithful(s: Conn)
  {
    Consumed(s.input, s.issued + s.rd.InHand(), s.ctl, s.rest, s.rd.Reading? || s.rd.Done?)
  }

  predicate Protocol(s: Conn) { Queued(s) && InOrder(s) && Slots(s) && Awake(s) }

  ghost predicate Inv(s: Conn) { Protocol(s) && Faithful(s) }

  // ---- every step keeps it ----

  lemma {:induction false} TextExtend(replies: seq<Reply>, replies': seq<Reply>, n: nat)
    requires n <= |replies| && n <= |replies'| && forall j :: 0 <= j < n ==> replies'[j] == replies[j]
    ensures Text(replies', n) == Text(replies, n)
  {
    if n == 0 {
    } else {
      TextExtend(replies, replies', n - 1);
    }
  }

  lemma ReadKeeps(s: Conn, a: Action)
    requires Protocol(s) && Enabled(s, a) && a.Read?
    ensures Protocol(Next(s, a))
  {
  }

  lemma EndKeeps(s: Conn)
    requires Protocol(s) && Enabled(s, ReadEnds)
    ensures Protocol(Next(s, ReadEnds))
  {
  }

  lemma ParseKeeps(s: Conn)
    requires Protocol(s) && Enabled(s, Parse)
    ensures Protocol(Next(s, Parse))
  {
    ParsedKeeps(s, Extract(s.ctl, s.rest));
  }

  lemma ParsedKeeps(s: Conn, x: Extraction)
    requires Protocol(s) && s.rd.Parsing?
    ensures Protocol(ParsedAs(s, x))
  {
  }

  lemma IssueKeeps(s: Conn)
    requires Protocol(s) && Enabled(s, Issue)
    ensures Protocol(Next(s, Issue))
  {
    var r := Next(s, Issue);
    TextExtend(s.replies, r.replies, s.answered);
    if s.wr.Aborted? && s.answered < |s.replies| {
      TextExtend(s.replies, r.replies, s.answered + 1);
    }
  }

  lemma SettleKeeps(s: Conn, i: nat, reply: Reply)
    requires Protocol(s) && Enabled(s, Settle(i, reply))
    ensures Protocol(Next(s, Settle(i, reply)))
  {
    var r := Next(s, Settle(i, reply));
    TextExtend(s.replies, r.replies, s.answered);
    if s.wr.Aborted? && s.answered < |s.replies| && s.replies[s.answered].Ready? {
      TextExtend(s.replies, r.replies, s.answered + 1);
    }
  }

  lemma WriterKeeps(s: Conn, a: Action)
    requires Protocol(s) && Enabled(s, a) && (a.Test? || a.Wake? || a.Receive?)
    ensures Protocol(Next(s, a))
  {
  }

  lemma WroteKeeps(s: Conn)
    requires Protocol(s) && Enabled(s, Wrote)
    ensures Protocol(Next(s, Wrote))
  {
  }

  lemma FlushedKeeps(s: Conn)
    requires Protocol(s) && Enabled(s, Flushed)
    ensures Protocol(Next(s, Flushed))
  {
  }

  lemma AbortKeeps(s: Conn, a: Action)
    requires Protocol(s) && Enabled(s, a) && (a.GiveUp? || a.WriteFails? || a.FlushFails?)
    ensures Protocol(Next(s, a))
  {
  }

  lemma ReadConsumes(input: seq<seq<byte>>, outs: seq<Request>, c: Ctl, rest: seq<byte>, chunk: seq<byte>)
    requires Consumed(input, outs, c, rest, true)
    ensures Consumed(input + [chunk], outs, c, rest + chunk, false)
  {
    SessionSnoc(NeedStar, [], input, chunk);
  }

  lemma ExtractConsumes(input: seq<seq<byte>>, outs: seq<Request>, c: Ctl, rest: seq<byte>)
    requires Consumed(input, outs, c, rest, false)
    ensures match Extract(c, rest)
            case Idle(c', rest') => Consumed(input, outs, c', rest', true)
            case Output(req, left) => Consumed(input, outs + [req], NeedStar, left, false)
  {
    match Extract(c, rest)
    case Idle(c', rest') => JoinAssoc(outs, [], []);
    case Output(req, left) => JoinAssoc(outs, [req], Drain(NeedStar, left).outs);
  }

  /** Steps other than reading and extracting do not touch what the extractor has. */
  lemma OtherSteps(s: Conn, a: Action)
    requires Enabled(s, a) && !a.Read? && !a.Parse?
    ensures var r := Next(s, a);
            && r.input == s.input && r.ctl == s.ctl && r.rest == s.rest
            && r.issued + r.rd.InHand() == s.issued + s.rd.InHand()
            && (r.rd.Reading? || r.rd.Done? <==> s.rd.Reading? || s.rd.Done?)
  {
  }

  lemma ParseFaithful(s: Conn)
    requires Faithful(s) && s.rd.Parsing?
    ensures Faithful(Parsed(s))
  {
    JoinAssoc(s.issued, [], []);
    ExtractConsumes(s.input, s.issued, s.ctl, s.rest);
  }

  lemma FaithfulKept(s: Conn, a: Action)
    requires Faithful(s) && Enabled(s, a)
    ensures Faithful(Next(s, a))
  {
    if a.Read? {
      JoinAssoc(s.issued, [], []);
      ReadConsumes(s.input, s.issued, s.ctl, s.rest, a.chunk);
    } else if a.Parse? {
      ParseFaithful(s);
    } else {
      OtherSteps(s, a);
    }
  }

  lemma NextKeeps(s: Conn, a: Action)
    requires Inv(s) && Enabled(s, a)
    ensures Inv(Next(s, a))
  {
    FaithfulKept(s, a);
    match a
    case Read(_) => ReadKeeps(s, a);
    case ReadEnds => EndKeeps(s);
    case Parse => ParseKeeps(s);
    case Issue => IssueKeeps(s);
    case Settle(i, reply) => SettleKeeps(s, i, reply);
    case GiveUp => AbortKeeps(s, a);
    case WriteFails(_) => AbortKeeps(s, a);
    case FlushFails => AbortKeeps(s, a);
    case Wrote => WroteKeeps(s);
    case Flushed => FlushedKeeps(s);
    case _ => WriterKeeps(s, a);
  }

  lemma {:induction false} RunKeeps(states: seq<Conn>, actions: seq<Action>, i: nat)
    requires IsRun(states, actions) && i < |states|
    ensures Inv(states[i])
  {
    if i == 0 {
    } else {
      RunKeeps(states, actions, i - 1);
      NextKeeps(states[i - 1], actions[i - 1]);
    }
  }
}
