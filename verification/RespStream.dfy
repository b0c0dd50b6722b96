/** The incremental request extractor as a state machine on values: what is buffered is
    the bytes of the frame in progress (inside the control state) followed by the unread
    rest. Neither depends on where the buffer was cut into chunks or compacted. */
module RespStream {
  import opened Bytes

  const MAX_ARGS: nat := 1024
  const MAX_BULK: nat := 64 * 1024 * 1024

  /** A request handed to the connection: a frame with its arguments, or an error reply
      in `frame` with no arguments at all. */
  datatype Request = Request(frame: seq<byte>, argv: seq<seq<byte>>) {
    predicate IsError() { argv == [] }
  }

  function Error(text: string): (r: Request)
    ensures r.IsError()
  {
    Request(Ascii(text), [])
  }

  const PROTOCOL_ERROR: Request := Error("-ERR protocol error\r\n")
  const INVALID_ARGC: Request := Error("-ERR invalid argc\r\n")
  const INVALID_BULK_LENGTH: Request := Error("-ERR invalid bulk length\r\n")

  datatype Ctl =
    | NeedStar
    | NeedArgc(frame: seq<byte>)
    | NeedDollar(frame: seq<byte>, argc: nat, argv: seq<seq<byte>>)
    | NeedBulkLen(frame: seq<byte>, argc: nat, argv: seq<seq<byte>>)
    | NeedBulkData(frame: seq<byte>, argc: nat, argv: seq<seq<byte>>, bulkLen: nat)
    | NeedBulkCrlf(frame: seq<byte>, argc: nat, argv: seq<seq<byte>>)
  {
    /** Bytes of the frame in progress that have been scanned already. */
    function Scanned(): seq<byte> { if NeedStar? then [] else frame }

    predicate Ok() {
      && (!NeedStar? ==> frame != [])
      && (NeedDollar? || NeedBulkLen? || NeedBulkData? || NeedBulkCrlf? ==> 1 <= argc <= MAX_ARGS)
      && (NeedDollar? || NeedBulkLen? || NeedBulkData? ==> |argv| < argc)
      && (NeedBulkData? ==> bulkLen <= MAX_BULK)
      && (NeedBulkCrlf? ==> 1 <= |argv| <= argc)
    }
  }

  datatype Field = FieldMore | FieldBad | FieldOk(value: int, size: nat)

  /** A decimal field ended by CR LF at the front of `rest`, located by its line feed.
      The accumulated value is unchecked, hence wrapped. */
  function IntField(rest: seq<byte>): (f: Field)
    ensures f.FieldOk? ==> 3 <= f.size <= |rest|
  {
    var nl := Find(rest, LF);
    if nl == |rest| then FieldMore
    else if nl == 0 || rest[nl - 1] != CR || !IsNumeral(rest[..nl - 1]) then FieldBad
    else FieldOk(Wrap64(Numeral(rest[..nl - 1])), nl + 1)
  }

  /** After an error inside a frame: everything before the next star is dropped. */
  function Resync(rest: seq<byte>): (r: seq<byte>)
    ensures |r| <= |rest|
  {
    rest[Find(rest, STAR)..]
  }

  /** After a stray line: everything up to and including the next line feed is dropped. */
  function SkipLine(rest: seq<byte>): (r: seq<byte>)
    ensures rest != [] ==> |r| < |rest|
  {
    var nl := Find(rest, LF);
    if nl == |rest| then [] else rest[nl + 1..]
  }

  datatype Outcome =
    | Stuck
    | Go(ctl: Ctl, rest: seq<byte>)
    | Emit(req: Request, left: seq<byte>)

  /** What every round keeps: it scans bytes, or moves on to a later stage, or emits. */
  predicate Advances(c: Ctl, rest: seq<byte>, o: Outcome)
  {
    && (o.Go? ==> o.ctl.Ok() && |o.ctl.Scanned()| + |o.rest| == |c.Scanned()| + |rest|)
    && (o.Go? ==> |o.rest| < |rest| || (|o.rest| == |rest| && c.NeedBulkData? && !o.ctl.NeedBulkData?))
    && (o.Emit? ==> |o.left| < |c.Scanned()| + |rest|)
  }

  function StepStar(c: Ctl, rest: seq<byte>): (o: Outcome)
    requires c.NeedStar?
    ensures Advances(c, rest, o)
  {
    if rest == [] then Stuck
    else if rest[0] != STAR then Emit(PROTOCOL_ERROR, SkipLine(rest))
    else Go(NeedArgc([STAR]), rest[1..])
  }

  /** The field's size is within the bytes it was read from. */
  predicate Within(f: Field, rest: seq<byte>) { f.FieldOk? ==> 3 <= f.size <= |rest| }

  /** Where the stream goes on after an error at the field `f` in front of `rest`: a field that
      was read has been passed already. */
  function AfterField(rest: seq<byte>, f: Field): (left: seq<byte>)
    requires Within(f, rest)
    ensures |left| <= |rest|
  {
    Resync(if f.FieldOk? then rest[f.size..] else rest)
  }

  // The rounds of the six stages. `f` is the field at the front of `rest`, and `left` is where
  // the stream goes on after an error.

  function StepArgc(c: Ctl, rest: seq<byte>, f: Field, left: seq<byte>): (o: Outcome)
    requires c.NeedArgc? && c.Ok() && Within(f, rest) && |left| <= |rest|
    ensures Advances(c, rest, o)
  {
    match f
    case FieldMore => Stuck
    case FieldBad => Emit(PROTOCOL_ERROR, left)
    case FieldOk(argc, k) =>
      if argc <= 0 || argc > MAX_ARGS then Emit(INVALID_ARGC, left)
      else Go(NeedDollar(c.frame + rest[..k], argc, []), rest[k..])
  }

  function StepDollar(c: Ctl, rest: seq<byte>, left: seq<byte>): (o: Outcome)
    requires c.NeedDollar? && c.Ok() && |left| <= |rest|
    ensures Advances(c, rest, o)
  {
    if rest == [] then Stuck
    else if rest[0] != DOLLAR then Emit(PROTOCOL_ERROR, left)
    else Go(NeedBulkLen(c.frame + rest[..1], c.argc, c.argv), rest[1..])
  }

  function StepLength(c: Ctl, rest: seq<byte>, f: Field, left: seq<byte>): (o: Outcome)
    requires c.NeedBulkLen? && c.Ok() && Within(f, rest) && |left| <= |rest|
    ensures Advances(c, rest, o)
  {
    match f
    case FieldMore => Stuck
    case FieldBad => Emit(PROTOCOL_ERROR, left)
    case FieldOk(bl, k) =>
      if bl < 0 || bl > MAX_BULK then Emit(INVALID_BULK_LENGTH, left)
      else Go(NeedBulkData(c.frame + rest[..k], c.argc, c.argv, bl), rest[k..])
  }

  function StepData(c: Ctl, rest: seq<byte>): (o: Outcome)
    requires c.NeedBulkData? && c.Ok()
    ensures Advances(c, rest, o)
  {
    if c.bulkLen > |rest| then Stuck
    else Go(NeedBulkCrlf(c.frame + rest[..c.bulkLen], c.argc, c.argv + [rest[..c.bulkLen]]), rest[c.bulkLen..])
  }

  function StepCrlf(c: Ctl, rest: seq<byte>, left: seq<byte>): (o: Outcome)
    requires c.NeedBulkCrlf? && c.Ok() && |left| <= |rest|
    ensures Advances(c, rest, o)
  {
    if |rest| < 2 then Stuck
    else if rest[..2] != CRLF then Emit(PROTOCOL_ERROR, left)
    else if |c.argv| == c.argc then Emit(Request(c.frame + rest[..2], c.argv), rest[2..])
    else Go(NeedDollar(c.frame + rest[..2], c.argc, c.argv), rest[2..])
  }

  /** One round of the extractor's switch. */
  function Step(c: Ctl, rest: seq<byte>): (o: Outcome)
    requires c.Ok()
    ensures Advances(c, rest, o)
  {
    match c
    case NeedStar => StepStar(c, rest)
    case NeedArgc(_) => var f := IntField(rest); StepArgc(c, rest, f, AfterField(rest, f))
    case NeedDollar(_, _, _) => StepDollar(c, rest, Resync(rest))
    case NeedBulkLen(_, _, _) => var f := IntField(rest); StepLength(c, rest, f, AfterField(rest, f))
    case NeedBulkData(_, _, _, _) => StepData(c, rest)
    case NeedBulkCrlf(_, _, _) => StepCrlf(c, rest, Resync(rest))
  }

  datatype Extraction =
    | Idle(ctl: Ctl, rest: seq<byte>)
    | Output(req: Request, left: seq<byte>)

  /** One call of try_extract_request: rounds until a request comes out or bytes run short. */
  function Extract(c: Ctl, rest: seq<byte>): (x: Extraction)
    requires c.Ok()
    ensures x.Idle? ==> x.ctl.Ok()
    ensures x.Output? ==> |x.left| < |c.Scanned()| + |rest|
    decreases |rest|, if c.NeedBulkData? then 1 else 0
  {
    match Step(c, rest)
    case Stuck => Idle(c, rest)
    case Emit(req, left) => Output(req, left)
    case Go(c', rest') => Extract(c', rest')
  }

  datatype Drained = Drained(outs: seq<Request>, ctl: Ctl, rest: seq<byte>)

  /** The read loop's inner loop: extract until nothing more comes out. */
  function Drain(c: Ctl, rest: seq<byte>): (d: Drained)
    requires c.Ok()
    ensures d.ctl.Ok()
    decreases |c.Scanned()| + |rest|
  {
    match Extract(c, rest)
    case Idle(c', rest') => Drained([], c', rest')
    case Output(req, left) =>
      var d := Drain(NeedStar, left);
      Drained([req] + d.outs, d.ctl, d.rest)
  }

  /** A whole connection: every chunk is appended to the unread rest, then drained. */
  function Session(c: Ctl, rest: seq<byte>, chunks: seq<seq<byte>>): (d: Drained)
    requires c.Ok()
    ensures d.ctl.Ok()
    decreases |chunks|
  {
    if chunks == [] then Drained([], c, rest)
    else
      var first := Drain(c, rest + chunks[0]);
      var more := Session(first.ctl, first.rest, chunks[1..]);
      Drained(first.outs + more.outs, more.ctl, more.rest)
  }

  function Concat(chunks: seq<seq<byte>>): (r: seq<byte>)
  {
    if chunks == [] then [] else chunks[0] + Concat(chunks[1..])
  }

  /** Outputs up to and including the first error reply. */
  function UpToError(outs: seq<Request>): (r: seq<Request>)
    ensures r <= outs
  {
    if outs == [] then []
    else if outs[0].IsError() then outs[..1]
    else [outs[0]] + UpToError(outs[1..])
  }

  predicate ErrorFree(outs: seq<Request>) { forall i :: 0 <= i < |outs| ==> !outs[i].IsError() }

  // ---- no byte is lost or read twice ----

  predicate IsProperSuffix(t: seq<byte>, s: seq<byte>) { |t| < |s| && s[|s| - |t|..] == t }

  lemma Moved(frame: seq<byte>, rest: seq<byte>, k: nat)
    requires k <= |rest|
    ensures frame + rest[..k] + rest[k..] == frame + rest
  {
    assert rest == rest[..k] + rest[k..];
  }

  lemma Dropped(frame: seq<byte>, rest: seq<byte>, k: nat)
    requires k <= |rest| && 0 < |frame| + k
    ensures IsProperSuffix(rest[k..], frame + rest)
  {
  }

  lemma ByteConserves(c: Ctl, rest: seq<byte>)
    requires c.Ok() && (c.NeedStar? || c.NeedDollar?)
    ensures Step(c, rest).Go? ==> Step(c, rest).ctl.Scanned() + Step(c, rest).rest == c.Scanned() + rest
  {
    if Step(c, rest).Go? {
      assert c.NeedStar? ==> [STAR] == [] + rest[..1];
      Moved(c.Scanned(), rest, 1);
    }
  }

  lemma FieldConserves(c: Ctl, rest: seq<byte>)
    requires c.Ok() && (c.NeedArgc? || c.NeedBulkLen?)
    ensures Step(c, rest).Go? ==> Step(c, rest).ctl.Scanned() + Step(c, rest).rest == c.Scanned() + rest
  {
    if IntField(rest).FieldOk? {
      Moved(c.Scanned(), rest, IntField(rest).size);
    }
  }

  lemma BulkConserves(c: Ctl, rest: seq<byte>)
    requires c.Ok() && (c.NeedBulkData? || c.NeedBulkCrlf?)
    ensures Step(c, rest).Go? ==> Step(c, rest).ctl.Scanned() + Step(c, rest).rest == c.Scanned() + rest
  {
    if Step(c, rest).Go? {
      Moved(c.Scanned(), rest, if c.NeedBulkData? then c.bulkLen else 2);
    }
  }

  lemma StepConserves(c: Ctl, rest: seq<byte>)
    requires c.Ok()
    ensures Step(c, rest).Go? ==> Step(c, rest).ctl.Scanned() + Step(c, rest).rest == c.Scanned() + rest
  {
    if c.NeedArgc? || c.NeedBulkLen? {
      FieldConserves(c, rest);
    } else if c.NeedStar? || c.NeedDollar? {
      ByteConserves(c, rest);
    } else {
      BulkConserves(c, rest);
    }
  }

  /** A decimal field never hides a star, whatever its value. */
  lemma FieldHasNoStar(rest: seq<byte>)
    requires IntField(rest).FieldOk?
    ensures Resync(rest[IntField(rest).size..]) == Resync(rest)
  {
    var k := IntField(rest).size;
    var f := rest[..k - 2];
    forall i | 0 <= i < k
      ensures rest[i] != STAR
    {
      if i < k - 2 {
        assert f[i] == rest[i];
        if f[0] == MINUS && i > 0 {
          assert f[1..][i - 1] == f[i];
        }
      }
    }
    var tail := rest[k..];
    var j := Find(tail, STAR);
    assert tail == rest[k..];
    assert forall i :: 0 <= i < j ==> rest[k + i] == tail[i];
    assert forall i :: 0 <= i < k + j ==> rest[i] != STAR;
    if j < |tail| {
      FindIs(rest, STAR, k + j);
    }
    assert tail[j..] == rest[k + j..];
  }

  /** Every error inside a frame leaves the stream at the next star not yet read. */
  lemma ErrorResyncs(c: Ctl, rest: seq<byte>)
    requires c.Ok() && !c.NeedStar?
    requires Step(c, rest).Emit? && Step(c, rest).req.IsError()
    ensures Step(c, rest).left == Resync(rest)
  {
    if (c.NeedArgc? || c.NeedBulkLen?) && IntField(rest).FieldOk? {
      FieldHasNoStar(rest);
    }
  }

  lemma ErrorShrinks(c: Ctl, rest: seq<byte>)
    requires c.Ok() && Step(c, rest).Emit? && Step(c, rest).req.IsError()
    ensures IsProperSuffix(Step(c, rest).left, c.Scanned() + rest)
  {
    if c.NeedStar? {
      var nl := Find(rest, LF);
      Dropped([], rest, if nl == |rest| then nl else nl + 1);
    } else {
      ErrorResyncs(c, rest);
      Dropped(c.Scanned(), rest, Find(rest, STAR));
    }
  }

  lemma RequestTakesFrame(c: Ctl, rest: seq<byte>)
    requires c.Ok() && Step(c, rest).Emit? && !Step(c, rest).req.IsError()
    ensures Step(c, rest).req.frame != []
    ensures Step(c, rest).req.frame + Step(c, rest).left == c.Scanned() + rest
  {
    Moved(c.Scanned(), rest, 2);
  }

  /** Conservation: the bytes scanned or unread stay the same bytes until a request comes
      out, which then takes exactly its own frame off their front. An error strictly
      shrinks them, so draining ends. */
  lemma {:induction false} ExtractConserves(c: Ctl, rest: seq<byte>)
    requires c.Ok()
    ensures match Extract(c, rest)
            case Idle(c', rest') => c'.Scanned() + rest' == c.Scanned() + rest
            case Output(req, left) =>
              if req.IsError() then IsProperSuffix(left, c.Scanned() + rest)
              else req.frame != [] && req.frame + left == c.Scanned() + rest
    decreases |rest|, if c.NeedBulkData? then 1 else 0
  {
    match Step(c, rest)
    case Stuck =>
    case Emit(req, _) =>
      if req.IsError() {
        ErrorShrinks(c, rest);
      } else {
        RequestTakesFrame(c, rest);
      }
    case Go(c', rest') =>
      StepConserves(c, rest);
      ExtractConserves(c', rest');
  }

  // ---- more bytes never change what was decided on fewer ----

  lemma FieldExtend(rest: seq<byte>, t: seq<byte>)
    requires !IntField(rest).FieldMore?
    ensures IntField(rest + t) == IntField(rest)
  {
    FindExtend(rest, t, LF);
    var nl := Find(rest, LF);
    if nl > 0 {
      assert (rest + t)[..nl - 1] == rest[..nl - 1];
    }
  }

  lemma Cut(rest: seq<byte>, t: seq<byte>, k: nat)
    requires k <= |rest|
    ensures (rest + t)[..k] == rest[..k] && (rest + t)[k..] == rest[k..] + t
  {
  }

  /** The outcome `o` on fewer bytes commits the outcome `o'` on `t` more. */
  predicate Commits(o: Outcome, o': Outcome, t: seq<byte>)
  {
    match o
    case Stuck => true
    case Go(c, rest) => o' == Go(c, rest + t)
    case Emit(req, left) => o'.Emit? && o'.req == req && (!req.IsError() ==> o'.left == left + t)
  }

  lemma FieldStepExtend(c: Ctl, rest: seq<byte>, t: seq<byte>)
    requires c.Ok() && (c.NeedArgc? || c.NeedBulkLen?)
    ensures Commits(Step(c, rest), Step(c, rest + t), t)
  {
    if !IntField(rest).FieldMore? {
      FieldExtend(rest, t);
      if IntField(rest).FieldOk? {
        Cut(rest, t, IntField(rest).size);
      }
    }
  }

  lemma ByteStepExtend(c: Ctl, rest: seq<byte>, t: seq<byte>)
    requires c.Ok() && (c.NeedStar? || c.NeedDollar?)
    ensures Commits(Step(c, rest), Step(c, rest + t), t)
  {
    if rest != [] {
      Cut(rest, t, 1);
      assert (rest + t)[0] == rest[0];
    }
  }

  lemma BulkStepExtend(c: Ctl, rest: seq<byte>, t: seq<byte>)
    requires c.Ok() && (c.NeedBulkData? || c.NeedBulkCrlf?)
    ensures Commits(Step(c, rest), Step(c, rest + t), t)
  {
    var k := if c.NeedBulkData? then c.bulkLen else 2;
    if k <= |rest| {
      Cut(rest, t, k);
    }
  }

  lemma StepExtend(c: Ctl, rest: seq<byte>, t: seq<byte>)
    requires c.Ok()
    ensures Commits(Step(c, rest), Step(c, rest + t), t)
  {
    if c.NeedArgc? || c.NeedBulkLen? {
      FieldStepExtend(c, rest, t);
    } else if c.NeedStar? || c.NeedDollar? {
      ByteStepExtend(c, rest, t);
    } else {
      BulkStepExtend(c, rest, t);
    }
  }

  lemma {:induction false} ExtractExtend(c: Ctl, rest: seq<byte>, t: seq<byte>)
    requires c.Ok()
    ensures Extract(c, rest).Idle? ==>
              Extract(c, rest + t) == Extract(Extract(c, rest).ctl, Extract(c, rest).rest + t)
    ensures Extract(c, rest).Output? ==>
              && Extract(c, rest + t).Output?
              && Extract(c, rest + t).req == Extract(c, rest).req
              && (!Extract(c, rest).req.IsError() ==> Extract(c, rest + t).left == Extract(c, rest).left + t)
    decreases |rest|, if c.NeedBulkData? then 1 else 0
  {
    StepExtend(c, rest, t);
    match Step(c, rest)
    case Stuck =>
    case Emit(_, _) =>
    case Go(c', rest') => ExtractExtend(c', rest', t);
  }

  /** Draining gave `outs` first; `e` is what is drained from there once more has arrived and
      `whole` what is drained when it arrives at once: the same outputs as far as the first
      error; with no error, the same final state too. */
  ghost predicate Commit(outs: seq<Request>, e: Drained, whole: Drained)
  {
    if ErrorFree(outs) then whole == Drained(outs + e.outs, e.ctl, e.rest)
    else UpToError(whole.outs) == UpToError(outs) && !ErrorFree(whole.outs)
  }

  ghost predicate DrainCommits(d: Drained, whole: Drained, t: seq<byte>)
    requires d.ctl.Ok()
  {
    Commit(d.outs, Drain(d.ctl, d.rest + t), whole)
  }

  lemma CommitCons(req: Request, outs: seq<Request>, e: Drained, whole: Drained)
    requires Commit(outs, e, whole)
    ensures Commit([req] + outs, e, whole.(outs := [req] + whole.outs))
  {
    var douts, wouts := [req] + outs, [req] + whole.outs;
    assert douts[0] == req && douts[1..] == outs && wouts[0] == req && wouts[1..] == whole.outs;
    if req.IsError() {
      assert douts[..1] == wouts[..1];
    } else {
      ErrorInTail(douts);
      ErrorInTail(wouts);
      if ErrorFree(douts) {
        assert [req] + (outs + e.outs) == douts + e.outs;
      }
    }
  }

  lemma {:induction false} DrainExtend(c: Ctl, rest: seq<byte>, t: seq<byte>)
    requires c.Ok()
    ensures DrainCommits(Drain(c, rest), Drain(c, rest + t), t)
    decreases |c.Scanned()| + |rest|
  {
    ExtractExtend(c, rest, t);
    match Extract(c, rest)
    case Idle(c', rest') =>
      var e := Drain(c', rest' + t);
      assert [] + e.outs == e.outs;
      assert Drain(c, rest + t) == e;
    case Output(req, left) =>
      if req.IsError() {
        ErrorFirst(Drain(c, rest).outs, req);
        ErrorFirst(Drain(c, rest + t).outs, req);
      } else {
        DrainExtend(NeedStar, left, t);
        var d := Drain(NeedStar, left);
        CommitCons(req, d.outs, Drain(d.ctl, d.rest + t), Drain(NeedStar, left + t));
      }
  }

  lemma ErrorFirst(outs: seq<Request>, req: Request)
    requires outs != [] && outs[0] == req && req.IsError()
    ensures UpToError(outs) == [req] && !ErrorFree(outs)
  {
  }

  lemma ErrorInTail(outs: seq<Request>)
    requires outs != [] && !outs[0].IsError()
    ensures ErrorFree(outs) <==> ErrorFree(outs[1..])
  {
    if ErrorFree(outs[1..]) {
      forall i | 0 <= i < |outs|
        ensures !outs[i].IsError()
      {
        if i > 0 {
          assert outs[i] == outs[1..][i - 1];
        }
      }
    }
  }

  lemma {:induction false} UpToErrorAppend(a: seq<Request>, b: seq<Request>)
    ensures UpToError(a + b) == if ErrorFree(a) then a + UpToError(b) else UpToError(a)
  {
    if a == [] {
      assert a + b == b;
    } else if a[0].IsError() {
      assert (a + b)[..1] == a[..1];
    } else {
      assert (a + b)[1..] == a[1..] + b;
      UpToErrorAppend(a[1..], b);
      ErrorInTail(a);
      assert a == [a[0]] + a[1..];
    }
  }

  lemma ErrorFreeAppend(a: seq<Request>, b: seq<Request>)
    ensures ErrorFree(a + b) <==> ErrorFree(a) && ErrorFree(b)
  {
    if ErrorFree(a + b) {
      assert forall i :: 0 <= i < |a| ==> a[i] == (a + b)[i];
      assert forall i :: 0 <= i < |b| ==> b[i] == (a + b)[|a| + i];
    }
  }

  /** For arbitrary bytes, what comes out up to and including the first error does not
      depend on how the bytes were cut into chunks; while there is no error, neither does
      the state that is left. */
  lemma {:induction false} ChunkingIrrelevant(c: Ctl, rest: seq<byte>, chunks: seq<seq<byte>>)
    requires c.Ok() && Extract(c, rest) == Idle(c, rest)
    ensures UpToError(Session(c, rest, chunks).outs) == UpToError(Drain(c, rest + Concat(chunks)).outs)
    ensures ErrorFree(Session(c, rest, chunks).outs) ==>
              Session(c, rest, chunks) == Drain(c, rest + Concat(chunks))
    decreases |chunks|
  {
    if chunks == [] {
      assert rest + Concat(chunks) == rest;
    } else {
      var t := Concat(chunks[1..]);
      assert rest + Concat(chunks) == (rest + chunks[0]) + t;
      DrainExtend(c, rest + chunks[0], t);
      DrainSettles(c, rest + chunks[0]);
      var d := Drain(c, rest + chunks[0]);
      ChunkingIrrelevant(d.ctl, d.rest, chunks[1..]);
      var more := Session(d.ctl, d.rest, chunks[1..]);
      ErrorFreeAppend(d.outs, more.outs);
      UpToErrorAppend(d.outs, more.outs);
      UpToErrorAppend(d.outs, Drain(d.ctl, d.rest + t).outs);
    }
  }

  lemma {:induction false} ExtractSettles(c: Ctl, rest: seq<byte>)
    requires c.Ok() && Extract(c, rest).Idle?
    ensures var x := Extract(c, rest); Extract(x.ctl, x.rest) == x
    decreases |rest|, if c.NeedBulkData? then 1 else 0
  {
    if !Step(c, rest).Go? {
    } else {
      ExtractSettles(Step(c, rest).ctl, Step(c, rest).rest);
    }
  }

  lemma {:induction false} DrainSettles(c: Ctl, rest: seq<byte>)
    requires c.Ok()
    ensures var d := Drain(c, rest); Extract(d.ctl, d.rest) == Idle(d.ctl, d.rest)
    decreases |c.Scanned()| + |rest|
  {
    match Extract(c, rest)
    case Idle(_, _) => ExtractSettles(c, rest);
    case Output(_, left) => DrainSettles(NeedStar, left);
  }

  lemma JoinAssoc(a: seq<Request>, b: seq<Request>, c: seq<Request>)
    ensures a + (b + c) == (a + b) + c && a + [] == a && [] + a == a
  {
  }

  /** One more chunk. */
  lemma {:induction false} SessionSnoc(c: Ctl, rest: seq<byte>, chunks: seq<seq<byte>>, x: seq<byte>)
    requires c.Ok()
    ensures var d := Session(c, rest, chunks);
            var e := Drain(d.ctl, d.rest + x);
            Session(c, rest, chunks + [x]) == Drained(d.outs + e.outs, e.ctl, e.rest)
    decreases |chunks|
  {
    var all := chunks + [x];
    if chunks == [] {
      assert all[0] == x && all[1..] == [];
      JoinAssoc(Drain(c, rest + x).outs, [], []);
    } else {
      assert all[0] == chunks[0] && all[1..] == chunks[1..] + [x];
      var first := Drain(c, rest + chunks[0]);
      SessionSnoc(first.ctl, first.rest, chunks[1..], x);
      var d := Session(first.ctl, first.rest, chunks[1..]);
      JoinAssoc(first.outs, d.outs, Drain(d.ctl, d.rest + x).outs);
    }
  }

  /** Bytes of one line, at most its end a line feed, that do not begin a frame. */
  predicate IsStray(p: seq<byte>) { p != [] && p[0] != STAR && forall i :: 0 <= i < |p| - 1 ==> p[i] != LF }

  lemma StrayReported(p: seq<byte>)
    requires IsStray(p)
    ensures Drain(NeedStar, p) == Drained([PROTOCOL_ERROR], NeedStar, [])
  {
    assert SkipLine(p) == [];
    assert Extract(NeedStar, p) == Output(PROTOCOL_ERROR, []);
    assert Drain(NeedStar, []) == Drained([], NeedStar, []);
  }

  lemma {:induction false} OneChunk(p: seq<byte>, d: Drained)
    requires d == Drain(NeedStar, p)
    ensures Session(NeedStar, [], [p]) == d
  {
    SessionSnoc(NeedStar, [], [], p);
    assert [] + [p] == [p] && [] + p == p && [] + d.outs == d.outs;
  }

  lemma {:induction false} TwoChunks(p: seq<byte>, q: seq<byte>, d: Drained, e: Drained)
    requires d == Drain(NeedStar, p) && d.ctl == NeedStar && d.rest == [] && e == Drain(NeedStar, q)
    ensures Session(NeedStar, [], [p, q]) == Drained(d.outs + e.outs, e.ctl, e.rest)
  {
    OneChunk(p, d);
    SessionSnoc(NeedStar, [], [p], q);
    assert [p] + [q] == [p, q] && [] + q == q;
  }

  /** After an error the outputs depend on the cut: every stray line cut in two is reported
      twice, in one piece once. */
  lemma ChunkingMattersAfterError(p: seq<byte>, q: seq<byte>)
    requires IsStray(p + q) && p != [] && q != [] && q[0] != STAR
    ensures Session(NeedStar, [], [p + q]).outs == [PROTOCOL_ERROR]
    ensures Session(NeedStar, [], [p, q]).outs == [PROTOCOL_ERROR] + [PROTOCOL_ERROR]
  {
    var once := Drained([PROTOCOL_ERROR], NeedStar, []);
    StrayReported(p + q);
    OneChunk(p + q, once);
    StrayPieces(p, q);
    StrayReported(p);
    StrayReported(q);
    TwoChunks(p, q, once, once);
  }

  lemma StrayPieces(p: seq<byte>, q: seq<byte>)
    requires IsStray(p + q) && p != [] && q != [] && q[0] != STAR
    ensures IsStray(p) && IsStray(q)
  {
    assert p[0] == (p + q)[0];
    forall i | 0 <= i < |p| - 1 ensures p[i] != LF { assert p[i] == (p + q)[i]; }
    forall i | 0 <= i < |q| - 1 ensures q[i] != LF { assert q[i] == (p + q)[|p| + i]; }
  }
}
