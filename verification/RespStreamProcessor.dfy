/** The request extractor as it runs: positions into a buffer that grows, is compacted now
    and then, and is shared with the caller. */
module StreamProcessor {
  import opened Wrappers
  import opened Bytes
  import opened RespStream
  import opened Seals
  import opened RespWriter
  import opened RespRoundTrip

  newtype uint32 = x: int | 0 <= x < 0x1_0000_0000

  /** Buffers are sstrings, whose size type is 32 bits wide. */
  const BUFFER_LIMIT: nat := 0x1_0000_0000

  /** A prefix of this size is always dropped. */
  const COMPACT_AT: nat := 4096

  datatype Stage = Star | Argc | Dollar | BulkLen | BulkData | BulkCrlf

  datatype Slice = Slice(off: uint32, len: uint32)

  datatype Status = Ok | NeedMore | Invalid

  /** Drops what lies before `pos` when that pays; the unread bytes stay the same. */
  method CompactIfNeeded(buf: seq<byte>, pos: nat) returns (buf': seq<byte>, pos': nat)
    requires pos <= |buf|
    ensures pos' <= |buf'| <= |buf|
    ensures buf'[pos'..] == buf[pos..]
    ensures pos' == 0 || (pos' == pos < COMPACT_AT && 2 * pos < |buf|)
  {
    buf', pos' := buf, pos;
    if pos == 0 {
      return;
    }
    if pos >= |buf| {
      return [], 0;
    }
    if pos >= COMPACT_AT || pos * 2 >= |buf| {
      buf', pos' := buf[pos..], 0;
    }
  }

  /** The extractor's fields, as a value. */
  datatype Cursor = Cursor(st: Stage, pos: nat, cmdStart: nat, argc: int, argi: int, bulkLen: int, slices: seq<Slice>)
  {
    ghost predicate Valid(buf: seq<byte>)
    {
      && |buf| < BUFFER_LIMIT
      && pos <= |buf|
      && (if st == Star then pos else cmdStart) < COMPACT_AT
      && (st != Star ==> cmdStart < pos)
      && (st != Star && st != Argc ==> 1 <= argc <= MAX_ARGS && SlicesOk(slices, cmdStart, pos))
      && (st == Dollar || st == BulkLen || st == BulkData ==> |slices| == argi < argc)
      && (st == BulkData ==> 0 <= bulkLen <= MAX_BULK)
      && (st == BulkCrlf ==> |slices| == argi + 1 <= argc && 0 <= argi)
    }

    /** The buffer with the fields read as a control state: offsets are gone. */
    ghost function Ctl(buf: seq<byte>): (c: Ctl)
      requires Valid(buf)
      ensures c.Ok()
    {
      match st
      case Star => NeedStar
      case Argc => NeedArgc(buf[cmdStart..pos])
      case Dollar => NeedDollar(buf[cmdStart..pos], argc, Args(buf, slices))
      case BulkLen => NeedBulkLen(buf[cmdStart..pos], argc, Args(buf, slices))
      case BulkData => NeedBulkData(buf[cmdStart..pos], argc, Args(buf, slices), bulkLen)
      case BulkCrlf => NeedBulkCrlf(buf[cmdStart..pos], argc, Args(buf, slices))
    }

    ghost function Rest(buf: seq<byte>): seq<byte>
      requires Valid(buf)
    {
      buf[pos..]
    }
  }

  // Sealed predicates.

  /** `f` is the field at the front of `rest`. */
  ghost predicate IsField(rest: seq<byte>, f: Field)
  {
    Within(f, rest) && forall t {:trigger Open(FieldSeal, t)} :: Open(FieldSeal, t) ==> f == IntField(rest)
  }

  /** The fields `cur` and the buffer stand for the control state `c` with `rest` unread. */
  ghost predicate Represents(cur: Cursor, buf: seq<byte>, c: Ctl, rest: seq<byte>)
  {
    cur.Valid(buf) && forall t {:trigger Open(CursorSeal, t)} :: Open(CursorSeal, t) ==> c == cur.Ctl(buf) && rest == cur.Rest(buf)
  }

  /** After a round: fields `to`, buffer `buf`, the request `r` if one came out, and whether the
      switch goes on. */
  datatype After = After(to: Cursor, buf: seq<byte>, r: Option<Request>, more: bool)

  /** What a round with outcome `o` must do from the control state `c` with `rest` unread. */
  ghost predicate Follows(o: Outcome, c: Ctl, rest: seq<byte>, a: After)
  {
    match o
    case Stuck => a.r == None && !a.more && Represents(a.to, a.buf, c, rest)
    case Go(c', rest') => a.r == None && a.more && Represents(a.to, a.buf, c', rest')
    case Emit(req, left) => a.r == Some(req) && !a.more && Represents(a.to, a.buf, NeedStar, left)
  }

  /** A round from `c` with `rest` unread does what the state machine does. */
  ghost predicate RoundOk(c: Ctl, rest: seq<byte>, a: After)
  {
    c.Ok() && a.to.Valid(a.buf) && forall t {:trigger Open(RoundSeal, t)} :: Open(RoundSeal, t) ==> Follows(Step(c, rest), c, rest, a)
  }

  /** An error came out and the stream goes on at the next star in `tail`. */
  ghost predicate Rejected(a: After, error: Request, tail: seq<byte>)
  {
    && a.to.Valid(a.buf) && a.r == Some(error) && !a.more
    && forall t {:trigger Open(RejectSeal, t)} :: Open(RejectSeal, t) ==> Represents(a.to, a.buf, NeedStar, Resync(tail))
  }

  lemma Shown(cur: Cursor, buf: seq<byte>)
    requires cur.Valid(buf)
    ensures Represents(cur, buf, cur.Ctl(buf), cur.Rest(buf))
  {
  }

  /** What the fields say about the control state. */
  lemma Kind(cur: Cursor, buf: seq<byte>, c: Ctl, rest: seq<byte>)
    requires Represents(cur, buf, c, rest)
    ensures c.Ok() && rest == buf[cur.pos..]
    ensures (cur.st == Star <==> c.NeedStar?) && (cur.st == Argc <==> c.NeedArgc?) && (cur.st == Dollar <==> c.NeedDollar?)
    ensures (cur.st == BulkLen <==> c.NeedBulkLen?) && (cur.st == BulkData <==> c.NeedBulkData? && c.bulkLen == cur.bulkLen)
    ensures cur.st == BulkCrlf <==> c.NeedBulkCrlf?
    ensures cur.st == BulkCrlf ==> c.argc == cur.argc && |c.argv| == cur.argi + 1
  {
    assert Open(CursorSeal, true);
  }

  /** `o` is the outcome of the state machine. */
  ghost predicate IsStep(c: Ctl, rest: seq<byte>, o: Outcome)
  {
    c.Ok() && forall t {:trigger Open(StepSeal, t)} :: Open(StepSeal, t) ==> o == Step(c, rest)
  }

  /** `left` is where the stream goes on after an error at the field `f` in front of `rest`. */
  ghost predicate IsAfter(rest: seq<byte>, f: Field, left: seq<byte>)
  {
    Within(f, rest) && |left| <= |rest| && forall t {:trigger Open(AfterSeal, t)} :: Open(AfterSeal, t) ==> left == AfterField(rest, f)
  }

  lemma LeftAfter(rest: seq<byte>, f: Field) returns (left: seq<byte>)
    requires Within(f, rest)
    ensures IsAfter(rest, f, left)
  {
    left := AfterField(rest, f);
  }

  lemma RoundIs(o: Outcome, c: Ctl, rest: seq<byte>, a: After)
    requires IsStep(c, rest, o) && a.to.Valid(a.buf) && Follows(o, c, rest, a)
    ensures RoundOk(c, rest, a)
  {
    assert Open(StepSeal, true);
  }

  /** What a round means for the extraction it is part of. */
  lemma RoundDone(c: Ctl, rest: seq<byte>, a: After) returns (c': Ctl, rest': seq<byte>)
    requires RoundOk(c, rest, a)
    ensures Represents(a.to, a.buf, c', rest') && c'.Ok()
    ensures a.more ==> a.r == None && Extract(c', rest') == Extract(c, rest)
    ensures a.more ==> |rest'| < |rest| || (|rest'| == |rest| && c.NeedBulkData? && !c'.NeedBulkData?)
    ensures !a.more ==> match Extract(c, rest)
                        case Idle(d, left) => a.r == None && (c', rest') == (d, left)
                        case Output(req, left) => a.r == Some(req) && (c', rest') == (NeedStar, left)
  {
    assert Open(RoundSeal, true);
    match Step(c, rest)
    case Stuck => c', rest' := c, rest;
    case Go(d, left) => c', rest' := d, left;
    case Emit(_, left) => c', rest' := NeedStar, left;
  }

  // ---- what moving the fields on stands for ----

  lemma AtStar(cur: Cursor, buf: seq<byte>, left: seq<byte>)
    requires cur.Valid(buf) && cur.st == Star && left == buf[cur.pos..]
    ensures Represents(cur, buf, NeedStar, left)
  {
  }

  lemma StarMoves(cur: Cursor, buf: seq<byte>)
    requires cur.Valid(buf) && cur.st == Star && cur.pos < |buf|
    ensures Represents(cur.(cmdStart := cur.pos, pos := cur.pos + 1, st := Argc), buf, NeedArgc([buf[cur.pos]]), buf[cur.pos..][1..])
  {
    assert buf[cur.pos..cur.pos + 1] == [buf[cur.pos]];
  }

  lemma ArgcMoves(cur: Cursor, buf: seq<byte>, c: Ctl, rest: seq<byte>, n: nat, k: nat)
    requires Represents(cur, buf, c, rest) && cur.st == Argc && c.NeedArgc? && 0 < k <= |rest| && 1 <= n <= MAX_ARGS
    ensures Represents(cur.(pos := cur.pos + k, argc := n, argi := 0, slices := [], st := Dollar), buf,
                       NeedDollar(c.frame + rest[..k], n, []), rest[k..])
  {
    assert Open(CursorSeal, true);
    SlidePast(buf, cur.cmdStart, cur.pos, cur.pos + k);
    assert Args(buf, []) == [];
  }

  lemma DollarMoves(cur: Cursor, buf: seq<byte>, c: Ctl, rest: seq<byte>)
    requires Represents(cur, buf, c, rest) && cur.st == Dollar && c.NeedDollar? && rest != []
    ensures Represents(cur.(pos := cur.pos + 1, st := BulkLen), buf, NeedBulkLen(c.frame + rest[..1], c.argc, c.argv), rest[1..])
  {
    assert Open(CursorSeal, true);
    SlidePast(buf, cur.cmdStart, cur.pos, cur.pos + 1);
  }

  lemma LengthMoves(cur: Cursor, buf: seq<byte>, c: Ctl, rest: seq<byte>, n: nat, k: nat)
    requires Represents(cur, buf, c, rest) && cur.st == BulkLen && c.NeedBulkLen? && 0 < k <= |rest| && n <= MAX_BULK
    ensures Represents(cur.(pos := cur.pos + k, bulkLen := n, st := BulkData), buf,
                       NeedBulkData(c.frame + rest[..k], c.argc, c.argv, n), rest[k..])
  {
    assert Open(CursorSeal, true);
    SlidePast(buf, cur.cmdStart, cur.pos, cur.pos + k);
  }

  lemma DataMoves(cur: Cursor, buf: seq<byte>, c: Ctl, rest: seq<byte>)
    requires Represents(cur, buf, c, rest) && cur.st == BulkData && c.NeedBulkData? && c.bulkLen <= |rest|
    ensures 0 <= cur.bulkLen <= MAX_BULK && cur.pos + cur.bulkLen <= |buf|
    ensures Represents(cur.(slices := cur.slices + [Slice(cur.pos as uint32, cur.bulkLen as uint32)],
                            pos := cur.pos + cur.bulkLen, st := BulkCrlf), buf,
                       NeedBulkCrlf(c.frame + rest[..c.bulkLen], c.argc, c.argv + [rest[..c.bulkLen]]), rest[c.bulkLen..])
  {
    assert Open(CursorSeal, true);
    SlidePast(buf, cur.cmdStart, cur.pos, cur.pos + cur.bulkLen);
    assert Args(buf, cur.slices + [Slice(cur.pos as uint32, cur.bulkLen as uint32)])
        == Args(buf, cur.slices) + [buf[cur.pos..cur.pos + cur.bulkLen]];
  }

  lemma CrlfMoves(cur: Cursor, buf: seq<byte>, c: Ctl, rest: seq<byte>)
    requires Represents(cur, buf, c, rest) && cur.st == BulkCrlf && c.NeedBulkCrlf? && 2 <= |rest| && cur.argi + 1 < cur.argc
    ensures Represents(cur.(pos := cur.pos + 2, argi := cur.argi + 1, st := Dollar), buf,
                       NeedDollar(c.frame + rest[..2], c.argc, c.argv), rest[2..])
  {
    assert Open(CursorSeal, true);
    SlidePast(buf, cur.cmdStart, cur.pos, cur.pos + 2);
  }

  lemma CrlfCompletes(cur: Cursor, buf: seq<byte>, c: Ctl, rest: seq<byte>)
    requires Represents(cur, buf, c, rest) && cur.st == BulkCrlf && c.NeedBulkCrlf? && 2 <= |rest|
    ensures cur.pos + 2 <= |buf|
    ensures buf[cur.cmdStart..cur.pos + 2] == c.frame + rest[..2] && buf[cur.pos + 2..] == rest[2..]
    ensures Args(buf, cur.slices) == c.argv
  {
    assert Open(CursorSeal, true);
    SlidePast(buf, cur.cmdStart, cur.pos, cur.pos + 2);
  }

  // ---- the rounds ----

  lemma StarRound(cur: Cursor, buf: seq<byte>, c: Ctl, rest: seq<byte>, a: After)
    requires Represents(cur, buf, c, rest) && cur.st == Star && a.to.Valid(a.buf)
    requires if cur.pos >= |buf| then a.to.st == Star && a.to.Rest(a.buf) == [] && a.r == None && !a.more
             else if buf[cur.pos] != STAR then
               a.to.st == Star && a.to.Rest(a.buf) == SkipLine(buf[cur.pos..]) && a.r == Some(PROTOCOL_ERROR) && !a.more
             else a == After(cur.(cmdStart := cur.pos, pos := cur.pos + 1, st := Argc), buf, None, true)
    ensures RoundOk(c, rest, a)
  {
    Kind(cur, buf, c, rest);
    if a.more {
      StarMoves(cur, buf);
    } else {
      AtStar(a.to, a.buf, a.to.Rest(a.buf));
    }
    RoundIs(Step(c, rest), c, rest, a);
  }

  lemma FieldStep(c: Ctl, rest: seq<byte>, f: Field, left: seq<byte>)
    requires c.Ok() && IsField(rest, f) && IsAfter(rest, f, left)
    ensures c.NeedArgc? ==> IsStep(c, rest, StepArgc(c, rest, f, left))
    ensures c.NeedBulkLen? ==> IsStep(c, rest, StepLength(c, rest, f, left))
  {
    assert Open(FieldSeal, true) && Open(AfterSeal, true);
  }

  lemma ByteStep(c: Ctl, rest: seq<byte>, left: seq<byte>)
    requires c.Ok() && IsAfter(rest, FieldMore, left)
    ensures c.NeedDollar? ==> IsStep(c, rest, StepDollar(c, rest, left))
    ensures c.NeedBulkCrlf? ==> IsStep(c, rest, StepCrlf(c, rest, left))
  {
    assert Open(AfterSeal, true);
  }

  /** A rejection right before the field `f` or right behind it goes on where the machine does. */
  lemma RejectedHere(a: After, error: Request, rest: seq<byte>, f: Field, left: seq<byte>)
    requires IsAfter(rest, f, left) && Rejected(a, error, if f.FieldOk? then rest[f.size..] else rest)
    ensures Represents(a.to, a.buf, NeedStar, left)
  {
    assert Open(AfterSeal, true) && Open(RejectSeal, true);
  }

  lemma ArgcRound(cur: Cursor, buf: seq<byte>, c: Ctl, rest: seq<byte>, f: Field, a: After)
    requires Represents(cur, buf, c, rest) && cur.st == Argc && IsField(rest, f)
    requires match f
             case FieldMore => a == After(cur, buf, None, false)
             case FieldBad => Rejected(a, PROTOCOL_ERROR, rest)
             case FieldOk(n, k) =>
               if n <= 0 || n > MAX_ARGS then Rejected(a, INVALID_ARGC, rest[k..])
               else a == After(cur.(pos := cur.pos + k, argc := n, argi := 0, slices := [], st := Dollar), buf, None, true)
    ensures RoundOk(c, rest, a)
  {
    Kind(cur, buf, c, rest);
    var left := LeftAfter(rest, f);
    FieldStep(c, rest, f, left);
    if f.FieldBad? {
      RejectedHere(a, PROTOCOL_ERROR, rest, f, left);
    } else if f.FieldOk? && 1 <= f.value <= MAX_ARGS {
      ArgcMoves(cur, buf, c, rest, f.value, f.size);
    } else if f.FieldOk? {
      RejectedHere(a, INVALID_ARGC, rest, f, left);
    }
    RoundIs(StepArgc(c, rest, f, left), c, rest, a);
  }

  lemma LengthRound(cur: Cursor, buf: seq<byte>, c: Ctl, rest: seq<byte>, f: Field, a: After)
    requires Represents(cur, buf, c, rest) && cur.st == BulkLen && IsField(rest, f)
    requires match f
             case FieldMore => a == After(cur, buf, None, false)
             case FieldBad => Rejected(a, PROTOCOL_ERROR, rest)
             case FieldOk(n, k) =>
               if n < 0 || n > MAX_BULK then Rejected(a, INVALID_BULK_LENGTH, rest[k..])
               else a == After(cur.(pos := cur.pos + k, bulkLen := n, st := BulkData), buf, None, true)
    ensures RoundOk(c, rest, a)
  {
    Kind(cur, buf, c, rest);
    var left := LeftAfter(rest, f);
    FieldStep(c, rest, f, left);
    if f.FieldBad? {
      RejectedHere(a, PROTOCOL_ERROR, rest, f, left);
    } else if f.FieldOk? && 0 <= f.value <= MAX_BULK {
      LengthMoves(cur, buf, c, rest, f.value, f.size);
    } else if f.FieldOk? {
      RejectedHere(a, INVALID_BULK_LENGTH, rest, f, left);
    }
    RoundIs(StepLength(c, rest, f, left), c, rest, a);
  }

  lemma DollarRound(cur: Cursor, buf: seq<byte>, c: Ctl, rest: seq<byte>, a: After)
    requires Represents(cur, buf, c, rest) && cur.st == Dollar
    requires if cur.pos >= |buf| then a == After(cur, buf, None, false)
             else if buf[cur.pos] != DOLLAR then Rejected(a, PROTOCOL_ERROR, rest)
             else a == After(cur.(pos := cur.pos + 1, st := BulkLen), buf, None, true)
    ensures RoundOk(c, rest, a)
  {
    Kind(cur, buf, c, rest);
    var left := LeftAfter(rest, FieldMore);
    ByteStep(c, rest, left);
    if a.more {
      DollarMoves(cur, buf, c, rest);
    } else if a.r.Some? {
      RejectedHere(a, PROTOCOL_ERROR, rest, FieldMore, left);
    }
    RoundIs(StepDollar(c, rest, left), c, rest, a);
  }

  lemma DataRound(cur: Cursor, buf: seq<byte>, c: Ctl, rest: seq<byte>, a: After)
    requires Represents(cur, buf, c, rest) && cur.st == BulkData
    requires if cur.pos + cur.bulkLen > |buf| then a == After(cur, buf, None, false)
             else a == After(cur.(slices := cur.slices + [Slice(cur.pos as uint32, cur.bulkLen as uint32)],
                                  pos := cur.pos + cur.bulkLen, st := BulkCrlf), buf, None, true)
    ensures RoundOk(c, rest, a)
  {
    Kind(cur, buf, c, rest);
    if a.more {
      DataMoves(cur, buf, c, rest);
    }
    RoundIs(StepData(c, rest), c, rest, a);
  }

  lemma CrlfRound(cur: Cursor, buf: seq<byte>, c: Ctl, rest: seq<byte>, a: After)
    requires Represents(cur, buf, c, rest) && cur.st == BulkCrlf
    requires if cur.pos + 2 > |buf| then a == After(cur, buf, None, false)
             else if buf[cur.pos] != CR || buf[cur.pos + 1] != LF then Rejected(a, PROTOCOL_ERROR, rest)
             else if cur.argi + 1 == cur.argc then
               && a.to.Valid(a.buf) && a.to.st == Star && a.to.Rest(a.buf) == buf[cur.pos + 2..] && !a.more
               && a.r == Some(Request(buf[cur.cmdStart..cur.pos + 2], Args(buf, cur.slices)))
             else a == After(cur.(pos := cur.pos + 2, argi := cur.argi + 1, st := Dollar), buf, None, true)
    ensures RoundOk(c, rest, a)
  {
    Kind(cur, buf, c, rest);
    var left := LeftAfter(rest, FieldMore);
    ByteStep(c, rest, left);
    if cur.pos + 2 <= |buf| {
      assert rest[..2] == [buf[cur.pos], buf[cur.pos + 1]];
      if rest[..2] != CRLF {
        RejectedHere(a, PROTOCOL_ERROR, rest, FieldMore, left);
      } else if cur.argi + 1 == cur.argc {
        CrlfCompletes(cur, buf, c, rest);
        AtStar(a.to, a.buf, rest[2..]);
      } else {
        CrlfMoves(cur, buf, c, rest);
      }
    }
    RoundIs(StepCrlf(c, rest, left), c, rest, a);
  }

  class RespStreamProcessor {
    var st: Stage
    var pos: nat
    var cmdStart: nat
    var argc: int
    var argi: int
    var bulkLen: int
    var slices: seq<Slice>

    constructor ()
      ensures Valid([]) && Ctl([]) == NeedStar && Rest([]) == []
    {
      st, pos, cmdStart, argc, argi, bulkLen, slices := Star, 0, 0, 0, 0, 0, [];
    }

    ghost function View(): Cursor
      reads this
    {
      Cursor(st, pos, cmdStart, argc, argi, bulkLen, slices)
    }

    ghost predicate Valid(buf: seq<byte>)
      reads this
    {
      View().Valid(buf)
    }

    ghost function Ctl(buf: seq<byte>): (c: Ctl)
      requires Valid(buf)
      reads this
      ensures c.Ok()
    {
      View().Ctl(buf)
    }

    ghost function Rest(buf: seq<byte>): seq<byte>
      requires Valid(buf)
      reads this
    {
      View().Rest(buf)
    }

    /** Appending a chunk to the buffer keeps the frame in progress and its slices. */
    lemma Append(buf: seq<byte>, chunk: seq<byte>)
      requires Valid(buf) && |buf + chunk| < BUFFER_LIMIT
      ensures Valid(buf + chunk)
      ensures Ctl(buf + chunk) == Ctl(buf) && Rest(buf + chunk) == Rest(buf) + chunk
    {
      if st != Star {
        assert (buf + chunk)[cmdStart..pos] == buf[cmdStart..pos];
        if st != Argc {
          ArgsAppend(buf, chunk, slices, cmdStart, pos);
        }
      }
    }

    /** The buffer holds no more than the frame in progress, what is unread and a short prefix. */
    lemma BufferSize(buf: seq<byte>)
      requires Valid(buf)
      ensures |buf| < 4096 + |Ctl(buf).Scanned()| + |Rest(buf)|
    {
    }

    /** `f` is the field at the position, which is passed when it is there. */
    method ParseIntCrlf(buf: seq<byte>) returns (status: Status, out: int, ghost f: Field)
      requires pos <= |buf|
      modifies this`pos
      ensures IsField(buf[old(pos)..], f)
      ensures match f
              case FieldMore => status == NeedMore && pos == old(pos)
              case FieldBad => status == Invalid && pos == old(pos)
              case FieldOk(v, k) => status == Ok && out == v && pos == old(pos) + k
    {
      out := 0;
      ghost var rest := buf[pos..];
      f := IntField(rest);
      if pos >= |buf| {
        return NeedMore, 0, f;
      }
      var nl := pos + Find(buf[pos..], LF);
      if nl == |buf| {
        return NeedMore, 0, f;
      }
      if nl == pos || buf[nl - 1] != CR {
        return Invalid, 0, f;
      }
      ghost var text := rest[..nl - 1 - pos];
      assert text == buf[pos..nl - 1];
      var q, neg := pos, false;
      if buf[q] == MINUS {
        neg := true;
        q := q + 1;
      }
      if q == nl - 1 {
        return Invalid, 0, f;
      }
      var ok, v := Digits(buf[q..nl - 1]);
      assert buf[q..nl - 1] == if neg then text[1..] else text;
      if !ok {
        return Invalid, 0, f;
      }
      status, out := Ok, if neg then Wrap64(-v) else v;
      if neg {
        WrapNeg(DigitsValue(text[1..]));
      }
      pos := nl + 1;
    }

    /** After an error: back to the start state, at the next star or at the end. */
    method ResetAndResync(buf: seq<byte>) returns (buf': seq<byte>)
      requires pos <= |buf| < BUFFER_LIMIT
      modifies this`st, this`pos
      ensures st == Star && pos <= |buf'| < BUFFER_LIMIT && pos < COMPACT_AT
      ensures buf'[pos..] == Resync(buf[old(pos)..])
    {
      st := Star;
      buf' := buf;
      if pos >= |buf| {
        buf', pos := CompactIfNeeded(buf, pos);
        return;
      }
      ghost var rest := buf[pos..];
      var star := Find(buf[pos..], STAR);
      if star == |buf| - pos {
        pos := |buf|;
      } else {
        pos := pos + star;
      }
      assert buf[pos..] == rest[star..];
      buf', pos := CompactIfNeeded(buf, pos);
    }

    /** An error reply from inside a frame. */
    method Reject(buf: seq<byte>, error: Request, ghost tail: seq<byte>) returns (buf': seq<byte>, r: Option<Request>)
      requires pos <= |buf| < BUFFER_LIMIT && tail == buf[pos..]
      modifies this`st, this`pos
      ensures Rejected(After(View(), buf', r, false), error, tail)
    {
      buf' := ResetAndResync(buf);
      r := Some(error);
      AtStar(View(), buf', buf'[pos..]);
    }

    method RoundStar(buf: seq<byte>, ghost c: Ctl, ghost rest: seq<byte>)
      returns (buf': seq<byte>, r: Option<Request>, more: bool)
      requires Represents(View(), buf, c, rest) && st == Star
      modifies this
      ensures RoundOk(c, rest, After(View(), buf', r, more))
    {
      buf', r, more := buf, None, false;
      ghost var cur := View();
      if pos >= |buf| {
        buf', pos := CompactIfNeeded(buf, pos);
      } else if buf[pos] != STAR {
        ghost var tail := buf[pos..];
        var nl := Find(buf[pos..], LF);
        pos := if nl == |buf| - pos then |buf| else pos + nl + 1;
        assert buf[pos..] == SkipLine(tail);
        buf', pos := CompactIfNeeded(buf, pos);
        r := Some(PROTOCOL_ERROR);
      } else {
        cmdStart := pos;
        pos := pos + 1;
        st := Argc;
        more := true;
      }
      StarRound(cur, buf, c, rest, After(View(), buf', r, more));
    }

    method RoundArgc(buf: seq<byte>, ghost c: Ctl, ghost rest: seq<byte>)
      returns (buf': seq<byte>, r: Option<Request>, more: bool)
      requires Represents(View(), buf, c, rest) && st == Argc
      modifies this
      ensures RoundOk(c, rest, After(View(), buf', r, more))
    {
      buf', r, more := buf, None, false;
      ghost var cur := View();
      Kind(cur, buf, c, rest);
      var status, n, f := ParseIntCrlf(buf);
      SlidePast(buf, cur.pos, cur.pos, pos);
      if status == Invalid {
        buf', r := Reject(buf, PROTOCOL_ERROR, rest);
      } else if status == Ok && (n <= 0 || n > MAX_ARGS) {
        buf', r := Reject(buf, INVALID_ARGC, rest[f.size..]);
      } else if status == Ok {
        argc, argi, slices := n, 0, [];
        st := Dollar;
        more := true;
      }
      ArgcRound(cur, buf, c, rest, f, After(View(), buf', r, more));
    }

    method RoundDollar(buf: seq<byte>, ghost c: Ctl, ghost rest: seq<byte>)
      returns (buf': seq<byte>, r: Option<Request>, more: bool)
      requires Represents(View(), buf, c, rest) && st == Dollar
      modifies this
      ensures RoundOk(c, rest, After(View(), buf', r, more))
    {
      buf', r, more := buf, None, false;
      ghost var cur := View();
      Kind(cur, buf, c, rest);
      if pos < |buf| && buf[pos] != DOLLAR {
        buf', r := Reject(buf, PROTOCOL_ERROR, rest);
      } else if pos < |buf| {
        pos := pos + 1;
        st := BulkLen;
        more := true;
      }
      DollarRound(cur, buf, c, rest, After(View(), buf', r, more));
    }

    method RoundBulkLen(buf: seq<byte>, ghost c: Ctl, ghost rest: seq<byte>)
      returns (buf': seq<byte>, r: Option<Request>, more: bool)
      requires Represents(View(), buf, c, rest) && st == BulkLen
      modifies this
      ensures RoundOk(c, rest, After(View(), buf', r, more))
    {
      buf', r, more := buf, None, false;
      ghost var cur := View();
      Kind(cur, buf, c, rest);
      var status, n, f := ParseIntCrlf(buf);
      SlidePast(buf, cur.pos, cur.pos, pos);
      if status == Invalid {
        buf', r := Reject(buf, PROTOCOL_ERROR, rest);
      } else if status == Ok && (n < 0 || n > MAX_BULK) {
        buf', r := Reject(buf, INVALID_BULK_LENGTH, rest[f.size..]);
      } else if status == Ok {
        bulkLen := n;
        st := BulkData;
        more := true;
      }
      LengthRound(cur, buf, c, rest, f, After(View(), buf', r, more));
    }

    method RoundBulkData(buf: seq<byte>, ghost c: Ctl, ghost rest: seq<byte>)
      returns (buf': seq<byte>, r: Option<Request>, more: bool)
      requires Represents(View(), buf, c, rest) && st == BulkData
      modifies this
      ensures RoundOk(c, rest, After(View(), buf', r, more))
    {
      buf', r, more := buf, None, false;
      ghost var cur := View();
      if pos + bulkLen <= |buf| {
        slices := slices + [Slice(pos as uint32, bulkLen as uint32)];
        pos := pos + bulkLen;
        st := BulkCrlf;
        more := true;
      }
      DataRound(cur, buf, c, rest, After(View(), buf', r, more));
    }

    /** A whole command: its frame is copied, the arguments cut out of it, the buffer compacted. */
    method Complete(buf: seq<byte>) returns (buf': seq<byte>, r: Option<Request>)
      requires cmdStart <= pos <= |buf| < BUFFER_LIMIT && SlicesOk(slices, cmdStart, pos)
      modifies this`st, this`pos
      ensures Valid(buf') && st == Star && Rest(buf') == buf[old(pos)..]
      ensures r == Some(Request(buf[cmdStart..old(pos)], Args(buf, slices)))
    {
      var frame := buf[cmdStart..pos];
      var argv := Materialize(buf, frame, slices, cmdStart, pos);
      st := Star;
      buf', pos := CompactIfNeeded(buf, pos);
      r := Some(Request(frame, argv));
    }

    method RoundBulkCrlf(buf: seq<byte>, ghost c: Ctl, ghost rest: seq<byte>)
      returns (buf': seq<byte>, r: Option<Request>, more: bool)
      requires Represents(View(), buf, c, rest) && st == BulkCrlf
      modifies this
      ensures RoundOk(c, rest, After(View(), buf', r, more))
    {
      buf', r, more := buf, None, false;
      ghost var cur := View();
      Kind(cur, buf, c, rest);
      if pos + 2 <= |buf| && (buf[pos] != CR || buf[pos + 1] != LF) {
        buf', r := Reject(buf, PROTOCOL_ERROR, rest);
      } else if pos + 2 <= |buf| {
        pos := pos + 2;
        argi := argi + 1;
        if argi == argc {
          buf', r := Complete(buf);
        } else {
          st := Dollar;
          more := true;
        }
      }
      CrlfRound(cur, buf, c, rest, After(View(), buf', r, more));
    }

    /** try_extract_request: exactly one extraction of the state machine, on the caller's
        buffer. `Valid` holds the position inside the buffer, so clamping it changes nothing. */
    method TryExtractRequest(buf: seq<byte>) returns (buf': seq<byte>, r: Option<Request>)
      requires Valid(buf)
      modifies this
      ensures Valid(buf')
      ensures match old(Extract(Ctl(buf), Rest(buf)))
              case Idle(c, rest) => r == None && Ctl(buf') == c && Rest(buf') == rest
              case Output(req, left) => r == Some(req) && Ctl(buf') == NeedStar && Rest(buf') == left
    {
      buf' := buf;
      ghost var c, rest := Ctl(buf), Rest(buf);
      ghost var goal := Extract(c, rest);
      Shown(View(), buf);
      while true
        invariant Represents(View(), buf', c, rest) && c.Ok() && Extract(c, rest) == goal
        decreases |rest|, if c.NeedBulkData? then 1 else 0
      {
        var more: bool;
        match st {
          case Star => buf', r, more := RoundStar(buf', c, rest);
          case Argc => buf', r, more := RoundArgc(buf', c, rest);
          case Dollar => buf', r, more := RoundDollar(buf', c, rest);
          case BulkLen => buf', r, more := RoundBulkLen(buf', c, rest);
          case BulkData => buf', r, more := RoundBulkData(buf', c, rest);
          case BulkCrlf => buf', r, more := RoundBulkCrlf(buf', c, rest);
        }
        c, rest := RoundDone(c, rest, After(View(), buf', r, more));
        if !more {
          assert Open(CursorSeal, true);
          return;
        }
      }
    }

    /** The read loop's inner loop on one freshly appended buffer; it always ends. */
    method DrainBuffer(buf: seq<byte>) returns (buf': seq<byte>, outs: seq<Request>)
      requires Valid(buf)
      modifies this
      ensures Valid(buf')
      ensures Drained(outs, Ctl(buf'), Rest(buf')) == old(Drain(Ctl(buf), Rest(buf)))
    {
      buf', outs := buf, [];
      PrecededByNone(Drain(Ctl(buf), Rest(buf)));
      while true
        invariant Valid(buf')
        invariant Preceded(outs, Drain(Ctl(buf'), Rest(buf'))) == old(Drain(Ctl(buf), Rest(buf)))
        decreases |Ctl(buf').Scanned()| + |Rest(buf')|
      {
        Undrained(outs, Ctl(buf'), Rest(buf'));
        var r;
        buf', r := TryExtractRequest(buf');
        if r == None {
          return;
        }
        outs := outs + [r.value];
      }
    }

    /** One turn of the read loop: the chunk goes to the end of the buffer, which is drained. */
    method Feed(buf: seq<byte>, chunk: seq<byte>) returns (buf': seq<byte>, outs: seq<Request>)
      requires Valid(buf) && |buf| + |chunk| < BUFFER_LIMIT
      modifies this
      ensures Valid(buf')
      ensures Drained(outs, Ctl(buf'), Rest(buf')) == old(Drain(Ctl(buf), Rest(buf) + chunk))
    {
      Append(buf, chunk);
      buf', outs := DrainBuffer(buf + chunk);
    }
  }

  /** Before each chunk, the bytes of the unfinished frame leave room for it in the buffer. */
  predicate FitsBuffer(chunks: seq<seq<byte>>)
  {
    forall i :: 0 <= i < |chunks| ==> 4096 + |Unfinished(chunks[..i])| + |chunks[i]| <= 0x1_0000_0000
  }

  /** The read loop with its extractor over a whole connection: every chunk is appended to the
      shared buffer and the buffer is drained. For every list of chunks that the buffer can
      take, the requests are those of the state machine without offsets; for encoded
      commands, in particular, they are those commands. */
  method Receive(chunks: seq<seq<byte>>) returns (outs: seq<Request>)
    requires FitsBuffer(chunks)
    ensures outs == Session(NeedStar, [], chunks).outs
    ensures forall cmds :: AreCommands(cmds) && Concat(chunks) == EncodeAll(cmds) ==> outs == Requests(cmds)
  {
    var p := new RespStreamProcessor();
    var buf: seq<byte> := [];
    outs := [];
    for i := 0 to |chunks|
      invariant fresh(p) && p.Valid(buf)
      invariant Drained(outs, p.Ctl(buf), p.Rest(buf)) == Session(NeedStar, [], chunks[..i])
    {
      p.BufferSize(buf);
      ghost var before := Drained(outs, p.Ctl(buf), p.Rest(buf));
      Room(chunks, i, before);
      var more;
      buf, more := p.Feed(buf, chunks[i]);
      FedBy(chunks, i, before, Drained(more, p.Ctl(buf), p.Rest(buf)));
      outs := outs + more;
    }
    assert chunks[..|chunks|] == chunks;
    CommandsReceived(chunks);
  }

  lemma Room(chunks: seq<seq<byte>>, i: nat, d: Drained)
    requires FitsBuffer(chunks) && i < |chunks| && d == Session(NeedStar, [], chunks[..i])
    ensures COMPACT_AT + |d.ctl.Scanned()| + |d.rest| + |chunks[i]| <= BUFFER_LIMIT
  {
    assert Unfinished(chunks[..i]) == d.ctl.Scanned() + d.rest;
  }

  lemma FedBy(chunks: seq<seq<byte>>, i: nat, d: Drained, next: Drained)
    requires i < |chunks| && d == Session(NeedStar, [], chunks[..i])
    requires d.ctl.Ok() && next == Drain(d.ctl, d.rest + chunks[i])
    ensures Drained(d.outs + next.outs, next.ctl, next.rest) == Session(NeedStar, [], chunks[..i + 1])
  {
    SessionSnoc(NeedStar, [], chunks[..i], chunks[i]);
    assert chunks[..i] + [chunks[i]] == chunks[..i + 1];
  }

  lemma CommandsReceived(chunks: seq<seq<byte>>)
    ensures forall cmds :: AreCommands(cmds) && Concat(chunks) == EncodeAll(cmds) ==>
              Session(NeedStar, [], chunks).outs == Requests(cmds)
  {
    forall cmds | AreCommands(cmds) && Concat(chunks) == EncodeAll(cmds)
      ensures Session(NeedStar, [], chunks).outs == Requests(cmds)
    {
      RoundTrip(cmds, chunks);
    }
  }

  /** Encoded commands fit, however long the connection, when no command with the next chunk
      behind it fills the buffer. */
  lemma CommandsFit(cmds: seq<seq<seq<byte>>>, chunks: seq<seq<byte>>)
    requires AreCommands(cmds) && Concat(chunks) == EncodeAll(cmds)
    requires forall i, j :: 0 <= i < |cmds| && 0 <= j < |chunks| ==>
               4096 + |EncodeArray(cmds[i])| + |chunks[j]| <= 0x1_0000_0000
    ensures FitsBuffer(chunks)
  {
    forall j | 0 <= j < |chunks| ensures COMPACT_AT + |Unfinished(chunks[..j])| + |chunks[j]| <= BUFFER_LIMIT {
      UnfinishedIsShort(cmds, chunks, j);
    }
  }

  /** A drain whose outputs come after `outs`. */
  ghost function Preceded(outs: seq<Request>, d: Drained): Drained
  {
    d.(outs := outs + d.outs)
  }

  lemma PrecededByNone(d: Drained)
    ensures Preceded([], d) == d
  {
  }

  lemma PrecededCons(outs: seq<Request>, req: Request, d: Drained)
    ensures Preceded(outs, d.(outs := [req] + d.outs)) == Preceded(outs + [req], d)
  {
  }

  lemma Undrained(outs: seq<Request>, c: Ctl, rest: seq<byte>)
    requires c.Ok()
    ensures match Extract(c, rest)
            case Idle(c', rest') => Preceded(outs, Drain(c, rest)) == Drained(outs, c', rest')
            case Output(req, left) =>
              Preceded(outs, Drain(c, rest)) == Preceded(outs + [req], Drain(NeedStar, left))
  {
    var x := Extract(c, rest);
    if x.Output? {
      PrecededCons(outs, x.req, Drain(NeedStar, x.left));
    }
  }

  ghost predicate SlicesOk(slices: seq<Slice>, lo: nat, hi: nat)
  {
    forall i :: 0 <= i < |slices| ==> lo <= slices[i].off as nat && slices[i].off as nat + slices[i].len as nat <= hi
  }

  /** The arguments the slices stand for. */
  ghost function Args(buf: seq<byte>, slices: seq<Slice>): (r: seq<seq<byte>>)
    requires SlicesOk(slices, 0, |buf|)
    ensures |r| == |slices|
  {
    seq(|slices|, i requires 0 <= i < |slices| =>
      buf[slices[i].off as nat .. slices[i].off as nat + slices[i].len as nat])
  }

  lemma ArgsAppend(buf: seq<byte>, chunk: seq<byte>, slices: seq<Slice>, lo: nat, hi: nat)
    requires hi <= |buf| && SlicesOk(slices, lo, hi)
    ensures Args(buf + chunk, slices) == Args(buf, slices)
  {
    forall i | 0 <= i < |slices|
      ensures Args(buf + chunk, slices)[i] == Args(buf, slices)[i]
    {
      var off, end := slices[i].off as nat, slices[i].off as nat + slices[i].len as nat;
      assert (buf + chunk)[off..end] == buf[off..end];
    }
  }

  /** Moving the position from `p` to `p'` moves `buf[p..p']` from the rest to the frame. */
  lemma SlidePast(buf: seq<byte>, start: nat, p: nat, p': nat)
    requires start <= p <= p' <= |buf|
    ensures buf[start..p'] == buf[start..p] + buf[p..][..p' - p]
    ensures buf[p'..] == buf[p..][p' - p..]
    ensures buf[p..][..p' - p] == buf[p..p']
  {
  }

  lemma SubSlice(buf: seq<byte>, start: nat, end: nat, off: nat, len: nat)
    requires start <= off && off + len <= end <= |buf|
    ensures buf[start..end][off - start..off - start + len] == buf[off..off + len]
  {
    var a, b := buf[start..end][off - start..off - start + len], buf[off..off + len];
    assert |a| == |b|;
    forall i | 0 <= i < len
      ensures a[i] == b[i]
    {
      assert a[i] == buf[start..end][off - start + i] == buf[off + i];
    }
  }

  /** Cuts the arguments out of the copied frame, at offsets relative to its start. */
  method Materialize(buf: seq<byte>, frame: seq<byte>, slices: seq<Slice>, cmdStart: nat, pos: nat)
    returns (argv: seq<seq<byte>>)
    requires cmdStart <= pos <= |buf| && frame == buf[cmdStart..pos]
    requires SlicesOk(slices, cmdStart, pos)
    ensures argv == Args(buf, slices)
  {
    argv := [];
    for k := 0 to |slices|
      invariant argv == Args(buf, slices)[..k]
    {
      var rel := slices[k].off as nat - cmdStart;
      SubSlice(buf, cmdStart, pos, slices[k].off as nat, slices[k].len as nat);
      argv := argv + [frame[rel..rel + slices[k].len as nat]];
    }
  }

  /** Decimal accumulation in a 64-bit register. */
  method Digits(ds: seq<byte>) returns (ok: bool, v: int)
    ensures ok == AllDigits(ds)
    ensures ok ==> v == Wrap64(DigitsValue(ds))
  {
    ok, v := true, 0;
    for i := 0 to |ds|
      invariant AllDigits(ds[..i]) && v == Wrap64(DigitsValue(ds[..i]))
    {
      if !IsDigit(ds[i]) {
        return false, v;
      }
      var d := ds[i] as int - 48;
      assert ds[..i + 1][..i] == ds[..i];
      WrapStep(DigitsValue(ds[..i]), d);
      v := Wrap64(v * 10 + d);
    }
    assert ds[..|ds|] == ds;
  }
}
