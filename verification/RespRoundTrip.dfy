/** The extractor undoes the array writer, under every cut into chunks, and finds its way
    back to the commands after an error. */
module RespRoundTrip {
  import opened Bytes
  import opened RespWriter
  import opened RespStream

  /** What the extractor's limits admit: 1 to 1024 arguments of at most 64 MiB. */
  predicate IsCommand(argv: seq<seq<byte>>)
  {
    1 <= |argv| <= 1024 && forall i :: 0 <= i < |argv| ==> |argv[i]| <= 0x400_0000
  }

  predicate AreCommands(cmds: seq<seq<seq<byte>>>) { forall i :: 0 <= i < |cmds| ==> IsCommand(cmds[i]) }

  function EncodeAll(cmds: seq<seq<seq<byte>>>): (r: seq<byte>)
  {
    if cmds == [] then [] else EncodeArray(cmds[0]) + EncodeAll(cmds[1..])
  }

  /** The requests one expects for `cmds`: each command with its own encoding as frame. */
  function Requests(cmds: seq<seq<seq<byte>>>): (r: seq<Request>)
    ensures |r| == |cmds|
    ensures forall i :: 0 <= i < |cmds| ==> r[i] == Request(EncodeArray(cmds[i]), cmds[i])
  {
    seq(|cmds|, i requires 0 <= i < |cmds| => Request(EncodeArray(cmds[i]), cmds[i]))
  }

  lemma Front(a: seq<byte>, t: seq<byte>)
    ensures (a + t)[..|a|] == a && (a + t)[|a|..] == t
  {
  }

  lemma ExtractGo(c: Ctl, rest: seq<byte>, c': Ctl, rest': seq<byte>)
    requires c.Ok() && Step(c, rest) == Go(c', rest')
    ensures Extract(c, rest) == Extract(c', rest')
  {
  }

  /** The field of a written number, line end included. */
  function Header(n: nat): (r: seq<byte>) { Dec(n) + CRLF }

  lemma FieldEncoded(n: nat, t: seq<byte>)
    ensures IntField(Header(n) + t) == FieldOk(Wrap64(n), |Header(n)|)
  {
    DecIsNumeral(n);
    var d := Dec(n);
    var rest := Header(n) + t;
    assert forall i :: 0 <= i < |d| ==> rest[i] == d[i];
    assert rest[|d|] == CR && rest[|d| + 1] == LF;
    FindIs(rest, LF, |d| + 1);
    assert rest[..|d|] == d;
  }

  lemma ArgcStep(n: nat, t: seq<byte>)
    requires 1 <= Wrap64(n) <= MAX_ARGS
    ensures Step(NeedArgc([STAR]), Header(n) + t) == Go(NeedDollar([STAR] + Header(n), Wrap64(n), []), t)
  {
    FieldEncoded(n, t);
    Front(Header(n), t);
  }

  lemma DollarStep(frame: seq<byte>, argc: nat, argv: seq<seq<byte>>, t: seq<byte>)
    requires NeedDollar(frame, argc, argv).Ok()
    ensures Step(NeedDollar(frame, argc, argv), [DOLLAR] + t) == Go(NeedBulkLen(frame + [DOLLAR], argc, argv), t)
  {
  }

  lemma LengthStep(frame: seq<byte>, argc: nat, argv: seq<seq<byte>>, n: nat, t: seq<byte>)
    requires NeedBulkLen(frame, argc, argv).Ok() && n <= MAX_BULK
    ensures Step(NeedBulkLen(frame, argc, argv), Header(n) + t)
         == Go(NeedBulkData(frame + Header(n), argc, argv, n), t)
  {
    FieldEncoded(n, t);
    Front(Header(n), t);
  }

  lemma DataStep(frame: seq<byte>, argc: nat, argv: seq<seq<byte>>, s: seq<byte>, t: seq<byte>)
    requires NeedBulkData(frame, argc, argv, |s|).Ok()
    ensures Step(NeedBulkData(frame, argc, argv, |s|), s + t) == Go(NeedBulkCrlf(frame + s, argc, argv + [s]), t)
  {
  }

  lemma CrlfStep(frame: seq<byte>, argc: nat, argv: seq<seq<byte>>, t: seq<byte>)
    requires NeedBulkCrlf(frame, argc, argv).Ok()
    ensures Step(NeedBulkCrlf(frame, argc, argv), CRLF + t)
         == if |argv| == argc then Emit(Request(frame + CRLF, argv), t)
            else Go(NeedDollar(frame + CRLF, argc, argv), t)
  {
  }

  lemma BulkParts(frame: seq<byte>, s: seq<byte>, t: seq<byte>)
    ensures EncodeBulk(s) + t == [DOLLAR] + (Header(|s|) + (s + (CRLF + t)))
    ensures frame + [DOLLAR] + Header(|s|) + s + CRLF == frame + EncodeBulk(s)
  {
  }

  /** The four rounds on one written bulk string. */
  lemma BulkExtracted(frame: seq<byte>, argc: nat, argv: seq<seq<byte>>, s: seq<byte>, t: seq<byte>)
    requires NeedDollar(frame, argc, argv).Ok() && |s| <= MAX_BULK
    ensures Extract(NeedDollar(frame, argc, argv), EncodeBulk(s) + t)
         == if |argv| + 1 == argc then Output(Request(frame + EncodeBulk(s), argv + [s]), t)
            else Extract(NeedDollar(frame + EncodeBulk(s), argc, argv + [s]), t)
  {
    BulkParts(frame, s, t);
    var t3 := CRLF + t;
    var t2 := s + t3;
    var t1 := Header(|s|) + t2;
    var f1 := frame + [DOLLAR];
    var f2 := f1 + Header(|s|);
    var f3 := f2 + s;
    DollarStep(frame, argc, argv, t1);
    ExtractGo(NeedDollar(frame, argc, argv), [DOLLAR] + t1, NeedBulkLen(f1, argc, argv), t1);
    LengthStep(f1, argc, argv, |s|, t2);
    ExtractGo(NeedBulkLen(f1, argc, argv), t1, NeedBulkData(f2, argc, argv, |s|), t2);
    DataStep(f2, argc, argv, s, t3);
    ExtractGo(NeedBulkData(f2, argc, argv, |s|), t2, NeedBulkCrlf(f3, argc, argv + [s]), t3);
    CrlfStep(f3, argc, argv + [s], t);
    if |argv| + 1 != argc {
      ExtractGo(NeedBulkCrlf(f3, argc, argv + [s]), t3, NeedDollar(f3 + CRLF, argc, argv + [s]), t);
    }
  }

  lemma {:induction false} ArgumentsExtracted(frame: seq<byte>, argc: nat, argv: seq<seq<byte>>,
                                              items: seq<seq<byte>>, t: seq<byte>)
    requires NeedDollar(frame, argc, argv).Ok() && |argv| + |items| == argc
    requires forall i :: 0 <= i < |items| ==> |items[i]| <= MAX_BULK
    ensures Extract(NeedDollar(frame, argc, argv), EncodeBulks(items) + t)
         == Output(Request(frame + EncodeBulks(items), argv + items), t)
    decreases |items|
  {
    var s := items[0];
    ItemsParts(frame, argv, items, t);
    BulkExtracted(frame, argc, argv, s, EncodeBulks(items[1..]) + t);
    if |items| == 1 {
      NothingMore(frame + EncodeBulk(s), argv + [s], items[1..], t);
    } else {
      ArgumentsExtracted(frame + EncodeBulk(s), argc, argv + [s], items[1..], t);
    }
  }

  lemma NothingMore(frame: seq<byte>, argv: seq<seq<byte>>, items: seq<seq<byte>>, t: seq<byte>)
    requires items == []
    ensures EncodeBulks(items) + t == t && frame + EncodeBulks(items) == frame && argv + items == argv
  {
  }

  lemma ItemsParts(frame: seq<byte>, argv: seq<seq<byte>>, items: seq<seq<byte>>, t: seq<byte>)
    requires items != []
    ensures EncodeBulks(items) + t == EncodeBulk(items[0]) + (EncodeBulks(items[1..]) + t)
    ensures frame + EncodeBulks(items) == frame + EncodeBulk(items[0]) + EncodeBulks(items[1..])
    ensures argv + items == argv + [items[0]] + items[1..]
  {
    FirstOf(EncodeBulk(items[0]), EncodeBulks(items[1..]), frame, t);
    assert items == [items[0]] + items[1..];
  }

  lemma FirstOf(s: seq<byte>, more: seq<byte>, frame: seq<byte>, t: seq<byte>)
    ensures s + more + t == s + (more + t) && frame + (s + more) == frame + s + more
  {
  }

  lemma ArrayParts(argv: seq<seq<byte>>, t: seq<byte>)
    ensures EncodeArray(argv) + t == [STAR] + (Header(|argv|) + (EncodeBulks(argv) + t))
    ensures [STAR] + Header(|argv|) + EncodeBulks(argv) == EncodeArray(argv)
  {
    Regroup([STAR], Dec(|argv|), CRLF, EncodeBulks(argv), t);
  }

  lemma Regroup<T>(a: seq<T>, b: seq<T>, c: seq<T>, d: seq<T>, t: seq<T>)
    ensures a + b + c + d + t == a + ((b + c) + (d + t))
    ensures a + (b + c) + d == a + b + c + d
  {
  }

  lemma StarStep(t: seq<byte>)
    ensures Step(NeedStar, [STAR] + t) == Go(NeedArgc([STAR]), t)
  {
  }

  lemma ArrayHeaderExtracted(n: nat, t: seq<byte>)
    requires 1 <= Wrap64(n) <= MAX_ARGS
    ensures Extract(NeedStar, [STAR] + (Header(n) + t)) == Extract(NeedDollar([STAR] + Header(n), Wrap64(n), []), t)
  {
    StarStep(Header(n) + t);
    ExtractGo(NeedStar, [STAR] + (Header(n) + t), NeedArgc([STAR]), Header(n) + t);
    ArgcStep(n, t);
    ExtractGo(NeedArgc([STAR]), Header(n) + t, NeedDollar([STAR] + Header(n), Wrap64(n), []), t);
  }

  /** Extracting from a command written with the count `n`, which wraps to the right one. */
  lemma CountedExtracted(n: nat, argv: seq<seq<byte>>, t: seq<byte>)
    requires IsCommand(argv) && Wrap64(n) == |argv|
    ensures Extract(NeedStar, [STAR] + (Header(n) + (EncodeBulks(argv) + t)))
         == Output(Request([STAR] + Header(n) + EncodeBulks(argv), argv), t)
  {
    ArrayHeaderExtracted(n, EncodeBulks(argv) + t);
    ArgumentsExtracted([STAR] + Header(n), |argv|, [], argv, t);
    assert [] + argv == argv;
  }

  /** Extracting from one written command followed by anything gives that command back. */
  lemma CommandExtracted(argv: seq<seq<byte>>, t: seq<byte>)
    requires IsCommand(argv)
    ensures Extract(NeedStar, EncodeArray(argv) + t) == Output(Request(EncodeArray(argv), argv), t)
  {
    ArrayParts(argv, t);
    CountedExtracted(|argv|, argv, t);
  }

  /** A command at the front comes out of the drain first. */
  lemma {:induction false} FirstDrained(argv: seq<seq<byte>>, t: seq<byte>, d: Drained)
    requires IsCommand(argv) && d == Drain(NeedStar, t)
    ensures Drain(NeedStar, EncodeArray(argv) + t) == d.(outs := [Request(EncodeArray(argv), argv)] + d.outs)
  {
    CommandExtracted(argv, t);
  }

  lemma RequestsSplit(cmds: seq<seq<seq<byte>>>, j: nat)
    requires j < |cmds|
    ensures Requests(cmds[..j + 1]) == [Request(EncodeArray(cmds[0]), cmds[0])] + Requests(cmds[1..][..j])
  {
  }

  lemma {:induction false} CommandsDrained(cmds: seq<seq<seq<byte>>>)
    requires AreCommands(cmds)
    ensures Drain(NeedStar, EncodeAll(cmds)) == Drained(Requests(cmds), NeedStar, [])
  {
    if cmds == [] {
    } else {
      CommandsDrained(cmds[1..]);
      FirstDrained(cmds[0], EncodeAll(cmds[1..]), Drained(Requests(cmds[1..]), NeedStar, []));
      assert Requests(cmds) == [Request(EncodeArray(cmds[0]), cmds[0])] + Requests(cmds[1..]);
    }
  }

  /** The protocol law: whatever the commands and however their encoding is cut into
      chunks, the extractor yields exactly those commands, in order, and is left empty. */
  lemma RoundTrip(cmds: seq<seq<seq<byte>>>, chunks: seq<seq<byte>>)
    requires AreCommands(cmds)
    requires Concat(chunks) == EncodeAll(cmds)
    ensures Session(NeedStar, [], chunks) == Drained(Requests(cmds), NeedStar, [])
  {
    CommandsDrained(cmds);
    PartSession(Requests(cmds), chunks);
  }

  /** The bytes of the frame that `chunks` leave unfinished. */
  function Unfinished(chunks: seq<seq<byte>>): (r: seq<byte>)
  {
    var d := Session(NeedStar, [], chunks);
    d.ctl.Scanned() + d.rest
  }

  /** A front part of encoded commands is drained as the commands that are whole in it; what is
      left is shorter than the next one, command `j`. */
  lemma {:induction false} PartDrained(cmds: seq<seq<seq<byte>>>, p: seq<byte>) returns (j: nat)
    requires AreCommands(cmds) && p <= EncodeAll(cmds) && p != EncodeAll(cmds)
    ensures j < |cmds| && Drain(NeedStar, p).outs == Requests(cmds[..j])
    ensures |Drain(NeedStar, p).ctl.Scanned() + Drain(NeedStar, p).rest| < |EncodeArray(cmds[j])|
    decreases |cmds|
  {
    var f := EncodeArray(cmds[0]);
    if |p| < |f| {
      j := 0;
      PartIdle(cmds[0], p);
      ExtractConserves(NeedStar, p);
    } else {
      FirstCut(f, EncodeAll(cmds[1..]), p);
      j := PartDrained(cmds[1..], p[|f|..]);
      FirstDrained(cmds[0], p[|f|..], Drain(NeedStar, p[|f|..]));
      RequestsSplit(cmds, j);
      j := j + 1;
    }
  }

  lemma FirstCut(f: seq<byte>, rest: seq<byte>, p: seq<byte>)
    requires p <= f + rest && p != f + rest && |f| <= |p|
    ensures p == f + p[|f|..] && p[|f|..] <= rest && p[|f|..] != rest
  {
    assert (f + rest)[|f|..] == rest;
    assert p[..|f|] == f;
  }

  lemma PartIdle(argv: seq<seq<byte>>, p: seq<byte>)
    requires IsCommand(argv) && p <= EncodeArray(argv) && |p| < |EncodeArray(argv)|
    ensures Extract(NeedStar, p).Idle?
  {
    var f := EncodeArray(argv);
    var t := f[|p|..];
    assert f == p + t && f + [] == f;
    CommandExtracted(argv, []);
    ExtractExtend(NeedStar, p, t);
    ExtractConserves(NeedStar, p);
  }

  lemma ConcatPart(chunks: seq<seq<byte>>, j: nat)
    requires j < |chunks|
    ensures Concat(chunks) == Concat(chunks[..j]) + (chunks[j] + Concat(chunks[j + 1..]))
  {
    if j == 0 {
      assert chunks[..0] == [];
    } else {
      ConcatPart(chunks[1..], j - 1);
      assert chunks[1..][..j - 1] == chunks[..j][1..];
      assert chunks[1..][j..] == chunks[j + 1..];
      Assoc(chunks[0], Concat(chunks[..j][1..]), chunks[j] + Concat(chunks[j + 1..]));
    }
  }

  /** Inside encoded commands, what is unfinished is shorter than a command. */
  lemma UnfinishedIsShort(cmds: seq<seq<seq<byte>>>, chunks: seq<seq<byte>>, j: nat)
    requires AreCommands(cmds) && Concat(chunks) == EncodeAll(cmds) && j < |chunks|
    ensures Unfinished(chunks[..j]) == [] || exists i :: 0 <= i < |cmds| && |Unfinished(chunks[..j])| < |EncodeArray(cmds[i])|
  {
    var p := Concat(chunks[..j]);
    ConcatPart(chunks, j);
    if p == EncodeAll(cmds) {
      RoundTrip(cmds, chunks[..j]);
    } else {
      var i := PartDrained(cmds, p);
      PartSession(Requests(cmds[..i]), chunks[..j]);
    }
  }

  /** Chunks whose bytes drain without an error leave the same state however they are cut. */
  lemma PartSession(outs: seq<Request>, chunks: seq<seq<byte>>)
    requires Drain(NeedStar, Concat(chunks)).outs == outs && ErrorFree(outs)
    ensures Session(NeedStar, [], chunks) == Drain(NeedStar, Concat(chunks))
  {
    ChunkingIrrelevant(NeedStar, [], chunks);
    assert [] + Concat(chunks) == Concat(chunks);
    NoErrorsKept(outs);
    WholePrefix(Session(NeedStar, [], chunks).outs);
  }

  lemma {:induction false} NoErrorsKept(outs: seq<Request>)
    requires ErrorFree(outs)
    ensures UpToError(outs) == outs
  {
    UpToErrorAppend(outs, []);
    assert outs + [] == outs;
  }

  /** When the outputs up to the first error hold no error, there was none at all. */
  lemma {:induction false} WholePrefix(outs: seq<Request>)
    ensures ErrorFree(UpToError(outs)) ==> ErrorFree(outs)
  {
    if outs == [] {
    } else {
      if outs[0].IsError() {
        ErrorFirst(outs, outs[0]);
        ErrorFirst([outs[0]], outs[0]);
      } else {
        var u := UpToError(outs);
        assert u[1..] == UpToError(outs[1..]);
        ErrorInTail(u);
        WholePrefix(outs[1..]);
        ErrorInTail(outs);
      }
    }
  }

  // ---- recovery ----

  lemma GarbageDropped(garbage: seq<byte>, cmds: seq<seq<seq<byte>>>, now: seq<byte>, later: seq<byte>)
    requires STAR !in garbage && now + later == EncodeAll(cmds)
    ensures Resync(garbage + now) == now
  {
    var rest := garbage + now;
    if now == [] {
      FindAbsent(rest, STAR);
    } else {
      assert now[0] == (now + later)[0] == STAR;
      assert rest[|garbage|] == now[0];
      FindIs(rest, STAR, |garbage|);
    }
  }

  /** Recovery: when a round fails inside a frame and what is unread is star-free garbage
      followed by written commands, the error is followed by exactly those commands, even
      when only a part `now` of their bytes has arrived and the others come cut in any way. */
  lemma Recovery(c: Ctl, garbage: seq<byte>, cmds: seq<seq<seq<byte>>>, now: seq<byte>, later: seq<seq<byte>>)
    requires c.Ok() && !c.NeedStar?
    requires Step(c, garbage + now).Emit? && Step(c, garbage + now).req.IsError()
    requires STAR !in garbage && AreCommands(cmds) && now + Concat(later) == EncodeAll(cmds)
    ensures Session(c, [], [garbage + now] + later)
         == Drained([Step(c, garbage + now).req] + Requests(cmds), NeedStar, [])
  {
    var rest := garbage + now;
    ErrorResyncs(c, rest);
    GarbageDropped(garbage, cmds, now, Concat(later));
    var d := Drain(NeedStar, now);
    var req := Step(c, rest).req;
    assert Drain(c, rest) == Drained([req] + d.outs, d.ctl, d.rest);
    SessionCons(c, rest, later);
    SessionCons(NeedStar, now, later);
    assert ([now] + later)[0] == now && ([now] + later)[1..] == later;
    RoundTrip(cmds, [now] + later);
    Assoc([req], d.outs, Session(d.ctl, d.rest, later).outs);
  }

  lemma SessionCons(c: Ctl, first: seq<byte>, later: seq<seq<byte>>)
    requires c.Ok()
    ensures var d := Drain(c, first);
            var e := Session(d.ctl, d.rest, later);
            Session(c, [], [first] + later) == Drained(d.outs + e.outs, e.ctl, e.rest)
  {
    assert [] + first == first;
    assert ([first] + later)[1..] == later;
  }
}
