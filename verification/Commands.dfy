/** From a request to an operation of the store and back to a reply: dispatch, the argument
    checks of SET and GET, and the text of their replies. */
module Commands {
  import opened Wrappers
  import opened Bytes
  import opened Powers
  import opened RespStream
  import opened RespWriter
  import opened RespRoundTrip
  import LossyMap

  function Upper(b: byte): (r: byte) { if 97 <= b as int <= 122 then b - 32 else b }

  /** Equal up to the case of ASCII letters. */
  predicate SameFolded(a: seq<byte>, b: seq<byte>)
  {
    |a| == |b| && forall i :: 0 <= i < |a| ==> Upper(a[i]) == Upper(b[i])
  }

  /** The same byte, or the two forms of one ASCII letter: capitals are 65 to 90, small letters 32
      above them. */
  predicate SameLetter(a: byte, b: byte)
  {
    || a == b
    || (65 <= a as int <= 90 && b as int == a as int + 32)
    || (65 <= b as int <= 90 && a as int == b as int + 32)
  }

  /** Folding makes exactly the two forms of a letter equal. */
  lemma FoldedIff(a: seq<byte>, b: seq<byte>)
    ensures SameFolded(a, b) <==> |a| == |b| && forall i :: 0 <= i < |a| ==> SameLetter(a[i], b[i])
  {
    if |a| == |b| {
      forall i | 0 <= i < |a| ensures Upper(a[i]) == Upper(b[i]) <==> SameLetter(a[i], b[i]) {}
    }
  }

  /** ieq and ascii_ieq. */
  method Ieq(a: seq<byte>, b: seq<byte>) returns (same: bool)
    ensures same <==> |a| == |b| && forall i :: 0 <= i < |a| ==> SameLetter(a[i], b[i])
    ensures same <==> SameFolded(a, b)
  {
    FoldedIff(a, b);
    if |a| != |b| {
      return false;
    }
    for i := 0 to |a|
      invariant forall j :: 0 <= j < i ==> Upper(a[j]) == Upper(b[j])
    {
      if Upper(a[i]) != Upper(b[i]) {
        return false;
      }
    }
    return true;
  }

  const SET: seq<byte> := Ascii("SET")
  const GET: seq<byte> := Ascii("GET")
  const EX: seq<byte> := Ascii("EX")
  const OTHERS: seq<seq<byte>> := [Ascii("QUIT"), Ascii("NODE_INFO"), Ascii("INFO")]

  function ErrorText(msg: string): (r: seq<byte>) { [MINUS] + Ascii(msg) + CRLF }

  /** What becomes of a request: an immediate reply, an operation of the store, or one of the
      commands that are not part of this model. */
  datatype Dispatch = Reply(text: seq<byte>) | Run(op: LossyMap.Op) | Elsewhere

  /** std::from_chars into a uint64_t, with nothing left over and not zero. */
  function ParseTtl(s: seq<byte>): (ttl: Option<nat>)
    ensures ttl.Some? ==> 1 <= ttl.value < TWO_64
  {
    if s != [] && AllDigits(s) && 1 <= DigitsValue(s) < TWO_64 then Some(DigitsValue(s)) else None
  }

  /** handle_set up to the routing. */
  function ParseSet(argv: seq<seq<byte>>): (d: Dispatch)
  {
    if |argv| < 3 then Reply(ErrorText("ERR wrong number of arguments for 'SET'"))
    else if argv[1] == [] then Reply(ErrorText("ERR empty key"))
    else if |argv| == 5 then
      if !SameFolded(argv[3], EX) then Reply(ErrorText("ERR syntax error (expected EX)"))
      else match ParseTtl(argv[4])
           case None => Reply(ErrorText("ERR invalid expire time"))
           case Some(ttl) => Run(LossyMap.SetTtl(argv[1], argv[2], ttl))
    else if |argv| != 3 then Reply(ErrorText("ERR syntax error"))
    else Run(LossyMap.Set(argv[1], argv[2]))
  }

  /** handle_get up to the routing. */
  function ParseGet(argv: seq<seq<byte>>): (d: Dispatch)
  {
    if |argv| != 2 then Reply(ErrorText("ERR wrong number of arguments for 'GET'"))
    else if argv[1] == [] then Reply(ErrorText("ERR empty key"))
    else Run(LossyMap.Get(argv[1]))
  }

  /** handle_request up to the command's own handler. */
  function Dispatched(req: Request): (d: Dispatch)
  {
    if req.argv == [] then
      Reply(if req.frame != [] && req.frame[0] == MINUS then req.frame else ErrorText("ERR empty command"))
    else if SameFolded(req.argv[0], SET) then ParseSet(req.argv)
    else if SameFolded(req.argv[0], GET) then ParseGet(req.argv)
    else if exists i :: 0 <= i < |OTHERS| && SameFolded(req.argv[0], OTHERS[i]) then Elsewhere
    else Reply(ErrorText("ERR unknown command"))
  }

  // ---- what a client writes ----

  /** The operations a client can ask for. */
  predicate Askable(op: LossyMap.Op)
  {
    op.k != [] && (op.SetTtl? ==> 1 <= op.ttl < TWO_64)
  }

  function Args(op: LossyMap.Op): (argv: seq<seq<byte>>)
  {
    match op
    case Set(k, v) => [SET, k, v]
    case SetTtl(k, v, ttl) => [SET, k, v, EX, Dec(ttl)]
    case Get(k) => [GET, k]
  }

  /** `argv` asks for `op`: the words in any case, the TTL with any leading zeros. */
  predicate Asks(argv: seq<seq<byte>>, op: LossyMap.Op)
  {
    match op
    case Set(k, v) => |argv| == 3 && SameFolded(argv[0], SET) && argv[1..] == [k, v]
    case SetTtl(k, v, ttl) =>
      && |argv| == 5 && SameFolded(argv[0], SET) && argv[1..3] == [k, v] && SameFolded(argv[3], EX)
      && argv[4] != [] && AllDigits(argv[4]) && DigitsValue(argv[4]) == ttl
    case Get(k) => |argv| == 2 && SameFolded(argv[0], GET) && argv[1] == k
  }

  /** `w` is the word `word`, given in capitals, with any choice of case for each letter. */
  predicate Spelled(w: seq<byte>, word: string)
  {
    |w| == |word| && forall i :: 0 <= i < |w| ==> w[i] as int == word[i] as int || w[i] as int == word[i] as int + 32
  }

  lemma SpelledIs(w: seq<byte>, word: string)
    requires forall i :: 0 <= i < |word| ==> 'A' <= word[i] <= 'Z'
    ensures Spelled(w, word) <==> SameFolded(w, Ascii(word))
  {
    FoldedIff(w, Ascii(word));
    if |w| == |word| {
      forall i | 0 <= i < |w|
        ensures SameLetter(w[i], Ascii(word)[i]) <==> w[i] as int == word[i] as int || w[i] as int == word[i] as int + 32
      {
        assert 'A' <= word[i] <= 'Z';
      }
    }
  }

  /** Commands in any case are understood: SET, SET with EX and GET. */
  lemma AnyCase(frame: seq<byte>, w: seq<byte>, x: seq<byte>, k: seq<byte>, v: seq<byte>, ttl: nat)
    requires k != [] && 1 <= ttl < TWO_64 && Spelled(x, "EX")
    ensures Spelled(w, "SET") ==> Dispatched(Request(frame, [w, k, v])) == Run(LossyMap.Set(k, v))
    ensures Spelled(w, "SET") ==> Dispatched(Request(frame, [w, k, v, x, Dec(ttl)])) == Run(LossyMap.SetTtl(k, v, ttl))
    ensures Spelled(w, "GET") ==> Dispatched(Request(frame, [w, k])) == Run(LossyMap.Get(k))
  {
    SpelledIs(w, "SET");
    SpelledIs(w, "GET");
    SpelledIs(x, "EX");
    ValueDec(ttl);
    assert [w, k, v][1..] == [k, v] && [w, k, v, x, Dec(ttl)][1..3] == [k, v];
    DispatchedIff(frame, [w, k, v], LossyMap.Set(k, v));
    DispatchedIff(frame, [w, k, v, x, Dec(ttl)], LossyMap.SetTtl(k, v, ttl));
    DispatchedIff(frame, [w, k], LossyMap.Get(k));
  }

  lemma WordsDiffer(w: seq<byte>)
    ensures !(SameFolded(w, SET) && SameFolded(w, GET))
  {
    assert Upper(SET[0]) == 83 && Upper(GET[0]) == 71;
  }

  /** A request is run as `op` exactly when it asks for `op` and `op` can be asked for: the key
      is not empty and a TTL is between 1 and 2^64 - 1. */
  lemma DispatchedIff(frame: seq<byte>, argv: seq<seq<byte>>, op: LossyMap.Op)
    ensures Dispatched(Request(frame, argv)) == Run(op) <==> Asks(argv, op) && Askable(op)
  {
    if argv != [] {
      WordsDiffer(argv[0]);
    }
    if Asks(argv, op) && op.SetTtl? {
      assert argv[1] == argv[1..3][0] && argv[2] == argv[1..3][1];
    }
    if Asks(argv, op) && op.Set? {
      assert argv[1] == argv[1..][0] && argv[2] == argv[1..][1];
    }
  }

  /** What a client writes for an operation is understood as that operation. */
  lemma ArgsUnderstood(frame: seq<byte>, op: LossyMap.Op)
    requires Askable(op)
    ensures Dispatched(Request(frame, Args(op))) == Run(op)
  {
    if op.SetTtl? {
      ValueDec(op.ttl);
      assert Args(op)[1..3] == [op.k, op.v];
    } else if op.Set? {
      assert Args(op)[1..] == [op.k, op.v];
    }
    DispatchedIff(frame, Args(op), op);
  }

  function ArgsOf(ops: seq<LossyMap.Op>): (cmds: seq<seq<seq<byte>>>)
    ensures |cmds| == |ops| && forall i :: 0 <= i < |ops| ==> cmds[i] == Args(ops[i])
  {
    seq(|ops|, i requires 0 <= i < |ops| => Args(ops[i]))
  }

  /** Small enough for the extractor's limit on bulk strings. */
  predicate Fits(op: LossyMap.Op)
  {
    |op.k| <= MAX_BULK && (!op.Get? ==> |op.v| <= MAX_BULK)
  }

  lemma {:induction false} DecLength(n: nat, bits: nat)
    requires n < Pow2(bits)
    ensures |Dec(n)| <= bits + 1
  {
    if n < 10 {
    } else {
      DecLength(n / 10, bits - 1);
    }
  }

  lemma ArgsFit(op: LossyMap.Op)
    requires Askable(op) && Fits(op)
    ensures IsCommand(Args(op))
  {
    if op.SetTtl? {
      TwoTo64();
      DecLength(op.ttl, 64);
    }
  }

  /** From the socket to the store: whatever operations a client writes and however their
      bytes are cut, they arrive as those operations, in order. */
  lemma OperationsArrive(ops: seq<LossyMap.Op>, chunks: seq<seq<byte>>)
    requires forall i :: 0 <= i < |ops| ==> Askable(ops[i]) && Fits(ops[i])
    requires Concat(chunks) == EncodeAll(ArgsOf(ops))
    ensures var outs := Session(NeedStar, [], chunks).outs;
            |outs| == |ops| && forall i :: 0 <= i < |ops| ==> Dispatched(outs[i]) == Run(ops[i])
  {
    var cmds := ArgsOf(ops);
    forall i | 0 <= i < |cmds| ensures IsCommand(cmds[i]) {
      ArgsFit(ops[i]);
    }
    RoundTrip(cmds, chunks);
    forall i | 0 <= i < |ops| ensures Dispatched(Requests(cmds)[i]) == Run(ops[i]) {
      ArgsUnderstood(EncodeArray(cmds[i]), ops[i]);
    }
  }

  // ---- replies ----

  /** The text of the reply to an executed operation. */
  function ReplyText(op: LossyMap.Op, res: Option<seq<byte>>): (r: seq<byte>)
  {
    if !op.Get? then Ascii("+OK") + CRLF
    else match res
         case None => Ascii("$-1") + CRLF
         case Some(v) => EncodeBulk(v)
  }

  /** The reply to a GET tells a miss from every hit and one value from another. */
  lemma ReplyTells(k: seq<byte>, a: Option<seq<byte>>, b: Option<seq<byte>>)
    requires ReplyText(LossyMap.Get(k), a) == ReplyText(LossyMap.Get(k), b)
    ensures a == b
  {
    if a.Some? && b.Some? {
      BulkTells(a.value, b.value);
    } else if a.Some? {
      NotNull(a.value);
    } else if b.Some? {
      NotNull(b.value);
    }
  }

  lemma NotNull(v: seq<byte>)
    ensures EncodeBulk(v) != Ascii("$-1") + CRLF
  {
  }

  lemma BulkTells(v: seq<byte>, w: seq<byte>)
    requires EncodeBulk(v) == EncodeBulk(w)
    ensures v == w
  {
    var a, b := Header(|v|) + (v + CRLF), Header(|w|) + (w + CRLF);
    assert EncodeBulk(v)[1..] == a && EncodeBulk(w)[1..] == b;
    FieldEncoded(|v|, v + CRLF);
    FieldEncoded(|w|, w + CRLF);
    assert |Header(|v|)| == |Header(|w|)|;
    var h := |Header(|v|)|;
    assert a[h..] == v + CRLF && b[h..] == w + CRLF;
    assert v == (v + CRLF)[..|v + CRLF| - 2];
    assert w == (w + CRLF)[..|w + CRLF| - 2];
  }
}
