/** The other end of the connection: a client that reads RESP replies. It shares no constant of
    the wire format with the server. */
module Client {
  import opened Wrappers
  import opened Bytes
  import opened RespStream
  import opened RespWriter
  import opened Commands
  import LossyMap

  datatype Resp = Simple(text: seq<byte>) | Failure(text: seq<byte>) | Bulk(bytes: seq<byte>) | Null

  /** A line up to its CR LF, and what is behind it. */
  function Line(s: seq<byte>): (r: Option<(seq<byte>, seq<byte>)>)
    ensures r.Some? ==> |r.value.1| < |s|
  {
    var nl := Find(s, 10);
    if nl == |s| || nl == 0 || s[nl - 1] != 13 then None else Some((s[..nl - 1], s[nl + 1..]))
  }

  /** The payload of `n` bytes at the front of `s`. */
  function Payload(s: seq<byte>, n: int): (r: Option<(Resp, seq<byte>)>)
    ensures r.Some? ==> |r.value.1| <= |s|
  {
    if n == -1 then Some((Null, s))
    else if n < 0 || n + 2 > |s| || s[n] != 13 || s[n + 1] != 10 then None
    else Some((Bulk(s[..n]), s[n + 2..]))
  }

  /** One reply at the front of `s`, and what is behind it. */
  function Decode(s: seq<byte>): (r: Option<(Resp, seq<byte>)>)
    ensures r.Some? ==> |r.value.1| < |s|
  {
    if s == [] then None
    else match Line(s[1..])
         case None => None
         case Some((text, rest)) =>
           if s[0] == 43 then Some((Simple(text), rest))
           else if s[0] == 45 then Some((Failure(text), rest))
           else if s[0] == 36 && IsNumeral(text) then Payload(rest, Numeral(text))
           else None
  }

  /** All replies of `s`. */
  function DecodeAll(s: seq<byte>): (r: Option<seq<Resp>>)
    decreases |s|
  {
    if s == [] then Some([])
    else match Decode(s)
         case None => None
         case Some((v, rest)) =>
           match DecodeAll(rest)
           case None => None
           case Some(vs) => Some([v] + vs)
  }

  lemma LineIs(text: seq<byte>, t: seq<byte>)
    requires 10 !in text
    ensures Line(text + [13, 10] + t) == Some((text, t))
  {
    var s := text + [13, 10] + t;
    assert forall i :: 0 <= i < |text| ==> s[i] == text[i];
    FindIs(s, 10, |text| + 1);
    assert s[..|text|] == text && s[|text| + 2..] == t;
  }

  lemma Behind(b: byte, text: seq<byte>, t: seq<byte>)
    requires 10 !in text
    ensures var s := [b] + text + [13, 10] + t; s[0] == b && Line(s[1..]) == Some((text, t))
  {
    var s := [b] + text + [13, 10] + t;
    assert s[1..] == text + [13, 10] + t;
    LineIs(text, t);
  }

  /** An error reply is read as its message. */
  lemma ErrorRead(msg: string, t: seq<byte>)
    requires forall i :: 0 <= i < |msg| ==> ' ' <= msg[i] <= '~'
    ensures Decode(ErrorText(msg) + t) == Some((Failure(Ascii(msg)), t))
  {
    assert 10 !in Ascii(msg) by {
      forall i | 0 <= i < |msg| ensures Ascii(msg)[i] != 10 { assert ' ' <= msg[i] <= '~'; }
    }
    Behind(45, Ascii(msg), t);
    assert ErrorText(msg) + t == [45] + Ascii(msg) + [13, 10] + t;
  }

  lemma PayloadIs(v: seq<byte>, t: seq<byte>)
    ensures Payload(v + [13, 10] + t, |v|) == Some((Bulk(v), t))
  {
    var rest := v + [13, 10] + t;
    assert rest[|v|] == 13 && rest[|v| + 1] == 10 && rest[..|v|] == v && rest[|v| + 2..] == t;
  }

  lemma SizedRead(s: seq<byte>, text: seq<byte>, rest: seq<byte>, n: int)
    requires s != [] && s[0] == 36 && Line(s[1..]) == Some((text, rest)) && IsNumeral(text) && Numeral(text) == n
    ensures Decode(s) == Payload(rest, n)
  {
  }

  lemma BulkParted(v: seq<byte>, t: seq<byte>)
    ensures EncodeBulk(v) + t == [36] + Dec(|v|) + [13, 10] + (v + [13, 10] + t)
  {
    Regroup([36] + Dec(|v|) + [13, 10], v, [13, 10], t);
  }

  lemma Regroup(head: seq<byte>, v: seq<byte>, end: seq<byte>, t: seq<byte>)
    ensures head + v + end + t == head + (v + end + t)
  {
  }

  /** A bulk string is read as its bytes, whatever they are. */
  lemma BulkRead(v: seq<byte>, t: seq<byte>)
    ensures Decode(EncodeBulk(v) + t) == Some((Bulk(v), t))
  {
    var rest := v + [13, 10] + t;
    DecIsNumeral(|v|);
    BulkParted(v, t);
    Behind(36, Dec(|v|), rest);
    SizedRead(EncodeBulk(v) + t, Dec(|v|), rest, |v|);
    PayloadIs(v, t);
  }

  /** What the reply to an executed operation tells a client. */
  function Meaning(op: LossyMap.Op, res: Option<seq<byte>>): (r: Resp)
  {
    if !op.Get? then Simple(Ascii("OK")) else if res.Some? then Bulk(res.value) else Null
  }

  /** A client reads the reply to an operation as that operation's outcome. */
  lemma ReplyRead(op: LossyMap.Op, res: Option<seq<byte>>, t: seq<byte>)
    ensures Decode(ReplyText(op, res) + t) == Some((Meaning(op, res), t))
  {
    if !op.Get? {
      SimpleRead(t);
    } else if res.Some? {
      BulkRead(res.value, t);
    } else {
      NullRead(t);
    }
  }

  lemma SimpleRead(t: seq<byte>)
    ensures Decode(Ascii("+OK") + CRLF + t) == Some((Simple(Ascii("OK")), t))
  {
    Behind(43, Ascii("OK"), t);
    assert Ascii("+OK") == [43] + Ascii("OK");
    assert Ascii("+OK") + CRLF + t == [43] + Ascii("OK") + [13, 10] + t;
  }

  lemma NullRead(t: seq<byte>)
    ensures Decode(Ascii("$-1") + CRLF + t) == Some((Null, t))
  {
    var minus1: seq<byte> := [45, 49];
    Behind(36, minus1, t);
    assert Ascii("$-1") == [36] + minus1;
    assert Ascii("$-1") + CRLF + t == [36] + minus1 + [13, 10] + t;
    assert minus1[1..] == [49] && [49 as byte][..0] == [];
    assert DigitsValue([49]) == 1;
  }

  /** Replies one after the other are read as what each says. */
  lemma {:induction false} RepliesRead(texts: seq<seq<byte>>, says: seq<Resp>)
    requires |texts| == |says|
    requires forall i, t :: 0 <= i < |texts| ==> Decode(texts[i] + t) == Some((says[i], t))
    ensures DecodeAll(Concat(texts)) == Some(says)
  {
    if texts == [] {
    } else {
      var rest := Concat(texts[1..]);
      assert Decode(texts[0] + rest) == Some((says[0], rest));
      RepliesRead(texts[1..], says[1..]);
      assert says == [says[0]] + says[1..];
    }
  }

  // ---- refusals ----

  /** The request is answered at once, with an error that a client reads as `msg`. */
  ghost predicate Refused(req: Request, msg: string)
  {
    var d := Dispatched(req);
    d.Reply? && forall t :: Decode(d.text + t) == Some((Failure(Ascii(msg)), t))
  }

  lemma RefusedBy(req: Request, msg: string)
    requires Dispatched(req) == Reply(ErrorText(msg)) && forall i :: 0 <= i < |msg| ==> ' ' <= msg[i] <= '~'
    ensures Refused(req, msg)
  {
    forall t ensures Decode(ErrorText(msg) + t) == Some((Failure(Ascii(msg)), t)) {
      ErrorRead(msg, t);
    }
  }

  /** A time to live as SET takes it: digits only, from 1 to 2^64 - 1. */
  predicate IsTtl(s: seq<byte>) { s != [] && AllDigits(s) && 1 <= DigitsValue(s) < 0x1_0000_0000_0000_0000 }

  /** What SET refuses, and how, with its words in any case. */
  lemma SetRefused(frame: seq<byte>, argv: seq<seq<byte>>)
    requires argv != [] && Spelled(argv[0], "SET")
    ensures var req := Request(frame, argv);
            && (|argv| < 3 ==> Refused(req, "ERR wrong number of arguments for 'SET'"))
            && (|argv| >= 3 && argv[1] == [] ==> Refused(req, "ERR empty key"))
            && (|argv| >= 3 && argv[1] != [] && |argv| != 3 && |argv| != 5 ==> Refused(req, "ERR syntax error"))
  {
    var req := Request(frame, argv);
    SpelledIs(argv[0], "SET");
    if |argv| < 3 {
      RefusedBy(req, "ERR wrong number of arguments for 'SET'");
    } else if argv[1] == [] {
      RefusedBy(req, "ERR empty key");
    } else if |argv| != 3 && |argv| != 5 {
      RefusedBy(req, "ERR syntax error");
    }
  }

  /** What SET refuses of a time to live. */
  lemma ExpiryRefused(frame: seq<byte>, argv: seq<seq<byte>>)
    requires |argv| == 5 && Spelled(argv[0], "SET") && argv[1] != []
    ensures !Spelled(argv[3], "EX") ==> Refused(Request(frame, argv), "ERR syntax error (expected EX)")
    ensures Spelled(argv[3], "EX") && !IsTtl(argv[4]) ==> Refused(Request(frame, argv), "ERR invalid expire time")
  {
    SpelledIs(argv[0], "SET");
    SpelledIs(argv[3], "EX");
    if !Spelled(argv[3], "EX") {
      RefusedBy(Request(frame, argv), "ERR syntax error (expected EX)");
    } else if !IsTtl(argv[4]) {
      RefusedBy(Request(frame, argv), "ERR invalid expire time");
    }
  }

  /** What GET refuses, and how. */
  lemma GetRefused(frame: seq<byte>, argv: seq<seq<byte>>)
    requires argv != [] && Spelled(argv[0], "GET")
    ensures var req := Request(frame, argv);
            && (|argv| != 2 ==> Refused(req, "ERR wrong number of arguments for 'GET'"))
            && (|argv| == 2 && argv[1] == [] ==> Refused(req, "ERR empty key"))
  {
    var req := Request(frame, argv);
    SpelledIs(argv[0], "GET");
    WordsDiffer(argv[0]);
    if |argv| != 2 {
      RefusedBy(req, "ERR wrong number of arguments for 'GET'");
    } else if argv[1] == [] {
      RefusedBy(req, "ERR empty key");
    }
  }

  lemma OtherWord(w: seq<byte>)
    requires Spelled(w, "QUIT") || Spelled(w, "INFO") || SameFolded(w, Ascii("NODE_INFO"))
    ensures exists i :: 0 <= i < |OTHERS| && SameFolded(w, OTHERS[i])
  {
    SpelledIs(w, "QUIT");
    SpelledIs(w, "INFO");
    if Spelled(w, "QUIT") {
      assert SameFolded(w, OTHERS[0]);
    } else if SameFolded(w, Ascii("NODE_INFO")) {
      assert SameFolded(w, OTHERS[1]);
    } else {
      assert SameFolded(w, OTHERS[2]);
    }
  }

  lemma ErrorForm(msg: string)
    ensures Ascii("-" + msg + "\r\n") == ErrorText(msg)
  {
    var a, b := Ascii("-" + msg + "\r\n"), ErrorText(msg);
    assert |a| == |b|;
    assert forall i :: 0 <= i < |a| ==> a[i] == b[i];
  }

  /** What the extractor could not read is reported to the client as it says. */
  lemma ExtractorErrors(msg: string, t: seq<byte>)
    requires forall i :: 0 <= i < |msg| ==> ' ' <= msg[i] <= '~'
    ensures Dispatched(Error("-" + msg + "\r\n")) == Reply(ErrorText(msg))
    ensures Decode(ErrorText(msg) + t) == Some((Failure(Ascii(msg)), t))
  {
    ErrorForm(msg);
    ErrorRead(msg, t);
  }

  /** QUIT, INFO and NODE_INFO have handlers of their own; any other word is unknown, and no word at all is an
      empty command. */
  lemma WordRefused(frame: seq<byte>, argv: seq<seq<byte>>)
    ensures argv != [] && !Spelled(argv[0], "SET") && !Spelled(argv[0], "GET") && !Spelled(argv[0], "QUIT")
            && !Spelled(argv[0], "INFO") && !SameFolded(argv[0], Ascii("NODE_INFO")) ==>
              Refused(Request(frame, argv), "ERR unknown command")
    ensures argv == [] && (frame == [] || frame[0] as int != 45) ==> Refused(Request(frame, argv), "ERR empty command")
    ensures argv != [] && (Spelled(argv[0], "QUIT") || Spelled(argv[0], "INFO") || SameFolded(argv[0], Ascii("NODE_INFO"))) ==>
              Dispatched(Request(frame, argv)) == Elsewhere
    ensures argv == [] && frame != [] && frame[0] as int == 45 ==> Dispatched(Request(frame, argv)) == Reply(frame)
  {
    if argv != [] && (Spelled(argv[0], "QUIT") || Spelled(argv[0], "INFO") || SameFolded(argv[0], Ascii("NODE_INFO"))) {
      OtherWord(argv[0]);
    }
    if argv == [] {
      if frame == [] || frame[0] as int != 45 {
        RefusedBy(Request(frame, argv), "ERR empty command");
      }
    } else if !Spelled(argv[0], "SET") && !Spelled(argv[0], "GET") && !Spelled(argv[0], "QUIT")
              && !Spelled(argv[0], "INFO") && !SameFolded(argv[0], Ascii("NODE_INFO")) {
      SpelledIs(argv[0], "SET");
      SpelledIs(argv[0], "GET");
      SpelledIs(argv[0], "QUIT");
      SpelledIs(argv[0], "INFO");
      RefusedBy(Request(frame, argv), "ERR unknown command");
    }
  }

  // ---- the bytes themselves ----

  lemma BulkBytes(s: seq<byte>)
    requires |s| < 10
    ensures EncodeBulk(s) == [36, (48 + |s|) as byte, 13, 10] + s + [13, 10]
  {
  }

  /** GET on the wire, byte for byte, for keys of up to nine bytes. */
  lemma GetOnTheWire(k: seq<byte>)
    requires |k| < 10
    ensures EncodeArray(Args(LossyMap.Get(k)))
         == [42, 50, 13, 10] + [36, 51, 13, 10, 71, 69, 84, 13, 10] + ([36, (48 + |k|) as byte, 13, 10] + k + [13, 10])
  {
    var get: seq<byte> := [71, 69, 84];
    assert GET == get;
    BulkBytes(get);
    BulkBytes(k);
    assert EncodeBulk(get) == [36, 51, 13, 10, 71, 69, 84, 13, 10];
    TwoBulks(get, k);
  }

  lemma TwoBulks(a: seq<byte>, b: seq<byte>)
    ensures EncodeArray([a, b]) == [42, 50, 13, 10] + EncodeBulk(a) + EncodeBulk(b)
  {
    assert [a, b][1..] == [b] && [b][1..] == [];
    assert EncodeBulks([b]) == EncodeBulk(b) + [] == EncodeBulk(b);
    assert EncodeBulks([a, b]) == EncodeBulk(a) + EncodeBulk(b);
    assert Dec(2) == [50];
    Regroup([42, 50, 13, 10], EncodeBulk(a), EncodeBulk(b), []);
  }

  /** Numbers are written in decimal, most significant digit first. */
  lemma NumberOnTheWire(a: nat, b: nat, c: nat)
    requires 1 <= a < 10 && b < 10 && c < 10
    ensures Dec(100 * a + 10 * b + c) == [(48 + a) as byte, (48 + b) as byte, (48 + c) as byte]
  {
    var n := 100 * a + 10 * b + c;
    assert n / 10 == 10 * a + b && n % 10 == c && (n / 10) / 10 == a && (n / 10) % 10 == b;
    assert Dec(n / 10) == Dec(a) + [(48 + b) as byte];
  }
}
