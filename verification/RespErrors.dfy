/** What the extractor says to bytes that are no command, and where it goes on: stray lines,
    fields that are no numbers or out of bounds, and payloads without their line end. */
module RespErrors {
  import opened Bytes
  import opened RespWriter
  import opened RespStream
  import opened RespRoundTrip

  // ---- stray lines ----

  /** Bytes up to and including their only line feed, not beginning a frame. */
  predicate IsStrayLine(p: seq<byte>) { IsStray(p) && p[|p| - 1] as int == 10 }

  lemma StrayExtracted(p: seq<byte>, t: seq<byte>)
    requires IsStrayLine(p)
    ensures Extract(NeedStar, p + t) == Output(PROTOCOL_ERROR, t)
  {
    var rest := p + t;
    assert rest[0] == p[0];
    assert forall i :: 0 <= i < |p| ==> rest[i] == p[i];
    FindIs(rest, LF, |p| - 1);
    Front(p, t);
    assert Step(NeedStar, rest) == Emit(PROTOCOL_ERROR, t);
  }

  /** A stray line is reported once, and what is behind it is read as if it were not there. */
  lemma {:induction false} StraySkipped(p: seq<byte>, t: seq<byte>, d: Drained)
    requires IsStrayLine(p) && d == Drain(NeedStar, t)
    ensures Drain(NeedStar, p + t) == d.(outs := [PROTOCOL_ERROR] + d.outs)
  {
    StrayExtracted(p, t);
  }

  /** A stray line and encoded commands behind it, cut in any way that does not split the line:
      the error, then exactly those commands. */
  lemma StrayThenCommands(p: seq<byte>, now: seq<byte>, later: seq<seq<byte>>, cmds: seq<seq<seq<byte>>>)
    requires IsStrayLine(p) && AreCommands(cmds) && now + Concat(later) == EncodeAll(cmds)
    ensures Session(NeedStar, [], [p + now] + later) == Drained([PROTOCOL_ERROR] + Requests(cmds), NeedStar, [])
  {
    var d := Drain(NeedStar, now);
    StraySkipped(p, now, d);
    SessionAfter(NeedStar, p + now, later, [PROTOCOL_ERROR] + d.outs, d);
    SessionAfter(NeedStar, now, later, d.outs, d);
    assert ([now] + later)[0] == now && ([now] + later)[1..] == later;
    RoundTrip(cmds, [now] + later);
    Assoc([PROTOCOL_ERROR], d.outs, Session(d.ctl, d.rest, later).outs);
  }

  lemma SessionAfter(c: Ctl, first: seq<byte>, later: seq<seq<byte>>, outs: seq<Request>, d: Drained)
    requires c.Ok() && d.ctl.Ok() && Drain(c, first) == d.(outs := outs)
    ensures var e := Session(d.ctl, d.rest, later);
            Session(c, [], [first] + later) == Drained(outs + e.outs, e.ctl, e.rest)
  {
    SessionCons(c, first, later);
  }

  /** A command, or a line that is none. */
  datatype Item = Command(argv: seq<seq<byte>>) | Line(bytes: seq<byte>)
  {
    predicate Ok() { if Command? then IsCommand(argv) else IsStrayLine(bytes) }
    function Bytes(): seq<byte> { if Command? then EncodeArray(argv) else bytes }
    function Seen(): Request { if Command? then Request(EncodeArray(argv), argv) else PROTOCOL_ERROR }
  }

  function BytesOf(items: seq<Item>): (r: seq<byte>)
  {
    if items == [] then [] else items[0].Bytes() + BytesOf(items[1..])
  }

  function SeenOf(items: seq<Item>): (r: seq<Request>)
  {
    if items == [] then [] else [items[0].Seen()] + SeenOf(items[1..])
  }

  /** Commands and stray lines in any order: each command comes out, each line is reported, in
      order and once, and nothing is left. */
  lemma {:induction false} MixedDrained(items: seq<Item>)
    requires forall i :: 0 <= i < |items| ==> items[i].Ok()
    ensures Drain(NeedStar, BytesOf(items)) == Drained(SeenOf(items), NeedStar, [])
  {
    if items == [] {
    } else {
      MixedDrained(items[1..]);
      var d := Drained(SeenOf(items[1..]), NeedStar, []);
      match items[0]
      case Command(argv) => FirstDrained(argv, BytesOf(items[1..]), d);
      case Line(p) => StraySkipped(p, BytesOf(items[1..]), d);
    }
  }

  // ---- fields ----

  /** A number as a client may write it. */
  function IntText(n: int): (r: seq<byte>) { if n < 0 then [MINUS] + Dec(-n) else Dec(n) }

  lemma IntTextIs(n: int)
    ensures IsNumeral(IntText(n)) && Numeral(IntText(n)) == n && LF !in IntText(n)
  {
    if n < 0 {
      DecIsNumeral(-n);
      ValueDec(-n);
      assert IntText(n)[1..] == Dec(-n);
    } else {
      DecIsNumeral(n);
    }
  }

  lemma FieldAt(text: seq<byte>, t: seq<byte>)
    requires LF !in text
    ensures IntField(text + CRLF + t) == if IsNumeral(text) then FieldOk(Wrap64(Numeral(text)), |text| + 2) else FieldBad
  {
    var rest := text + CRLF + t;
    assert forall i :: 0 <= i < |text| ==> rest[i] == text[i];
    assert rest[|text|] == CR && rest[|text| + 1] == LF;
    FindIs(rest, LF, |text| + 1);
    assert rest[..|text|] == text;
  }

  /** Numbers of either sign are read as themselves. */
  lemma NumberRead(n: int, t: seq<byte>)
    requires InInt64(n)
    ensures IntField(IntText(n) + CRLF + t) == FieldOk(n, |IntText(n)| + 2)
  {
    IntTextIs(n);
    FieldAt(IntText(n), t);
  }

  /** Empty, a lone minus sign, or with a byte that is no digit anywhere but a minus in front. */
  predicate NotNumber(text: seq<byte>)
  {
    || text == [] || (|text| == 1 && text[0] as int == 45)
    || exists i :: 0 <= i < |text| && !(48 <= text[i] as int <= 57) && !(i == 0 && text[i] as int == 45)
  }

  lemma NoNumeral(text: seq<byte>)
    ensures NotNumber(text) <==> !IsNumeral(text)
  {
    if text != [] && text[0] == MINUS {
      var ds := text[1..];
      assert forall i :: 0 <= i < |ds| ==> ds[i] == text[i + 1];
      if NotNumber(text) && |text| > 1 {
        var i :| 0 <= i < |text| && !(48 <= text[i] as int <= 57) && !(i == 0 && text[i] as int == 45);
        assert ds[i - 1] == text[i];
      }
    }
  }

  // ---- errors inside a frame ----

  /** Where the extractor goes on after an error: at the next star, or at the end. */
  predicate IsNextStar(t: seq<byte>, left: seq<byte>)
  {
    && |left| <= |t| && left == t[|t| - |left|..]
    && (forall i :: 0 <= i < |t| - |left| ==> t[i] as int != 42)
    && (left != [] ==> left[0] as int == 42)
  }

  /** The extraction reports `text` and goes on at the next star of `t`. */
  predicate Reports(x: Extraction, text: string, t: seq<byte>)
  {
    x.Output? && x.req == Request(Ascii(text), []) && IsNextStar(t, x.left)
  }

  lemma ResyncIs(t: seq<byte>)
    ensures IsNextStar(t, Resync(t))
  {
  }

  lemma EmitReports(c: Ctl, rest: seq<byte>, text: string, left: seq<byte>, t: seq<byte>)
    requires c.Ok() && Step(c, rest) == Emit(Error(text), left) && left == Resync(t)
    ensures Reports(Extract(c, rest), text, t)
  {
    ResyncIs(t);
  }

  lemma CountEmits(c: Ctl, rest: seq<byte>, f: Field)
    requires c.NeedArgc? && c.Ok() && f == IntField(rest)
    ensures Step(c, rest) == StepArgc(c, rest, f, AfterField(rest, f))
  {
  }

  lemma CountReports(c: Ctl, rest: seq<byte>, f: Field, t: seq<byte>)
    requires c.NeedArgc? && c.Ok() && f == IntField(rest) && f.FieldOk? && !(1 <= f.value <= 1024) && t == rest[f.size..]
    ensures Reports(Extract(c, rest), "-ERR invalid argc\r\n", t)
  {
    CountEmits(c, rest, f);
    EmitReports(c, rest, "-ERR invalid argc\r\n", Resync(t), t);
  }

  lemma CountFails(c: Ctl, rest: seq<byte>)
    requires c.NeedArgc? && c.Ok() && IntField(rest) == FieldBad
    ensures Reports(Extract(c, rest), "-ERR protocol error\r\n", rest)
  {
    CountEmits(c, rest, FieldBad);
    EmitReports(c, rest, "-ERR protocol error\r\n", Resync(rest), rest);
  }

  lemma StarGone(rest: seq<byte>) returns (c: Ctl)
    ensures c.NeedArgc? && c.Ok() && Extract(NeedStar, [STAR] + rest) == Extract(c, rest)
  {
    c := NeedArgc([STAR]);
    StarStep(rest);
    ExtractGo(NeedStar, [STAR] + rest, c, rest);
  }

  /** An argument count outside 1 to 1024 is refused, negative ones included. */
  lemma CountRefused(n: int, t: seq<byte>)
    requires -0x8000_0000_0000_0000 <= n < 0x8000_0000_0000_0000 && !(1 <= n <= 1024)
    ensures Reports(Extract(NeedStar, [STAR] + (IntText(n) + CRLF + t)), "-ERR invalid argc\r\n", t)
  {
    var rest := IntText(n) + CRLF + t;
    var c := StarGone(rest);
    NumberRead(n, t);
    CountReports(c, rest, FieldOk(n, |IntText(n)| + 2), t);
  }

  /** An argument count that is no number is a protocol error. */
  lemma CountUnread(text: seq<byte>, t: seq<byte>)
    requires NotNumber(text) && LF !in text
    ensures Reports(Extract(NeedStar, [STAR] + (text + CRLF + t)), "-ERR protocol error\r\n", text + CRLF + t)
  {
    var rest := text + CRLF + t;
    var c := StarGone(rest);
    NoNumeral(text);
    FieldAt(text, t);
    CountFails(c, rest);
  }

  lemma LengthEmits(c: Ctl, rest: seq<byte>, f: Field)
    requires c.NeedBulkLen? && c.Ok() && f == IntField(rest)
    ensures Step(c, rest) == StepLength(c, rest, f, AfterField(rest, f))
  {
  }

  lemma LengthReports(c: Ctl, rest: seq<byte>, f: Field, t: seq<byte>)
    requires c.NeedBulkLen? && c.Ok() && f == IntField(rest) && f.FieldOk?
    requires !(0 <= f.value <= 0x400_0000) && t == rest[f.size..]
    ensures Reports(Extract(c, rest), "-ERR invalid bulk length\r\n", t)
  {
    LengthEmits(c, rest, f);
    EmitReports(c, rest, "-ERR invalid bulk length\r\n", Resync(t), t);
  }

  lemma LengthFails(c: Ctl, rest: seq<byte>)
    requires c.NeedBulkLen? && c.Ok() && IntField(rest) == FieldBad
    ensures Reports(Extract(c, rest), "-ERR protocol error\r\n", rest)
  {
    LengthEmits(c, rest, FieldBad);
    EmitReports(c, rest, "-ERR protocol error\r\n", Resync(rest), rest);
  }

  lemma DollarGone(c: Ctl, rest: seq<byte>) returns (c': Ctl)
    requires c.NeedDollar? && c.Ok()
    ensures c' == NeedBulkLen(c.frame + [DOLLAR], c.argc, c.argv)
    ensures c'.Ok() && Extract(c, [DOLLAR] + rest) == Extract(c', rest)
  {
    c' := NeedBulkLen(c.frame + [DOLLAR], c.argc, c.argv);
    DollarStep(c.frame, c.argc, c.argv, rest);
    ExtractGo(c, [DOLLAR] + rest, c', rest);
  }

  /** A bulk length outside 0 to 64 MiB is refused; so is the null bulk string. */
  lemma LengthRefused(c: Ctl, n: int, t: seq<byte>)
    requires c.NeedDollar? && c.Ok() && -0x8000_0000_0000_0000 <= n < 0x8000_0000_0000_0000 && !(0 <= n <= 0x400_0000)
    ensures Reports(Extract(c, [DOLLAR] + (IntText(n) + CRLF + t)), "-ERR invalid bulk length\r\n", t)
  {
    var rest := IntText(n) + CRLF + t;
    var c' := DollarGone(c, rest);
    NumberRead(n, t);
    LengthReports(c', rest, FieldOk(n, |IntText(n)| + 2), t);
  }

  /** A bulk length that is no number is a protocol error. */
  lemma LengthUnread(c: Ctl, text: seq<byte>, t: seq<byte>)
    requires c.NeedDollar? && c.Ok() && NotNumber(text) && LF !in text
    ensures Reports(Extract(c, [DOLLAR] + (text + CRLF + t)), "-ERR protocol error\r\n", text + CRLF + t)
  {
    var rest := text + CRLF + t;
    var c' := DollarGone(c, rest);
    NoNumeral(text);
    FieldAt(text, t);
    LengthFails(c', rest);
  }

  /** An argument that does not begin with a dollar is a protocol error. */
  lemma DollarMissing(c: Ctl, rest: seq<byte>)
    requires c.NeedDollar? && c.Ok() && rest != [] && rest[0] as int != 36
    ensures Reports(Extract(c, rest), "-ERR protocol error\r\n", rest)
  {
    EmitReports(c, rest, "-ERR protocol error\r\n", Resync(rest), rest);
  }

  lemma LineEndFails(c: Ctl, t: seq<byte>)
    requires c.NeedBulkCrlf? && c.Ok() && |t| >= 2 && !(t[0] as int == 13 && t[1] as int == 10)
    ensures Reports(Extract(c, t), "-ERR protocol error\r\n", t)
  {
    assert t[..2] != CRLF by {
      assert t[..2][0] == t[0] && t[..2][1] == t[1];
    }
    EmitReports(c, t, "-ERR protocol error\r\n", Resync(t), t);
  }

  lemma PayloadGone(c: Ctl, s: seq<byte>, t: seq<byte>) returns (c': Ctl)
    requires c.NeedBulkLen? && c.Ok() && |s| <= 0x400_0000
    ensures c'.NeedBulkCrlf? && c'.Ok() && Extract(c, Header(|s|) + (s + t)) == Extract(c', t)
  {
    var f := c.frame + Header(|s|);
    c' := NeedBulkCrlf(f + s, c.argc, c.argv + [s]);
    LengthStep(c.frame, c.argc, c.argv, |s|, s + t);
    ExtractGo(c, Header(|s|) + (s + t), NeedBulkData(f, c.argc, c.argv, |s|), s + t);
    DataStep(f, c.argc, c.argv, s, t);
    ExtractGo(NeedBulkData(f, c.argc, c.argv, |s|), s + t, c', t);
  }

  /** A payload whose length does not end at a line end is a protocol error. */
  lemma LineEndMissing(c: Ctl, s: seq<byte>, t: seq<byte>)
    requires c.NeedDollar? && c.Ok() && |s| <= 0x400_0000
    requires |t| >= 2 && !(t[0] as int == 13 && t[1] as int == 10)
    ensures Reports(Extract(c, [DOLLAR] + (Header(|s|) + (s + t))), "-ERR protocol error\r\n", t)
  {
    var c1 := DollarGone(c, Header(|s|) + (s + t));
    var c2 := PayloadGone(c1, s, t);
    LineEndFails(c2, t);
  }
}
