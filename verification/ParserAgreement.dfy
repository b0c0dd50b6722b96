/** The incremental extractor against the whole-frame parser, on every byte string. */
module ParserAgreement {
  import opened Wrappers
  import opened Bytes
  import opened RespStream
  import opened FrameParser
  import RespRoundTrip
  import RespWriter

  // ---- decimal fields ----

  /** The text of the decimal field at the front of `rest`. */
  function FieldText(rest: seq<byte>): (f: seq<byte>)
    requires IntField(rest).FieldOk?
    ensures IsNumeral(f)
  {
    rest[..IntField(rest).size - 2]
  }

  /** The number written in the field is one that 64 bits hold. */
  predicate FieldFits(rest: seq<byte>)
    requires IntField(rest).FieldOk?
  {
    InInt64(Numeral(FieldText(rest)))
  }

  /** Both ways of finding the end of a field find the same field; they differ on numbers
      that do not fit, which one wraps and the other refuses. */
  lemma FieldsAgree(rest: seq<byte>)
    ensures CheckedField(rest).FieldOk? <==> IntField(rest).FieldOk? && FieldFits(rest)
    ensures CheckedField(rest).FieldOk? ==> CheckedField(rest) == IntField(rest)
  {
    if CheckedField(rest).FieldOk? {
      CheckedIsField(rest);
    }
    if IntField(rest).FieldOk? && FieldFits(rest) {
      FieldIsChecked(rest);
    }
  }

  lemma CheckedIsField(rest: seq<byte>)
    requires CheckedField(rest).FieldOk?
    ensures IntField(rest) == CheckedField(rest) && FieldFits(rest)
  {
    var cr := Find(rest, CR);
    var f := rest[..cr];
    NumeralBytes(f);
    assert forall i :: 0 <= i < cr ==> rest[i] == f[i];
    FindIs(rest, LF, cr + 1);
  }

  lemma FieldIsChecked(rest: seq<byte>)
    requires IntField(rest).FieldOk? && FieldFits(rest)
    ensures CheckedField(rest) == IntField(rest)
  {
    var f := FieldText(rest);
    NumeralBytes(f);
    assert forall i :: 0 <= i < |f| ==> rest[i] == f[i];
    FindIs(rest, CR, |f|);
  }

  // ---- one bulk string ----

  /** One bulk string as the extractor reads it. */
  function StreamBulkAt(rest: seq<byte>): (m: Measure<Bulk>)
    ensures m.Done? ==> 0 < m.value.size <= |rest|
  {
    if rest == [] then More
    else if rest[0] != DOLLAR then Bad
    else SizedUpTo(MAX_BULK, rest, 1, IntField(rest[1..]))
  }

  /** There is a bulk string at the front and its size field fits in 64 bits. */
  predicate BulkFits(rest: seq<byte>)
  {
    StreamBulkAt(rest).Done? && FieldFits(rest[1..])
  }

  /** The same bulk string seen from `j` bytes further on. */
  lemma SizedShift(s: seq<byte>, j: nat, f: Field)
    requires j <= |s|
    ensures SizedUpTo(MAX_BULK, s, j, f).Done? <==> SizedUpTo(MAX_BULK, s[j..], 0, f).Done?
    ensures SizedUpTo(MAX_BULK, s, j, f).More? <==> SizedUpTo(MAX_BULK, s[j..], 0, f).More?
    ensures SizedUpTo(MAX_BULK, s, j, f).Done? ==>
              && SizedUpTo(MAX_BULK, s, j, f).value.arg == SizedUpTo(MAX_BULK, s[j..], 0, f).value.arg
              && SizedUpTo(MAX_BULK, s, j, f).value.size == j + SizedUpTo(MAX_BULK, s[j..], 0, f).value.size
  {
    if f.FieldOk? && 0 <= f.value && j + f.size + f.value + 2 <= |s| {
      assert s[j..][f.size..f.size + f.value] == s[j + f.size..j + f.size + f.value];
    }
  }

  lemma BulkAgrees(rest: seq<byte>)
    ensures ShortBulkAt(rest).Done? <==> StreamBulkAt(rest).Done? && BulkFits(rest)
    ensures ShortBulkAt(rest).Done? ==> ShortBulkAt(rest) == StreamBulkAt(rest)
  {
    if rest != [] && rest[0] == DOLLAR {
      FieldsAgree(rest[1..]);
    }
  }

  // ---- the elements of an array ----

  /** `a` accepts what `b` accepts under the condition `p`, with the same reading. */
  ghost predicate Restricts(a: Reader, b: Reader, p: seq<byte> -> bool)
  {
    forall r :: (a(r).Done? <==> b(r).Done? && p(r)) && (a(r).Done? ==> a(r) == b(r))
  }

  /** `p` holds at each of the `n` bulk strings at the front of `rest`. */
  predicate Each(at: Reader, p: seq<byte> -> bool, rest: seq<byte>, n: nat)
    requires IsReader(at)
  {
    n == 0 || (at(rest).Done? && p(rest) && Each(at, p, rest[at(rest).value.size..], n - 1))
  }

  lemma {:induction false} BulksAgree(a: Reader, b: Reader, p: seq<byte> -> bool, rest: seq<byte>, n: nat)
    requires IsReader(a) && IsReader(b) && Restricts(a, b, p)
    ensures BulksAt(a, rest, n).Done? <==> BulksAt(b, rest, n).Done? && Each(b, p, rest, n)
    ensures BulksAt(a, rest, n).Done? ==> BulksAt(a, rest, n) == BulksAt(b, rest, n)
    decreases n
  {
    assert (a(rest).Done? <==> b(rest).Done? && p(rest)) && (a(rest).Done? ==> a(rest) == b(rest));
    if n > 0 {
      if a(rest).Done? {
        BulksAgreeMore(a, b, p, rest, n);
      } else {
        BulksAtStop(a, rest, n);
        if !b(rest).Done? {
          BulksAtStop(b, rest, n);
        }
      }
    }
  }

  lemma {:induction false} BulksAtStop(at: Reader, rest: seq<byte>, n: nat)
    requires IsReader(at) && n > 0 && !at(rest).Done?
    ensures !BulksAt(at, rest, n).Done?
  {
  }

  lemma {:induction false} BulksAgreeMore(a: Reader, b: Reader, p: seq<byte> -> bool, rest: seq<byte>, n: nat)
    requires IsReader(a) && IsReader(b) && Restricts(a, b, p) && n > 0
    requires a(rest).Done? && b(rest) == a(rest) && p(rest)
    ensures BulksAt(a, rest, n).Done? <==> BulksAt(b, rest, n).Done? && Each(b, p, rest, n)
    ensures BulksAt(a, rest, n).Done? ==> BulksAt(a, rest, n) == BulksAt(b, rest, n)
    decreases n, 0
  {
    var rest' := rest[b(rest).value.size..];
    BulksAgree(a, b, p, rest', n - 1);
    BulksAtCons(a, rest, n);
    BulksAtCons(b, rest, n);
    assert Each(b, p, rest, n) <==> Each(b, p, rest', n - 1);
  }

  /** Reading needs no more than it has read. */
  ghost predicate Local(at: Reader)
  {
    && (forall r, m: nat :: m <= |r| && at(r).Done? && at(r).value.size <= m ==> at(r[..m]) == at(r))
    && (forall r, m: nat :: m <= |r| && at(r[..m]).Done? ==> at(r) == at(r[..m]))
  }

  lemma {:induction false} BulksLocal(at: Reader, rest: seq<byte>, m: nat, n: nat)
    requires IsReader(at) && Local(at) && m <= |rest|
    ensures BulksAt(at, rest, n).Done? && BulksAt(at, rest, n).value.size <= m ==>
              BulksAt(at, rest[..m], n) == BulksAt(at, rest, n)
    ensures BulksAt(at, rest[..m], n).Done? ==> BulksAt(at, rest, n) == BulksAt(at, rest[..m], n)
    decreases n
  {
    if n == 0 {
    } else {
      if at(rest).Done? && at(rest).value.size <= m {
        BulksLocalStep(at, rest, m, n);
      }
    }
  }

  lemma {:induction false} BulksLocalStep(at: Reader, rest: seq<byte>, m: nat, n: nat)
    requires IsReader(at) && Local(at) && m <= |rest| && n > 0
    requires at(rest).Done? && at(rest).value.size <= m
    ensures BulksAt(at, rest, n).Done? && BulksAt(at, rest, n).value.size <= m ==>
              BulksAt(at, rest[..m], n) == BulksAt(at, rest, n)
    ensures BulksAt(at, rest[..m], n).Done? ==> BulksAt(at, rest, n) == BulksAt(at, rest[..m], n)
    decreases n, 0
  {
    var k := at(rest).value.size;
    assert rest[..m][k..] == rest[k..][..m - k];
    assert at(rest[..m]) == at(rest);
    BulksAtCons(at, rest, n);
    BulksAtCons(at, rest[..m], n);
    BulksLocal(at, rest[k..], m - k, n - 1);
  }

  // ---- the extractor's rounds on the elements ----

  predicate Succeeds(x: Extraction) { x.Output? && !x.req.IsError() }

  /** Unless `m` is done, the extraction waits for more or reports an error, as `m` says. */
  predicate Fails<T>(x: Extraction, m: Measure<T>)
  {
    match m
    case More => x.Idle?
    case Bad => x.Output? && x.req.IsError()
    case Done(_) => true
  }

  type Extractor = (Ctl, seq<byte>) -> Extraction

  /** `ex` is `Extract`, under a name that is only unfolded where `Rounds` is invoked. */
  ghost predicate IsExtract(ex: Extractor)
  {
    forall c: Ctl, rest: seq<byte> {:trigger Extract(c, rest)} :: c.Ok() ==> ex(c, rest) == Extract(c, rest)
  }

  /** What a round with outcome `o` says about the extraction from `c`. */
  ghost predicate Rounded(ex: Extractor, c: Ctl, rest: seq<byte>, o: Outcome)
  {
    match o
    case Stuck => ex(c, rest).Idle?
    case Go(c', rest') => ex(c, rest) == ex(c', rest')
    case Emit(req, left) => ex(c, rest) == Output(req, left)
  }

  lemma Rounds(ex: Extractor, c: Ctl, rest: seq<byte>)
    requires IsExtract(ex) && c.Ok()
    ensures Rounded(ex, c, rest, Step(c, rest))
  {
    assert ex(c, rest) == Extract(c, rest);
    if Step(c, rest).Go? {
      assert Extract(c, rest) == Extract(Step(c, rest).ctl, Step(c, rest).rest);
    }
  }

  /** Where extraction from `c` stands once the bulk string `b` has been read: at the end
      of the command, or before its next argument. The frame bytes do not matter here. */
  ghost predicate Reads(ex: Extractor, c: Ctl, rest: seq<byte>, argc: nat, argv: seq<seq<byte>>, b: Bulk, frame: seq<byte>)
    requires b.size <= |rest|
  {
    frame != [] &&
    if |argv| + 1 == argc then ex(c, rest) == Output(Request(frame, argv + [b.arg]), rest[b.size..])
    else ex(c, rest) == ex(NeedDollar(frame, argc, argv + [b.arg]), rest[b.size..])
  }

  lemma PayloadRead(ex: Extractor, frame: seq<byte>, argc: nat, argv: seq<seq<byte>>, len: nat, rest: seq<byte>)
    returns (frame': seq<byte>)
    requires IsExtract(ex) && NeedBulkData(frame, argc, argv, len).Ok()
    ensures PayloadAt(rest, 0, len).Done? ==>
              Reads(ex, NeedBulkData(frame, argc, argv, len), rest, argc, argv, PayloadAt(rest, 0, len).value, frame')
    ensures Fails(ex(NeedBulkData(frame, argc, argv, len), rest), PayloadAt(rest, 0, len))
  {
    frame' := frame;
    Rounds(ex, NeedBulkData(frame, argc, argv, len), rest);
    if len <= |rest| {
      var rest' := rest[len..];
      Rounds(ex, NeedBulkCrlf(frame + rest[..len], argc, argv + [rest[..len]]), rest');
      assert rest[0..len] == rest[..len];
      if len + 2 <= |rest| {
        assert rest'[2..] == rest[len + 2..];
        assert rest'[..2] == [rest[len], rest[len + 1]];
        frame' := frame + rest[..len] + rest'[..2];
      }
    }
  }

  /** From the size field `f` on; `left` is where an error would go on. */
  lemma SizeReadBy(ex: Extractor, c: Ctl, rest: seq<byte>, f: Field, left: seq<byte>) returns (frame': seq<byte>)
    requires IsExtract(ex) && c.NeedBulkLen? && c.Ok() && Within(f, rest) && |left| <= |rest|
    requires Rounded(ex, c, rest, StepLength(c, rest, f, left))
    ensures SizedUpTo(MAX_BULK, rest, 0, f).Done? ==>
              Reads(ex, c, rest, c.argc, c.argv, SizedUpTo(MAX_BULK, rest, 0, f).value, frame')
    ensures Fails(ex(c, rest), SizedUpTo(MAX_BULK, rest, 0, f))
  {
    frame' := c.frame;
    if f.FieldOk? && 0 <= f.value <= MAX_BULK {
      var len, k := f.value, f.size;
      frame' := PayloadRead(ex, c.frame + rest[..k], c.argc, c.argv, len, rest[k..]);
      if k + len + 2 <= |rest| {
        assert rest[k..][0..len] == rest[k..k + len];
        Suffix(rest, k, len + 2);
      }
    }
  }

  lemma SizeRead(ex: Extractor, frame: seq<byte>, argc: nat, argv: seq<seq<byte>>, rest: seq<byte>, f: Field)
    returns (frame': seq<byte>)
    requires IsExtract(ex) && NeedBulkLen(frame, argc, argv).Ok() && f == IntField(rest)
    ensures SizedUpTo(MAX_BULK, rest, 0, f).Done? ==>
              Reads(ex, NeedBulkLen(frame, argc, argv), rest, argc, argv, SizedUpTo(MAX_BULK, rest, 0, f).value, frame')
    ensures Fails(ex(NeedBulkLen(frame, argc, argv), rest), SizedUpTo(MAX_BULK, rest, 0, f))
  {
    Rounds(ex, NeedBulkLen(frame, argc, argv), rest);
    frame' := SizeReadBy(ex, NeedBulkLen(frame, argc, argv), rest, f, AfterField(rest, f));
  }

  lemma DollarReadBy(ex: Extractor, c: Ctl, rest: seq<byte>, f: Field, c': Ctl, frame': seq<byte>)
    requires c.NeedDollar? && c.Ok() && rest != [] && c' == NeedBulkLen(c.frame + rest[..1], c.argc, c.argv)
    requires ex(c, rest) == ex(c', rest[1..])
    requires SizedUpTo(MAX_BULK, rest[1..], 0, f).Done? ==>
               Reads(ex, c', rest[1..], c.argc, c.argv, SizedUpTo(MAX_BULK, rest[1..], 0, f).value, frame')
    requires Fails(ex(c', rest[1..]), SizedUpTo(MAX_BULK, rest[1..], 0, f))
    ensures SizedUpTo(MAX_BULK, rest, 1, f).Done? ==>
              Reads(ex, c, rest, c.argc, c.argv, SizedUpTo(MAX_BULK, rest, 1, f).value, frame')
    ensures Fails(ex(c, rest), SizedUpTo(MAX_BULK, rest, 1, f))
  {
    SizedShift(rest, 1, f);
    if SizedUpTo(MAX_BULK, rest, 1, f).Done? {
      Suffix(rest, 1, SizedUpTo(MAX_BULK, rest[1..], 0, f).value.size);
    }
  }

  lemma BulkRead(ex: Extractor, frame: seq<byte>, argc: nat, argv: seq<seq<byte>>, rest: seq<byte>)
    returns (frame': seq<byte>)
    requires IsExtract(ex) && NeedDollar(frame, argc, argv).Ok()
    ensures StreamBulkAt(rest).Done? ==>
              Reads(ex, NeedDollar(frame, argc, argv), rest, argc, argv, StreamBulkAt(rest).value, frame')
    ensures Fails(ex(NeedDollar(frame, argc, argv), rest), StreamBulkAt(rest))
  {
    var c := NeedDollar(frame, argc, argv);
    frame' := frame;
    Rounds(ex, c, rest);
    if rest != [] && rest[0] == DOLLAR {
      var f := IntField(rest[1..]);
      frame' := SizeRead(ex, frame + rest[..1], argc, argv, rest[1..], f);
      DollarReadBy(ex, c, rest, f, NeedBulkLen(frame + rest[..1], argc, argv), frame');
    }
  }

  /** `at` is `StreamBulkAt`, under a name that is only unfolded in `ElementRead`. */
  ghost predicate IsStreamBulkAt(at: Reader)
  {
    forall r {:trigger StreamBulkAt(r)} :: at(r) == StreamBulkAt(r)
  }

  lemma ElementRead(ex: Extractor, at: Reader, frame: seq<byte>, argc: nat, argv: seq<seq<byte>>, rest: seq<byte>)
    returns (frame': seq<byte>)
    requires IsExtract(ex) && IsStreamBulkAt(at) && IsReader(at)
    requires NeedDollar(frame, argc, argv).Ok()
    ensures at(rest).Done? ==> Reads(ex, NeedDollar(frame, argc, argv), rest, argc, argv, at(rest).value, frame')
    ensures Fails(ex(NeedDollar(frame, argc, argv), rest), at(rest))
  {
    assert at(rest) == StreamBulkAt(rest);
    frame' := BulkRead(ex, frame, argc, argv, rest);
  }

  /** Extraction with `argv` already read yields `argv` and then what `m` holds. */
  ghost predicate Yields(x: Extraction, argv: seq<seq<byte>>, rest: seq<byte>, m: Measure<Bulks>)
    requires m.Done? ==> m.value.size <= |rest|
  {
    && Fails(x, m)
    && (m.Done? ==> Succeeds(x) && x.req.argv == argv + m.value.argv && x.left == rest[m.value.size..])
  }

  lemma {:induction false} BulksAtCons(at: Reader, rest: seq<byte>, n: nat)
    requires IsReader(at) && n > 0 && at(rest).Done?
    ensures BulksAt(at, rest, n) == Cons(at(rest).value, BulksAt(at, rest[at(rest).value.size..], n - 1))
  {
  }

  /** Extraction from inside an array succeeds exactly when its remaining elements are all
      there, and yields them. `at` is the extractor's reading of one element. */
  lemma {:induction false} ElementsRead(ex: Extractor, at: Reader, frame: seq<byte>, argc: nat, argv: seq<seq<byte>>,
                                        rest: seq<byte>)
    requires IsExtract(ex) && IsReader(at)
    requires IsStreamBulkAt(at)
    requires NeedDollar(frame, argc, argv).Ok()
    ensures Yields(ex(NeedDollar(frame, argc, argv), rest), argv, rest, BulksAt(at, rest, argc - |argv|))
    decreases argc - |argv|
  {
    var x := ex(NeedDollar(frame, argc, argv), rest);
    var frame' := ElementRead(ex, at, frame, argc, argv, rest);
    if at(rest).Done? {
      var b := at(rest).value;
      var rest', argv' := rest[b.size..], argv + [b.arg];
      if |argv'| == argc {
        LastElement(at, frame', argv', rest');
      } else {
        ElementsRead(ex, at, frame', argc, argv', rest');
      }
      YieldsMore(x, at, argv, rest, argc - |argv|);
    }
  }

  lemma LastElement(at: Reader, frame: seq<byte>, argv: seq<seq<byte>>, rest: seq<byte>)
    requires IsReader(at) && argv != []
    ensures Yields(Output(Request(frame, argv), rest), argv, rest, BulksAt(at, rest, 0))
  {
  }

  lemma {:induction false} YieldsMore(x: Extraction, at: Reader, argv: seq<seq<byte>>, rest: seq<byte>, n: nat)
    requires IsReader(at) && at(rest).Done? && n > 0
    requires var b := at(rest).value; Yields(x, argv + [b.arg], rest[b.size..], BulksAt(at, rest[b.size..], n - 1))
    ensures Yields(x, argv, rest, BulksAt(at, rest, n))
  {
  }

  // ---- whole frames ----

  /** The array header as the extractor reads it. */
  function StreamHeaderAt(s: seq<byte>): (m: Measure<Header>)
    ensures m.Done? ==> 1 <= m.value.argc <= MAX_ARGS && 0 < m.value.size <= |s|
  {
    if s == [] then More
    else if s[0] != STAR then Bad
    else CountUpTo(MAX_ARGS, IntField(s[1..]))
  }

  /** A whole frame as the extractor reads it. */
  function StreamFrame(at: Reader, s: seq<byte>): (m: Measure<Bulks>)
    requires IsReader(at)
    ensures m.Done? ==> 0 < m.value.size <= |s| && 1 <= |m.value.argv|
  {
    ElementsAfter(StreamHeaderAt(s), at, s)
  }

  /** The count field `f` behind the star; `left` is where an error would go on. */
  lemma CountReadBy(ex: Extractor, c: Ctl, rest: seq<byte>, f: Field, left: seq<byte>)
    requires c.NeedArgc? && c.Ok() && Within(f, rest) && |left| <= |rest|
    requires Rounded(ex, c, rest, StepArgc(c, rest, f, left))
    ensures var m := CountUpTo(MAX_ARGS, f);
            if m.Done? then ex(c, rest) == ex(NeedDollar(c.frame + rest[..f.size], m.value.argc, []), rest[f.size..])
            else Fails(ex(c, rest), m)
  {
  }

  lemma CountRead(ex: Extractor, frame: seq<byte>, rest: seq<byte>, f: Field)
    requires IsExtract(ex) && NeedArgc(frame).Ok() && f == IntField(rest)
    ensures var m := CountUpTo(MAX_ARGS, f);
            if m.Done? then
              ex(NeedArgc(frame), rest) == ex(NeedDollar(frame + rest[..f.size], m.value.argc, []), rest[f.size..])
            else Fails(ex(NeedArgc(frame), rest), m)
  {
    Rounds(ex, NeedArgc(frame), rest);
    CountReadBy(ex, NeedArgc(frame), rest, f, AfterField(rest, f));
  }

  lemma StarRead(ex: Extractor, s: seq<byte>)
    requires IsExtract(ex)
    ensures if s != [] && s[0] == STAR then ex(NeedStar, s) == ex(NeedArgc([STAR]), s[1..])
            else Fails(ex(NeedStar, s), StreamHeaderAt(s))
  {
    Rounds(ex, NeedStar, s);
  }

  lemma HeaderRead(ex: Extractor, s: seq<byte>) returns (frame: seq<byte>)
    requires IsExtract(ex)
    ensures Fails(ex(NeedStar, s), StreamHeaderAt(s))
    ensures StreamHeaderAt(s).Done? ==>
              var h := StreamHeaderAt(s).value;
              frame != [] && ex(NeedStar, s) == ex(NeedDollar(frame, h.argc, []), s[h.size..])
  {
    frame := [STAR];
    StarRead(ex, s);
    if s != [] && s[0] == STAR {
      var rest := s[1..];
      var f := IntField(rest);
      CountRead(ex, frame, rest, f);
      if f.FieldOk? {
        frame := [STAR] + rest[..f.size];
        Suffix(s, 1, f.size);
      }
    }
  }

  lemma YieldsJoined(x: Extraction, s: seq<byte>, k: nat, m: Measure<Bulks>)
    requires k <= |s| && (m.Done? ==> m.value.size <= |s| - k)
    requires Yields(x, [], s[k..], m)
    ensures Yields(x, [], s, Joined([], k, m))
  {
  }

  lemma FrameRead(ex: Extractor, at: Reader, s: seq<byte>)
    requires IsExtract(ex) && IsStreamBulkAt(at) && IsReader(at)
    ensures Yields(ex(NeedStar, s), [], s, StreamFrame(at, s))
  {
    var frame := HeaderRead(ex, s);
    FrameReadBy(ex, at, s, ex(NeedStar, s), StreamHeaderAt(s), frame);
  }

  lemma FrameReadBy(ex: Extractor, at: Reader, s: seq<byte>, x: Extraction, h: Measure<Header>, frame: seq<byte>)
    requires IsExtract(ex) && IsStreamBulkAt(at) && IsReader(at) && Fails(x, h)
    requires h.Done? ==> 1 <= h.value.argc <= MAX_ARGS && 0 < h.value.size <= |s| && frame != []
    requires h.Done? ==> x == ex(NeedDollar(frame, h.value.argc, []), s[h.value.size..])
    ensures Yields(x, [], s, ElementsAfter(h, at, s))
  {
    if h.Done? {
      var argc, k := h.value.argc, h.value.size;
      ElementsRead(ex, at, frame, argc, [], s[k..]);
      YieldsJoined(x, s, k, BulksAt(at, s[k..], argc));
    }
  }

  /** Every decimal field of the frame at the front of `s` fits in 64 bits: the count, and
      what `p` says of each element. */
  predicate FieldsFit(at: Reader, p: seq<byte> -> bool, s: seq<byte>)
    requires IsReader(at)
  {
    && StreamHeaderAt(s).Done?
    && FieldFits(s[1..])
    && Each(at, p, s[StreamHeaderAt(s).value.size..], StreamHeaderAt(s).value.argc)
  }

  lemma HeadersAgree(s: seq<byte>)
    ensures HeaderAt(MAX_ARGS, s).Done? <==> StreamHeaderAt(s).Done? && FieldFits(s[1..])
    ensures HeaderAt(MAX_ARGS, s).Done? ==> HeaderAt(MAX_ARGS, s) == StreamHeaderAt(s)
  {
    if s != [] {
      FieldsAgree(s[1..]);
    }
  }

  lemma FramesAgree(a: Reader, b: Reader, p: seq<byte> -> bool, s: seq<byte>)
    requires IsReader(a) && IsReader(b) && Restricts(a, b, p)
    ensures FrameBy(a, MAX_ARGS, s).Done? <==> StreamFrame(b, s).Done? && FieldsFit(b, p, s)
    ensures FrameBy(a, MAX_ARGS, s).Done? ==> FrameBy(a, MAX_ARGS, s) == StreamFrame(b, s)
  {
    HeadersAgree(s);
    var h := StreamHeaderAt(s);
    if h.Done? {
      BulksAgree(a, b, p, s[h.value.size..], h.value.argc);
    }
  }

  // ---- reading a frame needs no more than the frame ----

  lemma FindInPrefix(s: seq<byte>, m: nat, b: byte)
    requires m <= |s|
    ensures Find(s, b) < m ==> Find(s[..m], b) == Find(s, b)
    ensures Find(s[..m], b) < m ==> Find(s, b) == Find(s[..m], b)
  {
  }

  lemma CheckedFieldLocal(rest: seq<byte>, m: nat)
    requires m <= |rest|
    ensures CheckedField(rest).FieldOk? && CheckedField(rest).size <= m ==> CheckedField(rest[..m]) == CheckedField(rest)
    ensures CheckedField(rest[..m]).FieldOk? ==> CheckedField(rest) == CheckedField(rest[..m])
  {
    FindInPrefix(rest, m, CR);
    var cr := Find(rest, CR);
    if cr < m {
      assert rest[..m][..cr] == rest[..cr];
    }
  }

  lemma PayloadLocal(s: seq<byte>, m: nat, start: nat, len: nat)
    requires m <= |s|
    ensures PayloadAt(s, start, len).Done? && PayloadAt(s, start, len).value.size <= m ==>
              PayloadAt(s[..m], start, len) == PayloadAt(s, start, len)
    ensures PayloadAt(s[..m], start, len).Done? ==> PayloadAt(s, start, len) == PayloadAt(s[..m], start, len)
  {
    if start + len + 2 <= m {
      assert s[..m][start..start + len] == s[start..start + len];
    }
  }

  /** `f` is the size field in the whole, `g` the one in the first `m` bytes. */
  lemma SizedLocal(rest: seq<byte>, m: nat, f: Field, g: Field)
    requires 0 < m <= |rest| && (f.FieldOk? && f.size < m ==> g == f) && (g.FieldOk? ==> g == f)
    ensures var whole, part := SizedUpTo(MAX_BULK, rest, 1, f), SizedUpTo(MAX_BULK, rest[..m], 1, g);
            && (whole.Done? && whole.value.size <= m ==> part == whole)
            && (part.Done? ==> whole == part)
  {
    if f.FieldOk? && f.value >= 0 {
      PayloadLocal(rest, m, 1 + f.size, f.value);
    }
  }

  lemma BulkLocal(rest: seq<byte>, m: nat)
    requires m <= |rest|
    ensures ShortBulkAt(rest).Done? && ShortBulkAt(rest).value.size <= m ==> ShortBulkAt(rest[..m]) == ShortBulkAt(rest)
    ensures ShortBulkAt(rest[..m]).Done? ==> ShortBulkAt(rest) == ShortBulkAt(rest[..m])
  {
    if m > 0 {
      assert rest[..m][1..] == rest[1..][..m - 1];
      CheckedFieldLocal(rest[1..], m - 1);
      SizedLocal(rest, m, CheckedField(rest[1..]), CheckedField(rest[..m][1..]));
    }
  }

  lemma HeaderLocal(s: seq<byte>, m: nat)
    requires m <= |s|
    ensures HeaderAt(MAX_ARGS, s).Done? && HeaderAt(MAX_ARGS, s).value.size <= m ==>
              HeaderAt(MAX_ARGS, s[..m]) == HeaderAt(MAX_ARGS, s)
    ensures HeaderAt(MAX_ARGS, s[..m]).Done? ==> HeaderAt(MAX_ARGS, s) == HeaderAt(MAX_ARGS, s[..m])
  {
    if m > 0 {
      assert s[..m][1..] == s[1..][..m - 1];
      CheckedFieldLocal(s[1..], m - 1);
    }
  }

  lemma ElementsLocal(h: Measure<Header>, at: Reader, s: seq<byte>, m: nat)
    requires IsReader(at) && Local(at) && m <= |s|
    requires h.Done? ==> 1 <= h.value.argc && 0 < h.value.size <= m
    ensures var whole, part := ElementsAfter(h, at, s), ElementsAfter(h, at, s[..m]);
            && (whole.Done? && whole.value.size <= m ==> part == whole)
            && (part.Done? ==> whole == part)
  {
    if h.Done? {
      var k := h.value.size;
      assert s[..m][k..] == s[k..][..m - k];
      BulksLocal(at, s[k..], m - k, h.value.argc);
    }
  }

  lemma FrameLocal(at: Reader, s: seq<byte>, m: nat)
    requires IsReader(at) && Local(at) && m <= |s|
    ensures FrameBy(at, MAX_ARGS, s).Done? && FrameBy(at, MAX_ARGS, s).value.size <= m ==>
              FrameBy(at, MAX_ARGS, s[..m]) == FrameBy(at, MAX_ARGS, s)
    ensures FrameBy(at, MAX_ARGS, s[..m]).Done? ==> FrameBy(at, MAX_ARGS, s) == FrameBy(at, MAX_ARGS, s[..m])
  {
    HeaderLocal(s, m);
    var h := HeaderAt(MAX_ARGS, s);
    if h.Done? && h.value.size <= m {
      ElementsLocal(h, at, s, m);
    }
  }

  // ---- the theorem ----

  /** The whole-frame parser measures a frame of length `len` and accepts it as `argv`. */
  predicate WholeAccepts(s: seq<byte>, len: nat, argv: seq<seq<byte>>)
  {
    FrameLength(s) == Done(len) && CommandArgs(s[..len]) == Some(argv)
  }

  lemma {:induction false} UnlimitedToo(a: Reader, b: Reader, p: seq<byte> -> bool, s: seq<byte>)
    requires IsReader(a) && IsReader(b) && Restricts(a, b, p)
    ensures FrameBy(a, MAX_ARGS, s).Done? ==> FrameBy(b, TWO_63, s) == FrameBy(a, MAX_ARGS, s)
  {
    var h := HeaderAt(MAX_ARGS, s);
    if h.Done? {
      assert HeaderAt(TWO_63, s) == h;
      BulksAgree(a, b, p, s[h.value.size..], h.value.argc);
    }
  }

  /** Measuring with `b` and then reading the measured prefix with the stricter `a` is
      reading with `a` in the first place. */
  lemma MeasureThenRead(a: Reader, b: Reader, p: seq<byte> -> bool, s: seq<byte>, bs: Bulks)
    requires IsReader(a) && IsReader(b) && Restricts(a, b, p) && Local(a)
    requires bs.size <= |s|
    ensures FrameBy(a, MAX_ARGS, s) == Done(bs) <==>
              && FrameBy(b, TWO_63, s).Done? && FrameBy(b, TWO_63, s).value.size == bs.size
              && FrameBy(a, MAX_ARGS, s[..bs.size]).Done? && FrameBy(a, MAX_ARGS, s[..bs.size]).value.argv == bs.argv
  {
    UnlimitedToo(a, b, p, s);
    FrameLocal(a, s, bs.size);
  }

  predicate IsShort(r: seq<byte>) { BulkAt(r).Done? && |BulkAt(r).value.arg| <= MAX_BULK }

  lemma ShortAgrees(r: seq<byte>)
    ensures ShortBulkAt(r).Done? <==> BulkAt(r).Done? && IsShort(r)
    ensures ShortBulkAt(r).Done? ==> ShortBulkAt(r) == BulkAt(r)
  {
    if r != [] && r[0] == DOLLAR {
      SizedUnder(r, CheckedField(r[1..]));
    }
  }

  lemma SizedUnder(r: seq<byte>, f: Field)
    requires f.FieldOk? ==> f.value < TWO_63
    ensures var short, any := SizedUpTo(MAX_BULK, r, 1, f), SizedUpTo(TWO_63, r, 1, f);
            && (short.Done? <==> any.Done? && |any.value.arg| <= MAX_BULK)
            && (short.Done? ==> short == any)
  {
  }

  lemma WholeIsLimited(s: seq<byte>, len: nat, argv: seq<seq<byte>>)
    requires len <= |s|
    ensures WholeAccepts(s, len, argv) <==> FrameBy(ShortBulkAt, MAX_ARGS, s) == Done(Bulks(argv, len))
  {
    assert Local(ShortBulkAt) by {
      forall r: seq<byte>, m: nat | m <= |r| { BulkLocal(r, m); }
    }
    assert Restricts(ShortBulkAt, BulkAt, IsShort) by {
      forall r: seq<byte> { ShortAgrees(r); }
    }
    MeasureThenRead(ShortBulkAt, BulkAt, IsShort, s, Bulks(argv, len));
  }

  /** Every decimal field of the frame at the front of `s` fits in 64 bits. */
  predicate AllFieldsFit(s: seq<byte>) { FieldsFit(StreamBulkAt, BulkFits, s) }

  /** The result `x` on `s` is the frame measured by `m`. */
  lemma YieldsExactly(x: Extraction, s: seq<byte>, m: Measure<Bulks>, bs: Bulks)
    requires m.Done? ==> 1 <= |m.value.argv| && m.value.size <= |s|
    requires Yields(x, [], s, m) && bs.size <= |s|
    requires Succeeds(x) ==> x.req.frame + x.left == s
    ensures x == Output(Request(s[..bs.size], bs.argv), s[bs.size..]) && bs.argv != [] <==> m == Done(bs)
  {
    if m.Done? {
      var n := m.value.size;
      assert |x.req.frame| == n;
      assert x.req.frame == s[..n] by { assert x.req.frame == (x.req.frame + x.left)[..n]; }
      assert [] + m.value.argv == m.value.argv;
    }
  }

  lemma Conserved(s: seq<byte>)
    ensures Succeeds(Extract(NeedStar, s)) ==> Extract(NeedStar, s).req.frame + Extract(NeedStar, s).left == s
  {
    ConservedFrom(NeedStar, s, Extract(NeedStar, s));
  }

  lemma ConservedFrom(c: Ctl, s: seq<byte>, x: Extraction)
    requires c.Ok() && c.Scanned() == [] && x == Extract(c, s)
    ensures Succeeds(x) ==> x.req.frame + x.left == s
  {
    ExtractConserves(c, s);
    assert [] + s == s;
  }

  lemma StreamBy(ex: Extractor, at: Reader, s: seq<byte>, bs: Bulks)
    requires IsExtract(ex) && IsStreamBulkAt(at) && IsReader(at)
    requires bs.size <= |s|
    ensures ex(NeedStar, s) == Output(Request(s[..bs.size], bs.argv), s[bs.size..]) && bs.argv != [] <==>
            StreamFrame(at, s) == Done(bs)
  {
    FrameRead(ex, at, s);
    assert Succeeds(ex(NeedStar, s)) ==> ex(NeedStar, s).req.frame + ex(NeedStar, s).left == s by {
      Conserved(s);
      assert ex(NeedStar, s) == Extract(NeedStar, s);
    }
    YieldsExactly(ex(NeedStar, s), s, StreamFrame(at, s), bs);
  }

  lemma StreamIs(s: seq<byte>, bs: Bulks)
    requires bs.size <= |s|
    ensures Extract(NeedStar, s) == Output(Request(s[..bs.size], bs.argv), s[bs.size..]) && bs.argv != [] <==>
            StreamFrame(StreamBulkAt, s) == Done(bs)
  {
    var ex: Extractor := (c: Ctl, rest: seq<byte>) => if c.Ok() then Extract(c, rest) else Idle(c, rest);
    StreamBy(ex, StreamBulkAt, s, bs);
    assert ex(NeedStar, s) == Extract(NeedStar, s);
  }

  /** The two parsers agree. The whole-frame parser accepts the first `len` bytes as `argv`
      exactly when the extractor's first output is that frame with those arguments and
      every decimal field of it fits in 64 bits. */
  lemma ParsersAgree(s: seq<byte>, len: nat, argv: seq<seq<byte>>)
    requires len <= |s|
    ensures WholeAccepts(s, len, argv) <==>
              && Extract(NeedStar, s) == Output(Request(s[..len], argv), s[len..]) && argv != []
              && AllFieldsFit(s)
  {
    WholeIsLimited(s, len, argv);
    StreamIs(s, Bulks(argv, len));
    assert Restricts(ShortBulkAt, StreamBulkAt, BulkFits) by {
      forall r: seq<byte> { BulkAgrees(r); }
    }
    FramesAgree(ShortBulkAt, StreamBulkAt, BulkFits, s);
  }

  lemma LongField(n: nat, body: seq<byte>)
    requires n >= TWO_64
    ensures IntField(RespRoundTrip.Header(n) + body).FieldOk? && !FieldFits(RespRoundTrip.Header(n) + body)
  {
    RespRoundTrip.FieldEncoded(n, body);
    assert FieldText(RespRoundTrip.Header(n) + body) == Dec(n);
    DecIsNumeral(n);
  }

  lemma MisfitRefused(s: seq<byte>)
    requires !AllFieldsFit(s)
    ensures forall len: nat, args :: len <= |s| ==> !WholeAccepts(s, len, args)
  {
    forall len: nat, args | len <= |s|
      ensures !WholeAccepts(s, len, args)
    {
      ParsersAgree(s, len, args);
    }
  }

  lemma LongCountRefused(s: seq<byte>, n: nat, body: seq<byte>)
    requires n >= TWO_64 && s == [STAR] + (RespRoundTrip.Header(n) + body)
    ensures forall len: nat, args :: len <= |s| ==> !WholeAccepts(s, len, args)
  {
    assert s[1..] == RespRoundTrip.Header(n) + body;
    LongField(n, body);
    MisfitRefused(s);
  }

  /** Where they do not agree: a count written 2^64 too large wraps back to the right one,
      so the extractor takes the command, whatever follows it, and the whole-frame parser
      refuses the bytes. */
  lemma OverflowDisagrees(argv: seq<seq<byte>>, t: seq<byte>)
    requires RespRoundTrip.IsCommand(argv)
    ensures var s := [STAR] + (RespRoundTrip.Header(|argv| + 0x1_0000_0000_0000_0000) + (RespWriter.EncodeBulks(argv) + t));
            && Extract(NeedStar, s).Output? && Extract(NeedStar, s).req.argv == argv && Extract(NeedStar, s).left == t
            && forall len: nat, args :: len <= |s| ==> !WholeAccepts(s, len, args)
  {
    var n, body := |argv| + TWO_64, RespWriter.EncodeBulks(argv) + t;
    WrapShift(|argv|, 1);
    RespRoundTrip.CountedExtracted(n, argv, t);
    LongCountRefused([STAR] + (RespRoundTrip.Header(n) + body), n, body);
  }

  // ---- good streams ----

  /** The extraction at the front of `s` is what the grammar of a frame says of `s`. */
  lemma FrameIs(s: seq<byte>)
    ensures Yields(Extract(NeedStar, s), [], s, StreamFrame(StreamBulkAt, s))
  {
    var ex: Extractor := (c: Ctl, rest: seq<byte>) => if c.Ok() then Extract(c, rest) else Idle(c, rest);
    FrameRead(ex, StreamBulkAt, s);
    assert ex(NeedStar, s) == Extract(NeedStar, s);
  }

  /** Whole frames, one after the other, and at most an unfinished one behind them. */
  predicate IsGood(s: seq<byte>)
    decreases |s|
  {
    match StreamFrame(StreamBulkAt, s)
    case More => true
    case Bad => false
    case Done(bs) => IsGood(s[bs.size..])
  }

  lemma OutsCons(req: Request, outs: seq<Request>)
    ensures ErrorFree([req] + outs) <==> !req.IsError() && ErrorFree(outs)
  {
    var all := [req] + outs;
    assert all[0] == req && all[1..] == outs;
    if ErrorFree(all) {
      forall i | 0 <= i < |outs| ensures !outs[i].IsError() { assert all[i + 1] == outs[i]; }
    }
  }

  /** Draining reports no error exactly for good bytes. */
  lemma {:induction false} GoodIff(s: seq<byte>)
    ensures ErrorFree(Drain(NeedStar, s).outs) <==> IsGood(s)
    decreases |s|
  {
    FrameIs(s);
    var x := Extract(NeedStar, s);
    match StreamFrame(StreamBulkAt, s)
    case More =>
    case Bad => OutsCons(x.req, Drain(NeedStar, x.left).outs);
    case Done(bs) =>
      OutsCons(x.req, Drain(NeedStar, x.left).outs);
      GoodIff(x.left);
  }

  /** Good bytes give the same requests, and no error, however they are cut into chunks. */
  lemma GoodHoweverCut(chunks: seq<seq<byte>>)
    requires IsGood(Concat(chunks))
    ensures Session(NeedStar, [], chunks) == Drain(NeedStar, Concat(chunks))
    ensures ErrorFree(Session(NeedStar, [], chunks).outs)
  {
    GoodIff(Concat(chunks));
    RespRoundTrip.PartSession(Drain(NeedStar, Concat(chunks)).outs, chunks);
  }
}
