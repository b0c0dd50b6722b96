/** The whole-frame parser: measures a frame at the front of a string, then reads its
    arguments out of it. Values first, the loops that run them below. */
module FrameParser {
  import opened Seals
  import opened Wrappers
  import opened Bytes
  import opened RespStream

  datatype Measure<+T> = More | Bad | Done(value: T)

  /** A decimal field ended by CR LF, located by its carriage return; out-of-range numbers
      are refused (from_chars). */
  function CheckedField(rest: seq<byte>): (f: Field)
    ensures f.FieldOk? ==> 3 <= f.size <= |rest|
  {
    var cr := Find(rest, CR);
    if cr == |rest| || cr + 1 >= |rest| then FieldMore
    else if rest[cr + 1] != LF || !IsNumeral(rest[..cr]) || !InInt64(Numeral(rest[..cr])) then FieldBad
    else FieldOk(Numeral(rest[..cr]), cr + 2)
  }

  datatype Bulk = Bulk(arg: seq<byte>, size: nat)

  /** `len` payload bytes at `start` with their line end. */
  function PayloadAt(s: seq<byte>, start: nat, len: nat): (m: Measure<Bulk>)
    ensures m.Done? ==> 0 < m.value.size <= |s|
  {
    var end := start + len;
    if end + 2 > |s| then More
    else if s[end] != CR || s[end + 1] != LF then Bad
    else Done(Bulk(s[start..end], end + 2))
  }

  /** The bulk string whose size field `f` is at `start`, with at most `limit` payload bytes. */
  function SizedUpTo(limit: int, s: seq<byte>, start: nat, f: Field): (m: Measure<Bulk>)
    ensures m.Done? ==> 0 < m.value.size <= |s|
  {
    match f
    case FieldMore => More
    case FieldBad => Bad
    case FieldOk(len, k) => if len < 0 || len > limit then Bad else PayloadAt(s, start + k, len)
  }

  /** One bulk string at the front of `rest`: its payload and its whole length. */
  function BulkUpTo(limit: int, rest: seq<byte>): (m: Measure<Bulk>)
    ensures m.Done? ==> 0 < m.value.size <= |rest|
  {
    if rest == [] then More
    else if rest[0] != DOLLAR then Bad
    else SizedUpTo(limit, rest, 1, CheckedField(rest[1..]))
  }

  /** No limit beyond int64 itself. */
  function BulkAt(rest: seq<byte>): (m: Measure<Bulk>)
    ensures m.Done? ==> 0 < m.value.size <= |rest|
  {
    BulkUpTo(TWO_63, rest)
  }

  /** The same where payloads over the limit are refused. */
  function ShortBulkAt(rest: seq<byte>): (m: Measure<Bulk>)
    ensures m.Done? ==> 0 < m.value.size <= |rest|
  {
    BulkUpTo(MAX_BULK, rest)
  }

  type Reader = seq<byte> -> Measure<Bulk>

  ghost predicate IsReader(at: Reader)
  {
    forall r :: at(r).Done? ==> 0 < at(r).value.size <= |r|
  }

  datatype Bulks = Bulks(argv: seq<seq<byte>>, size: nat)

  function Cons(b: Bulk, m: Measure<Bulks>): (r: Measure<Bulks>)
  {
    match m
    case More => More
    case Bad => Bad
    case Done(bs) => Done(Bulks([b.arg] + bs.argv, b.size + bs.size))
  }

  /** `n` bulk strings at the front of `rest`, read one after the other by `at`. */
  function BulksAt(at: Reader, rest: seq<byte>, n: nat): (m: Measure<Bulks>)
    requires IsReader(at)
    ensures m.Done? ==> |m.value.argv| == n && m.value.size <= |rest|
  {
    if n == 0 then Done(Bulks([], 0))
    else
      match at(rest)
      case More => More
      case Bad => Bad
      case Done(b) => Cons(b, BulksAt(at, rest[b.size..], n - 1))
  }

  datatype Header = Header(argc: nat, size: nat)

  /** The array header with the count field `f` behind its star: at least one element, at most
      `limit`. */
  function CountUpTo(limit: int, f: Field): (m: Measure<Header>)
    ensures m.Done? ==> f.FieldOk? && 1 <= m.value.argc <= limit && m.value.size == 1 + f.size
  {
    match f
    case FieldMore => More
    case FieldBad => Bad
    case FieldOk(argc, k) => if argc <= 0 || argc > limit then Bad else Done(Header(argc, 1 + k))
  }

  /** The array header at the front of `s`. */
  function HeaderAt(limit: int, s: seq<byte>): (m: Measure<Header>)
    ensures m.Done? ==> 1 <= m.value.argc <= limit && 0 < m.value.size <= |s|
  {
    if s == [] then More
    else if s[0] != STAR then Bad
    else CountUpTo(limit, CheckedField(s[1..]))
  }

  /** The array header, then its elements read by `at`. */
  function FrameBy(at: Reader, limit: int, s: seq<byte>): (m: Measure<Bulks>)
    requires IsReader(at)
    ensures m.Done? ==> 0 < m.value.size <= |s| && 1 <= |m.value.argv|
  {
    ElementsAfter(HeaderAt(limit, s), at, s)
  }

  /** The elements announced by the header `m`, read by `at`. */
  function ElementsAfter(m: Measure<Header>, at: Reader, s: seq<byte>): (r: Measure<Bulks>)
    requires IsReader(at)
    requires m.Done? ==> 1 <= m.value.argc && 0 < m.value.size <= |s|
    ensures r.Done? ==> m.Done? && m.value.size <= r.value.size <= |s| && 1 <= |r.value.argv|
  {
    match m
    case More => More
    case Bad => Bad
    case Done(h) => Joined([], h.size, BulksAt(at, s[h.size..], h.argc))
  }

  /** What has been read up to `pos` joined to what the rest gives. */
  function Joined(argv: seq<seq<byte>>, pos: nat, m: Measure<Bulks>): (r: Measure<Bulks>)
  {
    match m
    case More => More
    case Bad => Bad
    case Done(bs) => Done(Bulks(argv + bs.argv, pos + bs.size))
  }

  /** parse_frame_length: no limit beyond int64 itself. */
  function FrameLength(s: seq<byte>): (m: Measure<nat>)
    ensures m.Done? ==> 0 < m.value <= |s|
  {
    match FrameBy(BulkAt, TWO_63, s)
    case More => More
    case Bad => Bad
    case Done(bs) => Done(bs.size)
  }

  /** parse_command_from_frame; None where the source throws. */
  function CommandArgs(s: seq<byte>): (r: Option<seq<seq<byte>>>)
  {
    match FrameBy(ShortBulkAt, MAX_ARGS, s)
    case More => None
    case Bad => None
    case Done(bs) => Some(bs.argv)
  }

  // ---- the loops ----

  method ParseIntCrlf(s: seq<byte>, pos: nat) returns (f: Measure<(int, nat)>)
    requires pos <= |s|
    ensures match CheckedField(s[pos..])
            case FieldMore => f == More
            case FieldBad => f == Bad
            case FieldOk(v, k) => f == Done((v, pos + k))
  {
    ghost var rest := s[pos..];
    var cr := pos + Find(s[pos..], CR);
    if cr == |s| || cr + 1 >= |s| {
      return More;
    }
    if s[cr + 1] != LF {
      return Bad;
    }
    assert s[pos..cr] == rest[..cr - pos];
    if !IsNumeral(s[pos..cr]) || !InInt64(Numeral(s[pos..cr])) {
      return Bad;
    }
    f := Done((Numeral(s[pos..cr]), cr + 2));
  }

  lemma Suffix(s: seq<byte>, i: nat, j: nat)
    requires i + j <= |s|
    ensures s[i..][j..] == s[i + j..]
  {
  }

  lemma JoinedStep(argv: seq<seq<byte>>, pos: nat, b: Bulk, m: Measure<Bulks>)
    ensures Joined(argv, pos, Cons(b, m)) == Joined(argv + [b.arg], pos + b.size, m)
  {
    if m.Done? {
      assert argv + ([b.arg] + m.value.argv) == argv + [b.arg] + m.value.argv;
    }
  }

  lemma JoinedDone(argv: seq<seq<byte>>, pos: nat)
    ensures Joined(argv, pos, Done(Bulks([], 0))) == Done(Bulks(argv, pos))
  {
    assert argv + [] == argv;
  }

  /** One iteration of either loop. */
  lemma {:induction false} LoopStep(at: Reader, s: seq<byte>, pos: nat, n: nat, argv: seq<seq<byte>>)
    requires IsReader(at) && pos <= |s| && n > 0
    ensures match at(s[pos..])
            case More => BulksAt(at, s[pos..], n) == More
            case Bad => BulksAt(at, s[pos..], n) == Bad
            case Done(b) =>
              Joined(argv, pos, BulksAt(at, s[pos..], n)) ==
              Joined(argv + [b.arg], pos + b.size, BulksAt(at, s[pos + b.size..], n - 1))
  {
    if at(s[pos..]).Done? {
      var b := at(s[pos..]).value;
      Suffix(s, pos, b.size);
      JoinedStep(argv, pos, b, BulksAt(at, s[pos + b.size..], n - 1));
    }
  }

  /** `at` is `BulkUpTo(limit, _)`. */
  ghost predicate IsBulkUpTo(at: Reader, limit: int)
  {
    forall t {:trigger Open(ElementSeal, t)} :: Open(ElementSeal, t) ==> forall r :: at(r) == BulkUpTo(limit, r)
  }

  /** `len` payload bytes at `pos` and their line end, in an element that begins at `start`. */
  method ReadPayload(s: seq<byte>, start: nat, pos: nat, len: nat) returns (m: Measure<Bulk>)
    requires start <= pos <= |s|
    ensures m == PayloadAt(s[start..], pos - start, len)
  {
    ghost var rest := s[start..];
    var need := pos + len + 2;
    if need > |s| {
      return More;
    }
    if s[pos + len] != CR || s[pos + len + 1] != LF {
      return Bad;
    }
    assert s[pos..pos + len] == rest[pos - start..pos - start + len];
    m := Done(Bulk(s[pos..pos + len], need - start));
  }

  /** One element: the dollar, the size field, the payload and its line end. */
  method ReadBulk(limit: int, ghost at: Reader, s: seq<byte>, start: nat) returns (m: Measure<Bulk>)
    requires start <= |s| && IsBulkUpTo(at, limit)
    ensures m == at(s[start..])
  {
    assert Open(ElementSeal, true);
    if start >= |s| {
      return More;
    }
    if s[start] != DOLLAR {
      return Bad;
    }
    Suffix(s, start, 1);
    var f := ParseIntCrlf(s, start + 1);
    match f {
      case More => return More;
      case Bad => return Bad;
      case Done((len, pos)) =>
        if len < 0 || len > limit {
          return Bad;
        }
        m := ReadPayload(s, start, pos, len);
    }
  }

  /** The loop over the array's elements, from `start` on. */
  method ReadBulks(limit: int, ghost at: Reader, s: seq<byte>, start: nat, argc: nat) returns (m: Measure<Bulks>)
    requires IsReader(at) && start <= |s| && IsBulkUpTo(at, limit)
    ensures m == Joined([], start, BulksAt(at, s[start..], argc))
  {
    var pos: nat, argv := start, [];
    ghost var goal := Joined([], start, BulksAt(at, s[start..], argc));
    ghost var n := argc;
    var i := 0;
    while i < argc
      invariant 0 <= i && n == argc - i && pos <= |s|
      invariant Joined(argv, pos, BulksAt(at, s[pos..], n)) == goal
    {
      LoopStep(at, s, pos, n, argv);
      var element := ReadBulk(limit, at, s, pos);
      match element {
        case More => return More;
        case Bad => return Bad;
        case Done(bulk) =>
          argv := argv + [bulk.arg];
          pos := pos + bulk.size;
      }
      i, n := i + 1, n - 1;
    }
    JoinedDone(argv, pos);
    m := Done(Bulks(argv, pos));
  }

  /** The header and the loop, with the limits of the one function or the other. */
  method ParseFrame(maxArgs: int, maxBulk: int, ghost at: Reader, s: seq<byte>) returns (m: Measure<Bulks>)
    requires IsReader(at) && IsBulkUpTo(at, maxBulk)
    ensures m == FrameBy(at, maxArgs, s)
  {
    if s == [] {
      return More;
    }
    if s[0] != STAR {
      return Bad;
    }
    var f := ParseIntCrlf(s, 1);
    match f {
      case More => return More;
      case Bad => return Bad;
      case Done((argc, pos)) =>
        if argc <= 0 || argc > maxArgs {
          return Bad;
        }
        m := ReadBulks(maxBulk, at, s, pos, argc);
    }
  }

  /** parse_frame_length. */
  method ParseFrameLength(s: seq<byte>) returns (m: Measure<nat>)
    ensures m == FrameLength(s)
  {
    var frame := ParseFrame(TWO_63, TWO_63, BulkAt, s);
    match frame {
      case More => return More;
      case Bad => return Bad;
      case Done(bs) => return Done(bs.size);
    }
  }

  /** parse_command_from_frame; None where the source throws. */
  method ParseCommandFromFrame(frame: seq<byte>) returns (r: Option<seq<seq<byte>>>)
    ensures r == CommandArgs(frame)
  {
    var m := ParseFrame(MAX_ARGS, MAX_BULK, ShortBulkAt, frame);
    r := if m.Done? then Some(m.value.argv) else None;
  }
}
