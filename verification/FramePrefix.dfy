/** The whole-frame parser on growing input: what it has decided stays decided, every proper front
    part of a frame needs more, and written commands are measured and read back. */
module FramePrefix {
  import opened Wrappers
  import opened Bytes
  import opened RespStream
  import opened RespWriter
  import opened RespRoundTrip
  import opened FrameParser
  import opened RespErrors
  import opened Seals

  /** What was decided on the part holds on the whole. */
  predicate Decided<T(==)>(part: Measure<T>, whole: Measure<T>) { part.More? || whole == part }

  lemma FieldExtend(s: seq<byte>, t: seq<byte>)
    ensures CheckedField(s).FieldMore? || CheckedField(s + t) == CheckedField(s)
  {
    var cr := Find(s, CR);
    if cr + 1 < |s| {
      FindExtend(s, t, CR);
      assert (s + t)[..cr] == s[..cr];
    }
  }

  lemma PayloadExtend(s: seq<byte>, t: seq<byte>, start: nat, len: nat)
    ensures Decided(PayloadAt(s, start, len), PayloadAt(s + t, start, len))
  {
    if start + len + 2 <= |s| {
      assert (s + t)[start..start + len] == s[start..start + len];
    }
  }

  lemma SizedExtend(limit: int, s: seq<byte>, t: seq<byte>, f: Field, g: Field)
    requires f.FieldMore? || g == f
    ensures Decided(SizedUpTo(limit, s, 1, f), SizedUpTo(limit, s + t, 1, g))
  {
    if f.FieldOk? && f.value >= 0 {
      PayloadExtend(s, t, 1 + f.size, f.value);
    }
  }

  lemma BulkExtend(limit: int, s: seq<byte>, t: seq<byte>)
    ensures Decided(BulkUpTo(limit, s), BulkUpTo(limit, s + t))
  {
    if s != [] {
      assert (s + t)[1..] == s[1..] + t;
      FieldExtend(s[1..], t);
      SizedExtend(limit, s, t, CheckedField(s[1..]), CheckedField((s + t)[1..]));
    }
  }

  /** What one element is does not change when more bytes come. */
  ghost predicate Stable(at: Reader) { forall s: seq<byte>, t: seq<byte> :: Decided(at(s), at(s + t)) }

  lemma {:induction false} BulksExtend(at: Reader, s: seq<byte>, t: seq<byte>, n: nat)
    requires IsReader(at) && Stable(at)
    ensures Decided(BulksAt(at, s, n), BulksAt(at, s + t, n))
    decreases n
  {
    if n == 0 {
    } else {
      assert Decided(at(s), at(s + t));
      if at(s).Done? {
        var k := at(s).value.size;
        assert (s + t)[k..] == s[k..] + t;
        BulksExtend(at, s[k..], t, n - 1);
      }
    }
  }

  lemma HeaderExtend(limit: int, s: seq<byte>, t: seq<byte>)
    ensures Decided(HeaderAt(limit, s), HeaderAt(limit, s + t))
  {
    if s != [] {
      assert (s + t)[1..] == s[1..] + t;
      FieldExtend(s[1..], t);
    }
  }

  lemma FrameExtend(at: Reader, limit: int, s: seq<byte>, t: seq<byte>)
    requires IsReader(at) && Stable(at)
    ensures Decided(FrameBy(at, limit, s), FrameBy(at, limit, s + t))
  {
    HeaderExtend(limit, s, t);
    var h := HeaderAt(limit, s);
    if h.Done? {
      var k := h.value.size;
      assert (s + t)[k..] == s[k..] + t;
      BulksExtend(at, s[k..], t, h.value.argc);
    }
  }

  /** A length that was measured and an error that was found stay so when more bytes come. */
  lemma LengthStays(s: seq<byte>, t: seq<byte>)
    ensures Decided(FrameLength(s), FrameLength(s + t))
  {
    assert Stable(BulkAt) by {
      forall r: seq<byte>, u: seq<byte> { BulkExtend(TWO_63, r, u); }
    }
    FrameExtend(BulkAt, TWO_63, s, t);
  }

  /** Every proper front part of a frame needs more. */
  lemma FrontNeedsMore(f: seq<byte>, p: seq<byte>)
    requires FrameLength(f) == Done(|f|) && p < f
    ensures FrameLength(p) == More
  {
    assert f == p + f[|p|..];
    LengthStays(p, f[|p|..]);
  }

  // ---- written commands ----

  lemma FieldWritten(n: nat, t: seq<byte>)
    requires n < 0x8000_0000_0000_0000
    ensures CheckedField(RespRoundTrip.Header(n) + t) == FieldOk(n, |RespRoundTrip.Header(n)|)
  {
    DecIsNumeral(n);
    var d := Dec(n);
    var rest := RespRoundTrip.Header(n) + t;
    assert forall i :: 0 <= i < |d| ==> rest[i] == d[i];
    assert rest[|d|] == CR && rest[|d| + 1] == LF;
    FindIs(rest, CR, |d|);
    assert rest[..|d|] == d;
  }

  lemma BulkWritten(limit: int, s: seq<byte>, t: seq<byte>)
    requires |s| <= limit && |s| < 0x8000_0000_0000_0000
    ensures BulkUpTo(limit, EncodeBulk(s) + t) == Done(Bulk(s, |EncodeBulk(s)|))
  {
    var rest, h := EncodeBulk(s) + t, RespRoundTrip.Header(|s|);
    BulkParted(s, h, t);
    FieldWritten(|s|, s + (CRLF + t));
    PayloadWritten(rest, 1 + |h|, s, t);
  }

  lemma BulkParted(s: seq<byte>, h: seq<byte>, t: seq<byte>)
    requires h == RespRoundTrip.Header(|s|)
    ensures var rest := EncodeBulk(s) + t;
            && rest[0] == DOLLAR && rest[1..] == h + (s + (CRLF + t)) && rest[1 + |h|..] == s + (CRLF + t)
            && |EncodeBulk(s)| == 1 + |h| + |s| + 2
  {
    BulkParts([], s, t);
    Front(h, s + (CRLF + t));
  }

  lemma PayloadWritten(rest: seq<byte>, start: nat, s: seq<byte>, t: seq<byte>)
    requires start <= |rest| && rest[start..] == s + (CRLF + t)
    ensures PayloadAt(rest, start, |s|) == Done(Bulk(s, start + |s| + 2))
  {
    var tail := rest[start..];
    assert rest[start + |s|] == tail[|s|] == CR && rest[start + |s| + 1] == tail[|s| + 1] == LF;
    assert rest[start..start + |s|] == tail[..|s|] == s;
  }

  /** Element `j` of `items` is in `s` from `cuts[j]` to `cuts[j + 1]`. */
  ghost predicate ReadsAt(at: Reader, s: seq<byte>, cuts: seq<nat>, items: seq<seq<byte>>, j: nat)
    requires |cuts| == |items| + 1 && j < |items|
  {
    cuts[j] <= cuts[j + 1] <= cuts[|items|] <= |s| && at(s[cuts[j]..]) == Done(Bulk(items[j], cuts[j + 1] - cuts[j]))
  }

  /** From element `i` on, `s` is read as `items`. */
  ghost predicate Rest(at: Reader, s: seq<byte>, cuts: seq<nat>, items: seq<seq<byte>>, i: nat)
    requires IsReader(at) && |cuts| == |items| + 1 && i <= |items| && cuts[i] <= cuts[|items|] <= |s|
  {
    BulksAt(at, s[cuts[i]..], |items| - i) == Done(Bulks(items[i..], cuts[|items|] - cuts[i]))
  }

  lemma {:induction false} RestEmpty(at: Reader, s: seq<byte>, cuts: seq<nat>, items: seq<seq<byte>>)
    requires IsReader(at) && |cuts| == |items| + 1 && cuts[|items|] <= |s|
    ensures Rest(at, s, cuts, items, |items|)
  {
    assert items[|items|..] == [];
  }

  lemma RestMore(at: Reader, s: seq<byte>, cuts: seq<nat>, items: seq<seq<byte>>, i: nat)
    requires IsReader(at) && |cuts| == |items| + 1 && i < |items| && cuts[i] <= cuts[|items|] <= |s|
    requires ReadsAt(at, s, cuts, items, i) && Rest(at, s, cuts, items, i + 1)
    ensures Rest(at, s, cuts, items, i)
  {
    Suffix(s, cuts[i], cuts[i + 1] - cuts[i]);
    BulksFirst(at, s[cuts[i]..], s[cuts[i + 1]..], |items| - i, Bulk(items[i], cuts[i + 1] - cuts[i]),
               Bulks(items[i + 1..], cuts[|items|] - cuts[i + 1]));
    assert items[i..] == [items[i]] + items[i + 1..];
  }

  lemma {:induction false} BulksFrom(at: Reader, s: seq<byte>, cuts: seq<nat>, items: seq<seq<byte>>, i: nat)
    requires IsReader(at) && |cuts| == |items| + 1 && i <= |items| && cuts[i] <= cuts[|items|] <= |s|
    requires forall j: nat {:trigger ReadsAt(at, s, cuts, items, j)} :: j < |items| ==> ReadsAt(at, s, cuts, items, j)
    ensures Rest(at, s, cuts, items, i)
    decreases |items| - i
  {
    if i == |items| {
      RestEmpty(at, s, cuts, items);
    } else {
      assert ReadsAt(at, s, cuts, items, i);
      BulksFrom(at, s, cuts, items, i + 1);
      RestMore(at, s, cuts, items, i);
    }
  }

  lemma {:induction false} BulksFirst(at: Reader, rest: seq<byte>, rest': seq<byte>, n: nat, b: Bulk, more: Bulks)
    requires IsReader(at) && n > 0 && at(rest) == Done(b) && rest' == rest[b.size..]
    requires BulksAt(at, rest', n - 1) == Done(more)
    ensures BulksAt(at, rest, n) == Done(Bulks([b.arg] + more.argv, b.size + more.size))
  {
  }

  function Wire(items: seq<seq<byte>>): (wire: seq<seq<byte>>)
    ensures |wire| == |items| && forall i :: 0 <= i < |items| ==> wire[i] == EncodeBulk(items[i])
  {
    seq(|items|, i requires 0 <= i < |items| => EncodeBulk(items[i]))
  }

  lemma {:induction false} WireIs(items: seq<seq<byte>>)
    ensures Concat(Wire(items)) == EncodeBulks(items)
  {
    if items == [] {
    } else {
      WireIs(items[1..]);
      assert Wire(items)[1..] == Wire(items[1..]);
    }
  }

  /** Where the parts of `wire` begin behind `k` other bytes, and where the last of them ends. */
  function Cuts(wire: seq<seq<byte>>, k: nat): (cuts: seq<nat>)
    ensures |cuts| == |wire| + 1
    ensures forall j :: 0 <= j <= |wire| ==> cuts[j] == k + |Concat(wire[..j])|
  {
    seq(|wire| + 1, j requires 0 <= j <= |wire| => k + |Concat(wire[..j])|)
  }

  /** Part `j` of `wire` stands at its cut, and ends at the next one. */
  lemma PartAt(s: seq<byte>, k: nat, wire: seq<seq<byte>>, t: seq<byte>, j: nat)
    requires k <= |s| && s[k..] == Concat(wire) + t && j < |wire|
    ensures var c, d := k + |Concat(wire[..j])|, k + |Concat(wire[..j + 1])|;
            && c + |wire[j]| == d <= k + |Concat(wire)| <= |s|
            && s[c..] == wire[j] + (Concat(wire[j + 1..]) + t)
  {
    var a, b, more := Concat(wire[..j]), wire[j], Concat(wire[j + 1..]);
    ConcatPart(wire, j);
    assert wire[..j + 1] == wire[..j] + [wire[j]];
    ConcatLast(wire[..j], wire[j]);
    assert a + (b + more) + t == a + (b + (more + t));
    Front(a, b + (more + t));
    Suffix(s, k, |a|);
  }

  lemma {:induction false} ConcatLast(parts: seq<seq<byte>>, x: seq<byte>)
    ensures |Concat(parts + [x])| == |Concat(parts)| + |x|
  {
    if parts == [] {
    } else {
      assert (parts + [x])[1..] == parts[1..] + [x];
      ConcatLast(parts[1..], x);
    }
  }

  lemma WireRead(at: Reader, limit: int, s: seq<byte>, k: nat, items: seq<seq<byte>>, t: seq<byte>, j: nat)
    requires IsBulkUpTo(at, limit) && k <= |s| && s[k..] == Concat(Wire(items)) + t && j < |items|
    requires |items[j]| <= limit && |items[j]| < 0x8000_0000_0000_0000
    ensures ReadsAt(at, s, Cuts(Wire(items), k), items, j)
  {
    var wire := Wire(items);
    PartAt(s, k, wire, t, j);
    assert wire[..|wire|] == wire;
    ElementRead(at, limit, items[j], wire[j], Concat(wire[j + 1..]) + t);
  }

  lemma ElementRead(at: Reader, limit: int, item: seq<byte>, w: seq<byte>, t: seq<byte>)
    requires IsBulkUpTo(at, limit) && |item| <= limit && |item| < 0x8000_0000_0000_0000 && w == EncodeBulk(item)
    ensures at(w + t) == Done(Bulk(item, |w|))
  {
    assert Open(ElementSeal, true);
    BulkWritten(limit, item, t);
  }

  lemma BulksEncoded(at: Reader, limit: int, s: seq<byte>, k: nat, items: seq<seq<byte>>, t: seq<byte>)
    requires IsReader(at) && IsBulkUpTo(at, limit) && k <= |s| && s[k..] == EncodeBulks(items) + t
    requires forall i :: 0 <= i < |items| ==> |items[i]| <= limit && |items[i]| < 0x8000_0000_0000_0000
    ensures BulksAt(at, s[k..], |items|) == Done(Bulks(items, |EncodeBulks(items)|))
  {
    var cuts := Cuts(Wire(items), k);
    CutsEnd(items, k);
    forall j: nat | j < |items| ensures ReadsAt(at, s, cuts, items, j) {
      WireRead(at, limit, s, k, items, t, j);
    }
    BulksFrom(at, s, cuts, items, 0);
    RestAll(at, s, cuts, items, k);
  }

  lemma CutsEnd(items: seq<seq<byte>>, k: nat)
    ensures Concat(Wire(items)) == EncodeBulks(items)
    ensures var cuts := Cuts(Wire(items), k); cuts[0] == k && cuts[|items|] == k + |EncodeBulks(items)|
  {
    WireIs(items);
    assert Wire(items)[..|items|] == Wire(items) && Wire(items)[..0] == [];
  }

  lemma RestAll(at: Reader, s: seq<byte>, cuts: seq<nat>, items: seq<seq<byte>>, k: nat)
    requires IsReader(at) && |cuts| == |items| + 1 && k == cuts[0] <= cuts[|items|] <= |s| && Rest(at, s, cuts, items, 0)
    ensures BulksAt(at, s[k..], |items|) == Done(Bulks(items, cuts[|items|] - k))
  {
    assert items[0..] == items;
  }

  lemma HeaderWritten(maxArgs: int, argv: seq<seq<byte>>, t: seq<byte>)
    requires 1 <= |argv| <= maxArgs && |argv| < 0x8000_0000_0000_0000
    ensures var s, k := EncodeArray(argv) + t, 1 + |RespRoundTrip.Header(|argv|)|;
            && HeaderAt(maxArgs, s) == Done(FrameParser.Header(|argv|, k))
            && k <= |s| && s[k..] == EncodeBulks(argv) + t && |EncodeArray(argv)| == k + |EncodeBulks(argv)|
  {
    var s, body := EncodeArray(argv) + t, EncodeBulks(argv) + t;
    ArrayParts(argv, t);
    assert s[1..] == RespRoundTrip.Header(|argv|) + body;
    FieldWritten(|argv|, body);
  }

  lemma FrameOf(at: Reader, maxArgs: int, s: seq<byte>, k: nat, bs: Bulks)
    requires IsReader(at) && HeaderAt(maxArgs, s) == Done(FrameParser.Header(|bs.argv|, k)) && 0 < k <= |s|
    requires BulksAt(at, s[k..], |bs.argv|) == Done(bs)
    ensures FrameBy(at, maxArgs, s) == Done(Bulks(bs.argv, k + bs.size))
  {
    assert [] + bs.argv == bs.argv;
  }

  lemma FrameWritten(at: Reader, maxArgs: int, maxBulk: int, argv: seq<seq<byte>>, t: seq<byte>, s: seq<byte>)
    requires IsReader(at) && IsBulkUpTo(at, maxBulk) && 1 <= |argv| <= maxArgs && |argv| < 0x8000_0000_0000_0000
    requires forall i :: 0 <= i < |argv| ==> |argv[i]| <= maxBulk && |argv[i]| < 0x8000_0000_0000_0000
    requires s == EncodeArray(argv) + t
    ensures FrameBy(at, maxArgs, s) == Done(Bulks(argv, |EncodeArray(argv)|))
  {
    HeaderWritten(maxArgs, argv, t);
    var k := 1 + |RespRoundTrip.Header(|argv|)|;
    BulksEncoded(at, maxBulk, s, k, argv, t);
    FrameOf(at, maxArgs, s, k, Bulks(argv, |EncodeBulks(argv)|));
  }

  /** Written commands are measured exactly, whatever follows, and read back as they were. */
  lemma WholeRoundTrip(argv: seq<seq<byte>>, t: seq<byte>)
    requires IsCommand(argv)
    ensures FrameLength(EncodeArray(argv) + t) == Done(|EncodeArray(argv)|)
    ensures CommandArgs(EncodeArray(argv)) == Some(argv)
  {
    FrameWritten(BulkAt, TWO_63, TWO_63, argv, t, EncodeArray(argv) + t);
    FrameWritten(ShortBulkAt, MAX_ARGS, MAX_BULK, argv, [], EncodeArray(argv) + []);
    assert EncodeArray(argv) + [] == EncodeArray(argv);
  }

  // ---- what is refused ----

  lemma FieldRefused(text: seq<byte>, t: seq<byte>)
    requires CR !in text
    ensures var f := CheckedField(text + CRLF + t);
            if IsNumeral(text) && InInt64(Numeral(text)) then f == FieldOk(Numeral(text), |text| + 2) else f == FieldBad
  {
    var rest := text + CRLF + t;
    assert forall i :: 0 <= i < |text| ==> rest[i] == text[i];
    assert rest[|text|] == CR && rest[|text| + 1] == LF;
    FindIs(rest, CR, |text|);
    assert rest[..|text|] == text;
  }

  /** A decimal field that the whole-frame parser refuses: no number, or not a 64-bit one. */
  predicate NoField(text: seq<byte>)
  {
    NotNumber(text) || !(-0x8000_0000_0000_0000 <= Numeral(text) < 0x8000_0000_0000_0000)
  }

  /** Bytes that do not begin with a star, and counts that are no positive 64-bit numbers, are
      refused at once. */
  lemma FrameRefused(s: seq<byte>, text: seq<byte>, t: seq<byte>)
    requires CR !in text
    ensures s != [] && s[0] as int != 42 ==> FrameLength(s) == Bad
    ensures NoField(text) || Numeral(text) <= 0 ==> FrameLength([STAR] + (text + CRLF + t)) == Bad
  {
    NoNumeral(text);
    FieldRefused(text, t);
    assert ([STAR] + (text + CRLF + t))[1..] == text + CRLF + t;
  }

  /** Elements that do not begin with a dollar, lengths that are no 64-bit numbers from 0 on, and
      payloads without their line end are refused. */
  lemma ElementRefused(s: seq<byte>, text: seq<byte>, t: seq<byte>)
    requires CR !in text
    ensures s != [] && s[0] as int != 36 ==> BulkAt(s) == Bad
    ensures NoField(text) || Numeral(text) < 0 ==> BulkAt([DOLLAR] + (text + CRLF + t)) == Bad
  {
    NoNumeral(text);
    FieldRefused(text, t);
    assert ([DOLLAR] + (text + CRLF + t))[1..] == text + CRLF + t;
  }

  lemma LineEndRefused(v: seq<byte>, t: seq<byte>)
    requires |v| < 0x8000_0000_0000_0000 && |t| >= 2 && !(t[0] as int == 13 && t[1] as int == 10)
    ensures BulkAt([DOLLAR] + (RespRoundTrip.Header(|v|) + (v + t))) == Bad
  {
    var h := RespRoundTrip.Header(|v|);
    var rest := [DOLLAR] + (h + (v + t));
    assert rest[1..] == h + (v + t);
    FieldWritten(|v|, v + t);
    var at := 1 + |h| + |v|;
    assert rest[at] == t[0] && rest[at + 1] == t[1];
  }
}
