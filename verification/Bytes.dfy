/** Bytes, byte searches and the decimal fields of the wire protocol. */
module Bytes {

  newtype byte = x: int | 0 <= x < 256

  const LF: byte := 10
  const CR: byte := 13
  const DOLLAR: byte := 36
  const STAR: byte := 42
  const MINUS: byte := 45

  const CRLF: seq<byte> := [CR, LF]

  /** The bytes of an ASCII literal. */
  function Ascii(s: string): (r: seq<byte>)
    ensures |r| == |s|
  {
    seq(|s|, i requires 0 <= i < |s| => (s[i] as int % 256) as byte)
  }

  /** Position of the first `b` in `s`, or `|s|` when there is none (memchr, string_view::find). */
  function Find(s: seq<byte>, b: byte): (r: nat)
    ensures r <= |s|
    ensures forall i :: 0 <= i < r ==> s[i] != b
    ensures r < |s| ==> s[r] == b
  {
    if s == [] || s[0] == b then 0 else 1 + Find(s[1..], b)
  }

  /** `Find` is the only position with its contract. */
  lemma FindIs(s: seq<byte>, b: byte, k: nat)
    requires k < |s| && s[k] == b
    requires forall i :: 0 <= i < k ==> s[i] != b
    ensures Find(s, b) == k
  {
  }

  /** A byte already found stays the first one when the buffer grows. */
  lemma FindExtend(s: seq<byte>, t: seq<byte>, b: byte)
    requires Find(s, b) < |s|
    ensures Find(s + t, b) == Find(s, b)
  {
    FindIs(s + t, b, Find(s, b));
  }

  lemma FindAbsent(s: seq<byte>, b: byte)
    requires b !in s
    ensures Find(s, b) == |s|
  {
  }

  // ---- decimal fields ----

  predicate IsDigit(b: byte) { 48 <= b as int <= 57 }

  predicate AllDigits(ds: seq<byte>) { forall i :: 0 <= i < |ds| ==> IsDigit(ds[i]) }

  /** The number written by the digits `ds`. */
  function DigitsValue(ds: seq<byte>): (n: nat)
    requires AllDigits(ds)
  {
    if ds == [] then 0
    else DigitsValue(ds[..|ds| - 1]) * 10 + (ds[|ds| - 1] as int - 48)
  }

  /** Decimal notation of `n`, as to_sstring prints a size. */
  function Dec(n: nat): (ds: seq<byte>)
    ensures ds != [] && AllDigits(ds)
  {
    if n < 10 then [(48 + n) as byte]
    else Dec(n / 10) + [(48 + n % 10) as byte]
  }

  /** Printing a number and reading its digits back gives the number. */
  lemma {:induction false} ValueDec(n: nat)
    ensures DigitsValue(Dec(n)) == n
  {
    if n >= 10 {
      var d := Dec(n);
      assert d[..|d| - 1] == Dec(n / 10);
      ValueDec(n / 10);
    } else {
      assert Dec(n)[..0] == [];
    }
  }

  const TWO_63: int := 0x8000_0000_0000_0000
  const TWO_64: int := 0x1_0000_0000_0000_0000

  /** The int64 value congruent to `x` modulo 2^64: what unchecked accumulation leaves behind. */
  function Wrap64(x: int): (r: int)
    ensures -TWO_63 <= r < TWO_63
    ensures InInt64(x) ==> r == x
  {
    (x + TWO_63) % TWO_64 - TWO_63
  }

  predicate InInt64(x: int) { -TWO_63 <= x < TWO_63 }

  lemma WrapShift(x: int, k: int)
    ensures Wrap64(x + k * TWO_64) == Wrap64(x)
  {
  }

  /** Wrapping after every digit is the same as wrapping once at the end. */
  lemma WrapStep(x: int, d: int)
    ensures Wrap64(Wrap64(x) * 10 + d) == Wrap64(x * 10 + d)
  {
  }

  lemma WrapNeg(x: int)
    ensures Wrap64(-Wrap64(x)) == Wrap64(-x)
  {
  }

  /** An optional minus sign followed by at least one digit. */
  predicate IsNumeral(f: seq<byte>)
  {
    && f != []
    && (f[0] == MINUS ==> |f| > 1)
    && AllDigits(if f[0] == MINUS then f[1..] else f)
  }

  /** The integer a numeral stands for, unbounded. */
  function Numeral(f: seq<byte>): (n: int)
    requires IsNumeral(f)
  {
    if f[0] == MINUS then -(DigitsValue(f[1..]) as int) else DigitsValue(f)
  }

  lemma DecIsNumeral(n: nat)
    ensures IsNumeral(Dec(n)) && Numeral(Dec(n)) == n
    ensures LF !in Dec(n) && CR !in Dec(n)
  {
    ValueDec(n);
    assert IsDigit(Dec(n)[0]);
  }

  lemma NumeralBytes(f: seq<byte>)
    requires IsNumeral(f)
    ensures LF !in f && CR !in f
  {
  }
}
