/** The wire form of bulk strings and arrays, and the methods that write it. */
module RespWriter {
  import opened Bytes

  /** An output stream: everything handed to it, in order. */
  class OutputStream {
    var data: seq<byte>

    constructor ()
      ensures data == []
    {
      data := [];
    }

    method Write(bytes: seq<byte>)
      modifies this
      ensures data == old(data) + bytes
    {
      data := data + bytes;
    }
  }

  function EncodeBulk(s: seq<byte>): (r: seq<byte>)
  {
    [DOLLAR] + Dec(|s|) + CRLF + s + CRLF
  }

  function EncodeBulks(items: seq<seq<byte>>): (r: seq<byte>)
  {
    if items == [] then [] else EncodeBulk(items[0]) + EncodeBulks(items[1..])
  }

  function EncodeArray(items: seq<seq<byte>>): (r: seq<byte>)
  {
    [STAR] + Dec(|items|) + CRLF + EncodeBulks(items)
  }

  lemma {:induction false} EncodeBulksSnoc(items: seq<seq<byte>>, s: seq<byte>)
    ensures EncodeBulks(items + [s]) == EncodeBulks(items) + EncodeBulk(s)
  {
    if items == [] {
      assert [s][1..] == [];
      assert items + [s] == [s];
    } else {
      assert (items + [s])[1..] == items[1..] + [s];
      EncodeBulksSnoc(items[1..], s);
    }
  }

  method WriteCrlf(out: OutputStream)
    modifies out
    ensures out.data == old(out.data) + CRLF
  {
    out.Write(CRLF);
  }

  method WriteBulk(out: OutputStream, bytes: seq<byte>)
    modifies out
    ensures out.data == old(out.data) + EncodeBulk(bytes)
  {
    out.Write([DOLLAR] + Dec(|bytes|));
    WriteCrlf(out);
    if bytes != [] {
      out.Write(bytes);
    }
    WriteCrlf(out);
  }

  method WriteArrayBulk(out: OutputStream, items: seq<seq<byte>>)
    modifies out
    ensures out.data == old(out.data) + EncodeArray(items)
  {
    out.Write([STAR] + Dec(|items|));
    WriteCrlf(out);
    ghost var start := out.data;
    assert start == old(out.data) + ([STAR] + Dec(|items|) + CRLF);
    assert start + EncodeBulks(items[..0]) == start;
    for i := 0 to |items|
      invariant out.data == start + EncodeBulks(items[..i])
    {
      Assoc(start, EncodeBulks(items[..i]), EncodeBulk(items[i]));
      WriteBulk(out, items[i]);
      EncodeBulksSnoc(items[..i], items[i]);
      assert items[..i + 1] == items[..i] + [items[i]];
    }
    assert items[..|items|] == items;
    Assoc(old(out.data), [STAR] + Dec(|items|) + CRLF, EncodeBulks(items));
  }

  lemma Assoc<T>(a: seq<T>, b: seq<T>, c: seq<T>)
    ensures a + (b + c) == a + b + c
  {
  }
}
