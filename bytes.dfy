/** Bytes, and the views between text and bytes that the code relies on. */
module Bytes {

  newtype byte = x: int | 0 <= x < 256

  /** The line feed that separates the lines of a canonical message. */
  const NL: byte := 10

  /** The UTF-8 encoding of one Unicode scalar value. */
  function Utf8Char(c: char): (r: seq<byte>)
    ensures 1 <= |r| <= 4
    ensures c as int < 0x80 ==> |r| == 1 && r[0] as int == c as int
    ensures c as int >= 0x80 ==> forall i :: 0 <= i < |r| ==> r[i] as int >= 0x80
  {
    var n := c as int;
    if n < 0x80 then [n as byte]
    else if n < 0x800 then [(0xC0 + n / 0x40) as byte, (0x80 + n % 0x40) as byte]
    else if n < 0x1_0000 then
      [(0xE0 + n / 0x1000) as byte, (0x80 + n / 0x40 % 0x40) as byte, (0x80 + n % 0x40) as byte]
    else
      [(0xF0 + n / 0x4_0000) as byte, (0x80 + n / 0x1000 % 0x40) as byte,
       (0x80 + n / 0x40 % 0x40) as byte, (0x80 + n % 0x40) as byte]
  }

  /** The UTF-8 encoding of a text (Rust's `str::bytes` / `as_bytes`). */
  function Utf8(s: string): seq<byte>
  {
    if s == [] then [] else Utf8Char(s[0]) + Utf8(s[1..])
  }

  /** Encoding a concatenation concatenates the encodings. */
  lemma {:induction false} Utf8Append(a: string, b: string)
    ensures Utf8(a + b) == Utf8(a) + Utf8(b)
  {
    if a != [] {
      assert (a + b)[1..] == a[1..] + b;
      Utf8Append(a[1..], b);
    } else {
      assert a + b == b;
    }
  }

  /** Each field followed by a line feed, in order. */
  function Lines(fields: seq<seq<byte>>): seq<byte>
  {
    if fields == [] then []
    else Lines(fields[..|fields| - 1]) + fields[|fields| - 1] + [NL]
  }

  /** The lines of the first `i + 1` fields: those of the first `i`, then field `i` and a line feed. */
  lemma LinesSnoc(fields: seq<seq<byte>>, i: nat)
    requires i < |fields|
    ensures Lines(fields[..i + 1]) == Lines(fields[..i]) + (fields[i] + [NL])
  {
    assert fields[..i + 1][..i] == fields[..i];
  }

  /** The lines of two lists of fields, one after the other. */
  lemma {:induction false} LinesAppend(a: seq<seq<byte>>, b: seq<seq<byte>>)
    ensures Lines(a + b) == Lines(a) + Lines(b)
    decreases |b|
  {
    if b == [] {
      assert a + b == a;
    } else {
      var init := b[..|b| - 1];
      assert (a + b)[..|a + b| - 1] == a + init;
      LinesAppend(a, init);
    }
  }

  /** A field without line feeds is one line: the line feeds in the lines count the fields. */
  lemma {:induction false} LinesCount(fields: seq<seq<byte>>)
    requires forall i :: 0 <= i < |fields| ==> NL !in fields[i]
    ensures multiset(Lines(fields))[NL] == |fields|
  {
    if fields != [] {
      var init := fields[..|fields| - 1];
      LinesCount(init);
      assert multiset(fields[|fields| - 1])[NL] == 0;
    }
  }
}
