/**
 * The URL- and filename-safe base64 alphabet of section 5 of RFC 4648,
 * written without padding, as the Rust signer encodes signatures and the
 * Rust verifier decodes them (the `base64` crate's `URL_SAFE_NO_PAD` engine,
 * which rejects padding, stray characters and non-zero trailing bits).
 * `PaddedEncode` is the padded form that Python's `urlsafe_b64encode`
 * writes.
 */
module Base64 {
  import opened Wrappers
  import opened Bytes

  predicate IsUrlSafe(c: char) {
    ('A' <= c <= 'Z') || ('a' <= c <= 'z') || ('0' <= c <= '9') || c == '-' || c == '_'
  }

  predicate AllUrlSafe(s: string) {
    forall i :: 0 <= i < |s| ==> IsUrlSafe(s[i])
  }

  /** The six-bit value a symbol of the alphabet stands for. */
  function SymbolValue(c: char): (v: nat)
    requires IsUrlSafe(c)
    ensures v < 64
  {
    if 'A' <= c <= 'Z' then c as int - 'A' as int
    else if 'a' <= c <= 'z' then c as int - 'a' as int + 26
    else if '0' <= c <= '9' then c as int - '0' as int + 52
    else if c == '-' then 62
    else 63
  }

  /** The symbol for a six-bit value. */
  function Symbol(v: nat): (c: char)
    requires v < 64
    ensures IsUrlSafe(c) && SymbolValue(c) == v
  {
    if v < 26 then ('A' as int + v) as char
    else if v < 52 then ('a' as int + v - 26) as char
    else if v < 62 then ('0' as int + v - 52) as char
    else if v == 62 then '-'
    else '_'
  }

  type sextet = x: int | 0 <= x < 64

  /** Three bytes become four six-bit values; a final one or two bytes become two or three. */
  function Sextets(b: seq<byte>): seq<sextet>
  {
    if |b| == 0 then []
    else if |b| == 1 then [b[0] as int / 4, b[0] as int % 4 * 16]
    else if |b| == 2 then [b[0] as int / 4, b[0] as int % 4 * 16 + b[1] as int / 16, b[1] as int % 16 * 4]
    else Quad(b[0], b[1], b[2]) + Sextets(b[3..])
  }

  /** The four six-bit values of three bytes. */
  function Quad(x: byte, y: byte, z: byte): (r: seq<sextet>)
    ensures |r| == 4
  {
    [x as int / 4, x as int % 4 * 16 + y as int / 16, y as int % 16 * 4 + z as int / 64, z as int % 64]
  }

  /** The three bytes of four six-bit values. */
  function Triple(a: sextet, b: sextet, c: sextet, d: sextet): (r: seq<byte>)
    ensures |r| == 3
  {
    [(a * 4 + b / 16) as byte, (b % 16 * 16 + c / 4) as byte, (c % 4 * 64 + d) as byte]
  }

  /**
   * The inverse regrouping: `None` for a length of the form 4k + 1 and for a
   * final value whose unused low bits are not zero.
   */
  function Unsextets(v: seq<sextet>): Option<seq<byte>>
  {
    if |v| < 2 then (if |v| == 0 then Some([]) else None)
    else
      var x := (v[0] as int * 4 + v[1] as int / 16) as byte;
      if |v| == 2 then (if v[1] % 16 == 0 then Some([x]) else None)
      else
        var y := (v[1] as int % 16 * 16 + v[2] as int / 4) as byte;
        if |v| == 3 then (if v[2] % 4 == 0 then Some([x, y]) else None)
        else
          match Unsextets(v[4..])
          case None => None
          case Some(rest) => Some(Triple(v[0], v[1], v[2], v[3]) + rest)
  }

  /** The unpadded encoding: the symbol of each six-bit value. */
  function Encode(b: seq<byte>): (r: string)
    ensures AllUrlSafe(r)
  {
    var v := Sextets(b);
    seq(|v|, i requires 0 <= i < |v| => Symbol(v[i]))
  }

  /**
   * The strict unpadded decoding: `None` for a character outside the
   * alphabet (padding included), for a length of the form 4k + 1, and for a
   * final symbol whose unused low bits are not zero.
   */
  function Decode(s: string): (r: Option<seq<byte>>)
  {
    if AllUrlSafe(s) then Unsextets(Values(s)) else None
  }

  function Values(s: string): (v: seq<sextet>)
    requires AllUrlSafe(s)
    ensures |v| == |s|
  {
    seq(|s|, i requires 0 <= i < |s| => SymbolValue(s[i]))
  }

  /** Splitting three bytes into four six-bit values and joining them again loses nothing. */
  lemma Regroup(x: int, y: int, z: int)
    requires 0 <= x < 256 && 0 <= y < 256 && 0 <= z < 256
    ensures x / 4 * 4 + (x % 4 * 16 + y / 16) / 16 == x
    ensures (x % 4 * 16 + y / 16) % 16 * 16 + (y % 16 * 4 + z / 64) / 4 == y
    ensures (y % 16 * 4 + z / 64) % 4 * 64 + z % 64 == z
    ensures x % 4 * 16 % 16 == 0 && y % 16 * 4 % 4 == 0
  {
  }

  /** Three bytes split into four values and joined again are the same bytes. */
  lemma TripleQuad(x: byte, y: byte, z: byte)
    ensures var q := Quad(x, y, z); Triple(q[0], q[1], q[2], q[3]) == [x, y, z]
  {
    Regroup(x as int, y as int, z as int);
  }

  /** Four values joined into three bytes and split again are the same values. */
  lemma QuadTriple(a: sextet, b: sextet, c: sextet, d: sextet)
    ensures var t := Triple(a, b, c, d); Quad(t[0], t[1], t[2]) == [a, b, c, d]
  {
    var x, y, z := a * 4 + b / 16, b % 16 * 16 + c / 4, c % 4 * 64 + d;
    assert x / 4 == a && x % 4 == b / 16;
    assert y / 16 == b % 16 && y % 16 == c / 4;
    assert z / 64 == c % 4 && z % 64 == d;
  }

  /** Regrouping the values of some bytes gives back the bytes. */
  lemma {:induction false} UnsextetsSextets(b: seq<byte>)
    ensures Unsextets(Sextets(b)) == Some(b)
  {
    if |b| == 1 {
      Regroup(b[0] as int, 0, 0);
      assert [b[0]] == b;
    } else if |b| == 2 {
      Regroup(b[0] as int, b[1] as int, 0);
      assert [b[0], b[1]] == b;
    } else if |b| >= 3 {
      var v := Sextets(b);
      assert v[..4] == Quad(b[0], b[1], b[2]) && v[4..] == Sextets(b[3..]);
      TripleQuad(b[0], b[1], b[2]);
      UnsextetsSextets(b[3..]);
      assert [b[0], b[1], b[2]] + b[3..] == b;
    }
  }

  /** Every value sequence that regroups into bytes is the one those bytes give. */
  lemma {:induction false} SextetsUnsextets(v: seq<sextet>)
    requires Unsextets(v).Some?
    ensures Sextets(Unsextets(v).value) == v
  {
    if |v| == 2 {
      assert [v[0], v[1]] == v;
    } else if |v| == 3 {
      assert [v[0], v[1], v[2]] == v;
    } else if |v| >= 4 {
      var t := Triple(v[0], v[1], v[2], v[3]);
      var d := Unsextets(v).value;
      assert d == t + Unsextets(v[4..]).value;
      assert d[..3] == t && d[3..] == Unsextets(v[4..]).value;
      QuadTriple(v[0], v[1], v[2], v[3]);
      SextetsUnsextets(v[4..]);
      assert v == [v[0], v[1], v[2], v[3]] + v[4..];
    }
  }

  /** Decoding an encoding gives back the bytes. */
  lemma DecodeEncode(b: seq<byte>)
    ensures Decode(Encode(b)) == Some(b)
  {
    assert Values(Encode(b)) == Sextets(b);
    UnsextetsSextets(b);
  }

  /** Every string the strict decoder accepts is the encoding of what it decodes to. */
  lemma EncodeDecode(s: string)
    requires Decode(s).Some?
    ensures Encode(Decode(s).value) == s
  {
    SextetsUnsextets(Values(s));
    forall i | 0 <= i < |s| ensures Symbol(SymbolValue(s[i])) == s[i] {
      SymbolOfValue(s[i]);
    }
  }

  /** Each symbol of the alphabet is the symbol of its own value. */
  lemma SymbolOfValue(c: char)
    requires IsUrlSafe(c)
    ensures Symbol(SymbolValue(c)) == c
  {
  }

  /** Four symbols for every three bytes, rounded up, with no padding. */
  lemma {:induction false} EncodeLength(b: seq<byte>)
    ensures |Encode(b)| == (4 * |b| + 2) / 3
  {
    if |b| >= 3 {
      EncodeLength(b[3..]);
    }
  }

  /** The padded encoding: the unpadded one followed by `=` up to a multiple of four symbols. */
  function PaddedEncode(b: seq<byte>): (r: string)
    ensures |r| % 4 == 0
  {
    var e := Encode(b);
    e + seq((4 - |e| % 4) % 4, _ => '=')
  }
}
