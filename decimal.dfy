/**
 * Decimal numerals: Rust's `format!("{n}")` for unsigned integers and the
 * `FromStr` rule that `str::parse::<u32>()` and `str::parse::<u64>()` follow.
 */
module Decimal {
  import opened Wrappers

  /** One more than the largest `u32`. */
  const U32: nat := 0x1_0000_0000
  /** One more than the largest `u64`. */
  const U64: nat := 0x1_0000_0000_0000_0000

  type u32 = x: int | 0 <= x < U32
  type u64 = x: int | 0 <= x < U64

  predicate IsDigit(c: char) {
    '0' <= c <= '9'
  }

  predicate AllDigits(s: string) {
    forall i :: 0 <= i < |s| ==> IsDigit(s[i])
  }

  function DigitChar(d: nat): (c: char)
    requires d < 10
    ensures IsDigit(c) && c as int - '0' as int == d
  {
    ('0' as int + d) as char
  }

  /** The number a run of decimal digits denotes, most significant first. */
  function Value(s: string): nat
    requires AllDigits(s)
  {
    if s == [] then 0 else Value(s[..|s| - 1]) * 10 + (s[|s| - 1] as int - '0' as int)
  }

  /** The decimal numeral of `n`, as `format!("{n}")` and Python's `%d` write it. */
  function Format(n: nat): (r: string)
    ensures |r| >= 1 && AllDigits(r) && Value(r) == n
    ensures r[0] == '0' ==> r == "0"
  {
    if n < 10 then [DigitChar(n)]
    else
      var r := Format(n / 10) + [DigitChar(n % 10)];
      assert r[..|r| - 1] == Format(n / 10);
      r
  }

  /** The value of a run of decimal digits, or `None` when some character is not a digit. */
  function DigitsValue(s: string): Option<nat>
  {
    if s == [] then Some(0)
    else if !IsDigit(s[|s| - 1]) then None
    else match DigitsValue(s[..|s| - 1])
      case None => None
      case Some(v) => Some(v * 10 + (s[|s| - 1] as int - '0' as int))
  }

  /** `DigitsValue` succeeds exactly on runs of digits, with their `Value`. */
  lemma {:induction false} DigitsValueSpec(s: string)
    ensures DigitsValue(s).Some? <==> AllDigits(s)
    ensures DigitsValue(s).Some? ==> DigitsValue(s).value == Value(s)
  {
    if s != [] {
      var init := s[..|s| - 1];
      DigitsValueSpec(init);
      assert AllDigits(s) ==> AllDigits(init) by {
        if AllDigits(s) {
          forall i | 0 <= i < |init| ensures IsDigit(init[i]) { assert init[i] == s[i]; }
        }
      }
      assert AllDigits(init) && IsDigit(s[|s| - 1]) ==> AllDigits(s) by {
        if AllDigits(init) && IsDigit(s[|s| - 1]) {
          forall i | 0 <= i < |s| ensures IsDigit(s[i]) {
            if i < |s| - 1 { assert s[i] == init[i]; }
          }
        }
      }
    }
  }

  /**
   * Rust's `FromStr` for an unsigned integer type whose values are below
   * `bound`: an optional leading `+`, then at least one ASCII digit and
   * nothing else, and a value that fits (leading zeros are allowed).
   */
  function ParseUnsigned(s: string, bound: nat): (r: Option<nat>)
    ensures r.Some? ==> r.value < bound
  {
    var digits := if |s| > 0 && s[0] == '+' then s[1..] else s;
    if |digits| == 0 then None
    else match DigitsValue(digits)
      case None => None
      case Some(v) => if v < bound then Some(v) else None
  }

  /** Reading back what `Format` wrote gives the number, whenever it fits. */
  lemma ParseFormat(n: nat, bound: nat)
    requires n < bound
    ensures ParseUnsigned(Format(n), bound) == Some(n)
  {
    assert Format(n)[0] != '+';
    DigitsValueSpec(Format(n));
  }

  /**
   * What `ParseUnsigned` accepts is a plain numeral with at most a `+` in
   * front (never a `-`), and its result is the value of that numeral.
   */
  lemma ParseUnsignedShape(s: string, bound: nat)
    requires ParseUnsigned(s, bound).Some?
    ensures |s| >= 1 && s[0] != '-'
    ensures forall i :: 1 <= i < |s| ==> IsDigit(s[i])
    ensures var digits := if s[0] == '+' then s[1..] else s;
      AllDigits(digits) && ParseUnsigned(s, bound).value == Value(digits)
  {
    var digits := if s[0] == '+' then s[1..] else s;
    DigitsValueSpec(digits);
    if s[0] == '+' {
      assert forall i :: 1 <= i < |s| ==> s[i] == digits[i - 1];
    } else {
      assert IsDigit(s[0]);
    }
  }

  /** Extending a numeral by a digit multiplies its value by ten and adds the digit. */
  lemma {:induction false} ValueAppend(s: string, c: char)
    requires AllDigits(s) && IsDigit(c)
    ensures AllDigits(s + [c])
    ensures Value(s + [c]) == Value(s) * 10 + (c as int - '0' as int)
  {
    assert (s + [c])[..|s|] == s;
  }
}
