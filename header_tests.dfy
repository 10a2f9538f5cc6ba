/**
 * The test cases that accompany `AuthHeader::new` (header.rs), stated of
 * the model: which headers the parser refuses and why, what it reads from
 * the ones it accepts, and the residual text it keeps.
 *
 * Each test case is one lemma about a literal header. Its proof instantiates
 * a lemma about a whole family of headers of the same shape, in which the
 * parameter names, the values and the numerals are left open.
 */
module HeaderTests {
  import opened Wrappers
  import opened Seqs
  import opened Decimal
  import opened HeaderParser

  /** No whitespace at either end. */
  predicate Tight(s: string) {
    s == [] || (!IsWhitespace(s[0]) && !IsWhitespace(s[|s| - 1]))
  }

  /** A parameter name as an item spells it: no `=`, no `,`, nothing to trim. */
  predicate BareName(n: string) {
    n != [] && '=' !in n && ',' !in n && Tight(n)
  }

  /** A parameter value as an item spells it: no `,`, nothing to trim. */
  predicate BareValue(v: string) {
    ',' !in v && Tight(v)
  }

  /** Spaces only. */
  predicate Blanks(s: string) {
    forall i :: 0 <= i < |s| ==> s[i] == ' '
  }

  // ----- the item loop -----

  /** A header made of the scheme and then `rest` fails as its item loop fails. */
  lemma HeaderErr(rest: string, e: Reason)
    requires ApplyItems(Default, Split(rest, ',')) == Err(e)
    ensures Parse(Scheme + rest) == Err(e)
  {
    var raw := Scheme + rest;
    assert raw[..|Scheme|] == Scheme && raw[|Scheme|..] == rest;
    assert raw[0] == 'a';
  }

  /** A header made of the scheme and then `rest` is read by its item loop, then loses its signature. */
  lemma HeaderOk(rest: string)
    requires ApplyItems(Default, Split(rest, ',')).Ok?
    ensures var raw, res := Scheme + rest, ApplyItems(Default, Split(rest, ',')).value;
      && Find(raw, res.sig).Some?
      && Parse(raw) == Ok(res.(header := Residual(raw, res.sig)))
  {
    var raw := Scheme + rest;
    assert raw[..|Scheme|] == Scheme && raw[|Scheme|..] == rest;
    assert raw[0] == 'a';
    ParsedSigFound(raw);
  }

  /** Text without a comma is a single item. */
  lemma OneItem(s: string)
    requires ',' !in s
    ensures Split(s, ',') == [s]
  {
  }

  /** One turn of the item loop on an item whose trimmed text is known. */
  lemma Step(res: AuthHeader, item: string, t: string, rest: seq<string>)
    requires TrimWs(item) == t
    ensures ApplyItem(res, t).Err? ==> ApplyItems(res, [item] + rest) == Err(ApplyItem(res, t).error)
    ensures ApplyItem(res, t).Ok? ==> ApplyItems(res, [item] + rest) == ApplyItems(ApplyItem(res, t).value, rest)
  {
    ApplyItemsStep(res, [item] + rest);
    assert ([item] + rest)[1..] == rest;
  }

  /** A header of one item fails or succeeds as that item does. */
  lemma SingleItem(item: string)
    requires ',' !in item
    ensures var raw, x := Scheme + item, ApplyItem(Default, TrimWs(item));
      && (x.Err? ==> Parse(raw) == Err(x.error))
      && (x.Ok? ==> Find(raw, x.value.sig).Some? && Parse(raw) == Ok(x.value.(header := Residual(raw, x.value.sig))))
  {
    OneItem(item);
    Step(Default, item, TrimWs(item), []);
    if ApplyItem(Default, TrimWs(item)).Err? {
      HeaderErr(item, ApplyItem(Default, TrimWs(item)).error);
    } else {
      HeaderOk(item);
    }
  }

  /** A header of two items fails at the first item that fails, or succeeds with what both set. */
  lemma TwoItems(a: string, b: string)
    requires ',' !in a && ',' !in b
    ensures var raw, x := Scheme + (a + [','] + b), ApplyItem(Default, TrimWs(a));
      && (x.Err? ==> Parse(raw) == Err(x.error))
      && (x.Ok? ==> var y := ApplyItem(x.value, TrimWs(b));
            && (y.Err? ==> Parse(raw) == Err(y.error))
            && (y.Ok? ==> Find(raw, y.value.sig).Some? && Parse(raw) == Ok(y.value.(header := Residual(raw, y.value.sig)))))
  {
    var rest := a + [','] + b;
    SplitTwo(a, ',', b);
    Step(Default, a, TrimWs(a), [b]);
    var x := ApplyItem(Default, TrimWs(a));
    if x.Err? {
      HeaderErr(rest, x.error);
    } else {
      Step(x.value, b, TrimWs(b), []);
      if ApplyItem(x.value, TrimWs(b)).Err? {
        HeaderErr(rest, ApplyItem(x.value, TrimWs(b)).error);
      } else {
        HeaderOk(rest);
      }
    }
  }

  /** A header of three items that are all accepted: what the three set, in order. */
  lemma ThreeItems(a: string, b: string, c: string)
    requires ',' !in a && ',' !in b && ',' !in c
    requires ApplyItem(Default, TrimWs(a)).Ok?
    requires ApplyItem(ApplyItem(Default, TrimWs(a)).value, TrimWs(b)).Ok?
    requires ApplyItem(ApplyItem(ApplyItem(Default, TrimWs(a)).value, TrimWs(b)).value, TrimWs(c)).Ok?
    ensures var raw := Scheme + (a + [','] + (b + [','] + c));
      var z := ApplyItem(ApplyItem(ApplyItem(Default, TrimWs(a)).value, TrimWs(b)).value, TrimWs(c)).value;
      Find(raw, z.sig).Some? && Parse(raw) == Ok(z.(header := Residual(raw, z.sig)))
  {
    var rest := a + [','] + (b + [','] + c);
    SplitThree(a, ',', b, c);
    var x := ApplyItem(Default, TrimWs(a)).value;
    var y := ApplyItem(x, TrimWs(b)).value;
    Step(Default, a, TrimWs(a), [b, c]);
    Step(x, b, TrimWs(b), [c]);
    Step(y, c, TrimWs(c), []);
    HeaderOk(rest);
  }

  // ----- trimming -----

  /** Trimming keeps no symbol the untrimmed text did not have. */
  lemma AbsentAfterTrim(w: string, c: char)
    requires c !in w
    ensures c !in TrimWs(w)
  {
    var t := TrimWs(w);
    TrimOccurs(w, IsWhitespace);
    var i: nat :| OccursAt(w, t, i);
    forall k | 0 <= k < |t|
      ensures t[k] != c
    {
      assert t[k] == w[i..i + |t|][k] == w[i + k];
    }
  }

  /** Blanks after text with nothing to trim are trimmed away. */
  lemma TrailingBlanks(t: string, blanks: string)
    requires t != [] && Tight(t) && Blanks(blanks)
    ensures TrimWs(t + blanks) == t
  {
    assert (t + blanks)[0] == t[0];
    TrimEndDropsTrailing(t, blanks, IsWhitespace);
  }

  // ----- one item -----

  /** An item `name=value` with bare name and value trims to itself and reads as that name and value. */
  lemma ItemRead(name: string, value: string)
    requires '=' !in name && Tight(name) && Tight(value)
    ensures var t := name + "=" + value;
      TrimWs(t) == t && '=' in t && KeyOf(t) == name && ValueOf(t) == value
  {
    var t := name + "=" + value;
    assert t == name + ['='] + value;
    assert t[|name|] == '=';
    SplitOnceAt(name, '=', value);
    TrimNoop(name, IsWhitespace);
    TrimNoop(value, IsWhitespace);
    TrimNoop(t, IsWhitespace);
  }

  /** An item of bare name and value has no comma. */
  lemma ItemNoComma(n: string, v: string)
    requires ',' !in n && ',' !in v
    ensures ',' !in n + "=" + v
  {
    assert n + "=" + v == n + ['='] + v;
  }

  /** A bare item naming no parameter of the scheme is refused. */
  lemma UnknownItem(res: AuthHeader, n: string, v: string)
    requires '=' !in n && Tight(n) && Tight(v) && ParamOf(n) == Unknown
    ensures TrimWs(n + "=" + v) == n + "=" + v
    ensures ApplyItem(res, n + "=" + v) == Err(UnknownParam)
  {
    ItemRead(n, v);
  }

  /** A bare item of the signature parameter sets the signature. */
  lemma SigItem(res: AuthHeader, n: string, v: string)
    requires BareName(n) && Tight(v) && ParamOf(n) == Sig
    ensures TrimWs(n + "=" + v) == n + "=" + v
    ensures ApplyItem(res, n + "=" + v) == Ok(res.(sig := v))
  {
    ItemRead(n, v);
  }

  /** A bare item of the added-fields parameter sets the added fields. */
  lemma AddItem(res: AuthHeader, n: string, v: string)
    requires BareName(n) && Tight(v) && ParamOf(n) == Add
    ensures TrimWs(n + "=" + v) == n + "=" + v
    ensures ApplyItem(res, n + "=" + v) == Ok(res.(add := Split(v, '+')))
  {
    ItemRead(n, v);
  }

  /** A bare item of the key parameter with a `u32` numeral sets the key id. */
  lemma KeyItem(res: AuthHeader, n: string, k: string)
    requires BareName(n) && Tight(k) && ParamOf(n) == KeyId && ParseUnsigned(k, U32).Some?
    ensures TrimWs(n + "=" + k) == n + "=" + k
    ensures ApplyItem(res, n + "=" + k) == Ok(res.(key := ParseUnsigned(k, U32).value))
  {
    ItemRead(n, k);
  }

  /** A bare item of the window parameter fails as its window does, or sets start and duration. */
  lemma TimeItem(res: AuthHeader, n: string, v: string)
    requires BareName(n) && Tight(v) && ParamOf(n) == TimeWindow
    ensures TrimWs(n + "=" + v) == n + "=" + v
    ensures ParseTime(v).Err? ==> ApplyItem(res, n + "=" + v) == Err(ParseTime(v).error)
    ensures ParseTime(v).Ok? ==>
      ApplyItem(res, n + "=" + v) == Ok(res.(start := ParseTime(v).value.0, duration := ParseTime(v).value.1))
  {
    ItemRead(n, v);
  }

  /** The window `a+b` of two pieces, the first without `+`. */
  lemma TimeParts(a: string, b: string)
    requires '+' !in a
    ensures var v := a + "+" + b;
      && '+' in v
      && (ParseUnsigned(a, U64).None? ==> ParseTime(v) == Err(Start))
      && (ParseUnsigned(a, U64).Some? && ParseUnsigned(b, U64).None? ==> ParseTime(v) == Err(Duration))
      && (ParseUnsigned(a, U64).Some? && ParseUnsigned(b, U64).Some? ==>
            ParseTime(v) == Ok((ParseUnsigned(a, U64).value, ParseUnsigned(b, U64).value)))
  {
    assert a + "+" + b == a + ['+'] + b;
    SplitOnceAt(a, '+', b);
  }

  /** The window `a+b` has no comma and nothing to trim. */
  lemma WindowText(a: string, b: string)
    requires a != [] && b != [] && BareValue(a) && BareValue(b)
    ensures BareValue(a + "+" + b)
  {
    var v := a + "+" + b;
    assert v == a + ['+'] + b;
    assert v[0] == a[0] && v[|v| - 1] == b[|b| - 1];
  }

  /** A window item whose two numerals are good sets start and duration to them. */
  lemma WindowItem(res: AuthHeader, n: string, a: string, b: string)
    requires BareName(n) && ParamOf(n) == TimeWindow
    requires '+' !in a && a != [] && b != [] && BareValue(a) && BareValue(b)
    requires ParseUnsigned(a, U64).Some? && ParseUnsigned(b, U64).Some?
    ensures var t := n + "=" + (a + "+" + b);
      && ',' !in t && TrimWs(t) == t
      && ApplyItem(res, t) == Ok(res.(start := ParseUnsigned(a, U64).value, duration := ParseUnsigned(b, U64).value))
  {
    var v := a + "+" + b;
    WindowText(a, b);
    ItemNoComma(n, v);
    TimeParts(a, b);
    TimeItem(res, n, v);
  }

  // ----- headers of one item -----

  /** A header whose one item has no `=` is refused with reason "separator". */
  lemma BareItemHeader(w: string)
    requires ',' !in w && '=' !in w
    ensures Parse(Scheme + w) == Err(Separator)
  {
    SingleItem(w);
    AbsentAfterTrim(w, '=');
  }

  /** A header whose one item names no parameter of the scheme is refused with reason "unknown param". */
  lemma UnknownHeader(n: string, v: string)
    requires '=' !in n && ',' !in n && Tight(n) && BareValue(v) && ParamOf(n) == Unknown
    ensures Parse(Scheme + (n + "=" + v)) == Err(UnknownParam)
  {
    ItemNoComma(n, v);
    SingleItem(n + "=" + v);
    UnknownItem(Default, n, v);
  }

  /** A header whose one item sets the signature to `v` carries signature `v`. */
  lemma SigHeader(n: string, v: string)
    requires BareName(n) && BareValue(v) && ParamOf(n) == Sig
    ensures var r := Parse(Scheme + (n + "=" + v));
      r.Ok? && r.value.sig == v
  {
    ItemNoComma(n, v);
    SingleItem(n + "=" + v);
    SigItem(Default, n, v);
  }

  /** A header whose one item sets the added fields to `v` adds the pieces of `v` between its `+` signs. */
  lemma AddHeader(n: string, v: string)
    requires BareName(n) && BareValue(v) && ParamOf(n) == Add
    ensures var r := Parse(Scheme + (n + "=" + v));
      r.Ok? && r.value.add == Split(v, '+')
  {
    ItemNoComma(n, v);
    SingleItem(n + "=" + v);
    AddItem(Default, n, v);
  }

  /** Three added fields `x+y+z` are read as three fields. */
  lemma AddThreeHeader(n: string, x: string, y: string, z: string)
    requires BareName(n) && ParamOf(n) == Add
    requires x != [] && z != [] && BareValue(x) && BareValue(z) && ',' !in y
    requires '+' !in x && '+' !in y && '+' !in z
    ensures var r := Parse(Scheme + (n + "=" + (x + ['+'] + (y + ['+'] + z))));
      r.Ok? && r.value.add == [x, y, z]
  {
    ThreeFieldsText(x, y, z);
    SplitThree(x, '+', y, z);
    AddHeader(n, x + ['+'] + (y + ['+'] + z));
  }

  /** The text `x+y+z` has nothing to trim and no comma when its pieces have none. */
  lemma ThreeFieldsText(x: string, y: string, z: string)
    requires x != [] && z != [] && BareValue(x) && BareValue(z) && ',' !in y
    ensures BareValue(x + ['+'] + (y + ['+'] + z))
  {
    var v := x + ['+'] + (y + ['+'] + z);
    assert v[0] == x[0] && v[|v| - 1] == z[|z| - 1];
  }

  /** A header whose one item is the window `v` fails as `ParseTime(v)` fails, and otherwise holds that window. */
  lemma TimeHeader(n: string, v: string)
    requires BareName(n) && BareValue(v) && ParamOf(n) == TimeWindow
    ensures var r, t := Parse(Scheme + (n + "=" + v)), ParseTime(v);
      && (t.Err? ==> r == Err(t.error))
      && (t.Ok? ==> r.Ok? && r.value.start == t.value.0 && r.value.duration == t.value.1)
  {
    ItemNoComma(n, v);
    SingleItem(n + "=" + v);
    TimeItem(Default, n, v);
  }

  /** A header whose one item is the window `a+b`: reason "start", reason "duration", or the window read from both. */
  lemma WindowHeader(n: string, a: string, b: string)
    requires BareName(n) && ParamOf(n) == TimeWindow
    requires '+' !in a && a != [] && b != [] && BareValue(a) && BareValue(b)
    ensures var r, s, d := Parse(Scheme + (n + "=" + (a + "+" + b))), ParseUnsigned(a, U64), ParseUnsigned(b, U64);
      && (s.None? ==> r == Err(Start))
      && (s.Some? && d.None? ==> r == Err(Duration))
      && (s.Some? && d.Some? ==> r.Ok? && r.value.start == s.value && r.value.duration == d.value)
  {
    WindowText(a, b);
    TimeParts(a, b);
    TimeHeader(n, a + "+" + b);
  }

  // ----- headers of two items -----

  /** After an accepted item of added fields, a second item without `=` is refused with reason "separator". */
  lemma AddThenBare(n: string, v: string, w: string)
    requires BareName(n) && BareValue(v) && ParamOf(n) == Add
    requires ',' !in w && '=' !in w
    ensures Parse(Scheme + ((n + "=" + v) + [','] + w)) == Err(Separator)
  {
    ItemNoComma(n, v);
    TwoItems(n + "=" + v, w);
    AddItem(Default, n, v);
    AbsentAfterTrim(w, '=');
  }

  /** A key item and then, after blanks, a signature item: the key id read from `k`, and the signature. */
  lemma KeyThenSig(kn: string, k: string, blanks: string, sn: string, v: string)
    requires BareName(kn) && BareValue(k) && ParamOf(kn) == KeyId && ParseUnsigned(k, U32).Some?
    requires BareName(sn) && BareValue(v) && ParamOf(sn) == Sig && Blanks(blanks)
    ensures var r := Parse(Scheme + ((kn + "=" + k) + [','] + (blanks + (sn + "=" + v))));
      r.Ok? && r.value.key == ParseUnsigned(k, U32).value && r.value.sig == v
  {
    var second := sn + "=" + v;
    ItemNoComma(kn, k);
    ItemNoComma(sn, v);
    assert ',' !in blanks + second;
    ItemRead(sn, v);
    TrimDropsLeading(blanks, second, IsWhitespace);
    TwoItems(kn + "=" + k, blanks + second);
    KeyItem(Default, kn, k);
    SigItem(Default.(key := ParseUnsigned(k, U32).value), sn, v);
  }

  // ----- cutting the signature out -----

  /** The only occurrence of a signature whose first symbol is absent before it is the one after `left`. */
  lemma FoundAfter(left: string, sig: string, right: string)
    requires sig != [] && sig[0] !in left
    ensures Find(left + sig + right, sig) == Some(|left|)
  {
    var s := left + sig + right;
    OccursMiddle(left, sig, right);
    forall j: nat | j < |left|
      ensures !OccursAt(s, sig, j)
    {
      assert s[j] == left[j] != sig[0];
    }
  }

  /** A signature after `head,name=` is cut out together with that comma and its name. */
  lemma CutAfterComma(head: string, n: string, sig: string, tail: string)
    requires ',' !in n && sig != [] && sig[0] !in head && sig[0] !in n && sig[0] != ',' && sig[0] != '='
    ensures var raw := head + [','] + (n + "=") + sig + tail;
      Find(raw, sig).Some? && Residual(raw, sig) == head + tail
  {
    var left := head + [','] + (n + "=");
    assert left == head + [','] + (n + ['=']);
    FoundAfter(left, sig, tail);
    var raw := left + sig + tail;
    assert raw[..|left|] == left && raw[|left| + |sig|..] == tail;
    RSplitOnceAt(head, ',', n + "=");
  }

  /** A signature after `head,name=` that ends the header is cut out together with that comma and its name. */
  lemma CutAtEnd(head: string, n: string, sig: string)
    requires ',' !in n && sig != [] && sig[0] !in head && sig[0] !in n && sig[0] != ',' && sig[0] != '='
    ensures var raw := head + [','] + (n + "=") + sig;
      Find(raw, sig).Some? && Residual(raw, sig) == head
  {
    CutAfterComma(head, n, sig, "");
    assert head + [','] + (n + "=") + sig + "" == head + [','] + (n + "=") + sig;
    assert head + "" == head;
  }

  /** A signature with no comma before it is cut out alone. */
  lemma CutFirst(left: string, sig: string, tail: string)
    requires sig != [] && sig[0] !in left && ',' !in left
    ensures var raw := left + sig + tail;
      Find(raw, sig).Some? && Residual(raw, sig) == left + tail
  {
    FoundAfter(left, sig, tail);
    var raw := left + sig + tail;
    assert raw[..|left|] == left && raw[|left| + |sig|..] == tail;
  }

  // ----- headers that carry a signature -----

  /** The header of items `first` and `name=v`, grouped around the signature. */
  lemma RegroupLast(first: string, n: string, v: string)
    ensures Scheme + (first + [','] + (n + "=" + v)) == (Scheme + first) + [','] + (n + "=") + v
  {
  }

  /** The header of items `first`, `name=v` with blanks after it and `last`, grouped around the signature. */
  lemma RegroupMiddle(first: string, n: string, v: string, blanks: string, last: string)
    ensures Scheme + (first + [','] + (((n + "=" + v) + blanks) + [','] + last))
      == (Scheme + first) + [','] + (n + "=") + v + (blanks + [','] + last)
  {
  }

  /** The header of items `name=v` and `last`, grouped around the signature. */
  lemma RegroupFirst(n: string, v: string, last: string)
    ensures Scheme + ((n + "=" + v) + [','] + last) == (Scheme + (n + "=")) + v + ([','] + last)
  {
  }

  /** A symbol absent from the scheme, the name and the numerals of a window item is absent from the header up to it. */
  lemma WindowHeadLacks(c: char, n: string, a: string, b: string)
    requires c !in Scheme && c !in n && c !in a && c !in b && c != '=' && c != '+'
    ensures c !in Scheme + (n + "=" + (a + "+" + b))
  {
    assert n + "=" + (a + "+" + b) == n + ['='] + (a + ['+'] + b);
  }

  /** A window item and then a signature item: what the two set. */
  lemma WindowSigItems(tn: string, a: string, b: string, sn: string, v: string)
    requires BareName(tn) && ParamOf(tn) == TimeWindow && BareName(sn) && ParamOf(sn) == Sig
    requires '+' !in a && a != [] && b != [] && BareValue(a) && BareValue(b)
    requires ParseUnsigned(a, U64).Some? && ParseUnsigned(b, U64).Some? && BareValue(v)
    ensures var raw := Scheme + ((tn + "=" + (a + "+" + b)) + [','] + (sn + "=" + v));
      var res := Default.(start := ParseUnsigned(a, U64).value, duration := ParseUnsigned(b, U64).value, sig := v);
      Find(raw, v).Some? && Parse(raw) == Ok(res.(header := Residual(raw, v)))
  {
    WindowItem(Default, tn, a, b);
    SigItem(Default.(start := ParseUnsigned(a, U64).value, duration := ParseUnsigned(b, U64).value), sn, v);
    ItemNoComma(sn, v);
    TwoItems(tn + "=" + (a + "+" + b), sn + "=" + v);
  }

  /** A window item and then a signature item: the signature is cut out with the comma before it. */
  lemma WindowThenSig(tn: string, a: string, b: string, sn: string, v: string)
    requires BareName(tn) && ParamOf(tn) == TimeWindow && BareName(sn) && ParamOf(sn) == Sig
    requires '+' !in a && a != [] && b != [] && BareValue(a) && BareValue(b)
    requires ParseUnsigned(a, U64).Some? && ParseUnsigned(b, U64).Some? && BareValue(v)
    requires v != [] && v[0] !in Scheme && v[0] !in tn && v[0] !in a && v[0] !in b && v[0] !in sn
    requires v[0] != '=' && v[0] != '+'
    ensures var head := Scheme + (tn + "=" + (a + "+" + b));
      var r := Parse(head + [','] + (sn + "=") + v);
      r.Ok? && r.value.header == head && r.value.sig == v
  {
    var first := tn + "=" + (a + "+" + b);
    WindowSigItems(tn, a, b, sn, v);
    RegroupLast(first, sn, v);
    WindowHeadLacks(v[0], tn, a, b);
    CutAtEnd(Scheme + first, sn, v);
  }

  /** A window item, a signature item with blanks after it, and an item of added fields: what the three set. */
  lemma WindowSigAddItems(tn: string, a: string, b: string, sn: string, v: string, blanks: string, an: string, w: string)
    requires BareName(tn) && ParamOf(tn) == TimeWindow && BareName(sn) && ParamOf(sn) == Sig
    requires BareName(an) && ParamOf(an) == Add
    requires '+' !in a && a != [] && b != [] && BareValue(a) && BareValue(b)
    requires ParseUnsigned(a, U64).Some? && ParseUnsigned(b, U64).Some? && BareValue(v) && BareValue(w)
    requires Blanks(blanks)
    ensures var raw := Scheme + ((tn + "=" + (a + "+" + b)) + [','] + (((sn + "=" + v) + blanks) + [','] + (an + "=" + w)));
      var res := Default.(start := ParseUnsigned(a, U64).value, duration := ParseUnsigned(b, U64).value, sig := v, add := Split(w, '+'));
      Find(raw, v).Some? && Parse(raw) == Ok(res.(header := Residual(raw, v)))
  {
    var timed := Default.(start := ParseUnsigned(a, U64).value, duration := ParseUnsigned(b, U64).value);
    var second := sn + "=" + v;
    WindowItem(Default, tn, a, b);
    SigItem(timed, sn, v);
    AddItem(timed.(sig := v), an, w);
    ItemNoComma(sn, v);
    ItemNoComma(an, w);
    assert ',' !in second + blanks;
    assert second[0] == sn[0];
    TrailingBlanks(second, blanks);
    ThreeItems(tn + "=" + (a + "+" + b), second + blanks, an + "=" + w);
  }

  /** A window item, a signature item with blanks after it, and an item of added fields: the blanks and the last item are kept. */
  lemma WindowSigAdd(tn: string, a: string, b: string, sn: string, v: string, blanks: string, an: string, w: string)
    requires BareName(tn) && ParamOf(tn) == TimeWindow && BareName(sn) && ParamOf(sn) == Sig
    requires BareName(an) && ParamOf(an) == Add
    requires '+' !in a && a != [] && b != [] && BareValue(a) && BareValue(b)
    requires ParseUnsigned(a, U64).Some? && ParseUnsigned(b, U64).Some? && BareValue(v) && BareValue(w)
    requires Blanks(blanks)
    requires v != [] && v[0] !in Scheme && v[0] !in tn && v[0] !in a && v[0] !in b && v[0] !in sn
    requires v[0] != '=' && v[0] != '+'
    ensures var head, tail := Scheme + (tn + "=" + (a + "+" + b)), blanks + [','] + (an + "=" + w);
      var r := Parse(head + [','] + (sn + "=") + v + tail);
      r.Ok? && r.value.header == head + tail && r.value.sig == v
  {
    var first, last := tn + "=" + (a + "+" + b), an + "=" + w;
    WindowSigAddItems(tn, a, b, sn, v, blanks, an, w);
    RegroupMiddle(first, sn, v, blanks, last);
    WindowHeadLacks(v[0], tn, a, b);
    CutAfterComma(Scheme + first, sn, v, blanks + [','] + last);
  }

  /** The scheme has no comma. */
  lemma SchemeLacksComma()
    ensures ',' !in Scheme
  {
  }

  /** A symbol absent from the scheme and a parameter name, and not `=`, is absent from the header up to that name's `=`. */
  lemma NameHeadLacks(c: char, n: string)
    requires c !in Scheme && c !in n && c != '='
    ensures c !in Scheme + (n + "=")
  {
    assert n + "=" == n + ['='];
  }

  /** A signature item and then an item of added fields: what the two set. */
  lemma SigAddItems(sn: string, v: string, an: string, w: string)
    requires BareName(sn) && ParamOf(sn) == Sig && BareName(an) && ParamOf(an) == Add
    requires BareValue(v) && BareValue(w)
    ensures var raw := Scheme + ((sn + "=" + v) + [','] + (an + "=" + w));
      var res := Default.(sig := v, add := Split(w, '+'));
      Find(raw, v).Some? && Parse(raw) == Ok(res.(header := Residual(raw, v)))
  {
    SigItem(Default, sn, v);
    AddItem(Default.(sig := v), an, w);
    ItemNoComma(sn, v);
    ItemNoComma(an, w);
    TwoItems(sn + "=" + v, an + "=" + w);
  }

  /** A signature in the first item is cut out alone: its name and `=` stay. */
  lemma SigThenAdd(sn: string, v: string, an: string, w: string)
    requires BareName(sn) && ParamOf(sn) == Sig && BareName(an) && ParamOf(an) == Add
    requires BareValue(v) && BareValue(w)
    requires v != [] && v[0] !in Scheme && v[0] !in sn && v[0] != '='
    ensures var left, tail := Scheme + (sn + "="), [','] + (an + "=" + w);
      var r := Parse(left + v + tail);
      r.Ok? && r.value.header == left + tail && r.value.sig == v
  {
    var left := Scheme + (sn + "=");
    SigAddItems(sn, v, an, w);
    RegroupFirst(sn, v, an + "=" + w);
    SchemeLacksComma();
    NameHeadLacks(v[0], sn);
    NameHeadLacks(',', sn);
    CutFirst(left, v, [','] + (an + "=" + w));
  }

  // ----- headers that spell out the defaults -----

  /** An item behind blanks reads as the item alone and holds no comma. */
  lemma BlankItem(blanks: string, n: string, v: string)
    requires Blanks(blanks) && '=' !in n && ',' !in n && Tight(n) && BareValue(v)
    ensures var t := n + "=" + v;
      ',' !in blanks + t && TrimWs(blanks + t) == t
  {
    var t := n + "=" + v;
    ItemNoComma(n, v);
    ItemRead(n, v);
    TrimDropsLeading(blanks, t, IsWhitespace);
  }

  /** Two items, each of which leaves the defaults as they are, leave them so together. */
  lemma DefaultPair(c: string, d: string)
    requires ApplyItem(Default, TrimWs(c)) == Ok(Default) && ApplyItem(Default, TrimWs(d)) == Ok(Default)
    ensures ApplyItems(Default, [c, d]) == Ok(Default)
  {
    Step(Default, c, TrimWs(c), [d]);
    Step(Default, d, TrimWs(d), []);
  }

  /** Three comma-separated items, each of which leaves the defaults as they are, leave them so together. */
  lemma DefaultTail(b: string, c: string, d: string)
    requires ',' !in b && ',' !in c && ',' !in d
    requires ApplyItem(Default, TrimWs(b)) == Ok(Default) && ApplyItem(Default, TrimWs(c)) == Ok(Default)
    requires ApplyItem(Default, TrimWs(d)) == Ok(Default)
    ensures ApplyItems(Default, Split(b + [','] + (c + [','] + d), ',')) == Ok(Default)
  {
    SplitThree(b, ',', c, d);
    Step(Default, b, TrimWs(b), [c, d]);
    DefaultPair(c, d);
  }

  /** A header of four items, each of which leaves the defaults as they are, parses to the defaults and keeps all its text. */
  lemma DefaultItems(a: string, b: string, c: string, d: string)
    requires ',' !in a && ',' !in b && ',' !in c && ',' !in d
    requires ApplyItem(Default, TrimWs(a)) == Ok(Default) && ApplyItem(Default, TrimWs(b)) == Ok(Default)
    requires ApplyItem(Default, TrimWs(c)) == Ok(Default) && ApplyItem(Default, TrimWs(d)) == Ok(Default)
    ensures var raw := Scheme + (a + [','] + (b + [','] + (c + [','] + d)));
      Parse(raw) == Ok(Default.(header := raw))
  {
    var tail := b + [','] + (c + [','] + d);
    SplitOnceAt(a, ',', tail);
    Step(Default, a, TrimWs(a), Split(tail, ','));
    DefaultTail(b, c, d);
    HeaderOk(a + [','] + tail);
  }

  /**
   * A header whose four items give `add`, an empty `sig`, `time` and `key`
   * their default values parses to the defaults: the empty signature is
   * found at the start and nothing is cut out.
   */
  lemma DefaultsHeader(an: string, v: string, sn: string, tn: string, w: string, kn: string, k: string, blanks: string)
    requires BareName(an) && BareValue(v) && ParamOf(an) == Add && Split(v, '+') == DefaultAdd
    requires BareName(sn) && ParamOf(sn) == Sig
    requires BareName(tn) && BareValue(w) && ParamOf(tn) == TimeWindow && ParseTime(w) == Ok((0, 0))
    requires BareName(kn) && BareValue(k) && ParamOf(kn) == KeyId && ParseUnsigned(k, U32) == Some(0)
    requires Blanks(blanks)
    ensures var raw := Scheme + ((an + "=" + v) + [','] + ((blanks + (sn + "=" + "")) + [','] +
                         ((blanks + (tn + "=" + w)) + [','] + (blanks + (kn + "=" + k)))));
      Parse(raw) == Ok(Default.(header := raw))
  {
    ItemNoComma(an, v);
    AddItem(Default, an, v);
    BlankItem(blanks, sn, "");
    SigItem(Default, sn, "");
    BlankItem(blanks, tn, w);
    TimeItem(Default, tn, w);
    BlankItem(blanks, kn, k);
    KeyItem(Default, kn, k);
    DefaultItems(an + "=" + v, blanks + (sn + "=" + ""), blanks + (tn + "=" + w), blanks + (kn + "=" + k));
  }

  /** A header whose one item is an empty signature parses to the defaults and keeps all its text. */
  lemma EmptySigHeader(sn: string)
    requires BareName(sn) && ParamOf(sn) == Sig
    ensures var raw := Scheme + (sn + "=" + "");
      Parse(raw) == Ok(Default.(header := raw))
  {
    ItemNoComma(sn, "");
    SingleItem(sn + "=" + "");
    SigItem(Default, sn, "");
  }

  // ----- numerals -----

  /** A run of digits with no sign reads as its value, whenever that fits. */
  lemma Numeral(s: string, bound: nat)
    requires s != [] && AllDigits(s) && Value(s) < bound
    ensures ParseUnsigned(s, bound) == Some(Value(s))
  {
    DigitsValueSpec(s);
  }

  /** The numerals the window examples refuse. */
  lemma BadNumerals()
    ensures ParseUnsigned("-4", U64).None? && ParseUnsigned("b", U64).None?
    ensures ParseUnsigned("-1", U64).None? && ParseUnsigned("0b1", U64).None?
  {
  }

  /** The numerals the window and key examples accept. */
  lemma GoodNumerals()
    ensures ParseUnsigned("42", U64) == Some(42) && ParseUnsigned("41", U64) == Some(41)
    ensures ParseUnsigned("0", U64) == Some(0) && ParseUnsigned("1", U64) == Some(1)
    ensures ParseUnsigned("12", U64) == Some(12) && ParseUnsigned("42", U32) == Some(42)
  {
    assert "42"[..1] == "4" && "41"[..1] == "4" && "12"[..1] == "1";
    Numeral("42", U64);
    Numeral("41", U64);
    Numeral("0", U64);
    Numeral("1", U64);
    Numeral("12", U64);
    Numeral("42", U32);
  }

  // ----- the words of the examples -----

  /** The parameter names of the examples, as items spell them. */
  lemma Names()
    ensures BareName("time") && ParamOf("time") == TimeWindow
    ensures BareName("sig") && ParamOf("sig") == Sig
    ensures BareName("add") && ParamOf("add") == Add
    ensures BareName("key") && ParamOf("key") == KeyId
  {
  }

  /** The names of the examples that the scheme does not define. */
  lemma UnknownNames()
    ensures '=' !in "dummy" && ',' !in "dummy" && Tight("dummy") && ParamOf("dummy") == Unknown
    ensures '=' !in "" && ',' !in "" && Tight("") && ParamOf("") == Unknown
  {
  }

  /** The values of the examples, as items spell them. */
  lemma Values()
    ensures BareValue("") && BareValue("1") && BareValue("0") && BareValue("12")
    ensures BareValue("42") && BareValue("41") && BareValue("-4") && BareValue("b")
    ensures BareValue("-1") && BareValue("0b1") && BareValue("foo") && BareValue("bar") && BareValue("baz")
  {
  }

  /** The values of the examples that hold no `+`. */
  lemma PlainValues()
    ensures '+' !in "42" && '+' !in "41" && '+' !in "-4" && '+' !in "b"
    ensures '+' !in "foo" && '+' !in "bar" && '+' !in "baz"
    ensures "1" != [] && "0" != [] && "12" != [] && "42" != [] && "41" != [] && "-4" != []
    ensures "b" != [] && "-1" != [] && "0b1" != [] && "foo" != [] && "baz" != []
  {
  }

  /** The signature `foo` of the split examples begins with a symbol the text before it lacks. */
  lemma SignatureFacts()
    ensures 'f' !in Scheme && 'f' !in "time" && 'f' !in "41" && 'f' !in "1" && 'f' !in "sig"
    ensures Blanks(" ") && Blanks("")
  {
  }

  // ----- test_scheme -----

  /** `test_scheme`: only a header that starts with `alpico `, after leading whitespace, carries the scheme. */
  lemma SchemeExamples()
    ensures Parse("") == Err(SchemeUnsupported)
    ensures Parse("Bearer") == Err(SchemeUnsupported)
    ensures Parse("alpico") == Err(SchemeUnsupported)
    ensures Parse("alpico ") != Err(SchemeUnsupported)
    ensures Parse("  alpico ") != Err(SchemeUnsupported)
  {
    SchemeChecked("");
    SchemeChecked("Bearer");
    SchemeChecked("alpico");
    SchemeChecked("alpico ");
    SchemeChecked("  alpico ");
    assert TrimStart("  alpico ", IsWhitespace) == TrimStart(" alpico ", IsWhitespace)
      == TrimStart("alpico ", IsWhitespace) == "alpico ";
  }

  // ----- test_separator -----

  /** `test_separator`: an item without `=` is refused. */
  lemma SeparatorNoEquals()
    ensures Parse("alpico a") == Err(Separator)
  {
    Names();
    UnknownNames();
    Values();
    PlainValues();
    assert Scheme + "a" == "alpico a";
    BareItemHeader("a");
  }

  /** `test_separator`: an empty item is refused. */
  lemma SeparatorEmptyItem()
    ensures Parse("alpico ,") == Err(Separator)
  {
    Names();
    UnknownNames();
    Values();
    PlainValues();
    assert Scheme + ("" + [','] + "") == "alpico ,";
    TwoItems("", "");
  }

  /** `test_separator`: an empty value is no separator error. */
  lemma SeparatorEmptyValue()
    ensures Parse("alpico add=") != Err(Separator)
  {
    Names();
    UnknownNames();
    Values();
    PlainValues();
    assert Scheme + ("add" + "=" + "") == "alpico add=";
    AddHeader("add", "");
  }

  /** `test_separator`: a later item without `=` is refused after an accepted one. */
  lemma SeparatorLaterItem()
    ensures Parse("alpico add=, bar") == Err(Separator)
  {
    Names();
    UnknownNames();
    Values();
    PlainValues();
    assert Scheme + (("add" + "=" + "") + [','] + " bar") == "alpico add=, bar";
    AddThenBare("add", "", " bar");
  }

  // ----- test_params -----

  /** `test_params`: an empty name is an unknown parameter. */
  lemma UnknownEmptyName()
    ensures Parse("alpico =") == Err(UnknownParam)
  {
    Names();
    UnknownNames();
    Values();
    PlainValues();
    assert Scheme + ("" + "=" + "") == "alpico =";
    UnknownHeader("", "");
  }

  /** `test_params`: a name the scheme does not define is an unknown parameter. */
  lemma UnknownName()
    ensures Parse("alpico dummy=1") == Err(UnknownParam)
  {
    Names();
    UnknownNames();
    Values();
    PlainValues();
    assert Scheme + ("dummy" + "=" + "1") == "alpico dummy=1";
    UnknownHeader("dummy", "1");
  }

  /** `test_params`: the `sig` value is read as given. */
  lemma SigValue()
    ensures Parse("alpico sig=foo").Ok? && Parse("alpico sig=foo").value.sig == "foo"
  {
    Names();
    UnknownNames();
    Values();
    PlainValues();
    assert Scheme + ("sig" + "=" + "foo") == "alpico sig=foo";
    SigHeader("sig", "foo");
  }

  /** `test_params`: a single `add` field. */
  lemma AddValue()
    ensures Parse("alpico add=foo").Ok? && Parse("alpico add=foo").value.add == ["foo"]
  {
    Names();
    UnknownNames();
    Values();
    PlainValues();
    assert Scheme + ("add" + "=" + "foo") == "alpico add=foo";
    AddHeader("add", "foo");
    assert Split("foo", '+') == ["foo"];
  }

  /** `test_params`: the `add` value split on `+`. */
  lemma AddValues()
    ensures var r := Parse("alpico add=foo+bar+baz");
      r.Ok? && r.value.add == ["foo", "bar", "baz"] && |r.value.add| == 3 && r.value.add[1] == "bar"
  {
    Names();
    UnknownNames();
    Values();
    PlainValues();
    assert Scheme + ("add" + "=" + ("foo" + ['+'] + ("bar" + ['+'] + "baz"))) == "alpico add=foo+bar+baz";
    AddThreeHeader("add", "foo", "bar", "baz");
  }

  /** `test_params`: a window without `+` is reason "time". */
  lemma TimeNoPlus()
    ensures Parse("alpico time=1") == Err(Time)
  {
    Names();
    UnknownNames();
    Values();
    PlainValues();
    assert Scheme + ("time" + "=" + "1") == "alpico time=1";
    TimeHeader("time", "1");
  }

  /** `test_params`: a negative start is reason "start". */
  lemma TimeNegativeStart()
    ensures Parse("alpico time=-4+1") == Err(Start)
  {
    Names();
    UnknownNames();
    Values();
    PlainValues();
    assert Scheme + ("time" + "=" + ("-4" + "+" + "1")) == "alpico time=-4+1";
    BadNumerals();
    WindowHeader("time", "-4", "1");
  }

  /** `test_params`: a start that is no numeral is reason "start". */
  lemma TimeLetterStart()
    ensures Parse("alpico time=b+1") == Err(Start)
  {
    Names();
    UnknownNames();
    Values();
    PlainValues();
    assert Scheme + ("time" + "=" + ("b" + "+" + "1")) == "alpico time=b+1";
    BadNumerals();
    WindowHeader("time", "b", "1");
  }

  /** `test_params`: a negative duration is reason "duration". */
  lemma TimeNegativeDuration()
    ensures Parse("alpico time=42+-1") == Err(Duration)
  {
    Names();
    UnknownNames();
    Values();
    PlainValues();
    assert Scheme + ("time" + "=" + ("42" + "+" + "-1")) == "alpico time=42+-1";
    BadNumerals();
    GoodNumerals();
    WindowHeader("time", "42", "-1");
  }

  /** `test_params`: a duration with a radix prefix is reason "duration". */
  lemma TimeBinaryDuration()
    ensures Parse("alpico time=42+0b1") == Err(Duration)
  {
    Names();
    UnknownNames();
    Values();
    PlainValues();
    assert Scheme + ("time" + "=" + ("42" + "+" + "0b1")) == "alpico time=42+0b1";
    BadNumerals();
    GoodNumerals();
    WindowHeader("time", "42", "0b1");
  }

  /** `test_params`: the start a good window holds. */
  lemma TimeStart()
    ensures Parse("alpico time=42+1").Ok? && Parse("alpico time=42+1").value.start == 42
  {
    Names();
    UnknownNames();
    Values();
    PlainValues();
    assert Scheme + ("time" + "=" + ("42" + "+" + "1")) == "alpico time=42+1";
    GoodNumerals();
    WindowHeader("time", "42", "1");
  }

  /** `test_params`: a zero duration is held as such. */
  lemma TimeZeroDuration()
    ensures Parse("alpico time=42+0").Ok? && Parse("alpico time=42+0").value.duration == 0
  {
    Names();
    UnknownNames();
    Values();
    PlainValues();
    assert Scheme + ("time" + "=" + ("42" + "+" + "0")) == "alpico time=42+0";
    GoodNumerals();
    WindowHeader("time", "42", "0");
  }

  /** `test_params`: a two-digit duration. */
  lemma TimeDuration()
    ensures Parse("alpico time=42+12").Ok? && Parse("alpico time=42+12").value.duration == 12
  {
    Names();
    UnknownNames();
    Values();
    PlainValues();
    assert Scheme + ("time" + "=" + ("42" + "+" + "12")) == "alpico time=42+12";
    GoodNumerals();
    WindowHeader("time", "42", "12");
  }

  /** `test_params`: the key id, with an empty signature after it. */
  lemma KeyValue()
    ensures Parse("alpico key=42, sig=").Ok? && Parse("alpico key=42, sig=").value.key == 42
  {
    Names();
    UnknownNames();
    Values();
    PlainValues();
    assert Scheme + (("key" + "=" + "42") + [','] + (" " + ("sig" + "=" + ""))) == "alpico key=42, sig=";
    GoodNumerals();
    KeyThenSig("key", "42", " ", "sig", "");
  }

  // ----- test_signature_split -----

  /** `test_signature_split`: the signature item at the end is cut with the comma before it. */
  lemma SplitLastItem()
    ensures var r := Parse("alpico time=41+1,sig=foo");
      r.Ok? && r.value.header == "alpico time=41+1"
  {
    Names();
    UnknownNames();
    Values();
    PlainValues();
    SignatureFacts();
    assert Scheme + ("time" + "=" + ("41" + "+" + "1")) == "alpico time=41+1";
    assert "alpico time=41+1" + [','] + ("sig" + "=") + "foo" == "alpico time=41+1,sig=foo";
    GoodNumerals();
    WindowThenSig("time", "41", "1", "sig", "foo");
  }

  /** `test_signature_split`: what follows the signature, spaces included, is kept. */
  lemma SplitMiddleItem()
    ensures var r := Parse("alpico time=41+1,sig=foo ,add=");
      r.Ok? && r.value.header == "alpico time=41+1 ,add="
  {
    Names();
    UnknownNames();
    Values();
    PlainValues();
    SignatureFacts();
    assert Scheme + ("time" + "=" + ("41" + "+" + "1")) == "alpico time=41+1";
    assert " " + [','] + ("add" + "=" + "") == " ,add=";
    assert "alpico time=41+1" + [','] + ("sig" + "=") + "foo" + " ,add=" == "alpico time=41+1,sig=foo ,add=";
    assert "alpico time=41+1" + " ,add=" == "alpico time=41+1 ,add=";
    GoodNumerals();
    WindowSigAdd("time", "41", "1", "sig", "foo", " ", "add", "");
  }

  /** `test_signature_split`: a signature in the first item leaves its name in the residual text. */
  lemma SplitFirstItem()
    ensures var r := Parse("alpico sig=foo,add=");
      r.Ok? && r.value.header == "alpico sig=,add="
  {
    Names();
    UnknownNames();
    Values();
    PlainValues();
    SignatureFacts();
    assert Scheme + ("sig" + "=") == "alpico sig=";
    assert [','] + ("add" + "=" + "") == ",add=";
    assert "alpico sig=" + "foo" + ",add=" == "alpico sig=foo,add=";
    assert "alpico sig=" + ",add=" == "alpico sig=,add=";
    SigThenAdd("sig", "foo", "add", "");
  }

  // ----- test_derived -----

  /** The window `0+0` and the fields `-method+-path` of the derived example. */
  lemma DefaultValues()
    ensures BareValue("0" + "+" + "0") && ParseTime("0" + "+" + "0") == Ok((0, 0))
    ensures BareValue("-method" + "+" + "-path") && Split("-method" + "+" + "-path", '+') == DefaultAdd
    ensures ParseUnsigned("0", U32) == Some(0)
  {
    Values();
    PlainValues();
    GoodNumerals();
    Numeral("0", U32);
    WindowText("0", "0");
    TimeParts("0", "0");
    assert BareValue("-method") && BareValue("-path") && '+' !in "-method" && '+' !in "-path";
    WindowText("-method", "-path");
    assert "-method" + "+" + "-path" == "-method" + ['+'] + "-path";
    SplitTwo("-method", '+', "-path");
  }

  /** Four items after a scheme, regrouped from the left. */
  lemma RegroupFour(scheme: string, a: string, b: string, c: string, d: string)
    ensures scheme + (a + [','] + (b + [','] + (c + [','] + d))) == scheme + a + [','] + b + [','] + c + [','] + d
  {
  }

  /** The four items of the longer header of the derived example, as the family lemma spells them. */
  lemma DerivedPieces()
    ensures "add" + "=" + ("-method" + "+" + "-path") == "add=-method+-path"
    ensures " " + ("sig" + "=" + "") == " sig="
    ensures " " + ("time" + "=" + ("0" + "+" + "0")) == " time=0+0"
    ensures " " + ("key" + "=" + "0") == " key=0"
  {
  }

  /** The longer header of the derived example, as the family lemma spells it. */
  lemma DerivedText()
    ensures Scheme + (("add" + "=" + ("-method" + "+" + "-path")) + [','] + ((" " + ("sig" + "=" + "")) + [','] +
              ((" " + ("time" + "=" + ("0" + "+" + "0"))) + [','] + (" " + ("key" + "=" + "0")))))
      == "alpico add=-method+-path, sig=, time=0+0, key=0"
  {
    var add := "add" + "=" + ("-method" + "+" + "-path");
    var sig := " " + ("sig" + "=" + "");
    var time := " " + ("time" + "=" + ("0" + "+" + "0"));
    var key := " " + ("key" + "=" + "0");
    DerivedPieces();
    RegroupFour(Scheme, add, sig, time, key);
    assert Scheme + add == "alpico add=-method+-path";
    assert "alpico add=-method+-path" + [','] + " sig=" == "alpico add=-method+-path, sig=";
    assert "alpico add=-method+-path, sig=" + [','] + " time=0+0" == "alpico add=-method+-path, sig=, time=0+0";
    assert "alpico add=-method+-path, sig=, time=0+0" + [','] + " key=0" == "alpico add=-method+-path, sig=, time=0+0, key=0";
  }

  /** The shorter header of the derived example, as the family lemma spells it. */
  lemma EmptySigText()
    ensures Scheme + ("sig" + "=" + "") == "alpico sig="
  {
  }

  /** `test_derived`: spelling out every default, with an empty signature, parses as the bare `sig=` header does. */
  lemma DerivedDefaults()
    ensures var x, y := Parse("alpico add=-method+-path, sig=, time=0+0, key=0"), Parse("alpico sig=");
      x.Ok? && y.Ok? && x.value.(header := "alpico sig=") == y.value
  {
    Names();
    SignatureFacts();
    DefaultValues();
    DerivedText();
    EmptySigText();
    DefaultsHeader("add", "-method" + "+" + "-path", "sig", "time", "0" + "+" + "0", "key", "0", " ");
    EmptySigHeader("sig");
  }
}
