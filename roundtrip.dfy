/**
 * The two Rust halves together: what the signer emits, the header parser
 * reads back, and the message the verifier rebuilds from it is the message
 * the signer signed.
 */
module RoundTrip {
  import opened Wrappers
  import opened Bytes
  import opened Decimal
  import opened Seqs
  import opened Base64
  import opened HeaderParser
  import opened Signer
  import opened Verifier

  /**
   * A header name the round trip can carry: no `,` (which would end the
   * parameter), no `+` (which would split the name) and no whitespace at
   * its end (which the parser would trim from the `add` value).
   */
  predicate PlainName(n: string) {
    ',' !in n && '+' !in n && (n == [] || !IsWhitespace(n[|n| - 1]))
  }

  /** The `time` value the signer writes. */
  function TimeText(start: u64, window: u64): (r: string)
    ensures ',' !in r && r != [] && !IsWhitespace(r[0]) && !IsWhitespace(r[|r| - 1])
  {
    var a, b := Format(start), Format(window);
    assert forall i :: 0 <= i < |a| ==> a[i] != ',';
    assert forall i :: 0 <= i < |b| ==> b[i] != ',';
    a + "+" + b
  }

  /** The `add` value the signer writes. */
  function AddText(headers: seq<Field>): string {
    Join(DefaultAdd + Names(headers), '+')
  }

  /** A joined list holds no element that no part holds, the separator aside. */
  lemma {:induction false} JoinExcludes<T>(parts: seq<seq<T>>, x: T, c: T)
    requires c != x && forall i :: 0 <= i < |parts| ==> c !in parts[i]
    ensures c !in Join(parts, x)
  {
    if |parts| > 1 {
      JoinExcludes(parts[1..], x, c);
    }
  }

  /** The `add` value of plain names holds no comma, starts with `-` and does not end in whitespace. */
  lemma AddTextPlain(headers: seq<Field>)
    requires forall i :: 0 <= i < |headers| ==> PlainName(headers[i].0)
    ensures var a := AddText(headers);
      ',' !in a && a != [] && a[0] == '-' && !IsWhitespace(a[|a| - 1])
  {
    var parts := DefaultAdd + Names(headers);
    forall i | 0 <= i < |parts| ensures ',' !in parts[i] {
      if i >= 2 {
        assert parts[i] == headers[i - 2].0;
      }
    }
    JoinExcludes(parts, '+', ',');
    HeadersTextJoin(headers);
    var a := AddText(headers);
    assert a == "-method+-path" + HeadersText(headers);
    if headers != [] {
      var last := headers[|headers| - 1].0;
      assert HeadersText(headers) == HeadersText(headers[..|headers| - 1]) + "+" + last;
      if last != [] {
        assert a[|a| - 1] == last[|last| - 1];
      }
    }
  }

  /** `text` alone is one piece when it has no comma. */
  lemma SplitNone(text: string)
    requires ',' !in text
    ensures Split(text, ',') == [text]
  {
  }

  /**
   * An item `lead + name + "=" + value` with whitespace `lead`, a name
   * without `=` and a value without whitespace at its ends trims to
   * `name=value` and yields exactly that name and value.
   */
  lemma ItemParts(lead: string, name: string, value: string)
    requires forall i :: 0 <= i < |lead| ==> IsWhitespace(lead[i])
    requires name != [] && '=' !in name && !IsWhitespace(name[0]) && !IsWhitespace(name[|name| - 1])
    requires value != [] && !IsWhitespace(value[0]) && !IsWhitespace(value[|value| - 1])
    ensures var t := TrimWs(lead + name + "=" + value);
      t == name + "=" + value && '=' in t && KeyOf(t) == name && ValueOf(t) == value
  {
    var t := name + "=" + value;
    assert lead + name + "=" + value == lead + t;
    assert t[0] == name[0] && t[|t| - 1] == value[|value| - 1];
    TrimDropsLeading(lead, t, IsWhitespace);
    assert t == name + ['='] + value;
    SplitOnceAt(name, '=', value);
    TrimNoop(name, IsWhitespace);
    TrimNoop(value, IsWhitespace);
  }

  /** A header that starts with the scheme has the text after it, split on commas, as its items. */
  lemma SchemeItems(raw: string, rest: string)
    requires raw == Scheme + rest
    ensures Scheme <= TrimStart(raw, IsWhitespace) && Items(raw) == Split(rest, ',')
  {
    assert raw[0] == 'a';
    assert raw[|Scheme|..] == rest;
  }

  /** The fixed pieces of a signed header, cut at the scheme and at the commas. */
  lemma Literals()
    ensures "alpico time=" == Scheme + "time="
    ensures ", add=" == [','] + " add=" && ", sig=" == [','] + " sig="
  {
  }

  /** The items the signer writes, cut before their names and at their `=`. */
  lemma ItemLiterals()
    ensures "" + "time" + "=" == "time=" && " " + "add" + "=" == " add=" && " " + "sig" + "=" == " sig="
  {
  }

  /** Regrouping the pieces of a signed header around its commas. */
  lemma Regroup<T>(p: seq<T>, q: seq<T>, t: seq<T>, c: T, a: seq<T>, b: seq<T>, s: seq<T>, e: seq<T>)
    ensures p + q + t + ([c] + a) + b + ([c] + s) + e == p + ((q + t) + [c] + ((a + b) + [c] + (s + e)))
    ensures p + q + t + ([c] + s) + e == p + ((q + t) + [c] + (s + e))
  {
  }

  /** A header that is the scheme and two comma-free items has exactly those items. */
  lemma TwoItems(raw: string, t: string, s: string)
    requires raw == Scheme + (t + [','] + s)
    requires ',' !in t && ',' !in s
    ensures Scheme <= TrimStart(raw, IsWhitespace) && Items(raw) == [t, s]
  {
    SchemeItems(raw, t + [','] + s);
    SplitTwo(t, ',', s);
  }

  /** A header that is the scheme and three comma-free items has exactly those items. */
  lemma ThreeItems(raw: string, t: string, a: string, s: string)
    requires raw == Scheme + (t + [','] + (a + [','] + s))
    requires ',' !in t && ',' !in a && ',' !in s
    ensures Scheme <= TrimStart(raw, IsWhitespace) && Items(raw) == [t, a, s]
  {
    SchemeItems(raw, t + [','] + (a + [','] + s));
    SplitThree(t, ',', a, s);
  }

  /** The signature item holds no comma. */
  lemma SigItemPlain(e: string)
    requires AllUrlSafe(e)
    ensures ',' !in " sig=" + e
  {
    assert forall i :: 0 <= i < |e| ==> IsUrlSafe(e[i]);
  }

  /** The items of a signed header with no headers signed besides method and path: the window and the signature. */
  lemma SignedItemsBare(start: u64, window: u64, e: string)
    requires AllUrlSafe(e)
    ensures var out := Params(start, window, []) + ", sig=" + e;
      && Scheme <= TrimStart(out, IsWhitespace)
      && Items(out) == ["time=" + TimeText(start, window), " sig=" + e]
  {
    var time := TimeText(start, window);
    BareLayout(start, window, e);
    SigItemPlain(e);
    TwoItems(Params(start, window, []) + ", sig=" + e, "time=" + time, " sig=" + e);
  }

  /** Without signed headers the header is the scheme, the time item, a comma and the signature item. */
  lemma BareLayout(start: u64, window: u64, e: string)
    ensures var time := TimeText(start, window);
      Params(start, window, []) + ", sig=" + e == Scheme + (("time=" + time) + [','] + (" sig=" + e))
  {
    ParamsShape(start, window, []);
    Literals();
    var time := TimeText(start, window);
    var out := Params(start, window, []) + ", sig=" + e;
    assert Params(start, window, []) == "alpico time=" + time;
    assert out == Scheme + "time=" + time + ([','] + " sig=") + e;
    Regroup(Scheme, "time=", time, ',', [], [], " sig=", e);
  }

  /** The parameter text with headers signed: the window, then `, add=` and the field names. */
  lemma ParamsAdd(start: u64, window: u64, headers: seq<Field>)
    requires headers != []
    ensures Params(start, window, headers) == "alpico time=" + TimeText(start, window) + ", add=" + AddText(headers)
  {
    ParamsShape(start, window, headers);
  }

  /** A signed header with headers signed, cut at the scheme and at its commas. */
  lemma SignedTextAdd(start: u64, window: u64, headers: seq<Field>, e: string)
    requires headers != []
    ensures Params(start, window, headers) + ", sig=" + e
      == Scheme + (("time=" + TimeText(start, window)) + [','] + ((" add=" + AddText(headers)) + [','] + (" sig=" + e)))
  {
    ParamsAdd(start, window, headers);
    Literals();
    Regroup(Scheme, "time=", TimeText(start, window), ',', " add=", AddText(headers), " sig=", e);
  }

  /** The items of a signed header with headers signed: the window, the `add` list and the signature. */
  lemma SignedItemsAdd(start: u64, window: u64, headers: seq<Field>, e: string)
    requires headers != []
    requires forall i :: 0 <= i < |headers| ==> PlainName(headers[i].0)
    requires AllUrlSafe(e)
    ensures var out := Params(start, window, headers) + ", sig=" + e;
      && Scheme <= TrimStart(out, IsWhitespace)
      && Items(out) == ["time=" + TimeText(start, window), " add=" + AddText(headers), " sig=" + e]
  {
    SigItemPlain(e);
    AddTextPlain(headers);
    SignedTextAdd(start, window, headers, e);
    ThreeItems(Params(start, window, headers) + ", sig=" + e,
               "time=" + TimeText(start, window), " add=" + AddText(headers), " sig=" + e);
  }

  /** The names the signer writes select their parameters. */
  lemma ParamNames()
    ensures ParamOf("time") == TimeWindow && ParamOf("add") == Add && ParamOf("sig") == Sig
  {
  }

  /** The window item, trimmed, is `time=` and the window text. */
  lemma TimeItemText(start: u64, window: u64)
    ensures var t := TrimWs("time=" + TimeText(start, window));
      '=' in t && KeyOf(t) == "time" && ValueOf(t) == TimeText(start, window)
  {
    var time := TimeText(start, window);
    ItemParts("", "time", time);
    ItemLiterals();
  }

  /** The window item reads back as the window the signer wrote. */
  lemma TimeItem(res: AuthHeader, start: u64, window: u64)
    ensures ApplyItem(res, TrimWs("time=" + TimeText(start, window))) == Ok(res.(start := start, duration := window))
  {
    TimeItemText(start, window);
    ParamNames();
    WindowReadsBack(start, window);
  }

  /** The `add` item, trimmed, is `add=` and the joined names. */
  lemma AddItemText(headers: seq<Field>)
    requires forall i :: 0 <= i < |headers| ==> PlainName(headers[i].0)
    ensures var t := TrimWs(" add=" + AddText(headers));
      '=' in t && KeyOf(t) == "add" && ValueOf(t) == AddText(headers)
  {
    var add := AddText(headers);
    AddTextPlain(headers);
    ItemParts(" ", "add", add);
    ItemLiterals();
  }

  /** The joined names split back into the names. */
  lemma AddTextSplits(headers: seq<Field>)
    requires forall i :: 0 <= i < |headers| ==> PlainName(headers[i].0)
    ensures Split(AddText(headers), '+') == DefaultAdd + Names(headers)
  {
    var parts := DefaultAdd + Names(headers);
    forall p | p in parts ensures '+' !in p {
      var i :| 0 <= i < |parts| && parts[i] == p;
      if i >= 2 {
        assert p == headers[i - 2].0;
      }
    }
    SplitJoin(parts, '+');
  }

  /** The `add` item reads back as `-method`, `-path` and the names of the signed headers. */
  lemma AddItem(res: AuthHeader, headers: seq<Field>)
    requires forall i :: 0 <= i < |headers| ==> PlainName(headers[i].0)
    ensures ApplyItem(res, TrimWs(" add=" + AddText(headers))) == Ok(res.(add := DefaultAdd + Names(headers)))
  {
    AddItemText(headers);
    AddTextSplits(headers);
    ParamNames();
  }

  /** The signature item, trimmed, is `sig=` and the signature text. */
  lemma SigItemText(e: string)
    requires e != [] && AllUrlSafe(e)
    ensures var t := TrimWs(" sig=" + e);
      '=' in t && KeyOf(t) == "sig" && ValueOf(t) == e
  {
    assert IsUrlSafe(e[0]) && IsUrlSafe(e[|e| - 1]);
    ItemParts(" ", "sig", e);
    ItemLiterals();
  }

  /** The signature item reads back as the signature text. */
  lemma SigItem(res: AuthHeader, e: string)
    requires e != [] && AllUrlSafe(e)
    ensures ApplyItem(res, TrimWs(" sig=" + e)) == Ok(res.(sig := e))
  {
    SigItemText(e);
    ParamNames();
  }

  /** The parameter loop over the items of a signed header with no headers signed. */
  lemma FoldBare(start: u64, window: u64, e: string)
    requires e != [] && AllUrlSafe(e)
    ensures ApplyItems(Default, ["time=" + TimeText(start, window), " sig=" + e])
      == Ok(Default.(start := start, duration := window, sig := e))
  {
    var items := ["time=" + TimeText(start, window), " sig=" + e];
    var r1 := Default.(start := start, duration := window);
    TimeItem(Default, start, window);
    SigItem(r1, e);
    ApplyItemsStep(Default, items);
    assert items[1..] == [" sig=" + e] && items[1..][1..] == [];
    ApplyItemsStep(r1, items[1..]);
  }

  /** The parameter loop over the items of a signed header with headers signed. */
  lemma FoldAdd(start: u64, window: u64, headers: seq<Field>, e: string)
    requires forall i :: 0 <= i < |headers| ==> PlainName(headers[i].0)
    requires e != [] && AllUrlSafe(e)
    ensures ApplyItems(Default, ["time=" + TimeText(start, window), " add=" + AddText(headers), " sig=" + e])
      == Ok(Default.(start := start, duration := window, add := DefaultAdd + Names(headers), sig := e))
  {
    var items := ["time=" + TimeText(start, window), " add=" + AddText(headers), " sig=" + e];
    var r1 := Default.(start := start, duration := window);
    var r2 := r1.(add := DefaultAdd + Names(headers));
    TimeItem(Default, start, window);
    AddItem(r1, headers);
    SigItem(r2, e);
    ApplyItemsStep(Default, items);
    assert items[1..] == [" add=" + AddText(headers), " sig=" + e];
    ApplyItemsStep(r1, items[1..]);
    assert items[1..][1..] == [" sig=" + e] && items[1..][1..][1..] == [];
    ApplyItemsStep(r2, items[1..][1..]);
  }

  /**
   * A signature text `e` holds none of `,`, ` ` and `=`, so in
   * `params + ", sig=" + e` it cannot stand across the `, sig=` before the
   * appended copy: an occurrence that starts earlier lies inside `params`.
   */
  lemma NoEarlierSig(params: string, e: string, k: nat)
    requires |e| >= 4 && AllUrlSafe(e)
    requires !OccursAt(params, e, k)
    requires k < |params| + 6
    ensures !OccursAt(params + ", sig=" + e, e, k)
  {
    var out := params + ", sig=" + e;
    var n := |params|;
    if k + |e| <= |out| {
      var w := out[k..k + |e|];
      if k + |e| <= n {
        assert w == params[k..k + |e|];
      } else if k <= n {
        assert w[n - k] == ',' && IsUrlSafe(e[n - k]);
      } else if k == n + 1 {
        assert w[0] == ' ' && IsUrlSafe(e[0]);
      } else {
        assert w[n + 5 - k] == '=' && IsUrlSafe(e[n + 5 - k]);
      }
    }
  }

  /** In `params + ", sig=" + e`, the first occurrence of `e` is the appended one, unless `e` stands in `params`. */
  lemma FirstSig(params: string, e: string)
    requires |e| >= 4 && AllUrlSafe(e)
    requires !Occurs(params, e)
    ensures Find(params + ", sig=" + e, e) == Some(|params| + 6)
  {
    var out := params + ", sig=" + e;
    var n := |params|;
    assert out[n + 6..] == e;
    assert OccursAt(out, e, n + 6);
    forall k: nat | k < n + 6 ensures !OccursAt(out, e, k) {
      NoEarlierSig(params, e, k);
    }
  }

  /** With the signature found where the signer put it, the residual header is the parameter text. */
  lemma ResidualSigned(params: string, e: string)
    requires Find(params + ", sig=" + e, e) == Some(|params| + 6)
    ensures Residual(params + ", sig=" + e, e) == params
  {
    var out := params + ", sig=" + e;
    var n := |params|;
    Literals();
    assert out[..n + 6] == params + [','] + " sig=";
    assert out[n + 6 + |e|..] == [];
    RSplitOnceAt(params, ',', " sig=");
  }

  /** `ParsesBack` when no headers are signed besides method and path. */
  lemma ParsesBackBare(start: u64, window: u64, e: string)
    requires |e| >= 4 && AllUrlSafe(e)
    requires !Occurs(Params(start, window, []), e)
    ensures Parse(Params(start, window, []) + ", sig=" + e)
      == Ok(AuthHeader(start, window, e, 0, DefaultAdd, Params(start, window, []), false))
  {
    var params := Params(start, window, []);
    var out := params + ", sig=" + e;
    SignedItemsBare(start, window, e);
    FoldBare(start, window, e);
    FirstSig(params, e);
    ResidualSigned(params, e);
    var res := Default.(start := start, duration := window, sig := e);
    assert Parse(out) == Ok(res.(header := Residual(out, e)));
  }

  /** `ParsesBack` when headers are signed. */
  lemma ParsesBackAdd(start: u64, window: u64, headers: seq<Field>, e: string)
    requires headers != []
    requires forall i :: 0 <= i < |headers| ==> PlainName(headers[i].0)
    requires |e| >= 4 && AllUrlSafe(e)
    requires !Occurs(Params(start, window, headers), e)
    ensures Parse(Params(start, window, headers) + ", sig=" + e)
      == Ok(AuthHeader(start, window, e, 0, DefaultAdd + Names(headers), Params(start, window, headers), false))
  {
    var params := Params(start, window, headers);
    var out := params + ", sig=" + e;
    SignedItemsAdd(start, window, headers, e);
    FoldAdd(start, window, headers, e);
    FirstSig(params, e);
    ResidualSigned(params, e);
    var res := Default.(start := start, duration := window, add := DefaultAdd + Names(headers), sig := e);
    assert Parse(out) == Ok(res.(header := Residual(out, e)));
  }

  /**
   * What the signer writes, the header parser reads back: the window, the
   * signature text, key id 0 (the signer writes no `key`), `-method`,
   * `-path` and the header names as the signed fields, and the parameter
   * text as the residual header, which is the first line the signer
   * signed. It needs header names without `,`, `+` or trailing whitespace,
   * and a signature text that does not already stand in the parameters.
   */
  lemma ParsesBack(start: u64, window: u64, headers: seq<Field>, e: string)
    requires forall i :: 0 <= i < |headers| ==> PlainName(headers[i].0)
    requires |e| >= 4 && AllUrlSafe(e)
    requires !Occurs(Params(start, window, headers), e)
    ensures Parse(Params(start, window, headers) + ", sig=" + e)
      == Ok(AuthHeader(start, window, e, 0, DefaultAdd + Names(headers), Params(start, window, headers), false))
  {
    if headers == [] {
      ParsesBackBare(start, window, e);
      assert DefaultAdd + Names(headers) == DefaultAdd;
    } else {
      ParsesBackAdd(start, window, headers, e);
    }
  }

  /**
   * The verifier rebuilds the message the signer signed when the request
   * it sees carries, for every signed header, the value the signer used
   * (a header named `-method` or `-path` stands for the method or path).
   */
  lemma MessagesAgree(h: AuthHeader, verb: string, path: string, headers: seq<Field>, body: Option<seq<byte>>,
                      getHeader: string -> Option<string>)
    requires h.add == DefaultAdd + Names(headers) && !h.omitBody
    requires forall i :: 0 <= i < |headers| ==> Utf8(FieldValue(headers[i].0, verb, path, getHeader)) == headers[i].1
    ensures Rebuilt(h, verb, path, body.GetOr([]), getHeader) == Message(h.header, verb, path, headers, body)
  {
    var fields := FieldBytes(h.add, verb, path, getHeader);
    var signed := [Utf8(verb), Utf8(path)] + Signer.Values(headers);
    assert |fields| == |signed|;
    forall i | 0 <= i < |fields| ensures fields[i] == signed[i] {
      if i >= 2 {
        assert h.add[i] == headers[i - 2].0;
      }
    }
    assert fields == signed;
    MessageShape(h.header, verb, path, headers, body);
  }

  /** Splits a signed header into the parameter text and the signature text. */
  function SignedParts(headers: seq<Field>, verb: string, path: string, body: Option<seq<byte>>,
                       duration: u64, tolerance: u64, now: u64, signer: seq<byte> -> seq<byte>): (r: (string, string))
    ensures r.0 + ", sig=" + r.1 == Signed(headers, verb, path, body, duration, tolerance, now, signer)
  {
    var (start, window) := Window(now, duration, tolerance);
    var params := Params(start, window, headers);
    (params, Encode(signer(Message(params, verb, path, headers, body))))
  }

  /** The signer's header, read back by the parser. */
  lemma SignedParses(headers: seq<Field>, verb: string, path: string, body: Option<seq<byte>>,
                     duration: u64, tolerance: u64, now: u64, signer: seq<byte> -> seq<byte>)
    requires forall i :: 0 <= i < |headers| ==> PlainName(headers[i].0)
    requires var (params, e) := SignedParts(headers, verb, path, body, duration, tolerance, now, signer);
      !Occurs(params, e)
    requires forall m :: |signer(m)| == SignatureLength
    ensures var (start, window) := Window(now, duration, tolerance);
      var (params, e) := SignedParts(headers, verb, path, body, duration, tolerance, now, signer);
      Parse(Signed(headers, verb, path, body, duration, tolerance, now, signer))
      == Ok(AuthHeader(start, window, e, 0, DefaultAdd + Names(headers), params, false))
  {
    var (start, window) := Window(now, duration, tolerance);
    var params := Params(start, window, headers);
    var sig := signer(Message(params, verb, path, headers, body));
    assert SignedParts(headers, verb, path, body, duration, tolerance, now, signer) == (params, Encode(sig));
    EncodeLength(sig);
    ParsesBack(start, window, headers, Encode(sig));
  }

  /**
   * Sign, then verify: a request the verifier sees with the signer's
   * header, the signed header values, the same method, path and body, a
   * time inside the window and key id 0 bound to the signer's public key,
   * is accepted with key id 0. This needs the wrap-free window arithmetic,
   * header names the header format can carry, a signature text that does
   * not already stand in the parameters, and a signer whose 64-byte
   * signatures the public key accepts.
   */
  lemma SignThenVerify<E>(headers: seq<Field>, verb: string, path: string, body: Option<seq<byte>>,
                          duration: u64, tolerance: u64, now: u64, signer: seq<byte> -> seq<byte>,
                          later: u64, getHeader: string -> Option<string>, getKey: u32 -> Result<seq<byte>, E>,
                          pk: seq<byte>, keyValid: seq<byte> -> bool, verifies: (seq<byte>, seq<byte>, seq<byte>) -> bool)
    requires tolerance <= now && duration + tolerance < U64 && now - tolerance <= later <= now + duration
    requires forall i :: 0 <= i < |headers| ==> PlainName(headers[i].0)
    requires forall i :: 0 <= i < |headers| ==> Utf8(FieldValue(headers[i].0, verb, path, getHeader)) == headers[i].1
    requires getHeader("authorization") == Some(Signed(headers, verb, path, body, duration, tolerance, now, signer))
    requires var (params, e) := SignedParts(headers, verb, path, body, duration, tolerance, now, signer);
      !Occurs(params, e)
    requires getKey(0) == Ok(pk) && keyValid(pk)
    requires forall m :: |signer(m)| == SignatureLength && verifies(pk, m, signer(m))
    ensures Verified(verb, path, body.GetOr([]), later, getHeader, getKey, keyValid, verifies) == Ok(0)
  {
    var (start, window) := Window(now, duration, tolerance);
    var (params, e) := SignedParts(headers, verb, path, body, duration, tolerance, now, signer);
    var m := Message(params, verb, path, headers, body);
    assert e == Encode(signer(m));
    SignedParses(headers, verb, path, body, duration, tolerance, now, signer);
    var h := AuthHeader(start, window, e, 0, DefaultAdd + Names(headers), params, false);
    assert Parse(RawHeader(getHeader)) == Ok(h);
    WindowCovers(now, duration, tolerance);
    DecodeEncode(signer(m));
    MessagesAgree(h, verb, path, headers, body, getHeader);
    Accepted(verb, path, body.GetOr([]), later, getHeader, getKey, keyValid, verifies);
  }
}
