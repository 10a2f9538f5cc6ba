/**
 * The Python round trip (python/ap-auth.py): `parse` reads back the
 * `authorization` header `calc` writes, and `verify` accepts the request
 * inside the window when the receiving side sees the same field values
 * and holds the verifying key.
 */
module PyRoundTrip {
  import opened Wrappers
  import opened Seqs
  import opened Decimal
  import opened Bytes
  import opened Base64
  import opened PyAuth
  import opened PyFacts

  /** A character that neither `strip` nor the split at `,` touches. */
  predicate KeyChar(c: char) {
    !IsSpace(c) && c != ','
  }

  /** A character other than whitespace. */
  predicate NonSpace(c: char) {
    !IsSpace(c)
  }

  /** A text of `KeyChar`s: a key id `calc` can write and `parse` reads back whole. */
  predicate Clean(s: string) {
    forall j :: 0 <= j < |s| ==> KeyChar(s[j])
  }

  /** A field name that also survives the split at `+`. */
  predicate PlainField(f: string) {
    Clean(f) && '+' !in f
  }

  /** A prefix `parse` matches: not empty, no whitespace and no upper-case letter. */
  predicate PlainPrefix(prefix: string) {
    prefix != [] && forall i :: 0 <= i < |prefix| ==> !IsSpace(prefix[i]) && !('A' <= prefix[i] <= 'Z')
  }

  /** The value of the `time` item `calc` writes. */
  function TimeValue(stamp: int, duration: int): string {
    PyFormat(stamp) + "+" + PyFormat(duration)
  }

  /** The named values `calc` writes after the prefix, before the signature: time, then `key` and `add` when given. */
  function CalcPairs(stamp: int, duration: int, keyname: string, fields: seq<string>): (r: seq<(string, string)>)
    ensures |r| >= 1
  {
    var timed := [("time", TimeValue(stamp, duration))];
    var keyed := timed + (if keyname != [] then [("key", keyname)] else []);
    keyed + (if fields != [] then [("add", Join(fields, '+'))] else [])
  }

  /** One item as written: name, `=`, value. */
  function ItemText(p: (string, string)): string {
    p.0 + "=" + p.1
  }

  /** The items of named values, in order. */
  function Items(pairs: seq<(string, string)>): (r: seq<string>)
    ensures |r| == |pairs|
    ensures forall i :: 0 <= i < |pairs| ==> r[i] == ItemText(pairs[i])
  {
    seq(|pairs|, i requires 0 <= i < |pairs| => ItemText(pairs[i]))
  }

  // ----- characters -----

  /** `%d` writes digits and, for a negative number, a leading minus. */
  lemma PyFormatChars(n: int)
    ensures forall j :: 0 <= j < |PyFormat(n)| ==> PyFormat(n)[j] == '-' || IsDigit(PyFormat(n)[j])
  {
    var digits := Format(if n < 0 then -n else n);
    if n < 0 {
      assert PyFormat(n) == "-" + digits;
    }
  }

  /** The time value holds no whitespace and no comma, and its start no `+`. */
  lemma TimeValueClean(stamp: int, duration: int)
    ensures Clean(TimeValue(stamp, duration))
    ensures '+' !in PyFormat(stamp)
  {
    PyFormatChars(stamp);
    PyFormatChars(duration);
    var a := PyFormat(stamp);
    var b := PyFormat(duration);
    var t := TimeValue(stamp, duration);
    forall j | 0 <= j < |t| ensures KeyChar(t[j]) {
      if j < |a| {
        assert t[j] == a[j];
      } else if j > |a| {
        assert t[j] == b[j - |a| - 1];
      }
    }
  }

  /** Clean texts glued together are clean. */
  lemma GlueClean(a: string, b: string)
    requires Clean(a) && Clean(b)
    ensures Clean(a + b)
  {
    var s := a + b;
    forall j | 0 <= j < |s| ensures KeyChar(s[j]) {
      if j >= |a| {
        assert s[j] == b[j - |a|];
      }
    }
  }

  /** The literal item names and the `=` after them are clean. */
  lemma NamesClean()
    ensures Clean("time") && Clean("key") && Clean("add") && Clean("sig") && Clean("=")
  {
    assert "time" == ['t', 'i', 'm', 'e'];
    assert "key" == ['k', 'e', 'y'];
    assert "add" == ['a', 'd', 'd'];
    assert "sig" == ['s', 'i', 'g'];
  }

  /** An item of clean name and value is clean. */
  lemma ItemClean(p: (string, string))
    requires Clean(p.0) && Clean(p.1)
    ensures Clean(ItemText(p))
  {
    NamesClean();
    GlueClean(p.0, "=");
    GlueClean(p.0 + "=", p.1);
  }

  /** The literal item names: none holds `=`, none is empty, all differ. */
  lemma NameLiterals()
    ensures '=' !in "time" && '=' !in "key" && '=' !in "add" && '=' !in "sig"
    ensures "time" != "key" && "time" != "add" && "time" != "sig" && "key" != "add" && "key" != "sig" && "add" != "sig"
    ensures [] != "time" && [] != "add" && [] != "sig"
  {
    assert "time"[0] == 't' && "key"[0] == 'k' && "add"[0] == 'a' && "sig"[0] == 's';
  }

  /** Every named value `calc` writes, the signature included, has a clean name without `=` and a clean value. */
  lemma PairsClean(stamp: int, duration: int, keyname: string, fields: seq<string>, e: string)
    requires Clean(keyname) && (forall i :: 0 <= i < |fields| ==> PlainField(fields[i]))
    requires AllUrlSafe(e)
    ensures forall p :: p in CalcPairs(stamp, duration, keyname, fields) + [("sig", e)] ==> Clean(p.0) && Clean(p.1) && '=' !in p.0
  {
    NamesClean();
    NameLiterals();
    TimeValueClean(stamp, duration);
    if fields != [] {
      JoinKeeps(fields, '+', KeyChar);
    }
    assert Clean(e);
  }

  // ----- layout -----

  /** Writing one more item after a comma extends the joined items. */
  lemma JoinOneMore(head: string, items: seq<string>, name: string, value: string)
    requires |items| >= 1
    ensures head + Join(items, ',') + ([','] + name) + value == head + Join(items + [name + value], ',')
  {
    JoinSnoc(items, name + value, ',');
    AppendAssoc(head + Join(items, ','), [','] + name, value);
    AppendAssoc(head, Join(items, ','), [','] + name + value);
    AppendAssoc([','], name, value);
    AppendAssoc(Join(items, ','), [','], name + value);
  }

  /** The literal pieces `calc` writes, cut where the items begin. */
  lemma PieceLiterals()
    ensures " time=" == " " + ("time" + "=")
    ensures ",key=" == [','] + ("key" + "=")
    ensures ",add=" == [','] + ("add" + "=")
    ensures ",sig=" == [','] + ("sig" + "=")
  {
  }

  /** Items of named values grow by one item per value. */
  lemma ItemsSnoc(pairs: seq<(string, string)>, p: (string, string))
    ensures Items(pairs + [p]) == Items(pairs) + [ItemText(p)]
  {
  }

  /** The `time` item follows the prefix and a space. */
  lemma TimeLayout(prefix: string, stamp: int, duration: int)
    ensures prefix + " time=" + PyFormat(stamp) + "+" + PyFormat(duration)
      == prefix + " " + Join(Items([("time", TimeValue(stamp, duration))]), ',')
  {
    PieceLiterals();
    var a := PyFormat(stamp);
    var b := PyFormat(duration);
    assert Join(Items([("time", TimeValue(stamp, duration))]), ',') == "time" + "=" + (a + "+" + b);
    AppendAssoc(prefix + " ", "time" + "=", a + "+" + b);
    AppendAssoc(prefix + " ", "time" + "=", a);
    AppendAssoc(prefix + " " + ("time" + "=") + a, "+", b);
    AppendAssoc(prefix + " " + ("time" + "="), a, "+");
    AppendAssoc(prefix + " " + ("time" + "="), a + "+", b);
  }

  /** The parameter text is the prefix, a space, and the items joined by commas. */
  lemma ParamsLayout(prefix: string, stamp: int, duration: int, keyname: string, fields: seq<string>)
    ensures CalcParams(prefix, stamp, duration, keyname, fields)
      == prefix + " " + Join(Items(CalcPairs(stamp, duration, keyname, fields)), ',')
  {
    PieceLiterals();
    var head := prefix + " ";
    var timed := [("time", TimeValue(stamp, duration))];
    var time := prefix + " time=" + PyFormat(stamp) + "+" + PyFormat(duration);
    TimeLayout(prefix, stamp, duration);
    var keyed := timed + (if keyname != [] then [("key", keyname)] else []);
    var keyedText := if keyname != [] then time + ",key=" + keyname else time;
    if keyname != [] {
      JoinOneMore(head, Items(timed), "key" + "=", keyname);
      ItemsSnoc(timed, ("key", keyname));
    } else {
      assert keyed == timed;
    }
    assert keyedText == head + Join(Items(keyed), ',');
    var pairs := CalcPairs(stamp, duration, keyname, fields);
    if fields != [] {
      JoinOneMore(head, Items(keyed), "add" + "=", Join(fields, '+'));
      ItemsSnoc(keyed, ("add", Join(fields, '+')));
    } else {
      assert pairs == keyed;
    }
  }

  /** The header `calc` writes is the prefix, a space, and all its items, the signature last, joined by commas. */
  lemma HeaderLayout(prefix: string, stamp: int, duration: int, keyname: string, fields: seq<string>, e: string)
    ensures CalcParams(prefix, stamp, duration, keyname, fields) + ",sig=" + e
      == prefix + " " + Join(Items(CalcPairs(stamp, duration, keyname, fields) + [("sig", e)]), ',')
  {
    PieceLiterals();
    var pairs := CalcPairs(stamp, duration, keyname, fields);
    ParamsLayout(prefix, stamp, duration, keyname, fields);
    JoinOneMore(prefix + " ", Items(pairs), "sig" + "=", e);
    ItemsSnoc(pairs, ("sig", e));
  }

  // ----- parse -----

  /** A clean item, its name free of `=`, is read back as its name and value. */
  lemma EntryOf(p: (string, string))
    requires Clean(ItemText(p)) && '=' !in p.0
    ensures Entry(ItemText(p)) == p
  {
    TrimNoop(ItemText(p), IsSpace);
    SplitOnceAt(p.0, '=', p.1);
  }

  /** `parse` reads the items of clean named values back as those named values. */
  lemma EntriesOfItems(pairs: seq<(string, string)>)
    requires |pairs| >= 1
    requires forall p :: p in pairs ==> Clean(p.0) && Clean(p.1) && '=' !in p.0
    ensures Entries(Join(Items(pairs), ',')) == pairs
  {
    var items := Items(pairs);
    forall s | s in items ensures ',' !in s {
      var i :| 0 <= i < |items| && items[i] == s;
      assert pairs[i] in pairs;
      ItemClean(pairs[i]);
    }
    SplitJoin(items, ',');
    forall i | 0 <= i < |pairs| ensures Entry(items[i]) == pairs[i] {
      assert pairs[i] in pairs;
      ItemClean(pairs[i]);
      EntryOf(pairs[i]);
    }
  }

  /** A dictionary filled from one more pair is the dictionary updated with it. */
  lemma ToDictSnoc(es: seq<(string, string)>, p: (string, string))
    ensures ToDict(es + [p]) == ToDict(es)[p.0 := p.1]
  {
    assert (es + [p])[..|es|] == es;
  }

  /** The dictionary of the named values `calc` writes: its time, its signed fields, its signature. */
  lemma DictOfPairs(stamp: int, duration: int, keyname: string, fields: seq<string>, e: string)
    ensures var d := ToDict(CalcPairs(stamp, duration, keyname, fields) + [("sig", e)]);
      && Get(d, "sig", "") == e
      && Get(d, "time", "0+0") == TimeValue(stamp, duration)
      && Get(d, "add", "-method+-path") == (if fields != [] then Join(fields, '+') else "-method+-path")
  {
    NameLiterals();
    var timed := [("time", TimeValue(stamp, duration))];
    var keyed := timed + (if keyname != [] then [("key", keyname)] else []);
    var pairs := CalcPairs(stamp, duration, keyname, fields);
    ToDictSnoc([], ("time", TimeValue(stamp, duration)));
    assert [] + timed == timed;
    if keyname != [] {
      ToDictSnoc(timed, ("key", keyname));
    } else {
      assert keyed == timed;
    }
    if fields != [] {
      ToDictSnoc(keyed, ("add", Join(fields, '+')));
    } else {
      assert pairs == keyed;
    }
    ToDictSnoc(pairs, ("sig", e));
  }

  /** `bytes.lower()` leaves a text without upper-case letters unchanged. */
  lemma LowerPlain(s: string)
    requires forall i :: 0 <= i < |s| ==> !('A' <= s[i] <= 'Z')
    ensures Lower(s) == s
  {
  }

  /**
   * `parse` of the header `calc` writes: the scheme matches, and the
   * dictionary holds the named values, the signature, and the raw header
   * under `b""`.
   */
  lemma ParseCalcHeader(headers: map<string, string>, prefix: string, stamp: int, duration: int, keyname: string,
                        fields: seq<string>, e: string)
    requires Authorization in headers
    requires headers[Authorization] == CalcParams(prefix, stamp, duration, keyname, fields) + ",sig=" + e
    requires PlainPrefix(prefix) && Clean(keyname) && (forall i :: 0 <= i < |fields| ==> PlainField(fields[i]))
    requires e != [] && AllUrlSafe(e)
    ensures Parsed(headers, prefix) == Ok(CalcDict(headers[Authorization], stamp, duration, keyname, fields, e))
  {
    var h := headers[Authorization];
    var pairs := CalcPairs(stamp, duration, keyname, fields) + [("sig", e)];
    var auth := Join(Items(pairs), ',');
    HeaderLayout(prefix, stamp, duration, keyname, fields, e);
    assert h == prefix + [' '] + auth;
    assert h[|h| - 1] == e[|e| - 1] && IsUrlSafe(e[|e| - 1]);
    TrimNoop(h, IsSpace);
    SplitOnceAt(prefix, ' ', auth);
    LowerPlain(prefix);
    PairsClean(stamp, duration, keyname, fields, e);
    EntriesOfItems(pairs);
  }

  /** The dictionary `parse` builds from the header `calc` writes. */
  function CalcDict(h: string, stamp: int, duration: int, keyname: string, fields: seq<string>, e: string): (d: map<string, string>)
    ensures [] in d && d[[]] == h
  {
    ToDict(CalcPairs(stamp, duration, keyname, fields) + [("sig", e)])[[] := h]
  }

  /** `verify` reads the signature back from that dictionary. */
  lemma CalcDictSig(h: string, stamp: int, duration: int, keyname: string, fields: seq<string>, e: string)
    ensures Get(CalcDict(h, stamp, duration, keyname, fields, e), "sig", "") == e
  {
    NameLiterals();
    DictOfPairs(stamp, duration, keyname, fields, e);
  }

  /** `verify` reads the window back from that dictionary. */
  lemma CalcDictTime(h: string, stamp: int, duration: int, keyname: string, fields: seq<string>, e: string)
    ensures TimeWindow(CalcDict(h, stamp, duration, keyname, fields, e)) == Ok((stamp, duration))
  {
    var pairs := CalcPairs(stamp, duration, keyname, fields) + [("sig", e)];
    var d := CalcDict(h, stamp, duration, keyname, fields, e);
    NameLiterals();
    DictOfPairs(stamp, duration, keyname, fields, e);
    assert Get(d, "time", "0+0") == Get(ToDict(pairs), "time", "0+0");
    TimeValueClean(stamp, duration);
    SplitOnceAt(PyFormat(stamp), '+', PyFormat(duration));
    assert Partition(Get(d, "time", "0+0"), '+') == (PyFormat(stamp), PyFormat(duration));
    PyIntFormat(stamp);
    PyIntFormat(duration);
  }

  /** The default `add` value splits into method and path. */
  lemma DefaultAddSplit()
    ensures Split("-method+-path", '+') == DefaultFields
  {
    assert "-method+-path" == "-method" + ['+'] + "-path";
    SplitTwo("-method", '+', "-path");
  }

  /** `verify` reads back the signed field names: the ones given, or method and path by default. */
  lemma CalcDictAdd(h: string, stamp: int, duration: int, keyname: string, fields: seq<string>, e: string)
    requires forall i :: 0 <= i < |fields| ==> PlainField(fields[i])
    ensures Split(Get(CalcDict(h, stamp, duration, keyname, fields, e), "add", "-method+-path"), '+') == SignedFields(fields)
  {
    var pairs := CalcPairs(stamp, duration, keyname, fields) + [("sig", e)];
    NameLiterals();
    DictOfPairs(stamp, duration, keyname, fields, e);
    var v := Get(CalcDict(h, stamp, duration, keyname, fields, e), "add", "-method+-path");
    assert v == Get(ToDict(pairs), "add", "-method+-path");
    if fields != [] {
      SplitJoin(fields, '+');
      assert Split(v, '+') == fields;
    } else {
      DefaultAddSplit();
      assert v == "-method+-path";
    }
  }

  /** The parameter text has no whitespace at either end. */
  lemma ParamsStripped(prefix: string, stamp: int, duration: int, keyname: string, fields: seq<string>)
    requires PlainPrefix(prefix) && Clean(keyname) && (forall i :: 0 <= i < |fields| ==> PlainField(fields[i]))
    ensures Strip(CalcParams(prefix, stamp, duration, keyname, fields)) == CalcParams(prefix, stamp, duration, keyname, fields)
  {
    var pairs := CalcPairs(stamp, duration, keyname, fields);
    var items := Items(pairs);
    ParamsLayout(prefix, stamp, duration, keyname, fields);
    PairsClean(stamp, duration, keyname, fields, []);
    forall i | 0 <= i < |items| ensures forall j :: 0 <= j < |items[i]| ==> NonSpace(items[i][j]) {
      assert pairs[i] in pairs + [("sig", [])];
      ItemClean(pairs[i]);
    }
    JoinKeeps(items, ',', NonSpace);
    var joined := Join(items, ',');
    assert |items[0]| > 0;
    assert |joined| >= |items[0]|;
    var p := prefix + " " + joined;
    assert p[|p| - 1] == joined[|joined| - 1];
    TrimNoop(p, IsSpace);
  }

  /** `calc`'s residual parameter text is what `verify` strips the signature item off to. */
  lemma ResidualHeader(prefix: string, stamp: int, duration: int, keyname: string, fields: seq<string>, e: string)
    requires PlainPrefix(prefix) && Clean(keyname) && (forall i :: 0 <= i < |fields| ==> PlainField(fields[i]))
    requires !Occurs(CalcParams(prefix, stamp, duration, keyname, fields), "sig=")
    requires e != [] && ' ' !in e && ',' !in e
    ensures var params := CalcParams(prefix, stamp, duration, keyname, fields);
      Strip(SubSig(params + ",sig=" + e, 0)) == params
  {
    var params := CalcParams(prefix, stamp, duration, keyname, fields);
    SubSigSigned(params, e, 0);
    assert params[0..] == params;
    ParamsStripped(prefix, stamp, duration, keyname, fields);
  }

  /**
   * The signature text `calc` writes is not empty, holds neither space nor
   * comma, and `verify`'s padding fix restores the padded encoding.
   */
  lemma SignatureText(sig: seq<byte>)
    requires sig != []
    ensures var e := StripPadding(PaddedEncode(sig));
      e != [] && ' ' !in e && ',' !in e && PadFix(e) == PaddedEncode(sig)
  {
    StripPaddingEncode(sig);
    EncodeLength(sig);
    PadFixEncode(sig);
    var e := Encode(sig);
    assert !IsUrlSafe(' ') && !IsUrlSafe(',');
    assert forall i :: 0 <= i < |e| ==> IsUrlSafe(e[i]);
  }

  /**
   * When every field reads on the receiving side as `calc` took it, the
   * values `verify` rebuilds are the ones `calc` signed.
   */
  lemma {:induction false} FieldsAgree(names: seq<string>, vpath: seq<string>, headers: map<string, string>,
                                       verb: string, path: string, others: map<string, string>)
    requires forall i :: 0 <= i < |names| ==> VerifyField(names[i], vpath, headers) == Some(CalcField(names[i], verb, path, others))
    ensures VerifyFields(names, vpath, headers) == Some(CalcValues(names, verb, path, others))
    decreases |names|
  {
    if names != [] {
      var init := names[..|names| - 1];
      assert forall i :: 0 <= i < |init| ==> init[i] == names[i];
      FieldsAgree(init, vpath, headers, verb, path, others);
    }
  }

  /**
   * What `verify` reads from the header `calc` writes: `parse` succeeds,
   * the signature decodes to the padded encoding, the window is the one
   * written, the signed field names are the ones given (or method and
   * path), and the residual header is the parameter text.
   */
  lemma CalcHeaderReads(headers: map<string, string>, prefix: string, stamp: int, duration: int, keyname: string,
                        fields: seq<string>, sig: seq<byte>)
    requires PlainPrefix(prefix) && Clean(keyname) && (forall i :: 0 <= i < |fields| ==> PlainField(fields[i]))
    requires !Occurs(CalcParams(prefix, stamp, duration, keyname, fields), "sig=")
    requires sig != []
    requires Authorization in headers
    requires headers[Authorization] == CalcParams(prefix, stamp, duration, keyname, fields) + ",sig=" + StripPadding(PaddedEncode(sig))
    ensures Parsed(headers, prefix).Ok?
    ensures var d := Parsed(headers, prefix).value;
      && PadFix(Get(d, "sig", "")) == PaddedEncode(sig)
      && TimeWindow(d) == Ok((stamp, duration))
      && Split(Get(d, "add", "-method+-path"), '+') == SignedFields(fields)
      && [] in d && Strip(SubSig(d[[]], 0)) == CalcParams(prefix, stamp, duration, keyname, fields)
  {
    var e := StripPadding(PaddedEncode(sig));
    var h := headers[Authorization];
    SignatureText(sig);
    StripPaddingEncode(sig);
    ParseCalcHeader(headers, prefix, stamp, duration, keyname, fields, e);
    CalcDictSig(h, stamp, duration, keyname, fields, e);
    CalcDictTime(h, stamp, duration, keyname, fields, e);
    CalcDictAdd(h, stamp, duration, keyname, fields, e);
    ResidualHeader(prefix, stamp, duration, keyname, fields, e);
  }

  /**
   * `calc`, then `verify`: a request whose `authorization` header is the
   * one `calc` wrote, whose signed fields and body read on the receiving
   * side as `calc` took them, checked at a time inside the window and with
   * a key that accepts the signer's signatures, is accepted, and `verify`
   * returns the request time. This needs a lower-case prefix, a key id and
   * field names without whitespace, comma or `+`, and a parameter text in
   * which `sig=` does not already stand.
   */
  lemma CalcThenVerify<K>(signer: string -> seq<byte>, verb: string, calcPath: string, keyname: string, calcBody: string,
                          others: map<string, string>, fields: seq<string>, timestamp: int, duration: int,
                          prefix: string, clock: int,
                          headers: map<string, string>, path: seq<string>, body: Option<string>, keys: seq<Option<K>>,
                          date: int, later: int, b64decode: string -> Option<seq<byte>>,
                          verifies: (K, string, seq<byte>) -> bool, vk: K)
    requires PlainPrefix(prefix) && Clean(keyname) && (forall i :: 0 <= i < |fields| ==> PlainField(fields[i]))
    requires !Occurs(CalcParams(prefix, Stamp(timestamp, clock), duration, keyname, fields), "sig=")
    requires Authorization in headers
    requires headers[Authorization]
      == CalcHeader(signer, verb, calcPath, keyname, calcBody, others, fields, timestamp, duration, prefix, clock)
    requires forall i :: 0 <= i < |SignedFields(fields)| ==>
      VerifyField(SignedFields(fields)[i], path, headers) == Some(CalcField(SignedFields(fields)[i], verb, calcPath, others))
    requires body.GetOr("") == calcBody
    requires var now := if date != 0 then date else later;
      Stamp(timestamp, clock) - 1 <= now < Stamp(timestamp, clock) + duration
    requires forall m :: signer(m) != []
    requires forall b :: b64decode(PaddedEncode(b)) == Some(b)
    requires Some(vk) in keys && forall m :: verifies(vk, m, signer(m))
    ensures PyVerified(headers, path, body, keys, map[], date, later, prefix, b64decode, verifies)
      == Ok(if date != 0 then date else later)
  {
    var stamp := Stamp(timestamp, clock);
    var now := if date != 0 then date else later;
    var params := CalcParams(prefix, stamp, duration, keyname, fields);
    var message := Join(CalcLines(params, verb, calcPath, calcBody, others, fields), '\n');
    var sig := signer(message);
    assert headers[Authorization] == params + ",sig=" + StripPadding(PaddedEncode(sig));
    CalcHeaderReads(headers, prefix, stamp, duration, keyname, fields, sig);
    FieldsAgree(SignedFields(fields), path, headers, verb, calcPath, others);
    var k :| 0 <= k < |keys| && keys[k] == Some(vk);
    assert [params] + CalcValues(SignedFields(fields), verb, calcPath, others) + [body.GetOr("")]
      == CalcLines(params, verb, calcPath, calcBody, others, fields);
    assert verifies(keys[k].value, message, sig);
    Accepted(headers, path, body, keys, map[], date, later, prefix, b64decode, verifies);
  }
}
