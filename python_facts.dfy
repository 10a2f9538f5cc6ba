/**
 * Properties of the Python implementation (python/ap-auth.py): the padding
 * `calc` strips is what `verify` puts back, `%d` and `int()` are inverse,
 * `parse` keeps the last value of a repeated key and always stores the raw
 * header under `b""`, and `verify` makes its checks in a fixed order.
 */
module PyFacts {
  import opened Wrappers
  import opened Seqs
  import opened Decimal
  import opened Bytes
  import opened Base64
  import opened PyAuth

  /** `rstrip(b"=")` of a padded URL-safe encoding leaves the unpadded encoding. */
  lemma StripPaddingEncode(b: seq<byte>)
    ensures StripPadding(PaddedEncode(b)) == Encode(b)
  {
    var e := Encode(b);
    var pad := seq((4 - |e| % 4) % 4, _ => '=');
    if e != [] {
      assert IsUrlSafe(e[|e| - 1]);
    }
    TrimEndDropsTrailing(e, pad, IsPad);
  }

  /** An unpadded encoding never has a length of the form 4k + 1. */
  lemma EncodeLengthMod(b: seq<byte>)
    ensures |Encode(b)| % 4 != 1
  {
    EncodeLength(b);
    var n := |b|;
    var q := n / 3;
    if n % 3 == 0 {
      assert (4 * n + 2) / 3 == 4 * q;
    } else if n % 3 == 1 {
      assert (4 * n + 2) / 3 == 4 * q + 2;
    } else {
      assert (4 * n + 2) / 3 == 4 * q + 3;
    }
  }

  /** Outside the `A==` case, the padding fix appends `=` up to a multiple of four. */
  lemma PadFixPads(sig: string)
    requires |sig| % 4 != 1
    ensures PadFix(sig) == sig + seq((4 - |sig| % 4) % 4, _ => '=')
  {
    var m := |sig| % 4;
    if m == 2 {
      assert "A=="[1..] == seq(2, _ => '=');
    } else if m == 3 {
      assert "A=="[2..] == seq(1, _ => '=');
    } else {
      assert sig + seq(0, _ => '=') == sig;
    }
  }

  /** The padding fix of `verify` restores exactly the padding `calc` stripped. */
  lemma PadFixEncode(b: seq<byte>)
    ensures PadFix(StripPadding(PaddedEncode(b))) == PaddedEncode(b)
  {
    StripPaddingEncode(b);
    EncodeLengthMod(b);
    PadFixPads(Encode(b));
  }

  /** The `A==` branch of the padding fix: a signature of length 4k + 1 gets a whole `A==` appended. */
  lemma PadFixOddLength(sig: string)
    requires |sig| % 4 == 1
    ensures PadFix(sig) == sig + "A=="
  {
  }

  /** `int()` reads back what `%d` writes, for every integer. */
  lemma PyIntFormat(n: int)
    ensures PyInt(PyFormat(n)) == Some(n)
  {
    var t := PyFormat(n);
    TrimNoop(t, IsSpace);
    var digits := Format(if n < 0 then -n else n);
    if n < 0 {
      assert t[1..] == digits;
    } else {
      assert IsDigit(t[0]);
    }
  }

  /** A key is in `parse`'s dictionary exactly when some pair carries it. */
  lemma {:induction false} ToDictKeys(es: seq<(string, string)>, k: string)
    ensures k in ToDict(es) <==> exists i :: 0 <= i < |es| && es[i].0 == k
  {
    if es != [] {
      var init := es[..|es| - 1];
      ToDictKeys(init, k);
      if k in ToDict(es) && k != es[|es| - 1].0 {
        var i :| 0 <= i < |init| && init[i].0 == k;
        assert es[i] == init[i];
      }
      if exists i :: 0 <= i < |es| && es[i].0 == k {
        var i :| 0 <= i < |es| && es[i].0 == k;
        if i < |init| {
          assert init[i] == es[i];
        }
      }
    }
  }

  /** A repeated key keeps the value of its last pair. */
  lemma {:induction false} ToDictLast(es: seq<(string, string)>, i: nat)
    requires i < |es|
    requires forall j :: i < j < |es| ==> es[j].0 != es[i].0
    ensures es[i].0 in ToDict(es) && ToDict(es)[es[i].0] == es[i].1
  {
    if i < |es| - 1 {
      var init := es[..|es| - 1];
      assert init[i] == es[i];
      forall j | i < j < |init| ensures init[j].0 != init[i].0 {
        assert init[j] == es[j];
      }
      ToDictLast(init, i);
    }
  }

  /**
   * `parse` fails exactly when the header is missing or its scheme, in
   * lower case, differs from the prefix; on success the raw header sits
   * under `b""`, overriding an empty item.
   */
  lemma ParsedOutcome(headers: map<string, string>, prefix: string)
    ensures var r := Parsed(headers, prefix);
      && (r == Err(AuthorizationMissing) <==> Authorization !in headers)
      && (r == Err(UnsupportedMethod) <==>
            Authorization in headers && Lower(Partition(Strip(headers[Authorization]), ' ').0) != prefix)
      && (r.Err? ==> r.error == AuthorizationMissing || r.error == UnsupportedMethod)
      && (r.Ok? ==> [] in r.value && r.value[[]] == headers[Authorization])
  {
  }

  /** The dictionary `parse` returns: one entry per item, then the raw header under `b""`. */
  lemma ParsedDict(headers: map<string, string>, prefix: string)
    requires Parsed(headers, prefix).Ok?
    ensures Parsed(headers, prefix).value
      == ToDict(Entries(Partition(Strip(headers[Authorization]), ' ').1))[[] := headers[Authorization]]
  {
  }

  /** A key is in the dictionary built from a parameter list exactly when some item carries it. */
  lemma EntriesKeys(auth: string, k: string)
    ensures k in ToDict(Entries(auth)) <==> exists i :: 0 <= i < |Split(auth, ',')| && Entry(Split(auth, ',')[i]).0 == k
  {
    var items := Split(auth, ',');
    var es := Entries(auth);
    ToDictKeys(es, k);
    if k in ToDict(es) {
      var i :| 0 <= i < |es| && es[i].0 == k;
      assert 0 <= i < |items| && Entry(items[i]).0 == k;
      assert exists j :: 0 <= j < |items| && Entry(items[j]).0 == k;
    } else {
      forall i | 0 <= i < |items| ensures Entry(items[i]).0 != k {
        assert es[i] == Entry(items[i]);
      }
      assert !exists j :: 0 <= j < |items| && Entry(items[j]).0 == k;
    }
    assert items == Split(auth, ',') && es == Entries(auth);
    assert k in ToDict(Entries(auth)) <==> exists j :: 0 <= j < |Split(auth, ',')| && Entry(Split(auth, ',')[j]).0 == k;
  }

  /**
   * A non-empty key is in the dictionary of a parsed header exactly when
   * some item, stripped and cut at its first `=`, carries it.
   */
  lemma ParsedKeys(headers: map<string, string>, prefix: string, k: string)
    requires Parsed(headers, prefix).Ok? && k != []
    ensures var items := Split(Partition(Strip(headers[Authorization]), ' ').1, ',');
      k in Parsed(headers, prefix).value <==> exists i :: 0 <= i < |items| && Entry(items[i]).0 == k
  {
    ParsedDict(headers, prefix);
    EntriesKeys(Partition(Strip(headers[Authorization]), ' ').1, k);
  }

  /** The value of a repeated non-empty key is that of its last item. */
  lemma ParsedLastWins(headers: map<string, string>, prefix: string, i: nat)
    requires Parsed(headers, prefix).Ok?
    requires var items := Split(Partition(Strip(headers[Authorization]), ' ').1, ',');
      && i < |items| && Entry(items[i]).0 != []
      && forall j :: i < j < |items| ==> Entry(items[j]).0 != Entry(items[i]).0
    ensures var item := Split(Partition(Strip(headers[Authorization]), ' ').1, ',')[i];
      Entry(item).0 in Parsed(headers, prefix).value && Parsed(headers, prefix).value[Entry(item).0] == Entry(item).1
  {
    var es := Entries(Partition(Strip(headers[Authorization]), ' ').1);
    ParsedDict(headers, prefix);
    ToDictLast(es, i);
  }

  /** An item without `=` is stored with an empty value. */
  lemma ItemWithoutValue(item: string)
    requires '=' !in Strip(item)
    ensures Entry(item) == (Strip(item), [])
  {
  }

  /**
   * A prefix with an upper-case letter is never matched: `parse` compares
   * the lower-cased scheme with the prefix as given.
   */
  lemma UppercasePrefixNeverMatches(headers: map<string, string>, prefix: string, i: nat)
    requires i < |prefix| && 'A' <= prefix[i] <= 'Z'
    ensures Parsed(headers, prefix).Err?
  {
    if Authorization in headers {
      LowerHasNoUpper(Partition(Strip(headers[Authorization]), ' ').0);
    }
  }

  /** `bytes.lower()` leaves no letter from `A` to `Z`. */
  lemma LowerHasNoUpper(s: string)
    ensures forall i :: 0 <= i < |s| ==> !('A' <= Lower(s)[i] <= 'Z')
  {
  }

  /** The signature is decoded before the time is read: a bad signature hides a bad time. */
  lemma DecodeBeforeTime<K>(auths: map<string, string>, headers: map<string, string>, path: seq<string>, body: Option<string>,
                            keys: seq<Option<K>>, date: int, clock: int,
                            b64decode: string -> Option<seq<byte>>, verifies: (K, string, seq<byte>) -> bool)
    ensures var r := AuthsChecked(auths, headers, path, body, keys, date, clock, b64decode, verifies);
      var decoded := b64decode(PadFix(Get(auths, "sig", "")));
      && (r == Err(Base64Invalid) <==> decoded.None?)
      && (r == Err(InvalidTime) <==> decoded.Some? && TimeWindow(auths).Err?)
  {
    DecodeChecked(auths, headers, path, body, keys, date, clock, b64decode, verifies);
    TimeParsed(auths, headers, path, body, keys, date, clock, b64decode, verifies);
  }

  /** "base64 invalid" exactly when the padded signature does not decode. */
  lemma DecodeChecked<K>(auths: map<string, string>, headers: map<string, string>, path: seq<string>, body: Option<string>,
                         keys: seq<Option<K>>, date: int, clock: int,
                         b64decode: string -> Option<seq<byte>>, verifies: (K, string, seq<byte>) -> bool)
    ensures AuthsChecked(auths, headers, path, body, keys, date, clock, b64decode, verifies) == Err(Base64Invalid)
      <==> b64decode(PadFix(Get(auths, "sig", ""))).None?
  {
  }

  /** "invalid time" exactly when the signature decodes and the time item does not read as two integers. */
  lemma TimeParsed<K>(auths: map<string, string>, headers: map<string, string>, path: seq<string>, body: Option<string>,
                      keys: seq<Option<K>>, date: int, clock: int,
                      b64decode: string -> Option<seq<byte>>, verifies: (K, string, seq<byte>) -> bool)
    ensures AuthsChecked(auths, headers, path, body, keys, date, clock, b64decode, verifies) == Err(InvalidTime)
      <==> b64decode(PadFix(Get(auths, "sig", ""))).Some? && TimeWindow(auths).Err?
  {
  }

  /**
   * The window of `verify`: a request more than one second before the
   * start is early, one at or after the start plus the duration is expired.
   */
  lemma WindowChecked<K>(auths: map<string, string>, headers: map<string, string>, path: seq<string>, body: Option<string>,
                         keys: seq<Option<K>>, date: int, clock: int,
                         b64decode: string -> Option<seq<byte>>, verifies: (K, string, seq<byte>) -> bool)
    requires b64decode(PadFix(Get(auths, "sig", ""))).Some? && TimeWindow(auths).Ok?
    ensures var r := AuthsChecked(auths, headers, path, body, keys, date, clock, b64decode, verifies);
      var (start, duration) := TimeWindow(auths).value;
      var now := if date != 0 then date else clock;
      && (r == Err(Early) <==> now < start - 1)
      && (r == Err(Expired) <==> start - 1 <= now && now >= start + duration)
      && (r.Ok? ==> start - 1 <= now < start + duration && r.value == now)
  {
  }

  /**
   * `verify` succeeds exactly when the dictionary is found, every check
   * passes and some non-empty key accepts the rebuilt message; keys that are
   * empty are never consulted.
   */
  lemma Accepted<K>(headers: map<string, string>, path: seq<string>, body: Option<string>, keys: seq<Option<K>>,
                    given: map<string, string>, date: int, clock: int, prefix: string,
                    b64decode: string -> Option<seq<byte>>, verifies: (K, string, seq<byte>) -> bool)
    ensures var r := PyVerified(headers, path, body, keys, given, date, clock, prefix, b64decode, verifies);
      r.Ok? <==>
        && Auths(given, headers, prefix).Ok?
        && var auths := Auths(given, headers, prefix).value;
           var decoded := b64decode(PadFix(Get(auths, "sig", "")));
           var w := TimeWindow(auths);
           var now := if date != 0 then date else clock;
           var fields := VerifyFields(Split(Get(auths, "add", "-method+-path"), '+'), path, headers);
           && decoded.Some? && w.Ok? && w.value.0 - 1 <= now < w.value.0 + w.value.1
           && [] in auths && fields.Some?
           && AnyKeyVerifies(keys, Join([Strip(SubSig(auths[[]], 0))] + fields.value + [body.GetOr("")], '\n'),
                             decoded.value, verifies)
    ensures var r := PyVerified(headers, path, body, keys, given, date, clock, prefix, b64decode, verifies);
      r.Ok? ==> r.value == if date != 0 then date else clock
    ensures (forall i :: 0 <= i < |keys| ==> keys[i].None?) ==>
      PyVerified(headers, path, body, keys, given, date, clock, prefix, b64decode, verifies).Err?
  {
  }

  /** No match of the signature pattern starts inside the parameter text when `sig=` does not stand in it. */
  lemma NoSigMatch(params: string, e: string, p: nat)
    requires p < |params| && !Occurs(params, "sig=")
    ensures SigMatch(params + ",sig=" + e, p).None?
  {
    var s := params + ",sig=" + e;
    var n := |params|;
    var q := if s[p] == ',' then p + 1 else p;
    var k := SkipSpace(s, q);
    assert s[n] == ',' && !IsSpace(s[n]);
    assert k <= n;
    if k + 4 <= n {
      assert s[k..k + 4] == params[k..k + 4];
      assert !OccursAt(params, "sig=", k);
    } else if k + 4 < |s| {
      assert s[k..k + 4][n - k] == ',';
    }
  }

  /** The signature pattern matches `,sig=` and the whole signature after the parameter text. */
  lemma SigMatchEnd(params: string, e: string)
    requires e != [] && ' ' !in e && ',' !in e
    ensures SigMatch(params + ",sig=" + e, |params|) == Some(|params| + 5 + |e|)
  {
    var s := params + ",sig=" + e;
    var n := |params|;
    assert s[n] == ',' && s[n + 1] == 's';
    assert s[n + 1..n + 5] == "sig=";
    assert s[n + 5..] == e;
    assert forall j :: n + 5 <= j < |s| ==> s[j] == e[j - n - 5];
  }

  /**
   * `re.sub` deletes exactly the `,sig=` item `calc` appends, when `sig=`
   * does not stand in the parameter text and the signature holds no space
   * or comma.
   */
  lemma {:induction false} SubSigSigned(params: string, e: string, p: nat)
    requires p <= |params| && !Occurs(params, "sig=")
    requires e != [] && ' ' !in e && ',' !in e
    ensures SubSig(params + ",sig=" + e, p) == params[p..]
    decreases |params| - p
  {
    var s := params + ",sig=" + e;
    if p == |params| {
      SigMatchEnd(params, e);
      assert SubSig(s, |s|) == [];
    } else {
      NoSigMatch(params, e, p);
      SubSigSigned(params, e, p + 1);
      assert params[p..] == [params[p]] + params[p + 1..];
    }
  }
}
