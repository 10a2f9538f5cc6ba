/**
 * The Python implementation (python/ap-auth.py): `calc` signs a request and
 * returns its headers with `authorization` set, `parse` reads the
 * `authorization` header into a dictionary, and `verify` checks a request.
 *
 * Python `bytes` values are texts here whose characters stand for the bytes
 * (codes below 256); dictionaries are maps. The signing key, the clock,
 * `base64.b64decode` and the verifying keys are parameters: `signer` gives
 * the 64 signature bytes of a message, `clock` is `time.time()` rounded
 * down, `b64decode` is the decoder `verify` calls, and `verifies` says
 * whether a key accepts a signature over a message.
 */
module PyAuth {
  import opened Wrappers
  import opened Seqs
  import opened Decimal
  import opened Bytes
  import opened Base64

  /** The whitespace of `bytes.strip` and of `\s` in a bytes pattern: space, tab, LF, VT, FF, CR. */
  predicate IsSpace(c: char) {
    c == ' ' || ('\t' <= c <= '\r')
  }

  /** `bytes.strip()`. */
  function Strip(s: string): string {
    Trim(s, IsSpace)
  }

  /** `bytes.lower()`: only `A` to `Z` change. */
  function Lower(s: string): (r: string)
    ensures |r| == |s|
  {
    seq(|s|, i requires 0 <= i < |s| => if 'A' <= s[i] <= 'Z' then (s[i] as int + 32) as char else s[i])
  }

  /** `dict.get(key, default)`. */
  function Get(d: map<string, string>, key: string, default: string): string {
    if key in d then d[key] else default
  }

  /** `%d` of an integer. */
  function PyFormat(n: int): (r: string)
    ensures r != [] && !IsSpace(r[0]) && !IsSpace(r[|r| - 1])
  {
    var digits := Format(if n < 0 then -n else n);
    assert IsDigit(digits[0]) && IsDigit(digits[|digits| - 1]);
    if n < 0 then "-" + digits else digits
  }

  /** `int()` of a byte string: surrounding whitespace, an optional sign, then one or more digits. */
  function PyInt(s: string): Option<int> {
    var t := Strip(s);
    var signed := |t| > 0 && (t[0] == '+' || t[0] == '-');
    var digits := if signed then t[1..] else t;
    if digits == [] || !AllDigits(digits) then None
    else
      var v: int := Value(digits);
      if signed && t[0] == '-' then Some(-v) else Some(v)
  }

  const Authorization: string := "authorization"

  /** The fields signed when the caller names none. */
  const DefaultFields: seq<string> := ["-method", "-path"]

  // ----- calc -----

  /** The parameter text `calc` writes: prefix, window, then `key` and `add` when given. */
  function CalcParams(prefix: string, stamp: int, duration: int, keyname: string, fields: seq<string>): string {
    var time := prefix + " time=" + PyFormat(stamp) + "+" + PyFormat(duration);
    var keyed := if keyname != [] then time + ",key=" + keyname else time;
    if fields != [] then keyed + ",add=" + Join(fields, '+') else keyed
  }

  /** The value `calc` signs for one field. */
  function CalcField(name: string, verb: string, path: string, others: map<string, string>): string {
    if name == "-method" then verb
    else if name == "-path" then path
    else Get(others, name, "")
  }

  /** The fields `calc` signs: the ones given, or method and path. */
  function SignedFields(fields: seq<string>): seq<string> {
    if fields != [] then fields else DefaultFields
  }

  /** The values `calc` signs for the fields, in order. */
  function CalcValues(names: seq<string>, verb: string, path: string, others: map<string, string>): (r: seq<string>)
    ensures |r| == |names|
    ensures forall i :: 0 <= i < |names| ==> r[i] == CalcField(names[i], verb, path, others)
  {
    if names == [] then []
    else CalcValues(names[..|names| - 1], verb, path, others) + [CalcField(names[|names| - 1], verb, path, others)]
  }

  /** The lines of `calc`'s message: the parameter text, one value per field, then the body. */
  function CalcLines(params: string, verb: string, path: string, body: string, others: map<string, string>,
                     fields: seq<string>): seq<string>
  {
    [params] + CalcValues(SignedFields(fields), verb, path, others) + [body]
  }

  /** The window start `calc` writes: the timestamp, or the clock when the timestamp is 0. */
  function Stamp(timestamp: int, clock: int): int {
    if timestamp != 0 then timestamp else clock
  }

  /** The base64 padding symbol. */
  predicate IsPad(c: char) {
    c == '='
  }

  /** `rstrip(b"=")`. */
  function StripPadding(s: string): string {
    TrimEnd(s, IsPad)
  }

  /** The `authorization` value `calc` writes: the parameters, `,sig=`, and the signature without its padding. */
  function CalcHeader(signer: string -> seq<byte>, verb: string, path: string, keyname: string, body: string,
                      others: map<string, string>, fields: seq<string>, timestamp: int, duration: int,
                      prefix: string, clock: int): string
  {
    var params := CalcParams(prefix, Stamp(timestamp, clock), duration, keyname, fields);
    var message := Join(CalcLines(params, verb, path, body, others, fields), '\n');
    params + ",sig=" + StripPadding(PaddedEncode(signer(message)))
  }

  /** `calc`: builds the parameter text, collects the message lines, signs, and copies the headers. */
  method Calc(signer: string -> seq<byte>, verb: string, path: string, keyname: string, body: string,
              others: map<string, string>, fields: seq<string>, timestamp: int, duration: int,
              prefix: string, clock: int)
    returns (res: map<string, string>)
    ensures res == others[Authorization := CalcHeader(signer, verb, path, keyname, body, others, fields, timestamp, duration, prefix, clock)]
  {
    var authorization := prefix + " time=" + PyFormat(if timestamp != 0 then timestamp else clock)
      + "+" + PyFormat(duration);
    if keyname != [] {
      authorization := authorization + ",key=" + keyname;
    }
    if fields != [] {
      authorization := authorization + ",add=" + Join(fields, '+');
    }
    assert authorization == CalcParams(prefix, Stamp(timestamp, clock), duration, keyname, fields);
    var message := CalcMessage(authorization, verb, path, body, others, fields);
    var signature := PaddedEncode(signer(Join(message, '\n')));
    ghost var params := CalcParams(prefix, Stamp(timestamp, clock), duration, keyname, fields);
    assert Join(message, '\n') == Join(CalcLines(params, verb, path, body, others, fields), '\n');
    var value := authorization + ",sig=" + StripPadding(signature);
    assert value == CalcHeader(signer, verb, path, keyname, body, others, fields, timestamp, duration, prefix, clock);
    res := others;
    res := res[Authorization := value];
  }

  /** The message loop of `calc`: the parameter text, one line per field, then the body. */
  method CalcMessage(authorization: string, verb: string, path: string, body: string, others: map<string, string>,
                     fields: seq<string>)
    returns (message: seq<string>)
    ensures message == CalcLines(authorization, verb, path, body, others, fields)
  {
    var names := if fields != [] then fields else DefaultFields;
    assert names == SignedFields(fields);
    message := [authorization];
    for i := 0 to |names|
      invariant message == [authorization] + CalcValues(names[..i], verb, path, others)
    {
      assert names[..i + 1][..i] == names[..i];
      ghost var before := message;
      ghost var field := CalcField(names[i], verb, path, others);
      assert CalcValues(names[..i + 1], verb, path, others) == CalcValues(names[..i], verb, path, others) + [field];
      if names[i] == "-method" {
        message := message + [verb];
      } else if names[i] == "-path" {
        message := message + [path];
      } else {
        message := message + [Get(others, names[i], "")];
      }
      assert message == before + [field];
      AppendAssoc([authorization], CalcValues(names[..i], verb, path, others), [field]);
    }
    assert names[..|names|] == names;
    message := message + [body];
  }

  // ----- parse -----

  /** Why `parse` or `verify` raises. */
  datatype PyError =
    | AuthorizationMissing      // "authorization missing"
    | UnsupportedMethod         // "unsupported authorization method"
    | Base64Invalid             // `b64decode` raises
    | InvalidTime               // "invalid time"
    | Early                     // "early"
    | Expired                   // "expired"
    | RawHeaderMissing          // a caller's dictionary without the raw header under `b""`
    | PathEmpty                 // `path[0]` of an empty path
    | InvalidSignature          // "invalid signature"

  /** One item of the parameter list, stripped and cut at its first `=` (an item without `=` maps to `b""`). */
  function Entry(item: string): (string, string) {
    Partition(Strip(item), '=')
  }

  /** A dictionary filled from pairs in order: a later pair overwrites an earlier one with the same key. */
  function ToDict(es: seq<(string, string)>): map<string, string> {
    if es == [] then map[]
    else ToDict(es[..|es| - 1])[es[|es| - 1].0 := es[|es| - 1].1]
  }

  /** The pairs of the items of a parameter list. */
  function Entries(auth: string): (r: seq<(string, string)>)
    ensures |r| == |Split(auth, ',')|
    ensures forall i :: 0 <= i < |r| ==> r[i] == Entry(Split(auth, ',')[i])
  {
    var items := Split(auth, ',');
    seq(|items|, i requires 0 <= i < |items| => Entry(items[i]))
  }

  /** `parse`: the scheme check, then one entry per item, then the raw header under `b""`. */
  function Parsed(headers: map<string, string>, prefix: string): Result<map<string, string>, PyError> {
    if Authorization !in headers then Err(AuthorizationMissing)
    else
      var (scheme, auth) := Partition(Strip(headers[Authorization]), ' ');
      if Lower(scheme) != prefix then Err(UnsupportedMethod)
      else Ok(ToDict(Entries(auth))[[] := headers[Authorization]])
  }

  /** `parse`: fills the dictionary item by item. */
  method Parse(headers: map<string, string>, prefix: string) returns (r: Result<map<string, string>, PyError>)
    ensures r == Parsed(headers, prefix)
  {
    if Authorization !in headers {
      return Err(AuthorizationMissing);
    }
    var (scheme, auth) := Partition(Strip(headers[Authorization]), ' ');
    if Lower(scheme) != prefix {
      return Err(UnsupportedMethod);
    }
    var auths: map<string, string> := map[];
    var items := Split(auth, ',');
    ghost var es := Entries(auth);
    for i := 0 to |items|
      invariant auths == ToDict(es[..i])
    {
      var (key, value) := Partition(Strip(items[i]), '=');
      assert es[..i + 1][..i] == es[..i];
      auths := auths[key := value];
    }
    assert es[..|items|] == es;
    auths := auths[[] := headers[Authorization]];
    return Ok(auths);
  }

  // ----- verify -----

  /** The padding fix: `A==`, `==` or `=` for a length of the form 4k + 1, 4k + 2 or 4k + 3. */
  function PadFix(sig: string): (r: string)
    ensures |r| % 4 == 0 && |sig| <= |r| < |sig| + 4 && r[..|sig|] == sig
  {
    var m := |sig| % 4;
    if m == 0 then sig
    else
      var q := |sig| / 4;
      assert |sig| == 4 * q + m;
      var r := sig + "A=="[m - 1..];
      assert |r| == 4 * (q + 1);
      r
  }

  /** The `time` parameter (`0+0` when absent) cut at its first `+`, each part read by `int()`. */
  function TimeWindow(auths: map<string, string>): (r: Result<(int, int), PyError>)
    ensures r.Err? <==> PyInt(Partition(Get(auths, "time", "0+0"), '+').0).None? || PyInt(Partition(Get(auths, "time", "0+0"), '+').1).None?
    ensures r.Err? ==> r.error == InvalidTime
  {
    var (start, duration) := Partition(Get(auths, "time", "0+0"), '+');
    match PyInt(start)
    case None => Err(InvalidTime)
    case Some(s) =>
      match PyInt(duration)
      case None => Err(InvalidTime)
      case Some(d) => Ok((s, d))
  }

  /** The end of the first run of whitespace from `q`. */
  function SkipSpace(s: string, q: nat): (r: nat)
    requires q <= |s|
    ensures q <= r <= |s|
    ensures forall j :: q <= j < r ==> IsSpace(s[j])
    ensures r < |s| ==> !IsSpace(s[r])
    decreases |s| - q
  {
    if q < |s| && IsSpace(s[q]) then SkipSpace(s, q + 1) else q
  }

  /** The end of the first run from `q` of bytes other than space and comma. */
  function SkipValue(s: string, q: nat): (r: nat)
    requires q <= |s|
    ensures q <= r <= |s|
    ensures forall j :: q <= j < r ==> s[j] != ' ' && s[j] != ','
    ensures r < |s| ==> s[r] == ' ' || s[r] == ','
    decreases |s| - q
  {
    if q < |s| && s[q] != ' ' && s[q] != ',' then SkipValue(s, q + 1) else q
  }

  /**
   * The end of the match of `,?\s*sig=[^ ,]+` that starts at `p`, if one
   * does. Neither backtracking choice can help: without the comma the
   * match would have to start with `sig=` at a comma, and giving back
   * whitespace would put `sig=` at a space.
   */
  function SigMatch(s: string, p: nat): (r: Option<nat>)
    requires p <= |s|
    ensures r.Some? ==> p < r.value <= |s|
  {
    var q := if p < |s| && s[p] == ',' then p + 1 else p;
    var k := SkipSpace(s, q);
    if k + 4 < |s| && s[k..k + 4] == "sig=" && s[k + 4] != ' ' && s[k + 4] != ',' then Some(SkipValue(s, k + 5))
    else None
  }

  /** `re.sub(b",?\s*sig=[^ ,]+", b"", s)` from position `p`: every match deleted, left to right. */
  function SubSig(s: string, p: nat): string
    requires p <= |s|
    decreases |s| - p
  {
    if p == |s| then []
    else match SigMatch(s, p)
      case Some(e) => SubSig(s, e)
      case None => [s[p]] + SubSig(s, p + 1)
  }

  /** A leading `-` becomes `:` (the pseudo headers `:authority`, `:scheme`). */
  function PseudoName(name: string): string {
    if |name| > 0 && name[0] == '-' then ":" + name[1..] else name
  }

  /** The value `verify` reads for one field, or `None` when `path[0]` does not exist. */
  function VerifyField(name: string, path: seq<string>, headers: map<string, string>): Option<string> {
    if name == "-method" then (if |path| == 0 then None else Some(path[0]))
    else if name == "-path" then Some("/" + Join(if |path| <= 1 then [] else path[1..], '/'))
    else Some(Get(headers, Lower(PseudoName(name)), ""))
  }

  /** The values of the fields, in order, or `None` at the first field that raises. */
  function VerifyFields(names: seq<string>, path: seq<string>, headers: map<string, string>): (r: Option<seq<string>>)
    ensures r.Some? ==> |r.value| == |names|
  {
    if names == [] then Some([])
    else match VerifyFields(names[..|names| - 1], path, headers)
      case None => None
      case Some(init) =>
        match VerifyField(names[|names| - 1], path, headers)
        case None => None
        case Some(v) => Some(init + [v])
  }

  /** Some key in the list, skipping the empty ones, accepts the signature. */
  predicate AnyKeyVerifies<K>(keys: seq<Option<K>>, message: string, sig: seq<byte>,
                              verifies: (K, string, seq<byte>) -> bool)
  {
    exists i :: 0 <= i < |keys| && keys[i].Some? && verifies(keys[i].value, message, sig)
  }

  /** The dictionary `verify` works on: the caller's, or `parse`'s when the caller's is missing or empty. */
  function Auths(given: map<string, string>, headers: map<string, string>, prefix: string): Result<map<string, string>, PyError> {
    if given == map[] then Parsed(headers, prefix) else Ok(given)
  }

  /** `verify`, as a function: the request time on success, or the first exception raised. */
  function PyVerified<K>(headers: map<string, string>, path: seq<string>, body: Option<string>, keys: seq<Option<K>>,
                         given: map<string, string>, date: int, clock: int, prefix: string,
                         b64decode: string -> Option<seq<byte>>, verifies: (K, string, seq<byte>) -> bool)
    : Result<int, PyError>
  {
    match Auths(given, headers, prefix)
    case Err(e) => Err(e)
    case Ok(auths) => AuthsChecked(auths, headers, path, body, keys, date, clock, b64decode, verifies)
  }

  /** The checks of `verify` on its dictionary: the signature decodes, then the time lies in the window. */
  function AuthsChecked<K>(auths: map<string, string>, headers: map<string, string>, path: seq<string>, body: Option<string>,
                           keys: seq<Option<K>>, date: int, clock: int,
                           b64decode: string -> Option<seq<byte>>, verifies: (K, string, seq<byte>) -> bool)
    : Result<int, PyError>
  {
    match b64decode(PadFix(Get(auths, "sig", "")))
    case None => Err(Base64Invalid)
    case Some(sig) =>
      match TimeWindow(auths)
      case Err(e) => Err(e)
      case Ok((start, duration)) =>
        ClockChecked(auths, sig, start, duration, if date != 0 then date else clock, headers, path, body, keys, verifies)
  }

  /**
   * The window check of `verify`: too early before `start - 1`, expired from
   * `start + duration` on, and otherwise the signature check decides.
   */
  function ClockChecked<K>(auths: map<string, string>, sig: seq<byte>, start: int, duration: int, now: int,
                           headers: map<string, string>, path: seq<string>, body: Option<string>, keys: seq<Option<K>>,
                           verifies: (K, string, seq<byte>) -> bool)
    : (r: Result<int, PyError>)
    ensures r == Err(Early) <==> now < start - 1
    ensures r == Err(Expired) <==> start - 1 <= now && now >= start + duration
    ensures r.Ok? ==> start - 1 <= now < start + duration && r.value == now
    ensures r.Err? ==> r.error in {Early, Expired, RawHeaderMissing, PathEmpty, InvalidSignature}
    ensures r != Err(Base64Invalid) && r != Err(InvalidTime)
  {
    if now < start - 1 then Err(Early)
    else if now >= start + duration then Err(Expired)
    else SignatureChecked(auths, sig, now, headers, path, body, keys, verifies)
  }

  /** The last checks of `verify`: the message is rebuilt from the raw header and the fields, and some key accepts it. */
  function SignatureChecked<K>(auths: map<string, string>, sig: seq<byte>, now: int, headers: map<string, string>,
                               path: seq<string>, body: Option<string>, keys: seq<Option<K>>,
                               verifies: (K, string, seq<byte>) -> bool)
    : (r: Result<int, PyError>)
    ensures r.Ok? ==> r.value == now
    ensures r.Err? ==> r.error == RawHeaderMissing || r.error == PathEmpty || r.error == InvalidSignature
  {
    if [] !in auths then Err(RawHeaderMissing)
    else
      var auth := Strip(SubSig(auths[[]], 0));
      match VerifyFields(Split(Get(auths, "add", "-method+-path"), '+'), path, headers)
      case None => Err(PathEmpty)
      case Some(values) =>
        var message := Join([auth] + values + [body.GetOr("")], '\n');
        if AnyKeyVerifies(keys, message, sig, verifies) then Ok(now) else Err(InvalidSignature)
  }

  /** The value of one field: `path[0]` for the method, the rest of the path joined by `/`, or a header looked up in lower case. */
  method ReadField(name: string, path: seq<string>, headers: map<string, string>) returns (r: Option<string>)
    ensures r == VerifyField(name, path, headers)
  {
    if name == "-method" {
      if |path| == 0 {
        return None;
      }
      return Some(path[0]);
    } else if name == "-path" {
      var rest := if |path| <= 1 then [] else path[1..];
      return Some("/" + Join(rest, '/'));
    }
    var lookup := name;
    if |name| > 0 && name[0] == '-' {
      lookup := ":" + name[1..];
    }
    return Some(Get(headers, Lower(lookup), ""));
  }

  /** The message loop of `verify`: one line per field name, raising at `path[0]` of an empty path. */
  method CollectFields(names: seq<string>, path: seq<string>, headers: map<string, string>)
    returns (r: Option<seq<string>>)
    ensures r == VerifyFields(names, path, headers)
  {
    var values: seq<string> := [];
    for i := 0 to |names|
      invariant VerifyFields(names[..i], path, headers) == Some(values)
    {
      var v := ReadField(names[i], path, headers);
      FieldsStep(names, i, path, headers);
      if v.None? {
        PrefixFails(names, i + 1, path, headers);
        return None;
      }
      values := values + [v.value];
    }
    assert names[..|names|] == names;
    return Some(values);
  }

  /** One more name: the fields so far, then the next one, or `None` when either raises. */
  lemma FieldsStep(names: seq<string>, i: nat, path: seq<string>, headers: map<string, string>)
    requires i < |names|
    ensures VerifyFields(names[..i + 1], path, headers)
      == match VerifyFields(names[..i], path, headers)
         case None => None
         case Some(init) => if VerifyField(names[i], path, headers).None? then None else Some(init + [VerifyField(names[i], path, headers).value])
  {
    assert names[..i + 1][..i] == names[..i];
  }

  /** Once a prefix of the names raises, so do all the names. */
  lemma {:induction false} PrefixFails(names: seq<string>, i: nat, path: seq<string>, headers: map<string, string>)
    requires i <= |names| && VerifyFields(names[..i], path, headers).None?
    ensures VerifyFields(names, path, headers).None?
    decreases |names| - i
  {
    if i < |names| {
      assert names[..i + 1][..i] == names[..i];
      PrefixFails(names, i + 1, path, headers);
    } else {
      assert names[..i] == names;
    }
  }

  /** The key loop of `verify`: skips empty keys and stops at the first key that accepts. */
  method TryKeys<K>(keys: seq<Option<K>>, message: string, sig: seq<byte>, verifies: (K, string, seq<byte>) -> bool)
    returns (found: bool)
    ensures found == AnyKeyVerifies(keys, message, sig, verifies)
  {
    found := false;
    for i := 0 to |keys|
      invariant !found && forall j :: 0 <= j < i ==> !(keys[j].Some? && verifies(keys[j].value, message, sig))
    {
      if keys[i].None? {
        continue;
      }
      if verifies(keys[i].value, message, sig) {
        found := true;
        return;
      }
    }
  }

  /** `verify`: falls back to `parse` when no dictionary is given, then checks it. */
  method Verify<K>(headers: map<string, string>, path: seq<string>, body: Option<string>, keys: seq<Option<K>>,
                   given: map<string, string>, date: int, clock: int, prefix: string,
                   b64decode: string -> Option<seq<byte>>, verifies: (K, string, seq<byte>) -> bool)
    returns (r: Result<int, PyError>)
    ensures r == PyVerified(headers, path, body, keys, given, date, clock, prefix, b64decode, verifies)
  {
    var auths := given;
    if auths == map[] {
      var parsed := Parse(headers, prefix);
      if parsed.Err? {
        return Err(parsed.error);
      }
      auths := parsed.value;
    }
    r := CheckAuths(auths, headers, path, body, keys, date, clock, b64decode, verifies);
  }

  /** The padding fix, the decode and the time checks of `verify`. */
  method CheckAuths<K>(auths: map<string, string>, headers: map<string, string>, path: seq<string>, body: Option<string>,
                       keys: seq<Option<K>>, date: int, clock: int,
                       b64decode: string -> Option<seq<byte>>, verifies: (K, string, seq<byte>) -> bool)
    returns (r: Result<int, PyError>)
    ensures r == AuthsChecked(auths, headers, path, body, keys, date, clock, b64decode, verifies)
  {
    var sig := FixPadding(Get(auths, "sig", ""));
    var decoded := b64decode(sig);
    if decoded.None? {
      return Err(Base64Invalid);
    }
    var window := ReadWindow(auths);
    if window.Err? {
      return Err(window.error);
    }
    var (start, duration) := window.value;
    var now := if date != 0 then date else clock;
    r := CheckClock(auths, decoded.value, start, duration, now, headers, path, body, keys, verifies);
  }

  /** The window check of `verify`, then the signature check. */
  method CheckClock<K>(auths: map<string, string>, sig: seq<byte>, start: int, duration: int, now: int,
                       headers: map<string, string>, path: seq<string>, body: Option<string>, keys: seq<Option<K>>,
                       verifies: (K, string, seq<byte>) -> bool)
    returns (r: Result<int, PyError>)
    ensures r == ClockChecked(auths, sig, start, duration, now, headers, path, body, keys, verifies)
  {
    if now < start - 1 {
      return Err(Early);
    }
    if now >= start + duration {
      return Err(Expired);
    }
    r := CheckSignature(auths, sig, now, headers, path, body, keys, verifies);
  }

  /** The padding fix of `verify`, appending the missing tail of `A==`. */
  method FixPadding(sig: string) returns (r: string)
    ensures r == PadFix(sig)
  {
    r := sig;
    if |r| % 4 != 0 {
      r := r + "A=="[|r| % 4 - 1..];
    }
  }

  /** The `time` parameter read as two integers. */
  method ReadWindow(auths: map<string, string>) returns (r: Result<(int, int), PyError>)
    ensures r == TimeWindow(auths)
  {
    var (startText, durationText) := Partition(Get(auths, "time", "0+0"), '+');
    var start := PyInt(startText);
    if start.None? {
      return Err(InvalidTime);
    }
    var duration := PyInt(durationText);
    if duration.None? {
      return Err(InvalidTime);
    }
    return Ok((start.value, duration.value));
  }

  /** The message rebuild and the key loop of `verify`. */
  method CheckSignature<K>(auths: map<string, string>, sig: seq<byte>, now: int, headers: map<string, string>,
                           path: seq<string>, body: Option<string>, keys: seq<Option<K>>,
                           verifies: (K, string, seq<byte>) -> bool)
    returns (r: Result<int, PyError>)
    ensures r == SignatureChecked(auths, sig, now, headers, path, body, keys, verifies)
  {
    if [] !in auths {
      return Err(RawHeaderMissing);
    }
    var auth := Strip(SubSig(auths[[]], 0));
    var values := CollectFields(Split(Get(auths, "add", "-method+-path"), '+'), path, headers);
    if values.None? {
      return Err(PathEmpty);
    }
    var message := Join([auth] + values.value + [body.GetOr("")], '\n');
    var found := TryKeys(keys, message, sig, verifies);
    if !found {
      return Err(InvalidSignature);
    }
    return Ok(now);
  }
}
