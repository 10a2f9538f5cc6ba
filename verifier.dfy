/**
 * The Rust verifier (`verify` in rust/ap-auth-verify/src/lib.rs): parses
 * the `authorization` header, checks the validity window, looks up the
 * verifying key, decodes the signature, rebuilds the signed message and
 * checks the signature over it.
 *
 * The request's headers, the key store and Ed25519 are parameters:
 * `getHeader` looks a request header up by name, `getKey` maps a key id to
 * the 32 bytes of a public key or to the key store's error, `keyValid` says
 * whether `VerifyingKey::from_bytes` accepts those bytes, and `verifies`
 * whether `verify_strict` accepts a signature over a message under a key.
 */
module Verifier {
  import opened Wrappers
  import opened Bytes
  import opened Decimal
  import opened Base64
  import opened Seqs
  import opened HeaderParser

  /** The outcomes of a refused request, in the order the checks are made. */
  datatype Error<E> = Check | Header(reason: Reason) | Key(err: E) | KeyValue | Signature(problem: string) | Time

  /** The length in bytes of an Ed25519 signature. */
  const SignatureLength: nat := 64

  /** The window check: the request time lies between the start and the start plus the duration, both included. */
  predicate InWindow(now: u64, start: u64, duration: u64) {
    start <= now <= start + duration
  }

  /** What a signed field name stands for: the method, the path, or a request header (empty when absent). */
  function FieldValue(name: string, verb: string, path: string, getHeader: string -> Option<string>): string
  {
    if name == "-method" then verb
    else if name == "-path" then path
    else getHeader(name).GetOr("")
  }

  /** The bytes of each signed field, in the order of `add`. */
  function FieldBytes(add: seq<string>, verb: string, path: string, getHeader: string -> Option<string>): (r: seq<seq<byte>>)
    ensures |r| == |add|
    ensures forall i :: 0 <= i < |add| ==> r[i] == Utf8(FieldValue(add[i], verb, path, getHeader))
  {
    seq(|add|, i requires 0 <= i < |add| => Utf8(FieldValue(add[i], verb, path, getHeader)))
  }

  /** The message the signature must cover: the residual header, one line per signed field, then the body unless omitted. */
  function Rebuilt(h: AuthHeader, verb: string, path: string, body: seq<byte>, getHeader: string -> Option<string>): seq<byte>
  {
    Utf8(h.header) + [NL] + Lines(FieldBytes(h.add, verb, path, getHeader)) + (if h.omitBody then [] else body)
  }

  /** The `authorization` header of the request, or the empty text when it has none. */
  function RawHeader(getHeader: string -> Option<string>): string {
    getHeader("authorization").GetOr("")
  }

  /** `verify`, as a function: the key id on success, or the first check that fails. */
  function Verified<E>(verb: string, path: string, body: seq<byte>, now: u64,
                       getHeader: string -> Option<string>, getKey: u32 -> Result<seq<byte>, E>,
                       keyValid: seq<byte> -> bool, verifies: (seq<byte>, seq<byte>, seq<byte>) -> bool)
    : Result<u32, Error<E>>
  {
    match Parse(RawHeader(getHeader))
    case Err(reason) => Err(Header(reason))
    case Ok(h) =>
      if now < h.start || now - h.start > h.duration then Err(Error.Time)
      else match getKey(h.key)
        case Err(e) => Err(Error.Key(e))
        case Ok(pk) =>
          if !keyValid(pk) then Err(KeyValue)
          else match Decode(h.sig)
            case None => Err(Signature("base64"))
            case Some(sig) =>
              if |sig| != SignatureLength then Err(Signature("len"))
              else if !verifies(pk, Rebuilt(h, verb, path, body, getHeader), sig) then Err(Check)
              else Ok(h.key)
  }

  /** The message loop of `verify`: the residual header line, one line per signed field, then the body. */
  method RebuildMessage(h: AuthHeader, verb: string, path: string, body: seq<byte>, getHeader: string -> Option<string>)
    returns (message: seq<byte>)
    ensures message == Rebuilt(h, verb, path, body, getHeader)
  {
    message := [];
    message := message + Utf8(h.header);
    message := message + [NL];
    ghost var head := message;
    ghost var fields := FieldBytes(h.add, verb, path, getHeader);
    for i := 0 to |h.add|
      invariant message == head + Lines(fields[..i])
    {
      ghost var before := message;
      var name := h.add[i];
      if name == "-method" {
        message := message + Utf8(verb);
      } else if name == "-path" {
        message := message + Utf8(path);
      } else {
        message := message + Utf8(getHeader(name).GetOr(""));
      }
      assert message == before + fields[i];
      message := message + [NL];
      AppendAssoc(before, fields[i], [NL]);
      AppendAssoc(head, Lines(fields[..i]), fields[i] + [NL]);
      LinesSnoc(fields, i);
    }
    assert fields[..|h.add|] == fields;
    assert message == Utf8(h.header) + [NL] + Lines(fields);
    if !h.omitBody {
      message := message + body;
    } else {
      assert message + [] == message;
    }
  }

  /** `verify`: a chain of checks, each returning early when it fails. */
  method Verify<E>(verb: string, path: string, body: seq<byte>, now: u64,
                   getHeader: string -> Option<string>, getKey: u32 -> Result<seq<byte>, E>,
                   keyValid: seq<byte> -> bool, verifies: (seq<byte>, seq<byte>, seq<byte>) -> bool)
    returns (r: Result<u32, Error<E>>)
    ensures r == Verified(verb, path, body, now, getHeader, getKey, keyValid, verifies)
  {
    var rawHeader := getHeader("authorization").GetOr("");
    var parsed := ParseHeader(rawHeader);
    if parsed.Err? {
      return Err(Header(parsed.error));
    }
    var header := parsed.value;

    if now < header.start || now - header.start > header.duration {
      return Err(Error.Time);
    }

    var pubkey := getKey(header.key);
    if pubkey.Err? {
      return Err(Error.Key(pubkey.error));
    }
    if !keyValid(pubkey.value) {
      return Err(KeyValue);
    }

    var signature := Decode(header.sig);
    if signature.None? {
      return Err(Signature("base64"));
    }
    if |signature.value| != SignatureLength {
      return Err(Signature("len"));
    }

    var message := RebuildMessage(header, verb, path, body, getHeader);
    if !verifies(pubkey.value, message, signature.value) {
      return Err(Check);
    }
    return Ok(header.key);
  }

  /** A request without an `authorization` header is refused as an unsupported scheme. */
  lemma MissingHeader<E>(verb: string, path: string, body: seq<byte>, now: u64,
                         getHeader: string -> Option<string>, getKey: u32 -> Result<seq<byte>, E>,
                         keyValid: seq<byte> -> bool, verifies: (seq<byte>, seq<byte>, seq<byte>) -> bool)
    requires getHeader("authorization").None?
    ensures Verified(verb, path, body, now, getHeader, getKey, keyValid, verifies) == Err(Header(SchemeUnsupported))
  {
    SchemeChecked("");
  }

  /** A `Header` error is exactly a parse failure, and carries the parser's reason unchanged. */
  lemma HeaderErrors<E>(verb: string, path: string, body: seq<byte>, now: u64,
                        getHeader: string -> Option<string>, getKey: u32 -> Result<seq<byte>, E>,
                        keyValid: seq<byte> -> bool, verifies: (seq<byte>, seq<byte>, seq<byte>) -> bool)
    ensures var r := Verified(verb, path, body, now, getHeader, getKey, keyValid, verifies);
      && ((r.Err? && r.error.Header?) <==> Parse(RawHeader(getHeader)).Err?)
      && (Parse(RawHeader(getHeader)).Err? ==> r.error.reason == Parse(RawHeader(getHeader)).error)
  {
  }

  /**
   * `Time` is returned exactly when the header parses and the request time
   * lies outside the window; the `u64` subtraction cannot underflow.
   */
  lemma TimeChecked<E>(verb: string, path: string, body: seq<byte>, now: u64,
                       getHeader: string -> Option<string>, getKey: u32 -> Result<seq<byte>, E>,
                       keyValid: seq<byte> -> bool, verifies: (seq<byte>, seq<byte>, seq<byte>) -> bool)
    ensures var p := Parse(RawHeader(getHeader));
      Verified(verb, path, body, now, getHeader, getKey, keyValid, verifies) == Err(Error.Time)
      <==> p.Ok? && !InWindow(now, p.value.start, p.value.duration)
  {
    var p := Parse(RawHeader(getHeader));
    var r := Verified(verb, path, body, now, getHeader, getKey, keyValid, verifies);
    if p.Ok? {
      var h := p.value;
      if InWindow(now, h.start, h.duration) {
        assert !(now < h.start || now - h.start > h.duration);
        assert r.Err? ==> r.error != Error.Time;
      } else {
        assert now < h.start || now - h.start > h.duration;
      }
    }
  }

  /**
   * The key store is consulted only for the parsed key id, and only once
   * the header parses and the time lies in the window: before that point,
   * any two key stores give the same outcome.
   */
  lemma KeyLookedUpLast<E>(verb: string, path: string, body: seq<byte>, now: u64,
                           getHeader: string -> Option<string>, getKey: u32 -> Result<seq<byte>, E>,
                           otherKey: u32 -> Result<seq<byte>, E>,
                           keyValid: seq<byte> -> bool, verifies: (seq<byte>, seq<byte>, seq<byte>) -> bool)
    ensures var p := Parse(RawHeader(getHeader));
      (p.Err? || !InWindow(now, p.value.start, p.value.duration) || getKey(p.value.key) == otherKey(p.value.key)) ==>
        Verified(verb, path, body, now, getHeader, getKey, keyValid, verifies)
        == Verified(verb, path, body, now, getHeader, otherKey, keyValid, verifies)
  {
  }

  /**
   * Each refusal after the time check implies that every earlier check
   * passed: the checks run in the order Header, Time, Key, KeyValue,
   * Signature("base64"), Signature("len"), Check. For the last three
   * refusals this is an equivalence: the refusal happens exactly when every
   * earlier check passes and its own check fails.
   */
  lemma ChecksInOrder<E>(verb: string, path: string, body: seq<byte>, now: u64,
                         getHeader: string -> Option<string>, getKey: u32 -> Result<seq<byte>, E>,
                         keyValid: seq<byte> -> bool, verifies: (seq<byte>, seq<byte>, seq<byte>) -> bool)
    ensures var r := Verified(verb, path, body, now, getHeader, getKey, keyValid, verifies);
      var p := Parse(RawHeader(getHeader));
      && (r.Err? && (r.error.Key? || r.error.KeyValue? || r.error.Signature? || r.error.Check?) ==>
            p.Ok? && InWindow(now, p.value.start, p.value.duration))
      && (r.Err? && r.error.Key? ==> p.Ok? && getKey(p.value.key) == Err(r.error.err))
      && (r.Err? && (r.error.KeyValue? || r.error.Signature? || r.error.Check?) ==>
            p.Ok? && getKey(p.value.key).Ok? && (r.error.KeyValue? <==> !keyValid(getKey(p.value.key).value)))
      && (r == Err(Signature("base64")) <==>
            p.Ok? && InWindow(now, p.value.start, p.value.duration) && getKey(p.value.key).Ok?
            && keyValid(getKey(p.value.key).value) && Decode(p.value.sig).None?)
      && (r == Err(Signature("len")) <==>
            p.Ok? && InWindow(now, p.value.start, p.value.duration) && getKey(p.value.key).Ok?
            && keyValid(getKey(p.value.key).value) && Decode(p.value.sig).Some?
            && |Decode(p.value.sig).value| != SignatureLength)
      && (r == Err(Check) <==>
            p.Ok? && InWindow(now, p.value.start, p.value.duration) && getKey(p.value.key).Ok?
            && keyValid(getKey(p.value.key).value) && Decode(p.value.sig).Some?
            && |Decode(p.value.sig).value| == SignatureLength
            && !verifies(getKey(p.value.key).value, Rebuilt(p.value, verb, path, body, getHeader), Decode(p.value.sig).value))
  {
  }

  /**
   * A request is accepted exactly when every check passes, and then the
   * result is the parsed key id, which is 0 when the header names no key.
   */
  lemma Accepted<E>(verb: string, path: string, body: seq<byte>, now: u64,
                    getHeader: string -> Option<string>, getKey: u32 -> Result<seq<byte>, E>,
                    keyValid: seq<byte> -> bool, verifies: (seq<byte>, seq<byte>, seq<byte>) -> bool)
    ensures var r := Verified(verb, path, body, now, getHeader, getKey, keyValid, verifies);
      var p := Parse(RawHeader(getHeader));
      r.Ok? <==>
        && p.Ok? && InWindow(now, p.value.start, p.value.duration)
        && getKey(p.value.key).Ok? && keyValid(getKey(p.value.key).value)
        && Decode(p.value.sig).Some? && |Decode(p.value.sig).value| == SignatureLength
        && verifies(getKey(p.value.key).value, Rebuilt(p.value, verb, path, body, getHeader), Decode(p.value.sig).value)
    ensures var r := Verified(verb, path, body, now, getHeader, getKey, keyValid, verifies);
      var raw := RawHeader(getHeader);
      r.Ok? ==> r.value == Parse(raw).value.key && (LastOf(Items(raw), KeyId) < 0 ==> r.value == 0)
  {
    var raw := RawHeader(getHeader);
    if Parse(raw).Ok? {
      ParsedFields(raw, KeyId);
    }
  }
}
