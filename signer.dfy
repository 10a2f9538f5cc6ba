/**
 * The Rust signer (`sign` in rust/ap-auth-sign/src/lib.rs): the validity
 * window, the parameter text of the `authorization` header, the canonical
 * message that is signed, and the header value that carries the signature.
 *
 * The clock and the Ed25519 signing key are parameters: `clock` is what
 * `now()` returns (`None` when the system clock reads before the Unix
 * epoch), and `signer` maps a message to the signature bytes that
 * `SigningKey::sign` produces for it.
 */
module Signer {
  import opened Wrappers
  import opened Bytes
  import opened Decimal
  import opened Seqs
  import opened Base64
  import opened HeaderParser

  /** The signer's only error: the clock could not be read. */
  datatype Error = Time

  /** A header to sign: its name and its value bytes. */
  type Field = (string, seq<byte>)

  /**
   * The start of the window and its length. Both are `u64` arithmetic, which
   * a release build wraps around.
   */
  function Window(now: u64, duration: u64, tolerance: u64): (r: (u64, u64))
    ensures tolerance <= now ==> r.0 == now - tolerance
    ensures duration + tolerance < U64 ==> r.1 == duration + tolerance
  {
    ((now - tolerance) % U64, (duration + tolerance) % U64)
  }

  /** The tolerance the reqwest signer uses by default: a tenth of the duration, rounded up. */
  function DefaultTolerance(duration: u64): (t: u64)
    ensures duration <= 10 * t < duration + 10
  {
    (duration + 9) / 10
  }

  /** The names of the headers, in order. */
  function Names(headers: seq<Field>): (r: seq<string>)
    ensures |r| == |headers| && forall i :: 0 <= i < |headers| ==> r[i] == headers[i].0
  {
    seq(|headers|, i requires 0 <= i < |headers| => headers[i].0)
  }

  /** The values of the headers, in order. */
  function Values(headers: seq<Field>): (r: seq<seq<byte>>)
    ensures |r| == |headers| && forall i :: 0 <= i < |headers| ==> r[i] == headers[i].1
  {
    seq(|headers|, i requires 0 <= i < |headers| => headers[i].1)
  }

  /** `+name` for every header, in order: the text the header loop accumulates. */
  function HeadersText(headers: seq<Field>): (r: string)
    ensures r == [] <==> headers == []
  {
    if headers == [] then []
    else HeadersText(headers[..|headers| - 1]) + "+" + headers[|headers| - 1].0
  }

  /** The parameter text: the window, then the signed headers when there are any besides method and path. */
  function Params(start: u64, window: u64, headers: seq<Field>): string
  {
    var auth := "alpico time=" + Format(start) + "+" + Format(window);
    var names := HeadersText(headers);
    if names != [] then auth + ", add=-method+-path" + names else auth
  }

  /** The message that is signed: parameter text, method, path, each header value, each on its own line, then the body. */
  function Message(params: string, verb: string, path: string, headers: seq<Field>, body: Option<seq<byte>>): seq<byte>
  {
    Utf8(params) + [NL] + Utf8(verb + "\n" + path + "\n") + Lines(Values(headers))
    + (if body.Some? then body.value else [])
  }

  /** The `authorization` header value `sign` returns when the clock reads `now`. */
  function Signed(headers: seq<Field>, verb: string, path: string, body: Option<seq<byte>>,
                  duration: u64, tolerance: u64, now: u64, signer: seq<byte> -> seq<byte>): string
  {
    var (start, window) := Window(now, duration, tolerance);
    var params := Params(start, window, headers);
    params + ", sig=" + Encode(signer(Message(params, verb, path, headers, body)))
  }

  /** `sign`: builds the header names and values in a loop, then the message, and appends the signature. */
  method Sign(headers: seq<Field>, verb: string, path: string, body: Option<seq<byte>>,
              duration: u64, tolerance: u64, clock: Option<u64>, signer: seq<byte> -> seq<byte>)
    returns (r: Result<string, Error>)
    ensures clock.None? <==> r == Err(Error.Time)
    ensures clock.Some? ==> r == Ok(Signed(headers, verb, path, body, duration, tolerance, clock.value, signer))
  {
    if clock.None? {
      return Err(Error.Time);
    }
    var start := (clock.value - tolerance) % U64;
    var window := (duration + tolerance) % U64;
    var time := Format(start) + "+" + Format(window);

    var headersStr, headerVals := SignedFields(headers, verb, path);

    var auth := "alpico time=" + time;
    assert "alpico time=" + Format(start) + "+" + Format(window) == auth;
    if headersStr != [] {
      auth := auth + ", add=-method+-path" + headersStr;
    }
    assert auth == Params(start, window, headers);
    assert (start, window) == Window(clock.value, duration, tolerance);
    var message := Utf8(auth);
    message := message + [NL];
    ghost var head := message;
    message := message + headerVals;
    AppendAssoc(head, Utf8(verb + "\n" + path + "\n"), Lines(Values(headers)));
    ghost var lines := message;
    if body.Some? {
      message := message + body.value;
    } else {
      assert lines + [] == lines;
    }
    assert message == Message(auth, verb, path, headers, body);
    var signature := Encode(signer(message));
    auth := auth + ", sig=" + signature;
    return Ok(auth);
  }

  /**
   * The header loop of `sign`: the `+name` list for the parameter text and
   * the method, path and header-value lines for the message.
   */
  method SignedFields(headers: seq<Field>, verb: string, path: string) returns (headersStr: string, headerVals: seq<byte>)
    ensures headersStr == HeadersText(headers)
    ensures headerVals == Utf8(verb + "\n" + path + "\n") + Lines(Values(headers))
  {
    headersStr := "";
    headerVals := Utf8(verb + "\n" + path + "\n");
    for i := 0 to |headers|
      invariant headersStr == HeadersText(headers[..i])
      invariant headerVals == Utf8(verb + "\n" + path + "\n") + Lines(Values(headers[..i]))
    {
      assert headers[..i + 1][..i] == headers[..i];
      assert Values(headers[..i + 1])[..i] == Values(headers[..i]);
      headersStr := headersStr + "+" + headers[i].0;
      headerVals := headerVals + headers[i].1;
      headerVals := headerVals + [NL];
    }
    assert headers[..|headers|] == headers;
  }

  /**
   * Without wrap-around the window opens `tolerance` seconds before the
   * clock reading and closes `duration` seconds after it.
   */
  lemma WindowCovers(now: u64, duration: u64, tolerance: u64)
    requires tolerance <= now && duration + tolerance < U64
    ensures var (start, window) := Window(now, duration, tolerance);
      start <= now <= start + window && start + window == now + duration
  {
  }

  /** A tolerance larger than the clock reading wraps the start of the window around. */
  lemma WindowWraps(now: u64, duration: u64, tolerance: u64)
    requires now < tolerance
    ensures Window(now, duration, tolerance).0 == now - tolerance + U64 > now
  {
  }

  /** The names after `-method` and `-path`, joined by `+`, are what `add=` carries. */
  lemma {:induction false} HeadersTextJoin(headers: seq<Field>)
    ensures "-method+-path" + HeadersText(headers) == Join(DefaultAdd + Names(headers), '+')
  {
    if headers == [] {
      assert DefaultAdd + Names(headers) == ["-method", "-path"];
    } else {
      var init := headers[..|headers| - 1];
      var last := headers[|headers| - 1].0;
      HeadersTextJoin(init);
      assert Names(headers) == Names(init) + [last];
      assert DefaultAdd + Names(headers) == (DefaultAdd + Names(init)) + [last];
      JoinSnoc(DefaultAdd + Names(init), last, '+');
      assert HeadersText(headers) == HeadersText(init) + ['+'] + last;
      AppendAssoc("-method+-path", HeadersText(init) + ['+'], last);
      AppendAssoc("-method+-path", HeadersText(init), ['+']);
    }
  }

  /**
   * The parameter text is the window alone when no header is signed, and
   * otherwise the window followed by `, add=` and every signed field name,
   * `-method` and `-path` first, joined by `+`.
   */
  lemma ParamsShape(start: u64, window: u64, headers: seq<Field>)
    ensures var time := "alpico time=" + Format(start) + "+" + Format(window);
      Params(start, window, headers)
      == if headers == [] then time else time + ", add=" + Join(DefaultAdd + Names(headers), '+')
  {
    HeadersTextJoin(headers);
    var time := "alpico time=" + Format(start) + "+" + Format(window);
    if headers != [] {
      assert time + ", add=-method+-path" + HeadersText(headers)
        == time + ", add=" + ("-method+-path" + HeadersText(headers));
    }
  }

  /**
   * The message is the parameter text, then one line per signed field
   * (method, path, each header value, in order), then the body; a missing
   * body and an empty one give the same message.
   */
  lemma MessageShape(params: string, verb: string, path: string, headers: seq<Field>, body: Option<seq<byte>>)
    ensures Message(params, verb, path, headers, body)
      == Utf8(params) + [NL] + Lines([Utf8(verb), Utf8(path)] + Values(headers)) + body.GetOr([])
    ensures Message(params, verb, path, headers, None) == Message(params, verb, path, headers, Some([]))
  {
    var head, fields, rest := Utf8(params) + [NL], Utf8(verb + "\n" + path + "\n"), Lines(Values(headers));
    MethodPathLines(verb, path);
    LinesAppend([Utf8(verb), Utf8(path)], Values(headers));
    assert Message(params, verb, path, headers, body) == head + fields + rest + body.GetOr([]);
    AppendAssoc(head, fields, rest);
  }

  /** The method and path lines of the message are the first two lines of fields. */
  lemma MethodPathLines(verb: string, path: string)
    ensures Utf8(verb + "\n" + path + "\n") == Lines([Utf8(verb), Utf8(path)])
  {
    MethodPathBytes(verb, path);
    TwoLines(Utf8(verb), Utf8(path));
  }

  /** The method, a line feed, the path and a line feed, in bytes. */
  lemma MethodPathBytes(verb: string, path: string)
    ensures Utf8(verb + "\n" + path + "\n") == Utf8(verb) + [NL] + Utf8(path) + [NL]
  {
    Utf8Append(verb + "\n" + path, "\n");
    Utf8Append(verb + "\n", path);
    Utf8Append(verb, "\n");
    assert Utf8("\n") == [NL] by {
      assert "\n"[1..] == [];
    }
  }

  /** Two fields make two lines. */
  lemma TwoLines(a: seq<byte>, b: seq<byte>)
    ensures Lines([a, b]) == a + [NL] + b + [NL]
  {
    var fields := [a, b];
    assert fields[..1] == [a] && [a][..0] == [];
    assert Lines([a]) == a + [NL];
    assert Lines(fields) == Lines([a]) + b + [NL];
  }

  /** The message has one line per signed field after its first line, when no field holds a line feed. */
  lemma MessageLineCount(params: string, verb: string, path: string, headers: seq<Field>)
    requires forall i :: 0 <= i < |headers| ==> NL !in headers[i].1
    requires NL !in Utf8(verb) && NL !in Utf8(path)
    ensures var fields := [Utf8(verb), Utf8(path)] + Values(headers);
      |fields| == |DefaultAdd + Names(headers)|
      && multiset(Lines(fields))[NL] == |fields|
  {
    var fields := [Utf8(verb), Utf8(path)] + Values(headers);
    forall i | 0 <= i < |fields| ensures NL !in fields[i] {
      if i == 0 {
        assert fields[i] == Utf8(verb);
      } else if i == 1 {
        assert fields[i] == Utf8(path);
      } else {
        assert fields[i] == Values(headers)[i - 2] == headers[i - 2].1;
      }
    }
    LinesCount(fields);
  }

  /**
   * The returned header is the parameter text, `, sig=`, and the signature
   * in URL-safe base64 without padding (86 symbols for an Ed25519
   * signature), so the parameter text is a prefix of it.
   */
  lemma SignedShape(headers: seq<Field>, verb: string, path: string, body: Option<seq<byte>>,
                    duration: u64, tolerance: u64, now: u64, signer: seq<byte> -> seq<byte>)
    ensures var (start, window) := Window(now, duration, tolerance);
      var params := Params(start, window, headers);
      var out := Signed(headers, verb, path, body, duration, tolerance, now, signer);
      var sig := signer(Message(params, verb, path, headers, body));
      && params + ", sig=" <= out
      && var e := out[|params| + 6..];
      AllUrlSafe(e) && Decode(e) == Some(sig)
      && (|sig| == 64 ==> |e| == 86)
  {
    var (start, window) := Window(now, duration, tolerance);
    var params := Params(start, window, headers);
    var sig := signer(Message(params, verb, path, headers, body));
    var out := Signed(headers, verb, path, body, duration, tolerance, now, signer);
    assert out[|params| + 6..] == Encode(sig);
    DecodeEncode(sig);
    EncodeLength(sig);
  }

  /** The window numerals read back, with the parser's `u64` rule, as the numbers written. */
  lemma WindowReadsBack(start: u64, window: u64)
    ensures ParseTime(Format(start) + "+" + Format(window)) == Ok((start, window))
  {
    assert '+' !in Format(start);
    SplitOnceAt(Format(start), '+', Format(window));
    ParseFormat(start, U64);
    ParseFormat(window, U64);
  }
}
