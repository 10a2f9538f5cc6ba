# alpico request signatures in Dafny

This project models the alpico authorization scheme for HTTP requests and
proves properties of the model. A client signs a request with Ed25519 and
sends the result in the `authorization` header:

    authorization: alpico time=<start>+<window>, add=-method+-path+<name>..., sig=<base64url>

The server parses the header, checks the validity window, looks up the
verifying key, rebuilds the signed message and checks the signature. The
message is the header without its signature, a line feed, then one line per
signed field (the method, the path or a request header), then the body.

Two implementations are modelled:

- **Rust.** `HeaderParser` models `AuthHeader::new` (header.rs) as the
  function `Parse` and the method `ParseHeader` that mirrors its loop.
  `HeaderTests` states the unit tests of header.rs (`test_scheme`,
  `test_separator`, `test_params`, `test_signature_split` and
  `test_derived`) as lemmas about `Parse`, each an instance of a lemma
  about a whole family of headers.
  `Signer` models `sign` of the signing crate. `Verifier` models `verify` of
  the verifying crate. `RoundTrip` proves that a signed header parses back to
  the values the signer wrote, and that a request signed by `sign` passes
  `verify` anywhere in its window.
- **Python.** `PyAuth` models `calc`, `parse` and `verify` of `ap-auth.py`.
  `PyFacts` proves their properties. `PyRoundTrip` proves that a request
  produced by `calc` passes `verify`.

Supporting modules: `Seqs` holds the sequence operations the code uses:
`split`, `split_once`, `rsplit_once`, `partition`, `join`, `trim` and
substring search. `Decimal` holds decimal formatting and `u64`/`u32`
parsing. `Base64` holds the URL-safe base64 alphabet without padding, with
both round trips. `Bytes` holds UTF-8 and the line-per-field layout.

The model abstracts these parts of the system:

- The cryptography is a set of parameters. The Ed25519 signature of a
  message is a function `signer`. Strict verification is a predicate
  `verifies(key, message, signature)`. `VerifyingKey::from_bytes` is a
  predicate `keyValid`.
- The key store is a parameter: `get_key` in Rust, the list of
  `verifykeys` in Python.
- The clock is a parameter. Rust's `now()` is an `Option<u64>`, where
  `None` stands for a clock before the epoch. Python's `time.time()` is an
  integer, taken as already rounded down.
- Python's `base64.b64decode` is a parameter. The round trip requires only
  that it decodes what nacl's URL-safe encoder writes.
- Rust integers are `u64`/`u32` values. A subtraction or addition that can
  wrap is written out with `% U64`.

Points where the code's behaviour may surprise:

- `sign` writes no `key` parameter, so verification reports key 0 (proved in
  `Verifier.Accepted`). It appends the body whenever one is given. There is
  no body-inclusion flag.
- `verify` reads `omit_body` from the parsed header, but `AuthHeader`
  declares no such field and the parser never sets it. The model carries the
  field and proves it is always false (`HeaderParser.ParsedFields`).
- The signature errors carry the reasons `"base64"` (no decoding) and `"len"` (not 64 bytes).
- The signature may be the first parameter. `"alpico sig=foo,add="` parses
  with residual text `"alpico sig=,add="`. The model follows the split
  exactly as written, although the comment at header.rs:51 assumes the
  signature is never the first parameter.

## Model

| member | source | states |
|---|---|---|
| HeaderParser.ParseTime | rust/ap-auth-verify/src/header.rs:40-44 | a `time` value is rejected with "time" exactly when it has no `+`; split at its first `+` into `a` and `b`, it is rejected with "start" exactly when `a` is no `u64` numeral, with "duration" exactly when `a` is one and `b` is not, and otherwise holds the two values |
| HeaderParser.ApplyItem | rust/ap-auth-verify/src/header.rs:28-46 | one loop turn fails with "separator" exactly when the item has no `=`; an unknown name gives "unknown param"; a changed signature is the item's value; the residual text and body flag are untouched |
| HeaderParser.ApplyParam | rust/ap-auth-verify/src/header.rs:28-46 | the loop body computes exactly `ApplyItem` and leaves the residual text and body flag alone |
| HeaderParser.ParseHeader | rust/ap-auth-verify/src/header.rs:17-56 | the imperative parser (default `add`, scheme check, item loop with early return, signature removal) returns exactly `Parse` |
| HeaderParser.DropSignature | rust/ap-auth-verify/src/header.rs:49-54 | removing the first occurrence of the signature and the `,` item before it sets the residual text to `Residual(raw, sig)` and changes nothing else |
| HeaderParser.Residual | rust/ap-auth-verify/src/header.rs:49-54 | the residual text is at least the signature's length shorter than the header; an empty signature leaves the header whole |
| HeaderParser.ResidualLayout | rust/ap-auth-verify/src/header.rs:49-54 | the residual is the text before the signature cut at its last `,` (or whole when it has none) followed by all the text after the signature |
| HeaderParser.ParsedSigFound | rust/ap-auth-verify/src/header.rs:50 | the `unwrap` cannot panic: a signature accepted by the loop always occurs in the raw header |
| HeaderParser.SchemeChecked | rust/ap-auth-verify/src/header.rs:23-26 | parsing fails with "scheme unsupported" exactly when the header without leading whitespace does not start with `alpico ` |
| HeaderParser.ApplyItemsStep | rust/ap-auth-verify/src/header.rs:27-47 | the loop stops at a failing item with its reason and otherwise continues with the updated header |
| HeaderParser.ApplyItemsAppend | rust/ap-auth-verify/src/header.rs:27-47 | running the loop over two lists in a row is running it over their concatenation |
| HeaderParser.FirstFailureDecides | rust/ap-auth-verify/src/header.rs:27-47 | the first failing item decides the error whatever follows it |
| HeaderParser.FailureAfter | rust/ap-auth-verify/src/header.rs:27-47 | an item that fails after an accepted prefix makes the whole loop fail with that item's reason |
| HeaderParser.ApplyItemsNotScheme | rust/ap-auth-verify/src/header.rs:27-47 | the item loop never reports "scheme unsupported" |
| HeaderParser.ItemAccepted | rust/ap-auth-verify/src/header.rs:28-46 | an item is accepted exactly when it has a setting (its name is known and its value parses) |
| HeaderParser.ItemSets | rust/ap-auth-verify/src/header.rs:30-46 | an accepted item sets its own parameter to its setting and leaves every other parameter unchanged |
| HeaderParser.SettingOf | rust/ap-auth-verify/src/header.rs:30-46 | only items with a known parameter name have a setting |
| HeaderParser.LastOf | rust/ap-auth-verify/src/header.rs:27-47 | finds the last item naming a parameter: it names it and no later item does |
| HeaderParser.AcceptedItems | rust/ap-auth-verify/src/header.rs:27-47 | a header that parses has every item accepted |
| HeaderParser.ApplyItemsKeepsRest | rust/ap-auth-verify/src/header.rs:27-47 | the item loop never touches the residual text or the body flag |
| HeaderParser.LastOccurrenceWins | rust/ap-auth-verify/src/header.rs:27-47 | after the loop each parameter holds the setting of its last occurrence, or its prior value when it never occurs |
| HeaderParser.ParsedFields | rust/ap-auth-verify/src/header.rs:17-56 | a parsed header holds, per parameter, the last occurrence's setting or the default; it never omits the body; its residual text is `Residual(raw, sig)` |
| HeaderTests.SingleItem | rust/ap-auth-verify/src/header.rs:27-56 | a one-item header fails with the item's reason or holds what the item sets, with the signature cut out |
| HeaderTests.TwoItems | rust/ap-auth-verify/src/header.rs:27-56 | a two-item header fails at its first failing item or holds what both items set |
| HeaderTests.ThreeItems | rust/ap-auth-verify/src/header.rs:27-56 | a three-item header whose items are all accepted holds what the three set, in order |
| HeaderTests.BareItemHeader | rust/ap-auth-verify/src/header.rs:28-29 | an item without `=` gives "separator" |
| HeaderTests.UnknownHeader | rust/ap-auth-verify/src/header.rs:45 | an item with an unknown name gives "unknown param" |
| HeaderTests.SigHeader | rust/ap-auth-verify/src/header.rs:37-39 | a `sig` item sets the signature to its value |
| HeaderTests.AddHeader | rust/ap-auth-verify/src/header.rs:31-33 | an `add` item sets the fields to its value split on `+` |
| HeaderTests.AddThreeHeader | rust/ap-auth-verify/src/header.rs:31-33 | `add=x+y+z` gives the three fields `x`, `y`, `z` |
| HeaderTests.TimeHeader | rust/ap-auth-verify/src/header.rs:40-44 | a `time` item fails as `ParseTime` fails, or holds its start and duration |
| HeaderTests.WindowHeader | rust/ap-auth-verify/src/header.rs:40-44 | `time=a+b` gives "start" when `a` is no numeral, "duration" when `b` is not, otherwise both values |
| HeaderTests.AddThenBare | rust/ap-auth-verify/src/header.rs:27-47 | an item without `=` after an accepted `add` item gives "separator" |
| HeaderTests.KeyThenSig | rust/ap-auth-verify/src/header.rs:34-39 | a `key` item then blanks and a `sig` item hold the key id and the signature |
| HeaderTests.WindowThenSig | rust/ap-auth-verify/src/header.rs:49-54 | a trailing `sig` item is cut out with the comma before it, leaving the `time` item |
| HeaderTests.WindowSigAdd | rust/ap-auth-verify/src/header.rs:49-54 | a `sig` item in the middle is cut out with the comma before it, keeping the blanks and items after it |
| HeaderTests.SigThenAdd | rust/ap-auth-verify/src/header.rs:49-54 | a `sig` item first is cut out alone: `sig=` and the rest stay |
| HeaderTests.DefaultItems | rust/ap-auth-verify/src/header.rs:27-56 | four items that each leave the defaults unchanged give the defaults, and the whole text is kept as the residual |
| HeaderTests.DefaultsHeader | rust/ap-auth-verify/src/header.rs:27-56 | `add`, an empty `sig`, `time` and `key` items that spell out the default values give the defaults with the whole header kept |
| HeaderTests.EmptySigHeader | rust/ap-auth-verify/src/header.rs:27-56 | a header whose only item is an empty `sig` gives the defaults with the whole header kept |
| HeaderTests.SchemeExamples | rust/ap-auth-verify/src/header.rs:59-66 | `""`, `"Bearer"`, `"alpico"` give "scheme unsupported", `"alpico "` and `"  alpico "` do not |
| HeaderTests.SeparatorNoEquals | rust/ap-auth-verify/src/header.rs:70 | `"alpico a"` gives "separator" |
| HeaderTests.SeparatorEmptyItem | rust/ap-auth-verify/src/header.rs:71 | `"alpico ,"` gives "separator" |
| HeaderTests.SeparatorEmptyValue | rust/ap-auth-verify/src/header.rs:72 | `"alpico add="` does not give "separator" |
| HeaderTests.SeparatorLaterItem | rust/ap-auth-verify/src/header.rs:73 | `"alpico add=, bar"` gives "separator" |
| HeaderTests.UnknownEmptyName | rust/ap-auth-verify/src/header.rs:78 | `"alpico ="` gives "unknown param" |
| HeaderTests.UnknownName | rust/ap-auth-verify/src/header.rs:79 | `"alpico dummy=1"` gives "unknown param" |
| HeaderTests.SigValue | rust/ap-auth-verify/src/header.rs:80 | `"alpico sig=foo"` has signature `foo` |
| HeaderTests.AddValue | rust/ap-auth-verify/src/header.rs:81 | `"alpico add=foo"` has the one field `foo` |
| HeaderTests.AddValues | rust/ap-auth-verify/src/header.rs:82-89 | `"alpico add=foo+bar+baz"` has three fields, `bar` second |
| HeaderTests.TimeNoPlus | rust/ap-auth-verify/src/header.rs:90 | `"alpico time=1"` gives "time" |
| HeaderTests.TimeNegativeStart | rust/ap-auth-verify/src/header.rs:91 | `"alpico time=-4+1"` gives "start" |
| HeaderTests.TimeLetterStart | rust/ap-auth-verify/src/header.rs:92 | `"alpico time=b+1"` gives "start" |
| HeaderTests.TimeNegativeDuration | rust/ap-auth-verify/src/header.rs:93 | `"alpico time=42+-1"` gives "duration" |
| HeaderTests.TimeBinaryDuration | rust/ap-auth-verify/src/header.rs:94 | `"alpico time=42+0b1"` gives "duration" |
| HeaderTests.TimeStart | rust/ap-auth-verify/src/header.rs:95 | `"alpico time=42+1"` starts at 42 |
| HeaderTests.TimeZeroDuration | rust/ap-auth-verify/src/header.rs:96 | `"alpico time=42+0"` has duration 0 |
| HeaderTests.TimeDuration | rust/ap-auth-verify/src/header.rs:97 | `"alpico time=42+12"` has duration 12 |
| HeaderTests.KeyValue | rust/ap-auth-verify/src/header.rs:98 | `"alpico key=42, sig="` has key 42 |
| HeaderTests.SplitLastItem | rust/ap-auth-verify/src/header.rs:103-106 | `"alpico time=41+1,sig=foo"` leaves `"alpico time=41+1"` |
| HeaderTests.SplitMiddleItem | rust/ap-auth-verify/src/header.rs:107-112 | `"alpico time=41+1,sig=foo ,add="` leaves `"alpico time=41+1 ,add="` |
| HeaderTests.SplitFirstItem | rust/ap-auth-verify/src/header.rs:113-116 | `"alpico sig=foo,add="` leaves `"alpico sig=,add="` |
| HeaderTests.DerivedDefaults | rust/ap-auth-verify/src/header.rs:119-123 | `"alpico add=-method+-path, sig=, time=0+0, key=0"` with its residual replaced by `"alpico sig="` equals the parse of `"alpico sig="`: explicit defaults read as omitted ones, and an empty signature keeps the whole header |
| Verifier.Verify | rust/ap-auth-verify/src/lib.rs:21-80 | the imperative verifier returns exactly `Verified`, the key number or the first failing check |
| Verifier.RebuildMessage | rust/ap-auth-verify/src/lib.rs:53-73 | the message loop builds the residual header, a line feed, one line per signed field, then the body unless omitted |
| Verifier.FieldBytes | rust/ap-auth-verify/src/lib.rs:56-69 | one value per signed field, in order: the method, the path, or the header's value (empty when absent) |
| Verifier.MissingHeader | rust/ap-auth-verify/src/lib.rs:34-35 | a request without `authorization` is read as the empty header and rejected with "scheme unsupported" |
| Verifier.HeaderErrors | rust/ap-auth-verify/src/lib.rs:35 | verification fails with a header error exactly when the header does not parse, carrying the parser's reason |
| Verifier.TimeChecked | rust/ap-auth-verify/src/lib.rs:38-40 | the time error happens exactly when the header parses and `now` is outside `[start, start + duration]`, with no underflow before `start` |
| Verifier.KeyLookedUpLast | rust/ap-auth-verify/src/lib.rs:42-44 | the key store is consulted only after the header and the window have passed; otherwise two stores give the same outcome |
| Verifier.ChecksInOrder | rust/ap-auth-verify/src/lib.rs:33-79 | key, key-value, signature and check errors all imply a parsed header inside its window; a key error carries the store's error; "base64" happens exactly when all earlier checks pass and the signature does not decode; "len" exactly when it decodes to other than 64 bytes; the check error exactly when it decodes to 64 bytes that do not verify over the rebuilt message |
| Verifier.Accepted | rust/ap-auth-verify/src/lib.rs:21-80 | verification succeeds exactly when the header parses, the window holds, the key exists and is valid, the signature decodes to 64 bytes and verifies over the rebuilt message; it then returns the header's key, which is 0 when no `key` item is given |
| Signer.Window | rust/ap-auth-sign/src/lib.rs:67-68 | the window starts `tolerance` before now and lasts `duration + tolerance` when neither wraps |
| Signer.DefaultTolerance | rust/ap-auth-sign-reqwest/src/lib.rs:23 | the default tolerance is a tenth of the duration rounded up |
| Signer.WindowCovers | rust/ap-auth-sign/src/lib.rs:67-68 | without wrap-around the signing instant lies inside the window, which ends `duration` after it |
| Signer.WindowWraps | rust/ap-auth-sign/src/lib.rs:67 | a tolerance larger than the clock wraps the start round to a value after now |
| Signer.Sign | rust/ap-auth-sign/src/lib.rs:57-94 | signing fails exactly when the clock cannot be read; otherwise it returns the signed header `Signed(...)` |
| Signer.SignedFields | rust/ap-auth-sign/src/lib.rs:70-78 | the header loop builds the `+name` list and the method, path and header values, one line each |
| Signer.HeadersText | rust/ap-auth-sign/src/lib.rs:70-78 | the `+name` list is empty exactly when no header is signed |
| Signer.HeadersTextJoin | rust/ap-auth-sign/src/lib.rs:79-82 | `-method+-path` followed by the `+name` list is the `+`-join of the default fields and the header names |
| Signer.ParamsShape | rust/ap-auth-sign/src/lib.rs:79-82 | the parameter text is `alpico time=start+window`, followed by `, add=` and the joined field list when headers are signed |
| Signer.MessageShape | rust/ap-auth-sign/src/lib.rs:83-88 | the signed message is the parameters, a line feed, one line per field, then the body; no body equals an empty body |
| Signer.MethodPathLines | rust/ap-auth-sign/src/lib.rs:71 | the formatted `method\npath\n` is the first two field lines |
| Signer.MessageLineCount | rust/ap-auth-sign/src/lib.rs:71-78 | with no line feed inside the values, the field part holds exactly one line feed per `add` entry |
| Signer.SignedShape | rust/ap-auth-sign/src/lib.rs:90-93 | the header is the parameters, `, sig=` and a URL-safe text that decodes to the signature, 86 symbols for a 64-byte signature |
| Signer.WindowReadsBack | rust/ap-auth-verify/src/header.rs:40-44 | the `time` value the signer formats parses back to the same start and window |
| Decimal.Format | rust/ap-auth-sign/src/lib.rs:68 | formatting gives non-empty digits without leading zero whose value is the number |
| Decimal.ParseUnsigned | rust/ap-auth-verify/src/header.rs:42-43 | a parsed number is below the type's bound |
| Decimal.ParseFormat | rust/ap-auth-verify/src/header.rs:42-43 | every formatted number in range parses back to itself |
| Decimal.ParseUnsignedShape | rust/ap-auth-verify/src/header.rs:42-43 | what parses is an optional `+` and digits (so `-4` and `0b1` are refused) and its value is the digits' value |
| Base64.Encode | rust/ap-auth-sign/src/lib.rs:91 | the encoding uses only the URL-safe alphabet |
| Base64.EncodeLength | rust/ap-auth-sign/src/lib.rs:91 | unpadded encoding has `ceil(4n/3)` symbols |
| Base64.DecodeEncode | rust/ap-auth-verify/src/lib.rs:47-49 | decoding an encoding gives back the bytes |
| Base64.EncodeDecode | rust/ap-auth-verify/src/lib.rs:47-49 | decoding is canonical: whatever decodes is the encoding of its result |
| Base64.PaddedEncode | python/ap-auth.py:27 | the padded encoding's length is a multiple of four |
| Bytes.Utf8Append | rust/ap-auth-verify/src/lib.rs:54-65 | the bytes of a concatenation are the concatenated bytes |
| Bytes.LinesCount | rust/ap-auth-verify/src/lib.rs:56-69 | fields without line feeds give exactly one line feed each |
| RoundTrip.TimeItem | rust/ap-auth-verify/src/header.rs:40-44 | the signer's `time` item sets exactly start and window |
| RoundTrip.AddTextSplits | rust/ap-auth-verify/src/header.rs:31-33 | splitting the signer's `add` value on `+` gives the default fields followed by the header names |
| RoundTrip.AddItem | rust/ap-auth-verify/src/header.rs:31-33 | the signer's `add` item sets exactly the signed field list |
| RoundTrip.SigItem | rust/ap-auth-verify/src/header.rs:37-39 | the signer's `sig` item sets exactly the signature |
| RoundTrip.FoldAdd | rust/ap-auth-verify/src/header.rs:27-47 | the parser's loop over the three signed items yields the signer's start, window, fields and signature |
| RoundTrip.FirstSig | rust/ap-auth-verify/src/header.rs:50 | the first occurrence of the signature is the one the signer appended when the parameters do not contain it |
| RoundTrip.ResidualSigned | rust/ap-auth-verify/src/header.rs:49-54 | removing that occurrence restores exactly the signed parameter text |
| RoundTrip.ParsesBack | rust/ap-auth-verify/src/header.rs:17-56 | the header `params, sig=e` parses to the signer's start, window, fields and signature, key 0, residual `params` |
| RoundTrip.SignedParses | rust/ap-auth-sign/src/lib.rs:79-93 | the output of `sign` parses back to what it signed |
| RoundTrip.MessagesAgree | rust/ap-auth-verify/src/lib.rs:53-73 | the verifier rebuilds the signer's message byte for byte when the request carries the signed values |
| RoundTrip.SignThenVerify | rust/ap-auth-verify/src/lib.rs:21-80 | a request signed by `sign` is accepted with key 0 at any instant of its window |
| PyAuth.PyFormat | python/ap-auth.py:11 | `%d` gives a non-empty text with no surrounding whitespace |
| PyAuth.Lower | python/ap-auth.py:37 | lowering keeps the length |
| PyAuth.CalcValues | python/ap-auth.py:18-24 | one value per field, in order: the method, the path or the other header (empty when absent) |
| PyAuth.CalcMessage | python/ap-auth.py:16-26 | the message loop builds the authorization, the fields' values and the body, joined by line feeds, defaulting to method and path |
| PyAuth.Calc | python/ap-auth.py:10-30 | `calc` returns the other headers with `authorization` set to the parameters, `,sig=` and the signature without padding |
| PyAuth.Entries | python/ap-auth.py:40-42 | one `(key, value)` pair per comma-separated item, each stripped and partitioned at its first `=` |
| PyAuth.Parse | python/ap-auth.py:32-44 | the imperative `parse` returns exactly `Parsed` |
| PyAuth.PadFix | python/ap-auth.py:51-53 | the fixed signature keeps the text as a prefix, adds fewer than four symbols and has a length divisible by four |
| PyAuth.FixPadding | python/ap-auth.py:51-53 | the padding fix computes `PadFix` |
| PyAuth.TimeWindow | python/ap-auth.py:56-61 | reading the window fails with "invalid time" exactly when either half of the `time` value is not an integer |
| PyAuth.ReadWindow | python/ap-auth.py:56-61 | the `try` block computes `TimeWindow` |
| PyAuth.SkipSpace | python/ap-auth.py:68 | `\s*` consumes the longest run of whitespace |
| PyAuth.SkipValue | python/ap-auth.py:68 | `[^ ,]+` consumes the longest run without space or comma |
| PyAuth.SigMatch | python/ap-auth.py:68 | a match of the signature pattern is non-empty and ends inside the text |
| PyAuth.ClockChecked | python/ap-auth.py:62-66 | "early" exactly when `now < start - 1`, "expired" exactly when `now >= start + duration` otherwise; success returns `now` inside `[start - 1, start + duration)` |
| PyAuth.CheckClock | python/ap-auth.py:62-66 | the clock checks compute `ClockChecked` |
| PyAuth.SignatureChecked | python/ap-auth.py:68-91 | the message and key stage returns `now` or fails with a missing raw header, a missing method or "invalid signature" |
| PyAuth.CheckSignature | python/ap-auth.py:68-91 | the message and key stage computes `SignatureChecked` |
| PyAuth.VerifyFields | python/ap-auth.py:70-78 | when no field raises, there is one value per signed field |
| PyAuth.ReadField | python/ap-auth.py:71-78 | one field: `path[0]`, `/` joined with the rest of the path, or the lowered header with `-` turned into `:` |
| PyAuth.CollectFields | python/ap-auth.py:70-78 | the field loop computes `VerifyFields`, stopping at `path[0]` on an empty path |
| PyAuth.FieldsStep | python/ap-auth.py:70-78 | one more field extends the values or raises |
| PyAuth.PrefixFails | python/ap-auth.py:70-78 | once a field raises, the whole message fails |
| PyAuth.TryKeys | python/ap-auth.py:81-90 | the key loop succeeds exactly when some present key verifies the message, skipping empty keys |
| PyAuth.CheckAuths | python/ap-auth.py:50-91 | the body of `verify` after `auths` computes `AuthsChecked` |
| PyAuth.Verify | python/ap-auth.py:47-91 | the imperative `verify` returns exactly `PyVerified` |
| PyFacts.StripPaddingEncode | python/ap-auth.py:29 | stripping `=` from the padded encoding gives the unpadded encoding |
| PyFacts.EncodeLengthMod | python/ap-auth.py:51-53 | an unpadded encoding never has length 1 modulo 4 |
| PyFacts.PadFixPads | python/ap-auth.py:51-53 | for lengths that are not 1 modulo 4 the fix appends exactly the missing `=` |
| PyFacts.PadFixEncode | python/ap-auth.py:51-55 | the fix restores the padded encoding of any signature `calc` writes |
| PyFacts.PadFixOddLength | python/ap-auth.py:53 | a length 1 modulo 4 gets `A==` appended |
| PyFacts.PyIntFormat | python/ap-auth.py:58-59 | `int()` reads back what `%d` wrote |
| PyFacts.ToDictKeys | python/ap-auth.py:39-42 | the dictionary's keys are exactly the items' keys |
| PyFacts.ToDictLast | python/ap-auth.py:42 | a key holds the value of its last item |
| PyFacts.ParsedOutcome | python/ap-auth.py:32-44 | "authorization missing" exactly when the header is absent; "unsupported" exactly when the lowered scheme differs from the prefix; success stores the raw header under the empty key |
| PyFacts.ParsedDict | python/ap-auth.py:39-43 | the dictionary is the items' pairs plus the raw header under the empty key |
| PyFacts.EntriesKeys | python/ap-auth.py:40-42 | the keys of the item pairs are exactly the items' names |
| PyFacts.ParsedKeys | python/ap-auth.py:40-42 | a non-empty key is in the parsed dictionary exactly when some item names it |
| PyFacts.ParsedLastWins | python/ap-auth.py:40-42 | a repeated item's last value wins |
| PyFacts.ItemWithoutValue | python/ap-auth.py:41 | an item without `=` maps its whole text to the empty value |
| PyFacts.UppercasePrefixNeverMatches | python/ap-auth.py:37-38 | a prefix with an uppercase letter rejects every header |
| PyFacts.LowerHasNoUpper | python/ap-auth.py:37 | lowering leaves no uppercase letter |
| PyFacts.DecodeChecked | python/ap-auth.py:55 | the base64 error happens exactly when the decoder refuses the fixed signature |
| PyFacts.TimeParsed | python/ap-auth.py:56-61 | "invalid time" happens exactly when decoding passed and the window does not parse |
| PyFacts.DecodeBeforeTime | python/ap-auth.py:55-61 | the signature is decoded before the time is read, so a bad signature hides a bad time |
| PyFacts.WindowChecked | python/ap-auth.py:62-66 | once decoding and the window pass: "early" exactly before `start - 1`, "expired" exactly from `start + duration`, success inside |
| PyFacts.Accepted | python/ap-auth.py:47-91 | verification succeeds exactly when parsing, decoding, the window and the fields pass and some key verifies the rebuilt message; it returns `date` or the clock; with no key it always fails |
| PyFacts.NoSigMatch | python/ap-auth.py:68 | the pattern does not match inside parameters without `sig=` |
| PyFacts.SigMatchEnd | python/ap-auth.py:68 | the pattern matches the appended `,sig=` item to the end |
| PyFacts.SubSigSigned | python/ap-auth.py:68 | the substitution removes exactly the appended signature item |
| PyRoundTrip.CalcPairs | python/ap-auth.py:11-15 | `calc` writes at least one item, the `time` item |
| PyRoundTrip.PairsClean | python/ap-auth.py:11-15 | every item `calc` writes has a clean name and value |
| PyRoundTrip.TimeValueClean | python/ap-auth.py:11 | the `time` value has no whitespace or comma, and its start has no `+` |
| PyRoundTrip.ParamsLayout | python/ap-auth.py:11-15 | the parameters are the prefix, a space and the `,`-join of the items |
| PyRoundTrip.HeaderLayout | python/ap-auth.py:29 | the header adds `sig` as the last item |
| PyRoundTrip.EntriesOfItems | python/ap-auth.py:40-42 | `parse` reads back exactly the pairs that were joined |
| PyRoundTrip.DictOfPairs | python/ap-auth.py:39-43 | the dictionary holds the signer's `sig`, `time` and `add` values |
| PyRoundTrip.LowerPlain | python/ap-auth.py:37 | lowering a text with no uppercase letter leaves it unchanged |
| PyRoundTrip.ParseCalcHeader | python/ap-auth.py:32-44 | `parse` of a header `calc` wrote gives the dictionary of its items plus the raw header |
| PyRoundTrip.CalcDictSig | python/ap-auth.py:50 | `sig` reads back the written signature |
| PyRoundTrip.CalcDictTime | python/ap-auth.py:56-61 | `time` reads back the written start and duration |
| PyRoundTrip.DefaultAddSplit | python/ap-auth.py:70 | the default `add` splits into method and path |
| PyRoundTrip.CalcDictAdd | python/ap-auth.py:70 | `add` splits into the fields `calc` signed |
| PyRoundTrip.ParamsStripped | python/ap-auth.py:68 | `strip` leaves the written parameters unchanged |
| PyRoundTrip.ResidualHeader | python/ap-auth.py:68 | removing the signature item and stripping gives back the signed parameters |
| PyRoundTrip.SignatureText | python/ap-auth.py:29 | the written signature is non-empty, has no space or comma, and its padding fix restores the padded encoding |
| PyRoundTrip.FieldsAgree | python/ap-auth.py:70-78 | fields read alike one by one give the same values in full |
| PyRoundTrip.CalcHeaderReads | python/ap-auth.py:49-68 | `verify` reads back the signature, the window, the fields and the signed parameters from a header `calc` wrote |
| PyRoundTrip.CalcThenVerify | python/ap-auth.py:47-91 | a request produced by `calc` passes `verify` inside its window when a present key verifies the signer's signatures, returning `date` or the clock |

## Left out

- Ed25519 is not modelled: signing, `verify_strict`, `Signature::from_slice` beyond its 64-byte length check, and `VerifyingKey::from_bytes`. They are the parameters `signer`, `verifies` and `keyValid`.
- The PyNaCl signing and verifying keys are parameters, and `PyAuth.TryKeys` treats every refusal as `BadSignatureError`. PyNaCl's `VerifyKey.verify` instead raises `ValueError` for a signature that is not 64 bytes long, which includes a missing or empty `sig=`. Once a key that is not `None` is tried, such a request leaves `verify` (python/ap-auth.py:85) with that `ValueError`; the model reports it as `InvalidSignature`. This is the counterpart of the Rust "len" refusal, which `Verifier` does model.
- Python's `base64.b64decode(..., validate=True)` is the parameter `b64decode`. Its acceptance rules are not modelled.
- The wasm32 `now()` reads a floating-point JavaScript clock and is not modelled. The native clock is the parameter `clock: Option<u64>`.
- Python's `time.time()` returns a float. The model takes it as an integer number of seconds. `%d` in `calc` rounds down, and `verify` returns the float, where the model returns the integer.
- Python's `int()` also accepts `_` between digits. `PyAuth.PyInt` accepts only optional whitespace, an optional sign and ASCII digits.
- Rust debug builds panic when `now()? - time_tolerance` or `duration + time_tolerance` overflows. The model wraps as a release build does; see `Signer.WindowWraps`.
- Python `bytes` are texts whose characters stand for bytes. Rust `&str` values are texts, encoded as UTF-8 where they enter the message.
- Python dictionaries are maps. Their iteration order is never observed by the code.
- `re.sub` is modelled only for the one pattern `verify` uses, `,?\s*sig=[^ ,]+`, matched left to right.
- The Rust iterator of signed headers is a sequence.
- The reqwest middleware of the signing crate is not modelled, except its default tolerance `duration.div_ceil(10)`.
- RoundTrip.SignThenVerify: requires that the signature text does not already occur in the parameter text, that header names contain no `,` or `+` and do not end in whitespace, and that nothing wraps. Outside these conditions the parser's first-occurrence split or `add` split can differ from what was signed.
- PyRoundTrip.CalcThenVerify: requires that `sig=` does not occur in the written parameters, that the prefix is non-empty, lowercase and without whitespace, that the key name and fields contain no whitespace or `,` (and the fields no `+`), and that `verify` reads the same field values `calc` signed. `re.sub` removes every `sig=` item, so a key name containing `sig=` changes the rebuilt message.
- The two implementations accept different windows. Rust accepts `start <= now <= start + window`; Python accepts `start - 1 <= now < start + duration`. Each is modelled as written.
