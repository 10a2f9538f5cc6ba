/**
 * The `authorization` header parser of the Rust verifier
 * (`AuthHeader::new` in rust/ap-auth-verify/src/header.rs).
 *
 * `Parse` is the specification: the scheme check, then a left-to-right
 * fold of `ApplyItem` over the comma-separated items, then the recovery of
 * the residual header text. `ParseHeader` is the imperative parser, which
 * overwrites the fields of a mutable record inside its loop, and is proved
 * to compute `Parse`.
 */
module HeaderParser {
  import opened Wrappers
  import opened Seqs
  import opened Decimal

  /** Rust's `char::is_whitespace`: the characters with the Unicode White_Space property. */
  predicate IsWhitespace(c: char) {
    ('\t' <= c <= '\r') || c == ' ' || c == '\U{85}' || c == '\U{A0}' || c == '\U{1680}'
    || ('\U{2000}' <= c <= '\U{200A}') || c == '\U{2028}' || c == '\U{2029}' || c == '\U{202F}'
    || c == '\U{205F}' || c == '\U{3000}'
  }

  /** Rust's `str::trim`. */
  function TrimWs(s: string): string {
    Trim(s, IsWhitespace)
  }

  /** The parsed header. `omitBody` is never set by the parser (see `ParsedFields`). */
  datatype AuthHeader = AuthHeader(
    start: u64,
    duration: u64,
    sig: string,
    key: u32,
    add: seq<string>,
    header: string,
    omitBody: bool)

  /** Why a header was rejected; `Text` gives the reason string the Rust code returns. */
  datatype Reason = SchemeUnsupported | Separator | UnknownParam | Key | Time | Start | Duration

  function Text(r: Reason): string {
    match r
    case SchemeUnsupported => "scheme unsupported"
    case Separator => "separator"
    case UnknownParam => "unknown param"
    case Key => "key"
    case Time => "time"
    case Start => "start"
    case Duration => "duration"
  }

  /** The scheme token, with the single space that must follow it. */
  const Scheme: string := "alpico "

  /** The fields signed when no `add` parameter is given. */
  const DefaultAdd: seq<string> := ["-method", "-path"]

  const Default: AuthHeader := AuthHeader(0, 0, "", 0, DefaultAdd, "", false)

  /**
   * The value of a `time` parameter: two `u64` numerals joined by its first
   * `+`. No `+` is reason "time", a bad start "start", a bad duration
   * "duration".
   */
  function ParseTime(value: string): (r: Result<(u64, u64), Reason>)
    ensures r == Err(Time) <==> '+' !in value
    ensures '+' in value ==>
      var (a, b) := SplitOnce(value, '+').value;
      && value == a + "+" + b && '+' !in a
      && (r == Err(Start) <==> ParseUnsigned(a, U64).None?)
      && (r == Err(Duration) <==> ParseUnsigned(a, U64).Some? && ParseUnsigned(b, U64).None?)
      && (r.Ok? <==> ParseUnsigned(a, U64).Some? && ParseUnsigned(b, U64).Some?)
      && (r.Ok? ==> r.value.0 == ParseUnsigned(a, U64).value && r.value.1 == ParseUnsigned(b, U64).value)
  {
    match SplitOnce(value, '+')
    case None => Err(Time)
    case Some((a, b)) =>
      SplitOnceParts(value, '+');
      match ParseUnsigned(a, U64)
      case None => Err(Start)
      case Some(s) =>
        match ParseUnsigned(b, U64)
        case None => Err(Duration)
        case Some(d) => Ok((s, d))
  }

  /** The trimmed name of an item `name=value`: what stands before its first `=`. */
  function KeyOf(item: string): string
    requires '=' in item
  {
    TrimWs(SplitOnce(item, '=').value.0)
  }

  /** The trimmed value of an item `name=value`: what stands after its first `=`. */
  function ValueOf(item: string): string
    requires '=' in item
  {
    TrimWs(SplitOnce(item, '=').value.1)
  }

  /** The parameters a header may carry. */
  datatype Param = Add | KeyId | Sig | TimeWindow | Unknown

  function ParamOf(name: string): Param {
    if name == "add" then Add
    else if name == "key" then KeyId
    else if name == "sig" then Sig
    else if name == "time" then TimeWindow
    else Unknown
  }

  /** One trimmed item `name=value`: the effect of one turn of the parameter loop. */
  function ApplyItem(res: AuthHeader, item: string): (r: Result<AuthHeader, Reason>)
    ensures r == Err(Separator) <==> '=' !in item
    ensures '=' in item && ParamOf(KeyOf(item)) == Unknown ==> r == Err(UnknownParam)
    ensures r != Err(SchemeUnsupported)
    ensures r.Ok? && r.value.sig != res.sig ==> r.value.sig == ValueOf(item)
    ensures r.Ok? ==> r.value.header == res.header && r.value.omitBody == res.omitBody
  {
    if '=' !in item then Err(Separator)
    else
      var value := ValueOf(item);
      match ParamOf(KeyOf(item))
      case Add => Ok(res.(add := Split(value, '+')))
      case KeyId =>
        (match ParseUnsigned(value, U32)
         case None => Err(Key)
         case Some(n) => Ok(res.(key := n)))
      case Sig => Ok(res.(sig := value))
      case TimeWindow =>
        (match ParseTime(value)
         case Err(e) => Err(e)
         case Ok((s, d)) => Ok(res.(start := s, duration := d)))
      case Unknown => Err(UnknownParam)
  }

  /** The parameter loop: the items in order, each trimmed, the first failure ending it. */
  function ApplyItems(res: AuthHeader, items: seq<string>): Result<AuthHeader, Reason>
    decreases |items|
  {
    if items == [] then Ok(res)
    else match ApplyItem(res, TrimWs(items[0]))
      case Err(e) => Err(e)
      case Ok(next) => ApplyItems(next, items[1..])
  }

  /** The header text with the signature and the comma-delimited piece just before it cut out. */
  function Residual(raw: string, sig: string): (r: string)
    requires Find(raw, sig).Some?
    ensures |r| + |sig| <= |raw|
    ensures sig == [] ==> r == raw
  {
    var i := Find(raw, sig).value;
    var left, right := raw[..i], raw[i + |sig|..];
    var cut := RSplitOnce(left, ',');
    var kept := if cut.Some? then cut.value.0 else left;
    assert sig == [] ==> i == 0 by {
      if sig == [] { assert OccursAt(raw, sig, 0); }
    }
    kept + right
  }

  /** The items of a header that carries the scheme: what follows the scheme, split on `,`. */
  function Items(raw: string): seq<string>
    requires Scheme <= TrimStart(raw, IsWhitespace)
  {
    Split(TrimStart(raw, IsWhitespace)[|Scheme|..], ',')
  }

  /** `AuthHeader::new`, as a function. */
  function Parse(raw: string): Result<AuthHeader, Reason>
  {
    var trimmed := TrimStart(raw, IsWhitespace);
    if !(Scheme <= trimmed) then Err(SchemeUnsupported)
    else match ApplyItems(Default, Items(raw))
      case Err(e) => Err(e)
      case Ok(res) =>
        ParsedSigFound(raw);
        Ok(res.(header := Residual(raw, res.sig)))
  }

  /** One turn of the parameter loop of `AuthHeader::new`: stores one item's value in the record. */
  method ApplyParam(res: AuthHeader, item: string) returns (r: Result<AuthHeader, Reason>)
    ensures r == ApplyItem(res, item)
    ensures r.Ok? ==> r.value.header == res.header && r.value.omitBody == res.omitBody
  {
    var kv := SplitOnce(item, '=');
    if kv.None? {
      return Err(Separator);
    }
    var next := res;
    var key, value := TrimWs(kv.value.0), TrimWs(kv.value.1);
    if key == "add" {
      next := next.(add := Split(value, '+'));
    } else if key == "key" {
      var n := ParseUnsigned(value, U32);
      if n.None? {
        return Err(Key);
      }
      next := next.(key := n.value);
    } else if key == "sig" {
      next := next.(sig := value);
    } else if key == "time" {
      var parts := SplitOnce(value, '+');
      if parts.None? {
        return Err(Time);
      }
      var start := ParseUnsigned(parts.value.0, U64);
      if start.None? {
        return Err(Start);
      }
      next := next.(start := start.value);
      var duration := ParseUnsigned(parts.value.1, U64);
      if duration.None? {
        return Err(Duration);
      }
      next := next.(duration := duration.value);
    } else {
      return Err(UnknownParam);
    }
    return Ok(next);
  }

  /** `AuthHeader::new`: fills a mutable record item by item, then builds the residual header with two pushes. */
  method ParseHeader(raw: string) returns (r: Result<AuthHeader, Reason>)
    ensures r == Parse(raw)
  {
    var res := Default;
    var trimmed := TrimStart(raw, IsWhitespace);
    if !(Scheme <= trimmed) {
      return Err(SchemeUnsupported);
    }
    var items := Split(trimmed[|Scheme|..], ',');
    var i := 0;
    assert items[i..] == items;
    while i < |items|
      invariant 0 <= i <= |items|
      invariant ApplyItems(Default, items) == ApplyItems(res, items[i..])
      invariant res.header == "" && !res.omitBody
    {
      assert items[i..][0] == items[i] && items[i..][1..] == items[i + 1..];
      ApplyItemsStep(res, items[i..]);
      var step := ApplyParam(res, TrimWs(items[i]));
      if step.Err? {
        return Err(step.error);
      }
      res := step.value;
      i := i + 1;
    }
    assert items == Items(raw) && items[i..] == [];
    ParsedSigFound(raw);
    res := DropSignature(raw, res);
    return Ok(res);
  }

  /**
   * The end of `AuthHeader::new`: cuts the signature, and the piece of the
   * item list just before it, out of the raw header, and pushes what is
   * left onto the (empty) residual header.
   */
  method DropSignature(raw: string, res: AuthHeader) returns (out: AuthHeader)
    requires res.header == [] && Find(raw, res.sig).Some?
    ensures out == res.(header := Residual(raw, res.sig))
  {
    out := res;
    var at := Find(raw, out.sig).value;
    var left, right := raw[..at], raw[at + |out.sig|..];
    var cut := RSplitOnce(left, ',');
    var kept := if cut.Some? then cut.value.0 else left;
    assert kept + right == Residual(raw, res.sig);
    out := out.(header := out.header + kept);
    assert out.header == kept;
    out := out.(header := out.header + right);
    assert out.header == Residual(raw, res.sig);
  }

  /** One turn of the parameter loop. */
  lemma ApplyItemsStep(res: AuthHeader, items: seq<string>)
    requires items != []
    ensures ApplyItem(res, TrimWs(items[0])).Err? ==> ApplyItems(res, items) == Err(ApplyItem(res, TrimWs(items[0])).error)
    ensures ApplyItem(res, TrimWs(items[0])).Ok? ==> ApplyItems(res, items) == ApplyItems(ApplyItem(res, TrimWs(items[0])).value, items[1..])
  {
  }

  /** An item of a header stands in the raw header text. */
  lemma ItemOccurs(raw: string, j: nat)
    requires Scheme <= TrimStart(raw, IsWhitespace)
    requires j < |Items(raw)|
    ensures Occurs(raw, Items(raw)[j])
  {
    TrimStartSuffix(raw, IsWhitespace);
    var rest := TrimStart(raw, IsWhitespace)[|Scheme|..];
    assert OccursAt(raw, rest, |raw| - |rest|);
    SplitOccurs(rest, ',');
    assert Items(raw)[j] in Split(rest, ',');
    OccursTransitive(raw, rest, Items(raw)[j]);
  }

  /** The value of an item stands in the item as it was before trimming. */
  lemma ValueOccurs(item: string)
    requires '=' in TrimWs(item)
    ensures Occurs(item, ValueOf(TrimWs(item)))
  {
    var t := TrimWs(item);
    var v := SplitOnce(t, '=').value.1;
    TrimOccurs(item, IsWhitespace);
    SplitOnceOccurs(t, '=');
    TrimOccurs(v, IsWhitespace);
    OccursTransitive(item, t, v);
    OccursTransitive(item, v, TrimWs(v));
  }

  /** The signature a header yields was cut out of it, so the residual split cannot fail. */
  lemma ParsedSigFound(raw: string)
    requires Scheme <= TrimStart(raw, IsWhitespace)
    ensures ApplyItems(Default, Items(raw)).Ok? ==> Find(raw, ApplyItems(Default, Items(raw)).value.sig).Some?
  {
    var items := Items(raw);
    if ApplyItems(Default, items).Ok? {
      LastOccurrenceWins(Default, items, Sig);
      var j := LastOf(items, Sig);
      var sig := ApplyItems(Default, items).value.sig;
      if j < 0 {
        OccursEmpty(raw);
      } else {
        ItemOccurs(raw, j);
        ValueOccurs(items[j]);
        OccursTransitive(raw, items[j], sig);
      }
    }
  }

  /** The value of one parameter in a record, or what an item sets it to. */
  datatype Setting = SigIs(sig: string) | AddIs(add: seq<string>) | KeyIs(key: u32) | TimeIs(start: u64, duration: u64) | Rejected

  /** The field of `res` that parameter `p` sets. */
  function Get(res: AuthHeader, p: Param): Setting {
    match p
    case Sig => SigIs(res.sig)
    case Add => AddIs(res.add)
    case KeyId => KeyIs(res.key)
    case TimeWindow => TimeIs(res.start, res.duration)
    case Unknown => Rejected
  }

  /** The parameter an item sets: the one its name selects, or `Unknown` when it has no `=`. */
  function ParamAt(item: string): Param {
    var t := TrimWs(item);
    if '=' in t then ParamOf(KeyOf(t)) else Unknown
  }

  /**
   * What an item sets its parameter to, or `Rejected` when the item is
   * refused: the per-parameter view of `ApplyItem`, which `ItemAccepted`
   * and `ItemSets` tie to it.
   */
  function SettingOf(item: string): (r: Setting)
    ensures r != Rejected ==> ParamAt(item) != Unknown
  {
    var t := TrimWs(item);
    if '=' !in t then Rejected
    else
      var value := ValueOf(t);
      match ParamOf(KeyOf(t))
      case Sig => SigIs(value)
      case Add => AddIs(Split(value, '+'))
      case KeyId =>
        (match ParseUnsigned(value, U32)
         case None => Rejected
         case Some(n) => KeyIs(n))
      case TimeWindow =>
        (match ParseTime(value)
         case Err(_) => Rejected
         case Ok((s, d)) => TimeIs(s, d))
      case Unknown => Rejected
  }

  /** The index of the last item that sets `p`, or -1 when none does. */
  function LastOf(items: seq<string>, p: Param): (j: int)
    ensures -1 <= j < |items|
    ensures j >= 0 ==> ParamAt(items[j]) == p
    ensures forall k :: j < k < |items| ==> ParamAt(items[k]) != p
  {
    if items == [] then -1
    else
      var j := LastOf(items[1..], p);
      assert forall k :: 1 <= k < |items| ==> items[k] == items[1..][k - 1];
      if j >= 0 then j + 1 else if ParamAt(items[0]) == p then 0 else -1
  }

  /** Items are taken left to right: the fold over `a + b` is the fold over `b` from where `a` left off. */
  lemma {:induction false} ApplyItemsAppend(res: AuthHeader, a: seq<string>, b: seq<string>)
    ensures ApplyItems(res, a + b) ==
      match ApplyItems(res, a)
      case Err(e) => Err(e)
      case Ok(next) => ApplyItems(next, b)
    decreases |a|
  {
    if a == [] {
      assert a + b == b;
    } else {
      assert (a + b)[0] == a[0] && (a + b)[1..] == a[1..] + b;
      match ApplyItem(res, TrimWs(a[0]))
      case Err(_) =>
      case Ok(next) => ApplyItemsAppend(next, a[1..], b);
    }
  }

  /** The first item that fails decides the error, whatever follows it. */
  lemma FirstFailureDecides(res: AuthHeader, items: seq<string>, j: nat)
    requires j < |items|
    requires ApplyItems(res, items[..j]).Ok?
    requires ApplyItem(ApplyItems(res, items[..j]).value, TrimWs(items[j])).Err?
    ensures ApplyItems(res, items) == Err(ApplyItem(ApplyItems(res, items[..j]).value, TrimWs(items[j])).error)
  {
    SplitAround(items, j);
    FailureAfter(res, items[..j], items[j], items[j + 1..]);
  }

  /** An item that fails after items that were accepted ends the fold with its error. */
  lemma FailureAfter(res: AuthHeader, head: seq<string>, item: string, tail: seq<string>)
    requires ApplyItems(res, head).Ok?
    requires ApplyItem(ApplyItems(res, head).value, TrimWs(item)).Err?
    ensures ApplyItems(res, head + ([item] + tail)) == Err(ApplyItem(ApplyItems(res, head).value, TrimWs(item)).error)
  {
    ApplyItemsAppend(res, head, [item] + tail);
    ApplyItemsStep(ApplyItems(res, head).value, [item] + tail);
  }

  /** The fold never reports the scheme: only the scheme check does. */
  lemma {:induction false} ApplyItemsNotScheme(res: AuthHeader, items: seq<string>)
    ensures ApplyItems(res, items) != Err(SchemeUnsupported)
    decreases |items|
  {
    if items != [] {
      match ApplyItem(res, TrimWs(items[0]))
      case Err(_) =>
      case Ok(next) => ApplyItemsNotScheme(next, items[1..]);
    }
  }

  /** "scheme unsupported" exactly when the input, leading whitespace removed, does not start with `alpico `. */
  lemma SchemeChecked(raw: string)
    ensures Parse(raw) == Err(SchemeUnsupported) <==> !(Scheme <= TrimStart(raw, IsWhitespace))
  {
    if Scheme <= TrimStart(raw, IsWhitespace) {
      ApplyItemsNotScheme(Default, Items(raw));
    }
  }

  /** One item is accepted exactly when it sets its parameter to something. */
  lemma ItemAccepted(res: AuthHeader, item: string)
    ensures ApplyItem(res, TrimWs(item)).Ok? <==> SettingOf(item) != Rejected
  {
  }

  /** An accepted item sets its own parameter and leaves every other one as it was. */
  lemma ItemSets(res: AuthHeader, item: string, p: Param)
    requires ApplyItem(res, TrimWs(item)).Ok?
    ensures Get(ApplyItem(res, TrimWs(item)).value, p) == if p == ParamAt(item) then SettingOf(item) else Get(res, p)
  {
  }

  /** Every item of an accepted header has an `=`, a known name, and a value its parameter accepts. */
  lemma {:induction false} AcceptedItems(res: AuthHeader, items: seq<string>)
    requires ApplyItems(res, items).Ok?
    ensures forall k :: 0 <= k < |items| ==> SettingOf(items[k]) != Rejected
    decreases |items|
  {
    if items != [] {
      ItemAccepted(res, items[0]);
      AcceptedItems(ApplyItem(res, TrimWs(items[0])).value, items[1..]);
      assert forall k :: 1 <= k < |items| ==> items[k] == items[1..][k - 1];
    }
  }

  /** The fold leaves the residual header and the body flag as they were. */
  lemma {:induction false} ApplyItemsKeepsRest(res: AuthHeader, items: seq<string>)
    requires ApplyItems(res, items).Ok?
    ensures ApplyItems(res, items).value.header == res.header
    ensures ApplyItems(res, items).value.omitBody == res.omitBody
    decreases |items|
  {
    if items != [] {
      ApplyItemsKeepsRest(ApplyItem(res, TrimWs(items[0])).value, items[1..]);
    }
  }

  /**
   * A repeated parameter keeps its last occurrence, and a parameter that
   * does not occur keeps the value it had before the fold.
   */
  lemma {:induction false} LastOccurrenceWins(res: AuthHeader, items: seq<string>, p: Param)
    requires ApplyItems(res, items).Ok?
    ensures var j := LastOf(items, p);
      Get(ApplyItems(res, items).value, p) == if j < 0 then Get(res, p) else SettingOf(items[j])
    decreases |items|
  {
    if items != [] {
      ApplyItemsStep(res, items);
      var next := ApplyItem(res, TrimWs(items[0])).value;
      ItemSets(res, items[0], p);
      LastOccurrenceWins(next, items[1..], p);
    }
  }

  /**
   * An accepted header holds, for each parameter, what its last item set,
   * or the default when it has none; the body is never omitted, and the
   * residual header text is recovered from the raw input.
   */
  lemma ParsedFields(raw: string, p: Param)
    requires Parse(raw).Ok?
    ensures Scheme <= TrimStart(raw, IsWhitespace)
    ensures var r, j := Parse(raw).value, LastOf(Items(raw), p);
      && Get(r, p) == (if j < 0 then Get(Default, p) else SettingOf(Items(raw)[j]))
      && !r.omitBody
      && Find(raw, r.sig).Some? && r.header == Residual(raw, r.sig)
  {
    var items := Items(raw);
    var res := ApplyItems(Default, items).value;
    ParsedSigFound(raw);
    assert Parse(raw) == Ok(res.(header := Residual(raw, res.sig)));
    LastOccurrenceWins(Default, items, p);
    ApplyItemsKeepsRest(Default, items);
  }

  /**
   * The residual header: `raw` is `left + sig + right` with `sig` at its
   * first occurrence, and the residual is `right` behind `left` cut at its
   * last comma (all of `left` when it has none).
   */
  lemma ResidualLayout(raw: string, sig: string)
    requires Find(raw, sig).Some?
    ensures var i, h := Find(raw, sig).value, Residual(raw, sig);
      var left, right := raw[..i], raw[i + |sig|..];
      && raw == left + sig + right
      && |right| <= |h| && h[|h| - |right|..] == right
      && var kept := h[..|h| - |right|];
      if ',' in left then left == kept + [','] + left[|kept| + 1..] && ',' !in left[|kept| + 1..]
      else kept == left
  {
    var i := Find(raw, sig).value;
    var left, right := raw[..i], raw[i + |sig|..];
    assert raw == left + sig + right by {
      assert raw[i..i + |sig|] == sig;
    }
    if ',' in left {
      RSplitOnceParts(left, ',');
    }
  }
}
