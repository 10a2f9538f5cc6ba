/**
 * Sequence operations that the Rust standard library (`str::split`,
 * `split_once`, `rsplit_once`, `trim`, `find`) and Python's `bytes`
 * methods (`split`, `partition`, `strip`, `join`) provide to the code being
 * modelled. They are generic over the element type, so that the Rust side
 * uses them on `string` and the Python side on byte sequences.
 *
 * The functions carry only light contracts; how a result is laid out in its
 * input (the concatenation a split undoes, the slice a trim keeps) is stated
 * by lemmas, which callers invoke where they need it.
 */
module Seqs {
  import opened Wrappers

  /** Concatenation is associative. */
  lemma AppendAssoc<T>(a: seq<T>, b: seq<T>, c: seq<T>)
    ensures (a + b) + c == a + (b + c)
  {
  }

  /** A sequence is what comes before position `j`, the element there, and what follows. */
  lemma SplitAround<T>(s: seq<T>, j: nat)
    requires j < |s|
    ensures s == s[..j] + ([s[j]] + s[j + 1..])
  {
  }

  /** Position of the first `x` in `s`. */
  function IndexOf<T(==)>(s: seq<T>, x: T): (r: Option<nat>)
    ensures r.None? <==> x !in s
    ensures r.Some? ==> r.value < |s| && s[r.value] == x && x !in s[..r.value]
  {
    if |s| == 0 then None
    else if s[0] == x then Some(0)
    else match IndexOf(s[1..], x)
      case None => None
      case Some(i) =>
        assert s[..i + 1] == [s[0]] + s[1..][..i];
        Some(i + 1)
  }

  /** Position of the last `x` in `s`. */
  function LastIndexOf<T(==)>(s: seq<T>, x: T): (r: Option<nat>)
    ensures r.None? <==> x !in s
    ensures r.Some? ==> r.value < |s| && s[r.value] == x && x !in s[r.value + 1..]
  {
    if |s| == 0 then None
    else if s[|s| - 1] == x then Some(|s| - 1)
    else
      assert s == s[..|s| - 1] + [s[|s| - 1]];
      LastIndexOf(s[..|s| - 1], x)
  }

  /** Split at the first `x` (Rust `split_once` with a char pattern); `SplitOnceParts` gives the layout. */
  function SplitOnce<T(==)>(s: seq<T>, x: T): (r: Option<(seq<T>, seq<T>)>)
    ensures r.None? <==> x !in s
    ensures r.Some? ==> |r.value.0| + 1 + |r.value.1| == |s| && x !in r.value.0
  {
    match IndexOf(s, x)
    case None => None
    case Some(i) => Some((s[..i], s[i + 1..]))
  }

  /** The two parts of `split_once`, with the separator between them, make up the input. */
  lemma SplitOnceParts<T>(s: seq<T>, x: T)
    requires SplitOnce(s, x).Some?
    ensures s == SplitOnce(s, x).value.0 + [x] + SplitOnce(s, x).value.1
  {
    var i := IndexOf(s, x).value;
    assert s == s[..i] + [x] + s[i + 1..];
  }

  /** Split at the last `x` (Rust `rsplit_once` with a char pattern); `RSplitOnceParts` gives the layout. */
  function RSplitOnce<T(==)>(s: seq<T>, x: T): (r: Option<(seq<T>, seq<T>)>)
    ensures r.None? <==> x !in s
    ensures r.Some? ==> |r.value.0| + 1 + |r.value.1| == |s| && x !in r.value.1
  {
    match LastIndexOf(s, x)
    case None => None
    case Some(i) => Some((s[..i], s[i + 1..]))
  }

  /** The two parts of `rsplit_once`, with the separator between them, make up the input. */
  lemma RSplitOnceParts<T>(s: seq<T>, x: T)
    requires RSplitOnce(s, x).Some?
    ensures s == RSplitOnce(s, x).value.0 + [x] + RSplitOnce(s, x).value.1
  {
    var i := LastIndexOf(s, x).value;
    assert s == s[..i] + [x] + s[i + 1..];
  }

  /** Python's `partition`: the part before the first `x` and the part after it, or `s` and nothing. */
  function Partition<T(==)>(s: seq<T>, x: T): (r: (seq<T>, seq<T>))
    ensures x in s ==> x !in r.0 && |r.0| + 1 + |r.1| == |s|
    ensures x !in s ==> r == (s, [])
  {
    match SplitOnce(s, x)
    case None => (s, [])
    case Some(p) => p
  }

  /** The parts joined with one `x` between neighbours. */
  function Join<T>(parts: seq<seq<T>>, x: T): seq<T>
  {
    if |parts| == 0 then []
    else if |parts| == 1 then parts[0]
    else parts[0] + [x] + Join(parts[1..], x)
  }

  /** Joining one more part appends the separator and that part. */
  lemma {:induction false} JoinSnoc<T>(parts: seq<seq<T>>, last: seq<T>, x: T)
    requires |parts| >= 1
    ensures Join(parts + [last], x) == Join(parts, x) + [x] + last
  {
    if |parts| == 1 {
      assert parts + [last] == [parts[0], last];
      assert [parts[0], last][1..] == [last];
    } else {
      assert (parts + [last])[1..] == parts[1..] + [last];
      JoinSnoc(parts[1..], last, x);
    }
  }

  /** When the separator and every element of every part satisfy `ok`, so does every element of the join. */
  lemma {:induction false} JoinKeeps<T>(parts: seq<seq<T>>, x: T, ok: T -> bool)
    requires ok(x)
    requires forall i :: 0 <= i < |parts| ==> forall j :: 0 <= j < |parts[i]| ==> ok(parts[i][j])
    ensures forall j :: 0 <= j < |Join(parts, x)| ==> ok(Join(parts, x)[j])
  {
    if |parts| > 1 {
      JoinKeeps(parts[1..], x, ok);
      var rest := Join(parts[1..], x);
      assert Join(parts, x) == parts[0] + [x] + rest;
      forall j | 0 <= j < |Join(parts, x)| ensures ok(Join(parts, x)[j]) {
        if j > |parts[0]| {
          assert Join(parts, x)[j] == rest[j - |parts[0]| - 1];
        }
      }
    }
  }

  /** Every part of `s` between the occurrences of `x`, empty parts included (Rust `split`, Python `split`). */
  function Split<T(==)>(s: seq<T>, x: T): (r: seq<seq<T>>)
    ensures |r| >= 1
    ensures forall p :: p in r ==> x !in p
    decreases |s|
  {
    match IndexOf(s, x)
    case None => [s]
    case Some(i) => [s[..i]] + Split(s[i + 1..], x)
  }

  /** Joining the parts of a split with the separator gives back the input. */
  lemma {:induction false} JoinSplit<T>(s: seq<T>, x: T)
    ensures Join(Split(s, x), x) == s
    decreases |s|
  {
    match IndexOf(s, x)
    case None =>
    case Some(i) =>
      var rest := Split(s[i + 1..], x);
      JoinSplit(s[i + 1..], x);
      assert Split(s, x) == [s[..i]] + rest;
      assert Join([s[..i]] + rest, x) == s[..i] + [x] + Join(rest, x);
      assert s == s[..i] + [x] + s[i + 1..];
  }

  /** Splitting what `Join` glued together gives back the parts. */
  lemma {:induction false} SplitJoin<T>(parts: seq<seq<T>>, x: T)
    requires |parts| >= 1
    requires forall p :: p in parts ==> x !in p
    ensures Split(Join(parts, x), x) == parts
  {
    if |parts| == 1 {
      assert x !in parts[0];
    } else {
      var s := Join(parts, x);
      assert x in parts[0] + [x];
      assert parts[1] in parts;
      SplitJoin(parts[1..], x);
      assert s == parts[0] + [x] + Join(parts[1..], x);
      SplitOnceAt(parts[0], x, Join(parts[1..], x));
    }
  }

  /** The first `x` of `a + [x] + b` is the one after `a` when `a` has none. */
  lemma SplitOnceAt<T>(a: seq<T>, x: T, b: seq<T>)
    requires x !in a
    ensures IndexOf(a + [x] + b, x) == Some(|a|)
    ensures SplitOnce(a + [x] + b, x) == Some((a, b))
    ensures Split(a + [x] + b, x) == [a] + Split(b, x)
  {
    var s := a + [x] + b;
    var r := IndexOf(s, x);
    assert s[|a|] == x;
    assert s[..|a|] == a;
    assert s[|a| + 1..] == b;
  }

  /** Two pieces without the separator, joined by it, split back into those two. */
  lemma SplitTwo<T>(a: seq<T>, x: T, b: seq<T>)
    requires x !in a && x !in b
    ensures Split(a + [x] + b, x) == [a, b]
  {
    SplitOnceAt(a, x, b);
    assert Split(b, x) == [b];
  }

  /** Three pieces without the separator, joined by it, split back into those three. */
  lemma SplitThree<T>(a: seq<T>, x: T, b: seq<T>, c: seq<T>)
    requires x !in a && x !in b && x !in c
    ensures Split(a + [x] + (b + [x] + c), x) == [a, b, c]
  {
    SplitOnceAt(a, x, b + [x] + c);
    SplitTwo(b, x, c);
  }

  /** The last `x` of `a + [x] + b` is the one before `b` when `b` has none. */
  lemma RSplitOnceAt<T>(a: seq<T>, x: T, b: seq<T>)
    requires x !in b
    ensures RSplitOnce(a + [x] + b, x) == Some((a, b))
  {
    var s := a + [x] + b;
    var r := LastIndexOf(s, x);
    assert s[|a|] == x;
    assert s[..|a|] == a;
    assert s[|a| + 1..] == b;
  }

  /** Drops the leading elements that satisfy `ws`; `TrimStartSuffix` gives the layout. */
  function TrimStart<T>(s: seq<T>, ws: T -> bool): (r: seq<T>)
    ensures |r| <= |s|
    ensures r == [] || !ws(r[0])
  {
    if |s| > 0 && ws(s[0]) then TrimStart(s[1..], ws) else s
  }

  /** What `TrimStart` keeps is a suffix of its input, and everything it dropped satisfies `ws`. */
  lemma {:induction false} TrimStartSuffix<T>(s: seq<T>, ws: T -> bool)
    ensures TrimStart(s, ws) == s[|s| - |TrimStart(s, ws)|..]
    ensures forall i :: 0 <= i < |s| - |TrimStart(s, ws)| ==> ws(s[i])
  {
    if |s| > 0 && ws(s[0]) {
      TrimStartSuffix(s[1..], ws);
      forall i | 1 <= i < |s| - |TrimStart(s, ws)| ensures ws(s[i]) {
        assert s[i] == s[1..][i - 1];
      }
    }
  }

  /** Drops the trailing elements that satisfy `ws`; `TrimEndPrefix` gives the layout. */
  function TrimEnd<T>(s: seq<T>, ws: T -> bool): (r: seq<T>)
    ensures |r| <= |s|
    ensures r == [] || !ws(r[|r| - 1])
  {
    if |s| > 0 && ws(s[|s| - 1]) then TrimEnd(s[..|s| - 1], ws) else s
  }

  /** What `TrimEnd` keeps is a prefix of its input, and everything it dropped satisfies `ws`. */
  lemma {:induction false} TrimEndPrefix<T>(s: seq<T>, ws: T -> bool)
    ensures TrimEnd(s, ws) == s[..|TrimEnd(s, ws)|]
    ensures forall i :: |TrimEnd(s, ws)| <= i < |s| ==> ws(s[i])
  {
    if |s| > 0 && ws(s[|s| - 1]) {
      TrimEndPrefix(s[..|s| - 1], ws);
      forall i | |TrimEnd(s, ws)| <= i < |s| - 1 ensures ws(s[i]) {
        assert s[i] == s[..|s| - 1][i];
      }
    }
  }

  /** Trailing `ws` elements are dropped by `TrimEnd`. */
  lemma {:induction false} TrimEndDropsTrailing<T>(s: seq<T>, w: seq<T>, ws: T -> bool)
    requires forall i :: 0 <= i < |w| ==> ws(w[i])
    requires s == [] || !ws(s[|s| - 1])
    ensures TrimEnd(s + w, ws) == s
  {
    if |w| > 0 {
      assert (s + w)[..|s + w| - 1] == s + w[..|w| - 1];
      TrimEndDropsTrailing(s, w[..|w| - 1], ws);
    } else {
      assert s + w == s;
    }
  }

  /** Drops the elements satisfying `ws` at both ends (Rust `trim`, Python `strip`). */
  function Trim<T>(s: seq<T>, ws: T -> bool): (r: seq<T>)
    ensures r == [] || (!ws(r[0]) && !ws(r[|r| - 1]))
  {
    TrimEndPrefix(TrimStart(s, ws), ws);
    TrimEnd(TrimStart(s, ws), ws)
  }

  /** A sequence with no `ws` element at either end trims to itself. */
  lemma TrimNoop<T>(s: seq<T>, ws: T -> bool)
    requires s == [] || (!ws(s[0]) && !ws(s[|s| - 1]))
    ensures TrimStart(s, ws) == s && TrimEnd(s, ws) == s && Trim(s, ws) == s
  {
  }

  /** Leading `ws` elements are dropped by `Trim`. */
  lemma {:induction false} TrimDropsLeading<T>(w: seq<T>, s: seq<T>, ws: T -> bool)
    requires forall i :: 0 <= i < |w| ==> ws(w[i])
    requires s == [] || (!ws(s[0]) && !ws(s[|s| - 1]))
    ensures Trim(w + s, ws) == s
  {
    if |w| > 0 {
      assert (w + s)[1..] == w[1..] + s;
      TrimDropsLeading(w[1..], s, ws);
    } else {
      assert w + s == s;
      TrimNoop(s, ws);
    }
  }

  /** `pat` stands in `s` at index `i`. */
  predicate OccursAt<T(==)>(s: seq<T>, pat: seq<T>, i: nat)
  {
    i + |pat| <= |s| && s[i..i + |pat|] == pat
  }

  /** `pat` is a contiguous part of `s`. */
  ghost predicate Occurs<T>(s: seq<T>, pat: seq<T>)
  {
    exists i: nat :: OccursAt(s, pat, i)
  }

  /** The first index at or after `k` where `pat` stands in `s`. */
  function FindFrom<T(==)>(s: seq<T>, pat: seq<T>, k: nat): (r: Option<nat>)
    ensures r.Some? ==> k <= r.value && OccursAt(s, pat, r.value)
    ensures r.Some? ==> forall j: nat :: k <= j < r.value ==> !OccursAt(s, pat, j)
    ensures r.None? ==> forall j: nat :: k <= j ==> !OccursAt(s, pat, j)
    decreases |s| - k
  {
    if k + |pat| > |s| then None
    else if s[k..k + |pat|] == pat then Some(k)
    else FindFrom(s, pat, k + 1)
  }

  /** The first index where `pat` stands in `s` (Rust `str::find` with a string pattern). */
  function Find<T(==)>(s: seq<T>, pat: seq<T>): (r: Option<nat>)
    ensures r.Some? ==> OccursAt(s, pat, r.value)
    ensures r.Some? ==> forall j: nat :: j < r.value ==> !OccursAt(s, pat, j)
    ensures r.None? <==> !Occurs(s, pat)
  {
    FindFrom(s, pat, 0)
  }

  /** The middle of a concatenation stands in it just after the first part. */
  lemma OccursMiddle<T>(a: seq<T>, b: seq<T>, c: seq<T>)
    ensures OccursAt(a + b + c, b, |a|)
  {
    assert (a + b + c)[|a|..|a| + |b|] == b;
  }

  /** A part of a part of `c` is a part of `c`. */
  lemma OccursTrans<T>(c: seq<T>, b: seq<T>, a: seq<T>, j: nat, i: nat)
    requires OccursAt(c, b, j) && OccursAt(b, a, i)
    ensures OccursAt(c, a, j + i)
  {
    assert c[j..j + |b|] == b;
    forall k | 0 <= k < |a| ensures c[j + i + k] == a[k] {
      assert c[j + i + k] == c[j..j + |b|][i + k] == b[i + k];
      assert b[i..i + |a|][k] == b[i + k];
    }
  }

  /** The empty sequence is a part of every sequence. */
  lemma OccursEmpty<T>(s: seq<T>)
    ensures Occurs(s, [])
  {
    assert OccursAt(s, [], 0);
  }

  /** Being a part of is transitive. */
  lemma OccursTransitive<T>(c: seq<T>, b: seq<T>, a: seq<T>)
    requires Occurs(c, b) && Occurs(b, a)
    ensures Occurs(c, a)
  {
    var j: nat :| OccursAt(c, b, j);
    var i: nat :| OccursAt(b, a, i);
    OccursTrans(c, b, a, j, i);
  }

  /** Every part of a split stands somewhere in the split sequence. */
  lemma {:induction false} SplitOccurs<T>(s: seq<T>, x: T)
    ensures forall p :: p in Split(s, x) ==> Occurs(s, p)
    decreases |s|
  {
    match IndexOf(s, x)
    case None =>
      assert OccursAt(s, s, 0);
    case Some(i) =>
      assert OccursAt(s, s[..i], 0);
      var tail := s[i + 1..];
      assert OccursAt(s, tail, i + 1);
      SplitOccurs(tail, x);
      forall p | p in Split(tail, x) ensures Occurs(s, p) {
        OccursTransitive(s, tail, p);
      }
  }

  /** What `Trim` keeps is a part of what it was given. */
  lemma TrimOccurs<T>(s: seq<T>, ws: T -> bool)
    ensures Occurs(s, Trim(s, ws))
  {
    var a := TrimStart(s, ws);
    var r := TrimEnd(a, ws);
    TrimStartSuffix(s, ws);
    TrimEndPrefix(a, ws);
    assert OccursAt(s, r, |s| - |a|) by {
      assert s[|s| - |a|..][..|r|] == s[|s| - |a|..|s| - |a| + |r|];
    }
  }

  /** What stands after the first `x` is a part of the sequence. */
  lemma SplitOnceOccurs<T>(s: seq<T>, x: T)
    requires SplitOnce(s, x).Some?
    ensures Occurs(s, SplitOnce(s, x).value.1)
  {
    var (a, b) := SplitOnce(s, x).value;
    SplitOnceParts(s, x);
    OccursMiddle(a + [x], b, []);
    assert a + [x] + b + [] == s;
  }
}
