/**
 * The slice of Python's `str` behaviour the chatbot relies on: `isspace`,
 * `strip`, `lower`, the `in` substring test, `startswith`/`endswith`,
 * `removeprefix`/`removesuffix` and `split(',')`.
 */
module Text {

  /** Python's `str.isspace` for a single character. */
  predicate IsSpace(c: char) {
    || c == ' '
    || ('\t' <= c <= '\r')
    || ('\U{1C}' <= c <= '\U{1F}')
    || c == '\U{85}' || c == '\U{A0}' || c == '\U{1680}'
    || ('\U{2000}' <= c <= '\U{200A}')
    || c == '\U{2028}' || c == '\U{2029}' || c == '\U{202F}' || c == '\U{205F}' || c == '\U{3000}'
  }

  /** Removes the leading characters `drop` accepts (`str.lstrip`). */
  function TrimLeft(s: string, drop: char -> bool): (r: string)
    ensures |r| <= |s| && r == s[|s| - |r|..]
    ensures r == [] || !drop(r[0])
    decreases |s|
  {
    if |s| > 0 && drop(s[0]) then TrimLeft(s[1..], drop) else s
  }

  /** Removes the trailing characters `drop` accepts (`str.rstrip`). */
  function TrimRight(s: string, drop: char -> bool): (r: string)
    ensures |r| <= |s| && r == s[..|r|]
    ensures r == [] || !drop(r[|r| - 1])
    decreases |s|
  {
    if |s| > 0 && drop(s[|s| - 1]) then TrimRight(s[..|s| - 1], drop) else s
  }

  /** Only characters `drop` accepts are removed from the front. */
  lemma {:induction false} TrimLeftDropsOnly(s: string, drop: char -> bool)
    ensures forall k :: 0 <= k < |s| - |TrimLeft(s, drop)| ==> drop(s[k])
    decreases |s|
  {
    if |s| > 0 && drop(s[0]) {
      TrimLeftDropsOnly(s[1..], drop);
      forall k | 1 <= k < |s| - |TrimLeft(s, drop)| ensures drop(s[k]) {
        assert s[k] == s[1..][k - 1];
      }
    }
  }

  /** Only characters `drop` accepts are removed from the back. */
  lemma {:induction false} TrimRightDropsOnly(s: string, drop: char -> bool)
    ensures forall k :: |TrimRight(s, drop)| <= k < |s| ==> drop(s[k])
    decreases |s|
  {
    if |s| > 0 && drop(s[|s| - 1]) {
      TrimRightDropsOnly(s[..|s| - 1], drop);
      forall k | |TrimRight(s, drop)| <= k < |s| - 1 ensures drop(s[k]) {
        assert s[k] == s[..|s| - 1][k];
      }
    }
  }

  /** `str.strip(chars)`: both ends trimmed. */
  function Trim(s: string, drop: char -> bool): (r: string)
    ensures r == [] || (!drop(r[0]) && !drop(r[|r| - 1]))
  {
    TrimRight(TrimLeft(s, drop), drop)
  }

  /** `str.strip()` with no argument: surrounding whitespace removed. */
  function Strip(s: string): (r: string)
    ensures r == [] || (!IsSpace(r[0]) && !IsSpace(r[|r| - 1]))
  {
    Trim(s, IsSpace)
  }

  /** A string that is empty after `strip()`, i.e. falsy after `.strip()` in Python. */
  predicate IsBlank(s: string) {
    Strip(s) == []
  }

  lemma {:induction false} TrimLeftOfTrimmed(s: string, drop: char -> bool)
    requires s == [] || !drop(s[0])
    ensures TrimLeft(s, drop) == s
  {
  }

  lemma {:induction false} TrimRightOfTrimmed(s: string, drop: char -> bool)
    requires s == [] || !drop(s[|s| - 1])
    ensures TrimRight(s, drop) == s
  {
  }

  /** A string without surrounding whitespace is its own strip. */
  lemma StripIdempotentOnTrimmed(s: string)
    requires s == [] || (!IsSpace(s[0]) && !IsSpace(s[|s| - 1]))
    ensures Strip(s) == s
  {
    TrimLeftOfTrimmed(s, IsSpace);
    TrimRightOfTrimmed(s, IsSpace);
  }

  /** Stripping is idempotent. */
  lemma StripIdempotent(s: string)
    ensures Strip(Strip(s)) == Strip(s)
  {
    var t := Strip(s);
    TrimLeftOfTrimmed(t, IsSpace);
    TrimRightOfTrimmed(t, IsSpace);
  }

  lemma {:induction false} TrimLeftAllDropped(s: string, drop: char -> bool)
    requires forall k :: 0 <= k < |s| ==> drop(s[k])
    ensures TrimLeft(s, drop) == []
    decreases |s|
  {
    if |s| > 0 {
      TrimLeftAllDropped(s[1..], drop);
    }
  }

  /** A blank string is made only of whitespace, and conversely. */
  lemma BlankIffAllSpace(s: string)
    ensures IsBlank(s) <==> forall k :: 0 <= k < |s| ==> IsSpace(s[k])
  {
    var l := TrimLeft(s, IsSpace);
    TrimLeftDropsOnly(s, IsSpace);
    TrimRightDropsOnly(l, IsSpace);
    if forall k :: 0 <= k < |s| ==> IsSpace(s[k]) {
      TrimLeftAllDropped(s, IsSpace);
    }
    if IsBlank(s) {
      assert TrimRight(l, IsSpace) == [];
      assert |l| == 0;
    }
  }

  /** A prefix made only of dropped characters vanishes under `TrimLeft`. */
  lemma {:induction false} TrimLeftSkips(p: string, x: string, drop: char -> bool)
    requires forall k :: 0 <= k < |p| ==> drop(p[k])
    ensures TrimLeft(p + x, drop) == TrimLeft(x, drop)
    decreases |p|
  {
    if p == [] {
      assert p + x == x;
    } else {
      assert (p + x)[0] == p[0];
      assert (p + x)[1..] == p[1..] + x;
      TrimLeftSkips(p[1..], x, drop);
    }
  }

  /** `TrimLeft` stops inside the prefix when the rest starts with a kept character. */
  lemma {:induction false} TrimLeftStopsIn(p: string, x: string, drop: char -> bool) returns (i: nat)
    requires x != [] && !drop(x[0])
    ensures i <= |p| && TrimLeft(p + x, drop) == p[i..] + x
    decreases |p|
  {
    if p == [] {
      assert p + x == x;
      TrimLeftOfTrimmed(x, drop);
      i := 0;
    } else if drop(p[0]) {
      assert (p + x)[1..] == p[1..] + x;
      var j := TrimLeftStopsIn(p[1..], x, drop);
      i := j + 1;
      assert p[1..][j..] == p[i..];
    } else {
      assert (p + x)[0] == p[0];
      TrimLeftOfTrimmed(p + x, drop);
      i := 0;
    }
  }

  /** A suffix made only of dropped characters vanishes under `TrimRight`. */
  lemma {:induction false} TrimRightSkips(x: string, p: string, drop: char -> bool)
    requires forall k :: 0 <= k < |p| ==> drop(p[k])
    ensures TrimRight(x + p, drop) == TrimRight(x, drop)
    decreases |p|
  {
    if p == [] {
      assert x + p == x;
    } else {
      var q := p[..|p| - 1];
      assert (x + p)[|x + p| - 1] == p[|p| - 1];
      assert (x + p)[..|x + p| - 1] == x + q;
      TrimRightSkips(x, q, drop);
    }
  }

  /** `TrimRight` stops inside the suffix when what precedes it ends with a kept character. */
  lemma {:induction false} TrimRightStopsIn(x: string, p: string, drop: char -> bool) returns (j: nat)
    requires x != [] && !drop(x[|x| - 1])
    ensures j <= |p| && TrimRight(x + p, drop) == x + p[..j]
    decreases |p|
  {
    if p == [] {
      assert x + p == x;
      TrimRightOfTrimmed(x, drop);
      j := 0;
    } else if drop(p[|p| - 1]) {
      var q := p[..|p| - 1];
      assert (x + p)[|x + p| - 1] == p[|p| - 1];
      assert (x + p)[..|x + p| - 1] == x + q;
      j := TrimRightStopsIn(x, q, drop);
      assert q[..j] == p[..j];
    } else {
      assert (x + p)[|x + p| - 1] == p[|p| - 1];
      TrimRightOfTrimmed(x + p, drop);
      j := |p|;
      assert p[..j] == p;
    }
  }

  /** Whitespace around a piece with nothing to strip is exactly what `strip()` removes. */
  lemma StripSurrounded(a: string, x: string, b: string)
    requires forall k :: 0 <= k < |a| ==> IsSpace(a[k])
    requires forall k :: 0 <= k < |b| ==> IsSpace(b[k])
    requires x == [] || (!IsSpace(x[0]) && !IsSpace(x[|x| - 1]))
    ensures Strip(a + x + b) == x
  {
    assert a + x + b == a + (x + b);
    TrimLeftSkips(a, x + b, IsSpace);
    if x == [] {
      assert x + b == b;
      TrimLeftAllDropped(b, IsSpace);
    } else {
      assert (x + b)[0] == x[0];
      TrimLeftOfTrimmed(x + b, IsSpace);
      TrimRightSkips(x, b, IsSpace);
      TrimRightOfTrimmed(x, IsSpace);
    }
  }

  /** `strip()` keeps one contiguous piece of its input. */
  lemma StripIsSlice(s: string) returns (i: nat, j: nat)
    ensures i <= j <= |s| && Strip(s) == s[i..j]
  {
    var l := TrimLeft(s, IsSpace);
    var r := TrimRight(l, IsSpace);
    i, j := |s| - |l|, |s| - |l| + |r|;
    assert l == s[i..];
    assert r == l[..|r|];
  }

  /** A character absent from a string is absent from its strip. */
  lemma StripKeepsAbsent(s: string, c: char)
    requires c !in s
    ensures c !in Strip(s)
  {
    var i, j := StripIsSlice(s);
    forall k | 0 <= k < j - i
      ensures Strip(s)[k] != c
    {
      assert Strip(s)[k] == s[i + k];
    }
  }

  /** ASCII case folding; Python's `lower()` is approximated over ASCII letters. */
  function LowerChar(c: char): char {
    if 'A' <= c <= 'Z' then (c as int + 32) as char else c
  }

  function Lower(s: string): (r: string)
    ensures |r| == |s|
    ensures forall k :: 0 <= k < |s| ==> r[k] == LowerChar(s[k])
  {
    seq(|s|, k requires 0 <= k < |s| => LowerChar(s[k]))
  }

  predicate IsPrefix(p: string, s: string) {
    |p| <= |s| && s[..|p|] == p
  }

  predicate IsSuffix(p: string, s: string) {
    |p| <= |s| && s[|s| - |p|..] == p
  }

  /** Python's `needle in haystack` for strings. */
  predicate Contains(haystack: string, needle: string)
    decreases |haystack|
  {
    IsPrefix(needle, haystack) || (|haystack| > 0 && Contains(haystack[1..], needle))
  }

  /** The needle occurs in the haystack starting at offset `i`. */
  predicate OccursAt(haystack: string, needle: string, i: int) {
    0 <= i <= |haystack| - |needle| && haystack[i..i + |needle|] == needle
  }

  /** `Contains` holds exactly when the needle occurs at some offset. */
  lemma {:induction false} ContainsIffOccurs(haystack: string, needle: string)
    ensures Contains(haystack, needle) <==> exists i :: OccursAt(haystack, needle, i)
    decreases |haystack|
  {
    if IsPrefix(needle, haystack) {
      assert OccursAt(haystack, needle, 0);
    }
    if |haystack| > 0 {
      ContainsIffOccurs(haystack[1..], needle);
      if Contains(haystack[1..], needle) {
        var i :| OccursAt(haystack[1..], needle, i);
        assert OccursAt(haystack, needle, i + 1);
      }
      if i :| OccursAt(haystack, needle, i) {
        if i > 0 {
          assert OccursAt(haystack[1..], needle, i - 1);
        } else {
          assert IsPrefix(needle, haystack);
        }
      }
    }
  }

  /** Every character of a contained string occurs in the haystack. */
  lemma ContainsOnlyPresentChars(haystack: string, needle: string)
    requires Contains(haystack, needle)
    ensures forall c :: c in needle ==> c in haystack
  {
    ContainsIffOccurs(haystack, needle);
    var i :| OccursAt(haystack, needle, i);
    forall c | c in needle
      ensures c in haystack
    {
      var j :| 0 <= j < |needle| && needle[j] == c;
      assert haystack[i..i + |needle|][j] == haystack[i + j];
    }
  }

  /** Whatever a string contains, it still contains with text put in front. */
  lemma {:induction false} ContainsInSuffix(p: string, s: string, needle: string)
    requires Contains(s, needle)
    ensures Contains(p + s, needle)
    decreases |p|
  {
    if p == [] {
      assert p + s == s;
    } else {
      assert (p + s)[1..] == p[1..] + s;
      ContainsInSuffix(p[1..], s, needle);
    }
  }

  /** A string contains every piece glued into it. */
  lemma ContainsMiddle(a: string, b: string, c: string)
    ensures Contains(a + (b + c), b)
  {
    assert (b + c)[..|b|] == b;
    ContainsInSuffix(a, b + c, b);
  }

  /** `str.removeprefix`. */
  function RemovePrefix(s: string, p: string): (r: string)
    ensures IsPrefix(p, s) ==> p + r == s
    ensures !IsPrefix(p, s) ==> r == s
  {
    if IsPrefix(p, s) then s[|p|..] else s
  }

  /** `str.removesuffix`. */
  function RemoveSuffix(s: string, p: string): (r: string)
    ensures IsSuffix(p, s) ==> r + p == s
    ensures !IsSuffix(p, s) ==> r == s
  {
    if IsSuffix(p, s) then s[..|s| - |p|] else s
  }

  /** Number of occurrences of `c` in `s`. */
  function Count(s: string, c: char): nat {
    if s == [] then 0 else (if s[0] == c then 1 else 0) + Count(s[1..], c)
  }

  function IndexOf(s: string, c: char): (i: nat)
    requires c in s
    ensures i < |s| && s[i] == c && c !in s[..i]
  {
    if s[0] == c then 0 else 1 + IndexOf(s[1..], c)
  }

  /** `sep.join(parts)` for a one-character separator. */
  function Join(parts: seq<string>, sep: char): string {
    if |parts| == 0 then ""
    else if |parts| == 1 then parts[0]
    else parts[0] + [sep] + Join(parts[1..], sep)
  }

  /** `s.split(sep)` for a one-character separator: always one more part than separators. */
  function Split(s: string, sep: char): (parts: seq<string>)
    ensures |parts| == Count(s, sep) + 1
    ensures forall k :: 0 <= k < |parts| ==> sep !in parts[k]
    ensures Join(parts, sep) == s
    decreases |s|
  {
    if sep !in s then
      CountAbsent(s, sep);
      [s]
    else
      var i := IndexOf(s, sep);
      var rest := Split(s[i + 1..], sep);
      SplitStep(s, sep, i, rest);
      [s[..i]] + rest
  }

  /** The part before the first separator, followed by the parts of what comes after it. */
  lemma SplitStep(s: string, sep: char, i: nat, rest: seq<string>)
    requires i < |s| && s[i] == sep && sep !in s[..i]
    requires |rest| == Count(s[i + 1..], sep) + 1
    requires forall k :: 0 <= k < |rest| ==> sep !in rest[k]
    requires Join(rest, sep) == s[i + 1..]
    ensures |[s[..i]] + rest| == Count(s, sep) + 1
    ensures forall k :: 0 <= k < |[s[..i]] + rest| ==> sep !in ([s[..i]] + rest)[k]
    ensures Join([s[..i]] + rest, sep) == s
  {
    var parts := [s[..i]] + rest;
    CountAtFirst(s, sep, i);
    assert parts[1..] == rest;
    assert Join(parts, sep) == s[..i] + [sep] + Join(rest, sep);
    assert s == s[..i] + [sep] + s[i + 1..];
    forall k | 1 <= k < |parts| ensures sep !in parts[k] {
      assert parts[k] == rest[k - 1];
    }
  }

  lemma CountAtFirst(s: string, c: char, i: nat)
    requires i < |s| && s[i] == c && c !in s[..i]
    ensures Count(s, c) == Count(s[i + 1..], c) + 1
  {
    assert s == s[..i] + ([c] + s[i + 1..]);
    CountAppend(s[..i], [c] + s[i + 1..], c);
    CountAppend([c], s[i + 1..], c);
    CountAbsent(s[..i], c);
    assert Count([c], c) == 1 by { assert [c][1..] == []; }
  }

  lemma {:induction false} CountAbsent(s: string, c: char)
    requires c !in s
    ensures Count(s, c) == 0
  {
    if s != [] {
      assert c !in s[1..];
      CountAbsent(s[1..], c);
    }
  }

  lemma {:induction false} CountAppend(a: string, b: string, c: char)
    ensures Count(a + b, c) == Count(a, c) + Count(b, c)
  {
    if a == [] {
      assert a + b == b;
    } else {
      assert (a + b)[0] == a[0];
      assert (a + b)[1..] == a[1..] + b;
      CountAppend(a[1..], b, c);
    }
  }
}
