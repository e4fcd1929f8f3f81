/**
 * String primitives with the exact semantics of the JavaScript and Python
 * built-ins the program relies on: `indexOf`/`find`, `includes`/`in`,
 * `split` with a non-empty separator (identical in both languages),
 * `join`, `slice` with non-negative bounds, `trim`/`strip`, and
 * ASCII `toLowerCase`/`lower`.
 */
module Strings {
  import opened Common

  // ---------------------------------------------------------------------
  // Occurrences and search
  // ---------------------------------------------------------------------

  predicate OccursAt(s: string, pat: string, i: nat) {
    i + |pat| <= |s| && s[i..i + |pat|] == pat
  }

  predicate StartsWith(s: string, prefix: string) {
    |prefix| <= |s| && s[..|prefix|] == prefix
  }

  /** `s.indexOf(pat, from)` for a non-empty pattern; `None` stands for -1. */
  function IndexOfFrom(s: string, pat: string, from: nat): (r: Option<nat>)
    requires |pat| > 0
    ensures r.Some? ==> from <= r.value && OccursAt(s, pat, r.value)
    ensures r.Some? ==> forall j :: from <= j < r.value ==> !OccursAt(s, pat, j)
    ensures r.None? ==> forall j :: from <= j ==> !OccursAt(s, pat, j)
    decreases |s| - from
  {
    if from + |pat| > |s| then None
    else if OccursAt(s, pat, from) then Some(from)
    else IndexOfFrom(s, pat, from + 1)
  }

  function IndexOf(s: string, pat: string): (r: Option<nat>)
    requires |pat| > 0
  {
    IndexOfFrom(s, pat, 0)
  }

  /** `s.includes(pat)` / Python `pat in s`. */
  predicate Contains(s: string, pat: string) {
    exists i: nat | i <= |s| :: OccursAt(s, pat, i)
  }

  lemma ContainsIffIndexOf(s: string, pat: string)
    requires |pat| > 0
    ensures Contains(s, pat) <==> IndexOf(s, pat).Some?
  {
    if IndexOf(s, pat).Some? {
      assert OccursAt(s, pat, IndexOf(s, pat).value);
    }
  }

  predicate HasChar(s: string, c: char) {
    exists i :: 0 <= i < |s| && s[i] == c
  }

  /** A string lacking one character of the pattern does not contain it. */
  lemma MissingCharNotContained(s: string, pat: string, k: nat)
    requires k < |pat| && pat[k] !in s
    ensures !Contains(s, pat)
  {
  }

  /** A string whose prefix `a` lacks the pattern's first character, followed by fewer than |pat| more. */
  lemma LateFirstCharNotContained(a: string, b: string, pat: string)
    requires |pat| > 0 && pat[0] !in a && |b| < |pat|
    ensures !Contains(a + b, pat)
  {
  }

  /** An occurrence cannot straddle a character that the pattern does not contain. */
  lemma NotContainedAcross(u: string, x: char, v: string, pat: string)
    requires x !in pat && !Contains(u, pat) && !Contains(v, pat)
    ensures !Contains(u + [x] + v, pat)
  {
    var s := u + [x] + v;
    forall i: nat | i <= |s|
      ensures !OccursAt(s, pat, i)
    {
      if i + |pat| <= |u| {
        assert !OccursAt(u, pat, i);
        assert i + |pat| <= |s| ==> s[i..i + |pat|] == u[i..i + |pat|];
      } else if i > |u| {
        assert !OccursAt(v, pat, i - |u| - 1);
        assert i + |pat| <= |s| ==> s[i..i + |pat|] == v[i - |u| - 1..i - |u| - 1 + |pat|];
      } else if i + |pat| <= |s| {
        assert s[i..i + |pat|][|u| - i] == x;
      }
    }
  }

  /** An occurrence inside `m` is an occurrence in `a + m + c`. */
  lemma ContainedInside(a: string, m: string, c: string, pat: string)
    requires Contains(m, pat)
    ensures Contains(a + m + c, pat)
  {
    var i: nat :| i <= |m| && OccursAt(m, pat, i);
    assert (a + m + c)[|a| + i..|a| + i + |pat|] == m[i..i + |pat|];
    assert OccursAt(a + m + c, pat, |a| + i);
  }

  /** An occurrence inside a prefix is an occurrence in the whole string. */
  lemma OccursAtPrefix(s: string, pat: string, n: nat, j: nat)
    requires n <= |s|
    requires OccursAt(s[..n], pat, j)
    ensures OccursAt(s, pat, j)
  {
    assert s[j..j + |pat|] == s[..n][j..j + |pat|];
  }

  /** An occurrence in a suffix is an occurrence in the whole string. */
  lemma OccursAtSuffix(s: string, pat: string, k: nat, j: nat)
    requires k <= |s|
    requires OccursAt(s[k..], pat, j)
    ensures OccursAt(s, pat, k + j)
  {
    assert s[k + j..k + j + |pat|] == s[k..][j..j + |pat|];
  }

  /** An occurrence of the whole string maps back into the suffix. */
  lemma OccursAtToSuffix(s: string, pat: string, k: nat, j: nat)
    requires k <= j
    requires OccursAt(s, pat, j)
    ensures OccursAt(s[k..], pat, j - k)
  {
    assert s[k..][j - k..j - k + |pat|] == s[j..j + |pat|];
  }

  /** Appending text never moves an occurrence that already exists. */
  lemma OccursAtExtend(s: string, t: string, pat: string, j: nat)
    ensures OccursAt(s, pat, j) ==> OccursAt(s + t, pat, j)
    ensures j + |pat| <= |s| ==> (OccursAt(s + t, pat, j) <==> OccursAt(s, pat, j))
  {
    if j + |pat| <= |s| {
      assert (s + t)[j..j + |pat|] == s[j..j + |pat|];
    }
  }

  // ---------------------------------------------------------------------
  // split / join
  // ---------------------------------------------------------------------

  /**
   * `s.split(sep)` for a non-empty separator string: JavaScript's
   * String.prototype.split and Python's str.split(sep) agree on it.
   */
  function Split(s: string, sep: string): (parts: seq<string>)
    requires |sep| > 0
    ensures |parts| >= 1
    decreases |s|
  {
    match IndexOf(s, sep)
    case None => [s]
    case Some(i) => [s[..i]] + Split(s[i + |sep|..], sep)
  }

  /** `parts.join(sep)`; the empty list joins to "". */
  function Join(parts: seq<string>, sep: string): string
  {
    if |parts| == 0 then ""
    else if |parts| == 1 then parts[0]
    else parts[0] + sep + Join(parts[1..], sep)
  }

  /** Splitting and re-joining with the same separator gives the text back. */
  lemma {:induction false} JoinSplit(s: string, sep: string)
    requires |sep| > 0
    ensures Join(Split(s, sep), sep) == s
    decreases |s|
  {
    match IndexOf(s, sep)
    case None =>
    case Some(i) =>
      var rest := s[i + |sep|..];
      var tail := Split(rest, sep);
      JoinSplit(rest, sep);
      JoinCons(s[..i], tail, sep);
      assert s[i..i + |sep|] == sep;
      assert s == s[..i] + sep + rest;
  }

  lemma JoinCons(head: string, tail: seq<string>, sep: string)
    requires |tail| >= 1
    ensures Join([head] + tail, sep) == head + sep + Join(tail, sep)
  {
    assert ([head] + tail)[1..] == tail;
  }

  /** Joining two non-empty lists: the halves meet at one separator. */
  lemma {:induction false} JoinConcat(x: seq<string>, y: seq<string>, sep: string)
    requires |x| > 0 && |y| > 0
    ensures Join(x + y, sep) == Join(x, sep) + sep + Join(y, sep)
    decreases |x|
  {
    if |x| == 1 {
      assert x + y == [x[0]] + y;
      JoinCons(x[0], y, sep);
    } else {
      assert x + y == [x[0]] + (x[1..] + y);
      assert x == [x[0]] + x[1..];
      JoinConcat(x[1..], y, sep);
      JoinCons(x[0], x[1..] + y, sep);
      JoinCons(x[0], x[1..], sep);
    }
  }

  /** No piece of a split contains the separator. */
  lemma {:induction false} SplitPiecesFree(s: string, sep: string)
    requires |sep| > 0
    ensures forall k :: 0 <= k < |Split(s, sep)| ==> IndexOf(Split(s, sep)[k], sep).None?
    decreases |s|
  {
    match IndexOf(s, sep)
    case None =>
    case Some(i) =>
      var rest := s[i + |sep|..];
      SplitPiecesFree(rest, sep);
      var head := s[..i];
      if IndexOf(head, sep).Some? {
        var j := IndexOf(head, sep).value;
        OccursAtPrefix(s, sep, i, j);
      }
  }

  /** Text without the separator splits into itself alone. */
  lemma SplitNoSep(s: string, sep: string)
    requires |sep| > 0
    requires IndexOf(s, sep).None?
    ensures Split(s, sep) == [s]
  {
  }

  /** Text without the character splits on it into itself alone. */
  lemma SplitNoChar(s: string, c: char)
    requires !HasChar(s, c)
    ensures Split(s, [c]) == [s]
  {
    forall j: nat | j + 1 <= |s|
      ensures !OccursAt(s, [c], j)
    {
      assert s[j..j + 1][0] == s[j];
    }
    SplitNoSep(s, [c]);
  }

  /** Pieces free of a one-character separator are what splitting their join gives back. */
  lemma {:induction false} SplitJoinChar(parts: seq<string>, c: char)
    requires |parts| > 0 && forall k :: 0 <= k < |parts| ==> !HasChar(parts[k], c)
    ensures Split(Join(parts, [c]), [c]) == parts
    decreases |parts|
  {
    if |parts| == 1 {
      SplitNoChar(parts[0], c);
    } else {
      var rest := Join(parts[1..], [c]);
      var s := parts[0] + [c] + rest;
      assert Join(parts, [c]) == s;
      forall j | 0 <= j < |parts[0]|
        ensures !OccursAt(s, [c], j)
      {
        assert s[j..j + 1][0] == s[j] == parts[0][j];
      }
      SplitFirst(parts[0], [c], rest);
      SplitJoinChar(parts[1..], c);
      assert [parts[0]] + parts[1..] == parts;
    }
  }

  /** `a + sep + b` where `a` has no occurrence that could reach into `sep`. */
  lemma SplitFirst(a: string, sep: string, b: string)
    requires |sep| > 0
    requires forall j :: 0 <= j < |a| ==> !OccursAt(a + sep + b, sep, j)
    ensures Split(a + sep + b, sep) == [a] + Split(b, sep)
  {
    var s := a + sep + b;
    assert OccursAt(s, sep, |a|) by {
      assert s[|a|..|a| + |sep|] == sep;
    }
    var i := IndexOf(s, sep).value;
    assert i == |a|;
    assert s[..i] == a;
    assert s[i + |sep|..] == b;
  }

  /** The first occurrence is what `IndexOf` finds. */
  lemma IndexOfIsFirst(s: string, pat: string, i: nat)
    requires |pat| > 0 && OccursAt(s, pat, i)
    requires forall j :: 0 <= j < i ==> !OccursAt(s, pat, j)
    ensures IndexOf(s, pat) == Some(i)
  {
  }

  /** Appending text does not move the first occurrence. */
  lemma IndexOfExtend(x: string, r: string, sep: string, i: nat)
    requires |sep| > 0 && IndexOf(x, sep) == Some(i)
    ensures IndexOf(x + r, sep) == Some(i)
  {
    OccursAtExtend(x, r, sep, i);
    forall j | 0 <= j < i
      ensures !OccursAt(x + r, sep, j)
    {
      OccursAtExtend(x, r, sep, j);
    }
    IndexOfIsFirst(x + r, sep, i);
  }

  /**
   * Splitting a longer text: the complete pieces of `x` stay, and only the
   * last (possibly partial) piece of `x` is re-split together with `r`.
   */
  lemma {:induction false} SplitAppend(x: string, r: string, sep: string)
    requires |sep| > 0
    ensures Split(x + r, sep) ==
            Split(x, sep)[..|Split(x, sep)| - 1] + Split(Split(x, sep)[|Split(x, sep)| - 1] + r, sep)
    decreases |x|, 1
  {
    match IndexOf(x, sep)
    case None =>
      assert Split(x, sep) == [x];
    case Some(i) =>
      SplitAppendAt(x, r, sep, i);
  }

  lemma {:induction false} SplitAppendAt(x: string, r: string, sep: string, i: nat)
    requires |sep| > 0 && IndexOf(x, sep) == Some(i)
    ensures Split(x + r, sep) ==
            Split(x, sep)[..|Split(x, sep)| - 1] + Split(Split(x, sep)[|Split(x, sep)| - 1] + r, sep)
    decreases |x|, 0
  {
    var rest := x[i + |sep|..];
    var h := x[..i];
    var parts := Split(rest, sep);
    var m := |parts|;
    var tail := Split(parts[m - 1] + r, sep);
    SplitExtendAt(x, r, sep, i);
    assert Split(x + r, sep) == [h] + Split(rest + r, sep);
    SplitAt(x, sep, i);
    assert Split(x, sep) == [h] + parts;
    SplitAppend(rest, r, sep);
    assert Split(rest + r, sep) == parts[..m - 1] + tail;
    ConsInit(h, parts);
    assert Split(x, sep)[..m] == [h] + parts[..m - 1];
    assert Split(x, sep)[m] == parts[m - 1];
    AppendAssoc([h], parts[..m - 1], tail);
  }

  /** Text appended after the first separator lands in the rest. */
  lemma SplitExtendAt(x: string, r: string, sep: string, i: nat)
    requires |sep| > 0 && IndexOf(x, sep) == Some(i)
    ensures i + |sep| <= |x| && Split(x + r, sep) == [x[..i]] + Split(x[i + |sep|..] + r, sep)
  {
    IndexOfExtend(x, r, sep, i);
    SplitAt(x + r, sep, i);
    assert (x + r)[i + |sep|..] == x[i + |sep|..] + r;
    assert (x + r)[..i] == x[..i];
  }

  lemma ConsInit<T>(h: T, tail: seq<T>)
    requires |tail| > 0
    ensures ([h] + tail)[..|tail|] == [h] + tail[..|tail| - 1] && ([h] + tail)[|tail|] == tail[|tail| - 1]
  {
  }

  /** Splitting at the first occurrence of the separator. */
  lemma SplitAt(s: string, sep: string, i: nat)
    requires |sep| > 0 && IndexOf(s, sep) == Some(i)
    ensures i + |sep| <= |s| && Split(s, sep) == [s[..i]] + Split(s[i + |sep|..], sep)
  {
  }

  // ---------------------------------------------------------------------
  // slice
  // ---------------------------------------------------------------------

  /** `s.slice(start, end)` for non-negative bounds: both are clamped to |s|. */
  function Slice<T>(s: seq<T>, start: nat, end: nat): (r: seq<T>)
    ensures |r| <= |s|
    ensures start <= end <= |s| ==> r == s[start..end]
    ensures end <= start ==> r == []
  {
    var a := if start <= |s| then start else |s|;
    var b := if end <= |s| then end else |s|;
    if a < b then s[a..b] else []
  }

  // ---------------------------------------------------------------------
  // Whitespace, trim and strip
  // ---------------------------------------------------------------------

  /** ECMAScript WhiteSpace and LineTerminator: the set of `\s` and of `trim`. */
  predicate IsJsSpace(c: char) {
    c == '\t' || c == '\n' || c == '\U{000B}' || c == '\U{000C}' || c == '\r' || c == ' '
    || c == '\U{00A0}' || c == '\U{1680}' || ('\U{2000}' <= c <= '\U{200A}')
    || c == '\U{2028}' || c == '\U{2029}' || c == '\U{202F}' || c == '\U{205F}'
    || c == '\U{3000}' || c == '\U{FEFF}'
  }

  /** Python `str.isspace()` for one character: the set `str.strip()` removes. */
  predicate IsPySpace(c: char) {
    c == '\t' || c == '\n' || c == '\U{000B}' || c == '\U{000C}' || c == '\r'
    || ('\U{001C}' <= c <= '\U{001F}') || c == ' ' || c == '\U{0085}' || c == '\U{00A0}'
    || c == '\U{1680}' || ('\U{2000}' <= c <= '\U{200A}') || c == '\U{2028}'
    || c == '\U{2029}' || c == '\U{202F}' || c == '\U{205F}' || c == '\U{3000}'
  }

  /** Number of leading characters satisfying `p`. */
  function LeadingCount(s: string, p: char -> bool): (n: nat)
    ensures n <= |s|
  {
    if |s| == 0 || !p(s[0]) then 0 else 1 + LeadingCount(s[1..], p)
  }

  /** The leading run is exactly the characters before the first one failing `p`. */
  lemma {:induction false} LeadingCountSpec(s: string, p: char -> bool)
    ensures var n := LeadingCount(s, p);
      (forall i :: 0 <= i < n ==> p(s[i])) && (n < |s| ==> !p(s[n]))
  {
    if |s| > 0 && p(s[0]) {
      LeadingCountSpec(s[1..], p);
      var n := LeadingCount(s, p);
      forall i | 0 <= i < n
        ensures p(s[i])
      {
        if i > 0 {
          assert s[i] == s[1..][i - 1];
        }
      }
      if n < |s| {
        assert s[n] == s[1..][n - 1];
      }
    }
  }

  /** Number of trailing characters satisfying `p`. */
  function TrailingCount(s: string, p: char -> bool): (n: nat)
    ensures n <= |s|
  {
    if |s| == 0 || !p(s[|s| - 1]) then 0 else 1 + TrailingCount(s[..|s| - 1], p)
  }

  /** The trailing run is exactly the characters after the last one failing `p`. */
  lemma {:induction false} TrailingCountSpec(s: string, p: char -> bool)
    ensures var n := TrailingCount(s, p);
      (forall i :: |s| - n <= i < |s| ==> p(s[i])) && (n < |s| ==> !p(s[|s| - 1 - n]))
  {
    if |s| > 0 && p(s[|s| - 1]) {
      var init := s[..|s| - 1];
      TrailingCountSpec(init, p);
      var n := TrailingCount(s, p);
      forall i | |s| - n <= i < |s|
        ensures p(s[i])
      {
        if i < |s| - 1 {
          assert s[i] == init[i];
        }
      }
      if n < |s| {
        assert s[|s| - 1 - n] == init[|init| - 1 - (n - 1)];
      }
    }
  }

  /** Removes the leading and trailing characters satisfying `p`. */
  function StripWith(s: string, p: char -> bool): (r: string)
    ensures |r| <= |s|
    ensures |r| > 0 ==> !p(r[0]) && !p(r[|r| - 1])
  {
    var a := LeadingCount(s, p);
    var rest := s[a..];
    var b := TrailingCount(rest, p);
    LeadingCountSpec(s, p);
    TrailingCountSpec(rest, p);
    rest[..|rest| - b]
  }

  /** A string with no removable character at either end is its own strip. */
  lemma StripWithNoop(s: string, p: char -> bool)
    requires |s| == 0 || (!p(s[0]) && !p(s[|s| - 1]))
    ensures StripWith(s, p) == s
  {
  }

  /** Stripping a string that is made only of removable characters gives "". */
  lemma StripWithAll(s: string, p: char -> bool)
    requires forall i :: 0 <= i < |s| ==> p(s[i])
    ensures StripWith(s, p) == ""
  {
  }

  /** Padding with removable characters is undone by stripping. */
  lemma {:induction false} StripWithPadded(pad1: string, x: string, pad2: string, p: char -> bool)
    requires forall i :: 0 <= i < |pad1| ==> p(pad1[i])
    requires forall i :: 0 <= i < |pad2| ==> p(pad2[i])
    requires |x| == 0 || (!p(x[0]) && !p(x[|x| - 1]))
    requires |x| > 0
    ensures StripWith(pad1 + x + pad2, p) == x
  {
    var s := pad1 + x + pad2;
    LeadingOfPadded(pad1, x + pad2, p);
    assert pad1 + x + pad2 == pad1 + (x + pad2);
    var a := LeadingCount(s, p);
    assert a == |pad1|;
    var rest := s[a..];
    assert rest == x + pad2;
    TrailingOfPadded(x, pad2, p);
  }

  lemma {:induction false} LeadingOfPadded(pad: string, y: string, p: char -> bool)
    requires forall i :: 0 <= i < |pad| ==> p(pad[i])
    requires |y| > 0 && !p(y[0])
    ensures LeadingCount(pad + y, p) == |pad|
    decreases |pad|
  {
    if |pad| == 0 {
      assert pad + y == y;
    } else {
      assert (pad + y)[1..] == pad[1..] + y;
      LeadingOfPadded(pad[1..], y, p);
    }
  }

  lemma {:induction false} TrailingOfPadded(y: string, pad: string, p: char -> bool)
    requires forall i :: 0 <= i < |pad| ==> p(pad[i])
    requires |y| > 0 && !p(y[|y| - 1])
    ensures TrailingCount(y + pad, p) == |pad|
    ensures (y + pad)[..|y + pad| - |pad|] == y
    decreases |pad|
  {
    if |pad| == 0 {
      assert y + pad == y;
    } else {
      var s := y + pad;
      assert s[..|s| - 1] == y + pad[..|pad| - 1];
      TrailingOfPadded(y, pad[..|pad| - 1], p);
    }
  }

  /** JavaScript `String.prototype.trim`. */
  function JsTrim(s: string): string {
    StripWith(s, IsJsSpace)
  }

  /** Python `str.strip()` with no argument. */
  function PyStrip(s: string): string {
    StripWith(s, IsPySpace)
  }

  /** Python `str.strip(c)` for a single character `c`. */
  function PyStripChar(s: string, c: char): string {
    StripWith(s, (x: char) => x == c)
  }

  /** True when a string is empty or only whitespace (in the JS sense). */
  predicate IsJsBlank(s: string) {
    forall i :: 0 <= i < |s| ==> IsJsSpace(s[i])
  }

  lemma JsTrimEmptyIffBlank(s: string)
    ensures JsTrim(s) == "" <==> IsJsBlank(s)
  {
    if IsJsBlank(s) {
      StripWithAll(s, IsJsSpace);
    } else {
      LeadingCountSpec(s, IsJsSpace);
      var a := LeadingCount(s, IsJsSpace);
      assert a < |s|;
      TrailingCountSpec(s[a..], IsJsSpace);
    }
  }

  // ---------------------------------------------------------------------
  // Case and character classes (ASCII)
  // ---------------------------------------------------------------------

  function LowerChar(c: char): char {
    if 'A' <= c <= 'Z' then (c as int + 32) as char else c
  }

  /** `toLowerCase()` / `lower()` restricted to ASCII letters. */
  function Lower(s: string): (r: string)
    ensures |r| == |s|
    ensures forall i :: 0 <= i < |s| ==> r[i] == LowerChar(s[i])
  {
    seq(|s|, i requires 0 <= i < |s| => LowerChar(s[i]))
  }

  predicate IsAsciiDigit(c: char) { '0' <= c <= '9' }

  predicate IsAsciiLetter(c: char) { ('a' <= c <= 'z') || ('A' <= c <= 'Z') }

  /** Python `isalnum()` restricted to ASCII. */
  predicate IsAlnum(c: char) { IsAsciiLetter(c) || IsAsciiDigit(c) }

  /** The regular-expression class `\w`. */
  predicate IsWordChar(c: char) { IsAlnum(c) || c == '_' }

  /** Decimal digits of a natural number, as a template literal prints it. */
  function NatToString(n: nat): (r: string)
    ensures |r| > 0
    ensures forall i :: 0 <= i < |r| ==> IsAsciiDigit(r[i])
  {
    var d := ['0' + (n % 10) as char];
    if n < 10 then d else NatToString(n / 10) + d
  }

  /** The number a string of decimal digits denotes. */
  function DigitsValue(s: string): nat
    requires forall i :: 0 <= i < |s| ==> IsAsciiDigit(s[i])
  {
    if |s| == 0 then 0
    else
      var c := s[|s| - 1];
      assert IsAsciiDigit(c);
      10 * DigitsValue(s[..|s| - 1]) + (c as int - '0' as int)
  }

  lemma {:induction false} NatToStringValue(n: nat)
    ensures DigitsValue(NatToString(n)) == n
  {
    var d := ['0' + (n % 10) as char];
    if n >= 10 {
      NatToStringValue(n / 10);
      var r := NatToString(n);
      assert r[..|r| - 1] == NatToString(n / 10);
    }
  }

  /** Replaces every occurrence of one character by a string, left to right. */
  function ReplaceChar(s: string, c: char, rep: string): (r: string)
    ensures !HasChar(rep, c) ==> !HasChar(r, c)
  {
    if |s| == 0 then ""
    else (if s[0] == c then rep else [s[0]]) + ReplaceChar(s[1..], c, rep)
  }

  lemma ReplaceCharAbsent(s: string, c: char, rep: string)
    requires !HasChar(s, c)
    ensures ReplaceChar(s, c, rep) == s
  {
    if |s| > 0 {
      ReplaceCharAbsent(s[1..], c, rep);
    }
  }
}
