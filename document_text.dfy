/**
 * Two pure text helpers of the browser code: `cleanDocumentText`, the
 * regular-expression chain applied to Annual Performance Plan and Annual
 * Performance Report text before it is stored, and the section extractors
 * `extractSecondPerformanceSection` / `extractSecondPerformanceInfoSectionAPR`.
 *
 * `\s` is the ECMAScript white-space set (`IsJsSpace`) and `\w` is
 * `[A-Za-z0-9_]` (`IsWordChar`); "punctuation" below is `[^\w\s]`.
 */
module DocumentText {
  import opened Common
  import opened Strings

  // ---------------------------------------------------------------------
  // cleanDocumentText
  // ---------------------------------------------------------------------

  /** The class `[^\w\s]`. */
  predicate IsPunct(c: char) { !IsWordChar(c) && !IsJsSpace(c) }

  predicate NoBreaks(s: string) {
    forall i :: 0 <= i < |s| ==> s[i] != '\n' && s[i] != '\r'
  }

  /** No two white-space characters are next to each other. */
  predicate SingleSpaced(s: string) {
    forall i :: 0 <= i < |s| - 1 ==> !(IsJsSpace(s[i]) && IsJsSpace(s[i + 1]))
  }

  predicate NoSpace(s: string) {
    forall i :: 0 <= i < |s| ==> !IsJsSpace(s[i])
  }

  lemma NoBreaksAppend(a: string, b: string)
    ensures NoBreaks(a) && NoBreaks(b) ==> NoBreaks(a + b)
  {
    if NoBreaks(a) && NoBreaks(b) {
      forall i | 0 <= i < |a + b|
        ensures (a + b)[i] != '\n' && (a + b)[i] != '\r'
      {
        if i >= |a| {
          assert (a + b)[i] == b[i - |a|];
        }
      }
    }
  }

  lemma NoBreaksSlice(s: string, i: nat, j: nat)
    requires i <= j <= |s|
    ensures NoBreaks(s) ==> NoBreaks(s[i..j])
  {
    if NoBreaks(s) {
      forall k | 0 <= k < j - i
        ensures s[i..j][k] != '\n' && s[i..j][k] != '\r'
      {
        assert s[i..j][k] == s[i + k];
      }
    }
  }

  /** `.replace(/\s{2,}/g, ' ')`: every maximal run of two or more white-space characters becomes one space. */
  function CollapseSpaces(s: string): (r: string)
    ensures SingleSpaced(r)
    ensures |r| == 0 <==> |s| == 0
    ensures |r| > 0 ==> (IsJsSpace(r[0]) <==> IsJsSpace(s[0]))
    decreases |s|
  {
    if |s| == 0 then ""
    else if IsJsSpace(s[0]) then
      var n := LeadingCount(s, IsJsSpace);
      LeadingCountSpec(s, IsJsSpace);
      var rest := CollapseSpaces(s[n..]);
      (if n >= 2 then " " else [s[0]]) + rest
    else
      var rest := CollapseSpaces(s[1..]);
      [s[0]] + rest
  }

  /** Collapsing adds no line break. */
  lemma {:induction false} CollapseSpacesNoBreaks(s: string)
    requires NoBreaks(s)
    ensures NoBreaks(CollapseSpaces(s))
    decreases |s|
  {
    if |s| == 0 {
    } else if IsJsSpace(s[0]) {
      var n := LeadingCount(s, IsJsSpace);
      LeadingCountSpec(s, IsJsSpace);
      var head := if n >= 2 then " " else [s[0]];
      assert CollapseSpaces(s) == head + CollapseSpaces(s[n..]);
      NoBreaksSlice(s, n, |s|);
      CollapseSpacesNoBreaks(s[n..]);
      NoBreaksAppend(head, CollapseSpaces(s[n..]));
    } else {
      assert CollapseSpaces(s) == [s[0]] + CollapseSpaces(s[1..]);
      NoBreaksSlice(s, 1, |s|);
      CollapseSpacesNoBreaks(s[1..]);
      NoBreaksAppend([s[0]], CollapseSpaces(s[1..]));
    }
  }

  /** Text without white space is left as it is. */
  lemma {:induction false} CollapseSpacesNoSpace(s: string)
    requires NoSpace(s)
    ensures CollapseSpaces(s) == s
    decreases |s|
  {
    if |s| > 0 {
      assert !IsJsSpace(s[0]);
      assert CollapseSpaces(s) == [s[0]] + CollapseSpaces(s[1..]);
      assert NoSpace(s[1..]) by {
        forall i | 0 <= i < |s[1..]| ensures !IsJsSpace(s[1..][i]) {
          assert s[1..][i] == s[i + 1];
        }
      }
      CollapseSpacesNoSpace(s[1..]);
      assert [s[0]] + s[1..] == s;
    }
  }

  /** `.replace(/(\r\n|\n|\r)/g, ' ')`. */
  function BreaksToSpaces(s: string): (r: string)
    ensures NoBreaks(r)
    ensures NoSpace(s) ==> r == s
    decreases |s|
  {
    if |s| == 0 then ""
    else if |s| >= 2 && s[0] == '\r' && s[1] == '\n' then
      var rest := BreaksToSpaces(s[2..]);
      " " + rest
    else
      var rest := BreaksToSpaces(s[1..]);
      (if s[0] == '\n' || s[0] == '\r' then " " else [s[0]]) + rest
  }

  /** `.replace(/([^\w\s])\s+/g, '$1 ')`: the white-space run after a punctuation character becomes one space. */
  function SpaceAfterPunct(s: string): (r: string)
    ensures NoBreaks(s) ==> NoBreaks(r)
    ensures NoSpace(s) ==> r == s
    decreases |s|
  {
    if |s| == 0 then ""
    else if IsPunct(s[0]) && |s| >= 2 && IsJsSpace(s[1]) then
      var n := 1 + LeadingCount(s[1..], IsJsSpace);
      var rest := SpaceAfterPunct(s[n..]);
      [s[0], ' '] + rest
    else
      var rest := SpaceAfterPunct(s[1..]);
      [s[0]] + rest
  }

  /**
   * `.replace(/\s+([^\w\s])/g, ' $1')`: a white-space run followed by a
   * punctuation character becomes one space; any other run stays as it is.
   */
  function SpaceBeforePunct(s: string): (r: string)
    ensures NoBreaks(s) ==> NoBreaks(r)
    ensures NoSpace(s) ==> r == s
    decreases |s|
  {
    if |s| == 0 then ""
    else if IsJsSpace(s[0]) then
      var n := LeadingCount(s, IsJsSpace);
      if n < |s| && IsPunct(s[n]) then
        NoBreaksSlice(s, n + 1, |s|);
        var rest := SpaceBeforePunct(s[n + 1..]);
        NoBreaksAppend([' ', s[n]], rest);
        [' ', s[n]] + rest
      else
        NoBreaksSlice(s, n, |s|);
        NoBreaksSlice(s, 0, n);
        var rest := SpaceBeforePunct(s[n..]);
        NoBreaksAppend(s[..n], rest);
        s[..n] + rest
    else
      NoBreaksSlice(s, 1, |s|);
      var rest := SpaceBeforePunct(s[1..]);
      NoBreaksAppend([s[0]], rest);
      [s[0]] + rest
  }

  /** `cleanDocumentText(text)`. */
  function CleanDocumentText(text: string): string {
    JsTrim(CollapseSpaces(SpaceBeforePunct(SpaceAfterPunct(BreaksToSpaces(CollapseSpaces(text))))))
  }

  /** Trimming keeps a contiguous part of the string. */
  lemma StripWithIsSlice(s: string, p: char -> bool)
    ensures exists a, b :: 0 <= a <= b <= |s| && StripWith(s, p) == s[a..b]
  {
    var a := LeadingCount(s, p);
    var rest := s[a..];
    var b := TrailingCount(rest, p);
    assert StripWith(s, p) == s[a..a + |rest| - b];
  }

  /**
   * The cleaned text has no line break, never two white-space characters
   * in a row, and no white space at either end.
   */
  lemma CleanDocumentTextShape(text: string)
    ensures var r := CleanDocumentText(text);
      NoBreaks(r) && SingleSpaced(r) && (|r| > 0 ==> !IsJsSpace(r[0]) && !IsJsSpace(r[|r| - 1]))
  {
    var s1 := BreaksToSpaces(CollapseSpaces(text));
    var s2 := SpaceAfterPunct(s1);
    var s3 := SpaceBeforePunct(s2);
    var s4 := CollapseSpaces(s3);
    assert NoBreaks(s3);
    CollapseSpacesNoBreaks(s3);
    assert SingleSpaced(s4);
    assert CleanDocumentText(text) == JsTrim(s4);
    TrimKeepsShape(s4);
  }

  /** Trimming a single-spaced text without line breaks keeps it so. */
  lemma TrimKeepsShape(s: string)
    requires NoBreaks(s) && SingleSpaced(s)
    ensures NoBreaks(JsTrim(s)) && SingleSpaced(JsTrim(s))
  {
    StripWithIsSlice(s, IsJsSpace);
    var a, b :| 0 <= a <= b <= |s| && JsTrim(s) == s[a..b];
    var r := s[a..b];
    forall i | 0 <= i < |r| - 1
      ensures !(IsJsSpace(r[i]) && IsJsSpace(r[i + 1]))
    {
      assert r[i] == s[a + i] && r[i + 1] == s[a + i + 1];
    }
    forall i | 0 <= i < |r|
      ensures r[i] != '\n' && r[i] != '\r'
    {
      assert r[i] == s[a + i];
    }
  }

  /** Text without any white space is stored as it is. */
  lemma CleanDocumentTextNoSpace(text: string)
    requires NoSpace(text)
    ensures CleanDocumentText(text) == text
  {
    CollapseSpacesNoSpace(text);
    StripWithNoop(text, IsJsSpace);
  }

  /** The step commented as removing the space before punctuation keeps one space there. */
  lemma CleanDocumentTextKeepsSpaceBeforePunct()
    ensures CleanDocumentText("a ,") == "a ,"
  {
    var s := "a ,";
    var tail := s[1..];
    assert LeadingCount(tail, IsJsSpace) == 1;
    assert tail[1..] == ",";
    assert CollapseSpaces(",") == ",";
    assert CollapseSpaces(s) == s;
    assert BreaksToSpaces(s) == s;
    assert SpaceAfterPunct(s) == s;
    assert SpaceBeforePunct(",") == ",";
    assert SpaceBeforePunct(tail) == tail;
    assert SpaceBeforePunct(s) == s;
    StripWithNoop(s, IsJsSpace);
  }

  // ---------------------------------------------------------------------
  // extractSecondPerformanceSection and its APR variant
  // ---------------------------------------------------------------------

  const PlanKeyword := "Measuring Our Performance"
  const PlanMarker := "Part D"
  const ReportKeyword := "Performance Information"
  const ReportMarker := "Part C"

  /**
   * `extractSecondPerformanceSection` for a keyword and a marker: the text
   * from the second (non-overlapping) occurrence of the keyword up to the
   * first marker at or after it, trimmed; `None` for `null`.
   */
  function SecondSection(text: string, keyword: string, marker: string): Option<string>
    requires |keyword| > 0 && |marker| > 0
  {
    match IndexOf(text, keyword)
    case None => None
    case Some(first) =>
      match IndexOfFrom(text, keyword, first + |keyword|)
      case None => None
      case Some(second) =>
        match IndexOfFrom(text, marker, second)
        case None => None
        case Some(end) => Some(JsTrim(text[second..end]))
  }

  function ExtractSecondPerformanceSection(text: string): Option<string> {
    SecondSection(text, PlanKeyword, PlanMarker)
  }

  /** `extractSecondPerformanceInfoSectionAPR`, with its `slice`/`includes` search for the second keyword. */
  function ExtractSecondPerformanceInfoSectionApr(text: string): Option<string> {
    match IndexOf(text, ReportKeyword)
    case None => None
    case Some(first) =>
      var afterFirst := text[first + |ReportKeyword|..];
      if !Contains(afterFirst, ReportKeyword) then None
      else
        ContainsIffIndexOf(afterFirst, ReportKeyword);
        var secondIdx := first + |ReportKeyword| + IndexOf(afterFirst, ReportKeyword).value;
        match IndexOfFrom(text, ReportMarker, secondIdx)
        case None => None
        case Some(end) => Some(JsTrim(text[secondIdx..end]))
  }

  /** The least occurrence at or after `from` is what `indexOf` finds. */
  lemma IndexOfFromIsLeast(s: string, pat: string, from: nat, j: nat)
    requires |pat| > 0
    requires from <= j && OccursAt(s, pat, j)
    requires forall p :: from <= p < j ==> !OccursAt(s, pat, p)
    ensures IndexOfFrom(s, pat, from) == Some(j)
  {
  }

  /** Searching a suffix is searching the whole string from where the suffix starts. */
  lemma IndexOfSuffix(s: string, pat: string, a: nat)
    requires |pat| > 0 && a <= |s|
    ensures IndexOf(s[a..], pat).Some? <==> IndexOfFrom(s, pat, a).Some?
    ensures IndexOf(s[a..], pat).Some? ==> IndexOfFrom(s, pat, a).value == a + IndexOf(s[a..], pat).value
  {
    var r := IndexOf(s[a..], pat);
    if r.Some? {
      OccursAtSuffix(s, pat, a, r.value);
      forall p | a <= p < a + r.value
        ensures !OccursAt(s, pat, p)
      {
        assert !OccursAt(s[a..], pat, p - a);
        if OccursAt(s, pat, p) {
          OccursAtToSuffix(s, pat, a, p);
        }
      }
      IndexOfFromIsLeast(s, pat, a, a + r.value);
    } else if IndexOfFrom(s, pat, a).Some? {
      var j := IndexOfFrom(s, pat, a).value;
      assert a <= j && OccursAt(s, pat, j);
      assert !OccursAt(s[a..], pat, j - a);
      OccursAtToSuffix(s, pat, a, j);
    }
  }

  /** Both extractors are the same search; only the keyword and the marker differ. */
  lemma AprExtractorIsSecondSection(text: string)
    ensures ExtractSecondPerformanceInfoSectionApr(text) == SecondSection(text, ReportKeyword, ReportMarker)
  {
    if IndexOf(text, ReportKeyword).Some? {
      var first := IndexOf(text, ReportKeyword).value;
      var a := first + |ReportKeyword|;
      assert OccursAt(text, ReportKeyword, first);
      IndexOfSuffix(text, ReportKeyword, a);
      ContainsIffIndexOf(text[a..], ReportKeyword);
      if IndexOf(text[a..], ReportKeyword).Some? {
        var second := a + IndexOf(text[a..], ReportKeyword).value;
        assert IndexOfFrom(text, ReportKeyword, a) == Some(second);
      }
    }
  }

  /** Nothing before the first occurrence found from `from` is an occurrence. */
  lemma NoOccurrenceBefore(text: string, pat: string, from: nat, end: nat)
    requires |pat| > 0 && from <= |text|
    requires IndexOfFrom(text, pat, from) == Some(end)
    ensures !Contains(text[from..end], pat)
  {
    if Contains(text[from..end], pat) {
      var p: nat :| p <= |text[from..end]| && OccursAt(text[from..end], pat, p);
      assert text[from..end] == text[from..][..end - from];
      OccursAtPrefix(text[from..], pat, end - from, p);
      OccursAtSuffix(text, pat, from, p);
    }
  }

  /**
   * `i` is the first occurrence of the keyword, `j` the first one that
   * starts after `i`'s ends, and `k` the first marker at or after `j`.
   */
  ghost predicate SectionBounds(text: string, keyword: string, marker: string, i: nat, j: nat, k: nat) {
    OccursAt(text, keyword, i) && i + |keyword| <= j && j <= k <= |text|
    && OccursAt(text, keyword, j) && OccursAt(text, marker, k)
    && (forall p :: 0 <= p < i ==> !OccursAt(text, keyword, p))
    && (forall p :: i + |keyword| <= p < j ==> !OccursAt(text, keyword, p))
    && (forall p :: j <= p < k ==> !OccursAt(text, marker, p))
  }

  /**
   * A section found is the trimmed text from the second occurrence of the
   * keyword (the first one that starts after the first occurrence ends) up
   * to the first marker at or after it.
   */
  lemma SecondSectionFound(text: string, keyword: string, marker: string) returns (i: nat, j: nat, k: nat)
    requires |keyword| > 0 && |marker| > 0
    requires SecondSection(text, keyword, marker).Some?
    ensures OccursAt(text, keyword, i) && i + |keyword| <= j && OccursAt(text, keyword, j)
    ensures j <= k <= |text| && OccursAt(text, marker, k)
    ensures forall p :: 0 <= p < i ==> !OccursAt(text, keyword, p)
    ensures forall p :: i + |keyword| <= p < j ==> !OccursAt(text, keyword, p)
    ensures forall p :: j <= p < k ==> !OccursAt(text, marker, p)
    ensures SecondSection(text, keyword, marker).value == JsTrim(text[j..k])
    ensures !Contains(text[j..k], marker)
  {
    var first := IndexOf(text, keyword);
    assert first.Some?;
    i := first.value;
    var second := IndexOfFrom(text, keyword, i + |keyword|);
    assert second.Some?;
    j := second.value;
    var end := IndexOfFrom(text, marker, j);
    assert end.Some?;
    k := end.value;
    assert SecondSection(text, keyword, marker) == Some(JsTrim(text[j..k]));
    NoOccurrenceBefore(text, marker, j, k);
  }

  /** Two non-overlapping keywords and a later marker are always found. */
  lemma SecondSectionWhenOccurs(text: string, keyword: string, marker: string, i: nat, j: nat, k: nat)
    requires |keyword| > 0 && |marker| > 0
    requires OccursAt(text, keyword, i) && i + |keyword| <= j && OccursAt(text, keyword, j)
    requires j <= k && OccursAt(text, marker, k)
    ensures SecondSection(text, keyword, marker).Some?
  {
    assert IndexOf(text, keyword).Some?;
    var first := IndexOf(text, keyword).value;
    assert first <= i;
    assert IndexOfFrom(text, keyword, first + |keyword|).Some?;
    var second := IndexOfFrom(text, keyword, first + |keyword|).value;
    assert second <= j;
  }

  /**
   * The extractor finds a section exactly when the keyword occurs twice
   * without overlapping and the marker occurs at or after the second one;
   * the section is then the trimmed text from the second occurrence to the
   * first marker at or after it.
   */
  lemma SecondSectionSpec(text: string, keyword: string, marker: string)
    requires |keyword| > 0 && |marker| > 0
    ensures SecondSection(text, keyword, marker).Some? <==>
      exists i: nat, j: nat, k: nat ::
        (OccursAt(text, keyword, i) && i + |keyword| <= j && OccursAt(text, keyword, j) && j <= k && OccursAt(text, marker, k))
    ensures SecondSection(text, keyword, marker).Some? ==>
      exists i: nat, j: nat, k: nat ::
        SectionBounds(text, keyword, marker, i, j, k) && SecondSection(text, keyword, marker).value == JsTrim(text[j..k])
  {
    if SecondSection(text, keyword, marker).Some? {
      var i, j, k := SecondSectionFound(text, keyword, marker);
      assert SectionBounds(text, keyword, marker, i, j, k);
    }
    if exists i: nat, j: nat, k: nat ::
         (OccursAt(text, keyword, i) && i + |keyword| <= j && OccursAt(text, keyword, j) && j <= k && OccursAt(text, marker, k)) {
      var i: nat, j: nat, k: nat :|
        OccursAt(text, keyword, i) && i + |keyword| <= j && OccursAt(text, keyword, j) && j <= k && OccursAt(text, marker, k);
      SecondSectionWhenOccurs(text, keyword, marker, i, j, k);
    }
  }
}
