/**
 * The chunkers of the client: fixed-size slicing (`chunkText`,
 * `chunkLargeText`, `chunkLargeText2`, `chunkArray`, `chunkArray2`), the
 * fixed-count split of `processDocumentWithChainingFixedChunks(2)`,
 * `chunkIntoFive`, the paragraph accumulator of
 * `processDocumentWithChaining(2)` and the word grouper `splitText`.
 */
module Chunkers {
  import opened Common
  import opened Strings

  // ---------------------------------------------------------------------
  // Fixed-size slicing
  // ---------------------------------------------------------------------

  /** The slices `s.slice(i, i + size)` for i = 0, size, 2·size, … below |s|. */
  function Slices<T>(s: seq<T>, size: nat): seq<seq<T>>
    requires size > 0
    decreases |s|
  {
    if |s| == 0 then []
    else if |s| <= size then [s]
    else [s[..size]] + Slices(s[size..], size)
  }

  lemma SlicesStep<T>(s: seq<T>, i: nat, size: nat)
    requires size > 0 && i < |s|
    ensures Slices(Slice(s, i, |s|), size) ==
            [Slice(s, i, i + size)] + Slices(Slice(s, i + size, |s|), size)
  {
    var rest := s[i..];
    assert Slice(s, i, |s|) == rest;
    if i + size < |s| {
      assert rest[..size] == s[i..i + size];
      assert rest[size..] == s[i + size..];
    }
  }

  /**
   * `for (let i = 0; i < s.length; i += size) out.push(s.slice(i, i + size))`:
   * the loop shared by all five fixed-size slicers of the client.
   */
  method SliceBySize<T>(s: seq<T>, size: nat) returns (chunks: seq<seq<T>>)
    requires size > 0
    ensures chunks == Slices(s, size)
  {
    chunks := [];
    var i := 0;
    assert Slice(s, 0, |s|) == s;
    while i < |s|
      invariant chunks + Slices(Slice(s, i, |s|), size) == Slices(s, size)
      decreases |s| - i
    {
      SlicesStep(s, i, size);
      chunks := chunks + [Slice(s, i, i + size)];
      i := i + size;
    }
  }

  /** The slices put back together give the input. */
  lemma {:induction false} SlicesFlatten<T>(s: seq<T>, size: nat)
    requires size > 0
    ensures Flatten(Slices(s, size)) == s
    decreases |s|
  {
    if |s| > size {
      SlicesFlatten(s[size..], size);
      assert [s[..size]] + Slices(s[size..], size) == Slices(s, size);
      assert Flatten(Slices(s, size)) == s[..size] + Flatten(Slices(s[size..], size));
      assert s[..size] + s[size..] == s;
    } else if |s| > 0 {
      assert Flatten([s]) == s + Flatten([]);
    }
  }

  /** There are ceil(|s| / size) slices. */
  lemma {:induction false} SlicesCount<T>(s: seq<T>, size: nat)
    requires size > 0
    ensures |Slices(s, size)| == CeilDiv(|s|, size)
    decreases |s|
  {
    if |s| > size {
      SlicesCount(s[size..], size);
    }
  }

  /** Every slice but the last has exactly `size` items; the last has 1 to `size`. */
  lemma {:induction false} SlicesSizes<T>(s: seq<T>, size: nat)
    requires size > 0
    ensures forall k :: 0 <= k < |Slices(s, size)| - 1 ==> |Slices(s, size)[k]| == size
    ensures |Slices(s, size)| > 0 ==>
      1 <= |Slices(s, size)[|Slices(s, size)| - 1]| <= size
    decreases |s|
  {
    if |s| > size {
      SlicesSizes(s[size..], size);
      var tail := Slices(s[size..], size);
      assert Slices(s, size) == [s[..size]] + tail;
    }
  }

  /** CHUNK_SIZE in the client: the size of `chunkText` and the default of `splitText`. */
  const ChunkSize: nat := 5000

  /** `chunkText(text)`: 5000-character slices. */
  method ChunkText(text: string) returns (out: seq<string>)
    ensures out == Slices(text, ChunkSize)
    ensures Flatten(out) == text
    ensures |out| == CeilDiv(|text|, ChunkSize)
  {
    out := SliceBySize(text, ChunkSize);
    SlicesFlatten(text, ChunkSize);
    SlicesCount(text, ChunkSize);
  }

  // ---------------------------------------------------------------------
  // Fixed-count split
  // ---------------------------------------------------------------------

  /** `Math.ceil(length / n)`; with n = 0 no chunk is ever built, so its value is unused. */
  function FixedChunkSize(length: nat, n: nat): nat {
    if n == 0 then 0 else CeilDiv(length, n)
  }

  /** The i-th chunk: `slice(i·cs, i == n-1 ? length : i·cs + cs)`. */
  function FixedChunk(text: string, n: nat, i: nat): string {
    var cs := FixedChunkSize(|text|, n);
    Slice(text, i * cs, if i == n - 1 then |text| else i * cs + cs)
  }

  function FixedChunks(text: string, n: nat): (chunks: seq<string>)
    ensures |chunks| == n
  {
    seq(n, i requires 0 <= i < n => FixedChunk(text, n, i))
  }

  /** The loop of `processDocumentWithChainingFixedChunks` that builds the chunks. */
  method SplitFixedCount(text: string, n: nat) returns (chunks: seq<string>)
    ensures chunks == FixedChunks(text, n)
  {
    var chunkSize := FixedChunkSize(|text|, n);
    chunks := [];
    var i := 0;
    while i < n
      invariant i <= n
      invariant chunks == FixedChunks(text, n)[..i]
    {
      var start := i * chunkSize;
      var end := if i == n - 1 then |text| else start + chunkSize;
      chunks := chunks + [Slice(text, start, end)];
      i := i + 1;
    }
  }

  lemma PrefixOfFixed(text: string, n: nat, i: nat)
    requires 0 < n && i <= n
    ensures Flatten(FixedChunks(text, n)[..i]) == Slice(text, 0, if i == n then |text| else i * FixedChunkSize(|text|, n))
    decreases i
  {
    var chunks := FixedChunks(text, n);
    if i == 0 {
      assert chunks[..0] == [];
    } else {
      var cs := FixedChunkSize(|text|, n);
      var a := (i - 1) * cs;
      MulStep(i, cs);
      var b := if i == n then |text| else i * cs;
      PrefixOfFixed(text, n, i - 1);
      assert Flatten(chunks[..i - 1]) == Slice(text, 0, a);
      FixedChunkAt(text, n, i - 1);
      assert chunks[i - 1] == Slice(text, a, b);
      TakeNext(chunks, i - 1);
      FlattenAppend(chunks[..i - 1], [chunks[i - 1]]);
      assert Flatten([chunks[i - 1]]) == chunks[i - 1] + Flatten([]);
      SliceJoin(text, a, b);
    }
  }

  lemma FixedChunkAt(text: string, n: nat, k: nat)
    requires k < n
    ensures var cs := FixedChunkSize(|text|, n);
      FixedChunks(text, n)[k] == Slice(text, k * cs, if k == n - 1 then |text| else k * cs + cs)
  {
  }

  lemma MulStep(i: nat, cs: nat)
    requires i > 0
    ensures (i - 1) * cs + cs == i * cs
  {
  }

  lemma SliceJoin(text: string, a: nat, b: nat)
    requires a <= b || b == |text|
    ensures Slice(text, 0, a) + Slice(text, a, b) == Slice(text, 0, b)
  {
    if a <= b && b <= |text| {
      assert text[0..a] + text[a..b] == text[0..b];
    }
  }

  /**
   * For n ≥ 1 the fixed-count split gives exactly n chunks, each at most
   * ceil(|text| / n) long, the last ending at |text|, and together they
   * are the text (10 characters in 3 chunks give 4, 4 and 2).
   */
  lemma FixedChunksProperties(text: string, n: nat)
    requires n >= 1
    ensures |FixedChunks(text, n)| == n
    ensures forall i :: 0 <= i < n ==> |FixedChunks(text, n)[i]| <= FixedChunkSize(|text|, n)
    ensures Flatten(FixedChunks(text, n)) == text
  {
    forall i | 0 <= i < n
      ensures |FixedChunks(text, n)[i]| <= FixedChunkSize(|text|, n)
    {
      FixedChunkLength(text, n, i);
    }
    PrefixOfFixed(text, n, n);
    TakeDrop(FixedChunks(text, n), n);
  }

  lemma FixedChunkLength(text: string, n: nat, i: nat)
    requires i < n
    ensures |FixedChunk(text, n, i)| <= FixedChunkSize(|text|, n)
  {
    var cs := FixedChunkSize(|text|, n);
    if i == n - 1 {
      MulStep(n, cs);
    }
  }

  lemma FixedChunksTenByThree()
    ensures FixedChunks("abcdefghij", 3) == ["abcd", "efgh", "ij"]
  {
    assert FixedChunkSize(10, 3) == 4;
    assert FixedChunk("abcdefghij", 3, 0) == "abcd";
    assert FixedChunk("abcdefghij", 3, 1) == "efgh";
    assert FixedChunk("abcdefghij", 3, 2) == "ij";
  }

  /** `chunkIntoFive`: `slice(i·cl, (i+1)·cl)` for i in 0..4 with cl = ceil(length / 5). */
  function ChunkIntoFive(text: string): (r: seq<string>)
    ensures |r| == 5
  {
    var cl := CeilDiv(|text|, 5);
    seq(5, i requires 0 <= i < 5 => Slice(text, i * cl, (i + 1) * cl))
  }

  /** `chunkIntoFive` is the fixed-count split with n = 5. */
  lemma ChunkIntoFiveIsFixedCount(text: string)
    ensures ChunkIntoFive(text) == FixedChunks(text, 5)
  {
    var cl := CeilDiv(|text|, 5);
    assert 5 * cl >= |text|;
    forall i | 0 <= i < 5
      ensures ChunkIntoFive(text)[i] == FixedChunks(text, 5)[i]
    {
      assert (i + 1) * cl == i * cl + cl;
    }
  }

  // ---------------------------------------------------------------------
  // Paragraph accumulator
  // ---------------------------------------------------------------------

  /** A chunk as the accumulator builds it: every paragraph followed by "\n\n". */
  function Render(group: seq<string>): (r: string)
    ensures |r| >= 2 * |group|
    ensures |group| > 0 <==> r != ""
  {
    if |group| == 0 then "" else group[0] + "\n\n" + Render(group[1..])
  }

  lemma {:induction false} RenderAppend(group: seq<string>, p: string)
    ensures Render(group + [p]) == Render(group) + p + "\n\n"
  {
    if |group| == 0 {
      assert group + [p] == [p];
    } else {
      assert (group + [p])[1..] == group[1..] + [p];
      RenderAppend(group[1..], p);
    }
  }

  function Renders(groups: seq<seq<string>>): (r: seq<string>)
    ensures |r| == |groups|
  {
    seq(|groups|, k requires 0 <= k < |groups| => Render(groups[k]))
  }

  /**
   * The grouping the accumulator makes: `done` are the pushed groups,
   * `cur` the paragraphs of `currentChunk`. A paragraph joins the current
   * chunk when `currentChunk.length + paragraph.length < chunkSize`.
   */
  function PackFrom(paras: seq<string>, chunkSize: int, done: seq<seq<string>>, cur: seq<string>)
    : seq<seq<string>>
    decreases |paras|
  {
    if |paras| == 0 then (if |cur| > 0 then done + [cur] else done)
    else if |Render(cur)| + |paras[0]| < chunkSize then PackFrom(paras[1..], chunkSize, done, cur + [paras[0]])
    else PackFrom(paras[1..], chunkSize, done + [cur], [paras[0]])
  }

  function Pack(paras: seq<string>, chunkSize: int): seq<seq<string>> {
    PackFrom(paras, chunkSize, [], [])
  }

  /** The chunks of `processDocumentWithChaining(2)`; `chunkSize` defaults to 1000 there. */
  method AccumulateParagraphs(text: string, chunkSize: int) returns (chunks: seq<string>)
    ensures chunks == Renders(Pack(Split(text, "\n\n"), chunkSize))
  {
    var paras := Split(text, "\n\n");
    chunks := [];
    var currentChunk := "";
    ghost var done: seq<seq<string>> := [];
    ghost var cur: seq<string> := [];
    var i := 0;
    while i < |paras|
      invariant i <= |paras|
      invariant chunks == Renders(done) && currentChunk == Render(cur)
      invariant PackFrom(paras[i..], chunkSize, done, cur) == Pack(paras, chunkSize)
    {
      var paragraph := paras[i];
      assert paras[i..][1..] == paras[i + 1..];
      if |currentChunk| + |paragraph| < chunkSize {
        RenderAppend(cur, paragraph);
        currentChunk := currentChunk + paragraph + "\n\n";
        cur := cur + [paragraph];
      } else {
        chunks := chunks + [currentChunk];
        done := done + [cur];
        currentChunk := paragraph + "\n\n";
        cur := [paragraph];
      }
      i := i + 1;
    }
    if currentChunk != "" {
      chunks := chunks + [currentChunk];
      done := done + [cur];
    }
  }

  lemma {:induction false} RendersFlatten(groups: seq<seq<string>>)
    ensures Flatten(Renders(groups)) == Render(Flatten(groups))
  {
    if |groups| > 0 {
      RendersFlatten(groups[1..]);
      assert Renders(groups)[1..] == Renders(groups[1..]);
      RenderConcat(groups[0], Flatten(groups[1..]));
    }
  }

  lemma {:induction false} RenderConcat(a: seq<string>, b: seq<string>)
    ensures Render(a + b) == Render(a) + Render(b)
  {
    if |a| > 0 {
      assert (a + b)[1..] == a[1..] + b;
      RenderConcat(a[1..], b);
    } else {
      assert a + b == b;
    }
  }

  lemma {:induction false} PackFromFlatten(paras: seq<string>, chunkSize: int, done: seq<seq<string>>, cur: seq<string>)
    ensures Flatten(PackFrom(paras, chunkSize, done, cur)) == Flatten(done) + cur + paras
    decreases |paras|
  {
    if |paras| == 0 {
      if |cur| > 0 {
        FlattenAppend(done, [cur]);
        assert Flatten([cur]) == cur + Flatten([]);
      }
    } else {
      assert [paras[0]] + paras[1..] == paras;
      if |Render(cur)| + |paras[0]| < chunkSize {
        PackFromFlatten(paras[1..], chunkSize, done, cur + [paras[0]]);
      } else {
        PackFromFlatten(paras[1..], chunkSize, done + [cur], [paras[0]]);
        FlattenAppend(done, [cur]);
        assert Flatten([cur]) == cur + Flatten([]);
      }
    }
  }

  /** Every chunk but the first is non-empty; chunks of two or more paragraphs stay short. */
  predicate WellPacked(groups: seq<seq<string>>, chunkSize: int) {
    (forall k :: 0 < k < |groups| ==> |groups[k]| > 0)
    && (forall k :: 0 <= k < |groups| && |groups[k]| >= 2 ==> |Render(groups[k])| < chunkSize + 2)
  }

  lemma {:induction false} PackFromWellPacked(paras: seq<string>, chunkSize: int, done: seq<seq<string>>, cur: seq<string>)
    requires WellPacked(done, chunkSize)
    requires |cur| >= 2 ==> |Render(cur)| < chunkSize + 2
    requires |done| > 0 ==> |cur| > 0
    ensures WellPacked(PackFrom(paras, chunkSize, done, cur), chunkSize)
    ensures |paras| > 0 || |cur| > 0 ==> |PackFrom(paras, chunkSize, done, cur)| > 0
    decreases |paras|
  {
    if |paras| == 0 {
      if |cur| > 0 {
        assert (done + [cur])[|done|] == cur;
      }
    } else if |Render(cur)| + |paras[0]| < chunkSize {
      RenderAppend(cur, paras[0]);
      PackFromWellPacked(paras[1..], chunkSize, done, cur + [paras[0]]);
    } else {
      var done' := done + [cur];
      assert forall k :: 0 <= k < |done| ==> done'[k] == done[k];
      PackFromWellPacked(paras[1..], chunkSize, done', [paras[0]]);
    }
  }

  /**
   * The accumulator's chunks put back together are the text followed by
   * "\n\n" (every paragraph, the last one included, gets "\n\n"); there is
   * at least one chunk; only chunk 0 can be empty; and a chunk holding two
   * or more paragraphs is shorter than `chunkSize + 2`.
   */
  lemma AccumulateProperties(text: string, chunkSize: int)
    ensures Flatten(Renders(Pack(Split(text, "\n\n"), chunkSize))) == text + "\n\n"
    ensures |Pack(Split(text, "\n\n"), chunkSize)| >= 1
    ensures forall k :: 0 < k < |Renders(Pack(Split(text, "\n\n"), chunkSize))| ==>
      Renders(Pack(Split(text, "\n\n"), chunkSize))[k] != ""
    ensures WellPacked(Pack(Split(text, "\n\n"), chunkSize), chunkSize)
  {
    var paras := Split(text, "\n\n");
    var groups := Pack(paras, chunkSize);
    PackFromFlatten(paras, chunkSize, [], []);
    assert Flatten(groups) == paras;
    RendersFlatten(groups);
    RenderIsJoinPlus(paras);
    JoinSplit(text, "\n\n");
    PackFromWellPacked(paras, chunkSize, [], []);
  }

  lemma {:induction false} RenderIsJoinPlus(paras: seq<string>)
    requires |paras| > 0
    ensures Render(paras) == Join(paras, "\n\n") + "\n\n"
  {
    if |paras| > 1 {
      RenderIsJoinPlus(paras[1..]);
    }
  }

  /** The first paragraph alone reaching `chunkSize` makes chunk 0 empty. */
  lemma FirstChunkEmptyExample()
    ensures Renders(Pack(Split("abc\n\nd", "\n\n"), 3)) == ["", "abc\n\n", "d\n\n"]
  {
    ExampleParagraphs();
    ExamplePack("abc", "d");
    ExampleRenders("abc", "d");
    assert "abc" + "\n\n" == "abc\n\n" && "d" + "\n\n" == "d\n\n";
  }

  lemma ExampleParagraphs()
    ensures Split("abc\n\nd", "\n\n") == ["abc", "d"]
  {
    var s := "abc" + "\n\n" + "d";
    assert "abc\n\nd" == s;
    forall j | 0 <= j < 3
      ensures !OccursAt(s, "\n\n", j)
    {
      assert s[j..j + 2][0] == s[j] != '\n';
    }
    SplitFirst("abc", "\n\n", "d");
    SplitNoSep("d", "\n\n");
  }

  /** A three-character paragraph fills the chunk before it and the next one. */
  lemma ExamplePack(a: string, b: string)
    requires |a| == 3 && |b| == 1
    ensures Pack([a, b], 3) == [[], [a], [b]]
  {
    assert [a, b][1..] == [b] && [a][1..] == [];
    assert Render([a]) == a + "\n\n" + Render([]);
    assert |Render([a])| == 5;
    var none: seq<seq<string>> := [];
    assert none + [[]] == [[]] && [[]] + [[a]] == [[], [a]] && [[], [a]] + [[b]] == [[], [a], [b]];
    assert PackFrom([a, b], 3, [], []) == PackFrom([b], 3, [[]], [a]);
    assert PackFrom([b], 3, [[]], [a]) == PackFrom([], 3, [[], [a]], [b]);
  }

  lemma ExampleRenders(a: string, b: string)
    ensures Renders([[], [a], [b]]) == ["", a + "\n\n", b + "\n\n"]
  {
    assert [a][1..] == [] && [b][1..] == [];
    assert Render([a]) == a + "\n\n" + Render([]);
    assert Render([b]) == b + "\n\n" + Render([]);
    var g: seq<seq<string>> := [[], [a], [b]];
    var r := Renders(g);
    assert r[0] == Render(g[0]) && r[1] == Render(g[1]) && r[2] == Render(g[2]);
    assert Render([]) == "" && (a + "\n\n") + "" == a + "\n\n" && (b + "\n\n") + "" == b + "\n\n";
    assert r[0] == "" && r[1] == a + "\n\n" && r[2] == b + "\n\n";
  }

  // ---------------------------------------------------------------------
  // Word grouper
  // ---------------------------------------------------------------------

  predicate NotJsSpace(c: char) { !IsJsSpace(c) }

  /**
   * `text.split(/\s+/)`: the pieces between maximal runs of whitespace; a
   * leading or trailing run yields an empty first or last piece.
   */
  function SplitWs(s: string): (words: seq<string>)
    ensures |words| >= 1
    decreases |s|
  {
    var i := LeadingCount(s, NotJsSpace);
    if i == |s| then [s]
    else
      var j := i + LeadingCount(s[i..], IsJsSpace);
      [s[..i]] + SplitWs(s[j..])
  }

  /** No word contains whitespace, and only the first and the last word can be empty. */
  lemma {:induction false} SplitWsWords(s: string)
    ensures forall k, m :: 0 <= k < |SplitWs(s)| && 0 <= m < |SplitWs(s)[k]| ==> !IsJsSpace(SplitWs(s)[k][m])
    ensures forall k :: 0 < k < |SplitWs(s)| - 1 ==> SplitWs(s)[k] != ""
    decreases |s|
  {
    var i := LeadingCount(s, NotJsSpace);
    LeadingCountSpec(s, NotJsSpace);
    if i < |s| {
      var j := i + LeadingCount(s[i..], IsJsSpace);
      LeadingCountSpec(s[i..], IsJsSpace);
      var rest := s[j..];
      SplitWsWords(rest);
      var tail := SplitWs(rest);
      assert SplitWs(s) == [s[..i]] + tail;
      if |tail| > 1 {
        assert j < |s|;
        assert !IsJsSpace(s[j]);
        LeadingCountSpec(rest, NotJsSpace);
        assert LeadingCount(rest, NotJsSpace) > 0;
      }
    }
  }

  function JoinEach(groups: seq<seq<string>>, sep: string): (r: seq<string>)
    ensures |r| == |groups|
  {
    seq(|groups|, k requires 0 <= k < |groups| => Join(groups[k], sep))
  }

  /** `splitText`: groups of `maxWords` words (default CHUNK_SIZE), each joined by " ". */
  method SplitText(text: string, maxWords: nat) returns (chunks: seq<string>)
    requires maxWords > 0
    ensures chunks == JoinEach(Slices(SplitWs(text), maxWords), " ")
  {
    var words := SplitWs(text);
    chunks := [];
    ghost var whole := Slices(words, maxWords);
    ghost var n := 0;
    var i := 0;
    assert Slice(words, 0, |words|) == words;
    while i < |words|
      invariant n <= |whole|
      invariant Slices(Slice(words, i, |words|), maxWords) == whole[n..]
      invariant chunks == JoinEach(whole[..n], " ")
      decreases |words| - i
    {
      SlicesStep(words, i, maxWords);
      DropFirst(whole, n, Slice(words, i, i + maxWords), Slices(Slice(words, i + maxWords, |words|), maxWords));
      JoinEachNext(whole, n, " ");
      chunks := chunks + [Join(Slice(words, i, i + maxWords), " ")];
      i := i + maxWords;
      n := n + 1;
    }
    assert Slice(words, i, |words|) == [];
    TakeDrop(whole, n);
  }

  lemma JoinEachNext(groups: seq<seq<string>>, n: nat, sep: string)
    requires n < |groups|
    ensures JoinEach(groups[..n + 1], sep) == JoinEach(groups[..n], sep) + [Join(groups[n], sep)]
  {
    var a, b := JoinEach(groups[..n + 1], sep), JoinEach(groups[..n], sep) + [Join(groups[n], sep)];
    forall k | 0 <= k < |a|
      ensures a[k] == b[k]
    {
      assert groups[..n + 1][k] == groups[k];
    }
  }

  lemma {:induction false} JoinGroups(groups: seq<seq<string>>, sep: string)
    requires forall k :: 0 <= k < |groups| ==> |groups[k]| > 0
    ensures Join(JoinEach(groups, sep), sep) == Join(Flatten(groups), sep)
  {
    if |groups| > 1 {
      var rest := groups[1..];
      JoinGroups(rest, sep);
      assert JoinEach(groups, sep) == [Join(groups[0], sep)] + JoinEach(rest, sep);
      JoinCons(Join(groups[0], sep), JoinEach(rest, sep), sep);
      FlattenNonEmpty(rest);
      JoinConcat(groups[0], Flatten(rest), sep);
    } else if |groups| == 1 {
      assert Flatten(groups) == groups[0] + Flatten([]);
      assert groups[0] + [] == groups[0];
    }
  }

  lemma FlattenNonEmpty(groups: seq<seq<string>>)
    requires |groups| > 0 && |groups[0]| > 0
    ensures |Flatten(groups)| > 0
  {
  }

  /**
   * `splitText` keeps every word in order: its chunks joined by " " are
   * the words joined by " ", each chunk holds at most `maxWords` words,
   * and there are ceil(words / maxWords) chunks.
   */
  lemma SplitTextProperties(text: string, maxWords: nat)
    requires maxWords > 0
    ensures Join(JoinEach(Slices(SplitWs(text), maxWords), " "), " ") == Join(SplitWs(text), " ")
    ensures forall k :: 0 <= k < |Slices(SplitWs(text), maxWords)| ==>
      1 <= |Slices(SplitWs(text), maxWords)[k]| <= maxWords
    ensures |Slices(SplitWs(text), maxWords)| == CeilDiv(|SplitWs(text)|, maxWords)
  {
    GroupsProperties(SplitWs(text), maxWords);
  }

  lemma GroupsProperties(words: seq<string>, maxWords: nat)
    requires maxWords > 0
    ensures Join(JoinEach(Slices(words, maxWords), " "), " ") == Join(words, " ")
    ensures forall k :: 0 <= k < |Slices(words, maxWords)| ==> 1 <= |Slices(words, maxWords)[k]| <= maxWords
    ensures |Slices(words, maxWords)| == CeilDiv(|words|, maxWords)
  {
    SlicesSizes(words, maxWords);
    SlicesFlatten(words, maxWords);
    SlicesCount(words, maxWords);
    JoinGroups(Slices(words, maxWords), " ");
  }
}
