/**
 * The chunked document processors `processDocumentWithChaining(2)` and
 * `processDocumentWithChainingFixedChunks(2)`: split the document, fill
 * the prompt template once per chunk with `template.replace("{chunk}", c)`,
 * send one request per chunk in order, and join the replies with "\n\n".
 *
 * The request (`fetchChunkAnswer` or `fetchChunkAnswer2`) is an oracle
 * indexed by the request's position; an `Err` stands for the exception it
 * throws, which ends the run.
 */
module Processor {
  import opened Common
  import opened Strings
  import opened Chunkers

  const Placeholder: string := "{chunk}"

  /**
   * GetSubstitution for a string pattern (no capture groups): in the
   * replacement, "$$" is "$", "$&" the match, "$`" the text before it and
   * "$'" the text after it; any other "$" stays as it is.
   */
  function Expand(rep: string, before: string, matched: string, after: string): string
    decreases |rep|
  {
    if |rep| == 0 then ""
    else if rep[0] == '$' && |rep| >= 2 && rep[1] == '$' then "$" + Expand(rep[2..], before, matched, after)
    else if rep[0] == '$' && |rep| >= 2 && rep[1] == '&' then matched + Expand(rep[2..], before, matched, after)
    else if rep[0] == '$' && |rep| >= 2 && rep[1] == '`' then before + Expand(rep[2..], before, matched, after)
    else if rep[0] == '$' && |rep| >= 2 && rep[1] == '\'' then after + Expand(rep[2..], before, matched, after)
    else [rep[0]] + Expand(rep[1..], before, matched, after)
  }

  /** A replacement without "$" is inserted as it is. */
  lemma {:induction false} ExpandNoDollar(rep: string, before: string, matched: string, after: string)
    requires !HasChar(rep, '$')
    ensures Expand(rep, before, matched, after) == rep
    decreases |rep|
  {
    if |rep| > 0 {
      assert rep[0] != '$';
      assert !HasChar(rep[1..], '$') by {
        forall i | 0 <= i < |rep[1..]| ensures rep[1..][i] != '$' { assert rep[1..][i] == rep[i + 1]; }
      }
      ExpandNoDollar(rep[1..], before, matched, after);
    }
  }

  /** `s.replace(pat, rep)` with a string pattern: only the first occurrence is replaced. */
  function ReplaceFirst(s: string, pat: string, rep: string): string
    requires |pat| > 0
  {
    match IndexOf(s, pat)
    case None => s
    case Some(i) => s[..i] + Expand(rep, s[..i], pat, s[i + |pat|..]) + s[i + |pat|..]
  }

  /** `promptTemplate.replace("{chunk}", chunk)`. */
  function FillTemplate(template: string, chunk: string): string {
    ReplaceFirst(template, Placeholder, chunk)
  }

  /**
   * A chunk without "$" replaces the first "{chunk}" verbatim, and the text
   * around it, a later "{chunk}" included, is left as it is; a template
   * without "{chunk}" is sent unchanged.
   */
  lemma FillTemplateVerbatim(template: string, chunk: string)
    requires !HasChar(chunk, '$')
    ensures IndexOf(template, Placeholder).None? ==> FillTemplate(template, chunk) == template
    ensures IndexOf(template, Placeholder).Some? ==>
      var i := IndexOf(template, Placeholder).value;
      FillTemplate(template, chunk) == template[..i] + chunk + template[i + |Placeholder|..]
  {
    if IndexOf(template, Placeholder).Some? {
      var i := IndexOf(template, Placeholder).value;
      ExpandNoDollar(chunk, template[..i], Placeholder, template[i + |Placeholder|..]);
    }
  }

  /** Only the first placeholder is filled. */
  lemma FillTemplateFirstOnly()
    ensures FillTemplate("A{chunk}B{chunk}", "x") == "AxB{chunk}"
  {
    var t := "A{chunk}B{chunk}";
    assert IndexOf(t, Placeholder) == Some(1) by {
      assert OccursAt(t, Placeholder, 1) by {
        forall k | 0 <= k < 7 ensures t[1..8][k] == Placeholder[k] { }
      }
      assert !OccursAt(t, Placeholder, 0) by {
        assert t[0..7][0] != Placeholder[0];
      }
      assert IndexOfFrom(t, Placeholder, 1) == Some(1);
    }
    assert t[..1] == "A";
    assert t[8..] == "B{chunk}";
    ExpandNoDollar("x", "A", Placeholder, "B{chunk}");
  }

  /** "$" patterns in the document text are expanded: "$&" brings back the placeholder itself. */
  lemma FillTemplateExpandsDollar()
    ensures FillTemplate("[{chunk}]", "$&") == "[{chunk}]"
  {
    var t := "[{chunk}]";
    assert IndexOf(t, Placeholder) == Some(1) by {
      assert OccursAt(t, Placeholder, 1) by {
        forall k | 0 <= k < 7 ensures t[1..8][k] == Placeholder[k] { }
      }
      assert !OccursAt(t, Placeholder, 0) by {
        assert t[0..7][0] != Placeholder[0];
      }
      assert IndexOfFrom(t, Placeholder, 1) == Some(1);
    }
    assert t[..1] == "[";
    assert t[8..] == "]";
    assert Expand("$&", "[", Placeholder, "]") == Placeholder + Expand("", "[", Placeholder, "]");
  }

  /**
   * The request loop: one request per chunk, in index order, each with the
   * filled template; the replies joined by "\n\n", or the first error, after
   * which no further request is made.
   */
  method ProcessChunks(chunks: seq<string>, template: string, request: (nat, string) -> Result<string, string>)
    returns (prompts: seq<string>, result: Result<string, string>)
    ensures |prompts| <= |chunks|
    ensures forall k :: 0 <= k < |prompts| ==> prompts[k] == FillTemplate(template, chunks[k])
    ensures forall k :: 0 <= k < |prompts| - 1 ==> request(k, prompts[k]).Ok?
    ensures result.Ok? ==> (|prompts| == |chunks|
      && (forall k :: 0 <= k < |prompts| ==> request(k, prompts[k]).Ok?)
      && result.value == Join(seq(|prompts|, k requires 0 <= k < |prompts| => request(k, prompts[k]).value), "\n\n"))
    ensures result.Err? ==> (|prompts| > 0
      && request(|prompts| - 1, prompts[|prompts| - 1]) == Err(result.error))
  {
    prompts := [];
    var responses: seq<string> := [];
    var i := 0;
    while i < |chunks|
      invariant i <= |chunks| && |prompts| == i && |responses| == i
      invariant forall k :: 0 <= k < i ==> prompts[k] == FillTemplate(template, chunks[k])
      invariant forall k :: 0 <= k < i ==> request(k, prompts[k]) == Ok(responses[k])
    {
      var prompt := FillTemplate(template, chunks[i]);
      prompts := prompts + [prompt];
      var reply := request(i, prompt);
      if reply.Err? {
        return prompts, Err(reply.error);
      }
      responses := responses + [reply.value];
      i := i + 1;
    }
    assert responses == seq(|prompts|, k requires 0 <= k < |prompts| => request(k, prompts[k]).value);
    result := Ok(Join(responses, "\n\n"));
  }

  /** `processDocumentWithChaining(2)`: paragraph chunks of at most about `chunkSize`. */
  method ProcessDocumentWithChaining(text: string, template: string, chunkSize: int,
                                     request: (nat, string) -> Result<string, string>)
    returns (prompts: seq<string>, result: Result<string, string>)
    ensures |prompts| <= |Pack(Split(text, "\n\n"), chunkSize)|
    ensures forall k :: 0 <= k < |prompts| ==>
      prompts[k] == FillTemplate(template, Renders(Pack(Split(text, "\n\n"), chunkSize))[k])
    ensures result.Ok? ==> (|prompts| == |Pack(Split(text, "\n\n"), chunkSize)|
      && (forall k :: 0 <= k < |prompts| ==> request(k, prompts[k]).Ok?)
      && result.value == Join(seq(|prompts|, k requires 0 <= k < |prompts| => request(k, prompts[k]).value), "\n\n"))
    ensures result.Err? ==> (|prompts| > 0
      && request(|prompts| - 1, prompts[|prompts| - 1]) == Err(result.error))
  {
    var chunks := AccumulateParagraphs(text, chunkSize);
    prompts, result := ProcessChunks(chunks, template, request);
  }

  /** `processDocumentWithChainingFixedChunks(2)`: `n` chunks (3 by default). */
  method ProcessDocumentWithChainingFixedChunks(text: string, template: string, n: nat,
                                                request: (nat, string) -> Result<string, string>)
    returns (prompts: seq<string>, result: Result<string, string>)
    ensures |prompts| <= n
    ensures forall k :: 0 <= k < |prompts| ==> prompts[k] == FillTemplate(template, FixedChunks(text, n)[k])
    ensures result.Ok? ==> (|prompts| == n
      && (forall k :: 0 <= k < |prompts| ==> request(k, prompts[k]).Ok?)
      && result.value == Join(seq(|prompts|, k requires 0 <= k < |prompts| => request(k, prompts[k]).value), "\n\n"))
    ensures result.Err? ==> (|prompts| > 0
      && request(|prompts| - 1, prompts[|prompts| - 1]) == Err(result.error))
  {
    var chunks := SplitFixedCount(text, n);
    prompts, result := ProcessChunks(chunks, template, request);
  }
}
