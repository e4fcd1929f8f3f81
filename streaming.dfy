/**
 * The streaming clients `fetchChunkAnswer2` and `fetchChunkAnswer3`.
 *
 * Both read a server-sent event stream in pieces (`reader.read()`), split
 * each piece on "\n" on its own (no text is carried over to the next
 * piece) and keep the `data:` lines. `JSON.parse` of a payload is an
 * oracle `parse`: `None` stands for a payload that does not parse, which
 * both clients skip.
 *
 * A streaming pass is scripted: it either fails (a rejected `fetch`, a
 * non-ok status, a broken stream or an abort, after the pieces listed in
 * it) or completes with the pieces listed. Calls past the end of the
 * script fail.
 */
module Streaming {
  import opened Common
  import opened Strings
  import opened Retry

  /** `parsed.choices[0]`: its `delta.content` and its `finish_reason`. */
  datatype Delta = Delta(content: Option<string>, finishReason: Option<string>)

  datatype PassOutcome =
    | PassFailed(partial: seq<string>)
    | PassDone(pieces: seq<string>)

  function OutcomeAt(script: seq<PassOutcome>, i: nat): PassOutcome {
    if i < |script| then script[i] else PassFailed([])
  }

  function PiecesOf(o: PassOutcome): seq<string> {
    match o
    case PassFailed(partial) => partial
    case PassDone(pieces) => pieces
  }

  datatype Message = Message(role: string, content: string)

  const ErrorText: string := "\U{26A0}\U{FE0F} Error: Failed to load response after retries."

  // ---------------------------------------------------------------------
  // fetchChunkAnswer2: line handling of one stream
  // ---------------------------------------------------------------------

  /** The lines of one piece that start with "data: " (untrimmed). */
  function DataLines2(lines: seq<string>): (r: seq<string>)
    ensures forall k :: 0 <= k < |r| ==> StartsWith(r[k], "data: ")
  {
    if |lines| == 0 then []
    else (if StartsWith(lines[0], "data: ") then [lines[0]] else []) + DataLines2(lines[1..])
  }

  /** `line.replace(/^data: /, "").trim()`. */
  function Payload2(line: string): string
    requires StartsWith(line, "data: ")
  {
    JsTrim(line[6..])
  }

  /** A parsed payload with truthy content appends it. */
  function Step2(accumulated: string, payload: string, parse: string -> Option<Delta>): string {
    match parse(payload)
    case None => accumulated
    case Some(d) =>
      if d.content.Some? && d.content.value != "" then accumulated + d.content.value else accumulated
  }

  /** The `for (const line of lines)` loop: "[DONE]" ends this piece's lines. */
  function Lines2(accumulated: string, lines: seq<string>, parse: string -> Option<Delta>): string
    requires forall k :: 0 <= k < |lines| ==> StartsWith(lines[k], "data: ")
    decreases |lines|
  {
    if |lines| == 0 then accumulated
    else if Payload2(lines[0]) == "[DONE]" then accumulated
    else Lines2(Step2(accumulated, Payload2(lines[0]), parse), lines[1..], parse)
  }

  /** All pieces, each split on "\n" on its own. */
  function Pieces2(accumulated: string, pieces: seq<string>, parse: string -> Option<Delta>): string
    decreases |pieces|
  {
    if |pieces| == 0 then accumulated
    else Pieces2(Lines2(accumulated, DataLines2(Split(pieces[0], "\n")), parse), pieces[1..], parse)
  }

  /** The `while (true) reader.read()` loop of one attempt of `fetchChunkAnswer2`. */
  method ReadStream2(pieces: seq<string>, parse: string -> Option<Delta>) returns (accumulated: string)
    ensures accumulated == Pieces2("", pieces, parse)
  {
    accumulated := "";
    var r := 0;
    while r < |pieces|
      invariant r <= |pieces|
      invariant Pieces2(accumulated, pieces[r..], parse) == Pieces2("", pieces, parse)
    {
      DropNext(pieces, r);
      accumulated := ReadLines2(accumulated, DataLines2(Split(pieces[r], "\n")), parse);
      r := r + 1;
    }
  }

  /** The inner `for (const line of lines)` loop over one piece's data lines. */
  method ReadLines2(accumulated0: string, lines: seq<string>, parse: string -> Option<Delta>) returns (accumulated: string)
    requires forall k :: 0 <= k < |lines| ==> StartsWith(lines[k], "data: ")
    ensures accumulated == Lines2(accumulated0, lines, parse)
  {
    accumulated := accumulated0;
    var k := 0;
    while k < |lines|
      invariant k <= |lines|
      invariant Lines2(accumulated, lines[k..], parse) == Lines2(accumulated0, lines, parse)
    {
      var jsonStr := Payload2(lines[k]);
      DropNext(lines, k);
      if jsonStr == "[DONE]" {
        break;
      }
      accumulated := Step2(accumulated, jsonStr, parse);
      k := k + 1;
    }
  }


  /** A parser that knows one payload, "X", carrying the content "hi". */
  function KnowsX(payload: string): Option<Delta> {
    if payload == "X" then Some(Delta(Some("hi"), None)) else None
  }

  /**
   * The pieces are split on "\n" one by one: one "data:" line delivered
   * whole is read, but the same line split across two pieces is lost.
   */
  lemma LineSplitAcrossReadsIsLost()
    ensures Pieces2("", ["data: X"], KnowsX) == "hi"
    ensures Pieces2("", ["da", "ta: X"], KnowsX) == ""
  {
    assert !HasChar("data: X", '\n');
    SplitNoChar("data: X", '\n');
    assert StartsWith("data: X", "data: ");
    assert DataLines2(["data: X"]) == ["data: X"];
    assert "data: X"[6..] == "X";
    assert Payload2("data: X") == "X" by {
      StripWithNoop("X", IsJsSpace);
    }
    assert Lines2("", ["data: X"], KnowsX) == Lines2("hi", [], KnowsX);
    assert !HasChar("da", '\n');
    SplitNoChar("da", '\n');
    assert !HasChar("ta: X", '\n');
    SplitNoChar("ta: X", '\n');
    assert !StartsWith("da", "data: ");
    assert !StartsWith("ta: X", "data: ") by {
      assert "ta: X"[0] != 'd';
    }
    assert DataLines2(["da"]) == [];
    assert DataLines2(["ta: X"]) == [];
  }

  /**
   * `fetchChunkAnswer2(prompt, retries = 5)`: each attempt starts a fresh
   * `accumulated`; any failure waits 1000·2^j (uncapped) and retries, after
   * the last failure too; exhausting the retries shows the error text and
   * returns "".
   */
  method FetchChunkAnswer2(script: seq<PassOutcome>, parse: string -> Option<Delta>, retries: nat)
    returns (text: string, waits: seq<nat>, errorShown: bool)
    ensures |waits| <= retries
    ensures forall j :: 0 <= j < |waits| ==> OutcomeAt(script, j).PassFailed? && waits[j] == Doubling(1000, j)
    ensures errorShown <==> |waits| == retries
    ensures errorShown ==> text == ""
    ensures !errorShown ==> (OutcomeAt(script, |waits|).PassDone?
      && text == Pieces2("", OutcomeAt(script, |waits|).pieces, parse))
  {
    var backoff := 1000;
    waits := [];
    var i := 0;
    while i < retries
      invariant i <= retries && |waits| == i && backoff == Doubling(1000, i)
      invariant forall j :: 0 <= j < i ==> OutcomeAt(script, j).PassFailed? && waits[j] == Doubling(1000, j)
    {
      var outcome := OutcomeAt(script, i);
      var accumulated := ReadStream2(PiecesOf(outcome), parse);
      if outcome.PassDone? {
        return accumulated, waits, false;
      }
      waits := waits + [backoff];
      DoublingStep(1000, i);
      backoff := backoff * 2;
      i := i + 1;
    }
    text := "";
    errorShown := true;
  }

  // ---------------------------------------------------------------------
  // fetchChunkAnswer3: streamOnce
  // ---------------------------------------------------------------------

  /** The text and the last truthy `finish_reason` of one pass so far. */
  datatype PassState = PassState(buffer: string, finish: Option<string>)

  /** `chunk.split("\n").map(l => l.trim()).filter(l => l.startsWith("data:"))`. */
  function DataLines3(lines: seq<string>): (r: seq<string>)
    ensures forall k :: 0 <= k < |r| ==> StartsWith(r[k], "data:")
  {
    if |lines| == 0 then []
    else (var t := JsTrim(lines[0]); if StartsWith(t, "data:") then [t] else []) + DataLines3(lines[1..])
  }

  /** `line.replace(/^data:\s*\/, "")`. */
  function Payload3(line: string): string
    requires StartsWith(line, "data:")
  {
    var rest := line[5..];
    rest[LeadingCount(rest, IsJsSpace)..]
  }

  /** One payload: "[DONE]" is skipped, a truthy delta appended, a truthy finish reason kept. */
  function Step3(st: PassState, payload: string, parse: string -> Option<Delta>): PassState {
    if payload == "[DONE]" then st
    else match parse(payload)
      case None => st
      case Some(d) =>
        var delta := d.content.GetOr("");
        PassState(if delta != "" then st.buffer + delta else st.buffer,
                  if d.finishReason.Some? && d.finishReason.value != "" then d.finishReason else st.finish)
  }

  function Lines3(st: PassState, lines: seq<string>, parse: string -> Option<Delta>): PassState
    requires forall k :: 0 <= k < |lines| ==> StartsWith(lines[k], "data:")
    decreases |lines|
  {
    if |lines| == 0 then st
    else Lines3(Step3(st, Payload3(lines[0]), parse), lines[1..], parse)
  }

  function Pieces3(st: PassState, pieces: seq<string>, parse: string -> Option<Delta>): PassState
    decreases |pieces|
  {
    if |pieces| == 0 then st
    else Pieces3(Lines3(st, DataLines3(Split(pieces[0], "\n")), parse), pieces[1..], parse)
  }

  /** What a pass has produced after the given pieces. */
  function Pass3(pieces: seq<string>, parse: string -> Option<Delta>): PassState {
    Pieces3(PassState("", None), pieces, parse)
  }

  /** `streamOnce` over the chunks it reads. */
  method StreamOnce(pieces: seq<string>, parse: string -> Option<Delta>) returns (text: string, finishReason: Option<string>)
    ensures PassState(text, finishReason) == Pass3(pieces, parse)
  {
    var buffer := "";
    finishReason := None;
    var r := 0;
    while r < |pieces|
      invariant r <= |pieces|
      invariant Pieces3(PassState(buffer, finishReason), pieces[r..], parse) == Pass3(pieces, parse)
    {
      var lines := DataLines3(Split(pieces[r], "\n"));
      buffer, finishReason := StreamLines(buffer, finishReason, lines, parse);
      assert pieces[r..][1..] == pieces[r + 1..];
      r := r + 1;
    }
    text := buffer;
  }

  /** The `for (const line of lines)` loop over the "data:" lines of one chunk. */
  method StreamLines(buffer0: string, finish0: Option<string>, lines: seq<string>, parse: string -> Option<Delta>)
    returns (buffer: string, finishReason: Option<string>)
    requires forall k :: 0 <= k < |lines| ==> StartsWith(lines[k], "data:")
    ensures PassState(buffer, finishReason) == Lines3(PassState(buffer0, finish0), lines, parse)
  {
    buffer, finishReason := buffer0, finish0;
    var k := 0;
    while k < |lines|
      invariant k <= |lines|
      invariant Lines3(PassState(buffer, finishReason), lines[k..], parse) == Lines3(PassState(buffer0, finish0), lines, parse)
    {
      var payload := Payload3(lines[k]);
      assert lines[k..][1..] == lines[k + 1..];
      if payload != "[DONE]" {
        match parse(payload)
        case None =>
        case Some(d) =>
          var delta := d.content.GetOr("");
          if delta != "" {
            buffer := buffer + delta;
          }
          if d.finishReason.Some? && d.finishReason.value != "" {
            finishReason := d.finishReason;
          }
      }
      k := k + 1;
    }
  }

  // ---------------------------------------------------------------------
  // fetchChunkAnswer3: the continuation state machine
  // ---------------------------------------------------------------------

  /**
   * What one `streamOnce` call reports to the loop: whether it threw, the
   * text it streamed (for a pass that threw, the text shown before the
   * throw) and its finish reason. `StreamOnce` computes the last two from
   * the pass's pieces; the loop below takes the results from a script.
   */
  datatype PassResult = PassResult(failed: bool, text: string, finish: Option<string>)

  /** The i-th scripted pass; a call beyond the script fails without text. */
  function ResultAt(passes: seq<PassResult>, i: nat): PassResult {
    if i < |passes| then passes[i] else PassResult(true, "", None)
  }

  /** A completed pass cut off by the token limit: the client continues in a new block. */
  predicate IsLengthPass(r: PassResult) {
    !r.failed && r.finish == Some("length")
  }

  /** The results of the first n passes. */
  function Results(passes: seq<PassResult>, n: nat): (rs: seq<PassResult>)
    ensures |rs| == n
  {
    seq(n, i requires 0 <= i < n => ResultAt(passes, i))
  }

  lemma ResultsStep(passes: seq<PassResult>, n: nat)
    ensures Results(passes, n + 1) == Results(passes, n) + [ResultAt(passes, n)]
  {
  }

  /**
   * The client's state between passes: the conversation sent with each
   * request, the blocks shown in the host, the text of the completed
   * passes (`accumulatedFull`) and the failed passes so far (`attempt`).
   */
  datatype Machine = Machine(messages: seq<Message>, blocks: seq<string>, completed: string, failures: nat)

  /** Before any pass: the existing blocks of a reused host plus one new, empty block. */
  function Start(existing: seq<string>, base: seq<Message>): Machine {
    Machine(base, existing + [""], "", 0)
  }

  /**
   * One `streamOnce` pass: its text, when it has any, is shown in the latest
   * block, even for a failed pass; a completed pass adds its text to the
   * conversation and to the accumulated text; a "length" pass also asks to
   * continue and opens a new block; a failed pass counts one failure.
   */
  function Advance(m: Machine, r: PassResult): (m': Machine)
    requires |m.blocks| > 0
    ensures |m'.blocks| >= |m.blocks|
  {
    var shown := if r.text != "" then m.blocks[|m.blocks| - 1 := r.text] else m.blocks;
    if r.failed then Machine(m.messages, shown, m.completed, m.failures + 1)
    else if IsLengthPass(r) then
      Machine(m.messages + [Message("assistant", r.text), Message("user", "continue")], shown + [""],
              m.completed + r.text, m.failures)
    else Machine(m.messages + [Message("assistant", r.text)], shown, m.completed + r.text, m.failures)
  }

  /** The state after the passes with results `rs`, in order. */
  function Run(existing: seq<string>, base: seq<Message>, rs: seq<PassResult>): (m: Machine)
    ensures |m.blocks| > |existing|
  {
    if |rs| == 0 then Start(existing, base)
    else Advance(Run(existing, base, AllButLast(rs)), Last(rs))
  }

  /** The j-th wait: `backoff = Math.min(backoff * 2, 10000)` from 1000. */
  function CappedBackoff(j: nat): nat {
    Min(Doubling(1000, j), 10000)
  }

  lemma CappedBackoffStep(j: nat)
    ensures Min(CappedBackoff(j) * 2, 10000) == CappedBackoff(j + 1)
  {
    DoublingStep(1000, j);
  }

  lemma CappedBackoffSchedule()
    ensures seq(6, j requires 0 <= j < 6 => CappedBackoff(j)) == [1000, 2000, 4000, 8000, 10000, 10000]
  {
    assert Pow2(4) == 16;
    assert Pow2(5) == 32;
  }

  /** One more pass advances the state by its result. */
  lemma RunStep(existing: seq<string>, base: seq<Message>, rs: seq<PassResult>, r: PassResult)
    ensures Run(existing, base, rs + [r]) == Advance(Run(existing, base, rs), r)
  {
    SnocParts(rs, r);
  }

  /** Appending a result keeps the earlier ones, and a "length" result extends a run of them. */
  lemma LengthRunExtend(rs: seq<PassResult>, r: PassResult, from: nat)
    requires forall i :: from <= i < |rs| ==> IsLengthPass(rs[i])
    ensures forall i :: from <= i < |rs| ==> IsLengthPass((rs + [r])[i])
    ensures IsLengthPass(r) ==> forall i :: from <= i < |rs| + 1 ==> IsLengthPass((rs + [r])[i])
    ensures (rs + [r])[|rs|] == r
  {
  }

  /**
   * One turn of the inner loop after `streamOnce` returned `r`: the pass's
   * text is in the latest block; a completed pass is recorded in the
   * conversation, and a "length" finish asks to continue in a new block.
   */
  method TakePass(r: PassResult, ghost failures: nat,
                  accumulated0: string, messages0: seq<Message>, blocks0: seq<string>)
    returns (failed: bool, cutOff: bool, accumulated: string, messages: seq<Message>, blocks: seq<string>)
    requires |blocks0| > 0
    ensures failed == r.failed && cutOff == IsLengthPass(r)
    ensures Machine(messages, blocks, accumulated, if failed then failures + 1 else failures)
         == Advance(Machine(messages0, blocks0, accumulated0, failures), r)
  {
    accumulated, messages, blocks := accumulated0, messages0, blocks0;
    var passText, finishReason := r.text, r.finish;
    if passText != "" {
      blocks := blocks[|blocks| - 1 := passText];
    }
    if r.failed {
      return true, false, accumulated, messages, blocks;
    }
    accumulated := accumulated + passText;
    messages := messages + [Message("assistant", passText)];
    if finishReason == Some("length") {
      blocks := blocks + [""];
      messages := messages + [Message("user", "continue")];
      return false, true, accumulated, messages, blocks;
    }
    return false, false, accumulated, messages, blocks;
  }

  /**
   * The `try { while (true) … }` block of one attempt: passes run until one
   * fails (`failed`) or completes with a finish reason other than "length".
   */
  method RunAttempt(passes: seq<PassResult>,
                    existing: seq<string>, base: seq<Message>, ghost failures: nat,
                    calls0: nat, accumulated0: string, messages0: seq<Message>, blocks0: seq<string>)
    returns (failed: bool, calls: nat, accumulated: string, messages: seq<Message>, blocks: seq<string>)
    requires Machine(messages0, blocks0, accumulated0, failures) == Run(existing, base, Results(passes, calls0))
    ensures calls > calls0
    ensures var rs := Results(passes, calls);
      && Machine(messages, blocks, accumulated, if failed then failures + 1 else failures) == Run(existing, base, rs)
      && (forall i :: calls0 <= i < calls - 1 ==> IsLengthPass(ResultAt(passes, i)))
      && (failed <==> ResultAt(passes, calls - 1).failed)
      && !IsLengthPass(ResultAt(passes, calls - 1))
  {
    calls, accumulated, messages, blocks := calls0, accumulated0, messages0, blocks0;
    ghost var rs := Results(passes, calls);
    while true
      invariant calls >= calls0 && rs == Results(passes, calls)
      invariant Machine(messages, blocks, accumulated, failures) == Run(existing, base, rs)
      invariant forall i :: calls0 <= i < calls ==> IsLengthPass(ResultAt(passes, i))
      decreases if calls <= |passes| then |passes| - calls else 0
    {
      var r := ResultAt(passes, calls);
      var cutOff;
      failed, cutOff, accumulated, messages, blocks := TakePass(r, failures, accumulated, messages, blocks);
      RunStep(existing, base, rs, r);
      LengthRunExtend(rs, r, calls0);
      ResultsStep(passes, calls);
      rs := rs + [r];
      calls := calls + 1;
      if failed || !cutOff {
        return;
      }
    }
  }

  /**
   * `fetchChunkAnswer3(prompt, retries = 5, existingContext)`. `calls` is
   * the number of `streamOnce` calls. The conversation and the accumulated
   * text are never reset between attempts; a non-"length" completion ends
   * the run; exhausting the retries adds an error block and gives "".
   */
  method FetchChunkAnswer3(passes: seq<PassResult>, retries: nat,
                           existing: seq<string>, base: seq<Message>)
    returns (text: string, messages: seq<Message>, blocks: seq<string>, waits: seq<nat>, calls: nat)
    ensures var rs := Results(passes, calls);
      var m := Run(existing, base, rs);
      && messages == m.messages
      && |waits| == m.failures <= retries
      && (forall j :: 0 <= j < |waits| ==> waits[j] == CappedBackoff(j))
      && (forall i :: 0 <= i < calls - 1 ==> ResultAt(passes, i).failed || IsLengthPass(ResultAt(passes, i)))
      && (|waits| == retries ==> text == "" && blocks == m.blocks + [ErrorText])
      && (|waits| < retries ==> (calls > 0 && !ResultAt(passes, calls - 1).failed && !IsLengthPass(ResultAt(passes, calls - 1))
            && text == m.completed && blocks == m.blocks))
  {
    blocks := existing + [""];
    var backoff := 1000;
    var accumulatedFull := "";
    messages := base;
    waits := [];
    calls := 0;
    var attempt := 0;
    while attempt < retries
      invariant attempt <= retries && |waits| == attempt && backoff == CappedBackoff(attempt)
      invariant forall j :: 0 <= j < |waits| ==> waits[j] == CappedBackoff(j)
      invariant Machine(messages, blocks, accumulatedFull, attempt) == Run(existing, base, Results(passes, calls))
      invariant forall i :: 0 <= i < calls ==> ResultAt(passes, i).failed || IsLengthPass(ResultAt(passes, i))
    {
      var failed;
      failed, calls, accumulatedFull, messages, blocks :=
        RunAttempt(passes, existing, base, attempt, calls, accumulatedFull, messages, blocks);
      if !failed {
        return accumulatedFull, messages, blocks, waits, calls;
      }
      waits := waits + [backoff];
      CappedBackoffStep(attempt);
      backoff := Min(backoff * 2, 10000);
      attempt := attempt + 1;
    }
    blocks := blocks + [ErrorText];
    text := "";
  }

  /** The texts of the passes that completed, in order, run together. */
  function CompletedText(rs: seq<PassResult>): string {
    if |rs| == 0 then "" else CompletedText(AllButLast(rs)) + (if Last(rs).failed then "" else Last(rs).text)
  }

  predicate IsFailed(r: PassResult) { r.failed }
  predicate IsCompleted(r: PassResult) { !r.failed }

  function CountWhere(rs: seq<PassResult>, p: PassResult -> bool): nat {
    if |rs| == 0 then 0 else CountWhere(AllButLast(rs), p) + (if p(Last(rs)) then 1 else 0)
  }

  /**
   * Over any passes: the accumulated text is the completed passes' texts;
   * each failure is counted; the conversation keeps the original messages
   * as its prefix and gains one message per completed pass and one more per
   * "length" pass, which is also what adds blocks. Nothing is ever reset.
   */
  lemma {:induction false} RunSummary(existing: seq<string>, base: seq<Message>, rs: seq<PassResult>)
    ensures var m := Run(existing, base, rs);
      && m.completed == CompletedText(rs)
      && m.failures == CountWhere(rs, IsFailed)
      && |m.blocks| == |existing| + 1 + CountWhere(rs, IsLengthPass)
      && |m.messages| == |base| + CountWhere(rs, IsCompleted) + CountWhere(rs, IsLengthPass)
      && m.messages[..|base|] == base
    decreases |rs|
  {
    if |rs| > 0 {
      RunSummary(existing, base, AllButLast(rs));
      var m := Run(existing, base, AllButLast(rs));
      assert Run(existing, base, rs).messages[..|base|] == m.messages[..|base|];
    }
  }

  /** Earlier blocks are never touched: only the latest block changes. */
  lemma OlderBlocksUntouched(m: Machine, r: PassResult)
    requires |m.blocks| > 0
    ensures Advance(m, r).blocks[..|m.blocks| - 1] == m.blocks[..|m.blocks| - 1]
  {
  }

  /** The existing blocks of a reused host are never touched, whatever the passes. */
  lemma {:induction false} ExistingBlocksUntouched(existing: seq<string>, base: seq<Message>, rs: seq<PassResult>)
    ensures Run(existing, base, rs).blocks[..|existing|] == existing
    decreases |rs|
  {
    if |rs| > 0 {
      var m := Run(existing, base, AllButLast(rs));
      ExistingBlocksUntouched(existing, base, AllButLast(rs));
      OlderBlocksUntouched(m, Last(rs));
      var b := Run(existing, base, rs).blocks;
      assert b[..|existing|] == b[..|m.blocks| - 1][..|existing|];
      assert m.blocks[..|existing|] == m.blocks[..|m.blocks| - 1][..|existing|];
    }
  }
}
