/**
 * The streamed chat reply of `handleUserSubmit`: a simplified server-sent
 * events reader (the event-stream format of section 9.2 of the WHATWG HTML
 * Living Standard). Every read is appended to a buffer, the buffer is split
 * on "\n\n", the complete events are handed to `processEvent` and the last,
 * possibly partial, piece is kept; at the end a non-blank remainder is
 * processed as one more event.
 *
 * `processEvent` keeps the "data:" lines of an event, parses each payload
 * (`JSON.parse` is the oracle `parse`; `None` is a parse error) and
 * appends content tokens to the reply and tool-call fragments to the slot
 * of their index.
 */
module EventStream {
  import opened Common
  import opened Strings
  import Streaming

  /** One entry of `delta.tool_calls`: `tc.index ?? 0`, `tc.function?.name`, `tc.function?.arguments`. */
  datatype ToolDelta = ToolDelta(index: nat, name: Option<string>, arguments: Option<string>)

  /**
   * `choices[0].delta` of one payload: `content` when it is a string,
   * `toolCalls` when `tool_calls` is an array, `functionCall` when the
   * legacy `function_call` is truthy.
   */
  datatype ChoiceDelta = ChoiceDelta(content: Option<string>, toolCalls: Option<seq<ToolDelta>>,
                                     functionCall: Option<ToolDelta>)

  /** `{ name, arguments }` of one tool-call slot. */
  datatype ToolSlot = ToolSlot(name: string, arguments: string)

  /** `accumulated`, `sawAnyTokens` and the sparse `toolCalls` array. */
  datatype Reply = Reply(accumulated: string, sawAnyTokens: bool, toolCalls: map<nat, ToolSlot>)

  const Initial := Reply("", false, map[])
  const EventSeparator := "\n\n"

  // ---------------------------------------------------------------------
  // processEvent
  // ---------------------------------------------------------------------

  /** The tool-call fragments a delta carries: the array, else the legacy call in slot 0. */
  function ToolUpdates(d: ChoiceDelta): seq<ToolDelta> {
    if d.toolCalls.Some? then d.toolCalls.value
    else if d.functionCall.Some? then [d.functionCall.value.(index := 0)]
    else []
  }

  /** `ensureToolIndex(idx)`, then a truthy name replaces the slot's name and string arguments are appended. */
  function ApplyTool(slots: map<nat, ToolSlot>, tc: ToolDelta): map<nat, ToolSlot> {
    var slot := if tc.index in slots then slots[tc.index] else ToolSlot("", "");
    var name := if tc.name.Some? && tc.name.value != "" then tc.name.value else slot.name;
    var arguments := if tc.arguments.Some? then slot.arguments + tc.arguments.value else slot.arguments;
    slots[tc.index := ToolSlot(name, arguments)]
  }

  function ApplyTools(slots: map<nat, ToolSlot>, tcs: seq<ToolDelta>): map<nat, ToolSlot>
    decreases |tcs|
  {
    if |tcs| == 0 then slots else ApplyTools(ApplyTool(slots, tcs[0]), tcs[1..])
  }

  /** The last non-empty name sent for slot `i`, if any. */
  function LastName(tcs: seq<ToolDelta>, i: nat): Option<string> {
    if |tcs| == 0 then None
    else if Last(tcs).index == i && Last(tcs).name.Some? && Last(tcs).name.value != "" then Last(tcs).name
    else LastName(AllButLast(tcs), i)
  }

  /** The argument fragments sent for slot `i`, concatenated in order. */
  function ArgumentsFor(tcs: seq<ToolDelta>, i: nat): string {
    if |tcs| == 0 then ""
    else
      var here := if tcs[0].index == i && tcs[0].arguments.Some? then tcs[0].arguments.value else "";
      here + ArgumentsFor(tcs[1..], i)
  }

  predicate Mentions(tcs: seq<ToolDelta>, i: nat) {
    exists k :: 0 <= k < |tcs| && tcs[k].index == i
  }

  lemma {:induction false} LastNameCons(tcs: seq<ToolDelta>, i: nat)
    requires |tcs| > 0
    ensures LastName(tcs, i) ==
      if LastName(tcs[1..], i).Some? then LastName(tcs[1..], i)
      else if tcs[0].index == i && tcs[0].name.Some? && tcs[0].name.value != "" then tcs[0].name
      else None
    decreases |tcs|
  {
    if |tcs| > 1 {
      assert AllButLast(tcs)[1..] == AllButLast(tcs[1..]);
      assert Last(tcs[1..]) == Last(tcs);
      LastNameCons(AllButLast(tcs), i);
    } else {
      assert tcs[1..] == [];
      assert AllButLast(tcs) == [];
    }
  }

  lemma MentionsCons(tcs: seq<ToolDelta>, i: nat)
    requires |tcs| > 0
    ensures Mentions(tcs, i) <==> tcs[0].index == i || Mentions(tcs[1..], i)
  {
    if Mentions(tcs, i) && tcs[0].index != i {
      var k :| 0 <= k < |tcs| && tcs[k].index == i;
      assert tcs[1..][k - 1].index == i;
    }
    if Mentions(tcs[1..], i) {
      var k :| 0 <= k < |tcs[1..]| && tcs[1..][k].index == i;
      assert tcs[k + 1].index == i;
    }
  }

  /** The slot before a fragment is applied: the existing one, or the empty one `ensureToolIndex` makes. */
  function SlotOr(slots: map<nat, ToolSlot>, i: nat): ToolSlot {
    if i in slots then slots[i] else ToolSlot("", "")
  }

  /** One fragment changes only the slot it names. */
  lemma ApplyToolAt(slots: map<nat, ToolSlot>, tc: ToolDelta, i: nat)
    ensures i in ApplyTool(slots, tc) <==> i in slots || tc.index == i
    ensures tc.index != i ==> SlotOr(ApplyTool(slots, tc), i) == SlotOr(slots, i)
    ensures tc.index == i ==> (SlotOr(ApplyTool(slots, tc), i) ==
      ToolSlot(if tc.name.Some? && tc.name.value != "" then tc.name.value else SlotOr(slots, i).name,
               SlotOr(slots, i).arguments + (if tc.arguments.Some? then tc.arguments.value else "")))
  {
  }

  lemma {:induction false} ApplyToolsKeys(slots: map<nat, ToolSlot>, tcs: seq<ToolDelta>, i: nat)
    ensures i in ApplyTools(slots, tcs) <==> i in slots || Mentions(tcs, i)
    decreases |tcs|
  {
    if |tcs| > 0 {
      var next := ApplyTool(slots, tcs[0]);
      ApplyToolsKeys(next, tcs[1..], i);
      ApplyToolAt(slots, tcs[0], i);
      MentionsCons(tcs, i);
      assert ApplyTools(slots, tcs) == ApplyTools(next, tcs[1..]);
    } else {
      assert !Mentions(tcs, i);
    }
  }

  lemma {:induction false} ApplyToolsArguments(slots: map<nat, ToolSlot>, tcs: seq<ToolDelta>, i: nat)
    ensures SlotOr(ApplyTools(slots, tcs), i).arguments == SlotOr(slots, i).arguments + ArgumentsFor(tcs, i)
    decreases |tcs|
  {
    if |tcs| > 0 {
      var next := ApplyTool(slots, tcs[0]);
      ApplyToolsArguments(next, tcs[1..], i);
      ApplyToolAt(slots, tcs[0], i);
      assert ApplyTools(slots, tcs) == ApplyTools(next, tcs[1..]);
      var here := if tcs[0].index == i && tcs[0].arguments.Some? then tcs[0].arguments.value else "";
      assert ArgumentsFor(tcs, i) == here + ArgumentsFor(tcs[1..], i);
      assert SlotOr(next, i).arguments == SlotOr(slots, i).arguments + here;
    }
  }

  lemma {:induction false} ApplyToolsName(slots: map<nat, ToolSlot>, tcs: seq<ToolDelta>, i: nat)
    ensures SlotOr(ApplyTools(slots, tcs), i).name == LastName(tcs, i).GetOr(SlotOr(slots, i).name)
    decreases |tcs|
  {
    if |tcs| > 0 {
      var next := ApplyTool(slots, tcs[0]);
      ApplyToolsName(next, tcs[1..], i);
      ApplyToolAt(slots, tcs[0], i);
      LastNameCons(tcs, i);
      assert ApplyTools(slots, tcs) == ApplyTools(next, tcs[1..]);
    }
  }

  /**
   * Tool-call accumulation: slot `i` exists when it existed or some fragment
   * names it; its name is the last non-empty name sent for it (else the old
   * one), its arguments are the old ones followed by every fragment for it.
   */
  lemma ApplyToolsSlot(slots: map<nat, ToolSlot>, tcs: seq<ToolDelta>, i: nat)
    ensures i in ApplyTools(slots, tcs) <==> i in slots || Mentions(tcs, i)
    ensures SlotOr(ApplyTools(slots, tcs), i) ==
      ToolSlot(LastName(tcs, i).GetOr(SlotOr(slots, i).name), SlotOr(slots, i).arguments + ArgumentsFor(tcs, i))
  {
    ApplyToolsKeys(slots, tcs, i);
    ApplyToolsArguments(slots, tcs, i);
    ApplyToolsName(slots, tcs, i);
  }

  /** A content token, or a `data:` event of the stream, is never the "[DONE]" signal of `processEvent`. */
  lemma DataFrameIsNotDone(frame: string)
    requires StartsWith(frame, "data:")
    ensures JsTrim(frame) != "[DONE]"
  {
    assert frame[0] == "data:"[0];
    var t := JsTrim(frame);
    assert LeadingCount(frame, IsJsSpace) == 0;
    var b := TrailingCount(frame, IsJsSpace);
    TrailingCountSpec(frame, IsJsSpace);
    assert b < |frame|;
    assert t == frame[..|frame| - b];
    assert t[0] == 'd';
  }

  /** One parsed delta: a non-empty string content is appended, then the tool fragments are applied. */
  function ApplyDelta(st: Reply, d: ChoiceDelta): Reply {
    var st1 := if d.content.Some? && |d.content.value| > 0
      then Reply(st.accumulated + d.content.value, true, st.toolCalls) else st;
    st1.(toolCalls := ApplyTools(st1.toolCalls, ToolUpdates(d)))
  }

  /** `line.replace(/^data:\s*\/, "").trim()`. */
  function JsonOf(line: string): string {
    if StartsWith(line, "data:") then JsTrim(Streaming.Payload3(line)) else JsTrim(line)
  }

  /** One "data:" line: an empty or "[DONE]" payload and a payload that does not parse are skipped. */
  function LineStep(st: Reply, line: string, parse: string -> Option<ChoiceDelta>): Reply {
    var json := JsonOf(line);
    if json == "" || json == "[DONE]" then st
    else match parse(json)
      case None => st
      case Some(d) => ApplyDelta(st, d)
  }

  /** `evtStr.split("\n").filter(l => l.startsWith("data:"))`. */
  function DataLines(lines: seq<string>): seq<string> {
    if |lines| == 0 then []
    else (if StartsWith(lines[0], "data:") then [lines[0]] else []) + DataLines(lines[1..])
  }

  function LinesStep(st: Reply, lines: seq<string>, parse: string -> Option<ChoiceDelta>): Reply
    decreases |lines|
  {
    if |lines| == 0 then st else LinesStep(LineStep(st, lines[0], parse), lines[1..], parse)
  }

  /** `processEvent(evtStr)`: the reply after the event, and whether it returned "done". */
  function EventStep(st: Reply, evt: string, parse: string -> Option<ChoiceDelta>): (Reply, bool) {
    if evt == "" then (st, false)
    else if JsTrim(evt) == "[DONE]" then (st, true)
    else (LinesStep(st, DataLines(Split(evt, "\n")), parse), false)
  }

  /** The `forEach` over `delta.tool_calls`. */
  method ApplyToolCalls(slots0: map<nat, ToolSlot>, tcs: seq<ToolDelta>) returns (slots: map<nat, ToolSlot>)
    ensures slots == ApplyTools(slots0, tcs)
  {
    slots := slots0;
    var k := 0;
    while k < |tcs|
      invariant k <= |tcs|
      invariant ApplyTools(slots, tcs[k..]) == ApplyTools(slots0, tcs)
    {
      var tc := tcs[k];
      var slot := if tc.index in slots then slots[tc.index] else ToolSlot("", "");
      if tc.name.Some? && tc.name.value != "" {
        slot := slot.(name := tc.name.value);
      }
      if tc.arguments.Some? {
        slot := slot.(arguments := slot.arguments + tc.arguments.value);
      }
      assert tcs[k..][1..] == tcs[k + 1..];
      slots := slots[tc.index := slot];
      k := k + 1;
    }
  }

  /** `processEvent`. */
  method ProcessEvent(st0: Reply, evt: string, parse: string -> Option<ChoiceDelta>) returns (st: Reply, done: bool)
    ensures (st, done) == EventStep(st0, evt, parse)
  {
    st, done := st0, false;
    if evt == "" {
      return;
    }
    if JsTrim(evt) == "[DONE]" {
      return st, true;
    }
    var lines := DataLines(Split(evt, "\n"));
    var k := 0;
    while k < |lines|
      invariant k <= |lines|
      invariant LinesStep(st, lines[k..], parse) == LinesStep(st0, lines, parse)
    {
      assert lines[k..][1..] == lines[k + 1..];
      var json := JsonOf(lines[k]);
      k := k + 1;
      if json == "" || json == "[DONE]" {
        continue;
      }
      var parsed := parse(json);
      if parsed.None? {
        continue;
      }
      var d := parsed.value;
      if d.content.Some? && |d.content.value| > 0 {
        st := Reply(st.accumulated + d.content.value, true, st.toolCalls);
      }
      var slots := ApplyToolCalls(st.toolCalls, ToolUpdates(d));
      st := st.(toolCalls := slots);
    }
  }

  // ---------------------------------------------------------------------
  // The read loop
  // ---------------------------------------------------------------------

  /** The replies after handing `events` to `processEvent` one after the other. */
  function EventsStep(st: Reply, events: seq<string>, parse: string -> Option<ChoiceDelta>): Reply {
    if |events| == 0 then st else EventStep(EventsStep(st, AllButLast(events), parse), Last(events), parse).0
  }

  lemma EventsStepAppend(st: Reply, events: seq<string>, e: string, parse: string -> Option<ChoiceDelta>)
    ensures EventsStep(st, events + [e], parse) == EventStep(EventsStep(st, events, parse), e, parse).0
  {
    SnocParts(events, e);
  }

  /**
   * The events a whole text is cut into: every piece before the last "\n\n"
   * cut, and the remainder when it is not blank.
   */
  function Frames(text: string): seq<string> {
    var parts := Split(text, EventSeparator);
    AllButLast(parts) + (if IsJsBlank(Last(parts)) then [] else [Last(parts)])
  }

  /** Some piece before the last is an event whose trimmed text is "[DONE]". */
  predicate HasDoneFrame(parts: seq<string>) {
    exists k :: 0 <= k < |parts| - 1 && JsTrim(parts[k]) == "[DONE]"
  }

  /** No complete piece of the text is an event whose trimmed text is "[DONE]". */
  predicate NoDoneFrame(text: string) {
    var parts := Split(text, EventSeparator);
    forall k :: 0 <= k < |parts| - 1 ==> JsTrim(parts[k]) != "[DONE]"
  }

  /** Flattening one more read appends it. */
  lemma FlattenSnoc(received: seq<string>, r: nat)
    requires r < |received|
    ensures Flatten(received[..r + 1]) == Flatten(received[..r]) + received[r]
  {
    TakeNext(received, r);
    FlattenAppend(received[..r], [received[r]]);
    assert Flatten([received[r]]) == received[r] + Flatten([received[r]][1..]);
  }

  /** The complete pieces of a prefix are complete pieces of the whole text, at the same places. */
  lemma CompletePiecesStay(x: string, y: string)
    ensures var px := Split(x, EventSeparator);
      var pxy := Split(x + y, EventSeparator);
      |px| - 1 < |pxy| && pxy[..|px| - 1] == px[..|px| - 1]
  {
    SplitAppend(x, y, EventSeparator);
  }

  /** A read continues the split: the kept piece absorbs it. */
  lemma SplitContinues(x: string, d: string, events: seq<string>, buffer: string)
    requires events + [buffer] == Split(x, EventSeparator)
    ensures events + Split(buffer + d, EventSeparator) == Split(x + d, EventSeparator)
  {
    SplitAppend(x, d, EventSeparator);
    SnocParts(events, buffer);
  }

  /** Pieces before the last piece of a prefix's split are complete events of the whole text. */
  lemma PrefixPiecesNotDone(x: string, y: string, events: seq<string>, parts: seq<string>)
    requires events + parts == Split(x, EventSeparator)
    requires NoDoneFrame(x + y)
    ensures forall k :: 0 <= k < |parts| - 1 ==> JsTrim(parts[k]) != "[DONE]"
  {
    CompletePiecesStay(x, y);
    var whole := Split(x + y, EventSeparator);
    forall k | 0 <= k < |parts| - 1
      ensures JsTrim(parts[k]) != "[DONE]"
    {
      assert (events + parts)[|events| + k] == parts[k];
      assert whole[..|events + parts| - 1][|events| + k] == parts[k];
    }
  }

  /**
   * One read, while the buffer still holds the last piece of the text so
   * far: the new pieces continue the split of the longer text, and when the
   * whole text has no bare "[DONE]" event neither do they.
   */
  lemma ReadStep(received: seq<string>, r: nat, events: seq<string>, buffer: string)
    requires r < |received|
    requires events + [buffer] == Split(Flatten(received[..r]), EventSeparator)
    ensures var parts := Split(buffer + received[r], EventSeparator);
      events + parts == Split(Flatten(received[..r + 1]), EventSeparator)
      && (NoDoneFrame(Flatten(received)) ==> forall k :: 0 <= k < |parts| - 1 ==> JsTrim(parts[k]) != "[DONE]")
  {
    FlattenSnoc(received, r);
    SplitContinues(Flatten(received[..r]), received[r], events, buffer);
    assert received == received[..r + 1] + received[r + 1..];
    FlattenAppend(received[..r + 1], received[r + 1..]);
    if NoDoneFrame(Flatten(received)) {
      PrefixPiecesNotDone(Flatten(received[..r + 1]), Flatten(received[r + 1..]),
                          events, Split(buffer + received[r], EventSeparator));
    }
  }

  /**
   * The `for (const part of parts)` loop: every complete piece is handed to
   * `processEvent`, unless one returns "done".
   */
  method DispatchEvents(st0: Reply, events0: seq<string>, parts: seq<string>, parse: string -> Option<ChoiceDelta>)
    returns (st: Reply, events: seq<string>, done: bool)
    requires |parts| > 0
    requires st0 == EventsStep(Initial, events0, parse)
    ensures st == EventsStep(Initial, events, parse)
    ensures !done ==> events == events0 + parts[..|parts| - 1]
    ensures done ==> HasDoneFrame(parts)
  {
    st, done := st0, false;
    var k := 0;
    assert events0 + parts[..0] == events0;
    while k < |parts| - 1
      invariant k <= |parts| - 1
      invariant st == EventsStep(Initial, events0 + parts[..k], parse)
    {
      st, done := DispatchOne(st, events0 + parts[..k], parts[k], parse);
      DispatchedPrefix(events0, parts, k);
      if done {
        assert JsTrim(parts[k]) == "[DONE]";
        return st, events0 + parts[..k + 1], done;
      }
      k := k + 1;
    }
    events := events0 + parts[..k];
  }

  lemma DispatchedPrefix(events0: seq<string>, parts: seq<string>, k: nat)
    requires k < |parts|
    ensures events0 + parts[..k] + [parts[k]] == events0 + parts[..k + 1]
  {
    TakeNext(parts, k);
  }

  /** One event handed to `processEvent`: the reply extends by it, and it stops the loop exactly when it is "[DONE]". */
  method DispatchOne(st0: Reply, ghost events0: seq<string>, e: string, parse: string -> Option<ChoiceDelta>)
    returns (st: Reply, done: bool)
    requires st0 == EventsStep(Initial, events0, parse)
    ensures st == EventsStep(Initial, events0 + [e], parse)
    ensures done <==> JsTrim(e) == "[DONE]"
  {
    st, done := ProcessEvent(st0, e, parse);
    DispatchStep(events0, e, st, done, parse);
  }

  lemma DispatchStep(events: seq<string>, e: string, next: Reply, stop: bool, parse: string -> Option<ChoiceDelta>)
    requires (next, stop) == EventStep(EventsStep(Initial, events, parse), e, parse)
    ensures next == EventsStep(Initial, events + [e], parse)
    ensures stop <==> JsTrim(e) == "[DONE]"
  {
    EventsStepAppend(Initial, events, e, parse);
    if e == "" {
      assert JsTrim(e) == "";
    }
  }

  /**
   * One read: the chunk is appended to the buffer, the buffer is split, the
   * last piece is kept and the others are dispatched. Unless one of them
   * is "[DONE]", the events and the kept piece are the pieces of the
   * buffer; after "[DONE]" the buffer is emptied.
   */
  method ReadChunk(st0: Reply, events0: seq<string>, buffer0: string, chunk: string, parse: string -> Option<ChoiceDelta>)
    returns (st: Reply, events: seq<string>, buffer: string, done: bool)
    requires st0 == EventsStep(Initial, events0, parse)
    ensures st == EventsStep(Initial, events, parse)
    ensures !done ==> events + [buffer] == events0 + Split(buffer0 + chunk, EventSeparator)
    ensures done ==> buffer == "" && HasDoneFrame(Split(buffer0 + chunk, EventSeparator))
  {
    var parts := Split(buffer0 + chunk, EventSeparator);
    buffer := Last(parts);
    st, events, done := DispatchEvents(st0, events0, parts, parse);
    if done {
      buffer := "";
    } else {
      KeepLast(events0, parts, events);
    }
  }

  lemma KeepLast(events0: seq<string>, parts: seq<string>, events: seq<string>)
    requires |parts| > 0 && events == events0 + parts[..|parts| - 1]
    ensures events + [Last(parts)] == events0 + parts
  {
    LastSplit(parts);
  }

  /**
   * The `while (true) reader.read()` loop and the final flush. `events` are
   * the strings handed to `processEvent`, in order; the reply is what they
   * produce. When no complete event is a bare "[DONE]" the events depend
   * only on the text read, not on how it was cut into reads.
   */
  method ReadEvents(received: seq<string>, parse: string -> Option<ChoiceDelta>) returns (st: Reply, events: seq<string>)
    ensures st == EventsStep(Initial, events, parse)
    ensures NoDoneFrame(Flatten(received)) ==> events == Frames(Flatten(received))
  {
    st := Initial;
    events := [];
    var buffer := "";
    ghost var clean := true;
    var r := 0;
    while r < |received|
      invariant r <= |received|
      invariant st == EventsStep(Initial, events, parse)
      invariant clean ==> events + [buffer] == Split(Flatten(received[..r]), EventSeparator)
      invariant NoDoneFrame(Flatten(received)) ==> clean
    {
      if clean {
        ReadStep(received, r, events, buffer);
      }
      var done;
      st, events, buffer, done := ReadChunk(st, events, buffer, received[r], parse);
      if done {
        clean := false;
      }
      r := r + 1;
    }
    assert received[..|received|] == received;
    if !IsJsBlank(buffer) {
      EventsStepAppend(Initial, events, buffer, parse);
      var ignored;
      st, ignored := ProcessEvent(st, buffer, parse);
      events := events + [buffer];
    }
  }
}
