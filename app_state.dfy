/**
 * The browser's mutable globals that decide what an audit pass works on:
 * the scoped-in programmes, the five aggregated extraction lists, the two
 * bounded histories, the saved chat sessions, the loaded APP/APR texts and
 * the enabled state of the four audit buttons (consistency, measurability,
 * relevance, presentation), which the code always sets together.
 */
module AppStateModel {
  import opened Common
  import opened Strings

  datatype Message = Message(role: string, content: string)

  /** One paragraph of the chat pane: a `user-msg` or an assistant paragraph, and its text. */
  datatype PaneMessage = PaneMessage(isUser: bool, text: string)

  datatype ChatSession = ChatSession(title: string, messages: seq<PaneMessage>)

  /** `aggregatedDoc1` … `aggregatedDoc5`. */
  datatype Aggregates = Aggregates(doc1: seq<string>, doc2: seq<string>, doc3: seq<string>,
                                   doc4: seq<string>, doc5: seq<string>)

  const NoAggregates := Aggregates([], [], [], [], [])

  /** Each list with the entries of `e` pushed after its own. */
  function Extend(a: Aggregates, e: Aggregates): Aggregates {
    Aggregates(a.doc1 + e.doc1, a.doc2 + e.doc2, a.doc3 + e.doc3, a.doc4 + e.doc4, a.doc5 + e.doc5)
  }

  /** Right after the lists are emptied, an extraction leaves exactly its own entries. */
  lemma ExtendEmpty(e: Aggregates)
    ensures Extend(NoAggregates, e) == e
  {
    assert [] + e.doc1 == e.doc1 && [] + e.doc2 == e.doc2 && [] + e.doc3 == e.doc3;
    assert [] + e.doc4 == e.doc4 && [] + e.doc5 == e.doc5;
  }

  /**
   * Two extractions with no emptying in between (a new file choice does not
   * empty the lists) keep the first one's entries, followed by the second's.
   */
  lemma ExtendTwice(a: Aggregates, e1: Aggregates, e2: Aggregates)
    ensures Extend(Extend(a, e1), e2) == Extend(a, Extend(e1, e2))
    ensures |Extend(Extend(a, e1), e2).doc1| == |a.doc1| + |e1.doc1| + |e2.doc1|
    ensures Extend(Extend(a, e1), e2).doc1[..|a.doc1| + |e1.doc1|] == a.doc1 + e1.doc1
  {
    AppendAssoc(a.doc1, e1.doc1, e2.doc1);
    AppendAssoc(a.doc2, e1.doc2, e2.doc2);
    AppendAssoc(a.doc3, e1.doc3, e2.doc3);
    AppendAssoc(a.doc4, e1.doc4, e2.doc4);
    AppendAssoc(a.doc5, e1.doc5, e2.doc5);
    assert (a.doc1 + e1.doc1 + e2.doc1)[..|a.doc1| + |e1.doc1|] == a.doc1 + e1.doc1;
  }

  /** The history bound of `addToChatHistory` and `addToChatHistory2`. */
  const HistoryLimit: nat := 5

  /** The last `min(|s|, n)` elements of `s`. */
  function LastN<T>(s: seq<T>, n: nat): (r: seq<T>)
    ensures |r| == Min(|s|, n)
  {
    if |s| <= n then s else s[|s| - n..]
  }

  /**
   * One `push` followed by a `shift` when the list has grown past the
   * bound keeps exactly the last `n` elements pushed.
   */
  lemma LastNPush<T>(s: seq<T>, x: T, n: nat)
    requires n > 0
    ensures var pushed := LastN(s, n) + [x];
      LastN(s + [x], n) == if |pushed| > n then pushed[1..] else pushed
  {
    var pushed := LastN(s, n) + [x];
    if |s| + 1 > n {
      assert (s + [x])[|s| + 1 - n..] == pushed[|pushed| - n..];
    }
  }

  /** The index of the first user paragraph, if any. */
  function FirstUser(messages: seq<PaneMessage>): (r: Option<nat>)
    ensures r.Some? ==> r.value < |messages| && messages[r.value].isUser
    ensures r.Some? ==> forall k :: 0 <= k < r.value ==> !messages[k].isUser
    ensures r.None? ==> forall k :: 0 <= k < |messages| ==> !messages[k].isUser
  {
    if |messages| == 0 then None
    else if messages[0].isUser then Some(0)
    else match FirstUser(messages[1..])
      case None => None
      case Some(k) => Some(k + 1)
  }

  const Ellipsis: char := '…'

  /** The title `saveCurrentChat` gives a chat: the first user text cut to 30, else `Chat <n+1>`. */
  function ChatTitle(messages: seq<PaneMessage>, sessions: nat): string {
    match FirstUser(messages)
    case Some(k) =>
      var text := messages[k].text;
      Slice(text, 0, 30) + (if |text| > 30 then [Ellipsis] else [])
    case None => "Chat " + NatToString(sessions + 1)
  }

  /**
   * A title from a user message is that message's text when it has at most
   * 30 characters, and otherwise its first 30 characters followed by "…";
   * without a user message it is "Chat " and the 1-based number of the new
   * session.
   */
  lemma ChatTitleSpec(messages: seq<PaneMessage>, sessions: nat)
    ensures FirstUser(messages).Some? ==>
      var text := messages[FirstUser(messages).value].text;
      (|text| <= 30 ==> ChatTitle(messages, sessions) == text)
      && (|text| > 30 ==> ChatTitle(messages, sessions) == text[..30] + [Ellipsis])
    ensures FirstUser(messages).None? ==>
      var t := ChatTitle(messages, sessions);
      StartsWith(t, "Chat ") && DigitsValue(t[5..]) == sessions + 1
  {
    if FirstUser(messages).None? {
      var t := ChatTitle(messages, sessions);
      assert t[5..] == NatToString(sessions + 1);
      NatToStringValue(sessions + 1);
    }
  }

  /** `chatSessions.splice(index, 1)`: the start is clamped, and a negative one counts from the end. */
  function SpliceStart(index: int, length: nat): (start: nat)
    ensures start <= length
  {
    if index < 0 then (if length + index < 0 then 0 else length + index)
    else if index > length then length else index
  }

  function RemoveAt<T>(s: seq<T>, start: nat): (r: seq<T>)
    requires start <= |s|
    ensures start < |s| ==> (|r| == |s| - 1 && (forall k :: 0 <= k < start ==> r[k] == s[k])
      && (forall k :: start <= k < |r| ==> r[k] == s[k + 1]))
    ensures start == |s| ==> r == s
  {
    if start < |s| then s[..start] + s[start + 1..] else s
  }

  class AppState {
    var programmeList: seq<string>
    var aggregated: Aggregates
    var chatHistoryList: seq<Message>
    var measurabilityTable: seq<Message>
    var chatSessions: seq<ChatSession>
    var appText: string
    var aprText: string
    var strategicPlanText: string
    var auditButtonsEnabled: bool
    var changeProgrammeEnabled: bool
    /** Every message ever pushed to each history, for stating what the bounded lists keep. */
    ghost var chatPushed: seq<Message>
    ghost var measurabilityPushed: seq<Message>

    ghost predicate Valid()
      reads this
    {
      chatHistoryList == LastN(chatPushed, HistoryLimit)
      && measurabilityTable == LastN(measurabilityPushed, HistoryLimit)
    }

    /** The page as loaded: everything empty and the audit buttons disabled. */
    constructor ()
      ensures Valid()
      ensures programmeList == [] && aggregated == NoAggregates && chatSessions == []
      ensures chatHistoryList == [] && measurabilityTable == []
      ensures appText == "" && aprText == "" && strategicPlanText == ""
      ensures !auditButtonsEnabled && !changeProgrammeEnabled
    {
      programmeList := [];
      aggregated := NoAggregates;
      chatHistoryList := [];
      measurabilityTable := [];
      chatSessions := [];
      appText := "";
      aprText := "";
      strategicPlanText := "";
      auditButtonsEnabled := false;
      changeProgrammeEnabled := false;
      chatPushed := [];
      measurabilityPushed := [];
    }

    /** `addToChatHistory(msg)`: push, then shift when longer than 5. */
    method AddToChatHistory(msg: Message)
      requires Valid()
      modifies this
      ensures Valid()
      ensures chatPushed == old(chatPushed) + [msg]
      ensures chatHistoryList == LastN(chatPushed, HistoryLimit)
      ensures measurabilityTable == old(measurabilityTable) && measurabilityPushed == old(measurabilityPushed)
      ensures programmeList == old(programmeList) && aggregated == old(aggregated)
      ensures chatSessions == old(chatSessions) && auditButtonsEnabled == old(auditButtonsEnabled)
      ensures changeProgrammeEnabled == old(changeProgrammeEnabled)
      ensures appText == old(appText) && aprText == old(aprText) && strategicPlanText == old(strategicPlanText)
    {
      LastNPush(chatPushed, msg, HistoryLimit);
      chatHistoryList := chatHistoryList + [msg];
      if |chatHistoryList| > HistoryLimit {
        chatHistoryList := chatHistoryList[1..];
      }
      chatPushed := chatPushed + [msg];
    }

    /** `addToChatHistory2(msg)`: the same bound on `measurabilityTable`. */
    method AddToChatHistory2(msg: Message)
      requires Valid()
      modifies this
      ensures Valid()
      ensures measurabilityPushed == old(measurabilityPushed) + [msg]
      ensures measurabilityTable == LastN(measurabilityPushed, HistoryLimit)
      ensures chatHistoryList == old(chatHistoryList) && chatPushed == old(chatPushed)
      ensures programmeList == old(programmeList) && aggregated == old(aggregated)
      ensures chatSessions == old(chatSessions) && auditButtonsEnabled == old(auditButtonsEnabled)
      ensures changeProgrammeEnabled == old(changeProgrammeEnabled)
      ensures appText == old(appText) && aprText == old(aprText) && strategicPlanText == old(strategicPlanText)
    {
      LastNPush(measurabilityPushed, msg, HistoryLimit);
      measurabilityTable := measurabilityTable + [msg];
      if |measurabilityTable| > HistoryLimit {
        measurabilityTable := measurabilityTable[1..];
      }
      measurabilityPushed := measurabilityPushed + [msg];
    }

    /** `changeProgrammes()`: clears the scope and the aggregates and disables the audit buttons. */
    method ChangeProgrammes()
      requires Valid()
      modifies this
      ensures Valid()
      ensures programmeList == [] && aggregated == NoAggregates && !auditButtonsEnabled
      ensures chatHistoryList == old(chatHistoryList) && measurabilityTable == old(measurabilityTable)
      ensures chatPushed == old(chatPushed) && measurabilityPushed == old(measurabilityPushed)
      ensures chatSessions == old(chatSessions) && changeProgrammeEnabled == old(changeProgrammeEnabled)
      ensures appText == old(appText) && aprText == old(aprText) && strategicPlanText == old(strategicPlanText)
    {
      programmeList := [];
      aggregated := NoAggregates;
      auditButtonsEnabled := false;
    }

    /** The file-input `change` handler: only the programme list is emptied. */
    method ResetOnFileInput()
      requires Valid()
      modifies this
      ensures Valid()
      ensures programmeList == []
      ensures aggregated == old(aggregated) && auditButtonsEnabled == old(auditButtonsEnabled)
      ensures chatHistoryList == old(chatHistoryList) && measurabilityTable == old(measurabilityTable)
      ensures chatPushed == old(chatPushed) && measurabilityPushed == old(measurabilityPushed)
      ensures chatSessions == old(chatSessions) && changeProgrammeEnabled == old(changeProgrammeEnabled)
      ensures appText == old(appText) && aprText == old(aprText) && strategicPlanText == old(strategicPlanText)
    {
      programmeList := [];
    }

    /**
     * The "Submit" button of the programme card. An empty selection changes
     * nothing. Otherwise the selection is appended to the scope and
     * `extractIndicatorsAndTargets` runs: when both texts are loaded it
     * pushes the entries `extracted` onto the five lists (nothing clears
     * them here), and without both texts it returns at once and leaves them
     * as they were. Either way the audit buttons are then enabled (and, in
     * the card built after an upload, the "change programmes" button too).
     */
    method SubmitProgrammes(selected: seq<string>, extracted: Aggregates, afterUpload: bool)
      returns (accepted: bool)
      requires Valid()
      modifies this
      ensures Valid()
      ensures accepted <==> |selected| > 0
      ensures !accepted ==> (programmeList == old(programmeList) && aggregated == old(aggregated)
        && auditButtonsEnabled == old(auditButtonsEnabled) && changeProgrammeEnabled == old(changeProgrammeEnabled))
      ensures accepted ==> (programmeList == old(programmeList) + selected
        && auditButtonsEnabled && changeProgrammeEnabled == (afterUpload || old(changeProgrammeEnabled)))
      ensures accepted && appText != "" && aprText != "" ==>
        aggregated.doc1 == old(aggregated).doc1 + extracted.doc1
        && aggregated.doc2 == old(aggregated).doc2 + extracted.doc2
        && aggregated.doc3 == old(aggregated).doc3 + extracted.doc3
        && aggregated.doc4 == old(aggregated).doc4 + extracted.doc4
        && aggregated.doc5 == old(aggregated).doc5 + extracted.doc5
      ensures (appText == "" || aprText == "") ==> aggregated == old(aggregated)
      ensures chatHistoryList == old(chatHistoryList) && measurabilityTable == old(measurabilityTable)
      ensures chatPushed == old(chatPushed) && measurabilityPushed == old(measurabilityPushed)
      ensures chatSessions == old(chatSessions)
      ensures appText == old(appText) && aprText == old(aprText) && strategicPlanText == old(strategicPlanText)
    {
      if |selected| == 0 {
        return false;
      }
      programmeList := programmeList + selected;
      if appText != "" && aprText != "" {
        aggregated := Extend(aggregated, extracted);
      }
      if afterUpload {
        changeProgrammeEnabled := true;
      }
      auditButtonsEnabled := true;
      accepted := true;
    }

    /**
     * The frame of each of the four audit passes: the buttons are disabled
     * first, then the pass runs only when both texts are loaded; a refused
     * pass returns with the buttons and both histories as they were, a
     * finished one has pushed each of its assistant `replies` through
     * `addToChatHistory` and each of its `replies2` through
     * `addToChatHistory2`, in order, and enables the buttons again. The
     * replies come from the model calls and are given: the consistency and
     * presentation passes push only `replies`, the measurability pass pushes
     * one reply to each list per programme, and the relevance pass pushes
     * none.
     */
    method RunAuditPass(replies: seq<Message>, replies2: seq<Message>) returns (ran: bool)
      requires Valid()
      modifies this
      ensures Valid()
      ensures ran <==> appText != "" && aprText != ""
      ensures auditButtonsEnabled == ran
      ensures ran ==> chatPushed == old(chatPushed) + replies
      ensures ran ==> measurabilityPushed == old(measurabilityPushed) + replies2
      ensures !ran ==> chatPushed == old(chatPushed) && chatHistoryList == old(chatHistoryList)
      ensures !ran ==> measurabilityPushed == old(measurabilityPushed) && measurabilityTable == old(measurabilityTable)
      ensures chatHistoryList == LastN(chatPushed, HistoryLimit)
      ensures measurabilityTable == LastN(measurabilityPushed, HistoryLimit)
      ensures programmeList == old(programmeList) && aggregated == old(aggregated)
      ensures chatSessions == old(chatSessions) && changeProgrammeEnabled == old(changeProgrammeEnabled)
      ensures appText == old(appText) && aprText == old(aprText) && strategicPlanText == old(strategicPlanText)
    {
      auditButtonsEnabled := false;
      if appText == "" || aprText == "" {
        return false;
      }
      var i := 0;
      while i < |replies|
        invariant 0 <= i <= |replies|
        invariant Valid()
        invariant chatPushed == old(chatPushed) + replies[..i]
        invariant measurabilityPushed == old(measurabilityPushed)
        invariant !auditButtonsEnabled
        invariant programmeList == old(programmeList) && aggregated == old(aggregated)
        invariant chatSessions == old(chatSessions) && changeProgrammeEnabled == old(changeProgrammeEnabled)
        invariant appText == old(appText) && aprText == old(aprText) && strategicPlanText == old(strategicPlanText)
      {
        AddToChatHistory(replies[i]);
        assert replies[..i + 1] == replies[..i] + [replies[i]];
        i := i + 1;
      }
      assert replies[..i] == replies;
      var k := 0;
      while k < |replies2|
        invariant 0 <= k <= |replies2|
        invariant Valid()
        invariant chatPushed == old(chatPushed) + replies
        invariant measurabilityPushed == old(measurabilityPushed) + replies2[..k]
        invariant !auditButtonsEnabled
        invariant programmeList == old(programmeList) && aggregated == old(aggregated)
        invariant chatSessions == old(chatSessions) && changeProgrammeEnabled == old(changeProgrammeEnabled)
        invariant appText == old(appText) && aprText == old(aprText) && strategicPlanText == old(strategicPlanText)
      {
        AddToChatHistory2(replies2[k]);
        assert replies2[..k + 1] == replies2[..k] + [replies2[k]];
        k := k + 1;
      }
      assert replies2[..k] == replies2;
      auditButtonsEnabled := true;
      ran := true;
    }

    /** `saveCurrentChat()`: an empty pane saves nothing; otherwise one titled session is appended. */
    method SaveCurrentChat(pane: seq<PaneMessage>) returns (saved: bool)
      requires Valid()
      modifies this
      ensures Valid()
      ensures saved <==> |pane| > 0
      ensures saved ==> chatSessions == old(chatSessions) + [ChatSession(ChatTitle(pane, |old(chatSessions)|), pane)]
      ensures !saved ==> chatSessions == old(chatSessions)
      ensures programmeList == old(programmeList) && aggregated == old(aggregated)
      ensures chatHistoryList == old(chatHistoryList) && measurabilityTable == old(measurabilityTable)
      ensures chatPushed == old(chatPushed) && measurabilityPushed == old(measurabilityPushed)
      ensures auditButtonsEnabled == old(auditButtonsEnabled) && changeProgrammeEnabled == old(changeProgrammeEnabled)
      ensures appText == old(appText) && aprText == old(aprText) && strategicPlanText == old(strategicPlanText)
    {
      if |pane| == 0 {
        return false;
      }
      var title := ChatTitle(pane, |chatSessions|);
      chatSessions := chatSessions + [ChatSession(title, pane)];
      saved := true;
    }

    /** `deleteChat(index)`: `chatSessions.splice(index, 1)`. */
    method DeleteChat(index: int)
      requires Valid()
      modifies this
      ensures Valid()
      ensures chatSessions == RemoveAt(old(chatSessions), SpliceStart(index, |old(chatSessions)|))
      ensures programmeList == old(programmeList) && aggregated == old(aggregated)
      ensures chatHistoryList == old(chatHistoryList) && measurabilityTable == old(measurabilityTable)
      ensures chatPushed == old(chatPushed) && measurabilityPushed == old(measurabilityPushed)
      ensures auditButtonsEnabled == old(auditButtonsEnabled) && changeProgrammeEnabled == old(changeProgrammeEnabled)
      ensures appText == old(appText) && aprText == old(aprText) && strategicPlanText == old(strategicPlanText)
    {
      var start := SpliceStart(index, |chatSessions|);
      chatSessions := RemoveAt(chatSessions, start);
    }
  }
}
