/**
 * `classifyInChunks`: the uploaded document is cut into five pieces, each
 * piece is classified by one chat request, the answers are tallied, and
 * the label with the most votes decides which document slot the text is
 * stored in. The request is an oracle from the piece's position and text
 * to the reply's `content`; `None` stands for everything that throws inside
 * the `try` (the retry throw, a body that is not JSON, a missing or
 * non-string content), which casts no vote.
 */
module Classifier {
  import opened Common
  import opened Strings
  import Chunkers
  import DocumentText

  /** The keys of `classificationCounts`, in their insertion order. */
  datatype Label = StrategicPlan | AnnualPerformancePlan | AnnualPerformanceReport | Uncertain

  /** Position of a label in `classificationCounts` (and so in `Object.entries`). */
  function Rank(l: Label): nat {
    match l
    case StrategicPlan => 0
    case AnnualPerformancePlan => 1
    case AnnualPerformanceReport => 2
    case Uncertain => 3
  }

  const Order: seq<Label> := [StrategicPlan, AnnualPerformancePlan, AnnualPerformanceReport, Uncertain]

  /** The label of one trimmed reply: the first of the three names it contains. */
  function LabelOf(reply: string): Label {
    if Contains(reply, "Strategic Plan") then StrategicPlan
    else if Contains(reply, "Annual Performance Plan") then AnnualPerformancePlan
    else if Contains(reply, "Annual Performance Report") then AnnualPerformanceReport
    else Uncertain
  }

  /** One piece: a reply that throws casts no vote; otherwise its trimmed content is labelled. */
  function Vote(reply: Option<string>): Option<Label> {
    match reply
    case None => None
    case Some(content) => Some(LabelOf(JsTrim(content)))
  }

  /** The votes cast, in piece order. */
  function Votes(replies: seq<Option<string>>): (votes: seq<Label>)
    ensures |votes| <= |replies|
  {
    if |replies| == 0 then []
    else Votes(AllButLast(replies)) + (match Vote(Last(replies)) case None => [] case Some(l) => [l])
  }

  function Occurrences(votes: seq<Label>, l: Label): nat {
    if |votes| == 0 then 0 else Occurrences(AllButLast(votes), l) + (if Last(votes) == l then 1 else 0)
  }

  /** `classificationCounts`. */
  datatype Tally = Tally(sp: nat, app: nat, apr: nat, uncertain: nat) {
    function Get(l: Label): nat {
      match l
      case StrategicPlan => sp
      case AnnualPerformancePlan => app
      case AnnualPerformanceReport => apr
      case Uncertain => uncertain
    }

    function Add(l: Label): (t: Tally)
      ensures t.Get(l) == Get(l) + 1
      ensures forall m :: m != l ==> t.Get(m) == Get(m)
    {
      match l
      case StrategicPlan => this.(sp := sp + 1)
      case AnnualPerformancePlan => this.(app := app + 1)
      case AnnualPerformanceReport => this.(apr := apr + 1)
      case Uncertain => this.(uncertain := uncertain + 1)
    }

  }

  /**
   * `Object.entries(counts).sort((a, b) => b[1] - a[1])[0][0]` over the
   * labels `order`: the sort is stable, so the first label with the
   * greatest count wins.
   */
  function FirstMax(t: Tally, order: seq<Label>): (w: Label)
    requires |order| > 0
    ensures w in order
    ensures forall l :: l in order ==> t.Get(l) <= t.Get(w)
    ensures forall k :: 0 <= k < |order| && order[k] != w && t.Get(order[k]) == t.Get(w) ==>
      exists k' :: 0 <= k' < k && order[k'] == w
  {
    if |order| == 1 then order[0]
    else
      var w := FirstMax(t, AllButLast(order));
      if t.Get(Last(order)) > t.Get(w) then Last(order) else w
  }

  function Winner(t: Tally): Label {
    FirstMax(t, Order)
  }

  /** The winner has the greatest count, and every label before it has strictly fewer votes. */
  lemma WinnerIsFirstMaximum(t: Tally)
    ensures forall l :: t.Get(l) <= t.Get(Winner(t))
    ensures forall l :: Rank(l) < Rank(Winner(t)) ==> t.Get(l) < t.Get(Winner(t))
  {
    var w := Winner(t);
    forall l
      ensures t.Get(l) <= t.Get(w)
    {
      assert l == Order[Rank(l)];
    }
    forall l | Rank(l) < Rank(w)
      ensures t.Get(l) < t.Get(w)
    {
      assert l == Order[Rank(l)] && w == Order[Rank(w)];
    }
  }

  /** No votes at all: every count is 0 and "Strategic Plan", the first entry, wins. */
  lemma NoVotesIsStrategicPlan()
    ensures Winner(Tally(0, 0, 0, 0)) == StrategicPlan
  {
  }

  /** Where the classified text goes. */
  datatype Stored =
    | StoredStrategicPlan(strategicPlanText: string)   // the text as uploaded
    | StoredApp(appText: string)                       // cleaned
    | StoredApr(aprText: string)                       // cleaned
    | NotRecognised                                    // the "not any of these" alert; nothing stored

  function StoreAs(w: Label, fullText: string): Stored {
    match w
    case StrategicPlan => StoredStrategicPlan(fullText)
    case AnnualPerformancePlan => StoredApp(DocumentText.CleanDocumentText(fullText))
    case AnnualPerformanceReport => StoredApr(DocumentText.CleanDocumentText(fullText))
    case Uncertain => NotRecognised
  }

  /**
   * The `for (let chunk of chunks)` loop: one request per piece, in order,
   * and the votes counted.
   */
  method TallyVotes(chunks: seq<string>, reply: (nat, string) -> Option<string>)
    returns (counts: Tally, replies: seq<Option<string>>)
    ensures |replies| == |chunks|
    ensures forall k :: 0 <= k < |chunks| ==> replies[k] == reply(k, chunks[k])
    ensures forall l :: counts.Get(l) == Occurrences(Votes(replies), l)
  {
    counts := Tally(0, 0, 0, 0);
    replies := [];
    var k := 0;
    while k < |chunks|
      invariant k <= |chunks| && |replies| == k
      invariant forall j :: 0 <= j < k ==> replies[j] == reply(j, chunks[j])
      invariant forall l :: counts.Get(l) == Occurrences(Votes(replies), l)
    {
      var r := reply(k, chunks[k]);
      ghost var before := replies;
      replies := replies + [r];
      assert AllButLast(replies) == before && Last(replies) == r;
      if r.Some? {
        var classification := JsTrim(r.value);
        var l := LabelOf(classification);
        counts := counts.Add(l);
        assert Votes(replies) == Votes(before) + [l];
        assert AllButLast(Votes(replies)) == Votes(before);
      } else {
        assert Votes(replies) == Votes(before);
      }
      k := k + 1;
    }
  }

  /** `classifyInChunks(fullText)`: the tally, its winner, and what is stored. */
  method ClassifyInChunks(fullText: string, reply: (nat, string) -> Option<string>)
    returns (counts: Tally, winner: Label, stored: Stored)
    ensures var chunks := Chunkers.ChunkIntoFive(fullText);
      var replies := seq(5, k requires 0 <= k < 5 => reply(k, chunks[k]));
      forall l :: counts.Get(l) == Occurrences(Votes(replies), l)
    ensures forall l :: counts.Get(l) <= counts.Get(winner)
    ensures forall l :: Rank(l) < Rank(winner) ==> counts.Get(l) < counts.Get(winner)
    ensures stored == StoreAs(winner, fullText)
  {
    var chunks := Chunkers.ChunkIntoFive(fullText);
    var replies;
    counts, replies := TallyVotes(chunks, reply);
    assert replies == seq(5, k requires 0 <= k < 5 => reply(k, chunks[k]));
    winner := Winner(counts);
    WinnerIsFirstMaximum(counts);
    stored := StoreAs(winner, fullText);
  }

  /** Every vote is counted once: the counts add up to the number of replies that did not throw. */
  lemma {:induction false} TotalIsVotes(replies: seq<Option<string>>)
    ensures Occurrences(Votes(replies), StrategicPlan) + Occurrences(Votes(replies), AnnualPerformancePlan)
      + Occurrences(Votes(replies), AnnualPerformanceReport) + Occurrences(Votes(replies), Uncertain)
      == |Votes(replies)|
  {
    if |replies| > 0 {
      TotalIsVotes(AllButLast(replies));
      var v := Votes(replies);
      if Vote(Last(replies)).Some? {
        assert AllButLast(v) == Votes(AllButLast(replies));
      } else {
        assert v == Votes(AllButLast(replies));
      }
    }
  }

  /** An empty reply counts as Uncertain, and the three names are looked for in that order. */
  lemma LabelExamples()
    ensures LabelOf("") == Uncertain
    ensures LabelOf("Annual Performance Plan or Strategic Plan") == StrategicPlan
  {
    assert !Contains("", "Strategic Plan");
    assert !Contains("", "Annual Performance Plan");
    assert !Contains("", "Annual Performance Report");
    var s := "Annual Performance Plan or Strategic Plan";
    assert OccursAt(s, "Strategic Plan", 27);
  }

  /** Five replies APP, APP, APR, Uncertain, APP elect the Annual Performance Plan. */
  lemma MajorityExample()
    ensures var votes := [AnnualPerformancePlan, AnnualPerformancePlan, AnnualPerformanceReport,
                          Uncertain, AnnualPerformancePlan];
      Winner(Tally(Occurrences(votes, StrategicPlan), Occurrences(votes, AnnualPerformancePlan),
                   Occurrences(votes, AnnualPerformanceReport), Occurrences(votes, Uncertain)))
      == AnnualPerformancePlan
  {
    var votes := [AnnualPerformancePlan, AnnualPerformancePlan, AnnualPerformanceReport,
                  Uncertain, AnnualPerformancePlan];
    assert AllButLast(votes) == votes[..4];
    assert AllButLast(votes[..4]) == votes[..3];
    assert AllButLast(votes[..3]) == votes[..2];
    assert AllButLast(votes[..2]) == votes[..1];
    assert AllButLast(votes[..1]) == [];
    assert Occurrences(votes, AnnualPerformancePlan) == 3;
    assert Occurrences(votes, StrategicPlan) == 0;
    assert Occurrences(votes, AnnualPerformanceReport) == 1;
    assert Occurrences(votes, Uncertain) == 1;
  }
}
