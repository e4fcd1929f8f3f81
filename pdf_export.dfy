/**
 * The browser side of the PDF export: `convertTableToMarkdown` turns the
 * cell texts of an HTML table into a GitHub Flavored Markdown pipe table,
 * which the report generator reads back with `parse_markdown_table`.
 *
 * A table is given as the `textContent` of its cells, row by row; the DOM
 * walk that collects them is not modelled.
 */
module PdfExport {
  import opened Common
  import opened Strings
  import ReportParser

  /** `cell.textContent.trim().replace(/\|/g, '\\|')`. */
  function EscapeCell(cell: string): string {
    ReplaceChar(JsTrim(cell), '|', "\\|")
  }

  function EscapeRow(row: seq<string>): (r: seq<string>)
    ensures |r| == |row| && forall k :: 0 <= k < |r| ==> r[k] == EscapeCell(row[k])
  {
    seq(|row|, k requires 0 <= k < |row| => EscapeCell(row[k]))
  }

  /** `'| ' + cells.join(' | ') + ' |'`, without the line break. */
  function Bar(cells: seq<string>): string {
    "| " + Join(cells, " | ") + " |"
  }

  /** One "---" per header cell. */
  function Dashes(n: nat): (r: seq<string>)
    ensures |r| == n && forall k :: 0 <= k < n ==> r[k] == "---"
  {
    seq(n, _ => "---")
  }

  /** The lines of the table: every row, and the separator after the first one only. */
  function TableBars(rows: seq<seq<string>>): seq<string> {
    if |rows| == 0 then []
    else TableBars(AllButLast(rows)) + [Bar(EscapeRow(Last(rows)))]
         + (if |rows| == 1 then [Bar(Dashes(|rows[0]|))] else [])
  }

  /** Each line with its line break. */
  function Terminated(lines: seq<string>): (r: seq<string>)
    ensures |r| == |lines| && forall k :: 0 <= k < |r| ==> r[k] == lines[k] + "\n"
  {
    seq(|lines|, k requires 0 <= k < |lines| => lines[k] + "\n")
  }

  /** The result of `convertTableToMarkdown`. */
  function TableMarkdown(rows: seq<seq<string>>): string {
    if |rows| == 0 then "" else "\n\n" + Flatten(Terminated(TableBars(rows))) + "\n"
  }

  method ConvertTableToMarkdown(rows: seq<seq<string>>) returns (markdown: string)
    ensures markdown == TableMarkdown(rows)
  {
    markdown := "\n\n";
    if |rows| == 0 {
      return "";
    }
    for rowIndex := 0 to |rows|
      invariant markdown == Written(rows, rowIndex)
    {
      ghost var before := markdown;
      var cellTexts := EscapeRow(rows[rowIndex]);
      markdown := markdown + (Bar(cellTexts) + "\n");
      if rowIndex == 0 {
        var separator := Bar(Dashes(|cellTexts|));
        markdown := markdown + (separator + "\n");
      }
      MarkdownStep(rows, rowIndex, before);
    }
    assert rows[..|rows|] == rows;
    markdown := markdown + "\n";
  }

  /** What the loop has written after `k` rows. */
  ghost function Written(rows: seq<seq<string>>, k: nat): string
    requires k <= |rows|
  {
    "\n\n" + Flatten(Terminated(TableBars(rows[..k])))
  }

  /** One pass of the loop: the row's line, and after the first row the separator. */
  lemma MarkdownStep(rows: seq<seq<string>>, k: nat, before: string)
    requires k < |rows| && before == Written(rows, k)
    ensures Written(rows, k + 1) == before + (Bar(EscapeRow(rows[k])) + "\n")
      + (if k == 0 then Bar(Dashes(|EscapeRow(rows[k])|)) + "\n" else "")
  {
    TableBarsStep(rows, k);
    var separator := if k == 0 then [Bar(Dashes(|EscapeRow(rows[0])|))] else [];
    var added := [Bar(EscapeRow(rows[k]))] + separator;
    AppendAssoc(TableBars(rows[..k]), [Bar(EscapeRow(rows[k]))], separator);
    assert added[0] == Bar(EscapeRow(rows[k]));
    assert |added| == 2 <==> k == 0;
    assert k == 0 ==> added[1] == Bar(Dashes(|EscapeRow(rows[k])|));
    TerminatedFlattenAppend(TableBars(rows[..k]), added);
    var f := Flatten(Terminated(TableBars(rows[..k])));
    var line := Bar(EscapeRow(rows[k])) + "\n";
    var sepLine := if k == 0 then Bar(Dashes(|EscapeRow(rows[k])|)) + "\n" else "";
    AppendAssoc("\n\n", f + line, sepLine);
    AppendAssoc("\n\n", f, line);
  }

  lemma TableBarsStep(rows: seq<seq<string>>, k: nat)
    requires k < |rows|
    ensures TableBars(rows[..k + 1]) == TableBars(rows[..k]) + [Bar(EscapeRow(rows[k]))]
      + (if k == 0 then [Bar(Dashes(|EscapeRow(rows[0])|))] else [])
  {
    assert AllButLast(rows[..k + 1]) == rows[..k] && Last(rows[..k + 1]) == rows[k];
    assert rows[..k + 1][0] == rows[0];
  }

  lemma TerminatedFlattenAppend(a: seq<string>, b: seq<string>)
    requires |b| == 1 || |b| == 2
    ensures Flatten(Terminated(a + b)) == Flatten(Terminated(a)) + (b[0] + "\n")
      + (if |b| == 2 then b[1] + "\n" else "")
  {
    assert Terminated(a + b) == Terminated(a) + Terminated(b);
    FlattenAppend(Terminated(a), Terminated(b));
    var t := Terminated(b);
    if |b| == 2 {
      assert t[1..][1..] == [];
      assert Flatten(t[1..]) == t[1] + Flatten(t[1..][1..]);
      assert Flatten(t) == (b[0] + "\n") + (b[1] + "\n");
    } else {
      assert t[1..] == [];
      assert Flatten(t) == (b[0] + "\n") + "";
    }
  }

  /** An empty table gives nothing at all. */
  lemma EmptyTableIsEmpty()
    ensures TableMarkdown([]) == ""
  {
  }

  /** One line per row plus the one separator, which comes second. */
  lemma {:induction false} TableBarsShape(rows: seq<seq<string>>)
    requires |rows| > 0
    ensures |TableBars(rows)| == |rows| + 1
    ensures TableBars(rows)[0] == Bar(EscapeRow(rows[0]))
    ensures TableBars(rows)[1] == Bar(Dashes(|rows[0]|))
    ensures forall k :: 1 <= k < |rows| ==> TableBars(rows)[k + 1] == Bar(EscapeRow(rows[k]))
  {
    if |rows| > 1 {
      TableBarsShape(AllButLast(rows));
      assert AllButLast(rows)[0] == rows[0];
    }
  }

  /** Every `|` in `r` is preceded by a backslash. */
  predicate PipesEscaped(r: string) {
    forall i :: 0 <= i < |r| && r[i] == '|' ==> i > 0 && r[i - 1] == '\\'
  }

  /** Every `|` left in an escaped cell is preceded by a backslash. */
  lemma {:induction false} EscapedPipes(s: string)
    ensures PipesEscaped(ReplaceChar(s, '|', "\\|"))
  {
    if |s| > 0 {
      EscapedPipes(s[1..]);
      var head := if s[0] == '|' then "\\|" else [s[0]];
      var tail := ReplaceChar(s[1..], '|', "\\|");
      var r := head + tail;
      assert PipesEscaped(tail);
      forall i | 0 <= i < |r| && r[i] == '|'
        ensures i > 0 && r[i - 1] == '\\'
      {
        assert s[0] == '|' ==> r[0] == '\\' && r[1] == '|';
        assert s[0] != '|' ==> |head| == 1 && r[0] == s[0];
        var j := i - |head|;
        assert j >= 0 ==> r[i] == tail[j];
        assert j > 0 ==> r[i - 1] == tail[j - 1];
      }
      assert ReplaceChar(s, '|', "\\|") == r;
    }
  }

  // ---------------------------------------------------------------------
  // The round trip through parse_markdown_table
  // ---------------------------------------------------------------------

  /**
   * A cell the round trip preserves: no `|`, no line break, and no
   * whitespace at either end in the sense of either language.
   */
  predicate CleanCell(cell: string) {
    !HasChar(cell, '|') && !HasChar(cell, '\n')
    && (|cell| == 0 || (!IsPySpace(cell[0]) && !IsPySpace(cell[|cell| - 1])
                        && !IsJsSpace(cell[0]) && !IsJsSpace(cell[|cell| - 1])))
  }

  predicate CleanRow(row: seq<string>) {
    |row| > 0 && (forall k :: 0 <= k < |row| ==> CleanCell(row[k])) && !ReportParser.SeparatorRow(row)
  }

  lemma EscapeCleanCell(cell: string)
    requires CleanCell(cell)
    ensures EscapeCell(cell) == cell
  {
    StripWithNoop(cell, IsJsSpace);
    ReplaceCharAbsent(cell, '|', "\\|");
  }

  lemma EscapeCleanRow(row: seq<string>)
    requires forall k :: 0 <= k < |row| ==> CleanCell(row[k])
    ensures EscapeRow(row) == row
  {
    forall k | 0 <= k < |row|
      ensures EscapeRow(row)[k] == row[k]
    {
      EscapeCleanCell(row[k]);
    }
  }

  function Padded(cells: seq<string>): (r: seq<string>)
    ensures |r| == |cells| && forall k :: 0 <= k < |r| ==> r[k] == " " + cells[k] + " "
  {
    seq(|cells|, k requires 0 <= k < |cells| => " " + cells[k] + " ")
  }

  lemma {:induction false} JoinPadded(cells: seq<string>)
    requires |cells| > 0
    ensures " " + Join(cells, " | ") + " " == Join(Padded(cells), "|")
    decreases |cells|
  {
    if |cells| > 1 {
      JoinPadded(cells[1..]);
      assert Padded(cells[1..]) == Padded(cells)[1..];
      Regroup(cells[0], Join(cells[1..], " | "));
    }
  }

  /** Moving the spaces of " | " onto the cells on either side. */
  lemma Regroup(c: string, j: string)
    ensures " " + (c + " | " + j) + " " == (" " + c + " ") + "|" + (" " + j + " ")
  {
    assert " | " == " " + "|" + " ";
  }

  lemma StripPaddedCell(cell: string)
    requires CleanCell(cell)
    ensures PyStrip(" " + cell + " ") == cell
  {
    if |cell| == 0 {
      assert " " + cell + " " == "  ";
      StripWithAll("  ", IsPySpace);
    } else {
      StripWithPadded(" ", cell, " ", IsPySpace);
    }
  }

  /** A written row reads back as its cells. */
  lemma CellsOfBar(cells: seq<string>)
    requires |cells| > 0 && forall k :: 0 <= k < |cells| ==> CleanCell(cells[k])
    ensures ReportParser.Cells(Bar(cells)) == cells
  {
    var inner := " " + Join(cells, " | ") + " ";
    assert Bar(cells) == "|" + inner + "|";
    StripWithPadded("|", inner, "|", (x: char) => x == '|');
    JoinPadded(cells);
    var padded := Padded(cells);
    forall k | 0 <= k < |padded|
      ensures !HasChar(padded[k], '|')
    {
      assert padded[k] == " " + cells[k] + " ";
      assert forall i :: 1 <= i < |padded[k]| - 1 ==> padded[k][i] == cells[k][i - 1];
    }
    SplitJoinChar(padded, '|');
    forall k | 0 <= k < |cells|
      ensures ReportParser.Cells(Bar(cells))[k] == cells[k]
    {
      StripPaddedCell(cells[k]);
    }
  }

  /** A written line holds no line break. */
  lemma BarHasNoNewline(cells: seq<string>)
    requires forall k :: 0 <= k < |cells| ==> CleanCell(cells[k])
    ensures !HasChar(Bar(cells), '\n')
  {
    JoinNoChar(cells, " | ", '\n');
  }

  lemma {:induction false} JoinNoChar(parts: seq<string>, sep: string, c: char)
    requires !HasChar(sep, c) && forall k :: 0 <= k < |parts| ==> !HasChar(parts[k], c)
    ensures !HasChar(Join(parts, sep), c)
    decreases |parts|
  {
    if |parts| > 1 {
      JoinNoChar(parts[1..], sep, c);
      var rest := Join(parts[1..], sep);
      var s := parts[0] + sep + rest;
      forall i | 0 <= i < |s|
        ensures s[i] != c
      {
        if i < |parts[0]| {
          assert s[i] == parts[0][i];
        } else if i < |parts[0]| + |sep| {
          assert s[i] == sep[i - |parts[0]|];
        } else {
          assert s[i] == rest[i - |parts[0]| - |sep|];
        }
      }
    }
  }

  lemma DashesClean()
    ensures CleanCell("---") && ReportParser.DashesAndSpaces("---")
  {
    var d := "---";
    assert forall i :: 0 <= i < |d| ==> d[i] == '-';
  }

  lemma DashesCells(n: nat)
    requires n > 0
    ensures ReportParser.Cells(Bar(Dashes(n))) == Dashes(n) && ReportParser.SeparatorRow(Dashes(n))
    ensures !HasChar(Bar(Dashes(n)), '\n')
  {
    DashesClean();
    var d := Dashes(n);
    assert forall k :: 0 <= k < |d| ==> CleanCell(d[k]);
    CellsOfBar(d);
    BarHasNoNewline(d);
  }

  /** A written row is read back as that row. */
  lemma BarRow(row: seq<string>)
    requires CleanRow(row)
    ensures ReportParser.RowsOf([Bar(EscapeRow(row))]) == [row]
    ensures !HasChar(Bar(EscapeRow(row)), '\n')
  {
    EscapeCleanRow(row);
    CellsOfBar(row);
    BarHasNoNewline(row);
    assert Bar(row)[0] == '|';
    assert AllButLast([Bar(row)]) == [];
  }

  /** The written separator is dropped. */
  lemma SeparatorBar(n: nat)
    requires n > 0
    ensures ReportParser.RowsOf([Bar(Dashes(n))]) == []
    ensures !HasChar(Bar(Dashes(n)), '\n')
  {
    DashesCells(n);
    assert AllButLast([Bar(Dashes(n))]) == [];
  }

  /** The rows read back from the written lines are the rows, the separator dropped. */
  lemma {:induction false} RowsOfTableBars(rows: seq<seq<string>>)
    requires |rows| > 0 && forall k :: 0 <= k < |rows| ==> CleanRow(rows[k])
    ensures ReportParser.RowsOf(TableBars(rows)) == rows
  {
    if |rows| == 1 {
      RowsOfHeaderBars(rows);
    } else {
      var init := AllButLast(rows);
      assert forall k :: 0 <= k < |init| ==> init[k] == rows[k];
      RowsOfTableBars(init);
      RowsOfLaterBar(rows);
    }
  }

  /** The header row's line is read back as the row, and the separator after it as nothing. */
  lemma RowsOfHeaderBars(rows: seq<seq<string>>)
    requires |rows| == 1 && CleanRow(rows[0])
    ensures ReportParser.RowsOf(TableBars(rows)) == rows
  {
    var lastBar := [Bar(EscapeRow(rows[0]))];
    var sep := [Bar(Dashes(|rows[0]|))];
    BarRow(rows[0]);
    SeparatorBar(|rows[0]|);
    Singleton(rows);
    AppendEmpty(lastBar);
    assert TableBars(rows) == lastBar + sep;
    ReportParser.RowsOfAppend(lastBar, sep);
    AppendEmpty([rows[0]]);
  }

  /** A later row's line adds that row to what the lines before it are read as. */
  lemma RowsOfLaterBar(rows: seq<seq<string>>)
    requires |rows| > 1 && CleanRow(Last(rows))
    requires ReportParser.RowsOf(TableBars(AllButLast(rows))) == AllButLast(rows)
    ensures ReportParser.RowsOf(TableBars(rows)) == rows
  {
    var lastBar := [Bar(EscapeRow(Last(rows)))];
    BarRow(Last(rows));
    assert TableBars(rows) == TableBars(AllButLast(rows)) + lastBar;
    ReportParser.RowsOfAppend(TableBars(AllButLast(rows)), lastBar);
    LastSplit(rows);
  }

  /** No written line holds a line break. */
  lemma {:induction false} TableBarsNoNewline(rows: seq<seq<string>>)
    requires |rows| > 0 && forall k :: 0 <= k < |rows| ==> CleanRow(rows[k])
    ensures forall k :: 0 <= k < |TableBars(rows)| ==> !HasChar(TableBars(rows)[k], '\n')
  {
    BarRow(Last(rows));
    if |rows| == 1 {
      SeparatorBar(|rows[0]|);
    } else {
      TableBarsNoNewline(AllButLast(rows));
    }
  }

  lemma {:induction false} FlattenTerminated(lines: seq<string>)
    requires |lines| > 0
    ensures Flatten(Terminated(lines)) == Join(lines, "\n") + "\n"
    decreases |lines|
  {
    if |lines| == 1 {
      assert Terminated(lines)[1..] == [];
    } else {
      FlattenTerminated(lines[1..]);
      assert Terminated(lines)[1..] == Terminated(lines[1..]);
    }
  }

  /**
   * The round trip: a table of at least two rows of clean cells, none of
   * them a separator row, is read back by `parse_markdown_table` as
   * exactly the same rows.
   */
  lemma RoundTrip(rows: seq<seq<string>>)
    requires |rows| >= 2 && forall k :: 0 <= k < |rows| ==> CleanRow(rows[k])
    ensures ReportParser.ParseTable(TableMarkdown(rows)) == Some(rows)
  {
    var bars := TableBars(rows);
    var body := Join(bars, "\n");
    RowsOfTableBars(rows);
    TableBarsNoNewline(rows);
    TableBarsEnds(rows);
    FlattenTerminated(bars);
    AppendAssoc("\n\n" + body, "\n", "\n");
    AppendAssoc("\n\n", body, "\n");
    assert "\n" + "\n" == "\n\n";
    JoinEnds(bars);
    StripNewlinePadding(body);
    SplitJoinChar(bars, '\n');
    assert ReportParser.TableLines(TableMarkdown(rows)) == bars;
  }

  /** Every written line starts and ends with `|`. */
  lemma {:induction false} TableBarsEnds(rows: seq<seq<string>>)
    requires |rows| > 0
    ensures forall k :: 0 <= k < |TableBars(rows)| ==>
      |TableBars(rows)[k]| > 0 && TableBars(rows)[k][0] == '|' && Last(TableBars(rows)[k]) == '|'
  {
    BarEnds(EscapeRow(Last(rows)));
    if |rows| == 1 {
      BarEnds(Dashes(|rows[0]|));
    } else {
      TableBarsEnds(AllButLast(rows));
    }
  }

  lemma BarEnds(cells: seq<string>)
    ensures |Bar(cells)| > 0 && Bar(cells)[0] == '|' && Last(Bar(cells)) == '|'
  {
  }

  /** The blank lines around the table are stripped away. */
  lemma StripNewlinePadding(body: string)
    requires |body| > 0 && body[0] == '|' && body[|body| - 1] == '|'
    ensures PyStrip("\n\n" + body + "\n\n") == body
  {
    StripWithPadded("\n\n", body, "\n\n", IsPySpace);
  }

  /** The joined lines start and end with the bars' `|`. */
  lemma JoinEnds(bars: seq<string>)
    requires |bars| > 0 && forall k :: 0 <= k < |bars| ==> |bars[k]| > 0 && bars[k][0] == '|' && Last(bars[k]) == '|'
    ensures var j := Join(bars, "\n"); |j| > 0 && j[0] == '|' && j[|j| - 1] == '|'
  {
    JoinFirstLast(bars, "\n");
  }

  lemma {:induction false} JoinFirstLast(parts: seq<string>, sep: string)
    requires |parts| > 0 && |parts[0]| > 0 && |Last(parts)| > 0
    ensures var j := Join(parts, sep);
      |j| > 0 && j[0] == parts[0][0] && j[|j| - 1] == Last(Last(parts))
    decreases |parts|
  {
    if |parts| > 1 {
      assert Last(parts[1..]) == Last(parts);
      if |parts[1..]| > 0 && |parts[1..][0]| > 0 {
        JoinFirstLast(parts[1..], sep);
      } else {
        JoinLast(parts[1..], sep);
      }
    }
  }

  lemma {:induction false} JoinLast(parts: seq<string>, sep: string)
    requires |parts| > 0 && |Last(parts)| > 0
    ensures var j := Join(parts, sep); |j| > 0 && j[|j| - 1] == Last(Last(parts))
    decreases |parts|
  {
    if |parts| > 1 {
      assert Last(parts[1..]) == Last(parts);
      JoinLast(parts[1..], sep);
    }
  }
}
