/**
 * The text side of the report generator: reading GitHub Flavored Markdown
 * pipe tables (section 4.10 of the GFM specification, the tables
 * extension) out of a message, splitting a message into text and table
 * elements, and the line-by-line formatter with its conclusion box.
 *
 * Python's `str.strip()`, `split` and `lower()` are those of the Strings
 * module (lowercasing and the `\d`/`isalnum` classes are ASCII).
 */
module ReportParser {
  import opened Common
  import opened Strings

  // ---------------------------------------------------------------------
  // parse_markdown_table
  // ---------------------------------------------------------------------

  /** `[s.strip() for s in parts]`. */
  function StripAll(parts: seq<string>): (r: seq<string>)
    ensures |r| == |parts| && forall k :: 0 <= k < |r| ==> r[k] == PyStrip(parts[k])
  {
    seq(|parts|, k requires 0 <= k < |parts| => PyStrip(parts[k]))
  }

  /** The cells of a table line: outer pipes stripped, split at `|`, each cell stripped. */
  function Cells(line: string): seq<string> {
    StripAll(Split(PyStripChar(line, '|'), "|"))
  }

  predicate DashesAndSpaces(cell: string) {
    forall i :: 0 <= i < |cell| ==> cell[i] == '-' || cell[i] == ' '
  }

  /**
   * A row whose non-empty cells are all made of dashes and spaces (a row
   * with no non-empty cell included): the header separator, dropped.
   */
  predicate SeparatorRow(cells: seq<string>) {
    forall k :: 0 <= k < |cells| ==> DashesAndSpaces(cells[k])
  }

  /** A line becomes a row when it holds a `|` and its cells are not a separator. */
  predicate KeptRow(line: string) {
    HasChar(line, '|') && !SeparatorRow(Cells(line))
  }

  /** The rows of `table_data` after the given lines. */
  function RowsOf(lines: seq<string>): seq<seq<string>> {
    if |lines| == 0 then []
    else RowsOf(AllButLast(lines)) + (if KeptRow(Last(lines)) then [Cells(Last(lines))] else [])
  }

  function TableLines(text: string): seq<string> {
    Split(PyStrip(text), "\n")
  }

  /** `parse_markdown_table(text)`: the rows, when there are at least two. */
  function ParseTable(text: string): Option<seq<seq<string>>> {
    var rows := RowsOf(TableLines(text));
    if |rows| >= 2 then Some(rows) else None
  }

  method ParseMarkdownTable(text: string) returns (r: Option<seq<seq<string>>>)
    ensures r == ParseTable(text)
  {
    var lines := TableLines(text);
    var tableData: seq<seq<string>> := [];
    for k := 0 to |lines|
      invariant tableData == RowsOf(lines[..k])
    {
      TakeNext(lines, k);
      SnocParts(lines[..k], lines[k]);
      var line := lines[k];
      if HasChar(line, '|') {
        var cells := Cells(line);
        if !SeparatorRow(cells) {
          tableData := tableData + [cells];
        }
      }
    }
    assert lines[..|lines|] == lines;
    if |tableData| >= 2 {
      return Some(tableData);
    }
    return None;
  }

  /** The rows of two runs of lines are those of each, in order. */
  lemma {:induction false} RowsOfAppend(a: seq<string>, b: seq<string>)
    ensures RowsOf(a + b) == RowsOf(a) + RowsOf(b)
    decreases |b|
  {
    if |b| == 0 {
      assert a + b == a;
    } else {
      assert AllButLast(a + b) == a + AllButLast(b) && Last(a + b) == Last(b);
      RowsOfAppend(a, AllButLast(b));
    }
  }

  /**
   * Every row is the cells of a line holding a `|`, and no row is a
   * separator; conversely every such line gives a row.
   */
  lemma {:induction false} RowsOfExact(lines: seq<string>)
    ensures forall row :: row in RowsOf(lines) ==>
      !SeparatorRow(row) && exists j :: 0 <= j < |lines| && KeptRow(lines[j]) && Cells(lines[j]) == row
    ensures forall j :: 0 <= j < |lines| && KeptRow(lines[j]) ==> Cells(lines[j]) in RowsOf(lines)
  {
    if |lines| > 0 {
      var init := AllButLast(lines);
      RowsOfExact(init);
      forall row | row in RowsOf(lines)
        ensures !SeparatorRow(row) && exists j :: 0 <= j < |lines| && KeptRow(lines[j]) && Cells(lines[j]) == row
      {
        if row in RowsOf(init) {
          var j :| 0 <= j < |init| && KeptRow(init[j]) && Cells(init[j]) == row;
          assert lines[j] == init[j];
        } else {
          assert KeptRow(lines[|lines| - 1]);
        }
      }
      forall j | 0 <= j < |lines| && KeptRow(lines[j])
        ensures Cells(lines[j]) in RowsOf(lines)
      {
        if j < |init| {
          assert init[j] == lines[j];
        }
      }
    }
  }

  /** A one-row table is no table; a GFM alignment cell such as ":---" is not a separator and stays a row. */
  lemma AlignmentCellsStay(cells: seq<string>, k: nat)
    requires k < |cells| && |cells[k]| > 0 && cells[k][0] == ':'
    ensures !SeparatorRow(cells)
  {
  }

  // ---------------------------------------------------------------------
  // parse_content_with_tables
  // ---------------------------------------------------------------------

  predicate HasAlnum(line: string) {
    exists i :: 0 <= i < |line| && IsAlnum(line[i])
  }

  /** A table line holds a `|` and either a `-` or a letter or digit. */
  predicate IsTableLine(line: string) {
    HasChar(line, '|') && (HasChar(line, '-') || HasAlnum(line))
  }

  /** An element of the result: `('text', …)` or `('table', rows)`. */
  datatype Element = TextElement(text: string) | TableElement(rows: seq<seq<string>>)

  /** An element as the scan builds it: a text element keeps its lines. */
  datatype Piece = TextPiece(lines: seq<string>) | TablePiece(rows: seq<seq<string>>)

  function Render(p: Piece): Element {
    match p
    case TextPiece(ls) => TextElement(Join(ls, "\n"))
    case TablePiece(rows) => TableElement(rows)
  }

  function RenderAll(ps: seq<Piece>): (es: seq<Element>)
    ensures |es| == |ps| && forall k :: 0 <= k < |es| ==> es[k] == Render(ps[k])
  {
    seq(|ps|, k requires 0 <= k < |ps| => Render(ps[k]))
  }

  /** `elements`, `current_text`, `in_table` and `table_lines`. */
  datatype Scan = Scan(pieces: seq<Piece>, current: seq<string>, inTable: bool, table: seq<string>)

  /** The elements a finished table run contributes: its table, when it parses. */
  function TableRun(table: seq<string>): seq<Piece> {
    match ParseTable(Join(table, "\n"))
    case Some(rows) => [TablePiece(rows)]
    case None => []
  }

  function ScanLine(st: Scan, line: string): Scan {
    if IsTableLine(line) then
      if !st.inTable then
        Scan(st.pieces + (if |st.current| > 0 then [TextPiece(st.current)] else []), [], true, st.table + [line])
      else st.(table := st.table + [line])
    else if st.inTable then
      Scan(st.pieces + TableRun(st.table), st.current + [line], false, [])
    else st.(current := st.current + [line])
  }

  function ScanLines(lines: seq<string>): Scan {
    if |lines| == 0 then Scan([], [], false, [])
    else ScanLine(ScanLines(AllButLast(lines)), Last(lines))
  }

  /** After the loop: the open table run, or else the pending text. */
  function Finish(st: Scan): seq<Piece> {
    if st.inTable && |st.table| > 0 then st.pieces + TableRun(st.table)
    else if |st.current| > 0 then st.pieces + [TextPiece(st.current)]
    else st.pieces
  }

  function ContentPieces(content: string): seq<Piece> {
    Finish(ScanLines(Split(content, "\n")))
  }

  method ParseContentWithTables(content: string) returns (elements: seq<Element>)
    ensures elements == RenderAll(ContentPieces(content))
  {
    var lines := Split(content, "\n");
    elements := [];
    var currentText: seq<string> := [];
    var inTable := false;
    var tableLines: seq<string> := [];
    for k := 0 to |lines|
      invariant Holds(ScanLines(lines[..k]), elements, currentText, inTable, tableLines)
    {
      TakeNext(lines, k);
      SnocParts(lines[..k], lines[k]);
      elements, currentText, inTable, tableLines :=
        ScanOne(ScanLines(lines[..k]), elements, currentText, inTable, tableLines, lines[k]);
    }
    TakeDrop(lines, |lines|);
    elements := FinishElements(ScanLines(lines), elements, currentText, inTable, tableLines);
  }

  /** After the loop: the open table run is rendered, or else the pending text. */
  method FinishElements(ghost st: Scan, elements0: seq<Element>, currentText: seq<string>, inTable: bool,
                        tableLines: seq<string>) returns (elements: seq<Element>)
    requires Holds(st, elements0, currentText, inTable, tableLines)
    ensures elements == RenderAll(Finish(st))
  {
    elements := elements0;
    if inTable && |tableLines| > 0 {
      var tableData := ParseMarkdownTable(Join(tableLines, "\n"));
      if tableData.Some? {
        elements := elements + [TableElement(tableData.value)];
      }
    } else if |currentText| > 0 {
      elements := elements + [TextElement(Join(currentText, "\n"))];
    }
  }

  /** The loop's variables hold the scan state `st`, with the pieces rendered. */
  predicate Holds(st: Scan, elements: seq<Element>, currentText: seq<string>, inTable: bool, tableLines: seq<string>) {
    elements == RenderAll(st.pieces) && currentText == st.current && inTable == st.inTable && tableLines == st.table
  }

  /** One pass of the loop over the lines: the rendered scan state advances by `line`. */
  method ScanOne(ghost st: Scan, elements0: seq<Element>, currentText0: seq<string>, inTable0: bool,
                 tableLines0: seq<string>, line: string)
    returns (elements: seq<Element>, currentText: seq<string>, inTable: bool, tableLines: seq<string>)
    requires Holds(st, elements0, currentText0, inTable0, tableLines0)
    ensures Holds(ScanLine(st, line), elements, currentText, inTable, tableLines)
  {
    elements, currentText, inTable, tableLines := elements0, currentText0, inTable0, tableLines0;
    if HasChar(line, '|') && (HasChar(line, '-') || HasAlnum(line)) {
      if !inTable {
        if |currentText| > 0 {
          elements := elements + [TextElement(Join(currentText, "\n"))];
          currentText := [];
        }
        inTable := true;
      }
      tableLines := tableLines + [line];
    } else {
      if inTable {
        var tableData := ParseMarkdownTable(Join(tableLines, "\n"));
        if tableData.Some? {
          elements := elements + [TableElement(tableData.value)];
        }
        tableLines := [];
        inTable := false;
      }
      currentText := currentText + [line];
    }
  }

  /** The lines the text pieces hold, in order. */
  function TextLinesOf(ps: seq<Piece>): seq<string> {
    if |ps| == 0 then []
    else TextLinesOf(AllButLast(ps)) + (match Last(ps) case TextPiece(ls) => ls case TablePiece(_) => [])
  }

  /** The lines that are not table lines, in order. */
  function NonTableLines(lines: seq<string>): seq<string> {
    if |lines| == 0 then []
    else NonTableLines(AllButLast(lines)) + (if IsTableLine(Last(lines)) then [] else [Last(lines)])
  }

  predicate WellFormedPieces(ps: seq<Piece>) {
    forall k :: 0 <= k < |ps| ==>
      (ps[k].TablePiece? ==> |ps[k].rows| >= 2) && (ps[k].TextPiece? ==> |ps[k].lines| > 0)
  }

  lemma TextLinesSnoc(ps: seq<Piece>, p: Piece)
    ensures TextLinesOf(ps + [p]) == TextLinesOf(ps) + (match p case TextPiece(ls) => ls case TablePiece(_) => [])
  {
    SnocParts(ps, p);
  }

  lemma TextLinesOfTableRun(ps: seq<Piece>, table: seq<string>)
    ensures TextLinesOf(ps + TableRun(table)) == TextLinesOf(ps)
    ensures WellFormedPieces(ps) ==> WellFormedPieces(ps + TableRun(table))
  {
    if TableRun(table) != [] {
      TextLinesSnoc(ps, TableRun(table)[0]);
    } else {
      assert ps + TableRun(table) == ps;
    }
  }

  /** What the scan keeps, given the non-table lines `nt` seen so far. */
  predicate ScanKeeps(st: Scan, nt: seq<string>) {
    TextLinesOf(st.pieces) + st.current == nt
    && WellFormedPieces(st.pieces)
    && (st.inTable ==> st.current == [] && |st.table| > 0)
    && (!st.inTable ==> st.table == [])
  }

  lemma ScanLineKeeps(st: Scan, nt: seq<string>, line: string)
    requires ScanKeeps(st, nt)
    ensures ScanKeeps(ScanLine(st, line), nt + (if IsTableLine(line) then [] else [line]))
  {
    if IsTableLine(line) {
      if st.inTable {
        assert nt + [] == nt;
      } else {
        TableRunOpens(st, nt, line);
      }
    } else if st.inTable {
      TableRunCloses(st, nt, line);
    }
  }

  /** A first table line moves the pending text, if any, into a text piece. */
  lemma TableRunOpens(st: Scan, nt: seq<string>, line: string)
    requires ScanKeeps(st, nt) && IsTableLine(line) && !st.inTable
    ensures ScanKeeps(ScanLine(st, line), nt + [])
  {
    assert st.table + [line] == [line];
    PendingMoved(st.pieces, st.current, nt, [line]);
    assert nt + [] == nt;
  }

  lemma PendingMoved(pieces: seq<Piece>, current: seq<string>, nt: seq<string>, table: seq<string>)
    requires TextLinesOf(pieces) + current == nt && WellFormedPieces(pieces) && |table| > 0
    ensures ScanKeeps(Scan(pieces + (if |current| > 0 then [TextPiece(current)] else []), [], true, table), nt)
  {
    if |current| > 0 {
      TextLinesSnoc(pieces, TextPiece(current));
      WellFormedSnoc(pieces, TextPiece(current));
    } else {
      assert pieces + [] == pieces;
    }
  }

  /** The first line after a table run adds the run's table, if it parses, and starts the pending text. */
  lemma TableRunCloses(st: Scan, nt: seq<string>, line: string)
    requires ScanKeeps(st, nt) && !IsTableLine(line) && st.inTable
    ensures ScanKeeps(ScanLine(st, line), nt + [line])
  {
    TextLinesOfTableRun(st.pieces, st.table);
    assert st.current == [] && TextLinesOf(st.pieces) + [] == nt;
    var next := Scan(st.pieces + TableRun(st.table), [line], false, []);
    assert ScanLine(st, line) == next;
    assert TextLinesOf(next.pieces) + next.current == nt + [line];
  }

  lemma WellFormedSnoc(ps: seq<Piece>, p: Piece)
    requires WellFormedPieces(ps) && (p.TablePiece? ==> |p.rows| >= 2) && (p.TextPiece? ==> |p.lines| > 0)
    ensures WellFormedPieces(ps + [p])
  {
    assert forall k :: 0 <= k < |ps| ==> (ps + [p])[k] == ps[k];
  }

  /**
   * The text pieces and the pending text hold exactly the non-table lines
   * so far; an open table run has at least one line and no pending text.
   */
  lemma {:induction false} ScanInvariant(lines: seq<string>)
    ensures ScanKeeps(ScanLines(lines), NonTableLines(lines))
  {
    if |lines| > 0 {
      ScanInvariant(AllButLast(lines));
      ScanLineKeeps(ScanLines(AllButLast(lines)), NonTableLines(AllButLast(lines)), Last(lines));
    }
  }

  /**
   * Every non-table line is in exactly one text element, in the original
   * order; every table has a header and at least one row; no text element
   * is empty of lines.
   */
  lemma ContentKeepsText(content: string)
    ensures TextLinesOf(ContentPieces(content)) == NonTableLines(Split(content, "\n"))
    ensures WellFormedPieces(ContentPieces(content))
  {
    var lines := Split(content, "\n");
    ScanInvariant(lines);
    var st := ScanLines(lines);
    if st.inTable && |st.table| > 0 {
      TextLinesOfTableRun(st.pieces, st.table);
    } else if |st.current| > 0 {
      TextLinesSnoc(st.pieces, TextPiece(st.current));
    } else {
      assert st.current == [];
      assert TextLinesOf(st.pieces) + [] == TextLinesOf(st.pieces);
    }
  }

  /** A table run that does not parse leaves no trace: the text before and after it become two elements. */
  lemma DroppedTableSplitsText(before: string, run: string, after: string)
    requires !IsTableLine(before) && !IsTableLine(after) && IsTableLine(run)
    requires ParseTable(run).None?
    ensures Finish(ScanLines([before, run, after])) == [TextPiece([before]), TextPiece([after])]
  {
    assert AllButLast([before, run, after]) == [before, run];
    assert AllButLast([before, run]) == [before];
    assert AllButLast([before]) == [];
    assert ScanLines([before]) == Scan([], [before], false, []);
    assert ScanLines([before, run]) == Scan([TextPiece([before])], [], true, [run]);
    assert Join([run], "\n") == run;
    assert TableRun([run]) == [];
    assert ScanLines([before, run, after]) == Scan([TextPiece([before])], [after], false, []);
  }

  // ---------------------------------------------------------------------
  // clean_text_formatting
  // ---------------------------------------------------------------------

  const H3Open: string := "<font size=\"12\" color=\"#333333\"><b>"
  const H2Open: string := "<font size=\"14\" color=\"#004C99\"><b>"
  const H1Open: string := "<font size=\"18\" color=\"#003366\"><b>"
  const HeaderClose: string := "</b></font>"

  /** The length of "conclusion:" and of "conclution:". */
  const LabelLength: nat := 11

  predicate RomanChar(c: char) {
    c == 'i' || c == 'v' || c == 'x' || c == 'l' || c == 'c' || c == 'd' || c == 'm'
  }

  predicate RomanCharAnyCase(c: char) {
    RomanChar(LowerChar(c))
  }

  /** `^[ivxlcdm]+\)`, with the case of the letters ignored when `ignoreCase`. */
  predicate RomanItem(line: string, ignoreCase: bool) {
    var n := if ignoreCase then LeadingCount(line, RomanCharAnyCase) else LeadingCount(line, RomanChar);
    1 <= n < |line| && line[n] == ')'
  }

  /** `^\d+\)`. */
  predicate DigitItem(line: string) {
    var n := LeadingCount(line, IsAsciiDigit);
    1 <= n < |line| && line[n] == ')'
  }

  /** `^[a-z]\)`. */
  predicate LetterItem(line: string) {
    |line| >= 2 && 'a' <= line[0] <= 'z' && line[1] == ')'
  }

  /** `^[ivxlcdm]+\)|^\d+\)|^[a-z]\)|^•|^-|^\*`: a list item or a bullet. */
  predicate ListPrefixed(line: string) {
    RomanItem(line, false) || DigitItem(line) || LetterItem(line)
    || StartsWith(line, "•") || StartsWith(line, "-") || StartsWith(line, "*")
  }

  predicate StartsWithLabel(lower: string) {
    StartsWith(lower, "conclusion:") || StartsWith(lower, "conclution:")
  }

  /**
   * `is_standalone_conclusion` for a line the loop has already stripped,
   * with all three of its clauses; stripping it again changes nothing
   * (`PyStripIdempotent`), so the list pattern is matched on the line itself.
   */
  predicate Standalone(line: string) {
    var lower := Lower(line);
    StartsWithLabel(lower) && !StartsWith(lower, "conclusion of") && !ListPrefixed(line)
  }

  lemma PyStripIdempotent(s: string)
    ensures PyStrip(PyStrip(s)) == PyStrip(s)
  {
    StripWithNoop(PyStrip(s), IsPySpace);
  }

  /**
   * On a stripped line the last two clauses never decide: a line whose
   * lowercase starts with either label starts with "c" or "C" followed by
   * "o" or "O", which no list or bullet pattern accepts, and it has ':'
   * where "conclusion of" has ' '. A standalone conclusion is exactly a
   * line starting with one of the two labels, in any case.
   */
  lemma StandaloneIsLabel(line: string)
    ensures Standalone(line) <==> StartsWithLabel(Lower(line))
  {
    var lower := Lower(line);
    if StartsWithLabel(lower) {
      assert lower[0] == LowerChar(line[0]) && lower[1] == LowerChar(line[1]);
      assert lower[0] == 'c' && lower[1] == 'o' && lower[10] == ':';
      assert "conclusion of"[10] == ' ';
      assert line[1] != ')' && !RomanChar(line[1]) && !IsAsciiDigit(line[0]);
      assert line[..1] == [line[0]];
      LeadingCountSpec(line, RomanChar);
      LeadingCountSpec(line, IsAsciiDigit);
    }
  }

  /** `^\d+\.\s*Indicator:`, case ignored. */
  predicate NumberedIndicator(line: string) {
    var n := LeadingCount(line, IsAsciiDigit);
    n >= 1 && n < |line| && line[n] == '.'
    && var rest := line[n + 1..];
    StartsWith(Lower(rest[LeadingCount(rest, IsPySpace)..]), "indicator:")
  }

  /** A line that closes the conclusion box. */
  predicate EndsConclusion(line: string) {
    StartsWith(line, "##") || NumberedIndicator(line)
    || Lower(line) == "indicator assessment" || Lower(line) == "indicator assesment"
  }

  /** `^\d+\.\s`. */
  predicate NumberedItem(line: string) {
    var n := LeadingCount(line, IsAsciiDigit);
    n >= 1 && n + 1 < |line| && line[n] == '.' && IsPySpace(line[n + 1])
  }

  /** The list indentation applied after the inline formatting. */
  function Indent(line: string): string {
    if StartsWith(line, "- ") || StartsWith(line, "* ") then "  • " + line[2..]
    else if StartsWith(line, "• ") then "  " + line
    else if NumberedItem(line) then "  " + line
    else if RomanItem(line, true) then "    " + line
    else line
  }

  /**
   * One line outside the conclusion box. The inline markup (the bold,
   * italic and code substitutions and the check-mark colouring) and the
   * keyword label styling are parameters: `inlineMarkup` is applied before the
   * list indentation and `labels` after it.
   */
  function FormatLine(line: string, inlineMarkup: string -> string, labels: string -> string): string {
    if StartsWith(line, "### ") then H3Open + PyStrip(line[4..]) + HeaderClose
    else if StartsWith(line, "## ") then H2Open + PyStrip(line[3..]) + HeaderClose
    else if StartsWith(line, "# ") then H1Open + PyStrip(line[2..]) + HeaderClose
    else labels(Indent(inlineMarkup(line)))
  }

  /** The three header levels, and no header for four or more '#'. */
  lemma HeaderLevels(line: string, inlineMarkup: string -> string, labels: string -> string)
    ensures StartsWith(line, "### ") ==> FormatLine(line, inlineMarkup, labels) == H3Open + PyStrip(line[4..]) + HeaderClose
    ensures StartsWith(line, "## ") ==> FormatLine(line, inlineMarkup, labels) == H2Open + PyStrip(line[3..]) + HeaderClose
    ensures StartsWith(line, "# ") ==> FormatLine(line, inlineMarkup, labels) == H1Open + PyStrip(line[2..]) + HeaderClose
    ensures StartsWith(line, "####") ==> FormatLine(line, inlineMarkup, labels) == labels(Indent(inlineMarkup(line)))
  {
    if StartsWith(line, "## ") {
      assert line[2] == ' ';
      assert !StartsWith(line, "### ") by { assert line[2] != "### "[2]; }
    }
    if StartsWith(line, "# ") {
      assert line[1] == ' ';
      assert !StartsWith(line, "### ") by { assert line[1] != "### "[1]; }
      assert !StartsWith(line, "## ") by { assert line[1] != "## "[1]; }
    }
    if StartsWith(line, "####") {
      assert line[1] == '#' && line[2] == '#' && line[3] == '#';
      assert !StartsWith(line, "### ") by { assert line[3] != "### "[3]; }
      assert !StartsWith(line, "## ") by { assert line[2] != "## "[2]; }
      assert !StartsWith(line, "# ") by { assert line[1] != "# "[1]; }
    }
  }

  /** A "- " or "* " item becomes a "  • " bullet. */
  lemma DashAndStarBullets(rest: string)
    ensures Indent("- " + rest) == "  • " + rest
    ensures Indent("* " + rest) == "  • " + rest
  {
    assert ("- " + rest)[..2] == "- " && ("- " + rest)[2..] == rest;
    assert ("* " + rest)[..2] == "* " && ("* " + rest)[2..] == rest;
  }

  /** What the generator yields. */
  datatype Chunk = TextChunk(markup: string) | ConclusionChunk(text: string)

  /** The yielded chunks, `formatted_lines`, `conclusion_text` and `in_conclusion`. */
  datatype Cleaning = Cleaning(out: seq<Chunk>, formatted: seq<string>, conclusion: seq<string>, inConclusion: bool)

  /** The pending formatted lines as a chunk, if there are any. */
  function PendingText(formatted: seq<string>): seq<Chunk> {
    if |formatted| > 0 then [TextChunk(Join(formatted, "<br/>"))] else []
  }

  /** The pending conclusion lines as a chunk, if there are any. */
  function PendingConclusion(conclusion: seq<string>): seq<Chunk> {
    if |conclusion| > 0 then [ConclusionChunk(Join(conclusion, " "))] else []
  }

  /** The text after the 11-character label, stripped. */
  function LabelRest(line: string): string {
    if |line| >= LabelLength then PyStrip(line[LabelLength..]) else ""
  }

  function CleanLine(st: Cleaning, raw: string, inlineMarkup: string -> string, labels: string -> string): Cleaning {
    var line := PyStrip(raw);
    if line == "" then
      if !st.inConclusion then st.(formatted := st.formatted + [""]) else st.(conclusion := st.conclusion + [""])
    else if Standalone(line) then
      var start := LabelRest(line);
      Cleaning(st.out + PendingText(st.formatted), [], if start != "" then [start] else [], true)
    else if st.inConclusion && !EndsConclusion(line) then
      st.(conclusion := st.conclusion + [line])
    else
      var closed := if st.inConclusion then Cleaning(st.out + PendingConclusion(st.conclusion), st.formatted, [], false)
                    else st;
      closed.(formatted := closed.formatted + [FormatLine(line, inlineMarkup, labels)])
  }

  /** A line that neither opens nor closes a conclusion box. */
  predicate Collected(raw: string) {
    !Standalone(PyStrip(raw)) && !EndsConclusion(PyStrip(raw))
  }

  /** An open box collects such a line. */
  lemma CleanLineInside(st: Cleaning, raw: string, inlineMarkup: string -> string, labels: string -> string)
    requires st.inConclusion && Collected(raw)
    ensures CleanLine(st, raw, inlineMarkup, labels) == st.(conclusion := st.conclusion + [PyStrip(raw)])
  {
  }

  function CleanLines(st: Cleaning, raws: seq<string>, inlineMarkup: string -> string, labels: string -> string): Cleaning
    decreases |raws|
  {
    if |raws| == 0 then st
    else CleanLine(CleanLines(st, AllButLast(raws), inlineMarkup, labels), Last(raws), inlineMarkup, labels)
  }

  const Fresh: Cleaning := Cleaning([], [], [], false)

  /** After the loop: the open conclusion, then the pending text. */
  function CleanFinish(st: Cleaning): seq<Chunk> {
    st.out + (if st.inConclusion then PendingConclusion(st.conclusion) else []) + PendingText(st.formatted)
  }

  /** Everything `clean_text_formatting(text)` yields, in order. */
  function CleanChunks(text: string, inlineMarkup: string -> string, labels: string -> string): seq<Chunk> {
    CleanFinish(CleanLines(Fresh, Split(text, "\n"), inlineMarkup, labels))
  }

  /** One pass of the loop body of `clean_text_formatting`. */
  method CleanStep(st: Cleaning, raw: string, inlineMarkup: string -> string, labels: string -> string)
    returns (next: Cleaning)
    ensures next == CleanLine(st, raw, inlineMarkup, labels)
  {
    var chunks, formattedLines, conclusionText, inConclusion := st.out, st.formatted, st.conclusion, st.inConclusion;
    var line := PyStrip(raw);
    if line == "" {
      if !inConclusion {
        formattedLines := formattedLines + [""];
      } else {
        conclusionText := conclusionText + [""];
      }
    } else if Standalone(line) {
      if |formattedLines| > 0 {
        chunks := chunks + [TextChunk(Join(formattedLines, "<br/>"))];
        formattedLines := [];
      }
      inConclusion := true;
      var conclusionStart := LabelRest(line);
      if conclusionStart != "" {
        conclusionText := [conclusionStart];
      } else {
        conclusionText := [];
      }
      assert chunks == st.out + PendingText(st.formatted);
    } else if inConclusion && !EndsConclusion(line) {
      conclusionText := conclusionText + [line];
    } else {
      ghost var closed := if st.inConclusion then Cleaning(st.out + PendingConclusion(st.conclusion), st.formatted, [], false)
                          else st;
      if inConclusion {
        if |conclusionText| > 0 {
          chunks := chunks + [ConclusionChunk(Join(conclusionText, " "))];
          conclusionText := [];
        }
        inConclusion := false;
      }
      assert Cleaning(chunks, formattedLines, conclusionText, inConclusion) == closed;
      formattedLines := formattedLines + [FormatLine(line, inlineMarkup, labels)];
    }
    next := Cleaning(chunks, formattedLines, conclusionText, inConclusion);
  }

  method CleanTextFormatting(text: string, inlineMarkup: string -> string, labels: string -> string)
    returns (chunks: seq<Chunk>)
    ensures chunks == CleanChunks(text, inlineMarkup, labels)
  {
    var lines := Split(text, "\n");
    var st := Fresh;
    for k := 0 to |lines|
      invariant st == CleanLines(Fresh, lines[..k], inlineMarkup, labels)
    {
      assert AllButLast(lines[..k + 1]) == lines[..k] && Last(lines[..k + 1]) == lines[k];
      st := CleanStep(st, lines[k], inlineMarkup, labels);
    }
    assert lines[..|lines|] == lines;
    chunks := st.out;
    if st.inConclusion && |st.conclusion| > 0 {
      chunks := chunks + [ConclusionChunk(Join(st.conclusion, " "))];
    }
    if |st.formatted| > 0 {
      chunks := chunks + [TextChunk(Join(st.formatted, "<br/>"))];
    }
  }

  /** The states the loop reaches: formatted lines wait only outside the box, conclusion lines only inside. */
  predicate Reachable(st: Cleaning) {
    (st.inConclusion ==> st.formatted == []) && (!st.inConclusion ==> st.conclusion == [])
  }

  lemma {:induction false} CleanLinesReachable(st: Cleaning, raws: seq<string>, inlineMarkup: string -> string,
                                               labels: string -> string)
    requires Reachable(st)
    ensures Reachable(CleanLines(st, raws, inlineMarkup, labels))
    decreases |raws|
  {
    if |raws| > 0 {
      CleanLinesReachable(st, AllButLast(raws), inlineMarkup, labels);
    }
  }

  /**
   * A second label line while a conclusion is open yields nothing: the
   * pending conclusion text is replaced by the new line's text.
   */
  lemma SecondConclusionReplaces(st: Cleaning, raw: string, inlineMarkup: string -> string, labels: string -> string)
    requires Reachable(st) && st.inConclusion && Standalone(PyStrip(raw))
    ensures var next := CleanLine(st, raw, inlineMarkup, labels);
      next.out == st.out && next.inConclusion
      && next.conclusion == (if LabelRest(PyStrip(raw)) != "" then [LabelRest(PyStrip(raw))] else [])
  {
  }

  lemma StripAllSnoc(raws: seq<string>)
    requires |raws| > 0
    ensures StripAll(raws) == StripAll(AllButLast(raws)) + [PyStrip(Last(raws))]
  {
  }

  /** Every line of `raws` is collected. */
  predicate AllCollected(raws: seq<string>)
    decreases |raws|
  {
    |raws| == 0 || (AllCollected(AllButLast(raws)) && Collected(Last(raws)))
  }

  lemma {:induction false} AllCollectedOf(raws: seq<string>)
    requires forall k :: 0 <= k < |raws| ==> Collected(raws[k])
    ensures AllCollected(raws)
    decreases |raws|
  {
    if |raws| > 0 {
      var init := AllButLast(raws);
      assert forall k :: 0 <= k < |init| ==> init[k] == raws[k];
      AllCollectedOf(init);
      assert Collected(raws[|raws| - 1]);
    }
  }

  /** Inside the box every line that neither opens nor closes a box is collected, stripped, as it is. */
  lemma {:induction false} ConclusionCollects(st: Cleaning, raws: seq<string>, inlineMarkup: string -> string,
                                              labels: string -> string)
    requires st.inConclusion && AllCollected(raws)
    ensures CleanLines(st, raws, inlineMarkup, labels) == st.(conclusion := st.conclusion + StripAll(raws))
    decreases |raws|
  {
    if |raws| > 0 {
      var init, x := AllButLast(raws), Last(raws);
      ConclusionCollects(st, init, inlineMarkup, labels);
      CleanLineInside(CleanLines(st, init, inlineMarkup, labels), x, inlineMarkup, labels);
      StripAllSnoc(raws);
      assert st.conclusion + StripAll(raws) == (st.conclusion + StripAll(init)) + [PyStrip(x)];
    } else {
      assert st.conclusion + StripAll(raws) == st.conclusion;
    }
  }

  /** A closing line yields the collected conclusion, joined with single spaces, and is then formatted like any other. */
  lemma ConclusionCloses(st: Cleaning, raw: string, inlineMarkup: string -> string, labels: string -> string)
    requires st.inConclusion && PyStrip(raw) != "" && !Standalone(PyStrip(raw)) && EndsConclusion(PyStrip(raw))
    ensures CleanLine(st, raw, inlineMarkup, labels)
      == Cleaning(st.out + PendingConclusion(st.conclusion), st.formatted + [FormatLine(PyStrip(raw), inlineMarkup, labels)], [], false)
  {
  }

  /**
   * A whole box: the label line with text `s` after the label, body lines,
   * and a closing line give one conclusion chunk, `s` and the stripped body
   * lines joined by single spaces, while the closing line waits formatted.
   */
  lemma ConclusionBox(st: Cleaning, opening: string, body: seq<string>, closing: string,
                      inlineMarkup: string -> string, labels: string -> string)
    requires Reachable(st) && Standalone(PyStrip(opening)) && LabelRest(PyStrip(opening)) != ""
    requires forall k :: 0 <= k < |body| ==> Collected(body[k])
    requires PyStrip(closing) != "" && !Standalone(PyStrip(closing)) && EndsConclusion(PyStrip(closing))
    ensures var raws := [opening] + body + [closing];
      CleanLines(st, raws, inlineMarkup, labels).out
        == st.out + PendingText(st.formatted)
           + [ConclusionChunk(Join([LabelRest(PyStrip(opening))] + StripAll(body), " "))]
      && CleanLines(st, raws, inlineMarkup, labels).formatted == [FormatLine(PyStrip(closing), inlineMarkup, labels)]
  {
    var raws := [opening] + body + [closing];
    var s1 := CleanLine(st, opening, inlineMarkup, labels);
    assert s1 == Cleaning(st.out + PendingText(st.formatted), [], [LabelRest(PyStrip(opening))], true);
    assert CleanLines(st, [opening], inlineMarkup, labels) == s1 by {
      assert AllButLast([opening]) == [];
    }
    CleanLinesAppend(st, [opening], body, inlineMarkup, labels);
    AllCollectedOf(body);
    ConclusionCollects(s1, body, inlineMarkup, labels);
    var s2 := s1.(conclusion := s1.conclusion + StripAll(body));
    CleanLinesAppend(st, [opening] + body, [closing], inlineMarkup, labels);
    assert CleanLines(s2, [closing], inlineMarkup, labels) == CleanLine(s2, closing, inlineMarkup, labels) by {
      assert AllButLast([closing]) == [];
    }
    ConclusionCloses(s2, closing, inlineMarkup, labels);
  }

  lemma {:induction false} CleanLinesAppend(st: Cleaning, a: seq<string>, b: seq<string>, inlineMarkup: string -> string,
                                            labels: string -> string)
    ensures CleanLines(st, a + b, inlineMarkup, labels) == CleanLines(CleanLines(st, a, inlineMarkup, labels), b, inlineMarkup, labels)
    decreases |b|
  {
    if |b| == 0 {
      assert a + b == a;
    } else {
      assert AllButLast(a + b) == a + AllButLast(b) && Last(a + b) == Last(b);
      CleanLinesAppend(st, a, AllButLast(b), inlineMarkup, labels);
    }
  }
}
