/** The results grid: which rows `writerows` keeps, how it normalises each
    cell, and the loop that writes the kept rows to the CSV writer. */
module Grid {
  import opened Wrappers
  import opened Text
  import opened Page

  /** The Python values the colspan test compares. */
  datatype PyValue = PyNone | PyStr(s: string) | PyInt(i: int)

  /** `attrs.get(key)`: a parsed attribute value is a string; a missing one is None. */
  function AttrGet(attrs: Attrs, key: string): (r: PyValue)
    ensures r.PyStr? <==> key in attrs
    ensures r.PyStr? ==> r.s == attrs[key]
  {
    if key in attrs then PyStr(attrs[key]) else PyNone
  }

  /** `tr.td.attrs.get('colspan') == 7`: the attribute (a string, or None) is
      compared with the integer 7, which in Python is never equal, so the test
      never holds, whatever the attribute says. */
  function ColspanIsSeven(cell: Cell): (r: bool)
    ensures !r
  {
    AttrGet(cell.attrs, "colspan") == PyInt(7)
  }

  /** The pager/status banner phrase looked for in a row's markup. */
  const StatusBanner := "Displaying buildings "

  /** `writerows` skips the row: it has no `td`, its first `td` passes the colspan
      test, or its markup contains the status banner. */
  predicate Skipped(row: Row) {
    row.cells == [] || ColspanIsSeven(row.cells[0]) || Contains(row.markup, StatusBanner)
  }

  /** Since the colspan test never holds, a row is skipped exactly when it has no
      `td` or its markup contains the status banner. */
  lemma SkippedExactly(row: Row)
    ensures Skipped(row) <==> row.cells == [] || Contains(row.markup, StatusBanner)
  {
  }

  /** The characters `scrape.py` strips from cell edges: `' \r\n'`. */
  const ScrapeStripChars: set<char> := {' ', '\r', '\n'}

  /** The characters each script strips from cell edges: `strip(' \r\n')` in
      `scrape.py`, `strip()` (all whitespace) in `msr.py`. */
  function EdgeChars(v: Variant): (cs: set<char>)
    ensures cs <= Whitespace
  {
    if v == ScrapePy then ScrapeStripChars else Whitespace
  }

  /** `re.sub(r'\s+', ' ', td.text.strip(…))`: the cell text stripped of the
      variant's edge characters, each run of whitespace then made one space. */
  function CleanCell(v: Variant, text: string): string {
    Collapse(Strip(text, EdgeChars(v)))
  }

  /** A cleaned cell keeps every visible character of the cell, in order, and
      its only whitespace is single, separated spaces; in `msr.py` it also
      neither starts nor ends with one. */
  lemma CleanCellNormal(v: Variant, text: string)
    ensures SingleSpaced(CleanCell(v, text))
    ensures Visible(CleanCell(v, text)) == Visible(text)
    ensures v == MsrPy ==> var r := CleanCell(v, text); r == [] || (!IsSpace(r[0]) && !IsSpace(r[|r| - 1]))
  {
    var t := Strip(text, EdgeChars(v));
    CollapseSingleSpaced(t);
    CollapseKeepsVisible(t);
    VisibleStrip(text, EdgeChars(v));
    if t != [] && v == MsrPy {
      StripTrims(text, Whitespace);
      CollapseHead(t);
      CollapseLast(t);
    }
  }

  /** The cells of a kept row: `[clean(td) for td in tr.find_all('td')]`. */
  function CleanRow(v: Variant, row: Row): seq<string> {
    seq(|row.cells|, j requires 0 <= j < |row.cells| => CleanCell(v, row.cells[j].text))
  }

  /** A kept row has one cleaned cell per `td`, in order. */
  lemma CleanRowCells(v: Variant, row: Row)
    ensures |CleanRow(v, row)| == |row.cells|
    ensures forall j | 0 <= j < |row.cells| :: CleanRow(v, row)[j] == CleanCell(v, row.cells[j].text)
  {
  }

  /** What `writerows` writes for one row. */
  function Emit(v: Variant, row: Row): seq<seq<string>> {
    if Skipped(row) then [] else [CleanRow(v, row)]
  }

  /** The CSV rows `writerows` writes for the grid rows `rows`, in document order. */
  function GridRows(v: Variant, rows: seq<Row>): seq<seq<string>> {
    if rows == [] then [] else GridRows(v, rows[..|rows| - 1]) + Emit(v, rows[|rows| - 1])
  }

  /** Writing two runs of rows one after the other writes the rows of each in turn:
      the output keeps document order. */
  lemma {:induction false} GridRowsAppend(v: Variant, a: seq<Row>, b: seq<Row>)
    ensures GridRows(v, a + b) == GridRows(v, a) + GridRows(v, b)
    decreases |b|
  {
    if b != [] {
      var n := |b| - 1;
      assert (a + b)[..|a + b| - 1] == a + b[..n];
      GridRowsAppend(v, a, b[..n]);
    } else {
      assert a + b == a;
    }
  }

  /** Rows written in three runs are the same rows however the runs are grouped. */
  lemma RowsAssoc(a: seq<seq<string>>, b: seq<seq<string>>, c: seq<seq<string>>)
    ensures a + (b + c) == a + b + c
  {
  }

  /** One more row of the grid adds what `writerows` writes for it. */
  lemma GridRowsStep(v: Variant, rows: seq<Row>, i: nat)
    requires i < |rows|
    ensures GridRows(v, rows[..i + 1]) == GridRows(v, rows[..i]) + Emit(v, rows[i])
  {
    assert rows[..i + 1][..i] == rows[..i];
  }

  /** Rows as the CSV gets them: each a non-empty list of normalised cells. */
  predicate NormalRows(rows: seq<seq<string>>) {
    forall out | out in rows :: out != [] && forall c | c in out :: SingleSpaced(c)
  }

  /** Rows written one run after another are normal when both runs are. */
  lemma NormalRowsAppend(a: seq<seq<string>>, b: seq<seq<string>>)
    requires NormalRows(a) && NormalRows(b)
    ensures NormalRows(a + b)
  {
    assert forall out | out in a + b :: out in a || out in b;
  }

  /** Every row written is a non-empty list of normalised cells, one per `td`
      of a row that was not skipped. */
  lemma {:induction false} GridRowsShape(v: Variant, rows: seq<Row>)
    ensures NormalRows(GridRows(v, rows))
    ensures |GridRows(v, rows)| <= |rows|
  {
    if rows != [] {
      var row := rows[|rows| - 1];
      GridRowsShape(v, rows[..|rows| - 1]);
      CleanRowCells(v, row);
      forall j | 0 <= j < |row.cells| {
        CleanCellNormal(v, row.cells[j].text);
      }
    }
  }

  /** A skipped row writes nothing. */
  lemma EmitSkipped(v: Variant, row: Row)
    requires Skipped(row)
    ensures Emit(v, row) == []
  {
  }

  /** A kept row writes its cleaned cells. */
  lemma EmitKept(v: Variant, row: Row)
    requires !Skipped(row)
    ensures Emit(v, row) == [CleanRow(v, row)]
  {
  }

  /** The CSV writer: the rows written to it so far. */
  class RowWriter {
    var rows: seq<seq<string>>

    constructor ()
      ensures rows == []
    {
      rows := [];
    }

    /** `writer.writerow(row)`. */
    method WriteRow(row: seq<string>)
      modifies this
      ensures rows == old(rows) + [row]
    {
      rows := rows + [row];
    }
  }

  /** `writerows`: with no grid it raises and writes nothing; otherwise it writes
      GridRows of the grid's rows after what the writer already holds. */
  method WriteRows(v: Variant, writer: RowWriter, doc: Document) returns (o: Outcome<Error>)
    modifies writer
    ensures doc.grid.None? ==> o == Fail(MissingTable) && writer.rows == old(writer.rows)
    ensures doc.grid.Some? ==> o == Pass && writer.rows == old(writer.rows) + GridRows(v, doc.grid.value.rows)
  {
    if doc.grid.None? {
      return Fail(MissingTable);
    }
    var rows := doc.grid.value.rows;
    for i := 0 to |rows|
      invariant writer.rows == old(writer.rows) + GridRows(v, rows[..i])
    {
      var tr := rows[i];
      GridRowsStep(v, rows, i);
      if tr.cells == [] || ColspanIsSeven(tr.cells[0]) {
        // no td, or the colspan test
        EmitSkipped(v, tr);
      } else if Contains(tr.markup, StatusBanner) {
        // the status banner row
        EmitSkipped(v, tr);
      } else {
        EmitKept(v, tr);
        var cells := CleanRow(v, tr);
        writer.WriteRow(cells);
      }
    }
    assert rows[..|rows|] == rows;
    return Pass;
  }

  /** Both scripts clean a cell holding two words, with line breaks or spaces
      around them and any whitespace between them, to the two words separated by
      one space: `"  Foo\n\nBar  "` becomes `"Foo Bar"`. */
  lemma CleanCellTwoWords(v: Variant, pre: string, a: string, gap: string, b: string, post: string)
    requires forall i | 0 <= i < |pre| :: pre[i] in ScrapeStripChars
    requires forall i | 0 <= i < |post| :: post[i] in ScrapeStripChars
    requires a != [] && NoSpace(a) && b != [] && NoSpace(b)
    requires gap != [] && AllSpace(gap)
    ensures CleanCell(v, pre + a + gap + b + post) == a + " " + b
  {
    var mid := a + (gap + b);
    assert pre + a + gap + b + post == pre + mid + post;
    StripAround(pre, mid, post, EdgeChars(v));
    CollapseTwoWords(a, gap, b);
  }

  /** Both scripts clean a cell holding any number of words, with line
      breaks or spaces around them and any whitespace between them, to the
      words joined by one space each. */
  lemma CleanCellWords(v: Variant, pre: string, ws: seq<string>, gaps: seq<string>, post: string)
    requires forall i | 0 <= i < |pre| :: pre[i] in ScrapeStripChars
    requires forall i | 0 <= i < |post| :: post[i] in ScrapeStripChars
    requires WordsAndGaps(ws, gaps)
    ensures CleanCell(v, pre + Interleave(ws, gaps) + post) == JoinWords(ws)
  {
    var mid := Interleave(ws, gaps);
    InterleaveEnds(ws, gaps);
    assert IsSpace(mid[0]) == false && IsSpace(mid[|mid| - 1]) == false;
    StripAround(pre, mid, post, EdgeChars(v));
    CollapseWords(ws, gaps);
  }

  /** Where the scripts differ: whitespace in front of a word that starts with
      a character other than space, CR and LF (a tab, say) survives
      `strip(' \r\n')` and becomes a leading space in `scrape.py`, while `msr.py`
      strips it. */
  lemma CleanCellEdgeSpace(gap: string, w: string)
    requires gap != [] && AllSpace(gap) && gap[0] !in ScrapeStripChars
    requires w != [] && NoSpace(w)
    ensures CleanCell(ScrapePy, gap + w) == " " + w
    ensures CleanCell(MsrPy, gap + w) == w
  {
    ScrapeKeepsEdgeSpace(gap, w);
    MsrStripsEdgeSpace(gap, w);
  }

  lemma ScrapeKeepsEdgeSpace(gap: string, w: string)
    requires gap != [] && AllSpace(gap) && gap[0] !in ScrapeStripChars
    requires w != [] && NoSpace(w)
    ensures CleanCell(ScrapePy, gap + w) == " " + w
  {
    var s := gap + w;
    assert Strip(s, ScrapeStripChars) == s by {
      assert [] + s + [] == s;
      assert s[0] == gap[0] && s[|s| - 1] == w[|w| - 1];
      StripAround([], s, [], ScrapeStripChars);
    }
    CollapseGapWord(gap, w);
  }

  lemma MsrStripsEdgeSpace(gap: string, w: string)
    requires AllSpace(gap)
    requires w != [] && NoSpace(w)
    ensures CleanCell(MsrPy, gap + w) == w
  {
    assert Strip(gap + w, Whitespace) == w by {
      assert gap + w + [] == gap + w;
      StripAround(gap, w, [], Whitespace);
    }
    CollapseWord(w);
  }
}
