/** `formatTableData` as a whole (src/App.jsx:54-83): the row grouping, the
    per-row sort by left edge, and the projection of each line to its text. */
module TableFormat {
  import opened Wrappers
  import opened Ocr
  import opened RowGrouping
  import opened RowSort

  /** `row.map(cell => cell.text)` (src/App.jsx:82). */
  function CellTexts(row: seq<Line>): seq<string>
  {
    seq(|row|, j requires 0 <= j < |row| => row[j].text)
  }

  /** `rows.map(row => row.map(cell => cell.text))` (src/App.jsx:82). */
  function TableTexts(rows: seq<seq<Line>>): seq<seq<string>>
  {
    seq(|rows|, r requires 0 <= r < |rows| => CellTexts(rows[r]))
  }

  /** Every row sorted by left edge (src/App.jsx:78-80). */
  function SortRows(rows: seq<seq<Line>>): seq<seq<Line>>
  {
    seq(|rows|, r requires 0 <= r < |rows| => SortByX(rows[r]))
  }

  /** The rows of lines as `formatTableData` leaves them before the
      projection to text: grouped in input order, then each sorted. */
  function ArrangedRows(lines: seq<Line>): seq<seq<Line>>
  {
    SortRows(Rows(lines))
  }

  /** Whether `formatTableData` has lines to work on (src/App.jsx:55). */
  predicate HasLines(data: Option<Page>)
  {
    data.Some? && data.value.lines.Some? && |data.value.lines.value| > 0
  }

  /** What `formatTableData` returns: `null` when the result, its lines or
      every line is missing, and otherwise the texts of the arranged rows. */
  function FormatTable(data: Option<Page>): (table: Option<seq<seq<string>>>)
    ensures table.None? <==> (data.None? || data.value.lines.None? || data.value.lines.value == [])
  {
    if HasLines(data) then Some(TableTexts(ArrangedRows(data.value.lines.value))) else None
  }

  lemma {:induction false} SortRowsPermutes(rows: seq<seq<Line>>)
    ensures multiset(Flatten(SortRows(rows))) == multiset(Flatten(rows))
    decreases |rows|
  {
    if rows != [] {
      SortRowsPermutes(rows[1..]);
      SortByXPermutes(rows[0]);
      assert SortRows(rows)[1..] == SortRows(rows[1..]);
    }
  }

  lemma {:induction false} TableTextsCells(rows: seq<seq<Line>>)
    ensures |Flatten(TableTexts(rows))| == |Flatten(rows)|
    decreases |rows|
  {
    if rows != [] {
      TableTextsCells(rows[1..]);
      assert TableTexts(rows)[1..] == TableTexts(rows[1..]);
    }
  }

  /** What the grouping and the sort give, row by row: the rows of
      Rows(lines) in the same order, none empty, each a permutation of its
      group, in non-decreasing `x0` order, stable for equal `x0`, with every
      line within the tolerance of the group's first line in input order;
      and all together exactly the input lines, each once. */
  lemma ArrangedRowsCorrect(lines: seq<Line>)
    ensures |ArrangedRows(lines)| == |Rows(lines)|
    ensures forall r | 0 <= r < |ArrangedRows(lines)| :: ArrangedRows(lines)[r] != []
    ensures forall r | 0 <= r < |ArrangedRows(lines)| :: SortedByX(ArrangedRows(lines)[r])
    ensures forall r | 0 <= r < |ArrangedRows(lines)| ::
      multiset(ArrangedRows(lines)[r]) == multiset(Rows(lines)[r])
    ensures forall r, x | 0 <= r < |ArrangedRows(lines)| ::
      WithX(ArrangedRows(lines)[r], x) == WithX(Rows(lines)[r], x)
    ensures forall r, l | 0 <= r < |ArrangedRows(lines)| && l in ArrangedRows(lines)[r] ::
      !OpensRow(l, Rows(lines)[r][0].bbox.y0)
    ensures multiset(Flatten(ArrangedRows(lines))) == multiset(lines)
  {
    var rows, arranged := Rows(lines), ArrangedRows(lines);
    RowsIsRowGrouping(lines);
    forall r | 0 <= r < |arranged|
      ensures multiset(arranged[r]) == multiset(rows[r])
      ensures arranged[r] != []
      ensures SortedByX(arranged[r])
    {
      SortByXPermutes(rows[r]);
      SortByXSorted(rows[r]);
      assert rows[r][0] in multiset(arranged[r]);
    }
    forall r, x | 0 <= r < |arranged|
      ensures WithX(arranged[r], x) == WithX(rows[r], x)
    {
      SortByXStable(rows[r], x);
    }
    forall r, l | 0 <= r < |arranged| && l in arranged[r]
      ensures !OpensRow(l, rows[r][0].bbox.y0)
    {
      assert l in multiset(rows[r]);
      var j :| 0 <= j < |rows[r]| && rows[r][j] == l;
    }
    SortRowsPermutes(rows);
  }

  /** The table `formatTableData` returns when there are lines: one row of
      texts per row of Rows(lines), none empty, cell j of row r the text of
      line j of the arranged row, and as many cells as input lines. */
  lemma FormatTableShape(data: Option<Page>)
    requires HasLines(data)
    ensures FormatTable(data).Some?
    ensures var lines, table := data.value.lines.value, FormatTable(data).value;
      && |table| == |Rows(lines)|
      && (forall r | 0 <= r < |table| :: |table[r]| == |ArrangedRows(lines)[r]| > 0)
      && (forall r, j | 0 <= r < |table| && 0 <= j < |table[r]| :: table[r][j] == ArrangedRows(lines)[r][j].text)
      && |Flatten(table)| == |lines|
  {
    var lines := data.value.lines.value;
    ArrangedRowsCorrect(lines);
    TableTextsCells(ArrangedRows(lines));
    assert |multiset(Flatten(ArrangedRows(lines)))| == |multiset(lines)|;
  }

  /** When every line is within the tolerance of the first one, the table is
      a single row: all the lines' texts, sorted by left edge. */
  lemma OneBandOneRow(transcript: string, lines: seq<Line>)
    requires lines != []
    requires forall i | 0 <= i < |lines| :: !OpensRow(lines[i], lines[0].bbox.y0)
    ensures FormatTable(Some(Page(transcript, Some(lines)))) == Some([CellTexts(SortByX(lines))])
  {
    SingleRow(lines);
    var arranged := ArrangedRows(lines);
    assert arranged == [SortByX(lines)];
    assert TableTexts(arranged) == [CellTexts(SortByX(lines))];
    assert HasLines(Some(Page(transcript, Some(lines))));
  }

  /** The loop form of `formatTableData` (src/App.jsx:54-83): the grouping
      pass, then every row copied to an array and sorted in place, then the
      projection to text. */
  method FormatTableData(data: Option<Page>) returns (table: Option<seq<seq<string>>>)
    ensures table == FormatTable(data)
  {
    if data.None? || data.value.lines.None? || |data.value.lines.value| == 0 {
      return None;
    }
    var lines := data.value.lines.value;
    var rows := GroupLines(lines);
    var sorted: seq<seq<Line>> := [];
    for r := 0 to |rows|
      invariant |sorted| == r
      invariant forall k | 0 <= k < r :: sorted[k] == SortByX(rows[k])
    {
      var row := rows[r];
      var a := new Line[|row|](j requires 0 <= j < |row| => row[j]);
      assert a[..] == row;
      SortRowInPlace(a);
      sorted := sorted + [a[..]];
    }
    assert sorted == SortRows(rows);
    table := Some(TableTexts(sorted));
  }
}
