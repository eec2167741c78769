/** The first half of `formatTableData` (src/App.jsx:57-75): one pass over
    the recognized lines, in the order the engine gives them, that groups
    them into rows by the vertical position of their top edge. */
module RowGrouping {
  import opened Ocr

  /** The fixed vertical tolerance of src/App.jsx:58, in pixels. */
  const Tolerance := 10

  function Abs(x: int): int
  {
    if x < 0 then -x else x
  }

  /** The test of src/App.jsx:64: `line` starts a new row when its top edge
      is more than the tolerance away from the current row's anchor. */
  predicate OpensRow(line: Line, anchor: int)
  {
    Abs(line.bbox.y0 - anchor) > Tolerance
  }

  /** The rows read one after the other. */
  function Flatten<T>(rows: seq<seq<T>>): seq<T>
  {
    if rows == [] then [] else rows[0] + Flatten(rows[1..])
  }

  lemma {:induction false} FlattenAppend<T>(rows: seq<seq<T>>, row: seq<T>)
    ensures Flatten(rows + [row]) == Flatten(rows) + row
  {
    if rows == [] {
      assert [] + [row] == [row];
    } else {
      assert (rows + [row])[1..] == rows[1..] + [row];
      FlattenAppend(rows[1..], row);
    }
  }

  lemma {:induction false} FlattenMember<T>(rows: seq<seq<T>>, r: nat, x: T)
    requires r < |rows| && x in rows[r]
    ensures x in Flatten(rows)
    decreases r
  {
    if r > 0 {
      FlattenMember(rows[1..], r - 1, x);
    }
  }

  /** What the pass promises of its output `rows` for the input `lines`:
      reading the rows in order gives back the lines in order, no row is
      empty, every line of a row lies within the tolerance of the row's
      first line (the anchor `lastY`, which only changes at a row boundary),
      and every row after the first starts with a line beyond the tolerance
      of the previous row's first line. */
  ghost predicate IsRowGrouping(lines: seq<Line>, rows: seq<seq<Line>>)
  {
    && Flatten(rows) == lines
    && (forall r | 0 <= r < |rows| :: rows[r] != [])
    && (forall r, j | 0 <= r < |rows| && 0 <= j < |rows[r]| :: !OpensRow(rows[r][j], rows[r][0].bbox.y0))
    && (forall r | 0 < r < |rows| :: OpensRow(rows[r][0], rows[r - 1][0].bbox.y0))
  }

  /** How many leading lines stay on the row anchored at `anchor`. */
  function RowLength(lines: seq<Line>, anchor: int): (n: nat)
    ensures n <= |lines|
    ensures forall j | 0 <= j < n :: !OpensRow(lines[j], anchor)
    ensures n < |lines| ==> OpensRow(lines[n], anchor)
  {
    if lines == [] || OpensRow(lines[0], anchor) then 0 else 1 + RowLength(lines[1..], anchor)
  }

  /** The grouping as a function: the first row runs up to the first line
      that opens a new row, and the rest is grouped the same way. */
  function Rows(lines: seq<Line>): (rows: seq<seq<Line>>)
    decreases |lines|
  {
    if lines == [] then []
    else
      var n := RowLength(lines, lines[0].bbox.y0);
      [lines[..n]] + Rows(lines[n..])
  }

  /** Rows(lines) has every property the pass promises. */
  lemma {:induction false} RowsIsRowGrouping(lines: seq<Line>)
    ensures IsRowGrouping(lines, Rows(lines))
    decreases |lines|
  {
    if lines != [] {
      var n := RowLength(lines, lines[0].bbox.y0);
      var rest := Rows(lines[n..]);
      RowsIsRowGrouping(lines[n..]);
      var rows := [lines[..n]] + rest;
      assert rows[1..] == rest;
      assert lines[..n] + lines[n..] == lines;
      if rest != [] {
        assert Flatten(rest) == rest[0] + Flatten(rest[1..]);
        assert rest[0][0] == lines[n];
      }
      forall r | 0 < r < |rows|
        ensures OpensRow(rows[r][0], rows[r - 1][0].bbox.y0)
      {
        if r > 1 {
          assert rows[r] == rest[r - 1] && rows[r - 1] == rest[r - 2];
        }
      }
      forall r, j | 0 <= r < |rows| && 0 <= j < |rows[r]|
        ensures !OpensRow(rows[r][j], rows[r][0].bbox.y0)
      {
        if r > 0 {
          assert rows[r] == rest[r - 1];
        }
      }
    }
  }

  /** A grouping with the promised properties is unique: whatever produced
      it, it is Rows(lines). */
  lemma {:induction false} RowGroupingUnique(lines: seq<Line>, rows: seq<seq<Line>>)
    requires IsRowGrouping(lines, rows)
    ensures rows == Rows(lines)
    decreases |rows|
  {
    if rows != [] {
      var m := |rows[0]|;
      var tail := rows[1..];
      assert Flatten(rows) == rows[0] + Flatten(tail);
      assert rows[0] == lines[..m] && Flatten(tail) == lines[m..];
      var n := RowLength(lines, lines[0].bbox.y0);
      assert rows[0][0] == lines[0];
      if m < |lines| {
        assert tail != [];
        assert Flatten(tail) == tail[0] + Flatten(tail[1..]);
        assert rows[1][0] == lines[m];
      }
      assert n == m;
      forall r, j | 0 <= r < |tail| && 0 <= j < |tail[r]|
        ensures !OpensRow(tail[r][j], tail[r][0].bbox.y0)
      {
        assert tail[r] == rows[r + 1];
      }
      forall r | 0 < r < |tail|
        ensures OpensRow(tail[r][0], tail[r - 1][0].bbox.y0)
      {
        assert tail[r] == rows[r + 1] && tail[r - 1] == rows[r];
      }
      RowGroupingUnique(lines[m..], tail);
      assert rows == [rows[0]] + tail;
    }
  }

  /** The step of the pass in which `line` stays on the current row. */
  lemma ExtendRow(prefix: seq<Line>, rows: seq<seq<Line>>, current: seq<Line>, line: Line)
    requires current != [] && IsRowGrouping(prefix, rows + [current])
    requires !OpensRow(line, current[0].bbox.y0)
    ensures IsRowGrouping(prefix + [line], rows + [current + [line]])
  {
    FlattenAppend(rows, current);
    FlattenAppend(rows, current + [line]);
    var before, after := rows + [current], rows + [current + [line]];
    assert Flatten(after) == (Flatten(rows) + current) + [line];
    var last := |rows|;
    assert after[last] == current + [line] && after[last][0] == before[last][0];
    forall r | 0 <= r < last ensures after[r] == before[r] { }
    forall r, j | 0 <= r < |after| && 0 <= j < |after[r]|
      ensures !OpensRow(after[r][j], after[r][0].bbox.y0)
    {
      if r == last && j < |current| {
        assert after[r][j] == before[r][j];
      }
    }
    forall r | 0 < r < |after| ensures OpensRow(after[r][0], after[r - 1][0].bbox.y0) {
      assert after[r - 1] == before[r - 1];
    }
  }

  /** The step of the pass in which `line` closes the current row and
      starts the next one. */
  lemma OpenRow(prefix: seq<Line>, rows: seq<seq<Line>>, current: seq<Line>, line: Line)
    requires current != [] && IsRowGrouping(prefix, rows + [current])
    requires OpensRow(line, current[0].bbox.y0)
    ensures IsRowGrouping(prefix + [line], rows + [current] + [[line]])
  {
    FlattenAppend(rows + [current], [line]);
  }

  /** The pass of src/App.jsx:59-75. The caller has already returned on an
      empty list (src/App.jsx:55), so there is a first line to anchor on. */
  method GroupLines(lines: seq<Line>) returns (rows: seq<seq<Line>>)
    requires lines != []
    ensures IsRowGrouping(lines, rows)
    ensures rows == Rows(lines)
  {
    rows := [];
    var currentRow: seq<Line> := [];
    var lastY := lines[0].bbox.y0;
    for i := 0 to |lines|
      invariant i == 0 ==> rows == [] && currentRow == [] && lastY == lines[0].bbox.y0
      invariant i > 0 ==> currentRow != [] && lastY == currentRow[0].bbox.y0
      invariant i > 0 ==> IsRowGrouping(lines[..i], rows + [currentRow])
    {
      var line := lines[i];
      assert lines[..i + 1] == lines[..i] + [line];
      if Abs(line.bbox.y0 - lastY) > Tolerance {
        // the first line is its own anchor, so a boundary is only ever
        // crossed with a non-empty current row
        assert i > 0;
        OpenRow(lines[..i], rows, currentRow, line);
        if |currentRow| > 0 {
          rows := rows + [currentRow];
          currentRow := [];
        }
        lastY := line.bbox.y0;
        currentRow := currentRow + [line];
        assert currentRow == [line];
      } else if i > 0 {
        ExtendRow(lines[..i], rows, currentRow, line);
        currentRow := currentRow + [line];
      } else {
        currentRow := currentRow + [line];
        assert currentRow == [line];
        assert rows + [currentRow] == [[line]];
        assert Flatten([[line]]) == [line] + Flatten([]);
      }
    }
    if |currentRow| > 0 {
      rows := rows + [currentRow];
    }
    assert lines[..|lines|] == lines;
    RowGroupingUnique(lines, rows);
  }

  /** When every line is within the tolerance of the first line, the pass
      yields one row holding all the lines. */
  lemma SingleRow(lines: seq<Line>)
    requires lines != []
    requires forall i | 0 <= i < |lines| :: !OpensRow(lines[i], lines[0].bbox.y0)
    ensures Rows(lines) == [lines]
  {
    var n := RowLength(lines, lines[0].bbox.y0);
    assert n == |lines|;
    assert lines[..n] == lines && lines[n..] == [];
    assert Rows(lines) == [lines[..n]] + Rows(lines[n..]);
  }

  /** When every line is beyond the tolerance of the line before it, every
      line is a row of its own, in input order. */
  lemma {:induction false} OneRowPerLine(lines: seq<Line>)
    requires forall i | 0 < i < |lines| :: OpensRow(lines[i], lines[i - 1].bbox.y0)
    ensures |Rows(lines)| == |lines|
    ensures forall i | 0 <= i < |lines| :: Rows(lines)[i] == [lines[i]]
    decreases |lines|
  {
    if lines != [] {
      var n := RowLength(lines, lines[0].bbox.y0);
      if |lines| > 1 {
        assert OpensRow(lines[1], lines[0].bbox.y0);
      }
      assert n == 1;
      var rest := lines[1..];
      forall i | 0 < i < |rest| ensures OpensRow(rest[i], rest[i - 1].bbox.y0) {
        assert rest[i] == lines[i + 1] && rest[i - 1] == lines[i];
      }
      OneRowPerLine(rest);
      assert Rows(lines) == [lines[..1]] + Rows(rest);
    }
  }
}
