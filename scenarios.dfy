/** Worked examples of `formatTableData` on small inputs. */
module Scenarios {
  import opened Wrappers
  import opened Ocr
  import opened RowGrouping
  import opened RowSort
  import opened TableFormat

  function TableOfLines(lines: seq<Line>): Option<seq<seq<string>>>
  {
    FormatTable(Some(Page("", Some(lines))))
  }

  lemma SortSingle(line: Line)
    ensures SortByX([line]) == [line]
  {
    assert [line][..0] == [];
    assert Insert([], line) == [line];
  }

  /** Two lines two pixels apart vertically share a row. */
  lemma SameRowKeepsOrder()
    ensures TableOfLines([Line("A", BBox(0, 0, 10, 10)), Line("B", BBox(20, 2, 30, 12))]) == Some([["A", "B"]])
  {
    var a, b := Line("A", BBox(0, 0, 10, 10)), Line("B", BBox(20, 2, 30, 12));
    OneBandOneRow("", [a, b]);
    assert [a, b][..1] == [a];
    assert SortByX([a]) == [a];
    assert SortByX([a, b]) == [a, b];
    assert CellTexts([a, b]) == ["A", "B"];
  }

  /** Two lines fifty pixels apart vertically are two rows. */
  lemma FarApartTwoRows()
    ensures TableOfLines([Line("A", BBox(0, 0, 10, 10)), Line("B", BBox(0, 50, 10, 60))]) == Some([["A"], ["B"]])
  {
    var a, b := Line("A", BBox(0, 0, 10, 10)), Line("B", BBox(0, 50, 10, 60));
    OneRowPerLine([a, b]);
    assert Rows([a, b]) == [[a], [b]];
    assert SortByX([a]) == [a] && SortByX([b]) == [b];
    assert ArrangedRows([a, b]) == [[a], [b]];
    assert CellTexts([a]) == ["A"] && CellTexts([b]) == ["B"];
    assert TableTexts([[a], [b]]) == [["A"], ["B"]];
  }

  /** Lines given right to left on one row come out left to right. */
  lemma SortRestoresReadingOrder()
    ensures TableOfLines([Line("B", BBox(20, 0, 30, 10)), Line("A", BBox(0, 1, 10, 11))]) == Some([["A", "B"]])
  {
    var b, a := Line("B", BBox(20, 0, 30, 10)), Line("A", BBox(0, 1, 10, 11));
    OneBandOneRow("", [b, a]);
    assert [b, a][..1] == [b];
    assert SortByX([b]) == [b];
    assert Insert([], a) == [a];
    assert SortByX([b, a]) == [a, b];
    assert CellTexts([a, b]) == ["A", "B"];
  }

  /** No lines: no table at all, which is not a table with no rows. */
  lemma NoLinesNoTable()
    ensures TableOfLines([]) == None
    ensures FormatTable(Some(Page("", None))) == None
    ensures FormatTable(None) == None
  {
  }

  /** The grouping follows the input order: a line that belongs with the
      first row but arrives after a line of another row starts a third row. */
  lemma InputOrderMatters()
    ensures TableOfLines([Line("A", BBox(0, 0, 10, 10)), Line("C", BBox(0, 50, 10, 60)), Line("B", BBox(20, 5, 30, 15))])
      == Some([["A"], ["C"], ["B"]])
  {
    var a, c, b := Line("A", BBox(0, 0, 10, 10)), Line("C", BBox(0, 50, 10, 60)), Line("B", BBox(20, 5, 30, 15));
    var lines := [a, c, b];
    assert OpensRow(c, a.bbox.y0) && OpensRow(b, c.bbox.y0);
    OneRowPerLine(lines);
    var rows := Rows(lines);
    assert rows == [[a], [c], [b]] by {
      assert rows[0] == [a] && rows[1] == [c] && rows[2] == [b];
    }
    SortSingle(a);
    SortSingle(b);
    SortSingle(c);
    assert ArrangedRows(lines) == [[a], [c], [b]];
    assert CellTexts([a]) == ["A"] && CellTexts([b]) == ["B"] && CellTexts([c]) == ["C"];
    assert TableTexts([[a], [c], [b]]) == [["A"], ["C"], ["B"]];
  }
}
