/** The per-row sort of `formatTableData` (src/App.jsx:77-80): each row is
    sorted in place by the left edge `x0` of its lines with the comparator
    `a.bbox.x0 - b.bbox.x0`. `Array.prototype.sort` is stable, so lines with
    equal `x0` keep their relative order. */
module RowSort {
  import opened Ocr

  predicate SortedByX(row: seq<Line>)
  {
    forall i, j | 0 <= i < j < |row| :: row[i].bbox.x0 <= row[j].bbox.x0
  }

  /** The lines of `row` whose left edge is `x`, in their order in `row`. */
  function WithX(row: seq<Line>, x: int): seq<Line>
  {
    if row == [] then []
    else WithX(row[..|row| - 1], x) + (if row[|row| - 1].bbox.x0 == x then [row[|row| - 1]] else [])
  }

  /** `line` placed after every line of `row`, from the right, whose `x0`
      is not greater than its own. */
  function Insert(row: seq<Line>, line: Line): seq<Line>
  {
    if row == [] || row[|row| - 1].bbox.x0 <= line.bbox.x0 then row + [line]
    else Insert(row[..|row| - 1], line) + [row[|row| - 1]]
  }

  /** The row after the stable sort by `x0`: an insertion sort that takes
      the lines from left to right. */
  function SortByX(row: seq<Line>): seq<Line>
  {
    if row == [] then [] else Insert(SortByX(row[..|row| - 1]), row[|row| - 1])
  }

  lemma {:induction false} WithXAppend(a: seq<Line>, b: seq<Line>, x: int)
    ensures WithX(a + b, x) == WithX(a, x) + WithX(b, x)
    decreases |b|
  {
    if b == [] {
      assert a + b == a;
    } else {
      var b' := b[..|b| - 1];
      assert (a + b)[..|a + b| - 1] == a + b';
      WithXAppend(a, b', x);
    }
  }

  /** Every line of WithX(row, x) is a line of `row` with left edge `x`, and
      every such line of `row` is in it. */
  lemma {:induction false} WithXMembers(row: seq<Line>, x: int)
    ensures forall l | l in WithX(row, x) :: l in row && l.bbox.x0 == x
    ensures forall i | 0 <= i < |row| && row[i].bbox.x0 == x :: row[i] in WithX(row, x)
    decreases |row|
  {
    if row != [] {
      var init := row[..|row| - 1];
      WithXMembers(init, x);
      forall i | 0 <= i < |row| - 1 ensures row[i] == init[i] { }
    }
  }

  /** Where Insert puts the line: after the first `j` lines and before the
      rest, when the rest all lie strictly to its right and line j - 1 does
      not. */
  lemma {:induction false} InsertAt(row: seq<Line>, line: Line, j: nat)
    requires j <= |row|
    requires forall k | j <= k < |row| :: row[k].bbox.x0 > line.bbox.x0
    requires j == 0 || row[j - 1].bbox.x0 <= line.bbox.x0
    ensures Insert(row, line) == row[..j] + [line] + row[j..]
    decreases |row|
  {
    if j < |row| {
      var init := row[..|row| - 1];
      InsertAt(init, line, j);
      assert row[..j] + [line] + row[j..] == init[..j] + [line] + init[j..] + [row[|row| - 1]];
    } else {
      assert row[..j] == row;
    }
  }

  lemma {:induction false} InsertPermutes(row: seq<Line>, line: Line)
    ensures multiset(Insert(row, line)) == multiset(row) + multiset{line}
    decreases |row|
  {
    if row != [] && row[|row| - 1].bbox.x0 > line.bbox.x0 {
      var init := row[..|row| - 1];
      InsertPermutes(init, line);
      assert row == init + [row[|row| - 1]];
    }
  }

  lemma {:induction false} InsertSorted(row: seq<Line>, line: Line)
    requires SortedByX(row)
    ensures SortedByX(Insert(row, line))
    decreases |row|
  {
    if row != [] && row[|row| - 1].bbox.x0 > line.bbox.x0 {
      var init, last := row[..|row| - 1], row[|row| - 1];
      InsertSorted(init, line);
      InsertPermutes(init, line);
      var ins := Insert(init, line);
      forall i | 0 <= i < |ins| ensures ins[i].bbox.x0 <= last.bbox.x0 {
        assert ins[i] in multiset(init) + multiset{line};
      }
    }
  }

  /** Inserting a line adds it to the lines with its own left edge, at the
      end, and leaves the lines with any other left edge as they were. */
  lemma {:induction false} InsertStable(row: seq<Line>, line: Line, x: int)
    ensures WithX(Insert(row, line), x) == WithX(row, x) + WithX([line], x)
    decreases |row|
  {
    if row == [] || row[|row| - 1].bbox.x0 <= line.bbox.x0 {
      WithXAppend(row, [line], x);
    } else {
      var init, last := row[..|row| - 1], row[|row| - 1];
      assert Insert(row, line) == Insert(init, line) + [last];
      assert row == init + [last];
      InsertStable(init, line, x);
      InsertStableStep(Insert(init, line), init, last, line, x);
    }
  }

  /** The step of InsertStable where the line goes before the last line
      `last`, which lies strictly to its right. */
  lemma InsertStableStep(inserted: seq<Line>, init: seq<Line>, last: Line, line: Line, x: int)
    requires last.bbox.x0 > line.bbox.x0
    requires WithX(inserted, x) == WithX(init, x) + WithX([line], x)
    ensures WithX(inserted + [last], x) == WithX(init + [last], x) + WithX([line], x)
  {
    WithXAppend(inserted, [last], x);
    WithXAppend(init, [last], x);
    if last.bbox.x0 == x {
      WithXSingle(line, x);
      assert WithX([line], x) == [];
    } else {
      WithXSingle(last, x);
      assert WithX([last], x) == [];
    }
  }

  /** The sort rearranges the row and nothing else. */
  lemma {:induction false} SortByXPermutes(row: seq<Line>)
    ensures multiset(SortByX(row)) == multiset(row)
    decreases |row|
  {
    if row != [] {
      var init := row[..|row| - 1];
      SortByXPermutes(init);
      InsertPermutes(SortByX(init), row[|row| - 1]);
      assert row == init + [row[|row| - 1]];
    }
  }

  /** After the sort the row is in non-decreasing order of `x0`. */
  lemma {:induction false} SortByXSorted(row: seq<Line>)
    ensures SortedByX(SortByX(row))
    decreases |row|
  {
    if row != [] {
      SortByXSorted(row[..|row| - 1]);
      InsertSorted(SortByX(row[..|row| - 1]), row[|row| - 1]);
    }
  }

  /** The sort is stable: the lines sharing a left edge come out in the
      order they went in. */
  lemma {:induction false} SortByXStable(row: seq<Line>, x: int)
    ensures WithX(SortByX(row), x) == WithX(row, x)
    decreases |row|
  {
    if row != [] {
      var init, last := row[..|row| - 1], row[|row| - 1];
      var sortedInit := SortByX(init);
      assert SortByX(row) == Insert(sortedInit, last);
      assert init + [last] == row;
      SortByXStable(init, x);
      InsertStable(sortedInit, last, x);
      WithXAppend(init, [last], x);
    }
  }

  lemma WithXSingle(line: Line, x: int)
    ensures WithX([line], x) == if line.bbox.x0 == x then [line] else []
  {
    assert [line][..0] == [];
  }

  /** In a row sorted by `x0` no line lies left of the first one. */
  lemma SortedFirstIsLeftmost(row: seq<Line>, line: Line)
    requires SortedByX(row) && line in row
    ensures row[0].bbox.x0 <= line.bbox.x0
  {
    var j :| 0 <= j < |row| && row[j] == line;
    if j > 0 {
      assert row[0].bbox.x0 <= row[j].bbox.x0;
    }
  }

  /** The lines at each left edge of a non-empty row, split into those of
      its first line and those of the rest. */
  lemma WithXFirst(row: seq<Line>, x: int)
    requires row != []
    ensures WithX(row, x) == WithX([row[0]], x) + WithX(row[1..], x)
  {
    WithXAppend([row[0]], row[1..], x);
    assert [row[0]] + row[1..] == row;
  }

  /** The first line of a row heads the lines at its own left edge. */
  lemma FirstOfWithX(row: seq<Line>)
    requires row != []
    ensures WithX(row, row[0].bbox.x0) != [] && WithX(row, row[0].bbox.x0)[0] == row[0]
  {
    WithXFirst(row, row[0].bbox.x0);
    WithXSingle(row[0], row[0].bbox.x0);
  }

  /** If `b` is sorted and holds the lines of `a` at the left edge of a's
      first line, b's first line is no further right. */
  lemma FirstNoFurtherRight(a: seq<Line>, b: seq<Line>)
    requires a != [] && SortedByX(b)
    requires WithX(a, a[0].bbox.x0) == WithX(b, a[0].bbox.x0)
    ensures b != [] && b[0].bbox.x0 <= a[0].bbox.x0
  {
    FirstOfWithX(a);
    WithXMembers(b, a[0].bbox.x0);
    SortedFirstIsLeftmost(b, a[0]);
  }

  /** Two sorted rows that agree at every left edge start with the same line. */
  lemma SameFirst(a: seq<Line>, b: seq<Line>)
    requires SortedByX(a) && SortedByX(b) && a != [] && b != []
    requires forall x :: WithX(a, x) == WithX(b, x)
    ensures a[0] == b[0]
  {
    var xa, xb := a[0].bbox.x0, b[0].bbox.x0;
    assert WithX(a, xa) == WithX(b, xa);
    assert WithX(b, xb) == WithX(a, xb);
    FirstNoFurtherRight(a, b);
    FirstNoFurtherRight(b, a);
    FirstOfWithX(a);
    FirstOfWithX(b);
  }

  /** Two rows sorted by `x0` whose lines agree at every left edge, in
      order, are the same row: the stable sort has only one possible
      result, whatever algorithm computes it. */
  lemma {:induction false} SortedByXUnique(a: seq<Line>, b: seq<Line>)
    requires SortedByX(a) && SortedByX(b)
    requires forall x :: WithX(a, x) == WithX(b, x)
    ensures a == b
    decreases |a| + |b|
  {
    if a == [] && b == [] {
    } else if a == [] {
      WithXMembers(b, b[0].bbox.x0);
      assert false;
    } else if b == [] {
      WithXMembers(a, a[0].bbox.x0);
      assert false;
    } else {
      SameFirst(a, b);
      forall x ensures WithX(a[1..], x) == WithX(b[1..], x) {
        WithXFirst(a, x);
        WithXFirst(b, x);
        var head := WithX([a[0]], x);
        assert WithX(a, x) == WithX(b, x);
        assert WithX(a[1..], x) == WithX(a, x)[|head|..];
        assert WithX(b[1..], x) == WithX(b, x)[|head|..];
      }
      SortedByXUnique(a[1..], b[1..]);
      assert a == [a[0]] + a[1..] && b == [b[0]] + b[1..];
    }
  }

  /** No two lines of the row share a left edge. */
  predicate DistinctX(row: seq<Line>)
  {
    forall i, j | 0 <= i < j < |row| :: row[i].bbox.x0 != row[j].bbox.x0
  }

  /** A row with no line at left edge `x` keeps no line for `x`. */
  lemma {:induction false} WithXNone(row: seq<Line>, x: int)
    requires forall l | l in row :: l.bbox.x0 != x
    ensures WithX(row, x) == []
    decreases |row|
  {
    if row != [] {
      WithXNone(row[..|row| - 1], x);
    }
  }

  /** With distinct left edges, at most one line sits at each left edge. */
  lemma {:induction false} WithXAtMostOne(row: seq<Line>, x: int)
    requires DistinctX(row)
    ensures |WithX(row, x)| <= 1
    decreases |row|
  {
    if row != [] {
      var init, last := row[..|row| - 1], row[|row| - 1];
      assert DistinctX(init) by {
        forall i, j | 0 <= i < j < |init| ensures init[i].bbox.x0 != init[j].bbox.x0 {
          assert init[i] == row[i] && init[j] == row[j];
        }
      }
      WithXAtMostOne(init, x);
      if last.bbox.x0 == x {
        forall l | l in init ensures l.bbox.x0 != x {
          var i :| 0 <= i < |init| && init[i] == l;
          assert row[i] == l;
        }
        WithXNone(init, x);
      }
    }
  }

  /** Two arrangements of the same lines with distinct left edges agree at
      every left edge. */
  lemma SameLinesSameWithX(a: seq<Line>, b: seq<Line>, x: int)
    requires DistinctX(a) && DistinctX(b) && multiset(a) == multiset(b)
    ensures WithX(a, x) == WithX(b, x)
  {
    WithXAtMostOne(a, x);
    WithXAtMostOne(b, x);
    WithXMembers(a, x);
    WithXMembers(b, x);
    if WithX(a, x) != [] {
      var e := WithX(a, x)[0];
      assert e in a;
      assert e in multiset(b);
      var j :| 0 <= j < |b| && b[j] == e;
      assert b[j] in WithX(b, x);
    } else {
      forall l | l in b ensures l.bbox.x0 != x {
        assert l in multiset(a);
        var i :| 0 <= i < |a| && a[i] == l;
      }
      WithXNone(b, x);
    }
  }

  /** When the lines of a row have distinct left edges, the sorted row does
      not depend on the order in which the lines arrived. */
  lemma SortIgnoresInputOrder(a: seq<Line>, b: seq<Line>)
    requires DistinctX(a) && DistinctX(b) && multiset(a) == multiset(b)
    ensures SortByX(a) == SortByX(b)
  {
    SortByXSorted(a);
    SortByXSorted(b);
    forall x ensures WithX(SortByX(a), x) == WithX(SortByX(b), x) {
      SortByXStable(a, x);
      SortByXStable(b, x);
      SameLinesSameWithX(a, b, x);
    }
    SortedByXUnique(SortByX(a), SortByX(b));
  }

  /** Sorting one more line of a prefix inserts that line. */
  lemma SortByXStep(s: seq<Line>, i: nat)
    requires i < |s|
    ensures SortByX(s[..i + 1]) == Insert(SortByX(s[..i]), s[i])
  {
    assert s[..i + 1][..i] == s[..i];
  }

  /** One step of the in-place sort: the line at index `i` is moved left
      past every line of the sorted prefix `a[..i]` that lies strictly to
      its right. */
  method InsertInPlace(a: array<Line>, i: nat)
    requires i < a.Length
    modifies a
    ensures a[..i + 1] == Insert(old(a[..i]), old(a[i]))
    ensures a[i + 1..] == old(a[i + 1..])
  {
    ghost var sorted := a[..i];
    var line := a[i];
    var j := i;
    while j > 0 && a[j - 1].bbox.x0 > line.bbox.x0
      invariant 0 <= j <= i
      invariant forall k | 0 <= k < j :: a[k] == sorted[k]
      invariant forall k | j < k <= i :: a[k] == sorted[k - 1]
      invariant forall k | j <= k < i :: sorted[k].bbox.x0 > line.bbox.x0
      invariant forall k | i < k < a.Length :: a[k] == old(a[k])
    {
      a[j] := a[j - 1];
      j := j - 1;
    }
    a[j] := line;
    InsertAt(sorted, line, j);
    assert a[..i + 1] == sorted[..j] + [line] + sorted[j..];
  }

  /** The in-place sort of one row (the body of src/App.jsx:79), as an
      insertion sort. */
  method SortRowInPlace(a: array<Line>)
    modifies a
    ensures a[..] == SortByX(old(a[..]))
  {
    ghost var orig := a[..];
    var i := 0;
    while i < a.Length
      invariant 0 <= i <= a.Length
      invariant a[..i] == SortByX(orig[..i])
      invariant a[i..] == orig[i..]
    {
      ghost var prefix, next := a[..i], a[i];
      assert next == orig[i];
      InsertInPlace(a, i);
      SortByXStep(orig, i);
      assert a[..i + 1] == Insert(prefix, next);
      i := i + 1;
    }
    assert orig[..a.Length] == orig;
  }
}
