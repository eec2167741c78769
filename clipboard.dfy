/** The text that "Copy to Clipboard" writes for a table
    (src/App.jsx:286): cells joined by tabs, rows joined by newlines. */
module Clipboard {
  import opened Wrappers
  import opened Ocr
  import opened RowGrouping
  import opened TableFormat

  /** `Array.prototype.join` with a one-character separator. */
  function Join(parts: seq<string>, sep: char): string
  {
    if |parts| == 0 then ""
    else if |parts| == 1 then parts[0]
    else parts[0] + [sep] + Join(parts[1..], sep)
  }

  /** `tableData.map(row => row.join('\t')).join('\n')`. */
  function ClipboardText(table: seq<seq<string>>): string
  {
    Join(seq(|table|, r requires 0 <= r < |table| => Join(table[r], '\t')), '\n')
  }

  /** The pieces of `s` between occurrences of `sep` (as `String.split` with
      a one-character separator; the empty string is one empty piece). */
  function Split(s: string, sep: char): (parts: seq<string>)
    ensures |parts| > 0
  {
    if s == [] then [""]
    else
      var rest := Split(s[1..], sep);
      if s[0] == sep then [""] + rest else [[s[0]] + rest[0]] + rest[1..]
  }

  /** How a spreadsheet reads pasted text back: lines on newlines, cells on
      tabs. */
  function ParseClipboard(text: string): seq<seq<string>>
  {
    var lines := Split(text, '\n');
    seq(|lines|, r requires 0 <= r < |lines| => Split(lines[r], '\t'))
  }

  function Occurrences(s: string, c: char): nat
  {
    if s == [] then 0 else (if s[0] == c then 1 else 0) + Occurrences(s[1..], c)
  }

  lemma {:induction false} OccurrencesAppend(a: string, b: string, c: char)
    ensures Occurrences(a + b, c) == Occurrences(a, c) + Occurrences(b, c)
    decreases |a|
  {
    if a != [] {
      assert (a + b)[1..] == a[1..] + b;
      OccurrencesAppend(a[1..], b, c);
    } else {
      assert a + b == b;
    }
  }

  lemma {:induction false} OccurrencesAbsent(s: string, c: char)
    requires c !in s
    ensures Occurrences(s, c) == 0
    decreases |s|
  {
    if s != [] {
      OccurrencesAbsent(s[1..], c);
    }
  }

  /** Joining pieces free of the separator puts exactly one separator
      between each two neighbours. */
  lemma {:induction false} JoinCountsSeparators(parts: seq<string>, sep: char)
    requires |parts| > 0
    requires forall i | 0 <= i < |parts| :: sep !in parts[i]
    ensures Occurrences(Join(parts, sep), sep) == |parts| - 1
    decreases |parts|
  {
    OccurrencesAbsent(parts[0], sep);
    if |parts| > 1 {
      JoinCountsSeparators(parts[1..], sep);
      OccurrencesAppend(parts[0], [sep], sep);
      OccurrencesAppend(parts[0] + [sep], Join(parts[1..], sep), sep);
    }
  }

  /** A character that is neither the separator nor in any piece is not in
      the joined text. */
  lemma {:induction false} JoinKeepsOut(parts: seq<string>, sep: char, c: char)
    requires c != sep
    requires forall i | 0 <= i < |parts| :: c !in parts[i]
    ensures c !in Join(parts, sep)
    decreases |parts|
  {
    if |parts| > 1 {
      JoinKeepsOut(parts[1..], sep, c);
    }
  }

  lemma {:induction false} SplitPrefix(a: string, t: string, sep: char)
    requires sep !in a
    ensures Split(a + t, sep) == [a + Split(t, sep)[0]] + Split(t, sep)[1..]
    decreases |a|
  {
    if a == [] {
      var parts := Split(t, sep);
      assert a + t == t && a + parts[0] == parts[0];
      assert parts == [parts[0]] + parts[1..];
    } else {
      assert (a + t)[1..] == a[1..] + t;
      SplitPrefix(a[1..], t, sep);
      assert [a[0]] + (a[1..] + Split(t, sep)[0]) == a + Split(t, sep)[0];
    }
  }

  /** Splitting undoes joining, when no piece holds the separator. */
  lemma {:induction false} SplitJoin(parts: seq<string>, sep: char)
    requires |parts| > 0
    requires forall i | 0 <= i < |parts| :: sep !in parts[i]
    ensures Split(Join(parts, sep), sep) == parts
    decreases |parts|
  {
    if |parts| == 1 {
      SplitPrefix(parts[0], "", sep);
      assert parts[0] + "" == parts[0];
    } else {
      var rest := Join(parts[1..], sep);
      SplitJoin(parts[1..], sep);
      assert parts[0] + [sep] + rest == parts[0] + ([sep] + rest);
      SplitPrefix(parts[0], [sep] + rest, sep);
      assert ([sep] + rest)[1..] == rest;
      assert parts[0] + "" == parts[0];
      assert parts == [parts[0]] + parts[1..];
    }
  }

  /** A table of n > 0 rows whose cells hold no newline is copied as text
      with exactly n - 1 newlines: one between each pair of rows. */
  lemma NewlineCount(table: seq<seq<string>>)
    requires |table| > 0
    requires forall r, j | 0 <= r < |table| && 0 <= j < |table[r]| :: '\n' !in table[r][j]
    ensures Occurrences(ClipboardText(table), '\n') == |table| - 1
  {
    var rowTexts := seq(|table|, r requires 0 <= r < |table| => Join(table[r], '\t'));
    forall r | 0 <= r < |table| ensures '\n' !in rowTexts[r] {
      JoinKeepsOut(table[r], '\t', '\n');
    }
    JoinCountsSeparators(rowTexts, '\n');
  }

  /** Cells free of tabs and newlines and rows that are not empty: the
      clipboard text has one newline fewer than the table has rows, and
      reading it back gives the table. */
  lemma ClipboardRoundTrip(table: seq<seq<string>>)
    requires |table| > 0
    requires forall r | 0 <= r < |table| :: |table[r]| > 0
    requires forall r, j | 0 <= r < |table| && 0 <= j < |table[r]| ::
      '\t' !in table[r][j] && '\n' !in table[r][j]
    ensures Occurrences(ClipboardText(table), '\n') == |table| - 1
    ensures ParseClipboard(ClipboardText(table)) == table
  {
    var rowTexts := seq(|table|, r requires 0 <= r < |table| => Join(table[r], '\t'));
    forall r | 0 <= r < |table| ensures '\n' !in rowTexts[r] && Split(rowTexts[r], '\t') == table[r] {
      JoinKeepsOut(table[r], '\t', '\n');
      SplitJoin(table[r], '\t');
    }
    NewlineCount(table);
    SplitJoin(rowTexts, '\n');
  }

  /** The copy of a table that `formatTableData` produced, from lines whose
      texts hold no newline, has one line per row. */
  lemma FormattedTableNewlines(data: Option<Page>)
    requires HasLines(data)
    requires forall i | 0 <= i < |data.value.lines.value| :: '\n' !in data.value.lines.value[i].text
    ensures var table := FormatTable(data).value;
      Occurrences(ClipboardText(table), '\n') == |table| - 1
  {
    var lines := data.value.lines.value;
    var table := FormatTable(data).value;
    FormatTableShape(data);
    ArrangedRowsCorrect(lines);
    RowsIsRowGrouping(lines);
    var rows, arranged := Rows(lines), ArrangedRows(lines);
    forall r, j | 0 <= r < |table| && 0 <= j < |table[r]|
      ensures '\n' !in table[r][j]
    {
      var line := arranged[r][j];
      assert line in multiset(rows[r]);
      FlattenMember(rows, r, line);
    }
    NewlineCount(table);
  }

  /** The copy of a table that `formatTableData` produced, from lines free
      of tabs and newlines, reads back as that table, one line per row. */
  lemma FormattedTableRoundTrip(data: Option<Page>)
    requires HasLines(data)
    requires forall i | 0 <= i < |data.value.lines.value| ::
      '\t' !in data.value.lines.value[i].text && '\n' !in data.value.lines.value[i].text
    ensures var table := FormatTable(data).value;
      && Occurrences(ClipboardText(table), '\n') == |table| - 1
      && ParseClipboard(ClipboardText(table)) == table
  {
    var lines := data.value.lines.value;
    var table := FormatTable(data).value;
    FormatTableShape(data);
    ArrangedRowsCorrect(lines);
    RowsIsRowGrouping(lines);
    var rows, arranged := Rows(lines), ArrangedRows(lines);
    forall r, j | 0 <= r < |table| && 0 <= j < |table[r]|
      ensures '\t' !in table[r][j] && '\n' !in table[r][j]
    {
      var line := arranged[r][j];
      assert line in multiset(rows[r]);
      FlattenMember(rows, r, line);
    }
    FormattedTableNewlines(data);
    ClipboardRoundTrip(table);
  }
}
