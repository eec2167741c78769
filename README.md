# Image Text Extractor — table reconstruction and binarization, in Dafny

This project models the logic of the Image Text Extractor web application
(`src/App.jsx`) that does not belong to the user interface, the OCR engine or
the browser canvas:

- **Binarization** (`preprocessImage`, the pixel loop): every RGBA pixel of
  the cropped region becomes pure white when the average of its red, green
  and blue bytes is above 128, pure black otherwise; the alpha byte is kept.
  Modelled as an in-place method on an `array<byte>` (`Binarize.Binarize`),
  proved equal to a pixel-by-pixel specification (`Binarize.Binarized`).
- **Table reconstruction** (`formatTableData`): the lines the OCR engine
  reports, each a text and a bounding box, are grouped into rows in one pass
  in the order the engine gives them. A line opens a new row when its top
  edge `y0` is more than 10 pixels from the current row's anchor; the anchor
  is the `y0` of the row's first line. Each row is then stable-sorted by
  left edge `x0`, and every line is replaced by its text. When there are no
  lines (no result, no line list, or an empty one), the result is `null`,
  modelled as `None`.
  - `RowGrouping.GroupLines` is the grouping loop. Its result satisfies
    `IsRowGrouping` (the input read back in order, no empty row, every line
    within the tolerance of its row's first line, every row boundary beyond
    the tolerance of the previous anchor). `RowGroupingUnique` shows that
    only one grouping has these properties, `Rows(lines)`.
  - `RowSort.SortRowInPlace` is the in-place sort of one row, as an insertion
    sort on an array. It is proved equal to `SortByX`, which is proved
    sorted, a permutation and stable. `SortedByXUnique` shows that a stable
    sort by `x0` has only one possible result, so the model's algorithm
    gives the same rows as the browser's `Array.prototype.sort`.
  - `TableFormat.FormatTableData` is the whole function; it is proved equal
    to `FormatTable`, and the lemmas about `FormatTable` state the row and
    cell properties.
- **Clipboard text** for a table: cells joined with tabs, rows with
  newlines. `Clipboard.NewlineCount` shows that a table of n > 0 rows whose
  cells hold no newline is copied with exactly n - 1 newlines.
  `Clipboard.ClipboardRoundTrip` shows that, for a table of at least one
  row, splitting on newlines and tabs gives the table back when no cell
  holds a tab or a newline and no row is empty. `FormattedTableNewlines`
  and `FormattedTableRoundTrip` apply these to the tables `formatTableData`
  produces.
- **Mode choices**: the page-segmentation parameter (`"6"` for tables, `"3"`
  for text) and what is kept of the recognition result in each mode.

The OCR engine's result is an input: a `Page` holds the transcript and the
list of recognized lines, which may be missing. Bounding-box coordinates are
integers.

Rows follow the order in which the engine returns the lines, not their
vertical position: the code never sorts lines by `y0`. A line that belongs
to an earlier row but arrives after a line of another row starts a new row
(`Scenarios.InputOrderMatters`).

At a row boundary the code checks that the current row is non-empty before
closing it (`if (currentRow.length > 0)`). That check always succeeds: the
first line is its own anchor and never crosses a boundary. `GroupLines`
keeps the branch and asserts that it is always taken.

## Model

| member | source | states |
|---|---|---|
| `Binarize.Level` | src/App.jsx:45-46 | the real-valued test "average of r, g, b above 128" gives 255 exactly when the integer sum r + g + b is above 384, and 0 otherwise |
| `Binarize.Binarized` | src/App.jsx:44-48 | the binarized buffer has the same length as the input |
| `Binarize.BinarizedPixel` | src/App.jsx:44-48 | at every pixel offset p (p % 4 == 0) the bytes p, p+1 and p+2 all become 255 when r + g + b > 384 and 0 otherwise; the alpha byte p+3 is unchanged |
| `Binarize.BinarizedIdempotent` | src/App.jsx:44-48 | binarizing a binarized buffer changes nothing |
| `Binarize.Binarize` | src/App.jsx:44-48 | the in-place loop leaves the array equal to `Binarized` of its old contents (so length kept, alpha kept, each pixel thresholded) |
| `RowGrouping.RowLength` | src/App.jsx:63-72 | the number of leading lines that stay on a row anchored at `anchor`: none of them is more than 10 from the anchor, and the next line, if any, is |
| `RowGrouping.RowsIsRowGrouping` | src/App.jsx:57-75 | the grouping function reads back as the input, has no empty row, keeps each row within 10 of the row's first line, and starts each later row with a line more than 10 from the previous row's first line |
| `RowGrouping.RowGroupingUnique` | src/App.jsx:59-75 | any grouping with those four properties equals `Rows(lines)` |
| `RowGrouping.ExtendRow` | src/App.jsx:71 | a line within the tolerance of the anchor joins the current row and the grouping properties are kept |
| `RowGrouping.OpenRow` | src/App.jsx:64-71 | a line beyond the tolerance of the anchor closes the current row and starts a new one, and the grouping properties are kept |
| `RowGrouping.GroupLines` | src/App.jsx:58-75 | the pass over a non-empty line list returns a grouping with the four properties, namely `Rows(lines)` |
| `RowGrouping.SingleRow` | src/App.jsx:61-72 | if every line is within 10 of the first line's `y0`, the result is one row holding all the lines in input order |
| `RowGrouping.OneRowPerLine` | src/App.jsx:63-71 | if every line is more than 10 from the line before it, every line is its own row, in input order |
| `RowSort.SortByXPermutes` | src/App.jsx:79 | the sorted row has the same lines, with the same multiplicities |
| `RowSort.SortByXSorted` | src/App.jsx:79 | the sorted row is in non-decreasing order of `x0` |
| `RowSort.SortByXStable` | src/App.jsx:79 | lines with the same `x0` keep their relative order (the sort is stable) |
| `RowSort.SortedByXUnique` | src/App.jsx:79 | two rows sorted by `x0` that agree, in order, on the lines at every `x0` are equal, so every stable sort gives the same row |
| `RowSort.WithXAtMostOne` | src/App.jsx:79 | when no two lines of a row share an `x0`, at most one line sits at each `x0` |
| `RowSort.SortIgnoresInputOrder` | src/App.jsx:78-80 | when no two lines of a row share an `x0`, sorting two arrangements of the same lines gives the same row: the cell order does not depend on the order the lines arrived in |
| `RowSort.InsertInPlace` | src/App.jsx:79 | one insertion step: the line at index i moves left past the lines strictly to its right, so the prefix becomes `Insert` of the old prefix and the line; the rest is unchanged |
| `RowSort.SortRowInPlace` | src/App.jsx:79 | sorting an array in place leaves it equal to `SortByX` of its old contents |
| `TableFormat.FormatTable` | src/App.jsx:54-55 | the result is `null` exactly when the result data, its line list, or every line is missing |
| `TableFormat.ArrangedRowsCorrect` | src/App.jsx:57-80 | after grouping and sorting, each row is non-empty, sorted by `x0`, a stable permutation of its group, within 10 of its group's first line; together the rows hold every input line exactly once |
| `TableFormat.FormatTableShape` | src/App.jsx:54-83 | when there are lines, the table has one non-empty row of texts per group, cell j of row r is the text of line j of the sorted row r, and there are as many cells as input lines |
| `TableFormat.OneBandOneRow` | src/App.jsx:61-82 | for any transcript, lines all within 10 of the first line give a one-row table of their texts sorted by `x0` |
| `TableFormat.FormatTableData` | src/App.jsx:54-83 | the imperative function (grouping loop, in-place sort of each row, projection to text) returns exactly `FormatTable(data)` |
| `Scenarios.SameRowKeepsOrder` | src/App.jsx:54-83 | lines at y0 0 and 2 give the table [["A","B"]] |
| `Scenarios.FarApartTwoRows` | src/App.jsx:54-83 | lines at y0 0 and 50 give the table [["A"],["B"]] |
| `Scenarios.SortRestoresReadingOrder` | src/App.jsx:54-83 | lines given right to left on one row come out as [["A","B"]] |
| `Scenarios.NoLinesNoTable` | src/App.jsx:55 | no lines, no line list, or no data all give `null` |
| `Scenarios.InputOrderMatters` | src/App.jsx:59-75 | lines at y0 0, 50, 5 give three rows, because grouping follows input order |
| `Clipboard.JoinCountsSeparators` | src/App.jsx:286 | joining n > 0 pieces that do not contain the separator gives text with exactly n - 1 separators |
| `Clipboard.JoinKeepsOut` | src/App.jsx:286 | a character that is not the separator and not in any piece is not in the joined text |
| `Clipboard.SplitJoin` | src/App.jsx:286 | splitting the joined text on the separator gives the pieces back, when no piece holds the separator |
| `Clipboard.NewlineCount` | src/App.jsx:286 | a table of n > 0 rows whose cells hold no newline is copied with exactly n - 1 newlines, whatever its tabs and empty rows |
| `Clipboard.ClipboardRoundTrip` | src/App.jsx:286 | for a table of n > 0 non-empty rows whose cells hold no tab or newline, the clipboard text has n - 1 newlines and splitting on newlines then tabs gives the table back |
| `Clipboard.FormattedTableNewlines` | src/App.jsx:286 | the copy of every table `formatTableData` returns from lines whose texts hold no newline has one newline fewer than the table has rows |
| `Clipboard.FormattedTableRoundTrip` | src/App.jsx:286 | the same holds for every table `formatTableData` returns from lines whose texts hold no tab or newline |
| `Extraction.PageSegMode` | src/App.jsx:133 | table mode asks the engine for page-segmentation mode "6", text mode for "3" |
| `Extraction.Recognized` | src/App.jsx:140-145 | text mode keeps the transcript verbatim; table mode gives the result of `formatTableData` on the recognition result, which is `null` exactly when there are no lines |
| `Extraction.ModesReadDisjointParts` | src/App.jsx:140-145 | text mode does not depend on the lines and table mode does not depend on the transcript |
| `Extraction.TextModeVerbatim` | src/App.jsx:144 | the transcript "Hello\nWorld" comes out unchanged in text mode |

## Left out

- React state, hooks and rendering (`renderTable` and the JSX), the drop zone and `FileReader`: user interface and I/O.
- The OCR worker lifecycle (`createWorker`, `loadLanguage`, `initialize`, `recognize`, `terminate`), the progress logger, and the other engine parameters (`preserve_interword_spaces`, the character whitelist): calls into a foreign library. The recognition result is an input of the model.
- Canvas operations (`getContext`, `getImageData`, `putImageData`, `drawImage`, `toBlob`): browser I/O. Only the pixel loop is modelled, on an array the caller provides.
- Crop scaling (`scaleX`, `scaleY` and the `crop.* * scale` products): floating-point arithmetic on display sizes.
- `centerAspectCrop` and `onImageLoad`: a wrapper over the crop library.
- The try/catch/finally error path and `navigator.clipboard.writeText`: side effects. Only the string built for the clipboard is modelled.
- `Binarize.Binarize`: requires a buffer whose length is a multiple of 4, as canvas `ImageData` always has (4 bytes per pixel). Other lengths are not modelled.
- `RowSort.SortRowInPlace`: is an insertion sort, not the browser's own sort algorithm. `SortedByXUnique` shows that any stable sort by `x0` gives the same result.
- `TableFormat.FormatTableData`: the rows are values. Each row is copied to a fresh array, sorted in place there, and read back; the aliasing of the row arrays in the source is not modelled.
- `Extraction.Recognized`: the mode is a two-valued datatype. In the source it is the string `'text'` or `'table'` from the selector.
