/** The mode-dependent parts of `processSelectedRegion`
    (src/App.jsx:85-155): the page-segmentation parameter handed to the
    engine and what is kept of the recognition result. */
module Extraction {
  import opened Wrappers
  import opened Ocr
  import opened TableFormat

  /** `tessedit_pageseg_mode` (src/App.jsx:133): "6" (one uniform block of
      text) for tables, "3" (automatic page segmentation with column
      detection) for free text. */
  function PageSegMode(mode: Mode): (psm: string)
    ensures mode == Table ==> psm == "6"
    ensures mode == Text ==> psm == "3"
  {
    if mode == Table then "6" else "3"
  }

  /** What a finished recognition leaves for display. */
  datatype Output = TableOutput(table: Option<seq<seq<string>>>) | TextOutput(text: string)

  /** The dispatch of src/App.jsx:140-145: in table mode the lines go
      through `formatTableData`; in text mode the engine's transcript is
      kept verbatim and the lines are not looked at. */
  function Recognized(mode: Mode, data: Page): (out: Output)
    ensures out.TextOutput? <==> mode == Text
    ensures mode == Text ==> out.text == data.text
    ensures mode == Table ==> (out.table.None? <==> data.lines.None? || data.lines.value == [])
    ensures mode == Table ==> out.table == FormatTable(Some(data))
  {
    match mode
    case Table => TableOutput(FormatTable(Some(data)))
    case Text => TextOutput(data.text)
  }

  /** Text mode never depends on the lines and table mode never depends on
      the transcript. */
  lemma ModesReadDisjointParts(text: string, text': string, lines: Option<seq<Line>>, lines': Option<seq<Line>>)
    ensures Recognized(Text, Page(text, lines)) == Recognized(Text, Page(text, lines'))
    ensures Recognized(Table, Page(text, lines)) == Recognized(Table, Page(text', lines))
  {
  }

  /** A transcript "Hello\nWorld" in text mode comes out unchanged. */
  lemma TextModeVerbatim(lines: Option<seq<Line>>)
    ensures Recognized(Text, Page("Hello\nWorld", lines)) == TextOutput("Hello\nWorld")
  {
  }
}
