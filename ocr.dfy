/** The data the extractor receives from the OCR engine and the pixel
    buffer it hands to it (src/App.jsx). */
module Ocr {
  import opened Wrappers

  /** One byte of a canvas `ImageData` buffer (a Uint8ClampedArray). */
  newtype byte = x: int | 0 <= x < 256

  /** The bounding box the engine reports for a recognized line, in image
      pixel coordinates. Only `x0` and `y0` are read by the extractor. */
  datatype BBox = BBox(x0: int, y0: int, x1: int, y1: int)

  /** One recognized line of text: an element of `result.data.lines`. */
  datatype Line = Line(text: string, bbox: BBox)

  /** The `data` part of a recognition result: the verbatim transcript
      and, possibly missing, the list of recognized lines. */
  datatype Page = Page(text: string, lines: Option<seq<Line>>)

  /** The recognition mode chosen in the mode selector. */
  datatype Mode = Text | Table
}
