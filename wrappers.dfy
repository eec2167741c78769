/** The absence-or-value datatype used for the JavaScript `null`/`undefined`
    results and optional fields of the extractor. */
module Wrappers {

  datatype Option<+T> = None | Some(value: T)
}
