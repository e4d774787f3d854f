/** The payload handed back by the document-analysis service, as the OMR
    post-processing receives it. Every field the processor guards with
    `!= null`, `?? []` or `Array.isArray` is optional here. */
module Detector {

  datatype Option<T> = None | Some(value: T) {
    /** JavaScript's `x ?? d`: the value when present, `d` otherwise. */
    function GetOr(d: T): (r: T)
      ensures Some? ==> r == value
      ensures None? ==> r == d
    {
      match this
      case Some(v) => v
      case None => d
    }
  }

  /** A polygon vertex; a missing coordinate stands for JavaScript's `undefined`. */
  datatype Point = Point(x: Option<real>, y: Option<real>)

  /** A selection mark candidate: `state`, `confidence` and `polygon` may each be
      absent (`polygon` is `None` when it is not an array). */
  datatype RawMark = RawMark(state: Option<string>, confidence: Option<real>, polygon: Option<seq<Point>>)

  /** One analysed page; `selectionMarks` may be absent. */
  datatype Page = Page(selectionMarks: Option<seq<RawMark>>)

  /** What a failing upstream step throws: an `Error` object with its message,
      or any other value. */
  datatype Thrown = ErrorObject(message: string) | OtherValue

  /** The outcome of everything before the post-processing (image re-encoding,
      credential lookup, the analysis call): either the pages (possibly absent)
      or the value that was thrown. */
  datatype Analysis = Analyzed(pages: Option<seq<Page>>) | Threw(error: Thrown)
}
