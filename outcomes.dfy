/** Outcomes of the foreign calls and of the converter's own steps. */
module Outcomes {

  /** The result of a foreign call that may raise: None when it raised. */
  datatype Option<T> = None | Some(value: T) {
    function GetOr(default: T): T {
      match this
      case Some(v) => v
      case None => default
    }
  }

  /** Why a conversion step raised an exception instead of returning. */
  datatype Error =
    | HeaderCellIsNone      // `" | ".join(headers)` met a None header cell
    | DocumentUnreadable    // `pdfplumber.open` raised
    | TextExtractionFailed  // `page.extract_text()` raised on some page
    | RasterisationFailed   // `pdf2image.convert_from_path` raised

  /** A value, or the exception that replaced it. */
  datatype Result<T> = Ok(value: T) | Err(error: Error)
}
