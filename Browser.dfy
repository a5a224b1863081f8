/**
 * The browser-side collaborators of resume extraction, reduced to what the
 * components observe of them: a picked `File`, the outcome of a `FileReader`
 * read, and the two parsing libraries (pdf.js and mammoth) as oracles.
 */
module Browser {
  import opened Text

  /**
   * A `File` picked by the user. Its identity is the object itself: two
   * files may carry the same name and still be different files.
   */
  class File {
    const name: string
    const mimeType: string

    constructor (name: string, mimeType: string)
      ensures this.name == name && this.mimeType == mimeType
    {
      this.name := name;
      this.mimeType := mimeType;
    }
  }

  /**
   * What `readAsArrayBuffer` delivers: the `onerror` event, or `onload` with a
   * result that may be missing. An empty buffer is a present result.
   */
  datatype ReadResult = ReadError | Loaded(result: Option<seq<byte>>)

  /** One page as pdf.js gives it: the `str` of every text item, or the error it threw. */
  datatype PdfPage = PageItems(items: seq<string>) | PageFailure(message: string)

  /** An opened PDF: `numPages` is `|pages|`, page `i` (1-based) is `pages[i - 1]`. */
  datatype PdfDocument = PdfDocument(pages: seq<PdfPage>)

  /**
   * The two global parsing libraries: pdf.js's `getDocument` (an opened
   * document or the error message it rejected with) and mammoth's
   * `extractRawText` (the raw text or an error message).
   */
  datatype Libraries = Libraries(
    pdfjs: seq<byte> -> Result<PdfDocument, string>,
    mammoth: seq<byte> -> Result<string, string>)
}
