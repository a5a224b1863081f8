/**
 * The document preview dialog: plain-text files are read as text when the
 * dialog opens, and the body shown is chosen from the lower-cased text after
 * the last dot of the file name.
 */
module DocumentPreviewModal {
  import opened Text
  import opened Browser

  const ReadErrorMessage: string := "Could not read this file."

  /** What the dialog body shows. */
  datatype Preview =
    | Spinner
    | PdfViewer
    | DocxViewer
    | PlainText(text: string)
    | NotAvailable

  /** How `readAsText` ends: `onload` with the text, or `onerror`. */
  datatype TextRead = TextLoaded(text: string) | TextReadError

  /** `name.split('.').pop()?.toLowerCase()`: the split is never empty, so there is always a last piece. */
  function FileType(name: string): string
  {
    var pieces := Split(name, '.');
    Lower(pieces[|pieces| - 1])
  }

  /** The extension, lower-cased, is the type of a name that has one. */
  lemma FileTypeOfExtension(stem: string, ext: string)
    requires '.' !in ext
    ensures FileType(stem + "." + ext) == Lower(ext)
  {
    SplitLast(stem, '.', ext);
    assert stem + "." + ext == stem + ['.'] + ext;
  }

  /** A name without a dot is its own type, lower-cased: a file called `PDF` is shown as a PDF. */
  lemma FileTypeWithoutDot(name: string)
    requires '.' !in name
    ensures FileType(name) == Lower(name)
  {
    SplitWithoutSeparator(name, '.');
  }

  /** The effect's trigger: a `text/plain` MIME type, or a name ending in `.txt` (case-sensitively). */
  predicate ShouldLoadText(name: string, mimeType: string)
  {
    mimeType == "text/plain" || EndsWith(name, ".txt")
  }

  /** `renderPreview`: the spinner first, then the dispatch on the type; text only when there is some. */
  function Render(name: string, isLoading: bool, textContent: Option<string>): (p: Preview)
    ensures p.PlainText? ==> FileType(name) == "txt" && textContent == Some(p.text) && p.text != ""
  {
    var fileType := FileType(name);
    if isLoading then Spinner
    else if fileType == "pdf" then PdfViewer
    else if fileType == "docx" then DocxViewer
    else if fileType == "txt" && textContent.Some? && textContent.value != "" then PlainText(textContent.value)
    else NotAvailable
  }

  /**
   * Every outcome of the dispatch and its condition: the spinner whenever
   * loading, whatever the type; otherwise the viewer for `pdf` and `docx`,
   * the text for `txt` with non-empty text, and the fallback for the rest.
   */
  lemma RenderOutcomes(name: string, isLoading: bool, textContent: Option<string>)
    ensures Render(name, isLoading, textContent) == Spinner <==> isLoading
    ensures Render(name, isLoading, textContent) == PdfViewer <==> !isLoading && FileType(name) == "pdf"
    ensures Render(name, isLoading, textContent) == DocxViewer <==> !isLoading && FileType(name) == "docx"
    ensures Render(name, isLoading, textContent).PlainText? <==>
      !isLoading && FileType(name) == "txt" && textContent.Some? && textContent.value != ""
    ensures Render(name, isLoading, textContent) == NotAvailable <==>
      (!isLoading && FileType(name) !in {"pdf", "docx"} && (FileType(name) != "txt" || textContent.None? || textContent.value == ""))
  {
  }

  /** The text the effect stores when a read ends. */
  function StoredText(read: TextRead): (t: string)
    ensures read.TextReadError? ==> t != ""
  {
    match read
    case TextLoaded(text) => text
    case TextReadError => ReadErrorMessage
  }

  /** A `.txt` file whose read failed shows the error text in place of its contents. */
  lemma ReadErrorShown(stem: string)
    ensures Render(stem + ".txt", false, Some(StoredText(TextReadError))) == PlainText(ReadErrorMessage)
  {
    FileTypeOfExtension(stem, "txt");
    assert stem + "." + "txt" == stem + ".txt";
    LowerFixed("txt");
  }

  /**
   * An upper-case `.TXT` file without the `text/plain` MIME type is never
   * read, so, although its type is `txt`, it gets the fallback.
   */
  lemma UpperCaseTextFallsThrough(stem: string, mimeType: string)
    requires mimeType != "text/plain"
    ensures !ShouldLoadText(stem + ".TXT", mimeType)
    ensures FileType(stem + ".TXT") == "txt"
    ensures Render(stem + ".TXT", false, None) == NotAvailable
  {
    var name := stem + ".TXT";
    assert name[|name| - 4..] == ".TXT";
    assert ".TXT"[1] != ".txt"[1];
    FileTypeOfExtension(stem, "TXT");
    assert stem + "." + "TXT" == name;
    assert Lower("TXT") == "txt";
  }

  class Modal {
    const file: File
    var textContent: Option<string>
    var isLoading: bool

    constructor (file: File)
      ensures this.file == file && textContent == None && !isLoading
    {
      this.file := file;
      textContent := None;
      isLoading := false;
    }

    /** The effect run for the file: start reading it as text when it qualifies. */
    method BeginLoad()
      modifies this
      ensures isLoading == (old(isLoading) || ShouldLoadText(file.name, file.mimeType))
      ensures textContent == old(textContent)
    {
      if ShouldLoadText(file.name, file.mimeType) {
        isLoading := true;
      }
    }

    /**
     * `onload` or `onerror` of the read the effect started: store the text,
     * or the error message, and stop loading.
     */
    method FinishLoad(read: TextRead)
      requires isLoading
      modifies this
      ensures textContent == Some(StoredText(read)) && !isLoading
    {
      textContent := Some(StoredText(read));
      isLoading := false;
    }

    /** The body the dialog shows now. */
    function Body(): (p: Preview)
      reads this
      ensures isLoading ==> p == Spinner
    {
      Render(file.name, isLoading, textContent)
    }
  }
}
