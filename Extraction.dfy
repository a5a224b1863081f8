/**
 * `extractTextFromFile`, of which the recruiter dashboard, the job-seeker
 * dashboard and the chat widget each hold a copy. The copies read the file,
 * dispatch on the lower-cased name (`.pdf`, then `.docx`, everything else as
 * UTF-8 text) and differ only in the error they reject with when a library
 * throws. The chat widget's copy, as written, also skips the UTF-8 decoding;
 * `ChatbotWidget.AttachmentTextAsWritten` models that.
 */
module Extraction {
  import opened Text
  import opened Browser
  import Utf8

  /** Which component's copy of `extractTextFromFile`. */
  datatype Variant = RecruiterCopy | JobSeekerCopy | ChatbotCopy

  /** The branch a file name selects. There is no "unsupported" outcome. */
  datatype Format = PdfFormat | DocxFormat | Utf8Format

  /**
   * What an extraction rejects with: the reader's error event, which carries no
   * message, or an `Error` with its message.
   */
  datatype ExtractError = ReadEvent | Thrown(message: string)

  const ReadFailedMessage := "Failed to read file."

  function Route(name: string): Format
  {
    if EndsWith(Lower(name), ".pdf") then PdfFormat
    else if EndsWith(Lower(name), ".docx") then DocxFormat
    else Utf8Format
  }

  /** Dispatch looks only at the lower-cased name, so any spelling of a name routes alike. */
  lemma RouteIgnoresCase(name: string)
    ensures Route(Lower(name)) == Route(name)
  {
    LowerIdempotent(name);
  }

  /**
   * A name whose extension lower-cases to `.pdf` is parsed as PDF and one
   * lower-casing to `.docx` as DOCX, whatever precedes it; a `.txt` name, or any
   * other, is decoded as UTF-8 text.
   */
  lemma RouteBySuffix(stem: string, ext: string)
    ensures Lower(ext) == ".pdf" ==> Route(stem + ext) == PdfFormat
    ensures Lower(ext) == ".docx" ==> Route(stem + ext) == DocxFormat
    ensures ext == ".txt" ==> Route(stem + ext) == Utf8Format
  {
    LowerAppend(stem, ext);
    EndsWithAppend(Lower(stem), Lower(ext));
    if Lower(ext) == ".docx" {
      RouteDocx(Lower(stem));
    } else if ext == ".txt" {
      assert Lower(ext) == ".txt";
      RouteTxt(Lower(stem));
    }
  }

  /** A lower-cased name ending in `.docx` does not end in `.pdf`. */
  lemma RouteDocx(l: string)
    ensures !EndsWith(l + ".docx", ".pdf")
  {
    var s := l + ".docx";
    assert s[|s| - 4..] == "docx";
  }

  /** A lower-cased name ending in `.txt` ends in neither `.pdf` nor `.docx`. */
  lemma RouteTxt(l: string)
    ensures !EndsWith(l + ".txt", ".pdf") && !EndsWith(l + ".txt", ".docx")
  {
    var s := l + ".txt";
    assert s[|s| - 4..] == ".txt";
    if |s| >= 5 {
      assert s[|s| - 5..][1..] == ".txt";
    }
  }

  // ---------------------------------------------------------------------------
  // PDF text assembly
  // ---------------------------------------------------------------------------

  /** One page's contribution: its items joined by single spaces, then a newline. */
  function PageText(items: seq<string>): string
  {
    Join(items, " ") + "\n"
  }

  predicate AllPagesRead(pages: seq<PdfPage>)
  {
    forall i :: 0 <= i < |pages| ==> pages[i].PageItems?
  }

  /** The text of pages 1..n in ascending order. */
  function PagesText(pages: seq<PdfPage>): string
    requires AllPagesRead(pages)
  {
    if pages == [] then ""
    else PagesText(pages[..|pages| - 1]) + PageText(pages[|pages| - 1].items)
  }

  /** The error of the lowest-numbered page that failed. */
  function FirstPageFailure(pages: seq<PdfPage>): string
    requires !AllPagesRead(pages)
  {
    if pages[0].PageFailure? then pages[0].message else FirstPageFailure(pages[1..])
  }

  /** The loop over pages 1..numPages: all of the text, or the first page's error. */
  function PdfText(doc: PdfDocument): Result<string, string>
  {
    if AllPagesRead(doc.pages) then Success(PagesText(doc.pages))
    else Failure(FirstPageFailure(doc.pages))
  }

  lemma {:induction false} PagesTextAppend(a: seq<PdfPage>, b: seq<PdfPage>)
    requires AllPagesRead(a) && AllPagesRead(b)
    ensures AllPagesRead(a + b)
    ensures PagesText(a + b) == PagesText(a) + PagesText(b)
    decreases |b|
  {
    assert forall i :: |a| <= i < |a + b| ==> (a + b)[i] == b[i - |a|];
    if b == [] {
      assert a + b == a;
    } else {
      var b' := b[..|b| - 1];
      assert AllPagesRead(b');
      PagesTextAppend(a, b');
      assert (a + b)[..|a + b| - 1] == a + b';
      assert (a + b)[|a + b| - 1] == b[|b| - 1];
      calc {
        PagesText(a + b);
        PagesText(a + b') + PageText(b[|b| - 1].items);
        PagesText(a) + PagesText(b') + PageText(b[|b| - 1].items);
        PagesText(a) + PagesText(b);
      }
    }
  }

  /**
   * Zero pages give the empty text, a page without items gives one newline,
   * and pages "A", "B", "C" give "A\nB\nC\n".
   */
  lemma PagesTextExamples()
    ensures PagesText([]) == ""
    ensures PagesText([PageItems([])]) == "\n"
    ensures PagesText([PageItems(["A"]), PageItems(["B"]), PageItems(["C"])]) == "A\nB\nC\n"
    ensures PagesText([PageItems(["Jane", "Doe"])]) == "Jane Doe\n"
  {
    var abc := [PageItems(["A"]), PageItems(["B"]), PageItems(["C"])];
    assert abc[..2] == [PageItems(["A"]), PageItems(["B"])];
    assert abc[..2][..1] == [PageItems(["A"])];
    assert [PageItems(["A"])][..0] == [];
  }

  lemma {:induction false} JoinAvoids(parts: seq<string>, sep: string, c: char)
    requires c !in sep
    requires forall k :: 0 <= k < |parts| ==> c !in parts[k]
    ensures c !in Join(parts, sep)
  {
    if |parts| > 1 {
      JoinAvoids(parts[1..], sep, c);
    }
  }

  /** Each page's line, in page order. */
  function PageLines(pages: seq<PdfPage>): seq<string>
    requires AllPagesRead(pages)
  {
    if pages == [] then [] else [Join(pages[0].items, " ")] + PageLines(pages[1..])
  }

  /**
   * Page order is kept: when no text item holds a newline, splitting the
   * assembled text at newlines yields exactly the pages' lines, page 1 first,
   * followed by the empty piece after the final newline.
   */
  lemma {:induction false} PagesTextLines(pages: seq<PdfPage>)
    requires AllPagesRead(pages)
    requires forall i, k :: 0 <= i < |pages| && 0 <= k < |pages[i].items| ==> '\n' !in pages[i].items[k]
    ensures Split(PagesText(pages), '\n') == PageLines(pages) + [""]
  {
    if pages != [] {
      var first, rest := pages[0], pages[1..];
      PagesTextAppend([first], rest);
      assert [first] + rest == pages;
      assert [first][..0] == [];
      var line := Join(first.items, " ");
      JoinAvoids(first.items, " ", '\n');
      assert PagesText([first]) == line + "\n";
      SplitHead(line, '\n', PagesText(rest));
      PagesTextLines(rest);
    }
  }

  /** The first failing page, whichever it is, decides the error. */
  lemma {:induction false} FirstPageFailureAt(pages: seq<PdfPage>, k: nat)
    requires k < |pages| && pages[k].PageFailure?
    requires AllPagesRead(pages[..k])
    ensures !AllPagesRead(pages)
    ensures FirstPageFailure(pages) == pages[k].message
  {
    assert !pages[k].PageItems?;
    if k > 0 {
      assert pages[0] == pages[..k][0];
      assert pages[1..][..k - 1] == pages[..k][1..];
      FirstPageFailureAt(pages[1..], k - 1);
    }
  }

  /** The page loop: `text +=` each page's line and a newline; a page that throws ends the loop. */
  method AssemblePdfText(doc: PdfDocument) returns (r: Result<string, string>)
    ensures r == PdfText(doc)
  {
    var pages := doc.pages;
    var text := "";
    var i := 1;
    while i <= |pages|
      invariant 1 <= i <= |pages| + 1
      invariant AllPagesRead(pages[..i - 1])
      invariant text == PagesText(pages[..i - 1])
    {
      match pages[i - 1]
      case PageFailure(m) =>
        FirstPageFailureAt(pages, i - 1);
        return Failure(m);
      case PageItems(items) =>
        assert pages[..i][..i - 1] == pages[..i - 1];
        text := text + Join(items, " ") + "\n";
      i := i + 1;
    }
    assert pages[..|pages|] == pages;
    r := Success(text);
  }

  // ---------------------------------------------------------------------------
  // The whole extraction
  // ---------------------------------------------------------------------------

  /** What each copy rejects with when pdf.js or mammoth throws `libraryMessage`. */
  function ParseFailure(v: Variant, name: string, libraryMessage: string): ExtractError
  {
    match v
    case RecruiterCopy => Thrown("Could not parse content from " + name + ".")
    case JobSeekerCopy => Thrown("Could not parse file content.")
    case ChatbotCopy => Thrown(libraryMessage)
  }

  /** The text `extractTextFromFile` resolves with, or what it rejects with. */
  function ExtractText(v: Variant, name: string, read: ReadResult, libs: Libraries): Result<string, ExtractError>
  {
    match read
    case ReadError => Failure(ReadEvent)
    case Loaded(None) => Failure(Thrown(ReadFailedMessage))
    case Loaded(Some(bytes)) =>
      match Route(name)
      case PdfFormat =>
        (match libs.pdfjs(bytes)
         case Failure(m) => Failure(ParseFailure(v, name, m))
         case Success(doc) =>
           match PdfText(doc)
           case Failure(m) => Failure(ParseFailure(v, name, m))
           case Success(t) => Success(t))
      case DocxFormat =>
        (match libs.mammoth(bytes)
         case Failure(m) => Failure(ParseFailure(v, name, m))
         case Success(t) => Success(t))
      case Utf8Format => Success(Utf8.TextDecode(bytes))
  }

  /** `extractTextFromFile(file)` of the given copy, reading through `read`. */
  method ExtractTextFromFile(v: Variant, file: File, read: ReadResult, libs: Libraries)
    returns (r: Result<string, ExtractError>)
    ensures r == ExtractText(v, file.name, read, libs)
  {
    if read.ReadError? {
      return Failure(ReadEvent);
    }
    if read.result.None? {
      return Failure(Thrown(ReadFailedMessage));
    }
    var bytes := read.result.value;
    var lowered := Lower(file.name);
    if EndsWith(lowered, ".pdf") {
      var document := libs.pdfjs(bytes);
      if document.Failure? {
        return Failure(ParseFailure(v, file.name, document.error));
      }
      var text := AssemblePdfText(document.value);
      if text.Failure? {
        return Failure(ParseFailure(v, file.name, text.error));
      }
      r := Success(text.value);
    } else if EndsWith(lowered, ".docx") {
      var raw := libs.mammoth(bytes);
      if raw.Failure? {
        return Failure(ParseFailure(v, file.name, raw.error));
      }
      r := Success(raw.value);
    } else {
      r := Success(Utf8.TextDecode(bytes));
    }
  }

  /**
   * The outcomes the copies share: a missing result and a read error reject, an
   * empty text file is the empty text, a text file's UTF-8 is decoded back
   * to the text, and a PDF with any failing page rejects as a whole, with no
   * partial text.
   */
  lemma ExtractTextOutcomes(v: Variant, name: string, s: string, libs: Libraries)
    ensures ExtractText(v, name, Loaded(None), libs) == Failure(Thrown("Failed to read file."))
    ensures ExtractText(v, name, ReadError, libs) == Failure(ReadEvent)
    ensures Route(name) == Utf8Format ==> ExtractText(v, name, Loaded(Some([])), libs) == Success("")
    ensures Route(name) == Utf8Format && (s == [] || s[0] != Utf8.ByteOrderMark)
      ==> ExtractText(v, name, Loaded(Some(Utf8.Encode(s))), libs) == Success(s)
  {
    if s == [] || s[0] != Utf8.ByteOrderMark {
      Utf8.TextDecodeEncode(s);
    }
    assert Utf8.Encode([]) == [];
  }

  /**
   * A PDF whose pages all read yields exactly their text; one failing page,
   * wherever it is, makes the whole file reject with the copy's parse error.
   */
  lemma PdfAllOrNothing(v: Variant, name: string, bytes: seq<byte>, libs: Libraries, k: nat)
    requires Route(name) == PdfFormat && libs.pdfjs(bytes).Success?
    ensures var pages := libs.pdfjs(bytes).value.pages;
      AllPagesRead(pages) ==> ExtractText(v, name, Loaded(Some(bytes)), libs) == Success(PagesText(pages))
    ensures var pages := libs.pdfjs(bytes).value.pages;
      k < |pages| && pages[k].PageFailure? && AllPagesRead(pages[..k])
      ==> ExtractText(v, name, Loaded(Some(bytes)), libs) == Failure(ParseFailure(v, name, pages[k].message))
  {
    var pages := libs.pdfjs(bytes).value.pages;
    if k < |pages| && pages[k].PageFailure? && AllPagesRead(pages[..k]) {
      FirstPageFailureAt(pages, k);
    }
  }

  /** The recruiter's copy names the file in its parse error; the job seeker's does not. */
  lemma ParseFailureMessages(name: string, m: string)
    ensures ParseFailure(RecruiterCopy, name, m).message == "Could not parse content from " + name + "."
    ensures ParseFailure(JobSeekerCopy, name, m).message == "Could not parse file content."
    ensures ParseFailure(ChatbotCopy, name, m).message == m
  {
  }
}
