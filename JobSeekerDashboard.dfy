/**
 * The job-seeker dashboard: one resume file is extracted as soon as it is
 * chosen, its text is previewed, and the text and a job description are sent
 * for a single analysis.
 */
module JobSeekerDashboard {
  import opened Text
  import opened Browser
  import Extraction
  import GeminiService

  const ReadFallbackMessage := "Could not read text from file."
  const MissingInputMessage := "Please provide both a resume and a job description."
  const AnalysisFallbackMessage := "An unexpected error occurred."

  /** `e.message || "Could not read text from file."`: the reader's error event has no message. */
  function SelectErrorMessage(e: Extraction.ExtractError): (m: string)
    ensures m != ""
    ensures e.Thrown? && e.message != "" ==> m == e.message
  {
    match e
    case ReadEvent => ReadFallbackMessage
    case Thrown(message) => if message != "" then message else ReadFallbackMessage
  }

  /** `err.message || "An unexpected error occurred."`. */
  function AnalysisErrorMessage(message: string): (m: string)
    ensures m != ""
    ensures message != "" ==> m == message
  {
    if message != "" then message else AnalysisFallbackMessage
  }

  /** The text and error `handleFileSelect` leaves behind for the chosen file. */
  function FileSelected(file: Option<File>, read: ReadResult, libs: Libraries): (r: (string, Option<string>))
  {
    match file
    case None => ("", None)
    case Some(f) =>
      match Extraction.ExtractText(Extraction.JobSeekerCopy, f.name, read, libs)
      case Success(text) => (text, None)
      case Failure(e) => ("", Some(SelectErrorMessage(e)))
  }

  /** The extracted-text preview condition `resumeText && !error`. */
  predicate PreviewShown(resumeText: string, error: Option<string>)
  {
    resumeText != "" && error.None?
  }

  /**
   * After a selection there is text or an error, never both; the preview shows
   * exactly when the file was extracted to a non-empty text; a failure always
   * leaves a non-empty error message.
   */
  lemma FileSelectedOutcomes(file: Option<File>, read: ReadResult, libs: Libraries)
    ensures var (text, error) := FileSelected(file, read, libs);
      && (text == "" || error.None?)
      && (error.Some? ==> error.value != "")
      && (PreviewShown(text, error) <==>
            (file.Some?
             && Extraction.ExtractText(Extraction.JobSeekerCopy, file.value.name, read, libs).Success?
             && Extraction.ExtractText(Extraction.JobSeekerCopy, file.value.name, read, libs).value != ""))
      && ((file.Some? && Extraction.ExtractText(Extraction.JobSeekerCopy, file.value.name, read, libs).Failure?)
            ==> error.Some? && text == "")
  {
  }

  /**
   * A library failure (pdf.js refusing the document, a page failing, or mammoth
   * failing) is reported with the copy's fixed message, not the library's.
   */
  lemma ParseFailureReported(f: File, bytes: seq<byte>, libs: Libraries)
    requires || (Extraction.Route(f.name) == Extraction.DocxFormat && libs.mammoth(bytes).Failure?)
             || (Extraction.Route(f.name) == Extraction.PdfFormat && libs.pdfjs(bytes).Failure?)
             || (Extraction.Route(f.name) == Extraction.PdfFormat && libs.pdfjs(bytes).Success?
                 && Extraction.PdfText(libs.pdfjs(bytes).value).Failure?)
    ensures FileSelected(Some(f), Loaded(Some(bytes)), libs) == ("", Some("Could not parse file content."))
  {
  }

  class Dashboard {
    var resumeFile: Option<File>
    var resumeText: string
    var jobDescription: string
    var analysis: Option<GeminiService.JobSeekerAnalysis>
    var isLoading: bool
    var error: Option<string>

    constructor ()
      ensures resumeFile == None && resumeText == "" && jobDescription == ""
      ensures analysis == None && !isLoading && error == None
    {
      resumeFile := None;
      resumeText := "";
      jobDescription := "";
      analysis := None;
      isLoading := false;
      error := None;
    }

    predicate ShowsPreview()
      reads this
    {
      PreviewShown(resumeText, error)
    }

    method SetJobDescription(text: string)
      modifies this
      ensures jobDescription == text && resumeFile == old(resumeFile) && resumeText == old(resumeText)
      ensures analysis == old(analysis) && isLoading == old(isLoading) && error == old(error)
    {
      jobDescription := text;
    }

    /** `handleFileSelect`: the text and error are cleared first, then set from the extraction. */
    method HandleFileSelect(file: Option<File>, read: ReadResult, libs: Libraries)
      modifies this
      ensures resumeFile == file && (resumeText, error) == FileSelected(file, read, libs)
      ensures jobDescription == old(jobDescription) && analysis == old(analysis) && isLoading == old(isLoading)
    {
      resumeFile := file;
      resumeText := "";
      error := None;
      if file.Some? {
        var text := Extraction.ExtractTextFromFile(Extraction.JobSeekerCopy, file.value, read, libs);
        match text {
          case Success(t) => resumeText := t;
          case Failure(e) => error := Some(SelectErrorMessage(e));
        }
      }
    }

    /** `handleAnalyze`, with the model's answer as `response`. */
    method HandleAnalyze(hasApiKey: bool, response: GeminiService.JobSeekerResponse)
      modifies this
      ensures resumeFile == old(resumeFile) && resumeText == old(resumeText) && jobDescription == old(jobDescription)
      // Without text or without a job description only the error is set.
      ensures old(resumeText) == "" || old(jobDescription) == ""
        ==> (error == Some(MissingInputMessage) && analysis == old(analysis) && isLoading == old(isLoading))
      // Otherwise the old analysis and error are cleared and replaced by the outcome.
      ensures old(resumeText) != "" && old(jobDescription) != "" ==>
        (!isLoading
         && match GeminiService.AnalyzeForJobSeeker(hasApiKey, response)
            case Success(a) => analysis == Some(a) && error == None
            case Failure(m) => analysis == None && error == Some(AnalysisErrorMessage(m)))
    {
      if resumeText == "" || jobDescription == "" {
        error := Some(MissingInputMessage);
        return;
      }
      isLoading := true;
      error := None;
      analysis := None;
      var result := GeminiService.AnalyzeForJobSeeker(hasApiKey, response);
      match result {
        case Success(a) => analysis := Some(a);
        case Failure(m) => error := Some(AnalysisErrorMessage(m));
      }
      isLoading := false;
    }
  }

  /**
   * A blank extracted document cannot be analysed: whatever the job
   * description, the guard refuses an empty resume text.
   */
  lemma EmptyTextRefused(f: File, libs: Libraries)
    requires Extraction.Route(f.name) == Extraction.Utf8Format
    ensures FileSelected(Some(f), Loaded(Some([])), libs) == ("", None)
    ensures !PreviewShown("", None)
  {
    Extraction.ExtractTextOutcomes(Extraction.JobSeekerCopy, f.name, "", libs);
  }
}
