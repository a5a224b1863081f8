/**
 * The recruiter dashboard: a list of resume files and a job description are
 * analysed file by file, in order; a file whose extraction or analysis fails
 * is dropped without a trace, and the progress bar advances after every file.
 */
module RecruiterDashboard {
  import opened Text
  import opened Browser
  import Extraction
  import GeminiService

  /** A kept result: the analysis with the file's name and extracted text (`id` and `credlyVerification` left out). */
  datatype CandidateMatch = CandidateMatch(analysis: GeminiService.RecruiterAnalysis, fileName: string, resumeText: string)

  /**
   * What the outside world answers during one batch: the read of the file at
   * each position, the model's reply to the analysis at each position, the
   * parsing libraries and whether an API key is configured.
   */
  datatype Batch = Batch(
    read: nat -> ReadResult,
    reply: nat -> GeminiService.RecruiterResponse,
    libs: Libraries,
    hasApiKey: bool)

  const MissingInputMessage := "Please upload at least one resume and provide a job description."

  /** What processing the file at `position` contributes: its result, or nothing if any step throws. */
  function Outcome(file: File, position: nat, batch: Batch): (o: Option<CandidateMatch>)
    ensures o.Some? ==> o.value.fileName == file.name
    ensures o.Some? <==> (Extraction.ExtractText(Extraction.RecruiterCopy, file.name, batch.read(position), batch.libs).Success?
                          && GeminiService.RecruiterAnalysisOf(batch.hasApiKey, batch.reply(position)).Some?)
    ensures o.Some? ==> Success(o.value.resumeText) == Extraction.ExtractText(Extraction.RecruiterCopy, file.name, batch.read(position), batch.libs)
  {
    match Extraction.ExtractText(Extraction.RecruiterCopy, file.name, batch.read(position), batch.libs)
    case Failure(_) => None
    case Success(text) =>
      match GeminiService.RecruiterAnalysisOf(batch.hasApiKey, batch.reply(position))
      case None => None
      case Some(a) => Some(CandidateMatch(a, file.name, text))
  }

  /** The outcome of every file of the batch, by position. */
  function Outcomes(files: seq<File>, batch: Batch): (os: seq<Option<CandidateMatch>>)
    ensures |os| == |files|
    ensures forall i :: 0 <= i < |files| ==> os[i] == Outcome(files[i], i, batch)
  {
    seq(|files|, i requires 0 <= i < |files| => Outcome(files[i], i, batch))
  }

  /** The values present in `os`, in order. */
  function Present<T>(os: seq<Option<T>>): seq<T>
  {
    if os == [] then []
    else
      var n := |os| - 1;
      match os[n]
      case Some(c) => Present(os[..n]) + [c]
      case None => Present(os[..n])
  }

  /** The results of the batch over `files`: the outcomes that are present, in file order. */
  function Results(files: seq<File>, batch: Batch): seq<CandidateMatch>
  {
    Present(Outcomes(files, batch))
  }

  predicate Increasing(idx: seq<nat>)
  {
    forall i, j :: 0 <= i < j < |idx| ==> idx[i] < idx[j]
  }

  /**
   * The positions of the present values: strictly increasing, each holding its
   * value, and every position left out empty.
   */
  function PresentPositions<T>(os: seq<Option<T>>): (idx: seq<nat>)
    ensures |idx| == |Present(os)| && Increasing(idx)
    ensures forall k :: 0 <= k < |idx| ==> idx[k] < |os| && os[idx[k]] == Some(Present(os)[k])
    ensures forall i :: 0 <= i < |os| && i !in idx ==> os[i].None?
  {
    if os == [] then []
    else
      var n := |os| - 1;
      var front := PresentPositions(os[..n]);
      if os[n].Some? then front + [n] else front
  }

  /**
   * The positions of the kept files: strictly increasing, so results come in
   * file order; every result is the outcome of its own file; and every
   * position left out is one whose outcome failed.
   */
  function KeptPositions(files: seq<File>, batch: Batch): (idx: seq<nat>)
    ensures |idx| == |Results(files, batch)| && Increasing(idx)
    ensures forall k :: 0 <= k < |idx| ==> idx[k] < |files| && Outcome(files[idx[k]], idx[k], batch) == Some(Results(files, batch)[k])
    ensures forall i :: 0 <= i < |files| && i !in idx ==> Outcome(files[i], i, batch).None?
  {
    PresentPositions(Outcomes(files, batch))
  }

  /** One more position adds its value, if present. */
  lemma PresentStep<T>(os: seq<Option<T>>, i: nat)
    requires i < |os|
    ensures Present(os[..i + 1]) == Present(os[..i]) + (if os[i].Some? then [os[i].value] else [])
  {
    assert os[..i + 1][..i] == os[..i];
  }

  /** There are never more values present than positions, and as many exactly when none is empty. */
  lemma {:induction false} PresentCount<T>(os: seq<Option<T>>)
    ensures |Present(os)| <= |os|
    ensures |Present(os)| == |os| <==> forall i :: 0 <= i < |os| ==> os[i].Some?
  {
    if os != [] {
      var n := |os| - 1;
      PresentCount(os[..n]);
      assert forall i :: 0 <= i < n ==> os[..n][i] == os[i];
    }
  }

  /** There are never more results than files, and as many exactly when every file succeeds. */
  lemma ResultsCount(files: seq<File>, batch: Batch)
    ensures |Results(files, batch)| <= |files|
    ensures |Results(files, batch)| == |files| <==> forall i :: 0 <= i < |files| ==> Outcome(files[i], i, batch).Some?
  {
    PresentCount(Outcomes(files, batch));
  }

  /** A failed file leaves no record: the results are those of the other files. */
  lemma ResultsSkipFailure(before: seq<File>, f: File, batch: Batch)
    requires Outcome(f, |before|, batch).None?
    ensures Results(before + [f], batch) == Results(before, batch)
  {
    var os := Outcomes(before + [f], batch);
    assert os[..|before|] == Outcomes(before, batch);
  }

  /** The progress value after the file at position `i` of `n`: `(i + 1) / n * 100`. */
  function ProgressAfter(i: nat, n: nat): real
    requires i < n
  {
    (i + 1) as real / n as real * 100.0
  }

  /** The values the bar takes after each of the first `i` files of `n`. */
  function Ticks(i: nat, n: nat): seq<real>
    requires i <= n
  {
    seq(i, k requires 0 <= k < i => ProgressAfter(k, n))
  }

  /** Every value the progress bar takes during a batch of `n`: 0, then one per file. */
  function ProgressSteps(n: nat): seq<real>
  {
    [0.0] + Ticks(n, n)
  }

  /** Progress never goes back, stays within [0, 100] and ends at 100. */
  lemma ProgressMonotone(n: nat)
    requires n > 0
    ensures var s := ProgressSteps(n);
      |s| == n + 1 && s[0] == 0.0 && s[n] == 100.0
      && (forall i, j :: 0 <= i <= j <= n ==> s[i] <= s[j])
      && (forall i :: 0 <= i <= n ==> 0.0 <= s[i] <= 100.0)
  {
    var s := ProgressSteps(n);
    forall i, j | 0 <= i <= j <= n ensures s[i] <= s[j] {
      if i > 0 {
        ProgressAfterMonotone(i - 1, j - 1, n);
      }
    }
    forall i | 0 < i <= n ensures s[i] <= 100.0 {
      ProgressAfterMonotone(i - 1, n - 1, n);
    }
  }

  /** The bar's values up to the file at position `i`, and one more. */
  lemma TicksStep(i: nat, n: nat)
    requires i < n
    ensures Ticks(i + 1, n) == Ticks(i, n) + [ProgressAfter(i, n)]
  {
  }

  lemma ProgressAfterMonotone(i: nat, j: nat, n: nat)
    requires i <= j < n
    ensures 0.0 < ProgressAfter(i, n) <= ProgressAfter(j, n)
    ensures ProgressAfter(n - 1, n) == 100.0
  {
    var d := n as real;
    assert (i + 1) as real / d <= (j + 1) as real / d;
    assert d / d == 1.0;
  }

  class Dashboard {
    var resumeFiles: seq<File>
    var jobDescription: string
    var analysisResults: seq<CandidateMatch>
    var isLoading: bool
    var error: Option<string>
    var progress: real
    /** Every value set on the progress bar, in order. */
    ghost var progressLog: seq<real>

    constructor ()
      ensures resumeFiles == [] && jobDescription == "" && analysisResults == []
      ensures !isLoading && error == None && progress == 0.0 && progressLog == []
    {
      resumeFiles := [];
      jobDescription := "";
      analysisResults := [];
      isLoading := false;
      error := None;
      progress := 0.0;
      progressLog := [];
    }

    /** The upload list's `onFilesSelect`. */
    method SetResumeFiles(files: seq<File>)
      modifies this
      ensures resumeFiles == files && jobDescription == old(jobDescription) && analysisResults == old(analysisResults)
      ensures isLoading == old(isLoading) && error == old(error) && progress == old(progress) && progressLog == old(progressLog)
    {
      resumeFiles := files;
    }

    method SetJobDescription(text: string)
      modifies this
      ensures jobDescription == text && resumeFiles == old(resumeFiles) && analysisResults == old(analysisResults)
      ensures isLoading == old(isLoading) && error == old(error) && progress == old(progress) && progressLog == old(progressLog)
    {
      jobDescription := text;
    }

    /** The body of the loop for one file: extraction, then analysis; any throw drops the file. */
    method ProcessFile(file: File, position: nat, batch: Batch) returns (o: Option<CandidateMatch>)
      ensures o == Outcome(file, position, batch)
    {
      var text := Extraction.ExtractTextFromFile(Extraction.RecruiterCopy, file, batch.read(position), batch.libs);
      if text.Failure? {
        return None;
      }
      var analysis := GeminiService.AnalyzeForRecruiter(batch.hasApiKey, batch.reply(position));
      GeminiService.RecruiterAnalysisAgrees(batch.hasApiKey, batch.reply(position));
      if analysis.Failure? {
        return None;
      }
      o := Some(CandidateMatch(analysis.value, file.name, text.value));
    }

    /**
     * The loop of `handleAnalyze`: each file in turn, its outcome kept if
     * present, and the bar advanced after it.
     */
    method RunBatch(files: seq<File>, batch: Batch) returns (results: seq<CandidateMatch>)
      requires files != []
      modifies this`progress, this`progressLog
      ensures results == Results(files, batch)
      ensures progress == 100.0 && progressLog == old(progressLog) + Ticks(|files|, |files|)
    {
      var n := |files|;
      ghost var os := Outcomes(files, batch);
      ghost var log0 := progressLog;
      results := [];
      var i := 0;
      while i < n
        invariant 0 <= i <= n
        invariant results == Present(os[..i])
        invariant progressLog == log0 + Ticks(i, n)
        invariant i > 0 ==> progress == ProgressAfter(i - 1, n)
      {
        var outcome := ProcessFile(files[i], i, batch);
        PresentStep(os, i);
        if outcome.Some? {
          results := results + [outcome.value];
        }
        progress := ProgressAfter(i, n);
        progressLog := progressLog + [progress];
        TicksStep(i, n);
        i := i + 1;
      }
      assert os[..n] == os;
      ProgressAfterMonotone(n - 1, n - 1, n);
    }

    /** `handleAnalyze`. */
    method HandleAnalyze(batch: Batch)
      modifies this
      ensures resumeFiles == old(resumeFiles) && jobDescription == old(jobDescription)
      // Without files or without a job description only the error is set.
      ensures old(resumeFiles) == [] || old(jobDescription) == ""
        ==> (error == Some(MissingInputMessage) && analysisResults == old(analysisResults)
             && isLoading == old(isLoading) && progress == old(progress) && progressLog == old(progressLog))
      // Otherwise the results of the batch are published, with no error, the
      // bar full and loading over.
      ensures old(resumeFiles) != [] && old(jobDescription) != ""
        ==> (error == None && !isLoading && analysisResults == Results(old(resumeFiles), batch)
             && progress == 100.0 && progressLog == old(progressLog) + ProgressSteps(|old(resumeFiles)|))
    {
      if |resumeFiles| == 0 || jobDescription == "" {
        error := Some(MissingInputMessage);
        return;
      }
      isLoading := true;
      error := None;
      analysisResults := [];
      progress := 0.0;
      progressLog := progressLog + [0.0];

      var results := RunBatch(resumeFiles, batch);
      analysisResults := results;
      isLoading := false;
    }
  }
}
