/**
 * The service layer around the language-model calls: how a thrown error is
 * turned into the message the dashboards show (`parseGeminiError`), how the
 * recruiter analysis merges the search sources the model consulted into the
 * parsed result, and what each analysis call resolves or rejects with once the
 * model's response (an oracle here) is known.
 */
module GeminiService {
  import opened Text
  import opened GeminiMessages

  /**
   * What a `catch` hands to `parseGeminiError`: a value without a string
   * `message`, or one with a message together with what `JSON.parse` of that
   * message yields for `error.message` (None when parsing throws or there is no
   * such field).
   */
  datatype Thrown = NoStringMessage | WithMessage(message: string, embedded: Option<string>)


  /** The four recognised kinds of failure, in the order they are tested, and the rest. */
  datatype Category = Overloaded | InvalidKey | Quota | BadFormat | Unclassified

  /** The message that is classified: the embedded `error.message` of a JSON message, else the message. */
  function EffectiveMessage(message: string, embedded: Option<string>): string
  {
    if embedded.Some? && embedded.value != "" && StartsWith(Trim(message), "{") then embedded.value
    else message
  }

  /** The ordered chain of substring tests on the lower-cased message; the first hit wins. */
  function Classify(lower: string): Category
  {
    if Includes(lower, "overloaded") || Includes(lower, "503") then Overloaded
    else if Includes(lower, "api key not valid") || Includes(lower, "permission denied") then InvalidKey
    else if Includes(lower, "billing") || Includes(lower, "quota") then Quota
    else if Includes(lower, FormatPhrase) then BadFormat
    else Unclassified
  }

  function CategoryMessage(c: Category, original: string): string
  {
    match c
    case Overloaded => OverloadedMessage
    case InvalidKey => InvalidKeyMessage
    case Quota => QuotaMessage
    case BadFormat => FormatMessage
    case Unclassified => original
  }

  /** `parseGeminiError(error)`. */
  function ParseGeminiError(e: Thrown): string
  {
    match e
    case NoStringMessage => GenericMessage
    case WithMessage(m, embedded) =>
      var effective := EffectiveMessage(m, embedded);
      CategoryMessage(Classify(Lower(effective)), effective)
  }

  /** The tests are case-insensitive: a keyword anywhere in the message, in any case, is found. */
  lemma KeywordAnywhere(before: string, keyword: string, after: string)
    ensures Includes(Lower(before + keyword + after), Lower(keyword))
  {
    LowerAppend(before + keyword, after);
    LowerAppend(before, keyword);
    IncludesInside(Lower(before), Lower(keyword), Lower(after));
  }

  /**
   * The tests are ordered and the first hit wins: a message holding both "503"
   * and "QUOTA" is reported as an overload.
   */
  lemma OverloadBeforeQuota(a: string, b: string, c: string)
    ensures ParseGeminiError(WithMessage(a + "503" + b + "QUOTA" + c, None)) == OverloadedMessage
  {
    assert Lower("503") == "503";
    KeywordAnywhere(a, "503", b + "QUOTA" + c);
    assert a + "503" + (b + "QUOTA" + c) == a + "503" + b + "QUOTA" + c;
  }

  /**
   * "permission denied" written in any case marks a key problem unless an
   * overload keyword is present too.
   */
  lemma PermissionDeniedAnyCase(a: string, k: string, b: string)
    requires Lower(k) == "permission denied"
    requires !Includes(Lower(a + k + b), "overloaded") && !Includes(Lower(a + k + b), "503")
    ensures ParseGeminiError(WithMessage(a + k + b, None)) == InvalidKeyMessage
  {
    KeywordAnywhere(a, k, b);
  }

  /**
   * The JSON unwrap: a message that starts, after white space, with `{` and
   * carries a non-empty `error.message` is classified by that inner message;
   * otherwise, parse failure included, the message itself is.
   */
  lemma EmbeddedMessage(m: string, embedded: Option<string>)
    ensures StartsWith(Trim(m), "{") && embedded.Some? && embedded.value != ""
      ==> ParseGeminiError(WithMessage(m, embedded)) == ParseGeminiError(WithMessage(embedded.value, None))
    ensures !StartsWith(Trim(m), "{") || embedded == None
      ==> ParseGeminiError(WithMessage(m, embedded)) == ParseGeminiError(WithMessage(m, None))
    ensures Classify(Lower(EffectiveMessage(m, embedded))) == Unclassified
      ==> ParseGeminiError(WithMessage(m, embedded)) == EffectiveMessage(m, embedded)
  {
  }

  /** Every result is one of the fixed messages or the (possibly unwrapped) message unchanged. */
  lemma ParseGeminiErrorRange(e: Thrown)
    ensures var r := ParseGeminiError(e);
      r in {GenericMessage, OverloadedMessage, InvalidKeyMessage, QuotaMessage, FormatMessage}
      || (e.WithMessage? && r == EffectiveMessage(e.message, e.embedded))
    ensures e.NoStringMessage? ==> ParseGeminiError(e) == GenericMessage
  {
  }

  // ---------------------------------------------------------------------------
  // Consulted sources
  // ---------------------------------------------------------------------------

  /** A grounding chunk and its `web?.uri`. */
  datatype GroundingChunk = GroundingChunk(webUri: Option<string>)

  datatype Verification = Verification(status: string, consultedSources: Option<seq<string>>)

  /** The parsed recruiter analysis, as far as this layer touches it. */
  datatype RecruiterAnalysis = RecruiterAnalysis(candidateName: string, verification: Option<Verification>)

  /** `chunks.map(chunk => chunk.web?.uri).filter(Boolean)`. */
  function ChunkUris(chunks: seq<GroundingChunk>): (uris: seq<string>)
    ensures forall k :: 0 <= k < |uris| ==> uris[k] != ""
    ensures |uris| <= |chunks|
  {
    if chunks == [] then []
    else
      var rest := ChunkUris(chunks[1..]);
      match chunks[0].webUri
      case Some(u) => if u != "" then [u] + rest else rest
      case None => rest
  }

  /** Every present, non-empty chunk URI is among the sources, and nothing else is. */
  lemma {:induction false} ChunkUrisComplete(chunks: seq<GroundingChunk>)
    ensures forall u :: u in ChunkUris(chunks) <==> u != "" && exists k :: 0 <= k < |chunks| && chunks[k].webUri == Some(u)
  {
    if chunks != [] {
      ChunkUrisComplete(chunks[1..]);
      forall u ensures (exists k :: 0 <= k < |chunks| && chunks[k].webUri == Some(u))
        <==> chunks[0].webUri == Some(u) || exists k :: 0 <= k < |chunks[1..]| && chunks[1..][k].webUri == Some(u)
      {
        if exists k :: 0 <= k < |chunks| && chunks[k].webUri == Some(u) {
          var k :| 0 <= k < |chunks| && chunks[k].webUri == Some(u);
          if k > 0 { assert chunks[1..][k - 1] == chunks[k]; }
        }
        if exists k :: 0 <= k < |chunks[1..]| && chunks[1..][k].webUri == Some(u) {
          var k :| 0 <= k < |chunks[1..]| && chunks[1..][k].webUri == Some(u);
          assert chunks[k + 1] == chunks[1..][k];
        }
      }
    }
  }

  /** The URIs of a run of chunks are those of its parts, in order, repeats included. */
  lemma {:induction false} ChunkUrisAppend(a: seq<GroundingChunk>, b: seq<GroundingChunk>)
    ensures ChunkUris(a + b) == ChunkUris(a) + ChunkUris(b)
  {
    if a == [] {
      assert a + b == b;
    } else {
      assert (a + b)[0] == a[0];
      assert (a + b)[1..] == a[1..] + b;
      ChunkUrisAppend(a[1..], b);
    }
  }

  /** One chunk gives its URI when it has a non-empty one, and nothing otherwise. */
  lemma ChunkUrisSingle(c: GroundingChunk)
    ensures ChunkUris([c]) == if c.webUri.Some? && c.webUri.value != "" then [c.webUri.value] else []
  {
    assert [c][1..] == [];
  }

  /** The merge of the grounding sources into the parsed analysis. */
  function MergeSources(parsed: RecruiterAnalysis, chunks: Option<seq<GroundingChunk>>): RecruiterAnalysis
  {
    match chunks
    case None => parsed
    case Some(cs) =>
      var sources := ChunkUris(cs);
      match parsed.verification
      case None => parsed
      case Some(v) =>
        match v.consultedSources
        case Some(existing) => parsed.(verification := Some(v.(consultedSources := Some(Dedup(existing + sources)))))
        case None => parsed.(verification := Some(v.(consultedSources := Some(sources))))
  }

  /**
   * With existing sources, the merged list keeps them first, in place when they
   * were distinct, adds each new chunk URI once, loses nothing and repeats
   * nothing, and only deletes from existing ++ chunk URIs.
   */
  lemma MergeWithExisting(parsed: RecruiterAnalysis, cs: seq<GroundingChunk>)
    requires parsed.verification.Some? && parsed.verification.value.consultedSources.Some?
    ensures var existing := parsed.verification.value.consultedSources.value;
      var merged := MergeSources(parsed, Some(cs)).verification.value.consultedSources.value;
      && Distinct(merged)
      && (forall u :: u in merged <==> u in existing || u in ChunkUris(cs))
      && IsSubsequence(merged, existing + ChunkUris(cs))
      && (Distinct(existing) ==> |existing| <= |merged| && merged[..|existing|] == existing)
      && MergeSources(parsed, Some(cs)).candidateName == parsed.candidateName
      && MergeSources(parsed, Some(cs)).verification.value.status == parsed.verification.value.status
  {
    var existing := parsed.verification.value.consultedSources.value;
    DedupSubsequence(existing + ChunkUris(cs));
    DedupPrefix(existing, ChunkUris(cs));
    if Distinct(existing) {
      DedupDistinct(existing);
    }
  }

  /**
   * Without `consultedSources` the chunk URIs are assigned as they come,
   * repeats included; without a verification object, or without grounding
   * chunks, the result is left as parsed.
   */
  lemma MergeOtherCases(parsed: RecruiterAnalysis, chunks: Option<seq<GroundingChunk>>)
    ensures chunks.None? || parsed.verification.None? ==> MergeSources(parsed, chunks) == parsed
    ensures chunks.Some? && parsed.verification.Some? && parsed.verification.value.consultedSources.None?
      ==> MergeSources(parsed, chunks).verification.value.consultedSources == Some(ChunkUris(chunks.value))
  {
  }

  // ---------------------------------------------------------------------------
  // The two analysis calls, once the model's answer is known
  // ---------------------------------------------------------------------------

  /** What the JSON extraction and `JSON.parse` make of the model's text. */
  datatype JsonOutcome = NoJson | Malformed(parseError: Thrown) | Parsed(value: RecruiterAnalysis)

  /** The model's reply to the recruiter prompt: the text's JSON and its grounding chunks, or a thrown error. */
  datatype RecruiterResponse =
    | RecruiterReply(json: JsonOutcome, grounding: Option<seq<GroundingChunk>>)
    | RecruiterCallFailed(error: Thrown)

  /** The job-seeker analysis, as far as the dashboard handles it. */
  datatype JobSeekerAnalysis = JobSeekerAnalysis(matchScore: int, summary: string)

  /** The model's reply to the job-seeker prompt, parsed, or a thrown error (API or `JSON.parse`). */
  datatype JobSeekerResponse = JobSeekerReply(analysis: JobSeekerAnalysis) | JobSeekerCallFailed(error: Thrown)

  /**
   * `analyzeResumeForRecruiter`: without an API key `getAi` throws before the
   * `try`; every other failure is rethrown with the message parseGeminiError
   * gives it.
   */
  function AnalyzeForRecruiter(hasApiKey: bool, response: RecruiterResponse): Result<RecruiterAnalysis, string>
  {
    if !hasApiKey then Failure(MissingKeyMessage)
    else
      match response
      case RecruiterCallFailed(e) => Failure(ParseGeminiError(e))
      case RecruiterReply(NoJson, _) => Failure(ParseGeminiError(WithMessage(NoJsonMessage, None)))
      case RecruiterReply(Malformed(e), _) => Failure(ParseGeminiError(e))
      case RecruiterReply(Parsed(a), chunks) => Success(MergeSources(a, chunks))
  }

  /** The analysis `analyzeResumeForRecruiter` resolves with, or `None` when it throws, whatever the message. */
  function RecruiterAnalysisOf(hasApiKey: bool, response: RecruiterResponse): Option<RecruiterAnalysis>
  {
    if hasApiKey && response.RecruiterReply? && response.json.Parsed? then Some(MergeSources(response.json.value, response.grounding))
    else None
  }

  /** The call resolves exactly when a parsed reply comes back with a key configured, and with the merged analysis. */
  lemma RecruiterAnalysisAgrees(hasApiKey: bool, response: RecruiterResponse)
    ensures RecruiterAnalysisOf(hasApiKey, response).Some? <==> AnalyzeForRecruiter(hasApiKey, response).Success?
    ensures RecruiterAnalysisOf(hasApiKey, response).Some?
      ==> AnalyzeForRecruiter(hasApiKey, response).value == RecruiterAnalysisOf(hasApiKey, response).value
  {
  }

  /** `analyzeResumeForJobSeeker`. */
  function AnalyzeForJobSeeker(hasApiKey: bool, response: JobSeekerResponse): Result<JobSeekerAnalysis, string>
  {
    if !hasApiKey then Failure(MissingKeyMessage)
    else
      match response
      case JobSeekerCallFailed(e) => Failure(ParseGeminiError(e))
      case JobSeekerReply(a) => Success(a)
  }

  /** Characters of the earlier keywords that the no-JSON message does not hold. */
  const Absent: set<char> := {'5', 'k', 'b', 'q'}

  /**
   * A text holds none of those characters, nor an "o" followed by a "v" or a
   * "p" followed by an "e", in any case.
   */
  predicate Clean(s: string)
  {
    LacksChars(s, Absent) && LacksPair(s, 'o', 'v') && LacksPair(s, 'p', 'e')
  }

  lemma CleanAppend(a: string, b: string)
    requires Clean(a) && Clean(b)
    requires a == [] || b == [] || LowerChar(a[|a| - 1]) !in {'o', 'p'}
    ensures Clean(a + b)
  {
    LacksCharsAppend(a, b, Absent);
    LacksPairAppend(a, b, 'o', 'v');
    LacksPairAppend(a, b, 'p', 'e');
  }

  /** Each half of the no-JSON message is clean, checked one property at a time. */
  lemma FrontLacksChars()
    ensures LacksChars("The AI model returned an ", Absent)
  {
  }

  lemma FrontLacksOv()
    ensures LacksPair("The AI model returned an ", 'o', 'v')
  {
  }

  lemma FrontLacksPe()
    ensures LacksPair("The AI model returned an ", 'p', 'e')
  {
  }

  lemma PhraseLacksChars()
    ensures LacksChars("invalid response format", Absent)
  {
  }

  lemma PhraseLacksOv()
    ensures LacksPair("invalid response format", 'o', 'v')
  {
  }

  lemma PhraseLacksPe()
    ensures LacksPair("invalid response format", 'p', 'e')
  {
  }

  /** So is the whole message. */
  lemma NoJsonClean()
    ensures Clean(NoJsonMessage)
  {
    FrontLacksChars();
    FrontLacksOv();
    FrontLacksPe();
    PhraseLacksChars();
    PhraseLacksOv();
    PhraseLacksPe();
    CleanAppend(NoJsonFront, FormatPhrase);
    CleanAppend(NoJsonFront + FormatPhrase, ".");
  }

  /** A clean text holds, in any case, neither "overloaded"... */
  lemma CleanAvoidsOverloaded(m: string)
    requires Clean(m)
    ensures !Includes(Lower(m), "overloaded")
  {
    LowerAvoidsPair(m, "overloaded", 0);
  }

  /** ...nor "permission denied"... */
  lemma CleanAvoidsPermissionDenied(m: string)
    requires Clean(m)
    ensures !Includes(Lower(m), "permission denied")
  {
    LowerAvoidsPair(m, "permission denied", 0);
  }

  /** ...nor "503", "api key not valid", "billing" or "quota". */
  lemma CleanAvoidsCharKeywords(m: string)
    requires Clean(m)
    ensures !Includes(Lower(m), "503") && !Includes(Lower(m), "api key not valid")
    ensures !Includes(Lower(m), "billing") && !Includes(Lower(m), "quota")
  {
    LowerAvoidsChar(m, Absent, "503", 0);
    LowerAvoidsChar(m, Absent, "api key not valid", 4);
    LowerAvoidsChar(m, Absent, "billing", 0);
    LowerAvoidsChar(m, Absent, "quota", 0);
  }

  /** The lower-cased no-JSON message holds the format phrase. */
  lemma NoJsonHasPhrase()
    ensures Includes(Lower(NoJsonMessage), FormatPhrase)
  {
    FormatPhraseLower();
    LowerKeepsPhrase(NoJsonFront, FormatPhrase, ".");
  }

  lemma FormatPhraseLower()
    ensures Lower("invalid response format") == "invalid response format"
  {
    LowerFixed("invalid response format");
  }

  /** A message holding the format phrase and none of the earlier keywords is a format problem. */
  lemma ClassifiedAsFormat(lower: string)
    requires !Includes(lower, "overloaded") && !Includes(lower, "503")
    requires !Includes(lower, "api key not valid") && !Includes(lower, "permission denied")
    requires !Includes(lower, "billing") && !Includes(lower, "quota")
    requires Includes(lower, FormatPhrase)
    ensures Classify(lower) == BadFormat
  {
  }

  /**
   * So the no-JSON message is classified as a format problem: it holds none of
   * the earlier keywords, in any case, but does hold the phrase.
   */
  lemma NoJsonClassified()
    ensures Classify(Lower(NoJsonMessage)) == BadFormat
  {
    NoJsonClean();
    CleanAvoidsOverloaded(NoJsonMessage);
    CleanAvoidsPermissionDenied(NoJsonMessage);
    CleanAvoidsCharKeywords(NoJsonMessage);
    NoJsonHasPhrase();
    ClassifiedAsFormat(Lower(NoJsonMessage));
  }

  /** The "no JSON found" error is routed through the classifier and comes out as the unexpected-format message. */
  lemma NoJsonReported(chunks: Option<seq<GroundingChunk>>)
    ensures AnalyzeForRecruiter(true, RecruiterReply(NoJson, chunks)) == Failure(FormatMessage)
  {
    NoJsonClassified();
    ClassifiedPlain(NoJsonMessage, BadFormat);
  }

  /** A message without an embedded one is classified as it stands. */
  lemma ClassifiedPlain(m: string, c: Category)
    requires Classify(Lower(m)) == c
    ensures ParseGeminiError(WithMessage(m, None)) == CategoryMessage(c, m)
  {
  }

  /**
   * Every other failure is classified, except a missing API key, whose error
   * is thrown before the classifier is reached; a parsed analysis gets the
   * grounding sources merged in.
   */
  lemma RecruiterOutcomes(hasApiKey: bool, response: RecruiterResponse)
    ensures !hasApiKey ==> AnalyzeForRecruiter(hasApiKey, response) == Failure(MissingKeyMessage)
    ensures hasApiKey && response.RecruiterCallFailed?
      ==> AnalyzeForRecruiter(hasApiKey, response) == Failure(ParseGeminiError(response.error))
    ensures hasApiKey && response.RecruiterReply? && response.json.Parsed?
      ==> AnalyzeForRecruiter(hasApiKey, response) == Success(MergeSources(response.json.value, response.grounding))
    ensures AnalyzeForRecruiter(hasApiKey, response).Success? <==> hasApiKey && response.RecruiterReply? && response.json.Parsed?
  {
  }

  /** The job-seeker call fails exactly when the key is missing or the call or its parse threw. */
  lemma JobSeekerOutcomes(hasApiKey: bool, response: JobSeekerResponse)
    ensures AnalyzeForJobSeeker(hasApiKey, response).Success? <==> hasApiKey && response.JobSeekerReply?
    ensures hasApiKey && response.JobSeekerCallFailed?
      ==> AnalyzeForJobSeeker(hasApiKey, response) == Failure(ParseGeminiError(response.error))
  {
  }
}
