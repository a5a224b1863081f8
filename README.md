# HireLens AI — a Dafny model of its decision logic

HireLens AI is a browser application for recruiters and job seekers. Recruiters upload many resumes and have each one analysed against a job description. Job seekers upload one resume. Both can talk to a chat assistant. Around the calls to the Gemini model sits a set of small decision procedures, and this project models and proves them:

- **Resume text extraction** (`Extraction`, `Utf8`, `Browser`). Each of the two dashboards and the chat widget holds its own copy of `extractTextFromFile`. All three are modelled as one function with a `Variant` parameter:
  - the file is read; a read error rejects, and a missing result rejects with "Failed to read file.";
  - the lower-cased name routes the file: `.pdf` is tested first, then `.docx`, and everything else is decoded as UTF-8;
  - PDF text is assembled page by page. The page loop is also written as an imperative method, proved against the specification function;
  - a library failure rejects with the copy's own message;
  - the chat widget's copy, as written, resolves the raw `ArrayBuffer` for a file that is neither `.pdf` nor `.docx` instead of decoding it (see "## Findings"), and the widget is modelled with that copy;
  - UTF-8 decoding follows section 8.1.1 of the WHATWG Encoding Standard over RFC 3629, with U+FFFD replacement and the byte order mark stripped.
- **The Gemini service** (`GeminiService`): the `parseGeminiError` classifier, the merge of grounding sources into `consultedSources`, and how the two analysis calls turn a model answer into a result or an error message.
- **The recruiter dashboard** (`RecruiterDashboard`): the sequential batch loop that silently drops failed files and advances the progress bar.
- **The job-seeker dashboard** (`JobSeekerDashboard`): file selection and analysis as a state machine over `resumeText`, `error`, `analysis` and `isLoading`.
- **The chat widget** (`ChatbotWidget`): the greeting on open, the send guard, the attachment prompt, the streamed reply written into a placeholder message, and the connection-error replacement.
- **The upload pickers**:
  - `MultiFileUpload` filters by extension, de-duplicates by name so that the first file wins, and removes by identity;
  - `FileUpload` applies a case-sensitive extension or MIME test and takes only the first file of a drop.
- **The preview dialog** (`DocumentPreviewModal`): when text loading is triggered, and which body is shown for a file type.
- **Small pieces**:
  - `ScoreRing`: the clamp, the colour bands and the rounded number;
  - `VerifiedBadge`: the status table with its `Unverified` fallback;
  - `App`: the screen state machine, the API-key flag and when the chatbot is visible.

Components that change state are classes. Their methods update fields and state the new state in full. A ghost log records what a parent callback is told: `onFilesSelect`, `onFileSelect` and every progress value. Pure decisions are functions, and lemmas state their properties. The foreign libraries are oracles passed in as parameters: pdf.js, mammoth, `FileReader` and the Gemini client.

Where the code and its design description disagree, the model follows the code:

- there is no "unsupported format" outcome, because every unknown extension is decoded as text;
- a failing PDF page fails the whole file, rather than contributing an empty page;
- the recruiter batch keeps no record of a failed file; it is simply omitted;
- the extension tests for routing, for the single-file picker and for the preview differ in case sensitivity;
- `.docx` names routed by MIME type are not modelled, because the code routes by name only.

## Model

| member | source | states |
|---|---|---|
| Text.TrimEmptyIff | components/ChatbotWidget.tsx:85 | `input.trim()` is empty exactly when the input is blank: JavaScript white space only, or nothing |
| Text.LowerIdempotent | components/RecruiterDashboard.tsx:34 | lower-casing a lower-cased name changes nothing |
| Text.Dedup | services/geminiService.ts:270 | `[...new Set(xs)]` holds exactly the values of `xs`, each once |
| Text.DedupSubsequence | services/geminiService.ts:270 | de-duplication only deletes; the survivors keep their order |
| Text.DedupDistinct | services/geminiService.ts:270 | a list without repeats is left as it is |
| Text.DedupPrefix | services/geminiService.ts:269-270 | what de-duplication keeps of a prefix stays, in place, at the front of the result for the whole list |
| Utf8.DecodeUtf8 | components/RecruiterDashboard.tsx:47-48 | the decoder never yields more characters than there are bytes |
| Utf8.DecodeEncode | components/RecruiterDashboard.tsx:47-48 | decoding the UTF-8 encoding of any text gives it back |
| Utf8.TextDecodeEncode | components/RecruiterDashboard.tsx:47-48 | `TextDecoder` gives back every encoded text that does not begin with U+FEFF, the empty text included |
| Utf8.TextDecodeDropsByteOrderMark | components/RecruiterDashboard.tsx:47-48 | a leading U+FEFF is taken for a byte order mark and dropped |
| Utf8.StrayByte | components/RecruiterDashboard.tsx:47-48 | a byte that cannot start a sequence becomes one U+FFFD, and decoding resumes after it |
| Utf8.TruncatedSequence | components/RecruiterDashboard.tsx:47-48 | a sequence cut short by the end of input or by a byte out of range becomes one U+FFFD, and that byte is decoded afresh |
| Extraction.RouteIgnoresCase | components/RecruiterDashboard.tsx:34-46 | routing depends only on the lower-cased name |
| Extraction.RouteBySuffix | components/RecruiterDashboard.tsx:34-48 | `.pdf` and `.docx` in any case go to their libraries, and `.txt` goes to the UTF-8 decoder |
| Extraction.PagesTextAppend | components/RecruiterDashboard.tsx:37-41 | the text of consecutive page runs is the concatenation of their texts, in page order |
| Extraction.PagesTextExamples | components/RecruiterDashboard.tsx:36-42 | zero pages give "", an empty page gives "\n", pages A, B and C give "A\nB\nC\n", and items are joined with one space |
| Extraction.PagesTextLines | components/RecruiterDashboard.tsx:40 | with newline-free items, splitting the PDF text on "\n" gives one line per page plus a final empty piece |
| Extraction.FirstPageFailureAt | components/RecruiterDashboard.tsx:37-39 | the first failing page decides the error |
| Extraction.AssemblePdfText | components/RecruiterDashboard.tsx:35-42 | the page loop computes exactly the specified PDF text, or the first page's failure |
| Extraction.ExtractTextFromFile | components/RecruiterDashboard.tsx:26-58 | the read-then-dispatch procedure yields exactly `ExtractText` for the copy |
| Extraction.ExtractTextOutcomes | components/RecruiterDashboard.tsx:30-32 | a missing result rejects with "Failed to read file."; a read error rejects; an empty text file gives ""; an encoded text comes back unchanged |
| Extraction.PdfAllOrNothing | components/RecruiterDashboard.tsx:36-53 | a PDF whose pages all read yields exactly their text; one failing page, wherever it is, rejects the whole file with no partial text |
| Extraction.ParseFailureMessages | components/RecruiterDashboard.tsx:50-53 | the recruiter copy says "Could not parse content from <name>."; the job-seeker copy always says "Could not parse file content."; the chat copy passes the library's error on |
| GeminiService.KeywordAnywhere | services/geminiService.ts:17-39 | a keyword is found whatever surrounds it and whatever its case |
| GeminiService.OverloadBeforeQuota | services/geminiService.ts:31-39 | the checks are ordered: a message naming both 503 and a quota is reported as overload |
| GeminiService.PermissionDeniedAnyCase | services/geminiService.ts:34-35 | "permission denied" in any case, without an overload marker, is reported as an invalid key |
| GeminiService.EmbeddedMessage | services/geminiService.ts:20-28 | a JSON-looking message with a non-empty inner `error.message` is classified by the inner message; otherwise, a failed parse included, by itself; an unclassified message is returned as it is |
| GeminiService.ParseGeminiErrorRange | services/geminiService.ts:11-49 | every result is one of the fixed messages or the effective message unchanged; an error without a string message gives the generic text |
| GeminiService.ClassifiedPlain | services/geminiService.ts:30-45 | without JSON the result is the message for the message's category |
| GeminiService.ClassifiedAsFormat | services/geminiService.ts:40-41 | a message with "invalid response format" and none of the earlier keywords gets the format message |
| GeminiService.NoJsonClassified | services/geminiService.ts:278 | the service's own no-JSON error contains no earlier keyword, so it is classified as a format problem |
| GeminiService.NoJsonReported | services/geminiService.ts:276-281 | a reply with no JSON in it reaches the caller as "The AI model returned an unexpected response format. …" |
| GeminiService.ChunkUris | services/geminiService.ts:265-267 | `map(chunk => chunk.web?.uri).filter(Boolean)` yields only non-empty URIs, at most one per chunk |
| GeminiService.ChunkUrisComplete | services/geminiService.ts:265-267 | a URI is kept exactly when it is non-empty and some chunk carries it |
| GeminiService.ChunkUrisAppend | services/geminiService.ts:265-267 | the URIs of two runs of chunks are those of the first run followed by those of the second, repeats kept |
| GeminiService.ChunkUrisSingle | services/geminiService.ts:265-267 | one chunk contributes its URI when it has a non-empty one, and nothing otherwise; with ChunkUrisAppend this fixes the list's order and multiplicity |
| GeminiService.MergeWithExisting | services/geminiService.ts:268-270 | existing sources come first, and stay in place when they were distinct; each new URI is added once; nothing is lost or repeated; the merge only deletes from existing ++ new; nothing else changes |
| GeminiService.MergeOtherCases | services/geminiService.ts:264-273 | without `consultedSources` the URIs are assigned as they come; without chunks or a verification object the result is left as parsed |
| GeminiService.RecruiterOutcomes | services/geminiService.ts:244-283 | a missing key fails with the configuration message, unclassified; a failed call fails with the classified message; parsed JSON succeeds with the sources merged; these are the only successes |
| GeminiService.RecruiterAnalysisAgrees | services/geminiService.ts:244-283 | the analysis resolves exactly when a key is configured and the reply parsed, and then with the sources merged in; this is what the dashboard sees of it, whatever the error message |
| GeminiService.JobSeekerOutcomes | services/geminiService.ts:157-186 | success exactly when there is a key and a parsed reply; a failed call gives the classified message |
| ChatbotWidget.AttachedTextIsLost | components/ChatbotWidget.tsx:74-76 | as written, every attached text file reaches the prompt as "[object ArrayBuffer]"; decoded, it reaches the prompt as its text |
| ChatbotWidget.AsWrittenAgreesElsewhere | components/ChatbotWidget.tsx:55-82 | outside the plain-text branch, the as-written copy and the corrected one agree |
| ChatbotWidget.TextAttachmentPrompt | components/ChatbotWidget.tsx:75-97 | a `.txt` attachment that reads is sent as "[object ArrayBuffer]" inside the attachment template, whatever it holds |
| ChatbotWidget.AttachmentPrompt | components/ChatbotWidget.tsx:97 | the prompt ends with the user's query |
| ChatbotWidget.AttachmentPromptHolds | components/ChatbotWidget.tsx:97 | the prompt contains the file's name and its whole text |
| ChatbotWidget.StreamedTextAppend | components/ChatbotWidget.tsx:117-118 | the accumulated reply of two runs of chunks is the concatenation of their replies |
| ChatbotWidget.StreamedTextFront | components/ChatbotWidget.tsx:118 | each chunk adds its text, and an undefined text adds "undefined" |
| ChatbotWidget.ConnectionErrorKeeps | components/ChatbotWidget.tsx:127-136 | the list never shrinks and only its last message may be replaced; it ends with the error; the error replaces a trailing bot message and is appended otherwise |
| ChatbotWidget.ReplyOutcomes | components/ChatbotWidget.tsx:112-136 | after the user's message, a completed stream adds exactly one bot message with the whole reply; a broken stream or a failed connection leaves exactly one error message |
| ChatbotWidget.Widget.constructor | components/ChatbotWidget.tsx:20-25 | the panel starts closed, empty, with no session and no attachment |
| ChatbotWidget.Widget.Reset | components/ChatbotWidget.tsx:37-49 | while open, the effect creates a session and resets the list to the greeting alone; while closed, it changes nothing |
| ChatbotWidget.Widget.Open | components/ChatbotWidget.tsx:209 | opening shows exactly the greeting, with a session ready |
| ChatbotWidget.Widget.Close | components/ChatbotWidget.tsx:154 | closing keeps the messages and the session |
| ChatbotWidget.Widget.ChangeRole | components/ChatbotWidget.tsx:37-49 | a role different from the previous one, while open, restarts the session and the greeting; the same role, or a closed panel, keeps the conversation |
| ChatbotWidget.Widget.SetInput | components/ChatbotWidget.tsx:196 | typing changes only the input |
| ChatbotWidget.Widget.HandleFileAttach | components/ChatbotWidget.tsx:142-146 | the first picked file becomes the attachment; an empty pick changes nothing |
| ChatbotWidget.Widget.RemoveAttachment | components/ChatbotWidget.tsx:183 | the attachment is cleared and nothing else changes |
| ChatbotWidget.Widget.ReadAttachment | components/ChatbotWidget.tsx:55-82 | reading the attachment yields the widget's extractor as written: the pdf and docx results of the chat copy, and "[object ArrayBuffer]" for any other file that reads |
| ChatbotWidget.Widget.ReceiveReply | components/ChatbotWidget.tsx:112-136 | the placeholder, the chunk-by-chunk overwrite of the last message with the text so far, and the error handling leave exactly `AfterReply` |
| ChatbotWidget.Widget.HandleSendMessage | components/ChatbotWidget.tsx:84-140 | blank input with no attachment changes nothing. Otherwise: the untrimmed input is appended and cleared, and loading ends; an unreadable attachment adds one error and is kept, and the chat is not called; a readable one is used up; without a session the not-initialized error is added; with one, the prompt is sent and the reply handled. The prompt holds what the widget's extractor resolved, "[object ArrayBuffer]" for a text file |
| RecruiterDashboard.Outcome | components/RecruiterDashboard.tsx:73-89 | a file gives a result exactly when extraction and analysis both succeed; the result carries that file's name and extracted text |
| RecruiterDashboard.Outcomes | components/RecruiterDashboard.tsx:71-91 | the batch has one outcome per file, each that file's own at its position |
| RecruiterDashboard.PresentPositions | components/RecruiterDashboard.tsx:80-89 | the kept values sit at strictly increasing positions, each holding its value, and every position not kept is empty |
| RecruiterDashboard.PresentStep | components/RecruiterDashboard.tsx:80-89 | one more file adds its result to the end, if it has one |
| RecruiterDashboard.PresentCount | components/RecruiterDashboard.tsx:80-89 | no more values are kept than positions, and as many exactly when none is empty |
| RecruiterDashboard.KeptPositions | components/RecruiterDashboard.tsx:71-91 | the results come from strictly increasing input positions, each one that file's outcome; every omitted file failed |
| RecruiterDashboard.ResultsCount | components/RecruiterDashboard.tsx:80-86 | there are at most as many results as files, and exactly as many only when none failed |
| RecruiterDashboard.ResultsSkipFailure | components/RecruiterDashboard.tsx:87-89 | a failing file leaves no trace in the results |
| RecruiterDashboard.ProgressAfterMonotone | components/RecruiterDashboard.tsx:90 | `(i+1)/n*100` is positive, non-decreasing in `i` and 100 after the last file |
| RecruiterDashboard.TicksStep | components/RecruiterDashboard.tsx:90 | after one more file the bar's history gains exactly that file's value |
| RecruiterDashboard.ProgressMonotone | components/RecruiterDashboard.tsx:68-90 | the bar's values during a batch start at 0, never go back, stay within [0, 100] and end at 100 |
| RecruiterDashboard.Dashboard.constructor | components/RecruiterDashboard.tsx:19-24 | the dashboard starts with no files, results or error, and progress at 0 |
| RecruiterDashboard.Dashboard.SetResumeFiles | components/RecruiterDashboard.tsx:113 | the picker's list becomes the files, and nothing else changes |
| RecruiterDashboard.Dashboard.SetJobDescription | components/RecruiterDashboard.tsx:123 | typing changes only the job description |
| RecruiterDashboard.Dashboard.ProcessFile | components/RecruiterDashboard.tsx:73-89 | one iteration's try block computes exactly the file's outcome |
| RecruiterDashboard.Dashboard.RunBatch | components/RecruiterDashboard.tsx:71-91 | the loop collects exactly the batch's results in file order and sets the bar once per file, ending at 100 |
| RecruiterDashboard.Dashboard.HandleAnalyze | components/RecruiterDashboard.tsx:60-99 | missing input only sets the error. Otherwise the error is cleared, the results of the whole batch are published once after the loop, progress ends at 100 after passing through every step, and loading ends |
| JobSeekerDashboard.SelectErrorMessage | components/JobSeekerDashboard.tsx:68 | the error shown is never empty, and it is the rejection's message when that has one |
| JobSeekerDashboard.AnalysisErrorMessage | components/JobSeekerDashboard.tsx:86 | the error shown is never empty, and it is the failure's message when that is non-empty |
| JobSeekerDashboard.FileSelectedOutcomes | components/JobSeekerDashboard.tsx:59-70 | after a selection there is text or an error, never both; the preview shows exactly when extraction gave a non-empty text; a failure leaves a non-empty error and no text |
| JobSeekerDashboard.ParseFailureReported | components/JobSeekerDashboard.tsx:32-52 | a library failure (pdf.js refusing the document, a failing page, or mammoth failing) is reported as "Could not parse file content.", not with the library's message |
| JobSeekerDashboard.EmptyTextRefused | components/JobSeekerDashboard.tsx:74-77 | an empty text file is selected without error, but it shows no preview and cannot be analysed |
| JobSeekerDashboard.Dashboard.constructor | components/JobSeekerDashboard.tsx:17-22 | the dashboard starts with no file, text, analysis or error |
| JobSeekerDashboard.Dashboard.SetJobDescription | components/JobSeekerDashboard.tsx:122 | typing changes only the job description |
| JobSeekerDashboard.Dashboard.HandleFileSelect | components/JobSeekerDashboard.tsx:59-71 | the file is stored; text and error are cleared and then set from the extraction; nothing else changes |
| JobSeekerDashboard.Dashboard.HandleAnalyze | components/JobSeekerDashboard.tsx:73-90 | without text or a job description only the error is set. Otherwise the old analysis and error are replaced by the outcome, and loading always ends |
| MultiFileUpload.AcceptedAnyCase | components/MultiFileUpload.tsx:21-23 | a name whose lower-cased extension is an accepted piece passes, whatever the case of its letters |
| MultiFileUpload.AcceptedFilesExactly | components/MultiFileUpload.tsx:21-23 | exactly the accepted new files are added, in the order they came |
| MultiFileUpload.FindIndex | components/MultiFileUpload.tsx:27 | `findIndex` gives the first position with the name, or -1 when none has it |
| MultiFileUpload.KeptIffFirst | components/MultiFileUpload.tsx:26-28 | a position survives the filter exactly when no earlier file has its name |
| MultiFileUpload.UniqueByNameNames | components/MultiFileUpload.tsx:24-28 | the kept files carry exactly the names of the combined list, each once, in order of first appearance |
| MultiFileUpload.UniqueByNameSubsequence | components/MultiFileUpload.tsx:24-28 | the new selection is an order-preserving subsequence of the old selection followed by the accepted files |
| MultiFileUpload.SelectionKeptAsPrefix | components/MultiFileUpload.tsx:24-28 | already-selected files keep their positions, and a new file reusing a selected name is dropped |
| MultiFileUpload.ReAddingChangesNothing | components/MultiFileUpload.tsx:24-28 | adding files whose names are all selected already leaves the selection exactly as it was |
| MultiFileUpload.Without | components/MultiFileUpload.tsx:65 | removal drops exactly the given file object and keeps every other file |
| MultiFileUpload.WithoutSubsequence | components/MultiFileUpload.tsx:65 | the remaining files keep their relative order |
| MultiFileUpload.WithoutKeepsDistinct | components/MultiFileUpload.tsx:65 | removal keeps the names distinct |
| MultiFileUpload.Upload.constructor | components/MultiFileUpload.tsx:11 | the picker starts with an empty selection and has told its parent nothing |
| MultiFileUpload.Upload.UpdateFiles | components/MultiFileUpload.tsx:14-17 | the kept list and the list handed to `onFilesSelect` are the same |
| MultiFileUpload.Upload.HandleFiles | components/MultiFileUpload.tsx:19-31 | no list changes nothing; otherwise the selection becomes the name-de-duplicated old ++ accepted files, keeps its distinct names and old prefix, and is handed to the parent |
| MultiFileUpload.Upload.OnRemoveFile | components/MultiFileUpload.tsx:64-70 | the file is removed by identity, the names stay distinct, and the parent is told the new list |
| FileUpload.Selection | components/FileUpload.tsx:14-23 | the selection is either the given file or nothing |
| FileUpload.OnlyExtensionsCount | components/FileUpload.tsx:15 | with a dot-free MIME type and dotted accepted types, a file passes exactly when its name ends, case-sensitively, with one of them |
| FileUpload.EmptyTypeAcceptsAll | components/FileUpload.tsx:15 | an empty accepted type, from an empty list or a stray comma, lets every file through |
| FileUpload.JobSeekerTypesPieces | components/JobSeekerDashboard.tsx:104 | the job seeker's accepted types split into `.txt`, `.pdf` and `.docx` |
| FileUpload.UpperCaseExtensionRefused | components/FileUpload.tsx:15 | `CV.PDF` with MIME `application/pdf` is refused on the job seeker's dashboard |
| FileUpload.LowerCaseExtensionTaken | components/FileUpload.tsx:15-17 | any name ending in `.pdf` is taken there, whatever its MIME type |
| FileUpload.Picker.constructor | components/FileUpload.tsx:11 | the picker starts with no selection |
| FileUpload.Picker.HandleFile | components/FileUpload.tsx:14-23 | an accepted file becomes the selection; a rejected or missing one clears it; the parent is told either way |
| FileUpload.Picker.HandleDrop | components/FileUpload.tsx:35-42 | only the first dropped file is considered; an empty drop changes nothing |
| FileUpload.Picker.HandleChange | components/FileUpload.tsx:44-50 | the first picked file is handled; an absent or empty list clears the selection |
| FileUpload.Picker.OnRemoveFile | components/FileUpload.tsx:56-62 | the selection is cleared and the parent is told null |
| DocumentPreviewModal.FileTypeOfExtension | components/DocumentPreviewModal.tsx:32 | the type is the lower-cased text after the last dot |
| DocumentPreviewModal.FileTypeWithoutDot | components/DocumentPreviewModal.tsx:32 | a name without a dot is its own type, lower-cased |
| DocumentPreviewModal.Render | components/DocumentPreviewModal.tsx:48-49 | text is shown only for type `txt` with non-empty text content |
| DocumentPreviewModal.RenderOutcomes | components/DocumentPreviewModal.tsx:31-53 | the spinner shows exactly while loading, whatever the type; otherwise each body shows under its exact condition, and the fallback covers the rest |
| DocumentPreviewModal.StoredText | components/DocumentPreviewModal.tsx:19-25 | a failed read stores a non-empty message |
| DocumentPreviewModal.ReadErrorShown | components/DocumentPreviewModal.tsx:23-25 | a `.txt` file whose read failed shows "Could not read this file." |
| DocumentPreviewModal.UpperCaseTextFallsThrough | components/DocumentPreviewModal.tsx:16 | `X.TXT` without the `text/plain` MIME type is never read, so although its type is `txt` it gets the fallback |
| DocumentPreviewModal.Modal.constructor | components/DocumentPreviewModal.tsx:12-13 | no text and not loading |
| DocumentPreviewModal.Modal.BeginLoad | components/DocumentPreviewModal.tsx:15-17 | loading starts exactly for `text/plain` or a `.txt` name |
| DocumentPreviewModal.Modal.FinishLoad | components/DocumentPreviewModal.tsx:19-26 | the read's text, or the error message, is stored and loading stops |
| DocumentPreviewModal.Modal.Body | components/DocumentPreviewModal.tsx:34-40 | the spinner is shown while loading |
| ScoreRing.Normalized | components/ScoreRing.tsx:10 | the clamped score lies in [0, 100]; scores in range are kept; negatives become 0, and values over 100 become 100 |
| ScoreRing.NormalizedIdempotent | components/ScoreRing.tsx:10 | clamping twice is clamping once |
| ScoreRing.NormalizedMonotone | components/ScoreRing.tsx:10 | clamping keeps the order of scores |
| ScoreRing.Color | components/ScoreRing.tsx:15-19 | green exactly from 85, amber exactly in [60, 85), red exactly below 60, all on the clamped score |
| ScoreRing.ColorMonotone | components/ScoreRing.tsx:15-19 | a higher score never falls into a lower band |
| ScoreRing.Round | components/ScoreRing.tsx:48 | `Math.round` gives the integer nearest to the value, with halves going up |
| ScoreRing.Display | components/ScoreRing.tsx:48 | the number shown lies in [0, 100] and within a half of the clamped score |
| ScoreRing.DisplayWhole | components/ScoreRing.tsx:48 | a whole score in range is shown as it is |
| VerifiedBadge.Entry | components/VerifiedBadge.tsx:9-40 | exactly the six known statuses have an entry, and its text is the status name |
| VerifiedBadge.Badge | components/VerifiedBadge.tsx:44 | the lookup is total: a known status shows its own name, and any other status shows "Unverified" |
| VerifiedBadge.UnknownFallsBack | components/VerifiedBadge.tsx:44 | an unknown status looks exactly like `Unverified` |
| VerifiedBadge.SharedSchemes | components/VerifiedBadge.tsx:15-39 | Suspicious and Contradictory share the red scheme and the red cross icon; Needs Review and Uncertain share the yellow scheme and the yellow exclamation icon; Unverified has the exclamation icon drawn gray |
| VerifiedBadge.OnlyVerifiedIsGreen | components/VerifiedBadge.tsx:10-14 | a status is shown green exactly when it is Verified |
| App.MainContent | App.tsx:29-39 | the API-key warning is shown exactly without a key; otherwise the landing page is shown exactly on `landing`, and the dashboard of the state's role otherwise |
| App.Chatbot | App.tsx:57 | the chatbot is shown exactly off the landing page with a key, and its role is the state's |
| App.ChatbotBesideItsDashboard | App.tsx:54-57 | the chatbot is shown exactly when a dashboard fills the main area, and that dashboard is for the chatbot's role |
| App.Shell.constructor | App.tsx:12-13 | the app starts on the landing page with the key assumed present |
| App.Shell.Mount | App.tsx:15-19 | a missing key clears the flag for good; nothing sets it again |
| App.Shell.SelectRole | App.tsx:21-23 | selecting a role opens its dashboard and leaves the key flag alone |
| App.Shell.BackToHome | App.tsx:25-27 | back, or a click on the header title, returns to the landing page |

## Left out

- Text.Lower: `toLowerCase` is modelled for ASCII letters only. No resume decision here turns on non-ASCII case.
- Strings are sequences of Unicode scalar values. JavaScript's UTF-16 code units, and lone surrogates, are not modelled.
- `JSON.parse`, the regular expression that finds JSON in a reply and the response schemas are not modelled. A reply is given as no JSON, malformed JSON or a parsed value. A thrown error's JSON body is given as an optional inner message.
- GeminiService.EffectiveMessage: an inner `error.message` that is not a string, or that has no `toLowerCase`, is not modelled. Only a string or its absence is.
- The network, the Gemini client and the chat session are left out. Their answers are parameters: a response, a stream of chunks and whether it breaks off. `getAi` is reduced to whether `API_KEY` is set.
- RecruiterDashboard.Dashboard.HandleAnalyze: the outer `catch` (lines 94-95) cannot be reached, because every step that can throw sits inside the per-file `try`. It is therefore not modelled.
- The Credly check is a stub that always resolves to `undefined`. The result `id` is built from the clock; it carries no decision and is left out of `CandidateMatch`.
- Progress is an exact real `(i+1)/n*100`. Floating-point rounding of that value is not modelled.
- ScoreRing.Normalized: scores are exact reals. `NaN` and infinities are not modelled. The ring geometry with `Math.PI` is drawing only.
- VerifiedBadge.Badge: the `statusConfig[status]` lookup is modelled on the six own keys. Inherited object keys such as `toString` are not modelled.
- Asynchrony and interleaving are not modelled. Each handler runs to completion before the next one starts, and a stale closure is not modelled.
- Drag highlighting, scrolling, focus, clearing the `<input>` value and all layout are presentation only.
- The PDF and DOCX previewers, the zoom controls and the presentation-only components are drawing over foreign libraries.
- `FileReader.readAsText` in the preview dialog is an oracle. It yields a text or an error.
- DocumentPreviewModal.Modal.FinishLoad: the reader's callbacks run only for a read the effect started, which the requirement `isLoading` expresses.

## Findings

| source | as written | input that shows it | evidently intended | confidence | as-written member | corrected member |
|---|---|---|---|---|---|---|
| components/ChatbotWidget.tsx:75 | the chat widget's plain-text branch resolves the reader's `ArrayBuffer` itself. The prompt template at line 97 then turns it into "[object ArrayBuffer]" | an attached `notes.txt` holding the UTF-8 bytes of "Jane Doe" | decode the bytes as UTF-8, as both dashboards' copies do, so that the prompt carries "Jane Doe" | not executed | ChatbotWidget.AttachmentTextAsWritten | Extraction.ExtractText |

The as-written member is paired with the lemma `ChatbotWidget.AttachedTextIsLost`. For every text file without a leading U+FEFF, the lemma shows two results: the as-written copy yields "[object ArrayBuffer]", and the corrected copy yields the file's text. The widget itself (`ChatbotWidget.AttachmentText`, `ChatbotWidget.Widget.ReadAttachment`, `ChatbotWidget.Widget.HandleSendMessage`) is modelled as written, so the prompt it sends for a text attachment carries "[object ArrayBuffer]" (`ChatbotWidget.TextAttachmentPrompt`). The corrected copy, `Extraction.ExtractText` with the chat variant, is what `Extraction.ExtractTextOutcomes` proves the round trip for.
