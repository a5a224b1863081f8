/**
 * The job seeker's single-file picker. A file is taken when one of the
 * comma-separated accepted types ends its name (case-sensitively, untrimmed)
 * or is contained in one of the comma-separated pieces of its MIME type;
 * anything else, a missing file included, clears the selection. Either way
 * the parent hears of the outcome through `onFileSelect`.
 */
module FileUpload {
  import opened Text
  import opened Browser

  /** One accepted type matches: it ends the name, or some piece of the MIME type contains it. */
  predicate TypeMatches(name: string, mimes: seq<string>, t: string)
  {
    EndsWith(name, t) || exists m :: 0 <= m < |mimes| && Includes(mimes[m], t)
  }

  /**
   * `acceptedTypes.split(',').some(type => name.endsWith(type) ||
   * mime.split(',').some(accepted => accepted.includes(type)))`.
   */
  predicate Accepts(name: string, mimeType: string, acceptedTypes: string)
  {
    var types := Split(acceptedTypes, ',');
    exists k :: 0 <= k < |types| && TypeMatches(name, Split(mimeType, ','), types[k])
  }

  /** What `handleFile` selects: the file when there is one and it is accepted, otherwise nothing. */
  function Selection(file: Option<File>, acceptedTypes: string): (r: Option<File>)
    ensures r.Some? ==> r == file
  {
    if file.Some? && Accepts(file.value.name, file.value.mimeType, acceptedTypes) then file else None
  }

  /**
   * With a MIME type that holds no dot and accepted types that are all
   * extensions (each holds a dot), the MIME test never fires: a file is
   * accepted exactly when its name ends, case-sensitively, with one of them.
   */
  lemma OnlyExtensionsCount(name: string, mimeType: string, acceptedTypes: string)
    requires '.' !in mimeType
    requires forall k :: 0 <= k < |Split(acceptedTypes, ',')| ==> '.' in Split(acceptedTypes, ',')[k]
    ensures Accepts(name, mimeType, acceptedTypes) <==>
      exists k :: 0 <= k < |Split(acceptedTypes, ',')| && EndsWith(name, Split(acceptedTypes, ',')[k])
  {
    var types, mimes := Split(acceptedTypes, ','), Split(mimeType, ',');
    forall k | 0 <= k < |types|
      ensures TypeMatches(name, mimes, types[k]) <==> EndsWith(name, types[k])
    {
      forall m | 0 <= m < |mimes| ensures !Includes(mimes[m], types[k]) {
        if Includes(mimes[m], types[k]) {
          IncludesChars(mimes[m], types[k], '.');
          SplitPieceChars(mimeType, ',', m, '.');
        }
      }
    }
    if Accepts(name, mimeType, acceptedTypes) {
      var k :| 0 <= k < |types| && TypeMatches(name, mimes, types[k]);
      assert 0 <= k < |Split(acceptedTypes, ',')| && EndsWith(name, Split(acceptedTypes, ',')[k]);
    } else {
      forall k | 0 <= k < |types| ensures !EndsWith(name, types[k]) {
        assert !TypeMatches(name, mimes, types[k]);
      }
    }
  }

  /**
   * An empty accepted type (an empty list, or a stray comma) lets every file
   * through, since every name ends with the empty text.
   */
  lemma EmptyTypeAcceptsAll(name: string, mimeType: string, acceptedTypes: string, k: nat)
    requires k < |Split(acceptedTypes, ',')| && Split(acceptedTypes, ',')[k] == ""
    ensures Accepts(name, mimeType, acceptedTypes)
  {
    assert EndsWith(name, Split(acceptedTypes, ',')[k]);
  }

  /** The accepted types the job seeker's dashboard passes, `.txt,.pdf,.docx`. */
  const JobSeekerTypes: string := ".txt" + "," + ".pdf" + "," + ".docx"

  lemma SplitThree(a: string, b: string, c: string)
    requires ',' !in a && ',' !in b && ',' !in c
    ensures Split(a + "," + b + "," + c, ',') == [a, b, c]
  {
    SplitWithoutSeparator(c, ',');
    SplitHead(b, ',', c);
    SplitHead(a, ',', b + "," + c);
    assert a + "," + b + "," + c == a + [','] + (b + [','] + c);
  }

  lemma JobSeekerTypesPieces()
    ensures Split(JobSeekerTypes, ',') == [".txt", ".pdf", ".docx"]
  {
    SplitThree(".txt", ".pdf", ".docx");
  }

  /**
   * On the job seeker's dashboard an upper-case extension is refused: a PDF
   * named `CV.PDF` with MIME type `application/pdf` is not selected, although
   * the extraction behind it would read it.
   */
  lemma UpperCaseExtensionRefused(file: File)
    requires file.name == "CV.PDF" && file.mimeType == "application/pdf"
    ensures Selection(Some(file), JobSeekerTypes) == None
  {
    JobSeekerTypesPieces();
    JobSeekerTypesDotted();
    PdfMimeUndotted();
    CvPdfEndsWithNone();
    var types := Split(JobSeekerTypes, ',');
    assert forall k :: 0 <= k < |types| ==> '.' in types[k] && !EndsWith(file.name, types[k]);
    OnlyExtensionsCount(file.name, file.mimeType, JobSeekerTypes);
  }

  lemma JobSeekerTypesDotted()
    ensures '.' in ".txt" && '.' in ".pdf" && '.' in ".docx"
  {
    assert ".txt"[0] == '.' && ".pdf"[0] == '.' && ".docx"[0] == '.';
  }

  lemma PdfMimeUndotted()
    ensures '.' !in "application/pdf"
  {
  }

  lemma CvPdfEndsWithNone()
    ensures !EndsWith("CV.PDF", ".txt") && !EndsWith("CV.PDF", ".pdf") && !EndsWith("CV.PDF", ".docx")
  {
    assert "CV.PDF"[2..][1] != ".txt"[1];
    assert "CV.PDF"[2..][1] != ".pdf"[1];
    assert "CV.PDF"[1..][0] != ".docx"[0];
  }

  /** A lower-case extension on the same dashboard is taken, whatever the MIME type. */
  lemma LowerCaseExtensionTaken(file: File, stem: string)
    requires file.name == stem + ".pdf"
    ensures Selection(Some(file), JobSeekerTypes) == Some(file)
  {
    JobSeekerTypesPieces();
    EndsWithAppend(stem, ".pdf");
    assert EndsWith(file.name, Split(JobSeekerTypes, ',')[1]);
  }

  class Picker {
    const acceptedTypes: string
    var selectedFile: Option<File>
    /** Every value handed to `onFileSelect`, oldest first. */
    ghost var notified: seq<Option<File>>

    /** The parent was last told exactly the current selection (or nothing yet, while it is empty). */
    ghost predicate Valid()
      reads this
    {
      if notified == [] then selectedFile == None else notified[|notified| - 1] == selectedFile
    }

    constructor (acceptedTypes: string)
      ensures Valid()
      ensures this.acceptedTypes == acceptedTypes && selectedFile == None && notified == []
    {
      this.acceptedTypes := acceptedTypes;
      selectedFile := None;
      notified := [];
    }

    /** `handleFile`: select the file or clear the selection, and tell the parent. */
    method HandleFile(file: Option<File>)
      modifies this
      ensures Valid()
      ensures selectedFile == Selection(file, acceptedTypes)
      ensures notified == old(notified) + [selectedFile]
    {
      if file.Some? && Accepts(file.value.name, file.value.mimeType, acceptedTypes) {
        selectedFile := file;
      } else {
        selectedFile := None;
      }
      notified := notified + [selectedFile];
    }

    /** `handleDrop`: only the first dropped file is looked at; an empty drop does nothing. */
    method HandleDrop(files: seq<File>)
      requires Valid()
      modifies this
      ensures Valid()
      ensures files == [] ==> selectedFile == old(selectedFile) && notified == old(notified)
      ensures files != [] ==> selectedFile == Selection(Some(files[0]), acceptedTypes)
      ensures files != [] ==> notified == old(notified) + [selectedFile]
    {
      if files != [] {
        HandleFile(Some(files[0]));
      }
    }

    /**
     * `handleChange`: the first picked file, where an absent list and an
     * empty one both reach `handleFile` without a file and so clear the
     * selection.
     */
    method HandleChange(files: Option<seq<File>>)
      modifies this
      ensures Valid()
      ensures selectedFile == (if files.Some? && files.value != [] then Selection(Some(files.value[0]), acceptedTypes) else None)
      ensures notified == old(notified) + [selectedFile]
    {
      if files.Some? && files.value != [] {
        HandleFile(Some(files.value[0]));
      } else {
        HandleFile(None);
      }
    }

    /** `onRemoveFile`: clear the selection and tell the parent. */
    method OnRemoveFile()
      modifies this
      ensures Valid()
      ensures selectedFile == None && notified == old(notified) + [None]
    {
      selectedFile := None;
      notified := notified + [None];
    }
  }
}
