/**
 * The recruiter's resume picker: files dropped or browsed are filtered by
 * extension, appended to the current selection, de-duplicated by name (the
 * first file of each name wins), and the resulting list is both kept and
 * handed to `onFilesSelect`. A file is removed by identity.
 */
module MultiFileUpload {
  import opened Text
  import opened Browser

  /** The names of a list of files, position by position. */
  function Names(s: seq<File>): (r: seq<string>)
    ensures |r| == |s|
    ensures forall i :: 0 <= i < |s| ==> r[i] == s[i].name
  {
    seq(|s|, i requires 0 <= i < |s| => s[i].name)
  }

  lemma NamesPrefix(s: seq<File>, n: nat)
    requires n <= |s|
    ensures Names(s[..n]) == Names(s)[..n]
  {
  }

  lemma NamesSnoc(s: seq<File>, f: File)
    ensures Names(s + [f]) == Names(s) + [f.name]
  {
  }

  // ---------------------------------------------------------------------------
  // Filtering by extension
  // ---------------------------------------------------------------------------

  /** Some piece of `types`, trimmed, ends the (already lower-cased) name. */
  predicate EndsWithSome(lowerName: string, types: seq<string>)
  {
    types != [] && (EndsWith(lowerName, Trim(types[0])) || EndsWithSome(lowerName, types[1..]))
  }

  /**
   * The filter on new files: the lower-cased name ends with one of the
   * comma-separated accepted types, each trimmed. The types themselves are
   * not lower-cased.
   */
  predicate Accepted(name: string, acceptedTypes: string)
  {
    EndsWithSome(Lower(name), Split(acceptedTypes, ','))
  }

  lemma {:induction false} EndsWithSomePiece(lowerName: string, types: seq<string>, k: nat)
    requires k < |types| && EndsWith(lowerName, Trim(types[k]))
    ensures EndsWithSome(lowerName, types)
  {
    if k > 0 {
      EndsWithSomePiece(lowerName, types[1..], k - 1);
    }
  }

  /**
   * A name whose extension, lower-cased, is one of the accepted pieces is
   * accepted whatever the case of its letters and whatever its stem: `CV.PDF`
   * passes `.pdf`.
   */
  lemma AcceptedAnyCase(stem: string, ext: string, acceptedTypes: string, k: nat)
    requires k < |Split(acceptedTypes, ',')| && Lower(ext) == Trim(Split(acceptedTypes, ',')[k])
    ensures Accepted(stem + ext, acceptedTypes)
  {
    LowerAppend(stem, ext);
    EndsWithAppend(Lower(stem), Lower(ext));
    EndsWithSomePiece(Lower(stem + ext), Split(acceptedTypes, ','), k);
  }

  /** `files.filter(file => keep(file.name))`. */
  function FilterByName(files: seq<File>, keep: string -> bool): (r: seq<File>)
    ensures forall i :: 0 <= i < |r| ==> r[i] in files && keep(r[i].name)
    ensures forall i :: 0 <= i < |files| && keep(files[i].name) ==> files[i] in r
  {
    if files == [] then []
    else
      var init, last := files[..|files| - 1], files[|files| - 1];
      assert files == init + [last];
      FilterByName(init, keep) + (if keep(last.name) then [last] else [])
  }

  /** Filtering only deletes files: the kept ones keep their order. */
  lemma {:induction false} FilterByNameSubsequence(files: seq<File>, keep: string -> bool)
    ensures IsSubsequence(FilterByName(files, keep), files)
  {
    if files != [] {
      var init, last := files[..|files| - 1], files[|files| - 1];
      FilterByNameSubsequence(init, keep);
      assert files == init + [last];
      if keep(last.name) {
        SubsequenceBoth(FilterByName(init, keep), init, last);
      } else {
        assert FilterByName(files, keep) == FilterByName(init, keep);
        SubsequenceExtend(FilterByName(init, keep), init, last);
      }
    }
  }

  /** The accepted files of a drop or a browse. */
  function AcceptedFiles(files: seq<File>, acceptedTypes: string): seq<File>
  {
    FilterByName(files, name => Accepted(name, acceptedTypes))
  }

  /**
   * Exactly the accepted files of a drop or a browse are added, in the order
   * they came.
   */
  lemma AcceptedFilesExactly(files: seq<File>, acceptedTypes: string)
    ensures forall i :: 0 <= i < |AcceptedFiles(files, acceptedTypes)| ==>
      Accepted(AcceptedFiles(files, acceptedTypes)[i].name, acceptedTypes)
    ensures forall i :: 0 <= i < |files| ==>
      (files[i] in AcceptedFiles(files, acceptedTypes) <==> Accepted(files[i].name, acceptedTypes))
    ensures IsSubsequence(AcceptedFiles(files, acceptedTypes), files)
  {
    FilterByNameExactly(files, name => Accepted(name, acceptedTypes));
  }

  /** A file is kept exactly when its name passes, and the kept files keep their order. */
  lemma FilterByNameExactly(files: seq<File>, keep: string -> bool)
    ensures forall i :: 0 <= i < |files| ==> (files[i] in FilterByName(files, keep) <==> keep(files[i].name))
    ensures IsSubsequence(FilterByName(files, keep), files)
  {
    var r := FilterByName(files, keep);
    FilterByNameSubsequence(files, keep);
    forall i | 0 <= i < |files| && files[i] in r
      ensures keep(files[i].name)
    {
      var k :| 0 <= k < |r| && r[k] == files[i];
    }
  }

  // ---------------------------------------------------------------------------
  // De-duplication by name
  // ---------------------------------------------------------------------------

  /** `self.findIndex(f => f.name === name)`: the first position with that name, or -1. */
  function FindIndex(self: seq<File>, name: string): (i: int)
    ensures -1 <= i < |self|
    ensures i >= 0 ==> self[i].name == name && forall j :: 0 <= j < i ==> self[j].name != name
    ensures i == -1 ==> forall j :: 0 <= j < |self| ==> self[j].name != name
  {
    if self == [] then -1
    else if self[0].name == name then 0
    else
      var k := FindIndex(self[1..], name);
      if k < 0 then -1 else k + 1
  }

  /** The filter over the first `n` positions: keep `index` iff it is `findIndex` of its own name. */
  function FirstsUpTo(self: seq<File>, n: nat): seq<File>
    requires n <= |self|
  {
    if n == 0 then []
    else FirstsUpTo(self, n - 1) + (if FindIndex(self, self[n - 1].name) == n - 1 then [self[n - 1]] else [])
  }

  /** `combined.filter((file, index, self) => index === self.findIndex(f => f.name === file.name))`. */
  function UniqueByName(combined: seq<File>): seq<File>
  {
    FirstsUpTo(combined, |combined|)
  }

  /** A position is kept exactly when no earlier file has its name. */
  lemma KeptIffFirst(self: seq<File>, i: nat)
    requires i < |self|
    ensures FindIndex(self, self[i].name) == i <==> self[i].name !in Names(self)[..i]
  {
    var names := Names(self);
    if self[i].name in names[..i] {
      var j :| 0 <= j < i && names[..i][j] == self[i].name;
      assert self[j].name == self[i].name;
    }
  }

  lemma {:induction false} FirstsUpToNames(self: seq<File>, n: nat)
    requires n <= |self|
    ensures Names(FirstsUpTo(self, n)) == Dedup(Names(self)[..n])
  {
    if n > 0 {
      FirstsUpToNames(self, n - 1);
      var names, x := Names(self), self[n - 1].name;
      assert names[..n] == names[..n - 1] + [x];
      DedupSnoc(names[..n - 1], x);
      KeptIffFirst(self, n - 1);
      if FindIndex(self, x) == n - 1 {
        NamesSnoc(FirstsUpTo(self, n - 1), self[n - 1]);
      } else {
        assert FirstsUpTo(self, n) == FirstsUpTo(self, n - 1);
      }
    }
  }

  /**
   * De-duplication by name is de-duplication of the names: the kept files
   * carry exactly the names of the combined list, each once, in the order of
   * their first appearance.
   */
  lemma UniqueByNameNames(combined: seq<File>)
    ensures Names(UniqueByName(combined)) == Dedup(Names(combined))
    ensures Distinct(Names(UniqueByName(combined)))
    ensures forall name :: name in Names(UniqueByName(combined)) <==> name in Names(combined)
  {
    FirstsUpToNames(combined, |combined|);
    assert Names(combined)[..|combined|] == Names(combined);
  }

  lemma {:induction false} FirstsUpToSubsequence(self: seq<File>, n: nat)
    requires n <= |self|
    ensures IsSubsequence(FirstsUpTo(self, n), self[..n])
  {
    if n > 0 {
      FirstsUpToSubsequence(self, n - 1);
      assert self[..n] == self[..n - 1] + [self[n - 1]];
      if FindIndex(self, self[n - 1].name) == n - 1 {
        SubsequenceBoth(FirstsUpTo(self, n - 1), self[..n - 1], self[n - 1]);
      } else {
        assert FirstsUpTo(self, n) == FirstsUpTo(self, n - 1);
        SubsequenceExtend(FirstsUpTo(self, n - 1), self[..n - 1], self[n - 1]);
      }
    }
  }

  /** De-duplication only deletes files: the kept ones keep their order. */
  lemma UniqueByNameSubsequence(combined: seq<File>)
    ensures IsSubsequence(UniqueByName(combined), combined)
  {
    FirstsUpToSubsequence(combined, |combined|);
    assert combined[..|combined|] == combined;
  }

  lemma {:induction false} FirstsUpToGrows(self: seq<File>, n: nat, m: nat)
    requires n <= m <= |self|
    ensures |FirstsUpTo(self, n)| <= |FirstsUpTo(self, m)|
    ensures FirstsUpTo(self, m)[..|FirstsUpTo(self, n)|] == FirstsUpTo(self, n)
    decreases m
  {
    if n < m {
      FirstsUpToGrows(self, n, m - 1);
    }
  }

  /** Positions whose names are distinct so far are all kept. */
  lemma {:induction false} FirstsUpToKeepsDistinct(self: seq<File>, n: nat)
    requires n <= |self| && Distinct(Names(self)[..n])
    ensures FirstsUpTo(self, n) == self[..n]
  {
    if n > 0 {
      var names := Names(self);
      assert names[..n - 1] == names[..n][..n - 1];
      FirstsUpToKeepsDistinct(self, n - 1);
      KeptIffFirst(self, n - 1);
      assert self[n - 1].name == names[..n][n - 1];
      assert self[..n] == self[..n - 1] + [self[n - 1]];
    }
  }

  /**
   * A selection whose names are distinct survives an addition unchanged and
   * in place: the new files can only be appended after it, and a new file
   * that reuses the name of a selected one is the one dropped.
   */
  lemma SelectionKeptAsPrefix(selected: seq<File>, added: seq<File>)
    requires Distinct(Names(selected))
    ensures |selected| <= |UniqueByName(selected + added)|
    ensures UniqueByName(selected + added)[..|selected|] == selected
  {
    var combined := selected + added;
    assert Names(combined)[..|selected|] == Names(selected);
    FirstsUpToKeepsDistinct(combined, |selected|);
    assert combined[..|selected|] == selected;
    FirstsUpToGrows(combined, |selected|, |combined|);
  }

  /** Past positions whose names all occurred before `from`, nothing more is kept. */
  lemma {:induction false} FirstsUpToNothingNew(self: seq<File>, from: nat, n: nat)
    requires from <= n <= |self|
    requires forall i :: from <= i < |self| ==> self[i].name in Names(self)[..from]
    ensures FirstsUpTo(self, n) == FirstsUpTo(self, from)
    decreases n
  {
    if from < n {
      FirstsUpToNothingNew(self, from, n - 1);
      KeptIffFirst(self, n - 1);
      var names := Names(self);
      var j :| 0 <= j < from && names[..from][j] == self[n - 1].name;
      assert names[..n - 1][j] == self[n - 1].name;
    }
  }

  /**
   * Adding files whose names are all selected already changes nothing: the
   * selection stays exactly as it was.
   */
  lemma ReAddingChangesNothing(selected: seq<File>, added: seq<File>)
    requires Distinct(Names(selected))
    requires forall f :: f in added ==> f.name in Names(selected)
    ensures UniqueByName(selected + added) == selected
  {
    var combined := selected + added;
    assert Names(combined)[..|selected|] == Names(selected);
    forall i | |selected| <= i < |combined|
      ensures combined[i].name in Names(combined)[..|selected|]
    {
      assert combined[i] == added[i - |selected|];
    }
    FirstsUpToNothingNew(combined, |selected|, |combined|);
    FirstsUpToKeepsDistinct(combined, |selected|);
    assert combined[..|selected|] == selected;
  }

  // ---------------------------------------------------------------------------
  // Removal
  // ---------------------------------------------------------------------------

  /** `selected.filter(file => file !== removed)`: every other file, in order. */
  function Without(selected: seq<File>, removed: File): (r: seq<File>)
    ensures removed !in r
    ensures forall i :: 0 <= i < |r| ==> r[i] in selected
    ensures forall i :: 0 <= i < |selected| && selected[i] != removed ==> selected[i] in r
  {
    if selected == [] then []
    else
      var init, last := selected[..|selected| - 1], selected[|selected| - 1];
      assert selected == init + [last];
      Without(init, removed) + (if last != removed then [last] else [])
  }

  /** Removal keeps the other files in their order. */
  lemma {:induction false} WithoutSubsequence(selected: seq<File>, removed: File)
    ensures IsSubsequence(Without(selected, removed), selected)
  {
    if selected != [] {
      var init, last := selected[..|selected| - 1], selected[|selected| - 1];
      WithoutSubsequence(init, removed);
      assert selected == init + [last];
      if last != removed {
        SubsequenceBoth(Without(init, removed), init, last);
      } else {
        assert Without(selected, removed) == Without(init, removed);
        SubsequenceExtend(Without(init, removed), init, last);
      }
    }
  }

  /** Removal keeps the names distinct. */
  lemma {:induction false} WithoutKeepsDistinct(selected: seq<File>, removed: File)
    requires Distinct(Names(selected))
    ensures Distinct(Names(Without(selected, removed)))
  {
    if selected != [] {
      var init, last := selected[..|selected| - 1], selected[|selected| - 1];
      assert Names(init) == Names(selected)[..|selected| - 1];
      WithoutKeepsDistinct(init, removed);
      if last != removed {
        var w := Without(init, removed);
        forall i | 0 <= i < |w| ensures w[i].name != last.name {
          var j :| 0 <= j < |init| && init[j] == w[i];
          assert Names(selected)[j] == w[i].name;
        }
      }
    }
  }

  // ---------------------------------------------------------------------------
  // The component
  // ---------------------------------------------------------------------------

  class Upload {
    const acceptedTypes: string
    var selectedFiles: seq<File>
    /** Every list handed to `onFilesSelect`, oldest first. */
    ghost var notified: seq<seq<File>>

    /**
     * The selection carries distinct names, and the parent was last told
     * exactly this selection (or nothing yet, while it is empty).
     */
    ghost predicate Valid()
      reads this
    {
      Distinct(Names(selectedFiles))
      && (if notified == [] then selectedFiles == [] else notified[|notified| - 1] == selectedFiles)
    }

    constructor (acceptedTypes: string)
      ensures Valid()
      ensures this.acceptedTypes == acceptedTypes && selectedFiles == [] && notified == []
    {
      this.acceptedTypes := acceptedTypes;
      selectedFiles := [];
      notified := [];
    }

    /** `updateFiles`: keep the list and hand the same list to the parent. */
    method UpdateFiles(newFiles: seq<File>)
      modifies this
      ensures selectedFiles == newFiles && notified == old(notified) + [newFiles]
    {
      selectedFiles := newFiles;
      notified := notified + [newFiles];
    }

    /**
     * `handleFiles`, reached from a drop (when the transfer has a file list)
     * and from the browse input: no list changes nothing; otherwise the
     * accepted files are appended and the whole de-duplicated by name.
     */
    method HandleFiles(files: Option<seq<File>>)
      requires Valid()
      modifies this
      ensures Valid()
      ensures files.None? ==> selectedFiles == old(selectedFiles) && notified == old(notified)
      ensures files.Some? ==> selectedFiles == UniqueByName(old(selectedFiles) + AcceptedFiles(files.value, acceptedTypes))
      ensures files.Some? ==> notified == old(notified) + [selectedFiles]
      ensures |old(selectedFiles)| <= |selectedFiles| && selectedFiles[..|old(selectedFiles)|] == old(selectedFiles)
    {
      if files.Some? {
        var newFiles := AcceptedFiles(files.value, acceptedTypes);
        var combined := selectedFiles + newFiles;
        UniqueByNameNames(combined);
        SelectionKeptAsPrefix(selectedFiles, newFiles);
        UpdateFiles(UniqueByName(combined));
      }
    }

    /** `onRemoveFile`: drop exactly that file object and tell the parent. */
    method OnRemoveFile(fileToRemove: File)
      requires Valid()
      modifies this
      ensures Valid()
      ensures selectedFiles == Without(old(selectedFiles), fileToRemove)
      ensures notified == old(notified) + [selectedFiles]
    {
      WithoutKeepsDistinct(selectedFiles, fileToRemove);
      UpdateFiles(Without(selectedFiles, fileToRemove));
    }
  }
}
