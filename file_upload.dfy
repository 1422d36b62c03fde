/**
 * The upload widget (src/components/ui/FileUpload.tsx): a chosen file is
 * checked against a size limit and then against the extensions the `accept`
 * string lists; the widget keeps the accepted file and the last error and
 * reports changes to its owner.
 */
module FileUpload {
  import opened Wrappers
  import opened Text

  /** A file the browser hands over: its name, MIME type and size in bytes. */
  datatype SelectedFile = SelectedFile(name: string, mimeType: string, size: nat)

  /** Line 16: the entries of the default `accept` string `.pdf,.doc,.docx,.ppt,.pptx`. */
  const DefaultAcceptEntries: seq<string> := [".pdf", ".doc", ".docx", ".ppt", ".pptx"]

  const DefaultAccept: string := Join(DefaultAcceptEntries, ',')

  /** Line 17. */
  const DefaultMaxSizeMB: nat := 10

  /** Line 41: the lower-cased text after the last ".", or the whole lower-cased name when it has no ".". */
  function Extension(name: string): string {
    Lower(LastPiece(name, '.'))
  }

  /** The extension has no "." and no upper-case letter, and is what follows the last "." of the name. */
  lemma ExtensionIsAfterLastDot(name: string)
    ensures '.' !in Extension(name)
    ensures forall i :: 0 <= i < |Extension(name)| ==> !('A' <= Extension(name)[i] <= 'Z')
    ensures |Extension(name)| <= |name|
    ensures Extension(name) == Lower(name[|name| - |Extension(name)|..])
    ensures |Extension(name)| < |name| ==> name[|name| - |Extension(name)| - 1] == '.'
  {
    LastPieceIsTail(name, '.');
  }

  /** A name ending in "." has the empty extension, so the type check does not apply to it. */
  lemma TrailingDotHasNoExtension(name: string)
    requires name != [] && name[|name| - 1] == '.'
    ensures Extension(name) == ""
  {
    LastPieceAfterTrailingSeparator(name, '.');
  }

  function StripDot(entry: string): (r: string)
    ensures entry != [] && entry[0] == '.' ==> r == entry[1..]
    ensures entry == [] || entry[0] != '.' ==> r == entry
  {
    if entry != [] && entry[0] == '.' then entry[1..] else entry
  }

  /** Lines 42-44: the `accept` entries between commas, each without a leading ".". */
  function AcceptedTypes(accept: string): (types: seq<string>)
    ensures |types| == |Split(accept, ',')|
    ensures forall k :: 0 <= k < |types| ==> types[k] == StripDot(Split(accept, ',')[k])
  {
    StripAll(Split(accept, ','))
  }

  function StripAll(entries: seq<string>): (r: seq<string>)
    ensures |r| == |entries|
    ensures forall k :: 0 <= k < |r| ==> r[k] == StripDot(entries[k])
  {
    if entries == [] then [] else [StripDot(entries[0])] + StripAll(entries[1..])
  }

  /** Line 36. */
  function SizeError(maxSizeMB: nat): string {
    "File size should not exceed " + NatToString(maxSizeMB) + "MB"
  }

  /** Line 47. */
  function TypeError(accept: string): string {
    "Only " + accept + " files are allowed"
  }

  /** The byte limit: a MiB is 1024 * 1024 bytes. */
  function MaxBytes(maxSizeMB: nat): nat {
    maxSizeMB * 1024 * 1024
  }

  /**
   * Lines 34-49: the size check first, then the type check, which a file
   * with an empty extension skips. `None` means the file is accepted.
   */
  function Check(f: SelectedFile, accept: string, maxSizeMB: nat): (error: Option<string>)
    ensures error == Some(SizeError(maxSizeMB)) <== f.size > MaxBytes(maxSizeMB)
    ensures f.size <= MaxBytes(maxSizeMB) ==>
      (error.Some? <==> Extension(f.name) != "" && Extension(f.name) !in AcceptedTypes(accept))
    ensures f.size <= MaxBytes(maxSizeMB) && error.Some? ==> error == Some(TypeError(accept))
  {
    if f.size > MaxBytes(maxSizeMB) then Some(SizeError(maxSizeMB))
    else
      var ext := Extension(f.name);
      if ext != "" && ext !in AcceptedTypes(accept) then Some(TypeError(accept))
      else None
  }

  /** A file of exactly the limit passes the size check; one byte more does not. */
  lemma SizeLimitIsInclusive(name: string, mimeType: string, accept: string, maxSizeMB: nat)
    ensures Check(SelectedFile(name, mimeType, MaxBytes(maxSizeMB) + 1), accept, maxSizeMB) == Some(SizeError(maxSizeMB))
    ensures Check(SelectedFile(name, mimeType, MaxBytes(maxSizeMB)), accept, maxSizeMB) != Some(SizeError(maxSizeMB))
  {
    var ok := Check(SelectedFile(name, mimeType, MaxBytes(maxSizeMB)), accept, maxSizeMB);
    if ok.Some? {
      assert ok == Some(TypeError(accept));
      assert TypeError(accept)[0] == 'O' && SizeError(maxSizeMB)[0] == 'F';
    }
  }

  /** The default `accept` string allows exactly the five document extensions. */
  lemma DefaultTypes()
    ensures AcceptedTypes(DefaultAccept) == ["pdf", "doc", "docx", "ppt", "pptx"]
  {
    DefaultEntries();
    var types := AcceptedTypes(DefaultAccept);
    assert types[0] == StripDot(".pdf");
    assert types[1] == StripDot(".doc");
    assert types[2] == StripDot(".docx");
    assert types[3] == StripDot(".ppt");
    assert types[4] == StripDot(".pptx");
  }

  lemma DefaultEntries()
    ensures Split(DefaultAccept, ',') == DefaultAcceptEntries
  {
    JoinSplit(DefaultAcceptEntries, ',');
  }

  /** An entry of `accept` in upper case never matches, since the extension is lowered first. */
  lemma UpperCaseEntryNeverMatches(f: SelectedFile)
    requires f.size <= MaxBytes(DefaultMaxSizeMB)
    requires Extension(f.name) != ""
    ensures Check(f, ".PDF", DefaultMaxSizeMB) == Some(TypeError(".PDF"))
  {
    UpperCaseTypes();
    var e := Extension(f.name);
    assert !('A' <= e[0] <= 'Z');
    assert e != "PDF";
  }

  lemma UpperCaseTypes()
    ensures AcceptedTypes(".PDF") == ["PDF"]
  {
    SplitWithoutSeparator(".PDF", ',');
  }

  /** The widget's state: the accepted file and the error shown under it. */
  class FileUploadWidget {
    const accept: string
    const maxSizeMB: nat
    var file: Option<SelectedFile>
    var error: Option<string>

    constructor (acceptAttr: Option<string>, maxSize: Option<nat>)
      ensures accept == acceptAttr.GetOr(DefaultAccept) && maxSizeMB == maxSize.GetOr(DefaultMaxSizeMB)
      ensures file == None && error == None
    {
      accept := acceptAttr.GetOr(DefaultAccept);
      maxSizeMB := maxSize.GetOr(DefaultMaxSizeMB);
      file := None;
      error := None;
    }

    /**
     * Lines 25-53. `reported` is what `onFileChange` is called with, `None`
     * when it is not called. No selection clears the file and reports that;
     * a rejected file sets the error and keeps the previous file; an accepted
     * one clears the error, is kept and is reported.
     */
    method HandleFileChange(selected: Option<SelectedFile>) returns (reported: Option<Option<SelectedFile>>)
      modifies this
      ensures selected.None? ==> file == None && error == None && reported == Some(None)
      ensures selected.Some? && Check(selected.value, accept, maxSizeMB).Some? ==>
        file == old(file) && error == Check(selected.value, accept, maxSizeMB) && reported == None
      ensures selected.Some? && Check(selected.value, accept, maxSizeMB).None? ==>
        file == selected && error == None && reported == Some(selected)
    {
      error := None;
      if selected.None? {
        file := None;
        reported := Some(None);
        return;
      }
      var problem := Check(selected.value, accept, maxSizeMB);
      if problem.Some? {
        error := problem;
        reported := None;
        return;
      }
      file := selected;
      reported := Some(selected);
    }

    /** Lines 82-91: no file, no error, and the owner is told there is none. */
    method RemoveFile() returns (reported: Option<Option<SelectedFile>>)
      modifies this
      ensures file == None && error == None && reported == Some(None)
    {
      file := None;
      error := None;
      reported := Some(None);
    }
  }
}
