/** The MIME-type fallback of `src/app/api/extract-text/route.ts`: when the
    upload carries no type, the type is looked up from the lower-cased text
    after the file name's last dot; what the extractor is finally given is
    that type, or no type at all when it is empty. */
module ExtractText {
  import opened Wrappers
  import opened Strings

  predicate TableKey(extension: string) {
    extension == "pdf" || extension == "docx" || extension == "doc" ||
    extension == "pptx" || extension == "xlsx" || extension == "txt"
  }

  /** The six entries of the lookup table: only their keys have a type,
      and no type is empty. */
  function KnownType(extension: string): (mimeType: Option<string>)
    ensures mimeType.Some? <==> TableKey(extension)
    ensures mimeType.Some? ==> mimeType.value != ""
  {
    if extension == "pdf" then Some("application/pdf")
    else if extension == "docx" then Some("application/vnd.openxmlformats-officedocument.wordprocessingml.document")
    else if extension == "doc" then Some("application/msword")
    else if extension == "pptx" then Some("application/vnd.openxmlformats-officedocument.presentationml.presentation")
    else if extension == "xlsx" then Some("application/vnd.openxmlformats-officedocument.spreadsheetml.sheet")
    else if extension == "txt" then Some("text/plain")
    else None
  }

  /** `file.name.split(".").pop()?.toLowerCase()`; `pop` on the result of
      `split` always has a piece to return. */
  function Extension(fileName: string): (extension: string)
    ensures |extension| <= |fileName| && '.' !in extension
    ensures extension == ToLower(fileName[|fileName| - |extension|..])
    ensures |extension| < |fileName| ==> fileName[|fileName| - |extension| - 1] == '.'
  {
    LastPieceEnds(fileName, '.');
    var last := LastPiece(fileName, '.');
    assert forall i :: 0 <= i < |last| ==> LowerChar(last[i]) != '.';
    ToLower(last)
  }

  /** The extension of "stem.tail" is the lower-cased tail, when the tail
      has no dot. */
  lemma ExtensionAfterDot(stem: string, tail: string)
    requires '.' !in tail
    ensures Extension(stem + "." + tail) == ToLower(tail)
  {
    LastPieceAfter(stem, '.', tail);
  }

  // --------------------------------------------------------------- as written

  /** The members every object literal inherits from `Object.prototype`
      whose names are all lower case, so that a lower-cased extension can
      reach them. */
  const InheritedKeys: set<string> := {"constructor", "__proto__"}

  /** What `mimeTypes[extension]` evaluates to: one of the table's own
      strings, an inherited member (a function or an object, truthy and not
      a string), or `undefined`. */
  datatype Member = Own(mime: string) | Inherited(name: string) | Absent

  function Lookup(extension: string): Member {
    if KnownType(extension).Some? then Own(KnownType(extension).value)
    else if extension in InheritedKeys then Inherited(extension)
    else Absent
  }

  /** The value `mimeType` may end up holding. */
  datatype MimeValue = MimeString(text: string) | MimeMember(name: string)

  /** `mimeType || undefined` as written: the upload's type when there is
      one; otherwise, for a non-empty extension, `mimeTypes[extension] || ""`,
      with the empty string falling back to no type. */
  function MimeTypeAsWritten(fileType: string, fileName: string): (mime: Option<MimeValue>)
    ensures fileType != "" ==> mime == Some(MimeString(fileType))
  {
    if fileType != "" then Some(MimeString(fileType))
    else
      var extension := Extension(fileName);
      if extension == "" then None
      else match Lookup(extension)
        case Own(m) => Some(MimeString(m))
        case Inherited(name) => Some(MimeMember(name))
        case Absent => None
  }

  /** An untyped upload named "notes.constructor" hands the extractor the
      `Object` constructor where a MIME type string belongs. */
  lemma InheritedMemberLeaks()
    ensures MimeTypeAsWritten("", "notes.constructor") == Some(MimeMember("constructor"))
  {
    var tail := "constructor";
    assert "notes.constructor" == "notes" + "." + tail;
    ExtensionAfterDot("notes", tail);
    LowerConstructor();
    assert |tail| == 11;
    LongNameNoKey(tail);
    assert Lookup(tail) == Inherited(tail);
  }

  /** Every key of the table has at most four letters. */
  lemma LongNameNoKey(extension: string)
    requires |extension| > 4
    ensures !TableKey(extension) && KnownType(extension).None?
  {
  }

  lemma LowerConstructor()
    ensures ToLower("constructor") == "constructor"
  {
    var t := "constructor";
    forall i | 0 <= i < |t| ensures LowerChar(t[i]) == t[i] {
      assert 'a' <= t[i] <= 'z';
    }
  }

  // ---------------------------------------------------------------- corrected

  /** The MIME type the extractor is given, with the table read through its
      own keys only: the upload's type when there is one; otherwise the
      table's entry for the extension, or none. */
  function MimeType(fileType: string, fileName: string): (mime: Option<string>)
    ensures fileType != "" ==> mime == Some(fileType)
    ensures fileType == "" ==> mime == KnownType(Extension(fileName))
    ensures mime.Some? ==> mime.value != ""
  {
    if fileType != "" then Some(fileType)
    else
      var extension := Extension(fileName);
      if extension == "" then None else KnownType(extension)
  }

  /** Wherever the code as written yields a string, the corrected lookup
      yields the same one; the two differ only on inherited keys. */
  lemma MimeTypeAgrees(fileType: string, fileName: string)
    ensures MimeTypeAsWritten(fileType, fileName).Some? && MimeTypeAsWritten(fileType, fileName).value.MimeString? ==>
      MimeType(fileType, fileName) == Some(MimeTypeAsWritten(fileType, fileName).value.text)
    ensures MimeTypeAsWritten(fileType, fileName).None? ==> MimeType(fileType, fileName).None?
    ensures MimeTypeAsWritten(fileType, fileName).Some? && MimeTypeAsWritten(fileType, fileName).value.MimeMember? ==>
      MimeType(fileType, fileName).None? && Extension(fileName) in InheritedKeys
  {
  }

  /** The type follows the extension whatever the case of the file name and
      whatever precedes its last dot. */
  lemma UntypedByExtension(stem: string, tail: string)
    requires '.' !in tail
    ensures MimeType("", stem + "." + tail) == KnownType(ToLower(tail))
  {
    ExtensionAfterDot(stem, tail);
  }

  /** "Report.PDF" without a type is read as a PDF. */
  lemma UpperCasePdf()
    ensures MimeType("", "Report.PDF") == Some("application/pdf")
  {
    assert "Report.PDF" == "Report" + "." + "PDF";
    UntypedByExtension("Report", "PDF");
    assert ToLower("PDF") == "pdf";
  }

  /** A name without a dot is its own extension: "txt" is plain text, and
      an unknown name gets no type. */
  lemma DotlessName(fileName: string)
    requires '.' !in fileName
    ensures MimeType("", fileName) == KnownType(ToLower(fileName))
  {
    LastPieceEnds(fileName, '.');
    assert |LastPiece(fileName, '.')| == |fileName| by {
      if |LastPiece(fileName, '.')| < |fileName| {
        assert false;
      }
    }
  }
}
