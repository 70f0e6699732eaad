/** The file-preview helpers: classifying a file by its extension, and the
    Office Online viewer address for a file. */
module FileExplorer {
  import opened Strings

  const OfficeExtensions: seq<string> :=
    [".doc", ".docx", ".xls", ".xlsx", ".ppt", ".pptx", ".odt", ".ods", ".odp", ".rtf", ".csv"]
  const ImageExtensions: seq<string> := [".jpg", ".jpeg", ".png", ".gif", ".bmp", ".webp"]
  const TextExtensions: seq<string> := [".txt", ".md", ".log"]
  const PdfExtensions: seq<string> := [".pdf"]

  const OfficeViewer := "http://view.officeapps.live.com/op/view.aspx?src="

  /** `fileName.substring(fileName.lastIndexOf('.')).toLowerCase()`: the
      lower-cased suffix from the last dot, or the whole lower-cased name when
      there is no dot (`substring(-1)` starts at 0). */
  function Extension(fileName: string): (ext: string)
    ensures '.' !in fileName ==> ext == LowerAscii(fileName)
    ensures '.' in fileName ==> |ext| >= 1 && ext[0] == '.' && '.' !in ext[1..]
    ensures '.' in fileName ==> ext == LowerAscii(fileName[LastIndexOf(fileName, '.')..])
  {
    LowerAscii(SubstringFrom(fileName, LastIndexOf(fileName, '.')))
  }

  /** `canPreviewWithOffice(fileName)`. */
  predicate CanPreviewWithOffice(fileName: string)
    ensures CanPreviewWithOffice(fileName) ==> '.' in fileName
  {
    var ext := Extension(fileName);
    OfficeExtensionsDotted(ext);
    ext in OfficeExtensions
  }

  /** Every office extension starts with a dot. */
  lemma OfficeExtensionsDotted(ext: string)
    ensures ext in OfficeExtensions ==> |ext| > 1 && ext[0] == '.'
  {
  }

  /** `getFileType(fileName)`: the first list the extension is in decides. */
  function GetFileType(fileName: string): (kind: string)
    ensures kind in ["image", "text", "pdf", "office", "unknown"]
    ensures kind == "image" <==> Extension(fileName) in ImageExtensions
    ensures kind == "text" <==>
      (Extension(fileName) !in ImageExtensions && Extension(fileName) in TextExtensions)
    ensures kind == "pdf" <==>
      (Extension(fileName) !in ImageExtensions + TextExtensions && Extension(fileName) in PdfExtensions)
    ensures kind == "unknown" <==>
      (Extension(fileName) !in ImageExtensions + TextExtensions + PdfExtensions && !CanPreviewWithOffice(fileName))
  {
    var ext := Extension(fileName);
    if ext in ImageExtensions then "image"
    else if ext in TextExtensions then "text"
    else if ext in PdfExtensions then "pdf"
    else if CanPreviewWithOffice(fileName) then "office"
    else "unknown"
  }

  /** `getOfficePreviewUrl(fileUrl)`, with `encodeURIComponent` given as
      `encode`. */
  function GetOfficePreviewUrl(fileUrl: string, encode: string -> string): (url: string)
    ensures StartsWith(url, OfficeViewer)
    ensures url[|OfficeViewer|..] == encode(fileUrl)
  {
    OfficeViewer + encode(fileUrl)
  }

  /** No extension is on the office list and on another list, so a file is
      `office` exactly when it can be previewed with Office. */
  lemma OfficeIffPreviewable(fileName: string)
    ensures GetFileType(fileName) == "office" <==> CanPreviewWithOffice(fileName)
  {
    var ext := Extension(fileName);
    if ext in OfficeExtensions {
      assert ext !in ImageExtensions && ext !in TextExtensions && ext !in PdfExtensions;
    }
  }

  /** Lower-casing commutes with taking a suffix. */
  lemma LowerSuffix(s: string, i: nat)
    requires i <= |s|
    ensures LowerAscii(s[i..]) == LowerAscii(s)[i..]
  {
  }

  /** Names that differ only in the case of ASCII letters have their last
      dot at the same place, since a dot is not a letter. */
  lemma LastDotCaseBlind(a: string, b: string)
    requires LowerAscii(a) == LowerAscii(b)
    ensures LastIndexOf(a, '.') == LastIndexOf(b, '.')
  {
    assert |a| == |b|;
    forall k | 0 <= k < |a|
      ensures a[k] == '.' <==> b[k] == '.'
    {
      assert LowerChar(a[k]) == LowerChar(b[k]);
    }
  }

  /** Lower-casing is idempotent. */
  lemma LowerTwice(s: string)
    ensures LowerAscii(LowerAscii(s)) == LowerAscii(s)
  {
  }

  /** Extension matching ignores case: names that differ only in the case
      of ASCII letters get the same type and the same Office answer. */
  lemma CaseInsensitive(a: string, b: string)
    requires LowerAscii(a) == LowerAscii(b)
    ensures Extension(a) == Extension(b)
    ensures CanPreviewWithOffice(a) == CanPreviewWithOffice(b)
    ensures GetFileType(a) == GetFileType(b)
  {
    LastDotCaseBlind(a, b);
    var i := LastIndexOf(a, '.');
    if i >= 0 {
      LowerSuffix(a, i);
      LowerSuffix(b, i);
    }
  }

  /** Lower-casing a name first changes neither its type nor its Office answer. */
  lemma LowerCasedNameSameType(fileName: string)
    ensures GetFileType(LowerAscii(fileName)) == GetFileType(fileName)
    ensures CanPreviewWithOffice(LowerAscii(fileName)) == CanPreviewWithOffice(fileName)
  {
    LowerTwice(fileName);
    CaseInsensitive(LowerAscii(fileName), fileName);
  }
}
