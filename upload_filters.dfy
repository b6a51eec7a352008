/**
 * The upload filters of server/middlewares/multer.middleware.js: an upload is
 * accepted when the lower-cased extension of its original name and its MIME
 * type are both listed. The extension is the one Node's POSIX `path.extname`
 * computes.
 */
module UploadFilters {
  import opened Common

  /** What a filter hands to multer's callback: accept, or an error with its message. */
  datatype Decision = Accept | Refuse(message: string)

  predicate NoSlash(s: string) {
    forall i :: 0 <= i < |s| ==> s[i] != '/'
  }

  predicate NoDot(s: string) {
    forall i :: 0 <= i < |s| ==> s[i] != '.'
  }

  /** The path without its trailing slashes. */
  function StripTrailingSlashes(p: string): (r: string)
    ensures |r| <= |p| && r == p[..|r|] && (r == [] || r[|r| - 1] != '/')
    ensures forall i :: |r| <= i < |p| ==> p[i] == '/'
  {
    if p != [] && p[|p| - 1] == '/' then StripTrailingSlashes(p[..|p| - 1]) else p
  }

  /** The part after the last slash. */
  function AfterLastSlash(p: string): (r: string)
    ensures NoSlash(r) && |r| <= |p| && r == p[|p| - |r|..]
    ensures |r| < |p| ==> p[|p| - |r| - 1] == '/'
  {
    if p != [] && p[|p| - 1] != '/' then
      var init := AfterLastSlash(p[..|p| - 1]);
      assert init + [p[|p| - 1]] == p[|p| - |init| - 1..];
      init + [p[|p| - 1]]
    else []
  }

  /** The last path component, which is where `path.extname` looks for a dot. */
  function BaseName(p: string): (r: string)
    ensures NoSlash(r)
  {
    AfterLastSlash(StripTrailingSlashes(p))
  }

  /** The index of the last '.' of `s`, if there is one. */
  function LastDot(s: string): (r: Option<nat>)
    ensures r.None? <==> NoDot(s)
    ensures r.Some? ==> r.value < |s| && s[r.value] == '.' && NoDot(s[r.value + 1..])
  {
    if s == [] then None
    else if s[|s| - 1] == '.' then Some(|s| - 1)
    else
      var r := LastDot(s[..|s| - 1]);
      assert r.Some? ==> s[r.value + 1..] == s[..|s| - 1][r.value + 1..] + [s[|s| - 1]];
      r
  }

  /**
   * `path.extname`: from the last dot of the last component to its end, or
   * "" when that component has no dot, starts with its only relevant dot
   * (".csv"), or is "..".
   */
  function Extname(p: string): (r: string)
    ensures r == "" || (r[0] == '.' && NoDot(r[1..]) && NoSlash(r))
  {
    var b := BaseName(p);
    match LastDot(b)
    case None => ""
    case Some(d) =>
      if d == 0 || IsDotDot(b) then ""
      else
        assert b[d..][1..] == b[d + 1..];
        assert forall i :: 0 <= i < |b| - d ==> b[d..][i] == b[d + i];
        b[d..]
  }

  /** The extension is the end of the last path component. */
  lemma ExtnameSuffix(p: string)
    ensures var b, r := BaseName(p), Extname(p); |r| <= |b| && r == b[|b| - |r|..]
  {
    var b := BaseName(p);
    var d := LastDot(b);
    if d.Some? && d.value != 0 && !IsDotDot(b) {
      assert Extname(p) == b[d.value..];
    } else {
      assert Extname(p) == "";
    }
  }

  /** The component "..", the parent directory. */
  predicate IsDotDot(b: string) {
    |b| == 2 && b[0] == '.' && b[1] == '.'
  }

  /** A simple file name: a non-empty stem, a dot and an extension without dots gives that extension. */
  lemma ExtnameOfName(stem: string, ext: string)
    requires stem != [] && NoSlash(stem) && NoSlash(ext) && NoDot(ext)
    requires !(stem == "." && ext == "")
    ensures Extname(stem + "." + ext) == "." + ext
  {
    var p := stem + "." + ext;
    DottedNoSlash(stem, ext);
    BaseNameNoSlash(p);
    LastDotBeforeExtension(stem, ext);
    assert !IsDotDot(p);
    assert p[|stem|..] == "." + ext;
  }

  /** Joining two slash-free parts with a dot gives a slash-free name. */
  lemma DottedNoSlash(a: string, b: string)
    requires NoSlash(a) && NoSlash(b)
    ensures NoSlash(a + "." + b)
  {
    var p := a + "." + b;
    forall i | 0 <= i < |p| ensures p[i] != '/' {
      if i < |a| { assert p[i] == a[i]; }
      else if i > |a| { assert p[i] == b[i - |a| - 1]; }
    }
  }

  /** A slash-free path is its own last component. */
  lemma BaseNameNoSlash(p: string)
    requires NoSlash(p)
    ensures BaseName(p) == p
  {
    StripNoSlash(p);
    AfterNoSlash(p);
  }

  /** The dot before an extension without dots is the last dot. */
  lemma {:induction false} LastDotBeforeExtension(stem: string, ext: string)
    requires NoDot(ext)
    ensures LastDot(stem + "." + ext) == Some(|stem|)
  {
    var p := stem + "." + ext;
    if ext != [] {
      var shorter := ext[..|ext| - 1];
      assert p[..|p| - 1] == stem + "." + shorter;
      assert p[|p| - 1] == ext[|ext| - 1];
      LastDotBeforeExtension(stem, shorter);
    }
  }

  /** A name whose only dot is its first character has no extension. */
  lemma LeadingDotOnly(ext: string)
    requires NoSlash(ext) && NoDot(ext)
    ensures Extname("." + ext) == ""
  {
    var p := "." + ext;
    assert NoSlash(p) by {
      forall i | 0 <= i < |p| ensures p[i] != '/' {
        if i > 0 { assert p[i] == ext[i - 1]; }
      }
    }
    StripNoSlash(p);
    AfterNoSlash(p);
    LastDotBeforeExtension("", ext);
    assert "" + "." + ext == p;
  }

  /** A name without a dot has no extension. */
  lemma NoDotNoExtension(name: string)
    requires NoSlash(name) && NoDot(name)
    ensures Extname(name) == ""
  {
    StripNoSlash(name);
    AfterNoSlash(name);
  }

  lemma StripNoSlash(p: string)
    requires NoSlash(p)
    ensures StripTrailingSlashes(p) == p
  {
  }

  lemma {:induction false} AfterNoSlash(p: string)
    requires NoSlash(p)
    ensures AfterLastSlash(p) == p
  {
    if p != [] {
      AfterNoSlash(p[..|p| - 1]);
      assert p[..|p| - 1] + [p[|p| - 1]] == p;
    }
  }

  /** `['.xlsx', '.xls', '.csv'].includes(ext)` */
  predicate ExcelExtension(ext: string) {
    ext == ".xlsx" || ext == ".xls" || ext == ".csv"
  }

  /** The four MIME types the Excel filter lists: xlsx, xls and two spellings of CSV. */
  predicate ExcelMimeType(mimetype: string) {
    || mimetype == "application/vnd.openxmlformats-officedocument.spreadsheetml.sheet"
    || mimetype == "application/vnd.ms-excel"
    || mimetype == "text/csv"
    || mimetype == "application/csv"
  }

  const ExcelRefusal := "Only Excel and CSV files are allowed (.xlsx, .xls, .csv)"
  const PdfRefusal := "Only PDF files are allowed (.pdf)"

  /** `excelFileFilter`: the extension is compared lower-cased, the MIME type exactly. */
  function ExcelFilter(originalName: string, mimetype: string): (d: Decision)
    ensures d == Accept || d == Refuse(ExcelRefusal)
  {
    var ext := Lower(Extname(originalName));
    if ExcelExtension(ext) && ExcelMimeType(mimetype) then Accept else Refuse(ExcelRefusal)
  }

  /** `pdfFileFilter`: extension ".pdf" in any case, MIME type exactly "application/pdf". */
  function PdfFilter(originalName: string, mimetype: string): (d: Decision)
    ensures d == Accept || d == Refuse(PdfRefusal)
  {
    var ext := Lower(Extname(originalName));
    if ext == ".pdf" && mimetype == "application/pdf" then Accept else Refuse(PdfRefusal)
  }

  /** Lower-casing keeps the dot. */
  lemma LowerDotted(ext: string)
    ensures Lower("." + ext) == "." + Lower(ext)
  {
    assert ("." + ext)[1..] == ext;
  }

  /**
   * On a file name "stem.ext": the Excel filter accepts exactly when the
   * extension is xlsx, xls or csv in any letter case and the MIME type is
   * one of the four listed, spelled exactly.
   */
  lemma ExcelFilterOnName(stem: string, ext: string, mimetype: string)
    requires stem != [] && NoSlash(stem) && NoSlash(ext) && NoDot(ext)
    requires !(stem == "." && ext == "")
    ensures ExcelFilter(stem + "." + ext, mimetype) == Accept
        <==> ExcelExtension("." + Lower(ext)) && ExcelMimeType(mimetype)
  {
    ExtnameOfName(stem, ext);
    LowerDotted(ext);
  }

  /**
   * On a file name "stem.ext": the PDF filter accepts exactly when the
   * extension is pdf in any letter case ("report.PDF" too) and the MIME type
   * is exactly "application/pdf".
   */
  lemma PdfFilterOnName(stem: string, ext: string, mimetype: string)
    requires stem != [] && NoSlash(stem) && NoSlash(ext) && NoDot(ext)
    requires !(stem == "." && ext == "")
    ensures PdfFilter(stem + "." + ext, mimetype) == Accept <==> "." + Lower(ext) == ".pdf" && mimetype == "application/pdf"
  {
    ExtnameOfName(stem, ext);
    LowerDotted(ext);
  }

  /** Letter case in the extension is ignored: "report.PDF" and "report.pdf" get the same decision. */
  lemma ExtensionCaseIgnored(stem: string, ext1: string, ext2: string, mimetype: string)
    requires stem != [] && NoSlash(stem) && NoSlash(ext1) && NoDot(ext1) && NoSlash(ext2) && NoDot(ext2)
    requires ext1 != "" && Lower(ext1) == Lower(ext2)
    ensures ExcelFilter(stem + "." + ext1, mimetype) == ExcelFilter(stem + "." + ext2, mimetype)
    ensures PdfFilter(stem + "." + ext1, mimetype) == PdfFilter(stem + "." + ext2, mimetype)
  {
    assert ext2 != "" by { assert |Lower(ext2)| == |ext2|; }
    ExtnameOfName(stem, ext1);
    ExtnameOfName(stem, ext2);
    LowerDotted(ext1);
    LowerDotted(ext2);
    SameLoweredExtensionSameDecision(stem + "." + ext1, stem + "." + ext2, mimetype);
  }

  lemma SameLoweredExtensionSameDecision(name1: string, name2: string, mimetype: string)
    requires Lower(Extname(name1)) == Lower(Extname(name2))
    ensures ExcelFilter(name1, mimetype) == ExcelFilter(name2, mimetype)
    ensures PdfFilter(name1, mimetype) == PdfFilter(name2, mimetype)
  {
  }

  /** The MIME type is not lower-cased: "TEXT/CSV" is refused even for a ".csv" file. */
  lemma MimeTypeCaseSensitive(name: string)
    ensures ExcelFilter(name, "TEXT/CSV") == Refuse(ExcelRefusal)
    ensures PdfFilter(name, "Application/PDF") == Refuse(PdfRefusal)
  {
  }

  /** A name without an extension is refused by both filters, whatever its MIME type. */
  lemma NoExtensionRefused(name: string, mimetype: string)
    requires Extname(name) == ""
    ensures ExcelFilter(name, mimetype) == Refuse(ExcelRefusal)
    ensures PdfFilter(name, mimetype) == Refuse(PdfRefusal)
  {
    var ext := Lower(Extname(name));
    assert |ext| == 0;
    assert !ExcelExtension(ext) && ext != ".pdf";
  }

  /** A dot file such as ".csv" has no extension, so both filters refuse it whatever its MIME type. */
  lemma DotFileRefused(ext: string, mimetype: string)
    requires NoSlash(ext) && NoDot(ext)
    ensures ExcelFilter("." + ext, mimetype) == Refuse(ExcelRefusal)
    ensures PdfFilter("." + ext, mimetype) == Refuse(PdfRefusal)
  {
    LeadingDotOnly(ext);
    NoExtensionRefused("." + ext, mimetype);
  }

  /** A name without any dot is refused by both filters. */
  lemma NoDotRefused(name: string, mimetype: string)
    requires NoSlash(name) && NoDot(name)
    ensures ExcelFilter(name, mimetype) == Refuse(ExcelRefusal)
    ensures PdfFilter(name, mimetype) == Refuse(PdfRefusal)
  {
    NoDotNoExtension(name);
    NoExtensionRefused(name, mimetype);
  }
}
