/** Upload validators: the PDF extension check and the two inclusive size ceilings.

 The extension is Python's `os.path.splitext(name)[1]` on a POSIX path: the part from the
 last dot of the last path component, provided that component has a non-dot character
 before that dot; otherwise the extension is empty. The check lowers it and compares it
 with ".pdf"; lowering ASCII letters is exact for that comparison.
 */
module Validators {
  import opened Text

  /** The index of the last occurrence of `c`, or -1. */
  function LastIndexOf(s: string, c: char): (r: int)
    ensures -1 <= r < |s|
    ensures r >= 0 ==> s[r] == c
    ensures forall k :: r < k < |s| ==> s[k] != c
  {
    if |s| == 0 then -1
    else if s[|s| - 1] == c then |s| - 1
    else LastIndexOf(s[..|s| - 1], c)
  }

  /** The last occurrence is where the character occurs with none after it. */
  lemma {:induction false} LastIndexOfIs(s: string, c: char, i: int)
    requires -1 <= i < |s| && (i >= 0 ==> s[i] == c)
    requires forall k :: i < k < |s| ==> s[k] != c
    ensures LastIndexOf(s, c) == i
  {
    if |s| > 0 && s[|s| - 1] != c {
      LastIndexOfIs(s[..|s| - 1], c, i);
    }
  }

  /** `os.path.splitext(name)[1]`: leading dots of the last component do not start an
      extension. */
  function Extension(name: string): (r: string)
    ensures r == "" || (r[0] == '.' && |r| <= |name| && r == name[|name| - |r|..])
    ensures r != "" ==> forall k :: 1 <= k < |r| ==> r[k] != '.' && r[k] != '/'
    ensures r != "" <==> exists k, d :: LastIndexOf(name, '/') < k < d < |name| && name[k] != '.' && name[d] == '.'
  {
    var sep := LastIndexOf(name, '/');
    var dot := LastIndexOf(name, '.');
    if dot > sep && exists k :: sep + 1 <= k < dot && name[k] != '.' then name[dot..] else ""
  }

  /** `validate_pdf_file`: accepted iff the lowered extension is ".pdf". */
  predicate IsPdf(name: string) {
    Lower(Extension(name)) == ".pdf"
  }

  /** An accepted name ends in ".pdf" in any mix of letter case, after at least one
      character that is not a dot. */
  lemma PdfAcceptedEndsWithPdf(name: string)
    requires IsPdf(name)
    ensures |name| >= 5 && Lower(name[|name| - 4..]) == ".pdf"
    ensures exists k :: 0 <= k < |name| - 4 && name[k] != '.'
  {
    var ext := Extension(name);
    assert |ext| == 4;
    assert name[|name| - 4..] == ext;
    var sep := LastIndexOf(name, '/');
    var dot := LastIndexOf(name, '.');
    assert dot == |name| - 4;
    var k :| sep + 1 <= k < dot && name[k] != '.';
  }

  /** A plain file name with a ".pdf" extension in either case is accepted. */
  lemma PlainPdfAccepted(base: string, ext: string)
    requires base != "" && forall k :: 0 <= k < |base| ==> base[k] != '.' && base[k] != '/'
    requires ext == ".pdf" || ext == ".PDF"
    ensures IsPdf(base + ext)
  {
    PdfSuffix(ext);
    PlainExtension(base, ext);
  }

  /** Both spellings of the suffix are a single extension that lowers to ".pdf". */
  lemma PdfSuffix(ext: string)
    requires ext == ".pdf" || ext == ".PDF"
    ensures |ext| == 4 && ext[0] == '.' && forall k :: 1 <= k < |ext| ==> ext[k] != '.' && ext[k] != '/'
    ensures Lower(ext) == ".pdf"
  {
    assert Lower(ext)[1] == 'p' && Lower(ext)[2] == 'd' && Lower(ext)[3] == 'f';
  }

  /** The extension of a dot-free, slash-free base followed by a dotted suffix. */
  lemma PlainExtension(base: string, ext: string)
    requires base != "" && forall k :: 0 <= k < |base| ==> base[k] != '.' && base[k] != '/'
    requires |ext| > 0 && ext[0] == '.' && forall k :: 1 <= k < |ext| ==> ext[k] != '.' && ext[k] != '/'
    ensures Extension(base + ext) == ext
  {
    var name := base + ext;
    assert forall k :: |base| <= k < |name| ==> name[k] == ext[k - |base|];
    assert forall k :: 0 <= k < |base| ==> name[k] == base[k];
    LastIndexOfIs(name, '/', -1);
    LastIndexOfIs(name, '.', |base|);
    assert name[0] != '.';
    assert name[|base|..] == ext;
  }

  /** Upper-case extensions are accepted. */
  lemma UpperCasePdfAccepted()
    ensures IsPdf("report.PDF")
  {
    var name := "report.PDF";
    LastIndexOfIs(name, '/', -1);
    LastIndexOfIs(name, '.', 6);
    assert name[0] != '.';
    assert Extension(name) == ".PDF";
  }

  /** Only the last extension counts. */
  lemma DoubleExtensionRejected()
    ensures !IsPdf("a.pdf.exe")
  {
    var name := "a.pdf.exe";
    LastIndexOfIs(name, '/', -1);
    LastIndexOfIs(name, '.', 5);
    assert name[0] != '.';
    assert Extension(name) == ".exe";
    assert Lower(".exe")[1] == 'e';
  }

  /** A name that is only a leading dot and "pdf" has no extension. */
  lemma HiddenNameRejected()
    ensures !IsPdf(".pdf")
  {
    var name := ".pdf";
    LastIndexOfIs(name, '/', -1);
    LastIndexOfIs(name, '.', 0);
    assert Extension(name) == "";
  }

  /** A dot in a directory name is not an extension. */
  lemma DirectoryDotRejected()
    ensures !IsPdf("docs.pdf/readme")
  {
    var name := "docs.pdf/readme";
    LastIndexOfIs(name, '/', 8);
    LastIndexOfIs(name, '.', 4);
    assert Extension(name) == "";
  }

  const MaxFileSize: int := 10 * 1024 * 1024
  const MaxImageSize: int := 5 * 1024 * 1024

  /** `validate_file_size`: at most 10 MiB, the bound included. */
  predicate FileSizeOk(size: int) {
    !(size > MaxFileSize)
  }

  /** `validate_image_size`: at most 5 MiB, the bound included. */
  predicate ImageSizeOk(size: int) {
    !(size > MaxImageSize)
  }

  /** Both ceilings are inclusive: the bound itself passes, one byte more fails. */
  lemma SizeBoundsInclusive()
    ensures FileSizeOk(10485760) && !FileSizeOk(10485761)
    ensures ImageSizeOk(5242880) && !ImageSizeOk(5242881)
  {
  }

  /** Every image that passes its ceiling passes the document ceiling. */
  lemma ImageSizeWithinFileSize(size: int)
    requires ImageSizeOk(size)
    ensures FileSizeOk(size)
  {
  }
}
