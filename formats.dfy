/** The format classifier of the upload handler: the original file name is
    lower-cased and its suffix decides the content class. */
module Formats {

  /** The closed set of content classes an upload can fall into. */
  datatype Kind = Csv | Xlsx | Txt | Pdf | Unsupported

  const CsvSuffix: string := ".csv"
  const XlsxSuffix: string := ".xlsx"
  const TxtSuffix: string := ".txt"
  const PdfSuffix: string := ".pdf"

  /** Lower-casing of one character, on the ASCII letters. */
  function LowerChar(c: char): (r: char)
    ensures 'A' <= c <= 'Z' ==> r as int == c as int + 32
    ensures !('A' <= c <= 'Z') ==> r == c
    ensures !('A' <= r <= 'Z')
  {
    if 'A' <= c <= 'Z' then (c as int + 32) as char else c
  }

  /** String lower-casing: the same number of characters, each one lower-cased. */
  function Lower(s: string): (r: string)
    ensures |r| == |s|
    ensures forall i :: 0 <= i < |s| ==> r[i] == LowerChar(s[i])
    decreases |s|
  {
    if s == [] then [] else [LowerChar(s[0])] + Lower(s[1..])
  }

  predicate EndsWith(s: string, suffix: string) {
    |suffix| <= |s| && s[|s| - |suffix|..] == suffix
  }

  /** Two names that differ at most in the case of their letters. */
  predicate SameIgnoringCase(a: string, b: string) {
    |a| == |b| && forall i :: 0 <= i < |a| ==> LowerChar(a[i]) == LowerChar(b[i])
  }

  /** The suffix tests in the handler's order: csv, xlsx, txt, pdf.
      Because no string ends with two of the four suffixes, each class holds
      exactly when its own suffix matches, whatever the order of the tests. */
  function Classify(originalName: string): (k: Kind)
    ensures k == Csv <==> EndsWith(Lower(originalName), CsvSuffix)
    ensures k == Xlsx <==> EndsWith(Lower(originalName), XlsxSuffix)
    ensures k == Txt <==> EndsWith(Lower(originalName), TxtSuffix)
    ensures k == Pdf <==> EndsWith(Lower(originalName), PdfSuffix)
    ensures k == Unsupported <==>
      && !EndsWith(Lower(originalName), CsvSuffix)
      && !EndsWith(Lower(originalName), XlsxSuffix)
      && !EndsWith(Lower(originalName), TxtSuffix)
      && !EndsWith(Lower(originalName), PdfSuffix)
  {
    var ext := Lower(originalName);
    SuffixesExclusive(ext);
    if EndsWith(ext, CsvSuffix) then Csv
    else if EndsWith(ext, XlsxSuffix) then Xlsx
    else if EndsWith(ext, TxtSuffix) then Txt
    else if EndsWith(ext, PdfSuffix) then Pdf
    else Unsupported
  }

  lemma LastOfSuffix(s: string, suffix: string)
    requires EndsWith(s, suffix) && |suffix| > 0
    ensures s[|s| - 1] == suffix[|suffix| - 1]
  {
    assert s[|s| - |suffix|..][|suffix| - 1] == s[|s| - 1];
  }

  /** No string ends with two of the four recognised suffixes: their last
      characters ('v', 'x', 't', 'f') are pairwise different. */
  lemma SuffixesExclusive(s: string)
    ensures EndsWith(s, CsvSuffix) ==> !EndsWith(s, XlsxSuffix) && !EndsWith(s, TxtSuffix) && !EndsWith(s, PdfSuffix)
    ensures EndsWith(s, XlsxSuffix) ==> !EndsWith(s, TxtSuffix) && !EndsWith(s, PdfSuffix)
    ensures EndsWith(s, TxtSuffix) ==> !EndsWith(s, PdfSuffix)
  {
    if EndsWith(s, CsvSuffix) { LastOfSuffix(s, CsvSuffix); }
    if EndsWith(s, XlsxSuffix) { LastOfSuffix(s, XlsxSuffix); }
    if EndsWith(s, TxtSuffix) { LastOfSuffix(s, TxtSuffix); }
    if EndsWith(s, PdfSuffix) { LastOfSuffix(s, PdfSuffix); }
  }

  /** Lower-casing an already lower-cased string changes nothing. */
  lemma {:induction false} LowerIdempotent(s: string)
    ensures Lower(Lower(s)) == Lower(s)
  {
    var l := Lower(s);
    assert forall i :: 0 <= i < |l| ==> Lower(l)[i] == l[i];
  }

  /** Lower-casing distributes over concatenation. */
  lemma LowerAppend(a: string, b: string)
    ensures Lower(a + b) == Lower(a) + Lower(b)
  {
    assert forall i :: 0 <= i < |a + b| ==> Lower(a + b)[i] == (Lower(a) + Lower(b))[i];
  }

  /** Classification depends only on the lower-cased name: names that differ
      only in letter case fall into the same class. */
  lemma ClassifyIgnoresCase(a: string, b: string)
    requires SameIgnoringCase(a, b)
    ensures Classify(a) == Classify(b)
  {
    assert Lower(a) == Lower(b) by {
      assert forall i :: 0 <= i < |a| ==> Lower(a)[i] == Lower(b)[i];
    }
  }

  /** A name and its lower-cased form fall into the same class. */
  lemma ClassifyLower(name: string)
    ensures Classify(Lower(name)) == Classify(name)
  {
    LowerIdempotent(name);
  }

  lemma EndsWithAppend(base: string, ext: string, suffix: string)
    requires |suffix| <= |ext|
    ensures EndsWith(base + ext, suffix) <==> EndsWith(ext, suffix)
  {
    assert (base + ext)[|base + ext| - |suffix|..] == ext[|ext| - |suffix|..];
  }

  /** When the extension is at least as long as the longest recognised
      suffix, the part of the name before it plays no role. */
  lemma {:induction false} ExtensionDecides(base: string, ext: string)
    requires |ext| >= |XlsxSuffix|
    ensures Classify(base + ext) == Classify(ext)
  {
    LowerAppend(base, ext);
    var l := Lower(ext);
    EndsWithAppend(Lower(base), l, CsvSuffix);
    EndsWithAppend(Lower(base), l, XlsxSuffix);
    EndsWithAppend(Lower(base), l, TxtSuffix);
    EndsWithAppend(Lower(base), l, PdfSuffix);
  }

  /** A word-processor file is refused, whatever its base name. */
  lemma DocxIsUnsupported(base: string)
    ensures Classify(base + ".docx") == Unsupported
  {
    ExtensionDecides(base, ".docx");
    var l := Lower(".docx");
    assert l == ".docx";
    assert l[|l| - 1] == 'x';
    assert l[|l| - 2] == 'c';
  }

  /** The lower-cased name ends with the lower-cased extension. */
  lemma EndsWithLoweredExtension(base: string, ext: string)
    ensures EndsWith(Lower(base + ext), Lower(ext))
  {
    LowerAppend(base, ext);
    EndsWithAppend(Lower(base), Lower(ext), Lower(ext));
  }

  /** A name ending in one of the four suffixes is in that suffix's class. */
  lemma LowerCaseExtensions(base: string)
    ensures Classify(base + CsvSuffix) == Csv
    ensures Classify(base + XlsxSuffix) == Xlsx
    ensures Classify(base + TxtSuffix) == Txt
    ensures Classify(base + PdfSuffix) == Pdf
  {
    LowerOfSuffixes();
    EndsWithLoweredExtension(base, CsvSuffix);
    EndsWithLoweredExtension(base, XlsxSuffix);
    EndsWithLoweredExtension(base, TxtSuffix);
    EndsWithLoweredExtension(base, PdfSuffix);
  }

  lemma LowerOfSuffixes()
    ensures Lower(CsvSuffix) == CsvSuffix && Lower(XlsxSuffix) == XlsxSuffix
    ensures Lower(TxtSuffix) == TxtSuffix && Lower(PdfSuffix) == PdfSuffix
  {
    LowerUpperCaseSuffixes();
    LowerIdempotent(".CSV");
    LowerIdempotent(".XLSX");
    LowerIdempotent(".TXT");
    LowerIdempotent(".PDF");
  }

  lemma LowerUpperCaseSuffixes()
    ensures Lower(".CSV") == CsvSuffix && Lower(".XLSX") == XlsxSuffix
    ensures Lower(".TXT") == TxtSuffix && Lower(".PDF") == PdfSuffix
  {
    var c, x, t, p := Lower(".CSV"), Lower(".XLSX"), Lower(".TXT"), Lower(".PDF");
    assert c[0] == '.' && c[1] == 'c' && c[2] == 's' && c[3] == 'v';
    assert x[0] == '.' && x[1] == 'x' && x[2] == 'l' && x[3] == 's' && x[4] == 'x';
    assert t[0] == '.' && t[1] == 't' && t[2] == 'x' && t[3] == 't';
    assert p[0] == '.' && p[1] == 'p' && p[2] == 'd' && p[3] == 'f';
  }

  /** Upper-case extensions are recognised like lower-case ones. */
  lemma UpperCaseExtensions(base: string)
    ensures Classify(base + ".CSV") == Csv
    ensures Classify(base + ".XLSX") == Xlsx
    ensures Classify(base + ".TXT") == Txt
    ensures Classify(base + ".PDF") == Pdf
  {
    LowerUpperCaseSuffixes();
    EndsWithLoweredExtension(base, ".CSV");
    EndsWithLoweredExtension(base, ".XLSX");
    EndsWithLoweredExtension(base, ".TXT");
    EndsWithLoweredExtension(base, ".PDF");
  }
}
