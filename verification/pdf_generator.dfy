/**
 `pdf_generator.py`: the text of the case document and the file it is
 written to. Fonts, cell geometry and the file write are not modelled; the
 document is the ordered list of its text lines.
 */
module PdfGenerator {
  import Text
  import opened QueryLog

  /** The lines of the document, top to bottom, and the path it is saved under. */
  datatype CasePdf = CasePdf(lines: seq<string>, path: string)

  const DocumentTitle: string := "Court Case Details"
  const SectionHeading: string := "Case Information:"

  /** Number of lines before the case data: the title, four query fields and the section heading. */
  const HeaderLength: nat := 6

  /**
   The label of a payload key, `key.replace('_', ' ').title()`: underscores
   become spaces, a letter starting a word is upper-cased and every other
   letter lower-cased.
   */
  function Label(key: string): (r: string)
    ensures |r| == |key|
    ensures '_' !in r
    ensures forall i :: 0 <= i < |key| && key[i] == '_' ==> r[i] == ' '
    ensures forall i :: 0 <= i < |key| && key[i] != '_' && !Text.IsLetter(key[i]) ==> r[i] == key[i]
    ensures forall i :: 0 <= i < |key| && Text.IsLetter(key[i]) ==>
      Text.IsLetter(r[i]) && (Text.IsUpper(r[i]) <==> (i == 0 || !Text.IsLetter(key[i - 1])))
    ensures forall i :: 0 <= i < |key| && Text.IsLetter(key[i]) ==> Text.LowerChar(r[i]) == Text.LowerChar(key[i])
  {
    var spaced := Text.ReplaceChar(key, '_', ' ');
    var r := Text.Title(spaced);
    assert forall i :: 0 <= i < |key| ==> (Text.IsLetter(spaced[i]) <==> Text.IsLetter(key[i]));
    assert forall i :: 0 <= i < |r| ==> r[i] != '_';
    r
  }

  /** Labels are already title-cased: title-casing them again changes nothing. */
  lemma LabelStable(key: string)
    ensures Text.Title(Label(key)) == Label(key)
  {
    Text.TitleIdempotent(Text.ReplaceChar(key, '_', ' '));
  }

  /** The line for one payload entry, `f"{label}: {value}"`. */
  function EntryLine(key: string, value: string): (line: string)
    ensures |line| == |key| + 2 + |value|
    ensures line[..|key|] == Label(key)
    ensures line[|key|..|key| + 2] == ": "
    ensures line[|key| + 2..] == value
  {
    Label(key) + ": " + value
  }

  /**
   The case-data lines: one per dict entry, in the dict's iteration order,
   from which each value can be read back after its label; a payload that is
   not a dict gives the single line `str(payload)`.
   */
  function BodyLines(p: Payload): (r: seq<string>)
    ensures p.Dict? ==> |r| == |p.items|
    ensures p.Dict? ==> forall i :: 0 <= i < |r| ==> r[i] == EntryLine(p.items[i].0, p.items[i].1)
    ensures p.Scalar? ==> r == [p.text]
  {
    match p
    case Dict(items) => DictLines(items)
    case Scalar(text) => [text]
  }

  function DictLines(items: seq<(string, string)>): (r: seq<string>)
    ensures |r| == |items|
    ensures forall i :: 0 <= i < |items| ==> r[i] == EntryLine(items[i].0, items[i].1)
  {
    if items == [] then [] else [EntryLine(items[0].0, items[0].1)] + DictLines(items[1..])
  }

  /** The file name, `case_<id>.pdf`, also used as the download name. */
  function PdfFileName(id: nat): string {
    "case_" + Text.NatToString(id) + ".pdf"
  }

  /** `os.path.join('static', file name)` on a POSIX system. */
  function PdfPath(id: nat): string {
    "static/" + PdfFileName(id)
  }

  /** Distinct queries are written to distinct files. */
  lemma PdfPathInjective(a: nat, b: nat)
    requires PdfPath(a) == PdfPath(b)
    ensures a == b
  {
    var pa, pb := PdfPath(a), PdfPath(b);
    assert pa == "static/case_" + Text.NatToString(a) + ".pdf";
    assert pb == "static/case_" + Text.NatToString(b) + ".pdf";
    assert Text.NatToString(a) == pa[12..|pa| - 4];
    assert Text.NatToString(b) == pb[12..|pb| - 4];
    Text.NatToStringInjective(a, b);
  }

  /**
   `generate_case_pdf`: the title, the four query fields, the section
   heading, then the case data, written to `static/case_<id>.pdf`.
   */
  function GenerateCasePdf(q: QueryRecord): (d: CasePdf)
    ensures |d.lines| == HeaderLength + |BodyLines(q.payload)|
    ensures d.lines[0] == DocumentTitle && d.lines[HeaderLength - 1] == SectionHeading
    ensures d.lines[1] == "Case Type: " + q.caseType
    ensures d.lines[2] == "Case Number: " + q.caseNumber
    ensures d.lines[3] == "Year: " + q.year
    ensures d.lines[4] == "Query Date: " + q.createdAt
    ensures d.lines[HeaderLength..] == BodyLines(q.payload)
    ensures d.path == PdfPath(q.id)
  {
    var header := [
      DocumentTitle,
      "Case Type: " + q.caseType,
      "Case Number: " + q.caseNumber,
      "Year: " + q.year,
      "Query Date: " + q.createdAt,
      SectionHeading];
    CasePdf(header + BodyLines(q.payload), PdfPath(q.id))
  }
}
