/**
  The `/generate` request handler of app.py (lines 50-149): read the form, collect the
  units, expand `{Units}`, build the placeholder dictionary, resolve every paragraph and
  answer with the finished document, or with a 404 text when the template is missing.
 */
module Generate {
  import opened Wrappers
  import opened Replace
  import opened Form
  import opened Docx
  import opened Resolve
  import opened Units
  import opened Placeholders

  const TemplateMissing := "Error: template.docx not found!"
  const DownloadName := "Course_Syllabus.docx"
  const DocxMimeType := "application/vnd.openxmlformats-officedocument.wordprocessingml.document"

  /** What the handler answers: an error text with its status, or the document as a download. */
  datatype Response =
    | NotFound(message: string, status: nat)
    | Attachment(doc: Document, filename: string, mimetype: string)

  /** The finished document: units expanded first, placeholders resolved second. */
  function Render(template: Document, form: FormData, clean: string -> string,
                  parseInt: string -> Option<int>): (d: Document)
    requires clean("") == ""
    ensures DocumentClean(d)
  {
    var units := CollectedUnits(form, clean, parseInt);
    var m := BuildPlaceholders(ReadFields(form, clean), SumPeriods(units));
    ResolveDoc(ExpandUnits(template, units), m)
  }

  /**
    `generate_doc`: a missing template (None) gives the 404 text; otherwise the rendered
    document is sent as `Course_Syllabus.docx`, and no paragraph of it holds the sentinel.
   */
  function GenerateDoc(template: Option<Document>, form: FormData, clean: string -> string,
                       parseInt: string -> Option<int>): (r: Response)
    requires clean("") == ""
    ensures template.None? <==> r.NotFound?
    ensures r.NotFound? ==> r == NotFound(TemplateMissing, 404)
    ensures r.Attachment? ==> r.filename == DownloadName && r.mimetype == DocxMimeType
    ensures r.Attachment? ==> DocumentClean(r.doc)
  {
    match template
    case None => NotFound(TemplateMissing, 404)
    case Some(d) => Attachment(Render(d, form, clean, parseInt), DownloadName, DocxMimeType)
  }

  /**
    A paragraph naming the token of an empty source is deleted, however the token is
    split across its runs: an empty field, an empty list, an unticked practical box or a
    non-positive total all take their paragraphs with them.
   */
  lemma AbsentSourceRemovesParagraph(f: Fields, total: int, p: Paragraph, i: nat)
    requires i < |Tokens| && !Present(f, total, i)
    requires |p.runs| > 0 && Contains(Text(p), Tokens[i])
    ensures ResolveParagraph(p, BuildPlaceholders(f, total)) == None
  {
    var m := BuildPlaceholders(f, total);
    assert m[i].0 == Keys(m)[i] == Tokens[i];
    RemovedTokenDeletesParagraph(p, m, i);
  }

  /** Index of `{TotalPeriods}`: the last entry of the dictionary. */
  const TotalAt := 23

  /** The total line holds neither a brace nor an angle bracket. */
  lemma TotalLinePlain(total: int)
    requires total > 0
    ensures '{' !in TotalPeriodsValue(total) && '<' !in TotalPeriodsValue(total)
  {
    var v := TotalPeriodsValue(total);
    var digits := v[|TotalPrefix|..];
    assert v == TotalPrefix + digits;
    forall c | c in digits ensures c != '{' && c != '<' {
      var k :| 0 <= k < |digits| && digits[k] == c;
      assert Numbers.IsDigit(digits[k]);
    }
  }

  /**
    A paragraph whose runs spell `{TotalPeriods}`, even split as `{Total` + `Periods}`,
    becomes the `TOTAL NUMBER OF PERIODS:` line when the total is positive, and is deleted
    otherwise.
   */
  lemma TotalParagraph(f: Fields, total: int, p: Paragraph)
    requires |p.runs| > 0 && Text(p) == "{TotalPeriods}"
    ensures total > 0 ==> ResolveParagraph(p, BuildPlaceholders(f, total)) == Some(Collapse(p, TotalPeriodsValue(total)))
    ensures total <= 0 ==> ResolveParagraph(p, BuildPlaceholders(f, total)) == None
  {
    var m := BuildPlaceholders(f, total);
    TotalEntry(f, total);
    if total > 0 {
      TotalLinePlain(total);
      WholeTokenParagraph(p, m, TotalAt);
    } else {
      assert OccursAt(Text(p), m[TotalAt].0, 0);
      RemovedTokenDeletesParagraph(p, m, TotalAt);
    }
  }

  /** Index of `{CourseName}`. */
  const CourseNameAt := 1

  /**
    A paragraph that is just `{CourseName}` shows the course name, when the name was
    given and names no token and no sentinel.
   */
  lemma CourseNameParagraph(f: Fields, total: int, p: Paragraph)
    requires |p.runs| > 0 && Text(p) == "{CourseName}"
    requires f.courseName != "" && '{' !in f.courseName && '<' !in f.courseName
    ensures ResolveParagraph(p, BuildPlaceholders(f, total)) == Some(Collapse(p, f.courseName))
  {
    var m := BuildPlaceholders(f, total);
    assert m[CourseNameAt].0 == Keys(m)[CourseNameAt] == Tokens[CourseNameAt];
    WholeTokenParagraph(p, m, CourseNameAt);
  }

  lemma FortyPeriodsLine()
    ensures TotalPeriodsValue(40) == "TOTAL NUMBER OF PERIODS:40"
  {
    assert Numbers.NatToString(40) == "40";
  }

  /** The total split over two runs, as Word often stores it, still resolves to the total line. */
  lemma SplitRunTotal(f: Fields)
    ensures var p := Paragraph("Normal", [Run("{Total", Some(true), None), Run("Periods}", None, None)]);
            ResolveParagraph(p, BuildPlaceholders(f, 40)) ==
              Some(Paragraph("Normal", [Run("TOTAL NUMBER OF PERIODS:40", Some(true), None), Run("", None, None)]))
  {
    var p := Paragraph("Normal", [Run("{Total", Some(true), None), Run("Periods}", None, None)]);
    assert Text(p) == "{TotalPeriods}";
    TotalParagraph(f, 40, p);
    FortyPeriodsLine();
    var q := Collapse(p, "TOTAL NUMBER OF PERIODS:40");
    assert q.runs == [q.runs[0], q.runs[1]];
  }

  /** Without a `{Units}` paragraph the template is only resolved. */
  lemma NoUnitsParagraph(template: Document, form: FormData, clean: string -> string,
                         parseInt: string -> Option<int>)
    requires clean("") == ""
    requires forall j :: 0 <= j < |template.body| ==> !IsUnitsParagraph(template.body[j])
    ensures Render(template, form, clean, parseInt) ==
              ResolveDoc(template, BuildPlaceholders(ReadFields(form, clean), SumPeriods(CollectedUnits(form, clean, parseInt))))
  {
  }
}
