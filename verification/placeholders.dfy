/**
  The placeholder dictionary that app.py builds from the submitted form (lines 59-108
  and 137): each template token with the text that replaces it, or the sentinel
  `<REMOVE>` when the source field is empty, so that the paragraph holding the token
  is deleted.
 */
module Placeholders {
  import opened Wrappers
  import opened Numbers
  import opened Strings
  import opened Replace
  import opened Form
  import opened Seqs
  import opened Resolve
  import opened Units

  /** The template's tokens in the dictionary's insertion order. */
  const Tokens: seq<string> := [
    "{Semester}", "{CourseName}", "{CourseCode}",
    "{Coursedescriptionname}", "{CourseDescription}",
    "{prerequisitename}", "{Prerequisites}",
    "{objectivename}", "{Objectives}",
    "{assessmentsandgradingname}", "{AssessmentsGrading}",
    "{courseoutcomesname}", "{CourseOutcomes}",
    "{textbooksname}", "{Textbooks}",
    "{referencesname}", "{References}",
    "{courseformatname}", "{CourseFormat}",
    "{Assessments}", "{Grading}",
    "{PracticalPeriodsName}", "{PracticalPeriods}",
    "{TotalPeriods}"
  ]

  /** Every token is a braced letters-only name, and no token is listed twice. */
  lemma TokensAreTokens0()
    ensures IsToken("{Semester}")
    ensures IsToken("{CourseName}")
    ensures IsToken("{CourseCode}")
    ensures IsToken("{Coursedescriptionname}")
  {
  }

  lemma TokensAreTokens1()
    ensures IsToken("{CourseDescription}")
    ensures IsToken("{prerequisitename}")
    ensures IsToken("{Prerequisites}")
    ensures IsToken("{objectivename}")
  {
  }

  lemma TokensAreTokens2()
    ensures IsToken("{Objectives}")
    ensures IsToken("{assessmentsandgradingname}")
    ensures IsToken("{AssessmentsGrading}")
    ensures IsToken("{courseoutcomesname}")
  {
  }

  lemma TokensAreTokens3()
    ensures IsToken("{CourseOutcomes}")
    ensures IsToken("{textbooksname}")
    ensures IsToken("{Textbooks}")
    ensures IsToken("{referencesname}")
  {
  }

  lemma TokensAreTokens4()
    ensures IsToken("{References}")
    ensures IsToken("{courseformatname}")
    ensures IsToken("{CourseFormat}")
    ensures IsToken("{Assessments}")
  {
  }

  lemma TokensAreTokens5()
    ensures IsToken("{Grading}")
    ensures IsToken("{PracticalPeriodsName}")
    ensures IsToken("{PracticalPeriods}")
    ensures IsToken("{TotalPeriods}")
  {
  }

  /** Every entry of the token list is a braced, letters-only name. */
  lemma TokensAreTokens()
    ensures forall i :: 0 <= i < |Tokens| ==> IsToken(Tokens[i])
  {
    TokensAreTokens0();
    TokensAreTokens1();
    TokensAreTokens2();
    TokensAreTokens3();
    TokensAreTokens4();
    TokensAreTokens5();
  }

  lemma TokensDistinct()
    ensures forall i, j :: 0 <= i < j < |Tokens| ==> Tokens[i] != Tokens[j]
  {
  }

  /** `value if value else "<REMOVE>"`: a non-empty text stands for itself, an empty one marks removal. */
  function OrRemove(s: string): (v: string)
    ensures s == "" ==> v == Sentinel
    ensures s != "" ==> v == s
    ensures v == Sentinel <==> s == "" || s == Sentinel
    ensures v != ""
  {
    if s != "" then s else Sentinel
  }

  /** A section heading, shown only when its section has content. */
  function Heading(title: string, present: bool): (v: string)
    ensures !present ==> v == Sentinel
    ensures present ==> v == title
    ensures v == Sentinel <==> !present || title == Sentinel
  {
    if present then title else Sentinel
  }

  /** The two list numbering schemes: `1. item` and `CO1: item`. */
  datatype ListStyle = Numbered | Outcome

  /** The label before item n (counting from 1). */
  function ItemLabel(style: ListStyle, n: nat): (prefix: string)
    ensures |prefix| > 0 && '\n' !in prefix
  {
    match style
    case Numbered => NatToString(n) + ". "
    case Outcome => "CO" + NatToString(n) + ": "
  }

  /** The lines of a rendered list: item k carries label k + 1. */
  function ListLines(items: seq<string>, style: ListStyle): (lines: seq<string>)
    ensures |lines| == |items|
    ensures forall k :: 0 <= k < |items| ==> lines[k] == ItemLabel(style, k + 1) + items[k]
  {
    seq(|items|, k requires 0 <= k < |items| => ItemLabel(style, k + 1) + items[k])
  }

  /**
    `"\n".join(f"{i+1}. {item}" ...) if items else "<REMOVE>"` (and the `CO{i+1}: ` form):
    the sentinel exactly when there is no item, since a rendered list starts with a digit or `C`.
   */
  function RenderList(items: seq<string>, style: ListStyle): (v: string)
    ensures v == Sentinel <==> |items| == 0
  {
    if |items| == 0 then Sentinel
    else
      var lines := ListLines(items, style);
      JoinStartsWithFirst(lines, '\n');
      assert lines[0][0] == ItemLabel(style, 1)[0];
      assert Sentinel[0] == '<';
      Join(lines, '\n')
  }

  /** Splitting a rendered list at line breaks gives back its labelled items, when no item holds a line break. */
  lemma RenderListLines(items: seq<string>, style: ListStyle)
    requires |items| > 0
    requires forall k :: 0 <= k < |items| ==> '\n' !in items[k]
    ensures |Split(RenderList(items, style), '\n')| == |items|
    ensures forall k :: 0 <= k < |items| ==>
              Split(RenderList(items, style), '\n')[k] == ItemLabel(style, k + 1) + items[k]
  {
    var lines := ListLines(items, style);
    forall k | 0 <= k < |lines| ensures '\n' !in lines[k] {
      assert lines[k] == ItemLabel(style, k + 1) + items[k];
    }
    SplitJoin(lines, '\n');
  }

  /** A one-item list is its first label and the item, whatever the item holds. */
  lemma RenderListOne(x: string, style: ListStyle)
    ensures RenderList([x], style) == ItemLabel(style, 1) + x
  {
    assert ListLines([x], style) == [ItemLabel(style, 1) + x];
  }

  /** A non-empty list renders as its labelled lines joined by line breaks. */
  lemma RenderListIsJoin(items: seq<string>, style: ListStyle)
    requires |items| > 0
    ensures RenderList(items, style) == Join(ListLines(items, style), '\n')
  {
  }

  lemma ListLinesAppend(items: seq<string>, x: string, style: ListStyle)
    ensures ListLines(items + [x], style) == ListLines(items, style) + [ItemLabel(style, |items| + 1) + x]
  {
    var longer, shorter := ListLines(items + [x], style), ListLines(items, style);
    var expected := shorter + [ItemLabel(style, |items| + 1) + x];
    forall k | 0 <= k < |longer| ensures longer[k] == expected[k] {
      if k < |items| {
        assert (items + [x])[k] == items[k];
      }
    }
  }

  /**
    Appending an item appends a line break, the next label and the item, whatever the
    items hold; with RenderListOne this fixes the rendered text of every non-empty list.
   */
  lemma RenderListAppend(items: seq<string>, x: string, style: ListStyle)
    requires |items| > 0
    ensures RenderList(items + [x], style) == RenderList(items, style) + "\n" + ItemLabel(style, |items| + 1) + x
  {
    var lines, prefix := ListLines(items, style), ItemLabel(style, |items| + 1);
    RenderListIsJoin(items, style);
    RenderListIsJoin(items + [x], style);
    ListLinesAppend(items, x, style);
    JoinAppend(lines, prefix + x, '\n');
    var joined := Join(lines, '\n');
    assert joined + ['\n'] + (prefix + x) == joined + "\n" + prefix + x;
  }

  /** The keep-or-drop step of the list comprehensions: blank entries go, the rest are stripped and cleaned. */
  function ItemFilter(clean: string -> string): string -> Option<string>
  {
    p => if Strip(p) == "" then None else Some(clean(Strip(p)))
  }

  /** The filter keeps at least one entry exactly when some entry is not blank. */
  lemma KeptNonBlank(raw: seq<string>, clean: string -> string)
    ensures |Kept(raw, ItemFilter(clean))| > 0 <==> exists j :: 0 <= j < |raw| && !AllSpace(raw[j])
  {
    var kept := Kept(raw, ItemFilter(clean));
    if |kept| > 0 {
      var j := kept[0];
      assert ItemFilter(clean)(raw[j]).Some?;
      StripEmptyIff(raw[j]);
    }
    if j :| 0 <= j < |raw| && !AllSpace(raw[j]) {
      StripEmptyIff(raw[j]);
      assert ItemFilter(clean)(raw[j]).Some?;
      assert j in kept;
    }
  }

  /**
    `[clean_pdf_text(p.strip()) for p in getlist(key) if p.strip()]`: the non-blank entries,
    in order, each stripped and cleaned; empty exactly when every entry is blank.
   */
  function ListItems(raw: seq<string>, clean: string -> string): (items: seq<string>)
    ensures |items| == |Kept(raw, ItemFilter(clean))|
    ensures forall k :: 0 <= k < |items| ==>
              var j := Kept(raw, ItemFilter(clean))[k];
              !AllSpace(raw[j]) && items[k] == clean(Strip(raw[j]))
    ensures forall j :: 0 <= j < |raw| && !AllSpace(raw[j]) ==> j in Kept(raw, ItemFilter(clean))
    ensures items == [] <==> forall j :: 0 <= j < |raw| ==> AllSpace(raw[j])
  {
    forall j | 0 <= j < |raw| ensures Strip(raw[j]) == "" <==> AllSpace(raw[j]) {
      StripEmptyIff(raw[j]);
    }
    FilterMapKept(raw, ItemFilter(clean));
    KeptNonBlank(raw, clean);
    FilterMap(raw, ItemFilter(clean))
  }

  /** What the dictionary is built from: the form fields, read as app.py reads them. */
  datatype Fields = Fields(
    semester: string, courseName: string, courseCode: string, courseDescription: string,
    prerequisites: seq<string>, objectives: seq<string>, outcomes: seq<string>,
    textbooks: seq<string>, references: seq<string>,
    assessmentsGrading: string, courseFormat: string, assessments: string, grading: string,
    hasPractical: Option<string>, practicalPeriods: Option<string>)

  /** Lines 59-72 and 100-101: four raw texts, five cleaned lists, four cleaned texts, the practical pair. */
  function ReadFields(form: FormData, clean: string -> string): Fields
  {
    Fields(
      GetOr(form, "Semester", ""), GetOr(form, "CourseName", ""),
      GetOr(form, "CourseCode", ""), GetOr(form, "CourseDescription", ""),
      ListItems(GetList(form, "Prerequisites"), clean), ListItems(GetList(form, "objective"), clean),
      ListItems(GetList(form, "course_outcome"), clean), ListItems(GetList(form, "textbook"), clean),
      ListItems(GetList(form, "reference"), clean),
      clean(GetOr(form, "AssessmentsGrading", "")), clean(GetOr(form, "course_format", "")),
      clean(GetOr(form, "assessments", "")), clean(GetOr(form, "grading", "")),
      Get(form, "hasPractical"), Get(form, "practical_periods"))
  }

  /** The form keys the dictionary is built from. */
  const ReadKeys: set<string> := {
    "Semester", "CourseName", "CourseCode", "CourseDescription",
    "Prerequisites", "objective", "course_outcome", "textbook", "reference",
    "AssessmentsGrading", "course_format", "assessments", "grading",
    "hasPractical", "practical_periods"}

  /** Two forms that agree on a key answer `get` and `getlist` alike for it. */
  lemma SameKeySameReads(form1: FormData, form2: FormData, k: string)
    requires (k in form1 <==> k in form2) && (k in form1 ==> form1[k] == form2[k])
    ensures Get(form1, k) == Get(form2, k) && GetList(form1, k) == GetList(form2, k)
  {
  }

  /** The fields depend on the form only through the keys in ReadKeys; every other field is ignored. */
  lemma ReadFieldsOnlyReadKeys(form1: FormData, form2: FormData, clean: string -> string)
    requires forall k | k in ReadKeys :: (k in form1 <==> k in form2) && (k in form1 ==> form1[k] == form2[k])
    ensures ReadFields(form1, clean) == ReadFields(form2, clean)
  {
    forall k | k in ReadKeys
      ensures Get(form1, k) == Get(form2, k) && GetList(form1, k) == GetList(form2, k)
    {
      SameKeySameReads(form1, form2, k);
    }
  }

  /**
    Semester, course name, course code, course description and the practical pair are taken
    as submitted: they are the same whatever the cleaner does.
   */
  lemma RawFieldsUncleaned(form: FormData, clean1: string -> string, clean2: string -> string)
    ensures var f1, f2 := ReadFields(form, clean1), ReadFields(form, clean2);
      && f1.semester == f2.semester && f1.courseName == f2.courseName
      && f1.courseCode == f2.courseCode && f1.courseDescription == f2.courseDescription
      && f1.hasPractical == f2.hasPractical && f1.practicalPeriods == f2.practicalPeriods
  {
  }

  /** The practical section is shown when the box is ticked and a number of periods was given. */
  predicate PracticalShown(f: Fields)
  {
    Truthy(f.hasPractical) && Truthy(f.practicalPeriods)
  }

  /**
    Lines 100-108: the heading and value for `{PracticalPeriodsName}` and `{PracticalPeriods}`;
    both are the sentinel unless the practical section is shown, and then the value is the
    submitted text.
   */
  function PracticalValues(hasPractical: Option<string>, practicalPeriods: Option<string>): (r: (string, string))
    ensures r.0 == Sentinel <==> !(Truthy(hasPractical) && Truthy(practicalPeriods))
    ensures Truthy(hasPractical) && Truthy(practicalPeriods) ==> r.0 == "PRACTICAL PERIODS "
    ensures Truthy(hasPractical) && Truthy(practicalPeriods) ==> r.1 == practicalPeriods.value
    ensures !(Truthy(hasPractical) && Truthy(practicalPeriods)) ==> r.1 == Sentinel
  {
    var periods := if Truthy(hasPractical) then practicalPeriods else Some(Sentinel);
    if Truthy(hasPractical) && Truthy(periods) then
      ("PRACTICAL PERIODS ", if Truthy(periods) then periods.value else Sentinel)
    else (Sentinel, Sentinel)
  }

  /**
    Whether the source of the i-th token has content: the field behind a plain token, the
    section behind a heading and its body, the practical pair, or a positive total.
   */
  predicate Present(f: Fields, total: int, i: nat)
  {
    if i == 0 then f.semester != ""
    else if i == 1 then f.courseName != ""
    else if i == 2 then f.courseCode != ""
    else if i == 3 || i == 4 then f.courseDescription != ""
    else if i == 5 || i == 6 then f.prerequisites != []
    else if i == 7 || i == 8 then f.objectives != []
    else if i == 9 || i == 10 then f.assessmentsGrading != ""
    else if i == 11 || i == 12 then f.outcomes != []
    else if i == 13 || i == 14 then f.textbooks != []
    else if i == 15 || i == 16 then f.references != []
    else if i == 17 || i == 18 then f.courseFormat != ""
    else if i == 19 then f.assessments != ""
    else if i == 20 then f.grading != ""
    else if i == 21 || i == 22 then PracticalShown(f)
    else total > 0
  }

  /** The value the dictionary gives the i-th token; the sentinel whenever its source is empty. */
  function Value(f: Fields, total: int, i: nat): (v: string)
    requires i < |Tokens|
    ensures !Present(f, total, i) ==> v == Sentinel
  {
    if i == 0 then OrRemove(f.semester)
    else if i == 1 then OrRemove(f.courseName)
    else if i == 2 then OrRemove(f.courseCode)
    else if i == 3 then Heading("COURSE DESCRIPTION", f.courseDescription != "")
    else if i == 4 then OrRemove(f.courseDescription)
    else if i == 5 then Heading("PREREQUISITES", f.prerequisites != [])
    else if i == 6 then RenderList(f.prerequisites, Numbered)
    else if i == 7 then Heading("COURSE OBJECTIVES", f.objectives != [])
    else if i == 8 then RenderList(f.objectives, Numbered)
    else if i == 9 then Heading("ASSESSMENTS AND GRADING", f.assessmentsGrading != "")
    else if i == 10 then OrRemove(f.assessmentsGrading)
    else if i == 11 then Heading("COURSE OUTCOMES", f.outcomes != [])
    else if i == 12 then RenderList(f.outcomes, Outcome)
    else if i == 13 then Heading("TEXTBOOKS   ", f.textbooks != [])
    else if i == 14 then RenderList(f.textbooks, Numbered)
    else if i == 15 then Heading("REFERENCES", f.references != [])
    else if i == 16 then RenderList(f.references, Numbered)
    else if i == 17 then Heading("COURSE FORMAT\n", f.courseFormat != "")
    else if i == 18 then OrRemove(f.courseFormat)
    else if i == 19 then OrRemove(f.assessments)
    else if i == 20 then OrRemove(f.grading)
    else if i == 21 then PracticalValues(f.hasPractical, f.practicalPeriods).0
    else if i == 22 then PracticalValues(f.hasPractical, f.practicalPeriods).1
    else TotalPeriodsValue(total)
  }

  /**
    The placeholder dictionary of lines 75-108 and 137: the tokens in their fixed order,
    well formed, and every token whose source is empty mapped to the sentinel.
   */
  function BuildPlaceholders(f: Fields, total: int): (m: PlaceholderMap)
    ensures Keys(m) == Tokens
    ensures WellFormedMap(m)
    ensures forall i :: 0 <= i < |m| && !Present(f, total, i) ==> m[i].1 == Sentinel
  {
    TokensAreTokens();
    TokensDistinct();
    seq(|Tokens|, i requires 0 <= i < |Tokens| => (Tokens[i], Value(f, total, i)))
  }

  /** Entry i of the dictionary pairs the i-th token with its value. */
  lemma EntryAt(f: Fields, total: int, i: nat)
    requires i < |Tokens|
    ensures BuildPlaceholders(f, total)[i] == (Tokens[i], Value(f, total, i))
  {
  }

  /** The last entry is `{TotalPeriods}` with the total line. */
  lemma TotalEntry(f: Fields, total: int)
    ensures |BuildPlaceholders(f, total)| == 24
    ensures BuildPlaceholders(f, total)[23] == ("{TotalPeriods}", TotalPeriodsValue(total))
  {
    EntryAt(f, total, 23);
  }

  /** None of the free texts that stand for themselves is the sentinel text. */
  predicate NoLiteralSentinel(f: Fields)
  {
    && f.semester != Sentinel && f.courseName != Sentinel && f.courseCode != Sentinel
    && f.courseDescription != Sentinel && f.assessmentsGrading != Sentinel
    && f.courseFormat != Sentinel && f.assessments != Sentinel && f.grading != Sentinel
    && (f.practicalPeriods.Some? ==> f.practicalPeriods.value != Sentinel)
  }

  /**
    Conversely, a token is mapped to the sentinel only when its source is empty, unless a
    submitted text is itself the sentinel: headings, rendered lists and the total line never are.
   */
  lemma SentinelOnlyWhenAbsent(f: Fields, total: int, i: nat)
    requires NoLiteralSentinel(f) && i < |Tokens|
    ensures BuildPlaceholders(f, total)[i].1 == Sentinel <==> !Present(f, total, i)
  {
  }
}
