/**
  Placeholder resolution (app.py `replace_placeholders_in_doc` and
  `replace_placeholders_in_paragraph`): each paragraph's run texts are joined, every
  entry of the ordered placeholder map is applied with replace-all, and the paragraph
  is then either deleted (the sentinel appears) or collapsed into its first run.
 */
module Resolve {
  import opened Wrappers
  import opened Replace
  import opened Docx
  import opened Seqs

  /** The placeholder dictionary, in insertion order: (token, value) pairs. */
  type PlaceholderMap = seq<(string, string)>

  /** The dictionary's keys in order. */
  function Keys(m: PlaceholderMap): (r: seq<string>)
    ensures |r| == |m|
    ensures forall i :: 0 <= i < |m| ==> r[i] == m[i].0
  {
    seq(|m|, i requires 0 <= i < |m| => m[i].0)
  }

  /** Keys are template tokens and no key is repeated, as in a Python dict literal. */
  predicate WellFormedMap(m: PlaceholderMap)
  {
    && (forall i :: 0 <= i < |m| ==> IsToken(m[i].0))
    && (forall i, j :: 0 <= i < j < |m| ==> m[i].0 != m[j].0)
  }

  /** One step of the loop: `if placeholder in text: text = text.replace(placeholder, value)`. */
  function ApplyEntry(text: string, token: string, value: string): string
  {
    if Contains(text, token) then ReplaceAll(text, token, value) else text
  }

  /** The membership guard never changes the outcome: the step is a plain replace-all. */
  lemma ApplyEntryIsReplace(text: string, token: string, value: string)
    ensures ApplyEntry(text, token, value) == ReplaceAll(text, token, value)
  {
    if !Contains(text, token) {
      if |token| == 0 {
        assert OccursAt(text, token, 0);
        assert false;
      }
      ReplaceAbsent(text, token, value);
    }
  }

  /** Every map entry applied to the text, first entry first. */
  function Substitute(text: string, m: PlaceholderMap): string
    decreases |m|
  {
    if |m| == 0 then text else Substitute(ApplyEntry(text, m[0].0, m[0].1), m[1..])
  }

  /** The paragraph q is p collapsed onto the text full: same style and run formatting, full in run 0, every other run empty. */
  predicate CollapsedInto(p: Paragraph, q: Paragraph, full: string)
  {
    && q.style == p.style
    && |q.runs| == |p.runs|
    && (forall i :: 0 <= i < |p.runs| ==> q.runs[i].bold == p.runs[i].bold && q.runs[i].sizePt == p.runs[i].sizePt)
    && (|p.runs| > 0 ==> q.runs[0].text == full)
    && (forall i :: 0 < i < |p.runs| ==> q.runs[i].text == "")
  }

  function Collapse(p: Paragraph, full: string): (q: Paragraph)
    requires |p.runs| > 0
    ensures CollapsedInto(p, q, full)
    ensures Text(q) == full
  {
    var runs := seq(|p.runs|, i requires 0 <= i < |p.runs| => p.runs[i].(text := if i == 0 then full else ""));
    BlankRunsText(runs[1..]);
    Paragraph(p.style, runs)
  }

  /**
    `replace_placeholders_in_paragraph`: None when the paragraph is removed from its
    parent, Some of the rewritten paragraph otherwise.
   */
  function ResolveParagraph(p: Paragraph, m: PlaceholderMap): (r: Option<Paragraph>)
    ensures |p.runs| == 0 ==> r == Some(p)
    ensures |p.runs| > 0 ==> (r.None? <==> Contains(Substitute(Text(p), m), Sentinel))
    ensures |p.runs| > 0 && r.Some? ==> CollapsedInto(p, r.value, Substitute(Text(p), m))
    ensures |p.runs| > 0 && r.Some? ==> Text(r.value) == Substitute(Text(p), m)
    ensures r.Some? ==> !Contains(Text(r.value), Sentinel)
  {
    if |p.runs| == 0 then Some(p)
    else
      var full := Substitute(Text(p), m);
      if Contains(full, Sentinel) then None else Some(Collapse(p, full))
  }

  function ParagraphResolver(m: PlaceholderMap): Paragraph -> Option<Paragraph>
  {
    p => ResolveParagraph(p, m)
  }

  predicate ParagraphClean(p: Paragraph)
  {
    !Contains(Text(p), Sentinel)
  }

  predicate CellClean(c: Cell)
  {
    forall k :: 0 <= k < |c.paragraphs| ==> ParagraphClean(c.paragraphs[k])
  }

  predicate TableClean(t: Table)
  {
    forall i, j :: 0 <= i < |t.rows| && 0 <= j < |t.rows[i].cells| ==> CellClean(t.rows[i].cells[j])
  }

  predicate BlockClean(b: Block)
  {
    match b
    case Para(p) => ParagraphClean(p)
    case Tbl(t) => TableClean(t)
  }

  /** No paragraph of the document, at top level or in any table cell, holds the sentinel. */
  predicate DocumentClean(d: Document)
  {
    forall i :: 0 <= i < |d.body| ==> BlockClean(d.body[i])
  }

  /** A cell keeps, in order, exactly the paragraphs that resolution does not delete. */
  function ResolveCell(c: Cell, m: PlaceholderMap): (r: Cell)
    ensures CellClean(r)
    ensures |r.paragraphs| == |Kept(c.paragraphs, ParagraphResolver(m))|
    ensures forall k :: 0 <= k < |r.paragraphs| ==>
              ResolveParagraph(c.paragraphs[Kept(c.paragraphs, ParagraphResolver(m))[k]], m) == Some(r.paragraphs[k])
  {
    var ps := FilterMap(c.paragraphs, ParagraphResolver(m));
    FilterMapKept(c.paragraphs, ParagraphResolver(m));
    Cell(ps)
  }

  /** r holds, in order, the resolutions of exactly the paragraphs of c that are not deleted. */
  predicate KeptResolved(c: Cell, r: Cell, m: PlaceholderMap)
  {
    var kept := Kept(c.paragraphs, ParagraphResolver(m));
    && |r.paragraphs| == |kept|
    && forall k :: 0 <= k < |kept| ==> ResolveParagraph(c.paragraphs[kept[k]], m) == Some(r.paragraphs[k])
  }

  /** A row keeps every cell in place; each cell keeps its surviving paragraphs, resolved, in order. */
  function ResolveRow(row: Row, m: PlaceholderMap): (r: Row)
    ensures |r.cells| == |row.cells|
    ensures forall j :: 0 <= j < |row.cells| ==> CellClean(r.cells[j]) && KeptResolved(row.cells[j], r.cells[j], m)
  {
    Row(seq(|row.cells|, j requires 0 <= j < |row.cells| => ResolveCell(row.cells[j], m)))
  }

  /** A table keeps its shape: every row and every cell stays, only cell paragraphs go. */
  function ResolveTable(t: Table, m: PlaceholderMap): (r: Table)
    ensures |r.rows| == |t.rows|
    ensures forall i :: 0 <= i < |t.rows| ==> |r.rows[i].cells| == |t.rows[i].cells|
    ensures forall i, j :: 0 <= i < |t.rows| && 0 <= j < |t.rows[i].cells| ==>
              r.rows[i].cells[j] == ResolveCell(t.rows[i].cells[j], m)
    ensures TableClean(r)
  {
    Table(seq(|t.rows|, i requires 0 <= i < |t.rows| => ResolveRow(t.rows[i], m)))
  }

  function ResolveBlock(b: Block, m: PlaceholderMap): (r: Option<Block>)
    ensures r.Some? ==> BlockClean(r.value)
    ensures b.Tbl? ==> r == Some(Tbl(ResolveTable(b.table, m)))
    ensures b.Para? ==> (r.None? <==> ResolveParagraph(b.paragraph, m).None?)
    ensures b.Para? && r.Some? ==> r == Some(Para(ResolveParagraph(b.paragraph, m).value))
  {
    match b
    case Para(p) =>
      (match ResolveParagraph(p, m)
       case Some(q) => Some(Para(q))
       case None => None)
    case Tbl(t) => Some(Tbl(ResolveTable(t, m)))
  }

  function BlockResolver(m: PlaceholderMap): Block -> Option<Block>
  {
    b => ResolveBlock(b, m)
  }

  /**
    `replace_placeholders_in_doc`: every body paragraph and every paragraph of every
    table cell is resolved; the surviving blocks keep their order, and each output
    block is the resolution of the input block at the matching kept position.
   */
  function ResolveDoc(d: Document, m: PlaceholderMap): (r: Document)
    ensures DocumentClean(r)
    ensures |r.body| == |Kept(d.body, BlockResolver(m))|
    ensures forall k :: 0 <= k < |r.body| ==>
              ResolveBlock(d.body[Kept(d.body, BlockResolver(m))[k]], m) == Some(r.body[k])
  {
    var body := FilterMap(d.body, BlockResolver(m));
    FilterMapKept(d.body, BlockResolver(m));
    Document(body)
  }

  /** Tables are never removed: every table of the input has its resolved table in the output. */
  lemma TablesSurvive(d: Document, m: PlaceholderMap, j: nat)
    requires j < |d.body| && d.body[j].Tbl?
    ensures j in Kept(d.body, BlockResolver(m))
  {
  }

  /** Once the sentinel is in the text, no later token replacement can take it out. */
  lemma {:induction false} SentinelPersists(t: string, m: PlaceholderMap)
    requires forall i :: 0 <= i < |m| ==> IsToken(m[i].0)
    requires Contains(t, Sentinel)
    ensures Contains(Substitute(t, m), Sentinel)
    decreases |m|
  {
    if |m| > 0 {
      TokenSentinelNoOverlap(m[0].0);
      ApplyEntryIsReplace(t, m[0].0, m[0].1);
      ReplaceKeeps(t, Sentinel, m[0].0, m[0].1);
      SentinelPersists(ApplyEntry(t, m[0].0, m[0].1), m[1..]);
    }
  }

  /**
    A token in the text whose value is the sentinel leaves the sentinel in the result:
    earlier replacements cannot break the token and later ones cannot break the sentinel.
   */
  lemma {:induction false} SentinelTokenMarks(t: string, m: PlaceholderMap, i: nat)
    requires WellFormedMap(m) && i < |m| && m[i].1 == Sentinel && Contains(t, m[i].0)
    ensures Contains(Substitute(t, m), Sentinel)
    decreases i
  {
    if i == 0 {
      SentinelFromFirst(t, m);
    } else {
      var t', tail := ApplyEntry(t, m[0].0, m[0].1), m[1..];
      assert Substitute(t, m) == Substitute(t', tail);
      TokenSurvivesFirst(t, m, i);
      WellFormedTail(m);
      SentinelTokenMarks(t', tail, i - 1);
    }
  }

  /** The first entry's token maps to the sentinel: its replacement brings the sentinel in to stay. */
  lemma SentinelFromFirst(t: string, m: PlaceholderMap)
    requires WellFormedMap(m) && |m| > 0 && m[0].1 == Sentinel && Contains(t, m[0].0)
    ensures Contains(Substitute(t, m), Sentinel)
  {
    var t', tail := ApplyEntry(t, m[0].0, m[0].1), m[1..];
    assert Substitute(t, m) == Substitute(t', tail);
    ApplyEntryIsReplace(t, m[0].0, m[0].1);
    ReplaceIntroducesValue(t, m[0].0, Sentinel);
    WellFormedTail(m);
    SentinelPersists(t', tail);
  }

  /** Dropping the first entry keeps a map well formed. */
  lemma WellFormedTail(m: PlaceholderMap)
    requires WellFormedMap(m) && |m| > 0
    ensures WellFormedMap(m[1..])
  {
    var tail := m[1..];
    assert forall i :: 0 <= i < |tail| ==> tail[i] == m[i + 1];
  }

  /** A later entry's token in the text is still there after the first entry is applied. */
  lemma TokenSurvivesFirst(t: string, m: PlaceholderMap, i: nat)
    requires WellFormedMap(m) && 0 < i < |m| && Contains(t, m[i].0)
    ensures m[1..][i - 1] == m[i]
    ensures Contains(ApplyEntry(t, m[0].0, m[0].1), m[i].0)
  {
    ApplyEntryIsReplace(t, m[0].0, m[0].1);
    TokensNoOverlap(m[0].0, m[i].0);
    ReplaceKeeps(t, m[i].0, m[0].0, m[0].1);
  }

  /** A paragraph holding a token that maps to the sentinel is deleted. */
  lemma RemovedTokenDeletesParagraph(p: Paragraph, m: PlaceholderMap, i: nat)
    requires WellFormedMap(m) && i < |m| && m[i].1 == Sentinel
    requires |p.runs| > 0 && Contains(Text(p), m[i].0)
    ensures ResolveParagraph(p, m) == None
  {
    SentinelTokenMarks(Text(p), m, i);
  }

  /**
    A text that is exactly the i-th token passes the earlier entries untouched and
    becomes the i-th value, which the later entries then rewrite.
   */
  lemma {:induction false} SubstituteWholeToken(m: PlaceholderMap, i: nat)
    requires WellFormedMap(m) && i < |m|
    ensures Substitute(m[i].0, m) == Substitute(m[i].1, m[i + 1..])
    decreases i
  {
    var tok := m[i].0;
    if i == 0 {
      ReplaceWhole(tok, m[0].1);
      assert OccursAt(tok, tok, 0);
    } else {
      TokensNoOverlap(m[0].0, tok);
      NoOverlapNotInside(m[0].0, tok);
      assert m[1..][i - 1] == m[i];
      assert m[1..][i..] == m[i + 1..];
      SubstituteWholeToken(m[1..], i - 1);
    }
  }

  /** Entries whose tokens do not occur in the text leave it as it is. */
  lemma {:induction false} SubstituteUntouched(t: string, m: PlaceholderMap)
    requires forall i :: 0 <= i < |m| ==> !Contains(t, m[i].0)
    ensures Substitute(t, m) == t
    decreases |m|
  {
    if |m| > 0 {
      assert !Contains(t, m[0].0);
      assert forall i :: 0 <= i < |m[1..]| ==> m[1..][i] == m[i + 1];
      SubstituteUntouched(t, m[1..]);
    }
  }

  /**
    A paragraph whose runs spell exactly the i-th token becomes the i-th value, collapsed
    into its first run, when that value names no token and holds no sentinel (it has
    neither a `{` nor a `<`).
   */
  lemma WholeTokenParagraph(p: Paragraph, m: PlaceholderMap, i: nat)
    requires WellFormedMap(m) && i < |m|
    requires |p.runs| > 0 && Text(p) == m[i].0
    requires '{' !in m[i].1 && '<' !in m[i].1
    ensures ResolveParagraph(p, m) == Some(Collapse(p, m[i].1))
  {
    SubstituteWholeToken(m, i);
    var later := m[i + 1..];
    forall j | 0 <= j < |later| ensures !Contains(m[i].1, later[j].0) {
      assert later[j] == m[i + 1 + j];
      MissingFirstChar(m[i].1, later[j].0);
    }
    SubstituteUntouched(m[i].1, later);
    MissingFirstChar(m[i].1, Sentinel);
  }
}
