/**
  The unit records of a syllabus: how app.py collects them from the indexed form fields
  `unit_title_i`, `unit_content_i`, `unit_periods_i` (lines 111-130), the total-periods
  value (line 137), and how `replace_units_with_formatting` expands the first `{Units}`
  paragraph into one title and one content paragraph per unit (lines 183-211).
 */
module Units {
  import opened Wrappers
  import opened Numbers
  import opened Strings
  import opened Form
  import opened Replace
  import opened Docx

  /** One unit: title, body text and its number of periods. */
  datatype Unit = Unit(title: string, content: string, periods: int)

  function TitleKey(i: nat): string
  {
    "unit_title_" + NatToString(i)
  }

  function ContentKey(i: nat): string
  {
    "unit_content_" + NatToString(i)
  }

  function PeriodsKey(i: nat): string
  {
    "unit_periods_" + NatToString(i)
  }

  /** Different indices name different title fields. */
  lemma TitleKeyInjective(i: nat, j: nat)
    requires TitleKey(i) == TitleKey(j)
    ensures i == j
  {
    assert TitleKey(i)[11..] == NatToString(i);
    assert TitleKey(j)[11..] == NatToString(j);
    NatToStringInjective(i, j);
  }

  /**
    `int(raw) if raw else 0` under `except ValueError: 0`: a missing or empty count is 0,
    and so is one that `int` rejects; `parseInt` stands for Python's `int` on strings.
   */
  function PeriodsOf(raw: Option<string>, parseInt: string -> Option<int>): (n: int)
    ensures raw.None? || raw == Some("") ==> n == 0
    ensures raw.Some? && raw.value != "" ==>
              (if parseInt(raw.value).Some? then n == parseInt(raw.value).value else n == 0)
  {
    if !Truthy(raw) then 0
    else parseInt(raw.value).GetOr(0)
  }

  /** The cleaned title the loop reads at index i. */
  function TitleAt(form: FormData, clean: string -> string, i: nat): string
  {
    clean(GetOr(form, TitleKey(i), ""))
  }

  /** The cleaned content the loop reads at index i. */
  function ContentAt(form: FormData, clean: string -> string, i: nat): string
  {
    clean(GetOr(form, ContentKey(i), ""))
  }

  /** Index i holds a unit: both its cleaned title and its cleaned content are non-empty. */
  predicate UnitPresent(form: FormData, clean: string -> string, i: nat)
  {
    TitleAt(form, clean, i) != "" && ContentAt(form, clean, i) != ""
  }

  /** The unit record the loop builds at index i. */
  function UnitAt(form: FormData, clean: string -> string, parseInt: string -> Option<int>, i: nat): Unit
  {
    Unit(TitleAt(form, clean, i), ContentAt(form, clean, i), PeriodsOf(Get(form, PeriodsKey(i)), parseInt))
  }

  /** The title fields of the indices already read. */
  ghost function TitleKeysBelow(i: nat): set<string>
  {
    set j: nat | j < i :: TitleKey(j)
  }

  /** Reading a present unit uses up one more title field of the form, so the scan ends. */
  lemma NextKeysSmaller(form: FormData, clean: string -> string, i: nat)
    requires clean("") == "" && UnitPresent(form, clean, i)
    ensures form.Keys - TitleKeysBelow(i + 1) < form.Keys - TitleKeysBelow(i)
  {
    assert TitleKey(i) in form;
    assert TitleKey(i) in TitleKeysBelow(i + 1);
    forall x | x in TitleKeysBelow(i) ensures x in TitleKeysBelow(i + 1) {
      var j: nat :| j < i && x == TitleKey(j);
      assert j < i + 1;
    }
    if TitleKey(i) in TitleKeysBelow(i) {
      var j: nat :| j < i && TitleKey(j) == TitleKey(i);
      TitleKeyInjective(j, i);
      assert false;
    }
    assert TitleKey(i) in form.Keys - TitleKeysBelow(i);
    assert TitleKey(i) !in form.Keys - TitleKeysBelow(i + 1);
  }

  /** us lists the units at indices i, i+1, ... in order, each present. */
  predicate UnitsFrom(form: FormData, clean: string -> string, parseInt: string -> Option<int>, i: nat, us: seq<Unit>)
    decreases |us|
  {
    |us| == 0 ||
    (UnitPresent(form, clean, i) && us[0] == UnitAt(form, clean, parseInt, i)
     && UnitsFrom(form, clean, parseInt, i + 1, us[1..]))
  }

  /** us is the complete scan from index i: present units with no gap, up to the first absent index. */
  predicate ScanFrom(form: FormData, clean: string -> string, parseInt: string -> Option<int>, i: nat, us: seq<Unit>)
  {
    UnitsFrom(form, clean, parseInt, i, us) && !UnitPresent(form, clean, i + |us|)
  }

  /** Index j of a run from i is present and holds the unit read at j. */
  predicate HoldsAt(form: FormData, clean: string -> string, parseInt: string -> Option<int>,
                    i: nat, us: seq<Unit>, j: nat)
    requires i <= j < i + |us|
  {
    UnitPresent(form, clean, j) && us[j - i] == UnitAt(form, clean, parseInt, j)
  }

  lemma {:induction false} UnitsFromToIndexed(form: FormData, clean: string -> string, parseInt: string -> Option<int>,
                                              i: nat, us: seq<Unit>, j: nat)
    requires UnitsFrom(form, clean, parseInt, i, us) && i <= j < i + |us|
    ensures HoldsAt(form, clean, parseInt, i, us, j)
    decreases |us|
  {
    if j > i {
      UnitsFromToIndexed(form, clean, parseInt, i + 1, us[1..], j);
      assert us[1..][j - (i + 1)] == us[j - i];
    }
  }

  lemma {:induction false} IndexedToUnitsFrom(form: FormData, clean: string -> string, parseInt: string -> Option<int>,
                                              i: nat, us: seq<Unit>)
    requires forall j :: i <= j < i + |us| ==> HoldsAt(form, clean, parseInt, i, us, j)
    ensures UnitsFrom(form, clean, parseInt, i, us)
    decreases |us|
  {
    if |us| > 0 {
      assert HoldsAt(form, clean, parseInt, i, us, i);
      var next, tail := i + 1, us[1..];
      forall j | next <= j < next + |tail| ensures HoldsAt(form, clean, parseInt, next, tail, j) {
        assert HoldsAt(form, clean, parseInt, i, us, j);
        assert tail[j - next] == us[j - i];
      }
      IndexedToUnitsFrom(form, clean, parseInt, next, tail);
    }
  }

  /** A run of units from index i holds, at each index j it covers, the unit of index j. */
  lemma UnitsFromIndexed(form: FormData, clean: string -> string, parseInt: string -> Option<int>,
                         i: nat, us: seq<Unit>)
    ensures UnitsFrom(form, clean, parseInt, i, us) <==>
              forall j :: i <= j < i + |us| ==> HoldsAt(form, clean, parseInt, i, us, j)
  {
    if UnitsFrom(form, clean, parseInt, i, us) {
      forall j | i <= j < i + |us| ensures HoldsAt(form, clean, parseInt, i, us, j) {
        UnitsFromToIndexed(form, clean, parseInt, i, us, j);
      }
    }
    if forall j :: i <= j < i + |us| ==> HoldsAt(form, clean, parseInt, i, us, j) {
      IndexedToUnitsFrom(form, clean, parseInt, i, us);
    }
  }

  /**
    The units found from index i on: units i, i+1, ... in order with no gap, ending just
    before the first index whose title or content is empty.
   */
  function CollectFrom(form: FormData, clean: string -> string, parseInt: string -> Option<int>, i: nat)
    : (units: seq<Unit>)
    requires clean("") == ""
    ensures ScanFrom(form, clean, parseInt, i, units)
    decreases form.Keys - TitleKeysBelow(i)
  {
    if !UnitPresent(form, clean, i) then []
    else
      NextKeysSmaller(form, clean, i);
      var rest := CollectFrom(form, clean, parseInt, i + 1);
      var units := [UnitAt(form, clean, parseInt, i)] + rest;
      assert units[1..] == rest;
      units
  }

  /** The units of a form: the scan from index 1. */
  function CollectedUnits(form: FormData, clean: string -> string, parseInt: string -> Option<int>): seq<Unit>
    requires clean("") == ""
  {
    CollectFrom(form, clean, parseInt, 1)
  }

  /** The gap-free, stop-at-first-missing description determines the units completely. */
  lemma {:induction false} CollectFromUnique(form: FormData, clean: string -> string,
                                             parseInt: string -> Option<int>, i: nat, us: seq<Unit>)
    requires clean("") == ""
    requires ScanFrom(form, clean, parseInt, i, us)
    ensures us == CollectFrom(form, clean, parseInt, i)
    decreases form.Keys - TitleKeysBelow(i)
  {
    if |us| > 0 {
      NextKeysSmaller(form, clean, i);
      assert i + 1 + |us[1..]| == i + |us|;
      CollectFromUnique(form, clean, parseInt, i + 1, us[1..]);
      assert us == [us[0]] + us[1..];
    }
  }

  /** The sum of the units' periods. */
  function SumPeriods(units: seq<Unit>): int
    decreases |units|
  {
    if |units| == 0 then 0 else SumPeriods(units[..|units| - 1]) + units[|units| - 1].periods
  }

  /** At a present index the scan yields that unit and then the scan from the next index. */
  lemma CollectStep(form: FormData, clean: string -> string, parseInt: string -> Option<int>, i: nat)
    requires clean("") == "" && UnitPresent(form, clean, i)
    ensures CollectFrom(form, clean, parseInt, i) == [UnitAt(form, clean, parseInt, i)] + CollectFrom(form, clean, parseInt, i + 1)
  {
  }

  lemma AppendThenRest(units: seq<Unit>, u: Unit, rest: seq<Unit>)
    ensures units + ([u] + rest) == (units + [u]) + rest
    ensures SumPeriods(units + [u]) == SumPeriods(units) + u.periods
  {
    assert (units + [u])[..|units|] == units;
  }

  /** The collection loop of app.py, with its running total. */
  method CollectUnits(form: FormData, clean: string -> string, parseInt: string -> Option<int>)
    returns (units: seq<Unit>, total: int)
    requires clean("") == ""
    ensures units == CollectedUnits(form, clean, parseInt)
    ensures total == SumPeriods(units)
  {
    units := [];
    total := 0;
    var i: nat := 1;
    while true
      invariant units + CollectFrom(form, clean, parseInt, i) == CollectFrom(form, clean, parseInt, 1)
      invariant total == SumPeriods(units)
      decreases form.Keys - TitleKeysBelow(i)
    {
      var title := clean(GetOr(form, TitleKey(i), ""));
      var content := clean(GetOr(form, ContentKey(i), ""));
      var raw := Get(form, PeriodsKey(i));
      if title == "" || content == "" {
        break;
      }
      var periods := PeriodsOf(raw, parseInt);
      var unit := Unit(title, content, periods);
      assert UnitPresent(form, clean, i) && unit == UnitAt(form, clean, parseInt, i);
      NextKeysSmaller(form, clean, i);
      CollectStep(form, clean, parseInt, i);
      AppendThenRest(units, unit, CollectFrom(form, clean, parseInt, i + 1));
      total := total + periods;
      units := units + [unit];
      i := i + 1;
    }
  }

  const TotalPrefix := "TOTAL NUMBER OF PERIODS:"

  /**
    The value of `{TotalPeriods}`: the sentinel unless the total is positive, and then the
    fixed prefix followed by the total in decimal, which reads back as the total.
   */
  function TotalPeriodsValue(total: int): (v: string)
    ensures total <= 0 ==> v == Sentinel
    ensures total > 0 ==>
              && |v| > |TotalPrefix|
              && v[..|TotalPrefix|] == TotalPrefix
              && AllDigits(v[|TotalPrefix|..])
              && ParseDigits(v[|TotalPrefix|..]) == total
    ensures total > 0 ==> v[|TotalPrefix|] != '0'
  {
    if total > 0 then
      ParseNatToString(total);
      var v := TotalPrefix + IntToString(total);
      assert v[|TotalPrefix|..] == NatToString(total);
      v
    else Sentinel
  }

  const UnitsToken := "{Units}"

  /** A top-level paragraph whose text contains `{Units}`. */
  predicate IsUnitsParagraph(b: Block)
  {
    b.Para? && Contains(Text(b.paragraph), UnitsToken)
  }

  /** The first top-level `{Units}` paragraph at or after position from, if any. */
  function FindUnits(body: seq<Block>, from: nat): (r: Option<nat>)
    requires from <= |body|
    ensures r.Some? ==> from <= r.value < |body| && IsUnitsParagraph(body[r.value])
    ensures r.Some? ==> forall j :: from <= j < r.value ==> !IsUnitsParagraph(body[j])
    ensures r.None? ==> forall j :: from <= j < |body| ==> !IsUnitsParagraph(body[j])
    decreases |body| - from
  {
    if from == |body| then None
    else if IsUnitsParagraph(body[from]) then Some(from)
    else FindUnits(body, from + 1)
  }

  /** What follows the number in a unit heading: `: title (No. of Periods: p)` and a line break. */
  function HeadingTail(u: Unit): string
  {
    ": " + u.title + " (No. of Periods: " + IntToString(u.periods) + ")\n"
  }

  /** The bold 12-point heading of unit n: `UNIT n: title (No. of Periods: p)` and a line break. */
  function UnitTitleLine(n: nat, u: Unit): string
  {
    "UNIT " + NatToString(n) + HeadingTail(u)
  }

  lemma HeadingTailShape(u: Unit)
    ensures |HeadingTail(u)| >= 4
    ensures HeadingTail(u)[..2] == ": "
    ensures HeadingTail(u)[|HeadingTail(u)| - 2..] == ")\n"
  {
    var body := ": " + u.title + " (No. of Periods: " + IntToString(u.periods);
    assert HeadingTail(u) == body + ")\n";
    assert body[..2] == ": ";
  }

  /** The heading names the unit's 1-based number in decimal, which reads back as that number. */
  lemma UnitHeadingNumber(n: nat, u: Unit)
    ensures var line := UnitTitleLine(n, u);
            var digits := NatToString(n);
            && line[..5] == "UNIT "
            && line[5..5 + |digits|] == digits
            && ParseDigits(line[5..5 + |digits|]) == n
            && line[5 + |digits|..5 + |digits| + 2] == ": "
            && line[|line| - 2..] == ")\n"
  {
    var digits := NatToString(n);
    var tail := HeadingTail(u);
    HeadingTailShape(u);
    ThreeParts("UNIT ", digits, tail);
    var line := UnitTitleLine(n, u);
    assert line[5 + |digits|..5 + |digits| + 2] == tail[..2];
    assert line[|line| - 2..] == tail[|tail| - 2..];
    ParseNatToString(n);
  }

  function TitleParagraph(style: string, n: nat, u: Unit): Paragraph
  {
    Paragraph(style, [Run(UnitTitleLine(n, u), Some(true), Some(12))])
  }

  /** The normal-weight 11-point body of a unit, followed by two line breaks. */
  function ContentParagraph(style: string, u: Unit): Paragraph
  {
    Paragraph(style, [Run(u.content + "\n\n", Some(false), Some(11))])
  }

  /** The empty paragraph left where `{Units}` was. */
  function Anchor(style: string): Paragraph
  {
    Paragraph(style, [])
  }

  /** Each unit after the first sits two blocks further on than in the rest. */
  lemma UnitBlocksStep(style: string, units: seq<Unit>, n: nat, rest: seq<Block>, r: seq<Block>)
    requires |units| > 0
    requires |rest| == 2 * (|units| - 1)
    requires forall i :: 0 <= i < |units| - 1 ==>
               rest[2 * i] == Para(TitleParagraph(style, n + 1 + i, units[1..][i]))
               && rest[2 * i + 1] == Para(ContentParagraph(style, units[1..][i]))
    requires r == [Para(TitleParagraph(style, n, units[0])), Para(ContentParagraph(style, units[0]))] + rest
    ensures forall i :: 0 <= i < |units| ==>
              r[2 * i] == Para(TitleParagraph(style, n + i, units[i]))
              && r[2 * i + 1] == Para(ContentParagraph(style, units[i]))
  {
    forall i | 1 <= i < |units|
      ensures r[2 * i] == Para(TitleParagraph(style, n + i, units[i]))
      ensures r[2 * i + 1] == Para(ContentParagraph(style, units[i]))
    {
      var j, u := i - 1, units[i];
      var t, c := 2 * j, 2 * j + 1;
      assert units[1..][j] == u;
      assert r[2 * i] == rest[t] && r[2 * i + 1] == rest[c];
      assert rest[t] == Para(TitleParagraph(style, n + i, u));
      assert rest[c] == Para(ContentParagraph(style, u));
    }
  }

  /** The inserted paragraphs for units numbered from n: a heading then a body, per unit, in order. */
  function UnitBlocks(style: string, units: seq<Unit>, n: nat): (r: seq<Block>)
    ensures |r| == 2 * |units|
    ensures forall i :: 0 <= i < |units| ==>
              r[2 * i] == Para(TitleParagraph(style, n + i, units[i]))
              && r[2 * i + 1] == Para(ContentParagraph(style, units[i]))
    decreases |units|
  {
    if |units| == 0 then []
    else
      var rest := UnitBlocks(style, units[1..], n + 1);
      var r := [Para(TitleParagraph(style, n, units[0])), Para(ContentParagraph(style, units[0]))] + rest;
      UnitBlocksStep(style, units, n, rest, r);
      r
  }

  /**
    r is body with position k replaced by the unit paragraphs, headings numbered from 1,
    followed by the empty anchor, all in the given style.
   */
  predicate Spliced(body: seq<Block>, k: nat, style: string, units: seq<Unit>, r: seq<Block>)
    requires k < |body|
  {
    var n := |units|;
    && |r| == |body| + 2 * n
    && r[..k] == body[..k]
    && (forall i :: 0 <= i < n ==>
          r[k + 2 * i] == Para(TitleParagraph(style, i + 1, units[i]))
          && r[k + 2 * i + 1] == Para(ContentParagraph(style, units[i])))
    && r[k + 2 * n] == Para(Anchor(style))
    && r[k + 2 * n + 1..] == body[k + 1..]
  }

  lemma SpliceShape(body: seq<Block>, k: nat, style: string, units: seq<Unit>)
    requires k < |body|
    ensures Spliced(body, k, style, units, body[..k] + UnitBlocks(style, units, 1) + [Para(Anchor(style))] + body[k + 1..])
  {
    var n := |units|;
    var blocks := UnitBlocks(style, units, 1);
    var head := body[..k] + blocks;
    var r := head + [Para(Anchor(style))] + body[k + 1..];
    assert |head| == k + 2 * n;
    assert r[..k] == body[..k] by {
      assert r[..k] == head[..k];
    }
    forall i | 0 <= i < n
      ensures r[k + 2 * i] == Para(TitleParagraph(style, i + 1, units[i]))
      ensures r[k + 2 * i + 1] == Para(ContentParagraph(style, units[i]))
    {
      assert r[k + 2 * i] == head[k + 2 * i] == blocks[2 * i];
      assert r[k + 2 * i + 1] == head[k + 2 * i + 1] == blocks[2 * i + 1];
    }
    assert r[k + 2 * n] == Para(Anchor(style));
    assert r[k + 2 * n + 1..] == body[k + 1..];
  }

  /**
    `replace_units_with_formatting`: the first top-level `{Units}` paragraph is replaced
    by the unit paragraphs followed by an empty anchor, all in its style; every other
    block, including any later `{Units}` paragraph, stays where it was.
   */
  function ExpandUnits(d: Document, units: seq<Unit>): (r: Document)
    ensures FindUnits(d.body, 0).None? ==> r == d
    ensures FindUnits(d.body, 0).Some? ==>
              var k := FindUnits(d.body, 0).value;
              Spliced(d.body, k, d.body[k].paragraph.style, units, r.body)
  {
    match FindUnits(d.body, 0)
    case None => d
    case Some(k) =>
      var style := d.body[k].paragraph.style;
      SpliceShape(d.body, k, style, units);
      Document(d.body[..k] + UnitBlocks(style, units, 1) + [Para(Anchor(style))] + d.body[k + 1..])
  }
}
