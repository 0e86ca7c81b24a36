# Course syllabus generator — template assembly engine in Dafny

This project models the document-assembly core of `app.py`, a Flask service that fills a
Word syllabus template from a submitted form. The model covers four parts.

- **Placeholder dictionary** (`generate_doc`, lines 59-108 and 137). The form becomes an
  ordered map from template tokens such as `{CourseName}` to values.
  - An empty source maps to the sentinel `<REMOVE>`.
  - List fields are stripped, filtered and rendered as `1. item` lines, or as `CO1: item`
    lines for outcomes.
  - The practical-period pair shows only when the box is ticked and a count is given.
  - `{TotalPeriods}` carries the sum of the unit periods.
- **Unit collection** (lines 111-130). The fields `unit_title_i`, `unit_content_i` and
  `unit_periods_i` are read for i = 1, 2, … up to the first index whose cleaned title or
  content is empty. A count that is missing, empty or rejected by `int` becomes 0.
- **Unit expansion** (`replace_units_with_formatting`, lines 183-211). The first top-level
  paragraph mentioning `{Units}` is replaced by these paragraphs, in its style:
  - a bold heading `UNIT n: title (No. of Periods: p)` for each unit, then the unit's content;
  - after the last unit, an empty anchor paragraph.
- **Placeholder resolution** (`replace_placeholders_in_doc` and
  `replace_placeholders_in_paragraph`, lines 151-182). Each paragraph is resolved on its own.
  This covers the top-level paragraphs and every paragraph in every table cell.
  - The paragraph's run texts are joined, and every entry is applied in order with Python's
    replace-all. Because matching uses the joined text, a token split across runs is still found.
  - If the result holds `<REMOVE>`, the paragraph is deleted.
  - Otherwise the whole text goes into run 0 and the other runs are blanked. Each run keeps its
    bold flag and size.
  - A paragraph without runs is left alone.

A document is modelled as a sequence of blocks:

- a block is a paragraph or a table;
- a table is a sequence of rows of cells, and a cell is a sequence of paragraphs;
- a paragraph is a style plus a sequence of runs (text, optional bold flag, optional point size).

Modules, one per file:

- `Wrappers`: `Option`.
- `Numbers`: decimal rendering of `str(int)` and reading it back.
- `Strings`: `str.strip` with Python's whitespace set, `"\n".join` and `split`.
- `Replace`: `str.replace`, `in`, and the no-overlap facts about tokens and the sentinel.
- `Seqs`: order-preserving filtering.
- `Form`: the multi-valued form, with `get`, `getlist` and truthiness.
- `Docx`: the document tree.
- `Resolve`: paragraph and document resolution.
- `Units`: unit collection, the total and expansion.
- `Placeholders`: the dictionary.
- `Generate`: the request handler and end-to-end facts.

## Model

| member | source | states |
|---|---|---|
| Resolve.ResolveParagraph | app.py:162-182 | A paragraph with no runs is returned unchanged. Otherwise it is deleted exactly when the substituted joined text contains `<REMOVE>`. A kept paragraph has the same style, run count and run formatting; run 0 holds the substituted text and the other runs are empty. So its text is the substituted text and holds no sentinel. |
| Resolve.Collapse | app.py:177-182 | Rewriting the runs keeps style, run count and per-run formatting. Run 0 holds the full text, every other run is empty, and the paragraph text equals the full text. |
| Resolve.ApplyEntryIsReplace | app.py:168-169 | The `placeholder in full_text` guard never changes the outcome: each step equals a plain replace-all. |
| Resolve.ResolveCell | app.py:158-160 | A cell keeps exactly the paragraphs resolution does not delete, in their original order. Output paragraph k is the resolution of the k-th kept input paragraph. No output paragraph holds the sentinel. |
| Resolve.ResolveRow | app.py:157-160 | A row keeps every cell in place. Each output cell holds, in order, the resolutions of exactly the paragraphs of the input cell that are not deleted, and none of them holds the sentinel. |
| Resolve.ResolveTable | app.py:156-160 | A table keeps its row count and each row's cell count, and every cell is resolved. No paragraph of the result holds the sentinel. |
| Resolve.ResolveBlock | app.py:153-160 | A table always survives, as its resolved table. A paragraph block is removed exactly when its paragraph is deleted, and otherwise becomes the resolved paragraph. A surviving block is sentinel-free. |
| Resolve.ResolveDoc | app.py:151-160 | The output body lists, in order, the resolutions of exactly the kept input blocks. No paragraph anywhere in the output holds the sentinel. |
| Resolve.TablesSurvive | app.py:156-160 | Every table position of the input is among the kept positions. |
| Resolve.SentinelPersists | app.py:167-172 | Once the text holds `<REMOVE>`, no later token replacement removes it. |
| Resolve.SentinelTokenMarks | app.py:167-172 | Suppose the text contains a token whose value is `<REMOVE>`. Then the fully substituted text contains `<REMOVE>`, whatever the other entries do. |
| Resolve.RemovedTokenDeletesParagraph | app.py:164-175 | A paragraph whose joined runs contain a token mapped to `<REMOVE>` is deleted, wherever run boundaries fall. |
| Resolve.SubstituteWholeToken | app.py:165-169 | A text that is exactly the i-th token passes the earlier entries untouched and becomes the i-th value, which only the later entries can rewrite. |
| Resolve.SubstituteUntouched | app.py:167-169 | A text in which no key occurs comes out of substitution unchanged. |
| Resolve.WholeTokenParagraph | app.py:164-182 | A paragraph spelling exactly the i-th token becomes the i-th value collapsed into run 0. This needs a value with no `{` and no `<`. |
| Replace.ReplaceAtFirstOccurrence | app.py:169 | Replace-all copies the text before the first occurrence, emits the value, then continues after the matched pattern. |
| Replace.ReplaceAcrossBarrier | app.py:169 | A word that no occurrence of the pattern can overlap splits the text: each side is replaced independently and the word is kept. |
| Replace.ReplaceKeeps | app.py:169 | An occurrence of a word that the pattern cannot overlap survives the replacement. |
| Replace.ReplaceAbsent | app.py:168-169 | Replacing a pattern that does not occur returns the text unchanged. |
| Replace.ReplaceIntroducesValue | app.py:169 | Replacing a pattern that occurs leaves the value in the result. |
| Replace.TokensNoOverlap | app.py:75-108 | Two different `{Name}` tokens cannot overlap in any text. |
| Replace.TokenSentinelNoOverlap | app.py:75-108 | A `{Name}` token and `<REMOVE>` cannot overlap in any text. |
| Units.CollectFrom | app.py:111-130 | The units found from index i on are present at consecutive indices i, i+1, … with no gap. Each is the unit read at its index, and the index just after the last one is absent. |
| Units.UnitsFromIndexed | app.py:113-130 | A sequence is a run of units read from index i exactly when, for every j it covers, position j − i is the unit read at form index j and that index is present. The unit read at j holds the cleaned title and content and the period count. A count that is missing, empty or rejected by `int` counts as 0; otherwise it is the value `int` gives. |
| Units.CollectFromUnique | app.py:111-130 | Any list that is gap-free from index i and stops at the first absent index is exactly the collected list. |
| Units.NextKeysSmaller | app.py:115-121 | Reading a present unit uses up one more `unit_title_i` field of the finite form, so the scan ends. |
| Units.CollectUnits | app.py:111-130 | The loop returns the collected units, and the running total equals the sum of their periods. |
| Units.TotalPeriodsValue | app.py:137 | A total ≤ 0 gives `<REMOVE>`. Otherwise the value is `TOTAL NUMBER OF PERIODS:` followed by decimal digits that read back as the total and start with a non-zero digit, so they are `str(total)`. |
| Units.FindUnits | app.py:185-186 | Returns the first top-level paragraph mentioning `{Units}` at or after the start position, or None when there is none. |
| Units.UnitHeadingNumber | app.py:196-200 | Unit n's heading starts `UNIT `, then decimal digits that read back as n, then `: `, and ends `)` plus a line break. |
| Units.UnitBlocks | app.py:196-209 | For each unit in order there is a heading paragraph and then a content paragraph, 2N blocks in all, numbered from the start value. The heading is one bold 12 pt run `UNIT n: title (No. of Periods: p)` and a line break. The content is one 11 pt run, not bold, holding the content and two line breaks. |
| Units.ExpandUnits | app.py:183-211 | Without a `{Units}` paragraph the document is unchanged. Otherwise the first one is replaced by 2N unit paragraphs and an empty anchor, all in its style: heading i+1 and content of unit i at offsets 2i and 2i+1. The blocks before it and after it, including any later `{Units}` paragraph, are unchanged. |
| Placeholders.ListItems | app.py:64-68 | Keeps the non-blank entries in order, each stripped and cleaned. Every non-blank entry is kept. The result is empty exactly when every entry is blank. |
| Placeholders.KeptNonBlank | app.py:64-68 | The filter keeps some entry exactly when some entry is not blank. |
| Placeholders.ItemLabel | app.py:82-92 | An item label is non-empty and holds no line break. |
| Placeholders.RenderList | app.py:82-92 | A rendered list is `<REMOVE>` exactly when the list is empty. |
| Placeholders.RenderListOne | app.py:82-92 | A one-item list renders as the first label followed by the item, whatever the item holds. |
| Placeholders.RenderListAppend | app.py:82-92 | Appending an item to a non-empty list appends a line break, the next label (`n. ` or `COn: `) and the item, whatever the items hold. With RenderListOne this fixes the rendered text of every list. |
| Placeholders.RenderListLines | app.py:82-92 | When no item holds a line break, splitting a rendered list at line breaks gives back one line per item: `n. item`, or `COn: item` for outcomes, numbered from 1 in input order. |
| Placeholders.ReadFieldsOnlyReadKeys | app.py:59-101 | The fields depend on the form only through the fifteen keys read at these lines. Two forms that agree on those keys give the same fields, whatever else they hold. |
| Placeholders.RawFieldsUncleaned | app.py:59-101 | Semester, course name, course code, course description and the practical pair are taken as submitted: they come out the same whatever the cleaner does. |
| Placeholders.PracticalValues | app.py:100-108 | Both practical values are `<REMOVE>` unless `hasPractical` is truthy and `practical_periods` is non-empty. In that case the heading is `PRACTICAL PERIODS ` (with its trailing space) and the value is the submitted text. |
| Placeholders.Value | app.py:75-108 | The value for each token is `<REMOVE>` whenever that token's source is empty. Free texts stand for themselves and section headings are fixed titles. Either is `<REMOVE>` exactly when its source is empty or is itself `<REMOVE>`. |
| Placeholders.BuildPlaceholders | app.py:75-137 | The dictionary's keys are the 24 tokens in insertion order: the literal's 21, then the two practical tokens, then `{TotalPeriods}`. Keys are distinct braced names, and every token whose source is empty maps to `<REMOVE>`. |
| Placeholders.SentinelOnlyWhenAbsent | app.py:75-137 | Conversely, when no submitted free text is literally `<REMOVE>`, a token maps to `<REMOVE>` only when its source is empty. |
| Placeholders.TokensAreTokens | app.py:75-108 | Every dictionary key is `{`, letters, `}`. |
| Placeholders.TokensDistinct | app.py:75-108 | No dictionary key is listed twice. |
| Generate.GenerateDoc | app.py:50-149 | A missing template gives the text `Error: template.docx not found!` with status 404. Otherwise the answer is a `Course_Syllabus.docx` attachment with the Word MIME type, and no paragraph of it holds the sentinel. |
| Generate.Render | app.py:111-141 | Units are expanded before placeholders are resolved, and the result is sentinel-free. |
| Generate.AbsentSourceRemovesParagraph | app.py:75-175 | Any paragraph mentioning the token of an empty source is deleted, however the token is split across runs. Empty sources are an empty field, an empty list, an unticked practical box or a total ≤ 0. |
| Generate.TotalParagraph | app.py:137-182 | A paragraph spelling `{TotalPeriods}` becomes the total line for a positive total, and is deleted otherwise. |
| Generate.SplitRunTotal | app.py:164-182 | The runs `{Total` and `Periods}` with total 40 resolve to `TOTAL NUMBER OF PERIODS:40` in run 0, with run 1 blank and formatting kept. |
| Generate.CourseNameParagraph | app.py:77 | A paragraph that is `{CourseName}` shows the given course name, when the name holds no `{` and no `<`. |
| Generate.NoUnitsParagraph | app.py:139-141 | Without a `{Units}` paragraph the output is the resolved template. |
| Strings.StripEmptyIff | app.py:64-68 | `p.strip()` is empty exactly when every character of `p` is Python whitespace. |
| Strings.StripIsSlice | app.py:64-68 | `strip` keeps one contiguous slice and removes only whitespace on either side. |
| Strings.SplitJoin | app.py:82-92 | Splitting a `"\n".join` on line breaks gives back the lines, when no line contains one. |
| Numbers.ParseNatToString | app.py:137 | The decimal text of a natural number reads back as that number. |
| Numbers.IntToStringRoundTrip | app.py:200 | `str(p)` of a period count reads back as p: a leading minus sign for negatives, then decimal digits. |
| Seqs.FilterMapKept | app.py:64-68 | A filtered list holds, in order, the results at the kept positions. |

## Left out

- Flask routing, the home page, template loading and saving, `io.BytesIO` and `send_file`
  (lines 1-11, 45-57, 143-149, 213-214). The template appears as an optional `Document`
  input, and the response as a datatype.
- `clean_pdf_text` (lines 19-41) is a parameter `clean`. Its regular-expression chain is not
  modelled. The model requires only `clean("") == ""`: the real chain has this property, and
  the unit scan needs it to end.
- Python's `int()` on strings is a parameter `parseInt: string -> Option<int>`. None stands
  for `ValueError`; the exact grammar is not modelled.
- python-docx formatting is not modelled: `Pt` sizes are plain numbers and styles are
  names. Paragraph properties, XML parent and element handling, merged cells (which
  python-docx lists more than once in `row.cells`) and nested tables are left out.
- `units_text` (lines 132-134) is built but never used, so it is not modelled.
- `Units.PeriodsOf`: unit period counts may be negative, as `int("-3")` allows. The total
  is their plain sum, and the total line needs only that sum to be positive.
- `Resolve.ResolveDoc`: the no-sentinel guarantee is proved, but not "no `{…}` token
  remains". The code leaves unknown tokens and a second `{Units}` paragraph in place.
- `Placeholders.SentinelOnlyWhenAbsent` needs that no free-text field is literally
  `<REMOVE>`. If one is, that token's paragraph is deleted as if the field were empty.
- `Generate.CourseNameParagraph` and `Resolve.WholeTokenParagraph` cover values without
  `{` or `<`. A value that names a later token is rewritten by that token's entry, because
  entries are applied in order.
- Section titles are ordinary tokens such as `{prerequisitename}`, and lists are plain
  `\n`-joined text in one run, as modelled here.
- `Resolve.Collapse`: a paragraph is modelled by its direct runs only, and a run by its
  text, bold flag and size. Lines 178-182 set `run.text` on every run of every paragraph
  that has runs, whether or not it held a placeholder. python-docx's `Run.text` setter then
  removes every child of the run except its properties. So inline pictures, page breaks and
  field characters in such paragraphs, in the body or in table cells, are lost. The model
  cannot show this loss.
- `Placeholders.RenderListLines` needs items with no line break. `clean_pdf_text` can put
  line breaks into a list item (lines 36 and 39), and then splitting gives more lines than
  items. RenderListOne and RenderListAppend describe the rendered text for any items.
- `Generate.GenerateDoc` assumes any string can be written into a run and read back
  unchanged. python-docx raises `ValueError` (an HTTP 500) on XML-illegal control
  characters such as `\x00`, `\x0b` or `\x0c` (lines 180, 200 and 207). The raw fields at
  lines 59-62 and 101 are never cleaned, and `clean_pdf_text` keeps such characters. It
  also writes `\r` as a line break, which reads back as `\n`. The model promises an
  attachment for every request that has a template, and does not model either failure.
