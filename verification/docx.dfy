/**
  The rich-text document tree the engine walks: a body of paragraphs and tables, a
  table of rows of cells, a cell of paragraphs, a paragraph of formatted runs.
 */
module Docx {
  import opened Wrappers

  /** A run of text with its character formatting (bold flag, font size in points). */
  datatype Run = Run(text: string, bold: Option<bool>, sizePt: Option<nat>)

  /** A paragraph carries a named style and its runs. */
  datatype Paragraph = Paragraph(style: string, runs: seq<Run>)

  datatype Cell = Cell(paragraphs: seq<Paragraph>)

  datatype Row = Row(cells: seq<Cell>)

  datatype Table = Table(rows: seq<Row>)

  /** A block of the document body. */
  datatype Block = Para(paragraph: Paragraph) | Tbl(table: Table)

  datatype Document = Document(body: seq<Block>)

  /** The concatenated text of a sequence of runs. */
  function RunsText(runs: seq<Run>): string
    decreases |runs|
  {
    if |runs| == 0 then "" else runs[0].text + RunsText(runs[1..])
  }

  /** A paragraph's text: its runs' texts joined with nothing in between. */
  function Text(p: Paragraph): string
  {
    RunsText(p.runs)
  }

  /** Runs whose texts are all empty contribute nothing to the paragraph text. */
  lemma {:induction false} BlankRunsText(runs: seq<Run>)
    requires forall i :: 0 <= i < |runs| ==> runs[i].text == ""
    ensures RunsText(runs) == ""
    decreases |runs|
  {
    if |runs| > 0 {
      BlankRunsText(runs[1..]);
    }
  }
}
