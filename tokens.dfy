/**
 * The typed runs the Markdown tokenizer produces: one row of the editor's
 * grid is a sequence of runs, one run per cell.
 */
module Tokens {

  /** A heading run; the level is the constructor, the text keeps its `#` markers. */
  datatype HeadingLevel =
    | H1(text: string)
    | H2(text: string)
    | H3(text: string)
    | H4(text: string)
    | H5(text: string)
    | H6(text: string)

  /** One inline run of a row. `EmptySpace` stands for a blank line and carries no text. */
  datatype MarkDownElement =
    | Heading(heading: HeadingLevel)
    | PlainText(text: string)
    | BoldText(text: string)
    | EmptySpace

  type Row = seq<MarkDownElement>

  /** The number of `#` markers a heading run stands for. */
  function Level(h: HeadingLevel): (n: nat)
    ensures 1 <= n <= 6
  {
    match h
    case H1(_) => 1
    case H2(_) => 2
    case H3(_) => 3
    case H4(_) => 4
    case H5(_) => 5
    case H6(_) => 6
  }

  /** The heading constructor for a `#` count of 1 to 6. */
  function MakeHeading(level: nat, text: string): (h: HeadingLevel)
    requires 1 <= level <= 6
    ensures Level(h) == level && h.text == text
  {
    if level == 1 then H1(text)
    else if level == 2 then H2(text)
    else if level == 3 then H3(text)
    else if level == 4 then H4(text)
    else if level == 5 then H5(text)
    else H6(text)
  }

  /** The text a run stores: headings and bold runs keep their markers, `EmptySpace` has none. */
  function RunText(e: MarkDownElement): string {
    match e
    case Heading(h) => h.text
    case PlainText(t) => t
    case BoldText(t) => t
    case EmptySpace => ""
  }
}
