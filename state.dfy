/**
 * `State`: the editor's document, a grid of cell strings, with the caret
 * `(row, col, offset)` if the editor has focus and the measured cell widths.
 */
module EditorState {
  import opened Strings
  import opened Tokens
  import opened Tokenizer
  import opened Grid

  datatype CaretPos = CaretPos(row: nat, col: nat, offset: nat)

  /** A new document shows at least this many rows. */
  const MinRows: nat := 20

  function Max(a: nat, b: nat): nat {
    if a >= b then a else b
  }

  /** The grid padded with one-empty-cell rows up to `MinRows` rows. */
  function PadRows(grid: seq<seq<string>>): (r: seq<seq<string>>)
    ensures |r| == Max(|grid|, MinRows)
    ensures r[..|grid|] == grid
    ensures forall i :: |grid| <= i < |r| ==> r[i] == [""]
    decreases MinRows - |grid|
  {
    if |grid| >= MinRows then grid
    else
      var r := PadRows(grid + [[""]]);
      assert r[..|grid|] == (grid + [[""]])[..|grid|];
      r
  }

  /** A width grid of the same shape as `grid`, nothing measured yet. */
  function NoWidths(grid: seq<seq<string>>): (w: seq<seq<Option<nat>>>)
    ensures |w| == |grid|
    ensures forall i :: 0 <= i < |grid| ==> |w[i]| == |grid[i]|
    ensures forall i, k :: 0 <= i < |w| && 0 <= k < |w[i]| ==> w[i][k] == None
    decreases |grid|
  {
    if grid == [] then [] else [seq(|grid[0]|, _ => None)] + NoWidths(grid[1..])
  }

  /** The grid with empty rows appended until row `i` exists. */
  function GrowRows(grid: seq<seq<string>>, i: nat): (r: seq<seq<string>>)
    ensures |r| == Max(|grid|, i + 1)
    ensures r[..|grid|] == grid
    ensures forall k :: |grid| <= k < |r| ==> r[k] == []
    decreases i + 1 - |grid|
  {
    if i < |grid| then grid
    else
      var r := GrowRows(grid + [[]], i);
      assert r[..|grid|] == (grid + [[]])[..|grid|];
      r
  }

  /** The row with empty cells appended until cell `j` exists. */
  function GrowCells(row: seq<string>, j: nat): (r: seq<string>)
    ensures |r| == Max(|row|, j + 1)
    ensures r[..|row|] == row
    ensures forall k :: |row| <= k < |r| ==> r[k] == ""
    decreases j + 1 - |row|
  {
    if j < |row| then row
    else
      var r := GrowCells(row + [""], j);
      assert r[..|row|] == (row + [""])[..|row|];
      r
  }

  /**
   * The grid after writing `text` into cell `(i, j)`: rows and cells are
   * added as needed (new rows empty, new cells `""`), the cell holds `text`,
   * and every other cell is as before.
   */
  function UpdatedGrid(grid: seq<seq<string>>, i: nat, j: nat, text: string): (r: seq<seq<string>>)
    ensures |r| == Max(|grid|, i + 1)
    ensures forall k :: 0 <= k < |r| && k != i ==> r[k] == (if k < |grid| then grid[k] else [])
    ensures |r[i]| == (if i < |grid| then Max(|grid[i]|, j + 1) else j + 1)
    ensures r[i][j] == text
    ensures forall c :: 0 <= c < |r[i]| && c != j ==>
      r[i][c] == (if i < |grid| && c < |grid[i]| then grid[i][c] else "")
  {
    var rows := GrowRows(grid, i);
    assert i < |grid| ==> rows[i] == grid[i];
    var cells := GrowCells(rows[i], j);
    rows[i := cells[j := text]]
  }

  /** The caret after cell `(i, j)` got a text of length `len`: clamped if it is in that cell. */
  function ClampedCaret(caret: Option<CaretPos>, i: nat, j: nat, len: nat): (c: Option<CaretPos>)
    ensures c.None? <==> caret.None?
    ensures c.Some? ==> c.value.row == caret.value.row && c.value.col == caret.value.col
    ensures c.Some? && (c.value.row != i || c.value.col != j) ==> c == caret
    ensures c.Some? && c.value.row == i && c.value.col == j ==>
      c.value.offset <= len && c.value.offset <= caret.value.offset &&
      (c.value.offset == caret.value.offset || c.value.offset == len)
  {
    match caret
    case Some(CaretPos(ci, cj, off)) =>
      if ci == i && cj == j then Some(CaretPos(ci, cj, if off <= len then off else len)) else caret
    case None => None
  }

  /** The caret is absent or names an existing cell. */
  predicate CaretInGrid(grid: seq<seq<string>>, caret: Option<CaretPos>) {
    caret.Some? ==> caret.value.row < |grid| && caret.value.col < |grid[caret.value.row]|
  }

  /** The caret is absent or names an existing cell and an offset inside its text. */
  predicate CaretInText(grid: seq<seq<string>>, caret: Option<CaretPos>) {
    CaretInGrid(grid, caret) &&
    (caret.Some? ==> caret.value.offset <= |grid[caret.value.row][caret.value.col]|)
  }

  /** Writing a cell never moves a caret out of the grid or past the end of its cell's text. */
  lemma UpdateKeepsCaret(grid: seq<seq<string>>, caret: Option<CaretPos>, i: nat, j: nat, text: string)
    ensures CaretInGrid(grid, caret) ==>
      CaretInGrid(UpdatedGrid(grid, i, j, text), ClampedCaret(caret, i, j, |text|))
    ensures CaretInText(grid, caret) ==>
      CaretInText(UpdatedGrid(grid, i, j, text), ClampedCaret(caret, i, j, |text|))
  {
    var r := UpdatedGrid(grid, i, j, text);
    var c := ClampedCaret(caret, i, j, |text|);
    if CaretInGrid(grid, caret) && caret.Some? {
      var p := caret.value;
      if p.row == i {
        assert p.col < |r[i]|;
        if p.col != j {
          assert r[i][p.col] == grid[i][p.col];
        }
      } else {
        assert r[p.row] == grid[p.row];
      }
    }
  }

  /** Writing the same cell twice leaves only the second text. */
  lemma UpdateTwice(grid: seq<seq<string>>, i: nat, j: nat, first: string, second: string)
    ensures UpdatedGrid(UpdatedGrid(grid, i, j, first), i, j, second) == UpdatedGrid(grid, i, j, second)
  {
    var once := UpdatedGrid(grid, i, j, first);
    var a := UpdatedGrid(once, i, j, second);
    var b := UpdatedGrid(grid, i, j, second);
    assert |a| == |b|;
    forall k | 0 <= k < |a| ensures a[k] == b[k] {
      if k == i {
        assert |a[i]| == |b[i]|;
        forall c | 0 <= c < |a[i]| ensures a[i][c] == b[i][c] {
        }
      }
    }
  }

  class State {
    var rawText: seq<seq<string>>
    var caretPos: Option<CaretPos>
    var textWidth: seq<seq<Option<nat>>>

    /**
     * `State::new`: the tokenized input as a string grid, padded to
     * `MinRows` rows, with nothing measured yet.
     */
    constructor (inputText: string, caretPos: Option<CaretPos>)
      ensures this.rawText == PadRows(ExtractStrings(Tokenize(inputText)))
      ensures this.caretPos == caretPos
      ensures this.textWidth == NoWidths(this.rawText)
    {
      var syntaxText := ProcessMarkdown(inputText);
      var rawText := ExtractStrings(syntaxText);
      while |rawText| < MinRows
        invariant PadRows(rawText) == PadRows(ExtractStrings(syntaxText))
        decreases MinRows - |rawText|
      {
        rawText := rawText + [[""]];
      }
      this.rawText := rawText;
      this.caretPos := caretPos;
      this.textWidth := NoWidths(rawText);
    }

    /** `update_text`: write one cell, growing the grid as needed, and clamp a caret in that cell. */
    method UpdateText(i: nat, j: nat, text: string)
      modifies this
      ensures rawText == UpdatedGrid(old(rawText), i, j, text)
      ensures caretPos == ClampedCaret(old(caretPos), i, j, |text|)
      ensures textWidth == old(textWidth)
    {
      while i >= |rawText|
        invariant GrowRows(rawText, i) == GrowRows(old(rawText), i)
        invariant caretPos == old(caretPos) && textWidth == old(textWidth)
        decreases i + 1 - |rawText|
      {
        rawText := rawText + [[]];
      }
      assert rawText == GrowRows(old(rawText), i);
      ghost var rows := rawText;
      while j >= |rawText[i]|
        invariant |rawText| == |rows| && i < |rawText|
        invariant rawText == rows[i := rawText[i]]
        invariant GrowCells(rawText[i], j) == GrowCells(rows[i], j)
        invariant caretPos == old(caretPos) && textWidth == old(textWidth)
        decreases j + 1 - |rawText[i]|
      {
        rawText := rawText[i := rawText[i] + [""]];
      }
      rawText := rawText[i := rawText[i][j := text]];
      if caretPos.Some? {
        var CaretPos(caretI, caretJ, caretOffset) := caretPos.value;
        if caretI == i && caretJ == j {
          var len := |rawText[i][j]|;
          caretPos := Some(CaretPos(caretI, caretJ, if caretOffset <= len then caretOffset else len));
        }
      }
    }

    /** `move_caret`: the caret goes to an existing cell, or away if the cell does not exist; the offset is not checked. */
    method MoveCaret(i: nat, j: nat, charPos: nat)
      modifies this
      ensures caretPos == if i < |rawText| && j < |rawText[i]| then Some(CaretPos(i, j, charPos)) else None
      ensures CaretInGrid(rawText, caretPos)
      ensures rawText == old(rawText) && textWidth == old(textWidth)
    {
      if i < |rawText| && j < |rawText[i]| {
        caretPos := Some(CaretPos(i, j, charPos));
      } else {
        caretPos := None;
      }
    }

    /** `clear_caret` */
    method ClearCaret()
      modifies this
      ensures caretPos == None
      ensures rawText == old(rawText) && textWidth == old(textWidth)
    {
      caretPos := None;
    }
  }
}
