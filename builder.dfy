/**
 * `EditorBuilder`: owns the document `State`, forwards edits and caret moves
 * to it, and translates a caret between cell level `(row, col, offset)` and
 * row level (one offset across the whole row's text).
 */
module Builder {
  import opened Strings
  import opened EditorState

  /** The total length of the first `k` cells of a row. */
  function Prefix(row: seq<string>, k: nat): nat
    requires k <= |row|
  {
    if k == 0 then 0 else Prefix(row, k - 1) + |row[k - 1]|
  }

  lemma {:induction false} PrefixMonotone(row: seq<string>, a: nat, b: nat)
    requires a <= b <= |row|
    ensures Prefix(row, a) <= Prefix(row, b)
    decreases b - a
  {
    if a < b {
      PrefixMonotone(row, a, b - 1);
    }
  }

  /** The row-level offset of a caret: the lengths of the cells before it plus its offset. */
  function RowLevelPos(grid: seq<seq<string>>, caret: Option<CaretPos>): (r: Option<nat>)
    requires caret.Some? ==> caret.value.row < |grid| && caret.value.col <= |grid[caret.value.row]|
    ensures r.None? <==> caret.None?
    ensures r.Some? ==> r.value >= caret.value.offset
  {
    match caret
    case Some(CaretPos(i, j, off)) => Some(Prefix(grid[i], j) + off)
    case None => None
  }

  /** The walk over the cells of a row from cell `k` on, with `remaining` offset left to place. */
  function Walk(remaining: nat, i: nat, row: seq<string>, k: nat): Option<CaretPos>
    requires k <= |row|
    decreases |row| - k
  {
    if k == |row| then
      if row == [] then None else Some(CaretPos(i, |row| - 1, |row[|row| - 1]|))
    else if remaining < |row[k]| then Some(CaretPos(i, k, remaining + 1))
    else Walk(remaining - |row[k]|, i, row, k + 1)
  }

  /** The cell-level caret of a row-level offset in row `i` whose cells are `row`. */
  function CaretFromRowLevel(pos: nat, i: nat, row: seq<string>): Option<CaretPos> {
    Walk(pos, i, row, 0)
  }

  /**
   * The walk from cell `k`, entered with the part of `pos` beyond the first
   * `k` cells: it lands in the first cell whose end lies past `pos`, one past
   * the offset inside it, or at the end of the last cell.
   */
  lemma {:induction false} WalkFrom(pos: nat, i: nat, row: seq<string>, k: nat)
    requires k <= |row| && Prefix(row, k) <= pos
    ensures var r := Walk(pos - Prefix(row, k), i, row, k);
      (r.None? <==> row == []) &&
      (r.Some? ==> r.value.row == i && r.value.col < |row|) &&
      (pos < Prefix(row, |row|) ==>
        r.Some? && k <= r.value.col &&
        Prefix(row, r.value.col) <= pos < Prefix(row, r.value.col + 1) &&
        r.value.offset == pos - Prefix(row, r.value.col) + 1) &&
      (pos >= Prefix(row, |row|) && row != [] ==> r == Some(CaretPos(i, |row| - 1, |row[|row| - 1]|)))
    decreases |row| - k
  {
    if k < |row| {
      if pos - Prefix(row, k) >= |row[k]| {
        assert pos - Prefix(row, k) - |row[k]| == pos - Prefix(row, k + 1);
        WalkFrom(pos, i, row, k + 1);
      } else {
        PrefixMonotone(row, k + 1, |row|);
      }
    }
  }

  /**
   * `get_caret_from_row_level_pos`: none exactly for an empty row; otherwise
   * a caret in row `i` and in an existing cell. Inside the row's text it
   * lands in the first cell whose end lies past `pos`, with the offset inside
   * that cell plus one (so between 1 and the cell's length); past the text it
   * lands at the end of the last cell.
   */
  lemma CaretFromRowLevelSpec(pos: nat, i: nat, row: seq<string>)
    ensures var r := CaretFromRowLevel(pos, i, row);
      (r.None? <==> row == []) &&
      (r.Some? ==> r.value.row == i && r.value.col < |row|) &&
      (pos < Prefix(row, |row|) ==>
        r.Some? &&
        Prefix(row, r.value.col) <= pos < Prefix(row, r.value.col + 1) &&
        r.value.offset == pos - Prefix(row, r.value.col) + 1 &&
        1 <= r.value.offset <= |row[r.value.col]|) &&
      (pos >= Prefix(row, |row|) && row != [] ==> r == Some(CaretPos(i, |row| - 1, |row[|row| - 1]|)))
  {
    WalkFrom(pos, i, row, 0);
  }

  /**
   * Flattening a caret that sits before the end of its cell's text and
   * mapping the result back gives the same cell, one offset further on.
   */
  lemma RowLevelRoundTrip(grid: seq<seq<string>>, i: nat, j: nat, off: nat)
    requires i < |grid| && j < |grid[i]| && off < |grid[i][j]|
    ensures var pos := RowLevelPos(grid, Some(CaretPos(i, j, off)));
      pos.Some? && CaretFromRowLevel(pos.value, i, grid[i]) == Some(CaretPos(i, j, off + 1))
  {
    var row := grid[i];
    var pos := Prefix(row, j) + off;
    PrefixMonotone(row, j + 1, |row|);
    CaretFromRowLevelSpec(pos, i, row);
    var c := CaretFromRowLevel(pos, i, row).value;
    if c.col < j {
      PrefixMonotone(row, c.col + 1, j);
    } else if c.col > j {
      PrefixMonotone(row, j + 1, c.col);
    }
  }

  class EditorBuilder {
    var state: State

    constructor (state: State)
      ensures this.state == state
    {
      this.state := state;
    }

    /** `get_raw_text_current`: the text of the cell under the caret, or `"error"` without a caret. */
    method GetRawTextCurrent() returns (text: string)
      requires CaretInGrid(state.rawText, state.caretPos)
      ensures state.caretPos.None? ==> text == "error"
      ensures state.caretPos.Some? ==> text == state.rawText[state.caretPos.value.row][state.caretPos.value.col]
    {
      var caret := GetCaretPos();
      if caret.Some? {
        text := state.rawText[caret.value.row][caret.value.col];
      } else {
        text := "error";
      }
    }

    /** `update_text`, forwarded to the state. */
    method UpdateText(i: nat, j: nat, text: string)
      modifies state
      ensures state.rawText == UpdatedGrid(old(state.rawText), i, j, text)
      ensures state.caretPos == ClampedCaret(old(state.caretPos), i, j, |text|)
      ensures state.textWidth == old(state.textWidth)
    {
      state.UpdateText(i, j, text);
    }

    /** `move_caret`, forwarded to the state. */
    method MoveCaret(i: nat, j: nat, charPos: nat)
      modifies state
      ensures state.caretPos ==
        if i < |state.rawText| && j < |state.rawText[i]| then Some(CaretPos(i, j, charPos)) else None
      ensures state.rawText == old(state.rawText) && state.textWidth == old(state.textWidth)
    {
      state.MoveCaret(i, j, charPos);
    }

    /** `clear_caret`, forwarded to the state. */
    method ClearCaret()
      modifies state
      ensures state.caretPos == None
      ensures state.rawText == old(state.rawText) && state.textWidth == old(state.textWidth)
    {
      state.ClearCaret();
    }

    /** `get_caret_pos` */
    method GetCaretPos() returns (caret: Option<CaretPos>)
      ensures caret == state.caretPos
    {
      caret := state.caretPos;
    }

    /** `get_row_level_caret_pos`: sums the lengths of the cells before the caret's column, then adds its offset. */
    method GetRowLevelCaretPos(currentCaretPos: Option<CaretPos>) returns (pos: Option<nat>)
      requires currentCaretPos.Some? ==>
        currentCaretPos.value.row < |state.rawText| &&
        currentCaretPos.value.col <= |state.rawText[currentCaretPos.value.row]|
      ensures pos == RowLevelPos(state.rawText, currentCaretPos)
    {
      if currentCaretPos.Some? {
        var CaretPos(i, j, charPos) := currentCaretPos.value;
        var row := state.rawText[i];
        var totalPos := 0;
        for k := 0 to j
          invariant totalPos == Prefix(row, k)
        {
          totalPos := totalPos + |row[k]|;
        }
        totalPos := totalPos + charPos;
        pos := Some(totalPos);
      } else {
        pos := None;
      }
    }

    /** `get_caret_from_row_level_pos`: walks the cells, taking each cell's length off the offset, until one holds it. */
    method GetCaretFromRowLevelPos(rowLevelPos: nat, i: nat, row: seq<string>) returns (caret: Option<CaretPos>)
      ensures caret == CaretFromRowLevel(rowLevelPos, i, row)
    {
      var remainingPos: nat := rowLevelPos;
      for j := 0 to |row|
        invariant Walk(remainingPos, i, row, j) == CaretFromRowLevel(rowLevelPos, i, row)
      {
        var textLen := |row[j]|;
        if remainingPos < textLen {
          return Some(CaretPos(i, j, remainingPos + 1));
        }
        remainingPos := remainingPos - textLen;
      }
      if row != [] {
        var lastJ := |row| - 1;
        caret := Some(CaretPos(i, lastJ, |row[lastJ]|));
      } else {
        caret := None;
      }
    }
  }
}
