/**
 * `extract_strings` and `markdown_to_string`: the typed grid becomes a grid
 * of cell strings, and a string grid becomes one text with a line per row.
 */
module Grid {
  import opened Strings
  import opened Tokens
  import opened Tokenizer
  import opened TokenizerFacts

  /** The cell strings of one row: each run's stored text, `""` for `EmptySpace`. */
  function ExtractRow(row: Row): (cells: seq<string>)
    ensures |cells| == |row|
    ensures forall k :: 0 <= k < |row| ==> cells[k] == RunText(row[k])
    decreases |row|
  {
    if row == [] then [] else [RunText(row[0])] + ExtractRow(row[1..])
  }

  /** `extract_strings`: the grid keeps its shape and every run becomes its text. */
  function ExtractStrings(grid: seq<Row>): (cells: seq<seq<string>>)
    ensures |cells| == |grid|
    ensures forall i :: 0 <= i < |grid| ==> |cells[i]| == |grid[i]|
    ensures forall i, k :: 0 <= i < |grid| && 0 <= k < |grid[i]| ==> cells[i][k] == RunText(grid[i][k])
    decreases |grid|
  {
    if grid == [] then [] else [ExtractRow(grid[0])] + ExtractStrings(grid[1..])
  }

  /** The text of each row: its cells joined with nothing in between. */
  function RowStrings(cells: seq<seq<string>>): (rows: seq<string>)
    ensures |rows| == |cells|
    ensures forall i :: 0 <= i < |cells| ==> rows[i] == Join(cells[i], "")
    decreases |cells|
  {
    if cells == [] then [] else [Join(cells[0], "")] + RowStrings(cells[1..])
  }

  /**
   * `markdown_to_string`: the rows' texts joined by line breaks. When the
   * rows hold no line break and the last one is empty, as the closing
   * `EmptySpace` row is, splitting the result into lines gives every other
   * row's text back (less one trailing `'\r'`).
   */
  function MarkdownToString(cells: seq<seq<string>>): (r: string)
    ensures var rows := RowStrings(cells);
      rows != [] && rows[|rows| - 1] == "" && (forall k :: 0 <= k < |rows| ==> '\n' !in rows[k]) ==>
        |Lines(r)| == |rows| - 1 && forall k :: 0 <= k < |rows| - 1 ==> Lines(r)[k] == StripCr(rows[k])
  {
    var rows := RowStrings(cells);
    if rows != [] && rows[|rows| - 1] == "" && (forall k :: 0 <= k < |rows| ==> '\n' !in rows[k]) then
      var ls := rows[..|rows| - 1];
      assert ls + [""] == rows;
      LinesOfJoin(ls);
      Join(rows, "\n")
    else
      Join(rows, "\n")
  }

  /** Joining a row's cells with nothing in between spells the row's text. */
  lemma {:induction false} JoinExtractRow(row: Row)
    ensures Join(ExtractRow(row), "") == Concat(row)
    decreases |row|
  {
    if |row| == 1 {
      assert Concat(row) == RunText(row[0]) + Concat(row[1..]);
    } else if |row| > 1 {
      JoinExtractRow(row[1..]);
      assert ExtractRow(row)[1..] == ExtractRow(row[1..]);
    }
  }

  /** A text with no line break in it is found to end where its line break is. */
  lemma FindLineBreak(l: string, rest: string)
    requires '\n' !in l
    ensures Find(l + "\n" + rest, "\n") == Some(|l|)
  {
    var s := l + "\n" + rest;
    assert OccursAt(s, "\n", |l|) by {
      assert s[|l|..|l| + 1] == "\n";
    }
    forall j | 0 <= j < |l| ensures !OccursAt(s, "\n", j) {
      assert s[j..j + 1] == [l[j]];
    }
  }

  /** A line without a break, a break, and more text: the line is split off first. */
  lemma LinesCons(l: string, rest: string)
    requires '\n' !in l
    ensures Lines(l + "\n" + rest) == [StripCr(l)] + Lines(rest)
  {
    var s := l + "\n" + rest;
    FindLineBreak(l, rest);
    assert s[..|l|] == l;
    assert s[|l| + 1..] == rest;
  }

  /** Joining with a break in front of a closing empty line. */
  lemma JoinCons(ls: seq<string>)
    requires ls != []
    ensures Join(ls + [""], "\n") == ls[0] + "\n" + Join(ls[1..] + [""], "\n")
  {
    assert (ls + [""])[1..] == ls[1..] + [""];
  }

  /**
   * Splitting the joined text of some lines, closed by one more empty line,
   * gives the lines back (each without one trailing `'\r'`), as long as no
   * line holds a line break.
   */
  lemma {:induction false} LinesOfJoin(ls: seq<string>)
    requires forall k :: 0 <= k < |ls| ==> '\n' !in ls[k]
    ensures |Lines(Join(ls + [""], "\n"))| == |ls|
    ensures forall k :: 0 <= k < |ls| ==> Lines(Join(ls + [""], "\n"))[k] == StripCr(ls[k])
    decreases |ls|
  {
    if ls == [] {
      assert Join([""], "\n") == "";
    } else {
      var rest := Join(ls[1..] + [""], "\n");
      JoinCons(ls);
      LinesCons(ls[0], rest);
      LinesOfJoin(ls[1..]);
      var back := Lines(Join(ls + [""], "\n"));
      assert back == [StripCr(ls[0])] + Lines(rest);
      forall k | 0 <= k < |ls| ensures back[k] == StripCr(ls[k]) {
        if k > 0 {
          assert ls[k] == ls[1..][k - 1];
        }
      }
    }
  }

  /** A line as the grid shows it again: blank lines come back empty. */
  function Rendered(line: string): string {
    if IsBlank(line) then "" else line
  }

  /** A line the scanners reproduce exactly: blank, or starting on a non-space with only plain spaces. */
  predicate Reproducible(line: string) {
    IsBlank(line) || (OnlySpaces(line) && StartsSolid(line))
  }

  /** Row `k` of the extracted grid is the extracted row `k`. */
  lemma ExtractStringsAt(grid: seq<Row>, k: nat)
    requires k < |grid|
    ensures ExtractStrings(grid)[k] == ExtractRow(grid[k])
  {
    var a := ExtractStrings(grid)[k];
    var b := ExtractRow(grid[k]);
    assert |a| == |b|;
    forall m | 0 <= m < |a| ensures a[m] == b[m] {
    }
  }

  /** The text of a reproducible line's row is the line as rendered. */
  lemma RowOfRendered(line: string)
    requires Reproducible(line)
    ensures Join(ExtractRow(RowOf(line)), "") == Rendered(line)
  {
    JoinExtractRow(RowOf(line));
    if IsBlank(line) {
      assert Concat([EmptySpace]) == "";
    } else {
      LineRowText(line);
    }
  }

  /**
   * The rows' texts of the tokenized grid are the standardised lines, blank
   * ones empty, then the closing empty row, when every line is reproducible.
   */
  lemma RowStringsOfTokenize(input: string)
    requires forall k :: 0 <= k < |Lines(Normalize(input))| ==> Reproducible(Lines(Normalize(input))[k])
    ensures var lines := Lines(Normalize(input));
      var rows := RowStrings(ExtractStrings(Tokenize(input)));
      |rows| == |lines| + 1 &&
      (forall k :: 0 <= k < |lines| ==> rows[k] == Rendered(lines[k])) &&
      rows[|lines|] == ""
  {
    var lines := Lines(Normalize(input));
    var grid := Tokenize(input);
    var rows := RowStrings(ExtractStrings(grid));
    TokenizeRowPerLine(input);
    forall k | 0 <= k < |lines| ensures rows[k] == Rendered(lines[k]) {
      ExtractStringsAt(grid, k);
      RowOfRendered(lines[k]);
    }
    ExtractStringsAt(grid, |lines|);
    assert ExtractRow([EmptySpace]) == [""];
  }

  /**
   * Rendering the tokenized grid and splitting it into lines again gives
   * back the standardised lines, blank ones empty, when every line is
   * reproducible.
   */
  lemma RenderRoundTrip(input: string)
    requires forall k :: 0 <= k < |Lines(Normalize(input))| ==> Reproducible(Lines(Normalize(input))[k])
    ensures var lines := Lines(Normalize(input));
      var back := Lines(MarkdownToString(ExtractStrings(Tokenize(input))));
      |back| == |lines| && forall k :: 0 <= k < |lines| ==> back[k] == Rendered(lines[k])
  {
    var lines := Lines(Normalize(input));
    RowStringsOfTokenize(input);
    LinesChars(Normalize(input), '\r');
    SplitRendered(lines, RowStrings(ExtractStrings(Tokenize(input))));
  }

  /**
   * Rows that render some lines free of `'\r'`, then one empty row, split
   * back into those lines as rendered.
   */
  lemma SplitRendered(lines: seq<string>, rows: seq<string>)
    requires forall k :: 0 <= k < |lines| ==> '\n' !in lines[k] && '\r' !in lines[k]
    requires |rows| == |lines| + 1 && rows[|lines|] == ""
    requires forall k :: 0 <= k < |lines| ==> rows[k] == Rendered(lines[k])
    ensures |Lines(Join(rows, "\n"))| == |lines|
    ensures forall k :: 0 <= k < |lines| ==> Lines(Join(rows, "\n"))[k] == Rendered(lines[k])
  {
    var ls := rows[..|lines|];
    assert rows == ls + [""];
    LinesOfJoin(ls);
    forall k | 0 <= k < |lines| ensures StripCr(ls[k]) == Rendered(lines[k]) {
      assert ls[k] == Rendered(lines[k]);
    }
  }
}
