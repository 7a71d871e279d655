/**
 * What `process_markdown` guarantees about its grid: one row per input line
 * plus a closing `EmptySpace` row, headings kept verbatim with their level,
 * and inline runs that are well-formed and, for ordinary lines, give back the
 * line's text when concatenated.
 */
module TokenizerFacts {
  import opened Strings
  import opened Tokens
  import opened Tokenizer

  /** The row a single line stands for in the grid: a blank line is one `EmptySpace` run. */
  function RowOf(line: string): Row {
    if IsBlank(line) then [EmptySpace] else LineRow(line)
  }

  lemma {:induction false} EmptyRowsShape(k: nat)
    ensures |EmptyRows(k)| == k
    ensures forall j :: 0 <= j < k ==> EmptyRows(k)[j] == [EmptySpace]
  {
    if k > 0 {
      EmptyRowsShape(k - 1);
    }
  }

  /** A line whose scan yields no run at all is blank: only whitespace is ever dropped. */
  lemma {:induction false} ScanInlineEmpty(cur: string)
    ensures ScanInline(cur) == [] ==> IsBlank(cur)
    decreases |cur|
  {
    if cur != [] && ScanInline(cur) == [] {
      var rest := Step(cur).1;
      ScanInlineUnfold(cur);
      ScanInlineEmpty(rest);
      StepEmpty(cur);
      var consumed := cur[..|cur| - |rest|];
      assert cur == consumed + rest;
      BlankAppend(consumed, rest);
    }
  }

  /** A step that emits no run consumed only whitespace. */
  lemma StepEmpty(cur: string)
    requires cur != [] && Step(cur).0 == []
    ensures IsBlank(cur[..|cur| - |Step(cur).1|])
  {
    match TryBold(cur)
    case Some(b) =>
      StepBold(cur, b);
    case None =>
      StepPlain(cur);
      var next := NextOpener(cur);
      if next.Some? && next.value > 0 {
        assert cur[..|cur| - |Step(cur).1|] == cur[..next.value];
      } else {
        assert cur[..|cur| - |Step(cur).1|] == cur;
      }
  }

  /** Every non-blank line contributes a non-empty row. */
  lemma LineRowNonEmpty(line: string)
    requires !IsBlank(line)
    ensures LineRow(line) != []
    ensures EmittedRows(line) == [LineRow(line)]
  {
    if !IsHeadingLine(line) {
      ScanInlineEmpty(line);
    }
  }

  /**
   * `r` is the grid for `lines` with `k` blank lines pending: the `k` pending
   * `EmptySpace` rows, one row per line, then the closing `EmptySpace` row.
   */
  predicate RowsFor(r: seq<Row>, lines: seq<string>, k: nat) {
    |r| == k + |lines| + 1 &&
    (forall j :: 0 <= j < k ==> r[j] == [EmptySpace]) &&
    (forall j :: 0 <= j < |lines| ==> r[k + j] == RowOf(lines[j])) &&
    r[k + |lines|] == [EmptySpace]
  }

  /** A blank first line is one more pending `EmptySpace` row. */
  lemma RowsForBlank(r: seq<Row>, lines: seq<string>, k: nat)
    requires lines != [] && IsBlank(lines[0])
    requires RowsFor(r, lines[1..], k + 1)
    ensures RowsFor(r, lines, k)
  {
    forall j | 0 <= j < |lines| ensures r[k + j] == RowOf(lines[j]) {
      if j == 0 {
        assert r[k] == [EmptySpace];
      } else {
        assert lines[j] == lines[1..][j - 1];
        assert r[k + j] == r[(k + 1) + (j - 1)];
      }
    }
  }

  /** A non-blank first line comes right after the pending rows, as its own row. */
  lemma RowsForLine(r: seq<Row>, tail: seq<Row>, lines: seq<string>, k: nat)
    requires lines != [] && !IsBlank(lines[0])
    requires RowsFor(tail, lines[1..], 0)
    requires r == EmptyRows(k) + [RowOf(lines[0])] + tail
    ensures RowsFor(r, lines, k)
  {
    EmptyRowsShape(k);
    forall j | 0 <= j < |lines| ensures r[k + j] == RowOf(lines[j]) {
      if j > 0 {
        assert lines[j] == lines[1..][j - 1];
        assert r[k + j] == tail[j - 1];
      }
    }
  }

  /** The grid from `lines` on, with `k` blank lines pending, is laid out line by line. */
  lemma {:induction false} TokenizeLinesRows(lines: seq<string>, k: nat)
    ensures RowsFor(TokenizeLines(lines, k), lines, k)
    decreases |lines|
  {
    if lines == [] {
      EmptyRowsShape(k);
    } else if IsBlank(lines[0]) {
      TokenizeLinesRows(lines[1..], k + 1);
      RowsForBlank(TokenizeLines(lines, k), lines, k);
    } else {
      LineRowNonEmpty(lines[0]);
      TokenizeLinesRows(lines[1..], 0);
      RowsForLine(TokenizeLines(lines, k), TokenizeLines(lines[1..], 0), lines, k);
    }
  }

  /** With no blank line pending, the grid is the lines' rows and the closing row. */
  lemma RowsForNone(r: seq<Row>, lines: seq<string>)
    requires RowsFor(r, lines, 0)
    ensures |r| == |lines| + 1
    ensures forall j :: 0 <= j < |lines| ==> r[j] == RowOf(lines[j])
    ensures r[|lines|] == [EmptySpace]
  {
    forall j | 0 <= j < |lines| ensures r[j] == RowOf(lines[j]) {
      assert r[0 + j] == RowOf(lines[j]);
    }
  }

  /**
   * The tokenized grid has one row per line of the standardised input, in
   * order, and one more `EmptySpace` row at the end.
   */
  lemma TokenizeRowPerLine(input: string)
    ensures var lines := Lines(Normalize(input));
      var grid := Tokenize(input);
      |grid| == |lines| + 1 &&
      (forall j :: 0 <= j < |lines| ==> grid[j] == RowOf(lines[j])) &&
      grid[|lines|] == [EmptySpace]
  {
    var lines := Lines(Normalize(input));
    TokenizeLinesRows(lines, 0);
    RowsForNone(Tokenize(input), lines);
  }

  /** A line that starts with `#` has no leading whitespace to trim. */
  lemma TrimStartHeading(line: string)
    requires HashCount(line) > 0
    ensures TrimStart(line) == line && StartsWith(line, "#")
  {
    assert !IsWhitespace(line[0]);
  }

  /** Markers, a space and the rest, put back together, are the line itself. */
  lemma HeadingTextSpells(line: string, n: nat)
    requires 0 < n < |line| && line[n] == ' '
    requires forall i :: 0 <= i < n ==> line[i] == '#'
    ensures "#" + Repeat('#', n - 1) + " " + line[n + 1..] == line
  {
    var h := "#" + Repeat('#', n - 1) + " " + line[n + 1..];
    assert |h| == |line|;
    forall i | 0 <= i < |line| ensures h[i] == line[i] {
      if 0 < i < n {
        assert h[i] == Repeat('#', n - 1)[i - 1];
      } else if i > n {
        assert h[i] == line[n + 1..][i - n - 1];
      }
    }
  }

  /**
   * A line is a heading exactly when it starts with one to six `#` followed by
   * a space; the heading then keeps the whole line as its text and the
   * number of markers as its level.
   */
  lemma HeadingLine(line: string)
    ensures var n := HashCount(line);
      IsHeadingLine(line) <==> 1 <= n <= 6 && n < |line| && line[n] == ' '
    ensures IsHeadingLine(line) ==> HeadingText(line) == line
    ensures IsHeadingLine(line) ==> LineRow(line) == [Heading(MakeHeading(HashCount(line), line))]
  {
    var n := HashCount(line);
    if n > 0 {
      TrimStartHeading(line);
      if IsHeadingLine(line) {
        HeadingTextSpells(line, n);
      }
    }
  }

  /**
   * The `k`-th run of an inline row is a well-formed bold run, a plain run
   * with some non-whitespace, or the spaces that directly follow a bold run.
   */
  predicate InlineRunAt(r: Row, k: nat)
    requires k < |r|
  {
    match r[k]
    case BoldText(b) => WellFormedBold(b, "**") || WellFormedBold(b, "__")
    case PlainText(t) => t != [] && (IsBlank(t) ==> k > 0 && r[k - 1].BoldText? && t == Repeat(' ', |t|))
    case _ => false
  }

  predicate InlineRow(r: Row) {
    forall k :: 0 <= k < |r| ==> InlineRunAt(r, k)
  }

  lemma InlineRowAppend(a: Row, b: Row)
    requires InlineRow(a) && InlineRow(b)
    ensures InlineRow(a + b)
  {
    forall k | 0 <= k < |a + b| ensures InlineRunAt(a + b, k) {
      if k < |a| {
        assert InlineRunAt(a, k);
        assert k > 0 ==> (a + b)[k - 1] == a[k - 1];
      } else {
        assert InlineRunAt(b, k - |a|);
        assert k - |a| > 0 ==> (a + b)[k - 1] == b[k - |a| - 1];
      }
    }
  }

  /** A bold run the scanner accepts is well-formed for one of the two delimiters. */
  lemma TryBoldWellFormed(cur: string)
    requires TryBold(cur).Some?
    ensures WellFormedBold(TryBold(cur).value, "**") || WellFormedBold(TryBold(cur).value, "__")
  {
  }

  /**
   * A well-formed bold run at the start of the text is the run the scanner
   * accepts there: its closing delimiter is the first one after the opener.
   */
  lemma BoldAtComplete(cur: string, b: string, d: string)
    requires |d| == 2 && StartsWith(cur, b) && WellFormedBold(b, d)
    ensures BoldAt(cur, d) == Some(b)
  {
    var rest := cur[|d|..];
    var e := |b| - 4;
    assert StartsWith(cur, d) by { assert cur[..|d|] == b[..|d|]; }
    assert OccursAt(rest, d, e) by { assert rest[e..e + |d|] == b[|b| - |d|..]; }
    forall j | 0 <= j < e ensures !OccursAt(rest, d, j) {
      assert !OccursAt(b, d, j + |d|);
      assert rest[j..j + |d|] == cur[j + |d|..j + |d| + |d|];
      assert cur[..|b|][j + |d|..j + |d| + |d|] == cur[j + |d|..j + |d| + |d|];
    }
    FindFirst(rest, d, e);
    assert cur[..|d| + e + |d|] == b;
  }

  /** A well-formed bold run of either delimiter at the start of the text is the run the scanner picks. */
  lemma TryBoldComplete(cur: string, b: string)
    requires StartsWith(cur, b) && (WellFormedBold(b, "**") || WellFormedBold(b, "__"))
    ensures TryBold(cur) == Some(b)
  {
    if WellFormedBold(b, "**") {
      BoldAtComplete(cur, b, "**");
    } else {
      BoldAtComplete(cur, b, "__");
      assert cur[0] == b[0] == '_';
      assert !StartsWith(cur, "**");
    }
  }

  /** A well-formed bold run, alone or followed by the spaces after it, is an inline row. */
  lemma BoldRunsInline(b: string, n: nat)
    requires WellFormedBold(b, "**") || WellFormedBold(b, "__")
    ensures InlineRow([BoldText(b)])
    ensures n > 0 ==> InlineRow([BoldText(b), PlainText(Repeat(' ', n))])
  {
    assert InlineRunAt([BoldText(b)], 0);
    if n > 0 {
      var r := [BoldText(b), PlainText(Repeat(' ', n))];
      assert InlineRunAt(r, 0);
      assert IsBlank(Repeat(' ', n));
      assert InlineRunAt(r, 1);
    }
  }

  /** Plain text that is kept only when it is not blank is an inline row. */
  lemma PlainRunsInline(t: string)
    ensures InlineRow(if IsBlank(t) then [] else [PlainText(t)])
  {
    if !IsBlank(t) {
      assert InlineRunAt([PlainText(t)], 0);
    }
  }

  /** The runs one scan step emits form an inline row. */
  lemma StepInline(cur: string)
    requires cur != []
    ensures InlineRow(Step(cur).0)
  {
    match TryBold(cur)
    case Some(b) =>
      StepBold(cur, b);
      TryBoldWellFormed(cur);
      BoldRunsInline(b, LeadingWhitespace(cur[|b|..]));
    case None =>
      StepPlain(cur);
      var next := NextOpener(cur);
      if next.Some? && next.value > 0 {
        PlainRunsInline(cur[..next.value]);
      } else {
        PlainRunsInline(cur);
      }
  }

  /**
   * Every run of a scanned line is a well-formed `**` or `__` bold run, a
   * plain run that is not blank, or the run of spaces right after a bold run.
   */
  lemma {:induction false} ScanInlineWellFormed(cur: string)
    ensures InlineRow(ScanInline(cur))
    decreases |cur|
  {
    if cur != [] {
      var (emitted, rest) := Step(cur);
      StepInline(cur);
      ScanInlineWellFormed(rest);
      InlineRowAppend(emitted, ScanInline(rest));
    }
  }

  /** The text of a row: its runs' texts one after the other. */
  function Concat(r: Row): string
    decreases |r|
  {
    if r == [] then [] else RunText(r[0]) + Concat(r[1..])
  }

  lemma {:induction false} ConcatAppend(a: Row, b: Row)
    ensures Concat(a + b) == Concat(a) + Concat(b)
    decreases |a|
  {
    if a != [] {
      assert (a + b)[0] == a[0];
      assert (a + b)[1..] == a[1..] + b;
      ConcatAppend(a[1..], b);
      calc {
        Concat(a + b);
        RunText(a[0]) + Concat(a[1..] + b);
        RunText(a[0]) + (Concat(a[1..]) + Concat(b));
        (RunText(a[0]) + Concat(a[1..])) + Concat(b);
      }
    } else {
      assert a + b == b;
    }
  }

  lemma ConcatTwo(x: MarkDownElement, y: MarkDownElement)
    ensures Concat([x, y]) == RunText(x) + RunText(y)
  {
    assert [x, y][1..] == [y];
    assert Concat([y]) == RunText(y) + Concat([]);
  }

  /** The only whitespace in `s` is the plain space. */
  predicate OnlySpaces(s: string) {
    forall i :: 0 <= i < |s| && IsWhitespace(s[i]) ==> s[i] == ' '
  }

  /** `s` is empty or starts with a character that is not whitespace. */
  predicate StartsSolid(s: string) {
    s != [] ==> !IsWhitespace(s[0])
  }

  /** A bold step over such a text spells the bold run and the spaces it consumed. */
  lemma StepBoldText(cur: string, b: string)
    requires cur != [] && OnlySpaces(cur) && StartsSolid(cur) && TryBold(cur) == Some(b)
    ensures Concat(Step(cur).0) + Step(cur).1 == cur
    ensures OnlySpaces(Step(cur).1) && StartsSolid(Step(cur).1)
  {
    StepBold(cur, b);
    BoldRunsSpell(cur, b, LeadingWhitespace(cur[|b|..]), Step(cur).0, Step(cur).1);
  }

  /** The runs of a bold step, with the spaces after the run, spell the text they were cut from. */
  lemma BoldRunsSpell(cur: string, b: string, n: nat, runs: Row, rest: string)
    requires StartsWith(cur, b) && OnlySpaces(cur) && n == LeadingWhitespace(cur[|b|..])
    requires n > 0 ==> runs == [BoldText(b), PlainText(Repeat(' ', n))] && rest == cur[|b| + n..]
    requires n == 0 ==> runs == [BoldText(b)] && rest == cur[|b|..]
    ensures Concat(runs) + rest == cur
    ensures OnlySpaces(rest) && StartsSolid(rest)
  {
    SpacesAfter(cur, |b|);
    if n > 0 {
      BoldSpacesSpell(cur, b, n);
    } else {
      BoldAloneSpells(cur, b);
    }
  }

  lemma BoldSpacesSpell(cur: string, b: string, n: nat)
    requires StartsWith(cur, b) && |b| + n <= |cur| && cur[|b|..|b| + n] == Repeat(' ', n)
    ensures Concat([BoldText(b), PlainText(Repeat(' ', n))]) + cur[|b| + n..] == cur
  {
    ConcatTwo(BoldText(b), PlainText(Repeat(' ', n)));
    assert cur == cur[..|b|] + cur[|b|..|b| + n] + cur[|b| + n..];
  }

  lemma BoldAloneSpells(cur: string, b: string)
    requires StartsWith(cur, b)
    ensures Concat([BoldText(b)]) + cur[|b|..] == cur
  {
    assert Concat([BoldText(b)]) == b;
    assert cur == cur[..|b|] + cur[|b|..];
  }

  /**
   * In a text whose only whitespace is spaces, the whitespace after offset
   * `m` is a run of spaces, and what follows it starts on a non-space.
   */
  lemma SpacesAfter(cur: string, m: nat)
    requires m <= |cur| && OnlySpaces(cur)
    ensures var n := LeadingWhitespace(cur[m..]);
      m + n <= |cur| && cur[m..m + n] == Repeat(' ', n) &&
      OnlySpaces(cur[m + n..]) && StartsSolid(cur[m + n..])
  {
    var after := cur[m..];
    var n := LeadingWhitespace(after);
    var run := cur[m..m + n];
    forall i | 0 <= i < n ensures run[i] == ' ' {
      assert IsWhitespace(after[i]);
      assert after[i] == cur[m + i];
    }
    if m + n < |cur| {
      assert cur[m + n..][0] == after[n];
    }
  }

  /** A text cut just before a delimiter: the plain part and the rest spell it, and the rest starts solid. */
  lemma PlainCutSpells(cur: string, idx: nat, runs: Row, rest: string)
    requires 0 < idx && (OccursAt(cur, "**", idx) || OccursAt(cur, "__", idx))
    requires OnlySpaces(cur) && StartsSolid(cur)
    requires runs == (if IsBlank(cur[..idx]) then [] else [PlainText(cur[..idx])]) && rest == cur[idx..]
    ensures Concat(runs) + rest == cur
    ensures OnlySpaces(rest) && StartsSolid(rest)
  {
    assert !IsBlank(cur[..idx]) by { assert cur[..idx][0] == cur[0]; }
    assert Concat(runs) == cur[..idx] by { assert runs[1..] == []; }
    assert cur == cur[..idx] + rest;
    assert rest[0] == cur[idx..idx + 2][0];
    assert OnlySpaces(rest) by {
      forall i | 0 <= i < |rest| && IsWhitespace(rest[i]) ensures rest[i] == ' ' {
        assert rest[i] == cur[idx + i];
      }
    }
  }

  /** The whole text as one plain run spells it and leaves nothing. */
  lemma PlainAllSpells(cur: string, runs: Row, rest: string)
    requires cur != [] && StartsSolid(cur)
    requires runs == (if IsBlank(cur) then [] else [PlainText(cur)]) && rest == []
    ensures Concat(runs) + rest == cur
    ensures OnlySpaces(rest) && StartsSolid(rest)
  {
    assert !IsBlank(cur);
    assert Concat(runs) == cur by { assert runs[1..] == []; }
  }

  /** A plain step over such a text spells the plain text it consumed. */
  lemma StepPlainText(cur: string)
    requires cur != [] && OnlySpaces(cur) && StartsSolid(cur) && TryBold(cur) == None
    ensures Concat(Step(cur).0) + Step(cur).1 == cur
    ensures OnlySpaces(Step(cur).1) && StartsSolid(Step(cur).1)
  {
    StepPlain(cur);
    match NextOpener(cur) {
      case Some(idx) =>
        if idx > 0 {
          PlainCutSpells(cur, idx, Step(cur).0, Step(cur).1);
        } else {
          PlainAllSpells(cur, Step(cur).0, Step(cur).1);
        }
      case None =>
        PlainAllSpells(cur, Step(cur).0, Step(cur).1);
    }
  }

  /** One scan step over such a text spells what it consumed and leaves such a text. */
  lemma StepText(cur: string)
    requires cur != [] && OnlySpaces(cur) && StartsSolid(cur)
    ensures Concat(Step(cur).0) + Step(cur).1 == cur
    ensures OnlySpaces(Step(cur).1) && StartsSolid(Step(cur).1)
  {
    match TryBold(cur)
    case Some(b) => StepBoldText(cur, b);
    case None => StepPlainText(cur);
  }

  lemma ScanInlineUnfold(cur: string)
    requires cur != []
    ensures ScanInline(cur) == Step(cur).0 + ScanInline(Step(cur).1)
  {
  }

  /**
   * A line that starts on a non-whitespace character and has no whitespace
   * but plain spaces is spelled out exactly by the texts of its runs: the
   * runs keep their `**`/`__` markers and nothing is dropped.
   */
  lemma {:induction false} ScanInlineText(cur: string)
    requires OnlySpaces(cur) && StartsSolid(cur)
    ensures Concat(ScanInline(cur)) == cur
    decreases |cur|
  {
    if cur != [] {
      var emitted := Step(cur).0;
      var rest := Step(cur).1;
      StepText(cur);
      ScanInlineText(rest);
      ConcatAppend(emitted, ScanInline(rest));
      ScanInlineUnfold(cur);
    }
  }

  /** Such a line, heading or not, is spelled out exactly by its row. */
  lemma LineRowText(line: string)
    requires OnlySpaces(line) && StartsSolid(line)
    ensures Concat(LineRow(line)) == line
  {
    HeadingLine(line);
    if !IsHeadingLine(line) {
      ScanInlineText(line);
    }
  }
}
