/**
 * What `process_text` guarantees: one row per non-blank line, in order,
 * heading cells exactly for `#` lines with text after the marker space (at
 * any marker count), well-formed `bold|`/`plain|` cells, and inline cells that
 * are exactly `process_markdown`'s runs rendered as tags.
 */
module TaggedFacts {
  import opened Strings
  import opened Tokens
  import opened Tokenizer
  import opened TextTagger
  import TokenizerFacts

  /**
   * A line gets a heading cell exactly when it starts with `n >= 1` markers,
   * a space, and some text: there is no upper limit on `n`, and the cell
   * holds the trimmed text after the space.
   */
  lemma TaggedHeadingIff(line: string)
    ensures var n := HashCount(line);
      TaggedHeading(line).Some? <==>
        1 <= n && n < |line| && line[n] == ' ' && Trim(line[n + 1..]) != []
    ensures var n := HashCount(line);
      TaggedHeading(line).Some? ==>
        TaggedHeading(line).value == "header" + NatToString(n) + "|" + Trim(line[n + 1..])
  {
    if HashCount(line) > 0 {
      TokenizerFacts.TrimStartHeading(line);
    }
  }

  /** A step that yields no cell consumed only whitespace. */
  lemma TaggedStepEmpty(cur: string)
    requires cur != [] && TaggedStep(cur).0 == []
    ensures IsBlank(cur[..|cur| - |TaggedStep(cur).1|])
  {
    match TaggedTryBold(cur)
    case Some((d, t)) =>
      TaggedStepBold(cur, d, t);
    case None =>
      TaggedStepPlain(cur);
      var next := NextOpener(cur);
      if next.Some? && next.value > 0 {
        assert cur[..|cur| - |TaggedStep(cur).1|] == cur[..next.value];
      } else {
        assert cur[..|cur| - |TaggedStep(cur).1|] == cur;
      }
  }

  /** A scan that yields no cell consumed only whitespace. */
  lemma {:induction false} TaggedScanEmpty(cur: string)
    ensures TaggedScan(cur) == [] ==> IsBlank(cur)
    decreases |cur|
  {
    if cur != [] && TaggedScan(cur) == [] {
      var rest := TaggedStep(cur).1;
      TaggedScanUnfold(cur);
      TaggedScanEmpty(rest);
      TaggedStepEmpty(cur);
      var consumed := cur[..|cur| - |rest|];
      assert cur == consumed + rest;
      BlankAppend(consumed, rest);
    }
  }

  /** Every non-blank line yields a non-empty row. */
  lemma TaggedRowNonEmpty(line: string)
    requires !IsBlank(line)
    ensures TaggedRow(line) != []
  {
    if TaggedHeading(line).None? {
      TaggedScanEmpty(line);
    }
  }

  /** The non-blank lines, in order. */
  function NonBlankLines(lines: seq<string>): (nb: seq<string>)
    ensures |nb| <= |lines|
    ensures forall j :: 0 <= j < |nb| ==> !IsBlank(nb[j])
    decreases |lines|
  {
    if lines == [] then []
    else if IsBlank(lines[0]) then NonBlankLines(lines[1..])
    else [lines[0]] + NonBlankLines(lines[1..])
  }

  /** `r` holds the rows of the lines `nb`, one each, in order, none empty. */
  predicate RowsOfLines(r: seq<seq<string>>, nb: seq<string>) {
    |r| == |nb| && forall j :: 0 <= j < |nb| ==> r[j] == TaggedRow(nb[j]) && r[j] != []
  }

  lemma RowsOfLinesCons(r: seq<seq<string>>, nb: seq<string>, line: string)
    requires RowsOfLines(r, nb) && TaggedRow(line) != []
    ensures RowsOfLines([TaggedRow(line)] + r, [line] + nb)
  {
    var r' := [TaggedRow(line)] + r;
    var nb' := [line] + nb;
    forall j | 0 <= j < |nb'| ensures r'[j] == TaggedRow(nb'[j]) && r'[j] != [] {
      if j > 0 {
        assert r'[j] == r[j - 1] && nb'[j] == nb[j - 1];
      }
    }
  }

  lemma TaggedLinesBlank(lines: seq<string>)
    requires lines != [] && IsBlank(lines[0])
    ensures TaggedLines(lines) == TaggedLines(lines[1..])
    ensures NonBlankLines(lines) == NonBlankLines(lines[1..])
  {
  }

  lemma TaggedLinesLine(lines: seq<string>)
    requires lines != [] && !IsBlank(lines[0])
    ensures TaggedLines(lines) == [TaggedRow(lines[0])] + TaggedLines(lines[1..])
    ensures NonBlankLines(lines) == [lines[0]] + NonBlankLines(lines[1..])
  {
    TaggedRowNonEmpty(lines[0]);
  }

  /** The rows are the rows of the non-blank lines, one each, in order, none empty. */
  lemma {:induction false} TaggedLinesRows(lines: seq<string>)
    ensures RowsOfLines(TaggedLines(lines), NonBlankLines(lines))
    decreases |lines|
  {
    if lines != [] {
      TaggedLinesRows(lines[1..]);
      if IsBlank(lines[0]) {
        TaggedLinesBlank(lines);
      } else {
        TaggedRowNonEmpty(lines[0]);
        TaggedLinesLine(lines);
        RowsOfLinesCons(TaggedLines(lines[1..]), NonBlankLines(lines[1..]), lines[0]);
      }
    }
  }

  /** `process_text` yields exactly one row per non-blank line of the standardised input. */
  lemma TaggedTextRowPerLine(input: string)
    ensures var nb := NonBlankLines(Lines(Normalize(input)));
      var rows := TaggedText(input);
      |rows| == |nb| && forall j :: 0 <= j < |nb| ==> rows[j] == TaggedRow(nb[j]) && rows[j] != []
  {
    TaggedLinesRows(Lines(Normalize(input)));
  }

  /** An inline cell: `bold|` with a non-empty text, or `plain|` with a trimmed, non-empty text. */
  predicate InlineCell(c: string) {
    (StartsWith(c, "bold|") && |c| > 5) ||
    (StartsWith(c, "plain|") && |c| > 6 && !IsWhitespace(c[6]) && !IsWhitespace(c[|c| - 1]))
  }

  predicate InlineCells(cells: seq<string>) {
    forall k :: 0 <= k < |cells| ==> InlineCell(cells[k])
  }

  lemma InlineCellsAppend(a: seq<string>, b: seq<string>)
    requires InlineCells(a) && InlineCells(b)
    ensures InlineCells(a + b)
  {
    forall k | 0 <= k < |a + b| ensures InlineCell((a + b)[k]) {
      if k < |a| {
        assert InlineCell(a[k]);
      } else {
        assert InlineCell(b[k - |a|]);
      }
    }
  }

  lemma PlainCellInline(text: string)
    ensures InlineCells(PlainCell(text))
  {
    if Trim(text) != [] {
      var c := "plain|" + Trim(text);
      assert c[6] == Trim(text)[0];
      assert c[|c| - 1] == Trim(text)[|Trim(text)| - 1];
    }
  }

  lemma TaggedStepCells(cur: string)
    requires cur != []
    ensures InlineCells(TaggedStep(cur).0)
  {
    match TaggedTryBold(cur)
    case Some((d, t)) =>
      TaggedStepBold(cur, d, t);
      assert InlineCell(TaggedStep(cur).0[0]);
    case None =>
      TaggedStepPlain(cur);
      var next := NextOpener(cur);
      if next.Some? && next.value > 0 {
        PlainCellInline(cur[..next.value]);
      } else {
        PlainCellInline(cur);
      }
  }

  /** Every cell of a scanned line is a `bold|` cell with text or a `plain|` cell with trimmed text. */
  lemma {:induction false} TaggedScanCells(cur: string)
    ensures InlineCells(TaggedScan(cur))
    decreases |cur|
  {
    if cur != [] {
      var rest := TaggedStep(cur).1;
      TaggedScanUnfold(cur);
      TaggedStepCells(cur);
      TaggedScanCells(rest);
      InlineCellsAppend(TaggedStep(cur).0, TaggedScan(rest));
    }
  }

  /** The tag `process_text` writes for a run `process_markdown` emits. */
  function TagRun(e: MarkDownElement): seq<string> {
    match e
    case BoldText(b) => if |b| >= 4 then ["bold|" + b[2..|b| - 2]] else []
    case PlainText(t) => PlainCell(t)
    case _ => []
  }

  function TagRuns(r: Row): seq<string>
    decreases |r|
  {
    if r == [] then [] else TagRun(r[0]) + TagRuns(r[1..])
  }

  lemma {:induction false} TagRunsAppend(a: Row, b: Row)
    ensures TagRuns(a + b) == TagRuns(a) + TagRuns(b)
    decreases |a|
  {
    if a != [] {
      assert (a + b)[0] == a[0];
      assert (a + b)[1..] == a[1..] + b;
      TagRunsAppend(a[1..], b);
      calc {
        TagRuns(a + b);
        TagRun(a[0]) + TagRuns(a[1..] + b);
        TagRun(a[0]) + (TagRuns(a[1..]) + TagRuns(b));
        (TagRun(a[0]) + TagRuns(a[1..])) + TagRuns(b);
      }
    } else {
      assert a + b == b;
    }
  }

  /** Both scanners accept the same bold run for a delimiter; the tagged one keeps its inside. */
  lemma BoldAtAgrees(cur: string, d: string)
    requires |d| == 2
    ensures BoldAt(cur, d).Some? <==> TaggedBoldAt(cur, d).Some?
    ensures BoldAt(cur, d).Some? ==> BoldAt(cur, d).value == d + TaggedBoldAt(cur, d).value + d
  {
    if BoldAt(cur, d).Some? {
      var t := TaggedBoldAt(cur, d).value;
      assert cur[..|d + t + d|] == d + t + d;
    }
  }

  /** A well-formed bold run at the start of the text is found by the tagger, with its inner text. */
  lemma TaggedBoldAtComplete(cur: string, d: string, t: string)
    requires |d| == 2 && StartsWith(cur, d + t + d) && WellFormedBold(d + t + d, d)
    ensures TaggedBoldAt(cur, d) == Some(t)
  {
    TokenizerFacts.BoldAtComplete(cur, d + t + d, d);
    BoldAtAgrees(cur, d);
    var t2 := TaggedBoldAt(cur, d).value;
    assert (d + t2 + d)[|d|..|d| + |t2|] == t2;
    assert (d + t + d)[|d|..|d| + |t|] == t;
  }

  /** A well-formed bold run of either delimiter at the start of the text is the one the tagger picks. */
  lemma TaggedTryBoldComplete(cur: string, d: string, t: string)
    requires (d == "**" || d == "__") && StartsWith(cur, d + t + d) && WellFormedBold(d + t + d, d)
    ensures TaggedTryBold(cur) == Some((d, t))
  {
    TaggedBoldAtComplete(cur, d, t);
    if d == "__" {
      assert cur[0] == (d + t + d)[0] == '_';
      assert !StartsWith(cur, "**");
    }
  }

  lemma TryBoldAgrees(cur: string)
    ensures TryBold(cur).Some? <==> TaggedTryBold(cur).Some?
    ensures TryBold(cur).Some? ==>
      var (d, t) := TaggedTryBold(cur).value;
      TryBold(cur).value == d + t + d
  {
    BoldAtAgrees(cur, "**");
    BoldAtAgrees(cur, "__");
  }

  lemma {:induction false} LeadingWhitespaceBlankPrefix(w: string, x: string)
    requires IsBlank(w)
    ensures LeadingWhitespace(w + x) == |w| + LeadingWhitespace(x)
    decreases |w|
  {
    if w != [] {
      assert (w + x)[1..] == w[1..] + x;
      assert IsWhitespace(w[0]);
      LeadingWhitespaceBlankPrefix(w[1..], x);
    } else {
      assert w + x == x;
    }
  }

  /** Trimming ignores whitespace put in front. */
  lemma TrimBlankPrefix(w: string, x: string)
    requires IsBlank(w)
    ensures Trim(w + x) == Trim(x)
  {
    LeadingWhitespaceBlankPrefix(w, x);
    assert (w + x)[|w| + LeadingWhitespace(x)..] == x[LeadingWhitespace(x)..];
  }

  /** A text whose first character differs from the pattern's does not start with it. */
  lemma FirstDiffers(s: string, p: string)
    requires s != [] && p != [] && s[0] != p[0]
    ensures !StartsWith(s, p)
  {
    if |p| <= |s| {
      assert s[..|p|][0] == s[0];
    }
  }

  /** A search that does not match at the start finds the pattern one place further on than the search of the tail. */
  lemma FindSomeStep(s: string, p: string, k: nat)
    requires s != [] && !StartsWith(s, p) && Find(s[1..], p) == Some(k)
    ensures Find(s, p) == Some(k + 1)
  {
  }

  /** A search that does not match at the start fails when the search of the tail fails. */
  lemma FindNoneStep(s: string, p: string)
    requires s != [] && !StartsWith(s, p) && Find(s[1..], p) == None
    ensures Find(s, p) == None
  {
  }

  /** A pattern that starts on a non-whitespace character, found at `k` in `r`, is found `|w|` further on past a whitespace prefix `w`. */
  lemma {:induction false} FindSomeBlankPrefix(w: string, r: string, p: string, k: nat)
    requires IsBlank(w) && p != [] && !IsWhitespace(p[0])
    requires Find(r, p) == Some(k)
    ensures Find(w + r, p) == Some(k + |w|)
    decreases |w|
  {
    if w == [] {
      assert w + r == r;
    } else {
      var s, t := w + r, w[1..];
      assert s[0] == w[0] && s[1..] == t + r && |t| + 1 == |w|;
      FirstDiffers(s, p);
      FindSomeBlankPrefix(t, r, p, k);
      FindSomeStep(s, p, k + |t|);
    }
  }

  /** A pattern that starts on a non-whitespace character and is absent from `r` is absent past a whitespace prefix too. */
  lemma {:induction false} FindNoneBlankPrefix(w: string, r: string, p: string)
    requires IsBlank(w) && p != [] && !IsWhitespace(p[0])
    requires Find(r, p) == None
    ensures Find(w + r, p) == None
    decreases |w|
  {
    if w == [] {
      assert w + r == r;
    } else {
      var s, t := w + r, w[1..];
      assert s[0] == w[0] && s[1..] == t + r;
      FirstDiffers(s, p);
      FindNoneBlankPrefix(t, r, p);
      FindNoneStep(s, p);
    }
  }

  /** The earlier of two optional offsets, as `min_by_key` picks it (the first one on a tie). */
  function NextOf(a: Option<nat>, b: Option<nat>): Option<nat> {
    match (a, b)
    case (Some(x), Some(y)) => Some(if x <= y then x else y)
    case (Some(x), None) => Some(x)
    case (None, Some(y)) => Some(y)
    case (None, None) => None
  }

  /** The next delimiter is the earlier of the two searches. */
  lemma NextOpenerOf(cur: string, a: Option<nat>, b: Option<nat>)
    requires Find(cur, "**") == a && Find(cur, "__") == b
    ensures NextOpener(cur) == NextOf(a, b)
  {
  }

  /** `b` is the optional offset `a` moved `n` places to the right. */
  predicate Moved(a: Option<nat>, b: Option<nat>, n: nat) {
    match a
    case None => b == None
    case Some(x) => b == Some(x + n)
  }

  /** Moving both offsets `n` places moves the earlier one `n` places. */
  lemma NextOfShift(a: Option<nat>, b: Option<nat>, a2: Option<nat>, b2: Option<nat>, n: nat, q: nat)
    requires Moved(a, a2, n) && Moved(b, b2, n)
    requires NextOf(a, b) == Some(q)
    ensures NextOf(a2, b2) == Some(q + n)
  {
  }

  /** A delimiter is found past a whitespace prefix where it is found after it, `|w|` further on. */
  lemma FindBlankPrefix(w: string, r: string, p: string)
    requires IsBlank(w) && p != [] && !IsWhitespace(p[0])
    ensures Moved(Find(r, p), Find(w + r, p), |w|)
  {
    var a, b := Find(r, p), Find(w + r, p);
    match a {
      case Some(x) =>
        FindSomeBlankPrefix(w, r, p, x);
        MovedSome(a, b, x, |w|);
      case None =>
        FindNoneBlankPrefix(w, r, p);
    }
  }

  /** An offset found at `x` and one found at `x + n` are moved `n` places apart. */
  lemma MovedSome(a: Option<nat>, b: Option<nat>, x: nat, n: nat)
    requires a == Some(x) && b == Some(x + n)
    ensures Moved(a, b, n)
  {
  }

  /** Both delimiters are found past a whitespace prefix where they are found after it, `|w|` further on. */
  lemma DelimitersBlankPrefix(w: string, r: string)
    requires IsBlank(w)
    ensures Moved(Find(r, "**"), Find(w + r, "**"), |w|)
    ensures Moved(Find(r, "__"), Find(w + r, "__"), |w|)
  {
    FindBlankPrefix(w, r, "**");
    FindBlankPrefix(w, r, "__");
  }

  /** When both delimiter searches move `n` places, so does the next delimiter. */
  lemma NextOpenerMoved(r: string, s: string, n: nat, q: nat)
    requires Moved(Find(r, "**"), Find(s, "**"), n)
    requires Moved(Find(r, "__"), Find(s, "__"), n)
    requires NextOpener(r) == Some(q)
    ensures NextOpener(s) == Some(q + n)
  {
    NextOpenerOf(r, Find(r, "**"), Find(r, "__"));
    NextOpenerOf(s, Find(s, "**"), Find(s, "__"));
    NextOfShift(Find(r, "**"), Find(r, "__"), Find(s, "**"), Find(s, "__"), n, q);
  }

  /** The next delimiter past a whitespace prefix is the next one of the text after it, `|w|` further on. */
  lemma NextOpenerBlankPrefixAt(w: string, r: string, q: nat)
    requires IsBlank(w) && NextOpener(r) == Some(q)
    ensures NextOpener(w + r) == Some(q + |w|)
  {
    DelimitersBlankPrefix(w, r);
    NextOpenerMoved(r, w + r, |w|, q);
  }

  /** A whitespace prefix does not make a delimiter appear. */
  lemma NextOpenerBlankPrefixNone(w: string, r: string)
    requires IsBlank(w) && NextOpener(r) == None
    ensures NextOpener(w + r) == None
  {
    FindNoneBlankPrefix(w, r, "**");
    FindNoneBlankPrefix(w, r, "__");
  }

  /** A line that does not open a bold run at its start has no accepted bold run there. */
  lemma NoOpenerNoBold(r: string)
    requires NextOpener(r).None? || NextOpener(r).value > 0
    ensures TaggedTryBold(r) == None
  {
  }

  /** A tagged step over a text with no delimiter at its start: plain text up to the next one. */
  lemma TaggedStepNoOpener(r: string)
    requires r != [] && (NextOpener(r).None? || NextOpener(r).value > 0)
    ensures NextOpener(r).Some? ==>
      TaggedStep(r).0 == PlainCell(r[..NextOpener(r).value]) && TaggedStep(r).1 == r[NextOpener(r).value..]
    ensures NextOpener(r).None? ==> TaggedStep(r).0 == PlainCell(r) && TaggedStep(r).1 == []
  {
    NoOpenerNoBold(r);
    TaggedStepPlain(r);
  }

  /** Slicing `w + r` past `w` is slicing `r`. */
  lemma SliceAfterPrefix(w: string, r: string, q: nat)
    requires q <= |r|
    ensures (w + r)[..|w| + q] == w + r[..q] && (w + r)[|w| + q..] == r[q..]
  {
  }

  /** The plain cell of a text ignores whitespace in front of it. */
  lemma PlainCellBlankPrefix(w: string, x: string)
    requires IsBlank(w)
    ensures PlainCell(w + x) == PlainCell(x)
  {
    TrimBlankPrefix(w, x);
  }

  /** A tagged step over whitespace and then `r`, which has a delimiter at `q`. */
  lemma TaggedStepBlankPrefixAt(w: string, r: string, q: nat)
    requires w != [] && IsBlank(w) && NextOpener(r) == Some(q)
    ensures TaggedStep(w + r) == (PlainCell(r[..q]), r[q..])
  {
    NextOpenerBlankPrefixAt(w, r, q);
    TaggedStepNoOpenerAt(w + r, q + |w|);
    SliceAfterPrefix(w, r, q);
    PlainCellBlankPrefix(w, r[..q]);
  }

  /** A tagged step over a text whose first delimiter is at `q > 0`: the plain text before it. */
  lemma TaggedStepNoOpenerAt(r: string, q: nat)
    requires r != [] && NextOpener(r) == Some(q) && q > 0
    ensures TaggedStep(r) == (PlainCell(r[..q]), r[q..])
  {
    TaggedStepNoOpener(r);
  }

  /** A tagged step over whitespace and then `r`, which has no delimiter. */
  lemma TaggedStepBlankPrefixEnd(w: string, r: string)
    requires w != [] && IsBlank(w) && NextOpener(r) == None
    ensures TaggedStep(w + r) == (PlainCell(r), [])
  {
    var cur := w + r;
    NextOpenerBlankPrefixNone(w, r);
    TaggedStepNoOpener(cur);
    PlainCellBlankPrefix(w, r);
  }

  /** A tagged step over whitespace and then `r`: the trimmed plain text of `r` up to its next delimiter. */
  lemma TaggedStepBlankPrefix(w: string, r: string)
    requires w != [] && IsBlank(w)
    ensures NextOpener(r).Some? ==>
      TaggedStep(w + r).0 == PlainCell(r[..NextOpener(r).value]) && TaggedStep(w + r).1 == r[NextOpener(r).value..]
    ensures NextOpener(r).None? ==> TaggedStep(w + r).0 == PlainCell(r) && TaggedStep(w + r).1 == []
  {
    match NextOpener(r)
    case Some(q) => TaggedStepBlankPrefixAt(w, r, q);
    case None => TaggedStepBlankPrefixEnd(w, r);
  }

  /**
   * Whitespace in front of a text changes none of its tagged cells: the
   * tagged scan trims it away (the typed scan instead consumes the spaces
   * after a bold run itself).
   */
  lemma TaggedScanBlankPrefix(w: string, r: string)
    requires IsBlank(w)
    ensures TaggedScan(w + r) == TaggedScan(r)
  {
    if w == [] {
      assert w + r == r;
    } else {
      TaggedStepBlankPrefix(w, r);
      TaggedScanUnfold(w + r);
      match NextOpener(r)
      case Some(q) =>
        if q > 0 {
          TaggedStepNoOpener(r);
          TaggedScanUnfold(r);
        } else {
          assert Trim(r[..0]) == [];
          assert r[0..] == r;
        }
      case None =>
        if r != [] {
          TaggedStepNoOpener(r);
          TaggedScanUnfold(r);
        } else {
          assert IsBlank(r);
        }
    }
  }

  lemma TagRunsTwo(x: MarkDownElement, y: MarkDownElement)
    ensures TagRuns([x]) == TagRun(x)
    ensures TagRuns([x, y]) == TagRun(x) + TagRun(y)
  {
    assert [x, y][1..] == [y];
    assert TagRuns([y]) == TagRun(y) + TagRuns([]);
  }

  /** A bold step: both scanners tag the same bold run and go on from texts with the same cells. */
  lemma BoldStepAgrees(cur: string, b: string)
    requires cur != [] && TryBold(cur) == Some(b)
    ensures TagRuns(Step(cur).0) == TaggedStep(cur).0
    ensures TaggedScan(TaggedStep(cur).1) == TaggedScan(Step(cur).1)
  {
    TryBoldAgrees(cur);
    var (d, t) := TaggedTryBold(cur).value;
    TaggedStepBold(cur, d, t);
    StepBold(cur, b);
    BoldRunsAgree(cur, b, t, LeadingWhitespace(cur[|b|..]), Step(cur).0, Step(cur).1, TaggedStep(cur).0, TaggedStep(cur).1);
  }

  /**
   * The runs of a bold step, tagged, are the bold cell; the spaces after the
   * bold run make no cell of their own.
   */
  lemma BoldRunsAgree(cur: string, b: string, t: string, n: nat, runs: Row, rest: string, cells: seq<string>, trest: string)
    requires StartsWith(cur, b) && |b| >= 4 && b[2..|b| - 2] == t
    requires n == LeadingWhitespace(cur[|b|..])
    requires n > 0 ==> runs == [BoldText(b), PlainText(Repeat(' ', n))] && rest == cur[|b| + n..]
    requires n == 0 ==> runs == [BoldText(b)] && rest == cur[|b|..]
    requires cells == ["bold|" + t] && trest == cur[|b|..]
    ensures TagRuns(runs) == cells
    ensures TaggedScan(trest) == TaggedScan(rest)
  {
    if n > 0 {
      assert rest == trest[n..];
      TagBoldSpaces(b, t, n);
      ScanAfterSpaces(trest, n);
    } else {
      TagRunsTwo(BoldText(b), BoldText(b));
    }
  }

  /** A bold run and the spaces after it tag as the bold cell alone. */
  lemma TagBoldSpaces(b: string, t: string, n: nat)
    requires |b| >= 4 && b[2..|b| - 2] == t && n > 0
    ensures TagRuns([BoldText(b), PlainText(Repeat(' ', n))]) == ["bold|" + t]
  {
    var spaces := Repeat(' ', n);
    TagRunsTwo(BoldText(b), PlainText(spaces));
    assert IsBlank(spaces);
    assert TagRun(PlainText(spaces)) == [];
    assert TagRun(BoldText(b)) == ["bold|" + t];
  }

  /** The tagged scan of a text is that of the text past its leading whitespace. */
  lemma ScanAfterSpaces(s: string, n: nat)
    requires n == LeadingWhitespace(s)
    ensures TaggedScan(s) == TaggedScan(s[n..])
  {
    assert s == s[..n] + s[n..];
    assert IsBlank(s[..n]);
    TaggedScanBlankPrefix(s[..n], s[n..]);
  }

  /** A plain step: both scanners make the same cell of the same text and leave the same rest. */
  lemma PlainStepAgrees(cur: string)
    requires cur != [] && TryBold(cur) == None
    ensures TagRuns(Step(cur).0) == TaggedStep(cur).0
    ensures TaggedStep(cur).1 == Step(cur).1
  {
    TryBoldAgrees(cur);
    TaggedStepPlain(cur);
    StepPlain(cur);
    var next := NextOpener(cur);
    var text := if next.Some? && next.value > 0 then cur[..next.value] else cur;
    if IsBlank(text) {
      assert Trim(text) == [];
    } else {
      TagRunsTwo(PlainText(text), PlainText(text));
    }
  }

  lemma StepAgrees(cur: string)
    requires cur != []
    ensures TagRuns(Step(cur).0) == TaggedStep(cur).0
    ensures TaggedScan(TaggedStep(cur).1) == TaggedScan(Step(cur).1)
  {
    match TryBold(cur)
    case Some(b) => BoldStepAgrees(cur, b);
    case None => PlainStepAgrees(cur);
  }

  /**
   * The tagged cells of a line are exactly its typed runs rendered as tags:
   * a bold run becomes `bold|` and its inside, a plain run `plain|` and its
   * trimmed text, and the spaces after a bold run disappear.
   */
  lemma {:induction false} TaggedScanAgrees(cur: string)
    ensures TaggedScan(cur) == TagRuns(ScanInline(cur))
    decreases |cur|
  {
    if cur != [] {
      var emitted := Step(cur).0;
      var rest := Step(cur).1;
      StepAgrees(cur);
      TaggedScanUnfold(cur);
      TokenizerFacts.ScanInlineUnfold(cur);
      TaggedScanAgrees(rest);
      TagRunsAppend(emitted, ScanInline(rest));
    }
  }

  /** For a line neither scanner treats as a heading, the tagged row renders the typed row. */
  lemma TaggedRowAgrees(line: string)
    requires !IsHeadingLine(line) && TaggedHeading(line).None?
    ensures TaggedRow(line) == TagRuns(LineRow(line))
  {
    TaggedScanAgrees(line);
  }
}
