/**
 * `compute_markdown_style_props` and `compute_markdown_style_string`: how a
 * cell of the grid is styled from its run and its column.
 */
module Style {
  import opened Strings
  import opened Tokens

  /** What the renderer knows about a cell; a measured width is a whole number of pixels. */
  datatype CellInfo = CellInfo(row: nat, col: nat, numCols: nat, width: Option<nat>, syntax: MarkDownElement)

  datatype MarkDownStyle = MarkDownStyle(
    text: string,
    fontSize: nat,
    bold: bool,
    color: string,
    width: string,
    flexGrow: int)

  /** The font size of a run: headings step down from 32 by level, everything else is 16. */
  function FontSize(e: MarkDownElement): (size: nat)
    ensures 16 <= size <= 32
    ensures !e.Heading? ==> size == 16
  {
    match e
    case Heading(h) =>
      (match h
       case H1(_) => 32
       case H2(_) => 28
       case H3(_) => 24
       case H4(_) => 20
       case H5(_) => 18
       case H6(_) => 16)
    case _ => 16
  }

  /** The width text: the measured width in pixels, or `auto` when there is none. */
  function WidthText(width: Option<nat>): string {
    match width
    case Some(w) => NatToString(w) + "px"
    case None => "auto"
  }

  /**
   * The style of one cell. The text is the run's stored text, only headings
   * and bold runs are bold, and only the last column grows.
   */
  function ComputeStyleProps(props: CellInfo): (style: MarkDownStyle)
    requires props.numCols >= 1
    ensures style.text == RunText(props.syntax)
    ensures style.bold <==> props.syntax.Heading? || props.syntax.BoldText?
    ensures style.color == "black"
    ensures style.flexGrow == 1 <==> props.col == props.numCols - 1
    ensures style.flexGrow == 0 || style.flexGrow == 1
    ensures props.width.None? <==> style.width == "auto"
    ensures props.width.Some? ==> style.width == NatToString(props.width.value) + "px"
    ensures 16 <= style.fontSize <= 32
  {
    var text := match props.syntax
      case Heading(h) =>
        (match h
         case H1(t) => t
         case H2(t) => t
         case H3(t) => t
         case H4(t) => t
         case H5(t) => t
         case H6(t) => t)
      case PlainText(t) => t
      case BoldText(t) => t
      case EmptySpace => "";
    var width := WidthText(props.width);
    assert props.width.Some? ==> width[|width| - 2..] == "px";
    MarkDownStyle(
      text,
      FontSize(props.syntax),
      props.syntax.Heading? || props.syntax.BoldText?,
      "black",
      width,
      if props.col == props.numCols - 1 then 1 else 0)
  }

  /** One CSS declaration, `name: value`. */
  function Declaration(name: string, value: string): string {
    name + ": " + value
  }

  /** An inline CSS text: the declarations in order, separated by `; `. */
  function InlineCss(decls: seq<(string, string)>): string
    decreases |decls|
  {
    if |decls| == 0 then ""
    else if |decls| == 1 then Declaration(decls[0].0, decls[0].1)
    else Declaration(decls[0].0, decls[0].1) + "; " + InlineCss(decls[1..])
  }

  /**
   * The inline CSS of a style: font size, color, weight, width and grow
   * factor, in that order. The font size and the width get a `px` unit, the
   * width on top of the one it may already carry.
   */
  function ComputeStyleString(style: MarkDownStyle): (css: string)
    ensures css == InlineCss([
      ("font-size", NatToString(style.fontSize) + "px"),
      ("color", style.color),
      ("font-weight", if style.bold then "bold" else "normal"),
      ("width", style.width + "px"),
      ("flex-grow", IntToString(style.flexGrow))])
  {
    var css := "font-size: " + NatToString(style.fontSize) + "px; color: " + style.color +
      "; font-weight: " + (if style.bold then "bold" else "normal") +
      "; width: " + style.width + "px; flex-grow: " + IntToString(style.flexGrow);
    StyleDeclarations(style, css);
    css
  }

  /** The five declarations of a style, put together as `ComputeStyleString` writes them. */
  lemma StyleDeclarations(style: MarkDownStyle, css: string)
    requires css == "font-size: " + NatToString(style.fontSize) + "px; color: " + style.color +
      "; font-weight: " + (if style.bold then "bold" else "normal") +
      "; width: " + style.width + "px; flex-grow: " + IntToString(style.flexGrow)
    ensures css == InlineCss([
      ("font-size", NatToString(style.fontSize) + "px"),
      ("color", style.color),
      ("font-weight", if style.bold then "bold" else "normal"),
      ("width", style.width + "px"),
      ("flex-grow", IntToString(style.flexGrow))])
  {
    var size := NatToString(style.fontSize);
    var weight := if style.bold then "bold" else "normal";
    var grow := IntToString(style.flexGrow);
    StyleText(size, style.color, weight, style.width, grow);
    FiveDeclarations("font-size", size + "px", "color", style.color, "font-weight", weight,
      "width", style.width + "px", "flex-grow", grow);
  }

  /** The style's format text, cut at the declaration boundaries. */
  lemma StyleText(size: string, color: string, weight: string, width: string, grow: string)
    ensures "font-size: " + size + "px; color: " + color + "; font-weight: " + weight +
      "; width: " + width + "px; flex-grow: " + grow ==
      Declaration("font-size", size + "px") + "; " + Declaration("color", color) + "; " +
      Declaration("font-weight", weight) + "; " + Declaration("width", width + "px") + "; " +
      Declaration("flex-grow", grow)
  {
    var d0 := Declaration("font-size", size + "px");
    var d1 := Declaration("color", color);
    var d2 := Declaration("font-weight", weight);
    var d3 := Declaration("width", width + "px");
    StyleLiterals();
    var p1 := "font-size: " + size;
    SplitLiteral([], "font-size: ", "font-size", ": ", size);
    SplitLiteral(p1, "px; color: ", "px", "; " + "color" + ": ", color);
    var p2 := p1 + "px; color: " + color;
    assert p2 == d0 + "; " + d1;
    SplitLiteral(p2, "; font-weight: ", "; ", "font-weight" + ": ", weight);
    var p3 := p2 + "; font-weight: " + weight;
    assert p3 == d0 + "; " + d1 + "; " + d2;
    SplitLiteral(p3, "; width: ", "; ", "width" + ": ", width);
    var p4 := p3 + "; width: " + width;
    SplitLiteral(p4, "px; flex-grow: ", "px", "; " + "flex-grow" + ": ", grow);
    assert p4 + "px" == d0 + "; " + d1 + "; " + d2 + "; " + d3;
  }

  /** The fixed parts of the style's format text, cut where the declarations meet. */
  lemma StyleLiterals()
    ensures "font-size: " == "font-size" + ": "
    ensures "px; color: " == "px" + ("; " + "color" + ": ")
    ensures "; font-weight: " == "; " + ("font-weight" + ": ")
    ensures "; width: " == "; " + ("width" + ": ")
    ensures "px; flex-grow: " == "px" + ("; " + "flex-grow" + ": ")
  {
  }

  /** A literal cut in two, inside a concatenation. */
  lemma SplitLiteral(p: string, lit: string, left: string, right: string, x: string)
    requires lit == left + right
    ensures p + lit + x == p + left + right + x
  {
  }

  /** Five declarations as inline CSS, written out. */
  lemma FiveDeclarations(n0: string, v0: string, n1: string, v1: string, n2: string, v2: string,
                         n3: string, v3: string, n4: string, v4: string)
    ensures InlineCss([(n0, v0), (n1, v1), (n2, v2), (n3, v3), (n4, v4)]) ==
      Declaration(n0, v0) + "; " + Declaration(n1, v1) + "; " + Declaration(n2, v2) + "; " +
      Declaration(n3, v3) + "; " + Declaration(n4, v4)
  {
    var decls := [(n0, v0), (n1, v1), (n2, v2), (n3, v3), (n4, v4)];
    var d4 := Declaration(n4, v4);
    var d3 := Declaration(n3, v3) + "; " + d4;
    var d2 := Declaration(n2, v2) + "; " + d3;
    var d1 := Declaration(n1, v1) + "; " + d2;
    assert InlineCss(decls[4..]) == d4;
    assert InlineCss(decls[3..]) == d3 by { assert decls[3..][1..] == decls[4..]; }
    assert InlineCss(decls[2..]) == d2 by { assert decls[2..][1..] == decls[3..]; }
    assert InlineCss(decls[1..]) == d1 by { assert decls[1..][1..] == decls[2..]; }
    assert InlineCss(decls) == Declaration(n0, v0) + "; " + d1;
  }

  /** Deeper headings never get a larger font; non-headings get the smallest. */
  lemma FontSizeByLevel(a: MarkDownElement, b: MarkDownElement)
    ensures a.Heading? && b.Heading? && Level(a.heading) <= Level(b.heading) ==> FontSize(a) >= FontSize(b)
    ensures a.Heading? && b.Heading? && Level(a.heading) < Level(b.heading) ==> FontSize(a) > FontSize(b)
    ensures !b.Heading? ==> FontSize(a) >= FontSize(b)
  {
  }

  /** A measured width is written with `px` twice, an unmeasured one as `autopx`. */
  lemma WidthField(width: Option<nat>)
    ensures WidthText(width) + "px" == match width case Some(w) => NatToString(w) + "pxpx" case None => "autopx"
  {
  }

  lemma StyleFields(props: CellInfo)
    requires props.numCols >= 1
    ensures var style := ComputeStyleProps(props);
      style.fontSize == FontSize(props.syntax) && style.color == "black" &&
      (style.bold <==> props.syntax.Heading? || props.syntax.BoldText?) &&
      style.width == WidthText(props.width) &&
      IntToString(style.flexGrow) == (if props.col == props.numCols - 1 then "1" else "0")
  {
  }

  /**
   * The inline CSS of a cell: a measured width ends up as `<w>pxpx` and an
   * unmeasured one as `autopx`, and the grow factor is 1 only in the last column.
   */
  lemma CellStyleString(props: CellInfo)
    requires props.numCols >= 1
    ensures ComputeStyleString(ComputeStyleProps(props)) ==
      "font-size: " + NatToString(FontSize(props.syntax)) + "px; color: " + "black" +
      "; font-weight: " + (if props.syntax.Heading? || props.syntax.BoldText? then "bold" else "normal") +
      "; width: " + (match props.width case Some(w) => NatToString(w) + "pxpx" case None => "autopx") +
      "; flex-grow: " + (if props.col == props.numCols - 1 then "1" else "0")
  {
    var style := ComputeStyleProps(props);
    StyleFields(props);
    WidthField(props.width);
    var head := "font-size: " + NatToString(style.fontSize) + "px; color: " + style.color +
      "; font-weight: " + (if style.bold then "bold" else "normal") + "; width: ";
    var grow := IntToString(style.flexGrow);
    assert ComputeStyleString(style) == head + style.width + "px; flex-grow: " + grow;
    assert "px; flex-grow: " == "px" + "; flex-grow: ";
    Regroup(head, style.width, "px", "; flex-grow: ", grow);
  }

  lemma Regroup(head: string, w: string, x: string, y: string, tail: string)
    ensures head + w + (x + y) + tail == head + (w + x) + y + tail
  {
  }
}
