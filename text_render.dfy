/**
 * What `TextBlock.renderInline` and `TextBlock.render`
 * (src/text-block.ts:109-177) draw, stated against a reference definition
 * that does not follow the code: the styled characters ("glyphs") a text
 * stands for, laid out like a typewriter — left to right, wrapping at the
 * width — from the cursor on.
 */
module TextRender {
  import opened Wrappers
  import opened Js
  import opened Lengths
  import opened Cells
  import opened TextBlocks
  import opened TextMeasure

  // ---------------------------------------------------------------------
  // The reference: glyphs and their typewriter layout
  // ---------------------------------------------------------------------

  /** A character and the style it is drawn in. */
  datatype Glyph = Glyph(character: char, style: CellStyle)

  /** The characters of `s`, all in the style `st`. */
  function Styled(s: string, st: CellStyle): (g: seq<Glyph>)
    ensures |g| == |s|
    ensures forall k :: 0 <= k < |s| ==> g[k] == Glyph(s[k], st)
  {
    seq(|s|, k requires 0 <= k < |s| => Glyph(s[k], st))
  }

  /** The characters of some glyphs. */
  function Characters(g: seq<Glyph>): (cs: string)
    ensures |cs| == |g|
    ensures forall k :: 0 <= k < |g| ==> cs[k] == g[k].character
  {
    seq(|g|, k requires 0 <= k < |g| => g[k].character)
  }

  /**
   * The glyphs of a text drawn in the enclosing style `st`: a string in
   * that style, an array item by item, a run in its style over `st`; `None`
   * for a text that is not drawable, a run whose text is a run.
   */
  function Glyphs(t: TextNode, st: CellStyle): Option<seq<Glyph>>
    decreases t, 1, 0
  {
    match t
    case Literal(s) => Some(Styled(s, st))
    case Inlines(items) => GlyphItems(items, 0, st)
    case Run(rs, inner) =>
      match inner
      case Literal(s) => Some(Styled(s, Override(st, rs)))
      case Inlines(items) => GlyphItems(items, 0, Override(st, rs))
      case Run(_, _) => None
  }

  /** The glyphs of `items[k..]`, one item after the other. */
  function GlyphItems(items: seq<TextNode>, k: nat, st: CellStyle): Option<seq<Glyph>>
    requires k <= |items|
    decreases Inlines(items), 0, |items| - k
  {
    if k == |items| then Some([])
    else
      match Glyphs(items[k], st)
      case None => None
      case Some(first) =>
        match GlyphItems(items, k + 1, st)
        case None => None
        case Some(rest) => Some(first + rest)
  }

  /** The slot `n` places after `c`. */
  function AdvanceN(c: Cursor, n: nat, width: nat): Cursor
    decreases n
  {
    if n == 0 then c else AdvanceN(NextCursor(c, width), n - 1, width)
  }

  /** The `n` slots from `c` on all lie on rows of the frame. */
  predicate Fits(c: Cursor, n: nat, f: Frame)
    decreases n
  {
    n == 0 || (c.row < f.height && Fits(NextCursor(c, f.width), n - 1, f))
  }

  /** The writes that lay the glyphs `g` out from `c`, one slot each. */
  function Layout(g: seq<Glyph>, c: Cursor, width: nat): (ps: seq<Placement>)
    ensures |ps| == |g|
  {
    if g == [] then []
    else [Placement(c.row, c.column, Cell(g[0].style, g[0].character, true))] + Layout(g[1..], NextCursor(c, width), width)
  }

  // ---------------------------------------------------------------------
  // Facts about the reference
  // ---------------------------------------------------------------------

  lemma {:induction false} AdvanceNAdd(c: Cursor, a: nat, b: nat, width: nat)
    ensures AdvanceN(c, a + b, width) == AdvanceN(AdvanceN(c, a, width), b, width)
    decreases a
  {
    if a > 0 {
      AdvanceNAdd(NextCursor(c, width), a - 1, b, width);
    }
  }

  lemma {:induction false} FitsSplit(c: Cursor, a: nat, b: nat, f: Frame)
    requires Fits(c, a + b, f)
    ensures Fits(c, a, f) && Fits(AdvanceN(c, a, f.width), b, f)
    decreases a
  {
    if a > 0 {
      FitsSplit(NextCursor(c, f.width), a - 1, b, f);
    }
  }

  lemma {:induction false} LayoutConcat(g1: seq<Glyph>, g2: seq<Glyph>, c: Cursor, width: nat)
    ensures Layout(g1 + g2, c, width) == Layout(g1, c, width) + Layout(g2, AdvanceN(c, |g1|, width), width)
  {
    if g1 == [] {
      assert g1 + g2 == g2;
    } else {
      assert (g1 + g2)[0] == g1[0] && (g1 + g2)[1..] == g1[1..] + g2;
      LayoutConcat(g1[1..], g2, NextCursor(c, width), width);
    }
  }

  /** The `k`-th write of a layout goes to the slot `k` places after its start. */
  lemma {:induction false} LayoutAt(g: seq<Glyph>, c: Cursor, width: nat, k: nat)
    requires k < |g|
    ensures var at := AdvanceN(c, k, width);
      Layout(g, c, width)[k] == Placement(at.row, at.column, Cell(g[k].style, g[k].character, true))
    decreases k
  {
    if k > 0 {
      LayoutAt(g[1..], NextCursor(c, width), width, k - 1);
    }
  }

  lemma CharactersConcat(a: seq<Glyph>, b: seq<Glyph>)
    ensures Characters(a + b) == Characters(a) + Characters(b)
  {
  }

  /** From the top-left corner, slot `n` is row `n / width`, column `n % width`. */
  lemma {:induction false} AdvanceFromOrigin(n: nat, width: nat)
    requires width > 0
    ensures AdvanceN(Cursor(0, 0), n, width) == Cursor(n / width, n % width)
  {
    if n == 0 {
      DivUnique(0, width, 0, 0);
    } else {
      AdvanceFromOrigin(n - 1, width);
      AdvanceNAdd(Cursor(0, 0), n - 1, 1, width);
      var q, r := (n - 1) / width, (n - 1) % width;
      assert n - 1 == q * width + r;
      if r + 1 == width {
        assert n == (q + 1) * width + 0;
        DivUnique(n, width, q + 1, 0);
      } else {
        DivUnique(n, width, q, r + 1);
      }
    }
  }

  lemma {:induction false} FitsWhenRowsFit(c: Cursor, n: nat, f: Frame)
    requires forall k :: 0 <= k < n ==> AdvanceN(c, k, f.width).row < f.height
    ensures Fits(c, n, f)
    decreases n
  {
    if n > 0 {
      assert AdvanceN(c, 0, f.width) == c;
      forall k | 0 <= k < n - 1
        ensures AdvanceN(NextCursor(c, f.width), k, f.width).row < f.height
      {
        assert AdvanceN(c, k + 1, f.width) == AdvanceN(NextCursor(c, f.width), k, f.width);
      }
      FitsWhenRowsFit(NextCursor(c, f.width), n - 1, f);
    }
  }

  lemma RowInFrame(k: nat, height: nat, width: nat)
    requires width > 0 && k < height * width
    ensures k / width < height
  {
    var q := k / width;
    assert k == q * width + k % width;
    MulGap(q, height - 1, width);
    assert (height - 1) * width + width == height * width;
  }

  /** A frame of `height` rows of `width` slots holds `height * width` glyphs from its corner. */
  lemma FitsFromOrigin(n: nat, f: Frame)
    requires f.width > 0 && n <= f.height * f.width
    ensures Fits(Cursor(0, 0), n, f)
  {
    forall k | 0 <= k < n ensures AdvanceN(Cursor(0, 0), k, f.width).row < f.height {
      AdvanceFromOrigin(k, f.width);
      RowInFrame(k, f.height, f.width);
    }
    FitsWhenRowsFit(Cursor(0, 0), n, f);
  }

  /** Distinct glyph indices land in distinct slots. */
  lemma SlotUnique(k: nat, m: nat, width: nat)
    requires width > 0
    ensures k / width == m / width && k % width == m % width ==> k == m
  {
    assert k == (k / width) * width + k % width;
    assert m == (m / width) * width + m % width;
  }

  // ---------------------------------------------------------------------
  // The walk against the reference
  // ---------------------------------------------------------------------

  /**
   * The string loop writes the first `n` characters of `s` as laid out
   * from `at`, and only those, when they fit and either they are all of `s`
   * or the last of them fills the last row: the rest of the string is then
   * dropped without an error.
   */
  lemma {:induction false} WalkCharsFits(s: string, st: CellStyle, at: Cursor, f: Frame, n: nat)
    requires n <= |s| && Fits(at, n, f)
    requires n == |s| || (n > 0 && AdvanceN(at, n, f.width).row >= f.height)
    ensures WalkChars(s, st, at, f) == Walk(Layout(Styled(s[..n], st), at, f.width), AdvanceN(at, n, f.width), false)
  {
    if s == [] {
      assert s[..n] == [];
    } else {
      var next := NextCursor(at, f.width);
      var p := Placement(at.row, at.column, Cell(st, s[0], true));
      assert Layout(Styled(s[..n], st), at, f.width) == [p] + Layout(Styled(s[..n], st)[1..], next, f.width);
      if n == 1 {
        assert Styled(s[..n], st)[1..] == [];
        if |s| > 1 {
          assert next.row == f.height && at.column + 1 == f.width;
        } else {
          assert s[1..] == [];
        }
      } else {
        assert next.row < f.height;
        WalkCharsFits(s[1..], st, next, f, n - 1);
        assert Styled(s[..n], st)[1..] == Styled(s[1..][..n - 1], st);
      }
    }
  }

  /** The string loop throws exactly when it has a character to write below the last row. */
  lemma {:induction false} WalkCharsCrash(s: string, st: CellStyle, at: Cursor, f: Frame)
    ensures WalkChars(s, st, at, f).crashed <==> (s != [] && at.row >= f.height)
  {
    if s != [] && at.row < f.height {
      var next := NextCursor(at, f.width);
      if !(at.column + 1 == f.width && next.row == f.height) {
        WalkCharsCrash(s[1..], st, next, f);
      }
    }
  }

  /** The characters of a run's string, one string loop each, when they fit. */
  lemma {:induction false} WalkCharItemsFits(s: string, st: CellStyle, at: Cursor, f: Frame)
    requires Fits(at, |s|, f)
    ensures WalkCharItems(s, st, at, f) == Walk(Layout(Styled(s, st), at, f.width), AdvanceN(at, |s|, f.width), false)
  {
    if s != [] {
      FitsSplit(at, 1, |s| - 1, f);
      WalkCharsFits(s[..1], st, at, f, 1);
      assert s[..1][..1] == s[..1];
      var next := AdvanceN(at, 1, f.width);
      WalkCharItemsFits(s[1..], st, next, f);
      LayoutConcat(Styled(s[..1], st), Styled(s[1..], st), at, f.width);
      assert Styled(s[..1], st) + Styled(s[1..], st) == Styled(s, st);
      AdvanceNAdd(at, 1, |s| - 1, f.width);
    }
  }

  /** A run's characters up to a cursor that did not throw, then the rest. */
  lemma {:induction false} WalkCharItemsConcat(a: string, b: string, st: CellStyle, at: Cursor, f: Frame)
    requires !WalkCharItems(a, st, at, f).crashed
    ensures WalkCharItems(a + b, st, at, f) == Then(WalkCharItems(a, st, at, f), WalkCharItems(b, st, WalkCharItems(a, st, at, f).at, f))
  {
    if a == [] {
      assert a + b == b;
    } else {
      assert (a + b)[..1] == a[..1] && (a + b)[1..] == a[1..] + b;
      var first := WalkChars(a[..1], st, at, f);
      WalkCharItemsConcat(a[1..], b, st, first.at, f);
    }
  }

  /**
   * A drawable text whose glyphs fit in the frame from `at` is drawn
   * exactly as the typewriter layout of its glyphs, without an error, and
   * leaves the cursor on the slot after the last glyph.
   */
  lemma {:induction false} WalkTextFits(t: TextNode, st: CellStyle, at: Cursor, f: Frame, g: seq<Glyph>)
    requires Glyphs(t, st) == Some(g) && Fits(at, |g|, f)
    ensures WalkText(t, st, at, f) == Walk(Layout(g, at, f.width), AdvanceN(at, |g|, f.width), false)
    decreases t, 1, 0
  {
    match t
    case Literal(s) =>
      assert s[..|s|] == s;
      WalkCharsFits(s, st, at, f, |s|);
    case Inlines(items) =>
      WalkItemsFits(items, 0, st, at, f, g);
    case Run(rs, inner) =>
      match inner
      case Literal(s) => WalkCharItemsFits(s, Override(st, rs), at, f);
      case Inlines(items) => WalkItemsFits(items, 0, Override(st, rs), at, f, g);
  }

  lemma {:induction false} WalkItemsFits(items: seq<TextNode>, k: nat, st: CellStyle, at: Cursor, f: Frame, g: seq<Glyph>)
    requires k <= |items|
    requires GlyphItems(items, k, st) == Some(g) && Fits(at, |g|, f)
    ensures WalkItems(items, k, st, at, f) == Walk(Layout(g, at, f.width), AdvanceN(at, |g|, f.width), false)
    decreases Inlines(items), 0, |items| - k
  {
    if k < |items| {
      var g1 := Glyphs(items[k], st).value;
      var g2 := GlyphItems(items, k + 1, st).value;
      assert g == g1 + g2;
      FitsSplit(at, |g1|, |g2|, f);
      WalkTextFits(items[k], st, at, f, g1);
      var next := AdvanceN(at, |g1|, f.width);
      WalkItemsFits(items, k + 1, st, next, f, g2);
      LayoutConcat(g1, g2, at, f.width);
      AdvanceNAdd(at, |g1|, |g2|, f.width);
    }
  }

  /** A text that is not drawable always throws, wherever it starts. */
  lemma {:induction false} NotDrawableCrashes(t: TextNode, st: CellStyle, at: Cursor, f: Frame)
    requires Glyphs(t, st).None?
    ensures WalkText(t, st, at, f).crashed
    decreases t, 1, 0
  {
    match t
    case Inlines(items) =>
      NotDrawableItemsCrash(items, 0, st, at, f);
    case Run(rs, inner) =>
      if inner.Inlines? {
        NotDrawableItemsCrash(inner.items, 0, Override(st, rs), at, f);
      }
  }

  lemma {:induction false} NotDrawableItemsCrash(items: seq<TextNode>, k: nat, st: CellStyle, at: Cursor, f: Frame)
    requires k <= |items| && GlyphItems(items, k, st).None?
    ensures WalkItems(items, k, st, at, f).crashed
    decreases Inlines(items), 0, |items| - k
  {
    var first := WalkText(items[k], st, at, f);
    if Glyphs(items[k], st).None? {
      NotDrawableCrashes(items[k], st, at, f);
    } else if !first.crashed {
      NotDrawableItemsCrash(items, k + 1, st, first.at, f);
    }
  }

  /**
   * Measuring and drawing agree on the characters: a text that the measure
   * scan can iterate to its end is drawable, and its glyphs are the
   * characters the scan reads.
   */
  lemma {:induction false} IteratedTextIsDrawn(t: TextNode, st: CellStyle)
    ensures IterateText(t).complete ==> Glyphs(t, st).Some? && Characters(Glyphs(t, st).value) == IterateText(t).chars
    decreases t, 1, 0
  {
    match t
    case Literal(s) =>
      assert Characters(Styled(s, st)) == s;
    case Inlines(items) =>
      IteratedItemsAreDrawn(items, 0, st);
    case Run(_, _) =>
  }

  lemma {:induction false} IteratedItemsAreDrawn(items: seq<TextNode>, k: nat, st: CellStyle)
    requires k <= |items|
    ensures IterateItems(items, k).complete ==>
      GlyphItems(items, k, st).Some? && Characters(GlyphItems(items, k, st).value) == IterateItems(items, k).chars
    decreases Inlines(items), 0, |items| - k
  {
    if k < |items| && IterateItems(items, k).complete {
      match items[k] {
        case Literal(s) =>
          assert Characters(Styled(s, st)) == s;
        case Run(rs, inner) =>
          match inner {
            case Literal(s) =>
              assert Characters(Styled(s, Override(st, rs))) == s;
            case Inlines(innerItems) =>
              IteratedItemsAreDrawn(innerItems, 0, Override(st, rs));
            case Run(_, _) =>
          }
        case Inlines(_) =>
      }
      IteratedItemsAreDrawn(items, k + 1, st);
      CharactersConcat(Glyphs(items[k], st).value, GlyphItems(items, k + 1, st).value);
    }
  }

  // ---------------------------------------------------------------------
  // The rendered buffer
  // ---------------------------------------------------------------------

  /** Slot `(i, j)` of `grid` exists and holds `c`. */
  predicate Holds(grid: Grid, i: int, j: int, c: Option<Cell>) {
    0 <= i < |grid| && 0 <= j < |grid[i]| && grid[i][j] == c
  }

  /** From the top-left corner, write `m` of a layout goes to row `m / width`, column `m % width`. */
  lemma LayoutFromOrigin(g: seq<Glyph>, width: nat, m: nat)
    requires width > 0 && m < |g|
    ensures Layout(g, Cursor(0, 0), width)[m] == Placement(m / width, m % width, Cell(g[m].style, g[m].character, true))
  {
    LayoutAt(g, Cursor(0, 0), width, m);
    AdvanceFromOrigin(m, width);
  }

  /** Glyph `k` of a layout from the corner is in row `k / width`, column `k % width`. */
  lemma PaintedGlyph(g: seq<Glyph>, height: nat, width: nat, k: nat)
    requires width > 0 && |g| <= height * width && k < |g|
    ensures Holds(Paint(Blank(height, width), Layout(g, Cursor(0, 0), width)), k / width, k % width, Some(Cell(g[k].style, g[k].character, true)))
  {
    var writes := Layout(g, Cursor(0, 0), width);
    var i, j := k / width, k % width;
    RowInFrame(k, height, width);
    LayoutFromOrigin(g, width, k);
    forall m | k < m < |writes| ensures !Targets(writes[m], i, j) {
      LayoutFromOrigin(g, width, m);
      SlotUnique(k, m, width);
    }
    PaintLastWrite(Blank(height, width), writes, i, j, k);
  }

  /** A slot past the last glyph keeps its hole. */
  lemma PaintedHole(g: seq<Glyph>, height: nat, width: nat, i: nat, j: nat)
    requires width > 0 && i < height && j < width && i * width + j >= |g|
    ensures Holds(Paint(Blank(height, width), Layout(g, Cursor(0, 0), width)), i, j, None)
  {
    var writes := Layout(g, Cursor(0, 0), width);
    forall m | 0 <= m < |writes| ensures !Targets(writes[m], i, j) {
      LayoutFromOrigin(g, width, m);
      SlotUnique(m, i * width + j, width);
      DivUnique(i * width + j, width, i, j);
    }
    PaintUntouched(Blank(height, width), writes, i, j);
  }

  lemma RenderedTextIsLayout(height: nat, width: nat, style: CellStyle, t: TextNode, g: seq<Glyph>)
    requires 0 < height < 4294967296 && 0 < width < 4294967296
    requires Glyphs(t, style) == Some(g) && Fits(Cursor(0, 0), |g|, Frame(height, width))
    ensures RenderedText(Size(Fin(width as real), Fin(height as real)), style, t) ==
      Success(Paint(Blank(height, width), Layout(g, Cursor(0, 0), width)))
  {
    ArrayLengthOfNat(height);
    ArrayLengthOfNat(width);
    WalkTextFits(t, style, Cursor(0, 0), Frame(height, width), g);
  }

  lemma ArrayLengthOfNat(n: nat)
    requires n < 4294967296
    ensures IsArrayLength(Fin(n as real)) && ArrayLength(Fin(n as real)) == n
  {
  }

  /**
   * `TextBlock.render()` on a drawable text whose glyphs fit in its
   * desired size: the buffer holds glyph `k` in row `k / width`, column
   * `k % width`, as a dirty cell in the glyph's style, and every slot past
   * the last glyph is a hole.
   */
  lemma RenderedTextLayout(height: nat, width: nat, style: CellStyle, t: TextNode, g: seq<Glyph>)
    requires 0 < height < 4294967296 && 0 < width < 4294967296
    requires Glyphs(t, style) == Some(g) && |g| <= height * width
    ensures var r := RenderedText(Size(Fin(width as real), Fin(height as real)), style, t);
      r.Success? && |r.value| == height && Rectangular(r.value, width) &&
      (forall k :: 0 <= k < |g| ==> Holds(r.value, k / width, k % width, Some(Cell(g[k].style, g[k].character, true)))) &&
      (forall i, j :: 0 <= i < height && 0 <= j < width && i * width + j >= |g| ==> Holds(r.value, i, j, None))
  {
    FitsFromOrigin(|g|, Frame(height, width));
    RenderedTextIsLayout(height, width, style, t, g);
    PaintedGlyphs(g, height, width);
    PaintedHoles(g, height, width);
  }

  lemma PaintedGlyphs(g: seq<Glyph>, height: nat, width: nat)
    requires width > 0 && |g| <= height * width
    ensures forall k :: 0 <= k < |g| ==>
      Holds(Paint(Blank(height, width), Layout(g, Cursor(0, 0), width)), k / width, k % width, Some(Cell(g[k].style, g[k].character, true)))
  {
    forall k | 0 <= k < |g|
      ensures Holds(Paint(Blank(height, width), Layout(g, Cursor(0, 0), width)), k / width, k % width, Some(Cell(g[k].style, g[k].character, true)))
    {
      PaintedGlyph(g, height, width, k);
    }
  }

  lemma PaintedHoles(g: seq<Glyph>, height: nat, width: nat)
    requires width > 0
    ensures forall i, j :: 0 <= i < height && 0 <= j < width && i * width + j >= |g| ==>
      Holds(Paint(Blank(height, width), Layout(g, Cursor(0, 0), width)), i, j, None)
  {
    forall i, j | 0 <= i < height && 0 <= j < width && i * width + j >= |g|
      ensures Holds(Paint(Blank(height, width), Layout(g, Cursor(0, 0), width)), i, j, None)
    {
      PaintedHole(g, height, width, i, j);
    }
  }

  /**
   * A text that is one string never throws once the buffer has a row: the
   * string loop stops at the end of the last row instead of writing below it.
   */
  lemma StringNeverThrows(desired: Size, style: CellStyle, s: string)
    requires IsArrayLength(desired.height) && ArrayLength(desired.height) > 0 && IsArrayLength(desired.width)
    ensures RenderedText(desired, style, Literal(s)).Success?
  {
    var f := Frame(ArrayLength(desired.height), ArrayLength(desired.width));
    WalkCharsCrash(s, style, Cursor(0, 0), f);
  }

  // ---------------------------------------------------------------------
  // Styles and behaviours at the edges
  // ---------------------------------------------------------------------

  /** The style of a run inside a run: the inner run's fields over the outer one's. */
  function Merge(outer: RunStyle, inner: RunStyle): RunStyle {
    RunStyle(
      if inner.backgroundColor.Some? then inner.backgroundColor else outer.backgroundColor,
      if inner.foregroundColor.Some? then inner.foregroundColor else outer.foregroundColor,
      if inner.bold.Some? then inner.bold else outer.bold,
      if inner.italic.Some? then inner.italic else outer.italic,
      if inner.underline.Some? then inner.underline else outer.underline)
  }

  /**
   * A run that sets nothing keeps the enclosing style, applying a run twice
   * is applying it once, and nested runs apply their merged style.
   */
  lemma OverrideLaws(st: CellStyle, outer: RunStyle, inner: RunStyle)
    ensures Override(st, Inherit) == st
    ensures Override(Override(st, inner), inner) == Override(st, inner)
    ensures Override(Override(st, outer), inner) == Override(st, Merge(outer, inner))
  {
  }

  /** A run nested in a run's array draws its string in the merged style. */
  lemma NestedRuns(st: CellStyle, outer: RunStyle, inner: RunStyle, s: string)
    ensures Glyphs(Run(outer, Inlines([Run(inner, Literal(s))])), st) == Some(Styled(s, Override(st, Merge(outer, inner))))
  {
    OverrideLaws(st, outer, inner);
    var items := [Run(inner, Literal(s))];
    var styled := Styled(s, Override(st, Merge(outer, inner)));
    assert GlyphItems(items, 1, Override(st, outer)) == Some([]);
    assert Glyphs(items[0], Override(st, outer)) == Some(styled);
    assert styled + [] == styled;
  }

  /**
   * A run that only underlines, inside a foreground color, keeps the color;
   * the string after the run is back in the enclosing style.
   */
  lemma RunThenSibling(st: CellStyle, a: string, b: string)
    ensures var underlined := RunStyle(None, None, None, None, Some(true));
      Glyphs(Inlines([Run(underlined, Literal(a)), Literal(b)]), st) == Some(Styled(a, st.(underline := true)) + Styled(b, st))
  {
    var underlined := RunStyle(None, None, None, None, Some(true));
    var items := [Run(underlined, Literal(a)), Literal(b)];
    var g2 := Styled(b, st);
    assert Override(st, underlined) == st.(underline := true);
    assert GlyphItems(items, 2, st) == Some([]);
    assert g2 + [] == g2;
    assert GlyphItems(items, 1, st) == Some(g2);
    assert Glyphs(items[0], st) == Some(Styled(a, st.(underline := true)));
  }

  /** `new Run()` with no options is an empty, style-less run: it draws nothing. */
  lemma EmptyRunDrawsNothing(st: CellStyle)
    ensures Glyphs(NewRun(None), st) == Some([])
  {
  }

  /**
   * Line breaks are not interpreted: `"a\nb"` draws `'\n'` as an ordinary
   * cell between `'a'` and `'b'`.
   */
  lemma LineBreakIsACell(style: CellStyle)
    ensures var r := RenderedText(Size(Fin(5.0), Fin(1.0)), style, Literal("a\nb"));
      r.Success? && Holds(r.value, 0, 0, Some(Cell(style, 'a', true))) &&
      Holds(r.value, 0, 1, Some(Cell(style, '\n', true))) && Holds(r.value, 0, 2, Some(Cell(style, 'b', true))) &&
      Holds(r.value, 0, 3, None)
  {
    var g := Styled("a\nb", style);
    RenderedTextLayout(1, 5, style, Literal("a\nb"), g);
    var r := RenderedText(Size(Fin(5.0), Fin(1.0)), style, Literal("a\nb"));
    assert g[0] == Glyph('a', style) && g[1] == Glyph('\n', style) && g[2] == Glyph('b', style);
    assert Holds(r.value, 0 / 5, 0 % 5, Some(Cell(g[0].style, g[0].character, true)));
    assert Holds(r.value, 1 / 5, 1 % 5, Some(Cell(g[1].style, g[1].character, true)));
    assert Holds(r.value, 2 / 5, 2 % 5, Some(Cell(g[2].style, g[2].character, true)));
    assert 0 * 5 + 3 >= |g|;
  }

  /**
   * A string longer than the frame is cut off silently: `"HelloWorldx"` in
   * 2 rows of 5 writes `"HelloWorld"` and no error.
   */
  lemma LongStringIsClipped(st: CellStyle)
    ensures WalkText(Literal("HelloWorldx"), st, Cursor(0, 0), Frame(2, 5)) ==
      Walk(Layout(Styled("HelloWorld", st), Cursor(0, 0), 5), Cursor(2, 0), false)
  {
    var f := Frame(2, 5);
    FitsFromOrigin(10, f);
    AdvanceFromOrigin(10, 5);
    assert 10 / 5 == 2 && 10 % 5 == 0;
    WalkCharsFits("HelloWorldx", st, Cursor(0, 0), f, 10);
    assert "HelloWorldx"[..10] == "HelloWorld";
  }

  /**
   * Text past a full frame throws: the same characters split over two
   * array items throw a TypeError, and so does a run whose string is too
   * long, since each of its characters is a string loop of its own.
   */
  lemma OverflowThrows(st: CellStyle)
    ensures WalkText(Inlines([Literal("HelloWorld"), Literal("x")]), st, Cursor(0, 0), Frame(2, 5)).crashed
    ensures WalkText(Run(Inherit, Literal("HelloWorldx")), st, Cursor(0, 0), Frame(2, 5)).crashed
  {
    var f := Frame(2, 5);
    FitsFromOrigin(10, f);
    AdvanceFromOrigin(10, 5);
    assert 10 / 5 == 2 && 10 % 5 == 0;
    assert "HelloWorld"[..10] == "HelloWorld";
    WalkCharsFits("HelloWorld", st, Cursor(0, 0), f, 10);
    WalkCharsCrash("x", st, Cursor(2, 0), f);
    var items := [Literal("HelloWorld"), Literal("x")];
    assert WalkItems(items, 1, st, Cursor(2, 0), f).crashed;

    var inherited := Override(st, Inherit);
    WalkCharItemsFits("HelloWorld", inherited, Cursor(0, 0), f);
    assert "HelloWorld" + "x" == "HelloWorldx";
    WalkCharItemsConcat("HelloWorld", "x", inherited, Cursor(0, 0), f);
    WalkCharsCrash("x"[..1], inherited, Cursor(2, 0), f);
  }
}
