/**
 * Properties of an element's measure and arrange passes
 * (src/element.ts:221-276) over the functions that specify them.
 */
module ElementLayout {
  import opened Wrappers
  import opened Js
  import opened Lengths
  import opened Cells
  import opened TextBlocks
  import opened TextMeasure
  import opened TextRender
  import opened Elements

  /**
   * An element with the default properties and no margin wants all the
   * space it is offered, whatever its text.
   */
  lemma DefaultElementFillsSpace(text: TextNode, columns: real, rows: real)
    requires columns >= 0.0 && rows >= 0.0
    ensures Desired(Base, DefaultSizing, NoThickness, text, Extent(columns, rows)) == Success(Size(Fin(columns), Fin(rows)))
  {
    ResolveAuto(columns);
    ResolveAuto(rows);
  }

  /**
   * The margin is taken off before the content is measured: a default
   * element wants the space left inside its margin, and none when the
   * margin takes all of it.
   */
  lemma MarginIsTakenOff(text: TextNode, available: Extent, margin: Thickness)
    ensures var d := Desired(Base, DefaultSizing, margin, text, available);
      var inside := ContentExtent(available, margin);
      d == Success(Size(Fin(inside.width), Fin(inside.height))) &&
      (available.width - margin.left - margin.right <= 0.0 ==> d.value.width == Fin(0.0))
  {
    var inside := ContentExtent(available, margin);
    ResolveAuto(inside.width);
    ResolveAuto(inside.height);
  }

  /**
   * The min and max properties bound what the element wants, on each axis:
   * when the override's size is a number and the minimum is not above the
   * maximum, the desired size lies between them; when the minimum exceeds
   * the maximum, the maximum wins.
   */
  lemma DesiredWithinBounds(kind: Kind, s: Sizing, margin: Thickness, text: TextNode, available: Extent)
    ensures var d := Desired(kind, s, margin, text, available);
      var inside := ContentExtent(available, margin);
      var measured := MeasureOverride(kind, inside, s, text);
      d.Success? ==>
        measured.Success? &&
        WithinBounds(measured.value.width, d.value.width,
                     Resolve(inside.width, s.minWidth), Resolve(inside.width, s.maxWidth)) &&
        WithinBounds(measured.value.height, d.value.height,
                     Resolve(inside.height, s.minHeight), Resolve(inside.height, s.maxHeight))
  {
  }

  /**
   * What the setters' validation (`Element.Valid`) guarantees when measuring
   * with a non-negative space: every property stored as a number or as
   * `'auto'` resolves to a non-negative number, and only a maximum may
   * resolve to +Infinity. Percentage strings are not covered: see
   * `Lengths.NegativePercentAdmitted` and `Lengths.UnparsablePercentAdmitted`.
   */
  lemma AdmittedSizingResolves(s: Sizing, available: Extent)
    requires Admitted(s) && available.width >= 0.0 && available.height >= 0.0
    ensures NumberOrAuto(s.width) ==> ResolvesInRange(available.width, s.width, false)
    ensures NumberOrAuto(s.height) ==> ResolvesInRange(available.height, s.height, false)
    ensures NumberOrAuto(s.minWidth) ==> ResolvesInRange(available.width, s.minWidth, false)
    ensures NumberOrAuto(s.minHeight) ==> ResolvesInRange(available.height, s.minHeight, false)
    ensures NumberOrAuto(s.maxWidth) ==> ResolvesInRange(available.width, s.maxWidth, true)
    ensures NumberOrAuto(s.maxHeight) ==> ResolvesInRange(available.height, s.maxHeight, true)
  {
    if NumberOrAuto(s.width) { AdmittedResolves(available.width, s.width, SizePolicy); }
    if NumberOrAuto(s.height) { AdmittedResolves(available.height, s.height, SizePolicy); }
    if NumberOrAuto(s.minWidth) { AdmittedResolves(available.width, s.minWidth, MinPolicy); }
    if NumberOrAuto(s.minHeight) { AdmittedResolves(available.height, s.minHeight, MinPolicy); }
    if NumberOrAuto(s.maxWidth) { AdmittedResolves(available.width, s.maxWidth, MaxPolicy); }
    if NumberOrAuto(s.maxHeight) { AdmittedResolves(available.height, s.maxHeight, MaxPolicy); }
  }

  predicate NumberOrAuto(v: Length) {
    v.Number? || v == Auto
  }

  /** `v` resolves to a non-negative number, or to +Infinity when `allowInfinity`. */
  predicate ResolvesInRange(available: real, v: Length, allowInfinity: bool) {
    var r := Resolve(available, v);
    (r.Fin? && r.value >= 0.0) || (r.PosInf? && allowInfinity)
  }

  /** The clamped size `r` of a measured size `m` respects the resolved bounds `lo` and `hi`. */
  predicate WithinBounds(m: Num, r: Num, lo: Num, hi: Num) {
    (!m.NaN? && Le(lo, hi) ==> Le(lo, r) && Le(r, hi)) &&
    (!m.NaN? && Lt(hi, lo) ==> r == hi)
  }

  /**
   * An auto-sized text block clamps nothing: with the default properties
   * and no margin it wants exactly what its measure override reports.
   */
  lemma DefaultTextBlockIsMeasured(text: TextNode, columns: real, rows: real)
    requires columns >= 0.0 && rows >= 0.0
    ensures Desired(TextBlock, DefaultSizing, NoThickness, text, Extent(columns, rows)) ==
      MeasureText(Extent(columns, rows), Auto, Auto, text)
  {
    MeasureTextShape(Extent(columns, rows), Auto, Auto, text);
    var m := MeasureText(Extent(columns, rows), Auto, Auto, text);
    if m.Success? {
      assert Clamp(m.value.width, Fin(0.0), PosInf) == m.value.width;
      assert Clamp(m.value.height, Fin(0.0), PosInf) == m.value.height;
    }
  }

  /** A default text block reading `"Hello, World"` in an 80 by 24 terminal wants 12 by 1. */
  lemma HelloWorldTextBlock()
    ensures Desired(TextBlock, DefaultSizing, NoThickness, Literal("Hello, World"), Extent(80.0, 24.0)) ==
      Success(Size(Fin(12.0), Fin(1.0)))
  {
    DefaultTextBlockIsMeasured(Literal("Hello, World"), 80.0, 24.0);
    HelloWorldSize(24.0);
  }

  /**
   * A measure pass fails only for a text block, and only with the
   * TypeError of a text that cannot be iterated to its end.
   */
  lemma MeasureFailure(kind: Kind, s: Sizing, margin: Thickness, text: TextNode, available: Extent)
    ensures var d := Desired(kind, s, margin, text, available);
      d.Failure? ==> kind == TextBlock && d.error == TypeError && !IterateText(text).complete
  {
    var inside := ContentExtent(available, margin);
    if kind == TextBlock {
      MeasureTextShape(inside, s.width, s.height, text);
    }
  }

  /**
   * Arranging an element that does not render text throws exactly when
   * the buffer cannot be allocated: a row count that is not an array
   * length, or, with at least one row, a column count that is not.
   */
  lemma BaseArrange(finalRect: Rect, desired: Size, style: CellStyle, text: TextNode)
    ensures ArrangeOutcome(Base, finalRect, desired, style, text).Pass? <==>
      (IsArrayLength(finalRect.height) &&
       (ArrayLength(finalRect.height) > 0 ==> IsArrayLength(finalRect.width)))
  {
  }

  /**
   * A text block whose text is one string does not throw on arrange when
   * its rect and its desired size are whole numbers of cells with at least
   * one row.
   */
  lemma StringTextBlockArranges(finalRect: Rect, desired: Size, style: CellStyle, s: string)
    requires IsArrayLength(finalRect.height) && IsArrayLength(finalRect.width)
    requires IsArrayLength(desired.height) && ArrayLength(desired.height) > 0 && IsArrayLength(desired.width)
    ensures ArrangeOutcome(TextBlock, finalRect, desired, style, Literal(s)) == Pass
  {
    StringNeverThrows(desired, style, s);
  }
}
