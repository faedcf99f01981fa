/**
 * Element (src/element.ts): the base of every UI object. It keeps six
 * validated size properties, measures itself against the space it is
 * offered (margins first, then its measure override, then the min and max
 * clamps), and on arrange records its actual size and allocates the cell
 * buffer it renders into.
 *
 * `Element` is abstract; the one subclass of the core, `TextBlock`
 * (src/text-block.ts), overrides `measureOverride` and `render`. Here both
 * are one class whose `kind` says which overrides apply.
 */
module Elements {
  import opened Wrappers
  import opened Js
  import opened Lengths
  import opened Cells
  import opened TextBlocks

  /** Which class's overrides an element runs. */
  datatype Kind = Base | TextBlock

  /** `HorizontalAlignment`: stored and never read by the layout core. */
  datatype HorizontalAlignment = Left | Center | Right | Stretch

  /** `Thickness`: a margin or border width on each side. */
  datatype Thickness = Thickness(left: real, top: real, right: real, bottom: real)

  /** `{ left: 0, top: 0, right: 0, bottom: 0 }` */
  const NoThickness := Thickness(0.0, 0.0, 0.0, 0.0)

  /** `Rect`: the slot an element is arranged in. */
  datatype Rect = Rect(x: real, y: real, width: Num, height: Num)

  /** The six size properties, as stored. */
  datatype Sizing = Sizing(width: Length, height: Length, minWidth: Length, minHeight: Length, maxWidth: Length, maxHeight: Length)

  /** The size properties of a new element: auto size, no minimum, no maximum. */
  const DefaultSizing := Sizing(Auto, Auto, Number(Fin(0.0)), Number(Fin(0.0)), Number(PosInf), Number(PosInf))

  /** Every property holds a value its setter accepts. */
  ghost predicate Admitted(s: Sizing) {
    Admissible(s.width, SizePolicy) && Admissible(s.height, SizePolicy) &&
    Admissible(s.minWidth, MinPolicy) && Admissible(s.minHeight, MinPolicy) &&
    Admissible(s.maxWidth, MaxPolicy) && Admissible(s.maxHeight, MaxPolicy)
  }

  /**
   * The space left for the content on one axis:
   * `Math.max(available - before - after, 0)`.
   */
  function ContentSpace(available: real, before: real, after: real): (r: real)
    ensures r >= 0.0
    ensures r >= available - before - after
    ensures r == available - before - after || r == 0.0
    ensures before >= 0.0 && after >= 0.0 ==> r <= if available > 0.0 then available else 0.0
  {
    var inner := available - before - after;
    if inner > 0.0 then inner else 0.0
  }

  /**
   * The sequential clamps of `measure` on one axis: raise to the minimum,
   * then lower to the maximum, each with JavaScript's comparisons.
   */
  function Clamp(desired: Num, min: Num, max: Num): (r: Num)
    ensures r == desired || r == min || r == max
    ensures Le(min, desired) && Le(desired, max) ==> r == desired
    ensures Lt(desired, min) && Le(min, max) ==> r == min
    ensures !Lt(desired, min) && Gt(desired, max) ==> r == max
    ensures !desired.NaN? && Le(min, max) ==> Le(min, r) && Le(r, max)
    ensures !desired.NaN? && Lt(max, min) ==> r == max
    ensures max == PosInf ==> r == (if Lt(desired, min) then min else desired)
    ensures desired.NaN? ==> r.NaN?
    ensures min.NaN? && max.NaN? ==> r == desired
  {
    var raised := if Lt(desired, min) then min else desired;
    if Gt(raised, max) then max else raised
  }

  /** The default `measureOverride`: the width and height properties, resolved. */
  function BaseMeasure(available: Extent, s: Sizing): Size {
    Size(Resolve(available.width, s.width), Resolve(available.height, s.height))
  }

  /** The measure override an element of kind `kind` runs. */
  function MeasureOverride(kind: Kind, available: Extent, s: Sizing, text: TextNode): Result<Size, JsError> {
    match kind
    case Base => Success(BaseMeasure(available, s))
    case TextBlock => MeasureText(available, s.width, s.height, text)
  }

  /** The space left for the content once the margin is taken off. */
  function ContentExtent(available: Extent, margin: Thickness): Extent {
    Extent(ContentSpace(available.width, margin.left, margin.right),
           ContentSpace(available.height, margin.top, margin.bottom))
  }

  /**
   * The size `measure(available)` stores in `desiredSize`, or the error
   * the measure override throws.
   */
  function Desired(kind: Kind, s: Sizing, margin: Thickness, text: TextNode, available: Extent): Result<Size, JsError> {
    var content := ContentExtent(available, margin);
    var measured := MeasureOverride(kind, content, s, text);
    if measured.Failure? then Failure(measured.error)
    else
      Success(Size(
        Clamp(measured.value.width, Resolve(content.width, s.minWidth), Resolve(content.width, s.maxWidth)),
        Clamp(measured.value.height, Resolve(content.height, s.minHeight), Resolve(content.height, s.maxHeight))))
  }

  /** The error `arrange` throws, if any: the buffer's allocation, then the render. */
  function ArrangeOutcome(kind: Kind, finalRect: Rect, desired: Size, style: CellStyle, text: TextNode): Outcome<JsError> {
    if !IsArrayLength(finalRect.height) then Fail(RangeError)
    else if ArrayLength(finalRect.height) > 0 && !IsArrayLength(finalRect.width) then Fail(RangeError)
    else if kind == TextBlock && RenderedText(desired, style, text).Failure? then Fail(RenderedText(desired, style, text).error)
    else Pass
  }

  /** The dimensions of `new Array(height)` filled with rows `new Array(width)`. */
  function BufferShape(finalRect: Rect): (shape: (nat, nat))
    requires IsArrayLength(finalRect.height)
    requires ArrayLength(finalRect.height) > 0 ==> IsArrayLength(finalRect.width)
  {
    var height := ArrayLength(finalRect.height);
    (height, if height > 0 then ArrayLength(finalRect.width) else 0)
  }

  class Element {
    /** Which overrides this element runs. */
    const kind: Kind

    var height: Length
    var minHeight: Length
    var maxHeight: Length
    var width: Length
    var minWidth: Length
    var maxWidth: Length
    var horizontalAlignment: HorizontalAlignment
    var margin: Thickness
    var borderThickness: Thickness
    var desiredSize: Size
    var actualHeight: Num
    var actualWidth: Num
    var backgroundColor: Color
    var renderedBuffer: array2<Option<Cell>>

    /** The public fields a `TextBlock` adds; an element of kind `Base` never reads them. */
    var text: TextNode
    var foregroundColor: Color
    var bold: bool
    var italic: bool
    var underline: bool

    /** The six size properties. */
    function Sizes(): Sizing
      reads this
    {
      Sizing(width, height, minWidth, minHeight, maxWidth, maxHeight)
    }

    /** The style a text block starts rendering with. */
    function OwnStyle(): CellStyle
      reads this
    {
      CellStyle(backgroundColor, foregroundColor, bold, italic, underline)
    }

    /** Every size property holds a value its setter accepts. */
    ghost predicate Valid()
      reads this
    {
      Admitted(Sizes())
    }

    /** A new element with the field initialisers of `Element` and `TextBlock`. */
    constructor (kind: Kind)
      ensures this.kind == kind && Valid()
      ensures Sizes() == DefaultSizing
      ensures horizontalAlignment == Stretch && margin == NoThickness && borderThickness == NoThickness
      ensures desiredSize == Size(Fin(0.0), Fin(0.0)) && actualWidth == Fin(0.0) && actualHeight == Fin(0.0)
      ensures backgroundColor == None && fresh(renderedBuffer) && Snapshot(renderedBuffer) == []
      ensures text == Literal("") && OwnStyle() == CellStyle(None, None, false, false, false)
    {
      this.kind := kind;
      height := Auto;
      minHeight := Number(Fin(0.0));
      maxHeight := Number(PosInf);
      width := Auto;
      minWidth := Number(Fin(0.0));
      maxWidth := Number(PosInf);
      horizontalAlignment := Stretch;
      margin := NoThickness;
      borderThickness := NoThickness;
      desiredSize := Size(Fin(0.0), Fin(0.0));
      actualHeight := Fin(0.0);
      actualWidth := Fin(0.0);
      backgroundColor := None;
      renderedBuffer := new Option<Cell>[0, 0];
      text := Literal("");
      foregroundColor := None;
      bold := false;
      italic := false;
      underline := false;
    }

    /** `set height(value)`: stored only when `Ensure.length` passes it. */
    method SetHeight(value: Length) returns (r: Outcome<ValidationError>)
      modifies this`height
      ensures r == Ensure("height", value, SizePolicy)
      ensures height == if r.Pass? then value else old(height)
      ensures old(Valid()) ==> Valid()
    {
      r := Ensure("height", value, SizePolicy);
      if r.Pass? {
        height := value;
      }
    }

    /** `set minHeight(value)` */
    method SetMinHeight(value: Length) returns (r: Outcome<ValidationError>)
      modifies this`minHeight
      ensures r == Ensure("minHeight", value, MinPolicy)
      ensures minHeight == if r.Pass? then value else old(minHeight)
      ensures old(Valid()) ==> Valid()
    {
      r := Ensure("minHeight", value, MinPolicy);
      if r.Pass? {
        minHeight := value;
      }
    }

    /** `set maxHeight(value)` */
    method SetMaxHeight(value: Length) returns (r: Outcome<ValidationError>)
      modifies this`maxHeight
      ensures r == Ensure("maxHeight", value, MaxPolicy)
      ensures maxHeight == if r.Pass? then value else old(maxHeight)
      ensures old(Valid()) ==> Valid()
    {
      r := Ensure("maxHeight", value, MaxPolicy);
      if r.Pass? {
        maxHeight := value;
      }
    }

    /** `set width(value)` */
    method SetWidth(value: Length) returns (r: Outcome<ValidationError>)
      modifies this`width
      ensures r == Ensure("width", value, SizePolicy)
      ensures width == if r.Pass? then value else old(width)
      ensures old(Valid()) ==> Valid()
    {
      r := Ensure("width", value, SizePolicy);
      if r.Pass? {
        width := value;
      }
    }

    /** `set minWidth(value)` */
    method SetMinWidth(value: Length) returns (r: Outcome<ValidationError>)
      modifies this`minWidth
      ensures r == Ensure("minWidth", value, MinPolicy)
      ensures minWidth == if r.Pass? then value else old(minWidth)
      ensures old(Valid()) ==> Valid()
    {
      r := Ensure("minWidth", value, MinPolicy);
      if r.Pass? {
        minWidth := value;
      }
    }

    /** `set maxWidth(value)` */
    method SetMaxWidth(value: Length) returns (r: Outcome<ValidationError>)
      modifies this`maxWidth
      ensures r == Ensure("maxWidth", value, MaxPolicy)
      ensures maxWidth == if r.Pass? then value else old(maxWidth)
      ensures old(Valid()) ==> Valid()
    {
      r := Ensure("maxWidth", value, MaxPolicy);
      if r.Pass? {
        maxWidth := value;
      }
    }

    /**
     * `measure(availableSize)`: take the margin off, ask the measure
     * override, then clamp each axis to its minimum and maximum; a throw
     * from the override leaves `desiredSize` as it was.
     */
    method Measure(available: Extent) returns (r: Outcome<JsError>)
      modifies this`desiredSize
      ensures var spec := Desired(kind, Sizes(), margin, text, available);
        (r.Pass? <==> spec.Success?) &&
        (r.Fail? ==> r.error == spec.error) &&
        desiredSize == if spec.Success? then spec.value else old(desiredSize)
    {
      var content := Extent(
        ContentSpace(available.width, margin.left, margin.right),
        ContentSpace(available.height, margin.top, margin.bottom));
      var measured: Result<Size, JsError>;
      if kind == TextBlock {
        measured := MeasureTextOverride(content, width, height, text);
      } else {
        measured := Success(Size(Resolve(content.width, width), Resolve(content.height, height)));
      }
      if measured.Failure? {
        return Fail(measured.error);
      }
      var desired := measured.value;

      var minW := Resolve(content.width, minWidth);
      if Lt(desired.width, minW) {
        desired := desired.(width := minW);
      }
      var minH := Resolve(content.height, minHeight);
      if Lt(desired.height, minH) {
        desired := desired.(height := minH);
      }
      var maxW := Resolve(content.width, maxWidth);
      if Gt(desired.width, maxW) {
        desired := desired.(width := maxW);
      }
      var maxH := Resolve(content.height, maxHeight);
      if Gt(desired.height, maxH) {
        desired := desired.(height := maxH);
      }
      desiredSize := desired;
      return Pass;
    }

    /**
     * `arrange(finalRect)`: record the actual size, allocate a buffer of
     * `finalRect.height` rows of `finalRect.width` slots and render into it,
     * then keep that buffer. A text block's `render()` ignores the buffer it
     * is given and returns a grid of its own, which is dropped, so the kept
     * buffer is blank for every kind; only a throw from it matters.
     */
    method Arrange(finalRect: Rect) returns (r: Outcome<JsError>)
      modifies this`actualWidth, this`actualHeight, this`renderedBuffer
      ensures actualWidth == finalRect.width && actualHeight == finalRect.height
      ensures r == ArrangeOutcome(kind, finalRect, desiredSize, OwnStyle(), text)
      ensures r.Fail? ==> renderedBuffer == old(renderedBuffer)
      ensures r.Pass? ==>
        (fresh(renderedBuffer) &&
         Snapshot(renderedBuffer) == Blank(BufferShape(finalRect).0, BufferShape(finalRect).1))
    {
      // arrangeOverride returns the rect it is given
      actualWidth := finalRect.width;
      actualHeight := finalRect.height;

      if !IsArrayLength(finalRect.height) {
        return Fail(RangeError);
      }
      var rows := ArrayLength(finalRect.height);
      var columns := 0;
      if rows > 0 {
        if !IsArrayLength(finalRect.width) {
          return Fail(RangeError);
        }
        columns := ArrayLength(finalRect.width);
      }
      var buffer := NewGrid(rows, columns);

      if kind == TextBlock {
        var own := RenderTextBlock(desiredSize, OwnStyle(), text);
        if own.Failure? {
          return Fail(own.error);
        }
      }

      renderedBuffer := buffer;
      return Pass;
    }
  }

  /**
   * The terminal's render pass over its child (src/terminal.ts:15-25):
   * measure with the terminal's columns and rows, then arrange at the
   * origin with the desired size. Writing the buffer to the screen is
   * output and not part of this model.
   */
  method RenderPass(e: Element, columns: real, rows: real) returns (r: Outcome<JsError>)
    modifies e`desiredSize, e`actualWidth, e`actualHeight, e`renderedBuffer
    ensures var spec := Desired(e.kind, e.Sizes(), e.margin, e.text, Extent(columns, rows));
      (spec.Failure? ==> r == Fail(spec.error) && e.desiredSize == old(e.desiredSize)) &&
      (spec.Success? ==>
        (e.desiredSize == spec.value &&
         e.actualWidth == spec.value.width && e.actualHeight == spec.value.height &&
         r == ArrangeOutcome(e.kind, Rect(0.0, 0.0, spec.value.width, spec.value.height), spec.value, e.OwnStyle(), e.text)))
  {
    r := e.Measure(Extent(columns, rows));
    if r.Fail? {
      return;
    }
    r := e.Arrange(Rect(0.0, 0.0, e.desiredSize.width, e.desiredSize.height));
  }
}
