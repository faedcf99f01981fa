# Layout core of a terminal UI toolkit

This project models in Dafny the layout core of `tui`, a TypeScript toolkit
that draws user interfaces into a terminal as a grid of character cells. It
also proves properties of that model.

- **`Element`** (src/element.ts) is the base of every UI object. It keeps six
  size properties, each validated when it is set (`Ensure.length`). Measuring
  takes the margin off the offered space, asks the element's measure override
  for a size, and clamps each axis between its minimum and its maximum.
  Arranging records the actual size, allocates a buffer of cells and renders
  into it.
- **`TextBlock`** (src/text-block.ts) is the one element of the core that
  draws something.
  - Its text is a string, a `Run` (a styled piece of text), or an array of
    these.
  - Measuring flows the characters into lines: a line ends at a `'\n'` or when
    it fills the available width.
  - Rendering writes the characters one cell after another, wrapping at the
    end of each row of its desired size.
- **`Event`** (src/event.ts) is an ordered set of handlers that `invoke` calls
  one after the other.

The files are:

| file | module | what it holds |
|---|---|---|
| `wrappers.dfy` | `Wrappers` | `Option`, `Result`, and `Outcome` (a call that returns or throws) |
| `js.dfy` | `Js` | JavaScript numbers: NaN, ±Infinity, finite values as reals, comparisons, `*`, array lengths and the part of `Number.parseFloat` that reads a decimal prefix |
| `lengths.dfy` | `Lengths` | `Length`, `Ensure.length`, and the resolution of a length against the available space (`computeWidth`/`computeHeight`) |
| `cells.dfy` | `Cells` | `CellStyle`, `Cell`, and the cell buffer, both as a value (`Grid`) and as an `array2` |
| `text_block.dfy` | `TextBlocks` | text nodes and `Run`, `iterateText`, the measure scan of `TextBlock.measureOverride`, and `renderInline`/`render` over an `array2` |
| `text_measure.dfy` | `TextMeasure` | what the measure scan computes: shape, bounds, widest line and line count, wrapped height |
| `text_render.dfy` | `TextRender` | what rendering draws: the typewriter layout of the glyphs, clipping and throwing, and the laws of run styles |
| `element.dfy` | `Elements` | the class `Element` with its setters, `measure` and `arrange`, plus the terminal's render pass |
| `element_layout.dfy` | `ElementLayout` | properties of measuring and arranging whole elements |
| `event.dfy` | `Events` | the class `Event` |

How the model represents the source:

- **Numbers.** JavaScript numbers are `Js.Num`: `NaN`, `PosInf`, `NegInf`, or
  a finite value held as a real. Every comparison follows JavaScript, so any
  comparison with NaN is false.
- **Thrown errors.** A call that may throw returns a `Result` or an
  `Outcome`.
  - `Ensure.length` throws an `Error` whose message names the property and
    the broken rule; the model returns both.
  - Allocating an array whose length is not a whole number in [0, 2^32)
    throws a `RangeError`.
  - Writing into a row that does not exist (`buffer[row]` is `undefined`)
    throws a `TypeError`.
- **The buffer.** The cell buffer is an `array2<Option<Cell>>`. `None` is a
  slot that `new Array(n)` left empty.
- **Specifying `renderInline`.** `renderInline` is specified by a function
  that returns the list of writes it makes, where it stops and whether it
  threw.
- **Specifying the measure scan.** The scan of `measureOverride` is a fold
  over the characters that `iterateText` yields.
- **Two classes in one.** `Element` and `TextBlock` are one class. A constant
  `kind` picks the overrides.

The model reproduces these behaviours of the code as they are written:

- An auto height counts one more line after the last character. Even an
  empty text is one line high.
- `'\r'` is skipped when measuring but drawn as a cell when rendering. So is
  `'\n'`: rendering does not break lines.
- When a string reaches the end of the last row, the rest of that string is
  dropped. A later non-empty string or array item then writes below the
  buffer and throws; an empty one writes nothing and does not throw. A `Run`
  whose text is one string renders character by character, so it throws
  too.
- The percent pattern of `Ensure.length` is not anchored, so validation
  admits strings such as `'-5%'` and `'x1%'`. They resolve to a negative
  size and to NaN. Only lengths stored as numbers or `'auto'` are kept
  non-negative and not NaN by validation.
- `TextBlock.render()` ignores the buffer that `arrange` passes it and fills
  a buffer of its own, of its desired size. `arrange` discards that buffer
  and keeps the blank one. Only an error thrown by `render()` is visible.

## Model

| member | source | states |
|---|---|---|
| Js.Mul | src/element.ts:206 | The product of two finite numbers is their product. The result is NaN exactly when an operand is NaN or when an infinity meets a zero. |
| Js.ArrayLength | src/element.ts:226-229 | The length an allowed `new Array(n)` gets is `n` itself. |
| Js.ParseFloatOfNumeral | src/element.ts:206 | `Number.parseFloat` of a decimal numeral followed by a non-numeric rest (such as `"%"`) is the numeral's value. |
| Js.ParseFloatOfDigits | src/element.ts:206 | The same for any non-empty run of digits, leading zeros included: it reads as the value of its digits. |
| Js.ParseFloatOfNegativeDigits | src/element.ts:206 | A minus sign before such a run reads as the negated value. |
| Js.ParseFloatOfNonNumeric | src/element.ts:206 | A string that starts with a character no literal can start with reads as NaN. |
| Lengths.MatchesPercentPattern | src/element.ts:50 | The unanchored pattern `/\d+\%/` matches exactly when some digit is immediately followed by `'%'`. |
| Lengths.Ensure | src/element.ts:29-54 | Validation passes exactly for admissible values: a non-negative finite number; `+Infinity` where the setter allows it; `'auto'` where the setter allows it; a string with a digit before `'%'`. A failure names the property. |
| Lengths.NumberRules | src/element.ts:30-41 | Checks run in order: NaN first, then infinity when it is not allowed, then a negative value. So `-Infinity` is reported as Infinity where infinity is refused, and as negative where it is allowed. Every non-negative finite number passes. |
| Lengths.SetterPolicies | src/element.ts:66-119 | `width`/`height` take `'auto'` but not Infinity. `minWidth`/`minHeight` take neither. `maxWidth`/`maxHeight` take Infinity but not `'auto'`. Any other string passes exactly when it matches the percent pattern. |
| Lengths.Percentage | src/element.ts:206 | A finite percentage `x` of the available space is `available * x / 100`. |
| Lengths.ResolveNumber | src/element.ts:197-200 | A number resolves to itself, whatever space is available. |
| Lengths.ResolveAuto | src/element.ts:189-204 | `'auto'` resolves to all the available space. |
| Lengths.ResolvePercent | src/element.ts:206 | `"p%"` resolves to `p` percent of the available space. |
| Lengths.ResolveDigitsPercent | src/element.ts:206 | Any run of digits followed by `'%'` resolves to that many hundredths of the available space. |
| Lengths.PercentAdmitted | src/element.ts:50-52 | Every `"p%"` is accepted by every setter. |
| Lengths.DigitsPercentAdmitted | src/element.ts:50-52 | Any run of digits followed by `'%'` is accepted by every setter. |
| Lengths.AdmittedResolves | src/element.ts:189-206 | An admitted number, or `'auto'` in a non-negative space, resolves to a non-negative number, or to +Infinity only where the setter admits Infinity. |
| Lengths.NegativePercentAdmitted | src/element.ts:50-52 | `'-5%'` passes validation and resolves to minus five hundredths of the available space. |
| Lengths.UnparsablePercentAdmitted | src/element.ts:50-52 | `'x1%'` passes validation and resolves to NaN. |
| Cells.Blank | src/element.ts:226-229 | A new buffer has `height` rows of `width` empty slots. |
| Cells.Place | src/text-block.ts:116-120 | One assignment puts its cell in its slot and leaves every other slot and every row length unchanged. |
| Cells.Paint | src/text-block.ts:115-130 | A sequence of writes keeps the buffer's shape. |
| Cells.PaintConcat | src/text-block.ts:110-113 | Writing two batches one after the other is writing their concatenation. Consecutive items of a text compose. |
| Cells.PaintUntouched | src/text-block.ts:116-120 | A slot that no write aims at keeps its old content. |
| Cells.PaintLastWrite | src/text-block.ts:116-120 | A slot holds the cell of the last write aimed at it. |
| Cells.NewGrid | src/element.ts:226-229 | Allocates a fresh `height` × `width` array that holds the blank buffer. |
| Cells.Put | src/text-block.ts:116-120 | An array assignment changes the buffer exactly as one write. |
| TextBlocks.MeasureTextOverride | src/text-block.ts:37-107 | The measure loop returns exactly the scan specification `MeasureText`, including the TypeError of a text that cannot be iterated. |
| TextBlocks.ScanChar | src/text-block.ts:51-85 | One pass of the measure loop updates the line, the width, the height and the width flag exactly as one step of the scan, and says whether the loop stops there. |
| TextBlocks.RenderString | src/text-block.ts:114-130 | The string loop leaves the array as the buffer painted with its walk's writes, and returns its walk's cursor or its throw. |
| TextBlocks.RenderInline | src/text-block.ts:109-160 | `renderInline` on any text node does the same for the walk of the whole node. |
| TextBlocks.RenderItems | src/text-block.ts:110-113 | An array of items is rendered item after item, each from the cursor the previous one left. |
| TextBlocks.RenderCharItems | src/text-block.ts:154-156 | A run whose text is a string renders each character as a string of its own. |
| TextBlocks.RenderTextBlock | src/text-block.ts:162-177 | `render()` allocates a fresh buffer of the desired size. It returns exactly the specified grid, or the error the specification names. |
| TextMeasure.ScanStepShaped | src/text-block.ts:50-85 | One character keeps the scan invariant: a fixed axis keeps its size; the auto width stays between 0 and the available width; an auto height stays a whole count. |
| TextMeasure.ScanFromShaped | src/text-block.ts:50-86 | The whole loop keeps that invariant. |
| TextMeasure.FinishShaped | src/text-block.ts:88-103 | The closing steps turn the invariant into the bounds of the result. |
| TextMeasure.MeasureTextShape | src/text-block.ts:37-107 | With no auto axis the measure is the resolved size. It fails only with a TypeError, and only for a text that cannot be iterated to its end. A fixed axis keeps its value. An auto width is finite and within the available width, and whole when that width is. An auto height is a whole number of at least one. |
| TextMeasure.ScanNoWrap | src/text-block.ts:50-86 | When every line is shorter than the available width, the scan ends with the widest line's length as its width and the number of line breaks as its height. |
| TextMeasure.MeasureNoWrap | src/text-block.ts:42-103 | With auto width and height, a text whose lines all fit measures as its widest line by its number of lines. |
| TextMeasure.HelloWorldSize | src/text-block.ts:37-107 | `"Hello, World"` at 80 columns measures 12 by 1. |
| TextMeasure.TwoLinesSize | src/text-block.ts:55-98 | Two lines without line breaks, each shorter than the available width, joined by `'\n'` measure as the longer line by 2. |
| TextMeasure.EmptyTextSize | src/text-block.ts:88-98 | The empty text measures 0 by 1. |
| TextMeasure.ScanWrapPlain | src/text-block.ts:70-85 | At a fixed width `w`, a string without line breaks wraps after every `w` characters. |
| TextMeasure.MeasureFixedWidth | src/text-block.ts:70-98 | With width `w` and an auto height, a string of `n` characters without line breaks is `n / w + 1` rows high, provided the available height is not a whole count below `n / w` (so no wrap finds the height at it). |
| TextMeasure.MeasureFixedWidthStops | src/text-block.ts:70-98 | When the available height is a whole count `k` and the string has at least `(k + 1) * w` characters, the scan stops at the wrap that finds the height at `k`, and the text is `k + 1` rows high. |
| TextMeasure.HelloWorldWrapped | src/text-block.ts:70-98 | `"HelloWorld"` at width 5, with at least 2 rows available, is 3 rows high: two full rows and an empty one. |
| TextMeasure.HelloWorldHelloStops | src/text-block.ts:77-79 | `"HelloWorldHello"` at width 5 with 2 rows available stops at its third wrap and is 3 rows high, not 4. |
| TextRender.WalkCharsFits | src/text-block.ts:114-130 | The string loop writes the first characters in order as a typewriter layout, without throwing, as long as they fit. A string that reaches the end of the last row is cut there. |
| TextRender.WalkCharsCrash | src/text-block.ts:115-128 | The string loop throws exactly when it has a character to write and its row is below the buffer. |
| TextRender.WalkCharItemsFits | src/text-block.ts:154-156 | A run's string drawn character by character is the same typewriter layout, when it fits. |
| TextRender.WalkTextFits | src/text-block.ts:109-160 | A drawable text whose glyphs fit from the cursor is drawn exactly as the typewriter layout of its glyphs. Nothing is thrown, and the cursor ends on the slot after the last glyph. |
| TextRender.WalkItemsFits | src/text-block.ts:110-113 | The same holds for an array of items from any index. |
| TextRender.NotDrawableCrashes | src/text-block.ts:154-156 | A run whose text is itself a run (not an array or a string) always throws. |
| TextRender.NotDrawableItemsCrash | src/text-block.ts:110-113 | An array that holds such a run throws too. |
| TextRender.IteratedTextIsDrawn | src/text-block.ts:5-17 | Measuring and drawing read the same characters. A text that `iterateText` walks to its end is drawable, and its glyphs are the characters iterated. |
| TextRender.IteratedItemsAreDrawn | src/text-block.ts:9-15 | The same holds for the items of an array. |
| TextRender.RenderedTextIsLayout | src/text-block.ts:162-177 | `render()` of a drawable text that fits is the blank buffer painted with the glyphs' layout. |
| TextRender.RenderedTextLayout | src/text-block.ts:162-177 | `render()` of a drawable text with at most height × width glyphs succeeds with a buffer of the desired shape. Glyph `k` is in row `k / width`, column `k % width`, as a dirty cell in its own style. Every later slot stays empty. |
| TextRender.StringNeverThrows | src/text-block.ts:114-130 | A text that is one string never throws once the buffer has a row. |
| TextRender.OverrideLaws | src/text-block.ts:132-153 | A run that sets nothing keeps the enclosing style. Applying a run twice is applying it once. Nested runs apply their merged style, with the inner run's settings winning. |
| TextRender.NestedRuns | src/text-block.ts:131-156 | A run inside a run draws its string in the merged style. |
| TextRender.RunThenSibling | src/text-block.ts:109-156 | A run changes the style only of its own text. The string after it is drawn in the enclosing style. |
| TextRender.EmptyRunDrawsNothing | src/text-block.ts:233-249 | `new Run()` without options sets no style and draws nothing. |
| TextRender.LineBreakIsACell | src/text-block.ts:115-121 | `"a\nb"` draws `'\n'` as an ordinary cell between `'a'` and `'b'`. The slot after them stays empty. |
| TextRender.LongStringIsClipped | src/text-block.ts:121-129 | `"HelloWorldx"` in 2 rows of 5 writes `"HelloWorld"` and drops `'x'` without an error. |
| TextRender.OverflowThrows | src/text-block.ts:109-156 | The same characters as two array items throw a TypeError, and so does a run with the same string. |
| Elements.ContentSpace | src/element.ts:241-244 | The space left inside the margins is never negative. It is the difference when that is positive and 0 otherwise, and never more than the space offered. |
| Elements.Clamp | src/element.ts:248-266 | With JavaScript comparisons, the clamped size is the measured size, the minimum or the maximum. A measured size between the bounds is kept; one below the minimum becomes the minimum when the bounds do not cross; one above the maximum (and not below the minimum) becomes the maximum. It lies between the bounds when the minimum is not above the maximum, and is the maximum when they cross. NaN stays NaN. |
| Elements.Element.constructor | src/element.ts:61-187 | A new element has auto width and height, minimums 0, maximums Infinity, stretch alignment, zero margin and border, no background, a zero desired and actual size, and an empty rendered buffer. A text block also starts with empty text and a plain style (src/text-block.ts:24-32). |
| Elements.Element.SetHeight | src/element.ts:66-69 | Validates with `'auto'` allowed and Infinity refused. The value is stored only when validation passes. All six properties stay admissible. |
| Elements.Element.SetMinHeight | src/element.ts:76-79 | Validates with neither `'auto'` nor Infinity. The value is stored only on success, and admissibility is kept. |
| Elements.Element.SetMaxHeight | src/element.ts:86-89 | Validates with Infinity allowed and `'auto'` refused. The value is stored only on success, and admissibility is kept. |
| Elements.Element.SetWidth | src/element.ts:96-99 | As `height`, for the width. |
| Elements.Element.SetMinWidth | src/element.ts:106-109 | As `minHeight`, for the width. |
| Elements.Element.SetMaxWidth | src/element.ts:116-119 | As `maxHeight`, for the width. |
| Elements.Element.Measure | src/element.ts:240-276 | `measure` stores the size `Desired` specifies: margins taken off, the override's size, the minimums, then the maximums. It throws exactly when the override throws, and leaves `desiredSize` unchanged then. |
| Elements.Element.Arrange | src/element.ts:221-238 | `arrange` records the rect's size as the actual size. It throws the RangeError of an impossible allocation, or the error the text block's render throws. Otherwise it keeps a fresh blank buffer of the rect's shape. |
| Elements.RenderPass | src/terminal.ts:15-25 | The terminal measures its child at its own size. When that succeeds, it arranges the child at the origin with exactly the desired size. |
| ElementLayout.DefaultElementFillsSpace | src/element.ts:240-276 | A default element without margins wants all the space offered. |
| ElementLayout.MarginIsTakenOff | src/element.ts:241-244 | A default element wants the space inside its margin, and width 0 when the margins take all of it. |
| ElementLayout.DesiredWithinBounds | src/element.ts:248-266 | On each axis, width and height, a successful measure lies between the resolved minimum and maximum, or equals the maximum when they cross. |
| ElementLayout.AdmittedSizingResolves | src/element.ts:29-54 | With the six properties as the setters admit them and a non-negative space, every property stored as a number or `'auto'` resolves to a non-negative number; only a maximum may resolve to +Infinity. |
| ElementLayout.DefaultTextBlockIsMeasured | src/element.ts:240-269 | For a default text block the clamps change nothing: it wants exactly what its text measures. |
| ElementLayout.HelloWorldTextBlock | src/text-block.ts:37-107 | A default text block reading `"Hello, World"` in an 80 × 24 terminal wants 12 × 1. |
| ElementLayout.MeasureFailure | src/element.ts:246 | Measuring throws only for a text block, and only the TypeError of a text that cannot be iterated. |
| ElementLayout.BaseArrange | src/element.ts:221-234 | Arranging an element that draws nothing throws exactly when the buffer cannot be allocated. |
| ElementLayout.StringTextBlockArranges | src/element.ts:226-233 | A text block whose text is one string arranges without an error when its rect and its desired size are whole numbers of cells with at least one row. |
| Events.Added | src/event.ts:6-8 | After `add`, the handler is present, every earlier handler is still present, and nothing else is. |
| Events.Without | src/event.ts:10-12 | After `remove`, the handler is absent, every other handler is still present, and nothing new appears. |
| Events.AddIdempotent | src/event.ts:6-8 | Adding a handler twice is adding it once, in both membership and order. |
| Events.AddKeepsDistinct | src/event.ts:6-8 | Adding keeps the handlers distinct. |
| Events.RemoveAbsent | src/event.ts:10-12 | Removing an absent handler changes nothing. |
| Events.RemoveAt | src/event.ts:10-12 | Removing a registered handler takes out exactly its entry. The others keep their order. |
| Events.RemoveKeepsDistinct | src/event.ts:10-12 | Removing keeps the handlers distinct. |
| Events.AddThenRemove | src/event.ts:6-12 | Adding a new handler and removing it again restores the set. |
| Events.Event.constructor | src/event.ts:4 | A new event has no handlers. |
| Events.Event.Add | src/event.ts:6-8 | `add` updates the handlers as `Added` and keeps them distinct. |
| Events.Event.Remove | src/event.ts:10-12 | `remove` updates the handlers as `Without` and keeps them distinct. |
| Events.Event.Invoke | src/event.ts:14-18 | `invoke` makes one call per handler, in insertion order, each with the same source and argument. |
| Events.TwoHandlers | src/event.ts:4-18 | With two handlers, the first added twice, `invoke` calls each once in the order first added. After the first is removed, only the second is called. |

## Left out

- Floating point: finite numbers are reals. Rounding, `-0` and overflow to Infinity are not modelled. Nor is `Math.max(NaN, 0)`, because margins are finite reals.
- `Number.parseFloat` gives the exact decimal value of the prefix it reads. It is not rounded to the nearest double.
- Cells.Place: a write to a column past the end of its row is dropped. In JavaScript the row grows instead. Only a buffer of width 0 with at least one row gets such a write.
- The frame's width does not matter when the buffer has no rows, because every write then throws. The model then takes width 0.
- The terminal's size (`process.stdout.columns` and `rows`) is a parameter of `Elements.RenderPass`. A terminal without a child returns before measuring; that branch is not modelled. Writing the buffer to the screen (src/terminal.ts:27 onwards) is output and is not modelled.
- Focus and click events are not modelled: `onGotFocus`, `onLostFocus`, `onClick` on `TextBlock` and `Run`, and the handler that `RunInit.onClick` registers. Neither are `allowFocusOnInteraction` and `isHitTestVisible`. They are stored and never read by layout.
- The `parent` getter always throws "not implemented". It is not modelled.
- `horizontalAlignment`, `borderThickness` and `backgroundColor` are stored. Only `backgroundColor` is read, as the text's background.
- Handlers are values compared by identity. What a handler does when called is outside the model. So is a handler that adds or removes handlers while `invoke` iterates.
- A `Run` is a value. Sharing one run between texts, or changing it after it was placed, is not modelled.
- `characterWidth` is 1 for every character. Characters are Unicode scalar values, as `for ... of` over a string yields them for well-formed text; a lone surrogate, which `for ... of` also yields, cannot be represented by a Dafny `char` and is not modelled.
- `Ensure.length` messages are modelled as the property name and the rule broken, not as message text.
- TextMeasure.MeasureNoWrap: stated only for texts whose lines are all shorter than the available width. Texts that wrap at an auto width are bounded by TextMeasure.MeasureTextShape but not computed exactly.
- TextMeasure.MeasureFixedWidth: stated only for a single string without line breaks; the case where a wrap finds the height at the available height is stated separately by TextMeasure.MeasureFixedWidthStops.
- The TypeScript declaration files under docs/ and the source files other than element.ts, text-block.ts, event.ts and the render pass of terminal.ts are not part of this model.
