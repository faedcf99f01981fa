/**
 * TextBlock (src/text-block.ts): styled text, the walk over its characters,
 * the measure override that sizes an auto-sized block to its text, and the
 * render that lays the characters out row by row.
 */
module TextBlocks {
  import opened Wrappers
  import opened Js
  import opened Lengths
  import opened Cells

  /** The style fields of a `Run`; `None` (`undefined`) inherits the enclosing style. */
  datatype RunStyle = RunStyle(
    backgroundColor: Color,
    foregroundColor: Color,
    bold: Option<bool>,
    italic: Option<bool>,
    underline: Option<bool>)

  /** A run style that overrides nothing. */
  const Inherit := RunStyle(None, None, None, None, None)

  /**
   * `TextBlock.Text`: a string, a `Run` (a `TextElement` with its own text
   * and style), or an array of them. Arrays nested in arrays are not allowed
   * by the declared type but are accepted here, so that what the code does
   * with them at run time is part of the model.
   */
  datatype TextNode =
    | Literal(chars: string)
    | Run(style: RunStyle, text: TextNode)
    | Inlines(items: seq<TextNode>)

  /** `Partial<RunInit>` without the click handler: each field may be missing. */
  datatype RunInit = RunInit(
    text: Option<TextNode>,
    backgroundColor: Color,
    foregroundColor: Color,
    bold: Option<bool>,
    italic: Option<bool>,
    underline: Option<bool>)

  /**
   * `new Run(options)`: the text defaults to `''`; every style field is
   * copied from the options, so a missing one stays `undefined`.
   */
  function NewRun(options: Option<RunInit>): TextNode {
    match options
    case None => Run(Inherit, Literal(""))
    case Some(o) =>
      Run(RunStyle(o.backgroundColor, o.foregroundColor, o.bold, o.italic, o.underline),
          if o.text.Some? then o.text.value else Literal(""))
  }

  /** The style inside a run: each field the run sets replaces the enclosing one. */
  function Override(st: CellStyle, rs: RunStyle): CellStyle {
    CellStyle(
      if rs.backgroundColor.Some? then rs.backgroundColor else st.backgroundColor,
      if rs.foregroundColor.Some? then rs.foregroundColor else st.foregroundColor,
      if rs.bold.Some? then rs.bold.value else st.bold,
      if rs.italic.Some? then rs.italic.value else st.italic,
      if rs.underline.Some? then rs.underline.value else st.underline)
  }

  // ---------------------------------------------------------------------
  // iterateText
  // ---------------------------------------------------------------------

  /**
   * What the generator `iterateText(text)` produces: the characters it
   * yields, and whether it then finishes (`complete`) or throws a TypeError
   * when asked for the next one. A generator is lazy, so the error only
   * happens if its consumer reads past `chars`.
   */
  datatype Yielded = Yielded(chars: string, complete: bool)

  /**
   * `iterateText(text)`: a string yields its characters; anything else is
   * iterated with `for...of`, which throws on a `Run` (a plain object);
   * an array item that is a string yields its characters, and any other
   * item `x` continues with `iterateText(x.text)`, which throws when `x` is
   * itself an array (its `.text` is `undefined`).
   */
  function IterateText(t: TextNode): Yielded
    decreases t, 1, 0
  {
    match t
    case Literal(s) => Yielded(s, true)
    case Run(_, _) => Yielded("", false)
    case Inlines(items) => IterateItems(items, 0)
  }

  /** The items `items[k..]` of an array, one after the other. */
  function IterateItems(items: seq<TextNode>, k: nat): Yielded
    requires k <= |items|
    decreases Inlines(items), 0, |items| - k
  {
    if k == |items| then Yielded("", true)
    else
      var first :=
        match items[k]
        case Literal(s) => Yielded(s, true)
        case Run(_, inner) => IterateText(inner)
        case Inlines(_) => Yielded("", false);
      if !first.complete then first
      else
        var rest := IterateItems(items, k + 1);
        Yielded(first.chars + rest.chars, rest.complete)
  }

  /** `characterWidth(char)`: every character is one column wide. */
  function CharacterWidth(c: char): nat {
    1
  }

  // ---------------------------------------------------------------------
  // measureOverride: the auto-size scan
  // ---------------------------------------------------------------------

  /**
   * The locals of the scan loop of `measureOverride`: `currentLineLength`,
   * `width`, `height`, `needCalculateWidth`, and whether the loop has left
   * by `break`.
   */
  datatype ScanState = ScanState(line: nat, width: Num, height: Num, needWidth: bool, stopped: bool)

  /** The locals when the scan starts; an axis that is not auto starts at its resolved size. */
  function InitialScan(size: Size, needWidth: bool, needHeight: bool): ScanState {
    ScanState(0, if needWidth then Fin(0.0) else size.width, if needHeight then Fin(0.0) else size.height, needWidth, false)
  }

  /** One pass of the scan loop over the character `c`. */
  function ScanStep(size: Size, needHeight: bool, st: ScanState, c: char): ScanState {
    if c == '\r' then st
    else if c == '\n' then
      st.(width := if st.needWidth && Gt(Fin(st.line as real), st.width) then Fin(st.line as real) else st.width,
          line := 0,
          height := if needHeight then Increment(st.height) else st.height)
    else
      var line := st.line + CharacterWidth(c);
      if Ge(Fin(line as real), size.width) then
        var wrapped := st.(line := 0, needWidth := false, width := size.width);
        if !needHeight || StrictEquals(wrapped.height, size.height) then wrapped.(stopped := true)
        else wrapped.(height := Increment(wrapped.height))
      else st.(line := line)
  }

  /** The scan loop from the character at index `i`, until the characters end or it breaks. */
  function ScanFrom(cs: string, i: nat, size: Size, needHeight: bool, st: ScanState): ScanState
    requires i <= |cs|
    decreases |cs| - i
  {
    if st.stopped || i == |cs| then st
    else ScanFrom(cs, i + 1, size, needHeight, ScanStep(size, needHeight, st, cs[i]))
  }

  /** The statements after the scan loop: the last line's width, and one more line. */
  function FinishScan(st: ScanState, needHeight: bool): Size {
    Size(if st.needWidth && Gt(Fin(st.line as real), st.width) then Fin(st.line as real) else st.width,
         if needHeight then Increment(st.height) else st.height)
  }

  /**
   * `TextBlock.measureOverride(availableSize)` as a function of the width
   * and height properties and the text: the base element's resolution,
   * then, when either axis is `'auto'`, the scan over the text. The scan
   * throws when it reads past the characters `iterateText` yields before
   * failing.
   */
  function MeasureText(available: Extent, width: Length, height: Length, text: TextNode): Result<Size, JsError> {
    var size := Size(Resolve(available.width, width), Resolve(available.height, height));
    var needWidth := width == Auto;
    var needHeight := height == Auto;
    if !needWidth && !needHeight then Success(size)
    else
      var source := IterateText(text);
      var st := ScanFrom(source.chars, 0, size, needHeight, InitialScan(size, needWidth, needHeight));
      if !st.stopped && !source.complete then Failure(TypeError)
      else Success(FinishScan(st, needHeight))
  }

  /** The measure override itself: the scan loop over the characters of the text. */
  method MeasureTextOverride(available: Extent, width: Length, height: Length, text: TextNode)
    returns (r: Result<Size, JsError>)
    ensures r == MeasureText(available, width, height, text)
  {
    var size := Size(Resolve(available.width, width), Resolve(available.height, height));
    var needWidth := width == Auto;
    var needHeight := height == Auto;
    if !needWidth && !needHeight {
      return Success(size);
    }
    var source := IterateText(text);
    var chars := source.chars;
    ghost var final := ScanFrom(chars, 0, size, needHeight, InitialScan(size, needWidth, needHeight));
    var line: nat := 0;
    var w := if needWidth then Fin(0.0) else size.width;
    var h := if needHeight then Fin(0.0) else size.height;
    var stopped := false;
    var i := 0;
    while i < |chars| && !stopped
      invariant i <= |chars|
      invariant ScanFrom(chars, i, size, needHeight, ScanState(line, w, h, needWidth, stopped)) == final
    {
      line, w, h, needWidth, stopped := ScanChar(size, needHeight, line, w, h, needWidth, chars[i]);
      i := i + 1;
    }
    assert ScanState(line, w, h, needWidth, stopped) == final;
    if !stopped && !source.complete {
      return Failure(TypeError);
    }
    if needWidth && Gt(Fin(line as real), w) {
      w := Fin(line as real);
    }
    line := 0;
    if needHeight {
      h := Increment(h);
    }
    return Success(Size(w, h));
  }

  /**
   * One pass of the scan loop of `measureOverride` over the character `c`;
   * `stopped` is the loop's `break`.
   */
  method ScanChar(size: Size, needHeight: bool, line: nat, w: Num, h: Num, needWidth: bool, c: char)
    returns (line': nat, w': Num, h': Num, needWidth': bool, stopped: bool)
    ensures ScanState(line', w', h', needWidth', stopped) == ScanStep(size, needHeight, ScanState(line, w, h, needWidth, false), c)
  {
    line', w', h', needWidth', stopped := line, w, h, needWidth, false;
    if c == '\r' {
      return;
    }
    if c == '\n' {
      if needWidth && Gt(Fin(line as real), w) {
        w' := Fin(line as real);
      }
      line' := 0;
      if needHeight {
        h' := Increment(h);
      }
      return;
    }
    line' := line + CharacterWidth(c);
    if Ge(Fin(line' as real), size.width) {
      line' := 0;
      needWidth' := false;
      w' := size.width;
      if !needHeight || StrictEquals(h, size.height) {
        stopped := true;
        return;
      }
      h' := Increment(h);
    }
  }

  // ---------------------------------------------------------------------
  // renderInline and render
  // ---------------------------------------------------------------------

  /** The `{ row, column }` the next character is written at. */
  datatype Cursor = Cursor(row: nat, column: nat)

  /** The buffer's `desiredSize.height` rows of `desiredSize.width` slots. */
  datatype Frame = Frame(height: nat, width: nat)

  /**
   * The effect of `renderInline` on some text from cursor `at`: the writes
   * it makes in order, where it leaves the cursor, and whether it throws a
   * TypeError (a write to row `height`, whose `buffer[row]` is `undefined`,
   * or a `for...of` over a `Run` object).
   */
  datatype Walk = Walk(writes: seq<Placement>, at: Cursor, crashed: bool)

  /** A walk that did not throw, followed by another one. */
  function Then(a: Walk, b: Walk): Walk {
    Walk(a.writes + b.writes, b.at, b.crashed)
  }

  /** The slot after `at` in a buffer `width` slots wide: the next column, or the start of the next row. */
  function NextCursor(at: Cursor, width: nat): Cursor {
    if at.column + 1 == width then Cursor(at.row + 1, 0) else Cursor(at.row, at.column + 1)
  }

  /**
   * The string loop of `renderInline`: write each character at the cursor,
   * move one column right, wrap when the column reaches the width, and stop
   * the loop when the wrap reaches the last row.
   */
  function WalkChars(s: string, st: CellStyle, at: Cursor, f: Frame): Walk {
    if s == [] then Walk([], at, false)
    else if at.row >= f.height then Walk([], at, true)
    else
      var p := Placement(at.row, at.column, Cell(st, s[0], true));
      var next := NextCursor(at, f.width);
      if at.column + 1 == f.width && next.row == f.height then Walk([p], next, false)
      else Then(Walk([p], next, false), WalkChars(s[1..], st, next, f))
  }

  /**
   * `renderInline(text, ...)`: a string is written by the string loop; an
   * array renders its items in turn; a `Run` renders its text's items with
   * its style over the enclosing one, where the items of a string text are
   * its single characters and a `Run` text is not iterable.
   */
  function WalkText(t: TextNode, st: CellStyle, at: Cursor, f: Frame): Walk
    decreases t, 1, 0
  {
    match t
    case Literal(s) => WalkChars(s, st, at, f)
    case Inlines(items) => WalkItems(items, 0, st, at, f)
    case Run(rs, inner) =>
      var inherited := Override(st, rs);
      match inner
      case Literal(s) => WalkCharItems(s, inherited, at, f)
      case Inlines(items) => WalkItems(items, 0, inherited, at, f)
      case Run(_, _) => Walk([], at, true)
  }

  /** The item loop over `items[k..]`: each item starts where the previous one left the cursor. */
  function WalkItems(items: seq<TextNode>, k: nat, st: CellStyle, at: Cursor, f: Frame): Walk
    requires k <= |items|
    decreases Inlines(items), 0, |items| - k
  {
    if k == |items| then Walk([], at, false)
    else
      var first := WalkText(items[k], st, at, f);
      if first.crashed then first else Then(first, WalkItems(items, k + 1, st, first.at, f))
  }

  /** The item loop of a `Run` whose text is a string: one string loop per character. */
  function WalkCharItems(s: string, st: CellStyle, at: Cursor, f: Frame): Walk {
    if s == [] then Walk([], at, false)
    else
      var first := WalkChars(s[..1], st, at, f);
      if first.crashed then first else Then(first, WalkCharItems(s[1..], st, first.at, f))
  }

  /** What `renderInline` promises about `buffer`, given what the walk says. */
  ghost predicate Rendered(r: Result<Cursor, JsError>, w: Walk, before: Grid, after: Grid) {
    (r.Success? <==> !w.crashed) &&
    (r.Failure? ==> r.error == TypeError) &&
    (r.Success? ==> r.value == w.at && after == Paint(before, w.writes))
  }

  /** The string loop of `renderInline` on a buffer of `f.height` rows of `f.width` slots. */
  method RenderString(buffer: array2<Option<Cell>>, s: string, at: Cursor, st: CellStyle, f: Frame)
    returns (r: Result<Cursor, JsError>)
    requires buffer.Length0 == f.height && buffer.Length1 == f.width
    modifies buffer
    ensures Rendered(r, WalkChars(s, st, at, f), old(Snapshot(buffer)), Snapshot(buffer))
  {
    ghost var initial := Snapshot(buffer);
    ghost var whole := WalkChars(s, st, at, f);
    ghost var done: seq<Placement> := [];
    var row: nat, column: nat := at.row, at.column;
    var i := 0;
    while i < |s|
      invariant i <= |s|
      invariant Snapshot(buffer) == Paint(initial, done)
      invariant Then(Walk(done, Cursor(row, column), false), WalkChars(s[i..], st, Cursor(row, column), f)) == whole
    {
      if row >= f.height {
        CharsCrash(s, i, st, Cursor(row, column), f, done, whole);
        r := Failure(TypeError);
        RenderedFrom(r, whole, initial, Snapshot(buffer), done);
        return;
      }
      var full;
      row, column, full, done := PutChar(buffer, s, i, st, f, row, column, initial, done, whole);
      i := i + 1;
      if full {
        break;
      }
    }
    assert whole == Walk(done, Cursor(row, column), false) by {
      if i == |s| {
        assert s[i..] == [] && done + [] == done;
      }
    }
    r := Success(Cursor(row, column));
    RenderedFrom(r, whole, initial, Snapshot(buffer), done);
  }

  /**
   * One pass of the string loop below the last row: writes `s[i]` at the
   * cursor and moves it on; `full` when the last slot of the last row was
   * written, after which the loop stops.
   */
  method PutChar(buffer: array2<Option<Cell>>, s: string, i: nat, st: CellStyle, f: Frame, row: nat, column: nat,
                 ghost initial: Grid, ghost done: seq<Placement>, ghost whole: Walk)
    returns (row': nat, column': nat, full: bool, ghost done': seq<Placement>)
    requires buffer.Length0 == f.height && buffer.Length1 == f.width
    requires i < |s| && row < f.height
    requires Snapshot(buffer) == Paint(initial, done)
    requires Then(Walk(done, Cursor(row, column), false), WalkChars(s[i..], st, Cursor(row, column), f)) == whole
    modifies buffer
    ensures Snapshot(buffer) == Paint(initial, done')
    ensures full ==> whole == Walk(done', Cursor(row', column'), false)
    ensures !full ==> Then(Walk(done', Cursor(row', column'), false), WalkChars(s[i + 1..], st, Cursor(row', column'), f)) == whole
  {
    var p := Placement(row, column, Cell(st, s[i], true));
    PutNext(buffer, p, initial, done);
    done' := done + [p];
    row', column', full := row, column + 1, false;
    if column' == f.width {
      row', column' := row + 1, 0;
      if row' == f.height {
        CharsLast(s, i, st, Cursor(row, column), f, done, whole);
        full := true;
        return;
      }
    }
    CharsNext(s, i, st, Cursor(row, column), f, done, whole);
  }

  /** The buffer holds the writes made so far, and they are all of the walk's when the loop returns. */
  lemma RenderedFrom(r: Result<Cursor, JsError>, w: Walk, before: Grid, after: Grid, done: seq<Placement>)
    requires after == Paint(before, done)
    requires r.Success? ==> w == Walk(done, r.value, false)
    requires r.Failure? ==> w.crashed && r.error == TypeError
    ensures Rendered(r, w, before, after)
  {
  }

  /** The string loop throws when it has a character to write below the last row. */
  lemma CharsCrash(s: string, i: nat, st: CellStyle, at: Cursor, f: Frame, done: seq<Placement>, whole: Walk)
    requires i < |s| && at.row >= f.height
    requires Then(Walk(done, at, false), WalkChars(s[i..], st, at, f)) == whole
    ensures whole.crashed
  {
  }

  /** The string loop ends after writing the last slot of the last row. */
  lemma CharsLast(s: string, i: nat, st: CellStyle, at: Cursor, f: Frame, done: seq<Placement>, whole: Walk)
    requires i < |s| && at.row < f.height && at.column + 1 == f.width && at.row + 1 == f.height
    requires Then(Walk(done, at, false), WalkChars(s[i..], st, at, f)) == whole
    ensures whole == Walk(done + [Placement(at.row, at.column, Cell(st, s[i], true))], Cursor(f.height, 0), false)
  {
    assert s[i..][0] == s[i];
  }

  /** Otherwise the string loop writes one cell and goes on from the next position. */
  lemma CharsNext(s: string, i: nat, st: CellStyle, at: Cursor, f: Frame, done: seq<Placement>, whole: Walk)
    requires i < |s| && at.row < f.height && !(at.column + 1 == f.width && at.row + 1 == f.height)
    requires Then(Walk(done, at, false), WalkChars(s[i..], st, at, f)) == whole
    ensures Then(Walk(done + [Placement(at.row, at.column, Cell(st, s[i], true))], NextCursor(at, f.width), false),
                 WalkChars(s[i + 1..], st, NextCursor(at, f.width), f)) == whole
  {
    assert s[i..][0] == s[i] && s[i..][1..] == s[i + 1..];
    var p := Placement(at.row, at.column, Cell(st, s[i], true));
    var rest := WalkChars(s[i + 1..], st, NextCursor(at, f.width), f);
    assert done + ([p] + rest.writes) == (done + [p]) + rest.writes;
  }

  /** `renderInline(text, buffer, at.row, at.column, style)`. */
  method RenderInline(buffer: array2<Option<Cell>>, t: TextNode, at: Cursor, st: CellStyle, f: Frame)
    returns (r: Result<Cursor, JsError>)
    requires buffer.Length0 == f.height && buffer.Length1 == f.width
    modifies buffer
    ensures Rendered(r, WalkText(t, st, at, f), old(Snapshot(buffer)), Snapshot(buffer))
    decreases t, 1, 0
  {
    match t
    case Inlines(items) =>
      r := RenderItems(buffer, items, at, st, f);
    case Literal(s) =>
      r := RenderString(buffer, s, at, st, f);
    case Run(rs, inner) =>
      var inherited := Override(st, rs);
      match inner
      case Run(_, _) =>
        r := Failure(TypeError);
      case Literal(s) =>
        r := RenderCharItems(buffer, s, at, inherited, f);
      case Inlines(items) =>
        r := RenderItems(buffer, items, at, inherited, f);
  }

  /** The loop `for (const item of items)` of `renderInline`. */
  method RenderItems(buffer: array2<Option<Cell>>, items: seq<TextNode>, at: Cursor, st: CellStyle, f: Frame)
    returns (r: Result<Cursor, JsError>)
    requires buffer.Length0 == f.height && buffer.Length1 == f.width
    modifies buffer
    ensures Rendered(r, WalkItems(items, 0, st, at, f), old(Snapshot(buffer)), Snapshot(buffer))
    decreases Inlines(items), 0, 0
  {
    ghost var initial := Snapshot(buffer);
    ghost var whole := WalkItems(items, 0, st, at, f);
    ghost var done: seq<Placement> := [];
    var cursor := at;
    for k := 0 to |items|
      invariant Snapshot(buffer) == Paint(initial, done)
      invariant Then(Walk(done, cursor, false), WalkItems(items, k, st, cursor, f)) == whole
    {
      var next := RenderInline(buffer, items[k], cursor, st, f);
      ghost var w := WalkText(items[k], st, cursor, f);
      ItemsStep(items, k, st, cursor, f, done, whole);
      if next.Failure? {
        return next;
      }
      PaintConcat(initial, done, w.writes);
      done := done + w.writes;
      cursor := next.value;
    }
    assert done + [] == done;
    return Success(cursor);
  }

  /** One more item of the item loop: a throw ends the whole loop, otherwise its writes come next. */
  lemma ItemsStep(items: seq<TextNode>, k: nat, st: CellStyle, at: Cursor, f: Frame, done: seq<Placement>, whole: Walk)
    requires k < |items|
    requires Then(Walk(done, at, false), WalkItems(items, k, st, at, f)) == whole
    ensures var w := WalkText(items[k], st, at, f);
      (w.crashed ==> whole.crashed) &&
      (!w.crashed ==> Then(Walk(done + w.writes, w.at, false), WalkItems(items, k + 1, st, w.at, f)) == whole)
  {
    var w := WalkText(items[k], st, at, f);
    if !w.crashed {
      var rest := WalkItems(items, k + 1, st, w.at, f);
      assert done + (w.writes + rest.writes) == (done + w.writes) + rest.writes;
    }
  }

  /** One more character of a run's character loop. */
  lemma CharItemsStep(s: string, i: nat, st: CellStyle, at: Cursor, f: Frame, done: seq<Placement>, whole: Walk)
    requires i < |s|
    requires Then(Walk(done, at, false), WalkCharItems(s[i..], st, at, f)) == whole
    ensures var w := WalkChars([s[i]], st, at, f);
      (w.crashed ==> whole.crashed) &&
      (!w.crashed ==> Then(Walk(done + w.writes, w.at, false), WalkCharItems(s[i + 1..], st, w.at, f)) == whole)
  {
    assert s[i..][..1] == [s[i]] && s[i..][1..] == s[i + 1..];
    var w := WalkChars([s[i]], st, at, f);
    if !w.crashed {
      var rest := WalkCharItems(s[i + 1..], st, w.at, f);
      assert done + (w.writes + rest.writes) == (done + w.writes) + rest.writes;
    }
  }

  /** The loop `for (const item of text.text)` of a `Run` whose text is a string. */
  method RenderCharItems(buffer: array2<Option<Cell>>, s: string, at: Cursor, st: CellStyle, f: Frame)
    returns (r: Result<Cursor, JsError>)
    requires buffer.Length0 == f.height && buffer.Length1 == f.width
    modifies buffer
    ensures Rendered(r, WalkCharItems(s, st, at, f), old(Snapshot(buffer)), Snapshot(buffer))
  {
    ghost var initial := Snapshot(buffer);
    ghost var whole := WalkCharItems(s, st, at, f);
    ghost var done: seq<Placement> := [];
    var cursor := at;
    for i := 0 to |s|
      invariant Snapshot(buffer) == Paint(initial, done)
      invariant Then(Walk(done, cursor, false), WalkCharItems(s[i..], st, cursor, f)) == whole
    {
      var next := RenderString(buffer, [s[i]], cursor, st, f);
      ghost var w := WalkChars([s[i]], st, cursor, f);
      CharItemsStep(s, i, st, cursor, f, done, whole);
      if next.Failure? {
        return next;
      }
      PaintConcat(initial, done, w.writes);
      done := done + w.writes;
      cursor := next.value;
    }
    assert s[|s|..] == [] && done + [] == done;
    return Success(cursor);
  }

  /** The grid `TextBlock.render()` returns, or the error it throws. */
  function RenderedText(desired: Size, style: CellStyle, text: TextNode): Result<Grid, JsError> {
    if !IsArrayLength(desired.height) then Failure(RangeError)
    else
      var height := ArrayLength(desired.height);
      if height > 0 && !IsArrayLength(desired.width) then Failure(RangeError)
      else
        var width := if height > 0 then ArrayLength(desired.width) else 0;
        var walk := WalkText(text, style, Cursor(0, 0), Frame(height, width));
        if walk.crashed then Failure(TypeError)
        else Success(Paint(Blank(height, width), walk.writes))
  }

  /**
   * `TextBlock.render()`: a fresh buffer of the desired size (a RangeError
   * when a dimension is not an array length; the width only matters once
   * a row is allocated), rendered from the top-left corner with the
   * block's own style.
   */
  method RenderTextBlock(desired: Size, style: CellStyle, text: TextNode)
    returns (r: Result<array2<Option<Cell>>, JsError>)
    ensures var spec := RenderedText(desired, style, text);
      (r.Success? <==> spec.Success?) &&
      (r.Failure? ==> r.error == spec.error) &&
      (r.Success? ==> fresh(r.value) && Snapshot(r.value) == spec.value)
  {
    if !IsArrayLength(desired.height) {
      return Failure(RangeError);
    }
    var height := ArrayLength(desired.height);
    var width := 0;
    if height > 0 {
      if !IsArrayLength(desired.width) {
        return Failure(RangeError);
      }
      width := ArrayLength(desired.width);
    }
    var buffer := NewGrid(height, width);
    var end := RenderInline(buffer, text, Cursor(0, 0), style, Frame(height, width));
    if end.Failure? {
      return Failure(end.error);
    }
    return Success(buffer);
  }
}
