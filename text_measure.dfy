/**
 * What the auto-size scan of `TextBlock.measureOverride`
 * (src/text-block.ts:37-107) computes, stated against definitions that do
 * not follow the loop: the lines of the text and their lengths, and the
 * number of rows a run of characters fills at a given width.
 */
module TextMeasure {
  import opened Wrappers
  import opened Js
  import opened Lengths
  import opened TextBlocks

  // ---------------------------------------------------------------------
  // Scan invariants
  // ---------------------------------------------------------------------

  /** A number that counts something: a non-negative integer. */
  predicate IsCount(n: Num) {
    n.Fin? && n.value == n.value.Floor as real && n.value >= 0.0
  }

  /**
   * The invariant of the scan loop: an axis that is not auto keeps its
   * resolved size, once the width stops being calculated it is the resolved
   * width, an auto width stays between 0 and the available width, and an
   * auto height is a count.
   */
  ghost predicate Shaped(st: ScanState, size: Size, widthAuto: bool, needHeight: bool) {
    (!widthAuto ==> !st.needWidth) &&
    (!st.needWidth ==> st.width == size.width) &&
    (widthAuto && size.width.Fin? && size.width.value >= 0.0 ==>
      st.width.Fin? && 0.0 <= st.width.value <= size.width.value &&
      (st.needWidth ==> st.line as real <= size.width.value)) &&
    (widthAuto && IsCount(size.width) ==> IsCount(st.width)) &&
    (!needHeight ==> st.height == size.height) &&
    (needHeight ==> IsCount(st.height))
  }

  lemma IncrementCount(n: Num)
    requires IsCount(n)
    ensures IsCount(Increment(n)) && Increment(n).value == n.value + 1.0
  {
    assert (n.value + 1.0).Floor == n.value.Floor + 1;
  }

  lemma ScanStepShaped(size: Size, needHeight: bool, widthAuto: bool, st: ScanState, c: char)
    requires Shaped(st, size, widthAuto, needHeight)
    ensures Shaped(ScanStep(size, needHeight, st, c), size, widthAuto, needHeight)
  {
    if needHeight {
      IncrementCount(st.height);
    }
    if c == '\r' {
    } else if c == '\n' {
      var next := ScanStep(size, needHeight, st, c);
      assert next.needWidth == st.needWidth && next.line == 0;
      assert next.height == if needHeight then Increment(st.height) else st.height;
    } else {
      var next := ScanStep(size, needHeight, st, c);
      if Ge(Fin((st.line + 1) as real), size.width) {
        assert !next.needWidth && next.width == size.width;
        assert next.height == st.height || next.height == Increment(st.height);
        assert !needHeight ==> next.height == st.height;
      } else {
        assert next == st.(line := st.line + 1);
      }
    }
  }

  lemma {:induction false} ScanFromShaped(cs: string, i: nat, size: Size, needHeight: bool, widthAuto: bool, st: ScanState)
    requires i <= |cs|
    requires Shaped(st, size, widthAuto, needHeight)
    ensures Shaped(ScanFrom(cs, i, size, needHeight, st), size, widthAuto, needHeight)
    decreases |cs| - i
  {
    if !st.stopped && i < |cs| {
      ScanStepShaped(size, needHeight, widthAuto, st, cs[i]);
      ScanFromShaped(cs, i + 1, size, needHeight, widthAuto, ScanStep(size, needHeight, st, cs[i]));
    }
  }

  /**
   * The shape of every size the measure override returns: with no auto
   * axis it is the resolved size unchanged; an axis that is not auto
   * always reports its resolved value; an auto width lies between 0 and the
   * available width; an auto height is a whole number of at least one
   * line. It only throws when an axis is auto and the text cannot be
   * iterated to its end.
   */
  lemma MeasureTextShape(available: Extent, width: Length, height: Length, text: TextNode)
    requires available.width >= 0.0
    ensures var r := MeasureText(available, width, height, text);
      var resolved := Size(Resolve(available.width, width), Resolve(available.height, height));
      (width != Auto && height != Auto ==> r == Success(resolved)) &&
      (r.Failure? ==> r.error == TypeError && !IterateText(text).complete) &&
      (r.Success? && width != Auto ==> r.value.width == resolved.width) &&
      (r.Success? && height != Auto ==> r.value.height == resolved.height) &&
      (r.Success? && width == Auto ==> r.value.width.Fin? && 0.0 <= r.value.width.value <= available.width) &&
      (r.Success? && width == Auto && IsCount(Fin(available.width)) ==> IsCount(r.value.width)) &&
      (r.Success? && height == Auto ==> IsCount(r.value.height) && r.value.height.value >= 1.0)
  {
    var size := Size(Resolve(available.width, width), Resolve(available.height, height));
    if width == Auto || height == Auto {
      if width == Auto {
        ResolveAuto(available.width);
      }
      var source := IterateText(text);
      var init := InitialScan(size, width == Auto, height == Auto);
      assert Shaped(init, size, width == Auto, height == Auto);
      ScanFromShaped(source.chars, 0, size, height == Auto, width == Auto, init);
      var st := ScanFrom(source.chars, 0, size, height == Auto, init);
      if height == Auto {
        IncrementCount(st.height);
      }
      FinishShaped(st, size, width == Auto, height == Auto);
    }
  }

  /** The statements after the loop keep the shape, and count the last line. */
  lemma FinishShaped(st: ScanState, size: Size, widthAuto: bool, needHeight: bool)
    requires Shaped(st, size, widthAuto, needHeight)
    ensures var r := FinishScan(st, needHeight);
      (!widthAuto ==> r.width == size.width) &&
      (!needHeight ==> r.height == size.height) &&
      (widthAuto && size.width.Fin? && size.width.value >= 0.0 ==>
        r.width.Fin? && 0.0 <= r.width.value <= size.width.value) &&
      (widthAuto && IsCount(size.width) ==> IsCount(r.width)) &&
      (needHeight ==> IsCount(r.height) && r.height.value >= 1.0)
  {
    if needHeight {
      IncrementCount(st.height);
    }
  }

  // ---------------------------------------------------------------------
  // Text without wraps: the widest line and the number of lines
  // ---------------------------------------------------------------------

  /**
   * The length of each line of `s`, lines being separated by `'\n'`; a
   * `'\r'` takes no room. There is always at least one line.
   */
  function LineLengths(s: string): (ls: seq<nat>)
    ensures |ls| >= 1
  {
    if s == [] then [0]
    else
      var rest := LineLengths(s[1..]);
      if s[0] == '\r' then rest
      else if s[0] == '\n' then [0] + rest
      else [rest[0] + 1] + rest[1..]
  }

  /** The largest of `ls`, or 0. */
  function Widest(ls: seq<nat>): (m: nat)
    ensures forall k :: 0 <= k < |ls| ==> ls[k] <= m
    ensures ls != [] ==> m in ls
  {
    if ls == [] then 0
    else
      var rest := Widest(ls[1..]);
      if ls[0] > rest then ls[0] else rest
  }

  /** Every line, the first one continuing `line`, is shorter than `limit`. */
  predicate LinesFit(line: nat, ls: seq<nat>, limit: real)
    requires |ls| >= 1
  {
    ((line + ls[0]) as real) < limit && forall k :: 1 <= k < |ls| ==> (ls[k] as real) < limit
  }

  /** Scanning from index `i` is scanning the suffix that starts there. */
  lemma {:induction false} ScanFromSuffix(cs: string, i: nat, j: nat, size: Size, needHeight: bool, st: ScanState)
    requires j <= i <= |cs|
    ensures ScanFrom(cs, i, size, needHeight, st) == ScanFrom(cs[j..], i - j, size, needHeight, st)
    decreases |cs| - i
  {
    if !st.stopped && i < |cs| {
      assert cs[j..][i - j] == cs[i];
      ScanFromSuffix(cs, i + 1, j, size, needHeight, ScanStep(size, needHeight, st, cs[i]));
    }
  }

  /** The first step of a scan, then the scan of the rest. */
  lemma ScanFirst(cs: string, size: Size, needHeight: bool, st: ScanState)
    requires cs != [] && !st.stopped
    ensures ScanFrom(cs, 0, size, needHeight, st) == ScanFrom(cs[1..], 0, size, needHeight, ScanStep(size, needHeight, st, cs[0]))
  {
    ScanFromSuffix(cs, 1, 1, size, needHeight, ScanStep(size, needHeight, st, cs[0]));
  }

  /** The larger of two counts. */
  function Max(a: nat, b: nat): nat {
    if a > b then a else b
  }

  /**
   * While no line reaches the width, the scan computes the widest line
   * (continuing the current one) and adds one row per line.
   */
  lemma {:induction false} ScanNoWrap(cs: string, size: Size, st: ScanState, w: nat, h: nat, limit: real)
    requires size.width == Fin(limit)
    requires st.needWidth && !st.stopped && st.width == Fin(w as real) && st.height == Fin(h as real)
    requires LinesFit(st.line, LineLengths(cs), limit)
    ensures FinishScan(ScanFrom(cs, 0, size, true, st), true) == NoWrapSize(LineLengths(cs), st.line, w, h)
  {
    if cs == [] {
      assert LineLengths(cs) == [0];
    } else {
      var next := ScanStep(size, true, st, cs[0]);
      ScanFirst(cs, size, true, st);
      if cs[0] == '\r' {
        ScanNoWrap(cs[1..], size, next, w, h, limit);
      } else if cs[0] == '\n' {
        assert next == ScanState(0, Fin(Max(st.line, w) as real), Fin((h + 1) as real), true, false);
        NewlineFits(cs, st.line, limit);
        ScanNoWrap(cs[1..], size, next, Max(st.line, w), h + 1, limit);
        NoWrapNewline(LineLengths(cs[1..]), st.line, w, h);
      } else {
        NoWrapCharFits(cs, st.line, limit);
        assert next == st.(line := st.line + 1);
        ScanNoWrap(cs[1..], size, next, w, h, limit);
        NoWrapChar(cs, st.line, w, h);
      }
    }
  }

  /** The width the scan reports for lines `ls`, the first continuing `line`, after lines no wider than `w`. */
  function NoWrapWidth(ls: seq<nat>, line: nat, w: nat): nat
    requires |ls| >= 1
  {
    Max(w, Max(line + ls[0], Widest(ls[1..])))
  }

  /** The size the scan reports for lines `ls`, the first continuing `line`, after `h` rows no wider than `w`. */
  function NoWrapSize(ls: seq<nat>, line: nat, w: nat, h: nat): Size
    requires |ls| >= 1
  {
    Size(Fin(NoWrapWidth(ls, line, w) as real), Fin((h + |ls|) as real))
  }

  lemma NewlineFits(cs: string, line: nat, limit: real)
    requires cs != [] && cs[0] == '\n'
    requires LinesFit(line, LineLengths(cs), limit)
    ensures LinesFit(0, LineLengths(cs[1..]), limit)
  {
    var ls, rest := LineLengths(cs), LineLengths(cs[1..]);
    assert ls == [0] + rest;
    assert forall k :: 0 <= k < |rest| ==> rest[k] == ls[k + 1];
  }

  lemma NoWrapCharFits(cs: string, line: nat, limit: real)
    requires cs != [] && cs[0] != '\n' && cs[0] != '\r'
    requires LinesFit(line, LineLengths(cs), limit)
    ensures LinesFit(line + 1, LineLengths(cs[1..]), limit)
    ensures ((line + 1) as real) < limit
  {
    var ls, rest := LineLengths(cs), LineLengths(cs[1..]);
    assert ls == [rest[0] + 1] + rest[1..];
    assert forall k :: 1 <= k < |rest| ==> rest[k] == ls[k];
  }

  lemma NoWrapNewline(rest: seq<nat>, line: nat, w: nat, h: nat)
    requires |rest| >= 1
    ensures NoWrapSize([0] + rest, line, w, h) == NoWrapSize(rest, 0, Max(line, w), h + 1)
  {
    var ls := [0] + rest;
    assert ls[0] == 0 && ls[1..] == rest;
    assert Widest(rest) == Max(rest[0], Widest(rest[1..]));
    assert NoWrapWidth(ls, line, w) == NoWrapWidth(rest, 0, Max(line, w));
  }

  lemma NoWrapChar(cs: string, line: nat, w: nat, h: nat)
    requires cs != [] && cs[0] != '\n' && cs[0] != '\r'
    ensures NoWrapSize(LineLengths(cs), line, w, h) == NoWrapSize(LineLengths(cs[1..]), line + 1, w, h)
  {
    var rest := LineLengths(cs[1..]);
    assert LineLengths(cs) == [rest[0] + 1] + rest[1..];
    NoWrapShift(rest, line, w, h);
  }

  lemma NoWrapShift(ls: seq<nat>, line: nat, w: nat, h: nat)
    requires |ls| >= 1
    ensures NoWrapSize([ls[0] + 1] + ls[1..], line, w, h) == NoWrapSize(ls, line + 1, w, h)
  {
    var shifted := [ls[0] + 1] + ls[1..];
    assert shifted[0] == ls[0] + 1 && shifted[1..] == ls[1..];
  }

  /**
   * An auto-sized text block whose lines are all shorter than the
   * available width is as wide as its widest line and has one row per line.
   */
  lemma MeasureNoWrap(available: Extent, s: string)
    requires forall k :: 0 <= k < |LineLengths(s)| ==> (LineLengths(s)[k] as real) < available.width
    ensures MeasureText(available, Auto, Auto, Literal(s)) ==
      Success(Size(Fin(Widest(LineLengths(s)) as real), Fin(|LineLengths(s)| as real)))
  {
    var size := Size(Fin(available.width), Fin(available.height));
    var init := InitialScan(size, true, true);
    ScanNoWrap(s, size, init, 0, 0, available.width);
    var ls := LineLengths(s);
    assert Widest(ls) == Max(ls[0], Widest(ls[1..]));
    assert InitialScan(size, true, true) == ScanState(0, Fin(0.0), Fin(0.0), true, false);
  }

  /** A text without line breaks is one line as long as the text. */
  lemma {:induction false} LineLengthsPlain(s: string)
    requires forall k :: 0 <= k < |s| ==> s[k] != '\n' && s[k] != '\r'
    ensures LineLengths(s) == [|s|]
  {
    if s != [] {
      LineLengthsPlain(s[1..]);
    }
  }

  /** A line without breaks, then `'\n'`, then the rest. */
  lemma {:induction false} LineLengthsBreak(a: string, b: string)
    requires forall k :: 0 <= k < |a| ==> a[k] != '\n' && a[k] != '\r'
    ensures LineLengths(a + "\n" + b) == [|a|] + LineLengths(b)
  {
    if a == [] {
      assert a + "\n" + b == "\n" + b;
      assert ("\n" + b)[1..] == b;
    } else {
      assert (a + "\n" + b)[1..] == a[1..] + "\n" + b;
      LineLengthsBreak(a[1..], b);
    }
  }

  /** `"Hello, World"` with 80 columns available measures 12 by 1. */
  lemma HelloWorldSize(rows: real)
    ensures MeasureText(Extent(80.0, rows), Auto, Auto, Literal("Hello, World")) == Success(Size(Fin(12.0), Fin(1.0)))
  {
    LineLengthsPlain("Hello, World");
    MeasureNoWrap(Extent(80.0, rows), "Hello, World");
  }

  /** Two lines that fit measure as wide as the longer one, and two rows high. */
  lemma TwoLinesSize(a: string, b: string, available: Extent)
    requires forall k :: 0 <= k < |a| ==> a[k] != '\n' && a[k] != '\r'
    requires forall k :: 0 <= k < |b| ==> b[k] != '\n' && b[k] != '\r'
    requires (|a| as real) < available.width && (|b| as real) < available.width
    ensures MeasureText(available, Auto, Auto, Literal(a + "\n" + b)) ==
      Success(Size(Fin(Max(|a|, |b|) as real), Fin(2.0)))
  {
    LineLengthsPlain(b);
    LineLengthsBreak(a, b);
    var ls := LineLengths(a + "\n" + b);
    assert ls == [|a|, |b|];
    assert Widest(ls) == Max(|a|, |b|) by {
      assert ls[1..] == [|b|] && [|b|][1..] == [];
    }
    MeasureNoWrap(available, a + "\n" + b);
  }

  /** Empty text measures 0 by 1: the last line is always counted. */
  lemma EmptyTextSize(available: Extent)
    ensures MeasureText(available, Auto, Auto, Literal("")) == Success(Size(Fin(0.0), Fin(1.0)))
  {
  }

  // ---------------------------------------------------------------------
  // Text at a fixed width: one more row per wrap
  // ---------------------------------------------------------------------

  /** Euclidean division is determined by its quotient and remainder. */
  lemma DivUnique(a: int, w: int, q: int, r: int)
    requires w > 0 && a == q * w + r && 0 <= r < w
    ensures a / w == q && a % w == r
  {
    var q', r' := a / w, a % w;
    MulGap(q', q, w);
    MulGap(q, q', w);
  }

  lemma MulGap(x: int, y: int, w: int)
    requires w > 0
    ensures x >= y + 1 ==> x * w >= y * w + w
  {
    if x >= y + 1 {
      var d := x - y - 1;
      MulNonNegative(d, w);
      assert x * w == y * w + w + d * w;
    }
  }

  lemma {:induction false} MulNonNegative(d: nat, w: nat)
    ensures d * w >= 0
  {
    if d > 0 {
      MulNonNegative(d - 1, w);
      assert d * w == (d - 1) * w + w;
    }
  }

  lemma DivStep(w: nat, x: nat)
    requires w > 0
    ensures (w + x) / w == x / w + 1 && (w + x) % w == x % w
  {
    DivUnique(w + x, w, x / w + 1, x % w);
  }

  /**
   * The available height `rows` is one of the whole counts `lo`, ..., `hi - 1`:
   * a wrap that finds the height at such a count stops the scan.
   */
  predicate HitsLimit(rows: real, lo: nat, hi: nat) {
    rows == rows.Floor as real && lo as real <= rows < hi as real
  }

  /**
   * At a fixed width `w`, with an auto height that the wraps never find at
   * the available height, a run of `n` characters without line breaks after
   * `line` characters wraps `(line + n) / w` times and leaves `(line + n) % w`
   * on the last row.
   */
  lemma {:induction false} ScanWrapPlain(cs: string, size: Size, st: ScanState, w: nat, h: nat, rows: real)
    requires w > 0 && size == Size(Fin(w as real), Fin(rows))
    requires forall k :: 0 <= k < |cs| ==> cs[k] != '\n' && cs[k] != '\r'
    requires !st.needWidth && !st.stopped && st.width == size.width && st.height == Fin(h as real) && st.line < w
    requires !HitsLimit(rows, h, h + (st.line + |cs|) / w)
    ensures ScanFrom(cs, 0, size, true, st) ==
      ScanState((st.line + |cs|) % w, size.width, Fin((h + (st.line + |cs|) / w) as real), false, false)
  {
    if cs == [] {
      DivUnique(st.line, w, 0, st.line);
    } else {
      var next := ScanStep(size, true, st, cs[0]);
      ScanFirst(cs, size, true, st);
      if st.line + 1 == w {
        DivStep(w, |cs| - 1);
        assert (h as real) != rows;
        assert next == ScanState(0, size.width, Fin((h + 1) as real), false, false);
        ScanWrapPlain(cs[1..], size, next, w, h + 1, rows);
      } else {
        assert next == st.(line := st.line + 1);
        ScanWrapPlain(cs[1..], size, next, w, h, rows);
      }
    }
  }

  /**
   * A text block of fixed width `w` and auto height, whose text has no line
   * breaks, is `|s| / w + 1` rows high when the available height does not
   * stop the scan: a text that fills its last row exactly still gets one
   * more, empty, row.
   */
  lemma MeasureFixedWidth(w: nat, s: string, available: Extent)
    requires w > 0
    requires forall k :: 0 <= k < |s| ==> s[k] != '\n' && s[k] != '\r'
    requires !HitsLimit(available.height, 0, |s| / w)
    ensures MeasureText(available, Number(Fin(w as real)), Auto, Literal(s)) ==
      Success(Size(Fin(w as real), Fin((|s| / w + 1) as real)))
  {
    var size := Size(Fin(w as real), Fin(available.height));
    ScanWrapPlain(s, size, InitialScan(size, false, true), w, 0, available.height);
  }

  /**
   * At a fixed width `w`, a wrap that finds the auto height already at the
   * available whole count `k` stops the scan there, however many
   * characters follow.
   */
  lemma {:induction false} ScanWrapStops(cs: string, size: Size, st: ScanState, w: nat, h: nat, k: nat)
    requires w > 0 && size == Size(Fin(w as real), Fin(k as real))
    requires forall j :: 0 <= j < |cs| ==> cs[j] != '\n' && cs[j] != '\r'
    requires !st.needWidth && !st.stopped && st.width == size.width && st.height == Fin(h as real) && st.line < w
    requires h <= k && (k - h + 1) * w <= st.line + |cs|
    ensures ScanFrom(cs, 0, size, true, st) == ScanState(0, size.width, Fin(k as real), false, true)
  {
    assert (k - h + 1) * w == (k - h) * w + w;
    MulNonNegative(k - h, w);
    var next := ScanStep(size, true, st, cs[0]);
    ScanFirst(cs, size, true, st);
    if st.line + 1 == w {
      if h == k {
        assert next == ScanState(0, size.width, Fin(k as real), false, true);
      } else {
        assert next == ScanState(0, size.width, Fin((h + 1) as real), false, false);
        ScanWrapStops(cs[1..], size, next, w, h + 1, k);
      }
    } else {
      assert next == st.(line := st.line + 1);
      ScanWrapStops(cs[1..], size, next, w, h, k);
    }
  }

  /**
   * A text block of fixed width `w` and auto height whose available height
   * is the whole count `k`, and whose text without line breaks has enough
   * characters to wrap `k + 1` times, stops scanning at that wrap: it is
   * `k + 1` rows high.
   */
  lemma MeasureFixedWidthStops(w: nat, s: string, available: Extent, k: nat)
    requires w > 0
    requires forall j :: 0 <= j < |s| ==> s[j] != '\n' && s[j] != '\r'
    requires available.height == k as real && (k + 1) * w <= |s|
    ensures MeasureText(available, Number(Fin(w as real)), Auto, Literal(s)) ==
      Success(Size(Fin(w as real), Fin((k + 1) as real)))
  {
    var size := Size(Fin(w as real), Fin(available.height));
    ScanWrapStops(s, size, InitialScan(size, false, true), w, 0, k);
  }

  /** `"HelloWorldHello"` at width 5 with 2 rows available stops at the third wrap: 3 rows. */
  lemma HelloWorldHelloStops(available: Extent)
    requires available.height == 2.0
    ensures MeasureText(available, Number(Fin(5.0)), Auto, Literal("HelloWorldHello")) == Success(Size(Fin(5.0), Fin(3.0)))
  {
    MeasureFixedWidthStops(5, "HelloWorldHello", available, 2);
  }

  /** `"HelloWorld"` at width 5 measures 3 rows: two full rows and an empty one. */
  lemma HelloWorldWrapped(available: Extent)
    requires available.height >= 2.0
    ensures MeasureText(available, Number(Fin(5.0)), Auto, Literal("HelloWorld")) == Success(Size(Fin(5.0), Fin(3.0)))
  {
    MeasureFixedWidth(5, "HelloWorld", available);
  }
}
