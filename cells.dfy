/**
 * Cells (src/element.ts): the styled character cells an element renders
 * into, and the two-dimensional buffer that holds them.
 *
 * A buffer is `new Array(height)` filled with `new Array(width)` rows; a
 * slot nobody wrote is a hole (`undefined`), written `None` here.
 */
module Cells {
  import opened Wrappers

  /** A color keyword or a `#RRGGBB` value; `None` is `undefined`, the terminal's default. */
  type Color = Option<string>

  /** `CellStyle`: colors and font attributes of one cell. */
  datatype CellStyle = CellStyle(
    backgroundColor: Color,
    foregroundColor: Color,
    bold: bool,
    italic: bool,
    underline: bool)

  /** `Cell`: a style, the character shown and whether it needs redrawing. */
  datatype Cell = Cell(style: CellStyle, character: char, dirty: bool)

  /** The contents of a buffer, row by row. */
  type Grid = seq<seq<Option<Cell>>>

  /** A buffer of `height` rows of `width` holes. */
  function Blank(height: nat, width: nat): (g: Grid)
    ensures |g| == height
    ensures forall i :: 0 <= i < height ==> |g[i]| == width
    ensures forall i, j :: 0 <= i < height && 0 <= j < width ==> g[i][j] == None
  {
    seq(height, _ => seq(width, _ => None))
  }

  /** Every row of `g` has `width` slots. */
  predicate Rectangular(g: Grid, width: nat) {
    forall i :: 0 <= i < |g| ==> |g[i]| == width
  }

  /** The assignment `buffer[row][column] = cell`. */
  datatype Placement = Placement(row: nat, column: nat, cell: Cell)

  /**
   * The buffer after one assignment. A slot past the end of its row is not
   * kept: a buffer here has a fixed width.
   */
  function Place(g: Grid, p: Placement): (r: Grid)
    ensures |r| == |g|
    ensures forall i :: 0 <= i < |g| ==> |r[i]| == |g[i]|
    ensures p.row < |g| && p.column < |g[p.row]| ==> r[p.row][p.column] == Some(p.cell)
    ensures forall i, j :: 0 <= i < |g| && 0 <= j < |g[i]| && (i, j) != (p.row, p.column) ==> r[i][j] == g[i][j]
  {
    if p.row < |g| && p.column < |g[p.row]| then g[p.row := g[p.row][p.column := Some(p.cell)]] else g
  }

  /** The buffer after the assignments `writes`, made in order. */
  function Paint(g: Grid, writes: seq<Placement>): (r: Grid)
    ensures |r| == |g|
    ensures forall i :: 0 <= i < |g| ==> |r[i]| == |g[i]|
  {
    if writes == [] then g else Place(Paint(g, writes[..|writes| - 1]), writes[|writes| - 1])
  }

  /** Painting two batches of writes one after the other is painting them together. */
  lemma {:induction false} PaintConcat(g: Grid, a: seq<Placement>, b: seq<Placement>)
    ensures Paint(g, a + b) == Paint(Paint(g, a), b)
  {
    if b == [] {
      assert a + b == a;
    } else {
      var b' := b[..|b| - 1];
      assert (a + b)[..|a + b| - 1] == a + b';
      PaintConcat(g, a, b');
    }
  }

  /** Write `p` is aimed at slot `(i, j)`. */
  predicate Targets(p: Placement, i: nat, j: nat) {
    p.row == i && p.column == j
  }

  /** A slot that no write is aimed at keeps its content. */
  lemma {:induction false} PaintUntouched(g: Grid, writes: seq<Placement>, i: nat, j: nat)
    requires i < |g| && j < |g[i]|
    requires forall k :: 0 <= k < |writes| ==> !Targets(writes[k], i, j)
    ensures Paint(g, writes)[i][j] == g[i][j]
  {
    if writes != [] {
      var init := writes[..|writes| - 1];
      assert forall k :: 0 <= k < |init| ==> init[k] == writes[k];
      PaintUntouched(g, init, i, j);
    }
  }

  /** The last write aimed at a slot decides it. */
  lemma {:induction false} PaintLastWrite(g: Grid, writes: seq<Placement>, i: nat, j: nat, k: nat)
    requires i < |g| && j < |g[i]|
    requires k < |writes| && Targets(writes[k], i, j)
    requires forall m :: k < m < |writes| ==> !Targets(writes[m], i, j)
    ensures Paint(g, writes)[i][j] == Some(writes[k].cell)
  {
    var init := writes[..|writes| - 1];
    if k < |writes| - 1 {
      assert init[k] == writes[k];
      assert forall m :: k < m < |init| ==> init[m] == writes[m];
      PaintLastWrite(g, init, i, j, k);
    }
  }

  /** Two grids of the same shape with the same slots are the same grid. */
  lemma SameGrid(g: Grid, h: Grid)
    requires |g| == |h| && forall i :: 0 <= i < |g| ==> |g[i]| == |h[i]|
    requires forall i, j :: 0 <= i < |g| && 0 <= j < |g[i]| ==> g[i][j] == h[i][j]
    ensures g == h
  {
    forall i | 0 <= i < |g| ensures g[i] == h[i] {
      assert forall j :: 0 <= j < |g[i]| ==> g[i][j] == h[i][j];
    }
  }

  /** The contents of a two-dimensional buffer. */
  ghost function Snapshot(a: array2<Option<Cell>>): (g: Grid)
    reads a
    ensures |g| == a.Length0 && Rectangular(g, a.Length1)
    ensures forall i, j :: 0 <= i < a.Length0 && 0 <= j < a.Length1 ==> g[i][j] == a[i, j]
  {
    seq(a.Length0, i requires 0 <= i < a.Length0 reads a => seq(a.Length1, j requires 0 <= j < a.Length1 reads a => a[i, j]))
  }

  /**
   * `new Array(height)` whose rows are then each set to `new Array(width)`
   * (src/element.ts:226-229 and src/text-block.ts:163-166).
   */
  method NewGrid(height: nat, width: nat) returns (a: array2<Option<Cell>>)
    ensures fresh(a) && a.Length0 == height && a.Length1 == width
    ensures Snapshot(a) == Blank(height, width)
  {
    a := new Option<Cell>[height, width];
    for i := 0 to height
      invariant forall r, c :: 0 <= r < i && 0 <= c < width ==> a[r, c] == None
    {
      for j := 0 to width
        invariant forall r, c :: 0 <= r < i && 0 <= c < width ==> a[r, c] == None
        invariant forall c :: 0 <= c < j ==> a[i, c] == None
      {
        a[i, j] := None;
      }
    }
    SameGrid(Snapshot(a), Blank(height, width));
  }

  /** `buffer[row][column] = cell` on a buffer of fixed width. */
  method Put(a: array2<Option<Cell>>, p: Placement)
    modifies a
    ensures Snapshot(a) == Place(old(Snapshot(a)), p)
  {
    ghost var before := Snapshot(a);
    if p.row < a.Length0 && p.column < a.Length1 {
      a[p.row, p.column] := Some(p.cell);
    }
    SameGrid(Snapshot(a), Place(before, p));
  }

  /** One more write on a buffer that holds `initial` painted with `done`. */
  method PutNext(a: array2<Option<Cell>>, p: Placement, ghost initial: Grid, ghost done: seq<Placement>)
    requires Snapshot(a) == Paint(initial, done)
    modifies a
    ensures Snapshot(a) == Paint(initial, done + [p])
  {
    Put(a, p);
    PaintConcat(initial, done, [p]);
  }
}
