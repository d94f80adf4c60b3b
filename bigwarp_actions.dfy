/** Rules of the `BigWarpActions` actions: stepping through landmark rows, table selection,
    the undo/redo choice, warp-visualisation action names and the nail grid around the last
    fixed landmark. */
module BigWarpActions {
  import opened Common

  // ---------------------------------------------------------------------------------------
  // Row navigation and selection

  /** `WarpToNextAction`: one past (or before) the last selected row, 0 when nothing is
      selected, wrapped around the table. */
  function NextRow(selectedRows: seq<int>, fwd: bool, rowCount: int): (row: int)
    ensures rowCount > 0 ==> 0 <= row < rowCount
  {
    var last := if |selectedRows| > 0 then selectedRows[|selectedRows| - 1] else 0;
    var row := last + (if fwd then 1 else -1);
    if row >= rowCount then 0
    else if row < 0 then rowCount - 1
    else row
  }

  /** Stepping wraps at both ends, and a step forward followed by a step back returns to the
      row one started from. */
  lemma NextRowWraps(r: int, rowCount: int)
    requires 0 <= r < rowCount
    ensures r == rowCount - 1 ==> NextRow([r], true, rowCount) == 0
    ensures r == 0 ==> NextRow([r], false, rowCount) == rowCount - 1
    ensures r < rowCount - 1 ==> NextRow([r], true, rowCount) == r + 1
    ensures 0 < r ==> NextRow([r], false, rowCount) == r - 1
    ensures NextRow([NextRow([r], true, rowCount)], false, rowCount) == r
    ensures NextRow([NextRow([r], false, rowCount)], true, rowCount) == r
  {
  }

  /** `TableSelectionAction`: the selected rows afterwards. An out-of-range request clears
      the selection; otherwise exactly the requested row is selected. */
  function TableSelection(selection: int, rowCount: int): (sel: set<int>)
    ensures sel == {} <==> selection < 0 || selection >= rowCount
    ensures sel != {} ==> sel == {selection} && 0 <= selection < rowCount
  {
    if selection < 0 || selection >= rowCount then {} else {selection}
  }

  /** The row `WarpToNextAction` moves to is always one `TableSelectionAction` would select. */
  lemma NextRowSelectable(selectedRows: seq<int>, fwd: bool, rowCount: int)
    requires rowCount > 0
    ensures TableSelection(NextRow(selectedRows, fwd, rowCount), rowCount) == {NextRow(selectedRows, fwd, rowCount)}
  {
  }

  // ---------------------------------------------------------------------------------------
  // Undo / redo and action names

  const Undo: string := "undo"
  const Redo: string := "redo"

  class UndoRedoAction {
    const name: string
    const isRedo: bool

    /** The action redoes exactly when it is registered under the redo name. */
    constructor (name: string)
      ensures this.name == name
      ensures isRedo <==> name == Redo
    {
      this.name := name;
      isRedo := name == Redo;
    }
  }

  datatype WarpVisType = None | WarpMag | JacDet | Grid

  /** `WarpVisType.name()`. */
  function TypeName(t: WarpVisType): string
  {
    match t
    case None => "NONE"
    case WarpMag => "WARPMAG"
    case JacDet => "JACDET"
    case Grid => "GRID"
  }

  const SetWarpTypeVis: string := "set warp vis type "

  /** `SetWarpVisTypeAction.getName`: the plain format without a viewer frame, prefixed with
      "p " for the moving frame and "q " for the fixed one. `frame` is `Some(isMoving)` or
      `None` for a null frame. */
  function GetName(t: WarpVisType, frame: Option<bool>): (name: string)
    ensures var k := |name| - |SetWarpTypeVis + TypeName(t)|;
      k >= 0 && name[k..] == SetWarpTypeVis + TypeName(t) &&
      (frame.None? ==> k == 0) &&
      (frame.Some? ==> name[..k] == (if frame.value then "p " else "q "))
  {
    if frame.None? then SetWarpTypeVis + TypeName(t)
    else if frame.value then "p " + SetWarpTypeVis + TypeName(t)
    else "q " + SetWarpTypeVis + TypeName(t)
  }

  /** Distinct actions get distinct names: the name determines both the type and the frame. */
  lemma GetNameInjective(t1: WarpVisType, f1: Option<bool>, t2: WarpVisType, f2: Option<bool>)
    requires GetName(t1, f1) == GetName(t2, f2)
    ensures t1 == t2 && f1 == f2
  {
    var n := GetName(t1, f1);
    assert n[0] == (if f1.None? then 's' else if f1.value then 'p' else 'q');
    assert n[0] == (if f2.None? then 's' else if f2.value then 'p' else 'q');
    var k := if f1.None? then |SetWarpTypeVis| else |SetWarpTypeVis| + 2;
    assert n[k..] == TypeName(t1);
    assert n[k..] == TypeName(t2);
  }

  // ---------------------------------------------------------------------------------------
  // Nail grid

  /** One `addPoint` call: the point and whether it went to the moving side. */
  datatype AddedPoint = AddedPoint(pt: Point3, moving: bool)

  /** How many grid coordinates `for (x = c - r; x <= c + r; x += f)` visits. */
  function AxisCount(radius: int, factor: int): nat
    requires factor > 0
  {
    if radius < 0 then 0 else 2 * radius / factor + 1
  }

  lemma AxisCountMeaning(radius: int, factor: int, i: nat)
    requires factor > 0
    ensures i < AxisCount(radius, factor) <==> i * factor <= 2 * radius
  {
    if radius >= 0 {
      var q, r := 2 * radius / factor, 2 * radius % factor;
      assert 2 * radius == q * factor + r;
      if i <= q {
        assert i * factor <= q * factor by {
          MulMono(i, q, factor);
        }
      } else {
        assert (q + 1) * factor <= i * factor by {
          MulMono(q + 1, i, factor);
        }
      }
    }
  }

  lemma MulMono(a: int, b: int, f: nat)
    ensures a <= b ==> a * f <= b * f
  {
  }

  /** The coordinates the loop visits along one axis. */
  function Axis(c: real, radius: int, factor: int): (xs: seq<real>)
    requires factor > 0
    ensures |xs| == AxisCount(radius, factor)
  {
    seq(AxisCount(radius, factor), i requires 0 <= i => c - radius as real + (i * factor) as real)
  }

  lemma MulStrict(a: int, b: int, f: int)
    requires a < b && f > 0
    ensures a * f < b * f
  {
    assert b * f - a * f == (b - a) * f;
    MulMono(1, b - a, f);
  }

  /** Euclidean division is determined by its defining equation. */
  lemma DivModUnique(n: int, f: int, q: int, r: int)
    requires f > 0 && 0 <= r < f && n == q * f + r
    ensures n / f == q && n % f == r
  {
    var q' := n / f;
    if q' < q {
      MulMono(q' + 1, q, f);
    } else if q < q' {
      MulMono(q + 1, q', f);
    }
  }

  /** The visited coordinates increase strictly. */
  lemma AxisIncreasing(c: real, radius: int, factor: int, i: int, j: int)
    requires factor > 0 && 0 <= i < j < AxisCount(radius, factor)
    ensures Axis(c, radius, factor)[i] < Axis(c, radius, factor)[j]
  {
    MulStrict(i, j, factor);
  }

  /** The visited coordinates stay within `c +/- radius`. */
  lemma AxisWithin(c: real, radius: int, factor: int, i: int)
    requires factor > 0 && 0 <= i < AxisCount(radius, factor)
    ensures c - radius as real <= Axis(c, radius, factor)[i] <= c + radius as real
  {
    AxisCountMeaning(radius, factor, i);
    MulMono(0, i, factor);
  }

  /** The centre is visited exactly when the radius is a non-negative multiple of the step. */
  lemma AxisHasCentre(c: real, radius: int, factor: int)
    requires factor > 0
    ensures c in Axis(c, radius, factor) <==> radius >= 0 && radius % factor == 0
  {
    var xs := Axis(c, radius, factor);
    if c in xs {
      var i :| 0 <= i < |xs| && xs[i] == c;
      assert i * factor == radius;
      DivModUnique(radius, factor, i, 0);
    }
    if radius >= 0 && radius % factor == 0 {
      var i := radius / factor;
      assert radius == i * factor + radius % factor;
      MulMono(0, i, factor);
      AxisCountMeaning(radius, factor, i);
      assert xs[i] == c;
    }
  }

  lemma AxisDistinct(c: real, radius: int, factor: int)
    requires factor > 0
    ensures Distinct(Axis(c, radius, factor))
  {
    var xs := Axis(c, radius, factor);
    forall i, j | 0 <= i < j < |xs|
      ensures xs[i] != xs[j]
    {
      AxisIncreasing(c, radius, factor, i, j);
    }
  }

  /** The cells of one column `x` of the grid, skipping the centre. */
  function RowCells(x: real, ys: seq<real>, c0: real, c1: real): seq<(real, real)>
    decreases |ys|
  {
    if ys == [] then []
    else
      var y := ys[|ys| - 1];
      RowCells(x, ys[..|ys| - 1], c0, c1) + (if x == c0 && y == c1 then [] else [(x, y)])
  }

  /** The visited cells, x outermost, skipping the centre. */
  function GridCells(xs: seq<real>, ys: seq<real>, c0: real, c1: real): seq<(real, real)>
    decreases |xs|
  {
    if xs == [] then []
    else GridCells(xs[..|xs| - 1], ys, c0, c1) + RowCells(xs[|xs| - 1], ys, c0, c1)
  }

  /** `hmAccess.setPosition(pos)` then `hmAccess.get().get()`: the heightmap value at column
      (px, py); the heightmap is a foreign image given as the function `hm`. */
  function HeightmapSample(hm: (int, int) -> real, px: int, py: int): real
  {
    hm(px, py)
  }

  /** `bw.currentTransform.inverse().apply(p, out)`: the foreign inverse transform, given as the
      function `inverse`. */
  function MapBack(inverse: Point3 -> Point3, p: Point3): Point3
  {
    inverse(p)
  }

  /** A grid coordinate in fixed space: `coordinate * getCostStep()`. */
  function Scale(v: real, costStep: real): real
  {
    v * costStep
  }

  /** The fixed-space point of a cell: scaled by the cost step, at the heightmap value of the
      truncated cell position. */
  function NailPoint(cell: (real, real), costStep: real, hm: (int, int) -> real): Point3
  {
    Point3(Scale(cell.0, costStep), Scale(cell.1, costStep), HeightmapSample(hm, Trunc(cell.0), Trunc(cell.1)))
  }

  /** Two `addPoint` calls per cell: the moving point (the fixed point mapped back through the
      inverse transform) first, then the fixed point. */
  function NailPairs(cells: seq<(real, real)>, costStep: real, hm: (int, int) -> real,
                     inverse: Point3 -> Point3): seq<AddedPoint>
    decreases |cells|
  {
    if cells == [] then []
    else var p := NailPoint(cells[|cells| - 1], costStep, hm);
      NailPairs(cells[..|cells| - 1], costStep, hm, inverse) + [AddedPoint(MapBack(inverse, p), true), AddedPoint(p, false)]
  }

  lemma {:induction false} NailPairsAppend(a: seq<(real, real)>, b: seq<(real, real)>, costStep: real,
                                           hm: (int, int) -> real, inverse: Point3 -> Point3)
    ensures NailPairs(a + b, costStep, hm, inverse) ==
      NailPairs(a, costStep, hm, inverse) + NailPairs(b, costStep, hm, inverse)
    decreases |b|
  {
    if b == [] {
      assert a + b == a;
    } else {
      assert (a + b)[..|a + b| - 1] == a + b[..|b| - 1];
      NailPairsAppend(a, b[..|b| - 1], costStep, hm, inverse);
    }
  }

  /** Every cell adds exactly two points, moving first and then fixed, the moving one being
      the fixed one mapped back. */
  lemma {:induction false} NailPairsShape(cells: seq<(real, real)>, costStep: real,
                                          hm: (int, int) -> real, inverse: Point3 -> Point3)
    ensures var added := NailPairs(cells, costStep, hm, inverse);
      |added| == 2 * |cells| &&
      forall k :: 0 <= k < |cells| ==>
        added[2 * k] == AddedPoint(MapBack(inverse, NailPoint(cells[k], costStep, hm)), true) &&
        added[2 * k + 1] == AddedPoint(NailPoint(cells[k], costStep, hm), false)
    decreases |cells|
  {
    if cells != [] {
      NailPairsShape(cells[..|cells| - 1], costStep, hm, inverse);
    }
  }

  /** One more visited y extends a column by that cell's two points, unless it is the centre. */
  lemma ColumnStep(x: real, ys: seq<real>, j: int, c0: real, c1: real, costStep: real,
                   hm: (int, int) -> real, inverse: Point3 -> Point3)
    requires 0 <= j < |ys|
    ensures NailPairs(RowCells(x, ys[..j + 1], c0, c1), costStep, hm, inverse) ==
      NailPairs(RowCells(x, ys[..j], c0, c1), costStep, hm, inverse) +
      (if x == c0 && ys[j] == c1 then []
       else [AddedPoint(MapBack(inverse, NailPoint((x, ys[j]), costStep, hm)), true), AddedPoint(NailPoint((x, ys[j]), costStep, hm), false)])
  {
    var before := RowCells(x, ys[..j], c0, c1);
    assert ys[..j + 1][..j] == ys[..j];
    if !(x == c0 && ys[j] == c1) {
      assert (before + [(x, ys[j])])[..|before|] == before;
    } else {
      assert before + [] == before;
    }
  }

  /** The loop's first coordinate is `c - radius`, present exactly when the radius is
      non-negative. */
  lemma AxisFirst(c: real, radius: int, factor: int)
    requires factor > 0
    ensures var xs := Axis(c, radius, factor);
      (|xs| > 0 ==> xs[0] == c - radius as real) && (|xs| > 0 <==> c - radius as real <= c + radius as real)
  {
    AxisCountMeaning(radius, factor, 0);
  }

  /** Each later coordinate is the previous one plus the step; the step after the last one
      leaves `c + radius` behind. */
  lemma AxisNext(c: real, radius: int, factor: int, j: int)
    requires factor > 0 && 0 <= j < AxisCount(radius, factor)
    ensures var xs := Axis(c, radius, factor);
      xs[j] <= c + radius as real &&
      (j + 1 < |xs| ==> xs[j + 1] == xs[j] + factor as real) &&
      (j + 1 == |xs| ==> xs[j] + factor as real > c + radius as real)
  {
    AxisCountMeaning(radius, factor, j);
    AxisCountMeaning(radius, factor, j + 1);
    assert (j + 1) * factor == j * factor + factor;
  }

  /** What the `for (v = lo; v <= hi; v += step)` loops rely on about the coordinates they
      visit: they start at `lo`, go up by `step`, stay at most `hi`, and the step after the
      last one passes `hi`. */
  predicate Stepped(vs: seq<real>, lo: real, hi: real, step: real)
  {
    (|vs| > 0 <==> lo <= hi) &&
    (|vs| > 0 ==> vs[0] == lo && vs[|vs| - 1] + step > hi) &&
    (forall j :: 0 <= j < |vs| ==> vs[j] <= hi) &&
    (forall j :: 0 < j < |vs| ==> vs[j] == vs[j - 1] + step)
  }

  lemma AxisStepped(c: real, radius: int, factor: int)
    requires factor > 0
    ensures Stepped(Axis(c, radius, factor), c - radius as real, c + radius as real, factor as real)
  {
    var xs := Axis(c, radius, factor);
    AxisFirst(c, radius, factor);
    forall j | 0 <= j < |xs|
      ensures xs[j] <= c + radius as real
    {
      AxisNext(c, radius, factor, j);
    }
    forall j | 0 < j < |xs|
      ensures xs[j] == xs[j - 1] + factor as real
    {
      AxisNext(c, radius, factor, j - 1);
    }
    if |xs| > 0 {
      AxisNext(c, radius, factor, |xs| - 1);
    }
  }

  /** One pass of the inner loop of the grid: the column at `x` (truncated to `px`), over the
      y coordinates `ys` that the loop from `c1 - radius` to `c1 + radius` visits. */
  method NailColumn(c0: real, c1: real, x: real, px: int, radius: int, factor: int, costStep: real,
                    hm: (int, int) -> real, inverse: Point3 -> Point3, ghost ys: seq<real>)
    returns (col: seq<AddedPoint>)
    requires px == Trunc(x)
    requires Stepped(ys, c1 - radius as real, c1 + radius as real, factor as real)
    ensures col == NailPairs(RowCells(x, ys, c0, c1), costStep, hm, inverse)
  {
    col := [];
    var y := c1 - radius as real;
    ghost var j := 0;
    while y <= c1 + radius as real
      invariant 0 <= j <= |ys|
      invariant j < |ys| ==> y == ys[j]
      invariant j == |ys| ==> y > c1 + radius as real
      invariant col == NailPairs(RowCells(x, ys[..j], c0, c1), costStep, hm, inverse)
      decreases |ys| - j
    {
      ColumnStep(x, ys, j, c0, c1, costStep, hm, inverse);
      var py := Trunc(y);
      if !(x == c0 && y == c1) {
        var ptarrayLoc := Point3(Scale(x, costStep), Scale(y, costStep), HeightmapSample(hm, px, py));
        assert ptarrayLoc == NailPoint((x, ys[j]), costStep, hm);
        var ptBackLoc := MapBack(inverse, ptarrayLoc);
        col := col + [AddedPoint(ptBackLoc, true), AddedPoint(ptarrayLoc, false)];
      }
      y := y + factor as real;
      j := j + 1;
    }
    assert ys[..j] == ys;
  }

  /** The outer loop of the grid over the x coordinates `xs`, each column over `ys`. */
  method NailRows(c0: real, c1: real, radius: int, factor: int, costStep: real,
                  hm: (int, int) -> real, inverse: Point3 -> Point3, ghost xs: seq<real>, ghost ys: seq<real>)
    returns (added: seq<AddedPoint>)
    requires Stepped(xs, c0 - radius as real, c0 + radius as real, factor as real)
    requires Stepped(ys, c1 - radius as real, c1 + radius as real, factor as real)
    ensures added == NailPairs(GridCells(xs, ys, c0, c1), costStep, hm, inverse)
  {
    added := [];
    var x := c0 - radius as real;
    ghost var i := 0;
    while x <= c0 + radius as real
      invariant 0 <= i <= |xs|
      invariant i < |xs| ==> x == xs[i]
      invariant i == |xs| ==> x > c0 + radius as real
      invariant added == NailPairs(GridCells(xs[..i], ys, c0, c1), costStep, hm, inverse)
      decreases |xs| - i
    {
      var px := Trunc(x);
      var col := NailColumn(c0, c1, x, px, radius, factor, costStep, hm, inverse, ys);
      assert xs[..i + 1][..i] == xs[..i];
      NailPairsAppend(GridCells(xs[..i], ys, c0, c1), RowCells(x, ys, c0, c1), costStep, hm, inverse);
      added := added + col;
      x := x + factor as real;
      i := i + 1;
    }
    assert xs[..i] == xs;
  }

  /** The `GenerateNailsAction` grid loop around the centre (c0, c1), given in cost-grid units.
      `hm` is the corresponding heightmap and `inverse` the current transform's inverse. */
  method GenerateNailGrid(c0: real, c1: real, radius: int, factor: int, costStep: real,
                          hm: (int, int) -> real, inverse: Point3 -> Point3)
    returns (added: seq<AddedPoint>)
    requires factor > 0
    ensures added == NailPairs(GridCells(Axis(c0, radius, factor), Axis(c1, radius, factor), c0, c1),
                               costStep, hm, inverse)
  {
    AxisStepped(c0, radius, factor);
    AxisStepped(c1, radius, factor);
    added := NailRows(c0, c1, radius, factor, costStep, hm, inverse,
                      Axis(c0, radius, factor), Axis(c1, radius, factor));
  }

  predicate Distinct(s: seq<real>)
  {
    forall i, j :: 0 <= i < j < |s| ==> s[i] != s[j]
  }

  /** A column holds one cell per visited y, less the centre when it is visited. */
  lemma {:induction false} RowCellsLength(x: real, ys: seq<real>, c0: real, c1: real)
    requires Distinct(ys)
    ensures |RowCells(x, ys, c0, c1)| == |ys| - (if x == c0 && c1 in ys then 1 else 0)
    decreases |ys|
  {
    if ys != [] {
      var init, y := ys[..|ys| - 1], ys[|ys| - 1];
      RowCellsLength(x, init, c0, c1);
      assert c1 in ys <==> c1 in init || c1 == y;
      assert y !in init;
    }
  }

  /** A column holds every coordinate except the centre's, and only those. */
  lemma {:induction false} RowCellsContents(x: real, ys: seq<real>, c0: real, c1: real)
    requires Distinct(ys)
    ensures |RowCells(x, ys, c0, c1)| == |ys| - (if x == c0 && c1 in ys then 1 else 0)
    ensures forall cell :: cell in RowCells(x, ys, c0, c1) <==> cell.0 == x && cell.1 in ys && cell != (c0, c1)
    decreases |ys|
  {
    RowCellsLength(x, ys, c0, c1);
    if ys != [] {
      var init := ys[..|ys| - 1];
      RowCellsContents(x, init, c0, c1);
      assert forall y :: y in ys <==> y in init || y == ys[|ys| - 1];
    }
  }

  /** The grid holds every pair of visited coordinates except the centre. */
  lemma {:induction false} GridCellsMembers(xs: seq<real>, ys: seq<real>, c0: real, c1: real)
    requires Distinct(ys)
    ensures forall cell :: cell in GridCells(xs, ys, c0, c1) <==> cell.0 in xs && cell.1 in ys && cell != (c0, c1)
    decreases |xs|
  {
    if xs != [] {
      var init := xs[..|xs| - 1];
      GridCellsMembers(init, ys, c0, c1);
      RowCellsContents(xs[|xs| - 1], ys, c0, c1);
      assert forall v :: v in xs <==> v in init || v == xs[|xs| - 1];
    }
  }

  /** ... and each of them once. */
  lemma {:induction false} GridCellsCount(xs: seq<real>, ys: seq<real>, c0: real, c1: real)
    requires Distinct(xs) && Distinct(ys)
    ensures |GridCells(xs, ys, c0, c1)| == |xs| * |ys| - (if c0 in xs && c1 in ys then 1 else 0)
    decreases |xs|
  {
    if xs != [] {
      var init := xs[..|xs| - 1];
      var x := xs[|xs| - 1];
      GridCellsCount(init, ys, c0, c1);
      RowCellsLength(x, ys, c0, c1);
      assert GridCells(xs, ys, c0, c1) == GridCells(init, ys, c0, c1) + RowCells(x, ys, c0, c1);
      assert x !in init;
      assert c0 in xs <==> c0 in init || c0 == x;
      MulSucc(|init|, |ys|);
    }
  }

  lemma MulSucc(a: int, b: int)
    ensures (a + 1) * b == a * b + b
  {
  }

  /** The nail grid around (c0, c1) visits the n x n coordinates of the two axes, leaves out
      the centre (which is on the grid exactly when the step divides the radius), and adds two
      points for each remaining cell: `2 * (n * n - 1)` or `2 * n * n` points in all. */
  lemma NailGridCount(c0: real, c1: real, radius: int, factor: int, costStep: real,
                      hm: (int, int) -> real, inverse: Point3 -> Point3)
    requires factor > 0
    ensures var xs, ys := Axis(c0, radius, factor), Axis(c1, radius, factor);
      var cells := GridCells(xs, ys, c0, c1);
      var n := AxisCount(radius, factor);
      |NailPairs(cells, costStep, hm, inverse)| ==
        2 * (n * n - (if radius >= 0 && radius % factor == 0 then 1 else 0)) &&
      (c0, c1) !in cells &&
      forall cell :: cell in cells ==>
        c0 - radius as real <= cell.0 <= c0 + radius as real && c1 - radius as real <= cell.1 <= c1 + radius as real
  {
    var xs, ys := Axis(c0, radius, factor), Axis(c1, radius, factor);
    AxisDistinct(c0, radius, factor);
    AxisDistinct(c1, radius, factor);
    AxisHasCentre(c0, radius, factor);
    AxisHasCentre(c1, radius, factor);
    GridCellsCount(xs, ys, c0, c1);
    GridCellsMembers(xs, ys, c0, c1);
    forall v | v in xs ensures c0 - radius as real <= v <= c0 + radius as real {
      var i :| 0 <= i < |xs| && xs[i] == v;
      AxisWithin(c0, radius, factor, i);
    }
    forall v | v in ys ensures c1 - radius as real <= v <= c1 + radius as real {
      var i :| 0 <= i < |ys| && ys[i] == v;
      AxisWithin(c1, radius, factor, i);
    }
    NailPairsShape(GridCells(xs, ys, c0, c1), costStep, hm, inverse);
  }
}
