/** Helpers of the `BigWarp` class: assembling homogeneous affine matrices, choosing the table
    row to select, wrapping the sources to be warped, deciding the display dimensionality and
    switching landmark mode. Matrices are sequences of rows. */
module BigWarpHelpers {
  import opened Common

  // ---------------------------------------------------------------------------------------
  // Homogeneous affine matrices

  function Dot(a: seq<real>, b: seq<real>): real
    requires |a| == |b|
    decreases |a|
  {
    if |a| == 0 then 0.0 else Dot(a[..|a| - 1], b[..|b| - 1]) + a[|a| - 1] * b[|b| - 1]
  }

  lemma Dot2(a: seq<real>, x: seq<real>)
    requires |a| == |x| == 2
    ensures Dot(a, x) == a[0] * x[0] + a[1] * x[1]
  {
    assert Dot(a[..1], x[..1]) == Dot(a[..1][..0], x[..1][..0]) + a[0] * x[0];
    assert Dot(a[..1][..0], x[..1][..0]) == 0.0;
  }

  lemma Dot3(a: seq<real>, x: seq<real>)
    requires |a| == |x| == 3
    ensures Dot(a, x) == a[0] * x[0] + a[1] * x[1] + a[2] * x[2]
  {
    Dot2(a[..2], x[..2]);
  }

  /** An n x (n+1) matrix: n rows, each the linear part followed by the translation. */
  predicate IsHomogeneous(m: seq<seq<real>>, n: nat)
  {
    |m| == n && forall r :: 0 <= r < n ==> |m[r]| == n + 1
  }

  predicate IsSquare(a: seq<seq<real>>, n: nat)
  {
    |a| == n && forall r :: 0 <= r < n ==> |a[r]| == n
  }

  /** The image of `x` under a homogeneous matrix: row r gives `m[r][..n] . x + m[r][n]`. */
  function AffineApply(m: seq<seq<real>>, x: seq<real>): (y: seq<real>)
    requires IsHomogeneous(m, |x|)
    ensures |y| == |x|
  {
    seq(|x|, r requires 0 <= r < |x| => Dot(m[r][..|x|], x) + m[r][|x|])
  }

  /** The thin-plate spline's affine part as the spline stores it: without the identity,
      `y = x + A x + t`. */
  function TpsAffineImage(a: seq<seq<real>>, t: seq<real>, x: seq<real>): (y: seq<real>)
    requires IsSquare(a, |x|) && |t| == |x|
    ensures |y| == |x|
  {
    seq(|x|, r requires 0 <= r < |x| => x[r] + Dot(a[r], x) + t[r])
  }

  /** Adding one to a coefficient adds the matching coordinate to the product. */
  lemma {:induction false} DotBump(a: seq<real>, x: seq<real>, r: int)
    requires |a| == |x| && 0 <= r < |a|
    ensures Dot(a[r := a[r] + 1.0], x) == Dot(a, x) + x[r]
  {
    var n := |a|;
    var e := a[r := a[r] + 1.0];
    if r == n - 1 {
      assert e[..n - 1] == a[..n - 1];
    } else {
      assert e[..n - 1] == a[..n - 1][r := a[r] + 1.0];
      DotBump(a[..n - 1], x[..n - 1], r);
    }
  }

  /** `affinePartOfTpsHC`: an n x (n+1) matrix (n = 2 for a 2D session, else 3) whose last
      column is the translation, whose diagonal is one plus the spline's affine coefficient
      and whose other entries are the coefficients. It maps every point as the spline's
      affine part does. */
  method AffinePartOfTpsHC(is2d: bool, tpsAffine: seq<seq<real>>, translation: seq<real>)
    returns (mtx: seq<seq<real>>)
    requires IsSquare(tpsAffine, if is2d then 2 else 3)
    requires |translation| == if is2d then 2 else 3
    ensures IsHomogeneous(mtx, if is2d then 2 else 3)
    ensures forall x :: |x| == |translation| ==>
      AffineApply(mtx, x) == TpsAffineImage(tpsAffine, translation, x)
  {
    var nr, nc := 3, 4;
    if is2d {
      nr, nc := 2, 3;
    }
    mtx := [];
    for r := 0 to nr
      invariant |mtx| == r
      invariant forall i :: 0 <= i < r ==> |mtx[i]| == nc
      invariant forall i :: 0 <= i < r ==> mtx[i][..nr] == tpsAffine[i][i := tpsAffine[i][i] + 1.0]
      invariant forall i :: 0 <= i < r ==> mtx[i][nr] == translation[i]
    {
      var row := [];
      for c := 0 to nc
        invariant |row| == c
        invariant forall j :: 0 <= j < c && j < nr ==>
          row[j] == tpsAffine[r][r := tpsAffine[r][r] + 1.0][j]
        invariant forall j :: 0 <= j < c && j == nr ==> row[j] == translation[r]
      {
        if c == nc - 1 {
          row := row + [translation[r]];
        } else if r == c {
          row := row + [1.0 + tpsAffine[r][c]];
        } else {
          row := row + [tpsAffine[r][c]];
        }
      }
      assert row[..nr] == tpsAffine[r][r := tpsAffine[r][r] + 1.0];
      mtx := mtx + [row];
    }
    forall x | |x| == |translation|
      ensures AffineApply(mtx, x) == TpsAffineImage(tpsAffine, translation, x)
    {
      forall r | 0 <= r < nr
        ensures AffineApply(mtx, x)[r] == TpsAffineImage(tpsAffine, translation, x)[r]
      {
        DotBump(tpsAffine[r], x, r);
      }
    }
  }

  /** A matrix's rows as a value. */
  function Rows(m: array2<real>): (rows: seq<seq<real>>)
    reads m
    ensures |rows| == m.Length0 && forall r :: 0 <= r < |rows| ==> |rows[r]| == m.Length1
  {
    seq(m.Length0, r requires 0 <= r < m.Length0 reads m =>
      seq(m.Length1, c requires 0 <= c < m.Length1 reads m => m[r, c]))
  }

  /** What `affineMatrix2DtoAffineMatrix3D` leaves in a 3 x 4 matrix that held `base`: the
      2D linear part and translation are copied into rows 0 and 1 (columns 0, 1 and 3);
      row 2 and column 2 keep what they held. */
  function Lifted(a2: seq<seq<real>>, base: seq<seq<real>>): (m: seq<seq<real>>)
    requires IsHomogeneous(a2, 2) && IsHomogeneous(base, 3)
    ensures IsHomogeneous(m, 3)
  {
    seq(3, r requires 0 <= r < 3 =>
      if r == 2 then base[2]
      else [a2[r][0], a2[r][1], base[r][2], a2[r][2]])
  }

  /** `affineMatrix2DtoAffineMatrix3D`: copy the 2D matrix into the 3D one in place. */
  method AffineMatrix2DtoAffineMatrix3D(a2: seq<seq<real>>, a3: array2<real>)
    requires IsHomogeneous(a2, 2) && a3.Length0 == 3 && a3.Length1 == 4
    modifies a3
    ensures Rows(a3) == Lifted(a2, old(Rows(a3)))
  {
    ghost var base := Rows(a3);
    for d := 0 to 2
      invariant forall r, c :: 0 <= r < 3 && 0 <= c < 4 ==>
        a3[r, c] == if r < d && c != 2 then Lifted(a2, base)[r][c] else base[r][c]
    {
      a3[d, 0] := a2[d][0];
      a3[d, 1] := a2[d][1];
      a3[d, 3] := a2[d][2];
    }
    assert forall r :: 0 <= r < 3 ==> Rows(a3)[r] == Lifted(a2, base)[r];
  }

  function ZeroMatrix3(): (m: seq<seq<real>>)
    ensures IsHomogeneous(m, 3)
  {
    [[0.0, 0.0, 0.0, 0.0], [0.0, 0.0, 0.0, 0.0], [0.0, 0.0, 0.0, 0.0]]
  }

  function IdentityMatrix3(): (m: seq<seq<real>>)
    ensures IsHomogeneous(m, 3)
  {
    [[1.0, 0.0, 0.0, 0.0], [0.0, 1.0, 0.0, 0.0], [0.0, 0.0, 1.0, 0.0]]
  }

  /** As used for the 2D models in `getMovingToFixedTransformAsAffineTransform3D`: the
      target is a freshly allocated (all zero) 3 x 4 array. */
  function Lift2DAsWritten(a2: seq<seq<real>>): (m: seq<seq<real>>)
    requires IsHomogeneous(a2, 2)
    ensures IsHomogeneous(m, 3)
  {
    Lifted(a2, ZeroMatrix3())
  }

  /** The lifted transform sends every point to z = 0: even the 2D identity moves (0, 0, 5). */
  lemma Lift2DAsWrittenCollapsesZ(a2: seq<seq<real>>, x: seq<real>)
    requires IsHomogeneous(a2, 2) && |x| == 3
    ensures AffineApply(Lift2DAsWritten(a2), x)[2] == 0.0
    ensures var id2 := [[1.0, 0.0, 0.0], [0.0, 1.0, 0.0]];
      AffineApply(Lift2DAsWritten(id2), [0.0, 0.0, 5.0]) == [0.0, 0.0, 0.0]
  {
    Dot3(Lift2DAsWritten(a2)[2][..3], x);
    var mi := Lift2DAsWritten([[1.0, 0.0, 0.0], [0.0, 1.0, 0.0]]);
    var p := [0.0, 0.0, 5.0];
    Dot3(mi[0][..3], p);
    Dot3(mi[1][..3], p);
    Dot3(mi[2][..3], p);
  }

  /** The lift as evidently intended: the identity on z. */
  function Lift2D(a2: seq<seq<real>>): (m: seq<seq<real>>)
    requires IsHomogeneous(a2, 2)
    ensures IsHomogeneous(m, 3)
  {
    Lifted(a2, IdentityMatrix3())
  }

  /** The intended lift acts as the 2D transform on (x, y) and keeps z. */
  lemma Lift2DKeepsZ(a2: seq<seq<real>>, x: real, y: real, z: real)
    requires IsHomogeneous(a2, 2)
    ensures AffineApply(Lift2D(a2), [x, y, z]) == AffineApply(a2, [x, y]) + [z]
  {
    var m := Lift2D(a2);
    var p := [x, y, z];
    Dot3(m[0][..3], p);
    Dot3(m[1][..3], p);
    Dot3(m[2][..3], p);
    Dot2(a2[0][..2], [x, y]);
    Dot2(a2[1][..2], [x, y]);
    var lhs, rhs := AffineApply(m, p), AffineApply(a2, [x, y]) + [z];
    assert lhs[0] == rhs[0] && lhs[1] == rhs[1] && lhs[2] == rhs[2];
  }

  /** The 2D branch of `getMovingToFixedTransformAsAffineTransform3D`, with the target
      prepared as the identity so that the lift keeps z. */
  method MovingToFixedAffine3D(a2: seq<seq<real>>) returns (a3: array2<real>)
    requires IsHomogeneous(a2, 2)
    ensures fresh(a3) && a3.Length0 == 3 && a3.Length1 == 4
    ensures Rows(a3) == Lift2D(a2)
  {
    a3 := new real[3, 4]((r, c) => if r == c then 1.0 else 0.0);
    assert forall r :: 0 <= r < 3 ==> Rows(a3)[r] == IdentityMatrix3()[r];
    AffineMatrix2DtoAffineMatrix3D(a2, a3);
  }

  // ---------------------------------------------------------------------------------------
  // Landmark table rows

  /** `updateRowSelection`: select the next row that still needs a point on this side when
      the table has it, else re-select the last edited row when that is a table row, else
      leave the selection alone (`None`). `nextRow` is what the landmark model's
      `getNextRow` reports: a row index, so never negative. */
  function UpdateRowSelection(nextRow: int, rowCount: int, lastRowEdited: int): (sel: Option<int>)
    requires 0 <= nextRow
    ensures sel.Some? ==> 0 <= sel.value < rowCount
    ensures sel == Some(nextRow) <== nextRow < rowCount
    ensures sel == Some(lastRowEdited) <== rowCount <= nextRow && 0 <= lastRowEdited < rowCount
    ensures sel.None? <==> rowCount <= nextRow && !(0 <= lastRowEdited < rowCount)
  {
    if nextRow < rowCount then Some(nextRow)
    else if 0 <= lastRowEdited < rowCount then Some(lastRowEdited)
    else None
  }

  /** Which points a landmark row holds. */
  datatype Row = Row(hasMoving: bool, hasFixed: bool)

  function HasPoint(row: Row, isMoving: bool): bool
  {
    if isMoving then row.hasMoving else row.hasFixed
  }

  /** `getSelectedUnpairedRow`: the selected row when it lacks the point of the given side,
      otherwise -1. `selected` is the table's selection, -1 when none. */
  function GetSelectedUnpairedRow(rows: seq<Row>, selected: int, isMoving: bool): (r: int)
    requires -1 <= selected < |rows|
    ensures r == -1 || r == selected
    ensures r >= 0 <==> 0 <= selected && !HasPoint(rows[selected], isMoving)
  {
    if selected >= 0 && !HasPoint(rows[selected], isMoving) then selected else -1
  }

  // ---------------------------------------------------------------------------------------
  // Sources

  predicate Sorted(a: seq<int>)
  {
    forall i, j :: 0 <= i < j < |a| ==> a[i] <= a[j]
  }

  /** `Arrays.binarySearch(int[], int)` on a sorted array: a position holding the key, or
      `-(insertion point) - 1` when the key is absent. */
  method BinarySearch(a: seq<int>, key: int) returns (r: int)
    requires Sorted(a)
    ensures 0 <= r ==> r < |a| && a[r] == key
    ensures r < 0 ==> key !in a
    ensures r < 0 ==> var ins := -r - 1;
      0 <= ins <= |a| && (forall i :: 0 <= i < ins ==> a[i] < key) && (forall i :: ins <= i < |a| ==> key < a[i])
  {
    var low, high := 0, |a| - 1;
    while low <= high
      invariant 0 <= low <= high + 1 <= |a|
      invariant forall i :: 0 <= i < low ==> a[i] < key
      invariant forall i :: high < i < |a| ==> key < a[i]
    {
      var mid := (low + high) / 2;
      var midVal := a[mid];
      if midVal < key {
        low := mid + 1;
      } else if midVal > key {
        high := mid - 1;
      } else {
        return mid;
      }
    }
    r := -(low + 1);
  }

  /** A source after `wrapSourcesAsTransformed`. */
  datatype Wrapped<S> = Transformed(source: S, name: string, ndims: int) | AsIs(source: S)

  function DigitChar(d: int): char
    requires 0 <= d < 10
  {
    "0123456789"[d]
  }

  /** The decimal text of a non-negative number, as string concatenation prints it. */
  function Decimal(n: nat): string
    decreases n
  {
    if n < 10 then [DigitChar(n)] else Decimal(n / 10) + [DigitChar(n % 10)]
  }

  /** `wrapSourcesAsTransformed`: the sources in order, those whose position is listed in the
      sorted `warpUsIndices` wrapped as a transformed source named `xfm_<position>`. */
  method WrapSourcesAsTransformed<S>(sources: seq<S>, ndims: int, warpUsIndices: seq<int>)
    returns (wrapped: seq<Wrapped<S>>)
    requires Sorted(warpUsIndices)
    ensures |wrapped| == |sources|
    ensures forall i :: 0 <= i < |sources| ==>
      wrapped[i] == if i in warpUsIndices then Transformed(sources[i], "xfm_" + Decimal(i), ndims)
                    else AsIs(sources[i])
  {
    wrapped := [];
    var i := 0;
    while i < |sources|
      invariant 0 <= i <= |sources| && |wrapped| == i
      invariant forall k :: 0 <= k < i ==>
        wrapped[k] == if k in warpUsIndices then Transformed(sources[k], "xfm_" + Decimal(k), ndims)
                      else AsIs(sources[k])
    {
      var idx := BinarySearch(warpUsIndices, i);
      if idx >= 0 {
        wrapped := wrapped + [Transformed(sources[i], "xfm_" + Decimal(i), ndims)];
      } else {
        wrapped := wrapped + [AsIs(sources[i])];
      }
      i := i + 1;
    }
  }

  /** `detectNumDims`: 3 when some source's first level is more than one voxel deep along the
      third axis, else 2. `depths[i]` is `dimension(2)` of source i. */
  method DetectNumDims(depths: seq<int>) returns (ndims: int)
    ensures ndims == 2 || ndims == 3
    ensures ndims == 3 <==> exists i :: 0 <= i < |depths| && depths[i] > 1
  {
    var isAnySource3d := false;
    var i := 0;
    while i < |depths|
      invariant 0 <= i <= |depths|
      invariant !isAnySource3d ==> forall k :: 0 <= k < i ==> depths[k] <= 1
    {
      if depths[i] > 1 {
        isAnySource3d := true;
        break;
      }
      i := i + 1;
    }
    ndims := 2;
    if isAnySource3d {
      ndims := 3;
    }
  }

  // ---------------------------------------------------------------------------------------
  // Landmark mode

  datatype Cursor = Crosshair | Default

  /** The parts of the viewer state that `setInLandmarkMode` touches. */
  datatype ModeState = ModeState(inLandmarkMode: bool, transformHandlersEnabled: bool,
                                 cursorP: Cursor, cursorQ: Cursor, message: Option<string>)

  /** The viewer state after `setInLandmarkMode(on)`: nothing changes when already in that
      mode; otherwise the handlers are switched, the message shown, both cursors set and the
      flag updated. */
  function ModeAfter(s: ModeState, on: bool): ModeState
  {
    if s.inLandmarkMode == on then s
    else if on then ModeState(true, false, Crosshair, Crosshair, Some("Landmark mode on"))
    else ModeState(false, true, Default, Default, Some("Landmark mode off"))
  }

  /** Handlers are on and cursors plain exactly outside landmark mode. */
  predicate Consistent(s: ModeState)
  {
    s.transformHandlersEnabled == !s.inLandmarkMode &&
    s.cursorP == s.cursorQ == (if s.inLandmarkMode then Crosshair else Default)
  }

  /** Switching ends in the requested mode, keeps the viewer consistent, and a repeated
      switch to the same mode is a no-op. */
  lemma ModeAfterProperties(s: ModeState, on: bool)
    requires Consistent(s)
    ensures ModeAfter(s, on).inLandmarkMode == on
    ensures Consistent(ModeAfter(s, on))
    ensures ModeAfter(ModeAfter(s, on), on) == ModeAfter(s, on)
    ensures ModeAfter(s, on) == s <==> s.inLandmarkMode == on
  {
  }

  class Viewer {
    var inLandmarkMode: bool
    var transformHandlersEnabled: bool
    var cursorP: Cursor
    var cursorQ: Cursor
    var message: Option<string>

    function State(): ModeState
      reads this
    {
      ModeState(inLandmarkMode, transformHandlersEnabled, cursorP, cursorQ, message)
    }

    constructor ()
      ensures State() == ModeState(false, true, Default, Default, None) && Consistent(State())
    {
      inLandmarkMode := false;
      transformHandlersEnabled := true;
      cursorP := Default;
      cursorQ := Default;
      message := None;
    }

    /** `setInLandmarkMode`. */
    method SetInLandmarkMode(inLmMode: bool)
      modifies this
      ensures State() == ModeAfter(old(State()), inLmMode)
      ensures old(Consistent(State())) ==> Consistent(State())
    {
      if inLandmarkMode == inLmMode {
        return;
      }
      if inLmMode {
        transformHandlersEnabled := false;
        message := Some("Landmark mode on");
        cursorP := Crosshair;
        cursorQ := Crosshair;
      } else {
        transformHandlersEnabled := true;
        message := Some("Landmark mode off");
        cursorP := Default;
        cursorQ := Default;
      }
      inLandmarkMode := inLmMode;
    }
  }
}
