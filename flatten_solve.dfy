/** The nail-constrained flattening solve of `BigWarp.SolveThread.run` together with
    `nailToGrid`, `nailRegionBorder` and `applyNail`.

    The cost volume is a three-dimensional array indexed (x, y, z) in the already permuted
    axis order the solve works in; the two heightmaps are two-dimensional arrays over (x, y).
    The graph-cut surface search is a parameter of the solve (an opaque function with a
    required output shape). */
module FlattenSolve {
  import opened Common
  import SemaUtils

  /** `nailPenalty`, Double.MAX_VALUE written out exactly. */
  const NailPenalty: real := 179769313486231570814527423731704356798070567525844996598917476803157260780028538760589558632766878171540458953514382464234321326889464182768467546703537516986049910576551282076245490090389328944075868508455133942304583236903222948165808559332123348274797826204144723168738177180919299881250404026184124858368.0

  /** `nailPadding` and `flattenPadding` of BigWarp. */
  const NailPadding: int := 20
  const FlattenPadding: int := 2000

  /** A nail snapped to the cost grid. */
  datatype GridNail = GridNail(x: int, y: int, z: int) {
    function At(d: int): int
      requires 0 <= d < 3
    {
      if d == 0 then x else if d == 1 then y else z
    }
  }

  /** `nailToGrid`: round each coordinate with `Math.round`, keeping the axis order. */
  function NailToGrid(p: Point3): (g: GridNail)
    ensures g.x as real - 0.5 <= p.x < g.x as real + 0.5
    ensures g.y as real - 0.5 <= p.y < g.y as real + 0.5
    ensures g.z as real - 0.5 <= p.z < g.z as real + 0.5
  {
    GridNail(JavaRound(p.x), JavaRound(p.y), JavaRound(p.z))
  }

  function GridNails(nails: seq<Point3>): (g: seq<GridNail>)
    ensures |g| == |nails|
    ensures forall k :: 0 <= k < |nails| ==> g[k] == NailToGrid(nails[k])
  {
    seq(|nails|, k requires 0 <= k < |nails| => NailToGrid(nails[k]))
  }

  // ---------------------------------------------------------------------------------------
  // Region bounding

  /** The region `[lo[d], hi[d]]` (inclusive on both ends, like an imglib2 interval). */
  datatype Box = Box(lo: seq<int>, hi: seq<int>)

  predicate ThreeD(b: Box) { |b.lo| == 3 && |b.hi| == 3 }

  /** A non-empty interval inside a grid of the given extents. */
  predicate BoxWithin(b: Box, dims: seq<int>)
  {
    ThreeD(b) && |dims| == 3 &&
    forall d :: 0 <= d < 3 ==> 0 <= b.lo[d] <= b.hi[d] < dims[d]
  }

  function LowerEnd(n: GridNail, d: int, pad: int): int
    requires 0 <= d < 3
  {
    Max(n.At(d) - pad, 0)
  }

  function UpperEnd(n: GridNail, d: int, pad: int, dim: int): int
    requires 0 <= d < 3
  {
    Min(n.At(d) + pad, dim - 1)
  }

  /** `regionMin[d]` after folding the nails in order, starting from `dims[d] - 1`. */
  function RegionMin(nails: seq<GridNail>, d: int, pad: int, dim: int): int
    requires 0 <= d < 3
    decreases |nails|
  {
    if nails == [] then dim - 1
    else Min(RegionMin(nails[..|nails| - 1], d, pad, dim), LowerEnd(nails[|nails| - 1], d, pad))
  }

  /** `regionMax[d]` after folding the nails in order, starting from 0. */
  function RegionMax(nails: seq<GridNail>, d: int, pad: int, dim: int): int
    requires 0 <= d < 3
    decreases |nails|
  {
    if nails == [] then 0
    else Max(RegionMax(nails[..|nails| - 1], d, pad, dim), UpperEnd(nails[|nails| - 1], d, pad, dim))
  }

  function Region(nails: seq<GridNail>, dims: seq<int>, pad: int): (b: Box)
    requires |dims| == 3
    ensures ThreeD(b)
  {
    Box(seq(3, d requires 0 <= d < 3 => RegionMin(nails, d, pad, dims[d])),
        seq(3, d requires 0 <= d < 3 => RegionMax(nails, d, pad, dims[d])))
  }

  /** The fold is the least of its start value and the nails' lower ends, and is one of them. */
  lemma {:induction false} RegionMinIsLeast(nails: seq<GridNail>, d: int, pad: int, dim: int)
    requires 0 <= d < 3
    ensures RegionMin(nails, d, pad, dim) <= dim - 1
    ensures forall n :: n in nails ==> RegionMin(nails, d, pad, dim) <= LowerEnd(n, d, pad)
    ensures RegionMin(nails, d, pad, dim) == dim - 1 ||
      exists n :: n in nails && RegionMin(nails, d, pad, dim) == LowerEnd(n, d, pad)
  {
    if nails != [] {
      var init := nails[..|nails| - 1];
      RegionMinIsLeast(init, d, pad, dim);
      assert forall n :: n in nails ==> n in init || n == nails[|nails| - 1];
      if RegionMin(nails, d, pad, dim) != dim - 1 &&
         RegionMin(nails, d, pad, dim) == RegionMin(init, d, pad, dim) {
        var n :| n in init && RegionMin(init, d, pad, dim) == LowerEnd(n, d, pad);
        assert n in nails;
      }
    }
  }

  /** The fold is the greatest of its start value and the nails' upper ends, and is one of them. */
  lemma {:induction false} RegionMaxIsGreatest(nails: seq<GridNail>, d: int, pad: int, dim: int)
    requires 0 <= d < 3
    ensures 0 <= RegionMax(nails, d, pad, dim)
    ensures forall n :: n in nails ==> UpperEnd(n, d, pad, dim) <= RegionMax(nails, d, pad, dim)
    ensures RegionMax(nails, d, pad, dim) == 0 ||
      exists n :: n in nails && RegionMax(nails, d, pad, dim) == UpperEnd(n, d, pad, dim)
  {
    if nails != [] {
      var init := nails[..|nails| - 1];
      RegionMaxIsGreatest(init, d, pad, dim);
      assert forall n :: n in nails ==> n in init || n == nails[|nails| - 1];
      if RegionMax(nails, d, pad, dim) != 0 &&
         RegionMax(nails, d, pad, dim) == RegionMax(init, d, pad, dim) {
        var n :| n in init && RegionMax(init, d, pad, dim) == UpperEnd(n, d, pad, dim);
        assert n in nails;
      }
    }
  }

  /** The region never leaves the cost volume: `0 <= regionMin[d]` and `regionMax[d] <= dims[d]-1`;
      for a non-empty nail list and a non-negative padding it is a proper interval. */
  lemma RegionWithinVolume(nails: seq<GridNail>, dims: seq<int>, pad: int)
    requires |dims| == 3 && forall d :: 0 <= d < 3 ==> dims[d] >= 1
    requires nails != [] && pad >= 0
    ensures BoxWithin(Region(nails, dims, pad), dims)
  {
    var b := Region(nails, dims, pad);
    forall d | 0 <= d < 3
      ensures 0 <= b.lo[d] <= b.hi[d] < dims[d]
    {
      RegionMinIsLeast(nails, d, pad, dims[d]);
      RegionMaxIsGreatest(nails, d, pad, dims[d]);
      var n := nails[0];
      assert n in nails;
      // Every nail's clamped ends straddle each other once the start values are included.
      assert Min(dims[d] - 1, LowerEnd(n, d, pad)) <= Max(0, UpperEnd(n, d, pad, dims[d]));
    }
  }

  /** Every nail whose grid coordinate lies inside the volume lies inside the region. */
  lemma RegionCoversNails(nails: seq<GridNail>, dims: seq<int>, pad: int, n: GridNail, d: int)
    requires |dims| == 3 && 0 <= d < 3 && pad >= 0
    requires n in nails && 0 <= n.At(d) <= dims[d] - 1
    ensures Region(nails, dims, pad).lo[d] <= n.At(d) <= Region(nails, dims, pad).hi[d]
  {
    RegionMinIsLeast(nails, d, pad, dims[d]);
    RegionMaxIsGreatest(nails, d, pad, dims[d]);
  }

  /** The region depends only on which nails there are, not on their order or repetition. */
  lemma RegionOrderIndependent(a: seq<GridNail>, b: seq<GridNail>, dims: seq<int>, pad: int)
    requires |dims| == 3
    requires forall n :: n in a <==> n in b
    ensures Region(a, dims, pad) == Region(b, dims, pad)
  {
    forall d | 0 <= d < 3
      ensures RegionMin(a, d, pad, dims[d]) == RegionMin(b, d, pad, dims[d])
      ensures RegionMax(a, d, pad, dims[d]) == RegionMax(b, d, pad, dims[d])
    {
      RegionMinIsLeast(a, d, pad, dims[d]);
      RegionMinIsLeast(b, d, pad, dims[d]);
      RegionMaxIsGreatest(a, d, pad, dims[d]);
      RegionMaxIsGreatest(b, d, pad, dims[d]);
    }
    assert Region(a, dims, pad).lo == Region(b, dims, pad).lo;
    assert Region(a, dims, pad).hi == Region(b, dims, pad).hi;
  }

  /** One more nail extends each fold by that nail's clamped ends. */
  lemma RegionStep(nails: seq<GridNail>, k: int, d: int, pad: int, dim: int)
    requires 0 <= k < |nails| && 0 <= d < 3
    ensures RegionMin(nails[..k + 1], d, pad, dim) == Min(RegionMin(nails[..k], d, pad, dim), LowerEnd(nails[k], d, pad))
    ensures RegionMax(nails[..k + 1], d, pad, dim) == Max(RegionMax(nails[..k], d, pad, dim), UpperEnd(nails[k], d, pad, dim))
  {
    assert nails[..k + 1][..k] == nails[..k];
  }

  /** The bounding-box loop of `run`: `regionMin` starts at `dims - 1`, `regionMax` at 0, and
      each nail widens them by the padding, clamped to the volume. */
  method NailRegion(nails: seq<GridNail>, dims: seq<int>, pad: int) returns (box: Box)
    requires |dims| == 3
    ensures box == Region(nails, dims, pad)
  {
    var regionMin := [dims[0] - 1, dims[1] - 1, dims[2] - 1];
    var regionMax := [0, 0, 0];
    var k := 0;
    while k < |nails|
      invariant 0 <= k <= |nails|
      invariant |regionMin| == 3 && |regionMax| == 3
      invariant forall d :: 0 <= d < 3 ==>
        regionMin[d] == RegionMin(nails[..k], d, pad, dims[d]) && regionMax[d] == RegionMax(nails[..k], d, pad, dims[d])
    {
      var nail := nails[k];
      for d := 0 to 3
        invariant |regionMin| == 3 && |regionMax| == 3
        invariant forall e :: 0 <= e < 3 ==>
          regionMin[e] == RegionMin(nails[..if e < d then k + 1 else k], e, pad, dims[e]) &&
          regionMax[e] == RegionMax(nails[..if e < d then k + 1 else k], e, pad, dims[e])
      {
        RegionStep(nails, k, d, pad, dims[d]);
        regionMin := regionMin[d := Min(regionMin[d], Max(nail.At(d) - pad, 0))];
        regionMax := regionMax[d := Max(regionMax[d], Min(nail.At(d) + pad, dims[d] - 1))];
      }
      k := k + 1;
    }
    assert nails[..k] == nails;
    box := Box(regionMin, regionMax);
  }

  // ---------------------------------------------------------------------------------------
  // Heightmap choice

  datatype HeightmapChoice = MinHeightmap | MaxHeightmap

  /** The max heightmap is used when both ends of the region's z-range lie above the middle of
      the volume (`> dims[2] / 2.0`); otherwise the min heightmap. */
  function ChooseHeightmap(b: Box, depth: int): (c: HeightmapChoice)
    requires ThreeD(b)
    ensures c == MaxHeightmap <==> 2 * b.lo[2] > depth && 2 * b.hi[2] > depth
  {
    if b.lo[2] as real > depth as real / 2.0 && b.hi[2] as real > depth as real / 2.0
    then MaxHeightmap else MinHeightmap
  }

  /** The height offset handed to the surface search: region max z for the max heightmap,
      region min z for the min heightmap. */
  function PatchOffset(b: Box, c: HeightmapChoice): (off: int)
    requires ThreeD(b)
    ensures off == b.lo[2] || off == b.hi[2]
    ensures BoxWithin(b, [b.hi[0] + 1, b.hi[1] + 1, b.hi[2] + 1]) ==> b.lo[2] <= off <= b.hi[2]
  {
    if c == MaxHeightmap then b.hi[2] else b.lo[2]
  }

  /** For a proper interval the test reduces to its lower end alone. */
  lemma ChooseHeightmapOfInterval(b: Box, depth: int)
    requires ThreeD(b) && b.lo[2] <= b.hi[2]
    ensures ChooseHeightmap(b, depth) == MaxHeightmap <==> 2 * b.lo[2] > depth
  {
  }

  // ---------------------------------------------------------------------------------------
  // Border pinning

  /** The cost written at height `z` of a column whose current surface height is `h`. */
  function Pin(z: int, h: real): real
  {
    if z == JavaRound(h) then 0.0 else NailPenalty
  }

  predicate InVolume(cost: array3<real>, x: int, y: int, z: int)
  {
    0 <= x < cost.Length0 && 0 <= y < cost.Length1 && 0 <= z < cost.Length2
  }

  function Dims(cost: array3<real>): seq<int>
  {
    [cost.Length0, cost.Length1, cost.Length2]
  }

  /** The cells of the first pass of `nailRegionBorder`, for the columns `x < xEnd`. */
  predicate AlongX(b: Box, xEnd: int, x: int, y: int, z: int)
    requires ThreeD(b)
  {
    b.lo[0] <= x < xEnd && b.lo[2] <= z < b.hi[2] && (y == b.lo[1] || y == b.hi[1])
  }

  /** The cells of the second pass of `nailRegionBorder`, for the rows `y < yEnd`. */
  predicate AlongY(b: Box, yEnd: int, x: int, y: int, z: int)
    requires ThreeD(b)
  {
    b.lo[1] <= y < yEnd && b.lo[2] <= z < b.hi[2] && (x == b.lo[0] || x == b.hi[0])
  }

  /** The four side faces of the region the border pass writes; the loops stop before the
      upper ends of x, y and z, so the face cells at `z == hi[2]` and the column
      (`hi[0]`, `hi[1]`) are left out. */
  predicate OnBorder(b: Box, x: int, y: int, z: int)
    requires ThreeD(b)
  {
    AlongX(b, b.hi[0], x, y, z) || AlongY(b, b.hi[1], x, y, z)
  }

  /** `nailRegionBorder`: on each border cell write 0 where z is the rounded height of the
      column's current surface and the penalty elsewhere; every other cell is untouched. */
  method NailRegionBorder(cost: array3<real>, hm: array2<real>, b: Box)
    requires BoxWithin(b, Dims(cost))
    requires hm.Length0 == cost.Length0 && hm.Length1 == cost.Length1
    modifies cost
    ensures forall x, y, z :: InVolume(cost, x, y, z) ==>
      cost[x, y, z] == if OnBorder(b, x, y, z) then Pin(z, hm[x, y]) else old(cost[x, y, z])
  {
    var x := b.lo[0];
    while x < b.hi[0]
      invariant b.lo[0] <= x <= b.hi[0]
      invariant forall i, j, k :: InVolume(cost, i, j, k) ==>
        cost[i, j, k] == if AlongX(b, x, i, j, k) then Pin(k, hm[i, j]) else old(cost[i, j, k])
    {
      PinAlongX(cost, hm, b, x);
      x := x + 1;
    }
    var y := b.lo[1];
    while y < b.hi[1]
      invariant b.lo[1] <= y <= b.hi[1]
      invariant forall i, j, k :: InVolume(cost, i, j, k) ==>
        cost[i, j, k] == if AlongX(b, b.hi[0], i, j, k) || AlongY(b, y, i, j, k)
                         then Pin(k, hm[i, j]) else old(cost[i, j, k])
    {
      PinAlongY(cost, hm, b, y);
      y := y + 1;
    }
  }

  /** One column index of the first border pass: cells (x, lo[1], z) and (x, hi[1], z). */
  method PinAlongX(cost: array3<real>, hm: array2<real>, b: Box, x: int)
    requires BoxWithin(b, Dims(cost))
    requires hm.Length0 == cost.Length0 && hm.Length1 == cost.Length1
    requires b.lo[0] <= x < b.hi[0]
    modifies cost
    ensures forall i, j, k :: InVolume(cost, i, j, k) ==>
      cost[i, j, k] == if i == x && b.lo[2] <= k < b.hi[2] && (j == b.lo[1] || j == b.hi[1])
                       then Pin(k, hm[i, j]) else old(cost[i, j, k])
  {
    var z := b.lo[2];
    while z < b.hi[2]
      invariant b.lo[2] <= z <= b.hi[2]
      invariant forall i, j, k :: InVolume(cost, i, j, k) ==>
        cost[i, j, k] == if i == x && b.lo[2] <= k < z && (j == b.lo[1] || j == b.hi[1])
                         then Pin(k, hm[i, j]) else old(cost[i, j, k])
    {
      var hmVal := hm[x, b.lo[1]];
      if z == JavaRound(hmVal) {
        cost[x, b.lo[1], z] := 0.0;
      } else {
        cost[x, b.lo[1], z] := NailPenalty;
      }
      hmVal := hm[x, b.hi[1]];
      if z == JavaRound(hmVal) {
        cost[x, b.hi[1], z] := 0.0;
      } else {
        cost[x, b.hi[1], z] := NailPenalty;
      }
      z := z + 1;
    }
  }

  /** One row index of the second border pass: cells (lo[0], y, z) and (hi[0], y, z). */
  method PinAlongY(cost: array3<real>, hm: array2<real>, b: Box, y: int)
    requires BoxWithin(b, Dims(cost))
    requires hm.Length0 == cost.Length0 && hm.Length1 == cost.Length1
    requires b.lo[1] <= y < b.hi[1]
    modifies cost
    ensures forall i, j, k :: InVolume(cost, i, j, k) ==>
      cost[i, j, k] == if j == y && b.lo[2] <= k < b.hi[2] && (i == b.lo[0] || i == b.hi[0])
                       then Pin(k, hm[i, j]) else old(cost[i, j, k])
  {
    var z := b.lo[2];
    while z < b.hi[2]
      invariant b.lo[2] <= z <= b.hi[2]
      invariant forall i, j, k :: InVolume(cost, i, j, k) ==>
        cost[i, j, k] == if j == y && b.lo[2] <= k < z && (i == b.lo[0] || i == b.hi[0])
                         then Pin(k, hm[i, j]) else old(cost[i, j, k])
    {
      var hmVal := hm[b.lo[0], y];
      if z == JavaRound(hmVal) {
        cost[b.lo[0], y, z] := 0.0;
      } else {
        cost[b.lo[0], y, z] := NailPenalty;
      }
      hmVal := hm[b.hi[0], y];
      if z == JavaRound(hmVal) {
        cost[b.hi[0], y, z] := 0.0;
      } else {
        cost[b.hi[0], y, z] := NailPenalty;
      }
      z := z + 1;
    }
  }

  // ---------------------------------------------------------------------------------------
  // Nail pinning

  /** The z-window of `applyNail` as written. `depth` is `costImg.dimension(2)`, the extent of
      the region it is handed, while the window and the nail height are absolute
      coordinates counted from 0. */
  function NailWindowAsWritten(depth: int, nz: int): (w: (int, int))
    requires depth >= 1
    ensures 0 <= w.0 <= w.1 <= depth
  {
    if nz < depth / 2 then (0, depth / 2) else (depth / 2, depth)
  }

  /** With one nail at (5, 5, 120) in a 10 x 10 x 200 volume the region's z-range is
      [100, 140]; `applyNail` as written then pins z in [20, 41), far below the region, and
      never zeroes the nail's own cell. */
  lemma NailWindowAsWrittenMissesNail()
    ensures var b := Region([GridNail(5, 5, 120)], [10, 10, 200], NailPadding);
      var w := NailWindowAsWritten(b.hi[2] - b.lo[2] + 1, 120);
      b.lo[2] == 100 && b.hi[2] == 140 && w == (20, 41) && !(w.0 <= 120 < w.1) && w.1 <= b.lo[2]
  {
    var b := Region([GridNail(5, 5, 120)], [10, 10, 200], NailPadding);
    assert [GridNail(5, 5, 120)][..0] == [];
    assert b.lo[2] == RegionMin([GridNail(5, 5, 120)], 2, NailPadding, 200) == 100;
    assert b.hi[2] == RegionMax([GridNail(5, 5, 120)], 2, NailPadding, 200) == 140;
  }

  /** The window as evidently intended: the lower or upper half of the region's own z-range,
      chosen by where the nail lies in it. It stays inside the region and holds every nail
      height that lies in the region. */
  function NailWindow(b: Box, nz: int): (w: (int, int))
    requires ThreeD(b) && b.lo[2] <= b.hi[2]
    ensures b.lo[2] <= w.0 <= w.1 <= b.hi[2] + 1
    ensures b.lo[2] <= nz <= b.hi[2] ==> w.0 <= nz < w.1
  {
    var depth := b.hi[2] - b.lo[2] + 1;
    if nz - b.lo[2] < depth / 2 then (b.lo[2], b.lo[2] + depth / 2)
    else (b.lo[2] + depth / 2, b.lo[2] + depth)
  }

  /** The cost `applyNail` writes at height z of the nail's column. */
  function NailPin(z: int, nz: int): real
  {
    if z == nz then 0.0 else NailPenalty
  }

  predicate InNailWindow(b: Box, n: GridNail, x: int, y: int, z: int)
    requires ThreeD(b) && b.lo[2] <= b.hi[2]
  {
    var w := NailWindow(b, n.z);
    x == n.x && y == n.y && w.0 <= z < w.1
  }

  /** `applyNail` (with the corrected window): only the nail's column, and there only the
      window, is written: 0 at the nail height, the penalty elsewhere. */
  method ApplyNail(cost: array3<real>, b: Box, nail: GridNail)
    requires BoxWithin(b, Dims(cost))
    requires 0 <= nail.x < cost.Length0 && 0 <= nail.y < cost.Length1
    modifies cost
    ensures forall x, y, z :: InVolume(cost, x, y, z) ==>
      cost[x, y, z] == if InNailWindow(b, nail, x, y, z) then NailPin(z, nail.z) else old(cost[x, y, z])
  {
    var (zStart, zStop) := NailWindow(b, nail.z);
    var z := zStart;
    while z < zStop
      invariant zStart <= z <= zStop
      invariant forall i, j, k :: InVolume(cost, i, j, k) ==>
        cost[i, j, k] == if i == nail.x && j == nail.y && zStart <= k < z
                         then NailPin(k, nail.z) else old(cost[i, j, k])
    {
      if z == nail.z {
        cost[nail.x, nail.y, z] := 0.0;
      } else {
        cost[nail.x, nail.y, z] := NailPenalty;
      }
      z := z + 1;
    }
  }

  /** The cost of a cell after the nails are applied in order over a base value: the last
      nail whose window holds the cell decides. */
  function AfterNails(b: Box, nails: seq<GridNail>, x: int, y: int, z: int, base: real): real
    requires ThreeD(b) && b.lo[2] <= b.hi[2]
    decreases |nails|
  {
    if nails == [] then base
    else if InNailWindow(b, nails[|nails| - 1], x, y, z) then NailPin(z, nails[|nails| - 1].z)
    else AfterNails(b, nails[..|nails| - 1], x, y, z, base)
  }

  /** A nail inside the region that no later nail shares a column with gets zero cost at its
      own height: the solve is forced through it. */
  lemma {:induction false} NailCellZeroed(b: Box, nails: seq<GridNail>, k: int, base: real)
    requires ThreeD(b) && b.lo[2] <= b.hi[2]
    requires 0 <= k < |nails|
    requires b.lo[2] <= nails[k].z <= b.hi[2]
    requires forall m :: k < m < |nails| ==> (nails[m].x, nails[m].y) != (nails[k].x, nails[k].y)
    ensures AfterNails(b, nails, nails[k].x, nails[k].y, nails[k].z, base) == 0.0
  {
    if k < |nails| - 1 {
      var init := nails[..|nails| - 1];
      NailCellZeroed(b, init, k, base);
    }
  }

  /** Nails touch nothing outside their own columns. */
  lemma {:induction false} AfterNailsOffColumns(b: Box, nails: seq<GridNail>, x: int, y: int, z: int, base: real)
    requires ThreeD(b) && b.lo[2] <= b.hi[2]
    requires forall n :: n in nails ==> (n.x, n.y) != (x, y)
    ensures AfterNails(b, nails, x, y, z, base) == base
  {
    if nails != [] {
      assert nails[|nails| - 1] in nails;
      AfterNailsOffColumns(b, nails[..|nails| - 1], x, y, z, base);
    }
  }

  /** The nail loop of `run`: `applyNail` for each nail in order. */
  method ApplyNails(cost: array3<real>, b: Box, nails: seq<GridNail>)
    requires BoxWithin(b, Dims(cost))
    requires forall n :: n in nails ==> 0 <= n.x < cost.Length0 && 0 <= n.y < cost.Length1
    modifies cost
    ensures forall x, y, z :: InVolume(cost, x, y, z) ==>
      cost[x, y, z] == AfterNails(b, nails, x, y, z, old(cost[x, y, z]))
  {
    var k := 0;
    while k < |nails|
      invariant 0 <= k <= |nails|
      invariant forall x, y, z :: InVolume(cost, x, y, z) ==>
        cost[x, y, z] == AfterNails(b, nails[..k], x, y, z, old(cost[x, y, z]))
    {
      assert nails[..k + 1][..k] == nails[..k];
      assert nails[k] in nails;
      ApplyNail(cost, b, nails[k]);
      k := k + 1;
    }
    assert nails[..k] == nails;
  }

  /** The cost a cell holds once the border (over a column of surface height `h`) and then
      the nails were pinned over its previous cost. */
  function PinnedCost(b: Box, nails: seq<GridNail>, x: int, y: int, z: int, h: real, previous: real): real
    requires ThreeD(b) && b.lo[2] <= b.hi[2]
  {
    AfterNails(b, nails, x, y, z, if OnBorder(b, x, y, z) then Pin(z, h) else previous)
  }

  // ---------------------------------------------------------------------------------------
  // Surface search and patch

  predicate IsGrid(g: seq<seq<int>>, w: int, h: int)
  {
    |g| == w && forall i :: 0 <= i < w ==> |g[i]| == h
  }

  /** The surface search: a zero-min view of the cost region, the height offset and the
      region's x and y extents, to one integer height per column. */
  type SurfaceSearch = (seq<seq<seq<real>>>, int, int, int) -> seq<seq<int>>

  /** The one thing the model assumes of the search: its output has the requested shape. */
  ghost predicate ShapedSearch(search: SurfaceSearch)
  {
    forall v, off, w, h :: 0 <= w && 0 <= h ==> IsGrid(search(v, off, w, h), w, h)
  }

  /** `Views.zeroMin(costRegion)`, read as a value. */
  function RegionView(cost: array3<real>, b: Box): seq<seq<seq<real>>>
    reads cost
    requires BoxWithin(b, Dims(cost))
  {
    var w, h, d := b.hi[0] - b.lo[0] + 1, b.hi[1] - b.lo[1] + 1, b.hi[2] - b.lo[2] + 1;
    seq(w, i requires 0 <= i < w reads cost =>
      seq(h, j requires 0 <= j < h reads cost =>
        seq(d, k requires 0 <= k < d reads cost => cost[b.lo[0] + i, b.lo[1] + j, b.lo[2] + k])))
  }

  predicate InRect(b: Box, x: int, y: int)
    requires ThreeD(b)
  {
    b.lo[0] <= x <= b.hi[0] && b.lo[1] <= y <= b.hi[1]
  }

  /** The patch copy: every heightmap cell of the solved x-y rectangle takes the patch value
      translated by the rectangle's minimum; every other cell is unchanged. */
  method PatchHeightmap(hm: array2<real>, b: Box, patch: seq<seq<int>>)
    requires ThreeD(b)
    requires 0 <= b.lo[0] <= b.hi[0] < hm.Length0 && 0 <= b.lo[1] <= b.hi[1] < hm.Length1
    requires IsGrid(patch, b.hi[0] - b.lo[0] + 1, b.hi[1] - b.lo[1] + 1)
    modifies hm
    ensures forall x, y :: 0 <= x < hm.Length0 && 0 <= y < hm.Length1 ==>
      hm[x, y] == if InRect(b, x, y) then patch[x - b.lo[0]][y - b.lo[1]] as real else old(hm[x, y])
  {
    // Flat iteration: x is the fastest-moving index.
    var y := b.lo[1];
    while y <= b.hi[1]
      invariant b.lo[1] <= y <= b.hi[1] + 1
      invariant forall i, j :: 0 <= i < hm.Length0 && 0 <= j < hm.Length1 ==>
        hm[i, j] == if b.lo[0] <= i <= b.hi[0] && b.lo[1] <= j < y
                    then patch[i - b.lo[0]][j - b.lo[1]] as real else old(hm[i, j])
    {
      var x := b.lo[0];
      while x <= b.hi[0]
        invariant b.lo[0] <= x <= b.hi[0] + 1
        invariant forall i, j :: 0 <= i < hm.Length0 && 0 <= j < hm.Length1 ==>
          hm[i, j] == if (b.lo[0] <= i <= b.hi[0] && b.lo[1] <= j < y) || (j == y && b.lo[0] <= i < x)
                      then patch[i - b.lo[0]][j - b.lo[1]] as real else old(hm[i, j])
      {
        hm[x, y] := patch[x - b.lo[0]][y - b.lo[1]] as real;
        x := x + 1;
      }
      y := y + 1;
    }
  }

  /** A cell of the volume inside the box. */
  predicate InBox(b: Box, x: int, y: int, z: int)
    requires ThreeD(b)
  {
    InRect(b, x, y) && b.lo[2] <= z <= b.hi[2]
  }

  /** Nails whose columns lie in the box leave every cell outside the box at its base value:
      a nail writes only its own column, and only inside the box's z range. */
  lemma {:induction false} AfterNailsOffBox(b: Box, nails: seq<GridNail>, x: int, y: int, z: int, base: real)
    requires ThreeD(b) && forall d :: 0 <= d < 3 ==> b.lo[d] <= b.hi[d]
    requires forall n :: n in nails ==> InRect(b, n.x, n.y)
    requires !InBox(b, x, y, z)
    ensures AfterNails(b, nails, x, y, z, base) == base
    decreases |nails|
  {
    if nails != [] {
      var init := nails[..|nails| - 1];
      assert nails[|nails| - 1] in nails;
      assert forall n :: n in init ==> n in nails;
      AfterNailsOffBox(b, init, x, y, z, base);
    }
  }

  /** Region locality of the pinning: a cost cell outside the box keeps its old value. */
  lemma PinnedCostOffBox(b: Box, nails: seq<GridNail>, x: int, y: int, z: int, h: real, previous: real)
    requires ThreeD(b) && forall d :: 0 <= d < 3 ==> b.lo[d] <= b.hi[d]
    requires forall n :: n in nails ==> InRect(b, n.x, n.y)
    requires !InBox(b, x, y, z)
    ensures PinnedCost(b, nails, x, y, z, h, previous) == previous
  {
    assert !OnBorder(b, x, y, z);
    AfterNailsOffBox(b, nails, x, y, z, previous);
  }

  // ---------------------------------------------------------------------------------------
  /** Every nail of the list lies in the rectangle of the region bounded around the list. */
  lemma GridNailsInRegion(nails: seq<Point3>, dims: seq<int>)
    requires |dims| == 3
    requires forall n :: n in nails ==>
      0 <= NailToGrid(n).x < dims[0] && 0 <= NailToGrid(n).y < dims[1]
    ensures forall n :: n in GridNails(nails) ==>
      InRect(Region(GridNails(nails), dims, NailPadding), n.x, n.y)
  {
    var g := GridNails(nails);
    forall n | n in g
      ensures InRect(Region(g, dims, NailPadding), n.x, n.y)
    {
      var k :| 0 <= k < |g| && g[k] == n;
      assert nails[k] in nails;
      RegionCoversNails(g, dims, NailPadding, n, 0);
      RegionCoversNails(g, dims, NailPadding, n, 1);
    }
  }

  // The solve

  /** What the solve produces besides the patched heightmaps: the means that parameterise the
      flatten transform and the z-range of the crop interval. */
  datatype FlattenParams = FlattenParams(minMean: real, maxMean: real, cropMinZ: int, cropMaxZ: int)

  /** The crop interval's z-range: the rounded means widened by `flattenPadding`. */
  function CropParams(minMean: real, maxMean: real): (p: FlattenParams)
    ensures p.minMean == minMean && p.maxMean == maxMean
    ensures minMean <= maxMean ==> p.cropMaxZ - p.cropMinZ >= 2 * FlattenPadding
  {
    FlattenParams(minMean, maxMean, JavaRound(minMean) - FlattenPadding, JavaRound(maxMean) + FlattenPadding)
  }

  /** The state the solve works on: the cost volume and the two heightmaps. */
  class Flattener {
    const cost: array3<real>
    const minHeightmap: array2<real>
    const maxHeightmap: array2<real>

    ghost predicate Valid()
    {
      minHeightmap != maxHeightmap &&
      minHeightmap.Length0 == cost.Length0 && minHeightmap.Length1 == cost.Length1 &&
      maxHeightmap.Length0 == cost.Length0 && maxHeightmap.Length1 == cost.Length1
    }

    constructor (cost: array3<real>, minHeightmap: array2<real>, maxHeightmap: array2<real>)
      requires minHeightmap != maxHeightmap
      requires minHeightmap.Length0 == cost.Length0 && minHeightmap.Length1 == cost.Length1
      requires maxHeightmap.Length0 == cost.Length0 && maxHeightmap.Length1 == cost.Length1
      ensures Valid()
      ensures this.cost == cost && this.minHeightmap == minHeightmap && this.maxHeightmap == maxHeightmap
    {
      this.cost := cost;
      this.minHeightmap := minHeightmap;
      this.maxHeightmap := maxHeightmap;
    }

    function Heightmap(c: HeightmapChoice): array2<real>
    {
      if c == MaxHeightmap then maxHeightmap else minHeightmap
    }

    function Other(c: HeightmapChoice): array2<real>
    {
      if c == MaxHeightmap then minHeightmap else maxHeightmap
    }

    /** The pass of `run` for one taken request. With no nails only the means are recomputed.
        Otherwise: bound the region around all nails, pick the heightmap, pin the region's
        border and each nail's column, run the surface search on the pinned region and copy
        its result into the chosen heightmap inside the solved rectangle; then recompute the
        means of both heightmaps. Nails must snap to columns of the volume. */
    method Solve(nails: seq<Point3>, search: SurfaceSearch)
      returns (box: Option<Box>, params: Option<FlattenParams>)
      requires Valid() && ShapedSearch(search)
      requires nails != [] ==> cost.Length0 >= 1 && cost.Length1 >= 1 && cost.Length2 >= 1
      requires forall n :: n in nails ==>
        0 <= NailToGrid(n).x < cost.Length0 && 0 <= NailToGrid(n).y < cost.Length1
      modifies cost, minHeightmap, maxHeightmap
      ensures nails == [] ==> box == None && Untouched()
      ensures nails != [] ==> box.Some? && SolvedNails(nails, search, box.value)
      ensures nails != [] ==> box.Some? && ThreeD(box.value) &&
                              forall x, y, z :: InVolume(cost, x, y, z) && !InBox(box.value, x, y, z) ==>
                                cost[x, y, z] == old(cost[x, y, z])
      ensures CropOf(params)
    {
      if nails == [] {
        box := None;
      } else {
        var b := SolveNails(nails, search);
        box := Some(b);
      }
      params := Means();
      if nails != [] {
        var b, g := box.value, GridNails(nails);
        GridNailsInRegion(nails, Dims(cost));
        forall x, y, z | InVolume(cost, x, y, z) && !InBox(b, x, y, z)
          ensures cost[x, y, z] == old(cost[x, y, z])
        {
          PinnedCostOffBox(b, g, x, y, z, old(Heightmap(ChooseHeightmap(b, cost.Length2))[x, y]), old(cost[x, y, z]));
        }
      }
    }

    /** Neither the cost volume nor the heightmaps changed. */
    twostate predicate Untouched()
      reads cost, minHeightmap, maxHeightmap
      requires Valid()
    {
      (forall x, y, z :: InVolume(cost, x, y, z) ==> cost[x, y, z] == old(cost[x, y, z])) &&
      forall x, y :: 0 <= x < cost.Length0 && 0 <= y < cost.Length1 ==>
        minHeightmap[x, y] == old(minHeightmap[x, y]) && maxHeightmap[x, y] == old(maxHeightmap[x, y])
    }

    /** A solve with nails produced the box `b`: the nail region, inside the volume, with
        the pinning, search and patch effect on the heightmap chosen for it. */
    twostate predicate SolvedNails(nails: seq<Point3>, search: SurfaceSearch, b: Box)
      reads cost, minHeightmap, maxHeightmap
      requires Valid()
    {
      b == Region(GridNails(nails), Dims(cost), NailPadding) && BoxWithin(b, Dims(cost)) &&
      Effect(b, ChooseHeightmap(b, cost.Length2), GridNails(nails), search)
    }

    /** The pinning, search and patch effect on the box `b` and heightmap `c`: every cost
        cell is the border-then-nails pinning of its old value against heightmap `c`; `c`
        holds the search result inside the solved rectangle and its old values outside; the
        other heightmap is unchanged. */
    twostate predicate Effect(b: Box, c: HeightmapChoice, g: seq<GridNail>, search: SurfaceSearch)
      reads cost, minHeightmap, maxHeightmap
      requires Valid() && BoxWithin(b, Dims(cost))
    {
      var w, h := b.hi[0] - b.lo[0] + 1, b.hi[1] - b.lo[1] + 1;
      var patch := search(RegionView(cost, b), PatchOffset(b, c), w, h);
      (forall x, y, z :: InVolume(cost, x, y, z) ==>
         cost[x, y, z] == PinnedCost(b, g, x, y, z, old(Heightmap(c)[x, y]), old(cost[x, y, z]))) &&
      IsGrid(patch, w, h) &&
      (forall x, y :: 0 <= x < cost.Length0 && 0 <= y < cost.Length1 ==>
         Heightmap(c)[x, y] == if InRect(b, x, y) then patch[x - b.lo[0]][y - b.lo[1]] as real
                               else old(Heightmap(c)[x, y])) &&
      forall x, y :: 0 <= x < cost.Length0 && 0 <= y < cost.Length1 ==> Other(c)[x, y] == old(Other(c)[x, y])
    }

    /** `params` is the crop range of the means of all cells of both heightmaps, and there is
        none exactly when the heightmaps are empty. */
    ghost predicate CropOf(params: Option<FlattenParams>)
      reads minHeightmap, maxHeightmap
      requires Valid()
    {
      SemaUtils.CellsLength(minHeightmap, minHeightmap.Length0);
      SemaUtils.CellsLength(maxHeightmap, maxHeightmap.Length0);
      (params.None? <==> cost.Length0 == 0 || cost.Length1 == 0) &&
      (params.Some? ==>
         params.value == CropParams(SemaUtils.Mean(SemaUtils.Cells(minHeightmap, minHeightmap.Length0)),
                                    SemaUtils.Mean(SemaUtils.Cells(maxHeightmap, maxHeightmap.Length0))))
    }

    /** The pass of `run` for a non-empty nail list, up to the means. */
    method SolveNails(nails: seq<Point3>, search: SurfaceSearch) returns (b: Box)
      requires Valid() && ShapedSearch(search)
      requires nails != [] && cost.Length0 >= 1 && cost.Length1 >= 1 && cost.Length2 >= 1
      requires forall n :: n in nails ==>
        0 <= NailToGrid(n).x < cost.Length0 && 0 <= NailToGrid(n).y < cost.Length1
      modifies cost, minHeightmap, maxHeightmap
      ensures SolvedNails(nails, search, b)
    {
      var dims := [cost.Length0, cost.Length1, cost.Length2];
      var g := GridNails(nails);
      b := NailRegion(g, dims, NailPadding);
      RegionWithinVolume(g, dims, NailPadding);
      var c := ChooseHeightmap(b, cost.Length2);
      SolveRegion(b, c, g, search);
    }

    /** The means of both heightmaps after the solve and the crop range they give; an empty
        heightmap has no mean (a division by a zero count in the source). */
    method Means() returns (params: Option<FlattenParams>)
      requires Valid()
      ensures CropOf(params)
    {
      var minMean := SemaUtils.GridAvgValue(minHeightmap);
      var maxMean := SemaUtils.GridAvgValue(maxHeightmap);
      if minMean.Some? && maxMean.Some? {
        params := Some(CropParams(minMean.value, maxMean.value));
      } else {
        params := None;
      }
    }

    /** The pinning, search and patch steps for a non-empty nail list. */
    method SolveRegion(b: Box, c: HeightmapChoice, g: seq<GridNail>, search: SurfaceSearch)
      requires Valid() && ShapedSearch(search)
      requires BoxWithin(b, Dims(cost))
      requires forall n :: n in g ==> 0 <= n.x < cost.Length0 && 0 <= n.y < cost.Length1
      modifies cost, Heightmap(c)
      ensures Effect(b, c, g, search)
    {
      var heightmap := Heightmap(c);
      NailRegionBorder(cost, heightmap, b);
      ApplyNails(cost, b, g);
      var w, h := b.hi[0] - b.lo[0] + 1, b.hi[1] - b.lo[1] + 1;
      var patch := search(RegionView(cost, b), PatchOffset(b, c), w, h);
      PatchHeightmap(heightmap, b, patch);
    }
  }
}
