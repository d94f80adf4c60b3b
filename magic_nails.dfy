/** The "magic nails" part of the landmark actions: the layout of the feature vector sampled
    around a nail, the layout of the training set built from all nails, and the descent that
    relaxes a heightmap value along z towards the zero crossing of a learned score. */
module MagicNails {
  import opened Common
  import BigWarpActions

  /** Number of mipmap levels sampled per z offset, as `GenerateMagicNailsAction` fixes it. */
  const NumMipmaps := 3
  /** Half-height of the z window sampled around a nail. */
  const ReceptiveFieldSize := 50
  /** Default half-height of the z range trained around each nail. */
  const MagicZTraining := 25
  /** Default bound on the number of relaxation steps. */
  const MaxSteps := 100

  // ---------------------------------------------------------------------------------------
  // Feature vector layout
  // ---------------------------------------------------------------------------------------

  function NumFeatures(numMipmaps: int, rfs: int): int
  {
    numMipmaps * (rfs * 2 + 1)
  }

  /** Slot of the sample at z offset `dz` on mipmap level `mipmap`. */
  function FeatureIndex(numMipmaps: int, rfs: int, dz: int, mipmap: int): int
  {
    (dz + rfs) * numMipmaps + mipmap
  }

  /** The z offset a slot holds. */
  function DzOf(numMipmaps: int, rfs: int, i: int): int
    requires numMipmaps > 0
  {
    i / numMipmaps - rfs
  }

  /** The mipmap level a slot holds. */
  function MipmapOf(numMipmaps: int, i: int): int
    requires numMipmaps > 0
  {
    i % numMipmaps
  }

  /** Every (dz, mipmap) pair of the window has a slot inside the vector, and the slot
      decodes back to the pair: no two pairs share a slot. */
  lemma FeatureIndexBijection(numMipmaps: int, rfs: int, dz: int, mipmap: int)
    requires numMipmaps > 0 && rfs >= 0
    requires -rfs <= dz <= rfs && 0 <= mipmap < numMipmaps
    ensures var i := FeatureIndex(numMipmaps, rfs, dz, mipmap);
      0 <= i < NumFeatures(numMipmaps, rfs) &&
      DzOf(numMipmaps, rfs, i) == dz && MipmapOf(numMipmaps, i) == mipmap
  {
    var i := FeatureIndex(numMipmaps, rfs, dz, mipmap);
    BigWarpActions.DivModUnique(i, numMipmaps, dz + rfs, mipmap);
    BigWarpActions.MulMono(dz + rfs + 1, rfs * 2 + 1, numMipmaps);
    assert (dz + rfs) * numMipmaps + numMipmaps == (dz + rfs + 1) * numMipmaps;
    assert NumFeatures(numMipmaps, rfs) == (rfs * 2 + 1) * numMipmaps;
  }

  /** The slot after the last level of one offset is the first level of the next offset. */
  lemma FeatureIndexCarry(numMipmaps: int, rfs: int, dz: int)
    ensures FeatureIndex(numMipmaps, rfs, dz, numMipmaps) == FeatureIndex(numMipmaps, rfs, dz + 1, 0)
  {
    BigWarpActions.MulSucc(dz + rfs, numMipmaps);
  }

  /** The slot after the whole window is the length of the vector. */
  lemma FeatureIndexEnd(numMipmaps: int, rfs: int)
    ensures FeatureIndex(numMipmaps, rfs, rfs + 1, 0) == NumFeatures(numMipmaps, rfs)
  {
    assert rfs + 1 + rfs == rfs * 2 + 1;
  }

  /** The first slot of every offset of the window, and the slot after it, lie within the vector. */
  lemma FeatureIndexBound(numMipmaps: int, rfs: int, dz: int)
    requires numMipmaps > 0 && rfs >= 0 && -rfs <= dz <= rfs + 1
    ensures 0 <= FeatureIndex(numMipmaps, rfs, dz, 0) <= NumFeatures(numMipmaps, rfs)
  {
    BigWarpActions.MulMono(0, dz + rfs, numMipmaps);
    BigWarpActions.MulMono(dz + rfs, rfs * 2 + 1, numMipmaps);
  }

  /** Every slot of the vector is the slot of some pair of the window. */
  lemma FeatureIndexOnto(numMipmaps: int, rfs: int, i: int)
    requires numMipmaps > 0 && rfs >= 0 && 0 <= i < NumFeatures(numMipmaps, rfs)
    ensures var dz := DzOf(numMipmaps, rfs, i);
      var mipmap := MipmapOf(numMipmaps, i);
      -rfs <= dz <= rfs && 0 <= mipmap < numMipmaps &&
      FeatureIndex(numMipmaps, rfs, dz, mipmap) == i
  {
    var q := i / numMipmaps;
    assert q * numMipmaps + i % numMipmaps == i;
    BigWarpActions.MulMono(rfs * 2 + 1, q, numMipmaps);
  }

  /** `mipmapAccess[mipmap].setPosition(x, y, z)` followed by `get()`: one voxel of one mipmap
      level (border-extended, with y and z swapped), foreign image access given as `access`. */
  function Voxel(access: (int, int, int, int) -> real, mipmap: int, x: int, y: int, z: int): real
  {
    access(mipmap, x, y, z)
  }

  function Half(v: real): real
  {
    v * 0.5
  }

  /** The sample taken for `nail` at z offset `dz` on level `mipmap`: the nail's x and y and
      the truncated shifted z are halved and rounded; the per-level scales are not consulted. */
  function FeatureAt(nail: Point3, access: (int, int, int, int) -> real, dz: int, mipmap: int): real
  {
    LevelSample(nail, access, mipmap, Trunc(nail.z + dz as real))
  }

  /** The level-`mipmap` voxel under the nail's x and y at height `z`, all three halved and rounded. */
  function LevelSample(nail: Point3, access: (int, int, int, int) -> real, mipmap: int, z: int): real
  {
    Voxel(access, mipmap, JavaRound(Half(nail.x)), JavaRound(Half(nail.y)), JavaRound(Half(z as real)))
  }

  /** The value stored in slot `i`. */
  function FeatureOf(nail: Point3, access: (int, int, int, int) -> real, numMipmaps: int, rfs: int, i: int): real
    requires numMipmaps > 0
  {
    FeatureAt(nail, access, DzOf(numMipmaps, rfs, i), MipmapOf(numMipmaps, i))
  }

  /** The whole feature vector of a nail. */
  function Features(nail: Point3, access: (int, int, int, int) -> real, numMipmaps: int, rfs: int): seq<real>
    requires numMipmaps > 0 && rfs >= 0
  {
    seq(NumFeatures(numMipmaps, rfs), i => FeatureOf(nail, access, numMipmaps, rfs, i))
  }

  /** The feature vector holds, at the slot of each (dz, mipmap) pair, exactly that pair's sample. */
  lemma FeaturesLayout(nail: Point3, access: (int, int, int, int) -> real, numMipmaps: int, rfs: int,
                       dz: int, mipmap: int)
    requires numMipmaps > 0 && rfs >= 0
    requires -rfs <= dz <= rfs && 0 <= mipmap < numMipmaps
    ensures var f := Features(nail, access, numMipmaps, rfs);
      var i := FeatureIndex(numMipmaps, rfs, dz, mipmap);
      0 <= i < |f| && f[i] == FeatureAt(nail, access, dz, mipmap)
  {
    FeatureIndexBijection(numMipmaps, rfs, dz, mipmap);
  }

  /** `getFeatureVector`: fills the vector z offset by z offset, level by level. */
  method FeatureVector(nail: Point3, numMipmaps: int, rfs: int, access: (int, int, int, int) -> real)
    returns (features: seq<real>)
    requires numMipmaps > 0 && rfs >= 0
    ensures features == Features(nail, access, numMipmaps, rfs)
  {
    var a := new real[NumFeatures(numMipmaps, rfs)];
    var dz := -rfs;
    assert FeatureIndex(numMipmaps, rfs, dz, 0) == 0;
    while dz <= rfs
      invariant -rfs <= dz <= rfs + 1
      invariant FeatureIndex(numMipmaps, rfs, dz, 0) <= a.Length
      invariant forall i :: 0 <= i < FeatureIndex(numMipmaps, rfs, dz, 0) ==>
        a[i] == FeatureOf(nail, access, numMipmaps, rfs, i)
    {
      var z := Trunc(nail.z + dz as real);
      FeatureIndexCarry(numMipmaps, rfs, dz);
      FeatureIndexBound(numMipmaps, rfs, dz + 1);
      FillOffset(a, nail, numMipmaps, rfs, access, dz, z);
      dz := dz + 1;
    }
    FeatureIndexEnd(numMipmaps, rfs);
    features := a[..];
  }

  /** The slot the inner loop writes next lies in the vector and is specified to hold the sample
      being written there. */
  lemma FeatureSlot(nail: Point3, access: (int, int, int, int) -> real, numMipmaps: int, rfs: int,
                    dz: int, mipmap: int)
    requires numMipmaps > 0 && rfs >= 0
    requires -rfs <= dz <= rfs && 0 <= mipmap < numMipmaps
    ensures var i := FeatureIndex(numMipmaps, rfs, dz, mipmap);
      0 <= i < NumFeatures(numMipmaps, rfs) &&
      FeatureOf(nail, access, numMipmaps, rfs, i) == FeatureAt(nail, access, dz, mipmap)
  {
    FeatureIndexBijection(numMipmaps, rfs, dz, mipmap);
  }

  /** One pass of the inner loop of `getFeatureVector`: the samples of every level at offset `dz`,
      whose truncated height `z` the outer loop computes. */
  method FillOffset(a: array<real>, nail: Point3, numMipmaps: int, rfs: int,
                    access: (int, int, int, int) -> real, dz: int, z: int)
    requires numMipmaps > 0 && rfs >= 0 && -rfs <= dz <= rfs && z == Trunc(nail.z + dz as real)
    requires a.Length == NumFeatures(numMipmaps, rfs)
    requires FeatureIndex(numMipmaps, rfs, dz, numMipmaps) <= a.Length
    requires forall i :: 0 <= i < FeatureIndex(numMipmaps, rfs, dz, 0) ==>
      a[i] == FeatureOf(nail, access, numMipmaps, rfs, i)
    modifies a
    ensures forall i :: 0 <= i < FeatureIndex(numMipmaps, rfs, dz, numMipmaps) ==>
      a[i] == FeatureOf(nail, access, numMipmaps, rfs, i)
  {
    var mipmap := 0;
    while mipmap < numMipmaps
      invariant 0 <= mipmap <= numMipmaps
      invariant FeatureIndex(numMipmaps, rfs, dz, mipmap) <= FeatureIndex(numMipmaps, rfs, dz, numMipmaps)
      invariant forall i :: 0 <= i < FeatureIndex(numMipmaps, rfs, dz, mipmap) ==>
        a[i] == FeatureOf(nail, access, numMipmaps, rfs, i)
    {
      var idx := FeatureIndex(numMipmaps, rfs, dz, mipmap);
      FeatureSlot(nail, access, numMipmaps, rfs, dz, mipmap);
      a[idx] := LevelSample(nail, access, mipmap, z);
      mipmap := mipmap + 1;
    }
  }

  // ---------------------------------------------------------------------------------------
  // Training set layout
  // ---------------------------------------------------------------------------------------

  /** Rows per nail: one per z offset in [-zTraining, zTraining]. */
  function NailStride(zTraining: int): int
  {
    zTraining * 2 + 1
  }

  /** Row of the training sample of nail `n` shifted by `ztrain`. */
  function TrainingRow(zTraining: int, n: int, ztrain: int): int
  {
    n * NailStride(zTraining) + ztrain + zTraining
  }

  /** Each (nail, offset) pair has a row inside the training set and no two pairs share a row. */
  lemma TrainingRowBijection(zTraining: int, count: int, n: int, ztrain: int)
    requires zTraining >= 0 && 0 <= n < count && -zTraining <= ztrain <= zTraining
    ensures var row := TrainingRow(zTraining, n, ztrain);
      0 <= row < count * NailStride(zTraining) &&
      row / NailStride(zTraining) == n && row % NailStride(zTraining) - zTraining == ztrain
  {
    var row := TrainingRow(zTraining, n, ztrain);
    var s := NailStride(zTraining);
    BigWarpActions.DivModUnique(row, s, n, ztrain + zTraining);
    BigWarpActions.MulMono(n + 1, count, s);
    BigWarpActions.MulSucc(n, s);
  }

  /** The row after the last offset of one nail is the first offset of the next nail. */
  lemma TrainingRowCarry(zTraining: int, n: int)
    ensures TrainingRow(zTraining, n, zTraining + 1) == TrainingRow(zTraining, n + 1, -zTraining)
  {
    BigWarpActions.MulSucc(n, NailStride(zTraining));
  }

  /** Every row of the training set belongs to some (nail, offset) pair. */
  lemma TrainingRowOnto(zTraining: int, count: int, row: int)
    requires zTraining >= 0 && 0 <= row < count * NailStride(zTraining)
    ensures var s := NailStride(zTraining);
      var n := row / s;
      var ztrain := row % s - zTraining;
      0 <= n < count && -zTraining <= ztrain <= zTraining && TrainingRow(zTraining, n, ztrain) == row
  {
    var s := NailStride(zTraining);
    var n := row / s;
    assert n * s + row % s == row && 0 <= row % s < s;
    BigWarpActions.MulMono(count, n, s);
    assert n < count;
  }

  /** The nail shifted along z by `ztrain`. */
  function TrainNail(nail: Point3, ztrain: int): Point3
  {
    Point3(nail.x, nail.y, nail.z + ztrain as real)
  }

  /** The regression target `ztrain / zTraining`; with a zero radius the one target is 0/0,
      which is not a number. */
  function Target(zTraining: int, ztrain: int): (t: Option<real>)
    requires -zTraining <= ztrain <= zTraining
    ensures t.None? <==> zTraining == 0
    ensures t.Some? ==> -1.0 <= t.value <= 1.0
    ensures t.Some? ==> (t.value == 0.0 <==> ztrain == 0) && (t.value > 0.0 <==> ztrain > 0)
  {
    if zTraining == 0 then None else Some(ztrain as real / zTraining as real)
  }

  /** The feature row stored at row `row`. */
  function InputOf(nails: seq<Point3>, access: (int, int, int, int) -> real, zTraining: int,
                   numMipmaps: int, rfs: int, row: int): seq<real>
    requires zTraining >= 0 && numMipmaps > 0 && rfs >= 0 && 0 <= row < |nails| * NailStride(zTraining)
  {
    TrainingRowOnto(zTraining, |nails|, row);
    var s := NailStride(zTraining);
    Features(TrainNail(nails[row / s], row % s - zTraining), access, numMipmaps, rfs)
  }

  /** The target stored at row `row`. */
  function TargetOf(zTraining: int, count: int, row: int): Option<real>
    requires zTraining >= 0 && 0 <= row < count * NailStride(zTraining)
  {
    TrainingRowOnto(zTraining, count, row);
    Target(zTraining, row % NailStride(zTraining) - zTraining)
  }

  /** The row the training loop writes next lies in the set and is specified to hold the pair's
      features and target. */
  lemma TrainingSlot(nails: seq<Point3>, access: (int, int, int, int) -> real, zTraining: int,
                     numMipmaps: int, rfs: int, n: int, ztrain: int)
    requires zTraining >= 0 && numMipmaps > 0 && rfs >= 0
    requires 0 <= n < |nails| && -zTraining <= ztrain <= zTraining
    ensures var row := TrainingRow(zTraining, n, ztrain);
      0 <= row < |nails| * NailStride(zTraining) &&
      InputOf(nails, access, zTraining, numMipmaps, rfs, row) ==
        Features(TrainNail(nails[n], ztrain), access, numMipmaps, rfs) &&
      TargetOf(zTraining, |nails|, row) == Target(zTraining, ztrain)
  {
    TrainingRowBijection(zTraining, |nails|, n, ztrain);
  }

  /** The training-set loop of `GenerateMagicNailsAction`: for each nail and each z offset, the
      feature vector of the shifted nail and its target, stored at the pair's row. */
  method TrainingSet(nails: seq<Point3>, zTraining: int, numMipmaps: int, rfs: int,
                     access: (int, int, int, int) -> real)
    returns (inputs: seq<seq<real>>, targets: seq<Option<real>>)
    requires zTraining >= 0 && numMipmaps > 0 && rfs >= 0
    ensures |inputs| == |targets| == |nails| * NailStride(zTraining)
    ensures forall n, ztrain :: 0 <= n < |nails| && -zTraining <= ztrain <= zTraining ==>
      var row := TrainingRow(zTraining, n, ztrain);
      0 <= row < |inputs| &&
      inputs[row] == Features(TrainNail(nails[n], ztrain), access, numMipmaps, rfs) &&
      targets[row] == Target(zTraining, ztrain)
  {
    var count := |nails| * NailStride(zTraining);
    var ins := new seq<real>[count];
    var outs := new Option<real>[count];
    var n := 0;
    assert TrainingRow(zTraining, 0, -zTraining) == 0;
    while n < |nails|
      invariant 0 <= n <= |nails|
      invariant TrainingRow(zTraining, n, -zTraining) <= count
      invariant forall row :: 0 <= row < TrainingRow(zTraining, n, -zTraining) ==>
        ins[row] == InputOf(nails, access, zTraining, numMipmaps, rfs, row) &&
        outs[row] == TargetOf(zTraining, |nails|, row)
    {
      TrainingRowCarry(zTraining, n);
      TrainingRowBound(zTraining, |nails|, n, zTraining);
      FillNail(ins, outs, nails, zTraining, numMipmaps, rfs, access, n);
      n := n + 1;
    }
    inputs := ins[..];
    targets := outs[..];
    forall n, ztrain | 0 <= n < |nails| && -zTraining <= ztrain <= zTraining
      ensures var row := TrainingRow(zTraining, n, ztrain);
        0 <= row < |inputs| &&
        inputs[row] == Features(TrainNail(nails[n], ztrain), access, numMipmaps, rfs) &&
        targets[row] == Target(zTraining, ztrain)
    {
      TrainingSlot(nails, access, zTraining, numMipmaps, rfs, n, ztrain);
      TrainingRowBound(zTraining, |nails|, n, ztrain);
    }
  }

  lemma TrainingRowBound(zTraining: int, count: int, n: int, ztrain: int)
    requires zTraining >= 0 && 0 <= n < count && -zTraining <= ztrain <= zTraining
    ensures TrainingRow(zTraining, n, ztrain) < TrainingRow(zTraining, count, -zTraining)
  {
    BigWarpActions.MulMono(n + 1, count, NailStride(zTraining));
    BigWarpActions.MulSucc(n, NailStride(zTraining));
  }

  /** The inner training loop for nail `n`: one row per z offset. */
  method FillNail(ins: array<seq<real>>, outs: array<Option<real>>, nails: seq<Point3>, zTraining: int,
                  numMipmaps: int, rfs: int, access: (int, int, int, int) -> real, n: int)
    requires zTraining >= 0 && numMipmaps > 0 && rfs >= 0 && 0 <= n < |nails|
    requires ins.Length == outs.Length == |nails| * NailStride(zTraining)
    requires TrainingRow(zTraining, n, zTraining + 1) <= |nails| * NailStride(zTraining)
    requires forall row :: 0 <= row < TrainingRow(zTraining, n, -zTraining) ==>
      ins[row] == InputOf(nails, access, zTraining, numMipmaps, rfs, row) &&
      outs[row] == TargetOf(zTraining, |nails|, row)
    modifies ins, outs
    ensures forall row :: 0 <= row < TrainingRow(zTraining, n, zTraining + 1) ==>
      ins[row] == InputOf(nails, access, zTraining, numMipmaps, rfs, row) &&
      outs[row] == TargetOf(zTraining, |nails|, row)
  {
    var ztrain := -zTraining;
    while ztrain <= zTraining
      invariant -zTraining <= ztrain <= zTraining + 1
      invariant TrainingRow(zTraining, n, ztrain) <= TrainingRow(zTraining, n, zTraining + 1)
      invariant forall row :: 0 <= row < TrainingRow(zTraining, n, ztrain) ==>
        ins[row] == InputOf(nails, access, zTraining, numMipmaps, rfs, row) &&
        outs[row] == TargetOf(zTraining, |nails|, row)
    {
      var features := FeatureVector(TrainNail(nails[n], ztrain), numMipmaps, rfs, access);
      var row := TrainingRow(zTraining, n, ztrain);
      TrainingSlot(nails, access, zTraining, numMipmaps, rfs, n, ztrain);
      ins[row] := features;
      outs[row] := Target(zTraining, ztrain);
      ztrain := ztrain + 1;
    }
  }

  // ---------------------------------------------------------------------------------------
  // Heightmap relaxation
  // ---------------------------------------------------------------------------------------

  /** `solutionAccess.get()` with `pos[2] = z`: the learned score at height z of the current
      column, a foreign function view given as `score`. */
  function Score(score: int -> real, z: int): real
  {
    score(z)
  }

  /** The direction one relaxation step takes from the scores below, at and above the current
      height: down while the score is positive beneath, up while it is negative above. */
  function Move(below: real, here: real, above: real): (d: int)
    ensures -1 <= d <= 1
    ensures d == -1 ==> below > 0.0
    ensures d == 1 ==> above < 0.0
    ensures below <= 0.0 <= above ==> d == 0
    ensures below >= 0.0 >= above ==> d == 0
    ensures below > 0.0 && here > 0.0 && above > 0.0 ==> d == -1
    ensures below < 0.0 && here < 0.0 && above < 0.0 ==> d == 1
  {
    if below < here && here < above && below > 0.0 then -1
    else if above > here && here > below && above < 0.0 then 1
    else if below < 0.0 && here < 0.0 && above < 0.0 then 1
    else if below > 0.0 && here > 0.0 && above > 0.0 then -1
    else 0
  }

  /** The loop state: `pos[2]` and the three cached scores. */
  datatype Probe = Probe(pos: int, below: real, here: real, above: real)

  datatype Outcome = Outcome(probe: Probe, steps: int)

  /** The cached scores are those of the heights below, at and above `pos`. */
  ghost predicate Coherent(score: int -> real, p: Probe)
  {
    p.below == Score(score, p.pos - 1) && p.here == Score(score, p.pos) && p.above == Score(score, p.pos + 1)
  }

  /** One loop iteration as written: after the priming reads `pos[2]` sits one below the height
      whose score is `here`, and each move reads the score at the moved `pos[2]`. */
  function StepAsWritten(score: int -> real, p: Probe): (r: Probe)
    ensures p.pos - 1 <= r.pos <= p.pos + 1
  {
    var d := Move(p.below, p.here, p.above);
    if d == -1 then Probe(p.pos - 1, Score(score, p.pos - 1), p.below, p.here)
    else if d == 1 then Probe(p.pos + 1, p.here, p.above, Score(score, p.pos + 1))
    else p
  }

  /** One loop iteration with `pos[2]` at the height whose score is `here`: a move reads the score
      one further in the direction taken. */
  function Step(score: int -> real, p: Probe): (r: Probe)
    ensures p.pos - 1 <= r.pos <= p.pos + 1
    ensures Coherent(score, p) ==> Coherent(score, r)
    ensures r.pos == p.pos <==> Move(p.below, p.here, p.above) == 0
  {
    var d := Move(p.below, p.here, p.above);
    if d == -1 then Probe(p.pos - 1, Score(score, p.pos - 2), p.below, p.here)
    else if d == 1 then Probe(p.pos + 1, p.here, p.above, Score(score, p.pos + 2))
    else p
  }

  function NextProbe(score: int -> real, p: Probe, asWritten: bool): Probe
  {
    if asWritten then StepAsWritten(score, p) else Step(score, p)
  }

  /** The loop: iterate while the position changed in the last iteration (`lastPos` starts at
      -1) and fewer than `maxSteps` iterations have run. */
  function Run(score: int -> real, p: Probe, lastPos: int, steps: int, maxSteps: int, asWritten: bool): Outcome
    decreases maxSteps - steps
  {
    if p.pos != lastPos && steps < maxSteps then
      Run(score, NextProbe(score, p, asWritten), p.pos, steps + 1, maxSteps, asWritten)
    else
      Outcome(p, steps)
  }

  /** The three priming reads around `start`. */
  function Prime(score: int -> real, start: int): Probe
  {
    Probe(start, Score(score, start - 1), Score(score, start), Score(score, start + 1))
  }

  /** `relaxHeightmap` as written: the last priming read leaves `pos[2]` at `start - 1`. */
  function RelaxAsWritten(score: int -> real, start: int, maxSteps: int): Outcome
  {
    var p := Prime(score, start);
    Run(score, p.(pos := start - 1), -1, 0, maxSteps, true)
  }

  /** `relaxHeightmap` with `pos[2]` reset to `start` after the priming reads. */
  function Relax(score: int -> real, start: int, maxSteps: int): Outcome
  {
    Run(score, Prime(score, start), -1, 0, maxSteps, false)
  }

  /** The loop runs at most `maxSteps` iterations and each moves the position by at most one. */
  lemma {:induction false} RunBounded(score: int -> real, p: Probe, lastPos: int, steps: int, maxSteps: int,
                                      asWritten: bool)
    ensures var o := Run(score, p, lastPos, steps, maxSteps, asWritten);
      steps <= o.steps <= Max(steps, maxSteps) &&
      -(o.steps - steps) <= o.probe.pos - p.pos <= o.steps - steps
    decreases maxSteps - steps
  {
    if p.pos != lastPos && steps < maxSteps {
      RunBounded(score, NextProbe(score, p, asWritten), p.pos, steps + 1, maxSteps, asWritten);
    }
  }

  /** Without the position bug, the cached scores stay those of the current height. */
  lemma {:induction false} RunCoherent(score: int -> real, p: Probe, lastPos: int, steps: int, maxSteps: int)
    requires Coherent(score, p)
    ensures Coherent(score, Run(score, p, lastPos, steps, maxSteps, false).probe)
    decreases maxSteps - steps
  {
    if p.pos != lastPos && steps < maxSteps {
      RunCoherent(score, Step(score, p), p.pos, steps + 1, maxSteps);
    }
  }

  /** Once an iteration has run, the loop stops either out of steps or where no move applies. */
  lemma {:induction false} RunSettles(score: int -> real, p: Probe, lastPos: int, steps: int, maxSteps: int)
    requires p.pos != lastPos
    ensures var o := Run(score, p, lastPos, steps, maxSteps, false);
      o.steps >= maxSteps || Move(o.probe.below, o.probe.here, o.probe.above) == 0
    decreases maxSteps - steps
  {
    if steps < maxSteps {
      var q := Step(score, p);
      if q.pos != p.pos {
        RunSettles(score, q, p.pos, steps + 1, maxSteps);
      }
    }
  }

  /** The relaxed height lies within `maxSteps` of the start and, unless the steps ran out (or the
      start is the sentinel -1, which skips the loop), no move applies there: in particular the
      score does not lie strictly on one side of zero at the three heights around it. */
  lemma RelaxSpec(score: int -> real, start: int, maxSteps: int)
    ensures var o := Relax(score, start, maxSteps);
      var z := o.probe.pos;
      0 <= o.steps <= Max(0, maxSteps) && -o.steps <= z - start <= o.steps &&
      Coherent(score, o.probe) &&
      (start != -1 && o.steps < maxSteps ==>
         Move(Score(score, z - 1), Score(score, z), Score(score, z + 1)) == 0)
  {
    RunBounded(score, Prime(score, start), -1, 0, maxSteps, false);
    RunCoherent(score, Prime(score, start), -1, 0, maxSteps);
    if start != -1 {
      RunSettles(score, Prime(score, start), -1, 0, maxSteps);
    }
  }

  /** As written the result stays within `maxSteps` of `start - 1`, not of `start`. */
  lemma RelaxAsWrittenBounded(score: int -> real, start: int, maxSteps: int)
    ensures var o := RelaxAsWritten(score, start, maxSteps);
      0 <= o.steps <= Max(0, maxSteps) && -o.steps <= o.probe.pos - (start - 1) <= o.steps
  {
    RunBounded(score, Prime(score, start).(pos := start - 1), -1, 0, maxSteps, true);
  }

  function ZeroScore(z: int): real { 0.0 }

  /** With a score that is zero everywhere no move applies, yet the loop as written returns one
      below the starting height; with the position reset the start is returned. */
  lemma RelaxAsWrittenOffByOne(start: int, maxSteps: int)
    ensures RelaxAsWritten(ZeroScore, start, maxSteps).probe.pos == start - 1
    ensures Relax(ZeroScore, start, maxSteps).probe.pos == start
  {
    var p := Prime(ZeroScore, start);
    assert Move(p.below, p.here, p.above) == 0;
    if start - 1 != -1 && 0 < maxSteps {
      assert RelaxAsWritten(ZeroScore, start, maxSteps) == Run(ZeroScore, p.(pos := start - 1), start - 1, 1, maxSteps, true);
    }
    if start != -1 && 0 < maxSteps {
      assert Relax(ZeroScore, start, maxSteps) == Run(ZeroScore, p, start, 1, maxSteps, false);
    }
  }

  /** A score rising through zero at height 20. */
  function Ramp(z: int): real
  {
    z as real - 20.0
  }

  /** On an up move the loop as written caches, as the score above the new height, the score one
      below it: from start 10 under `Ramp` all three scores are negative, the first iteration
      moves up to height 11, and the cached score above is that of height 10, not of 12. The
      corrected step caches the score of height 12. */
  lemma StepAsWrittenUpReadsStale()
    ensures var r := StepAsWritten(Ramp, Prime(Ramp, 10).(pos := 9));
      r.here == Score(Ramp, 11) && r.above == Score(Ramp, 10) && r.above != Score(Ramp, 12)
    ensures var r := Step(Ramp, Prime(Ramp, 10));
      r.pos == 11 && r.here == Score(Ramp, 11) && r.above == Score(Ramp, 12)
  {
    var p := Prime(Ramp, 10);
    assert p.below == -11.0 && p.here == -10.0 && p.above == -9.0;
    assert Move(p.below, p.here, p.above) == 1;
  }

  /** The `relaxHeightmap` loop as written. */
  method RelaxHeightmapAsWritten(score: int -> real, start: int, maxSteps: int) returns (z: int)
    ensures z == RelaxAsWritten(score, start, maxSteps).probe.pos
  {
    var pos := start;
    var here := Score(score, pos);
    pos := start + 1;
    var above := Score(score, pos);
    pos := start - 1;
    var below := Score(score, pos);
    var lastPos := -1;
    var numSteps := 0;
    while pos != lastPos && numSteps < maxSteps
      invariant Run(score, Probe(pos, below, here, above), lastPos, numSteps, maxSteps, true) ==
                RelaxAsWritten(score, start, maxSteps)
      decreases maxSteps - numSteps
    {
      lastPos := pos;
      var d := Move(below, here, above);
      if d == -1 {
        above := here;
        here := below;
        pos := pos - 1;
        below := Score(score, pos);
      } else if d == 1 {
        below := here;
        here := above;
        pos := pos + 1;
        above := Score(score, pos);
      }
      numSteps := numSteps + 1;
    }
    z := pos;
  }

  /** The `relaxHeightmap` loop with `pos[2]` kept at the height whose score is `here`. */
  method RelaxHeightmap(score: int -> real, start: int, maxSteps: int) returns (z: int)
    ensures z == Relax(score, start, maxSteps).probe.pos
  {
    var pos := start;
    var here := Score(score, start);
    var above := Score(score, start + 1);
    var below := Score(score, start - 1);
    var lastPos := -1;
    var numSteps := 0;
    while pos != lastPos && numSteps < maxSteps
      invariant Run(score, Probe(pos, below, here, above), lastPos, numSteps, maxSteps, false) ==
                Relax(score, start, maxSteps)
      decreases maxSteps - numSteps
    {
      lastPos := pos;
      var d := Move(below, here, above);
      if d == -1 {
        above := here;
        here := below;
        pos := pos - 1;
        below := Score(score, pos - 1);
      } else if d == 1 {
        below := here;
        here := above;
        pos := pos + 1;
        above := Score(score, pos + 1);
      }
      numSteps := numSteps + 1;
    }
    z := pos;
  }
}
