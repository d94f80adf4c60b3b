/** The two `getAvgValue` overloads of SemaUtils: the mean of an iterable of doubles and the
    mean of a two-dimensional grid. Doubles are modelled as exact reals. */
module SemaUtils {
  import opened Common

  /** Sum of a sequence, accumulated from the front as the iterator loop does. */
  function Sum(s: seq<real>): real
  {
    if s == [] then 0.0 else Sum(s[..|s| - 1]) + s[|s| - 1]
  }

  function Mean(s: seq<real>): real
    requires |s| > 0
  {
    Sum(s) / |s| as real
  }

  lemma {:induction false} SumAppend(a: seq<real>, b: seq<real>)
    ensures Sum(a + b) == Sum(a) + Sum(b)
  {
    if b == [] {
      assert a + b == a;
    } else {
      assert (a + b)[..|a + b| - 1] == a + b[..|b| - 1];
      SumAppend(a, b[..|b| - 1]);
    }
  }

  lemma {:induction false} SumBounds(s: seq<real>, lo: real, hi: real)
    requires forall i :: 0 <= i < |s| ==> lo <= s[i] <= hi
    ensures |s| as real * lo <= Sum(s) <= |s| as real * hi
  {
    if s != [] {
      SumBounds(s[..|s| - 1], lo, hi);
    }
  }

  /** The mean lies between any lower and upper bound of the elements; for a constant
      sequence it is that constant. */
  lemma MeanBounds(s: seq<real>, lo: real, hi: real)
    requires |s| > 0
    requires forall i :: 0 <= i < |s| ==> lo <= s[i] <= hi
    ensures lo <= Mean(s) <= hi
  {
    SumBounds(s, lo, hi);
    var n := |s| as real;
    assert Sum(s) / n >= (n * lo) / n;
    assert Sum(s) / n <= (n * hi) / n;
  }

  datatype AvgError = EmptyIterable

  /** `getAvgValue(Iterable)`: throws on an empty input; otherwise the accumulator starts at
      zero, each element is added and counted, and the sum is divided by the count. */
  method AvgValue(values: seq<real>) returns (r: Result<real, AvgError>)
    ensures r.Failure? <==> |values| == 0
    ensures |values| > 0 ==> r == Success(Mean(values))
  {
    if |values| == 0 {
      return Failure(EmptyIterable);
    }
    var avg := 0.0;
    var count := 0;
    var i := 0;
    while i < |values|
      invariant 0 <= i <= |values|
      invariant count == i
      invariant avg == Sum(values[..i])
    {
      assert values[..i + 1][..i] == values[..i];
      avg := avg + values[i];
      count := count + 1;
      i := i + 1;
    }
    assert values[..i] == values;
    r := Success(avg / count as real);
  }

  /** Row `x` of a grid, as the inner index loop visits it. */
  ghost function Column(g: array2<real>, x: int): (c: seq<real>)
    reads g
    requires 0 <= x < g.Length0
    ensures |c| == g.Length1
  {
    seq(g.Length1, y requires 0 <= y < g.Length1 reads g => g[x, y])
  }

  /** The cells of rows `0 .. xEnd-1`, in visiting order. */
  ghost function Cells(g: array2<real>, xEnd: int): (c: seq<real>)
    reads g
    requires 0 <= xEnd <= g.Length0
    decreases xEnd
  {
    if xEnd == 0 then [] else Cells(g, xEnd - 1) + Column(g, xEnd - 1)
  }

  lemma {:induction false} CellsLength(g: array2<real>, xEnd: int)
    requires 0 <= xEnd <= g.Length0
    ensures |Cells(g, xEnd)| == xEnd * g.Length1
  {
    if xEnd > 0 {
      CellsLength(g, xEnd - 1);
    }
  }

  /** `getAvgValue(RandomAccessibleInterval)` as its authors intended: visit every cell of
      the `dimension(0) x dimension(1)` grid once and divide the sum by the number of cells.
      An empty grid divides by a zero count, which gives NaN in the source; here `None`. */
  method GridAvgValue(g: array2<real>) returns (r: Option<real>)
    ensures r.None? <==> (g.Length0 == 0 || g.Length1 == 0)
    ensures r.Some? ==> |Cells(g, g.Length0)| > 0 && r.value == Mean(Cells(g, g.Length0))
  {
    var avg := 0.0;
    var count := 0;
    var x := 0;
    while x < g.Length0
      invariant 0 <= x <= g.Length0
      invariant count == |Cells(g, x)|
      invariant avg == Sum(Cells(g, x))
    {
      var y := 0;
      while y < g.Length1
        invariant 0 <= y <= g.Length1
        invariant count == |Cells(g, x)| + y
        invariant avg == Sum(Cells(g, x)) + Sum(Column(g, x)[..y])
      {
        ghost var col := Column(g, x);
        assert col[..y + 1][..y] == col[..y];
        avg := avg + g[x, y];
        count := count + 1;
        y := y + 1;
      }
      assert Column(g, x)[..y] == Column(g, x);
      SumAppend(Cells(g, x), Column(g, x));
      x := x + 1;
    }
    CellsLength(g, g.Length0);
    if count == 0 {
      assert g.Length0 == 0 || g.Length1 == 0;
      r := None;
    } else {
      assert g.Length0 != 0 && g.Length1 != 0;
      r := Some(avg / count as real);
    }
  }

  /** The grid overload as written. Its loop body calls `ra.localize(pos)`, which copies the
      accessor's own (never moved) position into `pos` instead of moving the accessor, and
      then the loop header increments `pos[1]`. One pass of the inner body, for an accessor
      at (`access0`, `access1`) holding `accessValue`: */
  datatype GridScan = GridScan(p0: int, p1: int, count: int, sum: real)

  function InnerPassAsWritten(s: GridScan, access0: int, access1: int, accessValue: real): GridScan
  {
    GridScan(access0, access1 + 1, s.count + 1, s.sum + accessValue)
  }

  function InnerPassesAsWritten(s: GridScan, access0: int, access1: int, accessValue: real, k: nat): GridScan
    decreases k
  {
    if k == 0 then s
    else InnerPassAsWritten(InnerPassesAsWritten(s, access0, access1, accessValue, k - 1), access0, access1, accessValue)
  }

  /** With a fresh accessor at the origin and a grid at least two cells tall, every pass
      leaves `pos[1] == 1 < dimension(1)`: the inner loop never exits, while the count and
      the sum keep growing with copies of the origin value. */
  lemma {:induction false} GridAvgAsWrittenNeverLeavesRow(s: GridScan, v: real, k: nat, dim1: int)
    requires dim1 >= 2 && k >= 1
    ensures var t := InnerPassesAsWritten(s, 0, 0, v, k);
      t.p1 == 1 && t.p1 < dim1 && t.count == s.count + k && t.sum == s.sum + k as real * v
  {
    if k > 1 {
      GridAvgAsWrittenNeverLeavesRow(s, v, k - 1, dim1);
    }
  }
}
