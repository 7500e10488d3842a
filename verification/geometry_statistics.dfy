/** `statistic(g, dimension)`: the average size of the cells of one dimension
    of a cell complex, read from the geometry store. The store is reduced to
    the two questions the function asks it. */
module GeometryStatistics {
  import opened Averages

  /** The geometry reader: `maxLabel(d)` is the largest label of the
      `d`-dimensional cells and `size(d, i)` the size of the cell labelled `i`. */
  datatype Geometry = Geometry(maxLabel: int -> nat, size: (int, nat) -> nat)

  /** The cell sizes of dimension `d` as reals, by label. */
  function Sizes(g: Geometry, d: int): nat -> real
  {
    (i: nat) => g.size(d, i) as real
  }

  /** `std::accumulate(sizes.begin(), sizes.end(), 0.0)`: a left fold from `0.0`. */
  function Accumulate(xs: seq<nat>): real
  {
    if |xs| == 0 then 0.0 else Accumulate(xs[..|xs| - 1]) + xs[|xs| - 1] as real
  }

  /** A prefix whose slot `j` holds the size of label `j + 1` accumulates to
      the sum of the sizes of its labels. */
  lemma {:induction false} AccumulateLabelled(g: Geometry, d: int, xs: seq<nat>, k: nat)
    requires k <= |xs|
    requires forall j :: 0 <= j < k ==> xs[j] == g.size(d, j + 1)
    ensures Accumulate(xs[..k]) == LabelSum(Sizes(g, d), k)
  {
    if k > 0 {
      var p := xs[..k];
      assert p[..k - 1] == xs[..k - 1];
      AccumulateLabelled(g, d, xs, k - 1);
    }
  }

  /** The fill loop of `statistic`: a vector of `maxLabel(d)` zeros, then
      slot `i - 1` set to `size(d, i)` for `1 <= i < maxLabel(d)`. The loop
      stops one label short, so the last slot is never written. */
  method FillSizes(g: Geometry, d: int) returns (sizes: seq<nat>)
    ensures |sizes| == g.maxLabel(d)
    ensures forall j :: 0 <= j < |sizes| - 1 ==> sizes[j] == g.size(d, j + 1)
    ensures |sizes| > 0 ==> sizes[|sizes| - 1] == 0
  {
    var n := g.maxLabel(d);
    var a := new nat[n](_ => 0);
    var i: nat := 1;
    while i < n
      invariant 1 <= i && (n == 0 || i <= n)
      invariant n == 0 ==> i == 1
      invariant forall j :: 0 <= j < i - 1 ==> a[j] == g.size(d, j + 1)
      invariant forall j :: i - 1 <= j < n ==> a[j] == 0
    {
      a[i - 1] := g.size(d, i);
      i := i + 1;
    }
    sizes := a[..];
  }

  /** What `statistic` prints, as the program is written: the sizes of labels
      `1..maxLabel-1` summed and divided by `maxLabel`. */
  function AsWrittenAverage(g: Geometry, d: int): Average
  {
    var n := g.maxLabel(d);
    if n == 0 then NaN else Mean(LabelSum(Sizes(g, d), n - 1) / n as real)
  }

  /** What `statistic` evidently means to print: the mean size over all labels
      `1..maxLabel`. */
  function IntendedAverage(g: Geometry, d: int): Average
  {
    var n := g.maxLabel(d);
    if n == 0 then NaN else Mean(LabelSum(Sizes(g, d), n) / n as real)
  }

  /** `statistic(g, dimension)`, as written: fill the vector, accumulate it,
      divide by its length. */
  method Statistic(g: Geometry, d: int) returns (avg: Average)
    ensures avg == AsWrittenAverage(g, d)
  {
    var sizes := FillSizes(g, d);
    var n := |sizes|;
    if n > 0 {
      AccumulateLabelled(g, d, sizes, n - 1);
      assert sizes == sizes[..n - 1] + [sizes[n - 1]];
    }
    avg := Divide(Accumulate(sizes), n);
  }

  /** The fill loop with the bound the label range calls for: slot `i - 1`
      set to `size(d, i)` for every `1 <= i <= maxLabel(d)`. */
  method FillAllSizes(g: Geometry, d: int) returns (sizes: seq<nat>)
    ensures |sizes| == g.maxLabel(d)
    ensures forall j :: 0 <= j < |sizes| ==> sizes[j] == g.size(d, j + 1)
  {
    var n := g.maxLabel(d);
    var a := new nat[n](_ => 0);
    var i: nat := 1;
    while i <= n
      invariant 1 <= i <= n + 1
      invariant forall j :: 0 <= j < i - 1 ==> a[j] == g.size(d, j + 1)
    {
      a[i - 1] := g.size(d, i);
      i := i + 1;
    }
    sizes := a[..];
  }

  /** `statistic` with the corrected fill loop: the mean over every label. */
  method StatisticCorrected(g: Geometry, d: int) returns (avg: Average)
    ensures avg == IntendedAverage(g, d)
  {
    var sizes := FillAllSizes(g, d);
    var n := |sizes|;
    AccumulateLabelled(g, d, sizes, n);
    assert sizes[..n] == sizes;
    avg := Divide(Accumulate(sizes), n);
  }

  /** The printed average leaves out exactly the share of the last label, so
      it falls short of the mean whenever that label has a positive size. */
  lemma LastLabelDropped(g: Geometry, d: int)
    requires g.maxLabel(d) > 0
    ensures AsWrittenAverage(g, d).Mean? && IntendedAverage(g, d).Mean?
    ensures IntendedAverage(g, d).value
      == AsWrittenAverage(g, d).value + g.size(d, g.maxLabel(d)) as real / g.maxLabel(d) as real
    ensures g.size(d, g.maxLabel(d)) > 0 ==> AsWrittenAverage(g, d).value < IntendedAverage(g, d).value
  {
    var n := g.maxLabel(d) as real;
    var s := LabelSum(Sizes(g, d), g.maxLabel(d) - 1);
    var last := g.size(d, g.maxLabel(d)) as real;
    assert LabelSum(Sizes(g, d), g.maxLabel(d)) == s + last;
    assert (s + last) / n == s / n + last / n;
  }

  /** Two labels of sizes 4 and 6: the program prints 2, the mean is 5. */
  lemma OffByOneExample()
    ensures var g := Geometry(_ => 2, (_, i) => if i == 1 then 4 else if i == 2 then 6 else 0);
      AsWrittenAverage(g, 1) == Mean(2.0) && IntendedAverage(g, 1) == Mean(5.0)
  {
    var g := Geometry(_ => 2, (_, i) => if i == 1 then 4 else if i == 2 then 6 else 0);
    assert LabelSum(Sizes(g, 1), 1) == 4.0 by {
      assert LabelSum(Sizes(g, 1), 0) == 0.0;
    }
    assert LabelSum(Sizes(g, 1), 2) == 10.0;
  }

  /** The printed average is the mean of the sizes the loop stored, over a
      count that includes the slot it left empty. */
  lemma AsWrittenOverFilledSlots(g: Geometry, d: int)
    requires g.maxLabel(d) > 1
    ensures AsWrittenAverage(g, d).Mean?
    ensures AsWrittenAverage(g, d).value * g.maxLabel(d) as real
      == IntendedAverageOf(g, d, g.maxLabel(d) - 1) * (g.maxLabel(d) - 1) as real
  {
    var n := g.maxLabel(d);
    var s := LabelSum(Sizes(g, d), n - 1);
    assert AsWrittenAverage(g, d).value == s / n as real;
    assert IntendedAverageOf(g, d, n - 1) == s / (n - 1) as real;
  }

  /** The mean size over the labels `1..k`. */
  function IntendedAverageOf(g: Geometry, d: int, k: nat): real
    requires k > 0
  {
    LabelSum(Sizes(g, d), k) / k as real
  }
}
