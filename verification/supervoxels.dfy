/** The two reports of the supervoxel statistics: the average cell size per
    dimension of the geometry store (`gStatistics`) and the average
    supervoxel size of a segmentation (`supervoxelStatistics`). */
module Supervoxels {
  import opened Averages
  import opened GeometryStatistics

  /** `gStatistics`: `statistic` for the dimensions `d = 1, 2`, in that order,
      and for no other dimension. The reader is opened from the file by the
      caller; the averages are returned in printing order. The loop calls
      `statistic` with its fill loop corrected (`StatisticCorrected`), so each
      line holds the mean cell size of its dimension. */
  method GStatistics(g: Geometry) returns (printed: seq<Average>)
    ensures |printed| == 2
    ensures printed[0] == IntendedAverage(g, 1)
    ensures printed[1] == IntendedAverage(g, 2)
  {
    printed := [];
    var d := 1;
    while d < 3
      invariant 1 <= d <= 3
      invariant |printed| == d - 1
      invariant forall k :: 0 <= k < |printed| ==> printed[k] == IntendedAverage(g, k + 1)
    {
      var avg := StatisticCorrected(g, d);
      printed := printed + [avg];
      d := d + 1;
    }
  }

  /** `supervoxelStatistics`, after the accumulator chain has counted the
      voxels of each label: `count(i)` is `get<Count>(a, i)` and `maxRegionLabel`
      is `a.maxRegionLabel()`. The counts of labels `1..maxRegionLabel` are
      added and the total divided by `maxRegionLabel`. */
  method SupervoxelStatistics(maxRegionLabel: nat, count: nat -> real) returns (avg: Average)
    ensures avg.NaN? <==> maxRegionLabel == 0
    ensures avg.Mean? ==> avg.value * maxRegionLabel as real == LabelSum(count, maxRegionLabel)
  {
    var total := 0.0;
    var i := 1;
    while i <= maxRegionLabel
      invariant 1 <= i <= maxRegionLabel + 1
      invariant total == LabelSum(count, i - 1)
    {
      total := total + count(i);
      i := i + 1;
    }
    avg := Divide(total, maxRegionLabel);
  }

  /** The supervoxel average reads the counts of labels `1..maxRegionLabel`
      only: the background label `0` never enters it. */
  lemma BackgroundIgnored(maxRegionLabel: nat, count: nat -> real, other: nat -> real)
    requires forall i :: 1 <= i <= maxRegionLabel ==> count(i) == other(i)
    ensures Divide(LabelSum(count, maxRegionLabel), maxRegionLabel)
         == Divide(LabelSum(other, maxRegionLabel), maxRegionLabel)
  {
    LabelSumReadsLabels(count, other, maxRegionLabel);
  }

  /** With non-negative counts the supervoxel average is non-negative. */
  lemma SupervoxelAverageNonNegative(maxRegionLabel: nat, count: nat -> real)
    requires maxRegionLabel > 0
    requires forall i :: 1 <= i <= maxRegionLabel ==> count(i) >= 0.0
    ensures Divide(LabelSum(count, maxRegionLabel), maxRegionLabel).value >= 0.0
  {
    LabelSumMonotone(count, maxRegionLabel, maxRegionLabel);
  }
}
