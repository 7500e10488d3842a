/** The geometry part of the `cgp_statistics` program. Its `statistic` is the
    same text as the one of the supervoxel statistics and is modelled once, in
    `GeometryStatistics`; what is particular to the program is the loop that
    ends `main`. */
module CgpStatistics {
  import opened Averages
  import opened GeometryStatistics

  /** The last loop of `main`: `statistic(g, d)` for `d = 1, 2` and no other
      dimension, with the reader `g` already opened on the geometry file, and
      `statistic` with its fill loop corrected (`StatisticCorrected`). Returns
      what is printed, in order. */
  method MainDimensionLoop(g: Geometry) returns (printed: seq<Average>)
    ensures |printed| == 2
    ensures forall k :: 0 <= k < 2 ==> printed[k] == IntendedAverage(g, k + 1)
  {
    printed := [];
    for d := 1 to 3
      invariant |printed| == d - 1
      invariant forall k :: 0 <= k < |printed| ==> printed[k] == IntendedAverage(g, k + 1)
    {
      var avg := StatisticCorrected(g, d);
      printed := printed + [avg];
    }
  }
}
