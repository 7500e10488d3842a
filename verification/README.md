# Compression benchmark and geometry statistics: a Dafny model

This project models the logic of a small benchmark around a labelled 3-D
volume. It has three parts:

- **The codec catalog.** `toString` names each of vigra's sixteen
  `CompressionMethod` values. `compressorList` maps a space-padded display
  name to each method.
- **The round-trip loop.** `statCompressors` compresses and decompresses one
  block with every catalog method. It fills one `CompressionStatistics`
  record per method, and each record has three derived rates.
- **The averaging helpers.** `statistic` averages the cell sizes of one
  dimension of a geometry store. `gStatistics` and the end of
  `cgp_statistics`' `main` run it for dimensions 1 and 2; the model's loops
  run the corrected `statistic` (see "## Findings").
  `supervoxelStatistics` averages the voxel counts of the labels of a
  segmentation.

Modules:

- `StdMap` holds `std::less<std::string>` and the order in which a range-for
  visits a `std::map`. That order is the unique strictly ascending
  enumeration of the keys.
- `Methods` holds the enumeration.
- `CompressionStats` holds the record, its constructors and its rates.
- `Compressors` holds the catalog and the loop.
- `Averages` holds the label sums and the `double` division the averages end
  in.
- `GeometryStatistics` holds `statistic`.
- `Supervoxels` holds `gStatistics` and `supervoxelStatistics`.
- `CgpStatistics` holds the loop at the end of `main`.

The codecs, the timer and the library readers are parameters:

- `Codec` holds the `compress` and `uncompress` functions.
- `tocn(j)` is the duration reported by the `j`-th `TOCN`.
- `Geometry` answers `maxLabel(d)` and `size(d, i)`.
- `count(i)` is the accumulator's `get<Count>(a, i)`.

Two aspects of the program need care in the model:

- **The block is overwritten.** `uncompress` writes its output into the block
  that the next method compresses. The model threads the block's bytes
  through the loop (`BlockBefore`).
- **Decompression fidelity is not assumed.** That the block comes back
  unchanged is the codec library's promise. It is stated as the hypothesis
  `RoundTrips(codec)`, and the loop is proved both with and without it.

`double` is modelled as `real`. The byte count `a.size()*sizeof(uint32_t)` is
a `size_t` and wraps modulo 2^64.

The `statistic` of `cgp_statistics.cxx` (lines 12-20) is the same text as the
one in `supervoxels.cxx` (lines 11-19). Both are modelled by
`GeometryStatistics`.

## Model

| member | source | states |
|---|---|---|
| `Compressors.ToString` | compressors.cxx:13-49 | every one of the sixteen methods has a name; the name is non-empty, shorter than the key width of 19, and does not end in a space |
| `Compressors.ToStringInjective` | compressors.cxx:16-47 | two methods have the same name exactly when they are the same method |
| `Compressors.CompressorList` | compressors.cxx:51-71 | every method is stored under its catalog key; every key maps to the method whose key it is |
| `Compressors.CatalogSize` | compressors.cxx:53-70 | the catalog holds exactly sixteen entries |
| `Compressors.CatalogValuesOnce` | compressors.cxx:54-69 | every method is a value of the catalog, under exactly one key |
| `Compressors.CatalogKeysMatchNames` | compressors.cxx:54-69 | every key is 19 characters long, is the method's name padded with spaces, and trims back to that name |
| `Compressors.TrimPadRoundTrip` | compressors.cxx:54-69 | stripping the trailing spaces of a padded name gives back the name when the name does not end in a space |
| `Compressors.CatalogOrderSorted` | compressors.cxx:54-69 | the catalog's keys, listed in `CatalogOrder`, are strictly ascending under `std::string` comparison |
| `Compressors.CatalogIsIterationOrder` | compressors.cxx:80-85 | a range-for over `compressorList()` visits the keys of `CatalogOrder`, ascending, each once |
| `Compressors.CatalogVisitsMethods` | compressors.cxx:85-87 | visiting the keys in that order meets every catalog method, and no method twice |
| `Compressors.RoundTripEach` | compressors.cxx:85-116 | each visited method gets one record: the block's byte size, the length of its compressed output, the (2i)-th and (2i+1)-th timer readings, and no method tag; the key set is the set of visited methods; the block ends as the last decompression left it |
| `Compressors.StatCompressors` | compressors.cxx:73-129 | the keys are announced in map order; every method has a record laid out as `RecordedAlong` says; with a round-tripping codec and a block of the stated size, the block is unchanged and each record holds the compressed size of the original block |
| `Compressors.UnchangedBlockRecords` | compressors.cxx:98-115 | with a round-tripping codec the run leaves the block as it found it, and every visited method's record holds the compressed size of the original block |
| `Compressors.BlockUnchanged` | compressors.cxx:98-108 | with a round-tripping codec each iteration finds the block as it was at the start |
| `Compressors.BlockBytesExact` | compressors.cxx:95 | below the `size_t` range the byte size is four bytes per element |
| `StdMap.IterationOrderUnique` | compressors.cxx:85 | a map has only one ascending enumeration of its keys |
| `StdMap.IterationOrderLength` | compressors.cxx:85 | a range-for over a map visits as many entries as the map holds |
| `StdMap.SortedEnumerationUnique` | compressors.cxx:85 | two strictly ascending key sequences with the same elements are equal |
| `CompressionStats.ForMethod` | compressors.hxx:9-14 | the one-argument constructor zeroes the four counters and stores the method |
| `CompressionStats.Default` | compressors.hxx:16-21 | the default constructor zeroes the four counters and leaves the method unset |
| `CompressionStats.ConstructorsDifferOnlyInTag` | compressors.hxx:9-21 | the two constructors agree on every field except the method |
| `CompressionStats.CompressionRatio` | compressors.hxx:23-25 | the ratio scales the uncompressed size to the compressed size |
| `CompressionStats.MsPerMBCompress` | compressors.hxx:26-28 | the rate times the size in megabytes (2^20 bytes) is the compression time |
| `CompressionStats.MsPerMBUncompress` | compressors.hxx:29-31 | the rate times the size in megabytes is the decompression time |
| `CompressionStats.RatesUnique` | compressors.hxx:23-31 | each rate is the only value with its scaling property |
| `CompressionStats.RatesNonNegative` | compressors.hxx:23-31 | a positive size and non-negative counters give non-negative rates |
| `CompressionStats.UnchangedSizeHasRatioOne` | compressors.hxx:23-25 | an output as large as the input has ratio one |
| `Averages.Divide` | supervoxels.cxx:34 | dividing by a zero count gives NaN; otherwise the average times the count is the total |
| `Averages.DivideUnique` | supervoxels.cxx:17 | the finite average is the only value that scales back to the total |
| `Averages.LabelSumReadsLabels` | supervoxels.cxx:31-33 | a sum over the labels `1..n` depends on those labels' values only |
| `Averages.LabelSumMonotone` | supervoxels.cxx:31-33 | with non-negative terms the label sum is non-negative and grows with `n` |
| `GeometryStatistics.AccumulateLabelled` | supervoxels.cxx:17 | accumulating slots that hold the sizes of labels `1..k` gives the sum of those sizes |
| `GeometryStatistics.FillSizes` | supervoxels.cxx:12-15 | the vector has `maxLabel(d)` slots; slot `i-1` holds `size(d, i)` for `1 <= i < maxLabel(d)`; the last slot stays 0 |
| `GeometryStatistics.Statistic` | supervoxels.cxx:11-19 | the printed value is the sum of the sizes of labels `1..maxLabel-1` divided by `maxLabel`, or NaN when there are no labels |
| `GeometryStatistics.FillAllSizes` | cgp_statistics.cxx:13-15 | with the bound corrected, slot `i-1` holds `size(d, i)` for every `1 <= i <= maxLabel(d)` |
| `GeometryStatistics.StatisticCorrected` | cgp_statistics.cxx:12-20 | with the bound corrected, the printed value is the mean size over all labels `1..maxLabel` |
| `GeometryStatistics.LastLabelDropped` | supervoxels.cxx:13-17 | the printed value falls short of the mean by exactly the last label's size over `maxLabel`, and is below it when that size is positive |
| `GeometryStatistics.AsWrittenOverFilledSlots` | cgp_statistics.cxx:14-18 | the printed value times `maxLabel` equals the mean of the filled slots times `maxLabel-1` |
| `GeometryStatistics.OffByOneExample` | supervoxels.cxx:13 | two labels of sizes 4 and 6 print 2 where the mean is 5 |
| `Supervoxels.GStatistics` | supervoxels.cxx:38-48 | the report has one line for dimension 1 and then one for dimension 2, each that dimension's corrected mean cell size |
| `Supervoxels.SupervoxelStatistics` | supervoxels.cxx:21-36 | the average times `maxRegionLabel` is the sum of the counts of labels `1..maxRegionLabel`; it is NaN exactly when there is no label |
| `Supervoxels.BackgroundIgnored` | supervoxels.cxx:31-33 | the average does not depend on the count of the background label 0 |
| `Supervoxels.SupervoxelAverageNonNegative` | supervoxels.cxx:30-34 | non-negative counts give a non-negative average |
| `CgpStatistics.MainDimensionLoop` | cgp_statistics.cxx:73-75 | `main` reports dimension 1 and then dimension 2, each that dimension's corrected mean cell size |

## Left out

- The codecs (zlib, LZ4 and the Blosc variants) are the `compress` and `uncompress` parameters of `Codec`. Their round-trip fidelity is the hypothesis `RoundTrips`, never an axiom. The element size `sizeof(uint32_t)` passed to `compress` is fixed and is not a parameter.
- Compressors.StatCompressors: the codec calls are total functions, so the model always returns a record for every method. A codec that fails (compressors.cxx:98-108 has no error handling, so a failure ends the benchmark without a map) is not modelled.
- Compressors.RoundTripEach: `uncompress` may return bytes of any length, while the program writes into the fixed `a.size()*4`-byte block. Only under `RoundTrips` and a block of that size is the result's length pinned down (it is the block itself).
- The compressed output is modelled as a byte sequence, and `dest.size()` as its length. The `ArrayVector<char>` buffer is not modelled.
- Timing (`USETICTOC`, `TIC`, `TOCN`) is the sequence of readings `tocn`. Which wall-clock values appear is not modelled.
- `std::thread::hardware_concurrency()` is the parameter `nthreads`, which is passed through unchanged.
- Console output is not modelled: the `compressing with` line is returned as the announced keys, and the per-method rates printed at compressors.cxx:111-113 are modelled by the rate functions. The averages `statistic` and `supervoxelStatistics` print are returned as values.
- `double` arithmetic is exact `real` arithmetic. Rounding is not modelled, nor is the precision lost converting a `size_t` above 2^53 to `double`.
- CompressionStats.CompressionRatio: requires a non-zero uncompressed size, because the source divides without a guard and IEEE infinities are not modelled.
- CompressionStats.MsPerMBCompress: requires a non-zero uncompressed size, for the same reason.
- CompressionStats.MsPerMBUncompress: requires a non-zero uncompressed size, for the same reason.
- The rate helpers are `const` member functions. In the model they are pure functions of an immutable record, so they cannot change a field, and no separate contract states it.
- Compressors.CompressorList: the sixteen insertions at compressors.cxx:54-69 are modelled as the resulting map. The insertion order does not affect a `std::map`, and it is not modelled.
- The unused global `stats` (compressors.cxx:11) is not modelled. The loop uses the local at line 83.
- The `verbose` parameter of the `statCompressors` declaration (compressors.hxx:46-49) has no definition and is not modelled.
- The commented-out report at compressors.cxx:118-126 is not modelled.
- The rest of `cgp_statistics`' `main` is not modelled: option parsing, the `--help` exit, HDF5 reading, and the accumulator run that prints one count. It is I/O and library plumbing.
- The geometry file's opening with its query flags (supervoxels.cxx:39-44, cgp_statistics.cxx:66-71) is replaced by the `Geometry` parameter.
- In `supervoxelStatistics` the accumulator chain (supervoxels.cxx:24-29) is replaced by the `count` function and `maxRegionLabel`.
- Supervoxels.GStatistics: the program prints the as-written `statistic`, which is smaller than the proved corrected mean by `size(d, maxLabel(d)) / maxLabel(d)` for each dimension (`GeometryStatistics.LastLabelDropped`). The loop runs `GeometryStatistics.StatisticCorrected` instead, as "## Findings" explains.
- CgpStatistics.MainDimensionLoop: the same as for `Supervoxels.GStatistics`. The program prints the as-written value, which is smaller by `size(d, maxLabel(d)) / maxLabel(d)`, and the loop runs the corrected statistic.
- supervoxels.hxx holds only declarations. plot.py reads CSV files and plots them. Neither is part of this model.

## Findings

| source | as written | input that shows it | evidently intended | confidence | as-written member | corrected member |
|---|---|---|---|---|---|---|
| supervoxels.cxx:13 (and cgp_statistics.cxx:14) | `for(size_t i=1; i<g.maxLabel(dimension); ++i)` fills slots for labels `1..maxLabel-1` only; the average still divides by all `maxLabel` slots, so the last label is dropped and an empty slot is counted | `maxLabel(d) = 2`, `size(d,1) = 4`, `size(d,2) = 6`: prints 2 | labels run from 1 to `maxLabel`, one slot each (the vector has `maxLabel` slots indexed `i-1`, and `supervoxelStatistics` loops with `<=`), so the loop bound is `i <= maxLabel` and the printed value is the mean, 5 | medium, not executed | `GeometryStatistics.Statistic` (with `GeometryStatistics.OffByOneExample`) | `GeometryStatistics.StatisticCorrected` |

The dimension loops `Supervoxels.GStatistics` and
`CgpStatistics.MainDimensionLoop` call the corrected statistic.
`GeometryStatistics.LastLabelDropped` gives the exact gap between the two
versions.
