/** vigra's `CompressionMethod`: the closed set of codec and effort-level
    combinations the benchmark drives. */
module Methods {

  datatype CompressionMethod =
    | NoCompression
    | ZlibNone
    | ZlibFast
    | Zlib
    | ZlibBest
    | Lz4
    | BloscBloscLzFast
    | BloscLz4Fast
    | BloscLz4HcFast
    | BloscSnappyFast
    | BloscZlibFast
    | BloscBloscLzBest
    | BloscLz4Best
    | BloscLz4HcBest
    | BloscSnappyBest
    | BloscZlibBest
}
