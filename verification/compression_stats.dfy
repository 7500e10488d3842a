/** `CompressionStatistics`: the per-method measurement record with its two
    constructors and its three derived rates. The four counters are C++
    `double`s and are modelled as exact reals. */
module CompressionStats {
  import opened Methods

  /** The `compressor` field. The one-argument constructor sets it; the default
      constructor leaves it uninitialised, modelled as `Unset`. */
  datatype MethodTag = Unset | Tag(tagged: CompressionMethod)

  datatype CompressionStatistics = CompressionStatistics(
    timeCompress: real,
    timeUncompress: real,
    sizeBytesUncompressed: real,
    sizeBytesCompressed: real,
    compressor: MethodTag)

  /** The byte count of one megabyte, `1024*1024`. */
  const BytesPerMB: real := 1048576.0

  /** All four counters are zero. */
  predicate Zeroed(s: CompressionStatistics)
  {
    && s.timeCompress == 0.0
    && s.timeUncompress == 0.0
    && s.sizeBytesUncompressed == 0.0
    && s.sizeBytesCompressed == 0.0
  }

  /** `CompressionStatistics(m)`. */
  function ForMethod(m: CompressionMethod): (s: CompressionStatistics)
    ensures Zeroed(s)
    ensures s.compressor == Tag(m)
  {
    CompressionStatistics(0.0, 0.0, 0.0, 0.0, Tag(m))
  }

  /** `CompressionStatistics()`. */
  function Default(): (s: CompressionStatistics)
    ensures Zeroed(s)
    ensures s.compressor == Unset
  {
    CompressionStatistics(0.0, 0.0, 0.0, 0.0, Unset)
  }

  /** The two constructors agree on everything but the method tag. */
  lemma ConstructorsDifferOnlyInTag(m: CompressionMethod)
    ensures ForMethod(m).(compressor := Unset) == Default()
    ensures ForMethod(m) == Default().(compressor := Tag(m))
  {
  }

  /** The uncompressed size in megabytes. */
  function Megabytes(s: CompressionStatistics): real
  {
    s.sizeBytesUncompressed / BytesPerMB
  }

  /** `compessionRatio()`: compressed bytes per uncompressed byte. The source
      divides without a guard; a zero size is left to the caller. */
  function CompressionRatio(s: CompressionStatistics): (r: real)
    requires s.sizeBytesUncompressed != 0.0
    ensures r * s.sizeBytesUncompressed == s.sizeBytesCompressed
  {
    s.sizeBytesCompressed / s.sizeBytesUncompressed
  }

  /** `msPerMB_compress()`: compression time per megabyte of input. */
  function MsPerMBCompress(s: CompressionStatistics): (r: real)
    requires s.sizeBytesUncompressed != 0.0
    ensures r * Megabytes(s) == s.timeCompress
  {
    s.timeCompress / (s.sizeBytesUncompressed / BytesPerMB)
  }

  /** `msPerMB_uncompress()`: decompression time per megabyte of output. */
  function MsPerMBUncompress(s: CompressionStatistics): (r: real)
    requires s.sizeBytesUncompressed != 0.0
    ensures r * Megabytes(s) == s.timeUncompress
  {
    s.timeUncompress / (s.sizeBytesUncompressed / BytesPerMB)
  }

  /** Each rate is the only value with its defining property: the ratio scales
      the uncompressed size to the compressed one, and each ms/MB rate scales
      the size in megabytes to the measured time. */
  lemma RatesUnique(s: CompressionStatistics, ratio: real, compress: real, uncompress: real)
    requires s.sizeBytesUncompressed != 0.0
    ensures ratio * s.sizeBytesUncompressed == s.sizeBytesCompressed <==> ratio == CompressionRatio(s)
    ensures compress * Megabytes(s) == s.timeCompress <==> compress == MsPerMBCompress(s)
    ensures uncompress * Megabytes(s) == s.timeUncompress <==> uncompress == MsPerMBUncompress(s)
  {
    var u := s.sizeBytesUncompressed;
    var mb := Megabytes(s);
    assert mb != 0.0;
    if ratio * u == s.sizeBytesCompressed {
      assert ratio == s.sizeBytesCompressed / u;
    }
    if compress * mb == s.timeCompress {
      assert compress == s.timeCompress / mb;
    }
    if uncompress * mb == s.timeUncompress {
      assert uncompress == s.timeUncompress / mb;
    }
  }

  /** With a positive size and non-negative counters all three rates are
      non-negative. */
  lemma RatesNonNegative(s: CompressionStatistics)
    requires s.sizeBytesUncompressed > 0.0
    requires s.sizeBytesCompressed >= 0.0 && s.timeCompress >= 0.0 && s.timeUncompress >= 0.0
    ensures CompressionRatio(s) >= 0.0
    ensures MsPerMBCompress(s) >= 0.0
    ensures MsPerMBUncompress(s) >= 0.0
  {
    assert Megabytes(s) > 0.0;
  }

  /** A record whose compressed size equals its uncompressed size (the
      `NO_COMPRESSION` baseline) has ratio one. */
  lemma UnchangedSizeHasRatioOne(s: CompressionStatistics)
    requires s.sizeBytesUncompressed != 0.0
    requires s.sizeBytesCompressed == s.sizeBytesUncompressed
    ensures CompressionRatio(s) == 1.0
  {
    RatesUnique(s, 1.0, s.timeCompress / Megabytes(s), s.timeUncompress / Megabytes(s));
  }
}
