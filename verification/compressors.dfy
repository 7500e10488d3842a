/** The codec catalog (`toString`, `compressorList`) and the per-method
    round-trip loop of `statCompressors`. The vigra codecs and the timer are
    parameters: the model checks the loop's bookkeeping, not the codecs. */
module Compressors {
  import opened Methods
  import opened StdMap
  import opened CompressionStats

  // ---------------------------------------------------------------------------
  // Naming

  /** `toString`: the enumerator's name as written in vigra. */
  function ToString(m: CompressionMethod): (name: string)
    ensures 0 < |name| < KeyWidth
    ensures name[|name| - 1] != ' '
  {
    match m
    case NoCompression => "NO_COMPRESSION"
    case ZlibNone => "ZLIB_NONE"
    case ZlibFast => "ZLIB_FAST"
    case Zlib => "ZLIB"
    case ZlibBest => "ZLIB_BEST"
    case Lz4 => "LZ4"
    case BloscBloscLzFast => "BLOSC_BLOSCLZ_FAST"
    case BloscLz4Fast => "BLOSC_LZ4_FAST"
    case BloscLz4HcFast => "BLOSC_LZ4HC_FAST"
    case BloscSnappyFast => "BLOSC_SNAPPY_FAST"
    case BloscZlibFast => "BLOSC_ZLIB_FAST"
    case BloscBloscLzBest => "BLOSC_BLOSCLZ_BEST"
    case BloscLz4Best => "BLOSC_LZ4_BEST"
    case BloscLz4HcBest => "BLOSC_LZ4HC_BEST"
    case BloscSnappyBest => "BLOSC_SNAPPY_BEST"
    case BloscZlibBest => "BLOSC_ZLIB_BEST"
  }

  /** The width every catalog key is padded to. */
  const KeyWidth: nat := 19

  function Spaces(n: nat): (s: string)
    ensures |s| == n
    ensures forall i :: 0 <= i < n ==> s[i] == ' '
  {
    seq(n, _ => ' ')
  }

  /** `name` followed by spaces up to `width` characters. */
  function Pad(name: string, width: nat): (key: string)
    ensures |key| == if |name| < width then width else |name|
    ensures key[..|name|] == name
    ensures forall i :: |name| <= i < |key| ==> key[i] == ' '
  {
    if |name| < width then name + Spaces(width - |name|) else name
  }

  /** `s` with its trailing spaces removed: the longest prefix not ending in a
      space such that only spaces follow it. */
  function TrimRight(s: string): (t: string)
    ensures |t| <= |s| && t == s[..|t|]
    ensures |t| == 0 || t[|t| - 1] != ' '
    ensures forall i :: |t| <= i < |s| ==> s[i] == ' '
    decreases |s|
  {
    if |s| > 0 && s[|s| - 1] == ' ' then TrimRight(s[..|s| - 1]) else s
  }

  /** Trimming undoes padding, for a name that does not itself end in a space. */
  lemma TrimPadRoundTrip(name: string, width: nat)
    requires |name| == 0 || name[|name| - 1] != ' '
    ensures TrimRight(Pad(name, width)) == name
  {
  }

  /** A method's name padded to the key width. */
  function Key(m: CompressionMethod): string
  {
    Pad(ToString(m), KeyWidth)
  }

  // ---------------------------------------------------------------------------
  // The catalog

  /** The methods in ascending order of their catalog keys. */
  const CatalogMethods: seq<CompressionMethod> := [
    BloscBloscLzBest,
    BloscBloscLzFast,
    BloscLz4HcBest,
    BloscLz4HcFast,
    BloscLz4Best,
    BloscLz4Fast,
    BloscSnappyBest,
    BloscSnappyFast,
    BloscZlibBest,
    BloscZlibFast,
    Lz4,
    NoCompression,
    Zlib,
    ZlibBest,
    ZlibFast,
    ZlibNone
  ]

  /** The catalog keys, as written in `compressorList`, in ascending order:
      `CatalogOrder[i]` is the key of `CatalogMethods[i]`. */
  const CatalogOrder: seq<string> := [
    "BLOSC_BLOSCLZ_BEST ",
    "BLOSC_BLOSCLZ_FAST ",
    "BLOSC_LZ4HC_BEST   ",
    "BLOSC_LZ4HC_FAST   ",
    "BLOSC_LZ4_BEST     ",
    "BLOSC_LZ4_FAST     ",
    "BLOSC_SNAPPY_BEST  ",
    "BLOSC_SNAPPY_FAST  ",
    "BLOSC_ZLIB_BEST    ",
    "BLOSC_ZLIB_FAST    ",
    "LZ4                ",
    "NO_COMPRESSION     ",
    "ZLIB               ",
    "ZLIB_BEST          ",
    "ZLIB_FAST          ",
    "ZLIB_NONE          "
  ]

  /** Where each method sits in `CatalogMethods`. */
  function Position(m: CompressionMethod): (i: nat)
    ensures i < |CatalogMethods| && CatalogMethods[i] == m
  {
    match m
    case BloscBloscLzBest => 0
    case BloscBloscLzFast => 1
    case BloscLz4HcBest => 2
    case BloscLz4HcFast => 3
    case BloscLz4Best => 4
    case BloscLz4Fast => 5
    case BloscSnappyBest => 6
    case BloscSnappyFast => 7
    case BloscZlibBest => 8
    case BloscZlibFast => 9
    case Lz4 => 10
    case NoCompression => 11
    case Zlib => 12
    case ZlibBest => 13
    case ZlibFast => 14
    case ZlibNone => 15
  }

  /** The key `compressorList` stores a method under. */
  function CatalogKey(m: CompressionMethod): string
  {
    CatalogOrder[Position(m)]
  }

  /** `compressorList`: the sixteen assignments `cm[CatalogKey(m)] = m`. */
  function CompressorList(): (cm: map<string, CompressionMethod>)
    ensures forall m :: CatalogKey(m) in cm && cm[CatalogKey(m)] == m
    ensures forall k :: k in cm ==> k == CatalogKey(cm[k])
  {
    CatalogKeyInjective();
    map m | m in CatalogMethods :: CatalogKey(m) := m
  }

  /** The keys are listed in strictly ascending `std::string` order. Each
      neighbouring pair first differs at the given position. */
  lemma CatalogOrderSorted()
    ensures StrictlySorted(CatalogOrder)
  {
    var keys := CatalogOrder;
    var firstDifference := [14, 6, 12, 9, 10, 6, 13, 6, 11, 0, 0, 0, 4, 5, 5];
    forall i | 0 <= i < |keys| - 1
      ensures Less(keys[i], keys[i + 1])
    {
      LessAt(keys[i], keys[i + 1], firstDifference[i]);
    }
    SortedFromNeighbours(keys);
  }

  /** No two methods share a catalog key. */
  lemma CatalogKeyInjective()
    ensures forall a, b :: CatalogKey(a) == CatalogKey(b) ==> a == b
  {
    CatalogOrderSorted();
    forall a, b | CatalogKey(a) == CatalogKey(b)
      ensures a == b
    {
      var i, j := Position(a), Position(b);
      assert CatalogOrder[i] == CatalogOrder[j];
      if i != j {
        SortedDistinct(CatalogOrder, i, j);
      }
    }
  }

  /** Each key is its method's `toString` name padded to the key width. */
  lemma CatalogKeyIsPaddedName(m: CompressionMethod)
    ensures CatalogKey(m) == Key(m)
  {
    if m in {NoCompression, ZlibNone, ZlibFast, Zlib, ZlibBest, Lz4} {
      PlainKeysArePadded(m);
    } else if m in {BloscBloscLzFast, BloscLz4Fast, BloscLz4HcFast, BloscSnappyFast, BloscZlibFast} {
      BloscFastKeysArePadded(m);
    } else {
      BloscBestKeysArePadded(m);
    }
  }

  /** The keys of the methods without Blosc. */
  lemma PlainKeysArePadded(m: CompressionMethod)
    requires m in {NoCompression, ZlibNone, ZlibFast, Zlib, ZlibBest, Lz4}
    ensures CatalogKey(m) == Key(m)
  {
    if m == NoCompression {
      assert CatalogKey(NoCompression) == "NO_COMPRESSION" + Spaces(5);
    } else if m == ZlibNone {
      assert CatalogKey(ZlibNone) == "ZLIB_NONE" + Spaces(10);
    } else if m == ZlibFast {
      assert CatalogKey(ZlibFast) == "ZLIB_FAST" + Spaces(10);
    } else if m == Zlib {
      assert CatalogKey(Zlib) == "ZLIB" + Spaces(15);
    } else if m == ZlibBest {
      assert CatalogKey(ZlibBest) == "ZLIB_BEST" + Spaces(10);
    } else {
      assert CatalogKey(Lz4) == "LZ4" + Spaces(16);
    }
  }

  /** The keys of the fast Blosc methods. */
  lemma BloscFastKeysArePadded(m: CompressionMethod)
    requires m in {BloscBloscLzFast, BloscLz4Fast, BloscLz4HcFast, BloscSnappyFast, BloscZlibFast}
    ensures CatalogKey(m) == Key(m)
  {
    if m == BloscBloscLzFast {
      assert CatalogKey(BloscBloscLzFast) == "BLOSC_BLOSCLZ_FAST" + Spaces(1);
    } else if m == BloscLz4Fast {
      assert CatalogKey(BloscLz4Fast) == "BLOSC_LZ4_FAST" + Spaces(5);
    } else if m == BloscLz4HcFast {
      assert CatalogKey(BloscLz4HcFast) == "BLOSC_LZ4HC_FAST" + Spaces(3);
    } else if m == BloscSnappyFast {
      assert CatalogKey(BloscSnappyFast) == "BLOSC_SNAPPY_FAST" + Spaces(2);
    } else {
      assert CatalogKey(BloscZlibFast) == "BLOSC_ZLIB_FAST" + Spaces(4);
    }
  }

  /** The keys of the best Blosc methods. */
  lemma BloscBestKeysArePadded(m: CompressionMethod)
    requires m in {BloscBloscLzBest, BloscLz4Best, BloscLz4HcBest, BloscSnappyBest, BloscZlibBest}
    ensures CatalogKey(m) == Key(m)
  {
    if m == BloscBloscLzBest {
      assert CatalogKey(BloscBloscLzBest) == "BLOSC_BLOSCLZ_BEST" + Spaces(1);
    } else if m == BloscLz4Best {
      assert CatalogKey(BloscLz4Best) == "BLOSC_LZ4_BEST" + Spaces(5);
    } else if m == BloscLz4HcBest {
      assert CatalogKey(BloscLz4HcBest) == "BLOSC_LZ4HC_BEST" + Spaces(3);
    } else if m == BloscSnappyBest {
      assert CatalogKey(BloscSnappyBest) == "BLOSC_SNAPPY_BEST" + Spaces(2);
    } else {
      assert CatalogKey(BloscZlibBest) == "BLOSC_ZLIB_BEST" + Spaces(4);
    }
  }

  /** Every key is padded to the same width, and trimming its trailing spaces
      gives back `toString` of the method it maps to. */
  lemma CatalogKeysMatchNames()
    ensures forall k :: k in CompressorList() ==> |k| == KeyWidth
    ensures forall k :: k in CompressorList() ==> k == Key(CompressorList()[k])
    ensures forall k :: k in CompressorList() ==> TrimRight(k) == ToString(CompressorList()[k])
  {
    var cm := CompressorList();
    forall k | k in cm
      ensures k == Key(cm[k]) && TrimRight(k) == ToString(cm[k])
    {
      CatalogKeyIsPaddedName(cm[k]);
      TrimPadRoundTrip(ToString(cm[k]), KeyWidth);
    }
  }

  /** `Position` undoes indexing into `CatalogMethods`. */
  lemma PositionOfCatalogMethod(i: nat)
    requires i < |CatalogMethods|
    ensures Position(CatalogMethods[i]) == i
  {
    var j := Position(CatalogMethods[i]);
    assert CatalogMethods[j] == CatalogMethods[i];
  }

  /** A range-for over `compressorList()` visits exactly `CatalogOrder`. */
  lemma CatalogIsIterationOrder()
    ensures IsIterationOrder(CatalogOrder, CompressorList())
  {
    CatalogOrderSorted();
    var cm := CompressorList();
    forall k | k in CatalogOrder
      ensures k in cm
    {
      var i :| 0 <= i < |CatalogOrder| && CatalogOrder[i] == k;
      PositionOfCatalogMethod(i);
      assert k == CatalogKey(CatalogMethods[i]);
    }
    forall k | k in cm
      ensures k in CatalogOrder
    {
      assert k == CatalogOrder[Position(cm[k])];
    }
  }

  /** `compressorList()` holds sixteen entries. */
  lemma CatalogSize()
    ensures |CompressorList()| == 16
  {
    CatalogIsIterationOrder();
    IterationOrderLength(CatalogOrder, CompressorList());
  }

  /** Every method is the value of exactly one key. */
  lemma CatalogValuesOnce(m: CompressionMethod)
    ensures m in CompressorList().Values
    ensures forall k :: k in CompressorList() && CompressorList()[k] == m ==> k == CatalogKey(m)
  {
    var cm := CompressorList();
    assert cm[CatalogKey(m)] == m;
  }

  /** `toString` is injective: no two methods share a name. */
  lemma ToStringInjective(a: CompressionMethod, b: CompressionMethod)
    ensures ToString(a) == ToString(b) <==> a == b
  {
    CatalogKeyIsPaddedName(a);
    CatalogKeyIsPaddedName(b);
    CatalogKeyInjective();
  }

  // ---------------------------------------------------------------------------
  // The round-trip loop

  type byte = bv8

  /** vigra's `compress` and `uncompress`, left uninterpreted. `compress`
      takes the source bytes, the method and the thread count (the element
      size is always `sizeof(uint32_t)`) and returns the filled `dest`;
      `uncompress` takes the compressed bytes, the destination size, the
      method and the thread count and returns the destination's new contents. */
  datatype Codec = Codec(
    compress: (seq<byte>, CompressionMethod, int) -> seq<byte>,
    uncompress: (seq<byte>, nat, CompressionMethod, int) -> seq<byte>)

  /** Decompressing what was compressed gives back the source. This is the
      codec library's promise; the loop relies on it only implicitly, because
      it decompresses into the block it compressed from. */
  ghost predicate RoundTrips(codec: Codec)
  {
    forall src, m, t :: codec.uncompress(codec.compress(src, m, t), |src|, m, t) == src
  }

  /** `size_t` arithmetic wraps modulo 2^64. */
  const SizeTModulus: nat := 0x1_0000_0000_0000_0000

  /** `a.size()*sizeof(uint32_t)`: the block's byte size, as a `size_t`. */
  function BlockBytes(count: nat): nat
  {
    (count * 4) % SizeTModulus
  }

  /** Below the `size_t` range the byte size is exactly four bytes per element. */
  lemma BlockBytesExact(count: nat)
    requires count * 4 < SizeTModulus
    ensures BlockBytes(count) == 4 * count
  {
  }

  /** The block's contents when the loop reaches its `i`-th method: every
      earlier iteration decompressed its own output back into the block. */
  function BlockBefore(codec: Codec, count: nat, data: seq<byte>, nthreads: int, methods: seq<CompressionMethod>, i: nat): seq<byte>
    requires i <= |methods|
  {
    if i == 0 then data
    else
      var m := methods[i - 1];
      var before := BlockBefore(codec, count, data, nthreads, methods, i - 1);
      codec.uncompress(codec.compress(before, m, nthreads), BlockBytes(count), m, nthreads)
  }

  /** With a round-tripping codec, and a block whose byte size is the one the
      loop passes, the block is the same before every iteration. */
  lemma {:induction false} BlockUnchanged(codec: Codec, count: nat, data: seq<byte>, nthreads: int, methods: seq<CompressionMethod>, i: nat)
    requires RoundTrips(codec)
    requires |data| == BlockBytes(count)
    requires i <= |methods|
    ensures BlockBefore(codec, count, data, nthreads, methods, i) == data
  {
    if i > 0 {
      BlockUnchanged(codec, count, data, nthreads, methods, i - 1);
    }
  }

  /** The record the loop stores for the `i`-th method it visits. */
  function RecordAt(codec: Codec, count: nat, data: seq<byte>, nthreads: int, tocn: nat -> real, methods: seq<CompressionMethod>, i: nat): CompressionStatistics
    requires i < |methods|
  {
    CompressionStatistics(
      tocn(2 * i),
      0.0 + tocn(2 * i + 1),
      BlockBytes(count) as real,
      |codec.compress(BlockBefore(codec, count, data, nthreads, methods, i), methods[i], nthreads)| as real,
      Unset)
  }

  /** The methods a range-for over `cm` meets when it visits the keys `order`. */
  function MethodsAlong(cm: map<string, CompressionMethod>, order: seq<string>): (methods: seq<CompressionMethod>)
    requires forall k :: k in order ==> k in cm
    ensures |methods| == |order|
    ensures forall i :: 0 <= i < |order| ==> methods[i] == cm[order[i]]
  {
    seq(|order|, i requires 0 <= i < |order| => cm[order[i]])
  }

  /** The body of the range-for in `statCompressors`, run for the keys of `cm`
      in the order `order`: one compress/uncompress round trip per key, each
      stored under its method. */
  method RoundTripEach(cm: map<string, CompressionMethod>, order: seq<string>, count: nat, data: seq<byte>,
                       codec: Codec, nthreads: int, tocn: nat -> real)
    returns (stats: map<CompressionMethod, CompressionStatistics>, announced: seq<string>, block: seq<byte>)
    requires forall k :: k in order ==> k in cm
    requires forall i, j :: 0 <= i < j < |order| ==> cm[order[i]] != cm[order[j]]
    ensures block == BlockBefore(codec, count, data, nthreads, MethodsAlong(cm, order), |order|)
    ensures announced == order
    ensures forall m :: m in stats <==> m in MethodsAlong(cm, order)
    ensures RecordedAlong(stats, cm, order, MethodsAlong(cm, order), count, data, codec, nthreads, tocn)
  {
    ghost var methods := MethodsAlong(cm, order);
    stats := map[];
    announced := [];
    block := data;
    var readings: nat := 0;
    var i := 0;
    while i < |order|
      invariant 0 <= i <= |order|
      invariant announced == order[..i]
      invariant readings == 2 * i
      invariant block == BlockBefore(codec, count, data, nthreads, methods, i)
      invariant forall m :: m in stats <==> m in methods[..i]
      invariant forall j {:trigger stats[methods[j]]} :: 0 <= j < i ==> stats[methods[j]] == RecordAt(codec, count, data, nthreads, tocn, methods, j)
    {
      var cname := order[i];
      var cflag := cm[cname];
      announced := announced + [cname];

      var stat := Default();
      stat := stat.(sizeBytesUncompressed := BlockBytes(count) as real);

      var dest := codec.compress(block, cflag, nthreads);
      stat := stat.(timeCompress := tocn(readings));
      readings := readings + 1;
      stat := stat.(sizeBytesCompressed := |dest| as real);

      block := codec.uncompress(dest, BlockBytes(count), cflag, nthreads);
      stat := stat.(timeUncompress := stat.timeUncompress + tocn(readings));
      readings := readings + 1;

      assert cflag == methods[i];
      assert stat == RecordAt(codec, count, data, nthreads, tocn, methods, i);
      forall j | 0 <= j < i
        ensures methods[j] != cflag
      {
      }
      assert methods[..i + 1] == methods[..i] + [cflag];
      stats := stats[cflag := stat];
      i := i + 1;
    }
    assert methods[..i] == methods;
    RecordsAlongOrder(stats, cm, order, methods, count, data, codec, nthreads, tocn);
    assert block == BlockBefore(codec, count, data, nthreads, methods, |order|);
  }

  /** Once every visited method holds the record `RecordAt` gives for its
      place in the visit, the records are the ones `RecordedAlong` describes. */
  lemma RecordsAlongOrder(stats: map<CompressionMethod, CompressionStatistics>, cm: map<string, CompressionMethod>,
                          order: seq<string>, methods: seq<CompressionMethod>,
                          count: nat, data: seq<byte>, codec: Codec, nthreads: int, tocn: nat -> real)
    requires forall k :: k in order ==> k in cm
    requires methods == MethodsAlong(cm, order)
    requires forall m :: m in stats <==> m in methods
    requires forall j {:trigger stats[methods[j]]} :: 0 <= j < |order| ==> stats[methods[j]] == RecordAt(codec, count, data, nthreads, tocn, methods, j)
    ensures RecordedAlong(stats, cm, order, methods, count, data, codec, nthreads, tocn)
  {
    forall j | 0 <= j < |order|
      ensures cm[order[j]] in stats && stats[cm[order[j]]] == RecordAt(codec, count, data, nthreads, tocn, methods, j)
    {
      assert cm[order[j]] == methods[j];
    }
  }

  /** `statCompressors`: compress and decompress the block once with every
      catalog method, in the catalog's key order, and store one record per
      method. `count` is `a.size()`, `data` the block's bytes, and `tocn(j)`
      the duration the `j`-th `TOCN` reports. Besides the records, the method
      returns the keys it announced (`compressing with <key>`) and the block's
      bytes after the loop. */
  method StatCompressors(count: nat, data: seq<byte>, codec: Codec, nthreads: int, tocn: nat -> real)
    returns (stats: map<CompressionMethod, CompressionStatistics>, announced: seq<string>, block: seq<byte>)
    ensures IsIterationOrder(announced, CompressorList())
    ensures |announced| == |CatalogMethods|
    ensures forall m :: m in stats
    ensures RecordedAlong(stats, CompressorList(), announced, CatalogMethods, count, data, codec, nthreads, tocn)
    ensures RoundTrips(codec) && |data| == BlockBytes(count) ==>
      && block == data
      && forall m :: stats[m].sizeBytesCompressed == |codec.compress(data, m, nthreads)| as real
  {
    var cm := CompressorList();
    CatalogVisitsMethods();
    EveryMethodInCatalog();
    stats, announced, block := RoundTripEach(cm, CatalogOrder, count, data, codec, nthreads, tocn);
    CatalogIsIterationOrder();
    if RoundTrips(codec) && |data| == BlockBytes(count) {
      UnchangedBlockRecords(stats, cm, announced, CatalogMethods, block, count, data, codec, nthreads, tocn);
    }
  }

  /** Visiting the keys `order` of `cm`, which meet the methods `methods`, the
      `i`-th visited method's record holds the block's byte size, the size of
      its compressed output, the `2i`-th and `(2i+1)`-th timer readings, and no
      method tag. */
  predicate RecordedAlong(stats: map<CompressionMethod, CompressionStatistics>, cm: map<string, CompressionMethod>,
                          order: seq<string>, methods: seq<CompressionMethod>,
                          count: nat, data: seq<byte>, codec: Codec, nthreads: int, tocn: nat -> real)
  {
    && |methods| == |order|
    && (forall k :: k in order ==> k in cm)
    && forall i :: 0 <= i < |order| ==>
      var m := cm[order[i]];
      && m == methods[i]
      && m in stats
      && stats[m].sizeBytesUncompressed == BlockBytes(count) as real
      && stats[m].sizeBytesCompressed == |codec.compress(BlockBefore(codec, count, data, nthreads, methods, i), m, nthreads)| as real
      && stats[m].timeCompress == tocn(2 * i)
      && stats[m].timeUncompress == tocn(2 * i + 1)
      && stats[m].compressor == Unset
  }

  /** With a round-tripping codec a run leaves the block as it found it, and
      every visited method's record holds the compressed size of the original
      block. */
  lemma UnchangedBlockRecords(stats: map<CompressionMethod, CompressionStatistics>, cm: map<string, CompressionMethod>,
                              order: seq<string>, methods: seq<CompressionMethod>, block: seq<byte>,
                              count: nat, data: seq<byte>, codec: Codec, nthreads: int, tocn: nat -> real)
    requires RoundTrips(codec) && |data| == BlockBytes(count)
    requires RecordedAlong(stats, cm, order, methods, count, data, codec, nthreads, tocn)
    requires block == BlockBefore(codec, count, data, nthreads, methods, |methods|)
    ensures block == data
    ensures forall m :: m in methods ==>
      m in stats && stats[m].sizeBytesCompressed == |codec.compress(data, m, nthreads)| as real
  {
    BlockUnchanged(codec, count, data, nthreads, methods, |methods|);
    forall m | m in methods
      ensures m in stats && stats[m].sizeBytesCompressed == |codec.compress(data, m, nthreads)| as real
    {
      var i :| 0 <= i < |methods| && methods[i] == m;
      assert cm[order[i]] == m;
      BlockUnchanged(codec, count, data, nthreads, methods, i);
    }
  }

  /** Every method has a place in the catalog. */
  lemma EveryMethodInCatalog()
    ensures forall m :: m in CatalogMethods
  {
    forall m
      ensures m in CatalogMethods
    {
      assert CatalogMethods[Position(m)] == m;
    }
  }

  /** The `i`-th key maps to the `i`-th method. */
  lemma CatalogOrderMapsToMethods()
    ensures forall i :: 0 <= i < |CatalogOrder| ==>
      CatalogOrder[i] in CompressorList() && CompressorList()[CatalogOrder[i]] == CatalogMethods[i]
  {
    forall i | 0 <= i < |CatalogOrder|
      ensures CatalogOrder[i] in CompressorList() && CompressorList()[CatalogOrder[i]] == CatalogMethods[i]
    {
      PositionOfCatalogMethod(i);
      assert CatalogOrder[i] == CatalogKey(CatalogMethods[i]);
    }
  }

  /** Visiting the catalog's keys in order meets `CatalogMethods`, no method twice. */
  lemma CatalogVisitsMethods()
    ensures forall k :: k in CatalogOrder ==> k in CompressorList()
    ensures MethodsAlong(CompressorList(), CatalogOrder) == CatalogMethods
    ensures forall i, j :: 0 <= i < j < |CatalogOrder| ==> CompressorList()[CatalogOrder[i]] != CompressorList()[CatalogOrder[j]]
  {
    CatalogOrderMapsToMethods();
    forall i, j | 0 <= i < j < |CatalogOrder|
      ensures CatalogMethods[i] != CatalogMethods[j]
    {
      PositionOfCatalogMethod(i);
      PositionOfCatalogMethod(j);
    }
  }
}
