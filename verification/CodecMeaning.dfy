/**
 The byte formats in plain terms: what a varint is in base 128, and which varints the encoded sketches and
 samples are made of.
 */
module CodecMeaning {
  import opened LatencySample
  import opened LatencySketch
  import opened SampleCodec
  import opened SketchCodec
  import opened Varint
  import opened Wrappers
  import SplitMix

  // ----- varints -----

  /** Seven bits a byte, the low ones first. */
  function Base128(bytes: Bytes): nat {
    if bytes == [] then 0 else bytes[0] % 128 + 128 * Base128(bytes[1..])
  }

  /** Every byte but the last says that another follows. */
  predicate OneVarint(bytes: Bytes) {
    && bytes != [] && bytes[|bytes| - 1] < 128
    && forall i | 0 <= i < |bytes| - 1 :: bytes[i] >= 128
  }

  lemma VarintNext(bytes: Bytes)
    requires bytes != []
    ensures OneVarint(bytes) <==> if bytes[0] < 128 then |bytes| == 1 else OneVarint(bytes[1..])
  {
    if bytes[0] >= 128 && OneVarint(bytes[1..]) {
      forall i | 0 <= i < |bytes| - 1 ensures bytes[i] >= 128 {
        if i > 0 { assert bytes[1..][i - 1] == bytes[i]; }
      }
    }
  }

  /** A number is written in base 128 and as short as can be. */
  lemma {:induction false} EncodeMeaning(x: nat)
    ensures OneVarint(Encode(x)) && Base128(Encode(x)) == x
    ensures |Encode(x)| > 1 ==> Encode(x)[|Encode(x)| - 1] != 0
  {
    VarintNext(Encode(x));
    if x >= 128 {
      EncodeMeaning(x / 128);
      assert Encode(x)[1..] == Encode(x / 128);
      assert (128 + x % 128) % 128 == x % 128;
    }
  }

  /** What reading a number at some byte position of a varint means. */
  ghost predicate ReadAs(buf: Bytes, depth: nat, v: nat, n: nat)
    requires depth <= 9
  {
    1 <= n <= |buf| && n <= 10 - depth && OneVarint(buf[..n]) && v == Base128(buf[..n]) && v < Cap(depth)
  }

  lemma ReadShort(buf: Bytes, depth: nat, v: nat, n: nat)
    requires depth <= 9 && buf != [] && buf[0] < 128
    ensures ReadAs(buf, depth, v, n) <==> n == 1 && v == buf[0] && v < Cap(depth)
    ensures buf[0] < Cap(depth) <==> depth < 9 || buf[0] <= 1
  {
    if 1 <= n <= |buf| { VarintNext(buf[..n]); }
    assert buf[..1][1..] == [];
    assert buf[..1] == [buf[0]] && Base128([]) == 0;
    CapGrows(depth);
  }

  lemma {:induction false} CapGrows(depth: nat)
    requires depth <= 9
    ensures if depth == 9 then Cap(depth) == 2 else Cap(depth) >= 256
    decreases 9 - depth
  {
    if depth < 9 { CapGrows(depth + 1); }
  }

  lemma ReadLong(buf: Bytes, depth: nat, v: nat, n: nat)
    requires depth <= 9 && buf != [] && buf[0] >= 128
    ensures depth == 9 ==> !ReadAs(buf, depth, v, n)
    ensures depth < 9 ==> (ReadAs(buf, depth, v, n) <==>
      n >= 1 && v % 128 == buf[0] % 128 && ReadAs(buf[1..], depth + 1, v / 128, n - 1))
  {
    hide OneVarint;
    if 1 <= n <= |buf| {
      VarintNext(buf[..n]);
      assert buf[..n][1..] == buf[1..][..n - 1];
    }
    assert !OneVarint([]) by { NotEmpty(); }
  }

  lemma NotEmpty()
    ensures !OneVarint([])
  {
  }

  lemma {:induction false} DecodeAt(buf: Bytes, depth: nat, v: nat, n: nat)
    requires depth <= 9
    ensures Decode(buf, depth) == Value(v, n) <==> ReadAs(buf, depth, v, n)
    decreases |buf|
  {
    hide ReadAs, Cap;
    if buf == [] {
      NothingRead(depth, v, n);
    } else if buf[0] < 128 {
      ReadShort(buf, depth, v, n);
    } else {
      ReadLong(buf, depth, v, n);
      if depth < 9 && n >= 1 { DecodeAt(buf[1..], depth + 1, v / 128, n - 1); }
    }
  }

  lemma NothingRead(depth: nat, v: nat, n: nat)
    requires depth <= 9
    ensures !ReadAs([], depth, v, n)
  {
  }

  /** A number is read exactly where a varint of at most ten bytes stands whose value fits 64 bits. */
  lemma DecodeMeaning(buf: Bytes, v: nat, n: nat)
    ensures Decode(buf) == Value(v, n) <==>
      1 <= n <= |buf| && n <= 10 && OneVarint(buf[..n]) && v == Base128(buf[..n]) && v < 0x1_0000_0000_0000_0000
  {
    DecodeAt(buf, 0, v, n);
    WordCap();
  }

  // ----- sketches -----

  /** Signs go to the lowest bit. */
  function Signed(v: int): nat {
    if v >= 0 then 2 * v else -2 * v - 1
  }

  function BinBytes(bins: Bins, keys: seq<int>): Bytes
    requires forall key | key in keys :: key in bins
  {
    if keys == [] then []
    else BinBytes(bins, keys[..|keys| - 1]) + Encode(Signed(keys[|keys| - 1])) + Encode(bins[keys[|keys| - 1]])
  }

  ghost predicate AscendingKeys(bins: Bins, keys: seq<int>) {
    && (forall key :: key in keys <==> key in bins)
    && forall i, j | 0 <= i < j < |keys| :: keys[i] < keys[j]
  }

  lemma {:induction false} PairBytes(bins: Bins, keys: seq<int>)
    requires Keyed(bins, keys) && forall key | key in keys :: key in bins
    ensures EncodeAll(PairNumbers(bins, keys)) == BinBytes(bins, keys)
  {
    hide Encode;
    if keys != [] {
      var n := |keys| - 1;
      assert keys[n] in keys;
      PairBytes(bins, keys[..n]);
      EncodeAllConcat(PairNumbers(bins, keys[..n]), [ZigzagEncode(keys[n]), bins[keys[n]]]);
      TwoBytes(ZigzagEncode(keys[n]), bins[keys[n]]);
      assert ZigzagEncode(keys[n]) == Signed(keys[n]);
    }
  }

  lemma TwoBytes(a: nat, b: nat)
    ensures EncodeAll([a, b]) == Encode(a) + Encode(b)
  {
    hide Encode;
    assert [a, b][1..] == [b] && [b][1..] == [];
    assert EncodeAll([b]) == Encode(b) + [];
  }

  /** Version one, the number of bins, and every bin's key and count by ascending key. */
  lemma SketchBytes(bins: Bins)
    requires ValidBins(bins)
    ensures exists keys | AscendingKeys(bins, keys) ::
      EncodeSketch(bins) == [1] + Encode(|bins|) + BinBytes(bins, keys)
  {
    hide Encode;
    var keys := SortedKeys(bins);
    SortedKeyed(bins);
    assert AscendingKeys(bins, keys);
    PairBytes(bins, keys);
  }

  // ----- samples -----

  function PointBytes(points: Points, ids: seq<int>): Bytes
    requires FiledAt(points, ids)
  {
    if ids == [] then []
    else
      var n := |ids| - 1;
      var p := points[ids[n]];
      PointBytes(points, ids[..n]) + Encode(p.eventID) + Encode(p.priority) + Encode(p.ttft) + Encode(p.latency)
  }

  ghost predicate AscendingPriorities(points: Points, ids: seq<int>) {
    && (forall id :: id in ids <==> id in points)
    && (forall id | id in ids :: id >= 0)
    && forall i, j | 0 <= i < j < |ids| && ids[i] >= 0 && ids[j] >= 0 ::
         SplitMix.SplitMix64(ids[i]) < SplitMix.SplitMix64(ids[j])
  }

  lemma FourBytes(a: nat, b: nat, c: nat, d: nat)
    ensures EncodeAll([a, b, c, d]) == Encode(a) + Encode(b) + Encode(c) + Encode(d)
  {
    hide Encode;
    assert [a, b, c, d] == [a, b] + [c, d];
    EncodeAllConcat([a, b], [c, d]);
    TwoBytes(a, b);
    TwoBytes(c, d);
  }

  lemma {:induction false} NumberBytes(points: Points, ids: seq<int>)
    requires FiledAt(points, ids)
    ensures EncodeAll(Numbers(points, ids)) == PointBytes(points, ids)
  {
    hide Encode, Genuine, EncodeAll, PointNumbers, Numbers, PointBytes;
    if ids == [] {
      NoBytes(points);
    } else {
      var n := |ids| - 1;
      NumberBytes(points, ids[..n]);
      LastPointBytes(points, ids);
    }
  }

  lemma LastPointBytes(points: Points, ids: seq<int>)
    requires FiledAt(points, ids) && ids != []
    requires EncodeAll(Numbers(points, ids[..|ids| - 1])) == PointBytes(points, ids[..|ids| - 1])
    ensures EncodeAll(Numbers(points, ids)) == PointBytes(points, ids)
  {
    hide Encode, Genuine, EncodeAll, PointNumbers;
    var n := |ids| - 1;
    var p := points[ids[n]];
    GenuineNumbers(p);
    EncodeAllConcat(Numbers(points, ids[..n]), PointNumbers(p));
    FourBytes(p.eventID, p.priority, p.ttft, p.latency);
  }

  lemma NoBytes(points: Points)
    ensures EncodeAll(Numbers(points, [])) == [] == PointBytes(points, [])
  {
  }

  lemma GenuineNumbers(p: Point)
    requires Genuine(p)
    ensures p.eventID >= 0 && p.ttft >= 0 && p.latency >= 0
    ensures PointNumbers(p) == [p.eventID, p.priority, p.ttft, p.latency]
  {
  }

  lemma PrioritiesAscend(points: Points)
    requires ValidSample(points)
    ensures AscendingPriorities(points, SortedIds(points))
  {
    hide SplitMix.SplitMix64, IdLess, PointLess;
    var ids := SortedIds(points);
    forall i, j | 0 <= i < j < |ids| && ids[i] >= 0 && ids[j] >= 0
      ensures SplitMix.SplitMix64(ids[i]) < SplitMix.SplitMix64(ids[j])
    {
      assert ids[i] in points && ids[j] in points;
      LessPriority(points, ids[i], ids[j]);
    }
  }

  lemma LessPriority(points: Points, a: int, b: int)
    requires ValidSample(points) && a in points && b in points && IdLess()(a, b) && a >= 0 && b >= 0
    ensures SplitMix.SplitMix64(a) < SplitMix.SplitMix64(b)
  {
    hide SplitMix.SplitMix64;
    if a == b {
      assert false;
    } else {
      NoTies(points[a], points[b]);
    }
  }

  /** Version one, the number of points, and each point's event, priority and delays by ascending priority. */
  lemma SampleBytes(points: Points)
    requires ValidSample(points)
    ensures exists ids | FiledAt(points, ids) && AscendingPriorities(points, ids) ::
      EncodeSample(points) == [1] + Encode(|points|) + PointBytes(points, ids)
  {
    hide Encode, Genuine;
    var ids := SortedIds(points);
    SortedFiled(points);
    PrioritiesAscend(points);
    NumberBytes(points, ids);
  }
}
