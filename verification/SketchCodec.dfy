/** The binary form of a sketch: ascending keys in zigzag, each with its count. */
module SketchCodec {
  import opened LatencySketch
  import opened Varint
  import opened Wrappers
  import Sorting

  lemma IntOrder()
    ensures Sorting.StrictTotalOrder(IntLess())
  {
  }

  ghost function SortedKeys(bins: Bins): (keys: seq<int>)
    ensures Sorting.StrictlySorted(keys, IntLess()) && |keys| == |bins|
    ensures forall k :: k in keys <==> k in bins
  {
    IntOrder();
    Sorting.Ascending(bins.Keys, IntLess())
  }

  lemma SortedKeyed(bins: Bins)
    requires ValidBins(bins)
    ensures Keyed(bins, SortedKeys(bins))
  {
    var keys := SortedKeys(bins);
    forall i | 0 <= i < |keys| ensures keys[i] in bins { assert keys[i] in keys; }
  }

  predicate Keyed(bins: Bins, keys: seq<int>) {
    forall i | 0 <= i < |keys| :: keys[i] in bins && -0x8000_0000_0000_0000 <= keys[i] <= MAX_INT64
  }

  function PairNumbers(bins: Bins, keys: seq<int>): (ns: seq<nat>)
    requires Keyed(bins, keys)
    ensures |ns| == 2 * |keys|
  {
    if keys == [] then []
    else
      var n := |keys| - 1;
      PairNumbers(bins, keys[..n]) + [ZigzagEncode(keys[n]), bins[keys[n]]]
  }

  ghost function EncodeSketch(bins: Bins): Bytes
    requires ValidBins(bins)
  {
    SortedKeyed(bins);
    EncodeFrame(|bins|, PairNumbers(bins, SortedKeys(bins)))
  }

  /** Keys must increase, counts must be positive and add up within 64 bits. */
  ghost function DecodedPairs(ns: seq<nat>): Option<Bins>
    requires Words(ns) && |ns| % 2 == 0
  {
    if ns == [] then Some(map[])
    else
      var n := |ns| - 2;
      var key, count := ZigzagDecode(ns[n]), ns[n + 1];
      match DecodedPairs(ns[..n])
      case None => None
      case Some(bins) =>
        if n > 0 && key <= ZigzagDecode(ns[n - 2]) then None
        else if count == 0 || Total(bins) > MAX_COUNT - count then None
        else Some(bins[key := count])
  }

  ghost function DecodeSketch(buf: Bytes): Option<Bins> {
    match Frame(buf, 2)
    case None => None
    case Some(ns) => (FrameShape(buf, 2); EvenLength(buf); DecodedPairs(ns))
  }

  lemma EvenLength(buf: Bytes)
    requires Frame(buf, 2).Some?
    ensures |Frame(buf, 2).value| % 2 == 0 && Words(Frame(buf, 2).value)
  {
    FrameShape(buf, 2);
  }

  // ----- accepted pairs -----

  lemma {:induction false} DecodedShape(ns: seq<nat>)
    requires Words(ns) && |ns| % 2 == 0 && DecodedPairs(ns).Some?
    ensures var bins := DecodedPairs(ns).value;
      && ValidBins(bins)
      && (ns == [] ==> bins == map[])
      && (ns != [] ==> forall key | key in bins :: key <= ZigzagDecode(ns[|ns| - 2]))
  {
    if ns != [] {
      var n := |ns| - 2;
      var key, count := ZigzagDecode(ns[n]), ns[n + 1];
      var before := DecodedPairs(ns[..n]).value;
      DecodedShape(ns[..n]);
      assert key !in before;
      NewBin(before, key, count);
    }
  }

  lemma NewBin(bins: Bins, key: int, count: nat)
    requires key !in bins
    ensures Total(bins[key := count]) == Total(bins) + count
  {
    TotalBumped(bins, key, count);
  }

  /** Whatever bytes are accepted, the bins are such as a sketch can hold. */
  lemma AcceptedSketchValid(buf: Bytes)
    requires DecodeSketch(buf).Some?
    ensures ValidBins(DecodeSketch(buf).value)
  {
    EvenLength(buf);
    DecodedShape(Frame(buf, 2).value);
  }

  lemma {:induction false} DecodedPrefix(ns: seq<nat>, m: nat)
    requires Words(ns) && |ns| % 2 == 0 && m % 2 == 0 && m <= |ns| && DecodedPairs(ns).Some?
    ensures DecodedPairs(ns[..m]).Some?
  {
    if m == |ns| {
      assert ns[..m] == ns;
    } else {
      var n := |ns| - 2;
      DecodedPrefix(ns[..n], m);
      assert ns[..n][..m] == ns[..m];
    }
  }

  // ----- round trip -----

  function Only(bins: Bins, keys: seq<int>): Bins {
    map k | k in keys && k in bins :: bins[k]
  }

  lemma {:induction false} SubTotal(a: Bins, b: Bins)
    requires forall k | k in a :: k in b && a[k] == b[k]
    ensures Total(a) <= Total(b)
    decreases |b|
  {
    if exists k :: k in b && k !in a {
      var k :| k in b && k !in a;
      TotalWithout(b, k);
      SubTotal(a, b - {k});
    } else {
      SameAt(a, b);
    }
  }

  lemma {:induction false} PairsWords(bins: Bins, keys: seq<int>)
    requires Keyed(bins, keys) && forall k | k in bins :: bins[k] < WORD
    ensures Words(PairNumbers(bins, keys))
  {
    if keys != [] {
      PairsWords(bins, keys[..|keys| - 1]);
    }
  }

  lemma {:induction false} PairsRoundTrip(bins: Bins, keys: seq<int>)
    requires ValidBins(bins) && Keyed(bins, keys) && Sorting.StrictlySorted(keys, IntLess())
    requires Words(PairNumbers(bins, keys))
    ensures DecodedPairs(PairNumbers(bins, keys)) == Some(Only(bins, keys))
  {
    hide ZigzagEncode, ZigzagDecode, PairNumbers, Only;
    if keys == [] {
      assert Only(bins, keys) == map[] by { OnlyNothing(bins); }
      assert PairNumbers(bins, keys) == [];
    } else {
      var n := |keys| - 1;
      LastPair(bins, keys);
      PairsRoundTrip(bins, keys[..n]);
      ZigzagBijective(keys[n], 0);
      if n > 0 {
        ZigzagBijective(keys[n - 1], 0);
        assert IntLess()(keys[n - 1], keys[n]);
      }
      AddOnly(bins, keys);
      OnlySome(bins, keys);
      SubTotal(Only(bins, keys), bins);
    }
  }

  lemma OnlyNothing(bins: Bins)
    ensures Only(bins, []) == map[]
  {
  }

  lemma OnlySome(bins: Bins, keys: seq<int>)
    ensures forall k | k in Only(bins, keys) :: k in bins && Only(bins, keys)[k] == bins[k]
  {
  }

  lemma LastPair(bins: Bins, keys: seq<int>)
    requires keys != [] && Keyed(bins, keys)
    ensures var ns, n := PairNumbers(bins, keys), |keys| - 1;
      && ns[..|ns| - 2] == PairNumbers(bins, keys[..n])
      && ns[|ns| - 2] == ZigzagEncode(keys[n]) && ns[|ns| - 1] == bins[keys[n]]
      && (n > 0 ==> ns[|ns| - 4] == ZigzagEncode(keys[n - 1]))
  {
    var n := |keys| - 1;
    if n > 0 {
      var front := PairNumbers(bins, keys[..n]);
      assert front[|front| - 2] == ZigzagEncode(keys[..n][n - 1]);
    }
  }

  lemma AddOnly(bins: Bins, keys: seq<int>)
    requires keys != [] && Keyed(bins, keys) && Sorting.StrictlySorted(keys, IntLess())
    ensures var n := |keys| - 1;
      && Only(bins, keys) == Only(bins, keys[..n])[keys[n] := bins[keys[n]]]
      && Total(Only(bins, keys)) == Total(Only(bins, keys[..n])) + bins[keys[n]]
  {
    var n := |keys| - 1;
    assert keys == keys[..n] + [keys[n]];
    forall i | 0 <= i < n ensures keys[i] != keys[n] {
      assert IntLess()(keys[i], keys[n]);
    }
    assert keys[n] !in keys[..n];
    assert keys[n] in bins;
    NewBin(Only(bins, keys[..n]), keys[n], bins[keys[n]]);
  }

  lemma {:induction false} FewBins(bins: Bins)
    requires forall k | k in bins :: bins[k] >= 1
    ensures |bins| <= Total(bins)
    decreases |bins|
  {
    if exists k :: k in bins {
      var k :| k in bins;
      TotalWithout(bins, k);
      FewBins(bins - {k});
      assert bins == (bins - {k})[k := bins[k]];
    } else {
      assert bins == map[];
    }
  }

  /** Decoding an encoded sketch returns it; its count is the sum of its bins by construction. */
  lemma SketchRoundTrip(bins: Bins)
    requires ValidBins(bins)
    ensures DecodeSketch(EncodeSketch(bins)) == Some(bins)
  {
    var keys := SortedKeys(bins);
    forall k | k in bins ensures bins[k] < WORD { AtMostTotal(bins, k); }
    SortedKeyed(bins);
    FewBins(bins);
    PairsWords(bins, keys);
    FrameRoundTrip(|bins|, 2, PairNumbers(bins, keys));
    PairsRoundTrip(bins, keys);
    assert Only(bins, keys) == bins;
  }

  /** Nothing accepted can be cut short or continued. */
  lemma SketchExactLength(buf: Bytes, cut: nat, more: Bytes)
    requires DecodeSketch(buf).Some? && cut < |buf| && more != []
    ensures DecodeSketch(buf[..cut]).None? && DecodeSketch(buf + more).None?
  {
    FrameNotCut(buf, 2, cut);
    FrameNotExtended(buf, 2, more);
  }

  // ----- encoding again -----

  function PairKeys(ns: seq<nat>): (keys: seq<int>)
    requires Words(ns) && |ns| % 2 == 0
    ensures 2 * |keys| == |ns|
  {
    if ns == [] then [] else PairKeys(ns[..|ns| - 2]) + [ZigzagDecode(ns[|ns| - 2])]
  }

  lemma {:induction false} PairsElsewhere(a: Bins, b: Bins, keys: seq<int>)
    requires Keyed(a, keys) && Keyed(b, keys) && forall i | 0 <= i < |keys| :: a[keys[i]] == b[keys[i]]
    ensures PairNumbers(a, keys) == PairNumbers(b, keys)
  {
    if keys != [] { PairsElsewhere(a, b, keys[..|keys| - 1]); }
  }

  /** The numbers of some bins, listed by ascending key. */
  ghost predicate Lists(ns: seq<nat>, bins: Bins, keys: seq<int>) {
    && Sorting.StrictlySorted(keys, IntLess()) && (forall k :: k in keys <==> k in bins)
    && Keyed(bins, keys) && PairNumbers(bins, keys) == ns
  }

  lemma LastPairAccepted(ns: seq<nat>) returns (front: seq<nat>, key: Int64, before: Bins)
    requires Words(ns) && |ns| % 2 == 0 && ns != [] && DecodedPairs(ns).Some?
    ensures |ns| >= 2 && front == ns[..|ns| - 2] && Words(front) && |front| % 2 == 0
    ensures key == ZigzagDecode(ns[|ns| - 2])
    ensures DecodedPairs(front) == Some(before) && (front != [] ==> ZigzagDecode(front[|front| - 2]) < key)
    ensures DecodedPairs(ns).value == before[key := ns[|ns| - 1]]
    ensures PairKeys(ns) == PairKeys(front) + [key]
  {
    hide ZigzagDecode, Total;
    front, key := ns[..|ns| - 2], ZigzagDecode(ns[|ns| - 2]);
    before := DecodedPairs(front).value;
  }

  lemma LastTwo(ns: seq<nat>)
    requires Words(ns) && |ns| >= 2
    ensures var n := |ns| - 2; ns == ns[..n] + [ZigzagEncode(ZigzagDecode(ns[n])), ns[n + 1]]
  {
    ZigzagBijective(0, ns[|ns| - 2]);
  }

  lemma NothingListed()
    ensures DecodedPairs([]) == Some(map[]) && PairKeys([]) == [] && Lists([], map[], [])
  {
  }

  /** Accepted numbers are those of their bins, keys ascending. */
  lemma {:induction false} PairsDetermined(ns: seq<nat>)
    requires Words(ns) && |ns| % 2 == 0 && DecodedPairs(ns).Some?
    ensures Lists(ns, DecodedPairs(ns).value, PairKeys(ns))
  {
    hide DecodedPairs, PairKeys, Lists, ZigzagDecode, ZigzagEncode;
    if ns == [] {
      NothingListed();
    } else {
      var front, key, before := LastPairAccepted(ns);
      LastTwo(ns);
      PairsDetermined(front);
      ListsNext(front, key, ns[|ns| - 1]);
    }
  }

  lemma ListsNext(front: seq<nat>, key: Int64, count: nat)
    requires Words(front) && |front| % 2 == 0 && DecodedPairs(front).Some?
      && Lists(front, DecodedPairs(front).value, PairKeys(front))
    requires front != [] ==> ZigzagDecode(front[|front| - 2]) < key
    ensures Lists(front + [ZigzagEncode(key), count], DecodedPairs(front).value[key := count], PairKeys(front) + [key])
  {
    hide DecodedPairs, PairKeys, ZigzagDecode, ZigzagEncode, PairNumbers;
    DecodedShape(front);
    var before, keys := DecodedPairs(front).value, PairKeys(front);
    if front == [] { NothingListed(); }
    forall i | 0 <= i < |keys| ensures keys[i] < key {
      assert keys[i] in keys;
    }
    PairsNext(before, keys, key, count);
  }

  lemma PairsNext(before: Bins, keys: seq<int>, key: Int64, count: nat)
    requires Keyed(before, keys) && Sorting.StrictlySorted(keys, IntLess())
    requires forall i | 0 <= i < |keys| :: keys[i] < key
    requires forall k :: k in keys <==> k in before
    ensures Lists(PairNumbers(before, keys) + [ZigzagEncode(key), count], before[key := count], keys + [key])
  {
    hide ZigzagEncode, PairNumbers;
    var bins, all := before[key := count], keys + [key];
    assert all[..|keys|] == keys && all[|keys|] == key;
    PairsElsewhere(bins, before, keys);
    PairsLast(bins, all);
  }

  lemma PairsLast(bins: Bins, keys: seq<int>)
    requires keys != [] && Keyed(bins, keys)
    ensures var n := |keys| - 1;
      Keyed(bins, keys[..n]) && PairNumbers(bins, keys)
        == PairNumbers(bins, keys[..n]) + [ZigzagEncode(keys[n]), bins[keys[n]]]
  {
    hide ZigzagEncode;
  }

  /** Encoding what was decoded gives back the same bytes exactly if no varint was padded. */
  lemma SketchReencodeIff(buf: Bytes)
    requires DecodeSketch(buf).Some?
    ensures ValidBins(DecodeSketch(buf).value)
    ensures EncodeSketch(DecodeSketch(buf).value) == buf <==> FrameUnpadded(buf, 2)
  {
    hide Frame, DecodedPairs, PairKeys, FrameUnpadded, EncodeFrame, ValidBins, EncodeSketch, Lists;
    AcceptedSketchValid(buf);
    EvenLength(buf);
    var ns, bins := Frame(buf, 2).value, DecodeSketch(buf).value;
    PairsDetermined(ns);
    EncodedAs(ns, bins, PairKeys(ns));
    ReencodeFrameIff(buf, 2, |bins|);
  }

  lemma EncodedAs(ns: seq<nat>, bins: Bins, keys: seq<int>)
    requires ValidBins(bins) && Lists(ns, bins, keys)
    ensures EncodeSketch(bins) == EncodeFrame(|bins|, ns) && |ns| == 2 * |bins|
  {
    hide EncodeFrame, PairNumbers;
    IntOrder();
    SortedKeyed(bins);
    Sorting.AscendingUnique(keys, SortedKeys(bins), IntLess());
  }

  /** They need not be: these bytes decode to the empty sketch, which is written shorter. */
  lemma PaddedSketch()
    ensures DecodeSketch([1, 128, 0]) == DecodeSketch([1, 0]) == Some(map[])
  {
    PaddedFrame(2);
  }
}
