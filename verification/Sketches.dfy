/** The sketch as an object: bins and a running count, changed in place. */
module Sketches {
  import opened LatencySketch
  import opened SketchCodec
  import opened Varint
  import opened Wrappers
  import Sorting

  class Sketch {
    var bins: Bins
    var count: nat

    ghost predicate Valid()
      reads this
    {
      ValidBins(bins) && count == Total(bins)
    }

    constructor ()
      ensures Valid() && bins == map[]
    {
      bins, count := map[], 0;
    }

    /** Fails for values that are not positive, and when 64 bits cannot count one more. */
    method Add(value: Int64) returns (ok: bool)
      requires Valid()
      modifies this
      ensures Valid()
      ensures ok <==> value > 0 && old(count) < MAX_COUNT
      ensures bins == if ok then Bumped(old(bins), Key(value), 1) else old(bins)
    {
      if value <= 0 {
        return false;
      }
      var key := Key(value);
      AtMostTotal(bins, key);
      if At(bins, key) == MAX_COUNT || count == MAX_COUNT {
        return false;
      }
      TotalBumped(bins, key, 1);
      KeyBounded(value);
      bins := Bumped(bins, key, 1);
      count := count + 1;
      ok := true;
    }

    /** Adds another sketch, itself included; only the total count can stop it. */
    method Merge(other: Sketch) returns (ok: bool)
      requires Valid() && other.Valid()
      modifies this
      ensures Valid()
      ensures ok <==> old(count) + old(other.count) <= MAX_COUNT
      ensures bins == if ok then MergeBins(old(bins), old(other.bins)) else old(bins)
    {
      if count > MAX_COUNT - other.count {
        return false;
      }
      MergeTotal(bins, other.bins);
      AddBins(other);
      count := count + other.count;
      ok := true;
    }

    /** The bin loop of a merge, in any order; no bin can overflow while the total does not. */
    method AddBins(other: Sketch)
      requires Valid() && other.Valid() && count + other.count <= MAX_COUNT
      modifies this`bins
      ensures bins == MergeBins(old(bins), old(other.bins)) && ValidBins(bins)
    {
      ghost var mine, theirs := bins, other.bins;
      var rest := other.bins.Keys;
      MergeStart(mine, theirs);
      while rest != {}
        invariant rest <= theirs.Keys
        invariant bins == MergeBins(mine, theirs - rest)
        invariant forall k | k in rest :: k in other.bins && other.bins[k] == theirs[k]
        decreases rest
      {
        SomeKey(rest);
        var key :| key in rest;
        MergeStep(mine, theirs, rest, key);
        if At(bins, key) > MAX_COUNT - other.bins[key] {
          assert false;
        }
        bins := Bumped(bins, key, other.bins[key]);
        rest := rest - {key};
      }
      assert theirs - rest == theirs;
      MergeValid(mine, theirs);
    }

    method ListKeys() returns (keys: seq<int>)
      ensures keys == SortedKeys(bins)
    {
      IntOrder();
      keys := Sorting.ListAscending(bins.Keys, IntLess());
    }

    /** Nearest-rank 95th percentile; `key` is the bin it was read from. */
    method P95() returns (r: int, ghost key: int)
      requires Valid()
      ensures count == 0 ==> r == 0
      ensures count > 0 ==> Selects(bins, Rank(count), key) && r == Representative(key)
    {
      if count == 0 {
        return 0, 0;
      }
      hide SortedKeys, Cumulative, Selects, Representative, Total;
      var rank := Rank(count);
      var keys := ListKeys();
      RankInReach(bins, count);
      r, key := FindRank(keys, rank);
    }

    method FindRank(keys: seq<int>, rank: nat) returns (r: int, ghost key: int)
      requires keys == SortedKeys(bins) && Total(bins) == count
      requires exists i :: 0 <= i < |keys| && Cumulative(bins, keys[i]) >= rank
      ensures Selects(bins, rank, key) && r == Representative(key)
    {
      hide SortedKeys, Cumulative, Selects, Representative, Total;
      var cumulative := 0;
      for i := 0 to |keys|
        invariant cumulative == if i == 0 then 0 else Cumulative(bins, keys[i - 1])
        invariant cumulative <= count
        invariant forall k | 0 <= k < i :: Cumulative(bins, keys[k]) < rank
      {
        CumulativeNext(bins, i);
        cumulative := cumulative + bins[keys[i]];
        if cumulative >= rank {
          SelectsFirst(bins, i, rank);
          return Representative(keys[i]), keys[i];
        }
      }
      assert false;
    }

    method MarshalBinary() returns (encoded: Bytes)
      requires Valid()
      ensures encoded == EncodeSketch(bins)
    {
      hide SortedKeys, IntLess, EncodeAll, PairNumbers, Encode, ZigzagEncode, Total, ValidBins;
      encoded := [FORMAT_VERSION];
      SortedKeyed(bins);
      var keys := ListKeys();
      encoded := AppendUvarint(encoded, |keys|);
      ghost var head := encoded;
      NothingEncoded(head);
      for i := 0 to |keys|
        invariant encoded == head + EncodeAll(PairNumbers(bins, keys[..i]))
      {
        var key := keys[i];
        KeyedPrefixes(bins, keys, i);
        if bins[key] == 0 {
          assert false;
        }
        PairsEncoded(bins, keys, i);
        encoded := AppendUvarint(encoded, ZigzagEncode(key));
        encoded := AppendUvarint(encoded, bins[key]);
      }
      assert keys[..|keys|] == keys;
    }
  }

  lemma SomeKey(keys: set<int>)
    requires keys != {}
    ensures exists k :: k in keys
  {
    if forall k :: k !in keys { assert false; }
  }

  lemma MergeStart(mine: Bins, theirs: Bins)
    ensures MergeBins(mine, theirs - theirs.Keys) == mine
  {
    assert theirs - theirs.Keys == map[];
    assert forall k :: k in MergeBins(mine, map[]) <==> k in mine;
  }

  lemma MergeStep(mine: Bins, theirs: Bins, rest: set<int>, key: int)
    requires rest <= theirs.Keys && key in rest && Total(mine) + Total(theirs) <= MAX_COUNT
    ensures var bins := MergeBins(mine, theirs - rest);
      && At(bins, key) + theirs[key] <= MAX_COUNT
      && Bumped(bins, key, theirs[key]) == MergeBins(mine, theirs - (rest - {key}))
      && forall k | k in theirs && k != key :: At(Bumped(bins, key, theirs[key]), k) == At(bins, k)
  {
    hide Total;
    var bins := MergeBins(mine, theirs - rest);
    AtMostTotal(mine, key);
    AtMostTotal(theirs, key);
    SameAt(Bumped(bins, key, theirs[key]), MergeBins(mine, theirs - (rest - {key})));
  }

  lemma MergeValid(mine: Bins, theirs: Bins)
    requires ValidBins(mine) && ValidBins(theirs) && Total(mine) + Total(theirs) <= MAX_COUNT
    ensures ValidBins(MergeBins(mine, theirs))
  {
    MergeTotal(mine, theirs);
  }

  lemma KeysAscend(bins: Bins)
    ensures var keys := SortedKeys(bins); forall i, j | 0 <= i < j < |keys| :: keys[i] < keys[j]
    ensures var keys := SortedKeys(bins); forall i | 0 <= i < |keys| :: keys[i] in bins
    ensures var keys := SortedKeys(bins); forall k | k in bins :: exists i :: 0 <= i < |keys| && keys[i] == k
  {
    var keys := SortedKeys(bins);
    forall i, j | 0 <= i < j < |keys| ensures keys[i] < keys[j] {
      assert IntLess()(keys[i], keys[j]);
    }
    forall i | 0 <= i < |keys| ensures keys[i] in bins {
      assert keys[i] in keys;
    }
  }

  lemma KeyPosition(bins: Bins, k: int) returns (j: nat)
    requires k in bins
    ensures j < |SortedKeys(bins)| && SortedKeys(bins)[j] == k
  {
    hide SortedKeys;
    KeysAscend(bins);
    j :| 0 <= j < |SortedKeys(bins)| && SortedKeys(bins)[j] == k;
  }

  lemma KeyOrder(bins: Bins, i: nat, j: nat)
    requires i < |SortedKeys(bins)| && j < |SortedKeys(bins)|
    ensures i < j <==> SortedKeys(bins)[i] < SortedKeys(bins)[j]
  {
    hide SortedKeys;
    KeysAscend(bins);
  }

  lemma UpToNext(bins: Bins, key: int, previous: int)
    requires previous < key && forall k | k in bins && k < key :: k <= previous
    ensures UpTo(bins, key) - {key} == UpTo(bins, previous)
  {
    var left, right := UpTo(bins, key) - {key}, UpTo(bins, previous);
    assert forall k :: k in left <==> k in right;
  }

  lemma UpToFirst(bins: Bins, key: int)
    requires forall k | k in bins :: key <= k
    ensures UpTo(bins, key) - {key} == map[]
  {
  }

  lemma BelowIsPrevious(bins: Bins, i: nat)
    requires i < |SortedKeys(bins)|
    ensures var keys := SortedKeys(bins);
      UpTo(bins, keys[i]) - {keys[i]} == if i == 0 then map[] else UpTo(bins, keys[i - 1])
  {
    hide SortedKeys, UpTo;
    var keys := SortedKeys(bins);
    if i == 0 {
      forall k | k in bins ensures keys[0] <= k { var j := KeyPosition(bins, k); KeyOrder(bins, 0, j); }
      UpToFirst(bins, keys[0]);
    } else {
      forall k | k in bins && k < keys[i] ensures k <= keys[i - 1] {
        var j := KeyPosition(bins, k);
        KeyOrder(bins, i, j);
        KeyOrder(bins, j, i - 1);
      }
      KeyOrder(bins, i - 1, i);
      UpToNext(bins, keys[i], keys[i - 1]);
    }
  }

  lemma CumulativeNext(bins: Bins, i: nat)
    requires i < |SortedKeys(bins)|
    ensures var keys := SortedKeys(bins);
      && keys[i] in bins
      && Cumulative(bins, keys[i]) == bins[keys[i]] + (if i == 0 then 0 else Cumulative(bins, keys[i - 1]))
      && Cumulative(bins, keys[i]) <= Total(bins)
  {
    hide SortedKeys, Total;
    var keys := SortedKeys(bins);
    KeysAscend(bins);
    BelowIsPrevious(bins, i);
    TotalWithout(UpTo(bins, keys[i]), keys[i]);
    SubTotal(UpTo(bins, keys[i]), bins);
    NothingTotal();
  }

  lemma NothingTotal()
    ensures Total(map[]) == 0
  {
  }

  lemma SelectsFirst(bins: Bins, i: nat, rank: int)
    requires var keys := SortedKeys(bins);
      i < |keys| && Cumulative(bins, keys[i]) >= rank && forall k | 0 <= k < i :: Cumulative(bins, keys[k]) < rank
    ensures Selects(bins, rank, SortedKeys(bins)[i])
  {
    hide SortedKeys, Cumulative;
    var keys := SortedKeys(bins);
    KeysAscend(bins);
    forall k | k in bins && k < keys[i] ensures Cumulative(bins, k) < rank {
      var j :| 0 <= j < |keys| && keys[j] == k;
      assert j < i;
    }
  }

  lemma SomeBin(bins: Bins)
    requires Total(bins) > 0
    ensures |bins| > 0
  {
  }

  /** The running count ends at the total, which no rank exceeds. */
  lemma RankInReach(bins: Bins, count: nat)
    requires 0 < count == Total(bins) <= MAX_COUNT
    ensures exists i :: 0 <= i < |SortedKeys(bins)| && Cumulative(bins, SortedKeys(bins)[i]) >= Rank(count)
  {
    hide SortedKeys, Rank, UpTo, Total;
    RankExact(count);
    var keys := SortedKeys(bins);
    SomeBin(bins);
    var last := keys[|keys| - 1];
    forall k | k in bins ensures k <= last {
      var j := KeyPosition(bins, k);
      KeyOrder(bins, |keys| - 1, j);
    }
    UpToLast(bins, last);
  }

  lemma UpToLast(bins: Bins, last: int)
    requires forall k | k in bins :: k <= last
    ensures UpTo(bins, last) == bins
  {
  }

  lemma KeyedPrefixes(bins: Bins, keys: seq<int>, i: nat)
    requires ValidBins(bins) && Keyed(bins, keys) && i < |keys|
    ensures Keyed(bins, keys[..i]) && Keyed(bins, keys[..i + 1])
    ensures keys[i] in bins && 1 <= bins[keys[i]] && -0x8000_0000_0000_0000 <= keys[i] <= MAX_INT64
  {
  }

  lemma NothingEncoded(head: Bytes)
    ensures head == head + EncodeAll([])
  {
  }

  lemma PairsEncoded(bins: Bins, keys: seq<int>, i: nat)
    requires i < |keys| && Keyed(bins, keys) && Keyed(bins, keys[..i]) && Keyed(bins, keys[..i + 1])
    ensures EncodeAll(PairNumbers(bins, keys[..i + 1]))
      == EncodeAll(PairNumbers(bins, keys[..i])) + Encode(ZigzagEncode(keys[i])) + Encode(bins[keys[i]])
  {
    assert keys[..i + 1][..i] == keys[..i];
    var pair: seq<nat> := [ZigzagEncode(keys[i]), bins[keys[i]]];
    EncodeAllConcat(PairNumbers(bins, keys[..i]), pair);
    assert pair[1..] == [bins[keys[i]]];
    assert pair[1..][1..] == [];
    assert EncodeAll(pair[1..]) == Encode(bins[keys[i]]) + [];
  }

  // ----- decoding -----

  function LastKey(ns: seq<nat>): int {
    if |ns| >= 2 && ns[|ns| - 2] < WORD then ZigzagDecode(ns[|ns| - 2]) else 0
  }

  ghost predicate PairsYield(ns: seq<nat>, bins: Bins) {
    Words(ns) && |ns| % 2 == 0 && DecodedPairs(ns) == Some(bins)
  }

  ghost predicate PairsRefused(ns: seq<nat>) {
    Words(ns) && |ns| % 2 == 0 && DecodedPairs(ns).None?
  }

  /** After some pairs have been read and accepted. */
  ghost predicate PairsRead(buf: Bytes, count: nat, index: nat, offset: nat, ns: seq<nat>, bins: Bins) {
    offset <= |buf| && Standing(buf, 2, count, index, offset, ns) && |ns| == 2 * index && PairsYield(ns, bins)
  }

  lemma PairUnreadable(buf: Bytes, count: nat, index: nat, offset: nat, ns: seq<nat>, bins: Bins)
    requires PairsRead(buf, count, index, offset, ns, bins) && index < count && DecodeAll(buf[offset..], 2).None?
    ensures DecodeSketch(buf).None?
  {
    hide DecodedPairs, Standing, DecodeAll, Frame;
    ItemMissing(buf, 2, count, index, offset, ns);
  }

  lemma PairRejected(buf: Bytes, count: nat, index: nat, offset: nat, ns: seq<nat>, bins: Bins, pair: seq<nat>,
      end: nat)
    requires PairsRead(buf, count, index, offset, ns, bins) && index < count
    requires |pair| == 2 && NextIs(buf, offset, pair, end) && PairsRefused(ns + pair)
    ensures DecodeSketch(buf).None?
  {
    hide DecodedPairs, Standing, DecodeAll, Frame;
    ItemTaken(buf, 2, count, index, offset, ns, end);
    if Frame(buf, 2).Some? {
      FrameContinues(buf, 2, count, index + 1, end, ns + pair);
      EvenLength(buf);
      var all := Frame(buf, 2).value;
      if DecodedPairs(all).Some? {
        DecodedPrefix(all, |ns + pair|);
        assert false;
      }
    }
  }

  lemma PairTaken(buf: Bytes, count: nat, index: nat, offset: nat, ns: seq<nat>, bins: Bins, pair: seq<nat>, end: nat,
      more: Bins)
    requires PairsRead(buf, count, index, offset, ns, bins) && index < count
    requires |pair| == 2 && NextIs(buf, offset, pair, end) && PairsYield(ns + pair, more)
    ensures PairsRead(buf, count, index + 1, end, ns + pair, more)
  {
    hide Standing, Frame, DecodeAll, PairsYield;
    ItemTaken(buf, 2, count, index, offset, ns, end);
  }

  lemma TwoNumbers(buf: Bytes, offset: nat, first: nat, next: nat)
    requires NextIs(buf, offset, [first], next)
    ensures DecodeAll(buf[next..], 1).None? ==> DecodeAll(buf[offset..], 2).None?
    ensures DecodeAll(buf[next..], 1).Some? ==>
      DecodeAll(buf[offset..], 2) == Some(Parsed([first] + DecodeAll(buf[next..], 1).value.numbers,
        DecodeAll(buf[next..], 1).value.rest))
  {
    DecodeAllSplit(buf[offset..], 1, 1);
  }

  /** One more pair of numbers: what it adds, or that it cannot be accepted. */
  lemma NextPair(ns: seq<nat>, key: nat, count: nat, bins: Bins)
    requires PairsYield(ns, bins) && key < WORD && count < WORD
    ensures LastKey(ns + [key, count]) == ZigzagDecode(key)
    ensures (ns != [] && ZigzagDecode(key) <= LastKey(ns)) || count == 0 || Total(bins) > MAX_COUNT - count
      ==> PairsRefused(ns + [key, count])
    ensures !((ns != [] && ZigzagDecode(key) <= LastKey(ns)) || count == 0 || Total(bins) > MAX_COUNT - count) ==>
      PairsYield(ns + [key, count], bins[ZigzagDecode(key) := count])
        && Total(bins[ZigzagDecode(key) := count]) == Total(bins) + count
  {
    hide ZigzagDecode;
    var more := ns + [key, count];
    assert more[..|more| - 2] == ns;
    assert more[|ns|] == key && more[|ns| + 1] == count;
    if DecodedPairs(more).Some? {
      DecodedShape(ns);
      NewBin(bins, ZigzagDecode(key), count);
    }
  }

  lemma NothingRead(buf: Bytes, count: nat, offset: nat)
    requires Standing(buf, 2, count, 0, offset, [])
    ensures PairsRead(buf, count, 0, offset, [], map[]) && Total(map[]) == 0 && offset <= |buf|
  {
  }

  lemma KeyMissing(buf: Bytes, count: nat, index: nat, offset: nat, ns: seq<nat>, bins: Bins)
    requires PairsRead(buf, count, index, offset, ns, bins) && index < count && DecodeAll(buf[offset..], 1).None?
    ensures DecodeSketch(buf).None?
  {
    DecodeAllSplit(buf[offset..], 1, 1);
    PairUnreadable(buf, count, index, offset, ns, bins);
  }

  lemma CountMissing(buf: Bytes, count: nat, index: nat, offset: nat, ns: seq<nat>, bins: Bins, key: nat, next: nat)
    requires PairsRead(buf, count, index, offset, ns, bins) && index < count
    requires NextIs(buf, offset, [key], next) && DecodeAll(buf[next..], 1).None?
    ensures DecodeSketch(buf).None?
  {
    TwoNumbers(buf, offset, key, next);
    PairUnreadable(buf, count, index, offset, ns, bins);
  }

  lemma PairNext(buf: Bytes, offset: nat, key: nat, next: nat, n: nat, end: nat)
    requires NextIs(buf, offset, [key], next) && NextIs(buf, next, [n], end)
    ensures NextIs(buf, offset, [key, n], end)
  {
    hide DecodeAll;
    TwoNumbers(buf, offset, key, next);
    assert [key] + [n] == [key, n];
  }

  /** A key out of order rejects the data, whatever would follow it. */
  lemma OutOfOrder(buf: Bytes, count: nat, index: nat, offset: nat, ns: seq<nat>, bins: Bins, key: nat, next: nat)
    requires PairsRead(buf, count, index, offset, ns, bins) && 0 < index < count
    requires key < WORD && NextIs(buf, offset, [key], next) && ZigzagDecode(key) <= LastKey(ns)
    ensures DecodeSketch(buf).None?
  {
    hide Standing, Frame, ZigzagDecode, PairsYield, DecodeAll, LastKey;
    if DecodeAll(buf[next..], 1).None? {
      CountMissing(buf, count, index, offset, ns, bins, key, next);
    } else {
      var p := DecodeAll(buf[next..], 1).value;
      DecodeAllShape(buf[next..], 1);
      var end := |buf| - |p.rest|;
      assert buf[next..][|buf[next..]| - |p.rest|..] == buf[end..];
      assert p.numbers == [p.numbers[0]];
      PairNext(buf, offset, key, next, p.numbers[0], end);
      NextPair(ns, key, p.numbers[0], bins);
      PairRejected(buf, count, index, offset, ns, bins, [key, p.numbers[0]], end);
    }
  }

  lemma FrameDone(buf: Bytes, count: nat, offset: nat, ns: seq<nat>, bins: Bins)
    requires PairsRead(buf, count, count, offset, ns, bins)
    ensures DecodeSketch(buf) == if offset == |buf| then Some(bins) else None
  {
    hide Standing, Frame, DecodedPairs;
    FrameEnds(buf, 2, count, offset, ns);
  }

  /** Parses strictly: version, order, positive counts, 64-bit sums, and no byte left over. */
  method UnmarshalSketch(encoded: Bytes) returns (sketch: Sketch?)
    ensures sketch == null <==> DecodeSketch(encoded).None?
    ensures sketch != null ==> fresh(sketch) && sketch.Valid() && sketch.bins == DecodeSketch(encoded).value
  {
    hide Standing, Frame, DecodeAll, ZigzagDecode, DecodedPairs, ValidBins, Total, PairsYield, LastKey;
    var head, offset := ReadHead(encoded, 2);
    if head.None? {
      return null;
    }
    var binCount := head.value;
    var bins: Bins, total, previousKey := map[], 0, 0;
    ghost var ns: seq<nat> := [];
    NothingRead(encoded, binCount, offset);
    for index := 0 to binCount
      invariant 0 <= offset <= |encoded| && total == Total(bins) <= MAX_COUNT
      invariant PairsRead(encoded, binCount, index, offset, ns, bins)
      invariant index > 0 ==> previousKey == LastKey(ns)
    {
      var encodedKey, next := ReadUvarint(encoded, offset);
      if encodedKey.None? {
        KeyMissing(encoded, binCount, index, offset, ns, bins);
        return null;
      }
      var key := ZigzagDecode(encodedKey.value);
      if index > 0 && key <= previousKey {
        OutOfOrder(encoded, binCount, index, offset, ns, bins, encodedKey.value, next);
        return null;
      }
      var count, end := ReadUvarint(encoded, next);
      if count.None? {
        CountMissing(encoded, binCount, index, offset, ns, bins, encodedKey.value, next);
        return null;
      }
      ghost var pair: seq<nat> := [encodedKey.value, count.value];
      PairNext(encoded, offset, encodedKey.value, next, count.value, end);
      NextPair(ns, encodedKey.value, count.value, bins);
      if count.value == 0 || total > MAX_COUNT - count.value {
        PairRejected(encoded, binCount, index, offset, ns, bins, pair, end);
        return null;
      }
      PairTaken(encoded, binCount, index, offset, ns, bins, pair, end, bins[key := count.value]);
      ns := ns + pair;
      bins := bins[key := count.value];
      total, previousKey, offset := total + count.value, key, end;
    }
    FrameDone(encoded, binCount, offset, ns, bins);
    if offset != |encoded| {
      return null;
    }
    sketch := new Sketch();
    sketch.bins, sketch.count := bins, total;
    AcceptedSketchValid(encoded);
  }
}
