/** Stored latency rows: a page's row is merged into what is stored under its key, decoded and encoded again. */
module LatencyStore {
  import opened LatencySketch
  import opened SketchCodec
  import opened Sketches
  import opened LatencySample
  import opened SampleCodec
  import opened SampleSets
  import opened LatencyRows
  import opened Varint
  import opened Wrappers

  /**
   The known format, positive maxima, and payloads that agree with the sample count; the sample may hold fewer
   points.
   */
  ghost predicate Readable(row: Row) {
    && row.formatVersion == FORMAT_VERSION && row.maxTTFT > 0 && row.maxLatency > 0
    && SketchCounts(row.ttftSketch, row.sampleCount) && SketchCounts(row.latencySketch, row.sampleCount)
    && SampleWithin(row.samplePoints, row.sampleCount)
  }

  ghost predicate SketchCounts(encoded: Bytes, count: nat) {
    DecodeSketch(encoded).Some? && Total(DecodeSketch(encoded).value) == count
  }

  ghost predicate SampleWithin(encoded: Bytes, count: nat) {
    DecodeSample(encoded).Some? && |DecodeSample(encoded).value| <= count
  }

  ghost predicate SketchMerged(merged: Bytes, stored: Bytes, incoming: Bytes)
    requires DecodeSketch(stored).Some? && DecodeSketch(incoming).Some?
  {
    var bins := MergeBins(DecodeSketch(stored).value, DecodeSketch(incoming).value);
    ValidBins(bins) && merged == EncodeSketch(bins)
  }

  ghost predicate SampleMerged(merged: Bytes, stored: Bytes, incoming: Bytes)
    requires DecodeSample(stored).Some? && DecodeSample(incoming).Some?
  {
    var points := Trimmed(DecodeSample(stored).value + DecodeSample(incoming).value);
    ValidSample(points) && merged == EncodeSample(points)
  }

  ghost predicate RowMerged(row: Row, stored: Row, incoming: Row)
    requires Readable(stored) && Readable(incoming)
  {
    && row.formatVersion == FORMAT_VERSION && row.sampleCount == stored.sampleCount + incoming.sampleCount
    && row.maxTTFT == Larger(stored.maxTTFT, incoming.maxTTFT)
      && row.maxLatency == Larger(stored.maxLatency, incoming.maxLatency)
    && SketchMerged(row.ttftSketch, stored.ttftSketch, incoming.ttftSketch)
    && SketchMerged(row.latencySketch, stored.latencySketch, incoming.latencySketch)
    && SampleMerged(row.samplePoints, stored.samplePoints, incoming.samplePoints)
  }

  function Larger(a: int, b: int): int {
    if a > b then a else b
  }

  ghost predicate Mergeable(stored: Row, incoming: Row) {
    && Readable(stored) && Readable(incoming) && stored.sampleCount + incoming.sampleCount <= MAX_INT64
    && Agree(DecodeSample(stored.samplePoints).value, DecodeSample(incoming.samplePoints).value)
  }

  // ----- as it runs -----

  method DecodeSketchOf(encoded: Bytes, count: nat) returns (sketch: Sketch?)
    ensures sketch != null <==> SketchCounts(encoded, count)
    ensures sketch != null ==>
      fresh(sketch) && sketch.Valid() && sketch.bins == DecodeSketch(encoded).value && sketch.count == count
  {
    hide DecodeSketch, ValidBins;
    sketch := UnmarshalSketch(encoded);
    if sketch != null && sketch.count != count {
      return null;
    }
  }

  method DecodeSampleOf(encoded: Bytes, count: nat) returns (samples: SampleSet?)
    ensures samples != null <==> SampleWithin(encoded, count)
    ensures samples != null ==> fresh(samples) && samples.Valid() && samples.points == DecodeSample(encoded).value
  {
    hide DecodeSample, ValidSample;
    samples := UnmarshalSampleSet(encoded);
    if samples != null && |samples.points| > count {
      return null;
    }
  }

  method DecodeRow(row: Row) returns (ttft: Sketch?, latency: Sketch?, samples: SampleSet?)
    ensures (ttft != null <==> Readable(row)) && (latency != null <==> Readable(row))
      && (samples != null <==> Readable(row))
    ensures Readable(row) ==>
      && fresh(ttft) && fresh(latency) && fresh(samples) && ttft != latency && ttft.Valid() && latency.Valid()
        && samples.Valid()
      && ttft.bins == DecodeSketch(row.ttftSketch).value && latency.bins == DecodeSketch(row.latencySketch).value
      && ttft.count == latency.count == row.sampleCount && samples.points == DecodeSample(row.samplePoints).value
  {
    hide DecodeSketch, DecodeSample, ValidBins, ValidSample;
    ttft, latency, samples := null, null, null;
    if row.formatVersion != FORMAT_VERSION || row.maxTTFT <= 0 || row.maxLatency <= 0 {
      return;
    }
    var t := DecodeSketchOf(row.ttftSketch, row.sampleCount);
    if t == null {
      return;
    }
    var l := DecodeSketchOf(row.latencySketch, row.sampleCount);
    if l == null {
      return;
    }
    var s := DecodeSampleOf(row.samplePoints, row.sampleCount);
    if s == null {
      return;
    }
    ttft, latency, samples := t, l, s;
  }

  /** A first row is stored as it came; another is merged into what is stored, or refused. */
  method MergeLatencyRows(existing: Option<Row>, incoming: Row) returns (r: Option<Row>)
    ensures existing.None? ==> r == if Readable(incoming) then Some(incoming) else None
    ensures existing.Some? ==> (r.Some? <==> Mergeable(existing.value, incoming))
    ensures existing.Some? && r.Some? ==> RowMerged(r.value, existing.value, incoming)
  {
    hide DecodeSketch, DecodeSample, ValidBins, ValidSample, EncodeSketch, EncodeSample, Total, MergeBins, Trimmed,
      Agree, PartlyAdded;
    var ttft, latency, samples := DecodeRow(incoming);
    if ttft == null {
      return None;
    }
    if existing.None? {
      return Some(incoming);
    }
    var stored := existing.value;
    var ttft', latency', samples' := DecodeRow(stored);
    if ttft' == null || stored.sampleCount > MAX_INT64 - incoming.sampleCount {
      return None;
    }
    var ok := ttft'.Merge(ttft);
    assert ok;
    ok := latency'.Merge(latency);
    assert ok;
    ok := samples'.Merge(samples);
    if !ok {
      return None;
    }
    var t := ttft'.MarshalBinary();
    var l := latency'.MarshalBinary();
    var s := samples'.MarshalBinary();
    r := Some(Row(FORMAT_VERSION, stored.sampleCount + incoming.sampleCount, Larger(stored.maxTTFT, incoming.maxTTFT),
                  Larger(stored.maxLatency, incoming.maxLatency), t, l, s));
  }

  // ----- rows of requests -----

  lemma {:induction false} DelaysConcat(a: seq<Request>, b: seq<Request>)
    ensures TTFTs(a + b) == TTFTs(a) + TTFTs(b) && Latencies(a + b) == Latencies(a) + Latencies(b)
  {
    if b == [] {
      assert a + b == a;
    } else {
      var n := |b| - 1;
      DelaysConcat(a, b[..n]);
      assert (a + b)[..|a + b| - 1] == a + b[..n];
    }
  }

  lemma {:induction false} OffersConcat(a: seq<Request>, b: seq<Request>)
    ensures Offered(Offers(a + b)) == Offered(Offers(a)) + Offered(Offers(b))
  {
    if b == [] {
      assert a + b == a;
    } else {
      var n := |b| - 1;
      OffersConcat(a, b[..n]);
      assert (a + b)[..|a + b| - 1] == a + b[..n];
    }
  }

  lemma {:induction false} LargestConcat(a: seq<Millis>, b: seq<Millis>)
    ensures Largest(a + b) == Larger(Largest(a), Largest(b))
  {
    if b == [] {
      assert a + b == a;
      LargestIs(a);
    } else {
      var n := |b| - 1;
      LargestConcat(a, b[..n]);
      assert (a + b)[..|a + b| - 1] == a + b[..n];
    }
  }

  /** A row is determined by its requests. */
  lemma OneRow(x: Row, y: Row, requests: seq<Request>)
    requires IsRow(x, requests) && IsRow(y, requests)
    ensures x == y
  {
  }

  lemma SketchReadable(encoded: Bytes, values: seq<Millis>)
    requires IsSketch(encoded, values)
    ensures SketchCounts(encoded, |values|) && DecodeSketch(encoded).value == BinsOf(values)
  {
    hide DecodeSketch, EncodeSketch, ValidBins, BinsOf;
    SketchRoundTrip(BinsOf(values));
    BinsOfTotal(values);
  }

  lemma {:induction false} FewOffered(requests: seq<Request>)
    ensures |Ids(Offered(Offers(requests)))| <= |requests|
  {
    if requests != [] {
      var n := |requests| - 1;
      var r := requests[n];
      FewOffered(requests[..n]);
      assert Ids(Offered(Offers(requests))) == Ids(Offered(Offers(requests[..n])))
        + {NewPoint(r.id, r.ttft, r.latency).eventID};
    }
  }

  lemma RequestsReadable(row: Row, requests: seq<Request>)
    requires IsRow(row, requests) && requests != [] && Consistent(Offered(Offers(requests)))
    ensures Readable(row) && DecodeSample(row.samplePoints) == Kept(Offers(requests))
  {
    hide IsSketch, DecodeSample, EncodeSample, Kept, Trimmed, Offered, IsBottom, HoldsOf, Consistent, Largest;
    SketchReadable(row.ttftSketch, TTFTs(requests));
    SketchReadable(row.latencySketch, Latencies(requests));
    ListLengths(requests);
    SampleRoundTrip(Kept(Offers(requests)).value);
    KeptAreBottom(Offers(requests));
    FewKept(Ids(Offered(Offers(requests))), Kept(Offers(requests)).value);
    FewOffered(requests);
    LargestPositive(TTFTs(requests));
    LargestPositive(Latencies(requests));
  }

  lemma FewKept(all: set<int>, m: Points)
    requires IsBottom(all, m.Keys)
    ensures |m| <= |all|
  {
    assert |m.Keys| == |m|;
  }

  lemma LargestPositive(values: seq<Millis>)
    requires values != []
    ensures Largest(values) > 0
  {
    LargestIs(values);
  }

  lemma SketchesMerged(merged: Bytes, x: Bytes, a: seq<Millis>, y: Bytes, b: seq<Millis>)
    requires IsSketch(x, a) && IsSketch(y, b)
    requires DecodeSketch(x).Some? && DecodeSketch(y).Some? && SketchMerged(merged, x, y)
    ensures IsSketch(merged, a + b)
  {
    hide DecodeSketch, EncodeSketch, ValidBins, BinsOf, MergeBins;
    SketchReadable(x, a);
    SketchReadable(y, b);
    MergeOfValues(a, b);
  }

  lemma SamplesMerge(a: seq<Request>, b: seq<Request>)
    requires Consistent(Offered(Offers(a + b)))
    ensures Kept(Offers(a)).Some? && Kept(Offers(b)).Some? && Agree(Kept(Offers(a)).value, Kept(Offers(b)).value)
    ensures Kept(Offers(a + b)) == Some(Trimmed(Kept(Offers(a)).value + Kept(Offers(b)).value))
    ensures Consistent(Offered(Offers(a))) && Consistent(Offered(Offers(b)))
  {
    hide Kept, Consistent, IsBottom, HoldsOf;
    OffersConcat(a, b);
    var together := LatencySample.Merged(Offers(a), Offers(b));
    assert Offered(together) == Offered(Offers(a + b));
    ConsistentWithin(Offered(Offers(a)), Offered(together));
    ConsistentWithin(Offered(Offers(b)), Offered(together));
    KeptAreBottom(together);
    HistoriesAgree(Offers(a + b), together);
    KeptMerged(Offers(a), Offers(b));
  }

  lemma KeptMerged(l: Offer, r: Offer)
    requires Kept(LatencySample.Merged(l, r)).Some?
    ensures Kept(l).Some? && Kept(r).Some? && Agree(Kept(l).value, Kept(r).value)
    ensures Kept(LatencySample.Merged(l, r)).value == Trimmed(Kept(l).value + Kept(r).value)
  {
  }

  /** Merging the rows of two lists of requests gives the row of both, byte for byte. */
  lemma MergedRowExact(stored: Row, a: seq<Request>, incoming: Row, b: seq<Request>)
    requires IsRow(stored, a) && IsRow(incoming, b) && a != [] && b != []
    requires Consistent(Offered(Offers(a + b))) && |a + b| <= MAX_INT64
    ensures Mergeable(stored, incoming)
    ensures forall row | RowMerged(row, stored, incoming) :: IsRow(row, a + b)
  {
    hide IsSketch, SketchMerged, Readable, DecodeSample, EncodeSample, ValidSample, Kept, Trimmed, Offered,
      Consistent, Largest, Agree;
    DelaysConcat(a, b);
    SamplesMerge(a, b);
    RequestsReadable(stored, a);
    RequestsReadable(incoming, b);
    LargestConcat(TTFTs(a), TTFTs(b));
    LargestConcat(Latencies(a), Latencies(b));
    assert DecodeSketch(stored.ttftSketch).Some?
      && DecodeSketch(stored.latencySketch).Some? by { ReadableParts(stored); }
    assert DecodeSketch(incoming.ttftSketch).Some?
      && DecodeSketch(incoming.latencySketch).Some? by { ReadableParts(incoming); }
    forall row | RowMerged(row, stored, incoming) ensures IsRow(row, a + b) {
      SketchesMerged(row.ttftSketch, stored.ttftSketch, TTFTs(a), incoming.ttftSketch, TTFTs(b));
      SketchesMerged(row.latencySketch, stored.latencySketch, Latencies(a), incoming.latencySketch, Latencies(b));
    }
  }

  lemma ReadableParts(row: Row)
    requires Readable(row)
    ensures DecodeSketch(row.ttftSketch).Some? && DecodeSketch(row.latencySketch).Some?
      && DecodeSample(row.samplePoints).Some?
  {
  }

  // ----- page after page -----

  function Joined(pages: seq<seq<Request>>): seq<Request> {
    if pages == [] then [] else Joined(pages[..|pages| - 1]) + pages[|pages| - 1]
  }

  /**
   Building a row per page and merging each into what is stored leaves, byte for byte, the row that one pass
   over all requests builds; no page is refused.
   */
  method StorePages(pages: seq<seq<Request>>) returns (stored: Option<Row>)
    requires forall i | 0 <= i < |pages| :: pages[i] != []
    requires Consistent(Offered(Offers(Joined(pages)))) && |Joined(pages)| <= MAX_INT64
    ensures pages != [] ==> stored.Some? && IsRow(stored.value, Joined(pages))
  {
    hide IsRow, Readable, Mergeable, RowMerged, Consistent, Offered;
    stored := None;
    for i := 0 to |pages|
      invariant i == 0 ==> stored.None?
      invariant i > 0 ==> stored.Some? && IsRow(stored.value, Joined(pages[..i])) && Joined(pages[..i]) != []
    {
      assert pages[..i + 1][..i] == pages[..i];
      PageConsistent(pages, i);
      var row := BuildRow(pages[i]);
      RequestsReadable(row.value, pages[i]);
      if i > 0 {
        MergedRowExact(stored.value, Joined(pages[..i]), row.value, pages[i]);
      } else {
        assert pages[..0] == [] && Joined(pages[..1]) == [] + pages[0] == pages[0];
      }
      stored := MergeLatencyRows(stored, row.value);
    }
    assert pages[..|pages|] == pages;
  }

  lemma {:induction false} PageConsistent(pages: seq<seq<Request>>, i: nat)
    requires i < |pages| && Consistent(Offered(Offers(Joined(pages)))) && |Joined(pages)| <= MAX_INT64
    ensures Joined(pages[..i + 1]) == Joined(pages[..i]) + pages[i]
    ensures Consistent(Offered(Offers(Joined(pages[..i + 1])))) && |Joined(pages[..i + 1])| <= MAX_INT64
    ensures Consistent(Offered(Offers(pages[i]))) && |pages[i]| <= MAX_INT64
    decreases |pages|
  {
    hide Consistent, Offered, Offers;
    var n := |pages| - 1;
    OffersConcat(Joined(pages[..n]), pages[n]);
    ConsistentWithin(Offered(Offers(Joined(pages[..n]))), Offered(Offers(Joined(pages))));
    ConsistentWithin(Offered(Offers(pages[n])), Offered(Offers(Joined(pages))));
    if i < n {
      PageConsistent(pages[..n], i);
      assert pages[..n][..i + 1] == pages[..i + 1] && pages[..n][..i] == pages[..i];
    } else {
      assert pages[..i + 1] == pages;
    }
  }
}
