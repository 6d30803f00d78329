/** One latency row: counts, maxima, two sketches and a sample kept in step, then encoded. */
module LatencyRows {
  import opened LatencySketch
  import opened SketchCodec
  import opened Sketches
  import opened LatencySample
  import opened SampleCodec
  import opened SampleSets
  import opened Varint
  import opened Wrappers

  /** A successful request with both delays. */
  datatype Request = Request(id: Int64, ttft: Millis, latency: Millis)

  datatype Row = Row(
    formatVersion: int,
    sampleCount: nat,
    maxTTFT: int,
    maxLatency: int,
    ttftSketch: Bytes,
    latencySketch: Bytes,
    samplePoints: Bytes)

  function TTFTs(requests: seq<Request>): seq<Millis> {
    if requests == [] then [] else TTFTs(requests[..|requests| - 1]) + [requests[|requests| - 1].ttft]
  }

  function Latencies(requests: seq<Request>): seq<Millis> {
    if requests == [] then [] else Latencies(requests[..|requests| - 1]) + [requests[|requests| - 1].latency]
  }

  function Offers(requests: seq<Request>): Offer {
    if requests == [] then Nothing
    else
      var r := requests[|requests| - 1];
      LatencySample.Added(Offers(requests[..|requests| - 1]), NewPoint(r.id, r.ttft, r.latency))
  }

  function Largest(values: seq<Millis>): int {
    if values == [] then 0
    else
      var before, last := Largest(values[..|values| - 1]), values[|values| - 1];
      if last > before then last else before
  }

  lemma {:induction false} LargestIs(values: seq<Millis>)
    ensures forall i | 0 <= i < |values| :: values[i] <= Largest(values)
    ensures values != [] ==> exists i :: 0 <= i < |values| && values[i] == Largest(values)
  {
    if values != [] {
      var n := |values| - 1;
      var front := values[..n];
      LargestIs(front);
      forall i | 0 <= i < |values| ensures values[i] <= Largest(values) {
        if i < n { assert front[i] <= Largest(front); }
      }
      if Largest(values) != values[n] {
        var i :| 0 <= i < |front| && front[i] == Largest(front);
        assert values[i] == Largest(values);
      }
    }
  }

  class RowBuilder {
    var sampleCount: nat
    var maxTTFT: int
    var maxLatency: int
    const ttftSketch: Sketch
    const latencySketch: Sketch
    const samplePoints: SampleSet

    ghost predicate DelaysOf(requests: seq<Request>)
      reads ttftSketch, latencySketch
    {
      && ttftSketch != latencySketch && ttftSketch.Valid() && latencySketch.Valid()
      && ttftSketch.bins == BinsOf(TTFTs(requests)) && latencySketch.bins == BinsOf(Latencies(requests))
    }

    ghost predicate PointsOf(requests: seq<Request>)
      reads samplePoints
    {
      samplePoints.Valid() && Kept(Offers(requests)) == Some(samplePoints.points)
    }

    ghost predicate CountsOf(requests: seq<Request>)
      reads this
    {
      sampleCount == |requests| && maxTTFT == Largest(TTFTs(requests)) && maxLatency == Largest(Latencies(requests))
    }

    /** Everything in the builder describes the same requests. */
    ghost predicate Describes(requests: seq<Request>)
      reads this, ttftSketch, latencySketch, samplePoints
    {
      DelaysOf(requests) && PointsOf(requests) && CountsOf(requests)
    }

    constructor ()
      ensures Describes([]) && fresh(ttftSketch) && fresh(latencySketch) && fresh(samplePoints)
    {
      sampleCount, maxTTFT, maxLatency := 0, 0, 0;
      ttftSketch := new Sketch();
      latencySketch := new Sketch();
      samplePoints := new SampleSet();
    }

    /** All three representations must accept the request; the first refusal fails the page. */
    method Add(r: Request, ghost requests: seq<Request>) returns (ok: bool)
      requires Describes(requests)
      modifies this, ttftSketch, latencySketch, samplePoints
      ensures ok ==> Describes(requests + [r])
      ensures ok <==> |requests| < MAX_COUNT && r.id > 0 && Kept(Offers(requests + [r])).Some?
    {
      hide Kept, Offers, BinsOf, ValidBins, ValidSample, TTFTs, Latencies, Largest;
      ok := AddDelays(r, requests);
      if !ok {
        return false;
      }
      ok := AddPoint(r, requests);
      if !ok {
        return false;
      }
      CountOne(r, requests);
    }

    method AddDelays(r: Request, ghost requests: seq<Request>) returns (ok: bool)
      requires DelaysOf(requests)
      modifies ttftSketch, latencySketch
      ensures ok <==> |requests| < MAX_COUNT
      ensures ok ==> DelaysOf(requests + [r])
    {
      hide BinsOf, Bumped, ValidBins, Key, TTFTs, Latencies;
      AppendedLists(requests, r);
      BinsOfTotal(TTFTs(requests));
      BinsOfTotal(Latencies(requests));
      BinsNext(TTFTs(requests), r.ttft);
      BinsNext(Latencies(requests), r.latency);
      ok := ttftSketch.Add(r.ttft);
      if !ok {
        return false;
      }
      ok := latencySketch.Add(r.latency);
    }

    method AddPoint(r: Request, ghost requests: seq<Request>) returns (ok: bool)
      requires PointsOf(requests)
      modifies samplePoints
      ensures ok <==> r.id > 0 && Kept(Offers(requests + [r])).Some?
      ensures ok ==> PointsOf(requests + [r])
    {
      hide Trimmed, ValidSample, Agree, Kept, Offers;
      AppendedLists(requests, r);
      KeptNext(Offers(requests), samplePoints.points, NewPoint(r.id, r.ttft, r.latency));
      ok := samplePoints.Add(r.id, r.ttft, r.latency);
    }

    method CountOne(r: Request, ghost requests: seq<Request>)
      requires CountsOf(requests)
      modifies this
      ensures CountsOf(requests + [r])
    {
      hide Largest, TTFTs, Latencies;
      AppendedLists(requests, r);
      sampleCount := sampleCount + 1;
      if r.ttft > maxTTFT {
        maxTTFT := r.ttft;
      }
      if r.latency > maxLatency {
        maxLatency := r.latency;
      }
    }

    method Encode() returns (row: Row)
      requires ttftSketch.Valid() && latencySketch.Valid() && samplePoints.Valid()
      ensures row.formatVersion == FORMAT_VERSION
      ensures row.sampleCount == sampleCount && row.maxTTFT == maxTTFT && row.maxLatency == maxLatency
      ensures row.ttftSketch == EncodeSketch(ttftSketch.bins) && row.latencySketch == EncodeSketch(latencySketch.bins)
      ensures row.samplePoints == EncodeSample(samplePoints.points)
    {
      hide ValidBins, ValidSample, EncodeSketch, EncodeSample;
      var t := ttftSketch.MarshalBinary();
      var l := latencySketch.MarshalBinary();
      var p := samplePoints.MarshalBinary();
      row := Row(FORMAT_VERSION, sampleCount, maxTTFT, maxLatency, t, l, p);
    }
  }

  lemma AppendedLists(requests: seq<Request>, r: Request)
    ensures TTFTs(requests + [r]) == TTFTs(requests) + [r.ttft]
      && Latencies(requests + [r]) == Latencies(requests) + [r.latency]
    ensures Offers(requests + [r]) == LatencySample.Added(Offers(requests), NewPoint(r.id, r.ttft, r.latency))
    ensures |TTFTs(requests)| == |requests| == |Latencies(requests)|
    ensures Largest(TTFTs(requests) + [r.ttft]) == (if r.ttft > Largest(TTFTs(requests)) then r.ttft
      else Largest(TTFTs(requests)))
    ensures Largest(Latencies(requests) + [r.latency]) == (if r.latency > Largest(Latencies(requests)) then r.latency
      else Largest(Latencies(requests)))
  {
    assert (requests + [r])[..|requests|] == requests;
    ListLengths(requests);
    LargestNext(TTFTs(requests), r.ttft);
    LargestNext(Latencies(requests), r.latency);
  }

  lemma KeptNext(o: Offer, m: Points, p: Point)
    requires Kept(o) == Some(m)
    ensures Kept(LatencySample.Added(o, p)) == if Agree(m, map[p.eventID := p]) then Some(Trimmed(m[p.eventID := p]))
      else None
  {
  }

  lemma LargestNext(values: seq<Millis>, v: Millis)
    ensures Largest(values + [v]) == if v > Largest(values) then v else Largest(values)
  {
    assert (values + [v])[..|values|] == values;
  }

  lemma {:induction false} ListLengths(requests: seq<Request>)
    ensures |TTFTs(requests)| == |requests| == |Latencies(requests)|
  {
    if requests != [] { ListLengths(requests[..|requests| - 1]); }
  }

  lemma {:induction false} OfferedPrefix(requests: seq<Request>, n: nat)
    requires n <= |requests|
    ensures Offered(Offers(requests[..n])) <= Offered(Offers(requests))
    decreases |requests|
  {
    if n == |requests| {
      assert requests[..n] == requests;
    } else {
      OfferedPrefix(requests[..|requests| - 1], n);
      assert requests[..|requests| - 1][..n] == requests[..n];
    }
  }

  lemma ConsistentWithin(a: set<Point>, b: set<Point>)
    requires a <= b && Consistent(b)
    ensures Consistent(a) && forall p | p in a :: p.eventID > 0
  {
  }

  lemma LastOffered(requests: seq<Request>, r: Request)
    ensures NewPoint(r.id, r.ttft, r.latency) in Offered(Offers(requests + [r]))
  {
    assert (requests + [r])[..|requests|] == requests;
  }

  /** Consistent requests are never refused. */
  lemma NotRefused(requests: seq<Request>, i: nat)
    requires i < |requests| && Consistent(Offered(Offers(requests)))
    ensures requests[i].id > 0 && Kept(Offers(requests[..i] + [requests[i]])).Some?
  {
    hide Consistent, Offered, Offers, Kept, IsBottom, HoldsOf;
    var upTo := requests[..i] + [requests[i]];
    assert upTo == requests[..i + 1];
    OfferedPrefix(requests, i + 1);
    ConsistentWithin(Offered(Offers(upTo)), Offered(Offers(requests)));
    KeptAreBottom(Offers(upTo));
    LastOffered(requests[..i], requests[i]);
  }

  /** The row of some requests, byte for byte: their number, largest delays, sketches and sample. */
  ghost predicate IsRow(row: Row, requests: seq<Request>) {
    && row.formatVersion == FORMAT_VERSION && row.sampleCount == |requests|
    && row.maxTTFT == Largest(TTFTs(requests)) && row.maxLatency == Largest(Latencies(requests))
    && IsSketch(row.ttftSketch, TTFTs(requests)) && IsSketch(row.latencySketch, Latencies(requests))
    && IsSample(row.samplePoints, Offers(requests))
  }

  ghost predicate IsSketch(encoded: Bytes, values: seq<Millis>) {
    ValidBins(BinsOf(values)) && encoded == EncodeSketch(BinsOf(values))
  }

  ghost predicate IsSample(encoded: Bytes, o: Offer) {
    Kept(o).Some? && ValidSample(Kept(o).value) && encoded == EncodeSample(Kept(o).value)
  }

  /** So a stored row decodes to the sketches of all its delays and the sample of all its points. */
  lemma RowDecodes(row: Row, requests: seq<Request>)
    requires IsRow(row, requests)
    ensures DecodeSketch(row.ttftSketch) == Some(BinsOf(TTFTs(requests)))
    ensures DecodeSketch(row.latencySketch) == Some(BinsOf(Latencies(requests)))
    ensures DecodeSample(row.samplePoints) == Kept(Offers(requests))
  {
    hide DecodeSketch, DecodeSample, EncodeSketch, EncodeSample, Kept, BinsOf, ValidBins, ValidSample;
    SketchRoundTrip(BinsOf(TTFTs(requests)));
    SketchRoundTrip(BinsOf(Latencies(requests)));
    SampleRoundTrip(Kept(Offers(requests)).value);
  }

  /** The row of any requests that are consistent and can be counted. */
  method BuildRow(requests: seq<Request>) returns (row: Option<Row>)
    ensures Consistent(Offered(Offers(requests))) && |requests| <= MAX_COUNT ==> row.Some?
    ensures row.Some? ==> IsRow(row.value, requests)
  {
    hide BinsOf, Kept, Offers, Offered, Consistent, EncodeSketch, EncodeSample, ValidBins, ValidSample;
    var builder := new RowBuilder();
    for i := 0 to |requests|
      invariant fresh(builder) && fresh(builder.ttftSketch) && fresh(builder.latencySketch)
        && fresh(builder.samplePoints)
      invariant builder.Describes(requests[..i])
    {
      assert requests[..i + 1] == requests[..i] + [requests[i]];
      var ok := builder.Add(requests[i], requests[..i]);
      if !ok {
        if Consistent(Offered(Offers(requests))) { NotRefused(requests, i); }
        return None;
      }
    }
    assert requests[..|requests|] == requests;
    var r := builder.Encode();
    row := Some(r);
  }
}
