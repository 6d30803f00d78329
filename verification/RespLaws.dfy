/** Round trip, limits, and framing of the queue client's protocol. */
module RespLaws {
  import opened Resp
  import opened Wrappers

  // ----- what is accepted stays within the limits -----

  /** How many arrays a value nests inside its own items. */
  function Depth(v: Value): nat {
    match v
    case Array(items) => ItemsDepth(items)
    case _ => 0
  }

  function ItemsDepth(items: seq<Value>): nat {
    if items == [] then 0
    else
      var first, others := 1 + Depth(items[0]), ItemsDepth(items[1..]);
      if first > others then first else others
  }

  function BulkTotal(v: Value): nat {
    match v
    case Bulk(bytes) => |bytes|
    case Array(items) => ItemsTotal(items)
    case _ => 0
  }

  function ItemsTotal(items: seq<Value>): nat {
    if items == [] then 0 else BulkTotal(items[0]) + ItemsTotal(items[1..])
  }

  predicate Modest(v: Value, maxArray: nat) {
    match v
    case Simple(text) => |text| + 2 <= MAX_LINE
    case Error(text) => |text| + 2 <= MAX_LINE
    case Bulk(bytes) => |bytes| <= MAX_BULK
    case Array(items) => |items| <= maxArray && forall i | 0 <= i < |items| :: Modest(items[i], maxArray)
    case Nil => true
  }

  lemma {:induction false} TakeWithin(s: Bytes, maxArray: nat, budget: int, depth: nat)
    requires Take(s, maxArray, budget, depth).Read? && budget >= 0
    ensures var r := Take(s, maxArray, budget, depth);
      && depth + Depth(r.value) <= MAX_DEPTH && Modest(r.value, maxArray)
      && r.budget == budget - BulkTotal(r.value) && r.budget >= 0
    decreases |s|, 0
  {
    hide Atoi, TakeBulk, TakeLine;
    BulkWithin(s[1..], maxArray, budget);
    if s[0] == STAR {
      var line := TakeLine(s[1..]);
      var count := Atoi(line.text).value;
      if count >= 0 {
        ItemsWithin(line.rest, count, maxArray, budget, depth);
      }
    }
  }

  lemma BulkWithin(s: Bytes, maxArray: nat, budget: int)
    requires budget >= 0
    ensures var r := TakeBulk(s, budget);
      r.Read? ==> Depth(r.value) == 0 && Modest(r.value, maxArray) && 0 <= r.budget == budget - BulkTotal(r.value)
  {
  }

  lemma {:induction false} ItemsWithin(s: Bytes, count: nat, maxArray: nat, budget: int, depth: nat)
    requires TakeItems(s, count, maxArray, budget, depth).ReadItems? && budget >= 0 && depth <= MAX_DEPTH
    ensures var r := TakeItems(s, count, maxArray, budget, depth);
      && |r.items| == count && depth + ItemsDepth(r.items) <= MAX_DEPTH
      && (forall i | 0 <= i < |r.items| :: Modest(r.items[i], maxArray))
      && r.budget == budget - ItemsTotal(r.items) && r.budget >= 0
    decreases |s|, 1
  {
    hide Take, Modest;
    if count > 0 {
      var first := Take(s, maxArray, budget, depth + 1);
      TakeWithin(s, maxArray, budget, depth + 1);
      ItemsWithin(first.rest, count - 1, maxArray, first.budget, depth);
      var r := TakeItems(s, count, maxArray, budget, depth);
      var tail := TakeItems(first.rest, count - 1, maxArray, first.budget, depth);
      assert r.items == [first.value] + tail.items && r.items[1..] == tail.items;
    }
  }

  /** Every accepted response: nested at most four deep, short arrays, small bulks, 16 MiB in all. */
  lemma AcceptedWithinLimits(s: Bytes, maxArray: int)
    requires Response(s, maxArray).Read?
    ensures var v := Response(s, maxArray).value;
      && Depth(v) <= MAX_DEPTH && Modest(v, MAX_ARRAY) && BulkTotal(v) <= MAX_TOTAL_BULK
      && (0 < maxArray <= MAX_ARRAY ==> Modest(v, maxArray))
  {
    var limit := if maxArray <= 0 || maxArray > MAX_ARRAY then MAX_ARRAY else maxArray;
    TakeWithin(s, limit, MAX_TOTAL_BULK, 0);
    ModestWider(Response(s, maxArray).value, limit, MAX_ARRAY);
  }

  lemma {:induction false} ModestWider(v: Value, narrow: nat, wide: nat)
    requires Modest(v, narrow) && narrow <= wide
    ensures Modest(v, wide)
  {
    if v.Array? {
      forall i | 0 <= i < |v.items| ensures Modest(v.items[i], wide) {
        ModestWider(v.items[i], narrow, wide);
      }
    }
  }

  // ----- framing -----

  lemma LineSuffix(s: Bytes)
    ensures TakeLine(s).Line? ==> |TakeLine(s).rest| < |s| && TakeLine(s).rest == s[|s| - |TakeLine(s).rest|..]
  {
  }

  lemma BulkSuffix(s: Bytes, budget: int)
    ensures var r := TakeBulk(s, budget); r.Read? ==> |r.rest| < |s| && r.rest == s[|s| - |r.rest|..]
  {
    hide TakeLine, Atoi;
    LineSuffix(s);
  }

  /** What is left is a suffix of what was there. */
  lemma {:induction false} TakeSuffix(s: Bytes, maxArray: nat, budget: int, depth: nat)
    requires Take(s, maxArray, budget, depth).Read?
    ensures var r := Take(s, maxArray, budget, depth); |r.rest| < |s| && r.rest == s[|s| - |r.rest|..]
    decreases |s|, 0
  {
    hide TakeLine, Atoi, TakeBulk;
    LineSuffix(s[1..]);
    BulkSuffix(s[1..], budget);
    if s[0] == STAR {
      var line := TakeLine(s[1..]);
      var count := Atoi(line.text).value;
      if count >= 0 {
        ItemsSuffix(line.rest, count, maxArray, budget, depth);
        SuffixOfSuffix(s, line.rest, Take(s, maxArray, budget, depth).rest);
      }
    }
  }

  lemma SuffixOfSuffix(s: Bytes, t: Bytes, u: Bytes)
    requires |u| <= |t| <= |s| && t == s[|s| - |t|..] && u == t[|t| - |u|..]
    ensures u == s[|s| - |u|..]
  {
  }

  lemma {:induction false} ItemsSuffix(s: Bytes, count: nat, maxArray: nat, budget: int, depth: nat)
    requires TakeItems(s, count, maxArray, budget, depth).ReadItems?
    ensures var r := TakeItems(s, count, maxArray, budget, depth); |r.rest| <= |s| && r.rest == s[|s| - |r.rest|..]
    decreases |s|, 1
  {
    hide Take;
    if count > 0 {
      var first := Take(s, maxArray, budget, depth + 1);
      TakeSuffix(s, maxArray, budget, depth + 1);
      ItemsSuffix(first.rest, count - 1, maxArray, first.budget, depth);
      SuffixOfSuffix(s, first.rest, TakeItems(first.rest, count - 1, maxArray, first.budget, depth).rest);
    }
  }

  lemma BulkLocal(s: Bytes, budget: int, more: Bytes)
    requires TakeBulk(s, budget).Read?
    ensures var r := TakeBulk(s, budget); TakeBulk(s + more, budget) == Read(r.value, r.rest + more, r.budget)
  {
    hide TakeLine, Atoi;
    LineLocal(s, more);
    var rest := TakeLine(s).rest;
    var size := Atoi(TakeLine(s).text).value;
    if size >= 0 {
      assert (rest + more)[size..size + 2] == rest[size..size + 2];
      assert (rest + more)[..size] == rest[..size] && (rest + more)[size + 2..] == rest[size + 2..] + more;
    }
  }

  /** A response does not depend on the bytes that follow it. */
  lemma {:induction false} TakeLocal(s: Bytes, maxArray: nat, budget: int, depth: nat, more: Bytes)
    requires Take(s, maxArray, budget, depth).Read?
    ensures var r := Take(s, maxArray, budget, depth);
      Take(s + more, maxArray, budget, depth) == Read(r.value, r.rest + more, r.budget)
    decreases |s|, 0
  {
    hide TakeLine, Atoi, TakeBulk;
    assert (s + more)[1..] == s[1..] + more;
    if s[0] == DOLLAR {
      BulkLocal(s[1..], budget, more);
    } else {
      LineLocal(s[1..], more);
      if s[0] == STAR {
        var line := TakeLine(s[1..]);
        var count := Atoi(line.text).value;
        if count >= 0 { ItemsLocal(line.rest, count, maxArray, budget, depth, more); }
      }
    }
  }

  lemma {:induction false} ItemsLocal(s: Bytes, count: nat, maxArray: nat, budget: int, depth: nat, more: Bytes)
    requires TakeItems(s, count, maxArray, budget, depth).ReadItems?
    ensures var r := TakeItems(s, count, maxArray, budget, depth);
      TakeItems(s + more, count, maxArray, budget, depth) == ReadItems(r.items, r.rest + more, r.budget)
    decreases |s|, 1
  {
    hide Take;
    if count > 0 {
      var first := Take(s, maxArray, budget, depth + 1);
      TakeLocal(s, maxArray, budget, depth + 1, more);
      ItemsLocal(first.rest, count - 1, maxArray, first.budget, depth, more);
    }
  }

  lemma BulkCut(s: Bytes, budget: int, cut: nat)
    requires TakeBulk(s, budget).Read? && cut < |s| - |TakeBulk(s, budget).rest|
    ensures TakeBulk(s[..cut], budget).Failed?
  {
    hide TakeLine, Atoi;
    var line := TakeLine(s);
    var used := |s| - |line.rest|;
    if cut < used {
      LineCut(s, cut);
    } else {
      LineKept(s, cut);
    }
  }

  lemma LineKept(s: Bytes, cut: nat)
    requires TakeLine(s).Line? && |s| - |TakeLine(s).rest| <= cut <= |s|
    ensures TakeLine(s[..cut]) == Line(TakeLine(s).text, TakeLine(s).rest[..cut - (|s| - |TakeLine(s).rest|)])
  {
    var i := LineEnd(s);
    EndAt(s[..cut], i);
    assert s[..cut][..i - 1] == s[..i - 1] && s[..cut][i + 1..] == s[i + 1..][..cut - i - 1];
  }

  /** A response cut anywhere before its end is no response: a reply is never mistaken for a shorter one. */
  lemma {:induction false} TakeCut(s: Bytes, maxArray: nat, budget: int, depth: nat, cut: nat)
    requires Take(s, maxArray, budget, depth).Read? && cut < |s| - |Take(s, maxArray, budget, depth).rest|
    ensures Take(s[..cut], maxArray, budget, depth).Failed?
    decreases |s|, 0
  {
    hide TakeLine, Atoi, TakeBulk;
    if cut > 0 {
      assert s[..cut][1..] == s[1..][..cut - 1];
      if s[0] == DOLLAR {
        BulkCut(s[1..], budget, cut - 1);
      } else {
        var line := TakeLine(s[1..]);
        var used := |s[1..]| - |line.rest|;
        if cut - 1 < used {
          LineCut(s[1..], cut - 1);
        } else if s[0] == STAR {
          LineKept(s[1..], cut - 1);
          var count := Atoi(line.text).value;
          if count >= 0 { ItemsCut(line.rest, count, maxArray, budget, depth, cut - 1 - used); }
        }
      }
    }
  }

  lemma {:induction false} ItemsCut(s: Bytes, count: nat, maxArray: nat, budget: int, depth: nat, cut: nat)
    requires TakeItems(s, count, maxArray, budget, depth).ReadItems?
    requires cut < |s| - |TakeItems(s, count, maxArray, budget, depth).rest|
    ensures TakeItems(s[..cut], count, maxArray, budget, depth).NoItems?
    decreases |s|, 1
  {
    hide Take;
    if count > 0 {
      var first := Take(s, maxArray, budget, depth + 1);
      var used := |s| - |first.rest|;
      if cut < used {
        TakeCut(s, maxArray, budget, depth + 1, cut);
      } else {
        TakeSuffix(s, maxArray, budget, depth + 1);
        TakeKept(s, maxArray, budget, depth + 1, cut);
        ItemsCut(first.rest, count - 1, maxArray, first.budget, depth, cut - used);
      }
    }
  }

  /** Cutting behind a value leaves the value. */
  lemma {:induction false} TakeKept(s: Bytes, maxArray: nat, budget: int, depth: nat, cut: nat)
    requires Take(s, maxArray, budget, depth).Read? && |s| - |Take(s, maxArray, budget, depth).rest| <= cut <= |s|
    ensures var r := Take(s, maxArray, budget, depth);
      Take(s[..cut], maxArray, budget, depth) == Read(r.value, r.rest[..cut - (|s| - |r.rest|)], r.budget)
    decreases |s|, 0
  {
    hide TakeLine, Atoi, TakeBulk;
    assert s[..cut][1..] == s[1..][..cut - 1];
    LineKeptIf(s[1..], cut - 1);
    if s[0] == DOLLAR {
      BulkKept(s[1..], budget, cut - 1);
    } else if s[0] == STAR {
      var line := TakeLine(s[1..]);
      var count := Atoi(line.text).value;
      if count >= 0 {
        ItemsSuffix(line.rest, count, maxArray, budget, depth);
        ItemsKept(line.rest, count, maxArray, budget, depth, cut - 1 - (|s[1..]| - |line.rest|));
      }
    }
  }

  lemma LineKeptIf(s: Bytes, cut: nat)
    requires cut <= |s|
    ensures TakeLine(s).Line? && |s| - |TakeLine(s).rest| <= cut ==>
      TakeLine(s[..cut]) == Line(TakeLine(s).text, TakeLine(s).rest[..cut - (|s| - |TakeLine(s).rest|)])
  {
    if TakeLine(s).Line? && |s| - |TakeLine(s).rest| <= cut { LineKept(s, cut); }
  }

  lemma BulkKept(s: Bytes, budget: int, cut: nat)
    requires TakeBulk(s, budget).Read? && |s| - |TakeBulk(s, budget).rest| <= cut <= |s|
    ensures var r := TakeBulk(s, budget);
      TakeBulk(s[..cut], budget) == Read(r.value, r.rest[..cut - (|s| - |r.rest|)], r.budget)
  {
    hide TakeLine, Atoi;
    LineKept(s, cut);
    var rest, short := TakeLine(s).rest, TakeLine(s[..cut]).rest;
    var size := Atoi(TakeLine(s).text).value;
    if size >= 0 {
      assert short[size..size + 2] == rest[size..size + 2] && short[..size] == rest[..size];
      assert short[size + 2..] == rest[size + 2..][..|short| - size - 2];
    }
  }

  lemma {:induction false} ItemsKept(s: Bytes, count: nat, maxArray: nat, budget: int, depth: nat, cut: nat)
    requires TakeItems(s, count, maxArray, budget, depth).ReadItems?
    requires |s| - |TakeItems(s, count, maxArray, budget, depth).rest| <= cut <= |s|
    ensures var r := TakeItems(s, count, maxArray, budget, depth);
      TakeItems(s[..cut], count, maxArray, budget, depth)
        == ReadItems(r.items, r.rest[..cut - (|s| - |r.rest|)], r.budget)
    decreases |s|, 1
  {
    hide Take;
    if count > 0 {
      var first := Take(s, maxArray, budget, depth + 1);
      ItemsSuffix(first.rest, count - 1, maxArray, first.budget, depth);
      TakeKept(s, maxArray, budget, depth + 1, cut);
      ItemsKept(first.rest, count - 1, maxArray, first.budget, depth, cut - (|s| - |first.rest|));
    }
  }

  // ----- round trip -----

  function PartsTotal(parts: seq<Bytes>): nat {
    if parts == [] then 0 else |parts[0]| + PartsTotal(parts[1..])
  }

  predicate PartsFit(parts: seq<Bytes>, budget: int) {
    PartsTotal(parts) <= budget && forall i | 0 <= i < |parts| :: |parts[i]| <= MAX_BULK
  }

  function BulkValues(parts: seq<Bytes>): seq<Value> {
    if parts == [] then [] else [Bulk(parts[0])] + BulkValues(parts[1..])
  }

  lemma NoFeedInDigits(s: Bytes)
    requires AllDigits(s)
    ensures LF !in s
  {
  }

  /** A size line is read back as the size, if it is one a reader could hold. */
  lemma SizeBack(n: nat, body: Bytes)
    ensures n <= MAX_BULK ==> TakeLine(Itoa(n) + CRLF + body) == Line(Itoa(n), body)
    ensures TakeLine(Itoa(n) + CRLF + body).Line? ==>
      TakeLine(Itoa(n) + CRLF + body) == Line(Itoa(n), body) && (Atoi(Itoa(n)).Some? ==> Atoi(Itoa(n)).value == n)
    ensures n <= MAX_INT64 ==> Atoi(Itoa(n)) == Some(n)
  {
    hide Itoa, Atoi, TakeLine;
    ItoaDigits(n);
    NoFeedInDigits(Itoa(n));
    AtoiItoa(n);
    LineBack(Itoa(n), body);
    if n <= MAX_BULK { SizeLineShort(n); }
  }

  lemma BodySlices(part: Bytes, after: Bytes)
    ensures var body := part + CRLF + after;
      |body| >= |part| + 2 && body[|part|..|part| + 2] == CRLF && body[..|part|] == part && body[|part| + 2..] == after
  {
  }

  /** One bulk string, read back behind its prefix byte. */
  lemma BulkBack(part: Bytes, after: Bytes, budget: int)
    ensures TakeBulk(Itoa(|part|) + CRLF + (part + CRLF + after), budget)
         == if |part| <= MAX_BULK && |part| <= budget then Read(Bulk(part), after, budget - |part|) else Failed
  {
    hide Itoa, Atoi, TakeLine;
    SizeBack(|part|, part + CRLF + after);
    BodySlices(part, after);
  }

  lemma FirstBulk(parts: seq<Bytes>, suffix: Bytes)
    requires parts != []
    ensures var all := AllBulks(parts) + suffix;
      all != [] && all[0] == DOLLAR && all[1..] == Itoa(|parts[0]|) + CRLF
        + (parts[0] + CRLF + (AllBulks(parts[1..]) + suffix))
  {
    hide Itoa;
    var size := Itoa(|parts[0]|);
    assert AllBulks(parts) + suffix == [DOLLAR] + (size + CRLF + (parts[0] + CRLF + (AllBulks(parts[1..]) + suffix)));
  }

  lemma {:induction false} ItemsBack(parts: seq<Bytes>, suffix: Bytes, maxArray: nat, budget: int)
    requires budget >= 0
    ensures TakeItems(AllBulks(parts) + suffix, |parts|, maxArray, budget, 0)
         == if PartsFit(parts, budget) then ReadItems(BulkValues(parts), suffix, budget - PartsTotal(parts))
           else NoItems
    decreases |parts|
  {
    hide TakeBulk, Itoa, AllBulks;
    if parts == [] {
      NoBulks(suffix);
    } else {
      FirstBulk(parts, suffix);
      BulkBack(parts[0], AllBulks(parts[1..]) + suffix, budget);
      if |parts[0]| <= budget {
        ItemsBack(parts[1..], suffix, maxArray, budget - |parts[0]|);
      }
      assert forall i | 0 <= i < |parts[1..]| :: parts[1..][i] == parts[i + 1];
    }
  }

  lemma NoBulks(suffix: Bytes)
    ensures AllBulks([]) + suffix == suffix
  {
  }

  lemma CommandStart(parts: seq<Bytes>, suffix: Bytes)
    ensures var all := CommandBytes(parts) + suffix;
      all != [] && all[0] == STAR && all[1..] == Itoa(|parts|) + CRLF + (AllBulks(parts) + suffix)
  {
    hide Itoa, AllBulks;
    assert CommandBytes(parts) + suffix == [STAR] + (Itoa(|parts|) + CRLF + (AllBulks(parts) + suffix));
  }

  lemma CommandTaken(parts: seq<Bytes>, suffix: Bytes, all: Bytes, maxArray: nat, budget: int)
    requires all == CommandBytes(parts) + suffix && maxArray <= MAX_BULK && budget >= 0
    ensures Take(all, maxArray, budget, 0)
         == if |parts| <= maxArray && PartsFit(parts, budget)
            then Read(Array(BulkValues(parts)), suffix, budget - PartsTotal(parts))
            else Failed
  {
    hide Itoa, Atoi, TakeLine, TakeItems, CommandBytes, AllBulks, TakeBulk, PartsFit, BulkValues, PartsTotal;
    CommandStart(parts, suffix);
    var body := AllBulks(parts) + suffix;
    var line := Itoa(|parts|) + CRLF + body;
    assert all[1..] == line;
    SizeBack(|parts|, body);
    ItemsBack(parts, suffix, maxArray, budget);
    assert Take(all, maxArray, budget, 0) == TakeArray(line, maxArray, budget, 0);
    if |parts| <= maxArray {
      assert TakeLine(line) == Line(Itoa(|parts|), body) && Atoi(Itoa(|parts|)) == Some(|parts|);
    }
  }

  /**
   Reading what the writer wrote returns the parts and leaves exactly what followed, if and only if the
   parts are within the reader's own limits.
   */
  lemma CommandRoundTrip(parts: seq<Bytes>, suffix: Bytes)
    ensures Response(CommandBytes(parts) + suffix, MAX_ARRAY)
         == if |parts| <= MAX_ARRAY && PartsFit(parts, MAX_TOTAL_BULK)
            then Read(Array(BulkValues(parts)), suffix, MAX_TOTAL_BULK - PartsTotal(parts))
            else Failed
  {
    hide CommandBytes, Take, PartsFit, BulkValues, PartsTotal;
    CommandTaken(parts, suffix, CommandBytes(parts) + suffix, MAX_ARRAY, MAX_TOTAL_BULK);
  }

  lemma {:induction false} StringsBack(parts: seq<Bytes>)
    ensures Strings(Array(BulkValues(parts))) == parts
  {
    if parts != [] {
      StringsBack(parts[1..]);
      assert BulkValues(parts)[1..] == BulkValues(parts[1..]);
      assert parts == [parts[0]] + parts[1..];
    }
  }
}
