/**
 Replies written as the protocol lays them out (Redis serialization protocol specification, RESP2): whatever
 the reply, the reader gets back that value and no other, and leaves what follows.
 */
module RespReplies {
  import opened Resp
  import opened RespLaws
  import opened Wrappers

  // ----- the wire format -----

  /** A decimal number in ASCII. */
  function Decimal(n: nat): Bytes {
    if n < 10 then [48 + n] else Decimal(n / 10) + [48 + n % 10]
  }

  /** `+text`, `-text`, `$size` with its bytes, `*count` with its items, and `$-1` for nothing. */
  function Printed(v: Value): Bytes {
    match v
    case Simple(text) => [43] + text + [13, 10]
    case Error(text) => [45] + text + [13, 10]
    case Bulk(bytes) => [36] + Decimal(|bytes|) + [13, 10] + bytes + [13, 10]
    case Array(items) => [42] + Decimal(|items|) + [13, 10] + AllPrinted(items)
    case Nil => [36, 45, 49, 13, 10]
  }

  function AllPrinted(items: seq<Value>): Bytes {
    if items == [] then [] else Printed(items[0]) + AllPrinted(items[1..])
  }

  /** Simple strings and errors are single lines. */
  predicate SingleLines(v: Value) {
    match v
    case Simple(text) => 10 !in text
    case Error(text) => 10 !in text
    case Array(items) => forall i | 0 <= i < |items| :: SingleLines(items[i])
    case _ => true
  }

  /** At most four levels below the outermost, 4096 bytes a line, 4 MiB a bulk, and so many items an array. */
  predicate WithinSizes(v: Value, maxArray: nat, depth: nat) {
    && depth <= 4
    && match v
       case Simple(text) => |text| + 2 <= 4096
       case Error(text) => |text| + 2 <= 4096
       case Bulk(bytes) => |bytes| <= 4194304
       case Array(items) =>
         |items| <= maxArray && forall i | 0 <= i < |items| :: WithinSizes(items[i], maxArray, depth + 1)
       case Nil => true
  }

  function BulkBytesIn(v: Value): nat {
    match v
    case Bulk(bytes) => |bytes|
    case Array(items) => BulkBytesInAll(items)
    case _ => 0
  }

  function BulkBytesInAll(items: seq<Value>): nat {
    if items == [] then 0 else BulkBytesIn(items[0]) + BulkBytesInAll(items[1..])
  }

  // ----- reading it back -----

  lemma {:induction false} DecimalIs(n: nat)
    ensures Decimal(n) == Itoa(n)
  {
    if n >= 10 { DecimalIs(n / 10); }
  }

  lemma PrintedStarts(v: Value, suffix: Bytes)
    ensures var all := Printed(v) + suffix;
      match v
      case Simple(text) => all != [] && all[0] == PLUS && all[1..] == text + CRLF + suffix
      case Error(text) => all != [] && all[0] == MINUS && all[1..] == text + CRLF + suffix
      case Bulk(bytes) => all != [] && all[0] == DOLLAR
                          && all[1..] == Itoa(|bytes|) + CRLF + (bytes + CRLF + suffix)
      case Array(items) => all != [] && all[0] == STAR
                           && all[1..] == Itoa(|items|) + CRLF + (AllPrinted(items) + suffix)
      case Nil => all != [] && all[0] == DOLLAR && all[1..] == [45, 49] + CRLF + suffix
  {
    hide Decimal, Itoa, AllPrinted;
    match v
    case Simple(text) => assert Printed(v) + suffix == [43] + (text + CRLF + suffix);
    case Error(text) => assert Printed(v) + suffix == [45] + (text + CRLF + suffix);
    case Bulk(bytes) =>
      DecimalIs(|bytes|);
      assert Printed(v) + suffix == [36] + (Itoa(|bytes|) + CRLF + (bytes + CRLF + suffix));
    case Array(items) =>
      DecimalIs(|items|);
      assert Printed(v) + suffix == [42] + (Itoa(|items|) + CRLF + (AllPrinted(items) + suffix));
    case Nil => assert Printed(v) + suffix == [36] + ([45, 49] + CRLF + suffix);
  }

  lemma MinusOne()
    ensures Atoi([45, 49]) == Some(-1)
  {
    assert [45, 49][1..] == [49] && [49][..0] == [];
    assert AllDigits([49]) && DigitsValue([49]) == 1;
  }

  lemma NilBack(suffix: Bytes, budget: int)
    ensures TakeLine([45, 49] + CRLF + suffix) == Line([45, 49], suffix)
    ensures TakeBulk([45, 49] + CRLF + suffix, budget) == Read(Nil, suffix, budget)
  {
    hide Atoi, TakeLine;
    LineBack([45, 49], suffix);
    MinusOne();
  }

  /** Nothing may also come as an array of size minus one. */
  lemma NilArrayBack(suffix: Bytes, maxArray: nat, budget: int, depth: nat)
    requires depth <= 4
    ensures Take([42, 45, 49, 13, 10] + suffix, maxArray, budget, depth) == Read(Nil, suffix, budget)
  {
    hide Atoi, TakeLine;
    NilBack(suffix, budget);
    MinusOne();
    assert ([42, 45, 49, 13, 10] + suffix)[1..] == [45, 49] + CRLF + suffix;
  }

  /** Any reply comes back as it is, if and only if it is within the limits; else it is refused. */
  lemma {:induction false} PrintedBack(v: Value, suffix: Bytes, maxArray: nat, budget: int, depth: nat)
    requires SingleLines(v) && maxArray <= 4194304 && budget >= 0
    ensures Take(Printed(v) + suffix, maxArray, budget, depth)
         == if WithinSizes(v, maxArray, depth) && BulkBytesIn(v) <= budget
            then Read(v, suffix, budget - BulkBytesIn(v)) else Failed
    decreases v, 0
  {
    hide Itoa, Atoi, TakeLine, TakeBulk, TakeItems, Printed, AllPrinted;
    var all := Printed(v) + suffix;
    PrintedStarts(v, suffix);
    match v
    case Simple(text) => LineBack(text, suffix);
    case Error(text) => LineBack(text, suffix);
    case Bulk(bytes) => BulkBack(bytes, suffix, budget);
    case Nil => NilBack(suffix, budget);
    case Array(items) =>
      var body := AllPrinted(items) + suffix;
      SizeBack(|items|, body);
      if depth <= 4 {
        assert Take(all, maxArray, budget, depth) == TakeArray(all[1..], maxArray, budget, depth);
        if |items| <= maxArray { AllBack(items, v, suffix, maxArray, budget, depth); }
      }
  }

  lemma {:induction false} AllBack(items: seq<Value>, whole: Value, suffix: Bytes, maxArray: nat, budget: int,
      depth: nat)
    requires forall i | 0 <= i < |items| :: items[i] < whole && SingleLines(items[i])
    requires maxArray <= 4194304 && budget >= 0
    ensures TakeItems(AllPrinted(items) + suffix, |items|, maxArray, budget, depth)
         == if (forall i | 0 <= i < |items| :: WithinSizes(items[i], maxArray, depth + 1))
               && BulkBytesInAll(items) <= budget
            then ReadItems(items, suffix, budget - BulkBytesInAll(items)) else NoItems
    decreases whole, 0, |items|
  {
    hide Take, Printed, SingleLines, WithinSizes;
    if items == [] {
      assert AllPrinted(items) + suffix == suffix;
    } else {
      var first, rest := items[0], items[1..];
      var behind := AllPrinted(rest) + suffix;
      assert AllPrinted(items) + suffix == Printed(first) + behind;
      PrintedBack(first, behind, maxArray, budget, depth + 1);
      assert forall i | 0 <= i < |rest| :: rest[i] == items[i + 1];
      if WithinSizes(first, maxArray, depth + 1) && BulkBytesIn(first) <= budget {
        AllBack(rest, whole, suffix, maxArray, budget - BulkBytesIn(first), depth);
        assert items == [first] + rest;
      }
    }
  }

  /** The client's own limits: an array limit of its choice up to ten thousand, and 16 MiB of bulks in all. */
  lemma ReplyRoundTrip(v: Value, suffix: Bytes, maxArray: int)
    requires SingleLines(v)
    ensures var limit := if 0 < maxArray <= 10000 then maxArray else 10000;
      Response(Printed(v) + suffix, maxArray)
      == if WithinSizes(v, limit, 0) && BulkBytesIn(v) <= 16777216
         then Read(v, suffix, 16777216 - BulkBytesIn(v)) else Failed
  {
    hide Take, Printed, WithinSizes;
    PrintedBack(v, suffix, if 0 < maxArray <= 10000 then maxArray else 10000, 16777216, 0);
  }

  /** A command is an array of bulk strings, byte for byte. */
  lemma CommandIsArray(parts: seq<Bytes>)
    ensures CommandBytes(parts) == Printed(Array(BulkValues(parts)))
  {
    hide Decimal, Itoa;
    DecimalIs(|parts|);
    BulksPrinted(parts);
  }

  lemma {:induction false} BulksPrinted(parts: seq<Bytes>)
    ensures AllBulks(parts) == AllPrinted(BulkValues(parts)) && |BulkValues(parts)| == |parts|
  {
    hide Decimal, Itoa;
    if parts != [] {
      DecimalIs(|parts[0]|);
      BulksPrinted(parts[1..]);
      assert BulkValues(parts)[1..] == BulkValues(parts[1..]);
    }
  }

  /** What the client hands on: the bulk itself, or an array's own bulks; nothing of anything else. */
  lemma StringsOf(v: Value)
    ensures v.Bulk? ==> Strings(v) == [v.bytes]
    ensures v.Simple? || v.Error? || v.Nil? || v == Array([]) ==> Strings(v) == []
    ensures Strings(Array([v])) == if v.Bulk? then [v.bytes] else []
  {
    assert [v][1..] == [] && BulksOf([]) == [];
    assert BulksOf([v]) == (if v.Bulk? then [v.bytes] else []) + BulksOf([v][1..]);
  }

  /** In the order they came. */
  lemma {:induction false} StringsInOrder(a: seq<Value>, b: seq<Value>)
    ensures Strings(Array(a + b)) == Strings(Array(a)) + Strings(Array(b))
  {
    if a == [] {
      assert a + b == b;
    } else {
      StringsInOrder(a[1..], b);
      assert (a + b)[1..] == a[1..] + b;
    }
  }

  // ----- only replies are read -----

  /** A line behind its prefix byte. */
  predicate LineOf(f: Bytes, prefix: Byte, text: Bytes) {
    f == [prefix] + text + [13, 10] && 10 !in text
  }

  /** A size in any decimal spelling that the client parses, behind its prefix byte. */
  ghost predicate SizeOf(f: Bytes, prefix: Byte, size: int) {
    exists text :: LineOf(f, prefix, text) && Atoi(text) == Some(size)
  }

  /** The bytes are a reply of this value, but for the spelling of sizes. */
  ghost predicate Spells(f: Bytes, v: Value)
    decreases v, 0
  {
    match v
    case Simple(text) => LineOf(f, 43, text)
    case Error(text) => LineOf(f, 45, text)
    case Bulk(bytes) => exists k | 0 <= k <= |f| :: SizeOf(f[..k], 36, |bytes|) && f[k..] == bytes + [13, 10]
    case Array(items) => exists k | 0 <= k <= |f| :: SizeOf(f[..k], 42, |items|) && SpellAll(f[k..], items, v)
    case Nil => exists size | size < 0 :: SizeOf(f, 36, size) || SizeOf(f, 42, size)
  }

  ghost predicate SpellAll(f: Bytes, items: seq<Value>, whole: Value)
    requires forall i | 0 <= i < |items| :: items[i] < whole
    decreases whole, 0, |items|
  {
    if items == [] then f == []
    else exists k | 0 <= k <= |f| :: Spells(f[..k], items[0]) && SpellAll(f[k..], items[1..], whole)
  }

  /** What a read consumed. */
  function Consumed(s: Bytes, rest: Bytes): Bytes
    requires |rest| <= |s|
  {
    s[..|s| - |rest|]
  }

  lemma LineConsumed(s: Bytes, prefix: Byte)
    requires s != [] && s[0] == prefix && TakeLine(s[1..]).Line?
    ensures var line := TakeLine(s[1..]); LineOf(Consumed(s, line.rest), prefix, line.text)
  {
    var i := LineEnd(s[1..]);
    var line := TakeLine(s[1..]);
    assert s[1..][i - 1] == 13 && s[1..][i] == 10;
    assert Consumed(s, line.rest) == s[..i + 2];
    assert s[..i + 2] == [prefix] + s[1..][..i - 1] + [13, 10];
  }

  lemma SizeConsumed(s: Bytes, prefix: Byte)
    requires s != [] && s[0] == prefix && TakeLine(s[1..]).Line? && Atoi(TakeLine(s[1..]).text).Some?
    ensures var line := TakeLine(s[1..]); SizeOf(Consumed(s, line.rest), prefix, Atoi(line.text).value)
  {
    hide TakeLine, Atoi;
    LineConsumed(s, prefix);
  }

  lemma BulkConsumed(s: Bytes, budget: int)
    requires s != [] && s[0] == 36 && TakeBulk(s[1..], budget).Read?
    ensures var r := TakeBulk(s[1..], budget); Spells(Consumed(s, r.rest), r.value)
  {
    hide TakeLine, Atoi, SizeOf;
    SizeConsumed(s, 36);
    var line, r := TakeLine(s[1..]), TakeBulk(s[1..], budget);
    LineSuffix(s[1..]);
    var size := Atoi(line.text).value;
    var k := |s| - |line.rest|;
    if size >= 0 {
      var f := Consumed(s, r.rest);
      assert s[k..] == line.rest;
      assert f[..k] == Consumed(s, line.rest) && f[k..] == line.rest[..size + 2];
      assert line.rest[..size + 2] == line.rest[..size] + line.rest[size..size + 2];
      assert SizeOf(f[..k], 36, |r.value.bytes|);
    }
  }

  /** Whatever is read, a reply of that very value stood there: nothing else is taken for one. */
  lemma {:induction false} ReadIsSpelled(s: Bytes, maxArray: nat, budget: int, depth: nat)
    requires Take(s, maxArray, budget, depth).Read?
    ensures var r := Take(s, maxArray, budget, depth);
      s == Consumed(s, r.rest) + r.rest && Spells(Consumed(s, r.rest), r.value)
    decreases |s|, 0
  {
    hide TakeLine, Atoi, SizeOf, TakeItems;
    var r := Take(s, maxArray, budget, depth);
    TakeSuffix(s, maxArray, budget, depth);
    if s[0] == 43 || s[0] == 45 {
      LineConsumed(s, s[0]);
    } else if s[0] == 36 {
      BulkConsumed(s, budget);
    } else {
      ArrayIsSpelled(s, maxArray, budget, depth);
    }
  }

  lemma {:induction false} ArrayIsSpelled(s: Bytes, maxArray: nat, budget: int, depth: nat)
    requires s != [] && s[0] == 42 && TakeArray(s[1..], maxArray, budget, depth).Read?
    ensures var r := TakeArray(s[1..], maxArray, budget, depth); Spells(Consumed(s, r.rest), r.value)
    decreases |s| - 1, 2
  {
    hide TakeLine, Atoi, SizeOf, TakeItems;
    SizeConsumed(s, 42);
    var line, r := TakeLine(s[1..]), TakeArray(s[1..], maxArray, budget, depth);
    LineSuffix(s[1..]);
    var count := Atoi(line.text).value;
    if count >= 0 {
      var k, f := |s| - |line.rest|, Consumed(s, r.rest);
      ItemsAreSpelled(line.rest, count, maxArray, budget, depth, r.value);
      assert s[k..] == line.rest;
      assert f[..k] == Consumed(s, line.rest) && f[k..] == Consumed(line.rest, r.rest);
      assert SizeOf(f[..k], 42, |r.value.items|);
    }
  }

  lemma {:induction false} ItemsAreSpelled(s: Bytes, count: nat, maxArray: nat, budget: int, depth: nat, whole: Value)
    requires TakeItems(s, count, maxArray, budget, depth).ReadItems?
    requires var items := TakeItems(s, count, maxArray, budget, depth).items;
      forall i | 0 <= i < |items| :: items[i] < whole
    ensures var r := TakeItems(s, count, maxArray, budget, depth);
      |r.items| == count && SpellAll(Consumed(s, r.rest), r.items, whole)
    decreases |s|, 1, count
  {
    hide Take, Spells;
    var r := TakeItems(s, count, maxArray, budget, depth);
    if count > 0 {
      var first := Take(s, maxArray, budget, depth + 1);
      var rest := TakeItems(first.rest, count - 1, maxArray, first.budget, depth).items;
      assert r.items == [first.value] + rest;
      forall i | 0 <= i < |rest| ensures rest[i] < whole { assert rest[i] == r.items[i + 1]; }
      ReadIsSpelled(s, maxArray, budget, depth + 1);
      ItemsAreSpelled(first.rest, count - 1, maxArray, first.budget, depth, whole);
      var k, f := |s| - |first.rest|, Consumed(s, r.rest);
      assert s[k..] == first.rest;
      assert f[..k] == Consumed(s, first.rest) && f[k..] == Consumed(first.rest, r.rest);
      assert r.items[0] == first.value && r.items[1..] == rest;
    }
  }
}
