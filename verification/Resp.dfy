/**
 The RESP2 writer and reader of the queue client: what it sends, and what it accepts under its limits.
 (Redis serialization protocol specification, RESP2, sections "Bulk strings" and "Arrays".)
 A connection is the bytes still to come; reading past them fails.
 */
module Resp {
  import opened Wrappers

  const MAX_BULK: int := 4 * 1024 * 1024
  const MAX_ARRAY: int := 10000
  const MAX_TOTAL_BULK: int := 16 * 1024 * 1024
  const MAX_LINE: int := 4096
  const MAX_DEPTH: int := 4

  const CR: Byte := 13
  const LF: Byte := 10
  const PLUS: Byte := 43
  const MINUS: Byte := 45
  const DOLLAR: Byte := 36
  const STAR: Byte := 42
  const CRLF: Bytes := [13, 10]

  datatype Value = Simple(text: Bytes) | Error(text: Bytes) | Bulk(bytes: Bytes) | Array(items: seq<Value>) | Nil

  // ----- decimal numbers -----

  function Itoa(n: nat): Bytes {
    if n < 10 then [48 + n] else Itoa(n / 10) + [48 + n % 10]
  }

  predicate IsDigit(b: Byte) {
    48 <= b <= 57
  }

  predicate AllDigits(s: Bytes) {
    forall i | 0 <= i < |s| :: IsDigit(s[i])
  }

  function DigitsValue(s: Bytes): nat
    requires AllDigits(s)
  {
    if s == [] then 0 else 10 * DigitsValue(s[..|s| - 1]) + (s[|s| - 1] - 48)
  }

  /** Go's strconv.Atoi: an optional sign, digits, and the 64-bit range. */
  function Atoi(s: Bytes): Option<int> {
    var signed := s != [] && (s[0] == PLUS || s[0] == MINUS);
    var digits := if signed then s[1..] else s;
    if digits == [] || !AllDigits(digits) then None
    else
      var n: int := if signed && s[0] == MINUS then 0 - DigitsValue(digits) else DigitsValue(digits);
      if -MAX_INT64 - 1 <= n <= MAX_INT64 then Some(n) else None
  }

  lemma {:induction false} ItoaDigits(n: nat)
    ensures Itoa(n) != [] && AllDigits(Itoa(n)) && DigitsValue(Itoa(n)) == n
  {
    if n >= 10 {
      ItoaDigits(n / 10);
      assert Itoa(n)[..|Itoa(n)| - 1] == Itoa(n / 10);
    }
  }

  lemma AtoiItoa(n: nat)
    ensures Atoi(Itoa(n)) == if n <= MAX_INT64 then Some(n) else None
  {
    ItoaDigits(n);
    assert IsDigit(Itoa(n)[0]);
  }

  function Power10(k: nat): nat {
    if k == 0 then 1 else 10 * Power10(k - 1)
  }

  lemma {:induction false} ItoaLength(n: nat, k: nat)
    requires n < Power10(k) && k >= 1
    ensures |Itoa(n)| <= k
  {
    if n >= 10 { ItoaLength(n / 10, k - 1); }
  }

  lemma SizeLineShort(n: nat)
    requires n <= MAX_BULK
    ensures |Itoa(n)| + 2 <= MAX_LINE
  {
    ItoaLength(n, 7);
  }

  // ----- lines -----

  /** The position of the first line feed. */
  function LineEnd(s: Bytes): (i: nat)
    ensures i <= |s| && (i < |s| ==> s[i] == LF)
    ensures forall k | 0 <= k < i :: s[k] != LF
  {
    if s == [] then 0 else if s[0] == LF then 0 else LineEnd(s[1..]) + 1
  }

  datatype Line = Line(text: Bytes, rest: Bytes) | NoLine

  /** A line of at most 4096 bytes, its ending included, which must be CR LF. */
  function TakeLine(s: Bytes): (r: Line)
    ensures r.Line? ==> |r.rest| < |s| && |r.text| + 2 <= MAX_LINE
  {
    var i := LineEnd(s);
    if i == |s| || i + 1 > MAX_LINE || i == 0 || s[i - 1] != CR then NoLine
    else Line(s[..i - 1], s[i + 1..])
  }

  /** A text without line feeds, ended by CR LF, is read back and leaves what follows. */
  lemma LineBack(text: Bytes, rest: Bytes)
    requires LF !in text
    ensures TakeLine(text + CRLF + rest) == if |text| + 2 <= MAX_LINE then Line(text, rest) else NoLine
  {
    var s := text + CRLF + rest;
    EndAt(s, |text| + 1);
    assert s[..|text|] == text && s[|text| + 2..] == rest;
  }

  lemma {:induction false} EndAt(s: Bytes, i: nat)
    requires i < |s| && s[i] == LF && forall k | 0 <= k < i :: s[k] != LF
    ensures LineEnd(s) == i
  {
    var j := LineEnd(s);
  }

  lemma LineLocal(s: Bytes, more: Bytes)
    requires TakeLine(s).Line?
    ensures TakeLine(s + more) == Line(TakeLine(s).text, TakeLine(s).rest + more)
  {
    var i := LineEnd(s);
    EndAt(s + more, i);
    assert (s + more)[..i - 1] == s[..i - 1] && (s + more)[i + 1..] == s[i + 1..] + more;
  }

  lemma LineCut(s: Bytes, cut: nat)
    requires TakeLine(s).Line? && cut < |s| - |TakeLine(s).rest|
    ensures TakeLine(s[..cut]).NoLine?
  {
    var i := LineEnd(s);
    var j := LineEnd(s[..cut]);
  }

  // ----- writing -----

  function BulkBytes(part: Bytes): Bytes {
    [DOLLAR] + Itoa(|part|) + CRLF + part + CRLF
  }

  function AllBulks(parts: seq<Bytes>): Bytes {
    if parts == [] then [] else BulkBytes(parts[0]) + AllBulks(parts[1..])
  }

  /** What a command looks like on the wire: an array of bulk strings. */
  function CommandBytes(parts: seq<Bytes>): Bytes {
    [STAR] + Itoa(|parts|) + CRLF + AllBulks(parts)
  }

  // ----- reading -----

  datatype Outcome = Read(value: Value, rest: Bytes, budget: int) | Failed
  datatype Items = ReadItems(items: seq<Value>, rest: Bytes, budget: int) | NoItems

  function TakeBulk(s: Bytes, budget: int): (r: Outcome)
    ensures r.Read? ==> |r.rest| < |s|
  {
    match TakeLine(s)
    case NoLine => Failed
    case Line(text, rest) =>
      match Atoi(text)
      case None => Failed
      case Some(size) =>
        if size < 0 then Read(Nil, rest, budget)
        else if size > MAX_BULK || size > budget then Failed
        else if |rest| < size + 2 || rest[size..size + 2] != CRLF then Failed
        else Read(Bulk(rest[..size]), rest[size + 2..], budget - size)
  }

  function Take(s: Bytes, maxArray: nat, budget: int, depth: nat): (r: Outcome)
    ensures r.Read? ==> |r.rest| < |s|
    decreases |s|, 0
  {
    if depth > MAX_DEPTH || s == [] then Failed
    else if s[0] == PLUS then
      match TakeLine(s[1..])
      case Line(text, rest) => Read(Simple(text), rest, budget)
      case NoLine => Failed
    else if s[0] == MINUS then
      match TakeLine(s[1..])
      case Line(text, rest) => Read(Error(text), rest, budget)
      case NoLine => Failed
    else if s[0] == DOLLAR then TakeBulk(s[1..], budget)
    else if s[0] == STAR then TakeArray(s[1..], maxArray, budget, depth)
    else Failed
  }

  function TakeArray(s: Bytes, maxArray: nat, budget: int, depth: nat): (r: Outcome)
    ensures r.Read? ==> |r.rest| < |s|
    decreases |s|, 2
  {
    match TakeLine(s)
    case NoLine => Failed
    case Line(text, rest) =>
      match Atoi(text)
      case None => Failed
      case Some(count) =>
        if count < 0 then Read(Nil, rest, budget)
        else if count > maxArray then Failed
        else
          match TakeItems(rest, count, maxArray, budget, depth)
          case NoItems => Failed
          case ReadItems(items, after, left) => Read(Array(items), after, left)
  }

  function TakeItems(s: Bytes, count: nat, maxArray: nat, budget: int, depth: nat): (r: Items)
    ensures r.ReadItems? ==> |r.rest| <= |s|
    decreases |s|, 1
  {
    if count == 0 then ReadItems([], s, budget)
    else
      match Take(s, maxArray, budget, depth + 1)
      case Failed => NoItems
      case Read(value, rest, left) =>
        match TakeItems(rest, count - 1, maxArray, left, depth)
        case NoItems => NoItems
        case ReadItems(items, after, final) => ReadItems([value] + items, after, final)
  }

  /** A response under the client's limits; a smaller array limit may be asked for. */
  function Response(s: Bytes, maxArray: int): Outcome {
    Take(s, if maxArray <= 0 || maxArray > MAX_ARRAY then MAX_ARRAY else maxArray, MAX_TOTAL_BULK, 0)
  }

  /** The strings of a reply: its own bulk, or the bulks among its items. */
  function Strings(v: Value): seq<Bytes> {
    match v
    case Bulk(bytes) => [bytes]
    case Array(items) => BulksOf(items)
    case _ => []
  }

  function BulksOf(items: seq<Value>): seq<Bytes> {
    if items == [] then []
    else (if items[0].Bulk? then [items[0].bytes] else []) + BulksOf(items[1..])
  }
}
