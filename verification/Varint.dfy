/**
 Base-128 varints and zigzag integers, as Go's encoding/binary reads and writes them, and the frame that
 both latency encodings share: a version byte, an item count, and a fixed number of varints per item.
 (Protocol Buffers Encoding, sections "Base 128 Varints" and "Signed Integers".)
 */
module Varint {
  import opened Wrappers

  const MAX_VARINT_LENGTH := 10
  const FORMAT_VERSION: Byte := 1

  type Uint64 = n: int | 0 <= n < 0x1_0000_0000_0000_0000

  function Encode(x: nat): Bytes {
    if x < 128 then [x] else [128 + x % 128] + Encode(x / 128)
  }

  /** One varint at the front of a buffer: its value and size, or why there is none. */
  datatype Read = Value(value: nat, size: nat) | Truncated | Overflow

  function Decode(buf: Bytes, depth: nat := 0): Read
    requires depth <= MAX_VARINT_LENGTH
    decreases |buf|
  {
    if buf == [] then Truncated
    else if depth == MAX_VARINT_LENGTH then Overflow
    else if buf[0] < 128 then
      if depth == MAX_VARINT_LENGTH - 1 && buf[0] > 1 then Overflow else Value(buf[0], 1)
    else
      match Decode(buf[1..], depth + 1)
      case Value(v, n) => Value(buf[0] % 128 + 128 * v, n + 1)
      case other => other
  }

  /** What a varint that starts at a given byte position can still hold without leaving 64 bits. */
  function Cap(depth: nat): nat
    requires depth <= MAX_VARINT_LENGTH - 1
    decreases MAX_VARINT_LENGTH - depth
  {
    if depth == MAX_VARINT_LENGTH - 1 then 2 else 128 * Cap(depth + 1)
  }

  lemma WordCap()
    ensures Cap(0) == WORD
  {
    assert Cap(8) == 256;
    assert Cap(6) == 0x40_0000;
    assert Cap(4) == 0x10_0000_0000;
    assert Cap(2) == 0x4_0000_0000_0000;
  }

  lemma {:induction false} DecodeShape(buf: Bytes, depth: nat)
    requires depth <= MAX_VARINT_LENGTH && Decode(buf, depth).Value?
    ensures var r := Decode(buf, depth);
      && depth < MAX_VARINT_LENGTH && 1 <= r.size <= |buf| && r.value < Cap(depth)
      && buf[r.size - 1] < 128
      && (forall i | 0 <= i < r.size - 1 :: buf[i] >= 128)
    decreases |buf|
  {
    if buf[0] >= 128 {
      DecodeShape(buf[1..], depth + 1);
      var r := Decode(buf, depth);
      forall i | 0 <= i < r.size - 1 ensures buf[i] >= 128 {
        if i > 0 { assert buf[1..][i - 1] == buf[i]; }
      }
    } else {
      CapAtLeast(depth);
    }
  }

  lemma {:induction false} CapAtLeast(depth: nat)
    requires depth < MAX_VARINT_LENGTH
    ensures Cap(depth) >= if depth == MAX_VARINT_LENGTH - 1 then 2 else 256
    decreases MAX_VARINT_LENGTH - depth
  {
    if depth < MAX_VARINT_LENGTH - 1 { CapAtLeast(depth + 1); }
  }

  /** A decoded value fits 64 bits and ends within the buffer. */
  lemma DecodeFits(buf: Bytes)
    requires Decode(buf).Value?
    ensures Decode(buf).value < WORD && 1 <= Decode(buf).size <= |buf|
  {
    DecodeShape(buf, 0);
    WordCap();
  }

  lemma {:induction false} EncodeThenDecode(x: nat, rest: Bytes, depth: nat)
    requires depth < MAX_VARINT_LENGTH && x < Cap(depth)
    ensures Decode(Encode(x) + rest, depth) == Value(x, |Encode(x)|)
    decreases x
  {
    var e := Encode(x);
    if x < 128 {
    } else {
      assert (e + rest)[1..] == Encode(x / 128) + rest;
      EncodeThenDecode(x / 128, rest, depth + 1);
    }
  }

  /** Writing any 64-bit number and reading it back returns it and stops right behind it. */
  lemma RoundTrip(x: nat, rest: Bytes)
    requires x < WORD
    ensures Decode(Encode(x) + rest) == Value(x, |Encode(x)|)
  {
    WordCap();
    EncodeThenDecode(x, rest, 0);
  }

  /** What was read does not depend on the bytes behind it. */
  lemma {:induction false} DecodeLocal(buf: Bytes, rest: Bytes, depth: nat)
    requires depth <= MAX_VARINT_LENGTH && Decode(buf, depth).Value?
    ensures Decode(buf + rest, depth) == Decode(buf, depth)
    decreases |buf|
  {
    if buf[0] >= 128 {
      assert (buf + rest)[1..] == buf[1..] + rest;
      DecodeLocal(buf[1..], rest, depth + 1);
    }
  }

  /** Any cut inside a varint reads as truncated. */
  lemma {:induction false} DecodeCut(buf: Bytes, cut: nat, depth: nat)
    requires depth <= MAX_VARINT_LENGTH && Decode(buf, depth).Value? && cut < Decode(buf, depth).size && cut <= |buf|
    ensures Decode(buf[..cut], depth) == Truncated
    decreases |buf|
  {
    if cut > 0 {
      assert buf[..cut][1..] == buf[1..][..cut - 1];
      DecodeCut(buf[1..], cut - 1, depth + 1);
    }
  }

  /**
   Reading accepts padded forms: writing the value again gives back the same bytes exactly when the last
   byte read is not a superfluous zero.
   */
  lemma {:induction false} ReencodeIff(buf: Bytes, depth: nat)
    requires depth <= MAX_VARINT_LENGTH && Decode(buf, depth).Value? && Decode(buf, depth).size <= |buf|
    ensures var r := Decode(buf, depth);
      Encode(r.value) == buf[..r.size] <==> r.size == 1 || buf[r.size - 1] != 0
    decreases |buf|
  {
    var r := Decode(buf, depth);
    if buf[0] >= 128 {
      var s := Decode(buf[1..], depth + 1);
      DecodeShape(buf[1..], depth + 1);
      ReencodeIff(buf[1..], depth + 1);
      assert buf[..r.size] == [buf[0]] + buf[1..][..s.size];
      assert buf[1..][s.size - 1] == buf[r.size - 1];
      if s.value > 0 {
        assert r.value / 128 == s.value && r.value % 128 == buf[0] % 128;
        assert Encode(r.value) == [buf[0]] + Encode(s.value);
        assert Encode(r.value)[1..] == Encode(s.value);
        assert buf[..r.size][1..] == buf[1..][..s.size];
        if s.size == 1 { assert buf[1..][0] == s.value; }
      } else {
        assert |Encode(r.value)| == 1;
        ZeroValueEndsInZero(buf[1..], depth + 1);
      }
    } else {
      assert buf[..1] == [buf[0]];
    }
  }

  lemma {:induction false} ZeroValueEndsInZero(buf: Bytes, depth: nat)
    requires depth <= MAX_VARINT_LENGTH && Decode(buf, depth).Value? && Decode(buf, depth).value == 0
    ensures 1 <= Decode(buf, depth).size <= |buf| && buf[Decode(buf, depth).size - 1] == 0
    decreases |buf|
  {
    DecodeShape(buf, depth);
    if buf[0] >= 128 { ZeroValueEndsInZero(buf[1..], depth + 1); }
  }

  /** The padded form of zero reads as zero but is not what zero is written as. */
  lemma PaddedZero()
    ensures Decode([128, 0]) == Value(0, 2) && Encode(0) == [0]
  {
    assert Decode([0], 1) == Value(0, 1);
    assert [128, 0][1..] == [0];
  }

  method AppendUvarint(buf: Bytes, x: nat) returns (r: Bytes)
    ensures r == buf + Encode(x)
  {
    r := buf;
    var rest := x;
    while rest >= 128
      invariant r + Encode(rest) == buf + Encode(x)
    {
      assert Encode(rest) == [128 + rest % 128] + Encode(rest / 128);
      r := r + [128 + rest % 128];
      rest := rest / 128;
    }
    r := r + [rest];
  }

  function Scaled(r: Read, low: nat, scale: nat, skipped: nat): Read {
    match r
    case Value(v, n) => Value(low + scale * v, skipped + n)
    case other => other
  }

  /** The digits read so far grow by one, and the scale with them. */
  lemma ScaleStep(r: Read, digit: nat, low: nat, scale: nat, skipped: nat)
    requires scale >= 1
    ensures low + digit * scale >= 0
    ensures r.Value? ==>
      Scaled(Value(digit + 128 * r.value, r.size + 1), low, scale, skipped)
        == Scaled(r, low + digit * scale, scale * 128, skipped + 1)
  {
    if r.Value? {
      assert scale * (digit + 128 * r.value) == digit * scale + scale * 128 * r.value;
    }
  }

  lemma ScaleLast(b: nat, low: nat, scale: nat, skipped: nat)
    ensures low + b * scale >= 0
    ensures Scaled(Value(b, 1), low, scale, skipped) == Value(low + b * scale, skipped + 1)
  {
  }

  lemma DecodeAt(buf: Bytes, i: nat)
    requires i < |buf| && i <= MAX_VARINT_LENGTH
    ensures Decode(buf[i..], i) ==
            if i == MAX_VARINT_LENGTH then Overflow
            else if buf[i] < 128 then (if i == MAX_VARINT_LENGTH - 1 && buf[i] > 1 then Overflow else Value(buf[i], 1))
            else match Decode(buf[i + 1..], i + 1)
              case Value(v, n) => Value(buf[i] % 128 + 128 * v, n + 1)
              case other => other
  {
    assert buf[i..][1..] == buf[i + 1..];
  }

  /** The shift-and-add loop, least significant seven bits first. */
  method Uvarint(buf: Bytes) returns (r: Read)
    ensures r == Decode(buf)
  {
    var x: nat, scale: nat := 0, 1;
    assert buf[0..] == buf;
    hide Decode, Scaled;
    ScaleNone(Decode(buf));
    for i := 0 to |buf|
      invariant i <= MAX_VARINT_LENGTH && scale >= 1
      invariant Decode(buf) == Scaled(Decode(buf[i..], i), x, scale, i)
    {
      var b: int := buf[i];
      DecodeAt(buf, i);
      if i == MAX_VARINT_LENGTH {
        ScaleError(Overflow, x, scale, i);
        return Overflow;
      }
      if b < 128 {
        ScaleError(Overflow, x, scale, i);
        if i == MAX_VARINT_LENGTH - 1 && b > 1 {
          return Overflow;
        }
        ScaleLast(b, x, scale, i);
        return Value(x + b * scale, i + 1);
      }
      ghost var rest := Decode(buf[i + 1..], i + 1);
      ScaleStep(rest, b % 128, x, scale, i);
      if !rest.Value? {
        ScaleError(rest, x, scale, i);
        ScaleError(rest, x + b % 128 * scale, scale * 128, i + 1);
      }
      x := x + b % 128 * scale;
      scale := scale * 128;
    }
    DecodeNothing(buf);
    ScaleError(Truncated, x, scale, |buf|);
    r := Truncated;
  }

  lemma DecodeNothing(buf: Bytes)
    requires |buf| <= MAX_VARINT_LENGTH
    ensures Decode(buf[|buf|..], |buf|) == Truncated
  {
  }

  lemma ScaleNone(r: Read)
    ensures Scaled(r, 0, 1, 0) == r
  {
  }

  lemma ScaleError(r: Read, low: nat, scale: nat, skipped: nat)
    ensures !r.Value? ==> Scaled(r, low, scale, skipped) == r
  {
  }

  // ----- zigzag -----

  /** Shifting left drops the sign; for negatives every bit is then flipped. */
  function ZigzagEncode(v: Int64): Uint64 {
    if v >= 0 then 2 * v else WORD - 1 - (2 * v + WORD)
  }

  function ZigzagDecode(u: Uint64): Int64 {
    if u % 2 == 0 then u / 2 else -1 - u / 2
  }

  lemma ZigzagBijective(v: Int64, u: Uint64)
    ensures ZigzagDecode(ZigzagEncode(v)) == v
    ensures ZigzagEncode(ZigzagDecode(u)) == u
  {
    assert v < 0 ==> ZigzagEncode(v) == 2 * (-1 - v) + 1;
  }

  // ----- frames -----

  ghost predicate Words(ns: seq<nat>) {
    forall i | 0 <= i < |ns| :: ns[i] < WORD
  }

  function EncodeAll(ns: seq<nat>): Bytes {
    if ns == [] then [] else Encode(ns[0]) + EncodeAll(ns[1..])
  }

  lemma {:induction false} EncodeAllConcat(a: seq<nat>, b: seq<nat>)
    ensures EncodeAll(a + b) == EncodeAll(a) + EncodeAll(b)
  {
    hide Encode;
    if a == [] {
      assert a + b == b;
    } else {
      assert (a + b)[1..] == a[1..] + b;
      EncodeAllConcat(a[1..], b);
    }
  }

  datatype Parsed = Parsed(numbers: seq<nat>, rest: Bytes)

  /** `n` varints from the front of a buffer. */
  function DecodeAll(buf: Bytes, n: nat): Option<Parsed>
    decreases n
  {
    if n == 0 then Some(Parsed([], buf))
    else
      var r := Decode(buf);
      if !r.Value? || r.size > |buf| then None
      else
        match DecodeAll(buf[r.size..], n - 1)
        case Some(p) => Some(Parsed([r.value] + p.numbers, p.rest))
        case None => None
  }

  lemma DecodeOne(buf: Bytes)
    ensures Decode(buf).Value? ==>
      1 <= Decode(buf).size <= |buf| && DecodeAll(buf, 1) == Some(Parsed([Decode(buf).value], buf[Decode(buf).size..]))
    ensures !Decode(buf).Value? ==> DecodeAll(buf, 1).None?
  {
    hide Decode;
    var r := Decode(buf);
    if r.Value? {
      DecodeFits(buf);
      assert DecodeAll(buf[r.size..], 0) == Some(Parsed([], buf[r.size..]));
      assert [r.value] + [] == [r.value];
    }
  }

  lemma {:induction false} DecodeAllShape(buf: Bytes, n: nat)
    requires DecodeAll(buf, n).Some?
    ensures var p := DecodeAll(buf, n).value;
      && |p.numbers| == n && |p.rest| <= |buf| && p.rest == buf[|buf| - |p.rest|..]
      && (forall i | 0 <= i < n :: p.numbers[i] < WORD)
  {
    hide Decode;
    if n == 0 {
      assert buf[0..] == buf;
    } else {
      var r := Decode(buf);
      DecodeFits(buf);
      DecodeAllShape(buf[r.size..], n - 1);
      var p := DecodeAll(buf, n).value;
      var q := DecodeAll(buf[r.size..], n - 1).value;
      assert p.numbers == [r.value] + q.numbers;
      assert buf[|buf| - |q.rest|..] == buf[r.size..][|buf| - r.size - |q.rest|..];
    }
  }

  lemma {:induction false} EncodeThenDecodeAll(ns: seq<nat>, rest: Bytes)
    requires forall i | 0 <= i < |ns| :: ns[i] < WORD
    ensures DecodeAll(EncodeAll(ns) + rest, |ns|) == Some(Parsed(ns, rest))
  {
    if ns == [] {
      assert EncodeAll(ns) + rest == rest;
    } else {
      var tail := EncodeAll(ns[1..]) + rest;
      assert EncodeAll(ns) + rest == Encode(ns[0]) + tail;
      RoundTrip(ns[0], tail);
      assert (Encode(ns[0]) + tail)[|Encode(ns[0])|..] == tail;
      EncodeThenDecodeAll(ns[1..], rest);
      assert [ns[0]] + ns[1..] == ns;
    }
  }

  lemma {:induction false} DecodeAllLocal(buf: Bytes, n: nat, more: Bytes)
    requires DecodeAll(buf, n).Some?
    ensures var p := DecodeAll(buf, n).value;
      DecodeAll(buf + more, n) == Some(Parsed(p.numbers, p.rest + more))
  {
    if n > 0 {
      var r := Decode(buf);
      DecodeLocal(buf, more, 0);
      DecodeFits(buf);
      assert (buf + more)[r.size..] == buf[r.size..] + more;
      DecodeAllLocal(buf[r.size..], n - 1, more);
    }
  }

  lemma {:induction false} DecodeAllCut(buf: Bytes, n: nat, cut: nat)
    requires DecodeAll(buf, n).Some? && cut < |buf| - |DecodeAll(buf, n).value.rest|
    ensures DecodeAll(buf[..cut], n).None?
  {
    if n > 0 {
      var r := Decode(buf);
      DecodeFits(buf);
      if cut < r.size {
        DecodeCut(buf, cut, 0);
      } else {
        assert buf[..cut] + buf[cut..] == buf;
        CutKeepsFirst(buf, cut);
        assert buf[..cut][r.size..] == buf[r.size..][..cut - r.size];
        DecodeAllCut(buf[r.size..], n - 1, cut - r.size);
      }
    }
  }

  lemma CutKeepsFirst(buf: Bytes, cut: nat)
    requires Decode(buf).Value? && Decode(buf).size <= cut <= |buf|
    ensures Decode(buf[..cut]) == Decode(buf)
  {
    DecodePrefix(buf, cut, 0);
  }

  lemma {:induction false} DecodePrefix(buf: Bytes, cut: nat, depth: nat)
    requires depth <= MAX_VARINT_LENGTH && Decode(buf, depth).Value? && Decode(buf, depth).size <= cut <= |buf|
    ensures Decode(buf[..cut], depth) == Decode(buf, depth)
    decreases |buf|
  {
    if buf[0] >= 128 {
      DecodeShape(buf, depth);
      assert buf[..cut][1..] == buf[1..][..cut - 1];
      DecodePrefix(buf[1..], cut - 1, depth + 1);
    }
  }

  lemma {:induction false} DecodeAllSplit(buf: Bytes, m: nat, n: nat)
    ensures DecodeAll(buf, m + n).Some? <==> DecodeAll(buf, m).Some? && DecodeAll(DecodeAll(buf, m).value.rest, n).Some?
    ensures DecodeAll(buf, m + n).Some? ==>
      && DecodeAll(buf, m + n).value.numbers == DecodeAll(buf, m).value.numbers
        + DecodeAll(DecodeAll(buf, m).value.rest, n).value.numbers
      && DecodeAll(buf, m + n).value.rest == DecodeAll(DecodeAll(buf, m).value.rest, n).value.rest
  {
    if m > 0 {
      var r := Decode(buf);
      if r.Value? && r.size <= |buf| {
        DecodeAllSplit(buf[r.size..], m - 1, n);
      }
    }
  }

  /** A version byte, a count of items, `width` numbers per item, and nothing behind them. */
  function Frame(buf: Bytes, width: nat): Option<seq<nat>> {
    if buf == [] || buf[0] != FORMAT_VERSION then None
    else
      match DecodeAll(buf[1..], 1)
      case None => None
      case Some(head) =>
        match DecodeAll(head.rest, ItemNumbers(head, width))
        case Some(body) => if body.rest == [] then Some(body.numbers) else None
        case None => None
  }

  function ItemNumbers(head: Parsed, width: nat): nat {
    if |head.numbers| == 1 then width * head.numbers[0] else 0
  }

  function EncodeFrame(count: nat, ns: seq<nat>): Bytes {
    [FORMAT_VERSION] + Encode(count) + EncodeAll(ns)
  }

  lemma FrameRoundTrip(count: nat, width: nat, ns: seq<nat>)
    requires count < WORD && |ns| == width * count && forall i | 0 <= i < |ns| :: ns[i] < WORD
    ensures Frame(EncodeFrame(count, ns), width) == Some(ns)
  {
    var buf := EncodeFrame(count, ns);
    assert buf[1..] == EncodeAll([count]) + EncodeAll(ns) by {
      assert EncodeAll([count]) == Encode(count) + EncodeAll([]);
    }
    EncodeThenDecodeAll([count], EncodeAll(ns));
    EncodeThenDecodeAll(ns, []);
    assert EncodeAll(ns) + [] == EncodeAll(ns);
  }

  /** A padded count: both byte strings are frames of nothing. */
  lemma PaddedFrame(width: nat)
    ensures Frame([1, 128, 0], width) == Frame([1, 0], width) == Some([])
  {
    PaddedZero();
    assert [1, 128, 0][1..] == [128, 0] && [1, 0][1..] == [0];
    DecodeOne([128, 0]);
    DecodeOne([0]);
    assert Decode([0]) == Value(0, 1);
    assert [128, 0][2..] == [] && [0][1..] == [];
    assert DecodeAll([], 0) == Some(Parsed([], []));
  }

  /** No frame continues another: nothing accepted can be extended. */
  lemma FrameNotExtended(buf: Bytes, width: nat, more: Bytes)
    requires Frame(buf, width).Some? && more != []
    ensures Frame(buf + more, width).None?
  {
    assert (buf + more)[1..] == buf[1..] + more;
    DecodeAllLocal(buf[1..], 1, more);
    var head := DecodeAll(buf[1..], 1).value;
    DecodeAllLocal(head.rest, ItemNumbers(head, width), more);
  }

  /** Nor can it be cut short. */
  lemma FrameNotCut(buf: Bytes, width: nat, cut: nat)
    requires Frame(buf, width).Some? && cut < |buf|
    ensures Frame(buf[..cut], width).None?
  {
    hide Decode;
    if cut > 0 {
      var head := DecodeAll(buf[1..], 1).value;
      var used := |buf| - 1 - |head.rest|;
      DecodeAllShape(buf[1..], 1);
      assert buf[..cut][1..] == buf[1..][..cut - 1];
      if cut - 1 < used {
        DecodeAllCut(buf[1..], 1, cut - 1);
      } else {
        HeadKept(buf[1..], cut - 1);
        DecodeAllCut(head.rest, ItemNumbers(head, width), cut - 1 - used);
      }
    }
  }

  lemma HeadKept(buf: Bytes, cut: nat)
    requires DecodeAll(buf, 1).Some? && cut <= |buf| && |buf| - |DecodeAll(buf, 1).value.rest| <= cut
    ensures var head := DecodeAll(buf, 1).value;
      DecodeAll(buf[..cut], 1) == Some(Parsed(head.numbers, head.rest[..cut - (|buf| - |head.rest|)]))
  {
    hide Decode, DecodeAll;
    DecodeOne(buf);
    DecodeOne(buf[..cut]);
    var r := Decode(buf);
    CutKeepsFirst(buf, cut);
    assert buf[..cut][r.size..] == buf[r.size..][..cut - r.size];
  }

  // ----- writing a frame again -----

  /** The first `n` varints of a buffer end in no superfluous zero. */
  predicate Unpadded(buf: Bytes, n: nat)
    decreases n
  {
    n == 0 ||
    (var r := Decode(buf);
     r.Value? && 1 <= r.size <= |buf| && (r.size == 1 || buf[r.size - 1] != 0) && Unpadded(buf[r.size..], n - 1))
  }

  /** A varint written again starts its buffer only if it was not padded. */
  lemma ReencodeStarts(buf: Bytes, more: Bytes)
    requires Decode(buf).Value? && Encode(Decode(buf).value) + more == buf
    ensures Decode(buf).size <= |buf| && Encode(Decode(buf).value) == buf[..Decode(buf).size]
  {
    DecodeFits(buf);
    RoundTrip(Decode(buf).value, more);
  }

  predicate FirstUnpadded(buf: Bytes)
    requires Decode(buf).Value? && 1 <= Decode(buf).size <= |buf|
  {
    Decode(buf).size == 1 || buf[Decode(buf).size - 1] != 0
  }

  /** The first number written again, and something behind it, is the buffer exactly if both parts are. */
  lemma ReencodeFirst(buf: Bytes, again: Bytes)
    requires Decode(buf).Value? && 1 <= Decode(buf).size <= |buf|
    ensures Encode(Decode(buf).value) + again == buf <==> FirstUnpadded(buf) && again == buf[Decode(buf).size..]
  {
    hide Encode, Decode;
    var r := Decode(buf);
    ReencodeIff(buf, 0);
    SplitAt(Encode(r.value), again, buf, r.size);
    if Encode(r.value) + again == buf {
      ReencodeStarts(buf, again);
    }
  }

  lemma SplitAt(a: Bytes, b: Bytes, buf: Bytes, size: nat)
    requires size <= |buf|
    ensures |buf[..size]| == size
    ensures |a| == size ==> (a + b == buf <==> a == buf[..size] && b == buf[size..])
  {
    assert buf == buf[..size] + buf[size..];
    if |a| == size && a + b == buf {
      assert a == (a + b)[..size] && b == (a + b)[size..];
    }
  }

  lemma FirstOfAll(buf: Bytes, n: nat)
    requires n > 0 && DecodeAll(buf, n).Some?
    ensures Decode(buf).Value? && 1 <= Decode(buf).size <= |buf| && DecodeAll(buf[Decode(buf).size..], n - 1).Some?
    ensures var p, q := DecodeAll(buf, n).value, DecodeAll(buf[Decode(buf).size..], n - 1).value;
      p.rest == q.rest && EncodeAll(p.numbers) == Encode(Decode(buf).value) + EncodeAll(q.numbers)
    ensures Unpadded(buf, n) <==> FirstUnpadded(buf) && Unpadded(buf[Decode(buf).size..], n - 1)
  {
    hide Encode, Decode;
    DecodeFits(buf);
    var p, q := DecodeAll(buf, n).value, DecodeAll(buf[Decode(buf).size..], n - 1).value;
    assert p.numbers[1..] == q.numbers;
  }

  /** Numbers written again give back the bytes they were read from exactly if none was padded. */
  lemma {:induction false} ReencodeAllIff(buf: Bytes, n: nat)
    requires DecodeAll(buf, n).Some?
    ensures EncodeAll(DecodeAll(buf, n).value.numbers) + DecodeAll(buf, n).value.rest == buf <==> Unpadded(buf, n)
    decreases n
  {
    if n > 0 {
      hide Encode, Decode, EncodeAll, DecodeAll, Unpadded, FirstUnpadded;
      FirstOfAll(buf, n);
      var tail := buf[Decode(buf).size..];
      var q := DecodeAll(tail, n - 1).value;
      ReencodeAllIff(tail, n - 1);
      ReencodeFirst(buf, EncodeAll(q.numbers) + q.rest);
      Regroup(Encode(Decode(buf).value), EncodeAll(q.numbers), q.rest);
    }
  }

  lemma Regroup(a: Bytes, b: Bytes, c: Bytes)
    ensures a + b + c == a + (b + c)
  {
  }

  ghost predicate FrameUnpadded(buf: Bytes, width: nat)
    requires Frame(buf, width).Some?
  {
    Unpadded(buf[1..], 1 + |Frame(buf, width).value|)
  }

  /** A frame written again is the same bytes exactly if none of its varints was padded. */
  lemma ReencodeFrameIff(buf: Bytes, width: nat, count: nat)
    requires Frame(buf, width).Some? && |Frame(buf, width).value| == width * count && width > 0
    ensures EncodeFrame(count, Frame(buf, width).value) == buf <==> FrameUnpadded(buf, width)
  {
    hide Encode, Decode, Unpadded;
    var ns := Frame(buf, width).value;
    var head := DecodeAll(buf[1..], 1).value;
    DecodeAllShape(buf[1..], 1);
    DecodeAllShape(head.rest, ItemNumbers(head, width));
    CountFound(width, count, head.numbers[0]);
    DecodeAllSplit(buf[1..], 1, |ns|);
    ReencodeAllIff(buf[1..], 1 + |ns|);
    assert head.numbers == [count];
    assert ([count] + ns)[1..] == ns;
    assert EncodeAll([count] + ns) == Encode(count) + EncodeAll(ns);
    assert EncodeFrame(count, ns)[1..] == Encode(count) + EncodeAll(ns);
    assert EncodeAll([count] + ns) + [] == EncodeAll([count] + ns);
    assert buf == [FORMAT_VERSION] + buf[1..];
  }

  lemma CountFound(width: nat, a: nat, b: nat)
    requires width * a == width * b && width > 0
    ensures a == b
  {
    assert width * (a - b) == 0;
  }

  // ----- reading a frame item by item -----

  /** Some numbers are next in a buffer. */
  ghost predicate NextIs(buf: Bytes, offset: nat, ns: seq<nat>, end: nat) {
    offset <= end <= |buf| && DecodeAll(buf[offset..], |ns|) == Some(Parsed(ns, buf[end..]))
  }

  /** A reader that has taken `index` items of a frame of `count` items stands at `offset` and has seen `ns`. */
  ghost predicate Standing(buf: Bytes, width: nat, count: nat, index: nat, offset: nat, ns: seq<nat>) {
    && buf != [] && buf[0] == FORMAT_VERSION && index <= count && 1 <= offset <= |buf|
    && DecodeAll(buf[1..], 1).Some?
    && var head := DecodeAll(buf[1..], 1).value;
       head.numbers == [count] && DecodeAll(head.rest, width * index) == Some(Parsed(ns, buf[offset..]))
  }

  lemma ItemTaken(buf: Bytes, width: nat, count: nat, index: nat, offset: nat, ns: seq<nat>, next: nat)
    requires Standing(buf, width, count, index, offset, ns) && index < count
    requires DecodeAll(buf[offset..], width).Some? && offset <= next <= |buf|
      && DecodeAll(buf[offset..], width).value.rest == buf[next..]
    ensures Standing(buf, width, count, index + 1, next, ns + DecodeAll(buf[offset..], width).value.numbers)
  {
    hide Decode;
    var head := DecodeAll(buf[1..], 1).value;
    assert width * (index + 1) == width * index + width;
    DecodeAllSplit(head.rest, width * index, width);
  }

  lemma ItemMissing(buf: Bytes, width: nat, count: nat, index: nat, offset: nat, ns: seq<nat>)
    requires Standing(buf, width, count, index, offset, ns) && index < count
    requires DecodeAll(buf[offset..], width).None?
    ensures Frame(buf, width).None?
  {
    hide Decode;
    var head := DecodeAll(buf[1..], 1).value;
    RestOfItems(width, count, index + 1);
    assert width * (index + 1) == width * index + width;
    DecodeAllSplit(head.rest, width * index, width);
    DecodeAllSplit(head.rest, width * (index + 1), width * (count - index - 1));
  }

  lemma RestOfItems(width: nat, count: nat, index: nat)
    requires index <= count
    ensures width * count == width * index + width * (count - index) && width * (count - index) >= 0
  {
  }

  lemma FrameContinues(buf: Bytes, width: nat, count: nat, index: nat, offset: nat, ns: seq<nat>)
    requires Standing(buf, width, count, index, offset, ns) && Frame(buf, width).Some?
    ensures |ns| <= |Frame(buf, width).value| == width * count && Frame(buf, width).value[..|ns|] == ns
    ensures |ns| == width * index
  {
    hide Decode;
    var head := DecodeAll(buf[1..], 1).value;
    RestOfItems(width, count, index);
    DecodeAllSplit(head.rest, width * index, width * (count - index));
    DecodeAllShape(head.rest, width * count);
    DecodeAllShape(head.rest, width * index);
  }

  lemma FrameEnds(buf: Bytes, width: nat, count: nat, offset: nat, ns: seq<nat>)
    requires Standing(buf, width, count, count, offset, ns)
    ensures Frame(buf, width) == if offset == |buf| then Some(ns) else None
  {
  }

  lemma FrameShape(buf: Bytes, width: nat)
    requires Frame(buf, width).Some?
    ensures exists count: nat :: |Frame(buf, width).value| == width * count
    ensures forall i | 0 <= i < |Frame(buf, width).value| :: Frame(buf, width).value[i] < WORD
  {
    var head := DecodeAll(buf[1..], 1).value;
    DecodeAllShape(buf[1..], 1);
    DecodeAllShape(head.rest, ItemNumbers(head, width));
    assert |Frame(buf, width).value| == width * head.numbers[0];
  }

  /** The source's readUvarint: one number at an offset, and the offset behind it. */
  method ReadUvarint(buf: Bytes, offset: nat) returns (r: Option<nat>, next: nat)
    requires offset <= |buf|
    ensures r.Some? <==> DecodeAll(buf[offset..], 1).Some?
    ensures r.Some? ==>
      offset < next <= |buf| && r.value < WORD && DecodeAll(buf[offset..], 1) == Some(Parsed([r.value], buf[next..]))
  {
    next := offset;
    if offset >= |buf| {
      DecodeOne(buf[offset..]);
      return None, offset;
    }
    hide Decode, DecodeAll;
    DecodeOne(buf[offset..]);
    var read := Uvarint(buf[offset..]);
    match read
    case Truncated => r := None;
    case Overflow => r := None;
    case Value(value, size) =>
      DecodeFits(buf[offset..]);
      assert buf[offset..][size..] == buf[offset + size..];
      r, next := Some(value), offset + size;
  }

  /** Version byte and item count. */
  method ReadHead(buf: Bytes, width: nat) returns (count: Option<nat>, offset: nat)
    ensures count.None? ==> Frame(buf, width).None?
    ensures count.Some? ==> Standing(buf, width, count.value, 0, offset, [])
  {
    count, offset := None, 0;
    if |buf| == 0 || buf[0] != FORMAT_VERSION {
      return;
    }
    assert buf[1..][0..] == buf[1..];
    count, offset := ReadUvarint(buf, 1);
  }
}
