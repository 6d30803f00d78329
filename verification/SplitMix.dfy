/**
 SplitMix64 on 64-bit words, and its injectivity: every stage can be undone. Numbers and words are
 converted bit by bit.
 */
module SplitMix {
  const INCREMENT: bv64 := 0x9e3779b97f4a7c15

  function Fold30(x: bv64): bv64 { x ^ (x >> 30) }

  function Fold27(x: bv64): bv64 { x ^ (x >> 27) }

  function Fold31(x: bv64): bv64 { x ^ (x >> 31) }

  function Times1(x: bv64): bv64 { x * 0xbf58476d1ce4e5b9 }

  function Times2(x: bv64): bv64 { x * 0x94d049bb133111eb }

  function Mixed(value: bv64): bv64 {
    Fold31(Times2(Fold27(Times1(Fold30(value + INCREMENT)))))
  }

  function Unfold30(y: bv64): bv64 { y ^ (y >> 30) ^ (y >> 60) }

  function Unfold27(y: bv64): bv64 { y ^ (y >> 27) ^ (y >> 54) }

  function Unfold31(y: bv64): bv64 { y ^ (y >> 31) ^ (y >> 62) }

  function Untimes1(y: bv64): bv64 { y * 0x96de1b173f119089 }

  function Untimes2(y: bv64): bv64 { y * 0x319642b2d24d8ec3 }

  function Unmixed(mixed: bv64): bv64 {
    Unfold30(Untimes1(Unfold27(Untimes2(Unfold31(mixed))))) - INCREMENT
  }

  lemma Shift30Undone(x: bv64)
    ensures Unfold30(x ^ (x >> 30)) == x
  {
  }

  lemma Fold30Undone(x: bv64)
    ensures Unfold30(Fold30(x)) == x
  {
    hide Unfold30;
    Shift30Undone(x);
  }

  lemma Shift27Undone(x: bv64)
    ensures Unfold27(x ^ (x >> 27)) == x
  {
  }

  lemma Fold27Undone(x: bv64)
    ensures Unfold27(Fold27(x)) == x
  {
    hide Unfold27;
    Shift27Undone(x);
  }

  lemma Shift31Undone(x: bv64)
    ensures Unfold31(x ^ (x >> 31)) == x
  {
  }

  lemma Fold31Undone(x: bv64)
    ensures Unfold31(Fold31(x)) == x
  {
    hide Unfold31;
    Shift31Undone(x);
  }

  lemma Factor1Undone(x: bv64)
    ensures Untimes1(x * 0xbf58476d1ce4e5b9) == x
  {
    assert 0xbf58476d1ce4e5b9 as bv64 * 0x96de1b173f119089 == 1;
  }

  lemma Times1Undone(x: bv64)
    ensures Untimes1(Times1(x)) == x
  {
    hide Untimes1;
    Factor1Undone(x);
  }

  lemma Factor2Undone(x: bv64)
    ensures Untimes2(x * 0x94d049bb133111eb) == x
  {
    assert 0x94d049bb133111eb as bv64 * 0x319642b2d24d8ec3 == 1;
  }

  lemma Times2Undone(x: bv64)
    ensures Untimes2(Times2(x)) == x
  {
    hide Untimes2;
    Factor2Undone(x);
  }

  /** Every step undone in turn: no two words mix to the same word. */
  lemma MixedUndone(value: bv64)
    ensures Unmixed(Mixed(value)) == value
  {
    hide Fold30, Fold27, Fold31, Times1, Times2, Unfold30, Unfold27, Unfold31, Untimes1, Untimes2;
    var a := value + INCREMENT;
    var b := Times1(Fold30(a));
    var c := Times2(Fold27(b));
    Fold30Undone(a);
    Times1Undone(Fold30(a));
    Fold27Undone(b);
    Times2Undone(Fold27(b));
    Fold31Undone(c);
  }

  // ----- words and numbers -----

  function Half(w: bv64): bv64 { w >> 1 }

  predicate Odd(w: bv64) { w & 1 == 1 }

  function Appended(w: bv64, bit: bool): bv64 { if bit then (w << 1) | 1 else w << 1 }

  predicate TopClear(w: bv64) { w < 0x8000_0000_0000_0000 }

  function ToWord(n: nat, bits: nat): bv64
    decreases bits
  {
    if bits == 0 then 0 else Appended(ToWord(n / 2, bits - 1), n % 2 == 1)
  }

  function FromWord(w: bv64, bits: nat): nat
    decreases bits
  {
    if bits == 0 then 0 else 2 * FromWord(Half(w), bits - 1) + (if Odd(w) then 1 else 0)
  }

  function Power2(bits: nat): nat {
    if bits == 0 then 1 else 2 * Power2(bits - 1)
  }

  /** Only the low `bits` bits of a word may be set. */
  predicate Narrow(w: bv64, bits: nat)
    decreases bits
  {
    if bits == 0 then w == 0 else Narrow(Half(w), bits - 1)
  }

  lemma ByteNarrow(w: bv64, bits: nat)
    requires Narrow(EightHalves(w), bits)
    ensures Narrow(w, bits + 8)
  {
    hide Half;
    assert Narrow(Half(Half(Half(Half(Half(Half(w)))))), bits + 2);
    assert Narrow(Half(Half(Half(Half(w)))), bits + 4);
    assert Narrow(Half(Half(w)), bits + 6);
  }

  function EightHalves(w: bv64): bv64 {
    Half(Half(Half(Half(Half(Half(Half(Half(w))))))))
  }

  function ByteOff(w: bv64): bv64 { w >> 8 }

  lemma EightBits(w: bv64)
    ensures EightHalves(w) == ByteOff(w)
  {
  }

  lemma NothingLeft(w: bv64)
    ensures ByteOff(ByteOff(ByteOff(ByteOff(ByteOff(ByteOff(ByteOff(ByteOff(w)))))))) == 0
  {
  }

  lemma AllNarrow(w: bv64)
    ensures Narrow(w, 64)
  {
    hide Half, EightHalves, ByteOff;
    NothingLeft(w);
    EightBits(ByteOff(ByteOff(ByteOff(ByteOff(ByteOff(ByteOff(ByteOff(w))))))));
    ByteNarrow(ByteOff(ByteOff(ByteOff(ByteOff(ByteOff(ByteOff(ByteOff(w))))))), 0);
    EightBits(ByteOff(ByteOff(ByteOff(ByteOff(ByteOff(ByteOff(w)))))));
    ByteNarrow(ByteOff(ByteOff(ByteOff(ByteOff(ByteOff(ByteOff(w)))))), 8);
    EightBits(ByteOff(ByteOff(ByteOff(ByteOff(ByteOff(w))))));
    ByteNarrow(ByteOff(ByteOff(ByteOff(ByteOff(ByteOff(w))))), 16);
    EightBits(ByteOff(ByteOff(ByteOff(ByteOff(w)))));
    ByteNarrow(ByteOff(ByteOff(ByteOff(ByteOff(w)))), 24);
    EightBits(ByteOff(ByteOff(ByteOff(w))));
    ByteNarrow(ByteOff(ByteOff(ByteOff(w))), 32);
    EightBits(ByteOff(ByteOff(w)));
    ByteNarrow(ByteOff(ByteOff(w)), 40);
    EightBits(ByteOff(w));
    ByteNarrow(ByteOff(w), 48);
    EightBits(w);
    ByteNarrow(w, 56);
  }

  /** The word with the single bit `bits` set, counted down from the top one. */
  function Top(bits: nat): bv64
    requires bits <= 63
    decreases 63 - bits
  {
    if bits == 63 then 0x8000_0000_0000_0000 else Half(Top(bits + 1))
  }

  predicate Below(w: bv64, v: bv64) { w < v }

  lemma TopZero()
    ensures Below(0, Top(0))
  {
    assert Top(56) == 0x100_0000_0000_0000;
    assert Top(48) == 0x1_0000_0000_0000;
    assert Top(40) == 0x100_0000_0000;
    assert Top(32) == 0x1_0000_0000;
    assert Top(24) == 0x100_0000;
    assert Top(16) == 0x1_0000;
    assert Top(8) == 0x100;
  }

  lemma BelowHalves(w: bv64, v: bv64)
    ensures Below(Half(w), Half(v)) ==> Below(w, v)
  {
  }

  lemma BelowHalf(w: bv64, v: bv64)
    ensures Below(w, Half(v)) ==> Below(w, v)
  {
  }

  lemma {:induction false} NarrowBelow(w: bv64, bits: nat)
    requires bits <= 63 && Narrow(w, bits)
    ensures Below(w, Top(bits))
    decreases bits
  {
    hide Half, Below;
    if bits == 0 {
      TopZero();
    } else {
      NarrowBelow(Half(w), bits - 1);
      BelowHalves(w, Top(bits));
    }
  }

  lemma {:induction false} BelowTop(w: bv64, bits: nat)
    requires bits <= 63 && Below(w, Top(bits))
    ensures Below(w, Top(63))
    decreases 63 - bits
  {
    hide Half, Below;
    if bits < 63 {
      BelowHalf(w, Top(bits + 1));
      BelowTop(w, bits + 1);
    }
  }

  lemma TopIsTop(w: bv64)
    ensures Below(w, Top(63)) ==> TopClear(w)
  {
  }

  lemma NarrowTopClear(w: bv64, bits: nat)
    requires bits <= 63 && Narrow(w, bits)
    ensures TopClear(w)
  {
    hide Half, Below, TopClear;
    NarrowBelow(w, bits);
    BelowTop(w, bits);
    TopIsTop(w);
  }

  lemma HalfOfAppended(w: bv64)
    ensures TopClear(w) ==> Half((w << 1) | 1) == w && Half(w << 1) == w
  {
  }

  lemma OddAppended(w: bv64)
    ensures Odd((w << 1) | 1) && !Odd(w << 1)
  {
  }

  lemma AppendedBack(w: bv64, bit: bool)
    requires TopClear(w)
    ensures Half(Appended(w, bit)) == w && Odd(Appended(w, bit)) == bit
  {
    hide Half, TopClear, Odd;
    HalfOfAppended(w);
    OddAppended(w);
  }

  /** Every number below 2^bits is read back from its word. */
  lemma {:induction false} ToWordBack(n: nat, bits: nat)
    requires bits <= 64 && n < Power2(bits)
    ensures FromWord(ToWord(n, bits), bits) == n && Narrow(ToWord(n, bits), bits)
    decreases bits
  {
    hide Half, TopClear, Odd, Appended;
    if bits > 0 {
      ToWordBack(n / 2, bits - 1);
      var w := ToWord(n / 2, bits - 1);
      NarrowTopClear(w, bits - 1);
      AppendedBack(w, n % 2 == 1);
    }
  }

  lemma SameHalvesSameWord(w: bv64, v: bv64)
    ensures Half(w) == Half(v) && Odd(w) == Odd(v) ==> w == v
  {
  }

  /** Different words are different numbers. */
  lemma {:induction false} FromWordInjective(w: bv64, v: bv64, bits: nat)
    requires Narrow(w, bits) && Narrow(v, bits) && FromWord(w, bits) == FromWord(v, bits)
    ensures w == v
    decreases bits
  {
    hide Half, Odd;
    if bits > 0 {
      FromWordInjective(Half(w), Half(v), bits - 1);
      SameHalvesSameWord(w, v);
    }
  }

  lemma {:induction false} FromWordFits(w: bv64, bits: nat)
    ensures FromWord(w, bits) < Power2(bits)
    decreases bits
  {
    hide Half, Odd;
    if bits > 0 { FromWordFits(Half(w), bits - 1); }
  }

  lemma EightDoublings(bits: nat)
    ensures Power2(bits + 8) == 256 * Power2(bits)
  {
    assert Power2(bits + 2) == 4 * Power2(bits);
    assert Power2(bits + 4) == 16 * Power2(bits);
    assert Power2(bits + 6) == 64 * Power2(bits);
  }

  lemma WordSize()
    ensures Power2(64) == 0x1_0000_0000_0000_0000
  {
    EightDoublings(0);
    EightDoublings(8);
    EightDoublings(16);
    EightDoublings(24);
    EightDoublings(32);
    EightDoublings(40);
    EightDoublings(48);
    EightDoublings(56);
  }

  /** The sampling priority of an event id. */
  function SplitMix64(value: nat): nat {
    FromWord(Mixed(ToWord(value, 64)), 64)
  }

  lemma SplitMix64Fits(value: nat)
    ensures SplitMix64(value) < 0x1_0000_0000_0000_0000
  {
    hide Mixed;
    FromWordFits(Mixed(ToWord(value, 64)), 64);
    WordSize();
  }

  /** Two 64-bit ids never share a priority. */
  lemma SplitMix64Injective(a: nat, b: nat)
    requires a < 0x1_0000_0000_0000_0000 && b < 0x1_0000_0000_0000_0000
    requires SplitMix64(a) == SplitMix64(b)
    ensures a == b
  {
    hide Mixed, Unmixed, Narrow, FromWord, ToWord;
    WordSize();
    var v, w := ToWord(a, 64), ToWord(b, 64);
    AllNarrow(Mixed(v));
    AllNarrow(Mixed(w));
    FromWordInjective(Mixed(v), Mixed(w), 64);
    MixedUndone(v);
    MixedUndone(w);
    ToWordBack(a, 64);
    ToWordBack(b, 64);
  }

  // ----- a known value -----

  lemma {:induction false} NoBits(bits: nat)
    ensures ToWord(0, bits) == 0
  {
    if bits > 0 { NoBits(bits - 1); }
  }

  function Bit(w: bv64): nat { if Odd(w) then 1 else 0 }

  function FourHalves(w: bv64): bv64 {
    Half(Half(Half(Half(w))))
  }

  function LowNibble(w: bv64): nat {
    Bit(w) + 2 * Bit(Half(w)) + 4 * Bit(Half(Half(w))) + 8 * Bit(Half(Half(Half(w))))
  }

  function LowByte(w: bv64): nat {
    LowNibble(w) + 16 * LowNibble(FourHalves(w))
  }

  lemma OneBit(w: bv64, bits: nat)
    ensures FromWord(w, bits + 1) == 2 * FromWord(Half(w), bits) + Bit(w)
  {
  }

  lemma OneNibble(w: bv64, bits: nat)
    ensures FromWord(w, bits + 4) == 16 * FromWord(FourHalves(w), bits) + LowNibble(w)
  {
    hide Half, Bit, FromWord;
    OneBit(w, bits + 3);
    OneBit(Half(w), bits + 2);
    OneBit(Half(Half(w)), bits + 1);
    OneBit(Half(Half(Half(w))), bits);
  }

  lemma OneByte(w: bv64, bits: nat)
    ensures FromWord(w, bits + 8) == 256 * FromWord(EightHalves(w), bits) + LowByte(w)
  {
    hide Half, FromWord, LowNibble;
    OneNibble(w, bits + 4);
    OneNibble(FourHalves(w), bits);
  }

  lemma LowBytes()
    ensures LowByte(0xe220a8397b1dcdaf) == 0xAF && EightHalves(0xe220a8397b1dcdaf) == 0xe220a8397b1dcd
    ensures LowByte(0xe220a8397b1dcd) == 0xCD && EightHalves(0xe220a8397b1dcd) == 0xe220a8397b1d
    ensures LowByte(0xe220a8397b1d) == 0x1D && EightHalves(0xe220a8397b1d) == 0xe220a8397b
    ensures LowByte(0xe220a8397b) == 0x7B && EightHalves(0xe220a8397b) == 0xe220a839
    ensures LowByte(0xe220a839) == 0x39 && EightHalves(0xe220a839) == 0xe220a8
    ensures LowByte(0xe220a8) == 0xA8 && EightHalves(0xe220a8) == 0xe220
    ensures LowByte(0xe220) == 0x20 && EightHalves(0xe220) == 0xe2
    ensures LowByte(0xe2) == 0xE2 && EightHalves(0xe2) == 0
  {
  }

  lemma FirstWord()
    ensures FromWord(0xe220a8397b1dcdaf, 64) == 0xE220A8397B1DCDAF
  {
    hide FromWord, LowByte, EightHalves;
    LowBytes();
    OneByte(0xe220a8397b1dcdaf, 56);
    OneByte(0xe220a8397b1dcd, 48);
    OneByte(0xe220a8397b1d, 40);
    OneByte(0xe220a8397b, 32);
    OneByte(0xe220a839, 24);
    OneByte(0xe220a8, 16);
    OneByte(0xe220, 8);
    OneByte(0xe2, 0);
    NoWord(0);
  }

  /** The first value of the published generator when it is seeded with zero. */
  lemma FirstValue()
    ensures SplitMix64(0) == 0xE220A8397B1DCDAF
  {
    hide FromWord, ToWord, Mixed;
    MixedZero();
    NoBits(64);
    FirstWord();
  }

  lemma NoWord(w: bv64)
    ensures FromWord(w, 0) == 0
  {
  }

  lemma MixedZero()
    ensures Mixed(0) == 0xe220a8397b1dcdaf
  {
  }
}
