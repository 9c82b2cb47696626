/** The bitwise CRC-32 of section 3.4 of RFC 2083, its algebra, and the bursts it always detects. */
module Crc32 {
  type Byte = b: nat | b < 0x100
  type Bytes = seq<Byte>

  const TWO32: nat := 0x1_0000_0000

  /** Unsigned 32-bit values, as `>>> 0` leaves them. */
  type Word = w: nat | w < TWO32

  const POLYNOMIAL: Word := 0xedb8_8320
  const ALL_ONES: Word := 0xffff_ffff

  // ---- Bitwise exclusive or, on binary digits ----

  function Xor(a: nat, b: nat): nat {
    if a == 0 then b else if b == 0 then a else 2 * Xor(a / 2, b / 2) + (if a % 2 == b % 2 then 0 else 1)
  }

  lemma XorDigits(a: nat, b: nat)
    ensures Xor(a, b) / 2 == Xor(a / 2, b / 2)
    ensures Xor(a, b) % 2 == if a % 2 == b % 2 then 0 else 1
  {
  }

  /** Two numbers with the same digits are the same. */
  lemma SameDigits(a: nat, b: nat)
    requires a / 2 == b / 2 && a % 2 == b % 2
    ensures a == b
  {
  }

  lemma {:induction false} XorIsCommutative(a: nat, b: nat)
    ensures Xor(a, b) == Xor(b, a)
  {
    if a != 0 && b != 0 {
      XorIsCommutative(a / 2, b / 2);
    }
  }

  lemma {:induction false} XorIsAssociative(a: nat, b: nat, c: nat)
    ensures Xor(Xor(a, b), c) == Xor(a, Xor(b, c))
    decreases a + b + c
  {
    if a != 0 && b != 0 && c != 0 {
      XorIsAssociative(a / 2, b / 2, c / 2);
      var ab, bc := Xor(a, b), Xor(b, c);
      XorDigits(a, b);
      XorDigits(b, c);
      XorDigits(ab, c);
      XorDigits(a, bc);
      SameDigits(Xor(ab, c), Xor(a, bc));
    }
  }

  lemma {:induction false} XorOfSelf(a: nat)
    ensures Xor(a, a) == 0
  {
    if a != 0 {
      XorOfSelf(a / 2);
    }
  }

  lemma {:induction false} XorCancels(a: nat, b: nat)
    ensures Xor(Xor(a, b), b) == a
  {
    XorIsAssociative(a, b, b);
    XorOfSelf(b);
  }

  lemma {:induction false} XorIsInjective(a: nat, b: nat, k: nat)
    requires Xor(a, k) == Xor(b, k)
    ensures a == b
  {
    XorCancels(a, k);
    XorCancels(b, k);
  }

  lemma XorShuffle(a: nat, b: nat, c: nat, d: nat)
    ensures Xor(Xor(a, b), Xor(c, d)) == Xor(Xor(a, c), Xor(b, d))
  {
    XorIsAssociative(a, b, Xor(c, d));
    XorIsAssociative(b, c, d);
    XorIsCommutative(b, c);
    XorIsAssociative(c, b, d);
    XorIsAssociative(a, c, Xor(b, d));
  }

  function Pow2(n: nat): (r: nat)
    ensures r >= 1
  {
    if n == 0 then 1 else 2 * Pow2(n - 1)
  }

  lemma {:induction false} XorIsBounded(a: nat, b: nat, n: nat)
    requires a < Pow2(n) && b < Pow2(n)
    ensures Xor(a, b) < Pow2(n)
  {
    if n > 0 {
      XorIsBounded(a / 2, b / 2, n - 1);
    }
  }

  lemma XorOfWords(a: nat, b: nat)
    requires a < TWO32 && b < TWO32
    ensures Xor(a, b) < TWO32
  {
    Pow2Of32();
    XorIsBounded(a, b, 32);
  }

  lemma Pow2Of32()
    ensures Pow2(8) == 0x100 && Pow2(32) == TWO32
  {
    assert Pow2(8) == 256;
    assert Pow2(16) == 65536;
    assert Pow2(24) == 0x100_0000;
    assert Pow2(32) == TWO32;
  }

  /** Disjoint digits add. */
  lemma {:induction false} XorOfDisjoint(a: nat, b: nat, n: nat)
    requires a < Pow2(n)
    ensures Xor(a, b * Pow2(n)) == a + b * Pow2(n)
  {
    if n > 0 {
      assert b * Pow2(n) == 2 * (b * Pow2(n - 1));
      XorOfDisjoint(a / 2, b, n - 1);
      XorDigits(a, b * Pow2(n));
    }
  }

  // ---- The checksum ----

  /** One turn of the inner loop. */
  function BitStep(crc: nat): nat {
    if crc % 2 == 1 then Xor(crc / 2, POLYNOMIAL) else crc / 2
  }

  function BitSteps(crc: nat, n: nat): nat
    decreases n
  {
    if n == 0 then crc else BitSteps(BitStep(crc), n - 1)
  }

  /** The register after a whole buffer. */
  function Fold(crc: nat, buf: Bytes): nat
    decreases buf
  {
    if buf == [] then crc else Fold(BitSteps(Xor(crc, buf[0]), 8), buf[1..])
  }

  function Crc(buf: Bytes): nat {
    Xor(Fold(ALL_ONES, buf), ALL_ONES)
  }

  method ComputeCrc32(buf: Bytes) returns (r: Word)
    ensures r == Crc(buf)
  {
    var crc: Word := ALL_ONES;
    for i := 0 to |buf|
      invariant Fold(crc, buf[i..]) == Fold(ALL_ONES, buf)
    {
      ghost var before := crc;
      XorOfWords(crc, buf[i]);
      crc := Xor(crc, buf[i]);
      for j := 0 to 8
        invariant BitSteps(crc, 8 - j) == BitSteps(Xor(before, buf[i]), 8)
      {
        XorOfWords(crc / 2, POLYNOMIAL);
        crc := if crc % 2 == 1 then Xor(crc / 2, POLYNOMIAL) else crc / 2;
      }
      assert buf[i..][1..] == buf[i + 1..];
    }
    XorOfWords(crc, ALL_ONES);
    return Xor(crc, ALL_ONES);
  }

  /** Folding over a concatenation is folding over its parts in turn. */
  lemma {:induction false} FoldConcat(crc: nat, a: Bytes, b: Bytes)
    ensures Fold(crc, a + b) == Fold(Fold(crc, a), b)
    decreases a
  {
    if a == [] {
      assert a + b == b;
    } else {
      assert (a + b)[1..] == a[1..] + b;
      FoldConcat(BitSteps(Xor(crc, a[0]), 8), a[1..], b);
    }
  }

  // ---- The state step is linear and injective ----

  lemma BitStepIsLinear(x: nat, y: nat)
    ensures BitStep(Xor(x, y)) == Xor(BitStep(x), BitStep(y))
  {
    var a, b, p := x / 2, y / 2, POLYNOMIAL as nat;
    XorDigits(x, y);
    PolynomialMixes(a, b, p);
    if x % 2 == 1 && y % 2 == 1 {
      assert BitStep(Xor(x, y)) == Xor(a, b);
    } else if x % 2 == 1 || y % 2 == 1 {
      assert BitStep(Xor(x, y)) == Xor(Xor(a, b), p);
    } else {
      assert BitStep(Xor(x, y)) == Xor(a, b);
    }
  }

  lemma PolynomialMixes(a: nat, b: nat, p: nat)
    ensures Xor(Xor(a, p), b) == Xor(Xor(a, b), p)
    ensures Xor(a, Xor(b, p)) == Xor(Xor(a, b), p)
    ensures Xor(Xor(a, p), Xor(b, p)) == Xor(a, b)
  {
    XorIsAssociative(a, p, b);
    XorIsCommutative(p, b);
    XorIsAssociative(a, b, p);
    XorShuffle(a, p, b, p);
    XorOfSelf(p);
  }

  lemma {:induction false} BitStepsAreLinear(x: nat, y: nat, n: nat)
    ensures BitSteps(Xor(x, y), n) == Xor(BitSteps(x, n), BitSteps(y, n))
    decreases n
  {
    if n > 0 {
      BitStepIsLinear(x, y);
      BitStepsAreLinear(BitStep(x), BitStep(y), n - 1);
    }
  }

  lemma BitStepKeepsWord(x: nat)
    requires x < TWO32
    ensures BitStep(x) < TWO32
  {
    XorOfWords(x / 2, POLYNOMIAL);
  }

  /** The polynomial's top bit is set, so the bit shifted out can be told from the result. */
  lemma BitStepIsInjective(x: nat, y: nat)
    requires x < TWO32 && y < TWO32 && BitStep(x) == BitStep(y)
    ensures x == y
  {
    var z := Xor(x, y);
    XorOfWords(x, y);
    BitStepIsLinear(x, y);
    XorOfSelf(BitStep(x));
    assert BitStep(z) == 0;
    if z % 2 == 1 {
      XorOfSelf(POLYNOMIAL);
      XorIsInjective(z / 2, POLYNOMIAL, POLYNOMIAL);
      assert false;
    }
    assert z == 0;
    XorOfSelf(y);
    XorIsInjective(x, y, y);
  }

  lemma {:induction false} BitStepsAreInjective(x: nat, y: nat, n: nat)
    requires x < TWO32 && y < TWO32 && BitSteps(x, n) == BitSteps(y, n)
    ensures x == y
    decreases n
  {
    if n > 0 {
      BitStepKeepsWord(x);
      BitStepKeepsWord(y);
      BitStepsAreInjective(BitStep(x), BitStep(y), n - 1);
      BitStepIsInjective(x, y);
    }
  }

  lemma {:induction false} BitStepsAdd(x: nat, n: nat, m: nat)
    ensures BitSteps(x, n + m) == BitSteps(BitSteps(x, n), m)
    decreases n
  {
    if n > 0 {
      BitStepsAdd(BitStep(x), n - 1, m);
    }
  }

  lemma {:induction false} BitStepsKeepWord(x: nat, n: nat)
    requires x < TWO32
    ensures BitSteps(x, n) < TWO32
    decreases n
  {
    if n > 0 {
      BitStepKeepsWord(x);
      BitStepsKeepWord(BitStep(x), n - 1);
    }
  }

  lemma {:induction false} FoldKeepsWord(x: nat, buf: Bytes)
    requires x < TWO32
    ensures Fold(x, buf) < TWO32
    decreases buf
  {
    if buf != [] {
      XorOfWords(x, buf[0]);
      BitStepsKeepWord(Xor(x, buf[0]), 8);
      FoldKeepsWord(BitSteps(Xor(x, buf[0]), 8), buf[1..]);
    }
  }

  /** On a fixed buffer the register is an injective function of where it started. */
  lemma {:induction false} FoldIsInjective(x: nat, y: nat, buf: Bytes)
    requires x < TWO32 && y < TWO32 && Fold(x, buf) == Fold(y, buf)
    ensures x == y
    decreases buf
  {
    if buf != [] {
      XorOfWords(x, buf[0]);
      XorOfWords(y, buf[0]);
      BitStepsKeepWord(Xor(x, buf[0]), 8);
      BitStepsKeepWord(Xor(y, buf[0]), 8);
      FoldIsInjective(BitSteps(Xor(x, buf[0]), 8), BitSteps(Xor(y, buf[0]), 8), buf[1..]);
      BitStepsAreInjective(Xor(x, buf[0]), Xor(y, buf[0]), 8);
      XorIsInjective(x, y, buf[0]);
    }
  }

  /** The bytewise exclusive or of two buffers. */
  function XorBytes(a: Bytes, b: Bytes): (r: Bytes)
    requires |a| == |b|
    ensures |r| == |a|
  {
    if a == [] then []
    else
      Pow2Of32();
      XorIsBounded(a[0], b[0], 8);
      [Xor(a[0], b[0])] + XorBytes(a[1..], b[1..])
  }

  lemma {:induction false} FoldIsLinear(x: nat, y: nat, a: Bytes, b: Bytes)
    requires |a| == |b|
    ensures Fold(Xor(x, y), XorBytes(a, b)) == Xor(Fold(x, a), Fold(y, b))
    decreases a
  {
    if a != [] {
      XorShuffle(x, y, a[0], b[0]);
      BitStepsAreLinear(Xor(x, a[0]), Xor(y, b[0]), 8);
      FoldIsLinear(BitSteps(Xor(x, a[0]), 8), BitSteps(Xor(y, b[0]), 8), a[1..], b[1..]);
      assert XorBytes(a, b)[1..] == XorBytes(a[1..], b[1..]);
    }
  }

  function Zeros(n: nat): (r: Bytes)
    ensures |r| == n
  {
    seq(n, _ => 0)
  }

  lemma {:induction false} XorWithZeros(a: Bytes)
    ensures XorBytes(a, Zeros(|a|)) == a
  {
    if a != [] {
      assert Zeros(|a|)[1..] == Zeros(|a| - 1);
      XorWithZeros(a[1..]);
    }
  }

  /** CRC-32 is xor-affine: the constant is the CRC of as many zero bytes. */
  lemma CrcIsAffine(a: Bytes, b: Bytes)
    requires |a| == |b|
    ensures Crc(XorBytes(a, b)) == Xor(Xor(Crc(a), Crc(b)), Crc(Zeros(|a|)))
  {
    var mixed, zeros, k := XorBytes(a, b), Zeros(|a|), ALL_ONES as nat;
    XorWithZeros(mixed);
    FoldIsLinear(k, k, a, b);
    XorOfSelf(k);
    FoldIsLinear(0, k, mixed, zeros);
    var fa, fb, fz := Fold(k, a), Fold(k, b), Fold(k, zeros);
    assert Fold(k, mixed) == Xor(Xor(fa, fb), fz);
    XorShuffle(fa, k, fb, k);
    XorIsAssociative(Xor(fa, fb), fz, k);
  }

  // ---- Bursts of up to four bytes ----

  lemma TwiceShifted(x: nat, p: nat, y: nat)
    requires y == x * (2 * p)
    ensures BitStep(y) == x * p
  {
    assert y == 2 * (x * p);
  }

  /** Shifting out `n` clear bits. */
  lemma {:induction false} ClearBitsShiftOut(x: nat, n: nat)
    ensures BitSteps(x * Pow2(n), n) == x
  {
    if n > 0 {
      TwiceShifted(x, Pow2(n - 1), x * Pow2(n));
      ClearBitsShiftOut(x, n - 1);
    }
  }

  /** A buffer as a little-endian number. */
  function Packed(buf: Bytes): nat {
    if buf == [] then 0 else buf[0] + Packed(buf[1..]) * 0x100
  }

  lemma {:induction false} PackedIsBounded(buf: Bytes)
    requires |buf| <= 4
    ensures Packed(buf) < TWO32
  {
    if |buf| > 0 {
      assert Packed(buf[1..]) < 0x100_0000 by { PackedOfThree(buf[1..]); }
    }
  }

  lemma PackedOfThree(buf: Bytes)
    requires |buf| <= 3
    ensures Packed(buf) < 0x100_0000
  {
    if |buf| > 0 {
      var b := buf[1..];
      if |b| > 0 {
        var c := b[1..];
        if |c| > 0 {
          assert Packed(c[1..]) == 0;
        }
      }
    }
  }

  lemma {:induction false} PackedIsInjective(a: Bytes, b: Bytes)
    requires |a| == |b| && Packed(a) == Packed(b)
    ensures a == b
  {
    if a != [] {
      PackedIsInjective(a[1..], b[1..]);
      assert a == [a[0]] + a[1..] && b == [b[0]] + b[1..];
    }
  }

  lemma HighBytes(first: nat, rest: nat)
    requires first < 0x100
    ensures Xor(first, rest * 0x100) == first + rest * 0x100
    ensures BitSteps(rest * 0x100, 8) == rest
  {
    Pow2Of32();
    XorOfDisjoint(first, rest, 8);
    ClearBitsShiftOut(rest, 8);
  }

  lemma MixHigh(x: nat, first: nat, high: nat, both: nat)
    requires Xor(first, high) == both
    ensures BitSteps(Xor(x, both), 8) == Xor(BitSteps(Xor(x, first), 8), BitSteps(high, 8))
  {
    XorIsAssociative(x, first, high);
    BitStepsAreLinear(Xor(x, first), high, 8);
  }

  /** Eight turns use up the low byte and bring the rest down. */
  lemma OneByteIn(x: nat, first: nat, rest: nat, both: nat)
    requires first < 0x100 && both == first + rest * 0x100
    ensures BitSteps(Xor(x, both), 8) == Xor(BitSteps(Xor(x, first), 8), rest)
  {
    HighBytes(first, rest);
    MixHigh(x, first, rest * 0x100, both);
  }

  lemma NextByteIn(x: nat, first: nat, tail: nat, n: nat, both: nat, turns: nat)
    requires first < 0x100 && both == first + tail * 0x100 && turns == 8 + n
    ensures BitSteps(Xor(BitSteps(Xor(x, first), 8), tail), n) == BitSteps(Xor(x, both), turns)
  {
    OneByteIn(x, first, tail, both);
    BitStepsAdd(Xor(x, both), 8, n);
  }

  /** Feeding `n` bytes one by one is mixing them in all at once and then turning `8 n` times. */
  lemma {:induction false} FoldIsPackedSteps(x: nat, buf: Bytes)
    ensures Fold(x, buf) == BitSteps(Xor(x, Packed(buf)), 8 * |buf|)
    decreases buf
  {
    if buf == [] {
      XorIsCommutative(x, 0);
    } else {
      FoldIsPackedSteps(BitSteps(Xor(x, buf[0]), 8), buf[1..]);
      NextByteIn(x, buf[0], Packed(buf[1..]), 8 * |buf[1..]|, Packed(buf), 8 * |buf|);
    }
  }

  lemma FoldOfShortIsInjective(x: nat, a: Bytes, b: Bytes)
    requires x < TWO32 && |a| == |b| <= 4 && Fold(x, a) == Fold(x, b)
    ensures a == b
  {
    FoldIsPackedSteps(x, a);
    FoldIsPackedSteps(x, b);
    PackedIsBounded(a);
    PackedIsBounded(b);
    XorOfWords(x, Packed(a));
    XorOfWords(x, Packed(b));
    BitStepsAreInjective(Xor(x, Packed(a)), Xor(x, Packed(b)), 8 * |a|);
    XorIsCommutative(x, Packed(a));
    XorIsCommutative(x, Packed(b));
    XorIsInjective(Packed(a), Packed(b), x);
    PackedIsInjective(a, b);
  }

  /** Two different buffers that differ only inside a window of at most four bytes have different checksums. */
  lemma BurstsAreDetected(before: Bytes, a: Bytes, b: Bytes, after: Bytes)
    requires |a| == |b| <= 4 && a != b
    ensures Crc(before + a + after) != Crc(before + b + after)
  {
    if Crc(before + a + after) == Crc(before + b + after) {
      XorIsInjective(Fold(ALL_ONES, before + a + after), Fold(ALL_ONES, before + b + after), ALL_ONES);
      FoldConcat(ALL_ONES, before + a, after);
      FoldConcat(ALL_ONES, before + b, after);
      FoldConcat(ALL_ONES, before, a);
      FoldConcat(ALL_ONES, before, b);
      var x := Fold(ALL_ONES, before);
      FoldKeepsWord(ALL_ONES, before);
      FoldKeepsWord(x, a);
      FoldKeepsWord(x, b);
      FoldIsInjective(Fold(x, a), Fold(x, b), after);
      FoldOfShortIsInjective(x, a, b);
    }
  }

  /** The same, for any two buffers of one length that agree outside four consecutive positions. */
  lemma NearbyErrorsAreDetected(a: Bytes, b: Bytes, at: nat)
    requires |a| == |b| && a != b
    requires forall i :: 0 <= i < |a| && !(at <= i < at + 4) ==> a[i] == b[i]
    ensures Crc(a) != Crc(b)
  {
    var from := if at < |a| then at else |a|;
    var to := if at + 4 < |a| then at + 4 else |a|;
    assert a == a[..from] + a[from..to] + a[to..];
    assert b == b[..from] + b[from..to] + b[to..];
    assert a[..from] == b[..from] && a[to..] == b[to..];
    BurstsAreDetected(a[..from], a[from..to], b[from..to], a[to..]);
  }
}
