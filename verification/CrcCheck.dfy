/** The checksum is the one of section 3.4 of RFC 2083: its polynomial, and check values through machine words. */
module CrcCheck {
  import opened Crc32

  // ---- The polynomial ----

  type Exponent = e: nat | e < 32

  /** The exclusive or of one bit for each exponent; the constant term is bit 31. */
  function Reflected(exponents: seq<Exponent>): nat {
    if exponents == [] then 0
    else Xor(Reflected(exponents[..|exponents| - 1]), Pow2(31 - exponents[|exponents| - 1]))
  }

  lemma OneMoreTerm(exponents: seq<Exponent>, e: Exponent, sum: nat, bit: nat, more: seq<Exponent>, next: nat)
    requires more == exponents + [e] && Reflected(exponents) == sum
    requires bit == Pow2(31 - e) && sum < bit && next == sum + bit
    ensures Reflected(more) == next
  {
    assert more[..|exponents|] == exponents;
    XorOfDisjoint(sum, 1, 31 - e);
  }

  lemma LowPowers()
    ensures Pow2(5) == 0x20 && Pow2(8) == 0x100 && Pow2(9) == 0x200 && Pow2(15) == 0x8000 && Pow2(19) == 0x8_0000
    ensures Pow2(20) == 0x10_0000 && Pow2(21) == 0x20_0000
  {
  }

  lemma MiddlePowers()
    ensures Pow2(23) == 0x80_0000 && Pow2(24) == 0x100_0000 && Pow2(26) == 0x400_0000 && Pow2(27) == 0x800_0000
  {
    LowPowers();
  }

  lemma HighPowers()
    ensures Pow2(29) == 0x2000_0000 && Pow2(30) == 0x4000_0000 && Pow2(31) == 0x8000_0000
  {
    MiddlePowers();
  }

  lemma HighTerms(a: seq<Exponent>, b: seq<Exponent>, c: seq<Exponent>, d: seq<Exponent>, e: seq<Exponent>,
                  f: seq<Exponent>, g: seq<Exponent>)
    requires a == [] + [26] && b == a + [23] && c == b + [22] && d == c + [16] && e == d + [12] && f == e + [11]
             && g == f + [10]
    ensures Reflected(g) == 0x38_8320
  {
    LowPowers();
    OneMoreTerm([], 26, 0, 0x20, a, 0x20);
    OneMoreTerm(a, 23, 0x20, 0x100, b, 0x120);
    OneMoreTerm(b, 22, 0x120, 0x200, c, 0x320);
    OneMoreTerm(c, 16, 0x320, 0x8000, d, 0x8320);
    OneMoreTerm(d, 12, 0x8320, 0x8_0000, e, 0x8_8320);
    OneMoreTerm(e, 11, 0x8_8320, 0x10_0000, f, 0x18_8320);
    OneMoreTerm(f, 10, 0x18_8320, 0x20_0000, g, 0x38_8320);
  }

  lemma MiddleTerms(g: seq<Exponent>, h: seq<Exponent>, i: seq<Exponent>, j: seq<Exponent>, k: seq<Exponent>)
    requires h == g + [8] && i == h + [7] && j == i + [5] && k == j + [4] && Reflected(g) == 0x38_8320
    ensures Reflected(k) == 0xdb8_8320
  {
    MiddlePowers();
    OneMoreTerm(g, 8, 0x38_8320, 0x80_0000, h, 0xb8_8320);
    OneMoreTerm(h, 7, 0xb8_8320, 0x100_0000, i, 0x1b8_8320);
    OneMoreTerm(i, 5, 0x1b8_8320, 0x400_0000, j, 0x5b8_8320);
    OneMoreTerm(j, 4, 0x5b8_8320, 0x800_0000, k, 0xdb8_8320);
  }

  lemma LowTerms(k: seq<Exponent>, l: seq<Exponent>, m: seq<Exponent>)
    requires l == k + [2] && m == l + [1] && Reflected(k) == 0xdb8_8320
    ensures Reflected(m) == 0x6db8_8320
  {
    HighPowers();
    OneMoreTerm(k, 2, 0xdb8_8320, 0x2000_0000, l, 0x2db8_8320);
    OneMoreTerm(l, 1, 0x2db8_8320, 0x4000_0000, m, 0x6db8_8320);
  }

  lemma LastTerm(m: seq<Exponent>, n: seq<Exponent>)
    requires n == m + [0] && Reflected(m) == 0x6db8_8320
    ensures Reflected(n) == 0xedb8_8320
  {
    HighPowers();
    OneMoreTerm(m, 0, 0x6db8_8320, 0x8000_0000, n, 0xedb8_8320);
  }

  /** x^32 + x^26 + x^23 + x^22 + x^16 + x^12 + x^11 + x^10 + x^8 + x^7 + x^5 + x^4 + x^2 + x + 1, but for x^32. */
  lemma PolynomialOfTheStandard()
    ensures Reflected([26, 23, 22, 16, 12, 11, 10, 8, 7, 5, 4, 2, 1, 0]) == POLYNOMIAL
  {
    var terms: seq<Exponent> := [26, 23, 22, 16, 12, 11, 10, 8, 7, 5, 4, 2, 1, 0];
    HighTerms(terms[..1], terms[..2], terms[..3], terms[..4], terms[..5], terms[..6], terms[..7]);
    MiddleTerms(terms[..7], terms[..8], terms[..9], terms[..10], terms[..11]);
    LowTerms(terms[..11], terms[..12], terms[..13]);
    LastTerm(terms[..13], terms);
  }

  // ---- Machine words ----

  function Half(x: bv32): bv32 { x >> 1 }

  predicate Odd(x: bv32) { x & 1 == 1 }

  function Mix(x: bv32, y: bv32): bv32 { x ^ y }

  /** The number whose `n` low binary digits are those of `x`. */
  function Value(x: bv32, n: nat): nat {
    if n == 0 then 0 else 2 * Value(Half(x), n - 1) + Digit(Odd(x))
  }

  function Digit(b: bool): nat { if b then 1 else 0 }

  lemma MixOfDigits(x: bv32, y: bv32)
    ensures Half(Mix(x, y)) == Mix(Half(x), Half(y))
    ensures Odd(Mix(x, y)) <==> Odd(x) != Odd(y)
  {
  }

  /** The `n` low digits of a word. */
  datatype Digits = End | Then(high: Digits, low: bool)

  function DigitsOf(x: bv32, n: nat): Digits {
    if n == 0 then End else Then(DigitsOf(Half(x), n - 1), Odd(x))
  }

  function Number(d: Digits): nat {
    match d case End => 0 case Then(high, low) => 2 * Number(high) + Digit(low)
  }

  function MixDigits(a: Digits, b: Digits): Digits {
    if a.End? || b.End? then End else Then(MixDigits(a.high, b.high), a.low != b.low)
  }

  lemma {:induction false} ValueIsNumber(x: bv32, n: nat)
    ensures Value(x, n) == Number(DigitsOf(x, n))
  {
    if n > 0 {
      ValueIsNumber(Half(x), n - 1);
    }
  }

  /** The `n` low digits of `z` are the exclusive or of those of `x` and `y`. */
  predicate Mixed(x: bv32, y: bv32, z: bv32, n: nat) {
    n > 0 ==> (Odd(z) <==> Odd(x) != Odd(y)) && Mixed(Half(x), Half(y), Half(z), n - 1)
  }

  lemma {:induction false} MixIsMixed(x: bv32, y: bv32, n: nat)
    ensures Mixed(x, y, Mix(x, y), n)
  {
    if n > 0 {
      MixOfDigits(x, y);
      MixIsMixed(Half(x), Half(y), n - 1);
    }
  }

  lemma {:induction false} DigitsOfMixed(x: bv32, y: bv32, z: bv32, n: nat)
    requires Mixed(x, y, z, n)
    ensures DigitsOf(z, n) == MixDigits(DigitsOf(x, n), DigitsOf(y, n))
  {
    if n > 0 {
      DigitsOfMixed(Half(x), Half(y), Half(z), n - 1);
    }
  }

  predicate SameLength(a: Digits, b: Digits) {
    if a.Then? && b.Then? then SameLength(a.high, b.high) else a.End? && b.End?
  }

  lemma {:induction false} DigitsHaveLength(x: bv32, y: bv32, n: nat)
    ensures SameLength(DigitsOf(x, n), DigitsOf(y, n))
  {
    if n > 0 {
      DigitsHaveLength(Half(x), Half(y), n - 1);
    }
  }

  lemma JoinedDigits(a: nat, x: bool, p: nat)
    requires p == 2 * a + Digit(x)
    ensures p / 2 == a && p % 2 == Digit(x)
  {
  }

  lemma XorOfJoined(a: nat, b: nat, x: bool, y: bool)
    ensures Xor(2 * a + Digit(x), 2 * b + Digit(y)) == 2 * Xor(a, b) + Digit(x != y)
  {
    var p, q, r := 2 * a + Digit(x), 2 * b + Digit(y), 2 * Xor(a, b) + Digit(x != y);
    JoinedDigits(a, x, p);
    JoinedDigits(b, y, q);
    JoinedDigits(Xor(a, b), x != y, r);
    XorDigits(p, q);
    SameDigits(Xor(p, q), r);
  }

  lemma {:induction false} NumberOfMix(a: Digits, b: Digits)
    requires SameLength(a, b)
    ensures Xor(Number(a), Number(b)) == Number(MixDigits(a, b))
  {
    if a.Then? {
      NumberOfMix(a.high, b.high);
      XorOfJoined(Number(a.high), Number(b.high), a.low, b.low);
    }
  }

  /** Exclusive or on numbers is `^` on words. */
  lemma XorIsMix(x: bv32, y: bv32, n: nat)
    ensures Xor(Value(x, n), Value(y, n)) == Value(Mix(x, y), n)
  {
    ValueIsNumber(x, n);
    ValueIsNumber(y, n);
    ValueIsNumber(Mix(x, y), n);
    MixIsMixed(x, y, n);
    DigitsOfMixed(x, y, Mix(x, y), n);
    DigitsHaveLength(x, y, n);
    NumberOfMix(DigitsOf(x, n), DigitsOf(y, n));
  }

  /** `x` has no digit from the `n`th on. */
  predicate Fits(x: bv32, n: nat) {
    if n == 0 then x == 0 else Fits(Half(x), n - 1)
  }

  lemma {:induction false} ValueOfFitting(x: bv32, n: nat)
    requires Fits(x, n)
    ensures Value(x, n + 1) == Value(x, n)
  {
    if n > 0 {
      ValueOfFitting(Half(x), n - 1);
    }
  }

  function Quarter(x: bv32): bv32 { Half(Half(Half(Half(x)))) }

  lemma FitsByFour(x: bv32, n: nat)
    requires Fits(Quarter(x), n)
    ensures Fits(x, n + 4)
  {
    assert Fits(Half(Half(Half(x))), n + 1);
    assert Fits(Half(Half(x)), n + 2);
  }

  lemma ShiftedOut(x: bv32)
    ensures Quarter(Quarter(Quarter(Quarter(Quarter(Quarter(Quarter(Half(Half(Half(Half(x))))))))))) == 0
  {
  }

  lemma HalfFits(x: bv32)
    ensures Fits(Half(x), 31)
  {
    var a := Half(x);
    ShiftedOut(x);
    var d := Half(Half(Half(a)));
    assert Fits(Quarter(Quarter(Quarter(Quarter(Quarter(Quarter(Quarter(d))))))), 0);
    FitsByFour(Quarter(Quarter(Quarter(Quarter(Quarter(Quarter(d)))))), 0);
    FitsByFour(Quarter(Quarter(Quarter(Quarter(Quarter(d))))), 4);
    FitsByFour(Quarter(Quarter(Quarter(Quarter(d)))), 8);
    FitsByFour(Quarter(Quarter(Quarter(d))), 12);
    FitsByFour(Quarter(Quarter(d)), 16);
    FitsByFour(Quarter(d), 20);
    FitsByFour(d, 24);
    assert Fits(Half(Half(a)), 29);
    assert Fits(Half(a), 30);
  }

  /** Four digits at a time. */
  lemma ValueByFour(x: bv32, n: nat, rest: nat, digit: nat)
    requires Value(Quarter(x), n) == rest
    requires digit == 8 * Digit(Odd(Half(Half(Half(x))))) + 4 * Digit(Odd(Half(Half(x)))) + 2 * Digit(Odd(Half(x)))
                      + Digit(Odd(x))
    ensures Value(x, n + 4) == 0x10 * rest + digit
  {
    assert Value(Half(Half(Half(x))), n + 1) == 2 * rest + Digit(Odd(Half(Half(Half(x)))));
    assert Value(Half(Half(x)), n + 2) == 2 * Value(Half(Half(Half(x))), n + 1) + Digit(Odd(Half(Half(x))));
  }

  lemma PolynomialWord()
    ensures Value(0xedb8_8320, 32) == POLYNOMIAL
  {
    ValueByFour(0xe, 0, 0, 0xe);
    ValueByFour(0xed, 4, 0xe, 0xd);
    ValueByFour(0xedb, 8, 0xed, 0xb);
    ValueByFour(0xedb8, 12, 0xedb, 8);
    ValueByFour(0xe_db88, 16, 0xedb8, 8);
    ValueByFour(0xed_b883, 20, 0xe_db88, 3);
    ValueByFour(0xedb_8832, 24, 0xed_b883, 2);
    ValueByFour(0xedb8_8320, 28, 0xedb_8832, 0);
  }

  /** One turn of the inner loop, as the code writes it on words. */
  function Turn(crc: bv32): bv32 {
    if Odd(crc) then Mix(Half(crc), 0xedb8_8320) else Half(crc)
  }

  lemma HalfOnWords(x: bv32)
    ensures Value(Half(x), 32) == Value(x, 32) / 2 && Value(x, 32) % 2 == Digit(Odd(x))
  {
    HalfFits(x);
    ValueOfFitting(Half(x), 31);
  }

  /** The turn of the laws is the turn on machine words. */
  lemma TurnIsBitStep(x: bv32)
    ensures BitStep(Value(x, 32)) == Value(Turn(x), 32)
  {
    HalfOnWords(x);
    PolynomialWord();
    XorIsMix(Half(x), 0xedb8_8320, 32);
  }

  // ---- Check values ----

  function EightTurns(x: bv32): bv32 {
    Turn(Turn(Turn(Turn(Turn(Turn(Turn(Turn(x))))))))
  }

  lemma EightTurnsAreBitSteps(x: bv32)
    ensures BitSteps(Value(x, 32), 8) == Value(EightTurns(x), 32)
  {
    var a := Turn(x);
    var b := Turn(a);
    var c := Turn(b);
    var d := Turn(c);
    var e := Turn(d);
    var f := Turn(e);
    var g := Turn(f);
    TurnIsBitStep(x);
    TurnIsBitStep(a);
    TurnIsBitStep(b);
    TurnIsBitStep(c);
    TurnIsBitStep(d);
    TurnIsBitStep(e);
    TurnIsBitStep(f);
    TurnIsBitStep(g);
  }

  lemma ThirtyTwoTurns(a: bv32, b: bv32, c: bv32, d: bv32, e: bv32)
    requires b == EightTurns(a) && c == EightTurns(b) && d == EightTurns(c) && e == EightTurns(d)
    ensures BitSteps(Value(a, 32), 32) == Value(e, 32)
  {
    var x := Value(a, 32);
    EightTurnsAreBitSteps(a);
    EightTurnsAreBitSteps(b);
    EightTurnsAreBitSteps(c);
    EightTurnsAreBitSteps(d);
    BitStepsAdd(x, 8, 24);
    BitStepsAdd(Value(b, 32), 8, 16);
    BitStepsAdd(Value(c, 32), 8, 8);
  }

  lemma IendTurns()
    ensures EightTurns(0xbbb1_bab6) == 0x22b9_a703 && EightTurns(0x22b9_a703) == 0x992b_e81d
    ensures EightTurns(0x992b_e81d) == 0x639f_4731 && EightTurns(0x639f_4731) == 0x51bd_9f7d
  {
  }

  lemma IendWords()
    ensures Value(0xbbb1_bab6, 32) == 0xbbb1_bab6 && Value(0x51bd_9f7d, 32) == 0x51bd_9f7d
  {
    ValueByFour(0xb, 0, 0, 0xb);
    ValueByFour(0xbb, 4, 0xb, 0xb);
    ValueByFour(0xbbb, 8, 0xbb, 0xb);
    ValueByFour(0xbbb1, 12, 0xbbb, 1);
    ValueByFour(0xb_bb1b, 16, 0xbbb1, 0xb);
    ValueByFour(0xbb_b1ba, 20, 0xb_bb1b, 0xa);
    ValueByFour(0xbbb_1bab, 24, 0xbb_b1ba, 0xb);
    ValueByFour(0xbbb1_bab6, 28, 0xbbb_1bab, 6);
    ValueByFour(0x5, 0, 0, 5);
    ValueByFour(0x51, 4, 0x5, 1);
    ValueByFour(0x51b, 8, 0x51, 0xb);
    ValueByFour(0x51bd, 12, 0x51b, 0xd);
    ValueByFour(0x5_1bd9, 16, 0x51bd, 9);
    ValueByFour(0x51_bd9f, 20, 0x5_1bd9, 0xf);
    ValueByFour(0x51b_d9f7, 24, 0x51_bd9f, 7);
    ValueByFour(0x51bd_9f7d, 28, 0x51b_d9f7, 0xd);
  }

  lemma OnesJoined(ones: nat, b: nat, c: nat)
    requires b / 2 <= ones && Xor(ones, b / 2) == c && c == ones - b / 2
    ensures Xor(2 * ones + 1, b) == 2 * ones + 1 - b
  {
    XorOfJoined(ones, b / 2, true, b % 2 == 1);
    assert b == 2 * (b / 2) + Digit(b % 2 == 1);
  }

  lemma {:induction false} XorWithOnes(n: nat, b: nat)
    requires b < Pow2(n)
    ensures Xor(Pow2(n) - 1, b) == Pow2(n) - 1 - b
  {
    if n > 0 {
      XorWithOnes(n - 1, b / 2);
      OnesJoined(Pow2(n - 1) - 1, b, Pow2(n - 1) - 1 - b / 2);
    }
  }

  lemma Complement(b: nat)
    requires b < TWO32
    ensures Xor(ALL_ONES, b) == ALL_ONES - b && Xor(b, ALL_ONES) == ALL_ONES - b
  {
    Pow2Of32();
    XorWithOnes(32, b);
    XorIsCommutative(b, ALL_ONES);
  }

  lemma IendPacked(kind: Bytes)
    requires kind == [73, 69, 78, 68]
    ensures Packed(kind) == 0x444e_4549
  {
    assert kind[1..] == [69, 78, 68] && kind[1..][1..] == [78, 68] && kind[1..][1..][1..] == [68];
    assert Packed(kind[1..][1..][1..]) == 68;
    assert Packed(kind[1..][1..]) == 78 + 68 * 0x100;
  }

  /** The checksum of the empty IEND chunk that ends every file. */
  lemma ChecksumOfIend()
    ensures Crc([73, 69, 78, 68]) == 0xae42_6082
  {
    var kind: Bytes := [73, 69, 78, 68];
    IendPacked(kind);
    FoldIsPackedSteps(ALL_ONES, kind);
    Complement(0x444e_4549);
    IendTurns();
    IendWords();
    ThirtyTwoTurns(0xbbb1_bab6, 0x22b9_a703, 0x992b_e81d, 0x639f_4731, 0x51bd_9f7d);
    Complement(0x51bd_9f7d);
  }
}
