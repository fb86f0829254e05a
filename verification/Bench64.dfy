/** The 64-bit arithmetic of the benchmark: the splitmix64 fixture generator and the FNV-1a
    hasher. A `u64` is an integer below 2^64; wrapping operators reduce modulo 2^64, the
    exclusive-or is defined bit by bit and a right shift is a division by a power of two. */
module Bench64 {
  import opened Arithmetic

  const WORD := 0x1_0000_0000_0000_0000
  const GAMMA := 0x9E37_79B9_7F4A_7C15
  const GAMMA_INVERSE := 0xF1DE_83E1_9937_733D
  const MULTIPLIER1 := 0xBF58_476D_1CE4_E5B9
  const MULTIPLIER1_INVERSE := 0x96DE_1B17_3F11_9089
  const MULTIPLIER2 := 0x94D0_49BB_1331_11EB
  const MULTIPLIER2_INVERSE := 0x3196_42B2_D24D_8EC3
  const OFFSET := 14_695_981_039_346_656_037
  const PRIME := 1_099_511_628_211
  const PRIME_INVERSE := 0xCE96_5057_AFF6_957B

  type u64 = x: int | 0 <= x < WORD
  type byte = x: int | 0 <= x < 256

  // ------------------------------------------------------------- exclusive-or

  function Xor(a: nat, b: nat): nat {
    if a == 0 && b == 0 then 0
    else (if a % 2 == b % 2 then 0 else 1) + 2 * Xor(a / 2, b / 2)
  }

  lemma {:induction false} XorLaws(a: nat, b: nat)
    ensures Xor(a, b) == Xor(b, a)
    ensures Xor(a, 0) == a && Xor(a, a) == 0
  {
    if a != 0 || b != 0 {
      XorLaws(a / 2, b / 2);
    }
  }

  lemma {:induction false} XorAssociative(a: nat, b: nat, c: nat)
    ensures Xor(Xor(a, b), c) == Xor(a, Xor(b, c))
    decreases a + b + c
  {
    if a != 0 || b != 0 || c != 0 {
      XorAssociative(a / 2, b / 2, c / 2);
      XorHalves(a, b);
      XorHalves(b, c);
      XorHalves(Xor(a, b), c);
      XorHalves(a, Xor(b, c));
    }
  }

  /** One bit and the rest: the defining step, without the case for zero. */
  lemma XorHalves(a: nat, b: nat)
    ensures Xor(a, b) / 2 == Xor(a / 2, b / 2)
    ensures Xor(a, b) % 2 == if a % 2 == b % 2 then 0 else 1
  {
  }

  lemma XorCancels(a: nat, b: nat)
    ensures Xor(Xor(a, b), b) == a
  {
    XorAssociative(a, b, b);
    XorLaws(b, b);
    XorLaws(a, b);
  }

  lemma XorStaysBelow(a: nat, b: nat, j: nat)
    requires a < Pow2(j) && b < Pow2(j)
    ensures Xor(a, b) < Pow2(j)
  {
    if j > 0 {
      XorStaysBelow(a / 2, b / 2, j - 1);
      XorHalves(a, b);
    }
  }

  function XorWords(a: u64, b: u64): u64 {
    WordIsPow2();
    XorStaysBelow(a, b, 64);
    Xor(a, b)
  }

  // -------------------------------------------------------------- right shift

  function Pow2(j: nat): nat {
    if j == 0 then 1 else 2 * Pow2(j - 1)
  }

  lemma {:induction false} Pow2Adds(j: nat, k: nat)
    ensures Pow2(j + k) == Pow2(j) * Pow2(k)
  {
    if j > 0 {
      Pow2Adds(j - 1, k);
      assert Pow2(j + k) == 2 * Pow2(j - 1 + k) && Pow2(j) == 2 * Pow2(j - 1);
      hide Pow2;
      DoubleTimes(Pow2(j - 1), Pow2(k));
    }
  }

  lemma DoubleTimes(x: nat, y: nat)
    ensures (2 * x) * y == 2 * (x * y)
  {
  }

  lemma WordIsPow2()
    ensures Pow2(64) == WORD
  {
    assert Pow2(8) == 256;
    Pow2Adds(8, 8);
    Pow2Adds(16, 16);
    Pow2Adds(32, 32);
  }

  function ShiftRight(a: nat, k: nat): nat {
    if k == 0 then a else ShiftRight(a / 2, k - 1)
  }

  lemma {:induction false} ShiftIsDivision(a: nat, k: nat)
    ensures Pow2(k) > 0 && ShiftRight(a, k) == a / Pow2(k)
  {
    if k > 0 {
      ShiftIsDivision(a / 2, k - 1);
      var p := Pow2(k - 1);
      DivisionNests(a, p);
    }
  }

  lemma DivisionNests(a: nat, p: nat)
    requires p > 0
    ensures a / 2 / p == a / (2 * p)
  {
    var h := a / 2;
    var q, r := h / p, h % p;
    DoubleTimes(p, q);
    QuotientUnique(a, 2 * p, q, 2 * r + a % 2);
  }

  lemma {:induction false} ShiftDistributes(a: nat, b: nat, k: nat)
    ensures ShiftRight(Xor(a, b), k) == Xor(ShiftRight(a, k), ShiftRight(b, k))
  {
    if k > 0 {
      XorHalves(a, b);
      ShiftDistributes(a / 2, b / 2, k - 1);
    }
  }

  lemma {:induction false} ShiftsAdd(a: nat, j: nat, k: nat)
    ensures ShiftRight(ShiftRight(a, j), k) == ShiftRight(a, j + k)
  {
    if j > 0 {
      ShiftsAdd(a / 2, j - 1, k);
    }
  }

  lemma {:induction false} ShiftShrinks(a: nat, k: nat, j: nat)
    requires a < Pow2(j)
    ensures ShiftRight(a, k) <= a
    ensures k >= j ==> ShiftRight(a, k) == 0
  {
    if k > 0 {
      if j > 0 {
        ShiftShrinks(a / 2, k - 1, j - 1);
      } else {
        ShiftShrinks(a / 2, k - 1, 0);
      }
    }
  }

  function XorShift(a: u64, k: nat): u64 {
    WordIsPow2();
    ShiftShrinks(a, k, 64);
    XorWords(a, ShiftRight(a, k))
  }

  /** Undoes `XorShift(_, k)` for k >= 22: the shifts by 3k and more have run out of bits. */
  function XorUnshift(z: u64, k: nat): u64 {
    WordIsPow2();
    ShiftShrinks(z, k, 64);
    ShiftShrinks(z, k + k, 64);
    XorWords(XorWords(z, ShiftRight(z, k)), ShiftRight(z, k + k))
  }

  lemma {:induction false} XorShiftInverse(y: u64, k: nat)
    requires k >= 22
    ensures XorUnshift(XorShift(y, k), k) == y
    ensures XorShift(XorUnshift(y, k), k) == y
  {
    var y1, y2, y3 := ShiftRight(y, k), ShiftRight(y, k + k), ShiftRight(y, k + k + k);
    WordIsPow2();
    ShiftShrinks(y, k + k + k, 64);
    ShiftsAdd(y, k, k);
    ShiftsAdd(y, k + k, k);
    ShiftsAdd(y, k, k + k);
    ShiftDistributes(y, y1, k);
    ShiftDistributes(y, y1, k + k);
    ShiftDistributes(Xor(y, y1), y2, k);
    XorTelescopes(y, y1, y2);
  }

  lemma XorTelescopes(a: nat, b: nat, c: nat)
    ensures Xor(Xor(Xor(a, b), Xor(b, c)), Xor(c, 0)) == a
    ensures Xor(Xor(Xor(a, b), c), Xor(Xor(b, c), 0)) == a
  {
    XorLaws(c, 0);
    XorLaws(Xor(b, c), 0);
    XorAssociative(Xor(a, b), Xor(b, c), c);
    XorCancels(b, c);
    XorCancels(a, b);
    XorAssociative(a, b, c);
    XorCancels(a, Xor(b, c));
  }

  // ----------------------------------------------------- wrapping multiplication

  function MulWrap(a: u64, b: u64): u64 {
    a * b % WORD
  }

  /** Multiplying by `c` and then by an inverse of `c` modulo 2^64 changes nothing. */
  lemma MulInverse(x: u64, c: u64, d: u64)
    requires c * d % WORD == 1
    ensures MulWrap(MulWrap(x, c), d) == x
  {
    var k, q := c * d / WORD, x * c / WORD;
    var r := x * c % WORD;
    assert c * d == k * WORD + 1;
    assert x * c == q * WORD + r;
    calc {
      r * d;
      (x * c - q * WORD) * d;
      x * (c * d) - q * d * WORD;
      x * (k * WORD + 1) - q * d * WORD;
      (x * k - q * d) * WORD + x;
    }
    RemainderUnique(r * d, x * k - q * d, x);
  }

  lemma RemainderUnique(n: int, q: int, r: int)
    requires n == q * WORD + r && 0 <= r < WORD
    ensures n % WORD == r
  {
  }

  // ---------------------------------------------------------------- splitmix64

  /** One round of the finalizer and the round that undoes it. */
  function Round(z: u64, k: nat, c: u64): u64 {
    MulWrap(XorShift(z, k), c)
  }

  function Unround(z: u64, k: nat, d: u64): u64 {
    XorUnshift(MulWrap(z, d), k)
  }

  lemma RoundInverse(z: u64, k: nat, c: u64, d: u64)
    requires k >= 22 && c * d % WORD == 1
    ensures Unround(Round(z, k, c), k, d) == z
    ensures Round(Unround(z, k, d), k, c) == z
  {
    MulInverse(XorShift(z, k), c, d);
    XorShiftInverse(z, k);
    XorShiftInverse(MulWrap(z, d), k);
    MulInverse(z, d, c);
  }

  /** Two rounds and a last shift. */
  function MixWith(z: u64, j: nat, c: u64, k: nat, d: u64, l: nat): u64 {
    XorShift(Round(Round(z, j, c), k, d), l)
  }

  function UnmixWith(z: u64, j: nat, c: u64, k: nat, d: u64, l: nat): u64 {
    Unround(Unround(XorUnshift(z, l), k, d), j, c)
  }

  lemma MixWithInverse(z: u64, j: nat, c: u64, c': u64, k: nat, d: u64, d': u64, l: nat)
    requires j >= 22 && k >= 22 && l >= 22
    requires c * c' % WORD == 1 && d * d' % WORD == 1
    ensures UnmixWith(MixWith(z, j, c, k, d, l), j, c', k, d', l) == z
    ensures MixWith(UnmixWith(z, j, c', k, d', l), j, c, k, d, l) == z
  {
    var y := Round(z, j, c);
    RoundInverse(z, j, c, c');
    RoundInverse(y, k, d, d');
    XorShiftInverse(Round(y, k, d), l);
    XorShiftInverse(z, l);
    var x := XorUnshift(z, l);
    RoundInverse(x, k, d, d');
    RoundInverse(Unround(x, k, d'), j, c, c');
  }

  /** The finalizer of splitmix64. */
  function Mix(state: u64): u64 {
    MixWith(state, 30, MULTIPLIER1, 27, MULTIPLIER2, 31)
  }

  /** The finalizer run backwards. */
  function Unmix(output: u64): u64 {
    UnmixWith(output, 30, MULTIPLIER1_INVERSE, 27, MULTIPLIER2_INVERSE, 31)
  }

  lemma MixInverse(x: u64)
    ensures Unmix(Mix(x)) == x
    ensures Mix(Unmix(x)) == x
  {
    MixWithInverse(x, 30, MULTIPLIER1, MULTIPLIER1_INVERSE, 27, MULTIPLIER2, MULTIPLIER2_INVERSE, 31);
  }

  /** The output map is a bijection of the 64-bit values: every word is the image of exactly
      one state. */
  lemma MixIsBijective(x: u64, y: u64)
    ensures Mix(x) == Mix(y) <==> x == y
    ensures Mix(Unmix(y)) == y
  {
    MixInverse(x);
    MixInverse(y);
  }

  /** The generator's state after `n` draws. */
  function StateAfter(seed: u64, n: nat): u64 {
    if n == 0 then seed else (StateAfter(seed, n - 1) + GAMMA) % WORD
  }

  /** The value of the draw that follows `n` earlier draws. */
  function Draw(seed: u64, n: nat): u64 {
    Mix(StateAfter(seed, n + 1))
  }

  lemma AddWraps(a: int, b: int)
    ensures (a % WORD + b) % WORD == (a + b) % WORD
  {
    RemainderUnique(a + b, a / WORD + (a % WORD + b) / WORD, (a % WORD + b) % WORD);
  }

  lemma {:induction false} StateClosedForm(seed: u64, n: nat)
    ensures StateAfter(seed, n) == (seed + n * GAMMA) % WORD
  {
    if n > 0 {
      StateClosedForm(seed, n - 1);
      AddWraps(seed + (n - 1) * GAMMA, GAMMA);
      assert seed + (n - 1) * GAMMA + GAMMA == seed + n * GAMMA;
    }
  }

  /** A multiple of the increment vanishes modulo 2^64 only for a multiple of 2^64, because the
      increment is odd and so has an inverse. */
  lemma IncrementIsInvertible(d: int)
    ensures d * GAMMA % WORD == 0 <==> d % WORD == 0
  {
    var k := GAMMA * GAMMA_INVERSE / WORD;
    assert GAMMA * GAMMA_INVERSE == k * WORD + 1;
    if d * GAMMA % WORD == 0 {
      var q := d * GAMMA / WORD;
      assert d == (q * GAMMA_INVERSE - d * k) * WORD;
      RemainderUnique(d, q * GAMMA_INVERSE - d * k, 0);
    }
    if d % WORD == 0 {
      RemainderUnique(d * GAMMA, d / WORD * GAMMA, 0);
    }
  }

  lemma SameRemainder(a: int, b: int)
    ensures a % WORD == b % WORD <==> (a - b) % WORD == 0
  {
  }

  /** The state walks through all 2^64 values before it repeats. */
  lemma StatesMeet(seed: u64, i: nat, j: nat)
    ensures StateAfter(seed, i) == StateAfter(seed, j) <==> (i - j) % WORD == 0
  {
    StateClosedForm(seed, i);
    StateClosedForm(seed, j);
    SameRemainder(seed + i * GAMMA, seed + j * GAMMA);
    assert (seed + i * GAMMA) - (seed + j * GAMMA) == (i - j) * GAMMA;
    IncrementIsInvertible(i - j);
  }

  /** Full period: two draws from one seed agree exactly when their positions differ by a
      multiple of 2^64. */
  lemma DrawsMeet(seed: u64, i: nat, j: nat)
    ensures Draw(seed, i) == Draw(seed, j) <==> (i - j) % WORD == 0
  {
    StatesMeet(seed, i + 1, j + 1);
    MixIsBijective(StateAfter(seed, i + 1), StateAfter(seed, j + 1));
  }

  /** Bit `k` of a number. */
  function Bit(a: nat, k: nat): nat {
    ShiftIsDivision(a, k);
    a / Pow2(k) % 2
  }

  lemma BitOfHalf(a: nat, k: nat)
    requires k > 0
    ensures Bit(a, k) == Bit(a / 2, k - 1)
  {
    ShiftIsDivision(a, k);
    ShiftIsDivision(a / 2, k - 1);
    assert ShiftRight(a, k) == ShiftRight(a / 2, k - 1);
  }

  /** A bit of an exclusive-or is set where exactly one of the two is. */
  lemma {:induction false} XorByBits(a: nat, b: nat, k: nat)
    ensures Bit(Xor(a, b), k) == if Bit(a, k) == Bit(b, k) then 0 else 1
  {
    hide Xor, Bit;
    XorHalves(a, b);
    if k == 0 {
      LowBit(a);
      LowBit(b);
      LowBit(Xor(a, b));
    } else {
      BitOfHalf(a, k);
      BitOfHalf(b, k);
      BitOfHalf(Xor(a, b), k);
      XorByBits(a / 2, b / 2, k - 1);
    }
  }

  lemma LowBit(a: nat)
    ensures Bit(a, 0) == a % 2
  {
  }

  lemma ShiftsInNumbers(a: nat)
    ensures ShiftRight(a, 30) == a / 1_073_741_824 && ShiftRight(a, 27) == a / 134_217_728 && ShiftRight(a, 31) == a / 2_147_483_648
  {
    Pow2InNumbers();
    hide Pow2, ShiftRight;
    ShiftIsDivision(a, 30);
    ShiftIsDivision(a, 27);
    ShiftIsDivision(a, 31);
  }

  lemma Pow2InNumbers()
    ensures Pow2(27) == 134_217_728 && Pow2(30) == 1_073_741_824 && Pow2(31) == 2_147_483_648
  {
    assert Pow2(9) == 512;
    Pow2Adds(9, 9);
    Pow2Adds(9, 18);
    Pow2Adds(3, 27);
    Pow2Adds(1, 30);
    assert Pow2(3) == 8 && Pow2(1) == 2;
  }

  /** A draw in numbers: the seed plus one increment for each draw up to and including this one, twice
      folded onto itself and multiplied, and folded once more, all modulo 2^64. */
  lemma DrawInNumbers(seed: u64, n: nat)
    ensures var s := (seed + (n + 1) * 11_400_714_819_323_198_485) % 18_446_744_073_709_551_616;
            var y := Xor(s, s / 1_073_741_824) * 13_787_848_793_156_543_929 % 18_446_744_073_709_551_616;
            var z := Xor(y, y / 134_217_728) * 10_723_151_780_598_845_931 % 18_446_744_073_709_551_616;
            Draw(seed, n) == Xor(z, z / 2_147_483_648)
  {
    hide Xor, ShiftRight;
    StateClosedForm(seed, n + 1);
    var s := StateAfter(seed, n + 1);
    ShiftsInNumbers(s);
    var y := MulWrap(XorShift(s, 30), MULTIPLIER1);
    ShiftsInNumbers(y);
    var z := MulWrap(XorShift(y, 27), MULTIPLIER2);
    ShiftsInNumbers(z);
  }

  class Rng {
    var state: u64

    constructor (seed: u64)
      ensures state == seed
    {
      state := seed;
    }

    method NextU64() returns (r: u64)
      modifies this
      ensures state == StateAfter(old(state), 1)
      ensures r == Draw(old(state), 0)
    {
      state := (state + GAMMA) % WORD;
      var z := state;
      z := MulWrap(XorShift(z, 30), MULTIPLIER1);
      z := MulWrap(XorShift(z, 27), MULTIPLIER2);
      r := XorShift(z, 31);
      assert StateAfter(old(state), 0) == old(state);
    }

    /** A zero bound yields zero and consumes no draw. */
    method Below(bound: u64) returns (r: u64)
      modifies this
      ensures bound == 0 ==> r == 0 && state == old(state)
      ensures bound != 0 ==> r < bound && r == Draw(old(state), 0) % bound
      ensures bound != 0 ==> state == StateAfter(old(state), 1)
    {
      if bound == 0 {
        return 0;
      }
      var z := NextU64();
      r := z % bound;
    }
  }

  // -------------------------------------------------------------------- FNV-1a

  function Step(h: u64, b: byte): u64 {
    MulWrap(XorWords(h, b), PRIME)
  }

  /** The hasher's state after absorbing `bytes` from state `h`. */
  function Absorb(h: u64, bytes: seq<byte>): u64
    decreases bytes
  {
    if bytes == [] then h else Absorb(Step(h, bytes[0]), bytes[1..])
  }

  /** A step in numbers: the byte is folded in before the multiplication. */
  lemma StepInNumbers(h: u64, b: byte)
    ensures Step(h, b) == Xor(h, b) * 1_099_511_628_211 % 18_446_744_073_709_551_616
    ensures OFFSET == 14_695_981_039_346_656_037
  {
    hide Xor;
  }

  function Unstep(h: u64, b: byte): u64 {
    XorWords(MulWrap(h, PRIME_INVERSE), b)
  }

  /** The state before `bytes` were absorbed, computed from the state after. */
  function Rewind(h: u64, bytes: seq<byte>): u64 {
    if bytes == [] then h else Unstep(Rewind(h, bytes[1..]), bytes[0])
  }

  lemma StepInverse(h: u64, b: byte)
    ensures Unstep(Step(h, b), b) == h
    ensures Step(Unstep(h, b), b) == h
  {
    MulInverse(XorWords(h, b), PRIME, PRIME_INVERSE);
    MulInverse(h, PRIME_INVERSE, PRIME);
    XorCancels(h, b);
    XorCancels(MulWrap(h, PRIME_INVERSE), b);
  }

  /** Absorbing any fixed byte string is a bijection of the state. */
  lemma {:induction false} AbsorbIsBijective(h: u64, bytes: seq<byte>)
    ensures Rewind(Absorb(h, bytes), bytes) == h
    ensures Absorb(Rewind(h, bytes), bytes) == h
    decreases bytes
  {
    if bytes != [] {
      AbsorbIsBijective(Step(h, bytes[0]), bytes[1..]);
      StepInverse(h, bytes[0]);
      AbsorbIsBijective(h, bytes[1..]);
      StepInverse(Rewind(h, bytes[1..]), bytes[0]);
    }
  }

  lemma {:induction false} AbsorbConcat(h: u64, a: seq<byte>, b: seq<byte>)
    ensures Absorb(h, a + b) == Absorb(Absorb(h, a), b)
    decreases a
  {
    if a == [] {
      assert a + b == b;
    } else {
      assert (a + b)[0] == a[0] && (a + b)[1..] == a[1..] + b;
      AbsorbConcat(Step(h, a[0]), a[1..], b);
    }
  }

  lemma XorSeparates(h: nat, b: nat, c: nat)
    requires Xor(h, b) == Xor(h, c)
    ensures b == c
  {
    XorLaws(h, b);
    XorLaws(h, c);
    XorCancels(b, h);
    XorCancels(c, h);
  }

  lemma PrimeSeparates(x: u64, y: u64)
    requires MulWrap(x, PRIME) == MulWrap(y, PRIME)
    ensures x == y
  {
    hide MulWrap;
    MulInverse(x, PRIME, PRIME_INVERSE);
    MulInverse(y, PRIME, PRIME_INVERSE);
  }

  /** From one state, one byte decides the next state. */
  lemma StepSeparates(h: u64, b: byte, c: byte)
    ensures Step(h, b) == Step(h, c) <==> b == c
  {
    hide MulWrap;
    hide Xor;
    if Step(h, b) == Step(h, c) {
      PrimeSeparates(XorWords(h, b), XorWords(h, c));
      XorSeparates(h, b, c);
    }
  }

  /** FNV-1a never collides on a single changed byte, whatever surrounds it. */
  lemma SingleByteChange(h: u64, before: seq<byte>, b: byte, c: byte, after: seq<byte>)
    ensures Absorb(h, before + [b] + after) == Absorb(h, before + [c] + after) <==> b == c
  {
    AbsorbAround(h, before, b, after);
    AbsorbAround(h, before, c, after);
    var m := Absorb(h, before);
    StepSeparates(m, b, c);
    AbsorbIsBijective(Step(m, b), after);
    AbsorbIsBijective(Step(m, c), after);
  }

  lemma AbsorbAround(h: u64, before: seq<byte>, b: byte, after: seq<byte>)
    ensures Absorb(h, before + [b] + after) == Absorb(Step(Absorb(h, before), b), after)
  {
    AbsorbConcat(h, before + [b], after);
    AbsorbConcat(h, before, [b]);
    var m := Absorb(h, before);
    assert Absorb(m, [b]) == Absorb(Step(m, b), [b][1..]);
  }

  /** The eight bytes of a word, least significant first. */
  function LittleEndian(value: nat, width: nat): (bytes: seq<byte>)
    ensures |bytes| == width
  {
    if width == 0 then [] else [value % 256] + LittleEndian(value / 256, width - 1)
  }

  function LittleEndianValue(bytes: seq<byte>): nat {
    if bytes == [] then 0 else bytes[0] + 256 * LittleEndianValue(bytes[1..])
  }

  /** Eight bytes hold every word, so the bytes of different words differ. */
  lemma {:induction false} LittleEndianRoundTrip(value: nat, width: nat)
    requires value < Pow2(8 * width)
    ensures LittleEndianValue(LittleEndian(value, width)) == value
  {
    if width > 0 {
      Pow2Adds(8, 8 * (width - 1));
      assert Pow2(8) == 256;
      LittleEndianRoundTrip(value / 256, width - 1);
      assert LittleEndian(value, width)[1..] == LittleEndian(value / 256, width - 1);
    }
  }

  /** Byte `i` counts the multiples of 256^i. */
  lemma {:induction false} LittleEndianDigits(value: nat, width: nat, i: nat)
    requires i < width
    ensures LittleEndian(value, width)[i] == ShiftRight(value, 8 * i) % 256
  {
    if i > 0 {
      assert LittleEndian(value, width)[i] == LittleEndian(value / 256, width - 1)[i - 1];
      hide LittleEndian, ShiftRight;
      LittleEndianDigits(value / 256, width - 1, i - 1);
      EightShifts(value, 8 * (i - 1));
    }
  }

  lemma EightShifts(value: nat, k: nat)
    ensures ShiftRight(value, k + 8) == ShiftRight(value / 256, k)
  {
    ShiftIsDivision(value, 8);
    ShiftIsDivision(value, k + 8);
    assert Pow2(8) == 256;
    assert ShiftRight(value, 8) == value / 256;
    ShiftsAdd(value, 8, k);
  }

  class StableHasher {
    var state: u64

    constructor ()
      ensures state == OFFSET
    {
      state := OFFSET;
    }

    method Bytes(bytes: seq<byte>)
      modifies this
      ensures state == Absorb(old(state), bytes)
    {
      for i := 0 to |bytes|
        invariant Absorb(state, bytes[i..]) == Absorb(old(state), bytes)
      {
        state := XorWords(state, bytes[i]);
        state := MulWrap(state, PRIME);
        assert bytes[i..][1..] == bytes[i + 1..];
      }
    }

    method U64(value: u64)
      modifies this
      ensures state == Absorb(old(state), LittleEndian(value, 8))
    {
      Bytes(LittleEndian(value, 8));
    }

    /** A string is its length as a word, then its bytes. */
    method String(value: seq<byte>)
      requires |value| < WORD
      modifies this
      ensures state == Absorb(old(state), LittleEndian(|value|, 8) + value)
    {
      AbsorbConcat(state, LittleEndian(|value|, 8), value);
      U64(|value|);
      Bytes(value);
    }
  }
}
