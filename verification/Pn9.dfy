/** The PN9 whitener: `bitcode_pn9` of src/bitcode.c. */
module Pn9 {
  import opened Bits

  const SEED: bv32 := 0x1FF

  /** One turn of the inner loop: positions 1 and 6 feed position 10, then the register moves
      right by one and is masked to nine bits. */
  function Clock(s: bv32): bv32
  {
    var bit := (s ^ (s >> 5)) & 1;
    ((if bit == 1 then s | 0x200 else s & !0x200) >> 1) & 0x1FF
  }

  function Iter(n: nat, s: bv32): bv32
  {
    if n == 0 then s else Clock(Iter(n - 1, s))
  }

  /** `(uint8_t)pn9`. */
  function LowOctet(s: bv32): bv8
  {
    (s & 0xFF) as bv8
  }

  /** The keystream octet for position `b` of a packet. */
  function KeyOctet(b: nat): bv8
  {
    LowOctet(Iter(8 * b, SEED))
  }

  function Whiten(input: seq<bv8>): (out: seq<bv8>)
    ensures |out| == |input|
  {
    seq(|input|, b requires 0 <= b < |input| => input[b] ^ KeyOctet(b))
  }

  method BitcodePn9(input: array<bv8>, len: nat, out: array<bv8>)
    requires len <= input.Length && len <= out.Length && input != out
    modifies out
    ensures out[..len] == Whiten(input[..len])
    ensures out[len..] == old(out[len..])
  {
    hide Clock, LowOctet;
    var pn9 := SEED;
    var b := 0;
    while b < len
      invariant 0 <= b <= len
      invariant pn9 == Iter(8 * b, SEED)
      invariant forall m :: 0 <= m < b ==> out[m] == input[m] ^ KeyOctet(m)
      invariant out[len..] == old(out[len..])
    {
      out[b] := input[b] ^ LowOctet(pn9);
      var k := 0;
      while k < 8
        invariant 0 <= k <= 8 && pn9 == Iter(8 * b + k, SEED)
      {
        pn9 := Clock(pn9);
        k := k + 1;
      }
      b := b + 1;
    }
  }

  /** Whitening twice gives back any input. */
  lemma WhitenTwice(input: seq<bv8>)
    ensures Whiten(Whiten(input)) == input
  {
    forall b | 0 <= b < |input|
      ensures Whiten(Whiten(input))[b] == input[b]
    {
      XorTwice(input[b], KeyOctet(b));
    }
  }

  lemma XorTwice(a: bv8, k: bv8)
    ensures (a ^ k) ^ k == a
  {
  }

  // ------------------------------------------------------ the register

  lemma ClockKeepsRange(s: bv32)
    requires 0 < s <= 0x1FF
    ensures 0 < Clock(s) <= 0x1FF
  {
  }

  /** The register never leaves 1 .. 511. */
  lemma {:induction false} RegisterInRange(n: nat, s: bv32)
    requires 0 < s <= 0x1FF
    ensures 0 < Iter(n, s) <= 0x1FF
  {
    if n > 0 {
      RegisterInRange(n - 1, s);
      ClockKeepsRange(Iter(n - 1, s));
    }
  }

  // ------------------------------------------------------ the bit sequence

  /** The register seen as a window of nine bits on a bit sequence: the register after `n`
      clocks holds `U(n)` at position 1 up to `U(n + 8)` at position 9. */
  predicate U(n: nat)
  {
    Iter(n, SEED) & 1 == 1
  }

  predicate At(s: bv32, pos: nat)
    requires 1 <= pos <= 9
  {
    var m: bv32 := if pos == 1 then 0x1 else if pos == 2 then 0x2 else if pos == 3 then 0x4
                   else if pos == 4 then 0x8 else if pos == 5 then 0x10 else if pos == 6 then 0x20
                   else if pos == 7 then 0x40 else if pos == 8 then 0x80 else 0x100;
    s & m != 0
  }

  lemma ClockShifts(s: bv32, pos: nat)
    requires s <= 0x1FF && 1 <= pos <= 9
    ensures At(Clock(s), pos) == if pos == 9 then At(s, 1) != At(s, 6) else At(s, pos + 1)
  {
    if
    case pos == 1 => case pos == 2 => case pos == 3 => case pos == 4 => case pos == 5 =>
    case pos == 6 => case pos == 7 => case pos == 8 => case pos == 9 =>
  }

  lemma LowBit(s: bv32)
    ensures At(s, 1) == (s & 1 == 1)
  {
  }

  lemma {:induction false} Window(n: nat, pos: nat)
    requires 1 <= pos <= 9
    ensures At(Iter(n, SEED), pos) == U(n + pos - 1)
    decreases pos
  {
    if pos == 1 {
      LowBit(Iter(n, SEED));
    } else {
      RegisterInRange(n, SEED);
      ClockShifts(Iter(n, SEED), pos - 1);
      Window(n + 1, pos - 1);
    }
  }

  /** The recurrence of x^9 + x^5 + 1. */
  lemma Recurrence(n: nat)
    ensures U(n + 9) == (U(n) != U(n + 5))
  {
    RegisterInRange(n, SEED);
    ClockShifts(Iter(n, SEED), 9);
    Window(n + 1, 9);
    Window(n, 1);
    Window(n, 6);
  }

  /** Squaring the polynomial doubles every lag. */
  lemma {:induction false} Lag(e: nat, n: nat)
    ensures U(n + 9 * Pow2(e)) == (U(n) != U(n + 5 * Pow2(e)))
    decreases e
  {
    if e == 0 {
      Recurrence(n);
    } else {
      var k := Pow2(e - 1);
      Lag(e - 1, n);
      Lag(e - 1, n + 5 * k);
      Lag(e - 1, n + 9 * k);
      assert n + 9 * k + 5 * k == n + 5 * k + 9 * k;
    }
  }

  function Pow2(e: nat): (p: nat)
    ensures p >= 1
  {
    if e == 0 then 1 else 2 * Pow2(e - 1)
  }

  lemma LagPow(e: nat, k: nat, n: nat)
    requires e <= 5 && k == (if e == 0 then 1 else if e == 1 then 2 else if e == 2 then 4
                             else if e == 3 then 8 else if e == 4 then 16 else 32)
    ensures U(n + 9 * k) == (U(n) != U(n + 5 * k))
  {
    assert Pow2(0) == 1 && Pow2(1) == 2 && Pow2(2) == 4 && Pow2(3) == 8;
    assert Pow2(4) == 16 && Pow2(5) == 32;
    Lag(e, n);
  }

  ghost predicate Period(t: nat)
  {
    forall n: nat :: U(n + t) == U(n)
  }

  /** x^512 = x modulo x^9 + x^5 + 1, lag by lag. */
  lemma ReturnsAfter511(n: nat)
    ensures U(n + 512) == U(n + 1)
  {
    LagPow(5, 32, n + 224);  LagPow(5, 32, n + 96);
    LagPow(4, 16, n + 112);  LagPow(4, 16, n + 80);  LagPow(4, 16, n + 48);  LagPow(4, 16, n + 16);
    LagPow(3, 8, n + 56);    LagPow(3, 8, n + 40);   LagPow(3, 8, n + 24);
    LagPow(2, 4, n + 28);    LagPow(2, 4, n + 20);
    LagPow(1, 2, n + 10);    LagPow(1, 2, n + 6);
    LagPow(0, 1, n + 1);
  }

  lemma SequenceHasPeriod511()
    ensures Period(511)
  {
    forall n: nat
      ensures U(n + 511) == U(n)
    {
      Recurrence(n);
      Recurrence(n + 511);
      ReturnsAfter511(n + 8);
      ReturnsAfter511(n + 4);
    }
  }

  lemma FirstBits()
    ensures U(1) && U(2) && U(4) && U(5) && U(7) && U(8) && U(0) && !U(9)
  {
    assert forall pos :: 1 <= pos <= 9 ==> At(SEED, pos);
    Window(0, 1); Window(0, 2); Window(0, 3); Window(0, 5); Window(0, 6); Window(0, 8); Window(0, 9);
    Recurrence(0);
  }

  lemma Not7()
    ensures !Period(7)
  {
    FirstBits();
    assert U(2 + 7) != U(2);
  }

  /** x^73 = 1 + x + x^4 + x^7 + x^8, which moves `U(1)` to 0. */
  lemma Not73()
    ensures !Period(73)
  {
    FirstBits();
    LagPow(3, 8, 2);
    LagPow(2, 4, 6);
    LagPow(1, 2, 8);
    LagPow(0, 1, 9);
    LagPow(0, 1, 5);
    LagPow(0, 1, 1);
    assert U(1 + 73) != U(1);
  }

  // ------------------------------------------------------ exactly 511

  lemma PeriodsSubtract(a: nat, b: nat)
    requires a < b && Period(a) && Period(b)
    ensures Period(b - a)
  {
    forall n: nat
      ensures U(n + (b - a)) == U(n)
    {
      assert U((n + (b - a)) + a) == U(n + (b - a));
      assert U(n + b) == U(n);
    }
  }

  /** Euclid: a common divisor of two periods is a period. */
  lemma {:induction false} CommonPeriod(a: nat, b: nat) returns (g: nat, x: nat, y: nat)
    requires a > 0 && b > 0 && Period(a) && Period(b)
    ensures g > 0 && Period(g) && a == g * x && b == g * y
    decreases a + b
  {
    hide Period;
    if a == b {
      g, x, y := a, 1, 1;
    } else if a < b {
      PeriodsSubtract(a, b);
      g, x, y := CommonPeriod(a, b - a);
      assert g * (x + y) == g * x + g * y;
      y := x + y;
    } else {
      PeriodsSubtract(b, a);
      g, x, y := CommonPeriod(a - b, b);
      assert g * (x + y) == g * x + g * y;
      x := x + y;
    }
  }

  lemma {:induction false} PeriodsMultiply(g: nat, m: nat)
    requires Period(g)
    ensures Period(g * m)
    decreases m
  {
    if m == 0 {
      assert forall n: nat :: U(n + 0) == U(n);
      assert g * m == 0;
    } else {
      PeriodsMultiply(g, m - 1);
      assert g * m == g * (m - 1) + g;
      forall n: nat
        ensures U(n + g * m) == U(n)
      {
        assert U((n + g) + g * (m - 1)) == U(n + g);
      }
    }
  }

  lemma SmallDivisor(g: nat, q: nat)
    requires g <= 22 && g * q == 511
    ensures g == 1 || g == 7
  {
    if
    case g == 0 => case g == 1 => case g == 2 => case g == 3 => case g == 4 => case g == 5 => case g == 6 =>
    case g == 7 => case g == 8 => case g == 9 => case g == 10 => case g == 11 => case g == 12 => case g == 13 =>
    case g == 14 => case g == 15 => case g == 16 => case g == 17 => case g == 18 => case g == 19 => case g == 20 =>
    case g == 21 => case g == 22 =>
  }

  lemma DivisorsOf511(g: nat, q: nat)
    requires g * q == 511
    ensures g == 1 || g == 7 || g == 73 || g == 511
  {
    if g <= 22 {
      SmallDivisor(g, q);
    } else {
      if q > 22 {
        TwoLarge(g, q);
        assert false;
      }
      assert q * g == 511;
      SmallDivisor(q, g);
    }
  }

  lemma TwoLarge(g: nat, q: nat)
    requires g >= 23 && q >= 23
    ensures g * q >= 529
  {
    assert g * q >= 23 * q;
  }

  /** A lag that is not a multiple of 511 is not a period. */
  lemma PeriodNeeds511(t: nat) returns (y: nat)
    requires t > 0 && Period(t)
    ensures t == 511 * y
  {
    hide Period;
    SequenceHasPeriod511();
    var g, x;
    g, x, y := CommonPeriod(511, t);
    DivisorsOf511(g, x);
    Not7();
    Not73();
    if g == 1 || g == 7 {
      PeriodsMultiply(g, 7 / g);
    }
  }

  /** The keystream octets repeat after 511 octets. */
  lemma KeyRepeats(b: nat)
    ensures KeyOctet(b + 511) == KeyOctet(b)
  {
    var s, t := Iter(8 * (b + 511), SEED), Iter(8 * b, SEED);
    forall pos | 1 <= pos <= 8
      ensures At(s, pos) == At(t, pos)
    {
      Window(8 * (b + 511), pos);
      Window(8 * b, pos);
      KeyBitRepeats(8 * b + pos - 1, 8 * (b + 511) + pos - 1);
    }
    OctetFromBits(s, t);
  }

  lemma KeyBitRepeats(m: nat, x: nat)
    requires x == m + 4088
    ensures U(x) == U(m)
  {
    SequenceHasPeriod511();
    PeriodsMultiply(511, 8);
    assert Period(4088);
    assert U(m + 4088) == U(m);
  }

  lemma OctetFromBits(s: bv32, t: bv32)
    requires forall pos :: 1 <= pos <= 8 ==> At(s, pos) == At(t, pos)
    ensures LowOctet(s) == LowOctet(t)
  {
    hide LowOctet;
    EightPositions(s, t);
    LowBitsAgree(s, t);
    SameLowOctet(s, t);
  }

  lemma EightPositions(s: bv32, t: bv32)
    requires forall pos :: 1 <= pos <= 8 ==> At(s, pos) == At(t, pos)
    ensures At(s, 1) == At(t, 1) && At(s, 2) == At(t, 2) && At(s, 3) == At(t, 3) && At(s, 4) == At(t, 4)
    ensures At(s, 5) == At(t, 5) && At(s, 6) == At(t, 6) && At(s, 7) == At(t, 7) && At(s, 8) == At(t, 8)
  {
    hide At;
  }

  lemma SameLowOctet(s: bv32, t: bv32)
    ensures s & 0xFF == t & 0xFF <==> LowOctet(s) == LowOctet(t)
  {
  }

  lemma LowBitsAgree(s: bv32, t: bv32)
    requires (s & 0x1 != 0) == (t & 0x1 != 0) && (s & 0x2 != 0) == (t & 0x2 != 0)
    requires (s & 0x4 != 0) == (t & 0x4 != 0) && (s & 0x8 != 0) == (t & 0x8 != 0)
    requires (s & 0x10 != 0) == (t & 0x10 != 0) && (s & 0x20 != 0) == (t & 0x20 != 0)
    requires (s & 0x40 != 0) == (t & 0x40 != 0) && (s & 0x80 != 0) == (t & 0x80 != 0)
    ensures s & 0xFF == t & 0xFF
  {
  }

  lemma BitsFromOctet(s: bv32, t: bv32, pos: nat)
    requires LowOctet(s) == LowOctet(t) && 1 <= pos <= 8
    ensures At(s, pos) == At(t, pos)
  {
    assert s & 0xFF == t & 0xFF;
  }

  lemma SameOctetSameBits(a: nat, b: nat, i: nat)
    requires KeyOctet(a) == KeyOctet(b) && i < 8
    ensures U(8 * a + i) == U(8 * b + i)
  {
    BitsFromOctet(Iter(8 * a, SEED), Iter(8 * b, SEED), i + 1);
    Window(8 * a, i + 1);
    Window(8 * b, i + 1);
  }

  lemma {:induction false} NineBitsDetermineAll(t: nat, n: nat)
    requires forall i: nat :: i < 9 ==> U(t + i) == U(i)
    ensures U(t + n) == U(n)
    decreases n
  {
    if n >= 9 {
      NineBitsDetermineAll(t, n - 9);
      NineBitsDetermineAll(t, n - 4);
      Recurrence(n - 9);
      Recurrence(t + n - 9);
    }
  }

  /** ... and not before: no shorter shift of the keystream repeats even its first two octets. */
  lemma NoShorterPeriod(p: nat)
    requires 0 < p < 511
    ensures KeyOctet(p) != KeyOctet(0) || KeyOctet(p + 1) != KeyOctet(1)
  {
    if KeyOctet(p) == KeyOctet(0) && KeyOctet(p + 1) == KeyOctet(1) {
      forall i: nat | i < 9
        ensures U(8 * p + i) == U(i)
      {
        if i < 8 { SameOctetSameBits(p, 0, i); } else { SameOctetSameBits(p + 1, 1, 0); }
      }
      forall n: nat
        ensures U(n + 8 * p) == U(n)
      {
        NineBitsDetermineAll(8 * p, n);
      }
      var y := PeriodNeeds511(8 * p);
      assert false;
    }
  }

  // ------------------------------------------------------ what is whitened with

  /** The sequence by its definition: nine 1 bits, and then every bit is the sum of those nine and four
      places back. */
  predicate Noise(n: nat)
  {
    if n < 9 then true else Noise(n - 9) != Noise(n - 4)
  }

  lemma {:induction false} RegisterSendsNoise(n: nat)
    ensures U(n) == Noise(n)
  {
    if n < 9 {
      assert forall pos :: 1 <= pos <= 9 ==> At(SEED, pos);
      Window(0, n + 1);
    } else {
      RegisterSendsNoise(n - 9);
      RegisterSendsNoise(n - 4);
      Recurrence(n - 9);
    }
  }

  lemma LowOctetBits(s: bv32, pos: nat)
    requires 1 <= pos <= 8
    ensures ReadBit(LowOctet(s), pos) == At(s, pos)
  {
    if
    case pos == 1 => case pos == 2 => case pos == 3 => case pos == 4 =>
    case pos == 5 => case pos == 6 => case pos == 7 => case pos == 8 =>
  }

  /** The keystream is that sequence, the low bit of each octet first. */
  lemma KeyIsNoise(b: nat, pos: nat)
    requires 1 <= pos <= 8
    ensures ReadBit(KeyOctet(b), pos) == Noise(8 * b + pos - 1)
  {
    LowOctetBits(Iter(8 * b, SEED), pos);
    Window(8 * b, pos);
    RegisterSendsNoise(8 * b + pos - 1);
  }

  /** Whitening, bit by bit: a bit of the packet is flipped exactly where the sequence has a 1. */
  lemma FlipsWhereNoiseIs(input: seq<bv8>, b: nat, pos: nat)
    requires b < |input| && 1 <= pos <= 8
    ensures ReadBit(Whiten(input)[b], pos) == (ReadBit(input[b], pos) != Noise(8 * b + pos - 1))
  {
    hide ReadBit;
    KeyIsNoise(b, pos);
    XorBits(input[b], KeyOctet(b), pos);
  }
}
