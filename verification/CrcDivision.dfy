/** The CRC of module `SoftCrc` as what a CRC is: the remainder of a division of polynomials over the field of
    two elements.  A polynomial is the sequence of its coefficients, the highest power first. */
module CrcDivision {
  import opened Bits
  import opened SoftCrc

  type Poly = seq<bool>

  function Plus(a: Poly, b: Poly): (p: Poly)
    requires |a| == |b|
    ensures |p| == |a| && forall k :: 0 <= k < |a| ==> p[k] == (a[k] != b[k])
  {
    seq(|a|, k requires 0 <= k < |a| => a[k] != b[k])
  }

  function Scaled(bit: bool, p: Poly): (r: Poly)
    ensures |r| == |p|
  {
    if bit then p else Zeros(|p|)
  }

  /** `q` times the polynomial with a 1 before the coefficients `g`. */
  function Times(q: Poly, g: Poly): (p: Poly)
    ensures |p| == |q| + |g|
    decreases |q|
  {
    if q == [] then Zeros(|g|)
    else Plus(Scaled(q[0], [true] + g) + Zeros(|q| - 1), [false] + Times(q[1..], g))
  }

  ghost predicate Divides(d: Poly, g: Poly, q: Poly, r: Poly)
  {
    |d| == |q| + |g| && |r| == |g| && d == Plus(Times(q, g), Zeros(|q|) + r)
  }

  /** `r`, of lower degree than the divisor, is what the division of `d` by 1 `g` leaves. */
  ghost predicate Leaves(d: Poly, g: Poly, r: Poly)
  {
    exists q :: Divides(d, g, q, r)
  }

  // ------------------------------------------------------ division

  lemma {:induction false} QuotientIsUnique(g: Poly, q: Poly, r: Poly, p: Poly, s: Poly)
    requires |q| == |p| && |r| == |s| == |g|
    requires Plus(Times(q, g), Zeros(|q|) + r) == Plus(Times(p, g), Zeros(|p|) + s)
    ensures q == p && r == s
    decreases |q|
  {
    hide Times, Scaled, Plus, Zeros;
    if q == [] {
      NoQuotient(g, r);
      NoQuotient(g, s);
    } else {
      var n := |q| - 1;
      FirstTerm(q, g, r);
      FirstTerm(p, g, s);
      FirstDecides(q[0], p[0], g, n, Plus(Times(q[1..], g), Zeros(n) + r), Plus(Times(p[1..], g), Zeros(n) + s));
      QuotientIsUnique(g, q[1..], r, p[1..], s);
      assert q == [q[0]] + q[1..] && p == [p[0]] + p[1..];
    }
  }

  lemma NoQuotient(g: Poly, r: Poly)
    requires |r| == |g|
    ensures Plus(Times([], g), Zeros(0) + r) == r
  {
  }

  lemma FirstDecides(a: bool, b: bool, g: Poly, n: nat, x: Poly, y: Poly)
    requires |x| == |y| == |g| + n
    requires Plus(Scaled(a, [true] + g) + Zeros(n), [false] + x) == Plus(Scaled(b, [true] + g) + Zeros(n), [false] + y)
    ensures a == b && x == y
  {
    FirstCoefficient(a, g, n, x);
    FirstCoefficient(b, g, n, y);
    hide Scaled, Plus;
  }

  /** The highest coefficient of such a sum is that of the quotient; what is left can be told from it. */
  lemma FirstCoefficient(b: bool, g: Poly, n: nat, x: Poly)
    requires |x| == |g| + n
    ensures var h := Scaled(b, [true] + g) + Zeros(n);
            var y := Plus(h, [false] + x);
            y[0] == b && Plus(h, y)[1..] == x
  {
  }

  lemma FirstTerm(q: Poly, g: Poly, r: Poly)
    requires q != [] && |r| == |g|
    ensures var n := |q|;
            Plus(Times(q, g), Zeros(n) + r)
            == Plus(Scaled(q[0], [true] + g) + Zeros(n - 1), [false] + Plus(Times(q[1..], g), Zeros(n - 1) + r))
  {
    hide Scaled;
    var n := |q|;
    var z, w := Zeros(n) + r, [false] + (Zeros(n - 1) + r);
    assert Zeros(n) == [false] + Zeros(n - 1);
    assert z == w;
  }

  /** There is one remainder only. */
  lemma RemainderIsUnique(d: Poly, g: Poly, r: Poly, s: Poly)
    requires Leaves(d, g, r) && Leaves(d, g, s)
    ensures r == s
  {
    hide Times;
    var q :| Divides(d, g, q, r);
    var p :| Divides(d, g, p, s);
    QuotientIsUnique(g, q, r, p, s);
  }

  lemma {:induction false} TimesConcat(q: Poly, p: Poly, g: Poly)
    ensures Times(q + p, g) == Plus(Times(q, g) + Zeros(|p|), Zeros(|q|) + Times(p, g))
    decreases |q|
  {
    hide Times, Scaled, Plus, Zeros;
    if q == [] {
      EmptyTimes(p, g);
    } else {
      TimesConcat(q[1..], p, g);
      assert (q + p)[1..] == q[1..] + p && (q + p)[0] == q[0];
      TimesFirst(q, g);
      TimesFirst(q + p, g);
      var h, m := Scaled(q[0], [true] + g), |q| - 1;
      MoreZeros(h, m, |p|);
      Regroup(h + Zeros(m), Times(q[1..], g), Times(p, g), |p|, m);
    }
  }

  lemma EmptyTimes(p: Poly, g: Poly)
    ensures Times([] + p, g) == Plus(Times([], g) + Zeros(|p|), Zeros(0) + Times(p, g))
  {
    assert [] + p == p && Times([], g) == Zeros(|g|);
    assert Zeros(|g|) + Zeros(|p|) == Zeros(|p| + |g|) && Zeros(0) + Times(p, g) == Times(p, g);
  }

  lemma MoreZeros(h: Poly, m: nat, n: nat)
    ensures h + Zeros(m + n) == h + Zeros(m) + Zeros(n)
  {
  }

  lemma Regroup(h: Poly, a: Poly, b: Poly, n: nat, m: nat)
    requires |h| == |a| + 1 && |a| + n == m + |b|
    ensures Plus(h + Zeros(n), [false] + Plus(a + Zeros(n), Zeros(m) + b))
            == Plus(Plus(h, [false] + a) + Zeros(n), Zeros(m + 1) + b)
  {
    var x := Plus(h + Zeros(n), [false] + Plus(a + Zeros(n), Zeros(m) + b));
    var y := Plus(Plus(h, [false] + a) + Zeros(n), Zeros(m + 1) + b);
    forall k | 0 <= k < |x|
      ensures x[k] == y[k]
    {
      if k > 0 { assert (Zeros(m + 1) + b)[k] == (Zeros(m) + b)[k - 1]; }
    }
    assert x == y;
  }

  lemma TimesFirst(q: Poly, g: Poly)
    requires q != []
    ensures Times(q, g) == Plus(Scaled(q[0], [true] + g) + Zeros(|q| - 1), [false] + Times(q[1..], g))
  {
  }

  /** One bit more: the highest coefficient decides whether the divisor is taken away. */
  lemma ShiftLeaves(r: Poly, g: Poly, b: bool)
    requires |r| == |g| > 0
    ensures Leaves(r + [b], g, Plus(r[1..] + [b], Scaled(r[0], g)))
  {
    var q, rest := [r[0]], Plus(r[1..] + [b], Scaled(r[0], g));
    TimesFirst(q, g);
    assert q[1..] == [] && Times([], g) == Zeros(|g|);
    var t := Times(q, g);
    var d := Plus(t, Zeros(1) + rest);
    forall k | 0 <= k < |d|
      ensures d[k] == (r + [b])[k]
    {
      assert t[k] == (r[0] && (k == 0 || g[k - 1]));
    }
    assert d == r + [b];
    assert Divides(r + [b], g, q, rest);
  }

  /** Division may go on from what it has left so far. */
  lemma DivisionGoesOn(d: Poly, g: Poly, r: Poly, n: nat, e: Poly, s: Poly)
    requires Leaves(d, g, r) && |d| >= |g| && |r| == |g| && |e| == |g| + n
    requires Leaves(Plus(r + Zeros(n), e), g, s)
    ensures Leaves(Plus(d + Zeros(n), Zeros(|d| - |g|) + e), g, s)
  {
    hide Times;
    var q :| Divides(d, g, q, r);
    var p :| Divides(Plus(r + Zeros(n), e), g, p, s);
    TimesConcat(q, p, g);
    var x := Plus(d + Zeros(n), Zeros(|q|) + e);
    var y := Plus(Times(q + p, g), Zeros(|q + p|) + s);
    forall k | 0 <= k < |x|
      ensures x[k] == y[k]
    {
      GoesOnAt(d, g, q, r, n, e, p, s, k);
    }
    assert x == y;
    assert Divides(x, g, q + p, s);
  }

  lemma GoesOnAt(d: Poly, g: Poly, q: Poly, r: Poly, n: nat, e: Poly, p: Poly, s: Poly, k: nat)
    requires Divides(d, g, q, r) && |e| == |g| + n && |p| == n && k < |d| + n
    requires Divides(Plus(r + Zeros(n), e), g, p, s)
    requires Times(q + p, g) == Plus(Times(q, g) + Zeros(|p|), Zeros(|q|) + Times(p, g))
    ensures Plus(d + Zeros(n), Zeros(|q|) + e)[k] == Plus(Times(q + p, g), Zeros(|q + p|) + s)[k]
  {
    hide Times, Plus, Zeros, Divides;
    DivisionAt(d, g, q, r, k);
    var f := Plus(r + Zeros(n), e);
    if k >= |q| {
      DivisionAt(f, g, p, s, k - |q|);
    }
  }

  /** A division, one coefficient at a time. */
  lemma DivisionAt(d: Poly, g: Poly, q: Poly, r: Poly, k: nat)
    requires Divides(d, g, q, r)
    ensures |d| == |q| + |g| && |r| == |g|
    ensures k < |d| ==> d[k] == (Times(q, g)[k] != (k >= |q| && r[k - |q|]))
  {
    hide Times;
  }

  /** What is added below the divisor is added to the remainder. */
  lemma LowPartIsLeft(d: Poly, g: Poly, r: Poly, y: Poly)
    requires Leaves(d, g, r) && |d| >= |g| && |r| == |y| == |g|
    ensures Leaves(Plus(d, Zeros(|d| - |g|) + y), g, Plus(r, y))
  {
    hide Times;
    var q :| Divides(d, g, q, r);
    assert Plus(d, Zeros(|q|) + y) == Plus(Times(q, g), Zeros(|q|) + Plus(r, y));
    assert Divides(Plus(d, Zeros(|q|) + y), g, q, Plus(r, y));
  }

  lemma NothingToDivide(r: Poly, g: Poly)
    requires |r| == |g|
    ensures Leaves(r, g, r)
  {
    assert Times([], g) == Zeros(|g|) && Zeros(0) + r == r;
    assert Plus(Zeros(|g|), r) == r;
    assert Divides(r, g, [], r);
  }

  // ------------------------------------------------------ words as polynomials

  /** The bit of a word at place `k`, counted from the highest. */
  predicate BitAt(w: bv16, k: nat)
    requires k < 16
  {
    var m: bv16 := if k == 0 then 0x8000 else if k == 1 then 0x4000 else if k == 2 then 0x2000 else if k == 3 then 0x1000
                   else if k == 4 then 0x800 else if k == 5 then 0x400 else if k == 6 then 0x200 else if k == 7 then 0x100
                   else if k == 8 then 0x80 else if k == 9 then 0x40 else if k == 10 then 0x20 else if k == 11 then 0x10
                   else if k == 12 then 0x8 else if k == 13 then 0x4 else if k == 14 then 0x2 else 0x1;
    w & m != 0
  }

  function WordBits(w: bv16): (p: Poly)
    ensures |p| == 16 && forall k :: 0 <= k < 16 ==> p[k] == BitAt(w, k)
  {
    seq(16, k requires 0 <= k < 16 => BitAt(w, k))
  }

  lemma MixBit(a: bv16, b: bv16, k: nat)
    requires k < 16
    ensures BitAt(Mix(a, b), k) == (BitAt(a, k) != BitAt(b, k))
  {
    if
    case k == 0 => case k == 1 => case k == 2 => case k == 3 => case k == 4 => case k == 5 => case k == 6 => case k == 7 =>
    case k == 8 => case k == 9 => case k == 10 => case k == 11 => case k == 12 => case k == 13 => case k == 14 => case k == 15 =>
  }

  lemma TwiceBit(a: bv16, k: nat)
    requires k < 16
    ensures BitAt(Twice(a), k) == (k < 15 && BitAt(a, k + 1))
    ensures TopSet(a) == BitAt(a, 0)
  {
    if
    case k == 0 => case k == 1 => case k == 2 => case k == 3 => case k == 4 => case k == 5 => case k == 6 => case k == 7 =>
    case k == 8 => case k == 9 => case k == 10 => case k == 11 => case k == 12 => case k == 13 => case k == 14 => case k == 15 =>
  }

  lemma OctetBit(hi: bv8, lo: bv8, k: nat)
    requires k < 16
    ensures BitAt(Word(hi, lo), k) == if k < 8 then ReadBit(hi, 8 - k) else ReadBit(lo, 16 - k)
  {
    if
    case k == 0 => case k == 1 => case k == 2 => case k == 3 => case k == 4 => case k == 5 => case k == 6 => case k == 7 =>
    case k == 8 => case k == 9 => case k == 10 => case k == 11 => case k == 12 => case k == 13 => case k == 14 => case k == 15 =>
  }

  lemma MixIsPlus(a: bv16, b: bv16)
    ensures WordBits(Mix(a, b)) == Plus(WordBits(a), WordBits(b))
  {
    hide BitAt, Mix;
    forall k | 0 <= k < 16
      ensures BitAt(Mix(a, b), k) == (BitAt(a, k) != BitAt(b, k))
    {
      MixBit(a, b, k);
    }
  }

  lemma WordIsOctets(hi: bv8, lo: bv8)
    ensures WordBits(Word(hi, lo)) == MsbFirst(hi) + MsbFirst(lo)
  {
    hide BitAt, Word, ReadBit;
    forall k | 0 <= k < 16
      ensures WordBits(Word(hi, lo))[k] == (MsbFirst(hi) + MsbFirst(lo))[k]
    {
      OctetBit(hi, lo, k);
      if k < 8 { MsbFirstAt(hi, 8 - k); } else { MsbFirstAt(lo, 16 - k); }
    }
  }

  lemma ZeroOctet()
    ensures MsbFirst(0) == Zeros(8)
  {
    forall pos | 1 <= pos <= 8 ensures !ReadBit(0, pos) { ZeroIsClear(pos); }
  }

  /** The word is its bits. */
  lemma SameBitsSameWord(a: bv16, b: bv16)
    requires WordBits(a) == WordBits(b)
    ensures a == b
  {
    hide BitAt;
    var c, d := HighOctet(a), HighOctet(b);
    var e, f := LowOctet(a), LowOctet(b);
    WordOfOctets(a);
    WordOfOctets(b);
    WordIsOctets(c, e);
    WordIsOctets(d, f);
    var x, y := WordBits(a), WordBits(b);
    assert MsbFirst(c) == x[..8] && MsbFirst(d) == y[..8] && MsbFirst(e) == x[8..] && MsbFirst(f) == y[8..];
    SameBitsSameOctet(c, d);
    SameBitsSameOctet(e, f);
  }

  lemma SameBitsSameOctet(a: bv8, b: bv8)
    requires MsbFirst(a) == MsbFirst(b)
    ensures a == b
  {
    hide ReadBit;
    forall pos | 1 <= pos <= 8
      ensures ReadBit(a, pos) == ReadBit(b, pos)
    {
      MsbFirstAt(a, pos);
      MsbFirstAt(b, pos);
    }
    OctetIsItsBits(a, b);
  }

  // ------------------------------------------------------ the two-octet register

  lemma ShiftIsDivision(v: bv16, poly: bv16)
    ensures Leaves(WordBits(v) + [false], WordBits(poly), WordBits(Shift16(v, poly)))
  {
    hide BitAt, Mix, Twice, TopSet;
    var r, g := WordBits(v), WordBits(poly);
    ShiftLeaves(r, g, false);
    forall k | 0 <= k < 16
      ensures WordBits(Shift16(v, poly))[k] == Plus(r[1..] + [false], Scaled(r[0], g))[k]
    {
      TwiceBit(v, k);
      MixBit(Twice(v), poly, k);
    }
    assert WordBits(Shift16(v, poly)) == Plus(r[1..] + [false], Scaled(r[0], g));
  }

  lemma {:induction false} ShiftsAreDivision(n: nat, v: bv16, poly: bv16)
    ensures Leaves(WordBits(v) + Zeros(n), WordBits(poly), WordBits(Shifts(n, v, poly, true)))
    decreases n
  {
    hide BitAt, Shift16, Leaves;
    var r, g := WordBits(v), WordBits(poly);
    if n == 0 {
      assert r + Zeros(0) == r;
      NothingToDivide(r, g);
    } else {
      var w := Shift16(v, poly);
      ShiftIsDivision(v, poly);
      ShiftsAreDivision(n - 1, w, poly);
      var e := Zeros(16 + (n - 1));
      assert Plus(WordBits(w) + Zeros(n - 1), e) == WordBits(w) + Zeros(n - 1);
      DivisionGoesOn(r + [false], g, WordBits(w), n - 1, e, WordBits(Shifts(n, v, poly, true)));
      assert Plus(r + [false] + Zeros(n - 1), Zeros(1) + e) == r + Zeros(n);
    }
  }

  /** The polynomial a register has seen: the data with the initial value added to its first bits, followed by
      as many zeros as the CRC has bits. */
  function Dividend(init: Poly, data: seq<bv8>): (d: Poly)
    ensures |d| == 8 * |data| + |init|
  {
    Plus(ToBits(data) + Zeros(|init|), init + Zeros(8 * |data|))
  }

  lemma DividendNext(init: Poly, data: seq<bv8>, b: bv8)
    ensures Dividend(init, data + [b])
            == Plus(Dividend(init, data) + Zeros(8), Zeros(8 * |data|) + (MsbFirst(b) + Zeros(|init|)))
  {
    hide MsbFirst;
    AppendOctet(data, b);
    var x := Dividend(init, data + [b]);
    var y := Plus(Dividend(init, data) + Zeros(8), Zeros(8 * |data|) + (MsbFirst(b) + Zeros(|init|)));
    hide ToBits;
    forall k | 0 <= k < |x|
      ensures x[k] == y[k]
    {
    }
    assert x == y;
  }

  /** After any data the two-octet register holds the remainder of that polynomial. */
  lemma {:induction false} RegisterIsRemainder(init: bv16, data: seq<bv8>, poly: bv16)
    ensures Leaves(Dividend(WordBits(init), data), WordBits(poly), WordBits(Register(init, data, poly, true)))
    decreases |data|
  {
    hide BitAt, Shifts, Leaves, ToBits, MsbFirst, Mix;
    var g := WordBits(poly);
    if data == [] {
      assert Dividend(WordBits(init), []) == WordBits(init);
      NothingToDivide(WordBits(init), g);
    } else {
      var n := |data| - 1;
      var front, b := data[..n], data[n];
      assert data == front + [b];
      RegisterIsRemainder(init, front, poly);
      DividendNext(WordBits(init), front, b);
      var r := Register(init, front, poly, true);
      OctetEnters(r, b);
      ShiftsAreDivision(8, Mix(r, (b as bv16) << 8), poly);
      DivisionGoesOn(Dividend(WordBits(init), front), g, WordBits(r), 8, MsbFirst(b) + Zeros(16),
                     WordBits(Register(init, data, poly, true)));
    }
  }

  lemma OctetEnters(r: bv16, b: bv8)
    ensures Plus(WordBits(r) + Zeros(8), MsbFirst(b) + Zeros(16)) == WordBits(Mix(r, (b as bv16) << 8)) + Zeros(8)
  {
    hide BitAt, MsbFirst, Mix;
    MixIsPlus(r, (b as bv16) << 8);
    OctetHigh(b);
    WordIsOctets(b, 0);
    ZeroOctet();
  }

  lemma OctetHigh(b: bv8)
    ensures (b as bv16) << 8 == Word(b, 0)
  {
  }

  /** The two-octet check is division: a packet is accepted if and only if, with the initial value added to its
      first sixteen bits, it leaves the final value as its remainder. */
  lemma AcceptsIffRemainder(packet: seq<bv8>, c: Config)
    requires Plain16(c)
    ensures |packet| <= 2 ==> Accepts(packet, c)
    ensures |packet| > 2 ==>
              (Accepts(packet, c) <==>
               Leaves(Plus(ToBits(packet), WordBits(c.init) + Zeros(8 * (|packet| - 2))), WordBits(c.poly),
                      WordBits(c.xorOut)))
  {
    hide BitAt, Register, Word, Leaves, ToBits, MsbFirst, Mix;
    if |packet| > 2 {
      hide Accepts;
      var n := |packet| - 2;
      var data, hi, lo := packet[..n], packet[n], packet[n + 1];
      var tail := MsbFirst(hi) + MsbFirst(lo);
      var r, g := Register(c.init, data, c.poly, true), WordBits(c.poly);
      PlainAccept(packet, c);
      RegisterIsRemainder(c.init, data, c.poly);
      var d := Dividend(WordBits(c.init), data);
      LowPartIsLeft(d, g, WordBits(r), tail);
      WordIsOctets(hi, lo);
      MixIsPlus(r, Word(hi, lo));
      PacketBits(packet);
      var whole := Plus(ToBits(packet), WordBits(c.init) + Zeros(8 * n));
      assert Plus(d, Zeros(8 * n) + tail) == whole;
      if Leaves(whole, g, WordBits(c.xorOut)) {
        RemainderIsUnique(whole, g, WordBits(c.xorOut), WordBits(Mix(r, Word(hi, lo))));
        SameBitsSameWord(Mix(r, Word(hi, lo)), c.xorOut);
      }
    }
  }

  lemma PacketBits(packet: seq<bv8>)
    requires |packet| > 2
    ensures var n := |packet| - 2;
            ToBits(packet) == ToBits(packet[..n]) + (MsbFirst(packet[n]) + MsbFirst(packet[n + 1]))
  {
    hide MsbFirst, ToBits;
    var n := |packet| - 2;
    AppendOctet(packet[..n], packet[n]);
    AppendOctet(packet[..n] + [packet[n]], packet[n + 1]);
    assert packet == packet[..n] + [packet[n]] + [packet[n + 1]];
  }

  // ------------------------------------------------------ the one-octet register

  lemma Shift8Bit(v: bv8, poly: bv8, pos: nat)
    requires 1 <= pos <= 8
    ensures ReadBit(Shift8(v, poly), pos) == ((pos > 1 && ReadBit(v, pos - 1)) != (ReadBit(v, 8) && ReadBit(poly, pos)))
  {
    if
    case pos == 1 => case pos == 2 => case pos == 3 => case pos == 4 =>
    case pos == 5 => case pos == 6 => case pos == 7 => case pos == 8 =>
  }

  lemma Xor8At(a: bv8, b: bv8, k: nat)
    requires k < 8
    ensures MsbFirst(Mix8(a, b))[k] == (MsbFirst(a)[k] != MsbFirst(b)[k])
  {
    hide ReadBit, MsbFirst;
    XorBits(a, b, 8 - k);
    MsbFirstAt(a, 8 - k);
    MsbFirstAt(b, 8 - k);
    MsbFirstAt(Mix8(a, b), 8 - k);
  }

  lemma Xor8IsPlus(a: bv8, b: bv8)
    ensures MsbFirst(Mix8(a, b)) == Plus(MsbFirst(a), MsbFirst(b))
  {
    hide MsbFirst, Mix8;
    forall k | 0 <= k < 8
      ensures MsbFirst(Mix8(a, b))[k] == (MsbFirst(a)[k] != MsbFirst(b)[k])
    {
      Xor8At(a, b, k);
    }
    assert MsbFirst(Mix8(a, b)) == Plus(MsbFirst(a), MsbFirst(b));
  }

  lemma Shift8At(v: bv8, poly: bv8, k: nat)
    requires k < 8
    ensures MsbFirst(Shift8(v, poly))[k] ==
            ((k < 7 && MsbFirst(v)[k + 1]) != (MsbFirst(v)[0] && MsbFirst(poly)[k]))
  {
    hide ReadBit, Shift8, MsbFirst;
    Shift8Bit(v, poly, 8 - k);
    MsbFirstAt(Shift8(v, poly), 8 - k);
    MsbFirstAt(poly, 8 - k);
    MsbFirstAt(v, 8);
    if k < 7 { MsbFirstAt(v, 7 - k); }
  }

  lemma Shift8IsDivision(v: bv8, poly: bv8)
    ensures Leaves(MsbFirst(v) + [false], MsbFirst(poly), MsbFirst(Shift8(v, poly)))
  {
    hide MsbFirst, Shift8;
    var r, g := MsbFirst(v), MsbFirst(poly);
    ShiftLeaves(r, g, false);
    var x, y := MsbFirst(Shift8(v, poly)), Plus(r[1..] + [false], Scaled(r[0], g));
    forall k | 0 <= k < 8
      ensures x[k] == y[k]
    {
      Shift8At(v, poly, k);
    }
    assert x == y;
  }

  lemma {:induction false} Shifts8AreDivision(n: nat, v: bv8, poly: bv8)
    ensures Leaves(MsbFirst(v) + Zeros(n), MsbFirst(poly), MsbFirst(Shifts8(n, v, poly)))
    decreases n
  {
    hide Shift8, Leaves, MsbFirst;
    var r, g := MsbFirst(v), MsbFirst(poly);
    if n == 0 {
      assert r + Zeros(0) == r;
      NothingToDivide(r, g);
    } else {
      var w := Shift8(v, poly);
      Shift8IsDivision(v, poly);
      Shifts8AreDivision(n - 1, w, poly);
      var e := Zeros(8 + (n - 1));
      assert Plus(MsbFirst(w) + Zeros(n - 1), e) == MsbFirst(w) + Zeros(n - 1);
      DivisionGoesOn(r + [false], g, MsbFirst(w), n - 1, e, MsbFirst(Shifts8(n, v, poly)));
      assert Plus(r + [false] + Zeros(n - 1), Zeros(1) + e) == r + Zeros(n);
    }
  }

  lemma {:induction false} Crc8IsRemainder(init: bv8, data: seq<bv8>, poly: bv8)
    ensures Leaves(Dividend(MsbFirst(init), data), MsbFirst(poly), MsbFirst(Crc8(init, data, poly)))
    decreases |data|
  {
    hide Shifts8, Leaves, ToBits, MsbFirst, Mix8;
    var g := MsbFirst(poly);
    if data == [] {
      assert Dividend(MsbFirst(init), []) == MsbFirst(init);
      NothingToDivide(MsbFirst(init), g);
    } else {
      var n := |data| - 1;
      var front, b := data[..n], data[n];
      assert data == front + [b];
      Crc8IsRemainder(init, front, poly);
      DividendNext(MsbFirst(init), front, b);
      var r := Crc8(init, front, poly);
      Xor8IsPlus(r, b);
      Feed8Is(r, b, poly);
      assert Plus(MsbFirst(r) + Zeros(8), MsbFirst(b) + Zeros(8)) == MsbFirst(Mix8(r, b)) + Zeros(8);
      Shifts8AreDivision(8, Mix8(r, b), poly);
      DivisionGoesOn(Dividend(MsbFirst(init), front), g, MsbFirst(r), 8, MsbFirst(b) + Zeros(8),
                     MsbFirst(Crc8(init, data, poly)));
    }
  }

  lemma Feed8Is(r: bv8, b: bv8, poly: bv8)
    ensures Feed8(r, b, poly) == Shifts8(8, Mix8(r, b), poly)
  {
  }

  /** The one-octet check is division as well, by the low octet of the polynomial. */
  lemma AcceptsOneOctetIffRemainder(packet: seq<bv8>, c: Config)
    requires c.bytes == 1 && !c.refIn && !c.refOut
    ensures |packet| <= 1 ==> Accepts(packet, c)
    ensures |packet| > 1 ==>
              (Accepts(packet, c) <==>
               Leaves(Plus(ToBits(packet), MsbFirst(Low(c.init)) + Zeros(8 * (|packet| - 1))), MsbFirst(Low(c.poly)),
                      MsbFirst(Low(c.xorOut))))
  {
    hide Crc8, Leaves, ToBits, MsbFirst, Mix8, Low, Register;
    if |packet| > 1 {
      hide Accepts;
      var n := |packet| - 1;
      var data, b := packet[..n], packet[n];
      var init, poly, xorOut := Low(c.init), Low(c.poly), Low(c.xorOut);
      var r, g := Crc8(init, data, poly), MsbFirst(poly);
      OneOctetCheck(packet, c);
      Crc8IsRemainder(init, data, poly);
      var d := Dividend(MsbFirst(init), data);
      LowPartIsLeft(d, g, MsbFirst(r), MsbFirst(b));
      Xor8IsPlus(r, b);
      AppendOctet(data, b);
      assert packet == data + [b];
      var whole := Plus(ToBits(packet), MsbFirst(init) + Zeros(8 * n));
      assert Plus(d, Zeros(8 * n) + MsbFirst(b)) == whole;
      Mix8Solves(r, xorOut, b);
      if Leaves(whole, g, MsbFirst(xorOut)) {
        RemainderIsUnique(whole, g, MsbFirst(xorOut), MsbFirst(Mix8(r, b)));
        SameBitsSameOctet(Mix8(r, b), xorOut);
      }
    }
  }

  lemma Mix8Solves(v: bv8, x: bv8, w: bv8)
    ensures Mix8(v, x) == w <==> Mix8(v, w) == x
  {
    hide Mix8;
    Mix8Undoes(v, x);
    Mix8Undoes(v, w);
  }

  lemma Mix8Undoes(a: bv8, b: bv8)
    ensures Mix8(a, Mix8(a, b)) == b
  {
  }

  // ------------------------------------------------------ reflection

  lemma MirroredBit(x: bv16, k: nat)
    requires k < 16
    ensures BitAt(ReflectOut(x, 2), k) == BitAt(x, 15 - k)
  {
    if
    case k == 0 => case k == 1 => case k == 2 => case k == 3 => case k == 4 => case k == 5 => case k == 6 => case k == 7 =>
    case k == 8 => case k == 9 => case k == 10 => case k == 11 => case k == 12 => case k == 13 => case k == 14 => case k == 15 =>
  }

  lemma LowMirroredBit(x: bv16, k: nat)
    requires k < 16
    ensures BitAt(ReflectOut(x, 1), k) == (k >= 8 && BitAt(x, 23 - k))
  {
    if
    case k == 0 => case k == 1 => case k == 2 => case k == 3 => case k == 4 => case k == 5 => case k == 6 => case k == 7 =>
    case k == 8 => case k == 9 => case k == 10 => case k == 11 => case k == 12 => case k == 13 => case k == 14 => case k == 15 =>
  }

  /** What `refOut` does to a CRC of two octets or one: the word, or its low octet, in reverse. */
  lemma ReflectedWord(hi: bv8, lo: bv8)
    ensures ReflectOut(Word(hi, lo), 2) == Word(Reversed(lo), Reversed(hi))
    ensures ReflectOut(Word(hi, lo), 1) == Word(0, Reversed(lo))
  {
    hide BitAt, Word, ReflectOut, ReadBit, Reversed;
    var x, y, z := Word(hi, lo), Word(Reversed(lo), Reversed(hi)), Word(0, Reversed(lo));
    forall k | 0 <= k < 16
      ensures BitAt(ReflectOut(x, 2), k) == BitAt(y, k) && BitAt(ReflectOut(x, 1), k) == BitAt(z, k)
    {
      MirroredBit(x, k);
      LowMirroredBit(x, k);
      OctetBit(hi, lo, 15 - k);
      OctetBit(Reversed(lo), Reversed(hi), k);
      OctetBit(0, Reversed(lo), k);
      if k < 8 { ZeroIsClear(8 - k); } else { OctetBit(hi, lo, 23 - k); }
    }
    assert WordBits(ReflectOut(x, 2)) == WordBits(y) && WordBits(ReflectOut(x, 1)) == WordBits(z);
    SameBitsSameWord(ReflectOut(x, 2), y);
    SameBitsSameWord(ReflectOut(x, 1), z);
  }

  /** A packet whose CRC is read in reverse. */
  function CrcMirrored(p: seq<bv8>, bytes: nat): (q: seq<bv8>)
    requires 1 <= bytes <= 2 && |p| > bytes
    ensures |q| == |p|
  {
    var n := |p| - bytes;
    p[..n] + (if bytes == 1 then [Reversed(p[n])] else [Reversed(p[n + 1]), Reversed(p[n])])
  }

  /** Output reflection, with input reflection or without: the same check on packets whose CRC is sent in
      reverse. */
  lemma ReflectedOutput(p: seq<bv8>, c: Config)
    requires c.refOut && 1 <= c.bytes <= 2 && |p| > c.bytes
    ensures Accepts(p, c) <==> Accepts(CrcMirrored(p, c.bytes), c.(refOut := false))
  {
    hide Register, Word, Reversed, Mix, ReflectOut, Accepts, Finish, Tail, Reflect, ReflectAll;
    var n, q := |p| - c.bytes, CrcMirrored(p, c.bytes);
    assert p[..n] == q[..n];
    var d := c.(refOut := false);
    Compared(p, c);
    Compared(q, d);
    var r := Register(c.init, ReflectAll(p[..n], c.refIn), c.poly, c.bytes == 2);
    ReflectsBack(p[n], c.refIn);
    if c.bytes == 2 {
      ReflectsBack(p[n + 1], c.refIn);
      FinishedWord(r, c.xorOut, Reflect(p[n], c.refIn), Reflect(p[n + 1], c.refIn));
      TailWord(p, c);
      TailWord(q, d);
    } else {
      FinishedOctet(r, c.xorOut, Reflect(p[n], c.refIn));
      TailOctet(p, c);
      TailOctet(q, d);
    }
  }

  lemma Compared(p: seq<bv8>, c: Config)
    requires 1 <= c.bytes <= 2 && |p| > c.bytes
    ensures Accepts(p, c) <==>
            Finish(Register(c.init, ReflectAll(p[..|p| - c.bytes], c.refIn), c.poly, c.bytes == 2),
                   c.xorOut, c.refOut, c.bytes) == Tail(p, c)
  {
  }

  lemma TailWord(p: seq<bv8>, c: Config)
    requires c.bytes == 2 && |p| > 2
    ensures Tail(p, c) == Word(Reflect(p[|p| - 2], c.refIn), Reflect(p[|p| - 1], c.refIn))
  {
  }

  lemma TailOctet(p: seq<bv8>, c: Config)
    requires c.bytes == 1 && |p| > 1
    ensures Tail(p, c) == Reflect(p[|p| - 1], c.refIn) as bv16
  {
  }

  lemma FinishedWord(r: bv16, xorOut: bv16, hi: bv8, lo: bv8)
    ensures Finish(r, xorOut, true, 2) == Word(hi, lo) <==> Finish(r, xorOut, false, 2) == Word(Reversed(lo), Reversed(hi))
  {
    hide Word, Reversed, ReflectOut, Mix;
    WordReflected(Mix(r, xorOut), hi, lo);
  }

  /** The comparison of the register with a CRC of one octet. */
  predicate LowIs(x: bv16, b: bv8)
  {
    x & 0xFF == b as bv16
  }

  lemma FinishedOctet(r: bv16, xorOut: bv16, lo: bv8)
    ensures Finish(r, xorOut, true, 1) == lo as bv16 <==> Finish(r, xorOut, false, 1) == Reversed(lo) as bv16
  {
    hide Finish, Reversed, ReflectOut, Mix, LowIs;
    FinishIs(r, xorOut, lo);
    FinishIs(r, xorOut, Reversed(lo));
    OctetReflected(Mix(r, xorOut), lo);
  }

  lemma FinishIs(r: bv16, xorOut: bv16, b: bv8)
    ensures Finish(r, xorOut, true, 1) == b as bv16 <==> LowIs(ReflectOut(Mix(r, xorOut), 1), b)
    ensures Finish(r, xorOut, false, 1) == b as bv16 <==> LowIs(Mix(r, xorOut), b)
  {
    hide ReflectOut, Mix;
  }

  lemma ReflectsBack(b: bv8, refIn: bool)
    ensures Reversed(Reflect(b, refIn)) == Reflect(Reversed(b), refIn)
  {
  }

  lemma WordReflected(x: bv16, hi: bv8, lo: bv8)
    ensures ReflectOut(x, 2) & 0xFFFF == Word(hi, lo) <==> x & 0xFFFF == Word(Reversed(lo), Reversed(hi))
  {
    hide Word, Reversed, ReflectOut, HighOctet, LowOctet;
    FullMask(x);
    FullMask(ReflectOut(x, 2));
    WordOfOctets(x);
    var h, l := HighOctet(x), LowOctet(x);
    ReflectedWord(h, l);
    ReflectedWord(hi, lo);
    ReflectedWord(Reversed(lo), Reversed(hi));
    ReversalIsInvolutive(hi);
    ReversalIsInvolutive(lo);
    ReflectedWord(Reversed(l), Reversed(h));
    ReversalIsInvolutive(h);
    ReversalIsInvolutive(l);
  }

  lemma OctetReflected(x: bv16, lo: bv8)
    ensures LowIs(ReflectOut(x, 1), lo) <==> LowIs(x, Reversed(lo))
  {
    hide Word, Reversed, ReflectOut, HighOctet, LowOctet, LowIs;
    WordOfOctets(x);
    var l := LowOctet(x);
    ReflectedWord(HighOctet(x), l);
    LowMasked(HighOctet(x), l, Reversed(lo));
    LowMasked(0, Reversed(l), lo);
    ReversalIsInvolutive(lo);
    ReversalIsInvolutive(l);
  }

  lemma LowMasked(hi: bv8, lo: bv8, b: bv8)
    ensures LowIs(Word(hi, lo), b) <==> lo == b
  {
  }

  /** With more than two octets, which no standard CRC of sixteen bits has, the last two are compared. */
  lemma AcceptsMoreOctets(packet: seq<bv8>, c: Config)
    requires c.bytes > 2 && !c.refIn && !c.refOut
    ensures |packet| <= c.bytes ==> Accepts(packet, c)
    ensures |packet| > c.bytes ==>
              var n, r := |packet|, Register(c.init, packet[..|packet| - c.bytes], c.poly, false);
              (Accepts(packet, c) <==>
               Plus(WordBits(r), WordBits(c.xorOut)) == MsbFirst(packet[n - 2]) + MsbFirst(packet[n - 1]))
  {
    hide Register, Word, WordBits, MsbFirst, Mix, Finish;
    if |packet| > c.bytes {
      var n := |packet|;
      var data, hi, lo := packet[..n - c.bytes], packet[n - 2], packet[n - 1];
      assert ReflectAll(data, false) == data;
      var r := Register(c.init, data, c.poly, false);
      hide Accepts;
      FinishedPlain(r, c.xorOut, c.bytes);
      MixIsPlus(r, c.xorOut);
      WordIsOctets(hi, lo);
      if WordBits(Mix(r, c.xorOut)) == WordBits(Word(hi, lo)) {
        SameBitsSameWord(Mix(r, c.xorOut), Word(hi, lo));
      }
    }
  }

  lemma FinishedPlain(r: bv16, xorOut: bv16, bytes: nat)
    requires bytes > 2
    ensures Finish(r, xorOut, false, bytes) == Mix(r, xorOut)
  {
    hide Mix;
    FullMask(Mix(r, xorOut));
  }

  /** Reflected in 24 bits only the high octet is left, in 32 nothing. */
  lemma ReflectedWider(hi: bv8, lo: bv8)
    ensures ReflectOut(Word(hi, lo), 3) == Word(Reversed(hi), 0)
    ensures ReflectOut(Word(hi, lo), 4) == 0
  {
    hide BitAt, Word, ReflectOut, ReadBit, Reversed;
    var x, y := Word(hi, lo), Word(Reversed(hi), 0);
    forall k | 0 <= k < 16
      ensures BitAt(ReflectOut(x, 3), k) == BitAt(y, k)
    {
      WiderMirroredBit(x, k);
      OctetBit(Reversed(hi), 0, k);
      if k < 8 { OctetBit(hi, lo, 7 - k); } else { ZeroIsClear(16 - k); }
    }
    assert WordBits(ReflectOut(x, 3)) == WordBits(y);
    SameBitsSameWord(ReflectOut(x, 3), y);
    WidestMirrored(x);
  }

  lemma WiderMirroredBit(x: bv16, k: nat)
    requires k < 16
    ensures BitAt(ReflectOut(x, 3), k) == (k < 8 && BitAt(x, 7 - k))
  {
    if
    case k == 0 => case k == 1 => case k == 2 => case k == 3 => case k == 4 => case k == 5 => case k == 6 => case k == 7 =>
    case k == 8 => case k == 9 => case k == 10 => case k == 11 => case k == 12 => case k == 13 => case k == 14 => case k == 15 =>
  }

  lemma WidestMirrored(x: bv16)
    ensures ReflectOut(x, 4) == 0
  {
  }

  /** The register of these is as wide, but bit 7 decides: bit by bit. */
  lemma NarrowShiftBits(crc: bv16, poly: bv16, k: nat)
    requires k < 16
    ensures BitAt(ShiftLow(crc, poly), k) == ((k < 15 && BitAt(crc, k + 1)) != (BitAt(crc, 8) && BitAt(poly, k)))
  {
    NarrowBranch(crc, poly);
    hide BitAt, Mix, Twice, ShiftLow;
    TwiceBit(crc, k);
    MixBit(Twice(crc), poly, k);
  }

  lemma NarrowBranch(crc: bv16, poly: bv16)
    ensures ShiftLow(crc, poly) == if BitAt(crc, 8) then Mix(Twice(crc), poly) else Twice(crc)
  {
  }
}
