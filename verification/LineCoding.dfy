/** The two line codes that sit under the HDLC framing: NRZ-S (`nrz2nrzi`) and the
    x^17 + x^12 self-synchronising scrambler (`descram1712`), src/bitcode.c.

    The receiver's two loops are methods over octet buffers, each proved against a
    function on bit streams.  The transmitter, which the firmware does not contain, is
    written down here as a pair of functions on bit streams. */
module LineCoding {
  import opened Bits

  // ---------------------------------------------------------------- NRZ-S

  /** The receiver: a bit is 1 exactly when the line level did not change. */
  function NrzsDecode(level: bool, line: seq<bool>): (bits: seq<bool>)
    ensures |bits| == |line|
  {
    seq(|line|, n requires 0 <= n < |line| => (if n == 0 then level else line[n - 1]) == line[n])
  }

  /** The transmitter: a 0 toggles the line level, a 1 keeps it (section 3.1 of AX.25 version
      2.2 leaves the line code to the modem; NRZ-S is "space toggles"). */
  function NrzsEncode(level: bool, bits: seq<bool>): (line: seq<bool>)
    ensures |line| == |bits|
    decreases |bits|
  {
    if bits == [] then []
    else
      var next := if bits[0] then level else !level;
      [next] + NrzsEncode(next, bits[1..])
  }

  lemma NrzsDecodeStep(level: bool, line: seq<bool>)
    requires line != []
    ensures NrzsDecode(level, line) == [level == line[0]] + NrzsDecode(line[0], line[1..])
  {
  }

  lemma {:induction false} NrzsRoundTrip(level: bool, bits: seq<bool>)
    ensures NrzsDecode(level, NrzsEncode(level, bits)) == bits
    decreases |bits|
  {
    if bits == [] {
    } else {
      var next := if bits[0] then level else !level;
      var rest := NrzsEncode(next, bits[1..]);
      NrzsDecodeStep(level, [next] + rest);
      assert ([next] + rest)[1..] == rest;
      NrzsRoundTrip(next, bits[1..]);
    }
  }

  lemma NrzsDecodeConcat(level: bool, a: seq<bool>, b: seq<bool>)
    requires a != []
    ensures NrzsDecode(level, a + b) == NrzsDecode(level, a) + NrzsDecode(a[|a| - 1], b)
  {
  }

  /** The inner loop of `nrz2nrzi`: one octet, carrying the previous level across octets. */
  method NrziOctet(byteIn: bv8, level: bool) returns (byteOut: bv8, prev: bool)
    ensures MsbFirst(byteOut) == NrzsDecode(level, MsbFirst(byteIn))
    ensures prev == ReadBit(byteIn, 1)
  {
    prev := level;
    byteOut := 0;
    var i := 8;
    NoLevelsYet(byteIn, level);
    hide ReadBit, WriteBit, LevelsDone;
    while i > 0
      invariant 0 <= i <= 8
      invariant LevelsDone(byteIn, level, i, byteOut, prev)
    {
      OneLevelMore(byteIn, level, i, byteOut, prev);
      var cur := ReadBit(byteIn, i);
      if prev == cur {
        byteOut := WriteBit(byteOut, i, true);
      }
      prev := cur;
      i := i - 1;
    }
    AllLevelsDone(byteIn, level, byteOut, prev);
  }

  /** The loop of `NrziOctet` with positions `i` and below still to come. */
  ghost predicate LevelsDone(byteIn: bv8, level: bool, i: int, byteOut: bv8, prev: bool)
    requires 0 <= i <= 8
  {
    && WrittenOnZero(byteOut, NrzsDecode(level, MsbFirst(byteIn))[..8 - i])
    && prev == if i == 8 then level else ReadBit(byteIn, i + 1)
  }

  lemma NoLevelsYet(byteIn: bv8, level: bool)
    ensures LevelsDone(byteIn, level, 8, 0, level)
  {
    NothingWrittenOnZero();
    assert NrzsDecode(level, MsbFirst(byteIn))[..0] == [];
  }

  lemma OneLevelMore(byteIn: bv8, level: bool, i: int, byteOut: bv8, prev: bool)
    requires 1 <= i <= 8 && LevelsDone(byteIn, level, i, byteOut, prev)
    ensures var cur := ReadBit(byteIn, i);
            LevelsDone(byteIn, level, i - 1, if prev == cur then WriteBit(byteOut, i, true) else byteOut, cur)
  {
    hide ReadBit, WriteBit, MsbFirst, WrittenOnZero;
    var target := NrzsDecode(level, MsbFirst(byteIn));
    var v := prev == ReadBit(byteIn, i);
    MsbFirstAt(byteIn, i);
    if i < 8 { MsbFirstAt(byteIn, i + 1); }
    assert target[8 - i] == v;
    SetNext(byteOut, target[..8 - i], v);
    assert target[..8 - (i - 1)] == target[..8 - i] + [v];
  }

  lemma AllLevelsDone(byteIn: bv8, level: bool, byteOut: bv8, prev: bool)
    requires LevelsDone(byteIn, level, 0, byteOut, prev)
    ensures MsbFirst(byteOut) == NrzsDecode(level, MsbFirst(byteIn)) && prev == ReadBit(byteIn, 1)
  {
    hide ReadBit, MsbFirst, WrittenOnZero;
    var target := NrzsDecode(level, MsbFirst(byteIn));
    assert target[..8] == target;
    ForgetZeros(byteOut, target);
    FullyWritten(byteOut, target);
  }

  /** `nrz2nrzi`, from an idle level of 0. */
  method Nrz2Nrzi(input: array<bv8>, len: nat, out: array<bv8>) returns (outLen: nat)
    requires len <= input.Length && len <= out.Length && input != out
    modifies out
    ensures outLen == len
    ensures ToBits(out[..len]) == NrzsDecode(false, ToBits(input[..len]))
    ensures out[len..] == old(out[len..])
  {
    var prev := false;
    var idx := 0;
    var p := 0;
    while p < len
      invariant 0 <= p <= len && idx == p
      invariant prev == if p == 0 then false else ReadBit(input[p - 1], 1)
      invariant ToBits(out[..p]) == NrzsDecode(false, ToBits(input[..p]))
      invariant out[len..] == old(out[len..])
    {
      var byteOut;
      byteOut, prev := NrziOctet(input[p], prev);
      out[idx] := byteOut;
      idx := idx + 1;
      NextLevel(input[..p], input[p]);
      assert out[..p + 1] == out[..p] + [byteOut] && input[..p + 1] == input[..p] + [input[p]];
      AppendOctet(out[..p], byteOut);
      p := p + 1;
    }
    outLen := idx;
  }

  lemma NextLevel(done: seq<bv8>, b: bv8)
    ensures NrzsDecode(false, ToBits(done + [b])) ==
            NrzsDecode(false, ToBits(done))
            + NrzsDecode(if done == [] then false else ReadBit(done[|done| - 1], 1), MsbFirst(b))
  {
    AppendOctet(done, b);
    if done == [] {
      assert ToBits(done) + MsbFirst(b) == MsbFirst(b);
    } else {
      NrzsDecodeConcat(false, ToBits(done), MsbFirst(b));
      assert (8 * |done| - 1) / 8 == |done| - 1 && (8 * |done| - 1) % 8 == 7;
    }
  }

  // ---------------------------------------------------------------- x^17 + x^12

  predicate Xor(a: bool, b: bool) { a != b }

  /** What stands `d` places before bit `n` of the line: an earlier line bit, or the
      initial shift register, whose element `j` is register position `j + 1`. */
  function Tap(reg: seq<bool>, line: seq<bool>, n: nat, d: nat): bool
    requires |reg| == 17 && n <= |line| && 1 <= d <= 17
  {
    if n >= d then line[n - d] else reg[d - 1 - n]
  }

  /** The receiver: every line bit is corrected by the line bits 12 and 17 places back. */
  function Descramble(reg: seq<bool>, line: seq<bool>): (bits: seq<bool>)
    requires |reg| == 17
    ensures |bits| == |line|
  {
    seq(|line|, n requires 0 <= n < |line| =>
      Xor(line[n], Xor(Tap(reg, line, n, 12), Tap(reg, line, n, 17))))
  }

  /** The transmitter: the scrambler feeds its own output back. */
  function Scramble(reg: seq<bool>, bits: seq<bool>): (line: seq<bool>)
    requires |reg| == 17
    ensures |line| == |bits|
    decreases |bits|
  {
    if bits == [] then []
    else
      var y := Xor(bits[0], Xor(reg[11], reg[16]));
      [y] + Scramble([y] + reg[..16], bits[1..])
  }

  lemma DescrambleStep(reg: seq<bool>, line: seq<bool>)
    requires |reg| == 17 && line != []
    ensures Descramble(reg, line) ==
            [Xor(line[0], Xor(reg[11], reg[16]))] + Descramble([line[0]] + reg[..16], line[1..])
  {
  }

  lemma {:induction false} ScrambleThenDescramble(reg: seq<bool>, bits: seq<bool>)
    requires |reg| == 17
    ensures Descramble(reg, Scramble(reg, bits)) == bits
    decreases |bits|
  {
    if bits == [] {
    } else {
      var y := Xor(bits[0], Xor(reg[11], reg[16]));
      var rest := Scramble([y] + reg[..16], bits[1..]);
      DescrambleStep(reg, [y] + rest);
      assert ([y] + rest)[1..] == rest;
      ScrambleThenDescramble([y] + reg[..16], bits[1..]);
    }
  }

  lemma {:induction false} DescrambleThenScramble(reg: seq<bool>, line: seq<bool>)
    requires |reg| == 17
    ensures Scramble(reg, Descramble(reg, line)) == line
    decreases |line|
  {
    if line == [] {
    } else {
      var d := Descramble([line[0]] + reg[..16], line[1..]);
      DescrambleStep(reg, line);
      assert ([Xor(line[0], Xor(reg[11], reg[16]))] + d)[1..] == d;
      DescrambleThenScramble([line[0]] + reg[..16], line[1..]);
    }
  }

  /** Self-synchronisation: whatever the two registers held, seventeen line bits later the
      two receivers agree for ever. */
  lemma DescramblerSynchronises(reg1: seq<bool>, reg2: seq<bool>, line: seq<bool>)
    requires |reg1| == 17 && |reg2| == 17
    ensures forall n :: 17 <= n < |line| ==> Descramble(reg1, line)[n] == Descramble(reg2, line)[n]
  {
  }

  /** Error propagation: one flipped line bit damages exactly three output bits, those of
      the polynomial, as far as they lie inside the stream. */
  lemma OneErrorHitsThreeBits(reg: seq<bool>, line: seq<bool>, i: nat, n: nat)
    requires |reg| == 17 && i < |line| && n < |line|
    ensures Descramble(reg, line[i := !line[i]])[n] != Descramble(reg, line)[n]
            <==> n == i || n == i + 12 || n == i + 17
  {
    var flipped := line[i := !line[i]];
    assert Tap(reg, flipped, n, 12) != Tap(reg, line, n, 12) <==> n == i + 12;
    assert Tap(reg, flipped, n, 17) != Tap(reg, line, n, 17) <==> n == i + 17;
  }

  /** The weight of a register position: `1u << (pos - 1)`. */
  function Mask32(pos: nat): bv32
    requires 1 <= pos <= 17
  {
    if pos == 1 then 0x1 else if pos == 2 then 0x2 else if pos == 3 then 0x4 else if pos == 4 then 0x8
    else if pos == 5 then 0x10 else if pos == 6 then 0x20 else if pos == 7 then 0x40 else if pos == 8 then 0x80
    else if pos == 9 then 0x100 else if pos == 10 then 0x200 else if pos == 11 then 0x400
    else if pos == 12 then 0x800 else if pos == 13 then 0x1000 else if pos == 14 then 0x2000
    else if pos == 15 then 0x4000 else if pos == 16 then 0x8000 else 0x10000
  }

  /** `read_bit32`. */
  predicate ReadBit32(v: bv32, pos: nat)
    requires 1 <= pos <= 17
  {
    v & Mask32(pos) != 0
  }

  /** `lfsr << 1` followed by `write_bit32(&lfsr, 1, bit)`. */
  function ShiftIn(v: bv32, bit: bool): bv32
  {
    if bit then (v << 1) | 1 else (v << 1) & !1
  }

  lemma ShiftEnters(v: bv32, bit: bool)
    ensures ReadBit32(ShiftIn(v, bit), 1) == bit
  {
  }

  ghost predicate Holds(v: bv32, reg: seq<bool>)
    requires |reg| == 17
  {
    forall pos :: 1 <= pos <= 17 ==> ReadBit32(v, pos) == reg[pos - 1]
  }

  lemma PositionMoves(v: bv32, bit: bool, pos: nat)
    requires 2 <= pos <= 17
    ensures ReadBit32(ShiftIn(v, bit), pos) == ReadBit32(v, pos - 1)
  {
    if
    case pos == 2 => case pos == 3 => case pos == 4 => case pos == 5 =>
    case pos == 6 => case pos == 7 => case pos == 8 => case pos == 9 =>
    case pos == 10 => case pos == 11 => case pos == 12 => case pos == 13 =>
    case pos == 14 => case pos == 15 => case pos == 16 => case pos == 17 =>
  }

  lemma ShiftKeepsRegister(v: bv32, reg: seq<bool>, bit: bool)
    requires |reg| == 17 && Holds(v, reg)
    ensures Holds(ShiftIn(v, bit), [bit] + reg[..16])
  {
    hide ReadBit32, ShiftIn;
    forall pos | 1 <= pos <= 17
      ensures ReadBit32(ShiftIn(v, bit), pos) == ([bit] + reg[..16])[pos - 1]
    {
      if pos == 1 {
        ShiftEnters(v, bit);
      } else {
        PositionMoves(v, bit, pos);
        assert ReadBit32(v, pos - 1) == reg[pos - 2];
      }
    }
  }

  /** The shift register at the start of a packet. */
  const CLEARED: seq<bool> :=
    [false, false, false, false, false, false, false, false, false,
     false, false, false, false, false, false, false, false]

  /** The register after a stretch of line bits, newest bit first. */
  function Advance(reg: seq<bool>, line: seq<bool>): (next: seq<bool>)
    requires |reg| == 17
    ensures |next| == 17
  {
    seq(17, j requires 0 <= j < 17 => Tap(reg, line, |line|, j + 1))
  }

  lemma AdvanceConcat(reg: seq<bool>, a: seq<bool>, b: seq<bool>)
    requires |reg| == 17
    ensures Advance(reg, a + b) == Advance(Advance(reg, a), b)
  {
  }

  lemma DescrambleConcat(reg: seq<bool>, a: seq<bool>, b: seq<bool>)
    requires |reg| == 17
    ensures Descramble(reg, a + b) == Descramble(reg, a) + Descramble(Advance(reg, a), b)
  {
  }

  /** The inner loop of `descram1712`: one octet, carrying the shift register. */
  method DescrambleOctet(byteIn: bv8, lfsr0: bv32, ghost reg: seq<bool>) returns (byteOut: bv8, lfsr: bv32)
    requires |reg| == 17 && Holds(lfsr0, reg)
    ensures MsbFirst(byteOut) == Descramble(reg, MsbFirst(byteIn))
    ensures Holds(lfsr, Advance(reg, MsbFirst(byteIn)))
  {
    lfsr := lfsr0;
    byteOut := 0;
    var bitPos := 8;
    NoBitsYet(byteIn, reg, lfsr);
    hide ReadBit, WriteBit, ReadBit32, ShiftIn, BitsDone;
    while bitPos > 0
      invariant 0 <= bitPos <= 8
      invariant BitsDone(byteIn, reg, bitPos, byteOut, lfsr)
    {
      OneBitMore(byteIn, reg, bitPos, byteOut, lfsr);
      var x1 := Xor(ReadBit32(lfsr, 12), ReadBit32(lfsr, 17));
      var bit := ReadBit(byteIn, bitPos);
      byteOut := WriteBit(byteOut, bitPos, Xor(bit, x1));
      lfsr := ShiftIn(lfsr, bit);
      bitPos := bitPos - 1;
    }
    AllBitsDone(byteIn, reg, byteOut, lfsr);
  }

  /** The loop of `DescrambleOctet` with positions `bitPos` and below still to come. */
  ghost predicate BitsDone(byteIn: bv8, reg: seq<bool>, bitPos: int, byteOut: bv8, lfsr: bv32)
    requires 0 <= bitPos <= 8 && |reg| == 17
  {
    && Written(byteOut, Descramble(reg, MsbFirst(byteIn))[..8 - bitPos])
    && Holds(lfsr, Advance(reg, MsbFirst(byteIn)[..8 - bitPos]))
  }

  lemma NoBitsYet(byteIn: bv8, reg: seq<bool>, lfsr: bv32)
    requires |reg| == 17 && Holds(lfsr, reg)
    ensures BitsDone(byteIn, reg, 8, 0, lfsr)
  {
    NothingWritten(0);
    assert Descramble(reg, MsbFirst(byteIn))[..0] == [] && MsbFirst(byteIn)[..0] == [];
    assert Advance(reg, []) == reg;
  }

  lemma OneBitMore(byteIn: bv8, reg: seq<bool>, bitPos: int, byteOut: bv8, lfsr: bv32)
    requires 1 <= bitPos <= 8 && |reg| == 17 && BitsDone(byteIn, reg, bitPos, byteOut, lfsr)
    ensures var bit := ReadBit(byteIn, bitPos);
            var v := Xor(bit, Xor(ReadBit32(lfsr, 12), ReadBit32(lfsr, 17)));
            BitsDone(byteIn, reg, bitPos - 1, WriteBit(byteOut, bitPos, v), ShiftIn(lfsr, bit))
  {
    hide ReadBit, WriteBit, ReadBit32, ShiftIn, MsbFirst, Written, Holds, Advance, Descramble;
    var line, target := MsbFirst(byteIn), Descramble(reg, MsbFirst(byteIn));
    var n := 8 - bitPos;
    var bit := ReadBit(byteIn, bitPos);
    MsbFirstAt(byteIn, bitPos);
    HeldTaps(lfsr, Advance(reg, line[..n]));
    RegisterSuppliesTaps(reg, line, n);
    WriteNext(byteOut, target[..n], target[n]);
    assert target[..n + 1] == target[..n] + [target[n]] && line[..n + 1] == line[..n] + [bit];
    ShiftKeepsRegister(lfsr, Advance(reg, line[..n]), bit);
    AdvanceByOne(reg, line[..n], bit);
  }

  lemma RegisterSuppliesTaps(reg: seq<bool>, line: seq<bool>, n: nat)
    requires |reg| == 17 && n < |line|
    ensures Descramble(reg, line)[n] ==
            Xor(line[n], Xor(Advance(reg, line[..n])[11], Advance(reg, line[..n])[16]))
  {
  }

  lemma AdvanceByOne(reg: seq<bool>, line: seq<bool>, bit: bool)
    requires |reg| == 17
    ensures Advance(reg, line + [bit]) == [bit] + Advance(reg, line)[..16]
  {
  }

  lemma AllBitsDone(byteIn: bv8, reg: seq<bool>, byteOut: bv8, lfsr: bv32)
    requires |reg| == 17 && BitsDone(byteIn, reg, 0, byteOut, lfsr)
    ensures MsbFirst(byteOut) == Descramble(reg, MsbFirst(byteIn)) && Holds(lfsr, Advance(reg, MsbFirst(byteIn)))
  {
    hide ReadBit, MsbFirst, Written, Holds, Advance, Descramble;
    var line, target := MsbFirst(byteIn), Descramble(reg, MsbFirst(byteIn));
    assert target[..8] == target && line[..8] == line;
    FullyWritten(byteOut, target);
  }

  lemma HeldTaps(v: bv32, reg: seq<bool>)
    requires |reg| == 17 && Holds(v, reg)
    ensures ReadBit32(v, 12) == reg[11] && ReadBit32(v, 17) == reg[16]
  {
  }

  /** `descram1712`, from a cleared shift register. */
  method Descram1712(input: array<bv8>, len: nat, out: array<bv8>)
    requires len <= input.Length && len <= out.Length && input != out
    modifies out
    ensures ToBits(out[..len]) == Descramble(CLEARED, ToBits(input[..len]))
    ensures out[len..] == old(out[len..])
  {
    var lfsr: bv32 := 0;
    var idx := 0;
    while idx < len
      invariant 0 <= idx <= len
      invariant Holds(lfsr, Advance(CLEARED, ToBits(input[..idx])))
      invariant ToBits(out[..idx]) == Descramble(CLEARED, ToBits(input[..idx]))
      invariant out[len..] == old(out[len..])
    {
      ghost var done := ToBits(input[..idx]);
      var byteOut;
      byteOut, lfsr := DescrambleOctet(input[idx], lfsr, Advance(CLEARED, done));
      out[idx] := byteOut;
      assert out[..idx + 1] == out[..idx] + [byteOut] && input[..idx + 1] == input[..idx] + [input[idx]];
      AppendOctet(out[..idx], byteOut);
      AppendOctet(input[..idx], input[idx]);
      DescrambleConcat(CLEARED, done, MsbFirst(input[idx]));
      AdvanceConcat(CLEARED, done, MsbFirst(input[idx]));
      idx := idx + 1;
    }
  }
}
