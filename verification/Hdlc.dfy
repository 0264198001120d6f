/** HDLC flag detection and bit unstuffing: `remove_bit_stuffing` of src/bitcode.c.

    `Deframer` holds the local variables of the source's loop; `Step` is one turn of its
    inner loop and `Run` the two nested loops.  The method `RemoveBitStuffing` is the source's
    code, proved to compute `Run`. */
module Hdlc {
  import opened Bits

  datatype Deframer = Deframer(
    ones: nat,          // consecutive 1 bits seen
    k: nat,             // position of byteOut written next, 8 down to 1
    byteOut: bv8,
    bit2: bool,         // look-ahead
    bit3: bool,
    resync: nat,        // look-ahead bits still to be discarded after a flag
    error: bool,
    flagFound: bool,
    skip: bool,         // the next bit is a stuffed 0
    store: bool,        // an opening flag has been seen
    out: seq<bv8>)

  /** Append one data bit: write it, and emit the octet when it is complete. */
  function PutBit(s: Deframer, v: bool, outMax: nat): (t: Deframer)
    requires 1 <= s.k <= 8
    ensures 1 <= t.k <= 8
    ensures t == s.(k := t.k, byteOut := t.byteOut, out := t.out)
    ensures t.k == if s.k == 1 then 8 else s.k - 1
    ensures |s.out| <= outMax ==> |t.out| <= outMax
    ensures s.k != 1 || !s.store ==> t.out == s.out
  {
    var w := if s.store then WriteBit(s.byteOut, s.k, v) else s.byteOut;
    if s.k == 1 then
      s.(k := 8, byteOut := 0, out := if s.store && |s.out| < outMax then s.out + [w] else s.out)
    else
      s.(k := s.k - 1, byteOut := w)
  }

  /** Six 1 bits and a 0: accept the frame, or forget it and start again. */
  function FlagSeen(s: Deframer): Deframer
  {
    if |s.out| < 16 || s.k != 2 then
      s.(store := true, out := [], k := 8, error := true, flagFound := false, resync := 2)
    else
      s.(store := true, error := false, flagFound := true)
  }

  /** The shift of the three look-ahead bits and the resync countdown. */
  function Shift(s: Deframer, bit: bool): (t: Deframer)
    ensures t.k == s.k && t.flagFound == s.flagFound && t.out == s.out
  {
    s.(bit2 := s.bit3, bit3 := bit,
       skip := s.skip || s.resync > 0, resync := if s.resync > 0 then s.resync - 1 else 0)
  }

  function Step(s: Deframer, bit: bool, outMax: nat): (t: Deframer)
    requires 1 <= s.k <= 8
    ensures 1 <= t.k <= 8
    ensures |s.out| <= outMax ==> |t.out| <= outMax
  {
    var u := Shift(s, bit);
    if u.skip || u.flagFound then u.(skip := false)
    else if !s.bit2 then PutBit(u, false, outMax).(ones := 0)
    else
      var v := PutBit(u, true, outMax).(ones := u.ones + 1);
      if v.ones != 5 then v
      else if !v.bit2 then v.(ones := 0, skip := true)
      else if v.bit3 then v.(error := true)
      else FlagSeen(v)
  }

  /** Does this turn end with `j = 0`, dropping the rest of the input octet? */
  predicate Jumps(s: Deframer)
  {
    !s.skip && s.resync == 0 && !s.flagFound && s.bit2 && s.ones == 4 && s.bit3
  }

  /** The place of the next bit to read. */
  function Next(n: nat, s: Deframer): (m: nat)
    ensures n < m <= n + 8
  {
    if Jumps(s) then 8 * (n / 8 + 1) else n + 1
  }

  function Run(bits: seq<bool>, n: nat, s: Deframer, outMax: nat): (t: Deframer)
    requires 1 <= s.k <= 8
    ensures 1 <= t.k <= 8
    ensures |s.out| <= outMax ==> |t.out| <= outMax
    decreases if n < |bits| then |bits| - n else 0
  {
    if n >= |bits| || s.flagFound then s
    else Run(bits, Next(n, s), Step(s, bits[n], outMax), outMax)
  }

  function Start(bits: seq<bool>): Deframer
    requires |bits| >= 2
  {
    Deframer(0, 8, 0, bits[0], bits[1], 0, true, false, false, false, [])
  }

  function Deframe(bits: seq<bool>, outMax: nat): (t: Deframer)
    requires |bits| >= 2
    ensures |t.out| <= outMax
  {
    Run(bits, 2, Start(bits), outMax)
  }

  /** Everything a caller may rely on for every input whatsoever: the output fits, and the
      decoder reports success (0) only with at least sixteen octets complete and the closing
      flag on an octet boundary of the frame. */
  method RemoveBitStuffing(input: array<bv8>, inLen: nat, out: array<bv8>, outMax: nat)
    returns (rc: int, outLen: nat)
    requires 1 <= inLen <= input.Length && outMax <= out.Length && input != out
    modifies out
    ensures outLen <= outMax
    ensures out[..outLen] == Deframe(ToBits(input[..inLen]), outMax).out
    ensures rc == if Deframe(ToBits(input[..inLen]), outMax).flagFound then 0 else 1
  {
    rc, outLen := Loops(input, inLen, out, outMax, ToBits(input[..inLen]));
  }

  ghost predicate IsStream(bits: seq<bool>, octets: seq<bv8>)
  {
    bits == ToBits(octets)
  }

  /** The two loops of `remove_bit_stuffing`; `bits` is the input read as a bit stream. */
  method Loops(input: array<bv8>, inLen: nat, out: array<bv8>, outMax: nat, ghost bits: seq<bool>)
    returns (rc: int, outLen: nat)
    requires 1 <= inLen <= input.Length && outMax <= out.Length && input != out
    requires IsStream(bits, input[..inLen]) && |bits| == 8 * inLen
    modifies out
    ensures outLen <= outMax
    ensures out[..outLen] == Deframe(bits, outMax).out
    ensures rc == if Deframe(bits, outMax).flagFound then 0 else 1
  {
    hide ReadBit, WriteBit, Step, Run, Next, Jumps, IsStream;
    ghost var octets := input[..inLen];
    var byteIn: bv8 := input[0];
    Position(bits, octets, 0, 8);
    Position(bits, octets, 0, 7);
    var s := Deframer(0, 8, 0, ReadBit(byteIn, 8), ReadBit(byteIn, 7), 0, true, false, false, false, []);
    outLen := 0;
    var j := 6;
    var i := 0;
    while i < inLen
      invariant i <= inLen + 1 && (s.flagFound ==> i == inLen + 1) && (!s.flagFound ==> i <= inLen)
      invariant j == 8 || (j == 6 && i == 0)
      invariant input[..inLen] == octets
      invariant 1 <= s.k <= 8 && outLen <= outMax && out[..outLen] == s.out
      invariant s.flagFound ==> !s.error
      invariant Deframe(bits, outMax) == Run(bits, 8 * i + 8 - j, s, outMax)
      decreases inLen + 1 - i
    {
      byteIn := input[i];
      ghost var i0 := i;
      while j > 0
        invariant -1 <= j <= 8 && 0 <= i0 < inLen
        invariant if s.flagFound then i == inLen && j == -1 else i == i0
        invariant input[..inLen] == octets && byteIn == octets[i0]
        invariant 1 <= s.k <= 8 && outLen <= outMax && out[..outLen] == s.out
        invariant s.flagFound ==> !s.error
        invariant Deframe(bits, outMax) == Run(bits, if j >= 0 then 8 * i0 + 8 - j else 8 * (i0 + 1), s, outMax)
        decreases j
      {
        Position(bits, octets, i0, j);
        Unroll(bits, 8 * i0 + 8 - j, s, outMax);
        NextPlace(8 * i0 + 8 - j, i0, s);
        var drop;
        s, outLen, drop := TakeBit(s, ReadBit(byteIn, j), out, outLen, outMax);
        if drop {
          j := 0;
          if s.flagFound { i := inLen; }
        }
        j := j - 1;
      }
      if s.flagFound {
        RunEnds(bits, 8 * (i0 + 1), s, outMax);
        RunEnds(bits, 8 * (i + 1), s, outMax);
      }
      j := 8;
      i := i + 1;
    }
    RunEnds(bits, 8 * i + 8 - j, s, outMax);
    rc := if s.flagFound && !s.error then 0 else 1;
  }

  /** The body of the inner loop.  `out[..outLen]` is the part of the buffer already filled;
      `drop` is the source's `j = 0`. */
  method TakeBit(s0: Deframer, bit: bool, out: array<bv8>, outLen0: nat, outMax: nat)
    returns (s: Deframer, outLen: nat, drop: bool)
    requires 1 <= s0.k <= 8 && outLen0 <= outMax <= out.Length && out[..outLen0] == s0.out
    requires !s0.flagFound
    modifies out
    ensures s == Step(s0, bit, outMax) && drop == Jumps(s0)
    ensures outLen <= outMax && out[..outLen] == s.out
    ensures s.flagFound ==> !s.error && drop
  {
    StepCases(s0, bit, outMax);
    hide PutBit, Step;
    s, outLen, drop := s0, outLen0, false;
    var bit1 := s.bit2;
    s := s.(bit2 := s.bit3);
    s := s.(bit3 := bit);
    if s.resync > 0 {
      s := s.(resync := s.resync - 1);
      s := s.(skip := true);
    }
    if !s.skip && !s.flagFound {
      if !bit1 {
        s, outLen := StoreBit(s, false, out, outLen, outMax);
        s := s.(ones := 0);
      } else {
        s := s.(ones := s.ones + 1);
        s, outLen := StoreBit(s, true, out, outLen, outMax);
        if s.ones == 5 {
          if s.bit2 {
            drop := true;
            if !s.bit3 {
              s := s.(flagFound := true);
              if !s.store { s := s.(store := true); }
              if outLen < 16 || s.k != 2 {
                outLen := 0;
                s := s.(out := [], k := 8, error := true, flagFound := false, resync := 2);
              } else {
                s := s.(error := s.k != 2);
              }
            } else {
              s := s.(error := true);
            }
          } else {
            s := s.(ones := 0);
            s := s.(skip := true);
          }
        }
      }
    } else {
      s := s.(skip := false);
    }
  }

  /** `Step`, one equation for each path through the loop body. */
  lemma StepCases(s: Deframer, bit: bool, outMax: nat)
    requires 1 <= s.k <= 8
    ensures var u, v := Shift(s, bit), PutBit(Shift(s, bit).(ones := s.ones + 1), true, outMax);
      && (u.skip || u.flagFound ==> Step(s, bit, outMax) == u.(skip := false))
      && (!u.skip && !u.flagFound && !s.bit2 ==> Step(s, bit, outMax) == PutBit(u, false, outMax).(ones := 0))
      && (!u.skip && !u.flagFound && s.bit2 ==>
          && (v.ones != 5 ==> Step(s, bit, outMax) == v)
          && (v.ones == 5 && !v.bit2 ==> Step(s, bit, outMax) == v.(ones := 0, skip := true))
          && (v.ones == 5 && v.bit2 && v.bit3 ==> Step(s, bit, outMax) == v.(error := true))
          && (v.ones == 5 && v.bit2 && !v.bit3 ==> Step(s, bit, outMax) == FlagSeen(v)))
  {
  }

  /** The storing of one data bit, common to both branches of the loop. */
  method StoreBit(s0: Deframer, v: bool, out: array<bv8>, outLen0: nat, outMax: nat)
    returns (s: Deframer, outLen: nat)
    requires 1 <= s0.k <= 8 && outLen0 <= outMax <= out.Length && out[..outLen0] == s0.out
    modifies out
    ensures s == PutBit(s0, v, outMax)
    ensures outLen <= outMax && out[..outLen] == s.out
  {
    hide WriteBit;
    s, outLen := s0, outLen0;
    if s.store { s := s.(byteOut := WriteBit(s.byteOut, s.k, v)); }
    var k := s.k - 1;
    if k == 0 {
      if s.store && outLen < outMax {
        out[outLen] := s.byteOut;
        outLen := outLen + 1;
        assert out[..outLen] == out[..outLen - 1] + [s.byteOut];
        s := s.(out := s.out + [s.byteOut]);
      }
      s := s.(k := 8, byteOut := 0);
    } else {
      s := s.(k := k);
    }
  }

  lemma Position(bits: seq<bool>, octets: seq<bv8>, i: nat, j: nat)
    requires IsStream(bits, octets) && i < |octets| && 1 <= j <= 8
    ensures var n := 8 * i + 8 - j; n < |bits| && n / 8 == i && bits[n] == ReadBit(octets[i], j)
  {
    var n := 8 * i + 8 - j;
    assert n / 8 == i && n % 8 == 8 - j;
    assert ToBits(octets)[n] == StreamBit(octets, n);
  }

  lemma NextPlace(n: nat, i: nat, s: Deframer)
    requires n / 8 == i
    ensures Next(n, s) == if Jumps(s) then 8 * (i + 1) else n + 1
  {
  }

  lemma RunEnds(bits: seq<bool>, n: nat, s: Deframer, outMax: nat)
    requires 1 <= s.k <= 8 && (n >= |bits| || s.flagFound)
    ensures Run(bits, n, s, outMax) == s
  {
  }

  lemma Unroll(bits: seq<bool>, n: nat, s: Deframer, outMax: nat)
    requires 1 <= s.k <= 8 && n < |bits| && !s.flagFound
    ensures Run(bits, n, s, outMax) == Run(bits, Next(n, s), Step(s, bits[n], outMax), outMax)
  {
  }
}
