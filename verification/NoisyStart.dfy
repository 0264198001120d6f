/** Reception from any start: whatever the first octets of a stream are, one flag at an octet boundary
    puts the deframer in step.  So neither the line level nor the scrambler of the transmitter has to be
    known, if there are flags enough. */
module NoisyStart {
  import opened Bits
  import opened LineCoding
  import opened Hdlc
  import opened FrameRoundTrip

  /** A state from which reading goes on. */
  predicate Open(s: Deframer)
  {
    1 <= s.k <= 8 && !s.flagFound && s.resync <= 2
  }

  lemma StaysOpen(s: Deframer, bit: bool, outMax: nat)
    requires Open(s)
    ensures Step(s, bit, outMax).flagFound || Open(Step(s, bit, outMax))
  {
    hide PutBit;
  }

  /** Every run that is not over by then comes by every octet boundary. */
  lemma {:induction false} RunPasses(bits: seq<bool>, n: nat, s: Deframer, m: nat, outMax: nat)
    requires Open(s) && n <= 8 * m <= |bits|
    ensures var t := Run(bits[..8 * m], n, s, outMax);
            if t.flagFound then Run(bits, n, s, outMax) == t
            else Open(t) && Run(bits, n, s, outMax) == Run(bits, 8 * m, t, outMax)
    decreases 8 * m - n
  {
    hide Run, Step, Jumps;
    var c := bits[..8 * m];
    if n == 8 * m {
      RunEnds(c, n, s, outMax);
    } else {
      Unroll(bits, n, s, outMax);
      Unroll(c, n, s, outMax);
      StaysOpen(s, bits[n], outMax);
      var u := Step(s, bits[n], outMax);
      if u.flagFound {
        RunEnds(bits, Next(n, s), u, outMax);
        RunEnds(c, Next(n, s), u, outMax);
      } else {
        BoundaryIsNear(n, m);
        RunPasses(bits, Next(n, s), u, m, outMax);
      }
    }
  }

  lemma BoundaryIsNear(n: nat, m: nat)
    requires n < 8 * m
    ensures 8 * (n / 8 + 1) <= 8 * m
  {
  }

  // ------------------------------------------------------ one flag is enough

  /** After two bits of a flag: what stood in the look-ahead is worked off, its count of 1 bits is worth
      nothing, and a 0 that is still to be skipped is the flag's own first bit. */
  predicate AtFlag(s: Deframer)
  {
    Open(s) && s.resync == 0 && !s.bit2 && s.bit3 && (s.skip ==> s.ones == 0)
  }

  /** The two bits before the flag may complete six 1 bits with the flag's first 0; then the receiver sees a
      flag there, and drops this octet. */
  lemma TwoBits(s: Deframer, outMax: nat)
    requires Open(s)
    ensures var t := Step(s, false, outMax);
            if Jumps(s) then t.flagFound || Restarted(t)
            else Open(t) && !Jumps(t) && AtFlag(Step(t, true, outMax))
  {
    hide PutBit, Step, Jumps;
    FirstBit(s, outMax);
    if !Jumps(s) {
      SecondBit(Step(s, false, outMax), outMax);
    }
  }

  lemma FirstBit(s: Deframer, outMax: nat)
    requires Open(s)
    ensures var t := Step(s, false, outMax);
            if Jumps(s) then t.flagFound || Restarted(t) else Open(t) && t.resync <= 1 && !t.bit3
  {
    StepCases(s, false, outMax);
    hide PutBit, Step;
  }

  lemma SecondBit(s: Deframer, outMax: nat)
    requires Open(s) && s.resync <= 1 && !s.bit3
    ensures !Jumps(s) && AtFlag(Step(s, true, outMax))
  {
    StepCases(s, true, outMax);
    hide PutBit, Step;
  }

  /** The flag's first 0. */
  lemma ThirdBit(s: Deframer, outMax: nat)
    requires AtFlag(s)
    ensures !Jumps(s) && InOnes(Step(s, true, outMax), 0)
  {
    StepCases(s, true, outMax);
    hide PutBit, Step;
  }

  /** Inside the flag's 1 bits, `ones` of them counted. */
  predicate InOnes(s: Deframer, ones: nat)
  {
    Open(s) && !s.skip && s.resync == 0 && s.ones == ones && s.bit2 && s.bit3
  }

  /** One of its first four 1 bits. */
  lemma OneOfFour(s: Deframer, ones: nat, outMax: nat)
    requires InOnes(s, ones) && ones < 4
    ensures !Jumps(s) && InOnes(Step(s, true, outMax), ones + 1)
  {
    StepCases(s, true, outMax);
    hide PutBit, Step;
  }

  lemma FifthOfFlag(s: Deframer, outMax: nat)
    requires InOnes(s, 4)
    ensures Jumps(s) && (Step(s, false, outMax).flagFound || Restarted(Step(s, false, outMax)))
  {
    StepCases(s, false, outMax);
    hide PutBit, Step;
  }

  /** From every state, a flag at an octet boundary ends a frame with success or starts a new one at the next
      octet. */
  lemma AnyFlagEndsOrRestarts(bits: seq<bool>, m: nat, s: Deframer, outMax: nat)
    requires Open(s) && |bits| == 8 * m + 8 && bits[8 * m..] == FLAG
    ensures var t := Run(bits, 8 * m, s, outMax); t.flagFound || Restarted(t)
  {
    hide Run, Step, Jumps, Open, AtFlag, InOnes, Restarted;
    var n := 8 * m;
    FlagBits(bits, n);
    OpenMeans(s);
    Unroll(bits, n, s, outMax);
    TwoBits(s, outMax);
    var s1 := Step(s, false, outMax);
    assert n / 8 == m;
    if Jumps(s) {
      RunEnds(bits, n + 8, s1, outMax);
    } else {
      OpenMeans(s1);
      Unroll(bits, n + 1, s1, outMax);
      RestOfFlag(bits, m, Step(s1, true, outMax), outMax);
    }
  }

  lemma FlagBits(bits: seq<bool>, n: nat)
    requires |bits| == n + 8 && bits[n..] == FLAG
    ensures !bits[n] && bits[n + 1] && bits[n + 2] && bits[n + 3] && bits[n + 4] && bits[n + 5] && bits[n + 6]
    ensures !bits[n + 7]
  {
    var f := bits[n..];
    assert f[0] == bits[n] && f[1] == bits[n + 1] && f[2] == bits[n + 2] && f[3] == bits[n + 3];
    assert f[4] == bits[n + 4] && f[5] == bits[n + 5] && f[6] == bits[n + 6] && f[7] == bits[n + 7];
    assert FLAG[0] == FLAG[7] == false && FLAG[1] == FLAG[2] == FLAG[3] == FLAG[4] == FLAG[5] == FLAG[6] == true;
  }

  lemma OpenMeans(s: Deframer)
    requires Open(s)
    ensures 1 <= s.k <= 8 && !s.flagFound
  {
  }

  lemma OneGoesOn(bits: seq<bool>, n: nat, s: Deframer, ones: nat, outMax: nat) returns (t: Deframer)
    requires InOnes(s, ones) && ones < 4 && n < |bits| && bits[n]
    ensures InOnes(t, ones + 1) && t.k <= 8 && 1 <= t.k && !t.flagFound
    ensures 1 <= s.k <= 8 && Run(bits, n, s, outMax) == Run(bits, n + 1, t, outMax)
  {
    hide Run, Step, Jumps;
    Unroll(bits, n, s, outMax);
    OneOfFour(s, ones, outMax);
    t := Step(s, true, outMax);
  }

  lemma RestOfFlag(bits: seq<bool>, m: nat, s: Deframer, outMax: nat)
    requires AtFlag(s) && |bits| == 8 * m + 8 && bits[8 * m + 2] && bits[8 * m + 3] && bits[8 * m + 4]
    requires bits[8 * m + 5] && bits[8 * m + 6] && !bits[8 * m + 7]
    ensures 1 <= s.k <= 8
    ensures var t := Run(bits, 8 * m + 2, s, outMax); t.flagFound || Restarted(t)
  {
    hide Run, Step, Jumps, Open, InOnes, Restarted;
    var n := 8 * m + 2;
    OpenMeans(s);
    Unroll(bits, n, s, outMax);
    ThirdBit(s, outMax);
    var s0 := Step(s, true, outMax);
    var s1 := OneGoesOn(bits, n + 1, s0, 0, outMax);
    var s2 := OneGoesOn(bits, n + 2, s1, 1, outMax);
    var s3 := OneGoesOn(bits, n + 3, s2, 2, outMax);
    var s4 := OneGoesOn(bits, n + 4, s3, 3, outMax);
    FifthOfFlag(s4, outMax);
    Unroll(bits, n + 5, s4, outMax);
    assert (n + 5) / 8 == m;
    RunEnds(bits, 8 * m + 8, Step(s4, false, outMax), outMax);
  }

  // ------------------------------------------------------ frames behind noise

  lemma StartIsOpen(bits: seq<bool>, outMax: nat)
    requires |bits| >= 2
    ensures Open(Start(bits)) && Deframe(bits, outMax) == Run(bits, 2, Start(bits), outMax)
  {
  }

  /** Behind any octets whatever and a flag. */
  lemma BehindFlag(noise: seq<bool>, outMax: nat)
    requires |noise| % 8 == 0
    ensures var t := Deframe(noise + FLAG, outMax); t.flagFound || Restarted(t)
  {
    hide Run, Step, Jumps, Restarted, Start, Deframe;
    var c, m := noise + FLAG, |noise| / 8;
    StartIsOpen(c, outMax);
    if m == 0 {
      OneFlagAlone(outMax);
      assert c == FLAG;
    } else {
      RunPasses(c, 2, Start(c), m, outMax);
      var t := Run(c[..8 * m], 2, Start(c), outMax);
      if !t.flagFound {
        assert c[8 * m..] == FLAG;
        AnyFlagEndsOrRestarts(c, m, t, outMax);
      }
    }
  }

  lemma OneFlagAlone(outMax: nat)
    ensures Restarted(Deframe(FLAG, outMax))
  {
    hide Run;
    assert FLAG[0..8] == FLAG;
    var t := OtherFlagRestarts(FLAG, 2, Start(FLAG), outMax);
    RunEnds(FLAG, 8, t, outMax);
  }

  /** A frame is received behind any whole octets of anything, if one flag at least stands between and the
      receiver has not accepted something before the end of that flag; in that case, that is what it
      returns. */
  lemma FrameAfterNoise(noise: seq<bool>, flags: nat, d: seq<bool>, tail: seq<bool>, outMax: nat)
    requires |noise| % 8 == 0 && flags >= 1
    requires |d| % 8 == 0 && 128 <= |d| <= 8 * outMax && !StartsWithFiveOnes(d)
    ensures var bits := noise + (Flags(flags) + (Stuff(d, 0) + (FLAG + tail)));
            var before := Deframe(noise + FLAG, outMax);
            && |bits| >= 2
            && var r := Deframe(bits, outMax);
            if before.flagFound then r == before else r.flagFound && !r.error && IsStream(d, r.out)
  {
    hide Stuff, Flags, Deframe, Run, Carries, Ready, LooksAt, IsStream, StartsWithFiveOnes, Restarted, Start, Open;
    var z := FirstZero(d);
    CountsAgree(d, 0, z);
    var m, rest := |noise| / 8, Stuff(d, 5) + (FLAG + tail);
    var bits := noise + (Flags(flags) + rest);
    var c := noise + FLAG;
    NoiseThenFlag(noise, flags, rest);
    StartIsOpen(bits, outMax);
    StartIsOpen(c, outMax);
    StartIsPrefix(c, bits);
    RunPasses(bits, 2, Start(bits), m + 1, outMax);
    BehindFlag(noise, outMax);
    var s := Deframe(c, outMax);
    if !s.flagFound {
      var t := OpeningFlags(bits, m + 1, s, flags - 1, rest, outMax);
      var n := 8 * (m + flags) + 2;
      var v := ReceiveAfterFlags(bits, n, t, d, tail, outMax);
      ClosingFlagAccepts(bits, n + |Stuff(d, 5)|, v, d, outMax);
    }
  }

  lemma NoiseThenFlag(noise: seq<bool>, flags: nat, rest: seq<bool>)
    requires |noise| % 8 == 0 && flags >= 1
    ensures var bits, c := noise + (Flags(flags) + rest), noise + FLAG;
            |bits| >= |c| && bits[..|c|] == c && bits[|c|..] == Flags(flags - 1) + rest
  {
    FlagsStep(flags);
    hide Flags;
    assert noise + (Flags(flags) + rest) == (noise + FLAG) + (Flags(flags - 1) + rest);
  }

  lemma StartIsPrefix(c: seq<bool>, bits: seq<bool>)
    requires 2 <= |c| <= |bits| && bits[..|c|] == c
    ensures Start(c) == Start(bits)
  {
    assert c[0] == bits[0] && c[1] == bits[1];
  }

  /** How many bits the deframer can have stored. */
  function Weight(s: Deframer): int
  {
    8 * |s.out| + 8 - s.k
  }

  lemma PutWeighs(s: Deframer, v: bool, outMax: nat)
    requires 1 <= s.k <= 8
    ensures Weight(PutBit(s, v, outMax)) <= Weight(s) + 1
  {
    hide WriteBit;
  }

  /** A step stores at most one bit, and fewer than sixteen octets are never a frame. */
  lemma StaysLight(s: Deframer, bit: bool, outMax: nat)
    requires 1 <= s.k <= 8 && !s.flagFound && Weight(s) < 127
    ensures !Step(s, bit, outMax).flagFound && Weight(Step(s, bit, outMax)) <= Weight(s) + 1
  {
    PutWeighs(Shift(s, bit), false, outMax);
    PutWeighs(Shift(s, bit).(ones := s.ones + 1), true, outMax);
    StepCases(s, bit, outMax);
    hide PutBit, Step;
  }

  lemma {:induction false} ShortRunFindsNothing(bits: seq<bool>, n: nat, s: Deframer, outMax: nat)
    requires 1 <= s.k <= 8 && !s.flagFound && Weight(s) <= n && |bits| <= 127
    ensures !Run(bits, n, s, outMax).flagFound
    decreases if n < |bits| then |bits| - n else 0
  {
    hide Run, Step, Weight, Jumps;
    if n < |bits| {
      Unroll(bits, n, s, outMax);
      StaysLight(s, bits[n], outMax);
      ShortRunFindsNothing(bits, Next(n, s), Step(s, bits[n], outMax), outMax);
    } else {
      RunEnds(bits, n, s, outMax);
    }
  }

  /** Up to fourteen octets of noise are too few for that. */
  lemma ShortNoiseIsNoFrame(noise: seq<bool>, outMax: nat)
    requires |noise| <= 112
    ensures !Deframe(noise + FLAG, outMax).flagFound
  {
    hide Run;
    ShortRunFindsNothing(noise + FLAG, 2, Start(noise + FLAG), outMax);
  }

  // ------------------------------------------------------ line codes from any start

  /** Another line level before the first bit changes no bit but that. */
  lemma LevelMattersOnce(a: bool, b: bool, x: seq<bool>, y: seq<bool>, from: nat)
    requires |x| == |y| && from >= 1 && forall i :: from - 1 <= i < |x| ==> x[i] == y[i]
    ensures forall i :: from <= i < |x| ==> NrzsDecode(a, x)[i] == NrzsDecode(b, y)[i]
  {
  }

  /** Another register at the descrambler changes no bit of the decoded stream from the nineteenth on. */
  lemma RegisterMattersBriefly(a: bool, b: bool, reg1: seq<bool>, reg2: seq<bool>, line: seq<bool>)
    requires |reg1| == 17 && |reg2| == 17
    ensures var x, y := Descramble(reg1, line), Descramble(reg2, line);
            forall i :: 18 <= i < |line| ==> NrzsDecode(a, x)[i] == NrzsDecode(b, y)[i]
  {
    hide Descramble, NrzsDecode;
    DescramblerSynchronises(reg1, reg2, line);
    LevelMattersOnce(a, b, Descramble(reg1, line), Descramble(reg2, line), 18);
  }
}
