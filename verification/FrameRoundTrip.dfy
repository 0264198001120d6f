/** What the deframer of `Hdlc` does with a transmitted frame.

    The transmitter side follows AX.25 version 2.2: flags are 01111110 (section 3.1), a 0 is
    inserted after every five contiguous 1 bits (section 3.6), octets go out least significant
    bit first (section 3.8). */
module FrameRoundTrip {
  import opened Bits
  import opened Hdlc

  const FLAG: seq<bool> := [false, true, true, true, true, true, true, false]

  /** A flag stands at place `p` of the stream. */
  predicate FlagAt(bits: seq<bool>, p: nat)
  {
    p + 8 <= |bits| && bits[p..p + 8] == FLAG
  }

  /** Bit stuffing, entered with `ones` contiguous 1 bits already sent. */
  function Stuff(d: seq<bool>, ones: nat): (wire: seq<bool>)
    ensures |d| <= |wire|
    decreases |d|
  {
    if d == [] then []
    else if !d[0] then [false] + Stuff(d[1..], 0)
    else if ones + 1 == 5 then [true, false] + Stuff(d[1..], 0)
    else [true] + Stuff(d[1..], ones + 1)
  }

  /** The count of contiguous 1 bits once `d` has gone out stuffed. */
  function Count(d: seq<bool>, ones: nat): nat
    decreases |d|
  {
    if d == [] then ones else Count(d[1..], if d[0] && ones + 1 != 5 then ones + 1 else 0)
  }

  function Flags(count: nat): (bits: seq<bool>)
    ensures |bits| == 8 * count
  {
    if count == 0 then [] else FLAG + Flags(count - 1)
  }

  /** Opening flags, stuffed payload, closing flag. */
  function Frame(flags: nat, d: seq<bool>): seq<bool>
  {
    Flags(flags) + Stuff(d, 0) + FLAG
  }

  // ------------------------------------------------------ one data bit at a time

  /** Between flags: not skipping, not resynchronising, storing. */
  predicate Ready(s: Deframer)
  {
    1 <= s.k <= 8 && !s.skip && s.resync == 0 && !s.flagFound && s.store
  }

  /** The two look-ahead bits are the two bits before place `n`. */
  predicate LooksAt(bits: seq<bool>, n: nat, s: Deframer)
  {
    2 <= n <= |bits| && s.bit2 == bits[n - 2] && s.bit3 == bits[n - 1]
  }

  /** The octets emitted and the octet in progress hold exactly the data bits `acc`. */
  ghost predicate Carries(s: Deframer, acc: seq<bool>)
  {
    && 1 <= s.k <= 8
    && |acc| == 8 * |s.out| + 8 - s.k
    && ToBits(s.out) == acc[..8 * |s.out|]
    && Written(s.byteOut, acc[8 * |s.out|..])
  }

  lemma PutCarries(s: Deframer, acc: seq<bool>, v: bool, outMax: nat)
    requires s.store && Carries(s, acc) && |acc| < 8 * outMax
    ensures Carries(PutBit(s, v, outMax), acc + [v])
  {
    hide ReadBit, WriteBit, Written, ToBits;
    var part := acc[8 * |s.out|..];
    WriteNext(s.byteOut, part, v);
    assert (acc + [v])[8 * |s.out|..] == part + [v];
    assert (acc + [v])[..8 * |s.out|] == acc[..8 * |s.out|];
    if s.k == 1 {
      OctetComplete(s, PutBit(s, v, outMax), WriteBit(s.byteOut, 1, v), acc + [v]);
    }
  }

  lemma OctetComplete(s: Deframer, t: Deframer, w: bv8, acc: seq<bool>)
    requires |acc| == 8 * |s.out| + 8 && ToBits(s.out) == acc[..8 * |s.out|]
    requires Written(w, acc[8 * |s.out|..])
    requires t.k == 8 && t.out == s.out + [w]
    ensures Carries(t, acc)
  {
    hide ReadBit, WriteBit, Written, ToBits;
    FullyWritten(w, acc[8 * |s.out|..]);
    AppendOctet(s.out, w);
    assert acc == acc[..8 * |s.out|] + acc[8 * |s.out|..];
    assert acc[..8 * |t.out|] == acc && acc[8 * |t.out|..] == [];
    NothingWritten(t.byteOut);
  }

  /** One ordinary data bit. */
  lemma DataBit(bits: seq<bool>, n: nat, s: Deframer, acc: seq<bool>, outMax: nat) returns (t: Deframer)
    requires Ready(s) && LooksAt(bits, n, s) && n < |bits| && Carries(s, acc) && |acc| < 8 * outMax
    requires !(s.bit2 && s.ones == 4)
    ensures Ready(t) && LooksAt(bits, n + 1, t) && Carries(t, acc + [s.bit2])
    ensures t.ones == if s.bit2 then s.ones + 1 else 0
    ensures t == Step(s, bits[n], outMax) && Next(n, s) == n + 1
    ensures Run(bits, n, s, outMax) == Run(bits, n + 1, t, outMax)
  {
    hide Carries, Run, PutBit;
    Unroll(bits, n, s, outMax);
    t := Step(s, bits[n], outMax);
    var u := Shift(s, bits[n]);
    SameCarries(s, u, acc);
    PutCarries(u, acc, s.bit2, outMax);
    SameCarries(PutBit(u, s.bit2, outMax), t, acc + [s.bit2]);
  }

  lemma SameCarries(s: Deframer, t: Deframer, acc: seq<bool>)
    requires Carries(s, acc) && s.k == t.k && s.byteOut == t.byteOut && s.out == t.out
    ensures Carries(t, acc)
  {
  }

  /** The fifth contiguous 1 bit, followed by its stuffed 0, which is dropped. */
  lemma FifthOne(bits: seq<bool>, n: nat, s: Deframer, acc: seq<bool>, outMax: nat) returns (t: Deframer)
    requires Ready(s) && LooksAt(bits, n, s) && n + 1 < |bits| && Carries(s, acc) && |acc| < 8 * outMax
    requires s.bit2 && s.ones == 4 && !s.bit3
    ensures Ready(t) && LooksAt(bits, n + 2, t) && Carries(t, acc + [true]) && t.ones == 0
    ensures var v := Step(s, bits[n], outMax);
            && !v.flagFound && t == Step(v, bits[n + 1], outMax) && Next(n, s) == n + 1 && Next(n + 1, v) == n + 2
    ensures Run(bits, n, s, outMax) == Run(bits, n + 2, t, outMax)
  {
    hide Carries, Run, PutBit;
    Unroll(bits, n, s, outMax);
    var u := Shift(s, bits[n]);
    SameCarries(s, u, acc);
    PutCarries(u, acc, true, outMax);
    var v := Step(s, bits[n], outMax);
    Unroll(bits, n + 1, v, outMax);
    t := Step(v, bits[n + 1], outMax);
    SameCarries(PutBit(u, true, outMax), t, acc + [true]);
  }

  lemma Drop(bits: seq<bool>, n: nat, j: nat, wire: seq<bool>, rest: seq<bool>)
    requires 2 <= n && n - 2 <= |bits| && bits[n - 2..] == wire + rest && j <= |wire|
    ensures n + j - 2 <= |bits| && bits[n + j - 2..] == wire[j..] + rest
  {
    assert bits[n + j - 2..] == bits[n - 2..][j..];
  }

  /** A stuffed stretch of data is received as that data. */
  lemma {:induction false} ReceiveBody(bits: seq<bool>, n: nat, s: Deframer, acc: seq<bool>,
                                       d: seq<bool>, rest: seq<bool>, outMax: nat)
    returns (t: Deframer)
    requires Ready(s) && LooksAt(bits, n, s) && Carries(s, acc) && |acc| + |d| <= 8 * outMax
    requires bits[n - 2..] == Stuff(d, s.ones) + rest && |rest| >= 3
    ensures Ready(t) && LooksAt(bits, n + |Stuff(d, s.ones)|, t) && Carries(t, acc + d) && t.ones == Count(d, s.ones)
    ensures Run(bits, n, s, outMax) == Run(bits, n + |Stuff(d, s.ones)|, t, outMax)
    decreases |d|
  {
    hide Carries, Run, Ready, LooksAt, Stuff;
    if d == [] {
      NothingToStuff(s.ones);
      assert acc + d == acc;
      t := s;
    } else {
      WireStep(bits, n, s, d, rest);
      if d[0] && s.ones == 4 {
        var u := FifthOne(bits, n, s, acc, outMax);
        t := ReceiveBody(bits, n + 2, u, acc + [true], d[1..], rest, outMax);
      } else {
        var u := DataBit(bits, n, s, acc, outMax);
        t := ReceiveBody(bits, n + 1, u, acc + [d[0]], d[1..], rest, outMax);
      }
      assert acc + [d[0]] + d[1..] == acc + d;
    }
  }

  lemma NothingToStuff(ones: nat)
    ensures Stuff([], ones) == []
  {
  }

  /** The next data bit of a stuffed stretch, and what the line carries after it. */
  lemma WireStep(bits: seq<bool>, n: nat, s: Deframer, d: seq<bool>, rest: seq<bool>)
    requires LooksAt(bits, n, s) && d != [] && |rest| >= 3
    requires bits[n - 2..] == Stuff(d, s.ones) + rest
    ensures s.bit2 == d[0] && n < |bits|
    ensures if d[0] && s.ones == 4 then
              && !s.bit3 && n + 1 < |bits| && bits[n..] == Stuff(d[1..], 0) + rest
              && |Stuff(d, s.ones)| == 2 + |Stuff(d[1..], 0)|
            else
              var c := if d[0] then s.ones + 1 else 0;
              && bits[n - 1..] == Stuff(d[1..], c) + rest
              && |Stuff(d, s.ones)| == 1 + |Stuff(d[1..], c)|
  {
    var wire := Stuff(d, s.ones);
    assert bits[n - 2..][0] == s.bit2 && bits[n - 2..][1] == s.bit3;
    if d[0] && s.ones == 4 {
      Drop(bits, n, 2, wire, rest);
      assert wire[2..] == Stuff(d[1..], 0);
    } else {
      Drop(bits, n, 1, wire, rest);
      assert wire == [d[0]] + Stuff(d[1..], if d[0] then s.ones + 1 else 0);
      assert wire[1..] == Stuff(d[1..], if d[0] then s.ones + 1 else 0);
    }
  }

  lemma Split(bits: seq<bool>, p: nat, w: seq<bool>, rest: seq<bool>)
    requires p <= |bits| && bits[p..] == w + rest
    ensures p + |w| <= |bits| && bits[p..p + |w|] == w && bits[p + |w|..] == rest
  {
    assert bits[p..p + |w|] == bits[p..][..|w|];
    assert bits[p + |w|..] == bits[p..][|w|..];
  }

  // ------------------------------------------------------ flags

  /** Six bits of a flag after the data `acc`: the deframer stands at the fifth 1, its
      look-ahead shows the sixth 1 and the closing 0. */
  lemma SixBits(bits: seq<bool>, n: nat, s: Deframer, outMax: nat) returns (t: Deframer)
    requires 1 <= s.k <= 8 && !s.skip && s.resync == 0 && !s.flagFound
    requires LooksAt(bits, n, s) && n + 6 <= |bits| && bits[n - 2..n + 6] == FLAG
    ensures 1 <= t.k <= 8 && !t.skip && t.resync == 0 && !t.flagFound && t.ones == 4
    ensures LooksAt(bits, n + 5, t) && t.bit2 && t.bit3 && !bits[n + 5]
    ensures t.k == if s.k > 5 then s.k - 5 else s.k + 3
    ensures s.k > 5 ==> t.out == s.out
    ensures Run(bits, n, s, outMax) == Run(bits, n + 5, t, outMax)
  {
    hide Run, PutBit;
    var f := bits[n - 2..n + 6];
    assert f[0] == bits[n - 2] && f[1] == bits[n - 1] && f[2] == bits[n] && f[3] == bits[n + 1];
    assert f[4] == bits[n + 2] && f[5] == bits[n + 3] && f[6] == bits[n + 4] && f[7] == bits[n + 5];
    assert bits[n - 2] == FLAG[0] && bits[n - 1] == FLAG[1] && bits[n] == FLAG[2] && bits[n + 1] == FLAG[3];
    assert bits[n + 2] == FLAG[4] && bits[n + 3] == FLAG[5] && bits[n + 4] == FLAG[6] && bits[n + 5] == FLAG[7];
    var s1 := OneStep(bits, n, s, outMax);
    var s2 := OneStep(bits, n + 1, s1, outMax);
    var s3 := OneStep(bits, n + 2, s2, outMax);
    var s4 := OneStep(bits, n + 3, s3, outMax);
    t := OneStep(bits, n + 4, s4, outMax);
  }

  /** One data bit, whether or not an opening flag has been seen. */
  lemma OneStep(bits: seq<bool>, n: nat, s: Deframer, outMax: nat) returns (t: Deframer)
    requires 1 <= s.k <= 8 && !s.skip && s.resync == 0 && !s.flagFound
    requires LooksAt(bits, n, s) && n < |bits| && !(s.bit2 && s.ones == 4)
    ensures 1 <= t.k <= 8 && !t.skip && t.resync == 0 && !t.flagFound
    ensures LooksAt(bits, n + 1, t) && t.bit2 == s.bit3 && t.bit3 == bits[n]
    ensures t.ones == if s.bit2 then s.ones + 1 else 0
    ensures t.k == if s.k == 1 then 8 else s.k - 1
    ensures s.k != 1 ==> t.out == s.out
    ensures Run(bits, n, s, outMax) == Run(bits, n + 1, t, outMax)
  {
    hide Run, PutBit;
    Unroll(bits, n, s, outMax);
    t := Step(s, bits[n], outMax);
  }

  /** A flag that closes at least sixteen whole octets is accepted, and ends the run. */
  lemma ClosingFlagAccepts(bits: seq<bool>, n: nat, s: Deframer, acc: seq<bool>, outMax: nat)
    requires Ready(s) && LooksAt(bits, n, s) && n + 6 <= |bits| && bits[n - 2..n + 6] == FLAG
    requires Carries(s, acc) && |acc| % 8 == 0 && |acc| >= 128
    ensures var r := Run(bits, n, s, outMax);
            r.flagFound && !r.error && r.k == 2 && IsStream(acc, r.out)
  {
    assert s.k == 8 && acc[..8 * |s.out|] == acc;
    assert IsStream(acc, s.out);
    hide Run, PutBit, Carries, ToBits, IsStream;
    var t := SixBits(bits, n, s, outMax);
    Unroll(bits, n + 5, t, outMax);
    var u := Step(t, bits[n + 5], outMax);
    RunEnds(bits, Next(n + 5, t), u, outMax);
  }

  /** After a flag that did not complete a frame: everything forgotten, the two look-ahead
      bits of the flag still to be thrown away, reading resumes at the next input octet. */
  predicate Restarted(s: Deframer)
  {
    s.k == 8 && !s.skip && s.resync == 2 && !s.flagFound && s.store && s.out == [] && s.ones == 5
  }

  /** Any other flag starts a new frame. */
  lemma OtherFlagRestarts(bits: seq<bool>, n: nat, s: Deframer, outMax: nat) returns (t: Deframer)
    requires 1 <= s.k <= 8 && !s.skip && s.resync == 0 && !s.flagFound
    requires LooksAt(bits, n, s) && n + 6 <= |bits| && bits[n - 2..n + 6] == FLAG
    requires s.k != 8 || |s.out| < 16
    ensures Restarted(t)
    ensures Run(bits, n, s, outMax) == Run(bits, 8 * ((n + 5) / 8 + 1), t, outMax)
  {
    hide Run, PutBit;
    var u := SixBits(bits, n, s, outMax);
    Unroll(bits, n + 5, u, outMax);
    t := Step(u, bits[n + 5], outMax);
  }

  /** The two look-ahead bits left over from the flag are thrown away. */
  lemma Resync(bits: seq<bool>, n: nat, s: Deframer, outMax: nat) returns (t: Deframer)
    requires Restarted(s) && n + 2 <= |bits|
    ensures Ready(t) && LooksAt(bits, n + 2, t) && t.k == 8 && t.out == [] && t.ones == 5 && Carries(t, [])
    ensures var u := Step(s, bits[n], outMax);
            && !u.flagFound && t == Step(u, bits[n + 1], outMax) && Next(n, s) == n + 1 && Next(n + 1, u) == n + 2
    ensures Run(bits, n, s, outMax) == Run(bits, n + 2, t, outMax)
  {
    hide Run, PutBit;
    Unroll(bits, n, s, outMax);
    var u := Step(s, bits[n], outMax);
    Unroll(bits, n + 1, u, outMax);
    t := Step(u, bits[n + 1], outMax);
    NothingWritten(t.byteOut);
  }

  lemma FlagsStep(flags: nat)
    ensures Flags(flags) == if flags == 0 then [] else FLAG + Flags(flags - 1)
  {
  }

  lemma FreshFrame(bits: seq<bool>, n: nat, s: Deframer)
    requires Ready(s) && LooksAt(bits, n, s)
    ensures 1 <= s.k <= 8 && !s.skip && s.resync == 0 && !s.flagFound && 2 <= n <= |bits|
  {
  }

  /** One more byte-aligned flag. */
  lemma OneMoreFlag(bits: seq<bool>, m: nat, s: Deframer, rest: seq<bool>, outMax: nat) returns (t: Deframer)
    requires Restarted(s) && 8 * m <= |bits| && bits[8 * m..] == FLAG + rest
    ensures Restarted(t) && 8 * (m + 1) <= |bits| && bits[8 * (m + 1)..] == rest
    ensures Run(bits, 8 * m, s, outMax) == Run(bits, 8 * (m + 1), t, outMax)
  {
    hide Run, Carries, Restarted, Ready, LooksAt;
    Split(bits, 8 * m, FLAG, rest);
    var u := Resync(bits, 8 * m, s, outMax);
    FreshFrame(bits, 8 * m + 2, u);
    t := OtherFlagRestarts(bits, 8 * m + 2, u, outMax);
    assert (8 * m + 7) / 8 == m;
  }

  /** Any number of byte-aligned flags leaves the deframer ready at the first bit after them. */
  lemma {:induction false} OpeningFlags(bits: seq<bool>, m: nat, s: Deframer, flags: nat, rest: seq<bool>, outMax: nat)
    returns (t: Deframer)
    requires Restarted(s) && 8 * m <= |bits| && bits[8 * m..] == Flags(flags) + rest && |rest| >= 2
    ensures Ready(t) && LooksAt(bits, 8 * (m + flags) + 2, t) && t.ones == 5 && Carries(t, [])
    ensures bits[8 * (m + flags)..] == rest
    ensures Run(bits, 8 * m, s, outMax) == Run(bits, 8 * (m + flags) + 2, t, outMax)
    decreases flags
  {
    hide Run, Carries, Flags, Ready, LooksAt, Restarted;
    FlagsStep(flags);
    if flags == 0 {
      assert [] + rest == rest;
      t := Resync(bits, 8 * m, s, outMax);
    } else {
      assert FLAG + Flags(flags - 1) + rest == FLAG + (Flags(flags - 1) + rest);
      var u := OneMoreFlag(bits, m, s, Flags(flags - 1) + rest, outMax);
      t := OpeningFlags(bits, m + 1, u, flags - 1, rest, outMax);
    }
  }

  /** From power-up: one or more flags at the very beginning of the stream. */
  lemma FirstFlags(bits: seq<bool>, flags: nat, rest: seq<bool>, outMax: nat) returns (t: Deframer)
    requires flags >= 1 && bits == Flags(flags) + rest && |rest| >= 2
    ensures Ready(t) && LooksAt(bits, 8 * flags + 2, t) && t.ones == 5 && Carries(t, [])
    ensures bits[8 * flags..] == rest
    ensures Deframe(bits, outMax) == Run(bits, 8 * flags + 2, t, outMax)
  {
    hide Run, Carries;
    assert bits[0..] == bits == FLAG + (Flags(flags - 1) + rest);
    Split(bits, 0, FLAG, Flags(flags - 1) + rest);
    var u := OtherFlagRestarts(bits, 2, Start(bits), outMax);
    t := OpeningFlags(bits, 1, u, flags - 1, rest, outMax);
  }

  lemma LooksInside(bits: seq<bool>, n: nat, s: Deframer)
    requires LooksAt(bits, n, s)
    ensures 2 <= n <= |bits|
  {
  }

  // ------------------------------------------------------ whole frames

  /** What the receiver makes of anything stuffed the way it expects, that is with five 1 bits
      already counted when the frame begins. */
  lemma ReceiveFrame(bits: seq<bool>, flags: nat, d: seq<bool>, tail: seq<bool>, outMax: nat) returns (t: Deframer)
    requires flags >= 1 && bits == Flags(flags) + (Stuff(d, 5) + (FLAG + tail)) && |d| <= 8 * outMax
    ensures Ready(t) && Carries(t, d)
    ensures var n := 8 * flags + |Stuff(d, 5)| + 2;
            LooksAt(bits, n, t) && n + 6 <= |bits| && bits[n - 2..n + 6] == FLAG
            && bits[n + 6..] == tail && Deframe(bits, outMax) == Run(bits, n, t, outMax)
  {
    hide Run, Carries, LooksAt, Deframe, Stuff, Flags;
    var wire := Stuff(d, 5);
    var u := FirstFlags(bits, flags, wire + (FLAG + tail), outMax);
    t := ReceiveAfterFlags(bits, 8 * flags + 2, u, d, tail, outMax);
  }

  /** The same from the first bit after any flag on. */
  lemma ReceiveAfterFlags(bits: seq<bool>, n: nat, s: Deframer, d: seq<bool>, tail: seq<bool>, outMax: nat)
    returns (t: Deframer)
    requires Ready(s) && LooksAt(bits, n, s) && s.ones == 5 && Carries(s, []) && |d| <= 8 * outMax
    requires bits[n - 2..] == Stuff(d, 5) + (FLAG + tail)
    ensures Ready(t) && Carries(t, d)
    ensures var m := n + |Stuff(d, 5)|;
            LooksAt(bits, m, t) && m + 6 <= |bits| && bits[m - 2..m + 6] == FLAG
            && bits[m + 6..] == tail && Run(bits, n, s, outMax) == Run(bits, m, t, outMax)
  {
    hide Run, Carries, LooksAt, Stuff;
    var rest, wire := FLAG + tail, Stuff(d, 5);
    LooksInside(bits, n, s);
    t := ReceiveBody(bits, n, s, [], d, rest, outMax);
    assert [] + d == d;
    Split(bits, n - 2, wire, rest);
    Split(bits, n - 2 + |wire|, FLAG, tail);
  }

  /** The first five transmitted bits are all 1. */
  predicate StartsWithFiveOnes(d: seq<bool>)
  {
    |d| >= 5 && d[0] && d[1] && d[2] && d[3] && d[4]
  }

  /** Standard stuffing starts its count at 0, the receiver at 5: the two agree as soon as a
      0 comes before the transmitter's count reaches five. */
  lemma {:induction false} CountsAgree(d: seq<bool>, c: nat, z: nat)
    requires c < 5 && z < |d| && c + z < 5 && !d[z]
    ensures Stuff(d, c) == Stuff(d, 5 + c)
    decreases |d|
  {
    if d[0] {
      CountsAgree(d[1..], c + 1, z - 1);
    }
  }

  /** Otherwise the receiver takes the first stuffed 0 for data. */
  lemma FirstStuffedZeroIsKept(d: seq<bool>)
    requires StartsWithFiveOnes(d)
    ensures Stuff(d, 0) == Stuff(d[..5] + [false] + d[5..], 5)
  {

    var rest := d[5..];
    var e := [false] + rest;
    assert d == [true] + ([true] + ([true] + ([true] + ([true] + rest))));
    assert d[..5] + [false] + rest == [true] + ([true] + ([true] + ([true] + ([true] + e))));
    OneMore([true] + ([true] + ([true] + ([true] + rest))), 0);
    OneMore([true] + ([true] + ([true] + rest)), 1);
    OneMore([true] + ([true] + rest), 2);
    OneMore([true] + rest, 3);
    OneMore(rest, 4);
    OneMore([true] + ([true] + ([true] + ([true] + e))), 5);
    OneMore([true] + ([true] + ([true] + e)), 6);
    OneMore([true] + ([true] + e), 7);
    OneMore([true] + e, 8);
    OneMore(e, 9);
    assert e[1..] == rest;
  }

  lemma OneMore(d: seq<bool>, c: nat)
    ensures Stuff([true] + d, c) == if c == 4 then [true] + ([false] + Stuff(d, 0)) else [true] + Stuff(d, c + 1)
  {
    assert ([true] + d)[1..] == d;
  }

  lemma FirstZero(d: seq<bool>) returns (z: nat)
    requires |d| >= 5 && !StartsWithFiveOnes(d)
    ensures z < 5 && !d[z]
  {
    z := if !d[0] then 0 else if !d[1] then 1 else if !d[2] then 2 else if !d[3] then 3 else 4;
  }

  lemma FrameShape(flags: nat, d: seq<bool>, tail: seq<bool>)
    ensures Frame(flags, d) + tail == Flags(flags) + (Stuff(d, 0) + (FLAG + tail))
  {
  }

  /** Every frame of at least sixteen whole octets whose first five bits are not all 1 is
      received, whatever follows its closing flag. */
  lemma FrameIsReceived(flags: nat, d: seq<bool>, tail: seq<bool>, outMax: nat)
    requires flags >= 1 && |d| % 8 == 0 && 128 <= |d| <= 8 * outMax && !StartsWithFiveOnes(d)
    ensures var r := Deframe(Frame(flags, d) + tail, outMax);
            r.flagFound && !r.error && IsStream(d, r.out)
  {
    var z := FirstZero(d);
    CountsAgree(d, 0, z);
    FrameShape(flags, d, tail);
    FrameIsAccepted(Frame(flags, d) + tail, flags, d, tail, outMax);
  }

  lemma FrameIsAccepted(bits: seq<bool>, flags: nat, d: seq<bool>, tail: seq<bool>, outMax: nat)
    requires flags >= 1 && bits == Flags(flags) + (Stuff(d, 5) + (FLAG + tail))
    requires |d| % 8 == 0 && 128 <= |d| <= 8 * outMax
    ensures |bits| >= 2
    ensures var r := Deframe(bits, outMax); r.flagFound && !r.error && IsStream(d, r.out)
  {
    hide Stuff, Flags, Deframe, IsStream, Run, Carries, Ready, LooksAt;
    var t := ReceiveFrame(bits, flags, d, tail, outMax);
    ClosingFlagAccepts(bits, 8 * flags + |Stuff(d, 5)| + 2, t, d, outMax);
  }

  /** A stream that carries nothing but 0 from `n` on can no longer be accepted. */
  lemma {:induction false} ZerosAreNoFrame(bits: seq<bool>, n: nat, s: Deframer, outMax: nat)
    requires 1 <= s.k <= 8 && !s.skip && s.resync == 0 && !s.flagFound && LooksAt(bits, n, s)
    requires forall i :: n - 2 <= i < |bits| ==> !bits[i]
    ensures !Run(bits, n, s, outMax).flagFound
    decreases |bits| - n
  {
    if n < |bits| {
      var t := OneStep(bits, n, s, outMax);
      ZerosAreNoFrame(bits, n + 1, t, outMax);
    }
  }

  /** After a restart only 0 bits remain. */
  lemma ZerosAfterRestart(bits: seq<bool>, n: nat, s: Deframer, outMax: nat)
    requires Restarted(s) && forall i :: n <= i < |bits| ==> !bits[i]
    ensures !Run(bits, n, s, outMax).flagFound
  {
    if n + 2 <= |bits| {
      var t := Resync(bits, n, s, outMax);
      ZerosAreNoFrame(bits, n + 2, t, outMax);
    } else if n + 1 == |bits| {
      Unroll(bits, n, s, outMax);
    }
  }

  /** A frame whose first five bits are all 1 is lost: the receiver keeps the first stuffed 0,
      is one bit out of step at the closing flag and starts again. */
  lemma FiveOnesAreLost(flags: nat, d: seq<bool>, tail: seq<bool>, outMax: nat)
    requires flags >= 1 && |d| % 8 == 0 && |d| < 8 * outMax && StartsWithFiveOnes(d)
    requires forall i :: 0 <= i < |tail| ==> !tail[i]
    ensures !Deframe(Frame(flags, d) + tail, outMax).flagFound
  {
    FirstStuffedZeroIsKept(d);
    FrameShape(flags, d, tail);
    hide Stuff, Flags, Frame, Deframe, ToBits, Run;
    var e := d[..5] + [false] + d[5..];
    var bits := Frame(flags, d) + tail;
    var t := ReceiveFrame(bits, flags, e, tail, outMax);
    assert t.k != 8 by { CarriesPhase(t, e); }
    var n := 8 * flags + |Stuff(e, 5)| + 2;
    var u := OtherFlagRestarts(bits, n, t, outMax);
    forall i | n + 6 <= i < |bits|
      ensures !bits[i]
    {
      assert bits[i] == bits[n + 6..][i - (n + 6)];
    }
    ZerosAfterRestart(bits, 8 * ((n + 5) / 8 + 1), u, outMax);
  }

  lemma CarriesPhase(s: Deframer, acc: seq<bool>)
    requires Carries(s, acc)
    ensures (|acc| % 8 == 0) == (s.k == 8)
  {
  }

  // ------------------------------------------------------ only real flags close a frame

  /** Where the look-ahead bits come from.  After a jump they are left over from the octet that
      was dropped: discarded by the resync count after a flag, two more 1 bits after an abort. */
  predicate LookAhead(bits: seq<bool>, n: nat, s: Deframer)
  {
    || LooksAt(bits, n, s)
    || (s.ones >= 5 && 1 <= n <= |bits| && s.bit3 == bits[n - 1] && if s.resync > 0 then s.resync == 1 else s.bit2)
    || (s.ones >= 5 && if s.resync > 0 then s.resync == 2 else s.bit2 && s.bit3)
  }

  /** Between flags, a count of up to four 1 bits is a count of line bits that follow a 0. */
  predicate Counted(bits: seq<bool>, n: nat, s: Deframer)
  {
    && 1 <= s.k <= 8 && !s.flagFound
    && LookAhead(bits, n, s)
    && (s.resync > 0 ==> s.ones >= 5 && !s.skip)
    && (s.skip ==> s.ones == 0 && LooksAt(bits, n, s) && !s.bit2)
    && (!s.store ==> s.out == [])
    && (s.store && s.ones <= 4 && !s.skip ==>
        && LooksAt(bits, n, s) && n >= s.ones + 3
        && !bits[n - 3 - s.ones]
        && forall i :: n - 2 - s.ones <= i < n - 2 ==> bits[i])
  }

  lemma CountedIsKept(bits: seq<bool>, n: nat, s: Deframer, outMax: nat)
    requires Counted(bits, n, s) && n < |bits|
    requires !Step(s, bits[n], outMax).flagFound
    ensures Counted(bits, Next(n, s), Step(s, bits[n], outMax))
  {
    hide PutBit;
  }

  lemma CountedReachesFlag(bits: seq<bool>, n: nat, s: Deframer, outMax: nat)
    requires Counted(bits, n, s) && n < |bits|
    requires Step(s, bits[n], outMax).flagFound
    ensures var t := Step(s, bits[n], outMax);
            |t.out| >= 16 && t.k == 2 && 7 <= n && n + 1 <= |bits| && bits[n - 7..n + 1] == FLAG
  {
    hide PutBit;
  }

  /** The flag at `p` ends the run: with the bits up to its last one the run succeeds already, and with one
      bit less it does not. */
  lemma {:induction false} RunStopsAtFlag(bits: seq<bool>, n: nat, s: Deframer, outMax: nat) returns (p: nat)
    requires 1 <= s.k <= 8 && Counted(bits, n, s) && Run(bits, n, s, outMax).flagFound
    ensures var r := Run(bits, n, s, outMax); |r.out| >= 16 && r.k == 2
    ensures FlagAt(bits, p) && n <= p + 7
    ensures Run(bits[..p + 8], n, s, outMax) == Run(bits, n, s, outMax)
    ensures !Run(bits[..p + 7], n, s, outMax).flagFound
    decreases if n < |bits| then |bits| - n else 0
  {
    hide Step, Next, Jumps, LookAhead, LooksAt, Run, Counted;
    CountedIsOpen(bits, n, s);
    if n >= |bits| {
      RunEnds(bits, n, s, outMax);
      assert false;
    }
    var t := Step(s, bits[n], outMax);
    Unroll(bits, n, s, outMax);
    if t.flagFound {
      CountedReachesFlag(bits, n, s, outMax);
      p := n - 7;
      RunEnds(bits, Next(n, s), t, outMax);
      Unroll(bits[..n + 1], n, s, outMax);
      RunEnds(bits[..n + 1], Next(n, s), t, outMax);
      RunEnds(bits[..n], n, s, outMax);
    } else {
      CountedIsKept(bits, n, s, outMax);
      p := RunStopsAtFlag(bits, Next(n, s), t, outMax);
      Unroll(bits[..p + 8], n, s, outMax);
      Unroll(bits[..p + 7], n, s, outMax);
    }
  }

  lemma CountedIsOpen(bits: seq<bool>, n: nat, s: Deframer)
    requires Counted(bits, n, s)
    ensures !s.flagFound
  {
  }

  /** The flag at `p` is the closing flag: the deframer succeeds on the stream up to its last bit, with the
      result it has on the whole stream, and does not succeed on one bit less. */
  ghost predicate ClosedAt(bits: seq<bool>, p: nat, outMax: nat)
    requires |bits| >= 2
  {
    && FlagAt(bits, p)
    && Deframe(bits[..p + 8], outMax) == Deframe(bits, outMax)
    && !Deframe(bits[..p + 7], outMax).flagFound
  }

  /** For every input: success means that a true 01111110 on the line ends the frame, with at least sixteen
      octets before it and the count of bits at an octet boundary. */
  lemma AcceptedOnlyAtFlag(bits: seq<bool>, outMax: nat) returns (p: nat)
    requires |bits| >= 2 && Deframe(bits, outMax).flagFound
    ensures var r := Deframe(bits, outMax); |r.out| >= 16 && r.k == 2
    ensures ClosedAt(bits, p, outMax)
  {
    hide Run;
    p := RunStopsAtFlag(bits, 2, Start(bits), outMax);
    assert Start(bits[..p + 8]) == Start(bits) == Start(bits[..p + 7]);
  }

  /** There is only one closing flag. */
  lemma ClosedOnce(bits: seq<bool>, p: nat, q: nat, outMax: nat)
    requires |bits| >= 2 && Deframe(bits, outMax).flagFound
    requires ClosedAt(bits, p, outMax) && ClosedAt(bits, q, outMax)
    ensures p == q
  {
    hide Run, Deframe;
    if p < q {
      FoundStaysFound(bits, p + 8, q + 7, outMax);
    } else if q < p {
      FoundStaysFound(bits, q + 8, p + 7, outMax);
    }
  }

  /** More bits after a closing flag change nothing. */
  lemma FoundStaysFound(bits: seq<bool>, m: nat, n: nat, outMax: nat)
    requires 2 <= m <= n <= |bits| && Deframe(bits[..m], outMax).flagFound
    ensures Deframe(bits[..n], outMax).flagFound
  {
    RunStaysFound(bits[..m], bits[..n], 2, Start(bits[..m]), outMax);
  }

  lemma {:induction false} RunStaysFound(a: seq<bool>, b: seq<bool>, n: nat, s: Deframer, outMax: nat)
    requires a <= b && 1 <= s.k <= 8 && Run(a, n, s, outMax).flagFound
    ensures Run(b, n, s, outMax) == Run(a, n, s, outMax)
    decreases if n < |a| then |a| - n else 0
  {
    hide Step, Next, Run;
    if s.flagFound {
      RunEnds(a, n, s, outMax);
      RunEnds(b, n, s, outMax);
    } else if n >= |a| {
      RunEnds(a, n, s, outMax);
    } else {
      Unroll(a, n, s, outMax);
      Unroll(b, n, s, outMax);
      RunStaysFound(a, b, Next(n, s), Step(s, a[n], outMax), outMax);
    }
  }
}
