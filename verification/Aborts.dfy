/** What the deframer makes of a frame abort, seven or more contiguous 1 bits inside a frame (section 3.10 of
    AX.25 version 2.2), after which a receiver is to ignore the frame. */
module Aborts {
  import opened Bits
  import opened Hdlc
  import opened FrameRoundTrip
  import opened FrameConverse
  import opened SentAndReturned

  /** A run depends only on what is still to be read. */
  lemma {:induction false} OnlyTheRestMatters(a: seq<bool>, b: seq<bool>, n: nat, s: Deframer, outMax: nat)
    requires 1 <= s.k <= 8 && |a| == |b| && n <= |a| && a[n..] == b[n..]
    ensures Run(a, n, s, outMax) == Run(b, n, s, outMax)
    decreases |a| - n
  {
    hide Step, Jumps;
    if n < |a| && !s.flagFound {
      assert a[n] == a[n..][0] == b[n..][0] == b[n];
      var m := Next(n, s);
      if m <= |a| {
        assert a[m..] == a[n..][m - n..] && b[m..] == b[n..][m - n..];
        OnlyTheRestMatters(a, b, m, Step(s, a[n], outMax), outMax);
      }
    }
  }

  /** The fifth of seven 1 bits, in place `n - 2`: it is stored, and reading goes on with the next octet, the
      sixth and the seventh still to come. */
  lemma FifthOfSeven(bits: seq<bool>, n: nat, s: Deframer, acc: seq<bool>, outMax: nat) returns (t: Deframer)
    requires Ready(s) && LooksAt(bits, n, s) && n < |bits| && Carries(s, acc) && |acc| < 8 * outMax
    requires s.bit2 && s.ones == 4 && s.bit3 && bits[n]
    ensures Ready(t) && t.bit2 && t.bit3 && Carries(t, acc + [true]) && t.ones == 5
    ensures Run(bits, n, s, outMax) == Run(bits, 8 * (n / 8 + 1), t, outMax)
  {
    hide Carries, Run, PutBit;
    Unroll(bits, n, s, outMax);
    t := Step(s, bits[n], outMax);
    var u := Shift(s, bits[n]);
    SameCarries(s, u, acc);
    PutCarries(u, acc, true, outMax);
    SameCarries(PutBit(u, true, outMax), t, acc + [true]);
  }

  /** What is stuffed behind two more 1 bits. */
  lemma TwoMoreOnes(e: seq<bool>)
    ensures Stuff([true, true] + e, 5) == [true, true] + Stuff(e, 7)
  {
    hide Stuff;
    OneMore([true] + e, 5);
    OneMore(e, 6);
    assert [true, true] + e == [true] + ([true] + e);
    assert [true] + ([true] + Stuff(e, 7)) == [true, true] + Stuff(e, 7);
  }

  /** After the abort: the frame goes on at the next octet. */
  lemma GoesOn(bits: seq<bool>, m: nat, t: Deframer, d: seq<bool>, e: seq<bool>, tail: seq<bool>, outMax: nat)
    requires 2 <= m <= |bits| && bits[m..] == Stuff(e, 7) + (FLAG + tail)
    requires Ready(t) && t.bit2 && t.bit3 && t.ones == 5 && Carries(t, d + [true])
    requires |d + [true, true, true] + e| % 8 == 0 && 128 <= |d + [true, true, true] + e| <= 8 * outMax
    ensures var r := Run(bits, m, t, outMax);
            r.flagFound && IsStream(d + [true, true, true] + e, r.out)
  {
    hide Run, Carries, Stuff, IsStream;
    var line := bits[..m - 2] + ([true, true] + bits[m..]);
    var more := [true, true] + e;
    TwoMoreOnes(e);
    Rewound(bits, line, m, Stuff(e, 7), FLAG + tail);
    OnlyTheRestMatters(bits, line, m, t, outMax);
    assert (d + [true]) + more == d + [true, true, true] + e;
    ToTheFlag(line, m, t, d + [true], more, tail, outMax);
  }

  /** From inside a frame to its closing flag. */
  lemma ToTheFlag(line: seq<bool>, m: nat, t: Deframer, acc: seq<bool>, more: seq<bool>, tail: seq<bool>, outMax: nat)
    requires Ready(t) && LooksAt(line, m, t) && t.ones == 5 && Carries(t, acc)
    requires line[m - 2..] == Stuff(more, 5) + (FLAG + tail)
    requires |acc + more| % 8 == 0 && 128 <= |acc + more| <= 8 * outMax
    ensures var r := Run(line, m, t, outMax); r.flagFound && IsStream(acc + more, r.out)
  {
    hide Run, Carries, Stuff, IsStream, Ready;
    LooksInside(line, m, t);
    var rest, wire := FLAG + tail, Stuff(more, 5);
    var u := ReceiveBody(line, m, t, acc, more, rest, outMax);
    Split(line, m - 2, wire, rest);
    Split(line, m - 2 + |wire|, FLAG, tail);
    ClosingFlagAccepts(line, m + |wire|, u, acc + more, outMax);
  }

  lemma Rewound(bits: seq<bool>, line: seq<bool>, m: nat, wire: seq<bool>, rest: seq<bool>)
    requires 2 <= m <= |bits| && line == bits[..m - 2] + ([true, true] + bits[m..]) && bits[m..] == wire + rest
    ensures |line| == |bits| && line[m..] == bits[m..] && line[m - 2] && line[m - 1]
    ensures line[m - 2..] == ([true, true] + wire) + rest
  {
    assert line[m - 2..] == [true, true] + bits[m..];
  }

  /** An abort does not end a frame.  Wherever seven 1 bits stand in it, they are taken for data; what follows
      them in the same octet of the input is dropped; and the frame goes on with the next octet, and is
      accepted with both parts if together they are whole octets. */
  lemma AbortIsTakenForData(flags: nat, d: seq<bool>, dropped: seq<bool>, e: seq<bool>, tail: seq<bool>, outMax: nat)
    requires flags >= 1 && Count(d, 5) == 4
    requires |dropped| < 8 && (|Stuff(d, 5)| + 3 + |dropped|) % 8 == 0
    requires |d + [true, true, true] + e| % 8 == 0 && 128 <= |d + [true, true, true] + e| <= 8 * outMax
    ensures var line := Flags(flags) + (Stuff(d, 5) + ([true, true, true] + (dropped + (Stuff(e, 7) + (FLAG + tail)))));
            && |line| >= 2 && Deframe(line, outMax).flagFound
            && IsStream(d + [true, true, true] + e, Deframe(line, outMax).out)
  {
    hide Run, Carries, LooksAt, Deframe, Stuff, Flags, Count, IsStream, Ready;
    var wire := Stuff(d, 5);
    var after := dropped + (Stuff(e, 7) + (FLAG + tail));
    var rest := [true, true, true] + after;
    var line := Flags(flags) + (wire + rest);
    var u := FirstFlags(line, flags, wire + rest, outMax);
    LooksInside(line, 8 * flags + 2, u);
    var s := ReceiveBody(line, 8 * flags + 2, u, [], d, rest, outMax);
    assert [] + d == d;
    var n := 8 * flags + 2 + |wire|;
    Split(line, n - 2 - |wire|, wire, rest);
    FromTheAbort(line, n, s, d, dropped, e, tail, outMax);
  }

  lemma FromTheAbort(line: seq<bool>, n: nat, s: Deframer, d: seq<bool>, dropped: seq<bool>, e: seq<bool>,
                     tail: seq<bool>, outMax: nat)
    requires Ready(s) && LooksAt(line, n, s) && s.ones == 4 && Carries(s, d) && 2 <= n && n - 2 <= |line|
    requires line[n - 2..] == [true, true, true] + (dropped + (Stuff(e, 7) + (FLAG + tail)))
    requires |dropped| < 8 && (n + 1 + |dropped|) % 8 == 0
    requires |d + [true, true, true] + e| % 8 == 0 && 128 <= |d + [true, true, true] + e| <= 8 * outMax
    ensures Run(line, n, s, outMax).flagFound && IsStream(d + [true, true, true] + e, Run(line, n, s, outMax).out)
  {
    hide Run, Carries, Stuff, IsStream, LooksAt, Ready;
    var after := Stuff(e, 7) + (FLAG + tail);
    ThreeOnes(line, n, s, dropped + after);
    var t := FifthOfSeven(line, n, s, d, outMax);
    Split(line, n - 2, [true, true, true], dropped + after);
    Split(line, n + 1, dropped, after);
    assert 8 * (n / 8 + 1) == n + 1 + |dropped|;
    GoesOn(line, n + 1 + |dropped|, t, d, e, tail, outMax);
  }

  lemma ThreeOnes(line: seq<bool>, n: nat, s: Deframer, rest: seq<bool>)
    requires 2 <= n && n - 2 <= |line| && line[n - 2..] == [true, true, true] + rest && LooksAt(line, n, s)
    ensures n < |line| && s.bit2 && s.bit3 && line[n]
  {
    assert line[n - 2..][0] && line[n - 2..][1] && line[n - 2..][2];
  }

  lemma OnesLineIs(d: seq<bool>)
    requires Stuff(d, 5) == d && Count(d, 5) == 0
    ensures var x := d + [true, true, true, true]; Stuff(x, 5) == x && Count(x, 5) == 4
  {
    hide Stuff, Count;
    StuffOneMore(d, true, 5);
    StuffOneMore(d + [true], true, 5);
    StuffOneMore(d + [true, true], true, 5);
    StuffOneMore(d + [true, true, true], true, 5);
    assert d + [true] + [true] == d + [true, true] && d + [true, true] + [true] == d + [true, true, true];
    assert d + [true, true, true] + [true] == d + [true, true, true, true];
  }

  lemma ZerosCountNothing(n: nat)
    ensures Count(Zeros(n + 1), 5) == 0 && Stuff(Zeros(n + 1), 5) == Zeros(n + 1)
  {
    hide Stuff, Count;
    ZerosAreKept(n, 5);
    StuffOneMore(Zeros(n), false, 5);
    assert Zeros(n) + [false] == Zeros(n + 1);
    ZerosAreKept(n + 1, 5);
  }

  /** One such stream: 121 zeros, seven ones, and a flag.  What is returned ends with the abort. */
  lemma AbortExample()
    ensures var x := Zeros(121) + [true, true, true, true, true, true, true];
            var line := FLAG + (x + FLAG);
            && SevenOnes(line, 129) && Deframe(line, 512).flagFound && IsStream(x, Deframe(line, 512).out)
  {
    hide Stuff, Count, Deframe, IsStream;
    var d := Zeros(121) + [true, true, true, true];
    ZerosCountNothing(120);
    OnesLineIs(Zeros(121));
    assert |d| == 125;
    AbortIsTakenForData(1, d, [], [], [], 512);
    OneBitStuffed(true, 7);
    assert Flags(0) == [] && Flags(1) == FLAG + [] == FLAG;
    var x := Zeros(121) + [true, true, true, true, true, true, true];
    assert d + [true, true, true] + [] == x;
    assert FLAG + (d + ([true, true, true] + ([] + ([] + (FLAG + []))))) == FLAG + (x + FLAG);
  }
}
