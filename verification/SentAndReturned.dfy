/** What AX.25 sent against what the receiver returns.  Between two flags AX.25 puts data stuffed by a count
    that begins at 0 (section 3.6 of AX.25 version 2.2); the receiver begins its count at 5, at the octet
    after the flag, and looks for a flag at every bit. */
module SentAndReturned {
  import opened Bits
  import opened Hdlc
  import opened FrameRoundTrip
  import opened FrameConverse
  import opened NoisyStart

  /** The flag whose last bit stands at `o` opens a frame with the data `x`, which the flag at `p` closes. */
  predicate Sent(bits: seq<bool>, o: nat, x: seq<bool>, p: nat)
  {
    7 <= o < p && FlagAt(bits, o - 7) && FlagAt(bits, p) && bits[o + 1..p] == Stuff(x, 0)
  }

  /** Five 1 bits on the line. */
  predicate FiveOnes(bits: seq<bool>, i: nat)
  {
    i + 5 <= |bits| && bits[i] && bits[i + 1] && bits[i + 2] && bits[i + 3] && bits[i + 4]
  }

  // ------------------------------------------------------ counting and comparing stuffed data

  function Ones(s: seq<bool>): nat
  {
    if s == [] then 0 else (if s[0] then 1 else 0) + Ones(s[1..])
  }

  lemma {:induction false} OnesConcat(a: seq<bool>, b: seq<bool>)
    ensures Ones(a + b) == Ones(a) + Ones(b)
  {
    if a == [] {
      assert a + b == b;
    } else {
      OnesConcat(a[1..], b);
      assert (a + b)[1..] == a[1..] + b;
    }
  }

  /** Stuffing adds no 1 bit. */
  lemma {:induction false} StuffKeepsOnes(d: seq<bool>, c: nat)
    ensures Ones(Stuff(d, c)) == Ones(d)
    decreases |d|
  {
    if d != [] {
      hide Stuff, Ones;
      StuffFirst(d, c);
      StuffKeepsOnes(d[1..], After(d[0], c));
      OnesConcat(OnLine(d[0], c), Stuff(d[1..], After(d[0], c)));
      OnesFirst(d, c);
    } else {
      OneBitStuffed(true, c);
    }
  }

  lemma OnesFirst(d: seq<bool>, c: nat)
    requires d != []
    ensures Ones(d) == Ones(OnLine(d[0], c)) + Ones(d[1..])
  {
    assert [true, false][1..] == [false] && [d[0]][1..] == [];
    assert Ones([false]) == 0;
  }

  /** From one count, different data are stuffed differently. */
  lemma {:induction false} StuffIsInjective(a: seq<bool>, b: seq<bool>, c: nat)
    requires Stuff(a, c) == Stuff(b, c)
    ensures a == b
    decreases |a|
  {
    hide Stuff;
    OneBitStuffed(true, c);
    if a != [] { StuffFirst(a, c); }
    if b != [] { StuffFirst(b, c); }
    if a != [] && b != [] {
      var x, y := Stuff(a[1..], After(a[0], c)), Stuff(b[1..], After(b[0], c));
      assert (OnLine(a[0], c) + x)[0] == a[0] && (OnLine(b[0], c) + y)[0] == b[0];
      assert (OnLine(a[0], c) + x)[|OnLine(a[0], c)|..] == x && (OnLine(b[0], c) + y)[|OnLine(b[0], c)|..] == y;
      StuffIsInjective(a[1..], b[1..], After(a[0], c));
      assert a == [a[0]] + a[1..] && b == [b[0]] + b[1..];
    }
  }

  /** The receiver's count stuffs no more than the transmitter's. */
  lemma {:induction false} HighCountIsShorter(d: seq<bool>, c: nat, h: nat)
    requires c < 5 <= h
    ensures |Stuff(d, h)| <= |Stuff(d, c)|
    decreases |d|
  {
    if d != [] {
      hide Stuff;
      StuffFirst(d, c);
      StuffFirst(d, h);
      if d[0] {
        if c == 4 {
          HighCountIsShorter(d[1..], 0, h + 1);
        } else {
          HighCountIsShorter(d[1..], c + 1, h + 1);
        }
      }
    } else {
      OneBitStuffed(true, c);
      OneBitStuffed(true, h);
    }
  }

  lemma {:induction false} ShortIsPlain(d: seq<bool>, c: nat)
    requires |d| + c < 5 || (|d| < 5 && c >= 5)
    ensures Stuff(d, c) == d
    decreases |d|
  {
    hide Stuff;
    if d == [] {
      OneBitStuffed(true, c);
    } else {
      StuffFirst(d, c);
      ShortIsPlain(d[1..], After(d[0], c));
      assert d == [d[0]] + d[1..];
    }
  }

  /** The two counts agree exactly on data that do not start with five 1 bits. */
  lemma CountsAgreeIff(d: seq<bool>)
    ensures Stuff(d, 0) == Stuff(d, 5) <==> !StartsWithFiveOnes(d)
  {
    hide Stuff;
    if StartsWithFiveOnes(d) {
      FirstStuffedZeroIsKept(d);
      if Stuff(d, 0) == Stuff(d, 5) {
        StuffIsInjective(d, d[..5] + [false] + d[5..], 5);
      }
    } else if |d| < 5 {
      ShortIsPlain(d, 0);
      ShortIsPlain(d, 5);
    } else {
      var z := FirstZero(d);
      CountsAgree(d, 0, z);
    }
  }

  lemma FirstBitIsFirst(d: seq<bool>, c: nat)
    requires d != []
    ensures Stuff(d, c) != [] && Stuff(d, c)[0] == d[0]
  {
  }

  /** From a count of 5 the first bits go out as they are, up to the first 0. */
  lemma {:induction false} StartIsKept(d: seq<bool>, c: nat, j: nat)
    requires c >= 5 && j <= |d|
    ensures |Stuff(d, c)| >= j
    ensures (forall k :: 0 <= k < j ==> Stuff(d, c)[k]) <==> (forall k :: 0 <= k < j ==> d[k])
    decreases j
  {
    hide Stuff;
    if j > 0 {
      StuffFirst(d, c);
      var rest := Stuff(d[1..], After(d[0], c));
      assert Stuff(d, c) == [d[0]] + rest;
      if d[0] {
        StartIsKept(d[1..], c + 1, j - 1);
        assert forall k :: 1 <= k < j ==> d[k] == d[1..][k - 1] && Stuff(d, c)[k] == rest[k - 1];
        assert forall k :: 0 <= k < j - 1 ==> d[1..][k] == d[k + 1] && rest[k] == Stuff(d, c)[k + 1];
      } else {
        assert !Stuff(d, c)[0];
      }
    }
  }

  lemma FiveOnesStand(d: seq<bool>)
    requires |d| >= 5
    ensures |Stuff(d, 5)| >= 5 && (StartsWithFiveOnes(d) <==> FiveOnes(Stuff(d, 5), 0))
  {
    hide Stuff;
    StartIsKept(d, 5, 5);
    var w := Stuff(d, 5);
    assert StartsWithFiveOnes(d) <==> forall k :: 0 <= k < 5 ==> d[k];
    assert FiveOnes(w, 0) <==> forall k :: 0 <= k < 5 ==> w[k];
  }

  /** What goes out from a count of 0 never ends in five 1 bits: a 0 is stuffed behind them. */
  lemma NoFiveOnesAtEnd(d: seq<bool>)
    ensures |Stuff(d, 0)| >= 5 ==> !FiveOnes(Stuff(d, 0), |Stuff(d, 0)| - 5)
  {
    EndOnes(d);
  }

  /** The 1 bits at the end of what went out are at most those counted. */
  lemma {:induction false} EndOnes(d: seq<bool>)
    ensures Count(d, 0) <= 4 && (Count(d, 0) < |Stuff(d, 0)| ==> !Stuff(d, 0)[|Stuff(d, 0)| - 1 - Count(d, 0)])
    ensures Count(d, 0) <= |Stuff(d, 0)|
    decreases |d|
  {
    hide Stuff, Count;
    if d == [] {
      OneBitStuffed(true, 0);
    } else {
      var f, b := d[..|d| - 1], d[|d| - 1];
      assert d == f + [b];
      EndOnes(f);
      StuffOneMore(f, b, 0);
    }
  }

  // ------------------------------------------------------ in step

  /** One bit over is one 1 bit over. */
  lemma OverHasOneMore(bits: seq<bool>, q: nat, d: seq<bool>, p: nat)
    requires q <= p < |bits| && !bits[p] && bits[q..p + 1] == Stuff(d + [true], 5)
    ensures Ones(bits[q..p]) == Ones(d) + 1
  {
    hide Stuff;
    assert bits[q..p + 1] == bits[q..p] + [false];
    OnesConcat(bits[q..p], [false]);
    StuffKeepsOnes(d + [true], 5);
    OnesConcat(d, [true]);
    OneBitOnes();
  }

  lemma OneBitOnes()
    ensures Ones([false]) == 0 && Ones([true]) == 1 && Ones([]) == 0
  {
    assert [false][1..] == [] && [true][1..] == [];
  }

  lemma {:induction false} NoOnesAllZero(s: seq<bool>)
    ensures Ones(s) == 0 ==> forall k :: 0 <= k < |s| ==> !s[k]
  {
    if s != [] {
      NoOnesAllZero(s[1..]);
      assert forall k :: 1 <= k < |s| ==> s[k] == s[1..][k - 1];
    }
  }

  /** The receiver began behind the flag's end: bits are missing. */
  lemma NotLate(bits: seq<bool>, o: nat, q: nat, d: seq<bool>, p: nat)
    requires d != [] && o + 1 < q <= p < |bits| && bits[o + 1..p] == Stuff(d, 0) && !bits[p]
    ensures bits[q..p] != Stuff(d, 5) && bits[q..p + 1] != Stuff(d + [true], 5)
  {
    hide Stuff;
    var y, w := bits[o + 1..q], bits[q..p];
    assert bits[o + 1..p] == y + w;
    OnesConcat(y, w);
    StuffKeepsOnes(d, 0);
    StuffKeepsOnes(d, 5);
    if bits[q..p + 1] == Stuff(d + [true], 5) {
      OverHasOneMore(bits, q, d, p);
    }
    if w == Stuff(d, 5) {
      NoOnesAllZero(y);
      FirstBitIsFirst(d, 0);
      assert !y[0] && (y + w)[0] == y[0];
      CountsAgreeIff(d);
    }
  }

  /** The receiver began before the flag's end: it has bits too many. */
  lemma NotEarly(bits: seq<bool>, o: nat, q: nat, d: seq<bool>, p: nat)
    requires q <= o < p < |bits| && bits[o + 1..p] == Stuff(d, 0) && !bits[o] && !bits[p]
    ensures bits[q..p] != Stuff(d, 5) && bits[q..p + 1] != Stuff(d + [true], 5)
  {
    hide Stuff;
    var y, w := bits[q..o + 1], bits[o + 1..p];
    assert bits[q..p] == y + w;
    HighCountIsShorter(d, 0, 5);
    if bits[q..p + 1] == Stuff(d + [true], 5) {
      StuffOneMore(d, true, 5);
      assert |y| == 1 && y == [false];
      OnesConcat(y, w);
      StuffKeepsOnes(d, 0);
      OneBitOnes();
      OverHasOneMore(bits, q, d, p);
    }
  }

  /** When the data returned are data that AX.25 sent between some flag and the closing flag, the receiver was
      in step with that flag, and the two counts agree. */
  lemma SentMeansInStep(bits: seq<bool>, e: nat, d: seq<bool>, p: nat, o: nat)
    requires FramedAs(bits, e, d, p) && Sent(bits, o, d, p) && d != []
    ensures DataFrom(e) == o + 1 && !StartsWithFiveOnes(d) && bits[o + 1..p] == Stuff(d, 5)
  {
    hide Stuff, StartsWithFiveOnes;
    FlagEndsInZero(bits, o - 7);
    FlagEndsInZero(bits, p);
    var q := DataFrom(e);
    if q > o + 1 {
      NotLate(bits, o, q, d, p);
    } else if q < o + 1 {
      NotEarly(bits, o, q, d, p);
    }
    if bits[q..p + 1] == Stuff(d + [true], 5) {
      OverHasOneMore(bits, q, d, p);
      StuffKeepsOnes(d, 0);
    }
    CountsAgreeIff(d);
  }

  lemma FlagEndsInZero(bits: seq<bool>, p: nat)
    requires FlagAt(bits, p)
    ensures p + 8 <= |bits| && !bits[p] && !bits[p + 7] && bits[p + 1] && bits[p + 2] && bits[p + 3]
    ensures bits[p + 4] && bits[p + 5] && bits[p + 6]
  {
    var f := bits[p..p + 8];
    assert f[0] == bits[p] && f[1] == bits[p + 1] && f[2] == bits[p + 2] && f[3] == bits[p + 3];
    assert f[4] == bits[p + 4] && f[5] == bits[p + 5] && f[6] == bits[p + 6] && f[7] == bits[p + 7];
    assert FLAG[0] == FLAG[7] == false && FLAG[1] == FLAG[2] == FLAG[3] == FLAG[4] == FLAG[5] == FLAG[6] == true;
  }

  // ------------------------------------------------------ exactly when

  /** Whatever is returned is data that AX.25 sent, between some flag and the closing flag, if and only if a
      flag ends with the octet before the receiver's data, five 1 bits do not stand at their beginning, and
      five 1 bits do not stand before the closing flag. */
  lemma ReturnedIsSentIff(bits: seq<bool>, e: nat, d: seq<bool>, p: nat)
    requires FramedAs(bits, e, d, p) && |d| >= 5
    ensures (exists o :: Sent(bits, o, d, p)) <==>
            FlagAt(bits, DataFrom(e) - 8) && !FiveOnes(bits, DataFrom(e)) && !FiveOnes(bits, p - 5)
  {
    hide Stuff, StartsWithFiveOnes, FlagAt;
    var q := DataFrom(e);
    FramedBounds(bits, e, d, p);
    if o :| Sent(bits, o, d, p) {
      SentMeansInStep(bits, e, d, p, o);
      FiveOnesStand(d);
      SameFiveOnes(bits, q, p, Stuff(d, 5));
      NoFiveOnesAtEnd(d);
    }
    if FlagAt(bits, q - 8) && !FiveOnes(bits, q) && !FiveOnes(bits, p - 5) {
      if bits[q..p + 1] == Stuff(d + [true], 5) && bits[q..p] != Stuff(d, 5) {
        OverEndsInFiveOnes(bits, q, d, p);
      }
      SameFiveOnes(bits, q, p, Stuff(d, 5));
      FiveOnesStand(d);
      CountsAgreeIff(d);
      assert Sent(bits, q - 1, d, p);
    }
  }

  lemma FramedBounds(bits: seq<bool>, e: nat, d: seq<bool>, p: nat)
    requires FramedAs(bits, e, d, p) && |d| >= 5
    ensures 8 <= DataFrom(e) <= p - 5 && p + 8 <= |bits| && !bits[p] && FlagAt(bits, p)
    ensures bits[DataFrom(e)..p] == Stuff(d, 5) || bits[DataFrom(e)..p + 1] == Stuff(d + [true], 5)
  {
    hide Stuff, OpensAt, FlagAt, DataFrom;
    FramedLater(bits, e, d, p);
    FlagEndsInZero(bits, p);
    DataIsLater(e);
    var q := DataFrom(e);
    assert |bits[q..p]| == p - q && |bits[q..p + 1]| == p + 1 - q;
  }

  lemma DataIsLater(e: nat)
    ensures 8 <= DataFrom(e)
  {
  }

  lemma SameFiveOnes(bits: seq<bool>, q: nat, p: nat, w: seq<bool>)
    requires q + 5 <= p <= |bits|
    ensures bits[q..p] == w ==> FiveOnes(bits, q) == FiveOnes(w, 0) && FiveOnes(bits, p - 5) == FiveOnes(w, |w| - 5)
  {
    if bits[q..p] == w {
      assert w[0] == bits[q] && w[1] == bits[q + 1] && w[2] == bits[q + 2] && w[3] == bits[q + 3] && w[4] == bits[q + 4];
      var m := |w| - 5;
      assert w[m] == bits[p - 5] && w[m + 1] == bits[p - 4] && w[m + 2] == bits[p - 3];
      assert w[m + 3] == bits[p - 2] && w[m + 4] == bits[p - 1];
    }
  }

  /** One bit over stands behind four more. */
  lemma OverEndsInFiveOnes(bits: seq<bool>, q: nat, d: seq<bool>, p: nat)
    requires q + 5 <= p < |bits| && !bits[p] && bits[q..p + 1] == Stuff(d + [true], 5)
    ensures FiveOnes(bits, p - 5) && Count(d, 5) == 4 && bits[q..p] == Stuff(d, 5) + [true]
  {
    hide Stuff, Count;
    var w := bits[q..p + 1];
    StuffOneMore(d, true, 5);
    assert w[|w| - 1] == bits[p];
    assert w == Stuff(d, 5) + [true, false];
    assert bits[q..p] == w[..|w| - 1] == Stuff(d, 5) + [true];
    var f := FourOnes(d);
    var m := |w| - 6;
    assert w[m] && w[m + 1] && w[m + 2] && w[m + 3] && w[m + 4];
    assert w[m] == bits[p - 5] && w[m + 1] == bits[p - 4] && w[m + 2] == bits[p - 3];
    assert w[m + 3] == bits[p - 2] && w[m + 4] == bits[p - 1];
  }

  /** What stands on the line when the receiver began with the frame: the data; or, if they start with
      11111 0, the data without that 0, which the receiver took for data; or six 1 bits, which are no AX.25
      data at all. */
  lemma WhatWasSent(bits: seq<bool>, q: nat, d: seq<bool>, p: nat)
    requires q <= p <= |bits| && bits[q..p] == Stuff(d, 5) && |d| >= 6
    ensures if !StartsWithFiveOnes(d) then bits[q..p] == Stuff(d, 0)
            else if !d[5] then bits[q..p] == Stuff(d[..5] + d[6..], 0)
            else FiveOnes(bits, q) && q + 5 < p && bits[q + 5]
  {
    hide Stuff;
    if !StartsWithFiveOnes(d) {
      CountsAgreeIff(d);
    } else if !d[5] {
      ExtraZero(d);
    } else {
      SixOnesFirst(d);
      var w := Stuff(d, 5);
      assert w[0] == bits[q] && w[1] == bits[q + 1] && w[2] == bits[q + 2] && w[3] == bits[q + 3];
      assert w[4] == bits[q + 4] && w[5] == bits[q + 5];
    }
  }

  lemma ExtraZero(d: seq<bool>)
    requires |d| >= 6 && StartsWithFiveOnes(d) && !d[5]
    ensures Stuff(d, 5) == Stuff(d[..5] + d[6..], 0)
  {
    hide Stuff;
    var x := d[..5] + d[6..];
    FirstStuffedZeroIsKept(x);
    assert x[..5] + [false] + x[5..] == d;
  }

  lemma SixOnesFirst(d: seq<bool>)
    requires |d| >= 6 && StartsWithFiveOnes(d) && d[5]
    ensures var w := Stuff(d, 5); |w| >= 6 && w[0] && w[1] && w[2] && w[3] && w[4] && w[5]
  {
    hide Stuff;
    StartIsKept(d, 5, 6);
    assert forall k :: 0 <= k < 6 ==> d[k];
  }

  // ------------------------------------------------------ given what was sent

  /** Inside what AX.25 sends no flag ends. */
  lemma NoFlagInside(bits: seq<bool>, o: nat, x: seq<bool>, p: nat, e: nat)
    requires Sent(bits, o, x, p)
    ensures OpensAt(bits, e) && e < p ==> e <= o
  {
    hide Stuff;
    FlagEndsInZero(bits, o - 7);
    if o < e < p {
      var w := bits[o + 1..p];
      var i := e - 6 - (o + 1);
      if e - 6 > o {
        SixOnesNever(x, 0, i);
        assert w[i] == bits[e - 6] && w[i + 1] == bits[e - 5] && w[i + 2] == bits[e - 4];
        assert w[i + 3] == bits[e - 3] && w[i + 4] == bits[e - 2] && w[i + 5] == bits[e - 1];
      }
    }
  }

  /** No six 1 bits in a row, nor more in front than the count leaves. */
  lemma {:induction false} SixOnesNever(x: seq<bool>, c: nat, i: nat)
    requires c < 5
    ensures i + 6 <= |Stuff(x, c)| ==>
              var w := Stuff(x, c); !(w[i] && w[i + 1] && w[i + 2] && w[i + 3] && w[i + 4] && w[i + 5])
    ensures |Stuff(x, c)| >= 6 - c ==> exists k :: 0 <= k < 6 - c && !Stuff(x, c)[k]
    decreases |x|
  {
    hide Stuff;
    if x == [] {
      OneBitStuffed(true, c);
    } else {
      StuffFirst(x, c);
      var n, h := After(x[0], c), OnLine(x[0], c);
      var w, v := Stuff(x, c), Stuff(x[1..], n);
      if i >= |h| {
        SixOnesNever(x[1..], n, i - |h|);
        assert w[|h|..] == v;
      } else {
        SixOnesNever(x[1..], n, 0);
      }
      if !x[0] {
        assert !w[0];
      } else if c == 4 {
        assert !w[1];
      } else if |w| >= 6 - c {
        var k :| 0 <= k < 6 - n && !v[k];
        assert !w[k + 1];
      }
    }
  }

  /** Behind an aligned flag the receiver is in step, if what the flag opens is what it returns. */
  lemma AlignedIsInStep(bits: seq<bool>, p: nat, o: nat, x: seq<bool>, outMax: nat)
    returns (d: seq<bool>)
    requires |bits| >= 2 && Deframe(bits, outMax).flagFound && ClosedAt(bits, p, outMax)
    requires |bits| <= 8 * outMax && NoAbort(bits) && Sent(bits, o, x, p) && o % 8 == 7
    ensures IsStream(d, Deframe(bits, outMax).out) && FramedAs(bits, o, d, p)
  {
    hide Deframe, Run, IsStream, FramedAs, OpensAt, NoAbort, Restarted, Stuff, ClosedAt, FlagAt;
    AlignedRestarts(bits, p, o, x, outMax);
    FlagOpens(bits, o);
    var t := Deframe(bits[..o + 1], outMax);
    var e, q;
    e, d, q := FromFlag(bits, o, t, outMax);
    FramedLater(bits, e, d, q);
    SameClosing(bits, o + 1, t, p, q, outMax);
    NoFlagInside(bits, o, x, p, e);
  }

  /** A flag at an octet boundary before the closing flag starts a frame. */
  lemma AlignedRestarts(bits: seq<bool>, p: nat, o: nat, x: seq<bool>, outMax: nat)
    requires |bits| >= 2 && Deframe(bits, outMax).flagFound && ClosedAt(bits, p, outMax)
    requires Sent(bits, o, x, p) && o % 8 == 7
    ensures var t := Deframe(bits[..o + 1], outMax);
            && 2 <= o + 1 <= |bits| && !t.flagFound && Restarted(t) && 1 <= t.k <= 8
            && Deframe(bits, outMax) == Run(bits, o + 1, t, outMax)
  {
    hide Deframe, Run, Restarted, Stuff, Start, Open;
    var noise := bits[..o - 7];
    var c := noise + FLAG;
    assert bits[..o + 1] == noise + bits[o - 7..o + 1] == c;
    BehindFlag(noise, outMax);
    StartIsOpen(bits, outMax);
    StartIsOpen(c, outMax);
    StartIsPrefix(c, bits);
    RunPasses(bits, 2, Start(bits), (o + 1) / 8, outMax);
    if Deframe(c, outMax).flagFound {
      FoundStaysFound(bits, o + 1, p + 7, outMax);
    }
  }

  lemma FlagOpens(bits: seq<bool>, o: nat)
    requires 7 <= o && FlagAt(bits, o - 7)
    ensures OpensAt(bits, o) && o < |bits|
  {
    FlagEndsInZero(bits, o - 7);
  }

  lemma FramedLater(bits: seq<bool>, e: nat, d: seq<bool>, p: nat)
    requires FramedAs(bits, e, d, p)
    ensures OpensAt(bits, e) && e < p && FlagAt(bits, p)
  {
  }

  /** Where a run ends is where the stream is closed. */
  lemma SameClosing(bits: seq<bool>, n: nat, t: Deframer, p: nat, q: nat, outMax: nat)
    requires 2 <= n <= |bits| && n % 8 == 0 && |bits| >= 2 && 1 <= t.k <= 8 && !t.flagFound
    requires t == Deframe(bits[..n], outMax) && ClosedAt(bits, p, outMax) && Deframe(bits, outMax).flagFound
    requires EndsAt(bits, n, t, q, outMax) && FlagAt(bits, q)
    ensures p == q
  {
    hide Run, Start, FlagAt, Open;
    PassesTo(bits, n, q + 8, t, outMax);
    PassesTo(bits, n, q + 7, t, outMax);
    PassesTo(bits, n, |bits|, t, outMax);
    assert bits[..|bits|] == bits;
    ClosedOnce(bits, p, q, outMax);
  }

  lemma PassesTo(bits: seq<bool>, n: nat, m: nat, t: Deframer, outMax: nat)
    requires 2 <= n <= m <= |bits| && n % 8 == 0
    requires t == Deframe(bits[..n], outMax) && !t.flagFound
    ensures 1 <= t.k <= 8 && Deframe(bits[..m], outMax) == Run(bits[..m], n, t, outMax)
  {
    hide Run, Start, Open;
    var a, b := bits[..n], bits[..m];
    assert b[..n] == a;
    StartIsOpen(a, outMax);
    StartIsOpen(b, outMax);
    StartIsPrefix(a, b);
    RunPasses(b, 2, Start(b), n / 8, outMax);
  }

  /** The converse against AX.25: given a frame on the line, its data `x` between a flag that ends at `o` and
      the flag at which the receiver succeeds, and no abort before: `x` is returned, all of it and nothing
      else, if and only if the opening flag ends with an octet and `x` does not start with five 1 bits. */
  lemma ReturnedAsSentIff(bits: seq<bool>, p: nat, o: nat, x: seq<bool>, outMax: nat)
    requires |bits| >= 2 && Deframe(bits, outMax).flagFound && ClosedAt(bits, p, outMax)
    requires p + 8 <= 8 * outMax && NoAbort(bits[..p + 8]) && Sent(bits, o, x, p)
    ensures IsStream(x, Deframe(bits, outMax).out) <==> o % 8 == 7 && !StartsWithFiveOnes(x)
  {
    hide Deframe, ClosedAt, NoAbort, Stuff, StartsWithFiveOnes, FramedAs, ToBits;
    ClosedByItself(bits, p, outMax);
    var c := bits[..p + 8];
    SentInside(bits, c, o, x, p);
    var out := Deframe(c, outMax).out;
    ClosedHasOctets(c, outMax);
    if IsStream(x, out) {
      var e, d, q := StreamIsFramed(c, outMax);
      ClosedOnce(c, p, q, outMax);
      SentMeansInStep(c, e, x, p, o);
    }
    if o % 8 == 7 && !StartsWithFiveOnes(x) {
      var d := AlignedIsInStep(c, p, o, x, outMax);
      CountsAgreeIff(x);
      SameData(c, o, d, x, p);
    }
  }

  lemma SentInside(bits: seq<bool>, c: seq<bool>, o: nat, x: seq<bool>, p: nat)
    requires c <= bits && p + 8 <= |c| && Sent(bits, o, x, p)
    ensures Sent(c, o, x, p)
  {
    hide Stuff;
    assert c[o - 7..o - 7 + 8] == bits[o - 7..o - 7 + 8] && c[p..p + 8] == bits[p..p + 8];
    assert c[o + 1..p] == bits[o + 1..p];
  }

  lemma ClosedHasOctets(c: seq<bool>, outMax: nat)
    requires |c| >= 2 && Deframe(c, outMax).flagFound
    ensures |ToBits(Deframe(c, outMax).out)| >= 128
  {
    hide Deframe, ClosedAt;
    var p := AcceptedOnlyAtFlag(c, outMax);
  }

  /** In step, and stuffed alike. */
  lemma SameData(bits: seq<bool>, o: nat, d: seq<bool>, x: seq<bool>, p: nat)
    requires FramedAs(bits, o, d, p) && o % 8 == 7 && |d| >= 5
    requires bits[o + 1..p] == Stuff(x, 0) == Stuff(x, 5)
    ensures d == x
  {
    hide Stuff;
    FramedBounds(bits, o, d, p);
    if bits[o + 1..p] == Stuff(d, 5) {
      StuffIsInjective(d, x, 5);
    } else {
      OverEndsInFiveOnes(bits, o + 1, d, p);
      SameFiveOnes(bits, o + 1, p, Stuff(x, 0));
      NoFiveOnesAtEnd(x);
    }
  }

  // ------------------------------------------------------ three streams where it fails

  /** Too few bits for whole octets, but five 1 bits first: the stuffed 0 that the receiver takes for data
      makes the octets whole, and they are accepted with a 0 that was never sent. */
  lemma ExtraZeroReturned(flags: nat, x: seq<bool>, tail: seq<bool>, outMax: nat)
    requires flags >= 1 && |x| % 8 == 7 && 127 <= |x| < 8 * outMax && StartsWithFiveOnes(x)
    ensures var line := Frame(flags, x) + tail;
            && |line| >= 2 && Deframe(line, outMax).flagFound
            && IsStream(x[..5] + [false] + x[5..], Deframe(line, outMax).out)
  {
    hide Stuff, Flags, Frame, Deframe, IsStream;
    FirstStuffedZeroIsKept(x);
    FrameShape(flags, x, tail);
    FrameIsAccepted(Frame(flags, x) + tail, flags, x[..5] + [false] + x[5..], tail, outMax);
  }

  const FIVE: seq<bool> := [true, true, true, true, true]

  lemma {:induction false} ZerosAreKept(n: nat, c: nat)
    ensures Stuff(Zeros(n), c) == Zeros(n)
    decreases n
  {
    if n > 0 {
      assert Zeros(n)[1..] == Zeros(n - 1);
      ZerosAreKept(n - 1, 0);
    }
  }

  /** One such stream: aligned flags, no abort, and 128 bits returned where 127 were sent. */
  lemma ExtraZeroExample()
    ensures var x := FIVE + Zeros(122);
            var line := Frame(1, x);
            && |line| == 144 && NoAbort(line) && Sent(line, 7, x, 136)
            && Deframe(line, 512).flagFound && IsStream(FIVE + Zeros(123), Deframe(line, 512).out)
  {
    hide Deframe, Stuff;
    var x := FIVE + Zeros(122);
    var w := FIVE + Zeros(123);
    assert x[..5] + [false] + x[5..] == w;
    ExtraZeroReturned(1, x, [], 512);
    FirstStuffedZeroIsKept(x);
    FiveThenZeros(123);
    ExampleLine(w);
    assert Frame(1, x) + [] == Frame(1, x);
    assert Flags(0) == [] && Flags(1) == FLAG + [] == FLAG;
    assert Frame(1, x) == FLAG + w + FLAG;
  }

  lemma FiveThenZeros(n: nat)
    ensures Stuff(FIVE + Zeros(n), 5) == FIVE + Zeros(n)
  {
    hide Stuff;
    var z := Zeros(n);
    assert FIVE + z == [true] + ([true] + ([true] + ([true] + ([true] + z))));
    OneMore([true] + ([true] + ([true] + ([true] + z))), 5);
    OneMore([true] + ([true] + ([true] + z)), 6);
    OneMore([true] + ([true] + z), 7);
    OneMore([true] + z, 8);
    OneMore(z, 9);
    ZerosAreKept(n, 10);
  }

  lemma ExampleLine(w: seq<bool>)
    requires w == FIVE + Zeros(123)
    ensures var line := FLAG + w + FLAG;
            && |line| == 144 && NoAbort(line) && FlagAt(line, 0) && FlagAt(line, 136) && line[8..136] == w
  {
    var line := FLAG + w + FLAG;
    assert !line[0] && !line[7] && !line[136] && !line[143];
    assert forall k :: 13 <= k < 136 ==> !line[k] by {
      assert forall k :: 13 <= k < 136 ==> line[k] == w[k - 8] == Zeros(123)[k - 13];
    }
    forall i: nat
      ensures !SevenOnes(line, i)
    {
      if 7 < i <= 13 {
        assert !line[13];
      }
    }
    assert line[0..8] == FLAG && line[136..144] == FLAG;
  }

  /** An opening flag off the octet boundary: the seven bits behind it are lost, and the rest is returned. */
  lemma MisalignedFlagLosesBits(b: bool, seven: seq<bool>, d: seq<bool>, tail: seq<bool>, outMax: nat)
    requires |seven| == 7 && |d| % 8 == 0 && 128 <= |d| <= 8 * outMax
    ensures var line := [b] + FLAG + (seven + (Stuff(d, 5) + (FLAG + tail)));
            && |line| >= 2 && Deframe(line, outMax).flagFound && IsStream(d, Deframe(line, outMax).out)
  {
    hide Stuff, Run, Carries, Deframe, IsStream, Start, Ready, LooksAt, Restarted;
    var rest := Stuff(d, 5) + (FLAG + tail);
    var line := [b] + FLAG + (seven + rest);
    FirstBitThenFlag(line, b, seven + rest);
    StartIsOpen(line, outMax);
    var s := FlagAtThree(line, outMax);
    assert line[16..] == rest;
    NoMoreFlags(rest);
    var u := OpeningFlags(line, 2, s, 0, rest, outMax);
    var t := ReceiveAfterFlags(line, 18, u, d, tail, outMax);
    ClosingFlagAccepts(line, 18 + |Stuff(d, 5)|, t, d, outMax);
  }

  lemma NoMoreFlags(rest: seq<bool>)
    ensures Flags(0) + rest == rest
  {
  }

  lemma FirstBitThenFlag(line: seq<bool>, b: bool, rest: seq<bool>)
    requires line == [b] + FLAG + rest
    ensures |line| >= 9 && line[1..9] == FLAG && line[0] == b && !line[1] && line[2]
  {
    assert line[1] == FLAG[0] && line[2] == FLAG[1];
  }

  lemma FlagAtThree(line: seq<bool>, outMax: nat) returns (s: Deframer)
    requires |line| >= 9 && line[1..9] == FLAG
    ensures Restarted(s) && Run(line, 2, Start(line), outMax) == Run(line, 16, s, outMax)
  {
    hide Run;
    var t := OneStep(line, 2, Start(line), outMax);
    s := OtherFlagRestarts(line, 3, t, outMax);
  }

  /** Octets that end in 01111 leave the count at four. */
  lemma EndsInFourOnes(d: seq<bool>)
    ensures Count(d + [false, true, true, true, true], 5) == 4
  {
    hide Count, Stuff;
    StuffOneMore(d, false, 5);
    StuffOneMore(d + [false], true, 5);
    StuffOneMore(d + [false, true], true, 5);
    StuffOneMore(d + [false, true, true], true, 5);
    StuffOneMore(d + [false, true, true, true], true, 5);
    assert d + [false] + [true] == d + [false, true] && d + [false, true] + [true] == d + [false, true, true];
    assert d + [false, true, true] + [true] == d + [false, true, true, true];
    assert d + [false, true, true, true] + [true] == d + [false, true, true, true, true];
  }

  /** One bit too many, in a stream of its own: sixteen octets, a bit and a flag that shares the stuffed 0. */
  lemma OneBitTooManyExample()
    ensures var d := Zeros(123) + [false, true, true, true, true];
            var line := FLAG + (Stuff(d + [true], 5) + FLAG[1..]);
            && |d| == 128 && Deframe(line, 512).flagFound && IsStream(d, Deframe(line, 512).out)
  {
    hide Deframe, Stuff, Count;
    var d := Zeros(123) + [false, true, true, true, true];
    EndsInFourOnes(Zeros(123));
    OneBitTooMany(1, d, [], 512);
    assert Flags(0) == [] && Flags(1) == FLAG + [] == FLAG;
    assert FLAG[1..] + [] == FLAG[1..];
  }
}
