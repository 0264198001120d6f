/** What an accepted stream looked like, in the receiver's terms: the converse of `FrameRoundTrip`, for every
    stream without an abort sequence up to its closing flag.  What the deframer returns stands, stuffed the
    way the receiver counts, between the octet after an opening flag and the closing flag.  Module
    `SentAndReturned` says when that is what AX.25 put between the two flags. */
module FrameConverse {
  import opened Bits
  import opened Hdlc
  import opened FrameRoundTrip

  /** Seven contiguous 1 bits, at which the receiver gives up the octet: the beginning of a frame abort
      (section 3.10 of AX.25 version 2.2). */
  predicate SevenOnes(bits: seq<bool>, i: nat)
  {
    && i + 7 <= |bits| && bits[i] && bits[i + 1] && bits[i + 2] && bits[i + 3]
    && bits[i + 4] && bits[i + 5] && bits[i + 6]
  }

  ghost predicate NoAbort(bits: seq<bool>)
  {
    forall i: nat :: !SevenOnes(bits, i)
  }

  /** The last bit of an opening flag.  At the very beginning of a stream the receiver takes six 1 bits
      and a 0 for a flag as well. */
  predicate OpensAt(bits: seq<bool>, e: nat)
  {
    && 6 <= e < |bits| && !bits[e]
    && bits[e - 6] && bits[e - 5] && bits[e - 4] && bits[e - 3] && bits[e - 2] && bits[e - 1]
    && (e >= 7 ==> !bits[e - 7])
  }

  /** The receiver drops the rest of the octet in which a flag ends. */
  function DataFrom(e: nat): nat
  {
    8 * (e / 8 + 1)
  }

  /** From the octet after the opening flag that ends at `e` to the closing flag at `p` stands `d`, stuffed by a
      count that begins at 5, as the receiver's does; or `d` and one more 1 bit, the fifth in a row, whose
      stuffed 0 is the first bit of the closing flag. */
  predicate FramedAs(bits: seq<bool>, e: nat, d: seq<bool>, p: nat)
  {
    && OpensAt(bits, e) && DataFrom(e) <= p && FlagAt(bits, p)
    && (bits[DataFrom(e)..p] == Stuff(d, 5) || bits[DataFrom(e)..p + 1] == Stuff(d + [true], 5))
  }

  // ------------------------------------------------------ stuffing, from the other end

  lemma {:induction false} StuffOneMore(d: seq<bool>, b: bool, c: nat)
    ensures Stuff(d + [b], c) == Stuff(d, c) + (if !b then [false] else if Count(d, c) == 4 then [true, false] else [true])
    ensures Count(d + [b], c) == if b && Count(d, c) != 4 then Count(d, c) + 1 else 0
    decreases |d|
  {
    if d == [] {
      OneBitStuffed(b, c);
      assert d + [b] == [b];
    } else {
      hide Stuff, Count, OnLine, After;
      StuffOneMore(d[1..], b, After(d[0], c));
      assert (d + [b])[1..] == d[1..] + [b];
      StuffFirst(d, c);
      StuffFirst(d + [b], c);
      var w := if !b then [false] else if Count(d, c) == 4 then [true, false] else [true];
      assert OnLine(d[0], c) + (Stuff(d[1..], After(d[0], c)) + w) == OnLine(d[0], c) + Stuff(d[1..], After(d[0], c)) + w;
    }
  }

  lemma OneBitStuffed(b: bool, c: nat)
    ensures Stuff([b], c) == OnLine(b, c) && Count([b], c) == After(b, c)
    ensures Stuff([], c) == [] && Count([], c) == c
  {
    assert [b][1..] == [];
  }

  /** What goes out for one bit, and the count after it. */
  function OnLine(b: bool, c: nat): seq<bool>
  {
    if b && c + 1 == 5 then [true, false] else [b]
  }

  function After(b: bool, c: nat): nat
  {
    if b && c + 1 != 5 then c + 1 else 0
  }

  lemma StuffFirst(d: seq<bool>, c: nat)
    requires d != []
    ensures Stuff(d, c) == OnLine(d[0], c) + Stuff(d[1..], After(d[0], c))
    ensures Count(d, c) == Count(d[1..], After(d[0], c))
  {
  }

  /** A count from 1 to 4 ends in a 1 bit with a count one lower before it. */
  lemma PeelOne(d: seq<bool>) returns (f: seq<bool>)
    requires 1 <= Count(d, 5) <= 4
    ensures d == f + [true] && Count(f, 5) == Count(d, 5) - 1 && Stuff(d, 5) == Stuff(f, 5) + [true]
  {
    f := d[..|d| - 1];
    assert d == f + [d[|d| - 1]];
    StuffOneMore(f, d[|d| - 1], 5);
  }

  /** A count of 0 ends in a 0 bit or in a fifth 1 bit and its stuffed 0. */
  lemma PeelZero(d: seq<bool>) returns (f: seq<bool>)
    requires Count(d, 5) == 0
    ensures (Stuff(d, 5) == Stuff(f, 5) + [false] && d == f + [false])
         || (Stuff(d, 5) == Stuff(f, 5) + [true, false] && d == f + [true])
  {
    f := d[..|d| - 1];
    assert d == f + [d[|d| - 1]];
    StuffOneMore(f, d[|d| - 1], 5);
  }

  /** Four counted 1 bits stand on the line, behind a 0. */
  lemma FourOnes(d: seq<bool>) returns (f: seq<bool>)
    requires Count(d, 5) == 4
    ensures |d| >= 5 && f == d[..|d| - 5]
    ensures Stuff(d, 5) == Stuff(f, 5) + [false, true, true, true, true]
         || (Stuff(d, 5) == Stuff(f, 5) + [true, false, true, true, true, true]
             && Stuff(f + [true], 5) == Stuff(f, 5) + [true, false])
  {
    hide Stuff, Count;
    var d1 := PeelOne(d);
    var d2 := PeelOne(d1);
    var d3 := PeelOne(d2);
    var d4 := PeelOne(d3);
    f := PeelZero(d4);
  }

  // ------------------------------------------------------ where a run ends

  /** The run from place `n` ends with the flag at `p`. */
  ghost predicate EndsAt(bits: seq<bool>, n: nat, s: Deframer, p: nat, outMax: nat)
    requires 1 <= s.k <= 8
  {
    && n <= p + 7 && p + 8 <= |bits|
    && Run(bits[..p + 8], n, s, outMax) == Run(bits, n, s, outMax)
    && !Run(bits[..p + 7], n, s, outMax).flagFound
  }

  lemma EndsNow(bits: seq<bool>, n: nat, s: Deframer, outMax: nat)
    requires 1 <= s.k <= 8 && 7 <= n < |bits| && !s.flagFound && Step(s, bits[n], outMax).flagFound
    ensures EndsAt(bits, n, s, n - 7, outMax) && Run(bits, n, s, outMax) == Step(s, bits[n], outMax)
  {
    hide Run, Step, Next;
    var t := Step(s, bits[n], outMax);
    Unroll(bits, n, s, outMax);
    Unroll(bits[..n + 1], n, s, outMax);
    RunEnds(bits, Next(n, s), t, outMax);
    RunEnds(bits[..n + 1], Next(n, s), t, outMax);
    RunEnds(bits[..n], n, s, outMax);
  }

  lemma EndsLater(bits: seq<bool>, n: nat, s: Deframer, p: nat, outMax: nat)
    requires 1 <= s.k <= 8 && n < |bits| && !s.flagFound
    requires EndsAt(bits, Next(n, s), Step(s, bits[n], outMax), p, outMax)
    ensures EndsAt(bits, n, s, p, outMax)
  {
    hide Run, Step, Next;
    Unroll(bits, n, s, outMax);
    Unroll(bits[..p + 8], n, s, outMax);
    Unroll(bits[..p + 7], n, s, outMax);
  }

  lemma NotAtEnd(bits: seq<bool>, n: nat, s: Deframer, outMax: nat)
    requires 1 <= s.k <= 8 && !s.flagFound && Run(bits, n, s, outMax).flagFound
    ensures n < |bits| && Run(bits, Next(n, s), Step(s, bits[n], outMax), outMax).flagFound
  {
    hide Run, Step, Next;
    if n >= |bits| {
      RunEnds(bits, n, s, outMax);
    } else {
      Unroll(bits, n, s, outMax);
    }
  }

  // ------------------------------------------------------ inside a frame

  /** The line from `q` to the look-ahead carries `d`, stuffed, and the receiver's count is the transmitter's. */
  predicate Tracks(bits: seq<bool>, n: nat, s: Deframer, q: nat, d: seq<bool>)
  {
    && Ready(s) && LooksAt(bits, n, s) && q + 2 <= n
    && bits[q..n - 2] == Stuff(d, 5) && s.ones == Count(d, 5)
  }

  lemma DataTracks(bits: seq<bool>, n: nat, s: Deframer, q: nat, d: seq<bool>, outMax: nat) returns (t: Deframer)
    requires Tracks(bits, n, s, q, d) && Carries(s, d) && n < |bits| <= 8 * outMax && !(s.bit2 && s.ones == 4)
    ensures t == Step(s, bits[n], outMax) && Next(n, s) == n + 1
    ensures Tracks(bits, n + 1, t, q, d + [s.bit2]) && Carries(t, d + [s.bit2])
  {
    hide Carries, Run, Step, Stuff, Count;
    t := DataBit(bits, n, s, d, outMax);
    StuffOneMore(d, s.bit2, 5);
    assert bits[q..n - 1] == bits[q..n - 2] + [bits[n - 2]];
  }

  lemma StuffedTracks(bits: seq<bool>, n: nat, s: Deframer, q: nat, d: seq<bool>, outMax: nat) returns (t: Deframer)
    requires Tracks(bits, n, s, q, d) && Carries(s, d) && n + 1 < |bits| <= 8 * outMax
    requires s.bit2 && s.ones == 4 && !s.bit3
    ensures var v := Step(s, bits[n], outMax);
            && !v.flagFound && t == Step(v, bits[n + 1], outMax) && Next(n, s) == n + 1 && Next(n + 1, v) == n + 2
    ensures Tracks(bits, n + 2, t, q, d + [true]) && Carries(t, d + [true])
  {
    hide Carries, Run, Step, Stuff, Count;
    t := FifthOne(bits, n, s, d, outMax);
    StuffOneMore(d, true, 5);
    assert bits[q..n] == bits[q..n - 2] + [bits[n - 2], bits[n - 1]];
  }

  /** Six 1 bits after a 0, seen inside a frame. */
  lemma FlagShows(bits: seq<bool>, n: nat, s: Deframer, q: nat, d: seq<bool>)
    requires Tracks(bits, n, s, q, d) && n < |bits| && s.bit2 && s.ones == 4 && s.bit3 && NoAbort(bits)
    ensures OpensAt(bits, n) && 7 <= n && FlagAt(bits, n - 7) && q <= n - 7
    ensures |d| >= 5
    ensures var f := d[..|d| - 5];
            bits[q..n - 7] == Stuff(f, 5) || bits[q..n - 6] == Stuff(f + [true], 5)
  {
    hide Stuff, Count;
    var f := FourOnes(d);
    var x := Stuff(f, 5);
    if Stuff(d, 5) == x + ZERO_AND_ONES {
      SliceEnds(bits, q, n, x);
    } else {
      assert x + [true, false, true, true, true, true] == x + [true] + ZERO_AND_ONES;
      SliceEnds(bits, q, n, x + [true]);
      assert x + [true] + [false] == x + [true, false];
    }
    FlagStands(bits, n);
  }

  const ZERO_AND_ONES: seq<bool> := [false, true, true, true, true]

  /** A stretch of line that ends in 01111. */
  lemma SliceEnds(bits: seq<bool>, q: nat, n: nat, x: seq<bool>)
    requires q + 2 <= n <= |bits| && bits[q..n - 2] == x + ZERO_AND_ONES
    ensures q <= n - 7 && bits[q..n - 7] == x && bits[q..n - 6] == x + [false]
    ensures !bits[n - 7] && bits[n - 6] && bits[n - 5] && bits[n - 4] && bits[n - 3]
  {
    var w, m := bits[q..n - 2], |x|;
    assert w[m] == bits[n - 7] && w[m + 1] == bits[n - 6] && w[m + 2] == bits[n - 5];
    assert w[m + 3] == bits[n - 4] && w[m + 4] == bits[n - 3];
    assert w[..m] == bits[q..n - 7];
    assert w[..m + 1] == bits[q..n - 6];
  }

  lemma FlagStands(bits: seq<bool>, n: nat)
    requires 7 <= n < |bits| && NoAbort(bits)
    requires !bits[n - 7] && bits[n - 6] && bits[n - 5] && bits[n - 4] && bits[n - 3] && bits[n - 2] && bits[n - 1]
    ensures OpensAt(bits, n) && FlagAt(bits, n - 7)
  {
    assert !SevenOnes(bits, n - 6);
    assert bits[n - 7..n + 1] == FLAG;
  }

  /** The flag that is accepted there closes whole octets. */
  lemma FlagCloses(s: Deframer, d: seq<bool>, bit: bool, outMax: nat)
    requires Ready(s) && Carries(s, d) && s.bit2 && s.ones == 4 && s.bit3 && !bit
    requires Step(s, bit, outMax).flagFound
    ensures |d| >= 5 && IsStream(d[..|d| - 5], Step(s, bit, outMax).out)
  {
    hide PutBit;
    assert s.k == 3;
  }

  lemma FlagRestarts(s: Deframer, bit: bool, n: nat, outMax: nat)
    requires 1 <= s.k <= 8 && !s.skip && s.resync == 0 && !s.flagFound && s.bit2 && s.ones == 4 && s.bit3 && !bit
    requires !Step(s, bit, outMax).flagFound
    ensures Restarted(Step(s, bit, outMax)) && Next(n, s) == DataFrom(n)
  {
    hide PutBit;
  }

  /** From inside a frame. */
  lemma {:induction false} FromFrame(bits: seq<bool>, n: nat, s: Deframer, e: nat, d: seq<bool>, outMax: nat)
    returns (e': nat, d': seq<bool>, p: nat)
    requires NoAbort(bits) && |bits| <= 8 * outMax && OpensAt(bits, e)
    requires Tracks(bits, n, s, DataFrom(e), d) && Carries(s, d) && Run(bits, n, s, outMax).flagFound
    ensures FramedAs(bits, e', d', p) && IsStream(d', Run(bits, n, s, outMax).out) && e <= e'
    ensures EndsAt(bits, n, s, p, outMax)
    decreases |bits| - n, 1
  {
    hide Carries, Run, Step, Next, Stuff, Count, IsStream, EndsAt, NoAbort, OpensAt, Tracks, FlagAt;
    InFrame(bits, n, s, DataFrom(e), d);
    NotAtEnd(bits, n, s, outMax);
    Unroll(bits, n, s, outMax);
    var t := Step(s, bits[n], outMax);
    if !(s.bit2 && s.ones == 4) {
      t := DataTracks(bits, n, s, DataFrom(e), d, outMax);
      e', d', p := FromFrame(bits, n + 1, t, e, d + [s.bit2], outMax);
      EndsLater(bits, n, s, p, outMax);
    } else if !s.bit3 {
      StuffedFlag(s, bits[n], outMax);
      NotAtEnd(bits, Next(n, s), t, outMax);
      NextIsLater(n, s);
      var u := StuffedTracks(bits, n, s, DataFrom(e), d, outMax);
      Unroll(bits, n + 1, t, outMax);
      e', d', p := FromFrame(bits, n + 2, u, e, d + [true], outMax);
      EndsLater(bits, n + 1, t, p, outMax);
      EndsLater(bits, n, s, p, outMax);
    } else {
      FlagShows(bits, n, s, DataFrom(e), d);
      OpeningEnds(bits, n);
      if t.flagFound {
        FlagCloses(s, d, bits[n], outMax);
        EndsNow(bits, n, s, outMax);
        e', d', p := e, d[..|d| - 5], n - 7;
      } else {
        FlagRestarts(s, bits[n], n, outMax);
        e', d', p := FromFlag(bits, n, t, outMax);
        EndsLater(bits, n, s, p, outMax);
      }
    }
  }

  lemma InFrame(bits: seq<bool>, n: nat, s: Deframer, q: nat, d: seq<bool>)
    requires Tracks(bits, n, s, q, d)
    ensures Ready(s) && q + 2 <= n <= |bits|
  {
  }

  lemma OpeningEnds(bits: seq<bool>, e: nat)
    requires OpensAt(bits, e)
    ensures 6 <= e < |bits| && !bits[e]
  {
  }

  lemma NextIsLater(n: nat, s: Deframer)
    requires !s.bit3
    ensures Next(n, s) == n + 1
  {
  }

  lemma StuffedFlag(s: Deframer, bit: bool, outMax: nat)
    requires 1 <= s.k <= 8 && !s.flagFound && !s.skip && s.resync == 0 && s.bit2 && s.ones == 4 && !s.bit3
    ensures !Step(s, bit, outMax).flagFound
  {
    hide PutBit;
  }

  /** From an opening flag. */
  lemma {:induction false} FromFlag(bits: seq<bool>, e: nat, s: Deframer, outMax: nat)
    returns (e': nat, d': seq<bool>, p: nat)
    requires NoAbort(bits) && |bits| <= 8 * outMax && OpensAt(bits, e)
    requires Restarted(s) && Run(bits, DataFrom(e), s, outMax).flagFound
    ensures FramedAs(bits, e', d', p) && IsStream(d', Run(bits, DataFrom(e), s, outMax).out) && e <= e'
    ensures EndsAt(bits, DataFrom(e), s, p, outMax)
    decreases |bits| - e, 0
  {
    hide Carries, Run, Step, Next, IsStream, EndsAt, NoAbort, OpensAt, FlagAt, Tracks;
    var q := DataFrom(e);
    OpeningEnds(bits, e);
    NotAtEnd(bits, q, s, outMax);
    FirstResync(s, bits[q], q, outMax);
    var u := Step(s, bits[q], outMax);
    NotAtEnd(bits, q + 1, u, outMax);
    var t := Resync(bits, q, s, outMax);
    NothingTracked(bits, q, t);
    e', d', p := FromFrame(bits, q + 2, t, e, [], outMax);
    EndsLater(bits, q + 1, u, p, outMax);
    EndsLater(bits, q, s, p, outMax);
  }

  lemma FirstResync(s: Deframer, bit: bool, q: nat, outMax: nat)
    requires Restarted(s)
    ensures !Step(s, bit, outMax).flagFound && Next(q, s) == q + 1
  {
  }

  lemma NothingTracked(bits: seq<bool>, q: nat, t: Deframer)
    requires Ready(t) && LooksAt(bits, q + 2, t) && t.ones == 5
    ensures Tracks(bits, q + 2, t, q, [])
  {
    assert bits[q..q] == [];
  }

  // ------------------------------------------------------ before the first flag

  /** No flag yet: the count of 1 bits is a count on the line. */
  predicate Searching(bits: seq<bool>, n: nat, s: Deframer)
  {
    && 1 <= s.k <= 8 && !s.skip && s.resync == 0 && !s.flagFound && !s.store && s.out == []
    && LooksAt(bits, n, s) && s.ones <= 4 && s.ones + 2 <= n
    && (forall i :: n - 2 - s.ones <= i < n - 2 ==> bits[i])
    && (n > s.ones + 2 ==> !bits[n - 3 - s.ones])
  }

  lemma SearchGoesOn(bits: seq<bool>, n: nat, s: Deframer, outMax: nat)
    requires Searching(bits, n, s) && n < |bits| && !(s.bit2 && s.ones == 4)
    ensures Searching(bits, n + 1, Step(s, bits[n], outMax)) && Next(n, s) == n + 1
  {
    hide PutBit;
  }

  lemma SearchSkips(bits: seq<bool>, n: nat, s: Deframer, outMax: nat)
    requires Searching(bits, n, s) && n + 1 < |bits| && s.bit2 && s.ones == 4 && !s.bit3
    ensures var v := Step(s, bits[n], outMax);
            && !v.flagFound && Next(n, s) == n + 1 && Next(n + 1, v) == n + 2
            && Searching(bits, n + 2, Step(v, bits[n + 1], outMax))
  {
    hide PutBit;
  }

  lemma SearchFinds(bits: seq<bool>, n: nat, s: Deframer, outMax: nat)
    requires Searching(bits, n, s) && n < |bits| && s.bit2 && s.ones == 4 && s.bit3 && NoAbort(bits)
    ensures OpensAt(bits, n) && Restarted(Step(s, bits[n], outMax)) && Next(n, s) == DataFrom(n)
  {
    hide PutBit;
    assert !SevenOnes(bits, n - 6);
  }

  lemma {:induction false} FromSearch(bits: seq<bool>, n: nat, s: Deframer, outMax: nat)
    returns (e: nat, d: seq<bool>, p: nat)
    requires NoAbort(bits) && |bits| <= 8 * outMax && Searching(bits, n, s) && Run(bits, n, s, outMax).flagFound
    ensures FramedAs(bits, e, d, p) && IsStream(d, Run(bits, n, s, outMax).out)
    ensures EndsAt(bits, n, s, p, outMax)
    decreases |bits| - n
  {
    hide Run, Step, Next, IsStream, EndsAt, NoAbort, OpensAt, FlagAt, Searching, FramedAs;
    SearchIsOpen(bits, n, s);
    NotAtEnd(bits, n, s, outMax);
    Unroll(bits, n, s, outMax);
    var t := Step(s, bits[n], outMax);
    if !(s.bit2 && s.ones == 4) {
      SearchGoesOn(bits, n, s, outMax);
      e, d, p := FromSearch(bits, n + 1, t, outMax);
    } else if !s.bit3 {
      StuffedFlag(s, bits[n], outMax);
      NextIsLater(n, s);
      NotAtEnd(bits, n + 1, t, outMax);
      SearchSkips(bits, n, s, outMax);
      Unroll(bits, n + 1, t, outMax);
      e, d, p := FromSearch(bits, n + 2, Step(t, bits[n + 1], outMax), outMax);
      EndsLater(bits, n + 1, t, p, outMax);
    } else {
      SearchFinds(bits, n, s, outMax);
      e, d, p := FromFlag(bits, n, t, outMax);
    }
    EndsLater(bits, n, s, p, outMax);
  }

  lemma SearchIsOpen(bits: seq<bool>, n: nat, s: Deframer)
    requires Searching(bits, n, s)
    ensures 1 <= s.k <= 8 && !s.flagFound && !s.skip && s.resync == 0 && n <= |bits|
  {
  }

  // ------------------------------------------------------ the converse

  /** A stream that is accepted, as a whole without an abort sequence. */
  lemma StreamIsFramed(bits: seq<bool>, outMax: nat) returns (e: nat, d: seq<bool>, p: nat)
    requires 2 <= |bits| <= 8 * outMax && NoAbort(bits) && Deframe(bits, outMax).flagFound
    ensures ClosedAt(bits, p, outMax) && FramedAs(bits, e, d, p)
    ensures IsStream(d, Deframe(bits, outMax).out)
  {
    hide Run, Step, Next, IsStream, NoAbort, OpensAt;
    e, d, p := FromSearch(bits, 2, Start(bits), outMax);
    assert Start(bits[..p + 8]) == Start(bits) == Start(bits[..p + 7]);
  }

  /** A stream that ends with its closing flag. */
  lemma ClosedByItself(bits: seq<bool>, p: nat, outMax: nat)
    requires |bits| >= 2 && ClosedAt(bits, p, outMax) && Deframe(bits, outMax).flagFound
    ensures p + 8 <= |bits|
    ensures var c := bits[..p + 8];
            |c| >= 2 && ClosedAt(c, p, outMax) && Deframe(c, outMax) == Deframe(bits, outMax)
  {
    hide Deframe;
    var c := bits[..p + 8];
    assert c[..p + 8] == c && c[..p + 7] == bits[..p + 7] && c[p..p + 8] == bits[p..p + 8];
  }

  /** For every accepted stream without an abort sequence up to the closing flag: the octets returned are what
      stands, in the receiver's stuffing, before that flag.  What follows the flag does not matter. */
  lemma AcceptedIsFramed(bits: seq<bool>, p: nat, outMax: nat) returns (e: nat, d: seq<bool>)
    requires |bits| >= 2 && Deframe(bits, outMax).flagFound && ClosedAt(bits, p, outMax)
    requires p + 8 <= 8 * outMax && NoAbort(bits[..p + 8])
    ensures FramedAs(bits, e, d, p) && IsStream(d, Deframe(bits, outMax).out)
  {
    hide Deframe, ClosedAt, IsStream, NoAbort, FramedAs;
    ClosedByItself(bits, p, outMax);
    var c := bits[..p + 8];
    var q;
    e, d, q := StreamIsFramed(c, outMax);
    ClosedOnce(c, p, q, outMax);
    FramedInside(c, bits, e, d, p);
  }

  lemma FramedInside(c: seq<bool>, bits: seq<bool>, e: nat, d: seq<bool>, p: nat)
    requires c <= bits && FramedAs(c, e, d, p)
    ensures FramedAs(bits, e, d, p)
  {
    hide Stuff;
    var q := DataFrom(e);
    assert bits[p..p + 8] == c[p..p + 8] && bits[q..p] == c[q..p] && bits[q..p + 1] == c[q..p + 1];
  }

  /** The second shape does occur: octets followed by one bit too many are accepted, and the bit is dropped,
      if it is the fifth 1 in a row and the 0 stuffed after it is also the first bit of the closing flag. */
  lemma OneBitTooMany(flags: nat, d: seq<bool>, tail: seq<bool>, outMax: nat)
    requires flags >= 1 && |d| % 8 == 0 && 128 <= |d| < 8 * outMax && Count(d, 5) == 4
    ensures var line := Flags(flags) + (Stuff(d + [true], 5) + (FLAG[1..] + tail));
            |line| >= 2 && Deframe(line, outMax).flagFound && IsStream(d, Deframe(line, outMax).out)
  {
    hide Run, Carries, LooksAt, Deframe, Stuff, Flags, Count;
    var rest := FLAG[1..] + tail;
    var wire := Stuff(d + [true], 5);
    var line := Flags(flags) + (wire + rest);
    var u := FirstFlags(line, flags, wire + rest, outMax);
    LooksInside(line, 8 * flags + 2, u);
    var t := ReceiveBody(line, 8 * flags + 2, u, [], d + [true], rest, outMax);
    assert [] + (d + [true]) == d + [true];
    StuffOneMore(d, true, 5);
    var n := 8 * flags + 2 + |wire|;
    Split(line, n - 2 - |wire|, wire, rest);
    Split(line, n - 2, FLAG[1..], tail);
    FlagWithoutZero(line, n, t, d, outMax);
  }

  /** Six 1 bits and a 0 right after a dropped 0. */
  lemma FlagWithoutZero(line: seq<bool>, n: nat, s: Deframer, d: seq<bool>, outMax: nat)
    requires Ready(s) && LooksAt(line, n, s) && s.ones == 0 && Carries(s, d + [true]) && |d| % 8 == 0 && |d| >= 128
    requires n + 5 <= |line| && line[n - 2..n + 5] == FLAG[1..]
    ensures Run(line, n, s, outMax).flagFound && IsStream(d, Run(line, n, s, outMax).out)
  {
    hide Run, PutBit, Carries, IsStream, Step, ToBits;
    OneBitOver(s, d);
    var f := line[n - 2..n + 5];
    assert f[0] == line[n - 2] && f[1] == line[n - 1] && f[2] == line[n] && f[3] == line[n + 1];
    assert f[4] == line[n + 2] && f[5] == line[n + 3] && f[6] == line[n + 4];
    assert FLAG[1..] == [true, true, true, true, true, true, false];
    var s1 := OneStep(line, n, s, outMax);
    var s2 := OneStep(line, n + 1, s1, outMax);
    var s3 := OneStep(line, n + 2, s2, outMax);
    var s4 := OneStep(line, n + 3, s3, outMax);
    Unroll(line, n + 4, s4, outMax);
    LastOneAccepts(s4, line[n + 4], outMax);
    RunEnds(line, Next(n + 4, s4), Step(s4, line[n + 4], outMax), outMax);
  }

  lemma OneBitOver(s: Deframer, d: seq<bool>)
    requires Carries(s, d + [true]) && |d| % 8 == 0
    ensures s.k == 7 && IsStream(d, s.out) && |s.out| == |d| / 8
  {
    hide ToBits, Written;
    assert (d + [true])[..8 * |s.out|] == d;
  }

  lemma LastOneAccepts(s: Deframer, bit: bool, outMax: nat)
    requires !s.skip && s.resync == 0 && !s.flagFound && s.bit2 && s.ones == 4 && s.bit3 && !bit
    requires s.k == 3 && |s.out| >= 16
    ensures Step(s, bit, outMax).flagFound && Step(s, bit, outMax).out == s.out
  {
    hide PutBit;
  }
}
