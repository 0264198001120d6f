/** `bitcode_nrz2ax25` of src/bitcode.c: line decoding, deframing and bit reversal put
    together, and the transmitter it must undo. */
module Bitcode {
  import opened Bits
  import opened LineCoding
  import opened Hdlc
  import opened FrameRoundTrip
  import opened FrameConverse
  import opened NoisyStart
  import opened SentAndReturned

  const BUFFER_SIZE := 512

  datatype Decoded = Decoded(rc: int, octets: seq<bv8>)

  function ReverseAll(s: seq<bv8>): (r: seq<bv8>)
    ensures |r| == |s|
    ensures forall i :: 0 <= i < |s| ==> r[i] == Reversed(s[i])
  {
    seq(|s|, i requires 0 <= i < |s| => Reversed(s[i]))
  }

  /** The bit stream handed to the deframer; `framing` is 1 or 3. */
  function LineDecode(octets: seq<bv8>, framing: int): (bits: seq<bool>)
    ensures |bits| == 8 * |octets|
  {
    NrzsDecode(false, if framing == 3 then Descramble(CLEARED, ToBits(octets)) else ToBits(octets))
  }

  /** The whole receiver, as a function of sync word and data put end to end. */
  function Nrz2Ax25(received: seq<bv8>, framing: int, outMax: nat): Decoded
  {
    if |received| < 16 || |received| > BUFFER_SIZE || (framing != 1 && framing != 3) then Decoded(1, [])
    else
      var r := Deframe(LineDecode(received, framing), BUFFER_SIZE);
      Decoded(if r.flagFound then 0 else 1,
              ReverseAll(if |r.out| > outMax then r.out[..outMax] else r.out))
  }

  method BitcodeNrz2Ax25(data: array<bv8>, dataLen: nat, syncWord: array<bv8>, syncLen: nat, framing: int,
                         ax25bin: array<bv8>, outMax: nat)
    returns (rc: int, outLen: nat)
    requires dataLen <= data.Length && syncLen <= syncWord.Length && outMax <= ax25bin.Length
    requires ax25bin != data && ax25bin != syncWord
    modifies ax25bin
    ensures outLen <= outMax
    ensures Decoded(rc, ax25bin[..outLen]) == Nrz2Ax25(syncWord[..syncLen] + data[..dataLen], framing, outMax)
  {
    hide ToBits, LineDecode, Deframe, ReverseAll;
    ghost var received := syncWord[..syncLen] + data[..dataLen];
    if dataLen + syncLen < 16 {
      return 1, 0;
    }
    var total := syncLen + dataLen;
    var combined := new bv8[BUFFER_SIZE];
    if total > combined.Length {
      return 1, 0;
    }
    Join(syncWord, syncLen, data, dataLen, combined);

    if framing != 1 && framing != 3 {
      return 1, 0;
    }
    var hdlc := new bv8[BUFFER_SIZE];
    var hdlcLen := DecodeLine(combined, total, framing, hdlc);

    var inverted := new bv8[BUFFER_SIZE];
    var invLen;
    rc, invLen := RemoveBitStuffing(hdlc, hdlcLen, inverted, inverted.Length);

    outLen := if invLen > outMax then outMax else invLen;
    assert inverted[..outLen] == inverted[..invLen][..outLen];
    ReverseInto(inverted, outLen, ax25bin);
  }

  /** The line decoding of either framing. */
  method DecodeLine(combined: array<bv8>, total: nat, framing: int, hdlc: array<bv8>) returns (hdlcLen: nat)
    requires total <= combined.Length <= BUFFER_SIZE && total <= hdlc.Length && combined != hdlc
    requires framing == 1 || framing == 3
    modifies hdlc
    ensures hdlcLen == total && ToBits(hdlc[..total]) == LineDecode(combined[..total], framing)
  {
    hide ToBits, NrzsDecode, Descramble;
    if framing == 1 {
      hdlcLen := Nrz2Nrzi(combined, total, hdlc);
    } else {
      var descrambled := new bv8[BUFFER_SIZE];
      Descram1712(combined, total, descrambled);
      hdlcLen := Nrz2Nrzi(descrambled, total, hdlc);
    }
  }

  /** The two `memcpy` calls that prepend the sync word. */
  method Join(syncWord: array<bv8>, syncLen: nat, data: array<bv8>, dataLen: nat, combined: array<bv8>)
    requires syncLen <= syncWord.Length && dataLen <= data.Length && syncLen + dataLen <= combined.Length
    requires combined != syncWord && combined != data
    modifies combined
    ensures combined[..syncLen + dataLen] == syncWord[..syncLen] + data[..dataLen]
  {
    forall i | 0 <= i < syncLen { combined[i] := syncWord[i]; }
    forall i | 0 <= i < dataLen { combined[syncLen + i] := data[i]; }
  }

  /** The final loop: the bits of every octet in reverse. */
  method ReverseInto(inverted: array<bv8>, len: nat, ax25bin: array<bv8>)
    requires len <= inverted.Length && len <= ax25bin.Length && inverted != ax25bin
    modifies ax25bin
    ensures ax25bin[..len] == ReverseAll(inverted[..len])
  {
    hide Reversed;
    var i := 0;
    while i < len
      invariant 0 <= i <= len
      invariant forall m :: 0 <= m < i ==> ax25bin[m] == Reversed(inverted[m])
    {
      ax25bin[i] := ReverseByte(inverted[i]);
      i := i + 1;
    }
  }

  // ------------------------------------------------------ the transmitter

  /** A payload in transmission order: each octet least significant bit first. */
  function LsbBits(p: seq<bv8>): (bits: seq<bool>)
    ensures |bits| == 8 * |p|
  {
    seq(8 * |p|, n requires 0 <= n < 8 * |p| => ReadBit(p[n / 8], n % 8 + 1))
  }

  /** Framed, NRZ-S encoded from some line level and, for framing 3, scrambled from some register. */
  function TransmitFrom(level: bool, reg: seq<bool>, flags: nat, payload: seq<bv8>, tail: seq<bool>, framing: int)
    : (octets: seq<bv8>)
    requires |reg| == 17 && |Frame(flags, LsbBits(payload)) + tail| % 8 == 0
  {
    var line := NrzsEncode(level, Frame(flags, LsbBits(payload)) + tail);
    FromBits(if framing == 3 then Scramble(reg, line) else line)
  }

  /** From level 0 and a cleared register, as the receiver starts. */
  function Transmit(flags: nat, payload: seq<bv8>, tail: seq<bool>, framing: int): (octets: seq<bv8>)
    requires |Frame(flags, LsbBits(payload)) + tail| % 8 == 0
  {
    TransmitFrom(false, CLEARED, flags, payload, tail, framing)
  }

  lemma LineCodesCancel(flags: nat, payload: seq<bv8>, tail: seq<bool>, framing: int)
    requires |Frame(flags, LsbBits(payload)) + tail| % 8 == 0
    ensures var octets := Transmit(flags, payload, tail, framing);
            LineDecode(octets, framing) == Frame(flags, LsbBits(payload)) + tail
            && 8 * |octets| == |Frame(flags, LsbBits(payload)) + tail|
  {
    var bits := Frame(flags, LsbBits(payload)) + tail;
    var line := NrzsEncode(false, bits);
    hide NrzsEncode, NrzsDecode, Scramble, Descramble, FromBits, ToBits, Frame, LsbBits;
    NrzsRoundTrip(false, bits);
    ScrambleThenDescramble(CLEARED, line);
    FromBitsToBits(if framing == 3 then Scramble(CLEARED, line) else line);
  }

  /** Octets packed most significant first in transmission order are the payload mirrored. */
  lemma MirroredPayload(payload: seq<bv8>, out: seq<bv8>)
    requires IsStream(LsbBits(payload), out)
    ensures ReverseAll(out) == payload
  {
    var m := ReverseAll(payload);
    forall n | 0 <= n < 8 * |payload|
      ensures ToBits(m)[n] == LsbBits(payload)[n]
    {
      assert ToBits(m)[n] == ReadBit(Reversed(payload[n / 8]), 8 - n % 8);
    }
    StreamIsItsBits(m, out);
    forall i | 0 <= i < |payload|
      ensures ReverseAll(out)[i] == payload[i]
    {
      ReversalIsInvolutive(payload[i]);
    }
  }

  /** The round trip, for both framings, any number of opening flags, any tail and any payload
      of at least sixteen octets whose first five transmitted bits are not all 1.  The octets may
      be split anywhere between sync word and data, since the receiver joins the two. */
  lemma RoundTrip(flags: nat, payload: seq<bv8>, tail: seq<bool>, framing: int, outMax: nat)
    requires flags >= 1 && |payload| >= 16 && (framing == 1 || framing == 3)
    requires |Frame(flags, LsbBits(payload)) + tail| % 8 == 0
    requires |Frame(flags, LsbBits(payload)) + tail| <= 8 * BUFFER_SIZE
    requires !StartsWithFiveOnes(LsbBits(payload))
    ensures Nrz2Ax25(Transmit(flags, payload, tail, framing), framing, outMax)
            == Decoded(0, if |payload| > outMax then payload[..outMax] else payload)
  {
    hide Frame, LsbBits, Transmit, TransmitFrom, LineDecode, Deframe, ReverseAll, IsStream, StartsWithFiveOnes;
    var d := LsbBits(payload);
    FrameIsLongEnough(flags, d, tail);
    LineCodesCancel(flags, payload, tail, framing);
    FrameIsReceived(flags, d, tail, BUFFER_SIZE);
    var r := Deframe(Frame(flags, d) + tail, BUFFER_SIZE);
    MirroredPayload(payload, r.out);
    ReverseAllCut(r.out, outMax);
  }

  lemma ReverseAllCut(s: seq<bv8>, n: nat)
    ensures |s| > n ==> ReverseAll(s[..n]) == ReverseAll(s)[..n]
  {
  }

  lemma FrameIsLongEnough(flags: nat, d: seq<bool>, tail: seq<bool>)
    requires flags >= 1
    ensures |Frame(flags, d) + tail| >= |d| + 16
  {
  }

  lemma FiveOnesFail(flags: nat, payload: seq<bv8>, tail: seq<bool>, framing: int, outMax: nat)
    requires flags >= 1 && (framing == 1 || framing == 3)
    requires |Frame(flags, LsbBits(payload)) + tail| % 8 == 0
    requires |Frame(flags, LsbBits(payload)) + tail| <= 8 * BUFFER_SIZE
    requires forall i :: 0 <= i < |tail| ==> !tail[i]
    requires StartsWithFiveOnes(LsbBits(payload))
    ensures Nrz2Ax25(Transmit(flags, payload, tail, framing), framing, outMax).rc == 1
  {
    hide Frame, LsbBits, Transmit, TransmitFrom, LineDecode, Deframe, ReverseAll, StartsWithFiveOnes;
    var d := LsbBits(payload);
    FrameIsLongEnough(flags, d, tail);
    LineCodesCancel(flags, payload, tail, framing);
    FiveOnesAreLost(flags, d, tail, BUFFER_SIZE);
  }

  /** With nothing but 0 bits after the closing flag, the condition on the first five bits is
      also necessary: the receiver recovers exactly the payloads that meet it. */
  lemma RecoveredIffNotFiveOnes(flags: nat, payload: seq<bv8>, tail: seq<bool>, framing: int)
    requires flags >= 1 && |payload| >= 16 && (framing == 1 || framing == 3)
    requires |Frame(flags, LsbBits(payload)) + tail| % 8 == 0
    requires |Frame(flags, LsbBits(payload)) + tail| <= 8 * BUFFER_SIZE
    requires forall i :: 0 <= i < |tail| ==> !tail[i]
    ensures Nrz2Ax25(Transmit(flags, payload, tail, framing), framing, |payload|) == Decoded(0, payload)
            <==> !StartsWithFiveOnes(LsbBits(payload))
  {
    hide Frame, LsbBits, Transmit, TransmitFrom, Nrz2Ax25, StartsWithFiveOnes;
    if StartsWithFiveOnes(LsbBits(payload)) {
      FiveOnesFail(flags, payload, tail, framing, |payload|);
    } else {
      RoundTrip(flags, payload, tail, framing, |payload|);
    }
  }

  const ALL_ONES: seq<bv8> :=
    [0xFF, 0xFF, 0xFF, 0xFF, 0xFF, 0xFF, 0xFF, 0xFF, 0xFF, 0xFF, 0xFF, 0xFF, 0xFF, 0xFF, 0xFF, 0xFF]

  lemma {:induction false} StuffedLength(d: seq<bool>, c: nat)
    ensures |Stuff(d, c)| <= 2 * |d|
    decreases |d|
  {
    if d != [] {
      StuffedLength(d[1..], if d[0] && c + 1 != 5 then c + 1 else 0);
    }
  }

  /** A concrete payload that does not survive: sixteen octets of 0xFF, padded with 0 bits. */
  lemma AllOnesPayloadIsLost(framing: int) returns (padding: seq<bool>)
    requires framing == 1 || framing == 3
    ensures |padding| < 8 && |Frame(1, LsbBits(ALL_ONES)) + padding| % 8 == 0
    ensures Nrz2Ax25(Transmit(1, ALL_ONES, padding, framing), framing, 16).rc == 1
  {
    hide Frame, LsbBits, Transmit, TransmitFrom, Nrz2Ax25, StartsWithFiveOnes;
    var frame := Frame(1, LsbBits(ALL_ONES));
    padding := seq((8 - |frame| % 8) % 8, _ => false);
    assert |frame + padding| % 8 == 0;
    OneFlagFrame(LsbBits(ALL_ONES));
    AllOnesStart();
    FiveOnesFail(1, ALL_ONES, padding, framing, 16);
  }

  lemma OneFlagFrame(d: seq<bool>)
    ensures |Frame(1, d)| <= 16 + 2 * |d|
  {
    hide Stuff;
    StuffedLength(d, 0);
  }

  lemma AllOnesStart()
    ensures StartsWithFiveOnes(LsbBits(ALL_ONES))
  {
    assert forall n :: 0 <= n < 5 ==> LsbBits(ALL_ONES)[n] == ReadBit(0xFF, n % 8 + 1);
  }

  // ------------------------------------------------------ from any start

  /** How many octets of flags the receiver may lose while it gets into step. */
  function Lost(framing: int): nat
  {
    if framing == 3 then 3 else 1
  }

  /** Behind the octets lost, what is decoded is what was sent. */
  lemma DecodedInStep(level: bool, reg: seq<bool>, flags: nat, payload: seq<bv8>, tail: seq<bool>, framing: int)
    requires |reg| == 17 && |Frame(flags, LsbBits(payload)) + tail| % 8 == 0 && (framing == 1 || framing == 3)
    ensures var sent := Frame(flags, LsbBits(payload)) + tail;
            var octets := TransmitFrom(level, reg, flags, payload, tail, framing);
            var bits := LineDecode(octets, framing);
            && |bits| == |sent| == 8 * |octets|
            && forall i :: 8 * Lost(framing) <= i < |sent| ==> bits[i] == sent[i]
  {
    hide NrzsEncode, NrzsDecode, Scramble, Descramble, FromBits, ToBits, Frame, LsbBits;
    var sent := Frame(flags, LsbBits(payload)) + tail;
    var line := NrzsEncode(level, sent);
    NrzsRoundTrip(level, sent);
    if framing == 3 {
      var air := Scramble(reg, line);
      ScrambleThenDescramble(reg, line);
      FromBitsToBits(air);
      RegisterMattersBriefly(false, level, CLEARED, reg, air);
    } else {
      FromBitsToBits(line);
      LevelMattersOnce(false, level, line, line, 1);
    }
  }

  lemma {:induction false} FlagsDrop(lost: nat, flags: nat, rest: seq<bool>)
    requires lost <= flags
    ensures (Flags(flags) + rest)[8 * lost..] == Flags(flags - lost) + rest
    decreases lost
  {
    hide Flags;
    if lost > 0 {
      FlagsDrop(lost - 1, flags - 1, rest);
      FlagsStep(flags);
      var tail := Flags(flags - 1) + rest;
      assert Flags(flags) + rest == FLAG + tail;
      assert (FLAG + tail)[8 * lost..] == tail[8 * (lost - 1)..];
    }
  }

  lemma FlagsSplit(lost: nat, flags: nat, d: seq<bool>, tail: seq<bool>)
    requires lost < flags
    ensures var sent := Frame(flags, d) + tail;
            8 * lost <= |sent| && sent[8 * lost..] == Flags(flags - lost) + (Stuff(d, 0) + (FLAG + tail))
  {
    FrameShape(flags, d, tail);
    FlagsDrop(lost, flags, Stuff(d, 0) + (FLAG + tail));
    hide Stuff, Flags, Frame;
  }

  /** The round trip from any line level and any scrambler register, with one flag to spare: for framing 1 the
      level spoils only the first bit, for framing 3 the register spoils the first eighteen, so that two flags
      suffice for the one and four for the other. */
  lemma RoundTripFromAnyStart(level: bool, reg: seq<bool>, flags: nat, payload: seq<bv8>, tail: seq<bool>,
                              framing: int, outMax: nat)
    requires |reg| == 17 && |payload| >= 16 && (framing == 1 || framing == 3) && flags > Lost(framing)
    requires |Frame(flags, LsbBits(payload)) + tail| % 8 == 0
    requires |Frame(flags, LsbBits(payload)) + tail| <= 8 * BUFFER_SIZE
    requires !StartsWithFiveOnes(LsbBits(payload))
    ensures Nrz2Ax25(TransmitFrom(level, reg, flags, payload, tail, framing), framing, outMax)
            == Decoded(0, if |payload| > outMax then payload[..outMax] else payload)
  {
    hide Frame, LsbBits, TransmitFrom, LineDecode, Deframe, ReverseAll, IsStream, StartsWithFiveOnes, Stuff, Flags;
    var d, lost := LsbBits(payload), 8 * Lost(framing);
    var octets := TransmitFrom(level, reg, flags, payload, tail, framing);
    var bits, sent := LineDecode(octets, framing), Frame(flags, d) + tail;
    FrameIsLongEnough(flags, d, tail);
    DecodedInStep(level, reg, flags, payload, tail, framing);
    FlagsSplit(Lost(framing), flags, d, tail);
    assert bits[lost..] == sent[lost..];
    assert bits == bits[..lost] + bits[lost..];
    ShortNoiseIsNoFrame(bits[..lost], BUFFER_SIZE);
    FrameAfterNoise(bits[..lost], flags - Lost(framing), d, tail, BUFFER_SIZE);
    var r := Deframe(bits, BUFFER_SIZE);
    MirroredPayload(payload, r.out);
    ReverseAllCut(r.out, outMax);
  }

  // ------------------------------------------------------ the converse

  lemma MirroredOctets(d: seq<bool>, out: seq<bv8>)
    requires IsStream(d, out)
    ensures LsbBits(ReverseAll(out)) == d
  {
    hide ReadBit;
    var p := ReverseAll(out);
    forall n | 0 <= n < |d|
      ensures LsbBits(p)[n] == d[n]
    {
      assert LsbBits(p)[n] == ReadBit(Reversed(out[n / 8]), n % 8 + 1);
    }
  }

  /** The converse of the round trip, in the receiver's terms: whenever 0 is returned and the decoded stream
      holds no abort sequence up to the closing flag at `p`, the octets are those of a payload that stands, in
      the receiver's stuffing, between the octet after an opening flag and that flag. */
  lemma ReceivedWasFramed(received: seq<bv8>, framing: int, outMax: nat, p: nat)
    returns (e: nat, payload: seq<bv8>)
    requires Nrz2Ax25(received, framing, outMax).rc == 0 && |LineDecode(received, framing)| >= 2
    requires ClosedAt(LineDecode(received, framing), p, BUFFER_SIZE) && NoAbort(LineDecode(received, framing)[..p + 8])
    ensures FramedAs(LineDecode(received, framing), e, LsbBits(payload), p) && |payload| >= 16
    ensures Nrz2Ax25(received, framing, outMax).octets == if |payload| > outMax then payload[..outMax] else payload
  {
    hide LineDecode, Deframe, ReverseAll, LsbBits, IsStream, NoAbort, FramedAs;
    var bits := LineDecode(received, framing);
    var d;
    e, d := AcceptedIsFramed(bits, p, BUFFER_SIZE);
    var q := AcceptedOnlyAtFlag(bits, BUFFER_SIZE);
    var out := Deframe(bits, BUFFER_SIZE).out;
    payload := ReverseAll(out);
    MirroredOctets(d, out);
    ReverseAllCut(out, outMax);
  }

  /** The converse against AX.25: if 0 is returned and the decoded stream carries a frame with the data `x`
      between a flag that ends at `o` and the closing flag, and no abort before, then the octets returned are
      `x`, all of it and nothing else, if and only if the opening flag ends with an octet and `x` does not
      start with five 1 bits. */
  lemma ReceivedAsSentIff(received: seq<bv8>, framing: int, outMax: nat, p: nat, o: nat, x: seq<bool>)
    requires Nrz2Ax25(received, framing, outMax).rc == 0 && |LineDecode(received, framing)| >= 2
    requires ClosedAt(LineDecode(received, framing), p, BUFFER_SIZE) && NoAbort(LineDecode(received, framing)[..p + 8])
    requires Sent(LineDecode(received, framing), o, x, p) && outMax >= BUFFER_SIZE
    ensures LsbBits(Nrz2Ax25(received, framing, outMax).octets) == x <==> o % 8 == 7 && !StartsWithFiveOnes(x)
  {
    hide LineDecode, Deframe, ReverseAll, LsbBits, NoAbort, Sent, ToBits, StartsWithFiveOnes;
    var bits := LineDecode(received, framing);
    ReturnedAsSentIff(bits, p, o, x, BUFFER_SIZE);
    var out := Deframe(bits, BUFFER_SIZE).out;
    MirroredOctets(ToBits(out), out);
  }

  /** Any other framing, and anything shorter than sixteen octets or longer than the buffers, is refused with
      nothing returned. */
  lemma Refused(received: seq<bv8>, framing: int, outMax: nat)
    requires (framing != 1 && framing != 3) || |received| < 16 || |received| > 512
    ensures Nrz2Ax25(received, framing, outMax) == Decoded(1, [])
  {
  }

  /** For every input: success implies at least sixteen octets before the cut to `outMax`, and a closing
      flag in the decoded stream, the only one that ends a frame, at an octet boundary of the frame. */
  lemma SuccessNeedsFlag(received: seq<bv8>, framing: int, outMax: nat) returns (p: nat)
    requires Nrz2Ax25(received, framing, outMax).rc == 0
    ensures var bits := LineDecode(received, framing);
            && |bits| >= 2 && ClosedAt(bits, p, BUFFER_SIZE)
            && Deframe(bits[..p + 8], BUFFER_SIZE).k == 2
            && |Deframe(bits[..p + 8], BUFFER_SIZE).out| >= 16
    ensures outMax >= 16 ==> |Nrz2Ax25(received, framing, outMax).octets| >= 16
  {
    hide Deframe, LineDecode, ReverseAll, ClosedAt;
    p := AcceptedOnlyAtFlag(LineDecode(received, framing), BUFFER_SIZE);
    assert Deframe(LineDecode(received, framing)[..p + 8], BUFFER_SIZE)
        == Deframe(LineDecode(received, framing), BUFFER_SIZE) by {
      ClosedMeans(LineDecode(received, framing), p);
    }
  }

  lemma ClosedMeans(bits: seq<bool>, p: nat)
    requires |bits| >= 2 && ClosedAt(bits, p, BUFFER_SIZE)
    ensures p + 8 <= |bits| && Deframe(bits[..p + 8], BUFFER_SIZE) == Deframe(bits, BUFFER_SIZE)
  {
    hide Deframe;
  }
}
