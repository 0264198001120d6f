/** Octets and bit streams, shared by the frame decoders of src/bitcode.c.

    A position inside an octet is numbered as the source numbers it: 1 is the least
    significant bit, 8 the most significant.  A stream of octets is read as a stream of
    bits, most significant bit first, because that is the order in which every loop of
    the decoder visits it. */
module Bits {

  /** The weight of a bit position: `1 << (pos - 1)`. */
  function Mask(pos: int): bv8
    requires 1 <= pos <= 8
  {
    if pos == 1 then 1 else if pos == 2 then 2 else if pos == 3 then 4 else if pos == 4 then 8
    else if pos == 5 then 16 else if pos == 6 then 32 else if pos == 7 then 64 else 128
  }

  /** `read_bit`: the bit of `b` at position `pos`. */
  predicate ReadBit(b: bv8, pos: int)
    requires 1 <= pos <= 8
  {
    b & Mask(pos) != 0
  }

  /** `write_bit_byte`: set or clear one position. */
  function WriteBit(b: bv8, pos: int, v: bool): bv8
    requires 1 <= pos <= 8
  {
    if v then b | Mask(pos) else b & !Mask(pos)
  }

  /** Writing a position sets that position and leaves the seven others alone. */
  lemma WriteThenRead(b: bv8, pos: int, v: bool, q: int)
    requires 1 <= pos <= 8 && 1 <= q <= 8
    ensures ReadBit(WriteBit(b, pos, v), q) == if q == pos then v else ReadBit(b, q)
  {
    hide Mask;
    MasksAreDisjoint(b, Mask(pos), Mask(q));
    MasksMeet(pos, q);
  }

  lemma MasksMeet(pos: int, q: int)
    requires 1 <= pos <= 8 && 1 <= q <= 8
    ensures Mask(pos) & Mask(q) == 0 <==> pos != q
    ensures Mask(pos) != 0
  {
  }

  /** `b` carries `bits` in its top positions, first bit highest. */
  ghost predicate Written(b: bv8, bits: seq<bool>)
    requires |bits| <= 8
  {
    forall pos :: 8 - |bits| < pos <= 8 ==> ReadBit(b, pos) == bits[8 - pos]
  }

  lemma NothingWritten(b: bv8)
    ensures Written(b, [])
  {
  }

  /** As `Written`, and the positions still to come are 0: then a loop that only sets bits
      need not clear them. */
  ghost predicate WrittenOnZero(b: bv8, bits: seq<bool>)
    requires |bits| <= 8
  {
    Written(b, bits) && forall pos :: 1 <= pos <= 8 - |bits| ==> !ReadBit(b, pos)
  }

  lemma NothingWrittenOnZero()
    ensures WrittenOnZero(0, [])
  {
    forall pos | 1 <= pos <= 8 ensures !ReadBit(0, pos) { ZeroIsClear(pos); }
  }

  lemma ForgetZeros(b: bv8, bits: seq<bool>)
    requires |bits| <= 8 && WrittenOnZero(b, bits)
    ensures Written(b, bits)
  {
  }

  lemma SetNext(b: bv8, bits: seq<bool>, v: bool)
    requires |bits| < 8 && WrittenOnZero(b, bits)
    ensures WrittenOnZero(if v then WriteBit(b, 8 - |bits|, true) else b, bits + [v])
  {
    hide ReadBit, WriteBit;
    var k := 8 - |bits|;
    WriteNext(b, bits, v);
    if v {
      forall pos | 1 <= pos <= k - 1
        ensures !ReadBit(WriteBit(b, k, true), pos)
      {
        WriteThenRead(b, k, true, pos);
      }
    } else {
      WriteClear(b, k);
    }
  }

  lemma WriteNext(b: bv8, bits: seq<bool>, v: bool)
    requires |bits| < 8 && Written(b, bits)
    ensures Written(WriteBit(b, 8 - |bits|, v), bits + [v])
  {
    hide ReadBit, WriteBit;
    var k := 8 - |bits|;
    forall pos | k - 1 < pos <= 8
      ensures ReadBit(WriteBit(b, k, v), pos) == (bits + [v])[8 - pos]
    {
      WriteThenRead(b, k, v, pos);
    }
  }

  lemma FullyWritten(b: bv8, bits: seq<bool>)
    requires |bits| == 8 && Written(b, bits)
    ensures MsbFirst(b) == bits
  {
    hide ReadBit;
    forall n | 0 <= n < 8
      ensures MsbFirst(b)[n] == bits[n]
    {
      MsbFirstAt(b, 8 - n);
      assert ReadBit(b, 8 - n) == bits[8 - (8 - n)];
    }
  }

  lemma ZeroIsClear(pos: int)
    requires 1 <= pos <= 8
    ensures !ReadBit(0, pos)
  {
  }

  /** Clearing a clear position changes nothing. */
  lemma WriteClear(b: bv8, pos: int)
    requires 1 <= pos <= 8 && !ReadBit(b, pos)
    ensures WriteBit(b, pos, false) == b
  {
  }

  lemma MasksAreDisjoint(b: bv8, m: bv8, n: bv8)
    ensures m & n == 0 ==> (b | m) & n == b & n && (b & !m) & n == b & n
    ensures m != 0 ==> (b | m) & m != 0
    ensures (b & !m) & m == 0
  {
  }

  /** Two octets that agree at every position are the same octet. */
  lemma OctetIsItsBits(a: bv8, b: bv8)
    requires forall pos :: 1 <= pos <= 8 ==> ReadBit(a, pos) == ReadBit(b, pos)
    ensures a == b
  {
    assert ReadBit(a, 1) == ReadBit(b, 1) && ReadBit(a, 2) == ReadBit(b, 2);
    assert ReadBit(a, 3) == ReadBit(b, 3) && ReadBit(a, 4) == ReadBit(b, 4);
    assert ReadBit(a, 5) == ReadBit(b, 5) && ReadBit(a, 6) == ReadBit(b, 6);
    assert ReadBit(a, 7) == ReadBit(b, 7) && ReadBit(a, 8) == ReadBit(b, 8);
  }

  /** Bit `n` of a stream of octets, most significant bit of each octet first. */
  predicate StreamBit(s: seq<bv8>, n: nat)
    requires n < 8 * |s|
  {
    ReadBit(s[n / 8], 8 - n % 8)
  }

  function ToBits(s: seq<bv8>): (bits: seq<bool>)
    ensures |bits| == 8 * |s|
  {
    seq(8 * |s|, n requires 0 <= n < 8 * |s| => StreamBit(s, n))
  }

  /** 0 bits only. */
  function Zeros(n: nat): (s: seq<bool>)
    ensures |s| == n && forall k :: 0 <= k < n ==> !s[k]
  {
    seq(n, _ => false)
  }

  /** The eight bits of one octet, least significant first: the order in which AX.25
      transmits an octet (section 3.8 of AX.25 version 2.2). */
  function LsbFirst(b: bv8): (bits: seq<bool>)
    ensures |bits| == 8
  {
    [ReadBit(b, 1), ReadBit(b, 2), ReadBit(b, 3), ReadBit(b, 4),
     ReadBit(b, 5), ReadBit(b, 6), ReadBit(b, 7), ReadBit(b, 8)]
  }

  /** The eight bits of one octet, most significant first: the order of the decoder's loops. */
  function MsbFirst(b: bv8): (bits: seq<bool>)
    ensures |bits| == 8
  {
    [ReadBit(b, 8), ReadBit(b, 7), ReadBit(b, 6), ReadBit(b, 5),
     ReadBit(b, 4), ReadBit(b, 3), ReadBit(b, 2), ReadBit(b, 1)]
  }

  lemma MsbFirstAt(b: bv8, pos: int)
    requires 1 <= pos <= 8
    ensures MsbFirst(b)[8 - pos] == ReadBit(b, pos)
  {
  }

  lemma AppendOctet(s: seq<bv8>, b: bv8)
    ensures ToBits(s + [b]) == ToBits(s) + MsbFirst(b)
  {
    hide ReadBit;
    forall n | 0 <= n < 8 * |s| + 8
      ensures ToBits(s + [b])[n] == (ToBits(s) + MsbFirst(b))[n]
    {
      if n >= 8 * |s| {
        assert n / 8 == |s| && n % 8 == n - 8 * |s|;
        MsbFirstAt(b, 8 - n % 8);
      }
    }
  }

  /** What a position weighs, if it is set. */
  function Weight(b: bv8, pos: int, power: nat): nat
    requires 1 <= pos <= 8
  {
    if ReadBit(b, pos) then power else 0
  }

  /** The octet as a number: position 1 weighs 1, position 8 weighs 128. */
  lemma OctetValue(b: bv8)
    ensures b as int == Weight(b, 8, 128) + Weight(b, 7, 64) + Weight(b, 6, 32) + Weight(b, 5, 16)
                      + Weight(b, 4, 8) + Weight(b, 3, 4) + Weight(b, 2, 2) + Weight(b, 1, 1)
  {
  }

  /** Xor works position by position. */
  lemma XorBits(x: bv8, y: bv8, pos: nat)
    requires 1 <= pos <= 8
    ensures ReadBit(x ^ y, pos) == (ReadBit(x, pos) != ReadBit(y, pos))
  {
    if
    case pos == 1 => case pos == 2 => case pos == 3 => case pos == 4 =>
    case pos == 5 => case pos == 6 => case pos == 7 => case pos == 8 =>
  }

  /** A stream of octets cut into bits is the stream itself: equal bits, equal octets. */
  lemma StreamIsItsBits(a: seq<bv8>, b: seq<bv8>)
    requires ToBits(a) == ToBits(b)
    ensures a == b
  {
    assert |ToBits(a)| == |ToBits(b)|;
    forall i | 0 <= i < |a|
      ensures a[i] == b[i]
    {
      forall pos | 1 <= pos <= 8
        ensures ReadBit(a[i], pos) == ReadBit(b[i], pos)
      {
        var n := 8 * i + 8 - pos;
        assert n / 8 == i && n % 8 == 8 - pos;
        assert ToBits(a)[n] == ToBits(b)[n];
      }
      OctetIsItsBits(a[i], b[i]);
    }
  }

  /** Eight bits packed most significant first. */
  function PackOctet(bits: seq<bool>): (b: bv8)
    requires |bits| == 8
    ensures forall pos :: 1 <= pos <= 8 ==> ReadBit(b, pos) == bits[8 - pos]
  {
    var b7 := WriteBit(0, 8, bits[0]);
    var b6 := WriteBit(b7, 7, bits[1]);
    var b5 := WriteBit(b6, 6, bits[2]);
    var b4 := WriteBit(b5, 5, bits[3]);
    var b3 := WriteBit(b4, 4, bits[4]);
    var b2 := WriteBit(b3, 3, bits[5]);
    var b1 := WriteBit(b2, 2, bits[6]);
    WriteBit(b1, 1, bits[7])
  }

  /** The octets that carry a bit stream of whole octets. */
  function FromBits(bits: seq<bool>): (s: seq<bv8>)
    requires |bits| % 8 == 0
    ensures |s| == |bits| / 8
  {
    if bits == [] then [] else [PackOctet(bits[..8])] + FromBits(bits[8..])
  }

  lemma {:induction false} FromBitsAt(bits: seq<bool>, n: nat)
    requires |bits| % 8 == 0 && n < |bits|
    ensures StreamBit(FromBits(bits), n) == bits[n]
  {
    if n < 8 {
    } else {
      FromBitsAt(bits[8..], n - 8);
      NextOctet(n);
    }
  }

  lemma NextOctet(n: nat)
    requires 8 <= n
    ensures (n - 8) / 8 == n / 8 - 1 && (n - 8) % 8 == n % 8
  {
  }

  lemma FromBitsToBits(bits: seq<bool>)
    requires |bits| % 8 == 0
    ensures ToBits(FromBits(bits)) == bits
  {
    var s := FromBits(bits);
    forall n | 0 <= n < |bits|
      ensures ToBits(s)[n] == bits[n]
    {
      FromBitsAt(bits, n);
    }
  }

  /** `bitcode_reverse_byte`: position `p` of the result is position `9 - p` of `b`. */
  method ReverseByte(b: bv8) returns (r: bv8)
    ensures r == Reversed(b)
  {
    r := 0;
    var i := 1;
    while i <= 8
      invariant 1 <= i <= 9
      invariant r == ReversedPrefix(b, i - 1)
    {
      r := (r << 1) | (if ReadBit(b, i) then 1 else 0);
      i := i + 1;
    }
    ReversalIsMirror(b);
  }

  function ReversedPrefix(b: bv8, n: nat): bv8
    requires n <= 8
  {
    if n == 0 then 0
    else (ReversedPrefix(b, n - 1) << 1) | (if ReadBit(b, n) then 1 else 0)
  }

  function Reversed(b: bv8): (r: bv8)
    ensures forall pos :: 1 <= pos <= 8 ==> ReadBit(r, pos) == ReadBit(b, 9 - pos)
  {
    PackOctet(LsbFirst(b))
  }

  lemma ReversalIsMirror(b: bv8)
    ensures ReversedPrefix(b, 8) == Reversed(b)
  {
    ghost var p1 := ReversedPrefix(b, 1);
    ghost var p2 := ReversedPrefix(b, 2);
    ghost var p3 := ReversedPrefix(b, 3);
    ghost var p4 := ReversedPrefix(b, 4);
    ghost var p5 := ReversedPrefix(b, 5);
    ghost var p6 := ReversedPrefix(b, 6);
    ghost var p7 := ReversedPrefix(b, 7);
    assert ReversedPrefix(b, 0) == 0;
    assert p1 == if ReadBit(b, 1) then 1 else 0;
  }

  lemma ReversalIsInvolutive(b: bv8)
    ensures Reversed(Reversed(b)) == b
  {
    OctetIsItsBits(Reversed(Reversed(b)), b);
  }
}
