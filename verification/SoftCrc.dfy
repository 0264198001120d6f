/** The software CRC of `lora_check_rx`, src/main.cpp. */
module SoftCrc {
  import opened Bits

  /** The `sw_crc_*` fields of the radio configuration. */
  datatype Config = Config(bytes: nat, init: bv16, poly: bv16, xorOut: bv16, refIn: bool, refOut: bool)

  /** What the server may configure: at least one CRC octet, and no output reflection wider than
      the 32-bit word it is done in. */
  predicate Usable(c: Config)
  {
    c.bytes > 0 && (c.refOut ==> c.bytes <= 4)
  }

  /** `^` on words, under a name of its own so that proofs can treat it as the group operation it is. */
  function Mix(a: bv16, b: bv16): bv16
  {
    a ^ b
  }

  predicate TopSet(crc: bv16)
  {
    crc & 0x8000 != 0
  }

  function Twice(crc: bv16): bv16
  {
    crc << 1
  }

  /** One turn of the two-octet inner loop. */
  function Shift16(crc: bv16, poly: bv16): bv16
  {
    if TopSet(crc) then Mix(Twice(crc), poly) else Twice(crc)
  }

  /** One turn of the other inner loop: the test is on bit 7, the register is still 16 bits wide. */
  function ShiftLow(crc: bv16, poly: bv16): bv16
  {
    if crc & 0x80 != 0 then Mix(crc << 1, poly) else crc << 1
  }

  function Shifts(n: nat, crc: bv16, poly: bv16, wide: bool): bv16
    decreases n
  {
    if n == 0 then crc
    else Shifts(n - 1, if wide then Shift16(crc, poly) else ShiftLow(crc, poly), poly, wide)
  }

  /** One octet of the outer loop. */
  function Feed(crc: bv16, b: bv8, poly: bv16, wide: bool): bv16
  {
    Shifts(8, Mix(crc, if wide then (b as bv16) << 8 else b as bv16), poly, wide)
  }

  function Register(crc: bv16, data: seq<bv8>, poly: bv16, wide: bool): bv16
    decreases |data|
  {
    if data == [] then crc
    else Feed(Register(crc, data[..|data| - 1], poly, wide), data[|data| - 1], poly, wide)
  }

  function Reflect(b: bv8, refIn: bool): bv8
  {
    if refIn then Reversed(b) else b
  }

  function ReflectAll(s: seq<bv8>, refIn: bool): (r: seq<bv8>)
    ensures |r| == |s|
  {
    seq(|s|, i requires 0 <= i < |s| => Reflect(s[i], refIn))
  }

  /** `__RBIT`: all 32 bits in reverse. */
  function Rbit(v: bv32): bv32
  {
    var a := ((v >> 1) & 0x5555_5555) | ((v & 0x5555_5555) << 1);
    var b := ((a >> 2) & 0x3333_3333) | ((a & 0x3333_3333) << 2);
    var c := ((b >> 4) & 0x0F0F_0F0F) | ((b & 0x0F0F_0F0F) << 4);
    var d := ((c >> 8) & 0x00FF_00FF) | ((c & 0x00FF_00FF) << 8);
    (d >> 16) | (d << 16)
  }

  /** `__RBIT(crc) >> (32 - 8 * bytes)`, cut to sixteen bits. */
  function ReflectOut(crc: bv16, bytes: nat): bv16
    requires 1 <= bytes <= 4
  {
    var r := Rbit(crc as bv32);
    var shifted := if bytes == 1 then r >> 24 else if bytes == 2 then r >> 16 else if bytes == 3 then r >> 8 else r;
    (shifted & 0xFFFF) as bv16
  }

  /** Final xor, reflection and mask. */
  function Finish(crc: bv16, xorOut: bv16, refOut: bool, bytes: nat): bv16
    requires refOut ==> 1 <= bytes <= 4
  {
    var x := Mix(crc, xorOut);
    (if refOut then ReflectOut(x, bytes) else x) & (if bytes == 1 then 0xFF else 0xFFFF)
  }

  function Word(hi: bv8, lo: bv8): bv16
  {
    ((hi as bv16) << 8) | (lo as bv16)
  }

  /** The CRC word at the end of a packet. */
  function Tail(packet: seq<bv8>, c: Config): bv16
    requires |packet| > c.bytes > 0
  {
    if c.bytes == 1 then Reflect(packet[|packet| - 1], c.refIn) as bv16
    else Word(Reflect(packet[|packet| - 2], c.refIn), Reflect(packet[|packet| - 1], c.refIn))
  }

  /** Is the packet taken?  Packets no longer than the CRC itself are not checked. */
  predicate Accepts(packet: seq<bv8>, c: Config)
    requires Usable(c)
  {
    |packet| <= c.bytes ||
    Finish(Register(c.init, ReflectAll(packet[..|packet| - c.bytes], c.refIn), c.poly, c.bytes == 2),
           c.xorOut, c.refOut, c.bytes)
      == Tail(packet, c)
  }

  method CheckCrc(data: array<bv8>, len: nat, c: Config) returns (swCrcFail: bool)
    requires len <= data.Length && Usable(c)
    ensures swCrcFail == !Accepts(data[..len], c)
  {
    hide Feed, Finish, Reflect;
    ghost var packet := data[..len];
    swCrcFail := false;
    if len > c.bytes {
      var dataLen := len - c.bytes;
      var crc := c.init;
      var i := 0;
      while i < dataLen
        invariant 0 <= i <= dataLen
        invariant crc == Register(c.init, ReflectAll(packet[..i], c.refIn), c.poly, c.bytes == 2)
      {
        var b := if c.refIn then Reversed(data[i]) else data[i];
        assert b == Reflect(packet[i], c.refIn) by { ReflectCases(packet[i], c.refIn); }
        ReflectAppend(packet[..i], packet[i], c.refIn);
        assert packet[..i + 1] == packet[..i] + [packet[i]];
        RegisterAppend(c.init, ReflectAll(packet[..i], c.refIn), b, c.poly, c.bytes == 2);
        crc := FeedOctet(crc, b, c.poly, c.bytes);
        i := i + 1;
      }
      crc := Finish(crc, c.xorOut, c.refOut, c.bytes);
      var pktCrc := Tail(data[..len], c);
      if crc != pktCrc {
        swCrcFail := true;
      }
    }
  }

  lemma ReflectCases(b: bv8, refIn: bool)
    ensures Reflect(b, refIn) == if refIn then Reversed(b) else b
  {
  }

  lemma ReflectAppend(s: seq<bv8>, b: bv8, refIn: bool)
    ensures ReflectAll(s + [b], refIn) == ReflectAll(s, refIn) + [Reflect(b, refIn)]
  {
  }

  lemma RegisterAppend(crc: bv16, s: seq<bv8>, b: bv8, poly: bv16, wide: bool)
    ensures Register(crc, s + [b], poly, wide) == Feed(Register(crc, s, poly, wide), b, poly, wide)
  {
    assert (s + [b])[..|s|] == s;
  }

  /** The body of the loop over octets. */
  method FeedOctet(crc0: bv16, b: bv8, poly: bv16, bytes: nat) returns (crc: bv16)
    ensures crc == Feed(crc0, b, poly, bytes == 2)
  {
    hide Shift16, ShiftLow;
    crc := crc0;
    if bytes == 2 {
      crc := Mix(crc, (b as bv16) << 8);
      var j := 0;
      while j < 8
        invariant 0 <= j <= 8 && Shifts(8 - j, crc, poly, true) == Feed(crc0, b, poly, true)
      {
        crc := Shift16(crc, poly);
        j := j + 1;
      }
    } else {
      crc := Mix(crc, b as bv16);
      var j := 0;
      while j < 8
        invariant 0 <= j <= 8 && Shifts(8 - j, crc, poly, false) == Feed(crc0, b, poly, false)
      {
        crc := ShiftLow(crc, poly);
        j := j + 1;
      }
    }
  }

  // ------------------------------------------------------ the two-octet CRC, bit by bit

  /** One bit in front of a word. */
  function Join(bit: bool, p: bv16): bv16
  {
    if bit then 0x8000 | (p >> 1) else p >> 1
  }

  predicate Even(p: bv16)
  {
    p & 1 == 0
  }

  function Top(r: bv16, bit: bool): bv16
  {
    if bit then Mix(r, 0x8000) else r
  }

  /** One message bit entering at the top of the register. */
  function BitIn(r: bv16, bit: bool, poly: bv16): bv16
  {
    Shift16(Top(r, bit), poly)
  }

  function Serial(r: bv16, bits: seq<bool>, poly: bv16): bv16
    decreases |bits|
  {
    if bits == [] then r else Serial(BitIn(r, bits[0], poly), bits[1..], poly)
  }

  /** At most sixteen bits, first one highest. */
  function Pack(bits: seq<bool>): bv16
    decreases |bits|
  {
    if bits == [] then 0 else Join(bits[0], Pack(bits[1..]))
  }

  /** `x` has only its `k` highest positions in use. */
  predicate TopOnly(x: bv16, k: nat)
  {
    x & (if k == 0 then 0xFFFF else if k == 1 then 0x7FFF else if k == 2 then 0x3FFF else if k == 3 then 0x1FFF
         else if k == 4 then 0x0FFF else if k == 5 then 0x07FF else if k == 6 then 0x03FF else if k == 7 then 0x01FF
         else if k == 8 then 0x00FF else if k == 9 then 0x007F else if k == 10 then 0x003F else if k == 11 then 0x001F
         else if k == 12 then 0x000F else if k == 13 then 0x0007 else if k == 14 then 0x0003 else if k == 15 then 0x0001
         else 0) == 0
  }

  lemma JoinTopOnly(bit: bool, p: bv16, k: nat)
    requires k <= 15 && TopOnly(p, k)
    ensures TopOnly(Join(bit, p), k + 1) && Even(p)
  {
    if
    case k == 0 => case k == 1 => case k == 2 => case k == 3 => case k == 4 => case k == 5 =>
    case k == 6 => case k == 7 => case k == 8 => case k == 9 => case k == 10 => case k == 11 =>
    case k == 12 => case k == 13 => case k == 14 => case k == 15 =>
  }

  lemma ZeroTopOnly()
    ensures TopOnly(0, 0)
  {
  }

  lemma {:induction false} PackTopOnly(bits: seq<bool>)
    requires |bits| <= 16
    ensures TopOnly(Pack(bits), |bits|)
    decreases |bits|
  {
    hide TopOnly, Join;
    if bits == [] {
      ZeroTopOnly();
    } else {
      PackTopOnly(bits[1..]);
      JoinTopOnly(bits[0], Pack(bits[1..]), |bits| - 1);
    }
  }

  lemma PackEven(bits: seq<bool>)
    requires |bits| <= 15
    ensures Even(Pack(bits))
  {
    PackTopOnly(bits);
    JoinTopOnly(false, Pack(bits), |bits|);
  }

  /** Sixteen bits are determined by their pack. */
  lemma {:induction false} PackInjective(a: seq<bool>, b: seq<bool>)
    requires |a| == |b| <= 16 && Pack(a) == Pack(b)
    ensures a == b
    decreases |a|
  {
    hide Join, Even;
    if a != [] {
      PackEven(a[1..]);
      PackEven(b[1..]);
      JoinInjective(Pack(a[1..]), Pack(b[1..]), a[0], b[0]);
      PackInjective(a[1..], b[1..]);
      assert a == [a[0]] + a[1..] && b == [b[0]] + b[1..];
    }
  }

  lemma JoinInjective(p: bv16, q: bv16, a: bool, b: bool)
    requires Even(p) && Even(q) && Join(a, p) == Join(b, q)
    ensures a == b && p == q
  {
  }

  /** Feeding up to sixteen bits one by one is xoring them in at once and shifting. */
  lemma {:induction false} SerialIsShifts(r: bv16, bits: seq<bool>, poly: bv16)
    requires |bits| <= 16
    ensures Serial(r, bits, poly) == Shifts(|bits|, Mix(r, Pack(bits)), poly, true)
    decreases |bits|
  {
    hide Join, Even, Mix, BitIn, Shift16;
    if bits == [] {
      MixZero(r);
    } else {
      var rest := bits[1..];
      PackEven(rest);
      SerialIsShifts(BitIn(r, bits[0], poly), rest, poly);
      TopBitAlone(r, bits[0], Pack(rest), poly);
    }
  }

  // The laws of xor.

  lemma MixZero(a: bv16)
    ensures Mix(a, 0) == a
  {
  }

  lemma MixSwaps(a: bv16, b: bv16)
    ensures Mix(a, b) == Mix(b, a)
  {
  }

  lemma MixRegroups(a: bv16, b: bv16, c: bv16)
    ensures Mix(Mix(a, b), c) == Mix(a, Mix(b, c))
  {
  }

  lemma MixUndoes(a: bv16, b: bv16)
    ensures Mix(a, Mix(a, b)) == b
  {
  }

  lemma MixCancels(a: bv16, x: bv16, y: bv16)
    requires Mix(a, x) == Mix(a, y)
    ensures x == y
  {
    hide Mix;
    MixUndoes(a, x);
    MixUndoes(a, y);
  }

  /** An equation between words can be solved for any of its three terms. */
  lemma MixSolves(v: bv16, x: bv16, w: bv16)
    ensures Mix(v, x) == w <==> Mix(v, w) == x
  {
    hide Mix;
    MixUndoes(v, x);
    MixUndoes(v, w);
  }

  lemma TopBitAlone(r: bv16, bit: bool, p: bv16, poly: bv16)
    requires Even(p)
    ensures Shift16(Mix(r, Join(bit, p)), poly) == Mix(BitIn(r, bit, poly), p)
  {
    hide Mix, Join, Top, Even, Twice, TopSet;
    JoinSplits(r, bit, p);
    ShiftMixed(Top(r, bit), p);
    var t := Twice(Top(r, bit));
    MixRegroups(t, p, poly);
    MixSwaps(p, poly);
    MixRegroups(t, poly, p);
  }

  lemma JoinSplits(r: bv16, bit: bool, p: bv16)
    ensures Mix(r, Join(bit, p)) == Mix(Top(r, bit), p >> 1)
  {
    JoinIsMix(bit, p);
    hide Mix, Join;
    MixRegroups(r, 0x8000, p >> 1);
  }

  lemma JoinIsMix(bit: bool, p: bv16)
    ensures Join(bit, p) == if bit then Mix(0x8000, p >> 1) else p >> 1
  {
  }

  lemma TwiceMix(a: bv16, b: bv16)
    ensures Twice(Mix(a, b)) == Mix(Twice(a), Twice(b))
  {
  }

  lemma TwiceHalf(p: bv16)
    requires Even(p)
    ensures Twice(p >> 1) == p
  {
  }

  lemma TopOfMix(t: bv16, p: bv16)
    ensures TopSet(Mix(t, p >> 1)) == TopSet(t)
  {
  }

  lemma ShiftMixed(t: bv16, p: bv16)
    requires Even(p)
    ensures Twice(Mix(t, p >> 1)) == Mix(Twice(t), p)
    ensures TopSet(Mix(t, p >> 1)) == TopSet(t)
  {
    TwiceMix(t, p >> 1);
    TwiceHalf(p);
    TopOfMix(t, p);
    hide Mix, Twice, TopSet, Even;
  }

  lemma {:induction false} SerialConcat(r: bv16, a: seq<bool>, b: seq<bool>, poly: bv16)
    ensures Serial(r, a + b, poly) == Serial(Serial(r, a, poly), b, poly)
    decreases |a|
  {
    hide BitIn;
    if a == [] {
      assert a + b == b;
    } else {
      assert (a + b)[1..] == a[1..] + b;
      SerialConcat(BitIn(r, a[0], poly), a[1..], b, poly);
    }
  }

  lemma PackStep(s: seq<bool>, i: nat)
    requires i < |s|
    ensures Pack(s[i..]) == Join(s[i], Pack(s[i + 1..]))
  {
    assert s[i..][1..] == s[i + 1..];
  }

  /** An octet in front of a word. */
  function InFront(b: bv8, p: bv16): bv16
  {
    ((b as bv16) << 8) | (p >> 8)
  }

  lemma Joined8(b: bv8, q: bv16)
    ensures Join(ReadBit(b, 8), Join(ReadBit(b, 7), q)) == (((b & 0xC0) as bv16) << 8) | (q >> 2)
  {
    if b & 0x80 != 0 {
      if b & 0x40 != 0 { assert b & 0xC0 == 0xC0; } else { assert b & 0xC0 == 0x80; }
    } else {
      if b & 0x40 != 0 { assert b & 0xC0 == 0x40; } else { assert b & 0xC0 == 0; }
    }
  }

  lemma Joined6(b: bv8, q: bv16)
    ensures Join(ReadBit(b, 6), Join(ReadBit(b, 5), q)) == (((b & 0x30) as bv16) << 10) | (q >> 2)
  {
    if b & 0x20 != 0 {
      if b & 0x10 != 0 { assert b & 0x30 == 0x30; } else { assert b & 0x30 == 0x20; }
    } else {
      if b & 0x10 != 0 { assert b & 0x30 == 0x10; } else { assert b & 0x30 == 0; }
    }
  }

  lemma Joined4(b: bv8, q: bv16)
    ensures Join(ReadBit(b, 4), Join(ReadBit(b, 3), q)) == (((b & 0x0C) as bv16) << 12) | (q >> 2)
  {
    if b & 0x08 != 0 {
      if b & 0x04 != 0 { assert b & 0x0C == 0x0C; } else { assert b & 0x0C == 0x08; }
    } else {
      if b & 0x04 != 0 { assert b & 0x0C == 0x04; } else { assert b & 0x0C == 0; }
    }
  }

  lemma Joined2(b: bv8, q: bv16)
    ensures Join(ReadBit(b, 2), Join(ReadBit(b, 1), q)) == (((b & 0x03) as bv16) << 14) | (q >> 2)
  {
    if b & 0x02 != 0 {
      if b & 0x01 != 0 { assert b & 0x03 == 0x03; } else { assert b & 0x03 == 0x02; }
    } else {
      if b & 0x01 != 0 { assert b & 0x03 == 0x01; } else { assert b & 0x03 == 0; }
    }
  }

  lemma PairsMakeOctet(b: bv8, p: bv16)
    ensures var q2 := (((b & 0x03) as bv16) << 14) | (p >> 2);
            var q4 := (((b & 0x0C) as bv16) << 12) | (q2 >> 2);
            var q6 := (((b & 0x30) as bv16) << 10) | (q4 >> 2);
            (((b & 0xC0) as bv16) << 8) | (q6 >> 2) == InFront(b, p)
  {
  }

  lemma OctetIsJoinedBits(b: bv8, p: bv16)
    ensures Join(ReadBit(b, 8), Join(ReadBit(b, 7), Join(ReadBit(b, 6), Join(ReadBit(b, 5),
            Join(ReadBit(b, 4), Join(ReadBit(b, 3), Join(ReadBit(b, 2), Join(ReadBit(b, 1), p))))))))
            == InFront(b, p)
  {
    hide Join, ReadBit, InFront;
    var q2 := (((b & 0x03) as bv16) << 14) | (p >> 2);
    var q4 := (((b & 0x0C) as bv16) << 12) | (q2 >> 2);
    var q6 := (((b & 0x30) as bv16) << 10) | (q4 >> 2);
    Joined2(b, p);
    Joined4(b, q2);
    Joined6(b, q4);
    Joined8(b, q6);
    PairsMakeOctet(b, p);
  }

  lemma PackOctetThen(b: bv8, t: seq<bool>)
    ensures Pack(MsbFirst(b) + t) == InFront(b, Pack(t))
  {
    hide Join, ReadBit, InFront;
    var s := MsbFirst(b) + t;
    PackStep(s, 7); PackStep(s, 6); PackStep(s, 5); PackStep(s, 4);
    PackStep(s, 3); PackStep(s, 2); PackStep(s, 1); PackStep(s, 0);
    assert s[0..] == s && s[8..] == t;
    OctetIsJoinedBits(b, Pack(t));
  }

  lemma PackOctetAlone(b: bv8)
    ensures Pack(MsbFirst(b)) == (b as bv16) << 8
  {
    PackOctetThen(b, []);
    assert MsbFirst(b) + [] == MsbFirst(b);
    hide MsbFirst, Join;
    assert InFront(b, 0) == (b as bv16) << 8;
  }

  lemma PackWord(hi: bv8, lo: bv8)
    ensures Pack(MsbFirst(hi) + MsbFirst(lo)) == Word(hi, lo)
  {
    PackOctetThen(hi, MsbFirst(lo));
    PackOctetAlone(lo);
    hide Pack, MsbFirst;
    assert InFront(hi, (lo as bv16) << 8) == Word(hi, lo);
  }

  /** The octet-wise loop is the bit-serial CRC. */
  lemma FeedIsSerial(r: bv16, b: bv8, poly: bv16)
    ensures Feed(r, b, poly, true) == Serial(r, MsbFirst(b), poly)
  {
    hide Shifts, Shift16, Serial, Pack, MsbFirst;
    PackOctetAlone(b);
    SerialIsShifts(r, MsbFirst(b), poly);
  }

  lemma {:induction false} RegisterIsSerial(r: bv16, data: seq<bv8>, poly: bv16)
    ensures Register(r, data, poly, true) == Serial(r, ToBits(data), poly)
    decreases |data|
  {
    hide Feed, MsbFirst, BitIn, ToBits;
    if data == [] {
      assert ToBits(data) == [];
    } else {
      var init, last := data[..|data| - 1], data[|data| - 1];
      assert data == init + [last];
      AppendOctet(init, last);
      RegisterIsSerial(r, init, poly);
      SerialConcat(r, ToBits(init), MsbFirst(last), poly);
      FeedIsSerial(Serial(r, ToBits(init), poly), last, poly);
    }
  }

  // ------------------------------------------------------ burst errors

  lemma ShiftParity(x: bv16, poly: bv16)
    requires !Even(poly)
    ensures Even(Shift16(x, poly)) <==> !TopSet(x)
  {
  }

  lemma SameTopSameWord(x: bv16, y: bv16)
    requires Twice(x) == Twice(y) && TopSet(x) == TopSet(y)
    ensures x == y
  {
  }

  lemma ShiftInjective(x: bv16, y: bv16, poly: bv16)
    requires !Even(poly) && Shift16(x, poly) == Shift16(y, poly)
    ensures x == y
  {
    hide Mix, Even, Twice, TopSet;
    ShiftParity(x, poly);
    ShiftParity(y, poly);
    if TopSet(x) {
      MixSwaps(Twice(x), poly);
      MixSwaps(Twice(y), poly);
      MixCancels(poly, Twice(x), Twice(y));
    }
    SameTopSameWord(x, y);
  }

  lemma {:induction false} ShiftsInjective(n: nat, x: bv16, y: bv16, poly: bv16)
    requires !Even(poly) && Shifts(n, x, poly, true) == Shifts(n, y, poly, true)
    ensures x == y
    decreases n
  {
    hide Shift16, Even;
    if n > 0 {
      ShiftsInjective(n - 1, Shift16(x, poly), Shift16(y, poly), poly);
      ShiftInjective(x, y, poly);
    }
  }

  /** From one register value, different words of sixteen bits lead to different values. */
  lemma WindowMatters(r: bv16, a: seq<bool>, b: seq<bool>, poly: bv16)
    requires !Even(poly) && |a| == |b| == 16 && a != b
    ensures Serial(r, a, poly) != Serial(r, b, poly)
  {
    hide Even, Mix, Pack, Shifts, Serial;
    SerialIsShifts(r, a, poly);
    SerialIsShifts(r, b, poly);
    if Serial(r, a, poly) == Serial(r, b, poly) {
      ShiftsInjective(16, Mix(r, Pack(a)), Mix(r, Pack(b)), poly);
      MixCancels(r, Pack(a), Pack(b));
      PackInjective(a, b);
    }
  }

  lemma BitInInjective(r: bv16, s: bv16, bit: bool, poly: bv16)
    requires !Even(poly) && BitIn(r, bit, poly) == BitIn(s, bit, poly)
    ensures r == s
  {
    hide Shift16, Even, Top;
    ShiftInjective(Top(r, bit), Top(s, bit), poly);
    TopInjective(r, s, bit);
  }

  lemma TopInjective(r: bv16, s: bv16, bit: bool)
    requires Top(r, bit) == Top(s, bit)
    ensures r == s
  {
    hide Mix;
    if bit {
      MixSwaps(r, 0x8000);
      MixSwaps(s, 0x8000);
      MixCancels(0x8000, r, s);
    }
  }

  /** From different register values, the same bits lead to different values. */
  lemma {:induction false} DifferencePersists(r: bv16, s: bv16, bits: seq<bool>, poly: bv16)
    requires !Even(poly) && r != s
    ensures Serial(r, bits, poly) != Serial(s, bits, poly)
    decreases |bits|
  {
    hide BitIn, Even;
    if bits != [] {
      if BitIn(r, bits[0], poly) == BitIn(s, bits[0], poly) { BitInInjective(r, s, bits[0], poly); }
      DifferencePersists(BitIn(r, bits[0], poly), BitIn(s, bits[0], poly), bits[1..], poly);
    }
  }

  /** The plain two-octet CRC: no reflection. */
  predicate Plain16(c: Config)
  {
    c.bytes == 2 && !c.refIn && !c.refOut
  }

  /** The register once the tail has been fed as well. */
  lemma ThroughTheTail(packet: seq<bv8>, init: bv16, poly: bv16)
    requires |packet| > 2
    ensures var n := |packet| - 2;
            Serial(init, ToBits(packet), poly)
            == Shifts(16, Mix(Register(init, packet[..n], poly, true), Word(packet[n], packet[n + 1])), poly, true)
  {
    hide Feed, Shifts, Serial, MsbFirst, ToBits, Mix, Word, Pack, Register;
    var n := |packet| - 2;
    var data, hi, lo := packet[..n], packet[n], packet[n + 1];
    var bits := MsbFirst(hi) + MsbFirst(lo);
    assert packet == data + [hi] + [lo];
    AppendOctet(data, hi);
    AppendOctet(data + [hi], lo);
    assert ToBits(packet) == ToBits(data) + bits;
    RegisterIsSerial(init, data, poly);
    SerialConcat(init, ToBits(data), bits, poly);
    SerialIsShifts(Register(init, data, poly, true), bits, poly);
    PackWord(hi, lo);
  }

  lemma PlainAccept(packet: seq<bv8>, c: Config)
    requires Plain16(c) && |packet| > 2
    ensures var n := |packet| - 2;
            Accepts(packet, c) <==>
            Mix(Register(c.init, packet[..n], c.poly, true), Word(packet[n], packet[n + 1])) == c.xorOut
  {
    hide Word, Register, Finish, Mix;
    var n := |packet| - 2;
    assert ReflectAll(packet[..n], false) == packet[..n];
    PlainFinish(Register(c.init, packet[..n], c.poly, true), Word(packet[n], packet[n + 1]), c);
  }

  lemma PlainFinish(v: bv16, w: bv16, c: Config)
    requires Plain16(c)
    ensures Finish(v, c.xorOut, false, 2) == w <==> Mix(v, w) == c.xorOut
  {
    hide Mix;
    FullMask(Mix(v, c.xorOut));
    MixSolves(v, c.xorOut, w);
  }

  lemma FullMask(x: bv16)
    ensures x & 0xFFFF == x
  {
  }

  /** Running on through the tail leads exactly the accepted packets to one and the same value. */
  lemma AcceptedResidue(packet: seq<bv8>, c: Config)
    requires Plain16(c) && !Even(c.poly) && |packet| > 2
    ensures Accepts(packet, c) <==>
            Serial(c.init, ToBits(packet), c.poly) == Shifts(16, c.xorOut, c.poly, true)
  {
    hide Shifts, Serial, Mix, Word, Register, ToBits, Accepts, Even;
    var n := |packet| - 2;
    ThroughTheTail(packet, c.init, c.poly);
    PlainAccept(packet, c);
    var x := Mix(Register(c.init, packet[..n], c.poly, true), Word(packet[n], packet[n + 1]));
    if Shifts(16, x, c.poly, true) == Shifts(16, c.xorOut, c.poly, true) {
      ShiftsInjective(16, x, c.xorOut, c.poly);
    }
  }

  /** Two packets that differ, but only inside a window of sixteen consecutive bits. */
  ghost predicate DifferInBurst(p: seq<bv8>, q: seq<bv8>, start: nat)
  {
    && |p| == |q| && p != q && start + 16 <= 8 * |p|
    && ToBits(p)[..start] == ToBits(q)[..start]
    && ToBits(p)[start + 16..] == ToBits(q)[start + 16..]
  }

  /** Burst detection: an accepted packet, damaged anywhere inside sixteen consecutive bits (data,
      CRC or across both), is rejected; for any initial value, any final xor and any polynomial
      with a constant term. */
  lemma BurstIsDetected(p: seq<bv8>, q: seq<bv8>, start: nat, c: Config)
    requires Plain16(c) && !Even(c.poly) && |p| > 2
    requires Accepts(p, c) && DifferInBurst(p, q, start)
    ensures !Accepts(q, c)
  {
    hide Shifts, Serial, Accepts, ToBits, Even;
    AcceptedResidue(p, c);
    AcceptedResidue(q, c);
    var x, y := ToBits(p), ToBits(q);
    if x == y { StreamIsItsBits(p, q); }
    BurstChangesSerial(c.init, x, y, start, c.poly);
  }

  lemma BurstChangesSerial(init: bv16, x: seq<bool>, y: seq<bool>, start: nat, poly: bv16)
    requires !Even(poly) && |x| == |y| && x != y && start + 16 <= |x|
    requires x[..start] == y[..start] && x[start + 16..] == y[start + 16..]
    ensures Serial(init, x, poly) != Serial(init, y, poly)
  {
    hide Serial, Even;
    var pre, a, b, post := x[..start], x[start..start + 16], y[start..start + 16], x[start + 16..];
    assert x == pre + (a + post) && y == pre + (b + post);
    SerialConcat(init, pre, a + post, poly);
    SerialConcat(init, pre, b + post, poly);
    var r := Serial(init, pre, poly);
    SerialConcat(r, a, post, poly);
    SerialConcat(r, b, post, poly);
    WindowMatters(r, a, b, poly);
    DifferencePersists(Serial(r, a, poly), Serial(r, b, poly), post, poly);
  }

  // ------------------------------------------------------ the condition on the polynomial

  /** A packet damaged in the last data bit and, as the polynomial says, in its CRC. */
  function Damaged(p: seq<bv8>, poly: bv16): (q: seq<bv8>)
    requires |p| > 2
    ensures |q| == |p|
  {
    var n := |p| - 2;
    p[..n - 1] + [p[n - 1] ^ 1, p[n] ^ HighOctet(poly), p[n + 1] ^ LowOctet(poly)]
  }

  function HighOctet(w: bv16): bv8
  {
    ((w >> 8) & 0xFF) as bv8
  }

  function LowOctet(w: bv16): bv8
  {
    (w & 0xFF) as bv8
  }

  lemma WordMixes(hi: bv8, lo: bv8, w: bv16)
    ensures Word(hi ^ HighOctet(w), lo ^ LowOctet(w)) == Mix(Word(hi, lo), w)
  {
  }

  lemma TopFlips(x: bv16)
    ensures TopSet(Top(x, true)) <==> !TopSet(x)
    ensures Twice(Top(x, true)) == Twice(x)
  {
  }

  /** A flipped bit on its way into the register xors the polynomial to it. */
  lemma FlippedBitIn(r: bv16, bit: bool, poly: bv16)
    ensures BitIn(r, !bit, poly) == Mix(BitIn(r, bit, poly), poly)
  {
    hide Mix, TopSet, Twice;
    var t := Twice(r);
    TopFlips(r);
    MixSwaps(t, poly);
    MixSwaps(Mix(poly, t), poly);
    MixUndoes(poly, t);
  }

  lemma LastBitFlips(x: bv8)
    ensures MsbFirst(x) == MsbFirst(x)[..7] + [ReadBit(x, 1)]
    ensures MsbFirst(x ^ 1) == MsbFirst(x)[..7] + [!ReadBit(x, 1)]
  {
    OtherBitsStay(x);
  }

  lemma OtherBitsStay(x: bv8)
    ensures ReadBit(x ^ 1, 1) == !ReadBit(x, 1)
    ensures forall pos :: 2 <= pos <= 8 ==> ReadBit(x ^ 1, pos) == ReadBit(x, pos)
  {
    assert (x ^ 1) & 2 == x & 2 && (x ^ 1) & 4 == x & 4 && (x ^ 1) & 8 == x & 8 && (x ^ 1) & 16 == x & 16;
    assert (x ^ 1) & 32 == x & 32 && (x ^ 1) & 64 == x & 64 && (x ^ 1) & 128 == x & 128;
  }

  lemma RegisterFlips(front: seq<bv8>, x: bv8, init: bv16, poly: bv16)
    ensures Register(init, front + [x ^ 1], poly, true) == Mix(Register(init, front + [x], poly, true), poly)
  {
    hide Register, Mix, ToBits, MsbFirst, Serial, BitIn, ReadBit;
    var w, b := MsbFirst(x)[..7], ReadBit(x, 1);
    LastBitFlips(x);
    AppendOctet(front, x);
    AppendOctet(front, x ^ 1);
    RegisterIsSerial(init, front + [x], poly);
    RegisterIsSerial(init, front + [x ^ 1], poly);
    var r := Serial(init, ToBits(front) + w, poly);
    assert ToBits(front + [x]) == (ToBits(front) + w) + [b];
    assert ToBits(front + [x ^ 1]) == (ToBits(front) + w) + [!b];
    SerialConcat(init, ToBits(front) + w, [b], poly);
    SerialConcat(init, ToBits(front) + w, [!b], poly);
    OneBitSerial(r, b, poly);
    OneBitSerial(r, !b, poly);
    FlippedBitIn(r, b, poly);
  }

  lemma OneBitSerial(r: bv16, b: bool, poly: bv16)
    ensures Serial(r, [b], poly) == BitIn(r, b, poly)
  {
    assert [b][1..] == [];
  }

  /** The damage cancels, for every polynomial ... */
  lemma DamageCancels(p: seq<bv8>, c: Config)
    requires Plain16(c) && |p| > 2
    ensures Accepts(Damaged(p, c.poly), c) <==> Accepts(p, c)
  {
    hide Register, Mix, Word, Accepts, HighOctet, LowOctet;
    var n, q := |p| - 2, Damaged(p, c.poly);
    var front, x := p[..n - 1], p[n - 1];
    assert p[..n] == front + [x] && q[..n] == front + [x ^ 1];
    RegisterFlips(front, x, c.init, c.poly);
    WordMixes(p[n], p[n + 1], c.poly);
    var r, w := Register(c.init, p[..n], c.poly, true), Word(p[n], p[n + 1]);
    assert Mix(Mix(r, c.poly), Mix(w, c.poly)) == Mix(r, w) by {
      MixSwaps(w, c.poly);
      MixRegroups(r, c.poly, Mix(c.poly, w));
      MixUndoes(c.poly, w);
    }
    PlainAccept(p, c);
    PlainAccept(q, c);
  }

  /** ... and without a constant term it ends one bit before the packet does, so it is a burst. */
  lemma DamageIsBurst(p: seq<bv8>, poly: bv16)
    requires |p| > 2 && Even(poly)
    ensures DifferInBurst(p, Damaged(p, poly), 8 * (|p| - 2) - 1)
  {
    hide ReadBit, HighOctet, LowOctet;
    var n, q := |p| - 2, Damaged(p, poly);
    var start := 8 * n - 1;
    LastOctetDiffers(p[n - 1]);
    assert q[n - 1] != p[n - 1];
    OtherBitsStay(p[n - 1]);
    LowBitStays(p[n + 1], poly);
    forall i | 0 <= i < start
      ensures ToBits(p)[i] == ToBits(q)[i]
    {
      if i / 8 == n - 1 {
        assert 2 <= 8 - i % 8 <= 8;
      } else {
        assert p[i / 8] == q[i / 8];
      }
    }
    assert start + 16 == 8 * (n + 1) + 7 && |ToBits(p)| == 8 * (n + 1) + 8;
    assert ToBits(p)[start + 16] == ToBits(q)[start + 16];
    assert ToBits(p)[start + 16..] == [ToBits(p)[start + 16]];
    assert ToBits(q)[start + 16..] == [ToBits(q)[start + 16]];
  }

  lemma LastOctetDiffers(x: bv8)
    ensures x ^ 1 != x
  {
  }

  lemma LowBitStays(x: bv8, poly: bv16)
    requires Even(poly)
    ensures ReadBit(x ^ LowOctet(poly), 1) == ReadBit(x, 1)
  {
  }

  /** The condition on the polynomial is necessary: without the constant term every accepted packet
      with any data at all has a damaged neighbour, one burst away, that is accepted too. */
  lemma EvenPolynomialMisses(p: seq<bv8>, c: Config) returns (q: seq<bv8>)
    requires Plain16(c) && Even(c.poly) && |p| > 2 && Accepts(p, c)
    ensures DifferInBurst(p, q, 8 * (|p| - 2) - 1) && Accepts(q, c)
  {
    q := Damaged(p, c.poly);
    DamageCancels(p, c);
    DamageIsBurst(p, c.poly);
  }

  /** Every burst in every accepted packet is detected. */
  ghost predicate DetectsBursts(c: Config)
    requires Plain16(c)
  {
    forall p: seq<bv8>, q: seq<bv8>, start: nat ::
      |p| > 2 && Accepts(p, c) && DifferInBurst(p, q, start) ==> !Accepts(q, c)
  }

  /** So the polynomials that detect every burst of sixteen bits are exactly those with a constant term,
      whatever the initial value and the final xor. */
  lemma DetectsBurstsIff(c: Config)
    requires Plain16(c)
    ensures DetectsBursts(c) <==> !Even(c.poly)
  {
    hide Even, Accepts, DifferInBurst, Register, Mix;
    if Even(c.poly) {
      var w := Mix(Register(c.init, [0], c.poly, true), c.xorOut);
      WordOfOctets(w);
      AppendedCrcIsAccepted([0], HighOctet(w), LowOctet(w), c);
      var p := [0] + [HighOctet(w), LowOctet(w)];
      var q := EvenPolynomialMisses(p, c);
    } else {
      forall p: seq<bv8>, q: seq<bv8>, start: nat | |p| > 2 && Accepts(p, c) && DifferInBurst(p, q, start)
        ensures !Accepts(q, c)
      {
        BurstIsDetected(p, q, start, c);
      }
    }
  }

  lemma WordOfOctets(w: bv16)
    ensures Word(HighOctet(w), LowOctet(w)) == w
  {
  }

  /** Input reflection is the same check on octets transmitted least significant bit first. */
  lemma ReflectedInput(p: seq<bv8>, c: Config)
    requires Usable(c) && c.refIn
    ensures Accepts(p, c) <==> Accepts(ReflectAll(p, true), c.(refIn := false))
  {
    hide Reversed, Register, Finish, Word;
    var q, d := ReflectAll(p, true), c.(refIn := false);
    if |p| > c.bytes {
      var n := |p| - c.bytes;
      assert ReflectAll(q[..n], false) == ReflectAll(p[..n], true);
      assert Tail(q, d) == Tail(p, c);
    }
  }

  /** The one CRC word with which a packet is accepted is the register xored with `xorOut`: a
      transmitter that appends it is always accepted, one that appends anything else never. */
  lemma AppendedCrcIsAccepted(data: seq<bv8>, hi: bv8, lo: bv8, c: Config)
    requires Plain16(c) && data != []
    ensures Accepts(data + [hi, lo], c)
            <==> Word(hi, lo) == Mix(Register(c.init, data, c.poly, true), c.xorOut)
  {
    hide Register, Word, Accepts, Mix;
    var packet := data + [hi, lo];
    assert packet[..|packet| - 2] == data;
    PlainAccept(packet, c);
    MixSolves(Register(c.init, data, c.poly, true), c.xorOut, Word(hi, lo));
  }

  // ------------------------------------------------------ the one-octet CRC

  /** A textbook 8-bit CRC, in an 8-bit register. */
  function Shift8(crc: bv8, poly: bv8): bv8
  {
    if crc & 0x80 != 0 then (crc << 1) ^ poly else crc << 1
  }

  function Shifts8(n: nat, crc: bv8, poly: bv8): bv8
    decreases n
  {
    if n == 0 then crc else Shifts8(n - 1, Shift8(crc, poly), poly)
  }

  function Crc8(crc: bv8, data: seq<bv8>, poly: bv8): bv8
    decreases |data|
  {
    if data == [] then crc
    else Feed8(Crc8(crc, data[..|data| - 1], poly), data[|data| - 1], poly)
  }

  function Feed8(crc: bv8, b: bv8, poly: bv8): bv8
  {
    Shifts8(8, crc ^ b, poly)
  }

  function Low(x: bv16): bv8
  {
    (x & 0xFF) as bv8
  }

  lemma LowShift(x: bv16, poly: bv16)
    ensures Low(ShiftLow(x, poly)) == Shift8(Low(x), Low(poly))
  {
    LowParts(x);
    LowMix(x << 1, poly);
    hide Low, Mix;
  }

  lemma LowParts(x: bv16)
    ensures Low(x) & 0x80 != 0 <==> x & 0x80 != 0
    ensures Low(x << 1) == Low(x) << 1
  {
  }

  lemma LowMix(x: bv16, y: bv16)
    ensures Low(Mix(x, y)) == Low(x) ^ Low(y)
  {
  }

  lemma {:induction false} LowShifts(n: nat, x: bv16, poly: bv16)
    ensures Low(Shifts(n, x, poly, false)) == Shifts8(n, Low(x), Low(poly))
    decreases n
  {
    hide Low, ShiftLow, Shift8;
    if n > 0 {
      LowShift(x, poly);
      LowShifts(n - 1, ShiftLow(x, poly), poly);
    }
  }

  lemma LowXor(x: bv16, b: bv8)
    ensures Low(Mix(x, b as bv16)) == Low(x) ^ b
  {
  }

  lemma LowFeed(r: bv16, b: bv8, poly: bv16)
    ensures Low(Feed(r, b, poly, false)) == Feed8(Low(r), b, Low(poly))
  {
    hide Low, Shifts, Shifts8;
    LowXor(r, b);
    LowShifts(8, Mix(r, b as bv16), poly);
  }

  /** The low octet of the unmasked sixteen-bit register is the textbook CRC throughout, whatever
      the upper halves of register and polynomial hold. */
  lemma {:induction false} LowOctetIsCrc8(crc: bv16, data: seq<bv8>, poly: bv16)
    ensures Low(Register(crc, data, poly, false)) == Crc8(Low(crc), data, Low(poly))
    decreases |data|
  {
    hide Low, Feed, Feed8;
    if data != [] {
      LowOctetIsCrc8(crc, data[..|data| - 1], poly);
      LowFeed(Register(crc, data[..|data| - 1], poly, false), data[|data| - 1], poly);
    }
  }

  function Mix8(a: bv8, b: bv8): bv8
  {
    a ^ b
  }

  /** The comparison of a one-octet CRC with the octet received. */
  predicate Matches(crc: bv16, b: bv8)
  {
    crc == b as bv16
  }

  /** So a one-octet packet check is the textbook one. */
  lemma OneOctetCheck(packet: seq<bv8>, c: Config)
    requires c.bytes == 1 && !c.refIn && !c.refOut && |packet| > 1
    ensures Accepts(packet, c) <==>
            Mix8(Crc8(Low(c.init), packet[..|packet| - 1], Low(c.poly)), Low(c.xorOut)) == packet[|packet| - 1]
  {
    hide Register, Crc8, Finish, Low, Accepts, Mix8, Matches;
    var data, b := packet[..|packet| - 1], packet[|packet| - 1];
    var r := Register(c.init, data, c.poly, false);
    OneOctetAccept(packet, c);
    LowOctetIsCrc8(c.init, data, c.poly);
    OneOctetFinish(r, b, c);
  }

  lemma OneOctetAccept(packet: seq<bv8>, c: Config)
    requires c.bytes == 1 && !c.refIn && !c.refOut && |packet| > 1
    ensures Accepts(packet, c) <==>
            Matches(Finish(Register(c.init, packet[..|packet| - 1], c.poly, false), c.xorOut, false, 1),
                    packet[|packet| - 1])
  {
    hide Register, Finish, Word;
    var data := packet[..|packet| - 1];
    assert ReflectAll(data, false) == data;
  }

  lemma OneOctetFinish(x: bv16, b: bv8, c: Config)
    requires c.bytes == 1 && !c.refOut
    ensures Matches(Finish(x, c.xorOut, false, 1), b) <==> Mix8(Low(x), Low(c.xorOut)) == b
  {
    MaskedCompare(x, c.xorOut, b);
  }

  lemma MaskedCompare(x: bv16, y: bv16, b: bv8)
    ensures (x ^ y) & 0xFF == b as bv16 <==> Low(x) ^ Low(y) == b
  {
  }
}
