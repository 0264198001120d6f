/** The web log's byte ring, src/web/log_backend_web.c, proved to be the queue of `LogQueue`. */
module LogRing {
  import opened LogQueue
  import opened Wrappers

  // ------------------------------------------------------ record layout

  function Le32(n: nat): (s: seq<byte>)
    requires n < U32
    ensures |s| == 4
  {
    var b := n / 0x100;
    var c := b / 0x100;
    var d := c / 0x100;
    [(n % 0x100) as byte, (b % 0x100) as byte, (c % 0x100) as byte, d as byte]
  }

  function FromLe32(s: seq<byte>): (n: nat)
    requires |s| == 4
    ensures n < U32
  {
    s[0] as nat + 0x100 * s[1] as nat + 0x1_0000 * s[2] as nat + 0x100_0000 * s[3] as nat
  }

  lemma Le32RoundTrip(n: nat)
    requires n < U32
    ensures FromLe32(Le32(n)) == n
  {
  }

  /** The header: sequence number and epoch little-endian, length big-endian. */
  function Header(r: Record): (s: seq<byte>)
    requires WellFormed(r)
    ensures |s| == HDR_SIZE
  {
    Le32(r.sq) + Le32(r.epoch) + [(|r.text| / 0x100) as byte, (|r.text| % 0x100) as byte]
  }

  predicate WellFormed(r: Record)
  {
    r.sq < U32 && r.epoch < U32 && Size(r) <= RING_SIZE
  }

  function Encode(r: Record): (s: seq<byte>)
    requires WellFormed(r)
    ensures |s| == Size(r)
  {
    Header(r) + r.text
  }

  ghost function EncodeAll(q: seq<Record>): (s: seq<byte>)
    requires AllFormed(q)
    ensures |s| == TotalSize(q)
  {
    if q == [] then [] else Encode(q[0]) + EncodeAll(q[1..])
  }

  lemma {:induction false} EncodeAppend(q: seq<Record>, r: Record)
    requires AllFormed(q) && WellFormed(r) && AllFormed(q + [r])
    ensures EncodeAll(q + [r]) == EncodeAll(q) + Encode(r)
  {
    hide Encode;
    if q == [] {
      assert [r][1..] == [];
      assert [] + [r] == [r];
    } else {
      assert (q + [r])[1..] == q[1..] + [r];
      EncodeAppend(q[1..], r);
    }
  }

  /** The length field of a header. */
  function LengthField(hdr: seq<byte>): nat
    requires |hdr| == HDR_SIZE
  {
    hdr[8] as nat * 0x100 + hdr[9] as nat
  }

  /** Reading a header back gives the record's number, epoch and length. */
  lemma HeaderDecodes(r: Record)
    requires WellFormed(r)
    ensures var h := Header(r);
            FromLe32(h[0..4]) == r.sq && FromLe32(h[4..8]) == r.epoch && LengthField(h) == |r.text|
  {
    var h := Header(r);
    assert h[0..4] == Le32(r.sq) && h[4..8] == Le32(r.epoch);
    Le32RoundTrip(r.sq);
    Le32RoundTrip(r.epoch);
  }

  /** The first record of an encoded queue: its header, its text, the rest. */
  lemma FirstRecord(q: seq<Record>)
    requires q != [] && AllFormed(q)
    ensures var c, n := EncodeAll(q), Size(q[0]);
            && n <= |c| && c[..HDR_SIZE] == Header(q[0])
            && c[HDR_SIZE..n] == q[0].text && c[n..] == EncodeAll(q[1..])
  {
    var c := EncodeAll(q);
    assert c == Header(q[0]) + q[0].text + EncodeAll(q[1..]);
  }

  // ------------------------------------------------------ the ring

  /** `n` bytes of a ring starting at `pos`, wrapping round its end. */
  function Circular(ring: seq<byte>, pos: nat, n: nat): (s: seq<byte>)
    requires |ring| == RING_SIZE && pos < RING_SIZE && n <= RING_SIZE
    ensures |s| == n
  {
    if pos + n <= RING_SIZE then ring[pos..pos + n] else ring[pos..] + ring[..pos + n - RING_SIZE]
  }

  /** `(pos + n) % WEB_LOG_RING_SIZE`. */
  function Advance(pos: nat, n: nat): (p: nat)
    ensures p < RING_SIZE
  {
    (pos + n) % RING_SIZE
  }

  function Wrap(n: nat): (m: nat)
    requires n < 2 * RING_SIZE
    ensures m < RING_SIZE
  {
    if n >= RING_SIZE then n - RING_SIZE else n
  }

  lemma WrapIsMod(n: nat)
    requires n < 2 * RING_SIZE
    ensures Wrap(n) == n % RING_SIZE
  {
  }

  lemma CircularAt(ring: seq<byte>, pos: nat, n: nat, i: nat)
    requires |ring| == RING_SIZE && pos < RING_SIZE && n <= RING_SIZE && i < n
    ensures Circular(ring, pos, n)[i] == ring[Wrap(pos + i)]
  {
  }

  /** A stretch of a stretch. */
  lemma CircularPart(ring: seq<byte>, pos: nat, n: nat, a: nat, b: nat)
    requires |ring| == RING_SIZE && pos < RING_SIZE && a <= b <= n <= RING_SIZE
    ensures Circular(ring, Wrap(pos + a), b - a) == Circular(ring, pos, n)[a..b]
  {
    hide Circular;
    var whole, part := Circular(ring, pos, n), Circular(ring, Wrap(pos + a), b - a);
    forall i | 0 <= i < b - a
      ensures part[i] == whole[a..b][i]
    {
      CircularAt(ring, pos, n, a + i);
      CircularAt(ring, Wrap(pos + a), b - a, i);
    }
  }

  /** Writing behind a stretch leaves the stretch alone and extends it. */
  lemma CircularExtends(before: seq<byte>, after: seq<byte>, tail: nat, used: nat, src: seq<byte>)
    requires |before| == |after| == RING_SIZE && tail < RING_SIZE && used + |src| <= RING_SIZE
    requires used < RING_SIZE || src == []
    requires PlacedAt(before, after, Wrap(tail + used), src)
    ensures Circular(after, tail, used + |src|) == Circular(before, tail, used) + src
  {
    hide Circular;
    var c, d := Circular(after, tail, used + |src|), Circular(before, tail, used) + src;
    forall i | 0 <= i < used + |src|
      ensures c[i] == d[i]
    {
      CircularAt(after, tail, used + |src|, i);
      if i < used {
        CircularAt(before, tail, used, i);
        assert !InStretch(Wrap(tail + used), |src|, Wrap(tail + i));
      } else {
        assert Wrap(Wrap(tail + used) + (i - used)) == Wrap(tail + i);
      }
    }
  }

  /** `after` is `before` with `src` written from `head` on, wrapping. */
  ghost predicate PlacedAt(before: seq<byte>, after: seq<byte>, head: nat, src: seq<byte>)
    requires |before| == |after| == RING_SIZE && head < RING_SIZE && |src| <= RING_SIZE
  {
    && (forall i :: 0 <= i < |src| ==> after[Wrap(head + i)] == src[i])
    && (forall k :: 0 <= k < RING_SIZE && !InStretch(head, |src|, k) ==> after[k] == before[k])
  }

  /** Does a stretch of `n` bytes from `pos` cover index `k`? */
  predicate InStretch(pos: nat, n: nat, k: nat)
  {
    (pos <= k < pos + n) || k + RING_SIZE < pos + n
  }

  /** What `drop_oldest` finds at the tail. */
  datatype DropCase = Nothing | Corrupt | Entry(size: nat)

  function Oldest(contents: seq<byte>): DropCase
  {
    if |contents| < HDR_SIZE then Nothing
    else
      var entry := HDR_SIZE + LengthField(contents[..HDR_SIZE]);
      if entry > |contents| then Corrupt else Entry(entry)
  }

  lemma WrapTwice(a: nat, b: nat, c: nat)
    requires a < RING_SIZE && b + c <= RING_SIZE && (b < RING_SIZE || c == 0)
    ensures Wrap(a + (b + c)) == Wrap(Wrap(a + b) + c)
  {
  }

  ghost predicate AllFormed(q: seq<Record>)
  {
    forall i :: 0 <= i < |q| ==> WellFormed(q[i])
  }

  /** The numbers run up to the last one given out, modulo 2^32 as the counter does. */
  ghost predicate Numbered(q: seq<Record>, next: nat)
  {
    forall i :: 0 <= i < |q| ==> q[i].sq == (next - |q| + i) % U32
  }

  class WebLog {
    var ring: array<byte>
    var head: nat
    var tail: nat
    var used: nat
    var nextSeq: nat
    /** The records in the ring, oldest first. */
    ghost var queue: seq<Record>

    ghost predicate Shape()
      reads this, ring
    {
      ring.Length == RING_SIZE && head < RING_SIZE && tail < RING_SIZE && used <= RING_SIZE
      && head == (tail + used) % RING_SIZE && nextSeq < U32
    }

    ghost function Contents(): seq<byte>
      requires Shape()
      reads this, ring
    {
      Circular(ring[..], tail, used)
    }

    /** The ring decodes to the queue. */
    ghost predicate Valid()
      reads this, ring
    {
      Shape()
      && AllFormed(queue) && Numbered(queue, nextSeq)
      && Contents() == EncodeAll(queue)
    }

    constructor ()
      ensures Valid() && fresh(ring) && queue == [] && nextSeq == 1
    {
      ring := new byte[RING_SIZE];
      head, tail, used, nextSeq := 0, 0, 0, 1;
      queue := [];
    }

    /** `ring_put`: at the head, wrapping. */
    method RingPut(src: seq<byte>)
      requires Shape() && used + |src| <= RING_SIZE
      modifies ring, `head, `used
      ensures Shape() && used == old(used) + |src|
      ensures Contents() == old(Contents()) + src
    {
      hide Circular, PlacedAt, Wrap;
      ghost var before := ring[..];
      WrapIsMod(tail + used);
      WrapIsMod(head + |src|);
      CopyIn(src);
      CircularExtends(before, ring[..], tail, used, src);
      assert Wrap(tail + (used + |src|)) == Wrap(head + |src|) by { WrapTwice(tail, used, |src|); }
      WrapIsMod(tail + (used + |src|));
      head := (head + |src|) % RING_SIZE;
      used := used + |src|;
    }

    /** The two `memcpy` calls of `ring_put`. */
    method CopyIn(src: seq<byte>)
      requires ring.Length == RING_SIZE && head < RING_SIZE && |src| <= RING_SIZE
      modifies ring
      ensures PlacedAt(old(ring[..]), ring[..], head, src)
    {
      var n := |src|;
      var first := RING_SIZE - head;
      if first >= n {
        forall i | 0 <= i < n { ring[head + i] := src[i]; }
      } else {
        forall i | 0 <= i < first { ring[head + i] := src[i]; }
        forall i | 0 <= i < n - first { ring[i] := src[first + i]; }
      }
      Placed(old(ring[..]), ring[..], head, src);
    }

    /** `ring_peek`: `n` bytes from `pos`, wrapping. */
    method RingPeek(pos: nat, n: nat) returns (dst: seq<byte>)
      requires Shape() && pos < RING_SIZE && n <= RING_SIZE
      ensures dst == Circular(ring[..], pos, n)
    {
      var first := RING_SIZE - pos;
      if first >= n {
        dst := ring[pos..pos + n];
      } else {
        dst := ring[pos..] + ring[..n - first];
      }
    }

    /** `drop_oldest`, on any bytes whatever: nothing to drop, a length field that points beyond
        the contents (flush everything), or one entry dropped. */
    method DropOldest() returns (ok: bool)
      requires Shape()
      modifies `head, `tail, `used
      ensures Shape()
      ensures match Oldest(old(Contents()))
              case Nothing => !ok && Contents() == old(Contents())
              case Corrupt => !ok && Contents() == [] && head == tail == 0
              case Entry(n) => ok && Contents() == old(Contents())[n..]
    {
      hide LengthField, Circular;
      if used < HDR_SIZE {
        return false;
      }
      CircularPart(ring[..], tail, used, 0, HDR_SIZE);
      var hdr := RingPeek(tail, HDR_SIZE);
      var len := LengthField(hdr);
      var entry := HDR_SIZE + len;
      if entry > used {
        head, tail, used := 0, 0, 0;
        return false;
      }
      CircularPart(ring[..], tail, used, entry, used);
      WrapIsMod(tail + entry);
      WrapIsMod(tail + used);
      WrapIsMod(Wrap(tail + entry) + (used - entry));
      tail := (tail + entry) % RING_SIZE;
      used := used - entry;
      return true;
    }

    /** `enqueue_line`: the queue becomes what `Enqueued` says, that is, the fewest oldest records
        are dropped and the new one is appended.  Lines too big for the ring change nothing. */
    method EnqueueLine(text: seq<byte>, epoch: nat)
      requires Valid() && epoch < U32
      modifies this, ring
      ensures Valid() && ring == old(ring)
      ensures queue == Enqueued(old(queue), Record(old(nextSeq), epoch, text))
      ensures nextSeq == if HDR_SIZE + |text| > RING_SIZE then old(nextSeq) else (old(nextSeq) + 1) % U32
    {
      var len := |text|;
      hide EncodeAll, Circular, Enqueued;
      if len > 0xFFFF {
        len := 0xFFFF;
      }
      EnqueuedCases(queue, Record(nextSeq, epoch, text));
      var need := HDR_SIZE + len;
      if need > RING_SIZE {
        return;
      }
      MakeRoom(need);
      var sq := nextSeq;
      nextSeq := (nextSeq + 1) % U32;
      AppendRecord(sq, epoch, text, old(nextSeq));
    }

    /** The loop that drops old entries.  It never meets the corrupt case and never gives up. */
    method MakeRoom(need: nat)
      requires Valid() && need <= RING_SIZE
      modifies `head, `tail, `used, `queue
      ensures Valid() && used + need <= RING_SIZE
      ensures queue == old(queue)[Dropped(old(queue), need)..]
    {
      hide EncodeAll, Circular, Oldest, AllFormed, Numbered;
      assert queue == old(queue)[0..];
      while used + need > RING_SIZE
        invariant Valid() && |queue| <= |old(queue)|
        invariant queue == old(queue)[|old(queue)| - |queue|..]
        invariant |old(queue)| - |queue| + Dropped(queue, need) == Dropped(old(queue), need)
        decreases |queue|
      {
        OldestIsFirst(queue);
        RestIsFine(queue, nextSeq);
        var ok := DropOldest();
        if !ok {
          break;
        }
        queue := queue[1..];
      }
    }

    /** The header and the text go in behind everything else. */
    method AppendRecord(sq: nat, epoch: nat, text: seq<byte>, ghost before: nat)
      requires Shape() && sq == before < U32 && epoch < U32 && nextSeq == (before + 1) % U32
      requires AllFormed(queue) && Numbered(queue, before)
      requires Contents() == EncodeAll(queue)
      requires used + HDR_SIZE + |text| <= RING_SIZE
      modifies ring, `head, `used, `queue
      ensures Valid() && queue == old(queue) + [Record(sq, epoch, text)]
    {
      ghost var r := Record(sq, epoch, text);
      var len := |text|;
      var hdr := Le32(sq) + Le32(epoch) + [(len / 0x100) as byte, (len % 0x100) as byte];
      assert hdr == Header(r);
      FormedAppend(queue, r);
      NumbersAdvance(queue, r, before);
      EncodeAppend(queue, r);
      HeaderThenText(EncodeAll(queue), r);
      hide Le32, Header, Encode, EncodeAll, Circular, AllFormed, Numbered, WellFormed;
      RingPut(hdr);
      RingPut(text);
      queue := queue + [r];
    }

    /** `web_log_read_since`: the reply is the longest run of whole pending lines that fits `cap`, and
        the cursor returned is the number of the last line in it. */
    method ReadSince(sinceSeq: nat, out: array<byte>, cap: int, clock: Clock)
      returns (written: nat, outSeq: Option<nat>)
      requires Valid() && cap <= out.Length && out != ring
      modifies out
      ensures cap <= 0 ==> written == 0 && outSeq == None && out[..] == old(out[..])
      ensures cap > 0 ==>
        var sent := Sent(queue, sinceSeq, cap, clock);
        && written <= cap && out[..written] == Lines(sent, clock)
        && outSeq == Some(Cursor(sent, sinceSeq))
    {
      if cap <= 0 {
        return 0, None;
      }
      var high;
      written, high := ReadLines(sinceSeq, out, cap, clock);
      outSeq := Some(high);
    }

    lemma HoldsQueue()
      requires Valid()
      ensures Shape() && ring.Length == RING_SIZE && tail < RING_SIZE && used <= RING_SIZE
      ensures Holds(ring[..], tail, used, queue)
    {
    }

    method ReadLines(sinceSeq: nat, out: array<byte>, cap: nat, clock: Clock)
      returns (written: nat, high: nat)
      requires Valid() && cap <= out.Length && out != ring
      modifies out
      ensures var sent := Sent(queue, sinceSeq, cap, clock);
              written <= cap && out[..written] == Lines(sent, clock) && high == Cursor(sent, sinceSeq)
    {
      hide Circular, EncodeAll, Sent, Lines, Holds, Sending, Stamp, Valid, Contents, Shape, Cursor, TotalSize,
        AllFormed, Numbered, LengthField, FromLe32, Advance;
      HoldsQueue();
      CursorMoves([], Record(0, 0, []), sinceSeq);
      written := 0;
      high := sinceSeq;
      var pos: nat, remaining: nat := tail, used;
      ghost var rest, sent := queue, [];
      ghost var bytes := ring[..];
      SendingStarts(queue, sinceSeq, cap, clock);
      while remaining >= HDR_SIZE
        invariant pos < RING_SIZE && remaining <= RING_SIZE
        invariant ring[..] == bytes && Shape()
        invariant Holds(bytes, pos, remaining, rest)
        invariant written <= cap && out[..written] == Lines(sent, clock) && high == Cursor(sent, sinceSeq)
        invariant Sending(queue, sent, rest, written, sinceSeq, cap, clock)
        decreases remaining
      {
        HeldBytes(bytes, pos, remaining, rest);
        NextRest(bytes, pos, remaining, rest);
        var sq, epoch, len := PeekHeader(pos, remaining, rest);
        var entry := HDR_SIZE + len;
        if entry > remaining {
          break;
        }
        if sq > sinceSeq {
          var ts := Stamp(epoch, clock);
          var needed := |ts| + len + 1;
          if written + needed > cap {
            SendingStops(queue, sent, rest, written, sinceSeq, cap, clock);
            return;
          }
          CursorMoves(sent, rest[0], sinceSeq);
          written := Emit(out, written, ts, pos, len, remaining, rest, queue, sent, sinceSeq, cap, clock);
          sent := sent + [rest[0]];
          high := sq;
        } else {
          SendingSkips(queue, sent, rest, written, sinceSeq, cap, clock);
        }
        pos := Advance(pos, entry);
        remaining := remaining - entry;
        rest := rest[1..];
      }
      HeldBytes(bytes, pos, remaining, rest);
      SendingStops(queue, sent, rest, written, sinceSeq, cap, clock);
    }

    /** The three header fields of the record at `pos`. */
    method PeekHeader(pos: nat, remaining: nat, ghost rest: seq<Record>) returns (sq: nat, epoch: nat, len: nat)
      requires Shape() && pos < RING_SIZE && HDR_SIZE <= remaining <= RING_SIZE
      requires rest != [] && Holds(ring[..], pos, remaining, rest)
      ensures sq == rest[0].sq && epoch == rest[0].epoch && len == |rest[0].text|
    {
      NextHeader(ring[..], pos, remaining, rest);
      hide Holds, Circular, FromLe32, LengthField;
      var hdr := RingPeek(pos, HDR_SIZE);
      sq := FromLe32(hdr[0..4]);
      epoch := FromLe32(hdr[4..8]);
      len := LengthField(hdr);
    }

    /** One line into the output buffer: time stamp, text from the ring, newline. */
    method Emit(out: array<byte>, at: nat, ts: seq<byte>, pos: nat, len: nat, ghost remaining: nat,
                ghost rest: seq<Record>, ghost all: seq<Record>, ghost sent: seq<Record>,
                ghost since: nat, ghost cap: nat, ghost clock: Clock)
      returns (written: nat)
      requires Shape() && pos < RING_SIZE && remaining <= RING_SIZE && out != ring
      requires rest != [] && Holds(ring[..], pos, remaining, rest) && len == |rest[0].text|
      requires ts == Stamp(rest[0].epoch, clock) && at + |ts| + len + 1 <= cap <= out.Length
      requires out[..at] == Lines(sent, clock)
      requires Sending(all, sent, rest, at, since, cap, clock) && rest[0].sq > since
      modifies out
      ensures written == at + |ts| + len + 1 && out[..written] == Lines(sent + [rest[0]], clock)
      ensures Sending(all, sent + [rest[0]], rest[1..], written, since, cap, clock)
    {
      hide Holds, Circular, Sending, Lines, Stamp;
      NextText(ring[..], pos, remaining, rest);
      SendingTakes(all, sent, rest, at, since, cap, clock);
      var text := RingPeek((pos + HDR_SIZE) % RING_SIZE, len);
      written := CopyOut(out, at, ts, text);
    }

    /** The copying itself. */
    method CopyOut(out: array<byte>, at: nat, ts: seq<byte>, text: seq<byte>) returns (written: nat)
      requires at + |ts| + |text| + 1 <= out.Length
      modifies out
      ensures written == at + |ts| + |text| + 1
      ensures out[..written] == old(out[..at]) + (ts + text + [10])
    {
      forall i | 0 <= i < |ts| { out[at + i] := ts[i]; }
      forall i | 0 <= i < |text| { out[at + |ts| + i] := text[i]; }
      out[at + |ts| + |text|] := 10;
      written := at + |ts| + |text| + 1;
    }

    /** `web_log_head_seq`. */
    method HeadSeq() returns (h: nat)
      requires Valid()
      ensures h == (nextSeq - 1) % U32
      ensures queue != [] ==> h == queue[|queue| - 1].sq
    {
      h := (nextSeq - 1) % U32;
    }
  }

  /** An encoded queue is empty or holds at least one header. */
  lemma EncodedBytes(q: seq<Record>)
    requires AllFormed(q)
    ensures if q == [] then |EncodeAll(q)| == 0 else |EncodeAll(q)| >= Size(q[0])
  {
    if q != [] { FirstRecord(q); }
  }

  /** The `n` bytes from `pos` on hold exactly the records `q`. */
  ghost predicate Holds(ring: seq<byte>, pos: nat, n: nat, q: seq<Record>)
    requires |ring| == RING_SIZE && pos < RING_SIZE && n <= RING_SIZE
  {
    AllFormed(q) && Circular(ring, pos, n) == EncodeAll(q)
  }

  lemma HeldBytes(ring: seq<byte>, pos: nat, n: nat, q: seq<Record>)
    requires |ring| == RING_SIZE && pos < RING_SIZE && n <= RING_SIZE && Holds(ring, pos, n, q)
    ensures if q == [] then n == 0 else n >= Size(q[0])
  {
    EncodedBytes(q);
  }

  /** What the reader finds at its position: the header, the text, the rest. */
  lemma NextHeader(ring: seq<byte>, pos: nat, n: nat, q: seq<Record>)
    requires |ring| == RING_SIZE && pos < RING_SIZE && n <= RING_SIZE && q != [] && Holds(ring, pos, n, q)
    ensures var h := Circular(ring, pos, HDR_SIZE);
            FromLe32(h[0..4]) == q[0].sq && FromLe32(h[4..8]) == q[0].epoch && LengthField(h) == |q[0].text|
  {
    HeldBytes(ring, pos, n, q);
    FirstRecord(q);
    HeaderDecodes(q[0]);
    hide Circular, EncodeAll, Header, Encode, FromLe32, LengthField;
    CircularPart(ring, pos, n, 0, HDR_SIZE);
  }

  lemma NextText(ring: seq<byte>, pos: nat, n: nat, q: seq<Record>)
    requires |ring| == RING_SIZE && pos < RING_SIZE && n <= RING_SIZE && q != [] && Holds(ring, pos, n, q)
    ensures |q[0].text| <= RING_SIZE
    ensures Circular(ring, (pos + HDR_SIZE) % RING_SIZE, |q[0].text|) == q[0].text
  {
    HeldBytes(ring, pos, n, q);
    FirstRecord(q);
    hide Circular, EncodeAll, Header, Encode;
    CircularPart(ring, pos, n, HDR_SIZE, Size(q[0]));
    WrapIsMod(pos + HDR_SIZE);
  }

  lemma NextRest(ring: seq<byte>, pos: nat, n: nat, q: seq<Record>)
    requires |ring| == RING_SIZE && pos < RING_SIZE && n <= RING_SIZE && q != [] && Holds(ring, pos, n, q)
    ensures n >= Size(q[0]) && Holds(ring, Advance(pos, Size(q[0])), n - Size(q[0]), q[1..])
  {
    HeldBytes(ring, pos, n, q);
    FirstRecord(q);
    assert AllFormed(q[1..]) && Circular(ring, pos, n) == EncodeAll(q);
    CircularRest(ring, pos, n, Size(q[0]));
    hide Circular, EncodeAll, Header, Encode, AllFormed, Holds, TotalSize, Advance;
    HoldsIf(ring, Advance(pos, Size(q[0])), n - Size(q[0]), q[1..]);
  }

  lemma CircularRest(ring: seq<byte>, pos: nat, n: nat, a: nat)
    requires |ring| == RING_SIZE && pos < RING_SIZE && a <= n <= RING_SIZE
    ensures Circular(ring, Advance(pos, a), n - a) == Circular(ring, pos, n)[a..]
  {
    hide Circular, Advance, Wrap;
    AdvanceIsWrap(pos, a);
    CircularPart(ring, pos, n, a, n);
    var c := Circular(ring, pos, n);
    assert c[a..n] == c[a..];
  }

  lemma AdvanceIsWrap(pos: nat, a: nat)
    requires pos < RING_SIZE && a <= RING_SIZE
    ensures Advance(pos, a) == Wrap(pos + a)
  {
    WrapIsMod(pos + a);
  }

  lemma HoldsIf(ring: seq<byte>, pos: nat, n: nat, q: seq<Record>)
    requires |ring| == RING_SIZE && pos < RING_SIZE && n <= RING_SIZE
    requires AllFormed(q) && Circular(ring, pos, n) == EncodeAll(q)
    ensures Holds(ring, pos, n, q)
  {
  }

  /** The reader has sent `sent` and has `rest` still to look at. */
  ghost predicate Sending(all: seq<Record>, sent: seq<Record>, rest: seq<Record>, written: nat,
                          since: nat, cap: nat, clock: Clock)
  {
    && |Lines(sent, clock)| == written <= cap
    && sent + Sent(rest, since, cap - written, clock) == Sent(all, since, cap, clock)
  }

  lemma CursorMoves(sent: seq<Record>, r: Record, since: nat)
    ensures Cursor(sent + [r], since) == r.sq && Cursor([], since) == since
  {
  }

  lemma SendingStarts(all: seq<Record>, since: nat, cap: nat, clock: Clock)
    ensures Sending(all, [], all, 0, since, cap, clock) && Lines([], clock) == []
  {
    assert [] + Sent(all, since, cap, clock) == Sent(all, since, cap, clock);
  }

  lemma SendingSkips(all: seq<Record>, sent: seq<Record>, rest: seq<Record>, written: nat,
                     since: nat, cap: nat, clock: Clock)
    requires Sending(all, sent, rest, written, since, cap, clock) && rest != [] && rest[0].sq <= since
    ensures Sending(all, sent, rest[1..], written, since, cap, clock)
  {
  }

  lemma SendingTakes(all: seq<Record>, sent: seq<Record>, rest: seq<Record>, written: nat,
                     since: nat, cap: nat, clock: Clock)
    requires Sending(all, sent, rest, written, since, cap, clock) && rest != [] && rest[0].sq > since
    requires written + |rest[0].text| + 10 <= cap
    ensures Sending(all, sent + [rest[0]], rest[1..], written + |rest[0].text| + 10, since, cap, clock)
    ensures Lines(sent + [rest[0]], clock)
            == Lines(sent, clock) + (Stamp(rest[0].epoch, clock) + rest[0].text + [10])
  {
    var r := rest[0];
    var more := Sent(rest[1..], since, cap - (written + |r.text| + 10), clock);
    SentTakes(rest, since, cap - written, clock);
    LinesAppend(sent, r, clock);
    hide Lines, Stamp, Sent, Line;
    Regroup(sent, r, more);
  }

  lemma SentTakes(q: seq<Record>, since: nat, cap: nat, clock: Clock)
    requires q != [] && q[0].sq > since && |q[0].text| + 10 <= cap
    ensures Sent(q, since, cap, clock) == [q[0]] + Sent(q[1..], since, cap - (|q[0].text| + 10), clock)
  {
  }

  lemma Regroup(a: seq<Record>, r: Record, b: seq<Record>)
    ensures a + ([r] + b) == a + [r] + b
  {
  }

  lemma SendingStops(all: seq<Record>, sent: seq<Record>, rest: seq<Record>, written: nat,
                     since: nat, cap: nat, clock: Clock)
    requires Sending(all, sent, rest, written, since, cap, clock)
    requires rest == [] || (rest[0].sq > since && written + |rest[0].text| + 10 > cap)
    ensures sent == Sent(all, since, cap, clock) && written <= cap
  {
    assert sent + [] == sent;
  }

  lemma {:induction false} LinesAppend(q: seq<Record>, r: Record, clock: Clock)
    ensures Lines(q + [r], clock) == Lines(q, clock) + (Stamp(r.epoch, clock) + r.text + [10])
  {
    hide Stamp;
    if q == [] {
      assert [] + [r] == [r] && [r][1..] == [];
    } else {
      assert (q + [r])[1..] == q[1..] + [r];
      LinesAppend(q[1..], r, clock);
    }
  }

  lemma RestIsFine(q: seq<Record>, next: nat)
    requires AllFormed(q) && Numbered(q, next) && q != []
    ensures AllFormed(q[1..]) && Numbered(q[1..], next)
  {
  }

  lemma EnqueuedCases(q: seq<Record>, r: Record)
    ensures Enqueued(q, r) == if Size(r) > RING_SIZE then q else q[Dropped(q, Size(r))..] + [r]
  {
  }

  lemma FormedAppend(q: seq<Record>, r: Record)
    requires AllFormed(q) && WellFormed(r)
    ensures AllFormed(q + [r])
  {
  }

  lemma HeaderThenText(c: seq<byte>, r: Record)
    requires WellFormed(r)
    ensures c + Header(r) + r.text == c + Encode(r)
  {
  }

  lemma NumbersAdvance(q: seq<Record>, r: Record, before: nat)
    requires before < U32 && Numbered(q, before) && r.sq == before
    ensures Numbered(q + [r], (before + 1) % U32)
  {
    var n := |q| + 1;
    forall i | 0 <= i < n
      ensures (q + [r])[i].sq == ((before + 1) % U32 - n + i) % U32
    {
      ModShift(before + 1, i - n);
      if i < |q| {
        assert (q + [r])[i] == q[i];
      }
    }
  }

  lemma ModShift(a: nat, d: int)
    requires a <= U32
    ensures (a % U32 + d) % U32 == (a + d) % U32
  {
    if a == U32 {
      ModPeriod(d);
    }
  }

  lemma ModPeriod(n: int)
    ensures (n + U32) % U32 == n % U32
  {
  }

  /** In a ring that decodes to a queue, `drop_oldest` finds exactly the oldest record. */
  lemma OldestIsFirst(q: seq<Record>)
    requires AllFormed(q)
    ensures q == [] ==> EncodeAll(q) == []
    ensures q != [] ==> Oldest(EncodeAll(q)) == Entry(Size(q[0])) && EncodeAll(q)[Size(q[0])..] == EncodeAll(q[1..])
  {
    if q != [] {
      FirstRecord(q);
      HeaderDecodes(q[0]);
      hide Header, Encode, LengthField;
    }
  }

  lemma Placed(before: seq<byte>, after: seq<byte>, head: nat, src: seq<byte>)
    requires |before| == |after| == RING_SIZE && head < RING_SIZE && |src| <= RING_SIZE
    requires forall k :: 0 <= k < RING_SIZE ==>
      after[k] == if head <= k < head + |src| then src[k - head]
                  else if k + RING_SIZE < head + |src| then src[k + RING_SIZE - head] else before[k]
    ensures PlacedAt(before, after, head, src)
  {
  }
}
