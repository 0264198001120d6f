/** The web log as a plain queue of records: what src/web/log_backend_web.c implements with a
    ring of bytes.  Module `LogRing` proves that it does. */
module LogQueue {
  import opened Wrappers

  newtype byte = x: int | 0 <= x < 256

  const RING_SIZE: nat := 2048
  const HDR_SIZE: nat := 10
  const U32: nat := 0x1_0000_0000

  datatype Record = Record(sq: nat, epoch: nat, text: seq<byte>)

  // ------------------------------------------------------ producer

  function Size(r: Record): nat
  {
    HDR_SIZE + |r.text|
  }

  function TotalSize(q: seq<Record>): nat
  {
    if q == [] then 0 else Size(q[0]) + TotalSize(q[1..])
  }

  /** How many of the oldest records must go to make room for `need` bytes. */
  function Dropped(q: seq<Record>, need: nat): (n: nat)
    ensures n <= |q|
  {
    if q == [] || TotalSize(q) + need <= RING_SIZE then 0 else 1 + Dropped(q[1..], need)
  }

  /** `enqueue_line`: a line too big for the ring leaves the queue alone. */
  function Enqueued(q: seq<Record>, r: Record): seq<Record>
  {
    if Size(r) > RING_SIZE then q else q[Dropped(q, Size(r))..] + [r]
  }

  /** No record is dropped without need: room is made, and one record fewer would not do. */
  lemma {:induction false} DropsFewest(q: seq<Record>, need: nat)
    requires need <= RING_SIZE
    ensures var n := Dropped(q, need);
            && TotalSize(q[n..]) + need <= RING_SIZE
            && (forall m :: 0 <= m < n ==> TotalSize(q[m..]) + need > RING_SIZE)
  {
    if q == [] || TotalSize(q) + need <= RING_SIZE {
      assert q[0..] == q;
    } else {
      DropsFewest(q[1..], need);
      var n := Dropped(q, need);
      assert q[n..] == q[1..][n - 1..];
      forall m | 0 <= m < n
        ensures TotalSize(q[m..]) + need > RING_SIZE
      {
        if m == 0 { assert q[0..] == q; } else { assert q[m..] == q[1..][m - 1..]; }
      }
    }
  }

  lemma {:induction false} TotalSizeConcat(a: seq<Record>, b: seq<Record>)
    ensures TotalSize(a + b) == TotalSize(a) + TotalSize(b)
  {
    if a == [] {
      assert a + b == b;
    } else {
      assert (a + b)[1..] == a[1..] + b;
      TotalSizeConcat(a[1..], b);
    }
  }

  /** The queue never outgrows the ring. */
  lemma EnqueuedFits(q: seq<Record>, r: Record)
    requires TotalSize(q) <= RING_SIZE
    ensures TotalSize(Enqueued(q, r)) <= RING_SIZE
  {
    if Size(r) <= RING_SIZE {
      DropsFewest(q, Size(r));
      TotalSizeConcat(q[Dropped(q, Size(r))..], [r]);
      assert [r][1..] == [];
    }
  }

  // ------------------------------------------------------ reader

  /** A wall-clock time as `localtime_r` delivers it. */
  datatype Time = Time(hour: nat, min: nat, sec: nat)
  type Clock = nat -> Time

  function TwoDigits(n: nat): seq<byte>
  {
    [(48 + n / 10 % 10) as byte, (48 + n % 10) as byte]
  }

  const UNKNOWN: seq<byte> := [63, 63, 58, 63, 63, 58, 63, 63, 32]

  /** "HH:MM:SS " or "??:??:?? ". */
  function Stamp(epoch: nat, clock: Clock): (s: seq<byte>)
    ensures |s| == 9
  {
    if epoch > 0 then
      var t := clock(epoch);
      TwoDigits(t.hour) + [58] + TwoDigits(t.min) + [58] + TwoDigits(t.sec) + [32]
    else UNKNOWN
  }

  /** One line of a reply: time stamp, text, newline. */
  function Line(r: Record, clock: Clock): (s: seq<byte>)
    ensures |s| == 10 + |r.text|
  {
    Stamp(r.epoch, clock) + r.text + [10]
  }

  function Lines(q: seq<Record>, clock: Clock): seq<byte>
  {
    if q == [] then [] else Line(q[0], clock) + Lines(q[1..], clock)
  }

  /** The records one call of `web_log_read_since` sends: it walks the queue, passes over what the
      client has seen, and stops at the first record that no longer fits. */
  function Sent(q: seq<Record>, since: nat, cap: nat, clock: Clock): seq<Record>
  {
    if q == [] then []
    else if q[0].sq <= since then Sent(q[1..], since, cap, clock)
    else if |Line(q[0], clock)| > cap then []
    else [q[0]] + Sent(q[1..], since, cap - |Line(q[0], clock)|, clock)
  }

  /** The cursor returned: the last record sent, or the old cursor. */
  function Cursor(sent: seq<Record>, since: nat): nat
  {
    if sent == [] then since else sent[|sent| - 1].sq
  }

  /** What the client has not yet seen. */
  function Pending(q: seq<Record>, since: nat): seq<Record>
  {
    if q == [] then []
    else if q[0].sq > since then [q[0]] + Pending(q[1..], since)
    else Pending(q[1..], since)
  }

  /** A reply is the longest run of whole pending lines that fits: it is a prefix of what is
      pending, it fits, and the next pending line would not. */
  lemma {:induction false} SentIsLongestRun(q: seq<Record>, since: nat, cap: nat, clock: Clock)
    ensures var s, p := Sent(q, since, cap, clock), Pending(q, since);
            && s <= p
            && |Lines(s, clock)| <= cap
            && (|s| < |p| ==> |Lines(s, clock)| + |Line(p[|s|], clock)| > cap)
  {
    if q == [] {
    } else if q[0].sq <= since {
      SentIsLongestRun(q[1..], since, cap, clock);
    } else if |Line(q[0], clock)| > cap {
    } else {
      var c := cap - |Line(q[0], clock)|;
      SentIsLongestRun(q[1..], since, c, clock);
      var s, p := Sent(q, since, cap, clock), Pending(q, since);
      assert s[1..] == Sent(q[1..], since, c, clock) && p[1..] == Pending(q[1..], since);
    }
  }

  /** Sequence numbers in the queue go up by one. */
  ghost predicate Consecutive(q: seq<Record>, next: nat)
  {
    |q| < next && forall i :: 0 <= i < |q| ==> q[i].sq == next - |q| + i
  }

  /** What is pending in a consecutively numbered queue is its tail. */
  lemma {:induction false} PendingIsTail(q: seq<Record>, next: nat, since: nat)
    requires Consecutive(q, next) && since < next
    ensures var k := if since < next - |q| then 0 else since - (next - |q|) + 1;
            k <= |q| && Pending(q, since) == q[k..]
  {
    if q == [] {
    } else {
      assert forall i :: 0 <= i < |q| - 1 ==> q[1..][i] == q[i + 1];
      PendingIsTail(q[1..], next, since);
      var k := if since < next - |q| then 0 else since - (next - |q|) + 1;
      if k == 0 {
        assert q[0..] == [q[0]] + q[1..];
        assert q[1..][0..] == q[1..];
      } else {
        assert q[k..] == q[1..][k - 1..];
      }
    }
  }

  lemma NumbersAreConsecutive(q: seq<Record>, next: nat)
    requires Consecutive(q, next)
    ensures forall i :: 0 <= i < |q| ==> q[i].sq == next - |q| + i
  {
  }

  lemma NoLines(clock: Clock)
    ensures Lines([], clock) == []
  {
  }

  /** If `cap` holds any one line and something is pending, the cursor moves on. */
  lemma PollMakesProgress(q: seq<Record>, next: nat, since: nat, cap: nat, clock: Clock)
    requires Consecutive(q, next) && since < next
    requires forall i :: 0 <= i < |q| ==> |Line(q[i], clock)| <= cap
    requires Pending(q, since) != []
    ensures since < Cursor(Sent(q, since, cap, clock), since) < next
  {
    hide Sent, Pending, Line, Lines, Consecutive;
    SentIsLongestRun(q, since, cap, clock);
    PendingIsTail(q, next, since);
    var k := if since < next - |q| then 0 else since - (next - |q|) + 1;
    NumbersAreConsecutive(q, next);
    NoLines(clock);
    var s, p := Sent(q, since, cap, clock), Pending(q, since);
    assert p[0] == q[k] && |Line(q[k], clock)| <= cap;
    assert s != [];
    assert s[|s| - 1] == p[|s| - 1] == q[k + (|s| - 1)];
  }

  // ------------------------------------------------------ a polling client

  datatype Event = Log(epoch: nat, text: seq<byte>) | Poll(cap: nat)

  /** The queue, the client's cursor, everything ever logged, everything the client was sent, and
      the numbers that were overwritten before the client had seen them. */
  datatype World = World(q: seq<Record>, next: nat, cursor: nat,
                         history: seq<Record>, sent: seq<Record>, lost: set<nat>)

  const START := World([], 1, 0, [], [], {})

  function DroppedUnseen(q: seq<Record>, n: nat, cursor: nat): set<nat>
    requires n <= |q|
  {
    set i | 0 <= i < n && q[i].sq > cursor :: q[i].sq
  }

  /** One event: the logging thread writes a line, or the client polls with its cursor. */
  function Happen(w: World, e: Event, clock: Clock): World
  {
    match e
    case Log(epoch, text) =>
      var r := Record(w.next, epoch, text);
      if Size(r) > RING_SIZE then w
      else w.(q := Enqueued(w.q, r), next := w.next + 1, history := w.history + [r],
              lost := w.lost + DroppedUnseen(w.q, Dropped(w.q, Size(r)), w.cursor))
    case Poll(cap) =>
      var s := Sent(w.q, w.cursor, cap, clock);
      w.(cursor := Cursor(s, w.cursor), sent := w.sent + s)
  }

  function Run(events: seq<Event>, clock: Clock): World
  {
    if events == [] then START
    else Happen(Run(events[..|events| - 1], clock), events[|events| - 1], clock)
  }

  /** Was record number `n` sent to the client? */
  ghost predicate WasSent(sent: seq<Record>, n: nat)
  {
    exists i :: 0 <= i < |sent| && sent[i].sq == n
  }

  ghost predicate Increasing(s: seq<Record>)
  {
    forall i, j :: 0 <= i < j < |s| ==> s[i].sq < s[j].sq
  }

  ghost predicate Sound(w: World)
  {
    // the queue is the newest part of the history, numbered from 1
    && w.next == |w.history| + 1 && |w.q| <= |w.history|
    && (forall i :: 0 <= i < |w.history| ==> w.history[i].sq == i + 1)
    && w.q == w.history[|w.history| - |w.q|..]
    && w.cursor < w.next
    // the client got true records, each at most once, in order
    && Increasing(w.sent)
    && (forall i :: 0 <= i < |w.sent| ==>
          0 < w.sent[i].sq <= w.cursor && w.sent[i] == w.history[w.sent[i].sq - 1])
    // every number that has left the queue or the pending part was sent or lost, never both
    && (forall n :: 0 < n < w.next - |w.q| || 0 < n <= w.cursor ==> (WasSent(w.sent, n) <==> n !in w.lost))
    && (forall n :: n in w.lost ==> 0 < n < w.next - |w.q|)
  }

  lemma {:induction false} RunIsSound(events: seq<Event>, clock: Clock)
    ensures Sound(Run(events, clock))
  {
    if events != [] {
      RunIsSound(events[..|events| - 1], clock);
      var w, e := Run(events[..|events| - 1], clock), events[|events| - 1];
      match e
      case Log(epoch, text) => LogIsSound(w, epoch, text, clock);
      case Poll(cap) => PollIsSound(w, cap, clock);
    }
  }

  /** Lost with the first `n` records of a queue numbered from `first` are those beyond the cursor. */
  lemma NewLosses(q: seq<Record>, n: nat, cursor: nat, first: nat)
    requires n <= |q| && forall i :: 0 <= i < |q| ==> q[i].sq == first + i
    ensures forall m :: m in DroppedUnseen(q, n, cursor) <==> cursor < m && first <= m < first + n
  {
    forall m | cursor < m && first <= m < first + n
      ensures m in DroppedUnseen(q, n, cursor)
    {
      assert q[m - first].sq == m;
    }
  }

  lemma LogIsSound(w: World, epoch: nat, text: seq<byte>, clock: Clock)
    requires Sound(w)
    ensures Sound(Happen(w, Log(epoch, text), clock))
  {
    hide Increasing, Dropped, DroppedUnseen;
    var r := Record(w.next, epoch, text);
    if Size(r) <= RING_SIZE {
      var n := Dropped(w.q, Size(r));
      var v := Happen(w, Log(epoch, text), clock);
      assert v.q == w.q[n..] + [r];
      assert forall i :: 0 <= i < |w.q| ==> w.q[i] == w.history[|w.history| - |w.q| + i];
      assert forall i :: 0 <= i < |w.q| ==> w.q[i].sq == w.next - |w.q| + i;
      NewLosses(w.q, n, w.cursor, w.next - |w.q|);
      forall m | 0 < m < v.next - |v.q| || 0 < m <= v.cursor
        ensures WasSent(v.sent, m) <==> m !in v.lost
      {
        if m > w.cursor {
          NothingBeyondCursor(w, m);
        }
      }
    }
  }

  /** The records sent by a poll are consecutive records of the history. */
  lemma PollSendsRun(q: seq<Record>, history: seq<Record>, cursor: nat, cap: nat, clock: Clock) returns (first: nat)
    requires |q| <= |history| && q == history[|history| - |q|..] && cursor <= |history|
    requires forall i :: 0 <= i < |history| ==> history[i].sq == i + 1
    ensures var s := Sent(q, cursor, cap, clock);
            && 0 < first && cursor < first && first + |s| <= |history| + 1
            && first == (if cursor >= |history| - |q| then cursor + 1 else |history| + 1 - |q|)
            && (forall i :: 0 <= i < |s| ==> s[i].sq == first + i && s[i] == history[first + i - 1])
  {
    var next := |history| + 1;
    TailIsConsecutive(q, history);
    SentIsLongestRun(q, cursor, cap, clock);
    PendingIsTail(q, next, cursor);
    hide Sent, Pending, Line, Lines, Consecutive;
    var s, p := Sent(q, cursor, cap, clock), Pending(q, cursor);
    var k := if cursor < next - |q| then 0 else cursor - (next - |q|) + 1;
    first := next - |q| + k;
    PrefixOfTail(s, p, q, k, history, first);
  }

  lemma TailIsConsecutive(q: seq<Record>, history: seq<Record>)
    requires |q| <= |history| && q == history[|history| - |q|..]
    requires forall i :: 0 <= i < |history| ==> history[i].sq == i + 1
    ensures Consecutive(q, |history| + 1)
  {
  }

  lemma PrefixOfTail(s: seq<Record>, p: seq<Record>, q: seq<Record>, k: nat, history: seq<Record>, first: nat)
    requires s <= p && k <= |q| && p == q[k..] && |q| <= |history| && q == history[|history| - |q|..]
    requires first == |history| + 1 - |q| + k
    requires forall i :: 0 <= i < |history| ==> history[i].sq == i + 1
    ensures forall i :: 0 <= i < |s| ==> s[i].sq == first + i && s[i] == history[first + i - 1]
  {
    forall i | 0 <= i < |s|
      ensures s[i].sq == first + i && s[i] == history[first + i - 1]
    {
      assert s[i] == p[i] == q[k + i] == history[|history| - |q| + (k + i)];
    }
  }

  lemma AppendKeepsSent(a: seq<Record>, s: seq<Record>, n: nat)
    ensures WasSent(a + s, n) <==> WasSent(a, n) || WasSent(s, n)
  {
    if WasSent(a, n) {
      var i :| 0 <= i < |a| && a[i].sq == n;
      assert (a + s)[i].sq == n;
    }
    if WasSent(s, n) {
      var i :| 0 <= i < |s| && s[i].sq == n;
      assert (a + s)[|a| + i].sq == n;
    }
    if WasSent(a + s, n) {
      var i :| 0 <= i < |a + s| && (a + s)[i].sq == n;
      if i < |a| { assert a[i].sq == n; } else { assert s[i - |a|].sq == n; }
    }
  }

  lemma RunWasSent(s: seq<Record>, first: nat, n: nat)
    requires forall i :: 0 <= i < |s| ==> s[i].sq == first + i
    ensures WasSent(s, n) <==> first <= n < first + |s|
  {
    if first <= n < first + |s| { assert s[n - first].sq == n; }
  }

  lemma PollIsSound(w: World, cap: nat, clock: Clock)
    requires Sound(w)
    ensures Sound(Happen(w, Poll(cap), clock))
  {
    var first := PollSendsRun(w.q, w.history, w.cursor, cap, clock);
    hide Sent, Lines, Line, Pending;
    var s := Sent(w.q, w.cursor, cap, clock);
    var v := Happen(w, Poll(cap), clock);
    PollAccounts(w, v, s, first);
  }

  lemma PollAccounts(w: World, v: World, s: seq<Record>, first: nat)
    requires Sound(w) && v == w.(cursor := Cursor(s, w.cursor), sent := w.sent + s)
    requires 0 < first && first + |s| <= w.next
    requires first == (if w.cursor + 1 >= w.next - |w.q| then w.cursor + 1 else w.next - |w.q|)
    requires forall i :: 0 <= i < |s| ==> s[i].sq == first + i && s[i] == w.history[first + i - 1]
    ensures Sound(v)
  {
    hide WasSent;
    forall m | 0 < m < v.next - |v.q| || 0 < m <= v.cursor
      ensures WasSent(v.sent, m) <==> m !in v.lost
    {
      AppendKeepsSent(w.sent, s, m);
      RunWasSent(s, first, m);
      if m >= first {
        NothingBeyondCursor(w, m);
      }
    }
  }

  lemma NothingBeyondCursor(w: World, m: nat)
    requires Sound(w) && m > w.cursor
    ensures !WasSent(w.sent, m)
  {
  }

  /** What was logged, as far as it fits the ring: epoch and text. */
  function Logged(events: seq<Event>): seq<(nat, seq<byte>)>
  {
    if events == [] then []
    else
      var before := Logged(events[..|events| - 1]);
      match events[|events| - 1]
      case Log(epoch, text) => if HDR_SIZE + |text| > RING_SIZE then before else before + [(epoch, text)]
      case Poll(_) => before
  }

  /** The history that the client's records are compared with is what was logged, numbered from 1. */
  lemma {:induction false} HistoryIsLogged(events: seq<Event>, clock: Clock)
    ensures var h, l := Run(events, clock).history, Logged(events);
            |h| == |l| && forall i :: 0 <= i < |h| ==> h[i] == Record(i + 1, l[i].0, l[i].1)
  {
    hide Enqueued, Dropped, DroppedUnseen, Sent;
    if events != [] {
      HistoryIsLogged(events[..|events| - 1], clock);
      RunIsSound(events[..|events| - 1], clock);
    }
  }

  /** Poll completeness: over every interleaving of log lines and polls, a client that feeds back
      the cursor receives each record at most once and in order, and each record numbered up to its
      cursor exactly once, unless that record was overwritten before the client could read it. */
  lemma EveryRecordOnce(events: seq<Event>, clock: Clock)
    ensures var w := Run(events, clock);
            && Increasing(w.sent)
            && (forall i :: 0 <= i < |w.sent| ==>
                  0 < w.sent[i].sq <= |w.history| && w.sent[i] == w.history[w.sent[i].sq - 1])
            && (forall n :: 0 < n <= w.cursor ==> (WasSent(w.sent, n) <==> n !in w.lost))
            && (forall n :: n in w.lost ==> 0 < n < w.next - |w.q|)
  {
    RunIsSound(events, clock);
  }

  // ------------------------------------------------------ what the reply reads

  const NEWLINE: byte := 10

  /** The number that two digits spell. */
  function ReadTwo(s: seq<byte>): int
    requires |s| == 2
  {
    10 * (s[0] as int - '0' as int) + (s[1] as int - '0' as int)
  }

  function AsText(s: seq<byte>): string
  {
    seq(|s|, i requires 0 <= i < |s| => s[i] as int as char)
  }

  /** The time stamp reads as hour, minute and second, between colons and before a blank; a record from before
      the time was known has question marks of the same width. */
  lemma StampReads(epoch: nat, clock: Clock)
    requires epoch > 0 ==> clock(epoch).hour < 24 && clock(epoch).min < 60 && clock(epoch).sec <= 60
    ensures var s := Stamp(epoch, clock);
            if epoch == 0 then AsText(s) == "??:??:?? "
            else
              && ReadTwo(s[0..2]) == clock(epoch).hour && ReadTwo(s[3..5]) == clock(epoch).min
              && ReadTwo(s[6..8]) == clock(epoch).sec
              && AsText(s[2..3]) == ":" && AsText(s[5..6]) == ":" && AsText(s[8..9]) == " "
  {
    if epoch > 0 {
      TwoDigitsRead(clock(epoch).hour);
      TwoDigitsRead(clock(epoch).min);
      TwoDigitsRead(clock(epoch).sec);
      hide TwoDigits, ReadTwo;
      var s, t := Stamp(epoch, clock), clock(epoch);
      assert s[0..2] == TwoDigits(t.hour) && s[3..5] == TwoDigits(t.min) && s[6..8] == TwoDigits(t.sec);
    }
  }

  lemma TwoDigitsRead(n: nat)
    requires n < 100
    ensures |TwoDigits(n)| == 2 && ReadTwo(TwoDigits(n)) == n
  {
  }

  lemma StampIsOneLine(epoch: nat, clock: Clock)
    ensures NEWLINE !in Stamp(epoch, clock)
  {
  }

  /** A reply cut at its newlines. */
  function SplitLines(s: seq<byte>): seq<seq<byte>>
    decreases |s|
  {
    if NEWLINE !in s then [] else
      var line := UpTo(s, NEWLINE);
      UpToIsPrefix(s, NEWLINE);
      [line] + SplitLines(s[|line| + 1..])
  }

  lemma {:induction false} UpToIsPrefix(s: seq<byte>, mark: byte)
    ensures |UpTo(s, mark)| <= |s|
    ensures mark in s ==> |UpTo(s, mark)| < |s|
    decreases |s|
  {
    if s != [] && s[0] != mark {
      UpToIsPrefix(s[1..], mark);
      assert mark in s ==> mark in s[1..];
    }
  }

  lemma FirstLine(line: seq<byte>, rest: seq<byte>)
    requires NEWLINE !in line
    ensures SplitLines(line + [NEWLINE] + rest) == [line] + SplitLines(rest)
  {
    var s := line + [NEWLINE] + rest;
    assert s[|line|] == NEWLINE;
    UpToStops(s, |line|, NEWLINE);
    assert s[..|line|] == line;
    UpToAll(line, NEWLINE);
    assert s[|line| + 1..] == rest;
  }

  /** A reply cut at its newlines has one line for each record sent, in order: its stamp and its text. */
  lemma {:induction false} ReplyReadsBack(q: seq<Record>, clock: Clock)
    requires forall k :: 0 <= k < |q| ==> NEWLINE !in q[k].text
    ensures SplitLines(Lines(q, clock)) == seq(|q|, k requires 0 <= k < |q| => Stamp(q[k].epoch, clock) + q[k].text)
  {
    hide Stamp, SplitLines;
    if q == [] {
      NothingToSplit();
    } else {
      ReplyReadsBack(q[1..], clock);
      StampIsOneLine(q[0].epoch, clock);
      FirstLine(Stamp(q[0].epoch, clock) + q[0].text, Lines(q[1..], clock));
    }
  }

  lemma NothingToSplit()
    ensures SplitLines([]) == []
  {
  }
}
