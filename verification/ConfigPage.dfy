/** `config_handler` and `render_config_form_tz_options` of src/web/web_ui.cpp: a page streamed in chunks
    and a form collected in chunks, with the state of both kept between callbacks. */
module ConfigPage {
  import FormParser
  import opened Wrappers

  /** The timezone table and the index selected. */
  datatype Zones = Zones(names: seq<string>, selected: nat)

  /** The table is an array of 32-byte names in a 32-bit address space. */
  predicate Stored(z: Zones)
  {
    |z.names| <= 0x800_0000 && forall k :: 0 <= k < |z.names| ==> |z.names[k]| <= 31
  }

  const PER_CHUNK: nat := 30
  const BODY_SIZE: nat := 3072
  const POST_SIZE: nat := 1024

  // ------------------------------------------------------ rows

  function Digit(n: int): char
    requires 0 <= n < 10
  {
    ('0' as int + n) as char
  }

  /** `%u`. */
  function Decimal(n: nat): string
  {
    if n < 10 then [Digit(n)] else Decimal(n / 10) + [Digit(n % 10)]
  }

  function Power10(k: nat): nat
  {
    if k == 0 then 1 else 10 * Power10(k - 1)
  }

  lemma {:induction false} DecimalLength(n: nat, k: nat)
    requires 0 < k && n < Power10(k)
    ensures 1 <= |Decimal(n)| <= k
  {
    if n >= 10 {
      assert Power10(1) == 10;
      DecimalLength(n / 10, k - 1);
    }
  }

  /** The name looked up for option `i`: the index is cut to 16 bits. */
  function NameOf(z: Zones, i: nat): string
    requires i < |z.names|
  {
    z.names[i % 0x1_0000]
  }

  function Row(z: Zones, i: nat): string
    requires i < |z.names|
  {
    "<option value=" + Decimal(i) + (if i == z.selected then " selected" else "") + ">" + NameOf(z, i)
  }

  lemma RowLength(z: Zones, i: nat)
    requires Stored(z) && i < |z.names|
    ensures |Row(z, i)| <= 64
  {
    assert Power10(9) == 1_000_000_000;
    DecimalLength(i, 9);
    assert |z.names[i % 0x1_0000]| <= 31;
  }

  // What a row reads.

  predicate IsDigit(c: char)
  {
    '0' <= c <= '9'
  }

  /** How many digits stand at the head of a text. */
  function DigitsIn(s: string): (k: nat)
    ensures k <= |s|
  {
    if s == "" || !IsDigit(s[0]) then 0 else 1 + DigitsIn(s[1..])
  }

  /** The number that digits spell. */
  function NumberOf(s: string): int
  {
    if s == "" then 0 else 10 * NumberOf(s[..|s| - 1]) + (s[|s| - 1] as int - '0' as int)
  }

  lemma {:induction false} DecimalReads(n: nat)
    ensures NumberOf(Decimal(n)) == n
    ensures forall k :: 0 <= k < |Decimal(n)| ==> IsDigit(Decimal(n)[k])
    ensures |Decimal(n)| > 0 && (n > 0 ==> Decimal(n)[0] != '0')
  {
    var d := [Digit(n % 10)];
    if n < 10 {
      assert [Digit(n)][..0] == "";
    } else {
      DecimalReads(n / 10);
      assert (Decimal(n / 10) + d)[..|Decimal(n / 10)|] == Decimal(n / 10);
    }
  }

  lemma {:induction false} DigitsEnd(d: string, rest: string)
    requires forall k :: 0 <= k < |d| ==> IsDigit(d[k])
    requires rest == "" || !IsDigit(rest[0])
    ensures DigitsIn(d + rest) == |d|
  {
    if d == "" {
      assert d + rest == rest;
    } else {
      DigitsEnd(d[1..], rest);
      assert (d + rest)[1..] == d[1..] + rest;
    }
  }

  /** An option as a browser reads it: its value, whether it is selected, and its text. */
  datatype Choice = Choice(value: int, selected: bool, text: string)

  function ReadRow(s: string): Option<Choice>
  {
    if !("<option value=" <= s) then None
    else
      var t := s[14..];
      var k := DigitsIn(t);
      if " selected>" <= t[k..] then Some(Choice(NumberOf(t[..k]), true, t[k + 10..]))
      else if ">" <= t[k..] then Some(Choice(NumberOf(t[..k]), false, t[k + 1..]))
      else None
  }

  lemma OptionReads(d: string, rest: string, s: string, selected: bool, name: string)
    requires s == "<option value=" + (d + rest) && DigitsIn(d + rest) == |d|
    requires rest == (if selected then " selected>" else ">") + name
    ensures ReadRow(s) == Some(Choice(NumberOf(d), selected, name))
  {
    hide DigitsIn, NumberOf;
    var t := d + rest;
    assert s[14..] == t;
    assert t[..|d|] == d && t[|d|..] == rest;
    if selected {
      assert rest[10..] == name && t[|d| + 10..] == name;
    } else {
      assert rest[0] == '>';
      assert rest[1..] == name && t[|d| + 1..] == name;
    }
  }

  /** Each row reads as its index, selected if it is the zone set, with the zone's name. */
  lemma RowReadsBack(z: Zones, i: nat)
    requires i < |z.names| <= 0x1_0000
    ensures ReadRow(Row(z, i)) == Some(Choice(i, i == z.selected, z.names[i]))
  {
    DecimalReads(i);
    hide Decimal, NumberOf, DigitsIn, ReadRow;
    var d, name, selected := Decimal(i), z.names[i], i == z.selected;
    var rest := (if selected then " selected>" else ">") + name;
    assert " selected" + ">" == " selected>" && "" + ">" == ">";
    assert Row(z, i) == "<option value=" + (d + rest);
    DigitsEnd(d, rest);
    OptionReads(d, rest, Row(z, i), selected, name);
  }

  /** The options from `i` to `end`, each once and in order. */
  function Rows(z: Zones, i: nat, end: nat): string
    requires i <= end <= |z.names|
    decreases end - i
  {
    if i == end then "" else Row(z, i) + Rows(z, i + 1, end)
  }

  /** The rows a buffer of `room` bytes takes: whole ones, from `i` on, leaving room for the NUL. */
  function Batch(z: Zones, i: nat, end: nat, room: int): string
    requires i <= end <= |z.names|
    decreases end - i
  {
    if i == end || |Row(z, i)| >= room then "" else Row(z, i) + Batch(z, i + 1, end, room - |Row(z, i)|)
  }

  /** A batch is complete exactly if all its rows together leave room for the NUL. */
  lemma {:induction false} BatchIsCompleteIff(z: Zones, i: nat, end: nat, room: int)
    requires i <= end <= |z.names| && room > 0
    ensures Batch(z, i, end, room) == Rows(z, i, end) <==> |Rows(z, i, end)| < room
    ensures |Batch(z, i, end, room)| < room
    decreases end - i
  {
    hide Row;
    if i < end {
      var r := Row(z, i);
      RowIsNotEmpty(z, i);
      if |r| < room {
        BatchIsCompleteIff(z, i + 1, end, room - |r|);
        var b, rest := Batch(z, i + 1, end, room - |r|), Rows(z, i + 1, end);
        assert (r + b)[|r|..] == b && (r + rest)[|r|..] == rest;
      }
    }
  }

  lemma RowIsNotEmpty(z: Zones, i: nat)
    requires i < |z.names|
    ensures Row(z, i) != ""
  {
  }

  lemma {:induction false} RowsLength(z: Zones, i: nat, end: nat)
    requires Stored(z) && i <= end <= |z.names|
    ensures |Rows(z, i, end)| <= 64 * (end - i)
    decreases end - i
  {
    hide Row;
    if i < end {
      RowLength(z, i);
      RowsLength(z, i + 1, end);
    }
  }

  /** With names of at most 31 characters a full batch of 30 always fits the body. */
  lemma BatchIsComplete(z: Zones, i: nat, end: nat)
    requires Stored(z) && i <= end <= |z.names| && end - i <= PER_CHUNK
    ensures Batch(z, i, end, BODY_SIZE) == Rows(z, i, end)
  {
    RowsLength(z, i, end);
    BatchIsCompleteIff(z, i, end, BODY_SIZE);
  }

  lemma {:induction false} RowsConcat(z: Zones, i: nat, j: nat, end: nat)
    requires i <= j <= end <= |z.names|
    ensures Rows(z, i, end) == Rows(z, i, j) + Rows(z, j, end)
    decreases j - i
  {
    hide Row;
    if i < j {
      RowsConcat(z, i + 1, j, end);
    }
  }

  // ------------------------------------------------------ one callback

  /** An octet of a form body. */
  type Octet = FormParser.Octet

  datatype Status = DataMore | DataFinal | Complete | Aborted

  /** One call of the handler.  `data` is empty where the server passes none. */
  datatype Call = Call(status: Status, isPost: bool, data: seq<Octet>, authorized: bool)

  /** What goes back to the server.  `Saved` stands for the form handler having run on `body`. */
  datatype Reply = Nothing | Unauthorized | Header | Options(text: string) | Footer | Saved(body: seq<Octet>)

  /** `final_chunk`. */
  predicate Final(r: Reply)
  {
    r.Unauthorized? || r.Footer? || r.Saved?
  }

  /** `config_get_chunk_state`, and the part of `config_post_buf` in use. */
  datatype State = State(chunk: nat, post: seq<Octet>)

  const IDLE := State(0, [])

  /** Data is kept whole or not at all. */
  function Collect(post: seq<Octet>, data: seq<Octet>): seq<Octet>
  {
    if |post| + |data| <= POST_SIZE then post + data else post
  }

  function BatchEnd(z: Zones, start: nat): nat
  {
    if start + PER_CHUNK > |z.names| then |z.names| else start + PER_CHUNK
  }

  function Step(z: Zones, s: State, c: Call): (State, Reply)
  {
    if c.status.Complete? || c.status.Aborted? then (IDLE, Nothing)
    else if c.status.DataMore? then
      (if c.isPost then s.(post := Collect(s.post, c.data)) else s, Nothing)
    else if !c.authorized then (s, Unauthorized)
    else if c.isPost then (s.(post := []), Saved(Collect(s.post, c.data)))
    else if s.chunk == 0 then (s.(chunk := 1), Header)
    else if s.chunk <= |z.names| then
      (s.(chunk := s.chunk + PER_CHUNK), Options(Batch(z, s.chunk - 1, BatchEnd(z, s.chunk - 1), BODY_SIZE)))
    else (s.(chunk := 0), Footer)
  }

  /** The statics of the handler, and the handler. */
  class Handler {
    var chunkState: nat
    const postBuf: array<Octet>
    var postLen: nat
    const body: array<char>

    ghost predicate Valid()
      reads this
    {
      postBuf.Length == POST_SIZE && body.Length == BODY_SIZE && postLen <= POST_SIZE
    }

    ghost function Abstract(): State
      requires Valid()
      reads this, postBuf
    {
      State(chunkState, postBuf[..postLen])
    }

    constructor ()
      ensures Valid() && Abstract() == IDLE && fresh(postBuf) && fresh(body)
    {
      chunkState, postLen := 0, 0;
      postBuf, body := new Octet[POST_SIZE], new char[BODY_SIZE];
    }

    /** `snprintf` behind what `body` holds; the text is cut if it does not fit. */
    method PrintAt(pos: nat, text: string) returns (wrote: nat)
      requires Valid() && pos < BODY_SIZE
      modifies body
      ensures wrote == |text| && body[..pos] == old(body[..pos])
      ensures pos + wrote < BODY_SIZE ==> body[..pos + wrote] == old(body[..pos]) + text
    {
      wrote := |text|;
      var n := if pos + wrote < BODY_SIZE then wrote else BODY_SIZE - 1 - pos;
      for k := 0 to n
        invariant body[..pos + k] == old(body[..pos]) + text[..k]
      {
        body[pos + k] := text[k];
      }
      body[pos + n] := '\0';
      assert body[..pos + n] == old(body[..pos]) + text[..n];
      assert body[..pos] == body[..pos + n][..pos];
      assert text[..|text|] == text;
    }

    /** `render_config_form_tz_options`. */
    method RenderOptions(z: Zones, start: nat) returns (pos: nat)
      requires Valid() && start <= |z.names|
      modifies body
      ensures pos < BODY_SIZE && body[..pos] == Batch(z, start, BatchEnd(z, start), BODY_SIZE)
    {
      hide Row;
      var end := BatchEnd(z, start);
      pos := 0;
      ghost var all := Batch(z, start, end, BODY_SIZE);
      var i := start;
      assert body[..0] == [];
      while i < end
        invariant start <= i <= end && pos < BODY_SIZE
        invariant all == body[..pos] + Batch(z, i, end, BODY_SIZE - pos)
      {
        ghost var before := body[..pos];
        var row := Row(z, i);
        var wrote := PrintAt(pos, row);
        if pos + wrote >= BODY_SIZE {
          assert Batch(z, i, end, BODY_SIZE - pos) == "";
          break;
        }
        assert before + (row + Batch(z, i + 1, end, BODY_SIZE - (pos + wrote)))
            == (before + row) + Batch(z, i + 1, end, BODY_SIZE - (pos + wrote));
        pos := pos + wrote;
        i := i + 1;
      }
    }

    /** Append to the form body, if there is room. */
    method Accumulate(data: seq<Octet>)
      requires Valid()
      modifies `postLen, postBuf
      ensures Valid() && Abstract() == old(Abstract()).(post := Collect(old(Abstract().post), data))
    {
      if |data| > 0 && postLen + |data| <= POST_SIZE {
        for k := 0 to |data|
          invariant postLen == old(postLen)
          invariant postBuf[..postLen + k] == old(postBuf[..postLen]) + data[..k]
        {
          postBuf[postLen + k] := data[k];
        }
        assert data[..|data|] == data;
        postLen := postLen + |data|;
      } else {
        assert data == [] ==> postBuf[..postLen] + data == postBuf[..postLen];
      }
    }

    /** `config_handler`. */
    method Handle(z: Zones, c: Call) returns (reply: Reply)
      requires Valid()
      modifies this, postBuf, body
      ensures Valid() && (Abstract(), reply) == Step(z, old(Abstract()), c)
    {
      hide Batch;
      if c.status.Complete? || c.status.Aborted? {
        chunkState := 0;
        postLen := 0;
        return Nothing;
      }
      if !c.status.DataFinal? {
        if c.isPost {
          Accumulate(c.data);
        }
        return Nothing;
      }
      if !c.authorized {
        return Unauthorized;
      }
      if c.isPost {
        Accumulate(c.data);
        reply := Saved(postBuf[..postLen]);
        postLen := 0;
        return;
      }
      if chunkState == 0 {
        reply := Header;
        chunkState := 1;
      } else if chunkState <= |z.names| {
        var n := RenderOptions(z, chunkState - 1);
        reply := Options(body[..n]);
        chunkState := chunkState + PER_CHUNK;
      } else {
        reply := Footer;
        chunkState := 0;
      }
    }
  }

  // ------------------------------------------------------ the server's side

  /** One request: the data that comes before its end, the data that comes with it, the number of reply
      callbacks after which the client is gone at the latest, and how the server closes it. */
  datatype Request = Request(
    isPost: bool,
    authorized: bool,
    early: seq<seq<Octet>>,
    last: seq<Octet>,
    patience: nat,
    closing: Status)

  predicate WellFormed(r: Request)
  {
    r.closing.Complete? || r.closing.Aborted?
  }

  /** The calls with data that is still arriving. */
  function Receive(z: Zones, s: State, r: Request, early: seq<seq<Octet>>): State
    decreases |early|
  {
    if early == [] then s
    else Receive(z, Step(z, s, Call(DataMore, r.isPost, early[0], r.authorized)).0, r, early[1..])
  }

  /** The calls for the reply: until the final chunk, or until the client is gone.  The data comes with the
      first one only. */
  function Answer(z: Zones, s: State, r: Request, data: seq<Octet>, patience: nat): (State, seq<Reply>)
    decreases patience
  {
    if patience == 0 then (s, [])
    else
      var (t, reply) := Step(z, s, Call(DataFinal, r.isPost, data, r.authorized));
      if Final(reply) then (t, [reply])
      else
        var (u, replies) := Answer(z, t, r, [], patience - 1);
        (u, [reply] + replies)
  }

  /** A whole request. */
  function Serve(z: Zones, s: State, r: Request): (State, seq<Reply>)
  {
    var (t, replies) := Answer(z, Receive(z, s, r, r.early), r, r.last, r.patience);
    (Step(z, t, Call(r.closing, r.isPost, [], r.authorized)).0, replies)
  }

  /** Requests one after another, each with the table and the selection of its time. */
  function ServeAll(s: State, requests: seq<(Zones, Request)>): State
    decreases |requests|
  {
    if requests == [] then s else ServeAll(Serve(requests[0].0, s, requests[0].1).0, requests[1..])
  }

  /** Nothing is left behind by any sequence of requests, wherever each was cut off. */
  lemma {:induction false} NothingIsLeftBehind(requests: seq<(Zones, Request)>)
    requires forall k :: 0 <= k < |requests| ==> WellFormed(requests[k].1)
    ensures ServeAll(IDLE, requests) == IDLE
    decreases |requests|
  {
    if requests != [] {
      assert WellFormed(requests[0].1);
      assert Serve(requests[0].0, IDLE, requests[0].1).0 == IDLE;
      NothingIsLeftBehind(requests[1..]);
    }
  }

  // ------------------------------------------------------ the page

  /** The replies that carry the options from `start` on. */
  function Batches(z: Zones, start: nat): seq<Reply>
    decreases |z.names| - start
  {
    if start >= |z.names| then []
    else [Options(Rows(z, start, BatchEnd(z, start)))] + Batches(z, start + PER_CHUNK)
  }

  function Page(z: Zones): seq<Reply>
  {
    [Header] + Batches(z, 0) + [Footer]
  }

  function OptionOf(reply: Reply): string
  {
    if reply.Options? then reply.text else ""
  }

  /** What the options of some replies read, one after another. */
  function OptionText(replies: seq<Reply>): string
  {
    if replies == [] then "" else OptionOf(replies[0]) + OptionText(replies[1..])
  }

  /** The batches hold every option, once and in order, whatever the size of the table. */
  lemma {:induction false} BatchesHoldEveryOption(z: Zones, start: nat)
    requires start <= |z.names|
    ensures OptionText(Batches(z, start)) == Rows(z, start, |z.names|)
    ensures forall k :: 0 <= k < |Batches(z, start)| ==> Batches(z, start)[k].Options?
    decreases |z.names| - start
  {
    hide Rows;
    if start < |z.names| {
      var end := BatchEnd(z, start);
      RowsConcat(z, start, end, |z.names|);
      if start + PER_CHUNK <= |z.names| {
        BatchesHoldEveryOption(z, start + PER_CHUNK);
      } else {
        NoRows(z, |z.names|);
      }
    } else {
      NoRows(z, start);
    }
  }

  lemma NoRows(z: Zones, i: nat)
    requires i <= |z.names|
    ensures Rows(z, i, i) == ""
  {
  }

  /** From state `start + 1` on the handler sends the batches from `start`, then the footer. */
  lemma {:induction false} SendsBatches(z: Zones, s: State, r: Request, data: seq<Octet>, patience: nat, start: nat)
    requires Stored(z) && r.authorized && !r.isPost && s.chunk == start + 1
    ensures var rest := Batches(z, start) + [Footer];
            Answer(z, s, r, data, patience).1 == rest[..Min(patience, |rest|)]
    decreases patience
  {
    hide Rows, Batch;
    var rest := Batches(z, start) + [Footer];
    if patience > 0 {
      var t := Step(z, s, Call(DataFinal, false, data, true)).0;
      if start < |z.names| {
        BatchIsComplete(z, start, BatchEnd(z, start));
        SendsBatches(z, t, r, [], patience - 1, start + PER_CHUNK);
        var tail := Batches(z, start + PER_CHUNK) + [Footer];
        assert rest == [rest[0]] + tail;
        assert rest[..Min(patience, |rest|)] == [rest[0]] + tail[..Min(patience - 1, |tail|)];
      }
    }
  }

  /** After any requests, an authorized GET sends the page, or as much of it as the client waits for. */
  lemma {:induction false} GetSendsThePage(requests: seq<(Zones, Request)>, z: Zones, r: Request)
    requires forall k :: 0 <= k < |requests| ==> WellFormed(requests[k].1)
    requires Stored(z) && !r.isPost && r.authorized
    ensures var replies := Serve(z, ServeAll(IDLE, requests), r).1;
            replies == Page(z)[..Min(r.patience, |Page(z)|)]
  {
    hide Batches, Rows, Batch;
    NothingIsLeftBehind(requests);
    GetReceivesNothing(z, IDLE, r, r.early);
    if r.patience > 0 {
      var t := Step(z, IDLE, Call(DataFinal, false, r.last, true)).0;
      SendsBatches(z, t, r, [], r.patience - 1, 0);
      var tail := Batches(z, 0) + [Footer];
      assert Page(z) == [Header] + tail;
      assert Page(z)[..Min(r.patience, |Page(z)|)] == [Header] + tail[..Min(r.patience - 1, |tail|)];
    }
  }

  lemma {:induction false} GetReceivesNothing(z: Zones, s: State, r: Request, early: seq<seq<Octet>>)
    requires !r.isPost
    ensures Receive(z, s, r, early) == s
    decreases |early|
  {
    if early != [] {
      GetReceivesNothing(z, s, r, early[1..]);
    }
  }

  /** The page: the header, every option exactly once and in order, and the footer as the only final
      chunk, all within two callbacks and one for every thirty options begun. */
  lemma PageIsWhole(z: Zones)
    ensures var p := Page(z);
            && |p| >= 2 && p[0] == Header && p[|p| - 1] == Footer
            && OptionText(p) == Rows(z, 0, |z.names|)
            && (forall k :: 0 <= k < |p| ==> (Final(p[k]) <==> k == |p| - 1))
            && |p| == 2 + (|z.names| + PER_CHUNK - 1) / PER_CHUNK
  {
    hide Batches, Rows;
    var b := Batches(z, 0);
    BatchesHoldEveryOption(z, 0);
    BatchCount(z, 0);
    assert Page(z) == [Header] + (b + [Footer]);
    assert (b + [Footer]) == Page(z)[1..];
    OptionTextConcat(b, [Footer]);
    assert [Footer][1..] == [];
    assert OptionText([Footer]) == "";
    assert OptionText(Page(z)) == "" + OptionText(Page(z)[1..]);
    forall k | 0 <= k < |Page(z)|
      ensures Final(Page(z)[k]) <==> k == |Page(z)| - 1
    {
      assert 0 < k < |Page(z)| - 1 ==> Page(z)[k] == b[k - 1];
    }
  }

  lemma {:induction false} OptionTextConcat(a: seq<Reply>, b: seq<Reply>)
    ensures OptionText(a + b) == OptionText(a) + OptionText(b)
  {
    hide OptionOf;
    if a == [] {
      assert a + b == b;
    } else {
      OptionTextConcat(a[1..], b);
      assert (a + b)[1..] == a[1..] + b;
      var t := OptionOf(a[0]);
      assert t + (OptionText(a[1..]) + OptionText(b)) == (t + OptionText(a[1..])) + OptionText(b);
    }
  }

  lemma {:induction false} BatchCount(z: Zones, start: nat)
    ensures |Batches(z, start)| == if start >= |z.names| then 0 else (|z.names| - start + PER_CHUNK - 1) / PER_CHUNK
    decreases |z.names| - start
  {
    hide Rows;
    if start < |z.names| {
      BatchCount(z, start + PER_CHUNK);
    }
  }

  // ------------------------------------------------------ the form

  function Concat(parts: seq<seq<Octet>>): seq<Octet>
  {
    if parts == [] then [] else parts[0] + Concat(parts[1..])
  }

  /** What is kept of the parts, one after another. */
  function CollectAll(post: seq<Octet>, parts: seq<seq<Octet>>): seq<Octet>
    decreases |parts|
  {
    if parts == [] then post else CollectAll(Collect(post, parts[0]), parts[1..])
  }

  lemma {:induction false} PostCollects(z: Zones, s: State, r: Request, early: seq<seq<Octet>>)
    requires r.isPost
    ensures Receive(z, s, r, early) == s.(post := CollectAll(s.post, early))
    decreases |early|
  {
    if early != [] {
      PostCollects(z, s.(post := Collect(s.post, early[0])), r, early[1..]);
    }
  }

  lemma {:induction false} CollectsAllIff(post: seq<Octet>, parts: seq<seq<Octet>>)
    requires |post| <= POST_SIZE
    ensures |CollectAll(post, parts)| <= POST_SIZE
    ensures |CollectAll(post, parts)| <= |post| + |Concat(parts)|
    ensures |post| + |Concat(parts)| <= POST_SIZE ==> CollectAll(post, parts) == post + Concat(parts)
    decreases |parts|
  {
    hide Concat;
    ConcatStep(parts);
    if parts == [] {
      assert post + [] == post;
    } else {
      var more := Collect(post, parts[0]);
      CollectsAllIff(more, parts[1..]);
      assert post + (parts[0] + Concat(parts[1..])) == (post + parts[0]) + Concat(parts[1..]);
    }
  }

  lemma ConcatStep(parts: seq<seq<Octet>>)
    ensures Concat(parts) == if parts == [] then [] else parts[0] + Concat(parts[1..])
  {
  }

  lemma {:induction false} CollectLast(post: seq<Octet>, parts: seq<seq<Octet>>, last: seq<Octet>)
    ensures CollectAll(post, parts + [last]) == Collect(CollectAll(post, parts), last)
    decreases |parts|
  {
    hide Collect;
    if parts == [] {
      assert parts + [last] == [last];
      assert [last][1..] == [];
    } else {
      CollectLast(Collect(post, parts[0]), parts[1..], last);
      assert (parts + [last])[1..] == parts[1..] + [last];
    }
  }

  /** After any requests, an authorized POST is answered once, and its form handler runs on exactly the
      concatenation of its own data if and only if that is no longer than the buffer. */
  lemma {:induction false} PostIsHandledWhole(requests: seq<(Zones, Request)>, z: Zones, r: Request)
    requires forall k :: 0 <= k < |requests| ==> WellFormed(requests[k].1)
    requires r.isPost && r.authorized && r.patience > 0
    ensures var replies := Serve(z, ServeAll(IDLE, requests), r).1;
            var own := Concat(r.early + [r.last]);
            && |replies| == 1 && replies[0].Saved?
            && replies[0].body == CollectAll([], r.early + [r.last])
            && (replies[0].body == own <==> |own| <= POST_SIZE)
  {
    hide Concat, CollectAll, Collect;
    NothingIsLeftBehind(requests);
    PostCollects(z, IDLE, r, r.early);
    CollectLast([], r.early, r.last);
    CollectsAllIff([], r.early + [r.last]);
    assert [] + Concat(r.early + [r.last]) == Concat(r.early + [r.last]);
  }

  /** Without the password nothing is sent but the 401, and no form is handled. */
  lemma OutsiderGetsNothing(s: State, z: Zones, r: Request)
    requires !r.authorized && r.patience > 0
    ensures Serve(z, s, r).1 == [Unauthorized]
  {
    hide Receive;
  }
}
