/** `tinygs_json_escape` and `tinygs_build_adv_prm` of src/tinygs_json.cpp, `html_attr_escape` of
    src/web/web_ui.cpp: both escape functions share one shape, so they share one specification. */
module Escaping {
  import opened Wrappers

  /** The two escape functions, by what they replace. */
  datatype Table = Json | Html

  /** What is written for one character. */
  function Entity(t: Table, c: char): (e: string)
    ensures 1 <= |e| <= Factor(t)
  {
    match t
    case Json => if c == '"' || c == '\\' then ['\\', c] else [c]
    case Html =>
      if c == '&' then "&amp;"
      else if c == '\'' then "&#39;"
      else if c == '<' then "&lt;"
      else if c == '>' then "&gt;"
      else [c]
  }

  function Factor(t: Table): nat
  {
    match t
    case Json => 2
    case Html => 5
  }

  function Escaped(t: Table, src: string): string
  {
    if src == [] then [] else Entity(t, src[0]) + Escaped(t, src[1..])
  }

  /** How many characters of `src` have their escapes written whole into `room` bytes, from the left. */
  function Fit(t: Table, src: string, room: int): (k: nat)
    ensures k <= |src|
  {
    if src == [] || |Entity(t, src[0])| > room then 0
    else 1 + Fit(t, src[1..], room - |Entity(t, src[0])|)
  }

  /** A C string: the NUL is not part of it. */
  predicate IsCString(s: string)
  {
    '\0' !in s
  }

  lemma {:induction false} EscapedConcat(t: Table, a: string, b: string)
    ensures Escaped(t, a + b) == Escaped(t, a) + Escaped(t, b)
  {
    hide Entity;
    if a == [] {
      assert a + b == b;
    } else {
      EscapedConcat(t, a[1..], b);
      assert (a + b)[1..] == a[1..] + b;
      var e := Entity(t, a[0]);
      assert e + (Escaped(t, a[1..]) + Escaped(t, b)) == (e + Escaped(t, a[1..])) + Escaped(t, b);
    }
  }

  lemma EscapedNext(t: Table, src: string, i: nat)
    requires i < |src|
    ensures Escaped(t, src[..i + 1]) == Escaped(t, src[..i]) + Entity(t, src[i])
  {
    EscapedConcat(t, src[..i], [src[i]]);
    assert src[..i + 1] == src[..i] + [src[i]];
    assert [src[i]][1..] == [];
  }

  /** `Fit` is the longest prefix whose escapes have room. */
  lemma {:induction false} FitIsLongest(t: Table, src: string, room: nat)
    ensures |Escaped(t, src[..Fit(t, src, room)])| <= room
    ensures Fit(t, src, room) < |src| ==> |Escaped(t, src[..Fit(t, src, room) + 1])| > room
    ensures |Escaped(t, src)| <= room <==> Fit(t, src, room) == |src|
  {
    if src != [] {
      var e := Entity(t, src[0]);
      if |e| <= room {
        FitIsLongest(t, src[1..], room - |e|);
        var k := Fit(t, src[1..], room - |e|);
        assert src[..k + 1][1..] == src[1..][..k];
        if k < |src| - 1 {
          assert src[..k + 2][1..] == src[1..][..k + 1];
        }
      } else {
        assert src[..1][1..] == [];
        assert Escaped(t, src) == e + Escaped(t, src[1..]);
        assert Escaped(t, src[..1]) == e + [];
      }
    }
  }

  lemma {:induction false} FitTail(t: Table, src: string, i: nat, room: int)
    requires i <= |src| && |Escaped(t, src[..i])| <= room
    ensures Fit(t, src, room) == i + Fit(t, src[i..], room - |Escaped(t, src[..i])|)
    decreases i
  {
    if i == 0 {
      assert src[0..] == src;
    } else {
      EscapedNext(t, src, i - 1);
      FitTail(t, src, i - 1, room);
      assert src[i - 1..][1..] == src[i..];
    }
  }

  // ------------------------------------------------------ the methods

  /** What stands in a buffer; nothing if there is none. */
  ghost function Bytes(dst: array?<char>): string
    reads dst
  {
    if dst == null then "" else dst[..]
  }

  /** What an escape function leaves in the `cap` bytes it may use: as many whole escapes as leave room
      for the NUL, and a NUL.  Behind them everything is as it was. */
  ghost predicate Leaves(t: Table, src: string, before: string, after: string, cap: nat)
    requires |before| == |after| && cap <= |after|
  {
    var text := Escaped(t, src);
    if cap == 0 then after == before
    else
      var whole := Escaped(t, src[..Fit(t, src, cap - 1)]);
      && |whole| < cap
      && after[..|whole|] == whole
      && (|text| < cap ==> whole == text && after[|text|] == '\0' && after[|text| + 1..] == before[|text| + 1..])
      && (|text| >= cap ==> after[|whole|..] == before[cap - 1 := '\0'][|whole|..])
  }

  /** The state of the copying loop before character `i`, `n` bytes being needed so far. */
  ghost predicate Copied(t: Table, src: string, before: string, now: string, cap: nat, i: nat, n: nat)
    requires |before| == |now| && cap <= |now| && i <= |src|
  {
    if cap == 0 then now == before
    else
      var k := if n < cap then i else Fit(t, src, cap - 1);
      var whole := Escaped(t, src[..k]);
      && (n < cap ==> |whole| == n)
      && |whole| < cap
      && now[..|whole|] == whole
      && now[|whole|..] == before[|whole|..]
  }

  /** One character is copied if its escape leaves room for the NUL, and only counted otherwise. */
  lemma CopyOne(t: Table, src: string, before: string, now: string, next: string, cap: nat, i: nat, n: nat)
    requires |before| == |now| == |next| && cap <= |now| && i < |src|
    requires n == |Escaped(t, src[..i])|
    requires Copied(t, src, before, now, cap, i, n)
    requires var e := Entity(t, src[i]);
             next == if n + |e| < cap then now[..n] + e + now[n + |e|..] else now
    ensures Copied(t, src, before, next, cap, i + 1, n + |Entity(t, src[i])|)
    ensures n + |Entity(t, src[i])| == |Escaped(t, src[..i + 1])|
  {
    hide Escaped, Entity, Fit;
    var e := Entity(t, src[i]);
    EscapedNext(t, src, i);
    if n + |e| < cap {
      assert now[..n] == Escaped(t, src[..i]) && now[n..] == before[n..];
      assert next[..n + |e|] == now[..n] + e;
      assert next[n + |e|..] == now[n..][|e|..] == before[n..][|e|..] == before[n + |e|..];
    } else if n < cap {
      FitTail(t, src, i, cap - 1);
      FitStops(t, src[i..], cap - 1 - n);
    }
  }

  lemma FitStops(t: Table, src: string, room: int)
    requires src != [] && |Entity(t, src[0])| > room
    ensures Fit(t, src, room) == 0
  {
  }

  lemma CopiedNone(t: Table, src: string, before: string, cap: nat)
    requires cap <= |before|
    ensures Escaped(t, src[..0]) == []
    ensures Copied(t, src, before, before, cap, 0, 0)
  {
  }

  lemma CopiedAll(t: Table, src: string, before: string, now: string, after: string, cap: nat, n: nat)
    requires |before| == |now| == |after| && cap <= |now|
    requires n == |Escaped(t, src[..|src|])| && Copied(t, src, before, now, cap, |src|, n)
    requires cap == 0 ==> after == now
    requires cap > 0 ==> after == now[(if n < cap then n else cap - 1) := '\0']
    ensures n == |Escaped(t, src)| && Leaves(t, src, before, after, cap)
  {
    hide Escaped, Fit;
    assert src[..|src|] == src;
    if cap > 0 {
      FitIsLongest(t, src, cap - 1);
      if n < cap {
        assert after[..n] == now[..n];
        assert after[n + 1..] == now[n..][1..] == before[n..][1..] == before[n + 1..];
      } else {
        var whole := Escaped(t, src[..Fit(t, src, cap - 1)]);
        assert after[..|whole|] == now[..|whole|];
        assert after[|whole|..] == now[|whole|..][cap - 1 - |whole| := '\0'];
        assert before[cap - 1 := '\0'][|whole|..] == before[|whole|..][cap - 1 - |whole| := '\0'];
      }
    }
  }

  lemma JsonEntity(c: char)
    ensures Entity(Json, c) == if c == '"' || c == '\\' then ['\\', c] else [c]
  {
  }

  /** The two stores of an escaped character. */
  method PutPair(dst: array<char>, n: nat, c: char)
    requires n + 2 <= dst.Length
    modifies dst
    ensures dst[..] == old(dst[..n]) + ['\\', c] + old(dst[n + 2..])
  {
    dst[n] := '\\';
    dst[n + 1] := c;
  }

  /** `tinygs_json_escape`.  `dst` may be null to measure only. */
  method JsonEscape(dst: array?<char>, dstlen: nat, src: string) returns (n: nat)
    requires dst != null ==> dstlen <= dst.Length
    modifies dst
    ensures n == |Escaped(Json, src)|
    ensures Leaves(Json, src, old(Bytes(dst)), Bytes(dst), if dst == null then 0 else dstlen)
  {
    hide Escaped, Entity, Copied, Leaves;
    ghost var cap, before := if dst == null then 0 else dstlen, Bytes(dst);
    n := 0;
    var i := 0;
    CopiedNone(Json, src, before, cap);
    while i < |src|
      invariant i <= |src| && n == |Escaped(Json, src[..i])|
      invariant Copied(Json, src, before, Bytes(dst), cap, i, n)
    {
      ghost var now := Bytes(dst);
      JsonEntity(src[i]);
      if src[i] == '"' || src[i] == '\\' {
        if dst != null && n + 2 < dstlen {
          PutPair(dst, n, src[i]);
        }
        CopyOne(Json, src, before, now, Bytes(dst), cap, i, n);
        n := n + 2;
      } else {
        if dst != null && n + 1 < dstlen {
          dst[n] := src[i];
          assert dst[..] == now[..n] + [src[i]] + now[n + 1..];
        }
        CopyOne(Json, src, before, now, Bytes(dst), cap, i, n);
        n := n + 1;
      }
      i := i + 1;
    }
    ghost var now := Bytes(dst);
    if dst != null && dstlen > 0 {
      dst[if n < dstlen then n else dstlen - 1] := '\0';
    }
    CopiedAll(Json, src, before, now, Bytes(dst), cap, n);
  }

  /** `html_attr_escape`. */
  method HtmlAttrEscape(dst: array?<char>, dstlen: nat, src: string) returns (n: nat)
    requires dst != null ==> dstlen <= dst.Length
    modifies dst
    ensures n == |Escaped(Html, src)|
    ensures Leaves(Html, src, old(Bytes(dst)), Bytes(dst), if dst == null then 0 else dstlen)
  {
    hide Escaped, Entity, Copied, Leaves;
    ghost var cap, before := if dst == null then 0 else dstlen, Bytes(dst);
    n := 0;
    var i := 0;
    CopiedNone(Html, src, before, cap);
    while i < |src|
      invariant i <= |src| && n == |Escaped(Html, src[..i])|
      invariant Copied(Html, src, before, Bytes(dst), cap, i, n)
    {
      ghost var now := Bytes(dst);
      var ent := EntityFor(src[i]);
      if ent.Some? {
        var elen := |ent.value|;
        if dst != null && n + elen < dstlen {
          CopyBytes(dst, n, ent.value);
        }
        CopyOne(Html, src, before, now, Bytes(dst), cap, i, n);
        n := n + elen;
      } else {
        if dst != null && n + 1 < dstlen {
          dst[n] := src[i];
          assert dst[..] == now[..n] + [src[i]] + now[n + 1..];
        }
        CopyOne(Html, src, before, now, Bytes(dst), cap, i, n);
        n := n + 1;
      }
      i := i + 1;
    }
    ghost var now := Bytes(dst);
    if dst != null && dstlen > 0 {
      dst[if n < dstlen then n else dstlen - 1] := '\0';
    }
    CopiedAll(Html, src, before, now, Bytes(dst), cap, n);
  }

  /** The `switch` of `html_attr_escape`. */
  method EntityFor(c: char) returns (ent: Option<string>)
    ensures Entity(Html, c) == if ent.Some? then ent.value else [c]
  {
    match c {
      case '&' => ent := Some("&amp;");
      case '\'' => ent := Some("&#39;");
      case '<' => ent := Some("&lt;");
      case '>' => ent := Some("&gt;");
      case _ => ent := None;
    }
  }

  /** `memcpy`. */
  method CopyBytes(dst: array<char>, at: nat, bytes: string)
    requires at + |bytes| <= dst.Length
    modifies dst
    ensures dst[..] == old(dst[..at]) + bytes + old(dst[at + |bytes|..])
  {
    for k := 0 to |bytes|
      invariant dst[..] == old(dst[..at]) + bytes[..k] + old(dst[at + k..])
    {
      dst[at + k] := bytes[k];
    }
  }

  // ------------------------------------------------------ reading back

  /** The character an entity of `html_attr_escape` stands for, with its length. */
  function ReadEntity(s: string): (char, nat)
    requires s != []
  {
    if s[0] != '&' then (s[0], 1)
    else if "&amp;" <= s then ('&', 5)
    else if "&#39;" <= s then ('\'', 5)
    else if "&lt;" <= s then ('<', 4)
    else if "&gt;" <= s then ('>', 4)
    else ('&', 1)
  }

  /** An attribute value as a browser reads it, for these four references. */
  function ReadAttribute(s: string): string
    decreases |s|
  {
    if s == [] then [] else
      var (c, n) := ReadEntity(s);
      [c] + ReadAttribute(s[n..])
  }

  /** What may follow a backslash, as section 7 of RFC 8259 has it; `\u` is not among them here. */
  function ReadEscape(c: char): Option<char>
  {
    if c == '"' || c == '\\' || c == '/' then Some(c)
    else if c == 'b' then Some('\U{8}')
    else if c == 'f' then Some('\U{c}')
    else if c == 'n' then Some('\n')
    else if c == 'r' then Some('\r')
    else if c == 't' then Some('\t')
    else None
  }

  /** The inside of a JSON string literal; `None` if it is none. */
  function ReadJson(s: string): Option<string>
    decreases |s|
  {
    if s == [] then Some([])
    else if s[0] == '"' || s[0] < ' ' then None
    else
      var first := if s[0] != '\\' then Some(s[0]) else if |s| < 2 then None else ReadEscape(s[1]);
      var rest := ReadJson(s[(if s[0] == '\\' && |s| >= 2 then 2 else 1)..]);
      if first.None? || rest.None? then None else Some([first.value] + rest.value)
  }

  predicate HasControl(s: string)
  {
    exists k :: 0 <= k < |s| && s[k] < ' '
  }

  lemma JsonReadsBack(c: char, rest: string)
    ensures ReadJson(Entity(Json, c) + rest) ==
            if c < ' ' || ReadJson(rest).None? then None else Some([c] + ReadJson(rest).value)
  {
    var s := Entity(Json, c) + rest;
    if c == '"' || c == '\\' {
      assert s[0] == '\\' && s[1] == c && s[2..] == rest;
    } else {
      assert s[0] == c && s[1..] == rest;
    }
  }

  lemma ControlFirst(src: string)
    requires src != []
    ensures HasControl(src) <==> src[0] < ' ' || HasControl(src[1..])
  {
    assert forall k :: 1 <= k < |src| ==> src[k] == src[1..][k - 1];
  }

  /** Escaping for JSON: the text is a JSON string exactly if the source holds no control character, and
      then it stands for the source. */
  lemma {:induction false} JsonRoundTrip(src: string)
    ensures ReadJson(Escaped(Json, src)) == if HasControl(src) then None else Some(src)
  {
    hide Entity, ReadJson, HasControl;
    if src == [] {
      NothingReads();
    } else {
      JsonRoundTrip(src[1..]);
      JsonReadsBack(src[0], Escaped(Json, src[1..]));
      ControlFirst(src);
      assert src == [src[0]] + src[1..];
    }
  }

  lemma NothingReads()
    ensures ReadJson([]) == Some([]) && !HasControl([])
  {
  }

  /** A reader that takes what follows a backslash for itself. */
  function Unescape(s: string): string
  {
    if s == [] then []
    else if s[0] == '\\' && |s| >= 2 then [s[1]] + Unescape(s[2..])
    else [s[0]] + Unescape(s[1..])
  }

  /** To such a reader the text stands for the source, whatever the source holds. */
  lemma {:induction false} UnescapeInvertsEscape(src: string)
    ensures Unescape(Escaped(Json, src)) == src
  {
    if src != [] {
      var e, rest := Entity(Json, src[0]), Escaped(Json, src[1..]);
      UnescapeInvertsEscape(src[1..]);
      assert (e + rest)[|e|..] == rest;
      assert src == [src[0]] + src[1..];
    }
  }

  lemma EntityReadsBack(c: char, rest: string)
    ensures ReadEntity(Entity(Html, c) + rest) == (c, |Entity(Html, c)|)
  {
    var s := Entity(Html, c) + rest;
    if c == '&' {
      assert s[..5] == "&amp;";
    } else if c == '\'' {
      assert s[1] == '#';
      assert s[..5] == "&#39;";
    } else if c == '<' {
      assert s[1] == 'l';
      assert s[..4] == "&lt;";
    } else if c == '>' {
      assert s[1] == 'g';
      assert s[..4] == "&gt;";
    }
  }

  lemma AttributeReadsBack(c: char, rest: string)
    ensures ReadAttribute(Entity(Html, c) + rest) == [c] + ReadAttribute(rest)
    ensures '\'' !in Entity(Html, c) && '<' !in Entity(Html, c) && '>' !in Entity(Html, c)
  {
    hide ReadEntity;
    var e := Entity(Html, c);
    EntityReadsBack(c, rest);
    assert (e + rest)[|e|..] == rest;
  }

  /** Escaping for an attribute: the text stands for the source, and cannot end the attribute or open a tag. */
  lemma {:induction false} HtmlRoundTrip(src: string)
    ensures ReadAttribute(Escaped(Html, src)) == src
    ensures '\'' !in Escaped(Html, src) && '<' !in Escaped(Html, src) && '>' !in Escaped(Html, src)
  {
    hide Entity, ReadAttribute;
    if src == [] {
      NothingToRead();
    } else {
      HtmlRoundTrip(src[1..]);
      AttributeReadsBack(src[0], Escaped(Html, src[1..]));
      assert src == [src[0]] + src[1..];
    }
  }

  lemma NothingToRead()
    ensures ReadAttribute([]) == []
  {
  }

  // ------------------------------------------------------ room

  lemma {:induction false} AtMostFactor(t: Table, src: string)
    ensures |src| <= |Escaped(t, src)| <= Factor(t) * |src|
  {
    if src != [] {
      AtMostFactor(t, src[1..]);
    }
  }

  /** The character that grows most. */
  function Worst(t: Table, n: nat): (s: string)
    ensures |s| == n
  {
    seq(n, _ => if t == Json then '"' else '&')
  }

  lemma {:induction false} WorstGrows(t: Table, n: nat)
    ensures |Escaped(t, Worst(t, n))| == Factor(t) * n
  {
    if n > 0 {
      WorstGrows(t, n - 1);
      assert Worst(t, n)[1..] == Worst(t, n - 1);
    }
  }

  /** Every string that fits a buffer of `size` bytes, NUL included, is escaped in full into `dstlen`. */
  ghost predicate NeverTruncates(t: Table, size: nat, dstlen: nat)
  {
    forall src: string :: |src| < size ==> |Escaped(t, src)| < dstlen
  }

  /** A buffer is large enough exactly if it holds the source's every character at the full factor. */
  lemma NeverTruncatesIff(t: Table, size: nat, dstlen: nat)
    requires size > 0
    ensures NeverTruncates(t, size, dstlen) <==> Factor(t) * (size - 1) < dstlen
  {
    if Factor(t) * (size - 1) < dstlen {
      forall src: string | |src| < size
        ensures |Escaped(t, src)| < dstlen
      {
        AtMostFactor(t, src);
        assert Factor(t) * |src| <= Factor(t) * (size - 1);
      }
    } else {
      WorstGrows(t, size - 1);
    }
  }

  /** The buffers of the repository: modem_conf, satellite and the stored adv_prm for JSON; the station's
      name and the MQTT user for the page. */
  lemma BuffersSuffice()
    ensures NeverTruncates(Json, 512, 1024)
    ensures NeverTruncates(Json, 32, 80)
    ensures NeverTruncates(Json, 256, 1024)
    ensures NeverTruncates(Html, 32, 5 * 32 + 1)
    ensures NeverTruncates(Html, 64, 5 * 64 + 1)
  {
    hide NeverTruncates;
    NeverTruncatesIff(Json, 512, 1024);
    NeverTruncatesIff(Json, 32, 80);
    NeverTruncatesIff(Json, 256, 1024);
    NeverTruncatesIff(Html, 32, 161);
    NeverTruncatesIff(Html, 64, 321);
  }

  // ------------------------------------------------------ the adv_prm message

  const OPEN := "{\"adv_prm\":\""
  const CLOSE := "\"}"

  function Message(adv: string): string
  {
    OPEN + Escaped(Json, adv) + CLOSE
  }

  /** `snprintf` of a text without NUL. */
  method Print(buf: array<char>, buflen: nat, text: string) returns (n: nat)
    requires 0 < buflen <= buf.Length
    modifies buf
    ensures n == |text|
    ensures n < buflen ==> buf[..n] == text && buf[n] == '\0'
    ensures n >= buflen ==> buf[..buflen - 1] == text[..buflen - 1] && buf[buflen - 1] == '\0'
    ensures buf[buflen..] == old(buf[buflen..])
  {
    n := |text|;
    var room := if n < buflen then n else buflen - 1;
    for k := 0 to room
      invariant buf[..k] == text[..k]
      invariant buf[buflen..] == old(buf[buflen..])
    {
      buf[k] := text[k];
    }
    buf[room] := '\0';
    assert buf[..room] == text[..room];
    assert text[..|text|] == text;
  }

  /** The C string a buffer holds whose first NUL is at `n`. */
  lemma HeldString(s: string, n: nat)
    requires n < |s| && s[n] == '\0' && '\0' !in s[..n]
    ensures UpTo(s, '\0') == s[..n]
  {
    UpToStops(s, n, '\0');
    UpToAll(s[..n], '\0');
  }

  lemma {:induction false} EscapedHasNoNul(src: string)
    requires IsCString(src)
    ensures IsCString(Escaped(Json, src))
  {
    if src != [] {
      EscapedHasNoNul(src[1..]);
      assert src[0] in src;
    }
  }

  /** `tinygs_build_adv_prm`, `esc` being its static buffer: -1, or the length of the message, which then
      stands in the buffer whole.  The value in the message is what reads as a C string from the static
      buffer; it is the escaped value if that needs fewer than 1024 characters. */
  method BuildAdvPrm(buf: array?<char>, buflen: nat, advPrm: Option<string>, esc: array<char>) returns (n: int)
    requires esc.Length == 1024 && buf != esc
    requires buf != null ==> buflen <= buf.Length
    requires advPrm.Some? ==> IsCString(advPrm.value)
    modifies buf, esc
    ensures buf == null || buflen < 16 ==> n == -1
    ensures buf != null && buflen >= 16 ==>
            && Leaves(Json, if advPrm.Some? then advPrm.value else "", old(esc[..]), esc[..], 1024)
            && var text := OPEN + UpTo(esc[..], '\0') + CLOSE;
            && n == (if |text| < buflen then |text| else -1)
            && buf[..Min(|text|, buflen - 1)] == text[..Min(|text|, buflen - 1)]
            && buf[Min(|text|, buflen - 1)] == '\0'
            && buf[buflen..] == old(buf[buflen..])
    ensures var adv := if advPrm.Some? then advPrm.value else "";
            buf != null && buflen >= 16 && |Escaped(Json, adv)| < 1024 ==>
            && n == (if |Message(adv)| < buflen then |Message(adv)| else -1)
            && (n >= 0 ==> buf[..n] == Message(adv) && buf[n] == '\0')
  {
    hide Escaped, UpTo;
    if buf == null || buflen < 16 {
      return -1;
    }
    var adv := if advPrm.Some? then advPrm.value else "";
    var len := JsonEscape(esc, esc.Length, adv);
    var inner := UpTo(esc[..], '\0');
    if len < 1024 {
      EscapedHasNoNul(adv);
      HeldString(esc[..], len);
    }
    n := Print(buf, buflen, OPEN + inner + CLOSE);
    if n >= buflen {
      return -1;
    }
  }

  /** For the stored advanced parameters the message says -1 only for want of room in the buffer itself,
      and never more than 524 characters are needed. */
  lemma StoredAdvPrmFits(adv: string)
    requires |adv| < 256
    ensures |Escaped(Json, adv)| < 1024 && 14 + |adv| <= |Message(adv)| <= 524
    ensures ReadJson(Message(adv)[12..|Message(adv)| - 2]) == if HasControl(adv) then None else Some(adv)
  {
    hide Escaped, ReadJson, HasControl;
    AtMostFactor(Json, adv);
    JsonRoundTrip(adv);
    assert |OPEN| == 12 && |CLOSE| == 2;
    assert Message(adv)[12..|Message(adv)| - 2] == Escaped(Json, adv);
  }

  // ------------------------------------------------------ the message as JSON

  /** Where the literal that begins in front of `s` ends: at the first quotation mark that no backslash escapes. */
  function LiteralEnd(s: string): (n: Option<nat>)
    ensures n.Some? ==> n.value < |s| && s[n.value] == '"'
    decreases |s|
  {
    if s == [] then None
    else if s[0] == '"' then Some(0)
    else
      var k := if s[0] == '\\' && |s| >= 2 then 2 else 1;
      match LiteralEnd(s[k..])
      case None => None
      case Some(n) => Some(k + n)
  }

  /** A string literal at the head of a text, and what follows it. */
  function ReadLiteral(s: string): Option<(string, string)>
  {
    if s == [] || s[0] != '"' then None
    else
      match LiteralEnd(s[1..])
      case None => None
      case Some(n) =>
        var v := ReadJson(s[1..][..n]);
        if v.None? then None else Some((v.value, s[1..][n + 1..]))
  }

  /** An object with one member whose value is a string, without white space. */
  function ReadObject(s: string): Option<(string, string)>
  {
    if s == [] || s[0] != '{' then None
    else
      var name := ReadLiteral(s[1..]);
      if name.None? || name.value.1 == [] || name.value.1[0] != ':' then None
      else
        var value := ReadLiteral(name.value.1[1..]);
        if value.None? || value.value.1 != "}" then None else Some((name.value.0, value.value.0))
  }

  lemma {:induction false} EscapedEndsThere(src: string, rest: string)
    ensures LiteralEnd(Escaped(Json, src) + ("\"" + rest)) == Some(|Escaped(Json, src)|)
  {
    hide LiteralEnd, Entity;
    if src == [] {
      EndsAtOnce(rest);
      assert Escaped(Json, src) + ("\"" + rest) == "\"" + rest;
    } else {
      EscapedEndsThere(src[1..], rest);
      var e, more := Entity(Json, src[0]), Escaped(Json, src[1..]);
      assert e + more + ("\"" + rest) == e + (more + ("\"" + rest));
      OneCharacter(src[0], more + ("\"" + rest));
    }
  }

  lemma EndsAtOnce(rest: string)
    ensures LiteralEnd("\"" + rest) == Some(0)
  {
  }

  lemma OneCharacter(c: char, s: string)
    requires LiteralEnd(s).Some?
    ensures var e := Entity(Json, c); LiteralEnd(e + s) == Some(|e| + LiteralEnd(s).value)
  {
    var e := Entity(Json, c);
    assert (e + s)[|e|..] == s;
    assert (e + s)[0] == e[0];
  }

  /** An escaped text between quotation marks is a literal of the source, if that has no control character, and
      none otherwise. */
  lemma LiteralReadsBack(src: string, rest: string)
    ensures ReadLiteral("\"" + Escaped(Json, src) + "\"" + rest) == if HasControl(src) then None else Some((src, rest))
  {
    EscapedEndsThere(src, rest);
    JsonRoundTrip(src);
    hide Escaped, LiteralEnd, ReadJson, HasControl;
    var e := Escaped(Json, src);
    var s := "\"" + e + "\"" + rest;
    assert s[1..] == e + ("\"" + rest);
    assert s[1..][..|e|] == e && s[1..][|e| + 1..] == rest;
  }

  lemma {:induction false} NothingToEscape(s: string)
    requires '"' !in s && '\\' !in s
    ensures Escaped(Json, s) == s
  {
    if s != [] {
      NothingToEscape(s[1..]);
      assert s[0] in s && s == [s[0]] + s[1..];
    }
  }

  lemma NoControl(s: string)
    requires s == "adv_prm"
    ensures !HasControl(s)
  {
  }

  /** The whole message is a JSON object whose one member, `adv_prm`, stands for the source, if and only if the
      source holds no control character. */
  lemma MessageIsObject(adv: string)
    ensures ReadObject(Message(adv)) == if HasControl(adv) then None else Some(("adv_prm", adv))
  {
    hide Escaped, ReadLiteral, HasControl;
    NothingToEscape("adv_prm");
    NoControl("adv_prm");
    var e := Escaped(Json, adv);
    var tail := "\"" + e + "\"" + "}";
    LiteralReadsBack("adv_prm", ":" + tail);
    LiteralReadsBack(adv, "}");
    var m := Message(adv);
    assert m == "{" + ("\"" + "adv_prm" + "\"" + (":" + tail));
    assert m[1..] == "\"" + "adv_prm" + "\"" + (":" + tail);
    assert (":" + tail)[1..] == tail;
  }
}
