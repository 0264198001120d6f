/** `hex_nibble` and `form_get` of src/web/web_ui.cpp: one field of a form body,
    `application/x-www-form-urlencoded` as section 5 of the WHATWG URL Standard has it. */
module FormParser {
  import opened Wrappers

  /** A C `char`, by its code. */
  type Octet = c: char | c as int < 256

  /** `hex_nibble`: -1 for what is no hexadecimal digit. */
  function HexNibble(c: Octet): (r: int)
    ensures -1 <= r < 16
    ensures 0 <= r <==> '0' <= c <= '9' || 'a' <= c <= 'f' || 'A' <= c <= 'F'
  {
    if '0' <= c <= '9' then c as int - '0' as int
    else if 'a' <= c <= 'f' then c as int - 'a' as int + 10
    else if 'A' <= c <= 'F' then c as int - 'A' as int + 10
    else -1
  }

  /** An escape stands at the head of `v`. */
  predicate EscapeAt(v: seq<Octet>)
  {
    |v| >= 3 && v[0] == '%' && HexNibble(v[1]) >= 0 && HexNibble(v[2]) >= 0
  }

  function Unescaped(v: seq<Octet>): Octet
    requires EscapeAt(v)
  {
    (16 * HexNibble(v[1]) + HexNibble(v[2])) as char
  }

  /** A field's value as the inner loop of `form_get` decodes it, before it is cut. */
  function Decode(v: seq<Octet>): seq<Octet>
  {
    if v == [] then []
    else if v[0] == '+' then [' '] + Decode(v[1..])
    else if EscapeAt(v) then [Unescaped(v)] + Decode(v[3..])
    else [v[0]] + Decode(v[1..])
  }

  /** `c` does not occur between `from` and `to`. */
  predicate Free(s: seq<Octet>, c: Octet, from: nat, to: nat)
    requires from <= to <= |s|
  {
    forall j :: from <= j < to ==> s[j] != c
  }

  /** `memchr` from position `from`; the end of `s` stands for its null result. */
  function Find(s: seq<Octet>, c: Octet, from: nat): (k: nat)
    requires from <= |s|
    ensures from <= k <= |s| && Free(s, c, from, k)
    ensures k < |s| ==> s[k] == c
    decreases |s| - from
  {
    if from == |s| || s[from] == c then from else Find(s, c, from + 1)
  }

  /** Where `memchr` stops is fixed by what it promises. */
  lemma FindIs(s: seq<Octet>, c: Octet, from: nat, k: nat)
    requires from <= k <= |s|
    requires Free(s, c, from, k)
    requires k < |s| ==> s[k] == c
    ensures Find(s, c, from) == k
  {
    var f := Find(s, c, from);
    assert !(f < k) && !(k < f);
  }

  lemma FindInTail(s: seq<Octet>, c: Octet, p: nat, from: nat)
    requires p <= p + from <= |s|
    ensures Find(s[p..], c, from) == Find(s, c, p + from) - p
  {
    var k := Find(s, c, p + from) - p;
    var t := s[p..];
    assert forall j :: from <= j < k ==> t[j] == s[p + j];
    FindIs(t, c, from, k);
  }

  /** What `form_get` looks up, before it cuts: the walk from one `=` to the next `&`. */
  function Lookup(body: seq<Octet>, key: seq<Octet>): Option<seq<Octet>>
    decreases |body|, 1
  {
    var eq := Find(body, '=', 0);
    if eq == |body| then None
    else
      var amp := Find(body, '&', eq);
      if body[..eq] == key then Some(Decode(body[eq + 1..amp])) else AfterFirstPair(body, key)
  }

  /** What the walk does after its first pair. */
  function AfterFirstPair(body: seq<Octet>, key: seq<Octet>): Option<seq<Octet>>
    decreases |body|, 0
  {
    var amp := Find(body, '&', Find(body, '=', 0));
    if amp == |body| then None else Lookup(body[amp + 1..], key)
  }

  function Cut(v: seq<Octet>, limit: nat): seq<Octet>
  {
    if |v| <= limit then v else v[..limit]
  }

  // ------------------------------------------------------ the method

  /** What is left of a body from `p` on; `form_get` steps one past the end when no `&` is left. */
  function Rest(body: seq<Octet>, p: nat): seq<Octet>
  {
    if p <= |body| then body[p..] else []
  }

  /** One turn of the walk, by position. */
  lemma LookupAt(body: seq<Octet>, key: seq<Octet>, p: nat, eq: nat, amp: nat)
    requires p < |body| && eq == Find(body, '=', p) && amp == Find(body, '&', eq)
    ensures eq == |body| ==> Lookup(body[p..], key) == None
    ensures eq < |body| && body[p..eq] == key ==> Lookup(body[p..], key) == Some(Decode(body[eq + 1..amp]))
    ensures eq < |body| && body[p..eq] != key ==> Lookup(body[p..], key) == Lookup(Rest(body, amp + 1), key)
  {
    hide Lookup, Find, Free, Decode, Rest, AfterFirstPair;
    var t := body[p..];
    FindInTail(body, '=', p, 0);
    LookupStep(t, key);
    if eq < |body| {
      FindInTail(body, '&', p, eq - p);
      assert t[..eq - p] == body[p..eq];
      assert t[eq - p + 1..amp - p] == body[eq + 1..amp];
      AfterPairAt(body, key, p, eq, amp);
    }
  }

  lemma AfterPairAt(body: seq<Octet>, key: seq<Octet>, p: nat, eq: nat, amp: nat)
    requires p <= eq <= amp <= |body|
    requires Find(body[p..], '=', 0) == eq - p && Find(body[p..], '&', eq - p) == amp - p
    ensures AfterFirstPair(body[p..], key) == Lookup(Rest(body, amp + 1), key)
  {
    hide Lookup, Find, Free, Rest, Decode;
    LookupOfNothing(key);
    RestOfTail(body, p, amp + 1);
  }

  lemma RestOfTail(body: seq<Octet>, p: nat, q: nat)
    requires p <= q && p <= |body|
    ensures Rest(body, q) == if q <= |body| then body[p..][q - p..] else []
  {
  }

  lemma LookupStep(body: seq<Octet>, key: seq<Octet>)
    ensures Find(body, '=', 0) == |body| ==> Lookup(body, key) == None
    ensures Find(body, '=', 0) < |body| && body[..Find(body, '=', 0)] == key ==>
              Lookup(body, key) == Some(Decode(body[Find(body, '=', 0) + 1..Find(body, '&', Find(body, '=', 0))]))
    ensures Find(body, '=', 0) < |body| && body[..Find(body, '=', 0)] != key ==>
              Lookup(body, key) == AfterFirstPair(body, key)
  {
    hide Find, Free, Decode;
  }

  lemma DecodeStep(v: seq<Octet>)
    requires v != []
    ensures v[0] == '+' ==> Decode(v) == [' '] + Decode(v[1..])
    ensures EscapeAt(v) ==> Decode(v) == [Unescaped(v)] + Decode(v[3..])
    ensures v[0] != '+' && !EscapeAt(v) ==> Decode(v) == [v[0]] + Decode(v[1..])
  {
  }

  lemma CutIs(v: seq<Octet>, done: seq<Octet>, rest: seq<Octet>, limit: nat)
    requires v == done + rest && |done| <= limit
    requires rest == [] || |done| == limit
    ensures Cut(v, limit) == done
  {
    assert done == (done + rest)[..|done|];
  }

  /** One turn of the decoding loop, by position. */
  lemma DecodeAt(body: seq<Octet>, v: nat, amp: nat)
    requires v < amp <= |body|
    ensures var c := body[v];
            Decode(body[v..amp]) ==
            if c == '+' then [' '] + Decode(body[v + 1..amp])
            else if c == '%' && v + 2 < amp && HexNibble(body[v + 1]) >= 0 && HexNibble(body[v + 2]) >= 0 then
              [(16 * HexNibble(body[v + 1]) + HexNibble(body[v + 2])) as char] + Decode(body[v + 3..amp])
            else [c] + Decode(body[v + 1..amp])
  {
    var rest := body[v..amp];
    DecodeStep(rest);
    hide Decode, HexNibble;
    assert rest[1..] == body[v + 1..amp];
    if v + 2 < amp {
      assert rest[1] == body[v + 1] && rest[2] == body[v + 2] && rest[3..] == body[v + 3..amp];
    }
  }

  /** The decoding loop: `body[eq + 1 .. amp]` into `out`, cut to what `out` holds beside its NUL. */
  method DecodeInto(body: seq<Octet>, from: nat, amp: nat, out: array<Octet>) returns (n: nat)
    requires from <= amp <= |body|
    requires 0 < out.Length
    modifies out
    ensures n < out.Length
    ensures out[..n] == Cut(Decode(body[from..amp]), out.Length - 1)
    ensures forall j :: n <= j < out.Length ==> out[j] == old(out[j])
  {
    hide Decode, Cut, HexNibble;
    ghost var value := Decode(body[from..amp]);
    var v := from;
    n := 0;
    assert out[..0] == [];
    while v < amp && n < out.Length - 1
      invariant from <= v <= amp && n < out.Length
      invariant value == out[..n] + Decode(body[v..amp])
      invariant forall j :: n <= j < out.Length ==> out[j] == old(out[j])
    {
      ghost var before := out[..n];
      DecodeAt(body, v, amp);
      var c := body[v];
      v := v + 1;
      if c == '+' {
        out[n] := ' ';
      } else if c == '%' && v + 1 < amp {
        var hi := HexNibble(body[v]);
        var lo := HexNibble(body[v + 1]);
        if hi >= 0 && lo >= 0 {
          out[n] := (16 * hi + lo) as char;
          v := v + 2;
        } else {
          out[n] := c;
        }
      } else {
        out[n] := c;
      }
      assert out[..n + 1] == before + [out[n]];
      Regroup(before, out[n], Decode(body[v..amp]));
      n := n + 1;
    }
    DecodeOfNothing();
    assert v == amp ==> body[v..amp] == [];
    CutIs(value, out[..n], Decode(body[v..amp]), out.Length - 1);
  }

  lemma Regroup(a: seq<Octet>, c: Octet, b: seq<Octet>)
    ensures a + ([c] + b) == (a + [c]) + b
  {
  }

  lemma DecodeOfNothing()
    ensures Decode([]) == []
  {
  }

  /** `form_get`.  Without room for the NUL it returns false; otherwise it returns whether the walk found
      the key, and leaves the decoded value, cut and NUL-terminated, in `out`. */
  method FormGet(body: seq<Octet>, key: seq<Octet>, out: array<Octet>) returns (found: bool)
    modifies out
    ensures found <==> out.Length > 0 && Lookup(body, key).Some?
    ensures found ==>
              var v := Cut(Lookup(body, key).value, out.Length - 1);
              |v| < out.Length && out[..|v|] == v && out[|v|] == '\0'
    ensures !found && out.Length > 0 ==> out[0] == '\0'
    ensures !found ==> forall j :: 0 < j < out.Length ==> out[j] == old(out[j])
  {
    hide Lookup, Decode, Find, Free, Cut, Rest;
    if out.Length == 0 {
      return false;
    }
    out[0] := '\0';
    var p := 0;
    RestOf(body);
    while p < |body|
      invariant p <= |body| + 1
      invariant Lookup(Rest(body, p), key) == Lookup(body, key)
      invariant out[0] == '\0'
      invariant forall j :: 0 < j < out.Length ==> out[j] == old(out[j])
      decreases |body| + 1 - p
    {
      RestIsTail(body, p);
      var eq := Find(body, '=', p);
      LookupAt(body, key, p, eq, Find(body, '&', eq));
      if eq == |body| {
        return false;
      }
      var amp := Find(body, '&', eq);
      if body[p..eq] == key {
        var n := DecodeInto(body, eq + 1, amp, out);
        ghost var value := out[..n];
        out[n] := '\0';
        assert out[..n] == value;
        CutLength(Decode(body[eq + 1..amp]), out.Length - 1);
        return true;
      }
      p := amp + 1;
    }
    RestIsEmpty(body, p);
    LookupOfNothing(key);
    return false;
  }

  lemma RestOf(body: seq<Octet>)
    ensures Rest(body, 0) == body
  {
  }

  lemma RestIsTail(body: seq<Octet>, p: nat)
    requires p < |body|
    ensures Rest(body, p) == body[p..]
  {
  }

  lemma RestIsEmpty(body: seq<Octet>, p: nat)
    requires p >= |body|
    ensures Rest(body, p) == []
  {
  }

  lemma CutLength(v: seq<Octet>, limit: nat)
    ensures |Cut(v, limit)| <= limit
  {
  }

  lemma LookupOfNothing(key: seq<Octet>)
    ensures Lookup([], key) == None
  {
  }

  // ------------------------------------------------------ decoding, against the standard

  /** Every `+` replaced by a space. */
  function ReplacePlus(v: seq<Octet>): (r: seq<Octet>)
    ensures |r| == |v|
    ensures forall j :: 0 <= j < |v| ==> r[j] == if v[j] == '+' then ' ' else v[j]
  {
    if v == [] then [] else [if v[0] == '+' then ' ' else v[0]] + ReplacePlus(v[1..])
  }

  const UPPER: seq<Octet> := "0123456789ABCDEF"
  const LOWER: seq<Octet> := "0123456789abcdef"

  /** The place of a character in a row of digits. */
  function IndexIn(digits: seq<Octet>, c: Octet, from: nat): (k: Option<nat>)
    requires from <= |digits|
    ensures k.Some? ==> from <= k.value < |digits| && digits[k.value] == c
    ensures k.None? ==> forall j :: from <= j < |digits| ==> digits[j] != c
    decreases |digits| - from
  {
    if from == |digits| then None else if digits[from] == c then Some(from) else IndexIn(digits, c, from + 1)
  }

  /** The value of a hexadecimal digit in either case. */
  function DigitValue(c: Octet): (v: Option<nat>)
    ensures v.Some? ==> v.value < 16
  {
    var k := IndexIn(UPPER, c, 0);
    if k.Some? then k else IndexIn(LOWER, c, 0)
  }

  lemma DigitsInOrder(k: nat)
    requires k < 16
    ensures UPPER[k] == HexDigit(k) && LOWER[k] as int == if k < 10 then 48 + k else 87 + k
  {
    if
    case k == 0 => case k == 1 => case k == 2 => case k == 3 => case k == 4 => case k == 5 => case k == 6 => case k == 7 =>
    case k == 8 => case k == 9 => case k == 10 => case k == 11 => case k == 12 => case k == 13 => case k == 14 => case k == 15 =>
  }

  /** `hex_nibble` is the value of the digit, and -1 for what is none. */
  lemma NibbleIsDigitValue(c: Octet)
    ensures HexNibble(c) == if DigitValue(c).Some? then DigitValue(c).value else -1
  {
    var n := HexNibble(c);
    if n >= 0 {
      DigitsInOrder(n);
      assert UPPER[n] == c || LOWER[n] == c;
    }
    var k, l := IndexIn(UPPER, c, 0), IndexIn(LOWER, c, 0);
    if k.Some? { DigitsInOrder(k.value); }
    if l.Some? { DigitsInOrder(l.value); }
  }

  /** Percent-decoding, as the standard has it. */
  function PercentDecode(v: seq<Octet>): seq<Octet>
  {
    if v == [] then []
    else if |v| >= 3 && v[0] == '%' && DigitValue(v[1]).Some? && DigitValue(v[2]).Some? then
      [(16 * DigitValue(v[1]).value + DigitValue(v[2]).value) as char] + PercentDecode(v[3..])
    else [v[0]] + PercentDecode(v[1..])
  }

  lemma EscapeIsStandard(v: seq<Octet>)
    requires v != []
    ensures PercentDecode(v) == if EscapeAt(v) then [Unescaped(v)] + PercentDecode(v[3..]) else [v[0]] + PercentDecode(v[1..])
  {
    hide HexNibble, DigitValue;
    if |v| >= 3 {
      NibbleIsDigitValue(v[1]);
      NibbleIsDigitValue(v[2]);
    }
  }

  /** The one-pass decoder does the standard's two passes. */
  lemma {:induction false} DecodesLikeTheStandard(v: seq<Octet>)
    ensures Decode(v) == PercentDecode(ReplacePlus(v))
    decreases |v|
  {
    hide PercentDecode;
    var r := ReplacePlus(v);
    if v == [] {
      DecodesNothing();
    } else {
      assert EscapeAt(v) <==> EscapeAt(r);
      EscapeIsStandard(r);
      if EscapeAt(v) {
        assert r[3..] == ReplacePlus(v[3..]);
        DecodesLikeTheStandard(v[3..]);
      } else {
        assert r[1..] == ReplacePlus(v[1..]);
        DecodesLikeTheStandard(v[1..]);
      }
    }
  }

  lemma DecodesNothing()
    ensures PercentDecode([]) == []
  {
  }

  // ------------------------------------------------------ the transmitter

  /** What the serializer leaves as it is. */
  predicate Plain(c: Octet)
  {
    'a' <= c <= 'z' || 'A' <= c <= 'Z' || '0' <= c <= '9' || c == '*' || c == '-' || c == '.' || c == '_'
  }

  function HexDigit(n: int): Octet
    requires 0 <= n < 16
  {
    if n < 10 then ('0' as int + n) as char else ('A' as int + n - 10) as char
  }

  function EncodeOctet(c: Octet): seq<Octet>
  {
    if Plain(c) then [c]
    else if c == ' ' then ['+']
    else ['%', HexDigit(c as int / 16), HexDigit(c as int % 16)]
  }

  function Encode(v: seq<Octet>): seq<Octet>
  {
    if v == [] then [] else EncodeOctet(v[0]) + Encode(v[1..])
  }

  lemma HexRoundTrip(n: int)
    requires 0 <= n < 16
    ensures HexNibble(HexDigit(n)) == n
    ensures HexDigit(n) != '=' && HexDigit(n) != '&'
  {
  }

  lemma EncodedOctetDecodes(c: Octet, rest: seq<Octet>)
    ensures Decode(EncodeOctet(c) + rest) == [c] + Decode(rest)
    ensures '=' !in EncodeOctet(c) && '&' !in EncodeOctet(c)
  {
    var e := EncodeOctet(c);
    var v := e + rest;
    if Plain(c) || c == ' ' {
      assert v[1..] == rest;
    } else {
      HexRoundTrip(c as int / 16);
      HexRoundTrip(c as int % 16);
      assert v[3..] == rest;
      assert 16 * (c as int / 16) + c as int % 16 == c as int;
    }
  }

  /** Decoding inverts encoding, for every string. */
  lemma {:induction false} DecodeInvertsEncode(v: seq<Octet>)
    ensures Decode(Encode(v)) == v
  {
    if v != [] {
      EncodedOctetDecodes(v[0], Encode(v[1..]));
      DecodeInvertsEncode(v[1..]);
    }
  }

  lemma {:induction false} EncodedHasNoSeparators(v: seq<Octet>)
    ensures '=' !in Encode(v) && '&' !in Encode(v)
  {
    if v != [] {
      EncodedOctetDecodes(v[0], []);
      EncodedHasNoSeparators(v[1..]);
    }
  }

  datatype Field = Field(name: seq<Octet>, value: seq<Octet>)

  function Pair(f: Field): seq<Octet>
  {
    Encode(f.name) + ['='] + Encode(f.value)
  }

  /** A list of fields as a browser submits it. */
  function Serialize(fields: seq<Field>): seq<Octet>
  {
    if fields == [] then []
    else if |fields| == 1 then Pair(fields[0])
    else Pair(fields[0]) + ['&'] + Serialize(fields[1..])
  }

  function First(fields: seq<Field>, name: seq<Octet>): Option<seq<Octet>>
  {
    if fields == [] then None
    else if fields[0].name == name then Some(fields[0].value)
    else First(fields[1..], name)
  }

  lemma EncodeIsInjective(a: seq<Octet>, b: seq<Octet>)
    ensures Encode(a) == Encode(b) ==> a == b
  {
    DecodeInvertsEncode(a);
    DecodeInvertsEncode(b);
  }

  /** One turn of the walk over a body that starts with a pair. */
  lemma LookupPair(f: Field, tail: seq<Octet>, key: seq<Octet>)
    requires tail == [] || tail[0] == '&'
    ensures var body := Pair(f) + tail;
            Lookup(body, key) ==
            if Encode(f.name) == key then Some(Decode(Encode(f.value)))
            else if tail == [] then None
            else Lookup(tail[1..], key)
  {
    hide Encode, Decode, Lookup, Find;
    var body := Pair(f) + tail;
    LookupStep(body, key);
    var n, v := Encode(f.name), Encode(f.value);
    EncodedHasNoSeparators(f.name);
    EncodedHasNoSeparators(f.value);
    var eq, amp := |n|, |n| + 1 + |v|;
    assert body[..eq] == n && body[eq + 1..amp] == v;
    assert forall j :: 0 <= j < eq ==> body[j] == n[j];
    assert forall j :: eq < j < amp ==> body[j] == v[j - eq - 1];
    FindIs(body, '=', 0, eq);
    FindIs(body, '&', eq, amp);
    assert body[amp..] == tail;
    if tail != [] {
      assert body[amp + 1..] == tail[1..];
    }
  }

  /** The lookup finds, in every submitted list of fields, the first value stored under the name, whatever
      octets names and values hold, provided the name asked for is one the serializer leaves alone. */
  lemma {:induction false} FindsFirstValue(fields: seq<Field>, key: seq<Octet>)
    requires Encode(key) == key
    ensures Lookup(Serialize(fields), key) == First(fields, key)
    decreases |fields|
  {
    hide Encode, Decode, Lookup, Pair;
    if fields == [] {
      LookupOfNothing(key);
    } else {
      var f := fields[0];
      var tail := if |fields| == 1 then [] else ['&'] + Serialize(fields[1..]);
      assert Serialize(fields) == Pair(f) + tail;
      LookupPair(f, tail, key);
      DecodeInvertsEncode(f.value);
      EncodeIsInjective(f.name, key);
      FindsFirstValue(fields[1..], key);
      assert |fields| > 1 ==> tail[1..] == Serialize(fields[1..]);
    }
  }

  /** The names that the handler of `/config` asks for are such names. */
  lemma ConfigNamesArePlain()
    ensures forall key :: key in ["station", "lat", "lon", "alt", "mqtt_user", "mqtt_pass", "admin_pw", "tz", "tx"] ==>
              Encode(key) == key
  {
    forall key | key in ["station", "lat", "lon", "alt", "mqtt_user", "mqtt_pass", "admin_pw", "tz", "tx"]
      ensures Encode(key) == key
    {
      PlainIsKept(key);
    }
  }

  lemma {:induction false} PlainIsKept(key: seq<Octet>)
    requires forall j :: 0 <= j < |key| ==> Plain(key[j])
    ensures Encode(key) == key
  {
    if key != [] {
      PlainIsKept(key[1..]);
      assert key == [key[0]] + key[1..];
    }
  }

  // ------------------------------------------------------ any body at all

  /** The segments between the `&`s. */
  function Segments(body: seq<Octet>): seq<seq<Octet>>
    decreases |body|
  {
    var a := Find(body, '&', 0);
    if a == |body| then [body] else [body[..a]] + Segments(body[a + 1..])
  }

  predicate IsPair(segment: seq<Octet>)
  {
    Find(segment, '=', 0) < |segment|
  }

  function Name(segment: seq<Octet>): seq<Octet>
  {
    segment[..Find(segment, '=', 0)]
  }

  function Value(segment: seq<Octet>): seq<Octet>
    requires IsPair(segment)
  {
    segment[Find(segment, '=', 0) + 1..]
  }

  /** The first pair under `key` that does not follow a segment without `=`. */
  function FirstReachable(segments: seq<seq<Octet>>, key: seq<Octet>, afterPair: bool): Option<seq<Octet>>
    decreases |segments|
  {
    if segments == [] then None
    else if !IsPair(segments[0]) then FirstReachable(segments[1..], key, false)
    else if afterPair && Name(segments[0]) == key then Some(Decode(Value(segments[0])))
    else FirstReachable(segments[1..], key, true)
  }

  lemma SegmentsStep(body: seq<Octet>)
    ensures var a := Find(body, '&', 0);
            && Segments(body) == [body[..a]] + (if a == |body| then [] else Segments(body[a + 1..]))
            && (a == |body| ==> body[..a] == body)
  {
    assert Find(body, '&', 0) == |body| ==> body[..|body|] == body;
  }

  /** A segment without `=` makes the search for `=` run on into the next segment. */
  lemma SegmentWithoutEquals(body: seq<Octet>)
    requires Find(body, '&', 0) < Find(body, '=', 0)
    ensures var a := Find(body, '&', 0);
            var rest := body[a + 1..];
            && !IsPair(body[..a])
            && (forall key :: AfterFirstPair(body, key) == AfterFirstPair(rest, key))
            && (Find(rest, '=', 0) < |rest| <==> Find(body, '=', 0) < |body|)
  {
    hide Lookup, Find;
    var a, eq := Find(body, '&', 0), Find(body, '=', 0);
    var rest := body[a + 1..];
    FindIs(body[..a], '=', 0, a);
    FindIs(body, '=', a + 1, eq);
    FindInTail(body, '=', a + 1, 0);
    var amp := Find(body, '&', eq);
    FindInTail(body, '&', a + 1, eq - (a + 1));
    if amp < |body| {
      assert rest[amp - (a + 1) + 1..] == body[amp + 1..];
    }
  }

  lemma SegmentWithEquals(body: seq<Octet>)
    requires Find(body, '=', 0) < Find(body, '&', 0)
    ensures var eq, amp := Find(body, '=', 0), Find(body, '&', 0);
            && IsPair(body[..amp]) && Name(body[..amp]) == body[..eq] && Value(body[..amp]) == body[eq + 1..amp]
            && Find(body, '&', eq) == amp
  {
    var eq, amp := Find(body, '=', 0), Find(body, '&', 0);
    FindIs(body, '&', eq, amp);
    FindIs(body[..amp], '=', 0, eq);
    assert body[..amp][..eq] == body[..eq];
    assert body[..amp][eq + 1..] == body[eq + 1..amp];
  }

  /** `=` and `&` cannot both be where the other is. */
  lemma SeparatorsDiffer(body: seq<Octet>)
    ensures Find(body, '&', 0) == Find(body, '=', 0) ==> Find(body, '&', 0) == |body|
  {
  }

  /** For every body: the lookup returns the first pair under the key that does not directly follow a
      segment without `=`.  Such a pair is swallowed, unlike in the standard. */
  lemma {:induction false} FindsFirstReachable(body: seq<Octet>, key: seq<Octet>)
    requires '&' !in key
    ensures FirstReachable(Segments(body), key, true) == Lookup(body, key)
    ensures FirstReachable(Segments(body), key, false) == AfterFirstPair(body, key)
    decreases |body|
  {
    hide Decode, Find, Free, Lookup, Segments;
    var eq, a := Find(body, '=', 0), Find(body, '&', 0);
    SeparatorsDiffer(body);
    LookupStep(body, key);
    SegmentsStep(body);
    var tail := if a == |body| then [] else Segments(body[a + 1..]);
    if a < |body| {
      FindsFirstReachable(body[a + 1..], key);
    }
    if a < eq {
      SegmentWithoutEquals(body);
      assert eq < |body| ==> body[..eq][a] == '&';
    } else if eq < a {
      SegmentWithEquals(body);
    } else {
      assert body[..a] == body;
    }
  }

  /** So when every segment is a pair, the lookup returns exactly the first pair under the key. */
  lemma {:induction false} AllPairsAreReachable(segments: seq<seq<Octet>>, key: seq<Octet>)
    requires forall j :: 0 <= j < |segments| ==> IsPair(segments[j])
    ensures FirstReachable(segments, key, true).Some? <==>
            exists j :: 0 <= j < |segments| && Name(segments[j]) == key
    ensures forall j :: 0 <= j < |segments| && Name(segments[j]) == key &&
                        (forall i :: 0 <= i < j ==> Name(segments[i]) != key) ==>
              FirstReachable(segments, key, true) == Some(Decode(Value(segments[j])))
    decreases |segments|
  {
    hide Decode, Name, IsPair, Value;
    if segments != [] {
      var rest := segments[1..];
      AllPairsAreReachable(rest, key);
      assert forall j :: 0 < j < |segments| ==> segments[j] == rest[j - 1];
      if Name(segments[0]) != key {
        forall j | 0 <= j < |segments| && Name(segments[j]) == key &&
                   (forall i :: 0 <= i < j ==> Name(segments[i]) != key)
          ensures FirstReachable(segments, key, true) == Some(Decode(Value(segments[j])))
        {
          assert forall i :: 0 <= i < j - 1 ==> Name(rest[i]) == Name(segments[i + 1]);
        }
        if i :| 0 <= i < |rest| && Name(rest[i]) == key {
          assert segments[i + 1] == rest[i];
        }
      }
    }
  }

  /** A pair after a segment without `=` is missed, although the standard finds it. */
  lemma PairAfterBareNameIsMissed()
    ensures Segments("x&tx=1") == ["x", "tx=1"]
    ensures Lookup("x&tx=1", "tx") == None
  {
    var body: seq<Octet> := "x&tx=1";
    FindIs(body, '=', 0, 4);
    FindIs(body, '&', 0, 1);
    FindIs(body, '&', 4, 6);
    var t := body[2..];
    assert t == "tx=1";
    FindIs(t, '&', 0, 4);
    assert body[..4] == "x&tx";
    assert body[..1] == "x";
    assert Segments(t) == [t];
  }
}
