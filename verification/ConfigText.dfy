/** What the extractors of `ConfigSync` read, on the text itself, and what they read of the file the device
    writes: the other half of the synchronisation. */
module ConfigText {
  import opened Wrappers
  import opened ConfigSync

  // ------------------------------------------------------ the text itself

  predicate At(text: string, key: string, i: nat)
  {
    i + |key| <= |text| && text[i..i + |key|] == key
  }

  /** The key stands at `i`, and nowhere before. */
  ghost predicate FirstAt(text: string, key: string, i: nat)
  {
    At(text, key, i) && forall j: nat :: j < i ==> !At(text, key, j)
  }

  /** `strstr` finds the first occurrence, and nothing exactly if there is none. */
  lemma {:induction false} FindsFirst(text: string, key: string, from: nat)
    ensures match Find(text, key, from)
            case None => forall j: nat :: from <= j ==> !At(text, key, j)
            case Some(i) => from <= i && At(text, key, i) && forall j: nat :: from <= j < i ==> !At(text, key, j)
    decreases |text| - from
  {
    if from + |key| <= |text| && text[from..from + |key|] != key {
      FindsFirst(text, key, from + 1);
    }
  }

  lemma FoundAt(text: string, key: string, i: nat)
    requires FirstAt(text, key, i)
    ensures Find(text, key, 0) == Some(i) && After(text, key) == Some(text[i + |key|..])
  {
    FindsFirst(text, key, 0);
    hide Find, At;
  }

  lemma NotFound(text: string, key: string)
    requires forall j: nat :: !At(text, key, j)
    ensures After(text, key) == None
  {
    FindsFirst(text, key, 0);
    hide Find, At;
  }

  predicate Blank(s: string)
  {
    forall k :: 0 <= k < |s| ==> s[k] == ' ' || s[k] == '\t'
  }

  lemma {:induction false} BlanksSkipped(blanks: string, rest: string)
    requires Blank(blanks) && (rest == [] || (rest[0] != ' ' && rest[0] != '\t'))
    ensures SkipBlanks(blanks + rest) == rest
  {
    if blanks == [] {
      assert blanks + rest == rest;
    } else {
      assert (blanks + rest)[1..] == blanks[1..] + rest;
      BlanksSkipped(blanks[1..], rest);
    }
  }

  /** The switch: behind the first occurrence of the key and blanks, `true` or 1 means 1, `false` or 0 means 0,
      and anything else leaves the default. */
  lemma ReadsSwitch(text: string, key: string, i: nat, blanks: string, rest: string, default: int)
    requires FirstAt(text, key, i) && text[i + |key|..] == blanks + rest
    requires Blank(blanks) && (rest == [] || (rest[0] != ' ' && rest[0] != '\t'))
    ensures ExtractBool(text, key, default) ==
            if At(rest, "true", 0) || At(rest, "1", 0) then 1
            else if At(rest, "false", 0) || At(rest, "0", 0) then 0
            else default
  {
    FoundAt(text, key, i);
    BlanksSkipped(blanks, rest);
    hide After;
    Begins(rest, "true");
    Begins(rest, "false");
    Begins(rest, "1");
    Begins(rest, "0");
    hide At, SkipBlanks;
    assert "true" <= rest ==> rest[0] == 't';
    assert "false" <= rest ==> rest[0] == 'f';
    assert "1" <= rest ==> rest[0] == '1';
  }

  lemma Begins(rest: string, word: string)
    ensures word <= rest <==> At(rest, word, 0)
  {
  }

  /** The string: what stands between the key and the next quotation mark, cut to the buffer; nothing if there
      is no mark. */
  lemma ReadsString(text: string, key: string, i: nat, v: string, rest: string, size: nat)
    requires FirstAt(text, key, i) && size > 0 && '"' !in v && text[i + |key|..] == v + rest
    requires rest == [] || rest[0] == '"'
    ensures ExtractString(text, key, size) ==
            if rest == [] then None else Some(if |v| < size then v else v[..size - 1])
  {
    FoundAt(text, key, i);
    FirstMark(v, rest);
    hide Find, After;
    var t := v + rest;
    assert t[..|v|] == v;
    assert |v| >= size ==> t[..size - 1] == v[..size - 1];
  }

  lemma FirstMark(v: string, rest: string)
    requires '"' !in v && (rest == [] || rest[0] == '"')
    ensures Find(v + rest, "\"", 0) == if rest == [] then None else Some(|v|)
  {
    var t := v + rest;
    FindsFirst(t, "\"", 0);
    hide Find;
    forall j: nat | j < |t|
      ensures At(t, "\"", j) ==> t[j] == '"'
    {
      assert At(t, "\"", j) ==> t[j..j + 1][0] == t[j];
    }
    if rest != [] {
      assert t[|v|..|v| + 1] == "\"";
      assert At(t, "\"", |v|);
    }
  }

  /** The numbers: what the C library makes of the text behind the key. */
  lemma ReadsNumber(text: string, key: string, i: nat, rest: string, r: real, n: int, lib: Libc)
    requires FirstAt(text, key, i) && text[i + |key|..] == rest
    ensures ExtractFloat(text, key, r, lib) == lib.strtof(rest)
    ensures ExtractInt(text, key, n, lib) == lib.atoi(rest)
  {
    FoundAt(text, key, i);
  }

  /** Without the key nothing is read. */
  lemma ReadsNothing(text: string, key: string, r: real, n: int, b: int, size: nat, lib: Libc)
    requires size > 0 && forall j: nat :: !At(text, key, j)
    ensures ExtractFloat(text, key, r, lib) == r && ExtractInt(text, key, n, lib) == n
    ensures ExtractBool(text, key, b) == b && ExtractString(text, key, size) == None
  {
    NotFound(text, key);
  }

  /** Of the file only the first 383 characters are read. */
  lemma LongFileIsCut(c: string)
    requires |c| >= SNAPSHOT_MAX
    ensures ReadFile(File(c)) == ReadFile(File(c[..SNAPSHOT_MAX - 1]))
  {
    assert c[..SNAPSHOT_MAX - 1][..SNAPSHOT_MAX - 1] == c[..SNAPSHOT_MAX - 1];
  }

  // ------------------------------------------------------ where a key stands in the device's file

  /** The search key of a number or of the switch. */
  function NumberKey(name: string): string
  {
    "\"" + name + "\":"
  }

  lemma OccursAt(key: string, text: string)
    ensures Occurs(key, text) <==> exists i: nat :: At(text, key, i)
    ensures Occurs(key, text) <==> After(text, key).Some?
  {
    FindsFirst(text, key, 0);
    hide Find, At;
  }

  lemma AtInside(x: string, y: string, z: string, key: string, i: nat)
    requires key != []
    ensures i + |key| <= |x| ==> (At(x + y + z, key, i) <==> At(x, key, i))
    ensures At(x + y + z, key, |x| + |y| + i) <==> At(z, key, i)
  {
    var t := x + y + z;
    if i + |key| <= |x| {
      assert t[i..i + |key|] == x[i..i + |key|];
    }
    if i + |key| <= |z| {
      assert t[|x| + |y| + i..|x| + |y| + i + |key|] == z[i..i + |key|];
    }
  }

  /** Behind a part without the key, and a character that is not in the key, the search begins anew. */
  lemma SearchGoesOn(x: string, c: char, y: string, key: string)
    requires c !in key && key != [] && !Occurs(key, x)
    ensures After(x + [c] + y, key) == After(y, key)
  {
    if After(y, key).Some? {
      var i := FirstOccurrence(y, key);
      FirstMovesOn(x, c, y, key, i);
      FoundAt(x + [c] + y, key, |x| + 1 + i);
      FoundAt(y, key, i);
      hide After, FirstAt, Occurs;
      SameTail(x + [c], y, i + |key|);
      assert |x + [c]| == |x| + 1;
    } else {
      StillAbsent(x, c, y, key);
      NotFound(x + [c] + y, key);
    }
  }

  lemma FirstOccurrence(y: string, key: string) returns (i: nat)
    requires After(y, key).Some?
    ensures FirstAt(y, key, i)
  {
    FindsFirst(y, key, 0);
    i := Find(y, key, 0).value;
  }

  lemma FirstMovesOn(x: string, c: char, y: string, key: string, i: nat)
    requires c !in key && key != [] && !Occurs(key, x) && FirstAt(y, key, i)
    ensures FirstAt(x + [c] + y, key, |x| + 1 + i)
  {
    hide At, Occurs;
    NoneBefore(x, c, y, key);
    Behind(x, c, y, key, i);
    forall j: nat | j < |x| + 1 + i
      ensures !At(x + [c] + y, key, j)
    {
      if j >= |x| + 1 { Behind(x, c, y, key, j - |x| - 1); }
    }
  }

  lemma StillAbsent(x: string, c: char, y: string, key: string)
    requires c !in key && key != [] && !Occurs(key, x) && After(y, key) == None
    ensures forall j: nat :: !At(x + [c] + y, key, j)
  {
    FindsFirst(y, key, 0);
    hide At, Occurs, Find;
    NoneBefore(x, c, y, key);
    forall j: nat
      ensures !At(x + [c] + y, key, j)
    {
      if j >= |x| + 1 { Behind(x, c, y, key, j - |x| - 1); }
    }
  }

  lemma SameTail(x: string, y: string, k: nat)
    requires k <= |y|
    ensures (x + y)[|x| + k..] == y[k..]
  {
  }

  lemma NoneBefore(x: string, c: char, y: string, key: string)
    requires c !in key && key != [] && !Occurs(key, x)
    ensures forall i: nat :: i < |x| + 1 ==> !At(x + [c] + y, key, i)
  {
    var t := x + [c] + y;
    FindsFirst(x, key, 0);
    hide Find;
    forall i: nat | i < |x| + 1
      ensures !At(t, key, i)
    {
      AtInside(x, [c], y, key, i);
      if At(t, key, i) && i + |key| > |x| {
        InsideOccurrence(t, key, i, |x|);
      }
    }
  }

  lemma Behind(x: string, c: char, y: string, key: string, i: nat)
    requires key != []
    ensures At(x + [c] + y, key, |x| + 1 + i) <==> At(y, key, i)
  {
    AtInside(x, [c], y, key, i);
  }

  /** A key of the form mark, `a`, mark, colon occurs only where a segment `a` is followed by one that begins
      with a colon. */
  lemma {:induction false} KeyStandsBeforeColon(segs: seq<string>, a: string, i: nat) returns (j: nat)
    requires segs != [] && NoQuotes(segs) && '"' !in a && At(Quoted(segs), NumberKey(a), i)
    ensures 0 < j && j + 1 < |segs| && segs[j] == a
    ensures Quoted(segs)[i + |NumberKey(a)| - 1..] == Quoted(segs[j + 1..]) && ":" <= Quoted(segs[j + 1..])
    decreases |segs|
  {
    var key := NumberKey(a);
    var t := Quoted(segs);
    assert t[i] == t[i..i + |key|][0] == '"';
    MarkNeedsTwo(segs, i);
    var n := |segs[0]|;
    var u := Quoted(segs[1..]);
    assert t == segs[0] + "\"" + u;
    if i == n {
      assert u[..|key| - 1] == t[i..i + |key|][1..];
      KeyTail(u, a);
      var x := u[|a| + 1..];
      MarkNeedsTwo(segs[1..], |a|);
      FirstSegment(segs[1], Quoted(segs[1..][1..]), a, x);
      assert segs[1..][1..] == segs[2..];
      assert t[i + |key| - 1..] == x;
      j := 1;
    } else {
      var k := i - n - 1;
      assert u[k..k + |key|] == t[i..i + |key|];
      j := KeyStandsBeforeColon(segs[1..], a, k);
      assert segs[1..][j + 1..] == segs[j + 2..];
      assert t[i + |key| - 1..] == u[k + |key| - 1..];
      j := j + 1;
    }
  }

  lemma KeyTail(u: string, a: string)
    requires |u| >= |NumberKey(a)| - 1 && u[..|NumberKey(a)| - 1] == NumberKey(a)[1..]
    ensures |u| > |a| + 1 && u == a + "\"" + u[|a| + 1..] && ":" <= u[|a| + 1..]
  {
    assert NumberKey(a)[1..] == a + "\":";
    assert u[..|a| + 2] == a + "\":";
    assert u[..|a| + 2][..|a|] == u[..|a|] == a;
    assert u[..|a| + 2][|a|] == u[|a|] == '"' && u[..|a| + 2][|a| + 1] == u[|a| + 1] == ':';
  }

  /** And there it does occur. */
  lemma {:induction false} KeyStands(segs: seq<string>, a: string, j: nat) returns (i: nat)
    requires segs != [] && 0 < j && j + 1 < |segs| && segs[j] == a && ":" <= Quoted(segs[j + 1..])
    ensures At(Quoted(segs), NumberKey(a), i)
    decreases j
  {
    var t, u := Quoted(segs), Quoted(segs[1..]);
    var n := |segs[0]|;
    QuotedStep(segs);
    if j == 1 {
      i := n;
      var x := Quoted(segs[2..]);
      QuotedStep(segs[1..]);
      assert segs[1..][1..] == segs[2..];
      assert t == segs[0] + ("\"" + a + "\"" + x);
      assert x == ":" + x[1..];
      assert t == segs[0] + (NumberKey(a) + x[1..]);
      assert t[i..i + |NumberKey(a)|] == NumberKey(a);
    } else {
      assert segs[1..][j..] == segs[j + 1..];
      i := KeyStands(segs[1..], a, j - 1);
      assert t[n + 1..] == u;
      i := n + 1 + i;
      assert t[i..i + |NumberKey(a)|] == u[i - n - 1..i - n - 1 + |NumberKey(a)|];
    }
  }

  /** Segment `j` is `a`, and what follows begins with a colon. */
  predicate BeforeColon(segs: seq<string>, a: string, j: nat)
  {
    0 < j && j + 1 < |segs| && segs[j] == a && ":" <= Quoted(segs[j + 1..])
  }

  /** That is so nowhere else. */
  ghost predicate OnlyAt(segs: seq<string>, a: string, j: nat)
  {
    BeforeColon(segs, a, j) && forall k: nat :: BeforeColon(segs, a, k) ==> k == j
  }

  /** What follows the key is what follows such a segment. */
  lemma SomeSegment(segs: seq<string>, a: string) returns (k: nat)
    requires segs != [] && NoQuotes(segs) && '"' !in a && After(Quoted(segs), NumberKey(a)).Some?
    ensures BeforeColon(segs, a, k) && Quoted(segs[k + 1..]) != []
    ensures After(Quoted(segs), NumberKey(a)) == Some(Quoted(segs[k + 1..])[1..])
  {
    hide Quoted, NoQuotes, Find, After, At, FirstAt;
    var f := FirstOccurrence(Quoted(segs), NumberKey(a));
    FirstIsAt(Quoted(segs), NumberKey(a), f);
    FoundAt(Quoted(segs), NumberKey(a), f);
    k := KeyStandsBeforeColon(segs, a, f);
    RestAfterColon(Quoted(segs), f, |NumberKey(a)|, Quoted(segs[k + 1..]));
  }

  lemma SegmentIsFound(segs: seq<string>, a: string, j: nat)
    requires segs != [] && BeforeColon(segs, a, j)
    ensures After(Quoted(segs), NumberKey(a)).Some?
  {
    hide Quoted, Find, After, At;
    var i := KeyStands(segs, a, j);
    OccursAt(NumberKey(a), Quoted(segs));
  }

  /** If only one segment `a` is followed by a colon, what follows the key is what follows that segment. */
  lemma OnlySegment(segs: seq<string>, a: string, j: nat)
    requires segs != [] && NoQuotes(segs) && '"' !in a && OnlyAt(segs, a, j)
    ensures j + 1 < |segs| && Quoted(segs[j + 1..]) != []
    ensures After(Quoted(segs), NumberKey(a)) == Some(Quoted(segs[j + 1..])[1..])
  {
    hide BeforeColon, NoQuotes, After, Quoted, NumberKey;
    SegmentIsFound(segs, a, j);
    var k := SomeSegment(segs, a);
    assert k == j;
    BeforeColonMeans(segs, a, j);
  }

  lemma BeforeColonMeans(segs: seq<string>, a: string, j: nat)
    requires BeforeColon(segs, a, j)
    ensures j + 1 < |segs| && Quoted(segs[j + 1..]) != []
  {
  }

  lemma FirstIsAt(t: string, key: string, i: nat)
    requires FirstAt(t, key, i)
    ensures At(t, key, i) && i + |key| <= |t|
  {
  }

  lemma RestAfterColon(t: string, f: nat, n: nat, x: string)
    requires 0 < n && f + n <= |t| && t[f + n - 1..] == x && x != []
    ensures t[f + n..] == x[1..]
  {
    assert t[f + n - 1..][1..] == t[f + n..];
  }

  // ------------------------------------------------------ the file read back

  /** The part of the file behind the strings. */
  function Rear(m: Settings, lib: Libc): (segs: seq<string>)
    ensures |segs| == 13
  {
    ["\n  "] + Numbers(m, lib)
  }

  /** The name printed at place `j` of that part, and what is printed under it. */
  function NameAt(j: nat): string
    requires j == 1 || j == 3 || j == 5 || j == 7 || j == 9 || j == 11
  {
    if j == 1 then "lat" else if j == 3 then "lon" else if j == 5 then "alt" else if j == 7 then "display_timeout"
    else if j == 9 then "tx_enable" else "log_level"
  }

  function ValueAt(j: nat, m: Settings, lib: Libc): string
    requires j == 1 || j == 3 || j == 5 || j == 7 || j == 9 || j == 11
  {
    if j == 1 then lib.fixed4(m.lat) else if j == 3 then lib.fixed4(m.lon) else if j == 5 then lib.fixed0(m.alt)
    else if j == 7 then "30" else if j == 9 then (if m.tx != 0 then "true" else "false") else lib.decimal(m.log)
  }

  lemma RearIs(m: Settings, lib: Libc, j: nat)
    requires j == 1 || j == 3 || j == 5 || j == 7 || j == 9 || j == 11
    ensures var q := Rear(m, lib);
            q[j] == NameAt(j) && q[j + 1] == ": " + ValueAt(j, m, lib) + (if j == 11 then "\n}\n" else ",\n  ")
  {
  }

  /** In that part each name is found once. */
  lemma NameIsOnlyThere(m: Settings, lib: Libc, j: nat)
    requires j == 1 || j == 3 || j == 5 || j == 7 || j == 9 || j == 11
    ensures OnlyAt(Rear(m, lib), NameAt(j), j)
  {
    var q, name := Rear(m, lib), NameAt(j);
    RearIs(m, lib, 1);
    RearIs(m, lib, 3);
    RearIs(m, lib, 5);
    RearIs(m, lib, 7);
    RearIs(m, lib, 9);
    RearIs(m, lib, 11);
    hide Quoted, Rear, ValueAt;
    assert BeforeColon(q, name, j) by {
      RearIs(m, lib, j);
      BeginsLikeFirst(q[j + 1..]);
    }
    forall k: nat | BeforeColon(q, name, k)
      ensures k == j
    {
      if
      case k == 1 => case k == 2 => case k == 3 => case k == 4 => case k == 5 => case k == 6 => case k == 7 =>
      case k == 8 => case k == 9 => case k == 10 => case k == 11 => case k == 12 => case k > 12 => case k == 0 =>
    }
  }

  lemma BeginsLikeFirst(segs: seq<string>)
    requires segs != [] && ":" <= segs[0]
    ensures ":" <= Quoted(segs)
  {
  }

  /** What follows the value. */
  function Rest(j: nat, m: Settings, lib: Libc): string
    requires j == 1 || j == 3 || j == 5 || j == 7 || j == 9 || j == 11
  {
    if j == 11 then "\n}\n" else ",\n  " + "\"" + Quoted(Rear(m, lib)[j + 2..])
  }

  lemma FoundInRear(m: Settings, lib: Libc, j: nat)
    requires j == 1 || j == 3 || j == 5 || j == 7 || j == 9 || j == 11
    requires Plain(lib)
    ensures After(Quoted(Rear(m, lib)), NumberKey(NameAt(j))) == Some(" " + ValueAt(j, m, lib) + Rest(j, m, lib))
  {
    NameIsOnlyThere(m, lib, j);
    RearIs(m, lib, j);
    RearHasNoQuotes(m, lib);
    ColonTaken(m, lib, j);
    hide After, Quoted, Rear, ValueAt, Rest, OnlyAt, NumberKey;
    OnlySegment(Rear(m, lib), NameAt(j), j);
  }

  lemma RearHasNoQuotes(m: Settings, lib: Libc)
    requires Plain(lib)
    ensures NoQuotes(Rear(m, lib))
  {
    NumbersAreLong(m, lib);
    hide Numbers;
    var q := Rear(m, lib);
    assert forall k :: 1 <= k < |q| ==> q[k] == Numbers(m, lib)[k - 1];
  }

  lemma ColonTaken(m: Settings, lib: Libc, j: nat)
    requires j == 1 || j == 3 || j == 5 || j == 7 || j == 9 || j == 11
    ensures var x := Quoted(Rear(m, lib)[j + 1..]); x != [] && x[1..] == " " + ValueAt(j, m, lib) + Rest(j, m, lib)
  {
    var q := Rear(m, lib);
    RearIs(m, lib, j);
    hide Rear, ValueAt, Quoted;
    if j == 11 {
      LastQuoted(q);
    } else {
      QuotedStep(q[j + 1..]);
      assert q[j + 1..][1..] == q[j + 2..];
    }
  }

  lemma LastQuoted(q: seq<string>)
    requires |q| == 13
    ensures Quoted(q[12..]) == q[12]
  {
  }

  predicate NumberName(name: string)
  {
    name in ["lat", "lon", "alt", "display_timeout", "tx_enable", "log_level"]
  }

  lemma HeadHasNoNumberKey(name: string, lead: string, field: string)
    requires NumberName(name) && '"' !in lead && '"' !in field && field != name
    ensures !Occurs(NumberKey(name), lead + Marked(field) + ":")
  {
    var segs := [lead, field, ":"];
    QuotedThree(lead, field, ":");
    OccursAt(NumberKey(name), Quoted(segs));
    hide Quoted, Occurs, At, NumberKey;
    if Occurs(NumberKey(name), Quoted(segs)) {
      var i: nat :| At(Quoted(segs), NumberKey(name), i);
      var j := KeyStandsBeforeColon(segs, name, i);
    }
  }

  /** A string field that does not spell the key is passed over. */
  lemma FieldSkipped(name: string, head: string, v: string, y: string)
    requires NumberName(name)
    requires !Occurs(NumberKey(name), head + ":") && !Occurs(NumberKey(name), Marked(v))
    ensures After(head + ": " + Marked(v) + "," + y, NumberKey(name)) == After(y, NumberKey(name))
  {
    hide Occurs, Marked, After;
    var key := NumberKey(name);
    assert ' ' !in key && ',' !in key;
    SearchGoesOn(Marked(v), ',', y, key);
    SearchGoesOn(head + ":", ' ', Marked(v) + [','] + y, key);
    assert head + ": " + Marked(v) + "," + y == (head + ":") + [' '] + (Marked(v) + [','] + y);
  }

  lemma NumberHeads(name: string)
    requires NumberName(name)
    ensures var key := NumberKey(name);
            && !Occurs(key, "{\n  \"station\"" + ":")
            && !Occurs(key, "\n  \"mqtt_user\"" + ":") && !Occurs(key, "\n  \"mqtt_pass\"" + ":")
  {
    hide Occurs, NumberKey;
    HeadHasNoNumberKey(name, "{\n  ", "station");
    HeadHasNoNumberKey(name, "\n  ", "mqtt_user");
    HeadHasNoNumberKey(name, "\n  ", "mqtt_pass");
    assert "{\n  " + Marked("station") + ":" == "{\n  \"station\"" + ":";
    assert "\n  " + Marked("mqtt_user") + ":" == "\n  \"mqtt_user\"" + ":";
    assert "\n  " + Marked("mqtt_pass") + ":" == "\n  \"mqtt_pass\"" + ":";
  }

  /** The part of the file before the numbers. */
  function Front(m: Settings): string
  {
    "{\n  \"station\"" + ": " + Marked(m.station) + "," + ("\n  \"mqtt_user\"" + ": " + Marked(m.user) + "," +
    ("\n  \"mqtt_pass\"" + ": " + Marked(m.pass) + ","))
  }

  lemma FileInTwo(m: Settings, lib: Libc)
    ensures Quoted(Parts(m, lib)) == Front(m) + Quoted(Rear(m, lib))
  {
    FileShape(m, lib);
    hide Quoted, Parts, Numbers, Marked;
    var r := Quoted(Rear(m, lib));
    assert Quoted(["\n  "] + Numbers(m, lib)) == r;
    ThreeFields("{\n  \"station\"" + ": " + Marked(m.station) + ",", "\n  \"mqtt_user\"" + ": " + Marked(m.user) + ",",
                "\n  \"mqtt_pass\"" + ": " + Marked(m.pass) + ",", r);
  }

  lemma ThreeFields(a: string, b: string, c: string, r: string)
    ensures a + (b + (c + r)) == a + (b + c) + r
  {
  }

  /** In a file without quotation marks that matter, the search for a number gets to the numbers. */
  lemma SearchGetsToRear(m: Settings, lib: Libc, name: string)
    requires NumberName(name) && !Spells(m, NumberKey(name))
    ensures After(Quoted(Parts(m, lib)), NumberKey(name)) == After(Quoted(Rear(m, lib)), NumberKey(name))
  {
    FileShape(m, lib);
    NumberHeads(name);
    hide Quoted, Parts, Numbers, Marked, After, Occurs, NumberKey, NumberName;
    var r := Quoted(Rear(m, lib));
    assert Quoted(["\n  "] + Numbers(m, lib)) == r;
    var r3 := "\n  \"mqtt_pass\"" + ": " + Marked(m.pass) + "," + r;
    var r2 := "\n  \"mqtt_user\"" + ": " + Marked(m.user) + "," + r3;
    FieldSkipped(name, "\n  \"mqtt_pass\"", m.pass, r);
    FieldSkipped(name, "\n  \"mqtt_user\"", m.user, r3);
    FieldSkipped(name, "{\n  \"station\"", m.station, r2);
  }

  /** What is found in the first part is followed by all of the second. */
  lemma EarlierIsLonger(x: string, y: string, key: string)
    requires Occurs(key, x)
    ensures After(x + y, key).Some? && |After(x + y, key).value| >= |y|
  {
    OccursAt(key, x);
    var i: nat :| At(x, key, i);
    assert (x + y)[i..i + |key|] == x[i..i + |key|];
    assert At(x + y, key, i);
    FindsFirst(x + y, key, 0);
    hide Find, At;
  }

  lemma SpelledInFront(m: Settings, key: string)
    requires Spells(m, key)
    ensures Occurs(key, Front(m))
  {
    hide Occurs, Marked;
    var h1, h2, h3 := "{\n  \"station\"" + ": ", "\n  \"mqtt_user\"" + ": ", "\n  \"mqtt_pass\"" + ": ";
    var a, b, c := Marked(m.station), Marked(m.user), Marked(m.pass);
    OccursInside(key, h1, a, "," + (h2 + b + "," + (h3 + c + ",")));
    OccursInside(key, h1 + a + "," + h2, b, "," + (h3 + c + ","));
    OccursInside(key, h1 + a + "," + h2 + b + "," + h3, c, ",");
    assert Front(m) == h1 + a + ("," + (h2 + b + "," + (h3 + c + ",")));
    assert Front(m) == (h1 + a + "," + h2) + b + ("," + (h3 + c + ","));
    assert Front(m) == (h1 + a + "," + h2 + b + "," + h3) + c + ",";
  }

  /** In the file the device writes, a search for a number or the switch ends at what is printed for it, if and
      only if none of the three strings spells the key. */
  lemma NumberIsFoundIff(m: Settings, lib: Libc, j: nat)
    requires j == 1 || j == 3 || j == 5 || j == 7 || j == 9 || j == 11
    requires Plain(lib)
    ensures After(Quoted(Parts(m, lib)), NumberKey(NameAt(j))) == Some(" " + ValueAt(j, m, lib) + Rest(j, m, lib))
            <==> !Spells(m, NumberKey(NameAt(j)))
  {
    NamesAreNames(j);
    RestIsShorter(m, lib, j);
    hide Quoted, Parts, Rear, After, ValueAt, Rest, NameAt, Spells, Front, NumberName;
    var key := NumberKey(NameAt(j));
    if Spells(m, key) {
      SpelledInFront(m, key);
      FileInTwo(m, lib);
      EarlierIsLonger(Front(m), Quoted(Rear(m, lib)), key);
    } else {
      SearchGetsToRear(m, lib, NameAt(j));
      FoundInRear(m, lib, j);
    }
  }

  lemma NamesAreNames(j: nat)
    requires j == 1 || j == 3 || j == 5 || j == 7 || j == 9 || j == 11
    ensures NumberName(NameAt(j))
  {
  }

  lemma RestIsShorter(m: Settings, lib: Libc, j: nat)
    requires j == 1 || j == 3 || j == 5 || j == 7 || j == 9 || j == 11
    requires Plain(lib)
    ensures |" " + ValueAt(j, m, lib) + Rest(j, m, lib)| < |Quoted(Rear(m, lib))|
  {
    hide ValueAt, Rest, Rear, Quoted;
    FoundInRear(m, lib, j);
    FoundIsShorter(Quoted(Rear(m, lib)), NumberKey(NameAt(j)));
  }

  lemma FoundIsShorter(text: string, key: string)
    requires key != [] && After(text, key).Some?
    ensures |After(text, key).value| < |text|
  {
  }

  /** A station's name that hides the switch: whatever the switch is, the file reads as set. */
  lemma NameCanHideTheSwitch(m: Settings, lib: Libc)
    requires m.station == "\"tx_enable\":1"
    ensures ExtractBool(Quoted(Parts(m, lib)), "\"tx_enable\":", -1) == 1
  {
    FileShape(m, lib);
    hide Quoted, Parts, Numbers, Marked, After, ExtractBool;
    AfterTheName("\n  \"mqtt_user\"" + ": " + Marked(m.user) + "," + ("\n  \"mqtt_pass\"" + ": " + Marked(m.pass) + ","
                 + Quoted(["\n  "] + Numbers(m, lib))), Quoted(Parts(m, lib)));
  }

  lemma AfterTheName(more: string, text: string)
    requires text == "{\n  \"station\"" + ": " + Marked("\"tx_enable\":1") + "," + more
    ensures ExtractBool(text, "\"tx_enable\":", -1) == 1
  {
    NumberHeads("tx_enable");
    KeysOfNumbers();
    hide Occurs, After, Marked, FirstAt;
    var key, head := NumberKey("tx_enable"), "{\n  \"station\"";
    var y := Marked("\"tx_enable\":1") + ("," + more);
    SkipHead(head, Marked("\"tx_enable\":1"), "," + more, key);
    assert text == head + ": " + Marked("\"tx_enable\":1") + ("," + more);
    KeyIsSecond(y, "," + more);
    FoundAt(y, key, 1);
    IsOne(y[13..], "," + more, y);
  }

  lemma SkipHead(head: string, v: string, rest: string, key: string)
    requires !Occurs(key, head + ":") && ' ' !in key && key != []
    ensures After(head + ": " + v + rest, key) == After(v + rest, key)
  {
    hide Occurs, After;
    SearchGoesOn(head + ":", ' ', v + rest, key);
    assert head + ": " + v + rest == (head + ":") + [' '] + (v + rest);
  }

  lemma IsOne(p: string, rest: string, y: string)
    requires y == Marked("\"tx_enable\":1") + rest && p == y[13..]
    ensures SkipBlanks(p) == p && "1" <= p && !("true" <= p) && !("false" <= p)
  {
    assert p == "1\"" + rest;
    assert p[0] == '1';
  }

  lemma KeyIsSecond(y: string, rest: string)
    requires y == Marked("\"tx_enable\":1") + rest
    ensures FirstAt(y, "\"tx_enable\":", 1)
  {
    assert y[0] == y[1] == '"';
    assert Marked("\"tx_enable\":1") == "\"" + "\"tx_enable\":" + "1\"";
    assert y[1..13] == "\"tx_enable\":";
    assert y[0..12][1] == '"';
  }

  // ------------------------------------------------------ what the device reads of its own file

  /** The C library reads a number it printed, up to the digits it printed: `four` and `zero` are the values
      after printing with four decimals and with none. */
  ghost predicate ReadsBack(lib: Libc, four: real -> real, zero: real -> real)
  {
    && (forall r: real, y: string :: lib.strtof(" " + lib.fixed4(r) + "," + y) == four(r))
    && (forall r: real, y: string :: lib.strtof(" " + lib.fixed0(r) + "," + y) == zero(r))
    && (forall n: int, y: string :: lib.atoi(" " + lib.decimal(n) + "\n" + y) == n)
  }

  /** None of the strings spells one of these keys, and nothing is cut. */
  predicate Readable(m: Settings, lib: Libc)
  {
    && |Quoted(Parts(m, lib))| < SNAPSHOT_MAX
    && !Spells(m, NumberKey("lat")) && !Spells(m, NumberKey("lon")) && !Spells(m, NumberKey("alt"))
    && !Spells(m, NumberKey("tx_enable")) && !Spells(m, NumberKey("log_level"))
  }

  lemma NumberRead(m: Settings, lib: Libc, j: nat, key: string, r: real, n: int, b: int)
    requires j == 1 || j == 3 || j == 5 || j == 7 || j == 9 || j == 11
    requires Plain(lib) && key == NumberKey(NameAt(j)) && !Spells(m, key) && |Quoted(Parts(m, lib))| < SNAPSHOT_MAX
    ensures var x := " " + ValueAt(j, m, lib) + Rest(j, m, lib);
            && ExtractFloat(Render(m, lib), key, r, lib) == lib.strtof(x)
            && ExtractInt(Render(m, lib), key, n, lib) == lib.atoi(x)
            && (j == 9 ==> ExtractBool(Render(m, lib), key, b) == if m.tx != 0 then 1 else 0)
  {
    NumberIsFoundIff(m, lib, j);
    RenderIsPrefix(m, lib);
    hide Quoted, Parts, Rear, After, Rest, NameAt, Spells, Render;
    if j == 9 {
      SwitchWord(if m.tx != 0 then "true" else "false", Rest(j, m, lib));
    }
  }

  lemma SwitchWord(word: string, rest: string)
    requires word == "true" || word == "false"
    ensures var p := SkipBlanks(" " + word + rest); if word == "true" then "true" <= p else "false" <= p && p[0] == 'f'
  {
    BlanksSkipped(" ", word + rest);
    assert " " + word + rest == " " + (word + rest);
  }

  lemma KeysOfNumbers()
    ensures NumberKey("lat") == "\"lat\":" && NumberKey("lon") == "\"lon\":" && NumberKey("alt") == "\"alt\":"
    ensures NumberKey("tx_enable") == "\"tx_enable\":" && NumberKey("log_level") == "\"log_level\":"
  {
  }

  /** The device reads its own file back: of every coordinate the value as printed, of the switch whether it is
      set, and the log level. */
  lemma DeviceReadsItsFile(m: Settings, lib: Libc, four: real -> real, zero: real -> real)
    requires Plain(lib) && ReadsBack(lib, four, zero) && Readable(m, lib)
    ensures var t := Render(m, lib);
            && ExtractFloat(t, "\"lat\":", -9999.0, lib) == four(m.lat)
            && ExtractFloat(t, "\"lon\":", -9999.0, lib) == four(m.lon)
            && ExtractFloat(t, "\"alt\":", -9999.0, lib) == zero(m.alt)
            && ExtractBool(t, "\"tx_enable\":", -1) == (if m.tx != 0 then 1 else 0)
            && ExtractInt(t, "\"log_level\":", -1, lib) == m.log
  {
    KeysOfNumbers();
    hide Quoted, Parts, Spells, Render, ExtractFloat, ExtractBool, ExtractInt, NumberKey;
    NumberRead(m, lib, 1, NumberKey("lat"), -9999.0, -1, -1);
    NumberRead(m, lib, 3, NumberKey("lon"), -9999.0, -1, -1);
    NumberRead(m, lib, 5, NumberKey("alt"), -9999.0, -1, -1);
    NumberRead(m, lib, 9, NumberKey("tx_enable"), -9999.0, -1, -1);
    NumberRead(m, lib, 11, NumberKey("log_level"), -9999.0, -1, -1);
    RestBegins(m, lib);
    hide Rest;
    Comma(lib.fixed4(m.lat), Rest(1, m, lib));
    Comma(lib.fixed4(m.lon), Rest(3, m, lib));
    Comma(lib.fixed0(m.alt), Rest(5, m, lib));
    LastLine(lib.decimal(m.log), Rest(11, m, lib));
  }

  lemma RestBegins(m: Settings, lib: Libc)
    ensures "," <= Rest(1, m, lib) && "," <= Rest(3, m, lib) && "," <= Rest(5, m, lib) && Rest(11, m, lib) == "\n}\n"
  {
  }

  lemma Comma(v: string, rest: string)
    requires "," <= rest
    ensures " " + v + rest == " " + v + "," + rest[1..]
  {
  }

  lemma LastLine(v: string, rest: string)
    requires rest == "\n}\n"
    ensures " " + v + rest == " " + v + "\n" + "}\n"
  {
  }

  // ------------------------------------------------------ exactly what is adopted

  /** A coordinate read as `f` from the file and as `g` from the snapshot, if there is one. */
  function Coordinate(f: real, g: real, known: bool, lo: real, hi: real, current: real): real
  {
    if lo <= f <= hi && (if known then f - g > 0.0001 || g - f > 0.0001 else f != -9999.0) then f else current
  }

  /** The switch, -1 standing for nothing read. */
  function Switch(f: int, g: int, known: bool, current: int): int
  {
    if f == -1 || (known && f == g) then current else f
  }

  function Level(f: int, g: int, known: bool, current: int): int
  {
    if 0 <= f <= 3 && !(known && f == g) then f else current
  }

  /** A string; without a snapshot, and where the snapshot has none, it is compared with the empty one. */
  function Text(f: Option<string>, g: Option<string>, known: bool, current: string): string
  {
    if f.Some? && f.value != (if known && g.Some? then g.value else []) then f.value else current
  }

  lemma StringEditIs(text: string, s: string, key: string, size: nat, current: string)
    requires size > 0
    ensures Or(StringEdit(text, s, key, size), current) ==
            Text(ExtractString(text, key, size), ExtractString(s, key, size), s != [], current)
  {
    hide ExtractString;
  }

  lemma FloatEditIs(text: string, s: string, key: string, lo: real, hi: real, current: real, lib: Libc)
    ensures Or(FloatEdit(text, s, key, lo, hi, lib), current) ==
            Coordinate(ExtractFloat(text, key, -9999.0, lib), ExtractFloat(s, key, -9999.0, lib), s != [], lo, hi, current)
  {
    hide ExtractFloat;
  }

  lemma FlagEditsAre(text: string, s: string, tx: int, log: int, lib: Libc)
    ensures Or(BoolEdit(text, s, "\"tx_enable\":"), tx) ==
            Switch(ExtractBool(text, "\"tx_enable\":", -1), ExtractBool(s, "\"tx_enable\":", -1), s != [], tx)
    ensures Or(LevelEdit(text, s, "\"log_level\":", lib), log) ==
            Level(ExtractInt(text, "\"log_level\":", -1, lib), ExtractInt(s, "\"log_level\":", -1, lib), s != [], log)
  {
    hide ExtractBool, ExtractInt;
  }

  /** Every boot, with a snapshot or without: a coordinate is adopted if and only if it is in range and, over a
      snapshot, differs from it by more than 0.0001; the switch and the level if and only if something is
      read, the level in range, that differs from the snapshot; a string if and only if one is found that
      differs, a missing one in the snapshot counting as empty. */
  lemma AdoptedIff(b: Boot, lib: Libc, text: string)
    requires ReadFile(b.file) == Some(text)
    ensures var n, s := Sync(b, lib).mem, b.snapshot;
            var known := s != [];
            && n.lat == Coordinate(ExtractFloat(text, "\"lat\":", -9999.0, lib), ExtractFloat(s, "\"lat\":", -9999.0, lib),
                                   known, -90.0, 90.0, b.mem.lat)
            && n.lon == Coordinate(ExtractFloat(text, "\"lon\":", -9999.0, lib), ExtractFloat(s, "\"lon\":", -9999.0, lib),
                                   known, -180.0, 180.0, b.mem.lon)
            && n.alt == Coordinate(ExtractFloat(text, "\"alt\":", -9999.0, lib), ExtractFloat(s, "\"alt\":", -9999.0, lib),
                                   known, -500.0, 9000.0, b.mem.alt)
            && n.tx == Switch(ExtractBool(text, "\"tx_enable\":", -1), ExtractBool(s, "\"tx_enable\":", -1), known, b.mem.tx)
            && n.log == Level(ExtractInt(text, "\"log_level\":", -1, lib), ExtractInt(s, "\"log_level\":", -1, lib), known,
                              b.mem.log)
            && n.station == Text(ExtractString(text, "\"station\":\"", 32), ExtractString(s, "\"station\":\"", 32), known,
                                 b.mem.station)
            && n.user == Text(ExtractString(text, "\"mqtt_user\":\"", 64), ExtractString(s, "\"mqtt_user\":\"", 64), known,
                              b.mem.user)
            && n.pass == Text(ExtractString(text, "\"mqtt_pass\":\"", 64), ExtractString(s, "\"mqtt_pass\":\"", 64), known,
                              b.mem.pass)
  {
    hide ReadFile, Render, FloatEdit, BoolEdit, LevelEdit, StringEdit, ExtractFloat, ExtractBool, ExtractInt, Coordinate,
      Switch, Level, Text, ExtractString;
    StringEditIs(text, b.snapshot, "\"station\":\"", 32, b.mem.station);
    StringEditIs(text, b.snapshot, "\"mqtt_user\":\"", 64, b.mem.user);
    StringEditIs(text, b.snapshot, "\"mqtt_pass\":\"", 64, b.mem.pass);
    FloatEditIs(text, b.snapshot, "\"lat\":", -90.0, 90.0, b.mem.lat, lib);
    FloatEditIs(text, b.snapshot, "\"lon\":", -180.0, 180.0, b.mem.lon, lib);
    FloatEditIs(text, b.snapshot, "\"alt\":", -500.0, 9000.0, b.mem.alt, lib);
    FlagEditsAre(text, b.snapshot, b.mem.tx, b.mem.log, lib);
  }

  /** An edit of one coordinate saves all three as they stand in memory; otherwise NVS keeps its location. */
  lemma LocationIsSavedWhole(b: Boot, lib: Libc)
    ensures var n := Sync(b, lib);
            if n.mem.lat == b.mem.lat && n.mem.lon == b.mem.lon && n.mem.alt == b.mem.alt
            then (n.nvs.lat, n.nvs.lon, n.nvs.alt) in {(b.nvs.lat, b.nvs.lon, b.nvs.alt), (n.mem.lat, n.mem.lon, n.mem.alt)}
            else n.nvs.lat == n.mem.lat && n.nvs.lon == n.mem.lon && n.nvs.alt == n.mem.alt
  {
    hide ReadFile, Render, FloatEdit, BoolEdit, LevelEdit, StringEdit;
  }

  /** The file is cut only where the buffer ends. */
  lemma CutAtTheBuffer(m: Settings, lib: Libc)
    ensures Render(m, lib) == if |Quoted(Parts(m, lib))| < 384 then Quoted(Parts(m, lib)) else Quoted(Parts(m, lib))[..383]
  {
    hide Quoted, Parts;
  }

  /** Without a file nothing is edited, and the device writes one. */
  lemma NoFileNoEdits(b: Boot, lib: Libc)
    requires ReadFile(b.file) == None
    ensures Sync(b, lib) == Boot(b.mem, b.nvs, Render(b.mem, lib), File(Render(b.mem, lib)))
  {
    hide ReadFile, Render;
  }

  /** So, unlike strings, edits of numbers and of the switch inside a file the device wrote are found, and
      exactly they: whatever the file of `w` holds over the snapshot of `m`, memory ends up with each value of
      `w`, as printed, that is in range and differs from `m`'s as printed, and with its own otherwise. */
  lemma NumberEditsInDeviceFileAreAdopted(b: Boot, m: Settings, w: Settings, lib: Libc, four: real -> real,
                                          zero: real -> real)
    requires Plain(lib) && ReadsBack(lib, four, zero) && Readable(m, lib) && Readable(w, lib) && Clean(w)
    requires b.snapshot == Render(m, lib) && b.file == File(Render(w, lib))
    ensures var n := Sync(b, lib).mem;
            && n.lat == Coordinate(four(w.lat), four(m.lat), true, -90.0, 90.0, b.mem.lat)
            && n.lon == Coordinate(four(w.lon), four(m.lon), true, -180.0, 180.0, b.mem.lon)
            && n.alt == Coordinate(zero(w.alt), zero(m.alt), true, -500.0, 9000.0, b.mem.alt)
            && n.tx == (if (w.tx != 0) == (m.tx != 0) then b.mem.tx else if w.tx != 0 then 1 else 0)
            && n.log == (if w.log != m.log && 0 <= w.log <= 3 then w.log else b.mem.log)
  {
    RenderIsClean(w, lib);
    RenderIsLong(m, lib);
    hide Readable, ReadsBack, Plain, Clean, Render, ReadFile, Sync, ExtractFloat, ExtractBool, ExtractInt, Coordinate;
    DeviceReadsItsFile(m, lib, four, zero);
    DeviceReadsItsFile(w, lib, four, zero);
    FileReadsBack(Render(w, lib));
    AdoptedIff(b, lib, Render(w, lib));
  }

  lemma RenderIsLong(m: Settings, lib: Libc)
    ensures Render(m, lib) != []
  {
    var parts := Parts(m, lib);
    assert parts[0][0] == '{';
    assert Quoted(parts)[0] == '{';
  }
}
