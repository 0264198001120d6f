/** The boot-time three-way sync between the stored settings (NVS), the user-editable file
    config.json and the snapshot of the last file the device wrote: the config block of
    `setup_usb_storage` in src/main.cpp, with the extractors of src/tinygs_json.cpp.

    `float` is taken as `real`.  The C library conversions are parameters. */
module ConfigSync {
  import opened Wrappers

  const SNAPSHOT_MAX: nat := 384
  const NUL: char := '\0'

  datatype Libc = Libc(strtof: string -> real, atoi: string -> int,
                       fixed4: real -> string, fixed0: real -> string, decimal: int -> string)

  /** Number formatting prints neither NUL nor a quotation mark. */
  ghost predicate Plain(lib: Libc)
  {
    && (forall r :: NUL !in lib.fixed4(r) && '"' !in lib.fixed4(r))
    && (forall r :: NUL !in lib.fixed0(r) && '"' !in lib.fixed0(r))
    && (forall n :: NUL !in lib.decimal(n) && '"' !in lib.decimal(n))
  }

  // ------------------------------------------------------ the extractors

  /** `strstr`. */
  function Find(text: string, key: string, from: nat): (r: Option<nat>)
    ensures r.Some? ==> from <= r.value && r.value + |key| <= |text| && text[r.value..r.value + |key|] == key
    decreases |text| - from
  {
    if from + |key| > |text| then None
    else if text[from..from + |key|] == key then Some(from)
    else Find(text, key, from + 1)
  }

  /** What follows the key, if the key occurs. */
  function After(text: string, key: string): Option<string>
  {
    match Find(text, key, 0)
    case None => None
    case Some(i) => Some(text[i + |key|..])
  }

  function ExtractFloat(text: string, key: string, default: real, lib: Libc): real
  {
    match After(text, key)
    case None => default
    case Some(rest) => lib.strtof(rest)
  }

  function ExtractInt(text: string, key: string, default: int, lib: Libc): int
  {
    match After(text, key)
    case None => default
    case Some(rest) => lib.atoi(rest)
  }

  function SkipBlanks(s: string): string
  {
    if s != [] && (s[0] == ' ' || s[0] == '\t') then SkipBlanks(s[1..]) else s
  }

  function ExtractBool(text: string, key: string, default: int): int
  {
    match After(text, key)
    case None => default
    case Some(rest) =>
      var p := SkipBlanks(rest);
      if "true" <= p then 1
      else if "false" <= p then 0
      else if "1" <= p then 1
      else if "0" <= p then 0
      else default
  }

  /** The quoted text after the key, cut to the buffer; nothing without key or closing quote. */
  function ExtractString(text: string, key: string, size: nat): Option<string>
    requires size > 0
  {
    match After(text, key)
    case None => None
    case Some(rest) =>
      match Find(rest, "\"", 0)
      case None => None
      case Some(n) => Some(if n >= size then rest[..size - 1] else rest[..n])
  }

  // ------------------------------------------------------ the state

  datatype Settings = Settings(station: string, user: string, pass: string,
                               lat: real, lon: real, alt: real, tx: int, log: int)

  datatype Disk = NoFile | File(content: string)

  datatype Boot = Boot(mem: Settings, nvs: Settings, snapshot: string, file: Disk)

  const STATION: nat := 32
  const USER: nat := 64
  const PASS: nat := 64

  /** What the device reads of config.json: nothing if it is missing or empty. */
  function ReadFile(d: Disk): Option<string>
  {
    match d
    case NoFile => None
    case File(c) =>
      var n := if |c| > SNAPSHOT_MAX - 1 then SNAPSHOT_MAX - 1 else |c|;
      if n == 0 then None else Some(UpTo(c[..n], NUL))
  }

  /** The file the device writes, cut to its buffer. */
  function Render(s: Settings, lib: Libc): (r: string)
    ensures |r| < SNAPSHOT_MAX
  {
    var t := Quoted(Parts(s, lib));
    if |t| >= SNAPSHOT_MAX then t[..SNAPSHOT_MAX - 1] else t
  }

  /** Text put together from the parts between its quotation marks. */
  function Quoted(segs: seq<string>): string
    requires segs != []
  {
    if |segs| == 1 then segs[0] else segs[0] + "\"" + Quoted(segs[1..])
  }

  /** The file as the `snprintf` format lays it out, written part by part between its quotation
      marks: every key is followed by a mark, a colon and a blank. */
  function Parts(s: Settings, lib: Libc): (segs: seq<string>)
    ensures segs != []
  {
    ["{\n  ", "station", ": ", s.station, ",\n  ", "mqtt_user", ": ", s.user, ",\n  ", "mqtt_pass", ": ", s.pass,
     ",\n  "] + Numbers(s, lib)
  }

  /** The parts from the coordinates on. */
  function Numbers(s: Settings, lib: Libc): (segs: seq<string>)
    ensures segs != []
  {
    ["lat", ": " + lib.fixed4(s.lat) + ",\n  ", "lon", ": " + lib.fixed4(s.lon) + ",\n  ",
     "alt", ": " + lib.fixed0(s.alt) + ",\n  ", "display_timeout", ": 30,\n  ",
     "tx_enable", ": " + (if s.tx != 0 then "true" else "false") + ",\n  ",
     "log_level", ": " + lib.decimal(s.log) + "\n}\n"]
  }

  // ------------------------------------------------------ the diff

  /** `DIFF_AND_APPLY_FLOAT`: the new value, or nothing. */
  function FloatEdit(text: string, snapshot: string, key: string, lo: real, hi: real, lib: Libc): Option<real>
  {
    var fv := ExtractFloat(text, key, -9999.0, lib);
    var sv := if snapshot != [] then ExtractFloat(snapshot, key, -9999.0, lib) else -9999.0;
    var dv := if fv - sv < 0.0 then sv - fv else fv - sv;
    var edited := if snapshot != [] then dv > 0.0001 else fv != -9999.0;
    if edited && lo <= fv <= hi then Some(fv) else None
  }

  /** `DIFF_AND_APPLY_STR`. */
  function StringEdit(text: string, snapshot: string, key: string, size: nat): Option<string>
    requires size > 0
  {
    var fv := ExtractString(text, key, size);
    var sv := if snapshot != [] then
                match ExtractString(snapshot, key, size) { case Some(v) => v case None => [] }
              else [];
    if fv.Some? && (if snapshot != [] then fv.value != sv else fv.value != []) then fv else None
  }

  function BoolEdit(text: string, snapshot: string, key: string): Option<int>
  {
    var fv := ExtractBool(text, key, -1);
    var sv := if snapshot != [] then ExtractBool(snapshot, key, -1) else -1;
    if (if snapshot != [] then fv != sv else fv != -1) && fv != -1 then Some(fv) else None
  }

  function LevelEdit(text: string, snapshot: string, key: string, lib: Libc): Option<int>
  {
    var fv := ExtractInt(text, key, -1, lib);
    var sv := if snapshot != [] then ExtractInt(snapshot, key, -1, lib) else -1;
    if (if snapshot != [] then fv != sv else fv != -1) && 0 <= fv <= 3 then Some(fv) else None
  }

  function Or<T>(o: Option<T>, current: T): T
  {
    match o
    case Some(v) => v
    case None => current
  }

  /** Every value the file changes. */
  datatype Edits = Edits(lat: Option<real>, lon: Option<real>, alt: Option<real>,
                         station: Option<string>, user: Option<string>, pass: Option<string>,
                         tx: Option<int>, log: Option<int>)

  const NO_EDITS: Edits := Edits(None, None, None, None, None, None, None, None)

  function EditsOf(text: string, snapshot: string, lib: Libc): Edits
  {
    Edits(FloatEdit(text, snapshot, "\"lat\":", -90.0, 90.0, lib),
          FloatEdit(text, snapshot, "\"lon\":", -180.0, 180.0, lib),
          FloatEdit(text, snapshot, "\"alt\":", -500.0, 9000.0, lib),
          StringEdit(text, snapshot, "\"station\":\"", STATION),
          StringEdit(text, snapshot, "\"mqtt_user\":\"", USER),
          StringEdit(text, snapshot, "\"mqtt_pass\":\"", PASS),
          BoolEdit(text, snapshot, "\"tx_enable\":"),
          LevelEdit(text, snapshot, "\"log_level\":", lib))
  }

  function Apply(m: Settings, e: Edits): Settings
  {
    Settings(Or(e.station, m.station), Or(e.user, m.user), Or(e.pass, m.pass),
             Or(e.lat, m.lat), Or(e.lon, m.lon), Or(e.alt, m.alt), Or(e.tx, m.tx), Or(e.log, m.log))
  }

  /** What is saved: a location edit saves all three coordinates as they stand in memory. */
  function Saved(nvs: Settings, mem: Settings, e: Edits): Settings
  {
    var moved := e.lat.Some? || e.lon.Some? || e.alt.Some?;
    Settings(Or(e.station, nvs.station), Or(e.user, nvs.user), Or(e.pass, nvs.pass),
             if moved then mem.lat else nvs.lat, if moved then mem.lon else nvs.lon, if moved then mem.alt else nvs.alt,
             Or(e.tx, nvs.tx), Or(e.log, nvs.log))
  }

  /** The whole block. */
  function Sync(b: Boot, lib: Libc): Boot
  {
    var text := ReadFile(b.file);
    var e := if text.Some? then EditsOf(text.value, b.snapshot, lib)
             else NO_EDITS;
    var mem := Apply(b.mem, e);
    var nvs := Saved(b.nvs, mem, e);
    var r := Render(mem, lib);
    if text.Some? && r == b.snapshot then Boot(mem, nvs, b.snapshot, b.file)
    else Boot(mem, nvs, r, File(r))
  }

  class Station {
    var mem: Settings
    var nvs: Settings
    var snapshot: string
    var file: Disk

    constructor (m: Settings, n: Settings, s: string, f: Disk)
      ensures mem == m && nvs == n && snapshot == s && file == f
    {
      mem, nvs, snapshot, file := m, n, s, f;
    }

    method SaveLocation()
      modifies `nvs
      ensures nvs == old(nvs).(lat := mem.lat, lon := mem.lon, alt := mem.alt)
    {
      nvs := nvs.(lat := mem.lat, lon := mem.lon, alt := mem.alt);
    }

    /** The config block of `setup_usb_storage`: the diff of every field, then the rewrite. */
    method SyncConfig(lib: Libc)
      modifies this
      ensures Boot(mem, nvs, snapshot, file) == Sync(old(Boot(mem, nvs, snapshot, file)), lib)
    {
      hide FloatEdit, StringEdit, BoolEdit, LevelEdit, Render, ReadFile;
      var text := ReadFile(file);
      if text.Some? {
        SyncLocation(text.value, lib);
        SyncStrings(text.value);
        SyncFlags(text.value, lib);
      }
      var r := Render(mem, lib);
      if !(text.Some? && r == snapshot) {
        file := File(r);
        snapshot := r;
      }
    }

    method SyncLocation(text: string, lib: Libc)
      modifies `mem, `nvs
      ensures var e := EditsOf(text, snapshot, lib);
              && mem == old(mem).(lat := Or(e.lat, old(mem).lat), lon := Or(e.lon, old(mem).lon), alt := Or(e.alt, old(mem).alt))
              && nvs == if e.lat.Some? || e.lon.Some? || e.alt.Some?
                        then old(nvs).(lat := mem.lat, lon := mem.lon, alt := mem.alt) else old(nvs)
    {
      hide FloatEdit, StringEdit, BoolEdit, LevelEdit;
      var lat := FloatEdit(text, snapshot, "\"lat\":", -90.0, 90.0, lib);
      if lat.Some? {
        mem := mem.(lat := lat.value);
        SaveLocation();
      }
      var lon := FloatEdit(text, snapshot, "\"lon\":", -180.0, 180.0, lib);
      if lon.Some? {
        mem := mem.(lon := lon.value);
        SaveLocation();
      }
      var alt := FloatEdit(text, snapshot, "\"alt\":", -500.0, 9000.0, lib);
      if alt.Some? {
        mem := mem.(alt := alt.value);
        SaveLocation();
      }
    }

    method SyncStrings(text: string)
      modifies `mem, `nvs
      ensures var station := StringEdit(text, snapshot, "\"station\":\"", STATION);
              var user := StringEdit(text, snapshot, "\"mqtt_user\":\"", USER);
              var pass := StringEdit(text, snapshot, "\"mqtt_pass\":\"", PASS);
              && mem == old(mem).(station := Or(station, old(mem).station), user := Or(user, old(mem).user),
                                  pass := Or(pass, old(mem).pass))
              && nvs == old(nvs).(station := Or(station, old(nvs).station), user := Or(user, old(nvs).user),
                                  pass := Or(pass, old(nvs).pass))
    {
      hide StringEdit;
      var station := StringEdit(text, snapshot, "\"station\":\"", STATION);
      if station.Some? {
        mem := mem.(station := station.value);
        nvs := nvs.(station := mem.station);
      }
      var user := StringEdit(text, snapshot, "\"mqtt_user\":\"", USER);
      if user.Some? {
        mem := mem.(user := user.value);
        nvs := nvs.(user := mem.user);
      }
      var pass := StringEdit(text, snapshot, "\"mqtt_pass\":\"", PASS);
      if pass.Some? {
        mem := mem.(pass := pass.value);
        nvs := nvs.(pass := mem.pass);
      }
    }

    method SyncFlags(text: string, lib: Libc)
      modifies `mem, `nvs
      ensures var tx := BoolEdit(text, snapshot, "\"tx_enable\":");
              var log := LevelEdit(text, snapshot, "\"log_level\":", lib);
              && mem == old(mem).(tx := Or(tx, old(mem).tx), log := Or(log, old(mem).log))
              && nvs == old(nvs).(tx := Or(tx, old(nvs).tx), log := Or(log, old(nvs).log))
    {
      hide BoolEdit, LevelEdit;
      var tx := BoolEdit(text, snapshot, "\"tx_enable\":");
      if tx.Some? {
        mem := mem.(tx := tx.value);
        nvs := nvs.(tx := mem.tx);
      }
      var log := LevelEdit(text, snapshot, "\"log_level\":", lib);
      if log.Some? {
        mem := mem.(log := log.value);
        nvs := nvs.(log := mem.log);
      }
    }
  }

  // ------------------------------------------------------ C strings

  predicate Clean(m: Settings)
  {
    NUL !in m.station && NUL !in m.user && NUL !in m.pass
  }

  lemma RenderIsClean(m: Settings, lib: Libc)
    requires Clean(m) && Plain(lib)
    ensures NUL !in Render(m, lib) && Render(m, lib) != []
  {
    var parts := Parts(m, lib);
    assert forall i :: 0 <= i < |parts| ==> NUL !in parts[i];
    QuotedIsClean(parts, NUL);
    assert parts[0][0] == '{';
    assert Quoted(parts)[0] == '{';
  }

  lemma {:induction false} QuotedIsClean(segs: seq<string>, c: char)
    requires segs != [] && c != '"' && forall i :: 0 <= i < |segs| ==> c !in segs[i]
    ensures c !in Quoted(segs)
  {
    if |segs| > 1 { QuotedIsClean(segs[1..], c); }
  }

  lemma FileReadsBack(r: string)
    requires NUL !in r && 0 < |r| < SNAPSHOT_MAX
    ensures ReadFile(File(r)) == Some(r)
  {
    assert r[..|r|] == r;
    UpToAll(r, NUL);
  }

  lemma ExtractedIsClean(text: string, key: string, size: nat)
    requires NUL !in text && size > 0
    ensures var v := ExtractString(text, key, size); v.Some? ==> NUL !in v.value && |v.value| < size
  {
  }

  // ------------------------------------------------------ what a boot does to a field

  /** A file that equals its snapshot carries no edits. */
  lemma SameTextNoEdits(text: string, lib: Libc)
    requires text != []
    ensures EditsOf(text, text, lib) == NO_EDITS
  {
    hide Find, After, ExtractBool;
  }

  /** Within one boot: with a snapshot, a field whose value is the same in the file and in the snapshot
      keeps what NVS had loaded, in memory and in NVS. */
  lemma UntouchedFieldsAreKept(b: Boot, lib: Libc, text: string)
    requires b.snapshot != [] && ReadFile(b.file) == Some(text)
    ensures var m, s := Sync(b, lib).mem, b.snapshot;
      && (ExtractFloat(text, "\"lat\":", -9999.0, lib) == ExtractFloat(s, "\"lat\":", -9999.0, lib) ==> m.lat == b.mem.lat)
      && (ExtractFloat(text, "\"lon\":", -9999.0, lib) == ExtractFloat(s, "\"lon\":", -9999.0, lib) ==> m.lon == b.mem.lon)
      && (ExtractFloat(text, "\"alt\":", -9999.0, lib) == ExtractFloat(s, "\"alt\":", -9999.0, lib) ==> m.alt == b.mem.alt)
      && (ExtractString(text, "\"station\":\"", STATION) == ExtractString(s, "\"station\":\"", STATION) ==> m.station == b.mem.station)
      && (ExtractString(text, "\"mqtt_user\":\"", USER) == ExtractString(s, "\"mqtt_user\":\"", USER) ==> m.user == b.mem.user)
      && (ExtractString(text, "\"mqtt_pass\":\"", PASS) == ExtractString(s, "\"mqtt_pass\":\"", PASS) ==> m.pass == b.mem.pass)
      && (ExtractBool(text, "\"tx_enable\":", -1) == ExtractBool(s, "\"tx_enable\":", -1) ==> m.tx == b.mem.tx)
      && (ExtractInt(text, "\"log_level\":", -1, lib) == ExtractInt(s, "\"log_level\":", -1, lib) ==> m.log == b.mem.log)
    ensures b.mem == b.nvs ==> Sync(b, lib).nvs == Sync(b, lib).mem
  {
    hide Find, After, ExtractFloat, ExtractString, ExtractBool, ExtractInt, ReadFile, Render;
  }

  /** Edits are adopted: a value in range that differs from the snapshot (for the coordinates, by
      more than 0.0001) reaches memory and NVS. */
  lemma EditsAreAdopted(b: Boot, lib: Libc, text: string)
    requires b.snapshot != [] && ReadFile(b.file) == Some(text)
    ensures var n, s := Sync(b, lib), b.snapshot;
      && (var f, g := ExtractFloat(text, "\"lat\":", -9999.0, lib), ExtractFloat(s, "\"lat\":", -9999.0, lib);
          -90.0 <= f <= 90.0 && (f - g > 0.0001 || g - f > 0.0001) ==> n.mem.lat == n.nvs.lat == f)
      && (var f, g := ExtractFloat(text, "\"lon\":", -9999.0, lib), ExtractFloat(s, "\"lon\":", -9999.0, lib);
          -180.0 <= f <= 180.0 && (f - g > 0.0001 || g - f > 0.0001) ==> n.mem.lon == n.nvs.lon == f)
      && (var f, g := ExtractFloat(text, "\"alt\":", -9999.0, lib), ExtractFloat(s, "\"alt\":", -9999.0, lib);
          -500.0 <= f <= 9000.0 && (f - g > 0.0001 || g - f > 0.0001) ==> n.mem.alt == n.nvs.alt == f)
      && (var f := ExtractBool(text, "\"tx_enable\":", -1);
          f != -1 && f != ExtractBool(s, "\"tx_enable\":", -1) ==> n.mem.tx == n.nvs.tx == f)
      && (var f := ExtractInt(text, "\"log_level\":", -1, lib);
          0 <= f <= 3 && f != ExtractInt(s, "\"log_level\":", -1, lib) ==> n.mem.log == n.nvs.log == f)
      && (var f, g := ExtractString(text, "\"station\":\"", STATION), ExtractString(s, "\"station\":\"", STATION);
          f.Some? && f != g && (g.Some? || f.value != []) ==> n.mem.station == n.nvs.station == f.value)
      && (var f, g := ExtractString(text, "\"mqtt_user\":\"", USER), ExtractString(s, "\"mqtt_user\":\"", USER);
          f.Some? && f != g && (g.Some? || f.value != []) ==> n.mem.user == n.nvs.user == f.value)
      && (var f, g := ExtractString(text, "\"mqtt_pass\":\"", PASS), ExtractString(s, "\"mqtt_pass\":\"", PASS);
          f.Some? && f != g && (g.Some? || f.value != []) ==> n.mem.pass == n.nvs.pass == f.value)
  {
    hide Find, After, ExtractFloat, ExtractString, ExtractBool, ExtractInt, ReadFile, Render;
  }

  /** Memory and NVS stay copies of each other. */
  lemma MirrorIsKept(b: Boot, lib: Libc)
    requires b.mem == b.nvs
    ensures Sync(b, lib).mem == Sync(b, lib).nvs
  {
    hide FloatEdit, StringEdit, BoolEdit, LevelEdit, Render, ReadFile;
  }

  // ------------------------------------------------------ idempotence

  predicate Sane(b: Boot)
  {
    Clean(b.mem) && NUL !in b.snapshot
  }

  lemma SyncKeepsSane(b: Boot, lib: Libc)
    requires Sane(b) && Plain(lib)
    ensures Sane(Sync(b, lib))
  {
    var text := ReadFile(b.file);
    if text.Some? {
      TextIsClean(b.file);
      ExtractedIsClean(text.value, "\"station\":\"", STATION);
      ExtractedIsClean(text.value, "\"mqtt_user\":\"", USER);
      ExtractedIsClean(text.value, "\"mqtt_pass\":\"", PASS);
    }
    RenderIsClean(Sync(b, lib).mem, lib);
    hide Find, After, ExtractFloat, ExtractString, ExtractBool, ExtractInt, ReadFile, Render, FloatEdit, BoolEdit, LevelEdit;
  }

  lemma TextIsClean(d: Disk)
    ensures ReadFile(d).Some? ==> NUL !in ReadFile(d).value
  {
    match d
    case NoFile =>
    case File(c) =>
      UpToIsClean(c[..if |c| > SNAPSHOT_MAX - 1 then SNAPSHOT_MAX - 1 else |c|], NUL);
  }

  /** A second boot with nothing changed in between changes nothing: not the settings in memory or
      in NVS, not the file, not the snapshot. */
  lemma SecondBootChangesNothing(b: Boot, lib: Libc)
    requires Sane(b) && Plain(lib)
    ensures Sync(Sync(b, lib), lib) == Sync(b, lib)
  {
    SyncKeepsSane(b, lib);
    var n := Sync(b, lib);
    var text := ReadFile(b.file);
    RenderIsClean(n.mem, lib);
    if text.Some? && n.snapshot == b.snapshot && n.file == b.file {
      SameEditsAgain(b.mem, b.nvs, EditsOf(text.value, b.snapshot, lib));
      if Render(n.mem, lib) != b.snapshot {
        FileReadsBack(n.snapshot);
        SameTextNoEdits(n.snapshot, lib);
        NoEditsNoChange(n.mem, n.nvs);
      }
    } else {
      FileReadsBack(n.snapshot);
      SameTextNoEdits(n.snapshot, lib);
      NoEditsNoChange(n.mem, n.nvs);
    }
    hide EditsOf, Render, ReadFile, Apply, Saved;
  }

  lemma SameEditsAgain(m: Settings, n: Settings, e: Edits)
    ensures Apply(Apply(m, e), e) == Apply(m, e)
    ensures Saved(Saved(n, Apply(m, e), e), Apply(m, e), e) == Saved(n, Apply(m, e), e)
  {
  }

  lemma NoEditsNoChange(m: Settings, n: Settings)
    ensures Apply(m, NO_EDITS) == m && Saved(n, m, NO_EDITS) == n
  {
  }

  /** After a boot the file on the disk reads as the snapshot, except in one case: the file was edited,
      but the rendering came out equal to the old snapshot all the same, and the edited file was left in
      place.  The edits were rejected, or they spell the old value, or they differ from it by less than
      is printed. */
  lemma FileDiffersOnlyAfterRejectedEdit(b: Boot, lib: Libc)
    requires Sane(b) && Plain(lib)
    ensures var n := Sync(b, lib);
            ReadFile(n.file) != Some(n.snapshot) <==>
            ReadFile(b.file).Some? && ReadFile(b.file) != Some(b.snapshot) && Render(n.mem, lib) == b.snapshot
  {
    SyncKeepsSane(b, lib);
    var n := Sync(b, lib);
    RenderIsClean(n.mem, lib);
    FileReadsBack(Render(n.mem, lib));
    hide EditsOf, Render, ReadFile;
  }

  // ------------------------------------------------------ what survives the next boot

  /** Did the boot write the file anew? */
  predicate Rewritten(b: Boot, lib: Libc)
  {
    ReadFile(b.file).None? || Render(Sync(b, lib).mem, lib) != b.snapshot
  }

  /** The edits that the next boot still finds: those of a file left in place. */
  function LeftOver(b: Boot, lib: Libc): Edits
  {
    if Rewritten(b, lib) then NO_EDITS else EditsOf(ReadFile(b.file).value, b.snapshot, lib)
  }

  /** The next boot, when `u` is what memory and NVS hold by then. */
  function NextBoot(b: Boot, u: Settings, lib: Libc): Boot
  {
    var n := Sync(b, lib);
    Sync(Boot(u, u, n.snapshot, n.file), lib)
  }

  /** Whatever was stored between two boots, the second boot applies the edits left over to it. */
  lemma LeftOverComesBack(b: Boot, u: Settings, lib: Libc)
    requires Sane(b) && Plain(lib)
    ensures NextBoot(b, u, lib).mem == NextBoot(b, u, lib).nvs == Apply(u, LeftOver(b, lib))
  {
    SyncKeepsSane(b, lib);
    var n := Sync(b, lib);
    RenderIsClean(n.mem, lib);
    MirrorIsKept(Boot(u, u, n.snapshot, n.file), lib);
    hide EditsOf, Render, ReadFile, Apply, Saved;
    if Rewritten(b, lib) {
      FileReadsBack(n.snapshot);
      SameTextNoEdits(n.snapshot, lib);
      NoEditsNoChange(u, u);
    }
  }

  /** An edit that leaves the value `v` as it is. */
  predicate Spares<T(==)>(edit: Option<T>, v: T)
  {
    edit.None? || edit.value == v
  }

  /** A value stored between two boots, by the server or the web page, survives the second boot if and
      only if the first one wrote the file anew, or the file left in place has no edit of that field, or
      the edit has the same value. */
  lemma StoredValueSurvivesIff(b: Boot, u: Settings, lib: Libc)
    requires Sane(b) && Plain(lib)
    ensures var s := NextBoot(b, u, lib);
      s.mem == s.nvs &&
      (Rewritten(b, lib) ==> s.mem == u) &&
      (!Rewritten(b, lib) ==>
        var e := EditsOf(ReadFile(b.file).value, b.snapshot, lib);
        && (s.mem.station == u.station <==> Spares(e.station, u.station))
        && (s.mem.user == u.user <==> Spares(e.user, u.user))
        && (s.mem.pass == u.pass <==> Spares(e.pass, u.pass))
        && (s.mem.lat == u.lat <==> Spares(e.lat, u.lat))
        && (s.mem.lon == u.lon <==> Spares(e.lon, u.lon))
        && (s.mem.alt == u.alt <==> Spares(e.alt, u.alt))
        && (s.mem.tx == u.tx <==> Spares(e.tx, u.tx))
        && (s.mem.log == u.log <==> Spares(e.log, u.log)))
  {
    LeftOverComesBack(b, u, lib);
    NoEditsNoChange(u, u);
    hide EditsOf, Render, ReadFile, NextBoot, Rewritten;
  }

  /** The C library on the numbers of the example below: 50.4 prints as 50 without decimals. */
  function FiftyLibc(): Libc
  {
    Libc(s => if s == " 50.4" then 50.4 else 50.0, _ => 0, _ => "50.0000", _ => "50", _ => "0")
  }

  /** The user writes a file with nothing but `"alt": 50.4` over one that says 50.  The altitude is adopted,
      prints as before, and the file stays.  Then the server stores 500; the next boot puts 50.4 back. */
  lemma StoredAltitudeIsLost()
    ensures var lib := FiftyLibc();
            var m := Settings("s", "u", "p", 50.0, 50.0, 50.0, 0, 0);
            var b := Boot(m, m, Render(m, lib), File("\"alt\": 50.4"));
            && Sync(b, lib) == Boot(m.(alt := 50.4), m.(alt := 50.4), b.snapshot, b.file)
            && NextBoot(b, m.(alt := 500.0), lib).mem.alt == 50.4
            && NextBoot(b, m.(alt := 500.0), lib).nvs.alt == 50.4
  {
    hide EditsOf, Render, ReadFile, Quoted, Parts, Apply, Saved, NextBoot;
    var lib := FiftyLibc();
    var m := Settings("s", "u", "p", 50.0, 50.0, 50.0, 0, 0);
    var b := Boot(m, m, Render(m, lib), File("\"alt\": 50.4"));
    AdoptsAltitude(m, b.snapshot, m, m);
    AdoptsAltitude(m, b.snapshot, m.(alt := 500.0), m.(alt := 500.0));
    NextBootIs(b, m.(alt := 500.0), lib);
  }

  lemma NextBootIs(b: Boot, u: Settings, lib: Libc)
    ensures NextBoot(b, u, lib) == Sync(Boot(u, u, Sync(b, lib).snapshot, Sync(b, lib).file), lib)
  {
  }

  /** Over the snapshot of `m` that file sets the altitude to 50.4 and stays, whatever altitude was stored. */
  lemma AdoptsAltitude(m: Settings, snapshot: string, u: Settings, n: Settings)
    requires m == Settings("s", "u", "p", 50.0, 50.0, 50.0, 0, 0) && snapshot == Render(m, FiftyLibc())
    requires u == n == m.(alt := u.alt)
    ensures var b := Boot(u, n, snapshot, File("\"alt\": 50.4"));
            Sync(b, FiftyLibc()) == Boot(m.(alt := 50.4), m.(alt := 50.4), snapshot, b.file)
  {
    hide EditsOf, Render, ReadFile, Quoted, Parts;
    FileReadsBack("\"alt\": 50.4");
    RenderIsClean(m, FiftyLibc());
    NoFourPrinted(m);
    AltitudeEdit(snapshot);
    SameRendering(m, m.(alt := 50.4), FiftyLibc());
  }

  lemma SameRendering(m: Settings, n: Settings, lib: Libc)
    requires lib == FiftyLibc() && n == m.(alt := n.alt)
    ensures Render(m, lib) == Render(n, lib)
  {
    hide Quoted;
    assert Parts(m, lib) == Parts(n, lib);
  }

  /** The one edit of that file, over a snapshot that does not spell 50.4 itself. */
  lemma AltitudeEdit(snapshot: string)
    requires snapshot != [] && '4' !in snapshot
    ensures EditsOf("\"alt\": 50.4", snapshot, FiftyLibc()) == NO_EDITS.(alt := Some(50.4))
  {
    hide Find;
    var text := "\"alt\": 50.4";
    OnlyAltitude("\"lat\":");
    OnlyAltitude("\"lon\":");
    OnlyAltitude("\"station\":\"");
    OnlyAltitude("\"mqtt_user\":\"");
    OnlyAltitude("\"mqtt_pass\":\"");
    OnlyAltitude("\"tx_enable\":");
    OnlyAltitude("\"log_level\":");
    AltitudeIs(snapshot);
  }

  lemma AltitudeIs(snapshot: string)
    requires snapshot != [] && '4' !in snapshot
    ensures FloatEdit("\"alt\": 50.4", snapshot, "\"alt\":", -500.0, 9000.0, FiftyLibc()) == Some(50.4)
  {
    hide Find;
    var text, key := "\"alt\": 50.4", "\"alt\":";
    FoundAtOnce(text, key);
    assert After(text, key) == Some(" 50.4");
    var rest := After(snapshot, key);
    if rest.Some? {
      assert rest.value == snapshot[|snapshot| - |rest.value|..];
      assert rest.value != " 50.4" by {
        assert " 50.4"[4] == '4';
        assert |rest.value| == 5 ==> rest.value[4] in snapshot;
      }
    }
  }

  lemma FoundAtOnce(text: string, key: string)
    requires key <= text
    ensures Find(text, key, 0) == Some(0)
  {
  }

  lemma NoFourPrinted(m: Settings)
    requires '4' !in m.station && '4' !in m.user && '4' !in m.pass
    ensures '4' !in Render(m, FiftyLibc())
  {
    var p := Parts(m, FiftyLibc());
    PartsSpelledOut(m, FiftyLibc());
    assert forall j :: 0 <= j < 12 ==> '4' !in Numbers(m, FiftyLibc())[j];
    assert forall j :: 13 <= j < |p| ==> p[j] == p[13..][j - 13];
    RenderIsPrefix(m, FiftyLibc());
    hide Quoted, Parts, Render, Numbers;
    QuotedIsClean(p, '4');
  }

  lemma OnlyAltitude(key: string)
    requires |key| >= 2 && key[0] == '"' && key[1] != 'a' && key[1] != ':'
    ensures Find("\"alt\": 50.4", key, 0) == None
  {
    hide Find;
    var text := "\"alt\": 50.4";
    forall i | 0 <= i && i + |key| <= |text|
      ensures text[i] != key[0] || text[i + 1] != key[1]
    {
      assert text[0] == '"' && text[1] == 'a' && text[4] == '"' && text[5] == ':';
    }
    NotFoundFrom(text, key, 0);
  }

  lemma {:induction false} NotFoundFrom(text: string, key: string, from: nat)
    requires |key| >= 2
    requires forall i :: from <= i && i + |key| <= |text| ==> text[i] != key[0] || text[i + 1] != key[1]
    ensures Find(text, key, from) == None
    decreases |text| - from
  {
    if from + |key| <= |text| {
      var t := text[from..from + |key|];
      assert t[0] == text[from] && t[1] == text[from + 1];
      NotFoundFrom(text, key, from + 1);
    }
  }

  // ------------------------------------------------------ strings in a device-written file

  predicate NoQuotes(segs: seq<string>)
  {
    forall i :: 0 <= i < |segs| ==> '"' !in segs[i]
  }

  lemma UpToFirstMark(a: string, x: string)
    requires '"' !in a
    ensures UpTo(a + "\"" + x, '"') == a
  {
    var t := a + "\"" + x;
    UpToStops(t, |a|, '"');
    assert t[..|a|] == a;
    UpToAll(a, '"');
  }

  /** The part of a text before its first quotation mark is determined. */
  lemma FirstSegment(a: string, x: string, b: string, y: string)
    requires '"' !in a && '"' !in b && a + "\"" + x == b + "\"" + y
    ensures a == b && x == y
  {
    UpToFirstMark(a, x);
    UpToFirstMark(b, y);
    assert x == (a + "\"" + x)[|a| + 1..];
    assert y == (b + "\"" + y)[|b| + 1..];
  }

  lemma MarkInside(a: string, t: string, i: nat)
    requires i < |a| <= |t| && a == t[..|a|] && t[i] == '"'
    ensures '"' in a
  {
    assert a[i] == t[i];
  }

  lemma MarkNeedsTwo(segs: seq<string>, i: nat)
    requires segs != [] && NoQuotes(segs) && i < |Quoted(segs)| && Quoted(segs)[i] == '"'
    ensures |segs| >= 2 && i >= |segs[0]|
  {
    var t := Quoted(segs);
    if i < |segs[0]| {
      MarkInside(segs[0], t, i);
    }
  }

  /** A text that goes on with `a`, a mark, `b`, a mark has `a` and `b` for its first segments. */
  lemma TwoSegments(segs: seq<string>, a: string, b: string, x: string)
    requires segs != [] && NoQuotes(segs) && '"' !in a && '"' !in b
    requires Quoted(segs) == a + "\"" + (b + "\"" + x)
    ensures |segs| >= 3 && segs[0] == a && segs[1] == b
  {
    MarkNeedsTwo(segs, |a|);
    FirstSegment(segs[0], Quoted(segs[1..]), a, b + "\"" + x);
    MarkNeedsTwo(segs[1..], |b|);
    FirstSegment(segs[1], Quoted(segs[1..][1..]), b, x);
  }

  /** A key of the form mark, `a`, mark, `b`, mark occurs only where two neighbouring segments are
      `a` and `b`. */
  lemma {:induction false} KeyOccursBetweenMarks(segs: seq<string>, a: string, b: string, i: nat)
    returns (j: nat)
    requires segs != [] && NoQuotes(segs) && '"' !in a && '"' !in b
    requires var key := "\"" + a + "\"" + b + "\"";
             var t := Quoted(segs);
             i + |key| <= |t| && t[i..i + |key|] == key
    ensures 0 < j && j + 2 < |segs| && segs[j] == a && segs[j + 1] == b
    decreases |segs|
  {
    var key := "\"" + a + "\"" + b + "\"";
    var t := Quoted(segs);
    assert t[i] == t[i..i + |key|][0] == '"';
    MarkNeedsTwo(segs, i);
    var n := |segs[0]|;
    var u := Quoted(segs[1..]);
    assert t == segs[0] + "\"" + u;
    if i == n {
      var x := u[|key| - 1..];
      assert u[..|key| - 1] == t[i..i + |key|][1..] == a + "\"" + b + "\"";
      assert u == a + "\"" + (b + "\"" + x);
      TwoSegments(segs[1..], a, b, x);
      j := 1;
    } else {
      var k := i - n - 1;
      assert u[k..k + |key|] == t[i..i + |key|];
      j := KeyOccursBetweenMarks(segs[1..], a, b, k);
      j := j + 1;
    }
  }

  /** The key occurs somewhere in the text. */
  predicate Occurs(key: string, text: string)
  {
    Find(text, key, 0).Some?
  }

  lemma {:induction false} FoundFrom(text: string, key: string, from: nat, i: nat)
    requires from <= i && i + |key| <= |text| && text[i..i + |key|] == key
    ensures Find(text, key, from).Some?
    decreases i - from
  {
    if from < i {
      FoundFrom(text, key, from + 1, i);
    }
  }

  lemma OccursInside(key: string, x: string, y: string, z: string)
    ensures Occurs(key, y) ==> Occurs(key, x + y + z)
  {
    hide Find;
    if Occurs(key, y) {
      var t, i := x + y + z, Find(y, key, 0).value;
      assert t[|x| + i..|x| + i + |key|] == y[i..i + |key|];
      FoundFrom(t, key, 0, |x| + i);
    }
  }

  /** A key without the character `c` does not reach across one. */
  lemma OccursBeside(key: string, x: string, c: char, y: string)
    requires c !in key && key != []
    ensures Occurs(key, x + [c] + y) <==> Occurs(key, x) || Occurs(key, y)
  {
    hide Find;
    var t, k := x + [c] + y, |key|;
    OccursInside(key, "", x, [c] + y);
    OccursInside(key, x + [c], y, "");
    assert "" + x + ([c] + y) == t && x + [c] + y + "" == t;
    if Occurs(key, t) {
      var i := Find(t, key, 0).value;
      if i + k <= |x| {
        assert x[i..i + k] == t[i..i + k];
        FoundFrom(x, key, 0, i);
      } else if i > |x| {
        var j := i - |x| - 1;
        assert t[|x| + 1..] == y;
        assert y[j..j + k] == t[i..i + k];
        FoundFrom(y, key, 0, j);
      } else {
        InsideOccurrence(t, key, i, |x|);
      }
    }
  }

  /** An occurrence holds only characters of the key. */
  lemma InsideOccurrence(t: string, key: string, i: nat, j: nat)
    requires i <= j < i + |key| <= |t| && t[i..i + |key|] == key
    ensures t[j] in key
  {
    assert t[j] == t[i..i + |key|][j - i];
  }

  /** A search key of a string field: no blank between the colon and the mark. */
  function StringKey(name: string): string
  {
    "\"" + name + "\":\""
  }

  function Marked(v: string): string
  {
    "\"" + v + "\""
  }

  /** A value, with the marks around it, holds the key. */
  predicate Spells(m: Settings, key: string)
  {
    Occurs(key, Marked(m.station)) || Occurs(key, Marked(m.user)) || Occurs(key, Marked(m.pass))
  }

  predicate PlainName(name: string)
  {
    '"' !in name && ' ' !in name && ',' !in name
  }

  /** One string field of the file and what follows it. */
  lemma FieldOccurs(name: string, head: string, v: string, y: string)
    requires PlainName(name)
    ensures var key := StringKey(name);
            Occurs(key, head + ": " + Marked(v) + "," + y)
            <==> Occurs(key, head + ":") || Occurs(key, Marked(v)) || Occurs(key, y)
  {
    hide Occurs, Marked;
    var key := StringKey(name);
    OccursBeside(key, Marked(v), ',', y);
    OccursBeside(key, head + ":", ' ', Marked(v) + [','] + y);
    assert head + ": " + Marked(v) + "," + y == (head + ":") + [' '] + (Marked(v) + [','] + y);
  }

  /** Where the key is put together from the marks of `segs`, some segment is a single colon. */
  lemma NoKeyWithoutColon(name: string, segs: seq<string>)
    requires segs != [] && NoQuotes(segs) && '"' !in name
    requires forall j :: 2 <= j < |segs| - 1 ==> segs[j] != ":"
    ensures !Occurs(StringKey(name), Quoted(segs))
  {
    hide Find, Quoted, NoQuotes;
    var key, t := StringKey(name), Quoted(segs);
    if Occurs(key, t) {
      assert key == "\"" + name + "\"" + ":" + "\"";
      var j := KeyOccursBetweenMarks(segs, name, ":", Find(t, key, 0).value);
    }
  }

  lemma QuotedStep(segs: seq<string>)
    requires |segs| >= 2
    ensures Quoted(segs) == segs[0] + "\"" + Quoted(segs[1..])
  {
  }

  lemma QuotedThree(a: string, b: string, c: string)
    ensures Quoted([a, b, c]) == a + Marked(b) + c
  {
    assert [a, b, c][1..] == [b, c] && [b, c][1..] == [c];
    assert Quoted([b, c]) == b + "\"" + c;
    assert a + "\"" + (b + "\"" + c) == a + Marked(b) + c;
  }

  /** Two neighbouring segments of the file and what follows them. */
  lemma TwoQuoted(p: seq<string>, j: nat)
    requires j + 2 < |p|
    ensures Quoted(p[j..]) == p[j] + Marked(p[j + 1]) + Quoted(p[j + 2..])
  {
    hide Quoted;
    QuotedStep(p[j..]);
    assert p[j..][1..] == p[j + 1..];
    QuotedStep(p[j + 1..]);
    assert p[j + 1..][1..] == p[j + 2..];
  }

  /** The file, field by field. */
  lemma FileShape(m: Settings, lib: Libc)
    ensures Quoted(Parts(m, lib)) ==
            "{\n  \"station\"" + ": " + Marked(m.station) + "," +
            ("\n  \"mqtt_user\"" + ": " + Marked(m.user) + "," +
            ("\n  \"mqtt_pass\"" + ": " + Marked(m.pass) + "," + Quoted(["\n  "] + Numbers(m, lib))))
  {
    var p := Parts(m, lib);
    PartsSpelledOut(m, lib);
    hide Quoted, Parts, Marked;
    assert p[0..] == p;
    var q := ["\n  "] + Numbers(m, lib);
    TwoQuoted(p, 0);
    TwoQuoted(p, 2);
    TwoQuoted(p, 4);
    TwoQuoted(p, 6);
    TwoQuoted(p, 8);
    TwoQuoted(p, 10);
    QuotedStep(p[12..]);
    assert p[12..][1..] == p[13..];
    QuotedStep(q);
    assert q[1..] == p[13..];
    MarkedNames();
    assert Quoted(p[12..]) == "," + Quoted(q);
    assert Quoted(p[8..]) == "," + ("\n  \"mqtt_pass\"" + ": " + Marked(m.pass) + "," + Quoted(q));
    assert Quoted(p[4..]) == "," + ("\n  \"mqtt_user\"" + ": " + Marked(m.user) + Quoted(p[8..]));
  }

  lemma PartsSpelledOut(m: Settings, lib: Libc)
    ensures var p := Parts(m, lib);
      && |p| == 25 && p[0] == "{\n  " && p[1] == "station" && p[2] == ": " && p[3] == m.station
      && p[4] == ",\n  " && p[5] == "mqtt_user" && p[6] == ": " && p[7] == m.user
      && p[8] == ",\n  " && p[9] == "mqtt_pass" && p[10] == ": " && p[11] == m.pass && p[12] == ",\n  "
      && p[13..] == Numbers(m, lib)
  {
  }

  lemma MarkedNames()
    ensures "{\n  " + Marked("station") == "{\n  \"station\""
    ensures "\n  " + Marked("mqtt_user") == "\n  \"mqtt_user\""
    ensures "\n  " + Marked("mqtt_pass") == "\n  \"mqtt_pass\""
  {
  }

  lemma NumbersHaveNoKey(m: Settings, lib: Libc, name: string)
    requires Plain(lib) && PlainName(name)
    ensures !Occurs(StringKey(name), Quoted(["\n  "] + Numbers(m, lib)))
  {
    hide Parts, Quoted, Numbers, Occurs;
    var n := Numbers(m, lib);
    var q := ["\n  "] + n;
    NumbersAreLong(m, lib);
    assert forall j :: 1 <= j < |q| ==> q[j] == n[j - 1];
    NoKeyWithoutColon(name, q);
  }

  lemma NumbersAreLong(m: Settings, lib: Libc)
    requires Plain(lib)
    ensures var n := Numbers(m, lib); NoQuotes(n) && forall j :: 0 <= j < |n| ==> |n[j]| >= 2
  {
  }

  lemma HeadsHaveNoKey(name: string)
    requires PlainName(name)
    ensures var key := StringKey(name);
            && !Occurs(key, "{\n  \"station\"" + ":")
            && !Occurs(key, "\n  \"mqtt_user\"" + ":") && !Occurs(key, "\n  \"mqtt_pass\"" + ":")
  {
    hide Occurs;
    HeadHasNoKey(name, "{\n  ", "station");
    HeadHasNoKey(name, "\n  ", "mqtt_user");
    HeadHasNoKey(name, "\n  ", "mqtt_pass");
    assert "{\n  " + Marked("station") + ":" == "{\n  \"station\"" + ":";
    assert "\n  " + Marked("mqtt_user") + ":" == "\n  \"mqtt_user\"" + ":";
    assert "\n  " + Marked("mqtt_pass") + ":" == "\n  \"mqtt_pass\"" + ":";
  }

  lemma HeadHasNoKey(name: string, lead: string, field: string)
    requires PlainName(name) && '"' !in lead && '"' !in field
    ensures !Occurs(StringKey(name), lead + Marked(field) + ":")
  {
    hide Occurs;
    var segs := [lead, field, ":"];
    NoKeyWithoutColon(name, segs);
    QuotedThree(lead, field, ":");
  }

  /** The search keys of the string fields have no blank after the colon, the device writes one: so in a
      file the device writes, a key occurs exactly if one of the three values spells it out. */
  lemma StringKeyOccursIff(m: Settings, lib: Libc, name: string)
    requires Plain(lib) && PlainName(name)
    ensures Occurs(StringKey(name), Quoted(Parts(m, lib))) <==> Spells(m, StringKey(name))
  {
    hide Occurs, Marked, Quoted, Parts, Numbers, StringKey;
    var r := Quoted(["\n  "] + Numbers(m, lib));
    var r3 := "\n  \"mqtt_pass\"" + ": " + Marked(m.pass) + "," + r;
    var r2 := "\n  \"mqtt_user\"" + ": " + Marked(m.user) + "," + r3;
    FileShape(m, lib);
    FieldOccurs(name, "{\n  \"station\"", m.station, r2);
    FieldOccurs(name, "\n  \"mqtt_user\"", m.user, r3);
    FieldOccurs(name, "\n  \"mqtt_pass\"", m.pass, r);
    HeadsHaveNoKey(name);
    NumbersHaveNoKey(m, lib, name);
  }

  /** The buffer may cut the file, which can only take occurrences away. */
  lemma StringKeyIsAbsent(m: Settings, lib: Libc, name: string)
    requires Plain(lib) && PlainName(name)
    ensures Occurs(StringKey(name), Render(m, lib)) ==> Spells(m, StringKey(name))
    ensures |Quoted(Parts(m, lib))| < SNAPSHOT_MAX ==>
              (Occurs(StringKey(name), Render(m, lib)) <==> Spells(m, StringKey(name)))
  {
    RenderIsPrefix(m, lib);
    hide Quoted, Parts, Render, Spells, Find, StringKey;
    var key, r, t := StringKey(name), Render(m, lib), Quoted(Parts(m, lib));
    StringKeyOccursIff(m, lib, name);
    if Occurs(key, r) {
      var i := Find(r, key, 0).value;
      SliceOfPrefix(r, t, i, |key|);
      FoundFrom(t, key, 0, i);
    }
  }

  lemma RenderIsPrefix(m: Settings, lib: Libc)
    ensures Render(m, lib) <= Quoted(Parts(m, lib))
    ensures |Quoted(Parts(m, lib))| < SNAPSHOT_MAX ==> Render(m, lib) == Quoted(Parts(m, lib))
  {
  }

  lemma SliceOfPrefix(r: string, t: string, i: nat, n: nat)
    requires r <= t && i + n <= |r|
    ensures t[i..i + n] == r[i..i + n]
  {
  }

  lemma MissingKeyNoEdit(text: string, snapshot: string, key: string, size: nat)
    requires size > 0 && Find(text, key, 0) == None
    ensures StringEdit(text, snapshot, key, size) == None
  {
  }

  /** None of the three values spells one of the three keys. */
  predicate SpellsNoKey(m: Settings)
  {
    !Spells(m, StringKey("station")) && !Spells(m, StringKey("mqtt_user")) && !Spells(m, StringKey("mqtt_pass"))
  }

  /** So an edit of a string value inside a file the device wrote is never picked up: whatever strings
      such a file holds, short of a key itself, and whatever the snapshot says, station, user and
      password stay as they are. */
  lemma StringEditsInDeviceFileAreMissed(b: Boot, edited: Settings, lib: Libc)
    requires Plain(lib) && Clean(edited) && SpellsNoKey(edited) && b.file == File(Render(edited, lib))
    ensures var n := Sync(b, lib);
            n.mem.station == b.mem.station && n.mem.user == b.mem.user && n.mem.pass == b.mem.pass
    ensures var n := Sync(b, lib);
            n.nvs.station == b.nvs.station && n.nvs.user == b.nvs.user && n.nvs.pass == b.nvs.pass
  {
    hide Render, ReadFile, FloatEdit, BoolEdit, LevelEdit, StringEdit, Find, Spells, Quoted, Parts, StringKey;
    RenderIsClean(edited, lib);
    FileReadsBack(Render(edited, lib));
    KeysSpelledOut();
    StringKeyIsAbsent(edited, lib, "station");
    StringKeyIsAbsent(edited, lib, "mqtt_user");
    StringKeyIsAbsent(edited, lib, "mqtt_pass");
    var text := Render(edited, lib);
    MissingKeyNoEdit(text, b.snapshot, "\"station\":\"", STATION);
    MissingKeyNoEdit(text, b.snapshot, "\"mqtt_user\":\"", USER);
    MissingKeyNoEdit(text, b.snapshot, "\"mqtt_pass\":\"", PASS);
  }

  lemma KeysSpelledOut()
    ensures StringKey("station") == "\"station\":\""
    ensures StringKey("mqtt_user") == "\"mqtt_user\":\""
    ensures StringKey("mqtt_pass") == "\"mqtt_pass\":\""
  {
  }

  /** Values without quotation marks spell no key. */
  lemma UnquotedSpellsNoKey(m: Settings)
    requires '"' !in m.station && '"' !in m.user && '"' !in m.pass
    ensures SpellsNoKey(m)
  {
    hide Occurs;
    forall name, v | name in ["station", "mqtt_user", "mqtt_pass"] && v in [m.station, m.user, m.pass]
      ensures !Occurs(StringKey(name), Marked(v))
    {
      ThreeMarksNeeded(name, v);
    }
    assert m.station in [m.station, m.user, m.pass] && m.user in [m.station, m.user, m.pass];
    assert m.pass in [m.station, m.user, m.pass];
    assert "station" in ["station", "mqtt_user", "mqtt_pass"] && "mqtt_user" in ["station", "mqtt_user", "mqtt_pass"];
    assert "mqtt_pass" in ["station", "mqtt_user", "mqtt_pass"];
  }

  lemma ThreeMarksNeeded(name: string, v: string)
    requires '"' !in name && '"' !in v
    ensures !Occurs(StringKey(name), Marked(v))
  {
    hide Occurs;
    var segs := ["", v, ""];
    QuotedThree("", v, "");
    assert "" + Marked(v) + "" == Marked(v);
    NoKeyWithoutColon(name, segs);
  }

  /** But a station's name can spell its own key: it is printed with its quotation marks as they are. */
  lemma NameCanSpellItsKey(m: Settings)
    requires m.station == "\"station\":\"x"
    ensures Spells(m, StringKey("station")) && !SpellsNoKey(m)
  {
    KeysSpelledOut();
    var t := Marked(m.station);
    assert t == "\"\"station\":\"x\"";
    assert t[1..12] == StringKey("station");
    FoundFrom(t, StringKey("station"), 0, 1);
  }
}
