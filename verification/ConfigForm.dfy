/** What the POST branch of `config_handler`, src/web/web_ui.cpp, does with the form once it is there, and
    the way of a submitted form from the browser's list of fields to memory and NVS.

    `float` is taken as `real`; `strtof` and `strtoul` are parameters. */
module ConfigForm {
  import opened FormParser
  import opened Wrappers
  import ConfigPage

  /** Strings are C strings without their NUL. */
  datatype Settings = Settings(station: seq<Octet>, user: seq<Octet>, pass: seq<Octet>, admin: seq<Octet>,
                               lat: real, lon: real, alt: real, tz: nat, tx: int)

  /** `strtoul` says nothing where it consumes nothing. */
  datatype Libc = Libc(strtof: seq<Octet> -> real, strtoul: seq<Octet> -> Option<nat>)

  const STATION: nat := 32
  const USER: nat := 64
  const PASS: nat := 64
  const ADMIN: nat := 32
  const FIELD: nat := 256

  /** The strings fit their buffers. */
  predicate Fits(s: Settings)
  {
    |s.station| < STATION && |s.user| < USER && |s.pass| < PASS && |s.admin| < ADMIN
  }

  /** A field as the handler has it in `field`; nothing if it is absent or empty. */
  function FieldOf(body: seq<Octet>, name: seq<Octet>): seq<Octet>
  {
    match Lookup(body, name)
    case None => []
    case Some(v) => UpTo<Octet>(Cut(v, FIELD - 1), '\0')
  }

  /** A string setting: an absent or empty field leaves it as it is. */
  function Text(field: seq<Octet>, current: seq<Octet>, size: nat): seq<Octet>
    requires size > 0
  {
    if field == [] then current else Cut(field, size - 1)
  }

  function Number(field: seq<Octet>, current: real, lib: Libc): real
  {
    if field == [] then current else lib.strtof(field)
  }

  /** The timezone: an index into the table, cut to sixteen bits. */
  function Zone(field: seq<Octet>, current: nat, zones: nat, lib: Libc): nat
  {
    if field == [] then current
    else match lib.strtoul(field)
      case None => current
      case Some(v) => if v < zones then v % 0x1_0000 else current
  }

  /** The check box: browsers leave it out when it is not set. */
  function Flag(field: seq<Octet>): int
  {
    if field != [] && field[0] == '1' then 1 else 0
  }

  /** The settings once a form has been handled whose fields are given by `field`. */
  function Stored(s: Settings, field: seq<Octet> -> seq<Octet>, zones: nat, lib: Libc): Settings
  {
    Settings(Text(field("station"), s.station, STATION), Text(field("mqtt_user"), s.user, USER),
             Text(field("mqtt_pass"), s.pass, PASS), Text(field("admin_pw"), s.admin, ADMIN),
             Number(field("lat"), s.lat, lib), Number(field("lon"), s.lon, lib), Number(field("alt"), s.alt, lib),
             Zone(field("tz"), s.tz, zones, lib), Flag(field("tx")))
  }

  /** The page says that a restart is needed. */
  predicate NeedsRestart(s: Settings, field: seq<Octet> -> seq<Octet>)
  {
    || (field("station") != [] && field("station") != s.station)
    || (field("mqtt_user") != [] && field("mqtt_user") != s.user)
    || field("mqtt_pass") != []
  }

  lemma CutAtMost(v: seq<Octet>, n: nat)
    ensures |Cut(v, n)| <= n
    ensures |v| <= n ==> Cut(v, n) == v
  {
  }

  /** The settings in memory and in NVS. */
  class Form {
    var mem: Settings
    var nvs: Settings

    constructor (s: Settings)
      ensures mem == s && nvs == s
    {
      mem, nvs := s, s;
    }

    /** One `form_get` into the local buffer, read as a C string. */
    method Get(body: seq<Octet>, name: seq<Octet>) returns (field: seq<Octet>)
      ensures field == FieldOf(body, name)
    {
      hide Lookup, Cut, UpTo;
      var buffer := new Octet[FIELD];
      var found := FormGet(body, name, buffer);
      if found {
        ghost var v := Cut(Lookup(body, name).value, FIELD - 1);
        UpToStops<Octet>(buffer[..], |v|, '\0');
        assert buffer[..][..|v|] == v;
        field := UpTo<Octet>(buffer[..], '\0');
      } else {
        field := [];
      }
    }

    /** Station and location: a change of any of the four saves the location. */
    method PostStation(body: seq<Octet>, lib: Libc) returns (changed: bool)
      requires Fits(mem)
      modifies this
      ensures Fits(mem)
      ensures mem == old(mem).(station := Text(FieldOf(body, "station"), old(mem).station, STATION),
                               lat := Number(FieldOf(body, "lat"), old(mem).lat, lib),
                               lon := Number(FieldOf(body, "lon"), old(mem).lon, lib),
                               alt := Number(FieldOf(body, "alt"), old(mem).alt, lib))
      ensures old(mem == nvs) ==> mem == nvs
      ensures changed == (FieldOf(body, "station") != [] && FieldOf(body, "station") != old(mem).station)
    {
      hide FieldOf, Cut;
      changed := false;
      var changes := false;
      var field := Get(body, "station");
      CutAtMost(field, STATION - 1);
      if field != [] && field != mem.station {
        mem := mem.(station := Cut(field, STATION - 1));
        nvs := nvs.(station := mem.station);
        changes, changed := true, true;
      }
      field := Get(body, "lat");
      if field != [] && lib.strtof(field) != mem.lat {
        mem := mem.(lat := lib.strtof(field));
        changes := true;
      }
      field := Get(body, "lon");
      if field != [] && lib.strtof(field) != mem.lon {
        mem := mem.(lon := lib.strtof(field));
        changes := true;
      }
      field := Get(body, "alt");
      if field != [] && lib.strtof(field) != mem.alt {
        mem := mem.(alt := lib.strtof(field));
        changes := true;
      }
      if changes {
        nvs := nvs.(lat := mem.lat, lon := mem.lon, alt := mem.alt);
      }
    }

    /** The MQTT account and the password of the page. */
    method PostAccount(body: seq<Octet>) returns (changed: bool)
      requires Fits(mem)
      modifies this
      ensures Fits(mem)
      ensures mem == old(mem).(user := Text(FieldOf(body, "mqtt_user"), old(mem).user, USER),
                               pass := Text(FieldOf(body, "mqtt_pass"), old(mem).pass, PASS),
                               admin := Text(FieldOf(body, "admin_pw"), old(mem).admin, ADMIN))
      ensures old(mem == nvs) ==> mem == nvs
      ensures changed == ((FieldOf(body, "mqtt_user") != [] && FieldOf(body, "mqtt_user") != old(mem).user)
                          || FieldOf(body, "mqtt_pass") != [])
    {
      hide FieldOf, Cut;
      changed := false;
      var field := Get(body, "mqtt_user");
      CutAtMost(field, USER - 1);
      if field != [] && field != mem.user {
        mem := mem.(user := Cut(field, USER - 1));
        nvs := nvs.(user := mem.user);
        changed := true;
      }
      field := Get(body, "mqtt_pass");
      CutAtMost(field, PASS - 1);
      if field != [] {
        mem := mem.(pass := Cut(field, PASS - 1));
        nvs := nvs.(pass := mem.pass);
        changed := true;
      }
      field := Get(body, "admin_pw");
      CutAtMost(field, ADMIN - 1);
      if field != [] {
        mem := mem.(admin := Cut(field, ADMIN - 1));
        nvs := nvs.(admin := mem.admin);
      }
    }

    /** The timezone and the check box. */
    method PostChoices(body: seq<Octet>, zones: nat, lib: Libc)
      modifies this
      ensures mem == old(mem).(tz := Zone(FieldOf(body, "tz"), old(mem).tz, zones, lib),
                               tx := Flag(FieldOf(body, "tx")))
      ensures old(mem == nvs) ==> mem == nvs
    {
      hide FieldOf;
      var field := Get(body, "tz");
      if field != [] {
        var v := lib.strtoul(field);
        if v.Some? && v.value < zones && v.value % 0x1_0000 != mem.tz {
          mem := mem.(tz := v.value % 0x1_0000);
          nvs := nvs.(tz := mem.tz);
        }
      }
      var tx := 0;
      field := Get(body, "tx");
      if field != [] {
        tx := if field[0] == '1' then 1 else 0;
      }
      if tx != mem.tx {
        mem := mem.(tx := tx);
        nvs := nvs.(tx := mem.tx);
      }
    }

    /** The form handler: memory holds what the form says, NVS stays a copy of memory, and the result says
        whether the page asks for a restart. */
    method Post(body: seq<Octet>, zones: nat, lib: Libc) returns (restart: bool)
      requires Fits(mem)
      modifies this
      ensures Fits(mem)
      ensures mem == Stored(old(mem), name => FieldOf(body, name), zones, lib)
      ensures old(mem == nvs) ==> mem == nvs
      ensures restart == NeedsRestart(old(mem), name => FieldOf(body, name))
    {
      hide FieldOf, Text, Number, Zone, Flag;
      var station := PostStation(body, lib);
      var account := PostAccount(body);
      PostChoices(body, zones, lib);
      restart := station || account;
    }
  }

  // ------------------------------------------------------ from the browser to memory

  /** What a submitted list of fields says under a name. */
  function Submitted(fields: seq<Field>, name: seq<Octet>): seq<Octet>
  {
    match First(fields, name)
    case None => []
    case Some(v) => UpTo<Octet>(Cut(v, FIELD - 1), '\0')
  }

  predicate ConfigName(name: seq<Octet>)
  {
    name in ["station", "lat", "lon", "alt", "mqtt_user", "mqtt_pass", "admin_pw", "tz", "tx"]
  }

  lemma FieldIsSubmitted(fields: seq<Field>, name: seq<Octet>)
    requires ConfigName(name)
    ensures FieldOf(Serialize(fields), name) == Submitted(fields, name)
  {
    hide Lookup, Serialize, First, Encode;
    ConfigNamesArePlain();
    FindsFirstValue(fields, name);
  }

  lemma StoredIsSubmitted(s: Settings, fields: seq<Field>, zones: nat, lib: Libc)
    ensures var body := Serialize(fields);
            Stored(s, name => FieldOf(body, name), zones, lib) == Stored(s, name => Submitted(fields, name), zones, lib)
  {
    hide FieldOf, Submitted, Serialize, Text, Number, Zone, Flag;
    FieldIsSubmitted(fields, "station");
    FieldIsSubmitted(fields, "lat");
    FieldIsSubmitted(fields, "lon");
    FieldIsSubmitted(fields, "alt");
    FieldIsSubmitted(fields, "mqtt_user");
    FieldIsSubmitted(fields, "mqtt_pass");
    FieldIsSubmitted(fields, "admin_pw");
    FieldIsSubmitted(fields, "tz");
    FieldIsSubmitted(fields, "tx");
  }

  /** The whole way: after any requests whatever, an authorized POST that carries a submitted list of fields,
      in whatever pieces, runs the form handler on a body with which it stores exactly the first value of each
      field, cut to its buffer, and leaves alone what is absent or empty.  The form must fit the buffer. */
  lemma {:induction false} SubmittedFormIsStored(
    requests: seq<(ConfigPage.Zones, ConfigPage.Request)>, z: ConfigPage.Zones, r: ConfigPage.Request,
    fields: seq<Field>, s: Settings, lib: Libc)
    requires forall k :: 0 <= k < |requests| ==> ConfigPage.WellFormed(requests[k].1)
    requires r.isPost && r.authorized && r.patience > 0
    requires ConfigPage.Concat(r.early + [r.last]) == Serialize(fields) && |Serialize(fields)| <= ConfigPage.POST_SIZE
    ensures var replies := ConfigPage.Serve(z, ConfigPage.ServeAll(ConfigPage.IDLE, requests), r).1;
            && |replies| == 1 && replies[0].Saved?
            && Stored(s, name => FieldOf(replies[0].body, name), |z.names|, lib)
               == Stored(s, name => Submitted(fields, name), |z.names|, lib)
  {
    hide ConfigPage.Serve, ConfigPage.ServeAll, ConfigPage.Concat, Stored, Serialize;
    ConfigPage.PostIsHandledWhole(requests, z, r);
    StoredIsSubmitted(s, fields, |z.names|, lib);
  }

  /** Every part is larger than the buffer. */
  predicate AllTooLarge(parts: seq<seq<Octet>>)
  {
    forall k :: 0 <= k < |parts| ==> |parts[k]| > ConfigPage.POST_SIZE
  }

  lemma {:induction false} NothingCollected(parts: seq<seq<Octet>>)
    requires AllTooLarge(parts)
    ensures ConfigPage.CollectAll([], parts) == []
    decreases |parts|
  {
    if parts != [] {
      NothingCollected(parts[1..]);
    }
  }

  /** What becomes of a form that does not fit, sent in one piece (or in several, each of them too large): it
      is dropped whole, and the handler runs all the same, on nothing.  Every text and number stays, no
      restart is asked for, and transmission is switched off. */
  lemma {:induction false} OversizedFormClearsTx(
    requests: seq<(ConfigPage.Zones, ConfigPage.Request)>, z: ConfigPage.Zones, r: ConfigPage.Request,
    s: Settings, lib: Libc)
    requires forall k :: 0 <= k < |requests| ==> ConfigPage.WellFormed(requests[k].1)
    requires r.isPost && r.authorized && r.patience > 0 && AllTooLarge(r.early + [r.last])
    ensures var replies := ConfigPage.Serve(z, ConfigPage.ServeAll(ConfigPage.IDLE, requests), r).1;
            && replies == [ConfigPage.Saved([])]
            && Stored(s, name => FieldOf([], name), |z.names|, lib) == s.(tx := 0)
            && !NeedsRestart(s, name => FieldOf([], name))
  {
    hide ConfigPage.Serve, ConfigPage.ServeAll, ConfigPage.Concat, ConfigPage.CollectAll, Lookup, AllTooLarge;
    ConfigPage.PostIsHandledWhole(requests, z, r);
    NothingCollected(r.early + [r.last]);
    forall name
      ensures FieldOf([], name) == []
    {
      LookupOfNothing(name);
    }
  }

  // ------------------------------------------------------ what a user enters

  lemma {:induction false} FirstIs(fields: seq<Field>, name: seq<Octet>, i: nat)
    requires i < |fields| && fields[i].name == name && forall j :: 0 <= j < i ==> fields[j].name != name
    ensures First(fields, name) == Some(fields[i].value)
    decreases i
  {
    if i > 0 {
      FirstIs(fields[1..], name, i - 1);
    }
  }

  lemma {:induction false} FirstIsNone(fields: seq<Field>, name: seq<Octet>)
    requires forall j :: 0 <= j < |fields| ==> fields[j].name != name
    ensures First(fields, name) == None
  {
    if fields != [] {
      FirstIsNone(fields[1..], name);
    }
  }

  /** How the user writes numbers. */
  datatype Hand = Hand(number: real -> seq<Octet>, index: nat -> seq<Octet>)

  /** The form filled in with the settings `w`: a browser leaves the check box out when it is not set. */
  function FilledIn(w: Settings, hand: Hand): seq<Field>
  {
    [Field("station", w.station), Field("lat", hand.number(w.lat)), Field("lon", hand.number(w.lon)),
     Field("alt", hand.number(w.alt)), Field("mqtt_user", w.user), Field("mqtt_pass", w.pass),
     Field("admin_pw", w.admin), Field("tz", hand.index(w.tz))] + (if w.tx == 1 then [Field("tx", "1")] else [])
  }

  /** A text that the handler reads whole. */
  predicate Clear(v: seq<Octet>)
  {
    v != [] && |v| < FIELD && '\0' !in v
  }

  /** Every text is given and fits its buffer, and the C library reads the numbers as they are meant. */
  predicate Legible(w: Settings, hand: Hand, zones: nat, lib: Libc)
  {
    && Fits(w) && Clear(w.station) && Clear(w.user) && Clear(w.pass) && Clear(w.admin)
    && Clear(hand.number(w.lat)) && lib.strtof(hand.number(w.lat)) == w.lat
    && Clear(hand.number(w.lon)) && lib.strtof(hand.number(w.lon)) == w.lon
    && Clear(hand.number(w.alt)) && lib.strtof(hand.number(w.alt)) == w.alt
    && Clear(hand.index(w.tz)) && lib.strtoul(hand.index(w.tz)) == Some(w.tz) && w.tz < zones && w.tz < 0x1_0000
    && (w.tx == 0 || w.tx == 1)
  }

  lemma SubmittedIs(fields: seq<Field>, i: nat)
    requires i < |fields| && forall j :: 0 <= j < i ==> fields[j].name != fields[i].name
    requires Clear(fields[i].value)
    ensures Submitted(fields, fields[i].name) == fields[i].value
  {
    FirstIs(fields, fields[i].name, i);
    UpToAll<Octet>(fields[i].value, '\0');
  }

  lemma NamesDiffer(w: Settings, hand: Hand, i: nat, j: nat)
    requires j < i < |FilledIn(w, hand)|
    ensures FilledIn(w, hand)[j].name != FilledIn(w, hand)[i].name
  {
  }

  lemma NotChecked(w: Settings, hand: Hand)
    requires w.tx != 1
    ensures Submitted(FilledIn(w, hand), "tx") == []
  {
    FirstIsNone(FilledIn(w, hand), "tx");
  }

  lemma FieldsAre(w: Settings, hand: Hand)
    ensures var f := FilledIn(w, hand);
      && |f| == (if w.tx == 1 then 9 else 8)
      && f[0] == Field("station", w.station) && f[1] == Field("lat", hand.number(w.lat))
      && f[2] == Field("lon", hand.number(w.lon)) && f[3] == Field("alt", hand.number(w.alt))
      && f[4] == Field("mqtt_user", w.user) && f[5] == Field("mqtt_pass", w.pass)
      && f[6] == Field("admin_pw", w.admin) && f[7] == Field("tz", hand.index(w.tz))
      && (w.tx == 1 ==> f[8] == Field("tx", "1"))
  {
  }

  /** Whatever settings a user enters into the form, the handler stores them, all of them and whatever was
      stored before. */
  lemma EnteredIsStored(s: Settings, w: Settings, hand: Hand, zones: nat, lib: Libc)
    requires Legible(w, hand, zones, lib)
    ensures var body := Serialize(FilledIn(w, hand));
            Stored(s, name => FieldOf(body, name), zones, lib) == w
  {
    hide Serialize, FieldOf, Submitted, FilledIn;
    var f := FilledIn(w, hand);
    FieldsAre(w, hand);
    forall i, j | 0 <= j < i < |f|
      ensures f[j].name != f[i].name
    {
      NamesDiffer(w, hand, i, j);
    }
    forall i | 0 <= i < |f|
      ensures Submitted(f, f[i].name) == f[i].value
    {
      SubmittedIs(f, i);
    }
    assert f[0].name == "station" && f[1].name == "lat";
    if w.tx != 1 { NotChecked(w, hand); }
    StoredIsSubmitted(s, f, zones, lib);
  }

  /** Empty or absent texts and numbers leave what is stored; a text too long for its buffer is cut, and a zone
      beyond the table is ignored. */
  lemma StoredOtherwise(s: Settings, field: seq<Octet> -> seq<Octet>, zones: nat, lib: Libc)
    ensures var t := Stored(s, field, zones, lib);
      && (field("station") == [] ==> t.station == s.station) && (field("mqtt_user") == [] ==> t.user == s.user)
      && (field("mqtt_pass") == [] ==> t.pass == s.pass) && (field("admin_pw") == [] ==> t.admin == s.admin)
      && (field("lat") == [] ==> t.lat == s.lat) && (field("lon") == [] ==> t.lon == s.lon)
      && (field("alt") == [] ==> t.alt == s.alt) && (field("tz") == [] ==> t.tz == s.tz)
      && t.tx == (if field("tx") == [] || field("tx")[0] != '1' then 0 else 1)
      && (|field("station")| >= 32 ==> t.station == field("station")[..31])
      && (|field("mqtt_user")| >= 64 ==> t.user == field("mqtt_user")[..63])
      && (|field("mqtt_pass")| >= 64 ==> t.pass == field("mqtt_pass")[..63])
      && (|field("admin_pw")| >= 32 ==> t.admin == field("admin_pw")[..31])
      && (lib.strtoul(field("tz")) == None ==> t.tz == s.tz)
      && (forall v :: lib.strtoul(field("tz")) == Some(v) && v >= zones ==> t.tz == s.tz)
  {
  }

  /** A restart is asked for if and only if the station's name or the user changes or a password is given, for
      fields that fit their buffers. */
  lemma RestartIff(s: Settings, field: seq<Octet> -> seq<Octet>, zones: nat, lib: Libc)
    requires |field("station")| < 32 && |field("mqtt_user")| < 64
    ensures var t := Stored(s, field, zones, lib);
            NeedsRestart(s, field) <==> t.station != s.station || t.user != s.user || field("mqtt_pass") != []
  {
  }
}
