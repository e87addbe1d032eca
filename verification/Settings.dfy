/**
 * `config.rs`: validating the settings, and reading a settings file that may be damaged, part by part and
 * failing closed. The JSON text is taken as read: a file is the tree it spells. How one part is parsed from
 * its tree, and which URLs and relays are acceptable, are parameters.
 */
module Settings {
  import opened Limits
  import opened Options
  import opened Chars
  import opened Strings
  import opened Text

  // ---------------------------------------------------------------- the settings

  datatype LocalSend = LocalSend(enabled: bool, pin: Option<Str>)
  datatype Visibility = Hidden | Everyone
  datatype QuickShare = QuickShare(enabled: bool, visibility: Visibility, bleNudge: bool)
  datatype Wormhole = Wormhole(enabled: bool, mailbox: Option<Str>, relay: Option<Str>)
  datatype Bluetooth = Bluetooth(enabled: bool)
  datatype Croc = Croc(enabled: bool, relay: Option<Str>, password: Option<Str>)

  datatype Settings = Settings(
    deviceName: Str,
    localsend: LocalSend,
    quickshare: QuickShare,
    wormhole: Wormhole,
    bluetooth: Bluetooth,
    croc: Croc,
    logging: bool)

  const DEFAULT: Settings :=
    Settings(Nil, LocalSend(true, None), QuickShare(true, Everyone, true), Wormhole(true, None, None), Bluetooth(true), Croc(true, None, None), false)

  const LOCKED_DOWN: Settings :=
    Settings(Nil, LocalSend(false, None), QuickShare(false, Hidden, false), Wormhole(false, None, None), Bluetooth(false), Croc(false, None, None), false)

  function AllOff(s: Settings): Settings {
    s.(localsend := s.localsend.(enabled := false), quickshare := s.quickshare.(enabled := false),
       wormhole := s.wormhole.(enabled := false), bluetooth := s.bluetooth.(enabled := false), croc := s.croc.(enabled := false))
  }

  // ---------------------------------------------------------------- validation

  datatype ConfigError = BadPin | BadMailboxUrl | BadRelayUrl | BadRelay | BadRelayPassword

  datatype Validated = Valid(s: Settings) | Invalid(e: ConfigError)

  /** The tests of the strings that are servers: a mailbox URL, a transit relay URL, a croc relay. */
  datatype Checks = Checks(mailbox: Str -> bool, relayUrl: Str -> bool, crocRelay: Str -> bool)

  /** A setting that is given, with the space around it gone. */
  function Given(o: Option<Str>): Option<Str> {
    if o.Some? && Trim(o.value).Snoc? then Some(Trim(o.value)) else None
  }

  predicate AllAlphanumeric(s: Str) {
    s.Nil? || (('0' <= s.last <= '9' || 'a' <= s.last <= 'z' || 'A' <= s.last <= 'Z') && AllAlphanumeric(s.init))
  }

  predicate AllPrintable(s: Str) {
    s.Nil? || (' ' <= s.last <= '~' && AllPrintable(s.init))
  }

  predicate GoodPin(s: Str) {
    Len(s) <= MAX_PIN_CHARS && AllAlphanumeric(s)
  }

  predicate GoodPassword(s: Str) {
    Bytes(s) <= 64 && AllPrintable(s)
  }

  /** Normalises and checks the settings; the first that cannot be used is the error. */
  function Validate(cls: Policy, ck: Checks, s: Settings): Validated {
    var name := Displayed(cls, s.deviceName, MAX_ALIAS_CHARS);
    var pin, mailbox, relayUrl := Given(s.localsend.pin), Given(s.wormhole.mailbox), Given(s.wormhole.relay);
    var relay, password := Given(s.croc.relay), Given(s.croc.password);
    if pin.Some? && !GoodPin(pin.value) then Invalid(BadPin)
    else if mailbox.Some? && !ck.mailbox(mailbox.value) then Invalid(BadMailboxUrl)
    else if relayUrl.Some? && !ck.relayUrl(relayUrl.value) then Invalid(BadRelayUrl)
    else if relay.Some? && !ck.crocRelay(relay.value) then Invalid(BadRelay)
    else if password.Some? && !GoodPassword(password.value) then Invalid(BadRelayPassword)
    else
      Valid(s.(deviceName := name, localsend := s.localsend.(pin := pin),
               wormhole := Wormhole(s.wormhole.enabled, mailbox, relayUrl), croc := Croc(s.croc.enabled, relay, password)))
  }

  lemma {:induction false} TrimStartPrefix(p: Str, s: Str, k: Trimming)
    requires Prefix(p, s) && TrimStart(s, k) == s
    ensures TrimStart(p, k) == p
  {
    if p != s {
      TrimStartInit(s, k);
      TrimStartPrefix(p, s.init, k);
    }
  }

  lemma {:induction false} TrimStartInit(s: Str, k: Trimming)
    requires s.Snoc? && TrimStart(s, k) == s
    ensures TrimStart(s.init, k) == s.init
  {
  }

  lemma {:induction false} TrimStartTwice(s: Str, k: Trimming)
    ensures TrimStart(TrimStart(s, k), k) == TrimStart(s, k)
  {
    if s.Snoc? {
      TrimStartTwice(s.init, k);
    }
  }

  lemma {:induction false} TrimTwice(s: Str)
    ensures Trim(Trim(s)) == Trim(s)
  {
    var t := TrimStart(s, WhiteSpace);
    TrimStartTwice(s, WhiteSpace);
    TrimEndPrefix(t, WhiteSpace);
    TrimStartPrefix(TrimEnd(t, WhiteSpace), t, WhiteSpace);
  }

  lemma {:induction false} GivenTwice(o: Option<Str>)
    ensures Given(Given(o)) == Given(o)
  {
    if o.Some? {
      TrimTwice(o.value);
    }
  }

  ghost predicate Fixed(cls: Policy, ck: Checks, s: Settings) {
    Validate(cls, ck, s) == Valid(s)
  }

  /** What validation accepts it leaves alone the second time. */
  lemma {:induction false} ValidateFixes(cls: Policy, ck: Checks, s: Settings)
    requires Validate(cls, ck, s).Valid?
    ensures Fixed(cls, ck, Validate(cls, ck, s).s)
  {
    DisplayIdempotent(cls, s.deviceName, MAX_ALIAS_CHARS);
    GivenTwice(s.localsend.pin);
    GivenTwice(s.wormhole.mailbox);
    GivenTwice(s.wormhole.relay);
    GivenTwice(s.croc.relay);
    GivenTwice(s.croc.password);
  }

  lemma {:induction false} TrimmedIff(s: Str)
    ensures Trimmed(s) <==> s.Snoc? && Trim(s) == s
  {
    if s.Snoc? {
      TrimStartHead(s);
      TrimEndPrefix(TrimStart(s, WhiteSpace), WhiteSpace);
      if White(Head(s)) {
        TrimStartShorter(s);
        PrefixShorter(Trim(s), TrimStart(s, WhiteSpace));
      }
    }
  }

  lemma {:induction false} TrimStartHead(s: Str)
    requires s.Snoc?
    ensures TrimStart(s, WhiteSpace) == s <==> !White(Head(s))
    ensures TrimStart(s, WhiteSpace).Nil? ==> White(Head(s))
  {
    if s.init.Snoc? {
      TrimStartHead(s.init);
    }
  }

  lemma {:induction false} TrimStartShorter(s: Str)
    requires s.Snoc? && White(Head(s))
    ensures Len(TrimStart(s, WhiteSpace)) < Len(s)
  {
    if s.init.Snoc? {
      TrimStartShorter(s.init);
    }
  }

  /** What validated settings are: a name fit to show, and every string given is trimmed and passes its test. */
  lemma {:induction false} FixedMeans(cls: Policy, ck: Checks, s: Settings)
    ensures Fixed(cls, ck, s) <==>
            && Displayable(cls, s.deviceName, MAX_ALIAS_CHARS)
            && (s.localsend.pin.Some? ==> Trimmed(s.localsend.pin.value) && GoodPin(s.localsend.pin.value))
            && (s.wormhole.mailbox.Some? ==> Trimmed(s.wormhole.mailbox.value) && ck.mailbox(s.wormhole.mailbox.value))
            && (s.wormhole.relay.Some? ==> Trimmed(s.wormhole.relay.value) && ck.relayUrl(s.wormhole.relay.value))
            && (s.croc.relay.Some? ==> Trimmed(s.croc.relay.value) && ck.crocRelay(s.croc.relay.value))
            && (s.croc.password.Some? ==> Trimmed(s.croc.password.value) && GoodPassword(s.croc.password.value))
  {
    DisplayFixesNormalForm(cls, s.deviceName, MAX_ALIAS_CHARS);
    GivenFixed(s.localsend.pin);
    GivenFixed(s.wormhole.mailbox);
    GivenFixed(s.wormhole.relay);
    GivenFixed(s.croc.relay);
    GivenFixed(s.croc.password);
  }

  lemma {:induction false} GivenFixed(o: Option<Str>)
    ensures Given(o) == o <==> (o.Some? ==> Trimmed(o.value))
  {
    if o.Some? {
      TrimmedIff(o.value);
    }
  }

  // ---------------------------------------------------------------- what validation makes of any settings

  /** What a string that is given comes to: nothing if it is all white space, else itself without the white space around it. */
  ghost predicate ComesTo(o: Option<Str>, r: Option<Str>) {
    if o.None? || AllWhite(o.value) then r.None? else r.Some? && Strips(o.value, r.value)
  }

  lemma {:induction false} GivenMeans(o: Option<Str>, r: Option<Str>)
    ensures Given(o) == r <==> ComesTo(o, r)
  {
    if o.Some? {
      TrimMeans(o.value, if r.Some? then r.value else Nil);
      TrimMeans(o.value, Trim(o.value));
    }
  }

  /** What the string comes to, if it is given, passes the test. */
  ghost predicate Passes(o: Option<Str>, test: Str -> bool) {
    forall x :: o.Some? && Strips(o.value, x) ==> test(x)
  }

  lemma {:induction false} PassesIff(o: Option<Str>, test: Str -> bool)
    ensures Passes(o, test) <==> (Given(o).Some? ==> test(Given(o).value))
  {
    if o.Some? {
      TrimMeans(o.value, Trim(o.value));
      forall x | Strips(o.value, x) ensures x == Trim(o.value) {
        TrimMeans(o.value, x);
      }
    }
  }

  /** The first setting that cannot be used, if there is one. */
  ghost predicate FirstBad(ck: Checks, s: Settings, e: Option<ConfigError>) {
    if !Passes(s.localsend.pin, x => GoodPin(x)) then e == Some(BadPin)
    else if !Passes(s.wormhole.mailbox, ck.mailbox) then e == Some(BadMailboxUrl)
    else if !Passes(s.wormhole.relay, ck.relayUrl) then e == Some(BadRelayUrl)
    else if !Passes(s.croc.relay, ck.crocRelay) then e == Some(BadRelay)
    else if !Passes(s.croc.password, x => GoodPassword(x)) then e == Some(BadRelayPassword)
    else e == None
  }

  /**
   * Validation, for any settings: they are refused for the first string that, without the white space around it,
   * does not pass its test; and if there is none, each string is what it comes to, the name is made fit to show,
   * and nothing else changes.
   */
  lemma {:induction false} ValidateMeans(cls: Policy, ck: Checks, s: Settings)
    ensures FirstBad(ck, s, if Validate(cls, ck, s).Valid? then None else Some(Validate(cls, ck, s).e))
    ensures Validate(cls, ck, s).Valid? ==>
              var t := Validate(cls, ck, s).s;
              && ComesTo(s.localsend.pin, t.localsend.pin)
              && ComesTo(s.wormhole.mailbox, t.wormhole.mailbox) && ComesTo(s.wormhole.relay, t.wormhole.relay)
              && ComesTo(s.croc.relay, t.croc.relay) && ComesTo(s.croc.password, t.croc.password)
              && t.deviceName == Displayed(cls, s.deviceName, MAX_ALIAS_CHARS)
              && t.localsend.enabled == s.localsend.enabled && t.wormhole.enabled == s.wormhole.enabled
              && t.croc.enabled == s.croc.enabled
              && t.quickshare == s.quickshare && t.bluetooth == s.bluetooth && t.logging == s.logging
  {
    PassesIff(s.localsend.pin, x => GoodPin(x));
    PassesIff(s.wormhole.mailbox, ck.mailbox);
    PassesIff(s.wormhole.relay, ck.relayUrl);
    PassesIff(s.croc.relay, ck.crocRelay);
    PassesIff(s.croc.password, x => GoodPassword(x));
    GivenMeans(s.localsend.pin, Given(s.localsend.pin));
    GivenMeans(s.wormhole.mailbox, Given(s.wormhole.mailbox));
    GivenMeans(s.wormhole.relay, Given(s.wormhole.relay));
    GivenMeans(s.croc.relay, Given(s.croc.relay));
    GivenMeans(s.croc.password, Given(s.croc.password));
  }

  lemma {:induction false} NothingShown(cls: Policy)
    ensures Displayed(cls, Nil, MAX_ALIAS_CHARS) == Nil
  {
  }

  lemma {:induction false} DefaultsAreFixed(cls: Policy, ck: Checks)
    ensures Fixed(cls, ck, DEFAULT) && Fixed(cls, ck, LOCKED_DOWN)
  {
    NothingShown(cls);
  }

  lemma {:induction false} AllOffStaysFixed(cls: Policy, ck: Checks, s: Settings)
    requires Fixed(cls, ck, s)
    ensures Fixed(cls, ck, AllOff(s))
  {
  }

  // ---------------------------------------------------------------- a settings file

  /** A key of the file: one this build knows, or any other text. */
  datatype Key = DeviceName | LocalSendKey | QuickShareKey | WormholeKey | BluetoothKey | CrocKey | LoggingKey | Other(text: string)

  datatype Json = Null | Bool(b: bool) | Number(n: real) | Text(s: Str) | Array(items: seq<Json>) | Object(entries: seq<(Key, Json)>)

  /** No object in it, at any depth, has a key twice. */
  predicate Unique(j: Json) {
    match j
    case Array(items) => forall i :: 0 <= i < |items| ==> Unique(items[i])
    case Object(entries) => Distinct(entries) && forall i :: 0 <= i < |entries| ==> Unique(entries[i].1)
    case _ => true
  }

  predicate Distinct(entries: seq<(Key, Json)>) {
    forall i, j :: 0 <= i < j < |entries| ==> entries[i].0 != entries[j].0
  }

  /** How each part is parsed from its tree. */
  datatype Parsers = Parsers(
    deviceName: Json -> Option<Str>,
    localsend: Json -> Option<LocalSend>,
    quickshare: Json -> Option<QuickShare>,
    wormhole: Json -> Option<Wormhole>,
    bluetooth: Json -> Option<Bluetooth>,
    croc: Json -> Option<Croc>,
    logging: Json -> Option<bool>)

  /** What a file was read as: the settings to run with, and the keys whose parts could not be used. */
  datatype Stored = Stored(settings: Settings, unusable: set<Key>, unreadable: bool)

  /** The settings with one part put in, if that part's tree parses at all. */
  function Put(ps: Parsers, s: Settings, key: Key, v: Json): Option<Settings> {
    match key
    case DeviceName => if ps.deviceName(v).Some? then Some(s.(deviceName := ps.deviceName(v).value)) else None
    case LocalSendKey => if ps.localsend(v).Some? then Some(s.(localsend := ps.localsend(v).value)) else None
    case QuickShareKey => if ps.quickshare(v).Some? then Some(s.(quickshare := ps.quickshare(v).value)) else None
    case WormholeKey => if ps.wormhole(v).Some? then Some(s.(wormhole := ps.wormhole(v).value)) else None
    case BluetoothKey => if ps.bluetooth(v).Some? then Some(s.(bluetooth := ps.bluetooth(v).value)) else None
    case CrocKey => if ps.croc(v).Some? then Some(s.(croc := ps.croc(v).value)) else None
    case LoggingKey => if ps.logging(v).Some? then Some(s.(logging := ps.logging(v).value)) else None
    case Other(_) => None
  }

  /** The settings with one part as `from` has it. */
  function WithPart(s: Settings, key: Key, from: Settings): Settings {
    match key
    case DeviceName => s.(deviceName := from.deviceName)
    case LocalSendKey => s.(localsend := from.localsend)
    case QuickShareKey => s.(quickshare := from.quickshare)
    case WormholeKey => s.(wormhole := from.wormhole)
    case BluetoothKey => s.(bluetooth := from.bluetooth)
    case CrocKey => s.(croc := from.croc)
    case LoggingKey => s.(logging := from.logging)
    case Other(_) => s
  }

  // ---------------------------------------------------------------- what is made of a file, part by part

  /** A part that reads and validates on its own, in settings that are otherwise the defaults. */
  function Usable(cls: Policy, ck: Checks, ps: Parsers, key: Key, v: Json): Option<Settings> {
    var alone := Put(ps, DEFAULT, key, v);
    if alone.Some? && Validate(cls, ck, alone.value).Valid? then Some(Validate(cls, ck, alone.value).s) else None
  }

  /** Where a part's value comes from: its own tree, else the strictest values there are; the defaults if it is left out. */
  function Source(cls: Policy, ck: Checks, ps: Parsers, m: map<Key, Json>, key: Key): Settings {
    if key !in m then DEFAULT
    else if Usable(cls, ck, ps, key, m[key]).Some? then Usable(cls, ck, ps, key, m[key]).value
    else LOCKED_DOWN
  }

  function PartByPart(cls: Policy, ck: Checks, ps: Parsers, m: map<Key, Json>): Settings {
    Settings(
      Source(cls, ck, ps, m, DeviceName).deviceName,
      Source(cls, ck, ps, m, LocalSendKey).localsend,
      Source(cls, ck, ps, m, QuickShareKey).quickshare,
      Source(cls, ck, ps, m, WormholeKey).wormhole,
      Source(cls, ck, ps, m, BluetoothKey).bluetooth,
      Source(cls, ck, ps, m, CrocKey).croc,
      Source(cls, ck, ps, m, LoggingKey).logging)
  }

  predicate HasUnknown(m: map<Key, Json>) {
    exists key :: key in m && key.Other?
  }

  /** The settings a file with these parts gives, whatever order they come in. */
  function Recovered(cls: Policy, ck: Checks, ps: Parsers, m: map<Key, Json>): Settings {
    if HasUnknown(m) then AllOff(PartByPart(cls, ck, ps, m)) else PartByPart(cls, ck, ps, m)
  }

  function UnusableKeys(cls: Policy, ck: Checks, ps: Parsers, m: map<Key, Json>): set<Key> {
    set key | key in m && Usable(cls, ck, ps, key, m[key]).None?
  }

  function AsMap(entries: seq<(Key, Json)>): map<Key, Json> {
    if entries == [] then map[]
    else AsMap(entries[..|entries| - 1])[entries[|entries| - 1].0 := entries[|entries| - 1].1]
  }

  // ---------------------------------------------------------------- adopting one part

  /** Putting one part into settings that are otherwise in order is judged by that part alone. */
  lemma {:induction false} AdoptIsLocal(cls: Policy, ck: Checks, ps: Parsers, s: Settings, key: Key, v: Json)
    requires Fixed(cls, ck, s)
    ensures Put(ps, s, key, v).Some? <==> Put(ps, DEFAULT, key, v).Some?
    ensures Put(ps, s, key, v).Some? ==>
              var judged := Validate(cls, ck, Put(ps, s, key, v).value);
              if Usable(cls, ck, ps, key, v).Some? then judged == Valid(WithPart(s, key, Usable(cls, ck, ps, key, v).value))
              else judged.Invalid?
  {
    DefaultsAreFixed(cls, ck);
  }

  lemma {:induction false} PartKeepsFixed(cls: Policy, ck: Checks, s: Settings, key: Key, from: Settings)
    requires Fixed(cls, ck, s) && Fixed(cls, ck, from)
    ensures Fixed(cls, ck, WithPart(s, key, from))
  {
  }

  lemma {:induction false} OnePartMore(cls: Policy, ck: Checks, ps: Parsers, m: map<Key, Json>, key: Key, v: Json)
    requires key !in m
    ensures var m' := m[key := v];
      PartByPart(cls, ck, ps, m') == WithPart(PartByPart(cls, ck, ps, m), key, Source(cls, ck, ps, m', key))
  {
  }

  // ---------------------------------------------------------------- reading a file

  /** The parts in the order of the settings' fields. */
  const FIELDS: seq<Key> := [DeviceName, LocalSendKey, QuickShareKey, WormholeKey, BluetoothKey, CrocKey, LoggingKey]

  /** What an array stands for: its items are the first fields, in order. */
  function Positional(items: seq<Json>): seq<(Key, Json)>
    requires |items| <= |FIELDS|
  {
    seq(|items|, i requires 0 <= i < |items| => (FIELDS[i], items[i]))
  }

  /**
   * A file that parses as settings whole: an object, with repeated and unknown keys refused, or an array of the
   * fields in order, with one too many refused. Each part must be readable; what is left out is the default.
   */
  function ParseFile(ps: Parsers, file: Option<Json>): Option<Settings> {
    if file.None? || !Unique(file.value) then None
    else if file.value.Object? then ParseWhole(ps, file.value.entries)
    else if file.value.Array? && |file.value.items| <= |FIELDS| then ParseWhole(ps, Positional(file.value.items))
    else None
  }

  function ParseWhole(ps: Parsers, entries: seq<(Key, Json)>): Option<Settings> {
    if entries == [] then Some(DEFAULT)
    else
      var rest := ParseWhole(ps, entries[..|entries| - 1]);
      if rest.None? then None else Put(ps, rest.value, entries[|entries| - 1].0, entries[|entries| - 1].1)
  }

  /** Takes `v` as the part `key`, if it parses and the whole still validates; else nothing changes. */
  method Adopt(cls: Policy, ck: Checks, ps: Parsers, s: Settings, key: Key, v: Json) returns (r: Settings, used: bool)
    requires Fixed(cls, ck, s)
    ensures used <==> Usable(cls, ck, ps, key, v).Some?
    ensures r == if used then WithPart(s, key, Usable(cls, ck, ps, key, v).value) else s
  {
    AdoptIsLocal(cls, ck, ps, s, key, v);
    var next := Put(ps, s, key, v);
    if next.None? {
      return s, false;
    }
    match Validate(cls, ck, next.value) {
      case Valid(w) => return w, true;
      case Invalid(_) => return s, false;
    }
  }

  /** How far the loop over the parts has come: the parts read so far are those of `m`. */
  ghost predicate Reading(cls: Policy, ck: Checks, ps: Parsers, m: map<Key, Json>, s: Settings, unusable: set<Key>, unknown: bool) {
    && s == PartByPart(cls, ck, ps, m) && Fixed(cls, ck, s)
    && unusable == UnusableKeys(cls, ck, ps, m) && (unknown <==> HasUnknown(m))
  }

  lemma {:induction false} ReadOne(cls: Policy, ck: Checks, ps: Parsers, m: map<Key, Json>, s: Settings, unusable: set<Key>, unknown: bool, key: Key, v: Json)
    requires Reading(cls, ck, ps, m, s, unusable, unknown) && key !in m
    ensures var u := Usable(cls, ck, ps, key, v);
      if u.Some? then Reading(cls, ck, ps, m[key := v], WithPart(s, key, u.value), unusable, unknown)
      else Reading(cls, ck, ps, m[key := v], WithPart(s, key, LOCKED_DOWN), unusable + {key}, unknown || key.Other?)
  {
    var u := Usable(cls, ck, ps, key, v);
    var from := if u.Some? then u.value else LOCKED_DOWN;
    OnePartMore(cls, ck, ps, m, key, v);
    assert Source(cls, ck, ps, m[key := v], key) == from;
    ReadStaysFixed(cls, ck, ps, s, key, v, from);
    UnusableGrows(cls, ck, ps, m, key, v);
    UnknownGrows(m, key, v);
  }

  lemma {:induction false} ReadStaysFixed(cls: Policy, ck: Checks, ps: Parsers, s: Settings, key: Key, v: Json, from: Settings)
    requires Fixed(cls, ck, s) && from == if Usable(cls, ck, ps, key, v).Some? then Usable(cls, ck, ps, key, v).value else LOCKED_DOWN
    ensures Fixed(cls, ck, WithPart(s, key, from))
  {
    UsableIsFixed(cls, ck, ps, key, v);
    DefaultsAreFixed(cls, ck);
    PartKeepsFixed(cls, ck, s, key, from);
  }

  lemma {:induction false} UnusableGrows(cls: Policy, ck: Checks, ps: Parsers, m: map<Key, Json>, key: Key, v: Json)
    requires key !in m
    ensures UnusableKeys(cls, ck, ps, m[key := v]) == UnusableKeys(cls, ck, ps, m) + if Usable(cls, ck, ps, key, v).None? then {key} else {}
  {
  }

  /** The loop over the parts of a file that could not be used whole. */
  method ReadParts(cls: Policy, ck: Checks, ps: Parsers, entries: seq<(Key, Json)>) returns (r: Stored)
    requires Distinct(entries)
    ensures r == Stored(Recovered(cls, ck, ps, AsMap(entries)), UnusableKeys(cls, ck, ps, AsMap(entries)), false)
    ensures Fixed(cls, ck, r.settings)
  {
    var s, unusable, unknown := DEFAULT, {}, false;
    DefaultsAreFixed(cls, ck);
    assert PartByPart(cls, ck, ps, map[]) == DEFAULT;
    for i := 0 to |entries|
      invariant Reading(cls, ck, ps, AsMap(entries[..i]), s, unusable, unknown)
    {
      var key, v := entries[i].0, entries[i].1;
      assert entries[..i + 1][..i] == entries[..i];
      AsMapKeys(entries, i);
      ReadOne(cls, ck, ps, AsMap(entries[..i]), s, unusable, unknown, key, v);
      var used;
      s, used := Adopt(cls, ck, ps, s, key, v);
      if !used {
        s := WithPart(s, key, LOCKED_DOWN);
        unusable := unusable + {key};
        unknown := unknown || key.Other?;
      }
    }
    assert entries[..|entries|] == entries;
    if unknown {
      AllOffStaysFixed(cls, ck, s);
      s := AllOff(s);
    }
    return Stored(s, unusable, false);
  }

  lemma {:induction false} UnknownGrows(m: map<Key, Json>, key: Key, v: Json)
    requires key !in m
    ensures HasUnknown(m[key := v]) <==> HasUnknown(m) || key.Other?
  {
    assert key in m[key := v];
    forall k | k in m ensures k in m[key := v] {
    }
  }

  lemma {:induction false} UsableIsFixed(cls: Policy, ck: Checks, ps: Parsers, key: Key, v: Json)
    ensures Usable(cls, ck, ps, key, v).Some? ==> Fixed(cls, ck, Usable(cls, ck, ps, key, v).value) && !key.Other?
  {
    if Usable(cls, ck, ps, key, v).Some? {
      ValidateFixes(cls, ck, Put(ps, DEFAULT, key, v).value);
    }
  }

  lemma {:induction false} AsMapKeys(entries: seq<(Key, Json)>, i: nat)
    requires Distinct(entries) && i < |entries|
    ensures entries[i].0 !in AsMap(entries[..i])
  {
    AsMapHolds(entries[..i]);
  }

  /** The map of a list of distinct keys holds exactly its entries. */
  lemma {:induction false} AsMapHolds(entries: seq<(Key, Json)>)
    requires Distinct(entries)
    ensures forall k :: k in AsMap(entries) <==> exists i :: 0 <= i < |entries| && entries[i].0 == k
    ensures forall i :: 0 <= i < |entries| ==> entries[i].0 in AsMap(entries) && AsMap(entries)[entries[i].0] == entries[i].1
  {
    if entries != [] {
      AsMapHolds(entries[..|entries| - 1]);
    }
  }

  // ---------------------------------------------------------------- the whole-file path agrees

  predicate SamePart(a: Settings, b: Settings, key: Key) {
    WithPart(a, key, b) == a
  }

  lemma {:induction false} WholeHasParts(ps: Parsers, entries: seq<(Key, Json)>, key: Key)
    requires Distinct(entries) && ParseWhole(ps, entries).Some?
    ensures var w, m := ParseWhole(ps, entries).value, AsMap(entries);
      if key in m then !key.Other? && Put(ps, DEFAULT, key, m[key]).Some? && SamePart(w, Put(ps, DEFAULT, key, m[key]).value, key)
      else SamePart(w, DEFAULT, key)
  {
    if entries != [] {
      WholeHasParts(ps, entries[..|entries| - 1], key);
    }
  }

  /** Validation judges each part by itself. */
  lemma {:induction false} ValidateIsLocal(cls: Policy, ck: Checks, w: Settings, key: Key, d: Settings)
    requires Validate(cls, ck, w).Valid? && SamePart(w, d, key) && d == WithPart(DEFAULT, key, d)
    ensures Validate(cls, ck, d).Valid? && SamePart(Validate(cls, ck, w).s, Validate(cls, ck, d).s, key)
  {
    DefaultsAreFixed(cls, ck);
  }

  lemma {:induction false} WholePart(cls: Policy, ck: Checks, ps: Parsers, entries: seq<(Key, Json)>, key: Key)
    requires Distinct(entries) && ParseWhole(ps, entries).Some? && Validate(cls, ck, ParseWhole(ps, entries).value).Valid?
    ensures SamePart(Validate(cls, ck, ParseWhole(ps, entries).value).s, Source(cls, ck, ps, AsMap(entries), key), key)
    ensures key in AsMap(entries) ==> Usable(cls, ck, ps, key, AsMap(entries)[key]).Some? && !key.Other?
  {
    var w, m := ParseWhole(ps, entries).value, AsMap(entries);
    WholeHasParts(ps, entries, key);
    DefaultsAreFixed(cls, ck);
    ValidateIsLocal(cls, ck, w, key, if key in m then Put(ps, DEFAULT, key, m[key]).value else DEFAULT);
  }

  lemma {:induction false} AllSame(a: Settings, b: Settings)
    requires forall key :: SamePart(a, b, key)
    ensures a == b
  {
    assert SamePart(a, b, DeviceName) && SamePart(a, b, LocalSendKey) && SamePart(a, b, QuickShareKey) && SamePart(a, b, WormholeKey)
        && SamePart(a, b, BluetoothKey) && SamePart(a, b, CrocKey) && SamePart(a, b, LoggingKey);
  }

  lemma {:induction false} PartByPartIs(cls: Policy, ck: Checks, ps: Parsers, m: map<Key, Json>, a: Settings, key: Key)
    requires SamePart(a, Source(cls, ck, ps, m, key), key)
    ensures SamePart(a, PartByPart(cls, ck, ps, m), key)
  {
  }

  /** A file that parses and validates whole is read part by part as the same settings, with every part used. */
  lemma {:induction false} WholeAgrees(cls: Policy, ck: Checks, ps: Parsers, entries: seq<(Key, Json)>)
    requires Distinct(entries) && ParseWhole(ps, entries).Some? && Validate(cls, ck, ParseWhole(ps, entries).value).Valid?
    ensures Validate(cls, ck, ParseWhole(ps, entries).value).s == Recovered(cls, ck, ps, AsMap(entries))
    ensures UnusableKeys(cls, ck, ps, AsMap(entries)) == {}
  {
    var v, m := Validate(cls, ck, ParseWhole(ps, entries).value).s, AsMap(entries);
    forall key ensures SamePart(v, PartByPart(cls, ck, ps, m), key) {
      WholePart(cls, ck, ps, entries, key);
      PartByPartIs(cls, ck, ps, m, v, key);
    }
    AllSame(v, PartByPart(cls, ck, ps, m));
    forall key | key in m ensures Usable(cls, ck, ps, key, m[key]).Some? && !key.Other? {
      WholePart(cls, ck, ps, entries, key);
    }
  }

  lemma {:induction false} SameMap(a: seq<(Key, Json)>, b: seq<(Key, Json)>)
    requires Distinct(a) && Distinct(b) && multiset(a) == multiset(b)
    ensures AsMap(a) == AsMap(b)
  {
    AsMapHolds(a);
    AsMapHolds(b);
    forall k | k in AsMap(a) ensures k in AsMap(b) && AsMap(b)[k] == AsMap(a)[k] {
      var i :| 0 <= i < |a| && a[i].0 == k;
      assert a[i] in multiset(b);
      var j :| 0 <= j < |b| && b[j] == a[i];
    }
    forall k | k in AsMap(b) ensures k in AsMap(a) {
      var i :| 0 <= i < |b| && b[i].0 == k;
      assert b[i] in multiset(a);
      var j :| 0 <= j < |a| && a[j] == b[i];
    }
  }

  /** An entry that occurs at two places counts twice. */
  lemma {:induction false} TwiceCounts(a: seq<(Key, Json)>, i: nat, j: nat)
    requires i < j < |a| && a[i] == a[j]
    ensures multiset(a)[a[i]] >= 2
  {
    assert a == a[..j] + [a[j]] + a[j + 1..];
    assert a[i] in multiset(a[..j]);
  }

  lemma {:induction false} CountsTwice(a: seq<(Key, Json)>, e: (Key, Json)) returns (i: nat, j: nat)
    requires multiset(a)[e] >= 2
    ensures i < j < |a| && a[i] == e && a[j] == e
  {
    j := |a| - 1;
    assert a == a[..j] + [a[j]];
    if a[j] == e {
      assert e in multiset(a[..j]);
      i :| 0 <= i < j && a[..j][i] == e;
    } else {
      i, j := CountsTwice(a[..j], e);
    }
  }

  /** A key that is repeated is repeated in every order. */
  lemma {:induction false} RepeatedInEveryOrder(a: seq<(Key, Json)>, b: seq<(Key, Json)>, i: nat, j: nat) returns (p: nat, q: nat)
    requires multiset(a) == multiset(b) && i < j < |b| && b[i].0 == b[j].0
    ensures p < q < |a| && a[p].0 == a[q].0
  {
    assert b[i] in multiset(a) && b[j] in multiset(a);
    if b[i] == b[j] {
      TwiceCounts(b, i, j);
      p, q := CountsTwice(a, b[i]);
    } else {
      p :| 0 <= p < |a| && a[p] == b[i];
      q :| 0 <= q < |a| && a[q] == b[j];
      p, q := if p < q then p else q, if p < q then q else p;
    }
  }

  lemma {:induction false} UniqueInEveryOrder(a: seq<(Key, Json)>, b: seq<(Key, Json)>)
    requires Unique(Object(a)) && multiset(a) == multiset(b)
    ensures Unique(Object(b))
  {
    forall i, j | 0 <= i < j < |b| ensures b[i].0 != b[j].0 {
      if b[i].0 == b[j].0 {
        var p, q := RepeatedInEveryOrder(a, b, i, j);
      }
    }
    forall i | 0 <= i < |b| ensures Unique(b[i].1) {
      assert b[i] in multiset(a);
      var j :| 0 <= j < |a| && a[j] == b[i];
    }
  }

  // ---------------------------------------------------------------- files that are arrays

  lemma {:induction false} PositionalDistinct(items: seq<Json>)
    requires |items| <= |FIELDS|
    ensures Distinct(Positional(items))
  {
  }

  lemma {:induction false} PutIsLocal(cls: Policy, ck: Checks, ps: Parsers, w: Settings, key: Key, v: Json)
    requires Validate(cls, ck, w).Valid? && Usable(cls, ck, ps, key, v).Some?
    ensures Put(ps, w, key, v).Some? && Validate(cls, ck, Put(ps, w, key, v).value).Valid?
  {
  }

  /** A list of parts can be used whole exactly when each of them can be used. */
  lemma {:induction false} WholeIffParts(cls: Policy, ck: Checks, ps: Parsers, entries: seq<(Key, Json)>)
    requires Distinct(entries)
    ensures (ParseWhole(ps, entries).Some? && Validate(cls, ck, ParseWhole(ps, entries).value).Valid?) <==>
            forall i :: 0 <= i < |entries| ==> Usable(cls, ck, ps, entries[i].0, entries[i].1).Some?
  {
    if ParseWhole(ps, entries).Some? && Validate(cls, ck, ParseWhole(ps, entries).value).Valid? {
      AsMapHolds(entries);
      forall i | 0 <= i < |entries| ensures Usable(cls, ck, ps, entries[i].0, entries[i].1).Some? {
        WholePart(cls, ck, ps, entries, entries[i].0);
      }
    }
    if forall i :: 0 <= i < |entries| ==> Usable(cls, ck, ps, entries[i].0, entries[i].1).Some? {
      PartsMakeAWhole(cls, ck, ps, entries);
    }
  }

  lemma {:induction false} PartsMakeAWhole(cls: Policy, ck: Checks, ps: Parsers, entries: seq<(Key, Json)>)
    requires forall i :: 0 <= i < |entries| ==> Usable(cls, ck, ps, entries[i].0, entries[i].1).Some?
    ensures ParseWhole(ps, entries).Some? && Validate(cls, ck, ParseWhole(ps, entries).value).Valid?
  {
    DefaultsAreFixed(cls, ck);
    if entries != [] {
      var n := |entries| - 1;
      PartsMakeAWhole(cls, ck, ps, entries[..n]);
      PutIsLocal(cls, ck, ps, ParseWhole(ps, entries[..n]).value, entries[n].0, entries[n].1);
    }
  }

  /** An array whose items can all be used, each as the field at its place. */
  predicate GoodArray(cls: Policy, ck: Checks, ps: Parsers, j: Json) {
    && j.Array? && Unique(j) && |j.items| <= |FIELDS|
    && forall i :: 0 <= i < |j.items| ==> Usable(cls, ck, ps, FIELDS[i], j.items[i]).Some?
  }

  /** The parts a file is read as, if it is read at all: those of an object, or those of a good array. */
  function Parts(cls: Policy, ck: Checks, ps: Parsers, file: Option<Json>): Option<map<Key, Json>> {
    if file.Some? && file.value.Object? && Unique(file.value) then Some(AsMap(file.value.entries))
    else if file.Some? && GoodArray(cls, ck, ps, file.value) then Some(AsMap(Positional(file.value.items)))
    else None
  }

  /** What a file is read as. */
  function ReadAs(cls: Policy, ck: Checks, ps: Parsers, file: Option<Json>): Stored {
    match Parts(cls, ck, ps, file)
    case None => Stored(LOCKED_DOWN, {}, true)
    case Some(m) => Stored(Recovered(cls, ck, ps, m), UnusableKeys(cls, ck, ps, m), false)
  }

  /** The order in which the parts of a file come does not matter, be they repeated or not. */
  lemma {:induction false} OrderDoesNotMatter(cls: Policy, ck: Checks, ps: Parsers, a: seq<(Key, Json)>, b: seq<(Key, Json)>)
    requires multiset(a) == multiset(b)
    ensures ReadAs(cls, ck, ps, Some(Object(a))) == ReadAs(cls, ck, ps, Some(Object(b)))
  {
    if Unique(Object(a)) {
      UniqueInEveryOrder(a, b);
      SameMap(a, b);
    } else if Unique(Object(b)) {
      UniqueInEveryOrder(b, a);
    }
  }

  /** The fast path takes what was parsed whole. */
  predicate TakenWhole(cls: Policy, ck: Checks, whole: Option<Settings>) {
    whole.Some? && Validate(cls, ck, whole.value).Valid?
  }

  lemma {:induction false} WholeIffNoneUnusable(cls: Policy, ck: Checks, ps: Parsers, entries: seq<(Key, Json)>)
    requires Distinct(entries)
    ensures TakenWhole(cls, ck, ParseWhole(ps, entries)) <==> UnusableKeys(cls, ck, ps, AsMap(entries)) == {}
  {
    WholeIffParts(cls, ck, ps, entries);
    NoneUnusable(cls, ck, ps, entries);
  }

  lemma {:induction false} ArrayIffNoneUnusable(cls: Policy, ck: Checks, ps: Parsers, items: seq<Json>)
    requires |items| <= |FIELDS| && Unique(Array(items))
    ensures TakenWhole(cls, ck, ParseWhole(ps, Positional(items))) <==> GoodArray(cls, ck, ps, Array(items))
  {
    var entries := Positional(items);
    PositionalDistinct(items);
    assert forall i :: 0 <= i < |entries| ==> entries[i] == (FIELDS[i], items[i]);
    WholeIffParts(cls, ck, ps, entries);
  }

  /** The fast path takes a file exactly when all its parts can be used, and then says what the parts say. */
  lemma {:induction false} FastPathIff(cls: Policy, ck: Checks, ps: Parsers, file: Option<Json>)
    ensures TakenWhole(cls, ck, ParseFile(ps, file)) <==>
            var m := Parts(cls, ck, ps, file); m.Some? && UnusableKeys(cls, ck, ps, m.value) == {}
    ensures TakenWhole(cls, ck, ParseFile(ps, file)) ==>
              Stored(Validate(cls, ck, ParseFile(ps, file).value).s, {}, false) == ReadAs(cls, ck, ps, file)
  {
    if file.Some? && Unique(file.value) {
      var j := file.value;
      if j.Object? {
        WholeIffNoneUnusable(cls, ck, ps, j.entries);
        if TakenWhole(cls, ck, ParseWhole(ps, j.entries)) {
          WholeAgrees(cls, ck, ps, j.entries);
        }
      } else if j.Array? && |j.items| <= |FIELDS| {
        PositionalDistinct(j.items);
        ArrayIffNoneUnusable(cls, ck, ps, j.items);
        WholeIffNoneUnusable(cls, ck, ps, Positional(j.items));
        if TakenWhole(cls, ck, ParseWhole(ps, Positional(j.items))) {
          WholeAgrees(cls, ck, ps, Positional(j.items));
        }
      }
    }
  }

  lemma {:induction false} NoneUnusable(cls: Policy, ck: Checks, ps: Parsers, entries: seq<(Key, Json)>)
    requires Distinct(entries)
    ensures UnusableKeys(cls, ck, ps, AsMap(entries)) == {} <==>
            forall i :: 0 <= i < |entries| ==> Usable(cls, ck, ps, entries[i].0, entries[i].1).Some?
  {
    AsMapHolds(entries);
    if UnusableKeys(cls, ck, ps, AsMap(entries)) == {} {
      forall i | 0 <= i < |entries| ensures Usable(cls, ck, ps, entries[i].0, entries[i].1).Some? {
        assert entries[i].0 !in UnusableKeys(cls, ck, ps, AsMap(entries));
      }
    }
  }

  /** What the part-by-part path makes of a file on its own: anything but an object is locked down. */
  function PartsOnly(cls: Policy, ck: Checks, ps: Parsers, file: Option<Json>): Stored {
    if file.Some? && file.value.Object? && Unique(file.value)
    then Stored(Recovered(cls, ck, ps, AsMap(file.value.entries)), UnusableKeys(cls, ck, ps, AsMap(file.value.entries)), false)
    else Stored(LOCKED_DOWN, {}, true)
  }

  /** A file the fast path takes is read part by part as the same settings exactly when it is an object. */
  lemma {:induction false} PathsAgreeIff(cls: Policy, ck: Checks, ps: Parsers, file: Option<Json>)
    requires TakenWhole(cls, ck, ParseFile(ps, file))
    ensures Stored(Validate(cls, ck, ParseFile(ps, file).value).s, {}, false) == PartsOnly(cls, ck, ps, file) <==>
            file.value.Object?
  {
    FastPathIff(cls, ck, ps, file);
  }

  /** So a file that is not an object is not always locked down: `[]` turns everything on, and nothing is reported. */
  lemma {:induction false} EmptyArrayTurnsEverythingOn(cls: Policy, ck: Checks, ps: Parsers)
    ensures ReadAs(cls, ck, ps, Some(Array([]))) == Stored(DEFAULT, {}, false)
    ensures forall key :: IsProtocol(key) ==> On(DEFAULT, key)
  {
    assert AsMap(Positional([])) == map[];
  }

  predicate IsProtocol(key: Key) {
    key == LocalSendKey || key == QuickShareKey || key == WormholeKey || key == BluetoothKey || key == CrocKey
  }

  /** Whether a protocol is switched on. */
  predicate On(s: Settings, key: Key) {
    match key
    case LocalSendKey => s.localsend.enabled
    case QuickShareKey => s.quickshare.enabled
    case WormholeKey => s.wormhole.enabled
    case BluetoothKey => s.bluetooth.enabled
    case CrocKey => s.croc.enabled
    case _ => false
  }

  /** What a part of a file gives: its own value if it can be used, the strictest there is if not, and the default if it is left out. */
  lemma {:induction false} PartsOfAFile(cls: Policy, ck: Checks, ps: Parsers, file: Option<Json>, m: map<Key, Json>)
    requires Parts(cls, ck, ps, file) == Some(m) && !HasUnknown(m)
    ensures var s := ReadAs(cls, ck, ps, file).settings;
      && (LocalSendKey !in m ==> s.localsend == LocalSend(true, None))
      && (LocalSendKey in m && Usable(cls, ck, ps, LocalSendKey, m[LocalSendKey]).None? ==> s.localsend == LocalSend(false, None))
      && (QuickShareKey !in m ==> s.quickshare == QuickShare(true, Everyone, true))
      && (QuickShareKey in m ==>
            s.quickshare == if ps.quickshare(m[QuickShareKey]).Some? then ps.quickshare(m[QuickShareKey]).value else QuickShare(false, Hidden, false))
      && (WormholeKey !in m ==> s.wormhole == Wormhole(true, None, None))
      && (WormholeKey in m && Usable(cls, ck, ps, WormholeKey, m[WormholeKey]).None? ==> s.wormhole == Wormhole(false, None, None))
      && (BluetoothKey !in m ==> s.bluetooth == Bluetooth(true))
      && (BluetoothKey in m ==>
            s.bluetooth == if ps.bluetooth(m[BluetoothKey]).Some? then ps.bluetooth(m[BluetoothKey]).value else Bluetooth(false))
      && (CrocKey !in m ==> s.croc == Croc(true, None, None))
      && (CrocKey in m && Usable(cls, ck, ps, CrocKey, m[CrocKey]).None? ==> s.croc == Croc(false, None, None))
      && s.logging == (if LoggingKey in m && ps.logging(m[LoggingKey]).Some? then ps.logging(m[LoggingKey]).value else false)
      && s.deviceName == (if DeviceName in m && ps.deviceName(m[DeviceName]).Some?
                          then Displayed(cls, ps.deviceName(m[DeviceName]).value, MAX_ALIAS_CHARS) else Nil)
  {
    DefaultsAreFixed(cls, ck);
  }

  /** What the strings of a part that can be used come to. */
  ghost predicate StringsRead(ps: Parsers, key: Key, v: Json, s: Settings) {
    match key
    case LocalSendKey => var p := ps.localsend(v); p.Some? && ComesTo(p.value.pin, s.localsend.pin)
    case WormholeKey =>
      var p := ps.wormhole(v); p.Some? && ComesTo(p.value.mailbox, s.wormhole.mailbox) && ComesTo(p.value.relay, s.wormhole.relay)
    case CrocKey =>
      var p := ps.croc(v); p.Some? && ComesTo(p.value.relay, s.croc.relay) && ComesTo(p.value.password, s.croc.password)
    case _ => true
  }

  lemma {:induction false} PartIsRead(cls: Policy, ck: Checks, ps: Parsers, key: Key, v: Json)
    requires Usable(cls, ck, ps, key, v).Some?
    ensures StringsRead(ps, key, v, Usable(cls, ck, ps, key, v).value)
  {
    ValidateMeans(cls, ck, Put(ps, DEFAULT, key, v).value);
  }

  /** So they are in the settings a file is read as. */
  lemma {:induction false} StringsAreRead(cls: Policy, ck: Checks, ps: Parsers, file: Option<Json>, m: map<Key, Json>, key: Key)
    requires Parts(cls, ck, ps, file) == Some(m) && key in m && Usable(cls, ck, ps, key, m[key]).Some?
    ensures StringsRead(ps, key, m[key], ReadAs(cls, ck, ps, file).settings)
  {
    PartIsRead(cls, ck, ps, key, m[key]);
  }

  // ---------------------------------------------------------------- failing closed

  /** A part that says nothing about a protocol leaves it on; one that does must be usable, and say so. */
  predicate SaysOn(cls: Policy, ck: Checks, ps: Parsers, m: map<Key, Json>, key: Key) {
    key in m ==> Usable(cls, ck, ps, key, m[key]).Some? && On(Put(ps, DEFAULT, key, m[key]).value, key)
  }

  lemma {:induction false} UsableKeepsSwitch(cls: Policy, ck: Checks, ps: Parsers, key: Key, v: Json)
    requires Usable(cls, ck, ps, key, v).Some? && IsProtocol(key)
    ensures On(Usable(cls, ck, ps, key, v).value, key) <==> On(Put(ps, DEFAULT, key, v).value, key)
  {
  }

  /** Reads a settings file, failing closed. `None` is a file that is not JSON. */
  method FromStored(cls: Policy, ck: Checks, ps: Parsers, file: Option<Json>) returns (r: Stored)
    ensures r == ReadAs(cls, ck, ps, file)
    ensures Fixed(cls, ck, r.settings)
    ensures r.unreadable <==>
            !(file.Some? && ((file.value.Object? && Unique(file.value)) || GoodArray(cls, ck, ps, file.value)))
    ensures forall key :: IsProtocol(key) ==>
              (On(r.settings, key) <==>
               (var m := Parts(cls, ck, ps, file); m.Some? && !HasUnknown(m.value) && SaysOn(cls, ck, ps, m.value, key)))
  {
    DefaultsAreFixed(cls, ck);
    FailsClosed(cls, ck, ps, file);
    FastPathIff(cls, ck, ps, file);
    var whole := ParseFile(ps, file);
    if whole.Some? {
      match Validate(cls, ck, whole.value) {
        case Valid(settings) =>
          ValidateFixes(cls, ck, whole.value);
          return Stored(settings, {}, false);
        case Invalid(_) =>
      }
    }
    if file == None || !file.value.Object? || !Unique(file.value) {
      if file.Some? && file.value.Array? && |file.value.items| <= |FIELDS| && Unique(file.value) {
        ArrayIffNoneUnusable(cls, ck, ps, file.value.items);
      }
      return Stored(LOCKED_DOWN, {}, true);
    }
    r := ReadParts(cls, ck, ps, file.value.entries);
  }

  /**
   * Failing closed, for every file: a protocol is on exactly when the file is read at all, has no unknown
   * key, and either leaves the protocol's part out or says, in a part that can be used, to have it on.
   */
  lemma {:induction false} FailsClosed(cls: Policy, ck: Checks, ps: Parsers, file: Option<Json>)
    ensures forall key :: IsProtocol(key) ==>
              (On(ReadAs(cls, ck, ps, file).settings, key) <==>
               (var m := Parts(cls, ck, ps, file); m.Some? && !HasUnknown(m.value) && SaysOn(cls, ck, ps, m.value, key)))
  {
    var m := Parts(cls, ck, ps, file);
    if m.Some? {
      forall key | IsProtocol(key)
        ensures On(Recovered(cls, ck, ps, m.value), key) <==> !HasUnknown(m.value) && SaysOn(cls, ck, ps, m.value, key)
      {
        if key in m.value && Usable(cls, ck, ps, key, m.value[key]).Some? {
          UsableKeepsSwitch(cls, ck, ps, key, m.value[key]);
        }
      }
    }
  }
}
