/** The flag and config file parser of the chroot helper
    (cmd/bb_chroot_helper/config.cc, defaults from config.h). */
module ChrootConfig {
  import opened LayerTree
  import Text

  newtype int32 = x: int | -0x8000_0000 <= x < 0x8000_0000

  const MAX_ID := 999_999_999

  datatype RootMode = Overlay | Tmpfs

  datatype User = User(uid: int, gid: int)

  datatype Settings = Settings(
    dockerImageRef: string, fetcherSocket: string, rootMode: RootMode, stagingRoot: string,
    isolateNetwork: bool, buildUser: User, hostUser: User, keepList: set<string>, etcFiles: seq<string>)

  const DEFAULTS := Settings("", "/var/run/fetcher/fetcher.sock", Overlay, "/var/action_root", false,
                             User(0, 0), User(1000, 1000), {"proc", "sys", "dev", "tmp"},
                             ["resolv.conf", "hostname", "hosts"])

  /** The Config object that the parser writes through a pointer. */
  class Config {
    var settings: Settings

    constructor ()
      ensures settings == DEFAULTS
    {
      settings := DEFAULTS;
    }
  }

  // ---- The flag table ----

  datatype Flag =
    | ConfigPath | DockerImageRef | FetcherSocket | RootModeFlag | StagingRoot | BuildUser
    | NetworkIsolation | NoNetworkIsolation

  const FLAGS: seq<Flag> :=
    [ConfigPath, DockerImageRef, FetcherSocket, RootModeFlag, StagingRoot, BuildUser,
     NetworkIsolation, NoNetworkIsolation]

  function FlagText(flag: Flag): string
  {
    match flag
    case ConfigPath => "--config"
    case DockerImageRef => "--docker-image-ref"
    case FetcherSocket => "--fetcher-socket"
    case RootModeFlag => "--root-mode"
    case StagingRoot => "--staging-root"
    case BuildUser => "--build-user"
    case NetworkIsolation => "--network-isolation"
    case NoNetworkIsolation => "--no-network-isolation"
  }

  predicate TakesValue(flag: Flag)
  {
    !flag.NetworkIsolation? && !flag.NoNetworkIsolation?
  }

  predicate Accepts(flag: Flag, word: string)
  {
    if TakesValue(flag) then FlagText(flag) + "=" <= word else word == FlagText(flag)
  }

  function ValueIn(flag: Flag, word: string): string
    requires Accepts(flag, word)
  {
    if TakesValue(flag) then word[|FlagText(flag)| + 1..] else ""
  }

  /** The text of a flag holds no equals sign, so it ends where the word's first
      one is. */
  lemma AcceptedKey(flag: Flag, word: string)
    requires Accepts(flag, word)
    ensures Text.Find(word, '=') == |FlagText(flag)|
  {
    assert '=' !in FlagText(flag);
    if TakesValue(flag) {
      var rest := word[|FlagText(flag)| + 1..];
      assert word == FlagText(flag) + ['='] + rest;
      Text.FindAppend(FlagText(flag), '=', rest);
    } else {
      Text.FindAbsent(word, '=');
    }
  }

  /** At most one flag accepts any word, so the order of the table is free. */
  lemma AtMostOneFlag(f: Flag, g: Flag, word: string)
    requires Accepts(f, word) && Accepts(g, word)
    ensures f == g
  {
    AcceptedKey(f, word);
    AcceptedKey(g, word);
  }

  /** No flag accepts the separator. */
  lemma SeparatorIsNoFlag()
    ensures Spelled("--") == None
  {
    if Spelled("--").Some? {
      SpelledIff("--", Spelled("--").value.flag);
    }
  }

  /** A flag and its value, as a word spells them. */
  datatype Spelling = Spelling(flag: Flag, value: string)

  function SpelledFrom(word: string, i: nat): Option<Spelling>
    requires i <= |FLAGS|
    decreases |FLAGS| - i
  {
    if i == |FLAGS| then None
    else if Accepts(FLAGS[i], word) then Some(Spelling(FLAGS[i], ValueIn(FLAGS[i], word)))
    else SpelledFrom(word, i + 1)
  }

  /** The first entry of the table that accepts the word. */
  function Spelled(word: string): Option<Spelling>
  {
    SpelledFrom(word, 0)
  }

  /** There is no other. */
  lemma SpelledIff(word: string, flag: Flag)
    ensures Accepts(flag, word) <==> Spelled(word).Some? && Spelled(word).value.flag == flag
    ensures Accepts(flag, word) ==> Spelled(word).value.value == ValueIn(flag, word)
  {
    SpelledIsAccepted(word, 0);
    FlagListed(flag);
    if Accepts(flag, word) {
      var i :| 0 <= i < |FLAGS| && FLAGS[i] == flag;
      AcceptedIsSpelled(word, 0, i);
      AtMostOneFlag(flag, Spelled(word).value.flag, word);
    }
  }

  lemma {:induction false} SpelledIsAccepted(word: string, i: nat)
    requires i <= |FLAGS|
    ensures var r := SpelledFrom(word, i);
            r.Some? ==> Accepts(r.value.flag, word) && r.value.value == ValueIn(r.value.flag, word)
    decreases |FLAGS| - i
  {
    if i < |FLAGS| && !Accepts(FLAGS[i], word) {
      SpelledIsAccepted(word, i + 1);
    }
  }

  lemma {:induction false} AcceptedIsSpelled(word: string, i: nat, j: nat)
    requires i <= j < |FLAGS| && Accepts(FLAGS[j], word)
    ensures SpelledFrom(word, i).Some?
    decreases j - i
  {
    if i < j && !Accepts(FLAGS[i], word) {
      AcceptedIsSpelled(word, i + 1, j);
    }
  }

  method MatchFlag(word: string) returns (r: Option<Spelling>)
    ensures r == Spelled(word)
  {
    for n := 0 to |FLAGS|
      invariant Spelled(word) == SpelledFrom(word, n)
    {
      var name := FlagText(FLAGS[n]);
      if !TakesValue(FLAGS[n]) {
        if word == name {
          return Some(Spelling(FLAGS[n], ""));
        }
      } else if name + "=" <= word {
        return Some(Spelling(FLAGS[n], word[|name| + 1..]));
      }
    }
    r := None;
  }

  lemma FlagListed(flag: Flag)
    ensures flag in FLAGS
  {
    match flag
    case ConfigPath => assert FLAGS[0] == flag;
    case DockerImageRef => assert FLAGS[1] == flag;
    case FetcherSocket => assert FLAGS[2] == flag;
    case RootModeFlag => assert FLAGS[3] == flag;
    case StagingRoot => assert FLAGS[4] == flag;
    case BuildUser => assert FLAGS[5] == flag;
    case NetworkIsolation => assert FLAGS[6] == flag;
    case NoNetworkIsolation => assert FLAGS[7] == flag;
  }

  // ---- Values ----

  predicate IsId(text: string)
  {
    1 <= |text| <= 9 && Text.AllDigits(text)
  }

  /** The digit loop, in 32-bit arithmetic that never overflows. */
  method ParseId(text: string) returns (id: Option<int32>)
    ensures id.Some? <==> IsId(text)
    ensures id.Some? ==> id.value as int == Text.DigitsValue(text) <= MAX_ID
  {
    if text == "" || |text| > 9 {
      return None;
    }
    var result: int32 := 0;
    for n := 0 to |text|
      invariant Text.AllDigits(text[..n])
      invariant result as int == Text.DigitsValue(text[..n])
    {
      var c := text[n];
      if c < '0' || c > '9' {
        return None;
      }
      assert text[..n + 1][..n] == text[..n];
      NineDigits(text[..n + 1]);
      result := result * 10 + (c as int - '0' as int) as int32;
    }
    assert text[..|text|] == text;
    NineDigits(text);
    id := Some(result);
  }

  lemma NineDigits(text: string)
    requires Text.AllDigits(text) && |text| <= 9
    ensures Text.DigitsValue(text) <= MAX_ID
  {
    Text.DigitsValueBound(text);
    PowerBound(|text|);
  }

  lemma PowerBound(k: nat)
    requires k <= 9
    ensures Text.Pow10(k) <= MAX_ID + 1
  {
    assert Text.Pow10(3) == 1000;
    assert Text.Pow10(6) == 1_000_000;
    assert Text.Pow10(9) == 1_000_000_000;
  }

  /** A flag can name exactly the ids that the config file may hold. */
  lemma SameIdRange(id: int)
    ensures 0 <= id <= MAX_ID <==> exists text :: IsId(text) && Text.DigitsValue(text) == id
  {
    if 0 <= id <= MAX_ID {
      PrintedIsId(id);
    }
    if text :| IsId(text) && Text.DigitsValue(text) == id {
      NineDigits(text);
    }
  }

  /** UID:GID, split at the first colon. */
  predicate IsUser(value: string)
  {
    var colon := Text.Find(value, ':');
    colon < |value| && IsId(value[..colon]) && IsId(value[colon + 1..])
  }

  function UserIn(value: string): User
    requires IsUser(value)
  {
    var colon := Text.Find(value, ':');
    User(Text.DigitsValue(value[..colon]), Text.DigitsValue(value[colon + 1..]))
  }

  lemma UserText(a: string, b: string)
    requires IsId(a) && IsId(b)
    ensures var text := a + [':'] + b;
            IsUser(text) && UserIn(text) == User(Text.DigitsValue(a), Text.DigitsValue(b))
  {
    Text.DigitsLack(a, ':');
    Text.FindAppend(a, ':', b);
    var text := a + [':'] + b;
    assert text[..|a|] == a && text[|a| + 1..] == b;
  }

  lemma PrintedIsId(id: nat)
    requires id <= MAX_ID
    ensures IsId(Text.Decimal(id))
  {
    assert Text.Pow10(6) == 1_000_000;
    assert Text.Pow10(9) == 1_000_000_000;
    Text.DecimalLength(id, 9);
  }

  /** Reading back what is printed. */
  lemma UserRoundTrip(uid: nat, gid: nat)
    requires uid <= MAX_ID && gid <= MAX_ID
    ensures var text := Text.Decimal(uid) + [':'] + Text.Decimal(gid); IsUser(text) && UserIn(text) == User(uid, gid)
  {
    PrintedIsId(uid);
    PrintedIsId(gid);
    UserText(Text.Decimal(uid), Text.Decimal(gid));
  }

  method ParseUserFlag(value: string, config: Config) returns (ok: bool)
    modifies config
    ensures ok <==> IsUser(value)
    ensures ok ==> config.settings == old(config.settings).(buildUser := UserIn(value))
  {
    var colon := Text.Find(value, ':');
    if colon == |value| {
      return false;
    }
    var uid := ParseId(value[..colon]);
    if uid.None? {
      return false;
    }
    config.settings := config.settings.(buildUser := config.settings.buildUser.(uid := uid.value as int));
    var gid := ParseId(value[colon + 1..]);
    if gid.None? {
      return false;
    }
    config.settings := config.settings.(buildUser := config.settings.buildUser.(gid := gid.value as int));
    ok := true;
  }

  function RootModeIn(value: string): Option<RootMode>
  {
    if value == "overlay" then Some(Overlay) else if value == "tmpfs" then Some(Tmpfs) else None
  }

  // ---- The config file ----

  datatype Toml =
    | String(text: string) | Boolean(on: bool) | Integer(value: int) | Array(elements: seq<Toml>)
    | Table(keys: map<string, Toml>) | Other

  type TomlTable = map<string, Toml>

  const TOP_LEVEL_KEYS :=
    {"fetcher-socket", "root-mode", "staging-root", "network-isolation", "keep-dirs", "etc-files",
     "build-user", "host-user"}

  predicate IsSinglePathComponent(value: string)
  {
    value != "" && value != "." && value != ".." && '/' !in value
  }

  predicate TextOk(t: TomlTable, key: string) { key in t ==> t[key].String? }

  predicate IdOk(t: TomlTable, key: string) { key in t && t[key].Integer? && 0 <= t[key].value <= MAX_ID }

  predicate UserOk(t: TomlTable, key: string)
  {
    key in t ==>
      && t[key].Table? && t[key].keys.Keys == {"uid", "gid"}
      && IdOk(t[key].keys, "uid") && IdOk(t[key].keys, "gid")
  }

  predicate NamesOk(t: TomlTable, key: string)
  {
    key in t ==> t[key].Array? && forall i :: 0 <= i < |t[key].elements| ==> NameOk(t[key].elements[i])
  }

  predicate NameOk(element: Toml) { element.String? && IsSinglePathComponent(element.text) }

  /** Every key is known, typed and complete; the image ref is not among them. */
  predicate FileOk(t: TomlTable)
  {
    && t.Keys <= TOP_LEVEL_KEYS
    && TextOk(t, "fetcher-socket") && TextOk(t, "root-mode") && TextOk(t, "staging-root")
    && ("root-mode" in t ==> RootModeIn(t["root-mode"].text).Some?)
    && ("network-isolation" in t ==> t["network-isolation"].Boolean?)
    && UserOk(t, "build-user") && UserOk(t, "host-user")
    && NamesOk(t, "etc-files") && NamesOk(t, "keep-dirs")
  }

  function TextOr(t: TomlTable, key: string, default: string): string
    requires TextOk(t, key)
  {
    if key in t then t[key].text else default
  }

  function UserOr(t: TomlTable, key: string, default: User): User
    requires UserOk(t, key)
  {
    if key in t then User(t[key].keys["uid"].value, t[key].keys["gid"].value) else default
  }

  function NamesIn(t: TomlTable, key: string): seq<string>
    requires NamesOk(t, key) && key in t
  {
    seq(|t[key].elements|, i requires 0 <= i < |t[key].elements| => t[key].elements[i].text)
  }

  /** Every setting that the file has, on top of what was there before. */
  function FromFile(t: TomlTable, s: Settings): Settings
    requires FileOk(t)
  {
    Settings(
      s.dockerImageRef,
      TextOr(t, "fetcher-socket", s.fetcherSocket),
      if "root-mode" in t then RootModeIn(t["root-mode"].text).value else s.rootMode,
      TextOr(t, "staging-root", s.stagingRoot),
      if "network-isolation" in t then t["network-isolation"].on else s.isolateNetwork,
      UserOr(t, "build-user", s.buildUser),
      UserOr(t, "host-user", s.hostUser),
      s.keepList + if "keep-dirs" in t then set name | name in NamesIn(t, "keep-dirs") else {},
      if "etc-files" in t then NamesIn(t, "etc-files") else s.etcFiles)
  }

  /** A table as the file spells it. */
  function UserTable(user: User): Toml
  {
    Table(map["uid" := Integer(user.uid), "gid" := Integer(user.gid)])
  }

  function ModeText(mode: RootMode): Toml
  {
    String(match mode case Overlay => "overlay" case Tmpfs => "tmpfs")
  }

  /** A key that the file has holds the value; otherwise nothing changes. */
  ghost predicate Sets(t: TomlTable, key: string, value: Toml, stays: bool)
  {
    if key in t then t[key] == value else stays
  }

  ghost predicate Lists(elements: seq<Toml>, names: seq<string>)
  {
    |elements| == |names| && forall i :: 0 <= i < |names| ==> elements[i] == String(names[i])
  }

  /** An accepted file spells the settings that it leads to, key by key. */
  ghost predicate Spells(t: TomlTable, s: Settings, s': Settings)
  {
    && s'.dockerImageRef == s.dockerImageRef
    && Sets(t, "fetcher-socket", String(s'.fetcherSocket), s'.fetcherSocket == s.fetcherSocket)
    && Sets(t, "root-mode", ModeText(s'.rootMode), s'.rootMode == s.rootMode)
    && Sets(t, "staging-root", String(s'.stagingRoot), s'.stagingRoot == s.stagingRoot)
    && Sets(t, "network-isolation", Boolean(s'.isolateNetwork), s'.isolateNetwork == s.isolateNetwork)
    && Sets(t, "build-user", UserTable(s'.buildUser), s'.buildUser == s.buildUser)
    && Sets(t, "host-user", UserTable(s'.hostUser), s'.hostUser == s.hostUser)
  }

  /** etc-files replaces its list, keep-dirs adds to its set. */
  ghost predicate SpellsLists(t: TomlTable, s: Settings, s': Settings)
  {
    && (if "etc-files" in t then t["etc-files"].Array? && Lists(t["etc-files"].elements, s'.etcFiles)
        else s'.etcFiles == s.etcFiles)
    && (if "keep-dirs" in t then
          exists names :: t["keep-dirs"].Array? && Lists(t["keep-dirs"].elements, names) &&
            s'.keepList == s.keepList + (set name | name in names)
        else s'.keepList == s.keepList)
  }

  lemma FileMeanings(t: TomlTable, s: Settings)
    requires FileOk(t)
    ensures Spells(t, s, FromFile(t, s)) && SpellsLists(t, s, FromFile(t, s))
  {
    UserIsSpelled(t, "build-user", s.buildUser);
    UserIsSpelled(t, "host-user", s.hostUser);
    if "keep-dirs" in t {
      assert Lists(t["keep-dirs"].elements, NamesIn(t, "keep-dirs"));
    }
  }

  lemma UserIsSpelled(t: TomlTable, key: string, default: User)
    requires UserOk(t, key)
    ensures Sets(t, key, UserTable(UserOr(t, key, default)), UserOr(t, key, default) == default)
  {
    if key in t {
      var (keys, user) := (t[key].keys, UserOr(t, key, default));
      assert keys == map["uid" := Integer(user.uid), "gid" := Integer(user.gid)];
    }
  }

  /** get_user_table: None keeps what was there. */
  method GetUserTable(t: TomlTable, key: string) returns (ok: bool, user: Option<User>)
    ensures ok <==> UserOk(t, key)
    ensures ok ==> forall default :: UserOr(t, key, default) == if user.Some? then user.value else default
    ensures ok && user.Some? ==> key in t && t[key] == UserTable(user.value)
  {
    if key !in t {
      return true, None;
    }
    if !t[key].Table? || !(t[key].keys.Keys <= {"uid", "gid"}) {
      return false, None;
    }
    var table := t[key].keys;
    if !IdOk(table, "uid") || !IdOk(table, "gid") {
      return false, None;
    }
    assert table.Keys == {"uid", "gid"};
    return true, Some(User(table["uid"].value, table["gid"].value));
  }

  method GetStringArray(t: TomlTable, key: string) returns (ok: bool, names: Option<seq<string>>)
    ensures ok <==> NamesOk(t, key)
    ensures ok ==> names == if key in t then Some(NamesIn(t, key)) else None
  {
    if key !in t {
      return true, None;
    }
    if !t[key].Array? {
      return false, None;
    }
    var elements := t[key].elements;
    var values: seq<string> := [];
    for n := 0 to |elements|
      invariant |values| == n
      invariant forall i :: 0 <= i < n ==> NameOk(elements[i]) && values[i] == elements[i].text
    {
      if !elements[n].String? || !IsSinglePathComponent(elements[n].text) {
        return false, None;
      }
      values := values + [elements[n].text];
    }
    assert NamesOk(t, key) && values == NamesIn(t, key);
    return true, Some(values);
  }

  /** parse_config_file; `file` is the parsed file, None when it cannot be read
      or is not TOML. A failure leaves the settings partly applied. */
  method ParseConfigFile(file: Option<TomlTable>, config: Config) returns (ok: bool)
    modifies config
    ensures ok <==> file.Some? && FileOk(file.value)
    ensures ok ==> config.settings == FromFile(file.value, old(config.settings))
  {
    if file.None? {
      return false;
    }
    var t := file.value;
    if "docker-image-ref" in t || !(t.Keys <= TOP_LEVEL_KEYS) {
      return false;
    }
    ok := GetScalars(t, config);
    if !ok {
      return false;
    }
    ok := GetUsers(t, config);
    if !ok {
      return false;
    }
    var etcFiles, keepDirs;
    ok, etcFiles := GetStringArray(t, "etc-files");
    if !ok {
      return false;
    }
    if etcFiles.Some? {
      config.settings := config.settings.(etcFiles := etcFiles.value);
    }
    ok, keepDirs := GetStringArray(t, "keep-dirs");
    if ok && keepDirs.Some? {
      config.settings := config.settings.(keepList := config.settings.keepList + set name | name in keepDirs.value);
    }
  }

  method GetScalars(t: TomlTable, config: Config) returns (ok: bool)
    modifies config
    ensures ok <==> && TextOk(t, "fetcher-socket") && TextOk(t, "root-mode") && TextOk(t, "staging-root")
                    && ("root-mode" in t ==> RootModeIn(t["root-mode"].text).Some?)
                    && ("network-isolation" in t ==> t["network-isolation"].Boolean?)
    ensures ok ==> config.settings == old(config.settings).(
                     fetcherSocket := TextOr(t, "fetcher-socket", old(config.settings).fetcherSocket),
                     rootMode := if "root-mode" in t then RootModeIn(t["root-mode"].text).value
                       else old(config.settings).rootMode,
                     stagingRoot := TextOr(t, "staging-root", old(config.settings).stagingRoot),
                     isolateNetwork := if "network-isolation" in t then t["network-isolation"].on
                       else old(config.settings).isolateNetwork)
  {
    ok := false;
    if "fetcher-socket" in t {
      if !t["fetcher-socket"].String? {
        return;
      }
      config.settings := config.settings.(fetcherSocket := t["fetcher-socket"].text);
    }
    if "root-mode" in t {
      if !t["root-mode"].String? || RootModeIn(t["root-mode"].text).None? {
        return;
      }
      config.settings := config.settings.(rootMode := RootModeIn(t["root-mode"].text).value);
    }
    if "staging-root" in t {
      if !t["staging-root"].String? {
        return;
      }
      config.settings := config.settings.(stagingRoot := t["staging-root"].text);
    }
    if "network-isolation" in t {
      if !t["network-isolation"].Boolean? {
        return;
      }
      config.settings := config.settings.(isolateNetwork := t["network-isolation"].on);
    }
    ok := true;
  }

  method GetUsers(t: TomlTable, config: Config) returns (ok: bool)
    modifies config
    ensures ok <==> UserOk(t, "build-user") && UserOk(t, "host-user")
    ensures ok ==> config.settings == old(config.settings).(
                     buildUser := UserOr(t, "build-user", old(config.settings).buildUser),
                     hostUser := UserOr(t, "host-user", old(config.settings).hostUser))
  {
    var buildUser, hostUser;
    ok, buildUser := GetUserTable(t, "build-user");
    if !ok {
      return;
    }
    if buildUser.Some? {
      config.settings := config.settings.(buildUser := buildUser.value);
    }
    ok, hostUser := GetUserTable(t, "host-user");
    if ok && hostUser.Some? {
      config.settings := config.settings.(hostUser := hostUser.value);
    }
  }
}
