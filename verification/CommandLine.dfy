/** The two passes of parse_command_line (cmd/bb_chroot_helper/config.cc): where
    the helper's flags end, and which of the defaults, the config file and the
    flags decides a setting. */
module CommandLine {
  import opened LayerTree
  import opened ChrootConfig
  import Text

  const END_OF_FLAGS := "--"

  type Files = string -> Option<TomlTable>
  type Speller = string -> Option<Spelling>

  // ---- One flag ----

  /** What a flag does to the settings; --config has had its turn before. */
  function Effect(flag: Flag, value: string, s: Settings): Option<Settings>
  {
    match flag
    case ConfigPath => Some(s)
    case DockerImageRef => Some(s.(dockerImageRef := value))
    case FetcherSocket => Some(s.(fetcherSocket := value))
    case RootModeFlag => (match RootModeIn(value) case None => None case Some(mode) => Some(s.(rootMode := mode)))
    case StagingRoot => Some(s.(stagingRoot := value))
    case BuildUser => if IsUser(value) then Some(s.(buildUser := UserIn(value))) else None
    case NetworkIsolation => Some(s.(isolateNetwork := true))
    case NoNetworkIsolation => Some(s.(isolateNetwork := false))
  }

  method ApplyFlag(flag: Flag, value: string, config: Config) returns (ok: bool)
    modifies config
    ensures ok <==> Effect(flag, value, old(config.settings)).Some?
    ensures ok ==> Some(config.settings) == Effect(flag, value, old(config.settings))
  {
    ok := true;
    match flag
    case ConfigPath =>
    case DockerImageRef => config.settings := config.settings.(dockerImageRef := value);
    case FetcherSocket => config.settings := config.settings.(fetcherSocket := value);
    case RootModeFlag =>
      var mode := RootModeIn(value);
      if mode.None? {
        return false;
      }
      config.settings := config.settings.(rootMode := mode.value);
    case StagingRoot => config.settings := config.settings.(stagingRoot := value);
    case BuildUser => ok := ParseUserFlag(value, config);
    case NetworkIsolation => config.settings := config.settings.(isolateNetwork := true);
    case NoNetworkIsolation => config.settings := config.settings.(isolateNetwork := false);
  }

  // ---- A list of flags ----

  /** The flags that the words spell; None when a word is no flag. */
  function SpellAll(words: seq<string>, spell: Speller): Option<seq<Spelling>>
  {
    if words == [] then Some([])
    else
      match (SpellAll(words[..|words| - 1], spell), spell(words[|words| - 1]))
      case (Some(flags), Some(last)) => Some(flags + [last])
      case _ => None
  }

  function Spellings(words: seq<string>): Option<seq<Spelling>>
  {
    SpellAll(words, Spelled)
  }

  /** The flags take effect from left to right. */
  function ApplyAll(flags: seq<Spelling>, s: Settings): Option<Settings>
  {
    if flags == [] then Some(s)
    else
      match ApplyAll(flags[..|flags| - 1], s)
      case None => None
      case Some(mid) => Effect(flags[|flags| - 1].flag, flags[|flags| - 1].value, mid)
  }

  /** The value of the last occurrence of a flag. */
  function LastValue(flags: seq<Spelling>, flag: Flag): Option<string>
  {
    if flags == [] then None
    else if flags[|flags| - 1].flag == flag then Some(flags[|flags| - 1].value)
    else LastValue(flags[..|flags| - 1], flag)
  }

  /** What the flags start from: the file of the last --config, if any. */
  function Base(flags: seq<Spelling>, files: Files, s: Settings): Option<Settings>
  {
    match LastValue(flags, ConfigPath)
    case None => Some(s)
    case Some(path) =>
      if path == "" || files(path).None? || !FileOk(files(path).value) then None
      else Some(FromFile(files(path).value, s))
  }

  function Outcome(flags: seq<Spelling>, files: Files, s: Settings): Option<Settings>
  {
    match Base(flags, files, s)
    case None => None
    case Some(base) => ApplyAll(flags, base)
  }

  /** The settings that the words before the separator lead to. */
  function Parsed(words: seq<string>, files: Files, s: Settings): Option<Settings>
  {
    match Spellings(words)
    case None => None
    case Some(flags) => Outcome(flags, files, s)
  }

  /** The first separator, counted from argv[1]; |argv| when there is none. */
  function FlagsEnd(argv: seq<string>): (end: nat)
    ensures end <= |argv|
    ensures forall i :: 1 <= i < end ==> argv[i] != END_OF_FLAGS
    ensures end < |argv| ==> 1 <= end && argv[end] == END_OF_FLAGS
  {
    if |argv| == 0 then 0 else 1 + Position(argv[1..])
  }

  function Position(words: seq<string>): (i: nat)
    ensures i <= |words|
    ensures forall j :: 0 <= j < i ==> words[j] != END_OF_FLAGS
    ensures i < |words| ==> words[i] == END_OF_FLAGS
  {
    if words == [] || words[0] == END_OF_FLAGS then 0 else 1 + Position(words[1..])
  }

  // ---- The two passes ----

  ghost predicate Agrees(spell: Speller, word: string)
  {
    spell(word) == Spelled(word)
  }

  ghost predicate IsMatcher(spell: Speller)
  {
    forall word {:trigger Agrees(spell, word)} :: Agrees(spell, word)
  }

  /** A call of match_flag; `spell` is what it computes. */
  method Match(word: string, ghost spell: Speller) returns (r: Option<Spelling>)
    requires IsMatcher(spell)
    ensures r == spell(word)
  {
    r := MatchFlag(word);
    assert Agrees(spell, word);
  }

  /** First pass: find the end of the flags and the last --config. */
  method ScanFlags(argv: seq<string>, ghost spell: Speller) returns (ok: bool, i: nat, path: Option<string>)
    requires IsMatcher(spell)
    ensures ok <==> FlagsEnd(argv) < |argv| && SpellAll(argv[1..FlagsEnd(argv)], spell).Some?
    ensures ok ==> i == FlagsEnd(argv) && path == LastValue(SpellAll(argv[1..i], spell).value, ConfigPath)
  {
    i, path := 1, None;
    if |argv| == 0 {
      return false, i, path;
    }
    var words := argv[1..];
    ghost var flags: seq<Spelling> := [];
    while i < |argv| && argv[i] != END_OF_FLAGS
      invariant 1 <= i <= |argv|
      invariant i - 1 <= Position(words)
      invariant SpellAll(words[..i - 1], spell) == Some(flags) && path == LastValue(flags, ConfigPath)
      decreases |argv| - i
    {
      var spelling := Match(argv[i], spell);
      assert argv[i] == words[i - 1];
      TakeOneMore(words, i - 1, spell);
      if spelling.None? {
        NoFlagBefore(argv, i, spell);
        return false, i, None;
      }
      LastSnoc(flags, spelling.value, ConfigPath);
      flags := flags + [spelling.value];
      if spelling.value.flag.ConfigPath? {
        path := Some(spelling.value.value);
      }
      i := i + 1;
    }
    WordsBefore(argv, i);
    ok := i < |argv|;
  }

  lemma WordsBefore(argv: seq<string>, i: nat)
    requires 1 <= i <= |argv|
    ensures argv[1..i] == argv[1..][..i - 1]
  {
  }

  lemma TakeOneMore(words: seq<string>, i: nat, spell: Speller)
    requires i < |words|
    ensures SpellAll(words[..i + 1], spell) ==
            match (SpellAll(words[..i], spell), spell(words[i])) {
              case (Some(flags), Some(last)) => Some(flags + [last])
              case _ => None
            }
  {
    assert words[..i + 1][..i] == words[..i];
  }

  /** A word that is no flag, before the separator. */
  lemma NoFlagBefore(argv: seq<string>, i: nat, spell: Speller)
    requires 1 <= i < |argv| && SpellAll(argv[1..][..i], spell) == None && i - 1 < Position(argv[1..])
    ensures SpellAll(argv[1..FlagsEnd(argv)], spell) == None
  {
    var words := argv[1..FlagsEnd(argv)];
    assert words[..i] == argv[1..][..i];
    NoFlagStays(words, i, spell);
  }

  lemma LastSnoc(flags: seq<Spelling>, last: Spelling, flag: Flag)
    ensures LastValue(flags + [last], flag) == if last.flag == flag then Some(last.value) else LastValue(flags, flag)
  {
    assert (flags + [last])[..|flags|] == flags;
  }

  lemma {:induction false} NoFlagStays(words: seq<string>, n: nat, spell: Speller)
    requires n <= |words| && SpellAll(words[..n], spell) == None
    ensures SpellAll(words, spell) == None
    decreases |words|
  {
    if n == |words| {
      assert words[..n] == words;
    } else {
      assert words[..|words| - 1][..n] == words[..n];
      NoFlagStays(words[..|words| - 1], n, spell);
    }
  }

  lemma {:induction false} SpellAllAt(words: seq<string>, j: nat, spell: Speller)
    requires SpellAll(words, spell).Some? && j < |words|
    ensures |SpellAll(words, spell).value| == |words| && spell(words[j]) == Some(SpellAll(words, spell).value[j])
    decreases |words|
  {
    var init := words[..|words| - 1];
    if |init| > 0 {
      SpellAllAt(init, if j < |init| then j else 0, spell);
    }
  }

  /** Every word has to be a flag. */
  lemma {:induction false} SpelledAllIff(words: seq<string>, spell: Speller)
    ensures SpellAll(words, spell).Some? <==> forall j :: 0 <= j < |words| ==> spell(words[j]).Some?
  {
    if words != [] {
      var init := words[..|words| - 1];
      SpelledAllIff(init, spell);
      assert forall j :: 0 <= j < |init| ==> init[j] == words[j];
    }
  }

  /** Second pass. */
  method ApplyFlags(words: seq<string>, ghost spell: Speller, config: Config) returns (ok: bool)
    requires SpellAll(words, spell).Some? && IsMatcher(spell)
    modifies config
    ensures ok <==> ApplyAll(SpellAll(words, spell).value, old(config.settings)).Some?
    ensures ok ==> Some(config.settings) == ApplyAll(SpellAll(words, spell).value, old(config.settings))
  {
    ghost var flags := SpellAll(words, spell).value;
    SpellAllLength(words, spell);
    for j := 0 to |words|
      invariant ApplyAll(flags[..j], old(config.settings)) == Some(config.settings)
    {
      var spelling := Match(words[j], spell);
      SpellAllAt(words, j, spell);
      assert flags[..j + 1][..j] == flags[..j];
      ok := ApplyFlag(spelling.value.flag, spelling.value.value, config);
      if !ok {
        FailureStays(flags, old(config.settings), j + 1);
        return false;
      }
    }
    assert flags[..|words|] == flags;
    ok := true;
  }

  lemma SpellAllLength(words: seq<string>, spell: Speller)
    requires SpellAll(words, spell).Some?
    ensures |SpellAll(words, spell).value| == |words|
  {
    if words != [] {
      SpellAllAt(words, 0, spell);
    }
  }

  lemma {:induction false} FailureStays(flags: seq<Spelling>, s: Settings, n: nat)
    requires n <= |flags| && ApplyAll(flags[..n], s) == None
    ensures ApplyAll(flags, s) == None
    decreases |flags|
  {
    if n == |flags| {
      assert flags[..n] == flags;
    } else {
      assert flags[..|flags| - 1][..n] == flags[..n];
      FailureStays(flags[..|flags| - 1], s, n);
    }
  }

  method ParseCommandLine(argv: seq<string>, files: Files, config: Config) returns (ok: bool, commandStart: nat)
    modifies config
    ensures ok <==> FlagsEnd(argv) < |argv| && Parsed(argv[1..FlagsEnd(argv)], files, old(config.settings)).Some?
    ensures ok ==> commandStart == FlagsEnd(argv) + 1
    ensures ok ==> Some(config.settings) == Parsed(argv[1..FlagsEnd(argv)], files, old(config.settings))
  {
    commandStart := 0;
    assert IsMatcher(Spelled);
    var i, path;
    ok, i, path := ScanFlags(argv, Spelled);
    if !ok {
      return;
    }
    commandStart := i + 1;
    if path.Some? {
      if path.value == "" {
        return false, commandStart;
      }
      ok := ParseConfigFile(files(path.value), config);
      if !ok {
        return;
      }
    }
    ok := ApplyFlags(argv[1..i], Spelled, config);
  }

  // ---- Unwrapping ----

  /** Whatever words follow the first separator, the flags are the words before
      it and the command is exactly what comes after. */
  lemma UnwrapsTheCommand(helper: string, words: seq<string>, command: seq<string>)
    requires END_OF_FLAGS !in words
    ensures var argv := [helper] + words + [END_OF_FLAGS] + command;
            FlagsEnd(argv) == |words| + 1 && argv[1..FlagsEnd(argv)] == words && argv[FlagsEnd(argv) + 1..] == command
  {
    var argv := [helper] + words + [END_OF_FLAGS] + command;
    assert argv[|words| + 1] == END_OF_FLAGS;
    assert forall i :: 1 <= i <= |words| ==> argv[i] == words[i - 1];
    assert FlagsEnd(argv) == |words| + 1;
    assert argv[1..|words| + 1] == words && argv[|words| + 2..] == command;
  }

  /** Words that the parser accepts never look like the separator. */
  lemma FlagsAreNotSeparators(words: seq<string>)
    requires Spellings(words).Some?
    ensures END_OF_FLAGS !in words
  {
    SeparatorIsNoFlag();
    if END_OF_FLAGS in words {
      var j :| 0 <= j < |words| && words[j] == END_OF_FLAGS;
      SpellAllAt(words, j, Spelled);
    }
  }

  /** A helper path, accepted flags and a separator in front of any command: the
      parser hands back exactly that command. */
  lemma WrapIsUndone(helper: string, words: seq<string>, command: seq<string>)
    requires Spellings(words).Some?
    ensures var argv := [helper] + words + [END_OF_FLAGS] + command;
            FlagsEnd(argv) < |argv| && argv[1..FlagsEnd(argv)] == words && argv[FlagsEnd(argv) + 1..] == command
  {
    FlagsAreNotSeparators(words);
    UnwrapsTheCommand(helper, words, command);
  }

  // ---- Which source decides ----

  function LastOr(flags: seq<Spelling>, flag: Flag, default: string): string
  {
    if LastValue(flags, flag).Some? then LastValue(flags, flag).value else default
  }

  /** The later of the two network flags. */
  function LastSwitch(flags: seq<Spelling>, default: bool): bool
  {
    if flags == [] then default
    else if flags[|flags| - 1].flag.NetworkIsolation? then true
    else if flags[|flags| - 1].flag.NoNetworkIsolation? then false
    else LastSwitch(flags[..|flags| - 1], default)
  }

  /** Every setting is that of its last flag, or what it was. */
  ghost predicate Overridden(flags: seq<Spelling>, s: Settings, s': Settings)
  {
    OverriddenTexts(flags, s, s') && OverriddenValues(flags, s, s')
  }

  ghost predicate OverriddenTexts(flags: seq<Spelling>, s: Settings, s': Settings)
  {
    && s'.dockerImageRef == LastOr(flags, DockerImageRef, s.dockerImageRef)
    && s'.fetcherSocket == LastOr(flags, FetcherSocket, s.fetcherSocket)
    && s'.stagingRoot == LastOr(flags, StagingRoot, s.stagingRoot)
    && s'.isolateNetwork == LastSwitch(flags, s.isolateNetwork)
    && s'.hostUser == s.hostUser && s'.keepList == s.keepList && s'.etcFiles == s.etcFiles
  }

  ghost predicate OverriddenValues(flags: seq<Spelling>, s: Settings, s': Settings)
  {
    && (match LastValue(flags, RootModeFlag)
        case None => s'.rootMode == s.rootMode
        case Some(value) => RootModeIn(value) == Some(s'.rootMode))
    && (match LastValue(flags, BuildUser)
        case None => s'.buildUser == s.buildUser
        case Some(value) => IsUser(value) && s'.buildUser == UserIn(value))
  }

  lemma {:induction false} LastFlagWins(flags: seq<Spelling>, s: Settings, s': Settings)
    requires ApplyAll(flags, s) == Some(s')
    ensures Overridden(flags, s, s')
  {
    if flags != [] {
      var mid := ApplyAll(flags[..|flags| - 1], s).value;
      LastFlagWins(flags[..|flags| - 1], s, mid);
      TextsStep(flags, s, mid, s');
      ValuesStep(flags, s, mid, s');
    }
  }

  lemma TextsStep(flags: seq<Spelling>, s: Settings, mid: Settings, s': Settings)
    requires flags != [] && OverriddenTexts(flags[..|flags| - 1], s, mid)
    requires Effect(flags[|flags| - 1].flag, flags[|flags| - 1].value, mid) == Some(s')
    ensures OverriddenTexts(flags, s, s')
  {
  }

  lemma ValuesStep(flags: seq<Spelling>, s: Settings, mid: Settings, s': Settings)
    requires flags != [] && OverriddenValues(flags[..|flags| - 1], s, mid)
    requires Effect(flags[|flags| - 1].flag, flags[|flags| - 1].value, mid) == Some(s')
    ensures OverriddenValues(flags, s, s')
  {
  }

  /** A setting is decided by its last flag, else by the file of the last
      --config, else by the default; the image ref only by its flag. */
  lemma FlagsThenFileThenDefaults(flags: seq<Spelling>, files: Files, s: Settings)
    requires Outcome(flags, files, DEFAULTS) == Some(s)
    ensures Base(flags, files, DEFAULTS).Some? && Overridden(flags, Base(flags, files, DEFAULTS).value, s)
    ensures s.dockerImageRef == LastOr(flags, DockerImageRef, "")
  {
    LastFlagWins(flags, Base(flags, files, DEFAULTS).value, s);
  }

  /** A value that the flag it belongs to takes. */
  predicate ValueOk(spelling: Spelling)
  {
    && (spelling.flag.RootModeFlag? ==> RootModeIn(spelling.value).Some?)
    && (spelling.flag.BuildUser? ==> IsUser(spelling.value))
  }

  /** Exactly when the flags are accepted. */
  lemma {:induction false} AcceptedIff(flags: seq<Spelling>, s: Settings)
    ensures ApplyAll(flags, s).Some? <==> forall j :: 0 <= j < |flags| ==> ValueOk(flags[j])
  {
    if flags != [] {
      var init := flags[..|flags| - 1];
      AcceptedIff(init, s);
      assert forall j :: 0 <= j < |init| ==> init[j] == flags[j];
    }
  }

  // ---- Which word decides ----

  /** The last word that starts with the prefix goes on with v. */
  ghost predicate LastGives(words: seq<string>, prefix: string, i: nat, v: string)
  {
    i < |words| && words[i] == prefix + v && forall j :: i < j < |words| ==> !(prefix <= words[j])
  }

  ghost predicate NoneGives(words: seq<string>, prefix: string)
  {
    forall j :: 0 <= j < |words| ==> !(prefix <= words[j])
  }

  lemma {:induction false} LastValueIs(flags: seq<Spelling>, flag: Flag, i: nat)
    requires i < |flags| && flags[i].flag == flag && forall j :: i < j < |flags| ==> flags[j].flag != flag
    ensures LastValue(flags, flag) == Some(flags[i].value)
    decreases |flags|
  {
    var n := |flags| - 1;
    if i < n {
      assert flags[..n][i] == flags[i];
      LastValueIs(flags[..n], flag, i);
    }
  }

  lemma {:induction false} NoValue(flags: seq<Spelling>, flag: Flag)
    requires forall j :: 0 <= j < |flags| ==> flags[j].flag != flag
    ensures LastValue(flags, flag) == None
  {
    if flags != [] {
      NoValue(flags[..|flags| - 1], flag);
    }
  }

  lemma {:induction false} LastSwitchIs(flags: seq<Spelling>, i: nat, default: bool)
    requires i < |flags| && (flags[i].flag.NetworkIsolation? || flags[i].flag.NoNetworkIsolation?)
    requires forall j :: i < j < |flags| ==> !flags[j].flag.NetworkIsolation? && !flags[j].flag.NoNetworkIsolation?
    ensures LastSwitch(flags, default) <==> flags[i].flag.NetworkIsolation?
    decreases |flags|
  {
    var n := |flags| - 1;
    if i < n {
      assert flags[..n][i] == flags[i];
      LastSwitchIs(flags[..n], i, default);
    }
  }

  lemma WordIsFlag(words: seq<string>, flag: Flag, j: nat)
    requires Spellings(words).Some? && j < |words|
    ensures |Spellings(words).value| == |words|
    ensures Accepts(flag, words[j]) <==> Spellings(words).value[j].flag == flag
    ensures Accepts(flag, words[j]) ==> Spellings(words).value[j].value == ValueIn(flag, words[j])
  {
    SpellAllAt(words, j, Spelled);
    SpelledIff(words[j], flag);
  }

  lemma LastWordIs(words: seq<string>, flag: Flag, i: nat, v: string)
    requires Spellings(words).Some? && TakesValue(flag) && LastGives(words, FlagText(flag) + "=", i, v)
    ensures LastValue(Spellings(words).value, flag) == Some(v)
  {
    var flags := Spellings(words).value;
    forall j | 0 <= j < |words|
      ensures |flags| == |words|
      ensures flags[j].flag == flag <==> FlagText(flag) + "=" <= words[j]
    {
      WordIsFlag(words, flag, j);
    }
    WordIsFlag(words, flag, i);
    LastValueIs(flags, flag, i);
  }

  lemma NoWordIs(words: seq<string>, flag: Flag)
    requires Spellings(words).Some? && TakesValue(flag) && NoneGives(words, FlagText(flag) + "=")
    ensures LastValue(Spellings(words).value, flag) == None
  {
    var flags := Spellings(words).value;
    SpellAllLength(words, Spelled);
    forall j | 0 <= j < |words|
      ensures flags[j].flag != flag
    {
      WordIsFlag(words, flag, j);
    }
    NoValue(flags, flag);
  }

  /** How the words of the flags with a value start. */
  function Prefix(flag: Flag): string
  {
    match flag
    case ConfigPath => "--config="
    case DockerImageRef => "--docker-image-ref="
    case FetcherSocket => "--fetcher-socket="
    case RootModeFlag => "--root-mode="
    case StagingRoot => "--staging-root="
    case BuildUser => "--build-user="
    case _ => ""
  }

  lemma PrefixIsText(flag: Flag)
    requires TakesValue(flag)
    ensures FlagText(flag) + "=" == Prefix(flag)
  {
  }

  /** What a value means for the setting of its flag. */
  ghost predicate Decided(flag: Flag, v: string, files: Files, s': Settings)
  {
    match flag
    case ConfigPath => v != "" && files(v).Some? && FileOk(files(v).value)
    case DockerImageRef => s'.dockerImageRef == v
    case FetcherSocket => s'.fetcherSocket == v
    case RootModeFlag => String(v) == ModeText(s'.rootMode)
    case StagingRoot => s'.stagingRoot == v
    case BuildUser => UserSpelled(v, s'.buildUser)
    case _ => true
  }

  /** The last word of its kind decides a setting, with all that follows the
      equals sign. */
  lemma LastWordDecides(words: seq<string>, files: Files, s: Settings, s': Settings, flag: Flag, i: nat, v: string)
    requires Parsed(words, files, s) == Some(s') && TakesValue(flag) && LastGives(words, Prefix(flag), i, v)
    ensures Decided(flag, v, files, s')
  {
    var flags := Spellings(words).value;
    LastFlagWins(flags, Base(flags, files, s).value, s');
    PrefixIsText(flag);
    LastWordIs(words, flag, i, v);
    if flag.BuildUser? {
      UserIsSpelledOut(v);
    }
  }

  /** The uid, a colon and the gid, in one to nine digits each. */
  ghost predicate UserSpelled(v: string, user: User)
  {
    exists a, b :: v == a + ":" + b && IsId(a) && IsId(b) && user == User(Text.DigitsValue(a), Text.DigitsValue(b))
  }

  lemma UserIsSpelledOut(v: string)
    requires IsUser(v)
    ensures UserSpelled(v, UserIn(v))
  {
    var colon := Text.Find(v, ':');
    assert v == v[..colon] + ":" + v[colon + 1..];
  }

  /** The last of the two network flags decides. */
  lemma LastNetworkWordDecides(words: seq<string>, files: Files, s: Settings, s': Settings, i: nat)
    requires Parsed(words, files, s) == Some(s') && i < |words|
    requires words[i] == "--network-isolation" || words[i] == "--no-network-isolation"
    requires forall j :: i < j < |words| ==> words[j] != "--network-isolation" && words[j] != "--no-network-isolation"
    ensures s'.isolateNetwork <==> words[i] == "--network-isolation"
  {
    var flags := Spellings(words).value;
    LastFlagWins(flags, Base(flags, files, s).value, s');
    SpellAllLength(words, Spelled);
    forall j | 0 <= j < |words|
      ensures flags[j].flag.NetworkIsolation? <==> words[j] == "--network-isolation"
      ensures flags[j].flag.NoNetworkIsolation? <==> words[j] == "--no-network-isolation"
    {
      WordIsFlag(words, NetworkIsolation, j);
      WordIsFlag(words, NoNetworkIsolation, j);
    }
    LastSwitchIs(flags, i, Base(flags, files, s).value.isolateNetwork);
  }

  /** The setting of the flag is the same. */
  ghost predicate Untouched(flag: Flag, s: Settings, s': Settings)
  {
    match flag
    case DockerImageRef => s'.dockerImageRef == s.dockerImageRef
    case FetcherSocket => s'.fetcherSocket == s.fetcherSocket
    case RootModeFlag => s'.rootMode == s.rootMode
    case StagingRoot => s'.stagingRoot == s.stagingRoot
    case BuildUser => s'.buildUser == s.buildUser
    case _ => true
  }

  /** Without a word of its kind, a setting is that of the file. */
  lemma NoWordNoChange(words: seq<string>, files: Files, s: Settings, s': Settings, base: Settings, flag: Flag)
    requires Parsed(words, files, s) == Some(s') && Base(Spellings(words).value, files, s) == Some(base)
    requires TakesValue(flag) && NoneGives(words, Prefix(flag))
    ensures Untouched(flag, base, s')
  {
    LastFlagWins(Spellings(words).value, base, s');
    PrefixIsText(flag);
    NoWordIs(words, flag);
  }

  /** The last --config names the file; without one, nothing changes. */
  lemma LastFileDecides(words: seq<string>, files: Files, s: Settings, base: Settings)
    requires Spellings(words).Some? && Base(Spellings(words).value, files, s) == Some(base)
    ensures NoneGives(words, "--config=") ==> base == s
    ensures forall i, path :: LastGives(words, "--config=", i, path) ==>
              files(path).Some? && Spells(files(path).value, s, base) && SpellsLists(files(path).value, s, base)
  {
    PrefixIsText(ConfigPath);
    if NoneGives(words, "--config=") {
      NoWordIs(words, ConfigPath);
    }
    forall i, path | LastGives(words, "--config=", i, path)
      ensures files(path).Some? && Spells(files(path).value, s, base) && SpellsLists(files(path).value, s, base)
    {
      LastWordIs(words, ConfigPath, i, path);
      FileMeanings(files(path).value, s);
    }
  }

  // ---- The place of --config ----

  function WithoutConfig(flags: seq<Spelling>): seq<Spelling>
  {
    if flags == [] then []
    else WithoutConfig(flags[..|flags| - 1]) + if flags[|flags| - 1].flag.ConfigPath? then [] else [flags[|flags| - 1]]
  }

  lemma {:induction false} ConfigHasNoEffect(flags: seq<Spelling>, s: Settings)
    ensures ApplyAll(flags, s) == ApplyAll(WithoutConfig(flags), s)
  {
    if flags != [] {
      var (init, last) := (flags[..|flags| - 1], flags[|flags| - 1]);
      ConfigHasNoEffect(init, s);
      if last.flag.ConfigPath? {
        assert WithoutConfig(flags) == WithoutConfig(init);
      } else {
        assert WithoutConfig(flags)[..|WithoutConfig(flags)| - 1] == WithoutConfig(init);
      }
    }
  }

  /** Where --config stands among the other flags does not matter. */
  lemma ConfigPositionIsFree(flags: seq<Spelling>, flags': seq<Spelling>, files: Files, s: Settings)
    requires WithoutConfig(flags) == WithoutConfig(flags')
    requires LastValue(flags, ConfigPath) == LastValue(flags', ConfigPath)
    ensures Outcome(flags, files, s) == Outcome(flags', files, s)
  {
    if Base(flags, files, s).Some? {
      ConfigHasNoEffect(flags, Base(flags, files, s).value);
      ConfigHasNoEffect(flags', Base(flags, files, s).value);
    }
  }
}
