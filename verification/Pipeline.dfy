/** The action pipeline (pkg/actionrouter/operations.go and pipeline.go): what
    each operation does to an action, and what follows for every list of
    operations. Templates are functions of the state they can read. */
module Pipeline {
  import opened LayerTree
  import opened Sorting
  import opened RemoteExecution
  import opened DirTreeVerifier
  import MergeRoot
  import Text

  datatype Metadata = Metadata(
    invocationId: string, targetLabel: string, actionMnemonic: string,
    configurationId: string, correlatedInvocationsId: string)

  /** All that a template can read; the working directory is None when the
      command cannot be loaded. */
  datatype View = View(platform: seq<Pair>, workingDirectory: Option<string>, metadata: Metadata)

  /** None is a rendering error. */
  type Template = View -> Option<string>

  datatype Addition = Addition(name: string, value: Template)

  datatype Op =
    | AssertPlatform(property: string, accepts: string -> bool)
    | MapPlatform(property: string, replacements: map<string, string>)
    | EditPlatform(remove: set<string>, add: seq<Addition>)
    | EditCommand(prepend: seq<Template>, append: seq<Template>)
    | EditEnvironment(remove: set<string>, assign: map<string, Template>)
    | MergeDockerRoot(imageRef: Template)
    | Conditional(condition: Template, op: Op)

  /** The root digest of an image, and the store after it was looked up. */
  datatype Found = Found(root: Digest, cas: Cas)

  /** Fixed while an action is handled: the digest function, what looking up an
      image ref gives in a store, and the request metadata. */
  datatype Env = Env(hash: Hash, lookup: (string, Cas) -> Option<Found>, metadata: Metadata)

  /** The working state; command is None when loading it fails. */
  datatype State = State(
    platform: Option<seq<Pair>>, command: Option<Command>, inputRoot: Digest, cas: Cas,
    platformChanged: bool, commandChanged: bool)

  function Properties(s: State): seq<Pair>
  {
    if s.platform.Some? then s.platform.value else []
  }

  function ViewOf(s: State, env: Env): View
  {
    View(Properties(s), if s.command.Some? then Some(s.command.value.workingDirectory) else None, env.metadata)
  }

  function Get(platform: seq<Pair>, name: string): string
  {
    if platform == [] then ""
    else if platform[0].name == name then platform[0].value
    else Get(platform[1..], name)
  }

  // ---- Conditions ----

  predicate IsSpace(c: char)
  {
    c in {'\t', '\n', 0x0B as char, 0x0C as char, '\r', ' ', 0x85 as char, 0xA0 as char, 0x1680 as char,
          0x2028 as char, 0x2029 as char, 0x202F as char, 0x205F as char, 0x3000 as char} ||
    0x2000 as char <= c <= 0x200A as char
  }

  function TrimSpace(s: string): string
  {
    if s != "" && IsSpace(s[0]) then TrimSpace(s[1..])
    else if s != "" && IsSpace(s[|s| - 1]) then TrimSpace(s[..|s| - 1])
    else s
  }

  function ToLower(s: string): string
  {
    seq(|s|, i requires 0 <= i < |s| => if 'A' <= s[i] <= 'Z' then (s[i] as int + 32) as char else s[i])
  }

  predicate Truthy(s: string)
  {
    ToLower(TrimSpace(s)) !in {"", "false", "0"}
  }

  // ---- Platform properties ----

  function Filter(s: seq<Pair>, drop: set<string>): seq<Pair>
  {
    if s == [] then []
    else Filter(s[..|s| - 1], drop) + if s[|s| - 1].name in drop then [] else [s[|s| - 1]]
  }

  predicate Matches(p: Pair, op: Op)
    requires op.MapPlatform?
  {
    p.name == op.property && p.value in op.replacements
  }

  function Mapped(s: seq<Pair>, op: Op): seq<Pair>
    requires op.MapPlatform?
  {
    seq(|s|, i requires 0 <= i < |s| =>
      if Matches(s[i], op) then Pair(s[i].name, op.replacements[s[i].value]) else s[i])
  }

  predicate AnyMatch(s: seq<Pair>, op: Op)
    requires op.MapPlatform?
  {
    exists i :: 0 <= i < |s| && Matches(s[i], op)
  }

  /** Additions are rendered one after the other, each seeing the ones before. */
  function Added(view: View, add: seq<Addition>): Option<seq<Pair>>
  {
    if add == [] then Some(view.platform)
    else
      var (init, last) := (add[..|add| - 1], add[|add| - 1]);
      match Added(view, init)
      case None => None
      case Some(done) =>
        match last.value(view.(platform := done))
        case None => None
        case Some(value) => Some(done + [Pair(last.name, value)])
  }

  // ---- Commands ----

  /** The arguments that the templates give, those that render empty left out. */
  function Rendered(templates: seq<Template>, view: View): Option<seq<string>>
  {
    if templates == [] then Some([])
    else
      match (Rendered(templates[..|templates| - 1], view), templates[|templates| - 1](view))
      case (Some(args), Some(value)) => Some(if value == "" then args else args + [value])
      case _ => None
  }

  /** The assigned variables in some order. */
  ghost predicate Assigned(added: seq<Pair>, assign: map<string, Template>, view: View)
  {
    && NamesDistinct(added, PairName)
    && (forall p :: p in added <==> p.name in assign && assign[p.name](view) == Some(p.value))
    && (forall name :: name in assign ==> assign[name](view).Some?)
  }

  function PairName(p: Pair): string { p.name }

  // ---- What an operation does ----

  ghost predicate Applies(op: Op, env: Env, s: State, s': State)
  {
    var view := ViewOf(s, env);
    match op
    case AssertPlatform(property, accepts) => accepts(Get(view.platform, property)) && s' == s
    case MapPlatform(_, _) =>
      s' == if s.platform.None? then s
            else s.(platform := Some(Mapped(view.platform, op)),
                    platformChanged := s.platformChanged || AnyMatch(view.platform, op))
    case EditPlatform(remove, add) =>
      var added := Added(view.(platform := Filter(view.platform, remove)), add);
      added.Some? && s' == s.(platform := added, platformChanged := true)
    case EditCommand(prepend, append) =>
      var (before, after) := (Rendered(prepend, view), Rendered(append, view));
      s.command.Some? && before.Some? && after.Some? &&
      var arguments := before.value + s.command.value.arguments + after.value;
      s' == s.(command := Some(s.command.value.(arguments := arguments)), commandChanged := true)
    case EditEnvironment(remove, assign) =>
      s.command.Some? &&
      (exists added :: Assigned(added, assign, view) &&
        s' == WithEnvironment(s, Filter(s.command.value.environment, remove + assign.Keys) + added))
    case MergeDockerRoot(imageRef) =>
      s.command.Some? && MergesImage(imageRef(view), env, s, s') &&
      var workingDirectory := MergeRoot.BAZEL_INPUT_ROOT + "/" + s.command.value.workingDirectory;
      s'.command == Some(s.command.value.(workingDirectory := workingDirectory))
    case Conditional(condition, inner) =>
      var out := condition(view);
      out.Some? && if Truthy(out.value) then Applies(inner, env, s, s') else s' == s
  }

  function WithEnvironment(s: State, environment: seq<Pair>): State
    requires s.command.Some?
  {
    s.(command := Some(s.command.value.(environment := environment)), commandChanged := true)
  }

  ghost predicate MergesImage(ref: Option<string>, env: Env, s: State, s': State)
  {
    && ref.Some? && ref.value != "" && env.lookup(ref.value, s.cas).Some?
    && var found := env.lookup(ref.value, s.cas).value;
    && MergeRoot.MergeStored(found.cas, env.hash, found.root, s.inputRoot, s'.cas, s'.inputRoot)
    && s' == s.(inputRoot := s'.inputRoot, cas := s'.cas, command := s'.command, commandChanged := true)
  }

  /** Whether an operation succeeds; anything else aborts the pipeline. */
  ghost predicate Succeeds(op: Op, env: Env, s: State)
  {
    var view := ViewOf(s, env);
    match op
    case AssertPlatform(property, accepts) => accepts(Get(view.platform, property))
    case MapPlatform(_, _) => true
    case EditPlatform(remove, add) => Added(view.(platform := Filter(view.platform, remove)), add).Some?
    case EditCommand(prepend, append) =>
      s.command.Some? && Rendered(prepend, view).Some? && Rendered(append, view).Some?
    case EditEnvironment(_, assign) => s.command.Some? && forall name :: name in assign ==> assign[name](view).Some?
    case MergeDockerRoot(imageRef) =>
      var ref := imageRef(view);
      && s.command.Some? && ref.Some? && ref.value != "" && env.lookup(ref.value, s.cas).Some?
      && var Found(image, cas) := env.lookup(ref.value, s.cas).value;
      Readable(cas, image) && !MergeRoot.ContainsName(cas[image].dir, MergeRoot.BAZEL_INPUT_ROOT)
    case Conditional(condition, inner) =>
      var out := condition(view);
      out.Some? && (Truthy(out.value) ==> Succeeds(inner, env, s))
  }

  // ---- Runs ----

  /** States t[0], t[1], ... that the operations lead through. */
  ghost predicate Run(ops: seq<Op>, env: Env, t: seq<State>)
  {
    |t| == |ops| + 1 && forall i :: 0 <= i < |ops| ==> Steps(ops, env, t, i)
  }

  ghost predicate Steps(ops: seq<Op>, env: Env, t: seq<State>, i: nat)
    requires i < |ops| && i + 1 < |t|
  {
    Applies(ops[i], env, t[i], t[i + 1])
  }

  // ---- argv ----

  /** What an operation puts before (or after) the arguments. */
  function Wrap(op: Op, env: Env, s: State, before: bool): seq<string>
  {
    match op
    case EditCommand(prepend, append) =>
      var args := Rendered(if before then prepend else append, ViewOf(s, env));
      if args.Some? then args.value else []
    case Conditional(condition, inner) =>
      var out := condition(ViewOf(s, env));
      if out.Some? && Truthy(out.value) then Wrap(inner, env, s, before) else []
    case _ => []
  }

  function Prepends(ops: seq<Op>, env: Env, t: seq<State>, n: nat): seq<string>
    requires n <= |ops| <= |t|
  {
    if n == 0 then [] else Wrap(ops[n - 1], env, t[n - 1], true) + Prepends(ops, env, t, n - 1)
  }

  function Appends(ops: seq<Op>, env: Env, t: seq<State>, n: nat): seq<string>
    requires n <= |ops| <= |t|
  {
    if n == 0 then [] else Appends(ops, env, t, n - 1) + Wrap(ops[n - 1], env, t[n - 1], false)
  }

  lemma {:induction false} WrapStep(op: Op, env: Env, s: State, s': State)
    requires Applies(op, env, s, s')
    ensures s'.command.Some? <==> s.command.Some?
    ensures s.command.Some? ==>
              s'.command.value.arguments == Wrap(op, env, s, true) + s.command.value.arguments + Wrap(op, env, s, false)
  {
    if op.Conditional? && Truthy(op.condition(ViewOf(s, env)).value) {
      WrapStep(op.op, env, s, s');
    }
  }

  lemma {:induction false} RenderedNonEmpty(templates: seq<Template>, view: View)
    requires Rendered(templates, view).Some?
    ensures "" !in Rendered(templates, view).value
  {
    if templates != [] {
      RenderedNonEmpty(templates[..|templates| - 1], view);
    }
  }

  lemma {:induction false} WrapNonEmpty(op: Op, env: Env, s: State, before: bool)
    ensures "" !in Wrap(op, env, s, before)
  {
    match op
    case EditCommand(prepend, append) =>
      var templates := if before then prepend else append;
      if Rendered(templates, ViewOf(s, env)).Some? {
        RenderedNonEmpty(templates, ViewOf(s, env));
      }
    case Conditional(condition, inner) => WrapNonEmpty(inner, env, s, before);
    case _ =>
  }

  /** After any list of operations argv is the non-empty prepends, later
      operations outermost, the original argv verbatim, then the appends. */
  lemma {:induction false} ArgvIsWrapped(ops: seq<Op>, env: Env, t: seq<State>, n: nat)
    requires Run(ops, env, t) && n <= |ops| && t[0].command.Some?
    ensures t[n].command.Some?
    ensures t[n].command.value.arguments ==
            Prepends(ops, env, t, n) + t[0].command.value.arguments + Appends(ops, env, t, n)
    ensures "" !in Prepends(ops, env, t, n) && "" !in Appends(ops, env, t, n)
  {
    if n > 0 {
      ArgvIsWrapped(ops, env, t, n - 1);
      assert Steps(ops, env, t, n - 1);
      WrapStep(ops[n - 1], env, t[n - 1], t[n]);
      WrapNonEmpty(ops[n - 1], env, t[n - 1], true);
      WrapNonEmpty(ops[n - 1], env, t[n - 1], false);
      Regroup(Wrap(ops[n - 1], env, t[n - 1], true), Prepends(ops, env, t, n - 1), t[0].command.value.arguments,
              Appends(ops, env, t, n - 1), Wrap(ops[n - 1], env, t[n - 1], false));
    }
  }

  lemma Regroup(a: seq<string>, b: seq<string>, c: seq<string>, d: seq<string>, e: seq<string>)
    ensures a + (b + c + d) + e == (a + b) + c + (d + e)
  {
  }

  // ---- Change flags ----

  /** Flags are never cleared; what is not flagged has not changed. */
  ghost predicate FlagsSound(s: State, s': State)
  {
    && (s.platformChanged ==> s'.platformChanged) && (s.commandChanged ==> s'.commandChanged)
    && (!s'.platformChanged ==> s'.platform == s.platform)
    && (!s'.commandChanged ==> s'.command == s.command && s'.inputRoot == s.inputRoot && s'.cas == s.cas)
  }

  lemma {:induction false} FlagStep(op: Op, env: Env, s: State, s': State)
    requires Applies(op, env, s, s')
    ensures FlagsSound(s, s')
  {
    match op
    case MapPlatform(_, _) =>
      if s.platform.Some? && !AnyMatch(s.platform.value, op) {
        assert Mapped(s.platform.value, op) == s.platform.value;
      }
    case Conditional(condition, inner) =>
      if Truthy(condition(ViewOf(s, env)).value) {
        FlagStep(inner, env, s, s');
      }
    case _ =>
  }

  lemma {:induction false} FlagsAreSound(ops: seq<Op>, env: Env, t: seq<State>, n: nat)
    requires Run(ops, env, t) && n <= |ops|
    ensures FlagsSound(t[0], t[n])
  {
    if n > 0 {
      FlagsAreSound(ops, env, t, n - 1);
      assert Steps(ops, env, t, n - 1);
      FlagStep(ops[n - 1], env, t[n - 1], t[n]);
    }
  }

  // ---- Input roots ----

  /** Whether an operation merges an image in. */
  predicate Merges(op: Op, env: Env, s: State)
  {
    match op
    case MergeDockerRoot(_) => true
    case Conditional(condition, inner) =>
      var out := condition(ViewOf(s, env));
      out.Some? && Truthy(out.value) && Merges(inner, env, s)
    case _ => false
  }

  function MergeCount(ops: seq<Op>, env: Env, t: seq<State>, n: nat): nat
    requires n <= |ops| <= |t|
  {
    if n == 0 then 0
    else MergeCount(ops, env, t, n - 1) + if Merges(ops[n - 1], env, t[n - 1]) then 1 else 0
  }

  /** Path p inside k nested input roots. */
  function Nested(k: nat, p: Path): Path
  {
    if k == 0 then p else [MergeRoot.BAZEL_INPUT_ROOT] + Nested(k - 1, p)
  }

  function NestedText(k: nat, dir: string): string
  {
    if k == 0 then dir else MergeRoot.BAZEL_INPUT_ROOT + "/" + NestedText(k - 1, dir)
  }

  /** A lookup may upload the image; it never loses anything. */
  ghost predicate LookupsGrow(env: Env)
  {
    Injective(env.hash) && forall ref, cas :: Sound(cas, env.hash) ==> Grows(env, env.lookup(ref, cas), cas)
  }

  ghost predicate Grows(env: Env, found: Option<Found>, cas: Cas)
  {
    found.Some? ==> Sound(found.value.cas, env.hash) && Extends(cas, found.value.cas)
  }

  lemma {:induction false} MergeStep(op: Op, env: Env, s: State, s': State, larger: Cas, p: Path, node: Node)
    requires Applies(op, env, s, s') && LookupsGrow(env) && Sound(s.cas, env.hash) && Extends(s'.cas, larger)
    ensures Sound(s'.cas, env.hash) && Extends(s.cas, larger)
    ensures if Merges(op, env, s)
            then Resolves(larger, s'.inputRoot, [MergeRoot.BAZEL_INPUT_ROOT] + p, node) <==>
              Resolves(larger, s.inputRoot, p, node)
            else s'.inputRoot == s.inputRoot
    ensures s.command.Some? && s'.command.Some? ==>
              s'.command.value.workingDirectory ==
                NestedText(if Merges(op, env, s) then 1 else 0, s.command.value.workingDirectory)
  {
    match op
    case MergeDockerRoot(imageRef) =>
      var found := env.lookup(imageRef(ViewOf(s, env)).value, s.cas);
      assert Grows(env, found, s.cas);
      var Found(image, cas) := found.value;
      MergeRoot.MergeExtends(cas, env.hash, image, s.inputRoot, s'.cas, s'.inputRoot);
      MergeRoot.MergeNests(cas, env.hash, image, s.inputRoot, s'.cas, s'.inputRoot, larger, p, node);
      assert NestedText(0, s.command.value.workingDirectory) == s.command.value.workingDirectory;
    case Conditional(condition, inner) =>
      if Truthy(condition(ViewOf(s, env)).value) {
        MergeStep(inner, env, s, s', larger, p, node);
      }
    case _ =>
  }

  /** Every path of the original input root is still there, as many levels down
      as images were merged, and the working directory has moved along. */
  lemma {:induction false} InputRootIsNested(ops: seq<Op>, env: Env, t: seq<State>, n: nat, larger: Cas, p: Path,
                                             node: Node)
    requires Run(ops, env, t) && n <= |ops| && LookupsGrow(env) && Sound(t[0].cas, env.hash)
    requires Extends(t[n].cas, larger)
    ensures Sound(t[n].cas, env.hash)
    ensures Resolves(larger, t[n].inputRoot, Nested(MergeCount(ops, env, t, n), p), node) <==>
              Resolves(larger, t[0].inputRoot, p, node)
    ensures t[0].command.Some? <==> t[n].command.Some?
    ensures t[0].command.Some? ==>
              t[n].command.value.workingDirectory ==
                NestedText(MergeCount(ops, env, t, n), t[0].command.value.workingDirectory)
  {
    if n > 0 {
      var (op, s, s', k) := (ops[n - 1], t[n - 1], t[n], MergeCount(ops, env, t, n - 1));
      assert Steps(ops, env, t, n - 1);
      StoreGrows(ops, env, t, n - 1);
      MergeStep(op, env, s, s', larger, Nested(k, p), node);
      WrapStep(op, env, s, s');
      InputRootIsNested(ops, env, t, n - 1, larger, p, node);
    }
  }

  /** The stores only grow. */
  lemma {:induction false} StoreGrows(ops: seq<Op>, env: Env, t: seq<State>, n: nat)
    requires Run(ops, env, t) && n <= |ops| && LookupsGrow(env) && Sound(t[0].cas, env.hash)
    ensures Sound(t[n].cas, env.hash) && Extends(t[0].cas, t[n].cas)
  {
    if n > 0 {
      StoreGrows(ops, env, t, n - 1);
      assert Steps(ops, env, t, n - 1);
      MergeStep(ops[n - 1], env, t[n - 1], t[n], t[n].cas, [], LinkAt(""));
    }
  }

  /** As the store grows from `base`, the image roots that lookups find are
      complete in the store they leave. */
  ghost predicate ImagesComplete(env: Env, base: Cas)
  {
    forall ref, cas :: Sound(cas, env.hash) && Extends(base, cas) ==> FindsComplete(env.lookup(ref, cas))
  }

  ghost predicate FindsComplete(found: Option<Found>)
  {
    found.Some? ==> Complete(found.value.cas, found.value.root)
  }

  lemma {:induction false} CompleteStep(op: Op, env: Env, s: State, s': State, base: Cas)
    requires Applies(op, env, s, s') && LookupsGrow(env) && Sound(s.cas, env.hash) && Extends(base, s.cas)
    requires ImagesComplete(env, base) && Complete(s.cas, s.inputRoot)
    ensures Complete(s'.cas, s'.inputRoot)
  {
    match op
    case MergeDockerRoot(imageRef) =>
      var found := env.lookup(imageRef(ViewOf(s, env)).value, s.cas);
      assert Grows(env, found, s.cas) && FindsComplete(found);
      var Found(image, cas) := found.value;
      CompleteStays(s.cas, cas, s.inputRoot);
      MergeRoot.MergeIsComplete(cas, env.hash, image, s.inputRoot, s'.cas, s'.inputRoot);
    case Conditional(condition, inner) =>
      if Truthy(condition(ViewOf(s, env)).value) {
        CompleteStep(inner, env, s, s', base);
      }
    case _ =>
  }

  /** A complete input root stays complete, whatever is merged. */
  lemma {:induction false} InputRootStaysComplete(ops: seq<Op>, env: Env, t: seq<State>, n: nat)
    requires Run(ops, env, t) && n <= |ops| && LookupsGrow(env) && Sound(t[0].cas, env.hash)
    requires ImagesComplete(env, t[0].cas) && Complete(t[0].cas, t[0].inputRoot)
    ensures Complete(t[n].cas, t[n].inputRoot)
  {
    if n > 0 {
      InputRootStaysComplete(ops, env, t, n - 1);
      StoreGrows(ops, env, t, n - 1);
      assert Steps(ops, env, t, n - 1);
      CompleteStep(ops[n - 1], env, t[n - 1], t[n], t[0].cas);
    }
  }

  /** No name occurs twice in the image roots that lookups find. */
  ghost predicate ImagesUnique(env: Env, base: Cas)
  {
    forall ref, cas :: Sound(cas, env.hash) && Extends(base, cas) ==> FindsUnique(env.lookup(ref, cas))
  }

  ghost predicate FindsUnique(found: Option<Found>)
  {
    found.Some? && Readable(found.value.cas, found.value.root) ==> UniqueNames(found.value.cas[found.value.root].dir)
  }

  lemma {:induction false} SameRootStep(op: Op, env: Env, s: State, s': State, u: State, u': State, base: Cas)
    requires Alike(s, u) && Applies(op, env, s, s') && Applies(op, env, u, u')
    requires s.cas == u.cas && s.inputRoot == u.inputRoot && Sound(s.cas, env.hash)
    requires ImagesUnique(env, base) && Extends(base, s.cas)
    ensures s'.cas == u'.cas && s'.inputRoot == u'.inputRoot
  {
    var view := ViewOf(s, env);
    assert view == ViewOf(u, env);
    match op
    case MergeDockerRoot(imageRef) =>
      var found := env.lookup(imageRef(view).value, s.cas);
      assert FindsUnique(found);
      var Found(image, cas) := found.value;
      MergeRoot.MergeIsCanonical(cas, env.hash, image, s.inputRoot, s'.cas, s'.inputRoot, u'.cas, u'.inputRoot);
    case Conditional(condition, inner) =>
      if Truthy(condition(view).value) {
        SameRootStep(inner, env, s, s', u, u', base);
      }
    case _ =>
  }

  /** Then two runs agree on the input root and the store, too. */
  lemma {:induction false} RootsAreSame(ops: seq<Op>, env: Env, t: seq<State>, u: seq<State>, n: nat)
    requires Run(ops, env, t) && Run(ops, env, u) && n <= |ops| && Alike(t[0], u[0])
    requires t[0].cas == u[0].cas && t[0].inputRoot == u[0].inputRoot
    requires LookupsGrow(env) && Sound(t[0].cas, env.hash) && ImagesUnique(env, t[0].cas)
    ensures t[n].cas == u[n].cas && t[n].inputRoot == u[n].inputRoot
  {
    if n > 0 {
      RootsAreSame(ops, env, t, u, n - 1);
      RunsAreAlike(ops, env, t, u, n - 1);
      StoreGrows(ops, env, t, n - 1);
      assert Steps(ops, env, t, n - 1) && Steps(ops, env, u, n - 1);
      SameRootStep(ops[n - 1], env, t[n - 1], t[n], u[n - 1], u[n], t[0].cas);
    }
  }

  // ---- Environment variables ----

  lemma {:induction false} FilterMember(s: seq<Pair>, drop: set<string>, p: Pair)
    ensures p in Filter(s, drop) <==> p in s && p.name !in drop
  {
    if s != [] {
      var n := |s| - 1;
      FilterMember(s[..n], drop, p);
      assert s == s[..n] + [s[n]];
    }
  }

  lemma {:induction false} FilterDistinct(s: seq<Pair>, drop: set<string>)
    requires NamesDistinct(s, PairName)
    ensures NamesDistinct(Filter(s, drop), PairName)
  {
    if s != [] {
      var (init, last) := (s[..|s| - 1], s[|s| - 1]);
      FilterDistinct(init, drop);
      forall i | 0 <= i < |Filter(init, drop)|
        ensures Filter(init, drop)[i].name != last.name
      {
        FilterMember(init, drop, Filter(init, drop)[i]);
      }
    }
  }

  lemma AppendDistinct(a: seq<Pair>, b: seq<Pair>)
    requires NamesDistinct(a, PairName) && NamesDistinct(b, PairName)
    requires forall i, j :: 0 <= i < |a| && 0 <= j < |b| ==> a[i].name != b[j].name
    ensures NamesDistinct(a + b, PairName)
  {
  }

  /** Two environments with unique names and the same variables. */
  ghost predicate SameVariables(a: seq<Pair>, b: seq<Pair>)
  {
    NamesDistinct(a, PairName) && NamesDistinct(b, PairName) && forall p :: p in a <==> p in b
  }

  /** The same command up to the order of its variables. */
  ghost predicate SameCommand(a: Option<Command>, b: Option<Command>)
  {
    match (a, b)
    case (Some(c), Some(d)) =>
      c.arguments == d.arguments && c.workingDirectory == d.workingDirectory &&
        SameVariables(c.environment, d.environment)
    case _ => a == b
  }

  /** Equal in everything that templates, argv and flags depend on. */
  ghost predicate Alike(s: State, u: State)
  {
    s.platform == u.platform && SameCommand(s.command, u.command) &&
    s.platformChanged == u.platformChanged && s.commandChanged == u.commandChanged
  }

  /** After an edit, a removed variable is gone, an assigned one has its rendered
      value and no other, and the rest are as they were. */
  lemma EditedEnvironment(op: Op, env: Env, s: State, s': State, p: Pair)
    requires op.EditEnvironment? && Applies(op, env, s, s')
    ensures s.command.Some? && s'.command.Some?
    ensures p in s'.command.value.environment <==>
            if p.name in op.assign then op.assign[p.name](ViewOf(s, env)) == Some(p.value)
            else p.name !in op.remove && p in s.command.value.environment
  {
    FilterMember(s.command.value.environment, op.remove + op.assign.Keys, p);
  }

  lemma EnvironmentStep(env: seq<Pair>, env': seq<Pair>, drop: set<string>, assign: map<string, Template>, view: View,
                        added: seq<Pair>, added': seq<Pair>)
    requires SameVariables(env, env') && assign.Keys <= drop
    requires Assigned(added, assign, view) && Assigned(added', assign, view)
    ensures SameVariables(Filter(env, drop) + added, Filter(env', drop) + added')
  {
    DistinctAfter(env, drop, assign, view, added);
    DistinctAfter(env', drop, assign, view, added');
    forall p
      ensures p in Filter(env, drop) + added <==> p in Filter(env', drop) + added'
    {
      FilterMember(env, drop, p);
      FilterMember(env', drop, p);
    }
  }

  lemma DistinctAfter(env: seq<Pair>, drop: set<string>, assign: map<string, Template>, view: View, added: seq<Pair>)
    requires NamesDistinct(env, PairName) && assign.Keys <= drop && Assigned(added, assign, view)
    ensures NamesDistinct(Filter(env, drop) + added, PairName)
  {
    FilterDistinct(env, drop);
    forall i, j | 0 <= i < |Filter(env, drop)| && 0 <= j < |added|
      ensures Filter(env, drop)[i].name != added[j].name
    {
      FilterMember(env, drop, Filter(env, drop)[i]);
      assert added[j] in added;
    }
    AppendDistinct(Filter(env, drop), added);
  }

  lemma {:induction false} AlikeStep(op: Op, env: Env, s: State, s': State, u: State, u': State)
    requires Alike(s, u) && Applies(op, env, s, s') && Applies(op, env, u, u')
    ensures Alike(s', u')
  {
    assert ViewOf(s, env) == ViewOf(u, env);
    var view := ViewOf(s, env);
    match op
    case EditEnvironment(remove, assign) =>
      var drop := remove + assign.Keys;
      var added :| Assigned(added, assign, view) &&
        s' == WithEnvironment(s, Filter(s.command.value.environment, drop) + added);
      var added' :| Assigned(added', assign, view) &&
        u' == WithEnvironment(u, Filter(u.command.value.environment, drop) + added');
      EnvironmentStep(s.command.value.environment, u.command.value.environment, drop, assign, view, added, added');
    case Conditional(condition, inner) =>
      if Truthy(condition(view).value) {
        AlikeStep(inner, env, s, s', u, u');
      }
    case _ =>
  }

  /** Two runs of the same operations, with any iteration orders and any ties in
      sorting, stay alike. */
  lemma {:induction false} RunsAreAlike(ops: seq<Op>, env: Env, t: seq<State>, u: seq<State>, n: nat)
    requires Run(ops, env, t) && Run(ops, env, u) && Alike(t[0], u[0]) && n <= |ops|
    ensures Alike(t[n], u[n])
  {
    if n > 0 {
      RunsAreAlike(ops, env, t, u, n - 1);
      assert Steps(ops, env, t, n - 1) && Steps(ops, env, u, n - 1);
      AlikeStep(ops[n - 1], env, t[n - 1], t[n], u[n - 1], u[n]);
    }
  }

  // ---- Canonical results ----

  predicate PairLe(a: Pair, b: Pair)
  {
    if a.name == b.name then Text.Le(a.value, b.value) else Text.Le(a.name, b.name)
  }

  predicate VariableLe(a: Pair, b: Pair) { Text.Le(a.name, b.name) }

  lemma PairOrders()
    ensures TotalPreorder(PairLe) && TotalPreorder(VariableLe)
  {
    NameOrderIsTotal(VariableLe, PairName);
    forall a, b
      ensures PairLe(a, b) || PairLe(b, a)
    {
      Text.LessTrichotomy(a.name, b.name);
      Text.LessTrichotomy(a.value, b.value);
    }
    forall a, b, c | PairLe(a, b) && PairLe(b, c)
      ensures PairLe(a, c)
    {
      PairTransitive(a, b, c);
    }
  }

  lemma PairTransitive(a: Pair, b: Pair, c: Pair)
    requires PairLe(a, b) && PairLe(b, c)
    ensures PairLe(a, c)
  {
    if a.name == b.name == c.name {
      Text.LeTransitive(a.value, b.value, c.value);
    } else if a.name != b.name && b.name != c.name {
      Text.LeTransitive(a.name, b.name, c.name);
      Text.LessTrichotomy(a.name, b.name);
    }
  }

  ghost predicate IsSorted(s: seq<Pair>, r: seq<Pair>, le: (Pair, Pair) -> bool)
  {
    SortedBy(le, r) && multiset(r) == multiset(s)
  }

  /** Name and value decide the order of properties: one result is possible. */
  lemma PlatformOrderUnique(s: seq<Pair>, a: seq<Pair>, b: seq<Pair>)
    requires IsSorted(s, a, PairLe) && IsSorted(s, b, PairLe)
    ensures a == b
  {
    forall i, j | 0 <= i < j < |a| && PairLe(a[i], a[j]) && PairLe(a[j], a[i])
      ensures a[i] == a[j]
    {
      Text.LessTrichotomy(a[i].name, a[j].name);
      Text.LessTrichotomy(a[i].value, a[j].value);
    }
    SortedPermutationUnique(a, b, PairLe);
  }

  /** With unique names, so is the sorted environment. */
  lemma EnvironmentOrderUnique(s: seq<Pair>, s': seq<Pair>, a: seq<Pair>, b: seq<Pair>)
    requires SameVariables(s, s') && IsSorted(s, a, VariableLe) && IsSorted(s', b, VariableLe)
    ensures a == b
  {
    PermutationKeepsNames(s, a, PairName);
    PermutationKeepsNames(s', b, PairName);
    PermutationElements(s, a);
    PermutationElements(s', b);
    SameList(a, b, VariableLe, PairName);
  }
}
