/** The mutable side of the action pipeline: pipelineState and the apply methods
    that update it (pkg/actionrouter/operations.go, op_merge.go), and
    HandleAction (pkg/actionrouter/pipeline.go). */
module ActionHandling {
  import opened LayerTree
  import opened Sorting
  import opened RemoteExecution
  import opened DirTreeVerifier
  import opened Pipeline
  import opened PipelineMeaning
  import MergeRoot
  import Text

  datatype Action = Action(commandDigest: Digest, inputRoot: Digest, platform: Option<seq<Pair>>)

  function LoadCommand(cas: Cas, d: Digest): Option<Command>
  {
    if d in cas && cas[d].Stored? then Some(cas[d].command) else None
  }

  function Initial(action: Action, cas: Cas): State
  {
    State(action.platform, LoadCommand(cas, action.commandDigest), action.inputRoot, cas, false, false)
  }

  /** Removing elements in place: the survivors move to the front, in order. */
  method Compact(a: array<Pair>, drop: set<string>) returns (kept: nat)
    modifies a
    ensures kept <= a.Length && a[..kept] == Filter(old(a[..]), drop)
  {
    kept := 0;
    for n := 0 to a.Length
      invariant kept <= n
      invariant a[..kept] == Filter(old(a[..n]), drop)
      invariant a[n..] == old(a[n..])
    {
      assert old(a[..n + 1][..n]) == old(a[..n]);
      assert a[n] == old(a[n]);
      if a[n].name !in drop {
        a[kept] := a[n];
        kept := kept + 1;
      }
    }
    assert old(a[..a.Length]) == old(a[..]);
  }

  method FilterInPlace(s: seq<Pair>, drop: set<string>) returns (r: seq<Pair>)
    ensures r == Filter(s, drop)
  {
    var a := new Pair[|s|](i requires 0 <= i < |s| => s[i]);
    assert a[..] == s;
    var kept := Compact(a, drop);
    r := a[..kept];
  }

  class PipelineState {
    var action: Action
    var command: Option<Command>
    var commandLoaded: bool
    var commandChanged: bool
    var platformChanged: bool
    var cas: Cas
    const env: Env

    constructor (action: Action, cas: Cas, env: Env)
      ensures Valid() && this.action == action && this.env == env && Abs() == Initial(action, cas)
    {
      this.action, this.cas, this.env := action, cas, env;
      command, commandLoaded, commandChanged, platformChanged := None, false, false, false;
    }

    ghost predicate Valid()
      reads this
    {
      commandChanged ==> commandLoaded && command.Some?
    }

    /** The command as loaded, or as it would be loaded. */
    function Current(): Option<Command>
      reads this
    {
      if commandLoaded then command else LoadCommand(cas, action.commandDigest)
    }

    ghost function Abs(): State
      reads this
    {
      State(action.platform, Current(), action.inputRoot, cas, platformChanged, commandChanged)
    }

    method GetCommand() returns (c: Option<Command>)
      requires Valid()
      modifies this`command, this`commandLoaded
      ensures Valid() && Abs() == old(Abs())
      ensures c == old(Current()) && commandLoaded && command == c
    {
      if !commandLoaded {
        command := LoadCommand(cas, action.commandDigest);
        commandLoaded := true;
      }
      c := command;
    }

    method Render(t: Template) returns (value: Option<string>)
      ensures value == t(ViewOf(Abs(), env))
    {
      var c := Current();
      var platform := if action.platform.Some? then action.platform.value else [];
      value := t(View(platform, if c.Some? then Some(c.value.workingDirectory) else None, env.metadata));
    }

    method GetProperty(name: string) returns (value: string)
      ensures value == Get(Properties(Abs()), name)
    {
      var properties := if action.platform.Some? then action.platform.value else [];
      for n := 0 to |properties|
        invariant Get(properties, name) == Get(properties[n..], name)
      {
        if properties[n].name == name {
          return properties[n].value;
        }
      }
      value := "";
    }

    method Apply(op: Op) returns (ok: bool)
      requires Valid()
      modifies this
      ensures Valid() && action.commandDigest == old(action.commandDigest)
      ensures ok <==> Succeeds(op, env, old(Abs()))
      ensures ok ==> Applies(op, env, old(Abs()), Abs())
      decreases op
    {
      match op
      case AssertPlatform(property, accepts) =>
        var value := GetProperty(property);
        ok := accepts(value);
      case MapPlatform(_, _) =>
        ApplyMap(op);
        ok := true;
      case EditPlatform(remove, add) =>
        ok := ApplyEditPlatform(remove, add);
      case EditCommand(prepend, append) =>
        ok := ApplyEditCommand(prepend, append);
      case EditEnvironment(remove, assign) =>
        ok := ApplyEditEnvironment(remove, assign);
      case MergeDockerRoot(imageRef) =>
        ok := ApplyMerge(imageRef);
      case Conditional(condition, inner) =>
        var out := Render(condition);
        if out.None? {
          return false;
        }
        if !Truthy(out.value) {
          return true;
        }
        ok := Apply(inner);
    }

    method ApplyMap(op: Op)
      requires Valid() && op.MapPlatform?
      modifies this`action, this`platformChanged
      ensures Valid() && action.commandDigest == old(action.commandDigest)
      ensures Applies(op, env, old(Abs()), Abs())
    {
      if action.platform.None? {
        return;
      }
      var properties := action.platform.value;
      MapEnds(properties, op);
      for n := 0 to |properties|
        invariant action == old(action).(platform := Some(Mapped(properties[..n], op) + properties[n..]))
        invariant platformChanged == (old(platformChanged) || AnyMatch(properties[..n], op))
      {
        MapStep(properties, n, op);
        var property := action.platform.value[n];
        if property.name == op.property && property.value in op.replacements {
          var replaced := Pair(property.name, op.replacements[property.value]);
          action := action.(platform := Some(action.platform.value[n := replaced]));
          platformChanged := true;
        }
      }
    }

    method ApplyEditPlatform(remove: set<string>, add: seq<Addition>) returns (ok: bool)
      requires Valid()
      modifies this`action, this`platformChanged
      ensures Valid() && action.commandDigest == old(action.commandDigest)
      ensures ok <==> Succeeds(EditPlatform(remove, add), env, old(Abs()))
      ensures ok ==> Applies(EditPlatform(remove, add), env, old(Abs()), Abs())
    {
      var properties := if action.platform.Some? then action.platform.value else [];
      if remove != {} {
        properties := FilterInPlace(properties, remove);
      } else {
        FilterNothing(properties);
      }
      action := action.(platform := Some(properties));
      ghost var view := ViewOf(Abs(), env);
      for n := 0 to |add|
        invariant Valid() && action == old(action).(platform := Added(view, add[..n])) && action.platform.Some?
        invariant Current() == old(Current())
      {
        assert add[..n + 1][..n] == add[..n];
        var value := Render(add[n].value);
        if value.None? {
          AddedFails(view, add, n + 1);
          return false;
        }
        action := action.(platform := Some(action.platform.value + [Pair(add[n].name, value.value)]));
      }
      assert add[..|add|] == add;
      platformChanged := true;
      ok := true;
    }

    method RenderArguments(templates: seq<Template>) returns (args: Option<seq<string>>)
      ensures args == Rendered(templates, ViewOf(Abs(), env))
    {
      var r: seq<string> := [];
      for n := 0 to |templates|
        invariant Rendered(templates[..n], ViewOf(Abs(), env)) == Some(r)
      {
        assert templates[..n + 1][..n] == templates[..n];
        var value := Render(templates[n]);
        if value.None? {
          RenderedFails(templates, ViewOf(Abs(), env), n + 1);
          return None;
        }
        if value.value != "" {
          r := r + [value.value];
        }
      }
      assert templates[..|templates|] == templates;
      args := Some(r);
    }

    method ApplyEditCommand(prepend: seq<Template>, append: seq<Template>) returns (ok: bool)
      requires Valid()
      modifies this`command, this`commandLoaded, this`commandChanged
      ensures Valid()
      ensures ok <==> Succeeds(EditCommand(prepend, append), env, old(Abs()))
      ensures ok ==> Applies(EditCommand(prepend, append), env, old(Abs()), Abs())
    {
      var c := GetCommand();
      if c.None? {
        return false;
      }
      var before := RenderArguments(prepend);
      if before.None? {
        return false;
      }
      var after := RenderArguments(append);
      if after.None? {
        return false;
      }
      command := Some(c.value.(arguments := before.value + c.value.arguments + after.value));
      commandChanged := true;
      ok := true;
    }

    method ApplyEditEnvironment(remove: set<string>, assign: map<string, Template>) returns (ok: bool)
      requires Valid()
      modifies this`command, this`commandLoaded, this`commandChanged
      ensures Valid()
      ensures ok <==> Succeeds(EditEnvironment(remove, assign), env, old(Abs()))
      ensures ok ==> Applies(EditEnvironment(remove, assign), env, old(Abs()), Abs())
    {
      var c := GetCommand();
      if c.None? {
        return false;
      }
      var kept := FilterInPlace(c.value.environment, remove + assign.Keys);
      command := Some(c.value.(environment := kept));
      ghost var added;
      ok, added := SetVariables(assign);
      if ok {
        commandChanged := true;
        assert Abs() == WithEnvironment(old(Abs()), kept + added);
      }
    }

    /** The loop over the map of assigned variables, in whatever order. */
    method SetVariables(assign: map<string, Template>) returns (ok: bool, ghost added: seq<Pair>)
      requires commandLoaded && command.Some?
      modifies this`command
      ensures command.Some?
      ensures ok <==> forall name :: name in assign ==> assign[name](old(ViewOf(Abs(), env))).Some?
      ensures ok ==> Assigned(added, assign, old(ViewOf(Abs(), env)))
      ensures ok ==> command == Some(old(command).value.(environment := old(command).value.environment + added))
    {
      var todo := assign.Keys;
      ghost var kept := command.value.environment;
      added := [];
      while todo != {}
        invariant todo <= assign.Keys && command.Some?
        invariant command.value == old(command).value.(environment := command.value.environment)
        invariant command.value.environment == kept + added
        invariant AssignedSoFar(added, assign, old(ViewOf(Abs(), env)), todo)
      {
        var name :| name in todo;
        var value := Render(assign[name]);
        if value.None? {
          return false, added;
        }
        AssignOne(added, assign, old(ViewOf(Abs(), env)), todo, name, value.value);
        command := Some(command.value.(environment := command.value.environment + [Pair(name, value.value)]));
        added, todo := added + [Pair(name, value.value)], todo - {name};
      }
      ok := true;
    }

    method ApplyMerge(imageRef: Template) returns (ok: bool)
      requires Valid()
      modifies this
      ensures Valid() && action.commandDigest == old(action.commandDigest)
      ensures ok <==> Succeeds(MergeDockerRoot(imageRef), env, old(Abs()))
      ensures ok ==> Applies(MergeDockerRoot(imageRef), env, old(Abs()), Abs())
    {
      var ref := Render(imageRef);
      if ref.None? || ref.value == "" {
        return false;
      }
      var c := GetCommand();
      if c.None? {
        return false;
      }
      var found := env.lookup(ref.value, cas);
      if found.None? {
        return false;
      }
      cas := found.value.cas;
      var root, cas' := MergeRoot.Merge(cas, env.hash, found.value.root, action.inputRoot);
      if root.None? {
        return false;
      }
      cas := cas';
      action := action.(inputRoot := root.value);
      command := Some(c.value.(workingDirectory := MergeRoot.BAZEL_INPUT_ROOT + "/" + c.value.workingDirectory));
      commandChanged := true;
      ok := true;
    }
  }

  lemma MapEnds(s: seq<Pair>, op: Op)
    requires op.MapPlatform?
    ensures Mapped(s[..0], op) + s[0..] == s
    ensures s[..|s|] == s && Mapped(s[..|s|], op) + s[|s|..] == Mapped(s, op)
  {
    assert s[..|s|] == s && s[|s|..] == [];
  }

  lemma MapStep(s: seq<Pair>, n: nat, op: Op)
    requires op.MapPlatform? && n < |s|
    ensures var done := Mapped(s[..n], op) + s[n..];
            && done[n] == s[n]
            && (!Matches(s[n], op) ==> Mapped(s[..n + 1], op) + s[n + 1..] == done)
            && (Matches(s[n], op) ==>
              Mapped(s[..n + 1], op) + s[n + 1..] == done[n := Pair(s[n].name, op.replacements[s[n].value])])
    ensures AnyMatch(s[..n + 1], op) <==> AnyMatch(s[..n], op) || Matches(s[n], op)
  {
    var (a, b) := (s[..n], s[..n + 1]);
    assert b == a + [s[n]];
    assert Mapped(b, op) == Mapped(a, op) + [Mapped(b, op)[n]];
    assert s[n..] == [s[n]] + s[n + 1..];
    if AnyMatch(a, op) {
      var i :| 0 <= i < |a| && Matches(a[i], op);
      assert Matches(b[i], op);
    }
    assert b[n] == s[n];
  }

  lemma {:induction false} FilterNothing(s: seq<Pair>)
    ensures Filter(s, {}) == s
  {
    if s != [] {
      FilterNothing(s[..|s| - 1]);
    }
  }

  /** One addition that fails to render makes the whole operation fail. */
  lemma {:induction false} AddedFails(view: View, add: seq<Addition>, n: nat)
    requires n <= |add| && Added(view, add[..n]) == None
    ensures Added(view, add) == None
    decreases |add|
  {
    if n == |add| {
      assert add[..n] == add;
    } else {
      assert add[..|add| - 1][..n] == add[..n];
      AddedFails(view, add[..|add| - 1], n);
    }
  }

  lemma {:induction false} RenderedFails(templates: seq<Template>, view: View, n: nat)
    requires n <= |templates| && Rendered(templates[..n], view) == None
    ensures Rendered(templates, view) == None
    decreases |templates|
  {
    if n == |templates| {
      assert templates[..n] == templates;
    } else {
      assert templates[..|templates| - 1][..n] == templates[..n];
      RenderedFails(templates[..|templates| - 1], view, n);
    }
  }

  /** The loop over the assigned variables, with `todo` still to come. */
  ghost predicate AssignedSoFar(added: seq<Pair>, assign: map<string, Template>, view: View, todo: set<string>)
  {
    && NamesDistinct(added, PairName)
    && (forall p :: p in added <==> p.name in assign && p.name !in todo && assign[p.name](view) == Some(p.value))
    && (forall name :: name in assign && name !in todo ==> assign[name](view).Some?)
  }

  lemma AssignOne(added: seq<Pair>, assign: map<string, Template>, view: View, todo: set<string>, name: string,
                  value: string)
    requires AssignedSoFar(added, assign, view, todo) && name in todo && name in assign
    requires assign[name](view) == Some(value)
    ensures AssignedSoFar(added + [Pair(name, value)], assign, view, todo - {name})
  {
    assert forall i :: 0 <= i < |added| ==> added[i] in added;
  }

  lemma {:induction false} AssignedExists(assign: map<string, Template>, view: View, todo: set<string>)
    returns (added: seq<Pair>)
    requires todo <= assign.Keys && forall name :: name in assign ==> assign[name](view).Some?
    ensures AssignedSoFar(added, assign, view, assign.Keys - todo)
  {
    if todo == {} {
      added := [];
    } else {
      var name :| name in todo;
      var before := AssignedExists(assign, view, todo - {name});
      AssignOne(before, assign, view, assign.Keys - (todo - {name}), name, assign[name](view).value);
      assert assign.Keys - (todo - {name}) - {name} == assign.Keys - todo;
      added := before + [Pair(name, assign[name](view).value)];
    }
  }

  lemma MergeExists(op: Op, env: Env, s: State) returns (s': State)
    requires op.MergeDockerRoot? && Succeeds(op, env, s)
    ensures Applies(op, env, s, s')
  {
    var Found(image, cas) := env.lookup(op.imageRef(ViewOf(s, env)).value, s.cas).value;
    var dir := SortedFormExists(MergeRoot.Merged(cas[image].dir, s.inputRoot));
    var (cas', root) := (PutProto(cas, env.hash, Folder(dir)), env.hash(Folder(dir)));
    assert MergeRoot.StoredAs(cas, env.hash, dir, cas', root);
    var workingDirectory := MergeRoot.BAZEL_INPUT_ROOT + "/" + s.command.value.workingDirectory;
    var command := Some(s.command.value.(workingDirectory := workingDirectory));
    s' := s.(inputRoot := root, cas := cas', command := command, commandChanged := true);
  }

  /** An operation succeeds exactly if it has a result. */
  lemma {:induction false} SucceedsIff(op: Op, env: Env, s: State)
    ensures Succeeds(op, env, s) <==> exists s' :: Applies(op, env, s, s')
  {
    if s' :| Applies(op, env, s, s') {
      OnlyIfSucceeds(op, env, s, s');
    }
    if Succeeds(op, env, s) {
      var s' := ResultExists(op, env, s);
      assert Applies(op, env, s, s');
    }
  }

  lemma {:induction false} OnlyIfSucceeds(op: Op, env: Env, s: State, s': State)
    requires Applies(op, env, s, s')
    ensures Succeeds(op, env, s)
  {
    if op.Conditional? && Truthy(op.condition(ViewOf(s, env)).value) {
      OnlyIfSucceeds(op.op, env, s, s');
    }
  }

  lemma {:induction false} ResultExists(op: Op, env: Env, s: State) returns (s': State)
    requires Succeeds(op, env, s)
    ensures Applies(op, env, s, s')
  {
    var view := ViewOf(s, env);
    s' := s;
    match op
    case AssertPlatform(_, _) =>
    case MapPlatform(_, _) =>
      if s.platform.Some? {
        s' := s.(platform := Some(Mapped(view.platform, op)),
                 platformChanged := s.platformChanged || AnyMatch(view.platform, op));
      }
    case EditPlatform(remove, add) =>
      s' := s.(platform := Added(view.(platform := Filter(view.platform, remove)), add), platformChanged := true);
    case EditCommand(prepend, append) =>
      var arguments := Rendered(prepend, view).value + s.command.value.arguments + Rendered(append, view).value;
      s' := s.(command := Some(s.command.value.(arguments := arguments)), commandChanged := true);
    case EditEnvironment(remove, assign) =>
      var added := AssignedExists(assign, view, assign.Keys);
      assert Assigned(added, assign, view);
      s' := WithEnvironment(s, Filter(s.command.value.environment, remove + assign.Keys) + added);
    case MergeDockerRoot(_) => s' := MergeExists(op, env, s);
    case Conditional(condition, inner) =>
      if Truthy(condition(view).value) {
        s' := ResultExists(inner, env, s);
      }
  }

  // ---- HandleAction ----

  /** The rewritten action, given the state after the last operation. */
  ghost predicate Finished(s: State, action: Action, env: Env, r: Action, cas: Cas)
  {
    && r.inputRoot == s.inputRoot
    && (if s.platformChanged && s.platform.Some?
        then r.platform.Some? && IsSorted(s.platform.value, r.platform.value, PairLe)
        else r.platform == s.platform)
    && (if s.commandChanged then s.command.Some? && StoresCommand(s, env, r.commandDigest, cas)
        else r.commandDigest == action.commandDigest && cas == s.cas)
  }

  /** The final command, its environment sorted, is stored under the digest. */
  ghost predicate StoresCommand(s: State, env: Env, d: Digest, cas: Cas)
    requires s.command.Some?
  {
    exists sorted :: IsSorted(s.command.value.environment, sorted, VariableLe) &&
                     CommandStored(s.command.value.(environment := sorted), env, d, s.cas, cas)
  }

  ghost predicate CommandStored(command: Command, env: Env, d: Digest, cas: Cas, cas': Cas)
  {
    d == env.hash(Stored(command)) && cas' == PutProto(cas, env.hash, Stored(command))
  }

  /** The operations run until one fails. */
  ghost predicate Aborts(ops: seq<Op>, env: Env, s: State)
  {
    exists n, t :: 0 <= n < |ops| && Run(ops[..n], env, t) && t[0] == s && !Succeeds(ops[n], env, t[n])
  }

  ghost predicate Completes(ops: seq<Op>, action: Action, env: Env, cas: Cas, r: Action, cas': Cas)
  {
    exists t :: Run(ops, env, t) && t[0] == Initial(action, cas) && Finished(t[|ops|], action, env, r, cas')
  }

  lemma RunSnoc(ops: seq<Op>, env: Env, t: seq<State>, n: nat, s: State)
    requires n < |ops| && Run(ops[..n], env, t) && Applies(ops[n], env, t[n], s)
    ensures Run(ops[..n + 1], env, t + [s])
  {
    var (more, u) := (ops[..n + 1], t + [s]);
    forall i | 0 <= i < |more|
      ensures Steps(more, env, u, i)
    {
      if i < n {
        assert Steps(ops[..n], env, t, i);
        assert u[i] == t[i] && u[i + 1] == t[i + 1] && more[i] == ops[..n][i];
      }
    }
  }

  method HandleAction(action: Action, condition: Option<Template>, ops: seq<Op>, env: Env, cas: Cas)
    returns (r: Option<Action>, cas': Cas)
    ensures var out := if condition.Some? then condition.value(ViewOf(Initial(action, cas), env)) else Some("true");
            && (out.None? ==> r.None?)
            && (out.Some? && !Truthy(out.value) ==> r == Some(action) && cas' == cas)
            && (out.Some? && Truthy(out.value) ==>
                  if r.Some? then Completes(ops, action, env, cas, r.value, cas')
                  else Aborts(ops, env, Initial(action, cas)))
  {
    cas' := cas;
    var s := new PipelineState(action, cas, env);
    if condition.Some? {
      var out := s.Render(condition.value);
      if out.None? {
        return None, cas;
      }
      if !Truthy(out.value) {
        return Some(action), cas;
      }
    } else {
      AlwaysTruthy();
    }
    ghost var t := [s.Abs()];
    for n := 0 to |ops|
      invariant s.Valid() && s.env == env && s.action.commandDigest == action.commandDigest
      invariant Run(ops[..n], env, t) && t[0] == Initial(action, cas) && t[n] == s.Abs()
    {
      var ok := s.Apply(ops[n]);
      if !ok {
        assert Aborts(ops, env, Initial(action, cas));
        return None, s.cas;
      }
      RunSnoc(ops, env, t, n, s.Abs());
      t := t + [s.Abs()];
    }
    assert ops[..|ops|] == ops;
    var result;
    result, cas' := Finish(s, action);
    assert Finished(t[|ops|], action, env, result, cas');
    r := Some(result);
  }

  /** The sorts and the store at the end of HandleAction. */
  method Finish(s: PipelineState, ghost action: Action) returns (r: Action, cas': Cas)
    requires s.Valid() && s.action.commandDigest == action.commandDigest
    ensures Finished(s.Abs(), action, s.env, r, cas')
  {
    r, cas' := s.action, s.cas;
    PairOrders();
    if s.platformChanged && r.platform.Some? {
      var properties := SortFunc(r.platform.value, PairLe);
      r := r.(platform := Some(properties));
    }
    if s.commandChanged {
      var sorted := SortFunc(s.command.value.environment, VariableLe);
      var command := s.command.value.(environment := sorted);
      cas' := PutProto(s.cas, s.env.hash, Stored(command));
      r := r.(commandDigest := s.env.hash(Stored(command)));
      assert CommandStored(command, s.env, r.commandDigest, s.cas, cas');
    }
  }

  // ---- What the result is ----

  /** What an action says has changed, has: nothing flagged means nothing new,
      and a new command digest names a stored command whose variables are sorted
      and whose argv is the original one, wrapped. */
  lemma OutputIsSound(ops: seq<Op>, action: Action, env: Env, cas: Cas, t: seq<State>, r: Action, cas': Cas)
    requires Run(ops, env, t) && t[0] == Initial(action, cas) && Finished(t[|ops|], action, env, r, cas')
    ensures !t[|ops|].platformChanged ==> r.platform == action.platform
    ensures t[|ops|].platformChanged ==>
              && t[|ops|].platform.Some? && r.platform.Some?
              && multiset(r.platform.value) == multiset(t[|ops|].platform.value)
              && forall i, j :: 0 <= i < j < |r.platform.value| ==>
                   InPlatformOrder(r.platform.value[i], r.platform.value[j])
    ensures r.inputRoot == t[|ops|].inputRoot
    ensures !t[|ops|].commandChanged ==>
              r.commandDigest == action.commandDigest && r.inputRoot == action.inputRoot && cas' == cas
    ensures t[|ops|].commandChanged ==>
              && t[0].command.Some? && LoadCommand(cas', r.commandDigest).Some?
              && var (original, final) := (t[0].command.value, LoadCommand(cas', r.commandDigest).value);
              && multiset(final.environment) == multiset(t[|ops|].command.value.environment)
              && (forall i, j :: 0 <= i < j < |final.environment| ==>
                    !Text.Less(final.environment[j].name, final.environment[i].name))
              && final.workingDirectory == t[|ops|].command.value.workingDirectory
              && r.commandDigest == env.hash(Stored(final)) && cas' == t[|ops|].cas[r.commandDigest := Stored(final)]
              && final.arguments == Prepends(ops, env, t, |ops|) + original.arguments + Appends(ops, env, t, |ops|)
  {
    FlagsAreSound(ops, env, t, |ops|);
    ChangedPlatformIsThere(ops, env, t, |ops|);
    if t[|ops|].platformChanged {
      PlatformOrder(r.platform.value);
    }
    if t[|ops|].commandChanged {
      CommandStaysLoaded(ops, env, t, |ops|);
      ArgvIsWrapped(ops, env, t, |ops|);
    }
  }

  lemma {:induction false} ChangedStep(op: Op, env: Env, s: State, s': State)
    requires Applies(op, env, s, s') && (s.platformChanged ==> s.platform.Some?)
    ensures s'.platformChanged ==> s'.platform.Some?
  {
    if op.Conditional? && Truthy(op.condition(ViewOf(s, env)).value) {
      ChangedStep(op.op, env, s, s');
    }
  }

  lemma {:induction false} ChangedPlatformIsThere(ops: seq<Op>, env: Env, t: seq<State>, n: nat)
    requires Run(ops, env, t) && n <= |ops| && !t[0].platformChanged
    ensures t[n].platformChanged ==> t[n].platform.Some?
  {
    if n > 0 {
      ChangedPlatformIsThere(ops, env, t, n - 1);
      assert Steps(ops, env, t, n - 1);
      ChangedStep(ops[n - 1], env, t[n - 1], t[n]);
    }
  }

  lemma {:induction false} CommandStaysLoaded(ops: seq<Op>, env: Env, t: seq<State>, n: nat)
    requires Run(ops, env, t) && n <= |ops|
    ensures t[n].command.Some? <==> t[0].command.Some?
  {
    if n > 0 {
      CommandStaysLoaded(ops, env, t, n - 1);
      assert Steps(ops, env, t, n - 1);
      WrapStep(ops[n - 1], env, t[n - 1], t[n]);
    }
  }

  /** With unique variable names in the input, the platform and the command
      digest of the result do not depend on any iteration order. */
  lemma OutputIsDeterministic(ops: seq<Op>, action: Action, env: Env, cas: Cas, r: Action, cas': Cas, u: Action,
                              cas'': Cas)
    requires Completes(ops, action, env, cas, r, cas') && Completes(ops, action, env, cas, u, cas'')
    requires LoadCommand(cas, action.commandDigest).Some? ==>
               NamesDistinct(LoadCommand(cas, action.commandDigest).value.environment, PairName)
    ensures r.platform == u.platform && r.commandDigest == u.commandDigest
  {
    var a: seq<State> :| Run(ops, env, a) && a[0] == Initial(action, cas) && Finished(a[|ops|], action, env, r, cas');
    var b: seq<State> :| Run(ops, env, b) && b[0] == Initial(action, cas) && Finished(b[|ops|], action, env, u, cas'');
    RunsAreAlike(ops, env, a, b, |ops|);
    var (s: State, s': State) := (a[|ops|], b[|ops|]);
    if s.platformChanged && s.platform.Some? {
      PlatformOrderUnique(s.platform.value, r.platform.value, u.platform.value);
    }
    if s.commandChanged {
      SameDigest(s, s', env, r.commandDigest, cas', u.commandDigest, cas'');
    }
  }

  /** If the image roots, too, have unique names, the whole action and all that is
      stored are the same. */
  lemma WholeOutputIsDeterministic(ops: seq<Op>, action: Action, env: Env, cas: Cas, r: Action, cas': Cas, u: Action,
                                   cas'': Cas)
    requires Completes(ops, action, env, cas, r, cas') && Completes(ops, action, env, cas, u, cas'')
    requires LoadCommand(cas, action.commandDigest).Some? ==>
               NamesDistinct(LoadCommand(cas, action.commandDigest).value.environment, PairName)
    requires LookupsGrow(env) && Sound(cas, env.hash) && ImagesUnique(env, cas)
    ensures r == u && cas' == cas''
  {
    OutputIsDeterministic(ops, action, env, cas, r, cas', u, cas'');
    var a: seq<State> :| Run(ops, env, a) && a[0] == Initial(action, cas) && Finished(a[|ops|], action, env, r, cas');
    var b: seq<State> :| Run(ops, env, b) && b[0] == Initial(action, cas) && Finished(b[|ops|], action, env, u, cas'');
    RunsAreAlike(ops, env, a, b, |ops|);
    RootsAreSame(ops, env, a, b, |ops|);
    if a[|ops|].commandChanged {
      SameDigest(a[|ops|], b[|ops|], env, r.commandDigest, cas', u.commandDigest, cas'');
    }
  }

  /** A complete input root and complete images give an action whose input root
      is complete. */
  lemma OutputIsComplete(ops: seq<Op>, action: Action, env: Env, cas: Cas, r: Action, cas': Cas)
    requires Completes(ops, action, env, cas, r, cas') && LookupsGrow(env) && Sound(cas, env.hash)
    requires ImagesComplete(env, cas) && Complete(cas, action.inputRoot)
    ensures Complete(cas', r.inputRoot)
  {
    var t: seq<State> :| Run(ops, env, t) && t[0] == Initial(action, cas) && Finished(t[|ops|], action, env, r, cas');
    var s := t[|ops|];
    InputRootStaysComplete(ops, env, t, |ops|);
    StoreGrows(ops, env, t, |ops|);
    if s.commandChanged {
      var sorted :| IsSorted(s.command.value.environment, sorted, VariableLe) &&
                    CommandStored(s.command.value.(environment := sorted), env, r.commandDigest, s.cas, cas');
      PutExtends(s.cas, env.hash, Stored(s.command.value.(environment := sorted)));
    }
    CompleteStays(s.cas, cas', s.inputRoot);
  }

  lemma SameDigest(s: State, s': State, env: Env, d: Digest, cas: Cas, d': Digest, cas': Cas)
    requires s.command.Some? && s'.command.Some? && SameCommand(s.command, s'.command)
    requires StoresCommand(s, env, d, cas) && StoresCommand(s', env, d', cas')
    ensures d == d' && (s.cas == s'.cas ==> cas == cas')
  {
    var (c, c') := (s.command.value, s'.command.value);
    var sorted :| IsSorted(c.environment, sorted, VariableLe) &&
      CommandStored(c.(environment := sorted), env, d, s.cas, cas);
    var sorted' :| IsSorted(c'.environment, sorted', VariableLe) &&
      CommandStored(c'.(environment := sorted'), env, d', s'.cas, cas');
    EnvironmentOrderUnique(c.environment, c'.environment, sorted, sorted');
  }
}
