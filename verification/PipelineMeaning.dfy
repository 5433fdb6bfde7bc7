/** What the operations of the pipeline mean for an action, position by position
    and without the functions that compute it
    (pkg/actionrouter/operations.go and pipeline.go). */
module PipelineMeaning {
  import opened LayerTree
  import opened Sorting
  import opened RemoteExecution
  import opened Pipeline
  import MergeRoot
  import Text

  // ---- Positions kept ----

  /** r is the pairs whose names are not dropped, in their order. */
  ghost predicate KeptAt(s: seq<Pair>, drop: set<string>, r: seq<Pair>, at: seq<nat>)
  {
    && Rising(|s|, at) && |at| == |r|
    && (forall i :: 0 <= i < |r| ==> r[i] == s[at[i]] && r[i].name !in drop)
    && (forall j {:trigger Chosen(at, j)} :: 0 <= j < |s| && s[j].name !in drop ==> Chosen(at, j))
  }

  ghost predicate KeptInOrder(s: seq<Pair>, drop: set<string>, r: seq<Pair>)
  {
    exists at :: KeptAt(s, drop, r, at)
  }

  lemma {:induction false} FilterKeepsInOrder(s: seq<Pair>, drop: set<string>)
    ensures KeptInOrder(s, drop, Filter(s, drop))
  {
    if s == [] {
      assert KeptAt(s, drop, [], []);
    } else {
      var n := |s| - 1;
      FilterKeepsInOrder(s[..n], drop);
      var at :| KeptAt(s[..n], drop, Filter(s[..n], drop), at);
      assert s == s[..n] + [s[n]];
      KeptOneMore(s[..n], drop, Filter(s[..n], drop), at, s[n]);
      assert s[n].name in drop ==> Filter(s, drop) == Filter(s[..n], drop);
    }
  }

  lemma KeptOneMore(s: seq<Pair>, drop: set<string>, r: seq<Pair>, at: seq<nat>, p: Pair)
    requires KeptAt(s, drop, r, at)
    ensures p.name in drop ==> KeptAt(s + [p], drop, r, at)
    ensures p.name !in drop ==> KeptAt(s + [p], drop, r + [p], at + [|s|])
  {
    var (s', at') := (s + [p], at + [|s|]);
    assert at'[|at|] == |s|;
    forall j | 0 <= j < |s'| && s'[j].name !in drop
      ensures Chosen(at', j) && (p.name in drop ==> Chosen(at, j))
    {
      assert j < |s| ==> s'[j] == s[j] && Chosen(at, j);
    }
  }

  // ---- Platform properties ----

  /** The additions follow what was kept, each with its own name and with the
      value that its template gives when all before it are in place. */
  ghost predicate AddedAfter(kept: seq<Pair>, add: seq<Addition>, view: View, r: seq<Pair>)
  {
    && |r| == |kept| + |add| && r[..|kept|] == kept
    && forall i :: 0 <= i < |add| ==> AddedAt(kept, add, view, r, i)
  }

  ghost predicate AddedAt(kept: seq<Pair>, add: seq<Addition>, view: View, r: seq<Pair>, i: nat)
    requires i < |add| && |kept| + i < |r|
  {
    && r[|kept| + i].name == add[i].name
    && add[i].value(view.(platform := r[..|kept| + i])) == Some(r[|kept| + i].value)
  }

  lemma {:induction false} AddedInOrder(view: View, add: seq<Addition>)
    requires Added(view, add).Some?
    ensures AddedAfter(view.platform, add, view, Added(view, add).value)
  {
    var (kept, r) := (view.platform, Added(view, add).value);
    if add == [] {
      assert r[..|kept|] == kept;
    } else {
      var (n, done) := (|add| - 1, Added(view, add[..|add| - 1]).value);
      AddedInOrder(view, add[..n]);
      assert r[..|done|] == done && r[..|kept|] == done[..|kept|];
      forall i | 0 <= i < |add|
        ensures AddedAt(kept, add, view, r, i)
      {
        if i < n {
          assert AddedAt(kept, add[..n], view, done, i);
          assert r[..|kept| + i] == done[..|kept| + i];
        }
      }
    }
  }

  /** EditPlatform keeps the properties whose names are not removed, in order, and
      then has its additions. */
  lemma EditedPlatform(op: Op, env: Env, s: State, s': State) returns (kept: seq<Pair>)
    requires op.EditPlatform? && Applies(op, env, s, s')
    ensures KeptInOrder(Properties(s), op.remove, kept)
    ensures s'.platform.Some? && AddedAfter(kept, op.add, ViewOf(s, env), s'.platform.value)
    ensures s' == s.(platform := s'.platform, platformChanged := true)
  {
    var view := ViewOf(s, env);
    kept := Filter(view.platform, op.remove);
    FilterKeepsInOrder(view.platform, op.remove);
    AddedInOrder(view.(platform := kept), op.add);
    forall i | 0 <= i < |op.add|
      ensures AddedAt(kept, op.add, view, s'.platform.value, i)
    {
      assert AddedAt(kept, op.add, view.(platform := kept), s'.platform.value, i);
    }
  }

  /** MapPlatform replaces exactly the values of its property that it has a
      replacement for, in place, and raises the flag exactly if there is one. */
  lemma MappedPlatform(op: Op, env: Env, s: State, s': State)
    requires op.MapPlatform? && Applies(op, env, s, s')
    ensures |Properties(s')| == |Properties(s)|
    ensures forall i :: 0 <= i < |Properties(s)| ==>
              var (before, after) := (Properties(s)[i], Properties(s')[i]);
              && after.name == before.name
              && after.value == if before.name == op.property && before.value in op.replacements
                                then op.replacements[before.value] else before.value
    ensures s'.platformChanged <==>
            s.platformChanged || exists i :: 0 <= i < |Properties(s)| && Properties(s)[i].name == op.property &&
                                             Properties(s)[i].value in op.replacements
  {
    if AnyMatch(Properties(s), op) {
      var i :| 0 <= i < |Properties(s)| && Matches(Properties(s)[i], op);
      assert Properties(s)[i].name == op.property;
    }
    if i :| 0 <= i < |Properties(s)| && Properties(s)[i].name == op.property &&
            Properties(s)[i].value in op.replacements {
      assert Matches(Properties(s)[i], op);
    }
  }

  ghost predicate FirstAt(platform: seq<Pair>, name: string, i: nat)
    requires i < |platform|
  {
    platform[i].name == name && forall j :: 0 <= j < i ==> platform[j].name != name
  }

  /** Platform.Get gives the value of the first property of the name, or "". */
  lemma {:induction false} GetIsFirst(platform: seq<Pair>, name: string)
    ensures (forall i :: 0 <= i < |platform| ==> platform[i].name != name) ==> Get(platform, name) == ""
    ensures forall i :: 0 <= i < |platform| && FirstAt(platform, name, i) ==> Get(platform, name) == platform[i].value
  {
    if platform != [] && platform[0].name != name {
      GetIsFirst(platform[1..], name);
      assert forall i :: 0 < i < |platform| ==> platform[1..][i - 1] == platform[i];
      forall i | 0 <= i < |platform| && FirstAt(platform, name, i)
        ensures Get(platform, name) == platform[i].value
      {
        assert platform[1..][i - 1] == platform[i];
        assert forall j :: 0 <= j < i - 1 ==> platform[1..][j] == platform[j + 1];
        assert FirstAt(platform[1..], name, i - 1);
      }
    }
  }

  /** AssertPlatform changes nothing, and goes through exactly if the pattern
      accepts the first value of its property, or "" when there is none. */
  lemma AssertedPlatform(op: Op, env: Env, s: State, s': State)
    requires op.AssertPlatform?
    ensures forall i :: 0 <= i < |Properties(s)| && FirstAt(Properties(s), op.property, i) ==>
              (Applies(op, env, s, s') <==> op.accepts(Properties(s)[i].value) && s' == s)
    ensures (forall i :: 0 <= i < |Properties(s)| ==> Properties(s)[i].name != op.property) ==>
              (Applies(op, env, s, s') <==> op.accepts("") && s' == s)
  {
    GetIsFirst(Properties(s), op.property);
  }

  // ---- Input roots ----

  /** MergeDockerRoot mounts the old input root at bazel_exec_root of the image
      that its template names, and moves the working directory there. */
  lemma MergedImage(op: Op, env: Env, s: State, s': State, q: Path, node: Node)
    returns (image: Digest, workingDirectory: string)
    requires op.MergeDockerRoot? && Applies(op, env, s, s') && LookupsGrow(env) && Sound(s.cas, env.hash) && q != []
    ensures exists ref, cas :: op.imageRef(ViewOf(s, env)) == Some(ref) && ref != "" &&
                               env.lookup(ref, s.cas) == Some(Found(image, cas))
    ensures q[0] == "bazel_exec_root" ==>
              (Resolves(s'.cas, s'.inputRoot, q, node) <==> Resolves(s'.cas, s.inputRoot, q[1..], node))
    ensures q[0] != "bazel_exec_root" ==>
              (Resolves(s'.cas, s'.inputRoot, q, node) <==> Resolves(s'.cas, image, q, node))
    ensures s.command.Some? && s.command.value.workingDirectory == workingDirectory
    ensures s'.command == Some(s.command.value.(workingDirectory := "bazel_exec_root/" + workingDirectory))
    ensures s'.platform == s.platform && s'.platformChanged == s.platformChanged && s'.commandChanged
  {
    var found := env.lookup(op.imageRef(ViewOf(s, env)).value, s.cas);
    assert Grows(env, found, s.cas);
    image, workingDirectory := found.value.root, s.command.value.workingDirectory;
    MergeRoot.MergePreservesMeaning(found.value.cas, env.hash, image, s.inputRoot, s'.cas, s'.inputRoot, q, node);
    assert MergeRoot.BAZEL_INPUT_ROOT + "/" == "bazel_exec_root/";
    assert found == Some(Found(image, found.value.cas));
  }

  // ---- Commands ----

  /** args are the values of the templates that do not render empty, in order. */
  ghost predicate RenderedAt(templates: seq<Template>, view: View, args: seq<string>, at: seq<nat>)
  {
    && Rising(|templates|, at) && |at| == |args|
    && (forall i :: 0 <= i < |args| ==> args[i] != "" && templates[at[i]](view) == Some(args[i]))
    && (forall j {:trigger Chosen(at, j)} :: 0 <= j < |templates| ==> Chosen(at, j) || templates[j](view) == Some(""))
  }

  ghost predicate RenderedInOrder(templates: seq<Template>, view: View, args: seq<string>)
  {
    exists at :: RenderedAt(templates, view, args, at)
  }

  lemma {:induction false} RenderedKeepsOrder(templates: seq<Template>, view: View)
    requires Rendered(templates, view).Some?
    ensures RenderedInOrder(templates, view, Rendered(templates, view).value)
  {
    var args := Rendered(templates, view).value;
    if templates == [] {
      assert RenderedAt(templates, view, args, []);
    } else {
      var n := |templates| - 1;
      RenderedKeepsOrder(templates[..n], view);
      var at :| RenderedAt(templates[..n], view, Rendered(templates[..n], view).value, at);
      assert templates == templates[..n] + [templates[n]];
      RenderedOneMore(templates[..n], view, Rendered(templates[..n], view).value, at, templates[n]);
    }
  }

  lemma RenderedOneMore(templates: seq<Template>, view: View, args: seq<string>, at: seq<nat>, last: Template)
    requires RenderedAt(templates, view, args, at) && last(view).Some?
    ensures last(view).value == "" ==> RenderedAt(templates + [last], view, args, at)
    ensures last(view).value != "" ==>
              RenderedAt(templates + [last], view, args + [last(view).value], at + [|templates|])
  {
    var (all, at') := (templates + [last], at + [|templates|]);
    assert at'[|at|] == |templates|;
    forall j | 0 <= j < |all|
      ensures Chosen(at', j) || all[j](view) == Some("")
      ensures last(view).value == "" ==> Chosen(at, j) || all[j](view) == Some("")
    {
      assert j < |templates| ==> all[j] == templates[j] && (Chosen(at, j) || templates[j](view) == Some(""));
    }
  }

  /** EditCommand puts what its first list renders before the arguments and what
      its second list renders after them. */
  lemma EditedCommand(op: Op, env: Env, s: State, s': State) returns (before: seq<string>, after: seq<string>)
    requires op.EditCommand? && Applies(op, env, s, s')
    ensures RenderedInOrder(op.prepend, ViewOf(s, env), before) && RenderedInOrder(op.append, ViewOf(s, env), after)
    ensures s.command.Some? && s'.command.Some?
    ensures s'.command.value == s.command.value.(arguments := before + s.command.value.arguments + after)
    ensures s' == s.(command := s'.command, commandChanged := true)
  {
    var view := ViewOf(s, env);
    before, after := Rendered(op.prepend, view).value, Rendered(op.append, view).value;
    RenderedKeepsOrder(op.prepend, view);
    RenderedKeepsOrder(op.append, view);
  }

  // ---- Conditions ----

  ghost predicate Blank(s: string)
  {
    forall i :: 0 <= i < |s| ==> IsSpace(s[i])
  }

  /** s is w with nothing but white space around it. */
  ghost predicate Around(s: string, a: string, w: string, b: string)
  {
    s == a + w + b && Blank(a) && Blank(b)
  }

  /** Nothing, a zero, or "false" in any case. */
  predicate Falsy(w: string)
  {
    || w == "" || w == "0"
    || (|w| == 5 && w[0] in "fF" && w[1] in "aA" && w[2] in "lL" && w[3] in "sS" && w[4] in "eE")
  }

  lemma {:induction false} TrimIsAround(s: string) returns (a: string, b: string)
    ensures Around(s, a, TrimSpace(s), b)
  {
    if s != "" && IsSpace(s[0]) {
      var a';
      a', b := TrimIsAround(s[1..]);
      a := [s[0]] + a';
      assert s == [s[0]] + s[1..];
    } else if s != "" && IsSpace(s[|s| - 1]) {
      var b';
      a, b' := TrimIsAround(s[..|s| - 1]);
      b := b' + [s[|s| - 1]];
      assert s == s[..|s| - 1] + [s[|s| - 1]];
    } else {
      a, b := "", "";
    }
  }

  lemma {:induction false} TrimTakesOff(a: string, w: string, b: string)
    requires Blank(a) && Blank(b) && (w != "" ==> !IsSpace(w[0]) && !IsSpace(w[|w| - 1]))
    ensures TrimSpace(a + w + b) == w
    decreases |a| + |b|
  {
    var s := a + w + b;
    if a != "" {
      assert s[0] == a[0] && s[1..] == a[1..] + w + b;
      TrimTakesOff(a[1..], w, b);
    } else if b != "" && w == "" {
      assert s[0] == b[0] && s[1..] == a + w + b[1..];
      TrimTakesOff(a, w, b[1..]);
    } else if b != "" {
      assert s[0] == w[0] && s[|s| - 1] == b[|b| - 1] && s[..|s| - 1] == a + w + b[..|b| - 1];
      TrimTakesOff(a, w, b[..|b| - 1]);
    }
  }

  lemma FalsyIsTight(w: string)
    ensures Falsy(w) <==> ToLower(w) in {"", "false", "0"}
    ensures Falsy(w) && w != "" ==> !IsSpace(w[0]) && !IsSpace(w[|w| - 1])
  {
    var l := ToLower(w);
    if |w| == 5 {
      assert forall i :: 0 <= i < 5 ==> l[i] == if 'A' <= w[i] <= 'Z' then (w[i] as int + 32) as char else w[i];
      assert l == [l[0], l[1], l[2], l[3], l[4]];
      assert l == "false" <==> l[0] == 'f' && l[1] == 'a' && l[2] == 'l' && l[3] == 's' && l[4] == 'e';
    } else if |w| == 1 {
      assert l == [l[0]];
      assert w == [w[0]];
    }
  }

  /** A condition counts as false exactly if, but for white space around it, it is
      empty, a zero, or the word false in any case. */
  lemma TruthyIff(s: string)
    ensures !Truthy(s) <==> exists a, w, b :: Around(s, a, w, b) && Falsy(w)
  {
    var a, b := TrimIsAround(s);
    FalsyIsTight(TrimSpace(s));
    if a', w, b' :| Around(s, a', w, b') && Falsy(w) {
      FalsyIsTight(w);
      TrimTakesOff(a', w, b');
    }
  }

  lemma AlwaysTruthy()
    ensures Truthy("true")
  {
    assert TrimSpace("true") == "true";
    assert ToLower("true")[0] == 't';
  }

  lemma FalsyIsNotTruthy(w: string)
    requires Falsy(w)
    ensures !Truthy(w)
  {
    TruthyIff(w);
    assert Around(w, "", w, "");
  }

  /** A conditional operation is its operation when the condition says true, and
      nothing when it says false. */
  lemma ConditionDecides(op: Op, env: Env, s: State, s': State)
    requires op.Conditional?
    ensures op.condition(ViewOf(s, env)) == Some("true") ==> (Applies(op, env, s, s') <==> Applies(op.op, env, s, s'))
    ensures op.condition(ViewOf(s, env)) in {Some(""), Some("false"), Some("0")} ==>
              (Applies(op, env, s, s') <==> s' == s)
  {
    AlwaysTruthy();
    FalsyIsNotTruthy("");
    FalsyIsNotTruthy("false");
    FalsyIsNotTruthy("0");
  }

  // ---- Order ----

  predicate InPlatformOrder(a: Pair, b: Pair)
  {
    Text.Less(a.name, b.name) || (a.name == b.name && !Text.Less(b.value, a.value))
  }

  /** Properties are sorted by name, and by value where names are equal. */
  lemma PlatformOrder(r: seq<Pair>)
    requires SortedBy(PairLe, r)
    ensures forall i, j :: 0 <= i < j < |r| ==> InPlatformOrder(r[i], r[j])
  {
    forall i, j | 0 <= i < j < |r|
      ensures InPlatformOrder(r[i], r[j])
    {
      Text.LessTrichotomy(r[i].name, r[j].name);
    }
  }
}
