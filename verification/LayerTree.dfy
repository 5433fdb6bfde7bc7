/** The file system that the layer extractor accumulates, as a flat map from
    paths to entries, and the effect of a stream of tar events on it
    (pkg/blobstore/cas_uploading_layer_extractor.go). Paths are sequences of
    components; `p <= q` says that q is p or lies beneath it. */
module LayerTree {

  type Path = seq<string>
  type BlobId = nat

  datatype Option<T> = None | Some(value: T)

  /** The target of a hard link: the text in the tar header, and the directory
      and name it splits into. */
  datatype LinkTarget = LinkTarget(text: string, dir: Path, name: string)

  datatype Entry =
    | Dir
    | File(digest: BlobId, executable: bool)
    | Symlink(target: string)
    | HardLink(link: LinkTarget)

  type Tree = map<Path, Entry>

  function Lookup(m: Tree, q: Path): Option<Entry>
  {
    if q in m then Some(m[q]) else None
  }

  function Parent(q: Path): Path
    requires q != []
  {
    q[..|q| - 1]
  }

  function Last(q: Path): string
    requires q != []
  {
    q[|q| - 1]
  }

  /** A tree: the root is a directory, and so is the parent of every entry. */
  ghost predicate WellFormed(m: Tree)
  {
    && Lookup(m, []) == Some(Dir)
    && forall q {:trigger HasDirParent(m, q)} :: q in m && q != [] ==> HasDirParent(m, q)
  }

  predicate HasDirParent(m: Tree, q: Path)
  {
    q != [] && Lookup(m, Parent(q)) == Some(Dir)
  }

  lemma PrefixOfSnoc(q: Path, p: Path, x: string)
    ensures q <= p + [x] <==> q <= p || q == p + [x]
    ensures q < p + [x] <==> q <= p
  {
    if q <= p + [x] && |q| <= |p| {
      assert q == (p + [x])[..|q|] == p[..|q|];
    }
  }

  /** Nothing lies beneath what is not a directory. */
  lemma {:induction false} NothingBeneath(m: Tree, p: Path, q: Path)
    requires WellFormed(m) && p < q && Lookup(m, p) != Some(Dir)
    ensures q !in m
    decreases |q|
  {
    if q in m {
      var r := Parent(q);
      assert HasDirParent(m, q);
      if r != p {
        assert p == r[..|p|];
        NothingBeneath(m, p, r);
      }
    }
  }

  lemma SnocInjective(p: Path, x: string, q: Path, y: string)
    ensures p + [x] == q + [y] <==> p == q && x == y
  {
    assert (p + [x])[..|p|] == p && (q + [y])[..|q|] == q;
    assert (p + [x])[|p|] == x && (q + [y])[|q|] == y;
  }

  // ---- Events ----

  /** What a tar entry asks for; Put carries anything but a directory. */
  datatype Event =
    | MkDir(path: Path)
    | Put(path: Path, entry: Entry)
    | Whiteout(dir: Path, name: string)
    | Opaque(dir: Path)

  ghost predicate ValidEvent(ev: Event)
  {
    ev.Put? ==> ev.path != [] && !ev.entry.Dir?
  }

  ghost predicate ValidLayer(evs: seq<Event>)
  {
    forall i :: 0 <= i < |evs| ==> ValidEvent(evs[i])
  }

  /** The deepest path an event creates. */
  function Reach(ev: Event): Path
  {
    if ev.MkDir? || ev.Put? then ev.path else ev.dir
  }

  /** The paths a whiteout hides. */
  predicate Hides(ev: Event, q: Path)
  {
    || (ev.Whiteout? && ev.dir + [ev.name] <= q)
    || (ev.Opaque? && ev.dir < q)
  }

  // ---- Last writer wins ----

  datatype Effect = Keep | Set(entry: Entry) | Remove

  function EffectOn(ev: Event, q: Path): Effect
  {
    if q <= Reach(ev) then Set(if ev.Put? && q == ev.path then ev.entry else Dir)
    else if Hides(ev, q) || (ev.Put? && ev.path < q) then Remove
    else Keep
  }

  function After(before: Option<Entry>, effect: Effect): Option<Entry>
  {
    match effect
    case Keep => before
    case Set(e) => Some(e)
    case Remove => None
  }

  function Prefixes(p: Path): (s: set<Path>)
    ensures forall q :: q in s <==> q <= p
  {
    assert forall q: Path :: q <= p ==> q == p[..|q|];
    set i | 0 <= i <= |p| :: p[..i]
  }

  /** What one event makes of a tree. */
  function Apply(m: Tree, ev: Event): Tree
  {
    (map q | q in m && EffectOn(ev, q) == Keep :: m[q]) + EntriesOf(ev)
  }

  /** The entries an event brings along: its own and the directories above. */
  function EntriesOf(ev: Event): Tree
  {
    map q | q in Prefixes(Reach(ev)) :: if ev.Put? && q == ev.path then ev.entry else Dir
  }

  /** An event acts on every path by itself: it changes what it reaches, what it
      hides or replaces, and nothing else. */
  lemma ApplyPointwise(m: Tree, ev: Event, q: Path)
    ensures Lookup(Apply(m, ev), q) == After(Lookup(m, q), EffectOn(ev, q))
  {
  }

  lemma ApplyWellFormed(m: Tree, ev: Event)
    requires WellFormed(m) && ValidEvent(ev)
    ensures WellFormed(Apply(m, ev))
  {
    var m' := Apply(m, ev);
    ApplyPointwise(m, ev, []);
    forall q | q in m' && q != []
      ensures HasDirParent(m', q)
    {
      assert q in m ==> HasDirParent(m, q);
      ApplyPointwise(m, ev, q);
      ApplyPointwise(m, ev, Parent(q));
      ParentStays(ev, q, Lookup(m, q), Lookup(m, Parent(q)));
    }
  }

  /** What is there after an event has a directory above it. */
  lemma ParentStays(ev: Event, q: Path, own: Option<Entry>, parent: Option<Entry>)
    requires ValidEvent(ev) && q != [] && After(own, EffectOn(ev, q)).Some?
    requires own.Some? ==> parent == Some(Dir)
    ensures After(parent, EffectOn(ev, Parent(q))) == Some(Dir)
  {
    var p := Parent(q);
    assert p < q && p + [Last(q)] == q;
    if EffectOn(ev, q).Keep? {
      KeepsParent(ev, q);
    }
  }

  /** The parent of an untouched path survives, and stays a directory. */
  lemma KeepsParent(ev: Event, q: Path)
    requires ValidEvent(ev) && q != [] && EffectOn(ev, q) == Keep
    ensures EffectOn(ev, Parent(q)) == Keep || EffectOn(ev, Parent(q)) == Set(Dir)
  {
    var p := Parent(q);
    assert p < q;
    assert ev.Put? ==> !(ev.path <= p);
    assert Hides(ev, p) ==> Hides(ev, q);
  }

  function Stream(m: Tree, evs: seq<Event>): Tree
  {
    if evs == [] then m else Apply(Stream(m, evs[..|evs| - 1]), evs[|evs| - 1])
  }

  /** The effect of the last event that has one. */
  function Net(evs: seq<Event>, q: Path): Effect
  {
    if evs == [] then Keep
    else
      var last := EffectOn(evs[|evs| - 1], q);
      if last != Keep then last else Net(evs[..|evs| - 1], q)
  }

  /** Streaming is last-writer-wins, path by path. */
  lemma {:induction false} StreamPointwise(m: Tree, evs: seq<Event>, q: Path)
    ensures Lookup(Stream(m, evs), q) == After(Lookup(m, q), Net(evs, q))
  {
    if evs != [] {
      StreamPointwise(m, evs[..|evs| - 1], q);
      ApplyPointwise(Stream(m, evs[..|evs| - 1]), evs[|evs| - 1], q);
    }
  }

  lemma {:induction false} StreamWellFormed(m: Tree, evs: seq<Event>)
    requires WellFormed(m) && ValidLayer(evs)
    ensures WellFormed(Stream(m, evs))
  {
    if evs != [] {
      StreamWellFormed(m, evs[..|evs| - 1]);
      ApplyWellFormed(Stream(m, evs[..|evs| - 1]), evs[|evs| - 1]);
    }
  }

  // ---- The OCI merge ----

  predicate WhitedOut(evs: seq<Event>, q: Path)
  {
    exists i :: 0 <= i < |evs| && Hides(evs[i], q)
  }

  /** The tree a layer contains by itself. */
  function Upper(evs: seq<Event>): Tree
  {
    if evs == [] then map[] else Upper(evs[..|evs| - 1]) + EntriesOf(evs[|evs| - 1])
  }

  /** Section "Whiteouts" of the OCI image layer specification: whited-out paths
      disappear from the lower tree, whatever the order of the layer's entries. */
  function Without(lower: Tree, evs: seq<Event>): Tree
  {
    map q | q in lower && !WhitedOut(evs, q) :: lower[q]
  }

  predicate Replaced(upper: Tree, q: Path)
  {
    exists p :: p in upper && p < q && !upper[p].Dir?
  }

  /** The upper entries win; directories merge, anything else replaces whatever
      the lower tree has beneath it. */
  function Overlay(lower: Tree, upper: Tree): Tree
  {
    (map q | q in lower && !Replaced(upper, q) :: lower[q]) + upper
  }

  function Merge(lower: Tree, evs: seq<Event>): Tree
  {
    Overlay(Without(lower, evs), Upper(evs))
  }

  /** No path is written twice except as a directory, and nothing lies beneath a
      non-directory. */
  ghost predicate Consistent(evs: seq<Event>)
  {
    forall i, j :: 0 <= i < |evs| && 0 <= j < |evs| && i != j && evs[i].Put? ==> !(evs[i].path <= Reach(evs[j]))
  }

  /** What a whiteout erases of its own layer comes back later in the layer. */
  ghost predicate Settled(evs: seq<Event>)
  {
    forall q, j, i :: 0 <= j < i < |evs| && Hides(evs[i], q) && q <= Reach(evs[j]) ==>
      exists k :: i < k < |evs| && q <= Reach(evs[k])
  }

  /** Whiteouts come before their siblings and everything beneath these. */
  ghost predicate WhiteoutsFirst(evs: seq<Event>)
  {
    forall j, i :: 0 <= j < i < |evs| && (evs[i].Whiteout? || evs[i].Opaque?) ==> !(evs[i].dir < Reach(evs[j]))
  }

  lemma WhiteoutsFirstIsSettled(evs: seq<Event>)
    requires WhiteoutsFirst(evs)
    ensures Settled(evs)
  {
    forall q, j, i | 0 <= j < i < |evs| && Hides(evs[i], q)
      ensures !(q <= Reach(evs[j]))
    {
      assert evs[i].dir < q;
    }
  }

  /** Where the upper tree has an entry, and which one. */
  lemma {:induction false} UpperPointwise(evs: seq<Event>, q: Path)
    ensures q in Upper(evs) <==> exists i :: 0 <= i < |evs| && q <= Reach(evs[i])
  {
    if evs != [] {
      var (init, last) := (evs[..|evs| - 1], evs[|evs| - 1]);
      UpperPointwise(init, q);
      if q in Upper(evs) && !(q <= Reach(last)) {
        var i :| 0 <= i < |init| && q <= Reach(init[i]);
        assert evs[i] == init[i];
      }
      if i :| 0 <= i < |evs| && q <= Reach(evs[i]) {
        if i < |init| {
          assert init[i] == evs[i];
        }
      }
    }
  }

  /** In a consistent layer a leaf is what its one event says, wherever in the
      layer that event is. */
  lemma {:induction false} UpperEntry(evs: seq<Event>, q: Path, i: nat)
    requires Consistent(evs) && i < |evs| && q <= Reach(evs[i])
    ensures q in Upper(evs) && EffectOn(evs[i], q) == Set(Upper(evs)[q])
    decreases |evs|
  {
    var (init, last) := (evs[..|evs| - 1], evs[|evs| - 1]);
    if i < |init| {
      assert init[i] == evs[i];
      UpperEntry(init, q, i);
    }
  }

  /** An effect stands when no later event acts on the path. */
  lemma {:induction false} NetOfLast(evs: seq<Event>, q: Path, k: nat)
    requires k < |evs| && EffectOn(evs[k], q) != Keep
    requires forall l :: k < l < |evs| ==> EffectOn(evs[l], q) == Keep
    ensures Net(evs, q) == EffectOn(evs[k], q)
    decreases |evs|
  {
    var init := evs[..|evs| - 1];
    if k < |init| {
      assert init[k] == evs[k];
      NetOfLast(init, q, k);
    }
  }

  /** A removal stands when no later event reaches the path. */
  lemma {:induction false} NetOfRemoved(evs: seq<Event>, q: Path, i: nat)
    requires i < |evs| && EffectOn(evs[i], q) == Remove
    requires forall l :: i < l < |evs| ==> !(q <= Reach(evs[l]))
    ensures Net(evs, q) == Remove
    decreases |evs|
  {
    var init := evs[..|evs| - 1];
    if i < |init| {
      assert init[i] == evs[i];
      NetOfRemoved(init, q, i);
    }
  }

  lemma {:induction false} LastReach(evs: seq<Event>, q: Path, i: nat) returns (k: nat)
    requires i < |evs| && q <= Reach(evs[i])
    ensures i <= k < |evs| && q <= Reach(evs[k]) && forall l :: k < l < |evs| ==> !(q <= Reach(evs[l]))
    decreases |evs| - i
  {
    if j :| i < j < |evs| && q <= Reach(evs[j]) {
      k := LastReach(evs, q, j);
    } else {
      k := i;
    }
  }

  /** In a settled layer, what the layer contains is what streaming leaves. */
  lemma NetOfSettled(evs: seq<Event>, q: Path, i: nat)
    requires Consistent(evs) && Settled(evs) && i < |evs| && q <= Reach(evs[i])
    ensures q in Upper(evs) && Net(evs, q) == Set(Upper(evs)[q])
  {
    var k := LastReach(evs, q, i);
    UpperEntry(evs, q, k);
    forall l | k < l < |evs|
      ensures EffectOn(evs[l], q) == Keep
    {
      assert evs[l].Put? ==> !(evs[l].path <= Reach(evs[k]));
      assert !Hides(evs[l], q);
    }
    NetOfLast(evs, q, k);
  }

  lemma {:induction false} NetOfUntouched(evs: seq<Event>, p: Path)
    requires forall i :: 0 <= i < |evs| ==> EffectOn(evs[i], p) == Keep
    ensures Net(evs, p) == Keep
  {
    if evs != [] {
      NetOfUntouched(evs[..|evs| - 1], p);
    }
  }

  /** A path nothing in the layer reaches is kept or removed. */
  lemma NetOfUnreached(evs: seq<Event>, q: Path)
    requires forall i :: 0 <= i < |evs| ==> !(q <= Reach(evs[i]))
    ensures Net(evs, q) == if exists i :: 0 <= i < |evs| && EffectOn(evs[i], q) == Remove then Remove else Keep
  {
    if i :| 0 <= i < |evs| && EffectOn(evs[i], q) == Remove {
      NetOfRemoved(evs, q, i);
    } else {
      NetOfUntouched(evs, q);
    }
  }

  lemma MergePointwise(m: Tree, evs: seq<Event>, q: Path)
    ensures Lookup(Merge(m, evs), q) ==
            if q in Upper(evs) then Some(Upper(evs)[q])
            else if WhitedOut(evs, q) || Replaced(Upper(evs), q) then None
            else Lookup(m, q)
  {
  }

  lemma ReplacedIsRemoved(evs: seq<Event>, q: Path) returns (i: nat)
    requires Consistent(evs) && q !in Upper(evs) && Replaced(Upper(evs), q)
    ensures i < |evs| && EffectOn(evs[i], q) == Remove
  {
    var p :| p in Upper(evs) && p < q && !Upper(evs)[p].Dir?;
    UpperPointwise(evs, p);
    i :| 0 <= i < |evs| && p <= Reach(evs[i]);
    UpperEntry(evs, p, i);
    UpperPointwise(evs, q);
  }

  lemma RemovedIsReplaced(evs: seq<Event>, q: Path, i: nat)
    requires ValidLayer(evs) && Consistent(evs) && i < |evs| && EffectOn(evs[i], q) == Remove
    ensures WhitedOut(evs, q) || Replaced(Upper(evs), q)
  {
    if !Hides(evs[i], q) {
      UpperEntry(evs, evs[i].path, i);
    }
  }

  /** For a path the layer does not reach, the two agree whatever the order. */
  lemma UnreachedAgrees(m: Tree, evs: seq<Event>, q: Path)
    requires ValidLayer(evs) && Consistent(evs) && q !in Upper(evs)
    ensures Lookup(Stream(m, evs), q) == Lookup(Merge(m, evs), q)
  {
    UpperPointwise(evs, q);
    StreamPointwise(m, evs, q);
    MergePointwise(m, evs, q);
    NetOfUnreached(evs, q);
    if WhitedOut(evs, q) {
      var i :| 0 <= i < |evs| && Hides(evs[i], q);
      assert EffectOn(evs[i], q) == Remove;
    } else if Replaced(Upper(evs), q) {
      var i := ReplacedIsRemoved(evs, q);
    } else if i :| 0 <= i < |evs| && EffectOn(evs[i], q) == Remove {
      RemovedIsReplaced(evs, q, i);
    }
  }

  lemma SettledIsMerge(m: Tree, evs: seq<Event>)
    requires ValidLayer(evs) && Consistent(evs) && Settled(evs)
    ensures Stream(m, evs) == Merge(m, evs)
  {
    forall q: Path
      ensures Lookup(Stream(m, evs), q) == Lookup(Merge(m, evs), q)
    {
      if q in Upper(evs) {
        UpperPointwise(evs, q);
        var i :| 0 <= i < |evs| && q <= Reach(evs[i]);
        NetOfSettled(evs, q, i);
        StreamPointwise(m, evs, q);
      } else {
        UnreachedAgrees(m, evs, q);
      }
    }
    SameLookups(Stream(m, evs), Merge(m, evs));
  }

  /** A part of the layer that a whiteout erases for good is missing. */
  lemma ErasedDiffers(m: Tree, evs: seq<Event>, q: Path, j: nat, i: nat)
    requires j < i < |evs| && Hides(evs[i], q) && q <= Reach(evs[j])
    requires forall k :: i < k < |evs| ==> !(q <= Reach(evs[k]))
    ensures q in Merge(m, evs) && q !in Stream(m, evs)
  {
    UpperPointwise(evs, q);
    NetOfRemoved(evs, q, i);
    StreamPointwise(m, evs, q);
  }

  /** Streaming a consistent layer onto any tree is the OCI merge if and only if
      every whiteout that erases part of its own layer is followed by an event
      that writes that part again. */
  lemma StreamIsMerge(m: Tree, evs: seq<Event>)
    requires ValidLayer(evs) && Consistent(evs)
    ensures Stream(m, evs) == Merge(m, evs) <==> Settled(evs)
  {
    if Settled(evs) {
      SettledIsMerge(m, evs);
    } else {
      var q, j, i :| 0 <= j < i < |evs| && Hides(evs[i], q) && q <= Reach(evs[j]) &&
                     forall k :: i < k < |evs| ==> !(q <= Reach(evs[k]));
      ErasedDiffers(m, evs, q, j, i);
    }
  }

  lemma SameLookups(a: Tree, b: Tree)
    requires forall q :: Lookup(a, q) == Lookup(b, q)
    ensures a == b
  {
    assert forall q :: q in a <==> Lookup(a, q).Some?;
    assert forall q :: q in b <==> Lookup(b, q).Some?;
    assert forall q :: q in a ==> Lookup(a, q) == Some(a[q]);
    assert forall q :: q in b ==> Lookup(b, q) == Some(b[q]);
  }

  /** The order tar writers are told to use is enough. */
  lemma OrderedLayerIsMerge(m: Tree, evs: seq<Event>)
    requires ValidLayer(evs) && Consistent(evs) && WhiteoutsFirst(evs)
    ensures Stream(m, evs) == Merge(m, evs)
  {
    WhiteoutsFirstIsSettled(evs);
    StreamIsMerge(m, evs);
  }

  /** Out of order they differ: an opaque whiteout after a sibling of the same
      layer removes that sibling, where the standard keeps it. */
  lemma LateWhiteoutDiffers(m: Tree)
    ensures var evs := [Put(["etc", "hosts"], File(1, false)), Opaque(["etc"])];
            && Lookup(Stream(m, evs), ["etc", "hosts"]) == None
            && Lookup(Merge(m, evs), ["etc", "hosts"]) == Some(File(1, false))
  {
    var evs := [Put(["etc", "hosts"], File(1, false)), Opaque(["etc"])];
    var q := ["etc", "hosts"];
    assert EffectOn(evs[1], q) == Remove;
    NetOfRemoved(evs, q, 1);
    StreamPointwise(m, evs, q);
    assert !(evs[0].path <= Reach(evs[1]));
    UpperEntry(evs, q, 0);
    MergePointwise(m, evs, q);
  }
}
