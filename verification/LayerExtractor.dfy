/** CASUploadingLayerExtractor of
    pkg/blobstore/cas_uploading_layer_extractor.go: a heap of directory nodes
    updated in place. `nodes` says which object stands at which directory path,
    and `tree` is the flat file system the heap stands for. */
module LayerExtractor {
  import opened LayerTree
  import opened HardLinks
  import opened LinkWalks

  datatype FileNode = FileNode(digest: BlobId, executable: bool)

  /** The contents of a directory node. */
  datatype Listing = Listing(
    subDirs: set<string>,
    files: map<string, FileNode>,
    symlinks: map<string, string>,
    hardLinks: map<string, LinkTarget>)
  {
    /** No name is in two of the four maps. */
    ghost predicate DisjointNames()
    {
      && subDirs !! files.Keys && subDirs !! symlinks.Keys && subDirs !! hardLinks.Keys
      && files.Keys !! symlinks.Keys && files.Keys !! hardLinks.Keys && symlinks.Keys !! hardLinks.Keys
    }

    function Get(name: string): Option<Entry>
    {
      if name in subDirs then Some(Dir)
      else if name in files then Some(File(files[name].digest, files[name].executable))
      else if name in symlinks then Some(Symlink(symlinks[name]))
      else if name in hardLinks then Some(HardLink(hardLinks[name]))
      else None
    }

    function Without(name: string): Listing
    {
      Listing(subDirs - {name}, files - {name}, symlinks - {name}, hardLinks - {name})
    }

    function With(name: string, e: Entry): Listing
      requires !e.Dir?
    {
      match e
      case File(digest, executable) => this.(files := files[name := FileNode(digest, executable)])
      case Symlink(target) => this.(symlinks := symlinks[name := target])
      case HardLink(link) => this.(hardLinks := hardLinks[name := link])
    }
  }

  const EMPTY := Listing({}, map[], map[], map[])

  class UploadDirState {
    var subDirs: map<string, UploadDirState>
    var files: map<string, FileNode>
    var symlinks: map<string, string>
    var hardLinks: map<string, LinkTarget>

    constructor ()
      ensures Value() == EMPTY
    {
      subDirs, files, symlinks, hardLinks := map[], map[], map[], map[];
    }

    ghost function Value(): Listing
      reads this
    {
      Listing(subDirs.Keys, files, symlinks, hardLinks)
    }

    method Delete(name: string)
      modifies this
      ensures Value() == old(Value()).Without(name)
      ensures subDirs == old(subDirs) - {name} && hardLinks == old(hardLinks) - {name}
    {
      files := files - {name};
      subDirs := subDirs - {name};
      symlinks := symlinks - {name};
      hardLinks := hardLinks - {name};
    }

    /** A subdirectory takes the place of whatever had its name. */
    method Attach(name: string, child: UploadDirState)
      modifies this
      ensures Value() == old(Value()).Without(name).(subDirs := old(Value()).subDirs + {name})
      ensures subDirs == old(subDirs)[name := child]
    {
      Delete(name);
      subDirs := subDirs[name := child];
    }
  }

  ghost function Dirs(m: Tree): set<Path>
  {
    set p | p in m && m[p].Dir?
  }

  function Prune(m: Tree, p: Path): Tree
  {
    map q | q in m && !(p <= q) :: m[q]
  }

  /** All directories on the way to p. */
  function MkDirs(m: Tree, p: Path): Tree
  {
    if p == [] then m else MkDirs(m, Parent(p))[p := Dir]
  }

  lemma {:induction false} MkDirsAt(m: Tree, p: Path, q: Path)
    requires Lookup(m, []) == Some(Dir)
    ensures Lookup(MkDirs(m, p), q) == if q <= p then Some(Dir) else Lookup(m, q)
  {
    if p != [] {
      MkDirsAt(m, Parent(p), q);
      assert Parent(p) + [Last(p)] == p;
      PrefixOfSnoc(q, Parent(p), Last(p));
    }
  }

  /** A directory is created one level at a time. */
  lemma MkDirsIsApply(m: Tree, p: Path)
    requires WellFormed(m)
    ensures MkDirs(m, p) == Apply(m, MkDir(p))
  {
    forall q: Path
      ensures Lookup(MkDirs(m, p), q) == Lookup(Apply(m, MkDir(p)), q)
    {
      MkDirsAt(m, p, q);
      ApplyPointwise(m, MkDir(p), q);
    }
    SameLookups(MkDirs(m, p), Apply(m, MkDir(p)));
  }

  lemma PruneAt(m: Tree, p: Path, q: Path)
    ensures Lookup(Prune(m, p), q) == if p <= q then None else Lookup(m, q)
  {
  }

  lemma PutIsDeleteThenSet(m: Tree, p: Path, x: string, e: Entry)
    requires WellFormed(m) && !e.Dir?
    ensures Apply(m, Put(p + [x], e)) == Prune(MkDirs(m, p), p + [x])[p + [x] := e]
  {
    var (a, b) := (Apply(m, Put(p + [x], e)), Prune(MkDirs(m, p), p + [x])[p + [x] := e]);
    forall q: Path
      ensures Lookup(a, q) == Lookup(b, q)
    {
      PutAt(m, p, x, e, q);
      PruneAt(MkDirs(m, p), p + [x], q);
    }
    SameLookups(a, b);
  }

  lemma PutAt(m: Tree, p: Path, x: string, e: Entry, q: Path)
    requires WellFormed(m)
    ensures Lookup(Apply(m, Put(p + [x], e)), q) ==
            if q == p + [x] then Some(e) else if p + [x] <= q then None else Lookup(MkDirs(m, p), q)
  {
    PrefixOfSnoc(q, p, x);
    MkDirsAt(m, p, q);
    ApplyPointwise(m, Put(p + [x], e), q);
  }

  lemma WhiteoutIsDelete(m: Tree, p: Path, x: string)
    requires WellFormed(m)
    ensures Apply(m, Whiteout(p, x)) == Prune(MkDirs(m, p), p + [x])
  {
    var (a, b) := (Apply(m, Whiteout(p, x)), Prune(MkDirs(m, p), p + [x]));
    forall q: Path
      ensures Lookup(a, q) == Lookup(b, q)
    {
      PrefixOfSnoc(q, p, x);
      MkDirsAt(m, p, q);
      ApplyPointwise(m, Whiteout(p, x), q);
      PruneAt(MkDirs(m, p), p + [x], q);
    }
    SameLookups(a, b);
  }

  function Cleared(m: Tree, p: Path): Tree
  {
    map q | q in m && !(p < q) :: m[q]
  }

  lemma ClearedAt(m: Tree, p: Path, q: Path)
    ensures Lookup(Cleared(m, p), q) == if p < q then None else Lookup(m, q)
  {
  }

  lemma OpaqueIsClear(m: Tree, p: Path)
    requires WellFormed(m)
    ensures Apply(m, Opaque(p)) == Cleared(MkDirs(m, p), p)
  {
    var (a, b) := (Apply(m, Opaque(p)), Cleared(MkDirs(m, p), p));
    forall q: Path
      ensures Lookup(a, q) == Lookup(b, q)
    {
      MkDirsAt(m, p, q);
      ApplyPointwise(m, Opaque(p), q);
      ClearedAt(MkDirs(m, p), p, q);
    }
    SameLookups(a, b);
  }

  // ---- Listings and the flat tree ----

  type Heap = map<Path, Listing>

  /** The listing v of directory p says what the tree has there. */
  ghost predicate Matches(tree: Tree, p: Path, v: Listing)
  {
    v.DisjointNames() && forall x :: v.Get(x) == Lookup(tree, p + [x])
  }

  /** One listing per directory, and all of them right. */
  ghost predicate Represents(heap: Heap, tree: Tree)
  {
    && WellFormed(tree)
    && heap.Keys == Dirs(tree)
    && forall p {:trigger MatchesAt(tree, heap, p)} :: p in heap ==> MatchesAt(tree, heap, p)
  }

  ghost predicate MatchesAt(tree: Tree, heap: Heap, p: Path)
  {
    p in heap && Matches(tree, p, heap[p])
  }

  lemma NewDirectory(m: Tree, p: Path, x: string)
    requires WellFormed(m) && p in m && m[p].Dir? && Lookup(m, p + [x]) != Some(Dir)
    ensures WellFormed(m[p + [x] := Dir])
    ensures Dirs(m[p + [x] := Dir]) == Dirs(m) + {p + [x]}
    ensures forall y :: p + [x] + [y] !in m
  {
    var (c, m') := (p + [x], m[p + [x] := Dir]);
    assert Parent(c) == p;
    forall y
      ensures c + [y] !in m
    {
      NothingBeneath(m, c, c + [y]);
    }
    forall q | q in m' && q != []
      ensures HasDirParent(m', q)
    {
      assert q in m ==> HasDirParent(m, q);
    }
  }

  lemma TakeSnoc(p: Path, i: nat)
    requires i < |p|
    ensures p[..i + 1] == p[..i] + [p[i]] && Parent(p[..i + 1]) == p[..i]
  {
  }

  lemma AddChildMatches(tree: Tree, p: Path, v: Listing, name: string)
    requires Matches(tree, p, v) && name !in v.subDirs
    ensures Matches(tree[p + [name] := Dir], p, v.Without(name).(subDirs := v.subDirs + {name}))
  {
    var (c, v') := (p + [name], v.Without(name).(subDirs := v.subDirs + {name}));
    forall x
      ensures v'.Get(x) == Lookup(tree[c := Dir], p + [x])
    {
      SnocInjective(p, x, p, name);
      assert v.Get(x) == Lookup(tree, p + [x]);
    }
  }

  lemma AddChildRepresents(heap: Heap, tree: Tree, p: Path, name: string, v: Listing)
    requires Represents(heap, tree) && p in heap && name !in heap[p].subDirs
    requires v == heap[p].Without(name).(subDirs := heap[p].subDirs + {name})
    ensures p + [name] !in heap
    ensures Represents(heap[p := v][p + [name] := EMPTY], tree[p + [name] := Dir])
  {
    var c := p + [name];
    var (heap', tree') := (heap[p := v][c := EMPTY], tree[c := Dir]);
    assert MatchesAt(tree, heap, p);
    assert Lookup(tree, c) == heap[p].Get(name);
    NewDirectory(tree, p, name);
    forall q | q in heap'
      ensures MatchesAt(tree', heap', q)
    {
      if q == c {
        assert forall y :: c + [y] != c;
      } else if q == p {
        AddChildMatches(tree, p, heap[p], name);
      } else {
        assert MatchesAt(tree, heap, q);
        forall x
          ensures q + [x] != c
        {
          SnocInjective(q, x, p, name);
        }
      }
    }
  }

  /** Deleting one name of a directory, with everything beneath it. */
  function Pruned(heap: Heap, p: Path, name: string): Heap
    requires p in heap
  {
    map q | q in heap && !(p + [name] <= q) :: if q == p then heap[p].Without(name) else heap[q]
  }

  lemma PruneWellFormed(m: Tree, p: Path, x: string)
    requires WellFormed(m)
    ensures WellFormed(Prune(m, p + [x]))
  {
    var m' := Prune(m, p + [x]);
    forall q | q in m' && q != []
      ensures HasDirParent(m', q)
    {
      assert HasDirParent(m, q);
      assert Parent(q) < q;
    }
  }

  lemma DeleteRepresents(heap: Heap, tree: Tree, p: Path, name: string)
    requires Represents(heap, tree) && p in heap
    ensures Represents(Pruned(heap, p, name), Prune(tree, p + [name]))
    ensures Lookup(Prune(tree, p + [name]), p + [name]) == None
  {
    var c := p + [name];
    var (heap', tree') := (Pruned(heap, p, name), Prune(tree, c));
    PruneWellFormed(tree, p, name);
    forall q | q in heap'
      ensures MatchesAt(tree', heap', q)
    {
      assert MatchesAt(tree, heap, q);
      forall x
        ensures heap'[q].Get(x) == Lookup(tree', q + [x])
      {
        SnocInjective(q, x, p, name);
        PrefixOfSnoc(c, q, x);
        assert heap[q].Get(x) == Lookup(tree, q + [x]);
      }
    }
  }

  lemma PutMatches(tree: Tree, p: Path, v: Listing, name: string, e: Entry)
    requires Matches(tree, p, v) && v.Get(name) == None && !e.Dir?
    ensures Matches(tree[p + [name] := e], p, v.With(name, e))
  {
    forall x
      ensures v.With(name, e).Get(x) == Lookup(tree[p + [name] := e], p + [x])
    {
      SnocInjective(p, x, p, name);
      assert v.Get(x) == Lookup(tree, p + [x]);
    }
  }

  lemma PutRepresents(heap: Heap, tree: Tree, p: Path, name: string, e: Entry)
    requires Represents(heap, tree) && p in heap && Lookup(tree, p + [name]) == None && !e.Dir?
    ensures Represents(heap[p := heap[p].With(name, e)], tree[p + [name] := e])
  {
    var c := p + [name];
    var (heap', tree') := (heap[p := heap[p].With(name, e)], tree[c := e]);
    assert Parent(c) == p;
    forall q | q in tree' && q != []
      ensures HasDirParent(tree', q)
    {
      assert q in tree ==> HasDirParent(tree, q);
    }
    forall q | q in heap'
      ensures MatchesAt(tree', heap', q)
    {
      assert MatchesAt(tree, heap, q);
      if q == p {
        assert heap[p].Get(name) == Lookup(tree, c);
        PutMatches(tree, p, heap[p], name, e);
      } else {
        forall x
          ensures q + [x] != c
        {
          SnocInjective(q, x, p, name);
        }
      }
    }
  }

  function Emptied(heap: Heap, p: Path): Heap
  {
    map q | q in heap && !(p < q) :: if q == p then EMPTY else heap[q]
  }

  lemma ClearRepresents(heap: Heap, tree: Tree, p: Path)
    requires Represents(heap, tree) && p in heap
    ensures Represents(Emptied(heap, p), Cleared(tree, p))
  {
    var (heap', tree') := (Emptied(heap, p), Cleared(tree, p));
    forall q | q in tree' && q != []
      ensures HasDirParent(tree', q)
    {
      assert HasDirParent(tree, q);
      assert Parent(q) < q;
    }
    forall q | q in heap'
      ensures MatchesAt(tree', heap', q)
    {
      assert MatchesAt(tree, heap, q);
      forall x
        ensures heap'[q].Get(x) == Lookup(tree', q + [x])
      {
        PrefixOfSnoc(p, q, x);
        assert heap[q].Get(x) == Lookup(tree, q + [x]);
      }
    }
  }

  type Nodes = map<Path, UploadDirState>

  /** No node stands at two paths. */
  ghost predicate NoSharing(nodes: Nodes)
  {
    forall p, q {:trigger Apart(nodes, p, q)} :: Apart(nodes, p, q)
  }

  ghost predicate Apart(nodes: Nodes, p: Path, q: Path)
  {
    p in nodes && q in nodes && p != q ==> nodes[p] != nodes[q]
  }

  lemma NoSharingAdd(nodes: Nodes, c: Path, child: UploadDirState)
    requires NoSharing(nodes) && forall q :: q in nodes ==> nodes[q] != child
    ensures NoSharing(nodes[c := child])
  {
    var nodes' := nodes[c := child];
    forall p, q
      ensures Apart(nodes', p, q)
    {
      assert Apart(nodes, p, q);
    }
  }

  /** What the extractor's heap stands for: the node at each directory path, the
      listing of each directory, the flat file system, and all node objects. */
  datatype View = View(nodes: Nodes, heap: Heap, tree: Tree, repr: set<UploadDirState>)

  ghost predicate StandsAt(v: View, p: Path, node: UploadDirState)
  {
    p in v.nodes && v.nodes[p] == node && node in v.repr
  }

  ghost predicate SyncedIn(v: View, p: Path)
    reads v.repr
  {
    && p in v.nodes && p in v.heap && v.nodes[p] in v.repr
    && v.nodes[p].Value() == v.heap[p]
    && forall x :: x in v.nodes[p].subDirs ==> StandsAt(v, p + [x], v.nodes[p].subDirs[x])
  }

  ghost predicate ConsistentView(v: View, root: UploadDirState)
  {
    && Represents(v.heap, v.tree)
    && v.nodes.Keys == v.heap.Keys && [] in v.nodes && v.nodes[[]] == root
    && NoSharing(v.nodes)
  }

  /** The view with a new, empty directory c that the node at p leads to. */
  ghost function Grafted(v: View, p: Path, value: Listing, c: Path, child: UploadDirState): View
  {
    View(v.nodes[c := child], v.heap[p := value][c := EMPTY], v.tree[c := Dir], v.repr + {child})
  }

  lemma GraftConsistent(v: View, root: UploadDirState, p: Path, value: Listing, name: string, child: UploadDirState)
    requires ConsistentView(v, root) && p in v.heap && name !in v.heap[p].subDirs
    requires value == v.heap[p].Without(name).(subDirs := v.heap[p].subDirs + {name})
    requires forall q :: q in v.nodes ==> v.nodes[q] != child
    ensures ConsistentView(Grafted(v, p, value, p + [name], child), root) && p + [name] !in v.nodes
  {
    AddChildRepresents(v.heap, v.tree, p, name, value);
    NoSharingAdd(v.nodes, p + [name], child);
  }

  lemma GraftSynced(v: View, p: Path, node: UploadDirState, name: string, child: UploadDirState, q: Path)
    requires StandsAt(v, p, node) && child !in v.repr && child.Value() == EMPTY && p + [name] !in v.nodes
    requires q in v.nodes && q != p ==> SyncedIn(v, q)
    requires forall x :: x in node.subDirs ==>
               if x == name then node.subDirs[x] == child else StandsAt(v, p + [x], node.subDirs[x])
    requires q in v.nodes || q == p + [name]
    ensures SyncedIn(Grafted(v, p, node.Value(), p + [name], child), q)
  {
    var (c, v') := (p + [name], Grafted(v, p, node.Value(), p + [name], child));
    assert forall r, n :: StandsAt(v, r, n) ==> StandsAt(v', r, n);
    if q == c {
      assert child.subDirs.Keys == EMPTY.subDirs;
    }
  }

  ghost predicate AllSynced(v: View)
    reads v.repr
  {
    forall q {:trigger SyncedIn(v, q)} :: q in v.nodes ==> SyncedIn(v, q)
  }

  lemma GraftAllSynced(v: View, p: Path, node: UploadDirState, name: string, child: UploadDirState)
    requires StandsAt(v, p, node) && child !in v.repr && child.Value() == EMPTY && p + [name] !in v.nodes
    requires forall q {:trigger SyncedIn(v, q)} :: q in v.nodes && q != p ==> SyncedIn(v, q)
    requires forall x :: x in node.subDirs ==>
               if x == name then node.subDirs[x] == child else StandsAt(v, p + [x], node.subDirs[x])
    ensures AllSynced(Grafted(v, p, node.Value(), p + [name], child))
  {
    var v' := Grafted(v, p, node.Value(), p + [name], child);
    forall q | q in v'.nodes
      ensures SyncedIn(v', q)
    {
      assert q in v.nodes && q != p ==> SyncedIn(v, q);
      GraftSynced(v, p, node, name, child, q);
    }
  }

  class Extractor {
    var root: UploadDirState
    ghost var view: View

    constructor ()
      ensures Valid() && fresh(view.repr)
      ensures view.tree == map[[] := Dir]
    {
      root := new UploadDirState();
      new;
      view := View(map[[] := root], map[[] := EMPTY], map[[] := Dir], {root});
    }

    /** A new, empty root. */
    method Reset()
      modifies this
      ensures Valid() && fresh(view.repr)
      ensures view.tree == map[[] := Dir]
    {
      root := new UploadDirState();
      view := View(map[[] := root], map[[] := EMPTY], map[[] := Dir], {root});
      assert Synced([]);
    }

    ghost predicate Valid()
      reads this, view.repr
    {
      Consistent() && forall p {:trigger Synced(p)} :: p in view.nodes ==> Synced(p)
    }

    ghost predicate Consistent()
      reads this
    {
      ConsistentView(view, root)
    }

    /** Valid, except that the node at p has just been changed. */
    ghost predicate ValidBut(p: Path)
      reads this, view.repr
    {
      && Consistent() && p in view.nodes && view.nodes[p] in view.repr
      && forall q {:trigger Synced(q)} :: q in view.nodes && q != p ==> Synced(q)
    }

    /** The node at p holds the listing of p, and leads to the nodes beneath. */
    ghost predicate Synced(p: Path)
      reads this, view.repr
    {
      SyncedIn(view, p)
    }

    /** node stands at path p. */
    ghost predicate At(p: Path, node: UploadDirState)
      reads this
    {
      StandsAt(view, p, node)
    }

    method GetOrCreateChildDirState(path: Path) returns (node: UploadDirState)
      requires Valid()
      modifies this, view.repr
      ensures Valid() && fresh(view.repr - old(view.repr)) && root == old(root)
      ensures view.tree == MkDirs(old(view.tree), path)
      ensures At(path, node)
    {
      node := root;
      assert Synced([]);
      var i := 0;
      while i < |path|
        invariant i <= |path|
        invariant Valid() && fresh(view.repr - old(view.repr)) && root == old(root)
        invariant At(path[..i], node)
        invariant view.tree == MkDirs(old(view.tree), path[..i])
      {
        node := GetOrAddChild(node, path[..i], path[i]);
        TakeSnoc(path, i);
        i := i + 1;
      }
      assert path[..|path|] == path;
    }

    /** One step of the loop above. */
    method GetOrAddChild(node: UploadDirState, ghost p: Path, name: string) returns (child: UploadDirState)
      requires Valid() && At(p, node)
      modifies this, node
      ensures Valid() && fresh(view.repr - old(view.repr)) && root == old(root)
      ensures At(p + [name], child)
      ensures view.tree == old(view.tree)[p + [name] := Dir]
    {
      assert Synced(p);
      if name in node.subDirs {
        assert MatchesAt(view.tree, view.heap, p);
        child := node.subDirs[name];
        assert view.heap[p].Get(name) == Some(Dir);
      } else {
        child := AddChild(node, p, name);
      }
    }

    method AddChild(node: UploadDirState, ghost p: Path, name: string) returns (child: UploadDirState)
      requires Valid() && At(p, node) && name !in node.subDirs
      modifies this, node
      ensures Valid() && fresh(child) && root == old(root)
      ensures At(p + [name], child) && view.repr == old(view.repr) + {child}
      ensures view.tree == old(view.tree)[p + [name] := Dir]
    {
      assert Synced(p);
      child := new UploadDirState();
      node.Attach(name, child);
      forall q | q in view.nodes && q != p
        ensures Synced(q)
      {
        assert old(Synced(q)) && Apart(view.nodes, p, q);
      }
      Graft(node, p, name, child);
    }

    lemma OthersSynced(p: Path)
      requires ValidBut(p)
      ensures forall q {:trigger SyncedIn(view, q)} :: q in view.nodes && q != p ==> SyncedIn(view, q)
    {
      forall q | q in view.nodes && q != p
        ensures SyncedIn(view, q)
      {
        assert Synced(q);
      }
    }

    lemma NewNode(p: Path, child: UploadDirState)
      requires ValidBut(p) && child !in view.repr
      ensures forall q :: q in view.nodes ==> view.nodes[q] != child && view.nodes[q] in view.repr
    {
      forall q | q in view.nodes
        ensures view.nodes[q] in view.repr
      {
        assert q != p ==> Synced(q);
      }
    }

    ghost method Graft(node: UploadDirState, p: Path, name: string, child: UploadDirState)
      requires ValidBut(p) && At(p, node) && child !in view.repr && child.Value() == EMPTY
      requires name !in view.heap[p].subDirs
      requires node.Value() == view.heap[p].Without(name).(subDirs := view.heap[p].subDirs + {name})
      requires forall x :: x in node.subDirs ==>
                 if x == name then node.subDirs[x] == child else At(p + [x], node.subDirs[x])
      modifies this`view
      ensures Valid() && At(p + [name], child) && view.repr == old(view.repr) + {child}
      ensures view.tree == old(view.tree)[p + [name] := Dir]
    {
      ghost var (c, v) := (p + [name], node.Value());
      NewNode(p, child);
      GraftConsistent(view, root, p, v, name, child);
      OthersSynced(p);
      GraftAllSynced(view, p, node, name, child);
      view := Grafted(view, p, v, c, child);
    }

    /** The node at p has been changed to what heap says; everything else only
        shrinks. */
    ghost method Commit(node: UploadDirState, p: Path, heap: Heap, tree: Tree)
      requires ValidBut(p) && At(p, node) && Represents(heap, tree)
      requires p in heap && heap.Keys <= view.heap.Keys && node.Value() == heap[p]
      requires forall q :: q in heap && q != p ==> heap[q] == view.heap[q]
      requires forall x :: x in node.subDirs ==> At(p + [x], node.subDirs[x])
      modifies this`view
      ensures Valid() && At(p, node) && view.repr == old(view.repr) && view.tree == tree && view.heap == heap
      ensures forall q :: q in heap ==> q in old(view.nodes) && view.nodes[q] == old(view.nodes)[q]
    {
      ghost var nodes := map q | q in heap :: view.nodes[q];
      NoSharingSub(view.nodes, nodes);
      view := View(nodes, heap, tree, view.repr);
      forall q | q in view.nodes
        ensures Synced(q)
      {
        assert q != p ==> old(Synced(q));
        assert MatchesAt(tree, heap, q);
        forall x | x in view.nodes[q].subDirs
          ensures At(q + [x], view.nodes[q].subDirs[x])
        {
          assert heap[q].Get(x) == Lookup(tree, q + [x]);
        }
      }
    }

    // ---- The visitor's handlers ----

    method OnDirectorySeen(path: Path)
      requires Valid()
      modifies this, view.repr
      ensures Valid() && fresh(view.repr - old(view.repr))
      ensures view.tree == Apply(old(view.tree), MkDir(path))
    {
      var node := GetOrCreateChildDirState(path);
      MkDirsIsApply(old(view.tree), path);
    }

    /** dirNode.delete(name) for the node at p. */
    method DeleteEntry(node: UploadDirState, ghost p: Path, name: string)
      requires Valid() && At(p, node)
      modifies this`view, node
      ensures Valid() && At(p, node) && view.repr == old(view.repr)
      ensures view.tree == Prune(old(view.tree), p + [name]) && view.heap == Pruned(old(view.heap), p, name)
      ensures forall q :: q in view.nodes ==> q in old(view.nodes) && view.nodes[q] == old(view.nodes)[q]
      ensures node.subDirs == old(node.subDirs) - {name} && node.hardLinks == old(node.hardLinks) - {name}
    {
      assert Synced(p);
      node.Delete(name);
      forall q | q in view.nodes && q != p
        ensures Synced(q)
      {
        assert old(Synced(q)) && Apart(view.nodes, p, q);
      }
      DeleteRepresents(view.heap, view.tree, p, name);
      Commit(node, p, Pruned(view.heap, p, name), Prune(view.tree, p + [name]));
    }

    /** Records that a leaf e has just been stored under a free name. */
    ghost method CommitPut(node: UploadDirState, p: Path, name: string, e: Entry)
      requires ValidBut(p) && At(p, node) && !e.Dir? && Lookup(view.tree, p + [name]) == None
      requires p in view.heap && node.Value() == view.heap[p].With(name, e)
      requires forall x :: x in node.subDirs ==> At(p + [x], node.subDirs[x])
      modifies this`view
      ensures Valid() && At(p, node) && view.repr == old(view.repr)
      ensures view.tree == old(view.tree)[p + [name] := e]
      ensures view.heap == old(view.heap)[p := old(view.heap)[p].With(name, e)]
      ensures view.nodes == old(view.nodes)
    {
      PutRepresents(view.heap, view.tree, p, name, e);
      Commit(node, p, view.heap[p := node.Value()], view.tree[p + [name] := e]);
    }

    method StoreFile(node: UploadDirState, ghost p: Path, name: string, file: FileNode)
      requires Valid() && At(p, node) && Lookup(view.tree, p + [name]) == None
      modifies this`view, node
      ensures Valid() && At(p, node) && view.repr == old(view.repr)
      ensures view.tree == old(view.tree)[p + [name] := File(file.digest, file.executable)]
      ensures p in old(view.heap)
      ensures view.heap == old(view.heap)[p := old(view.heap)[p].With(name, File(file.digest, file.executable))]
      ensures view.nodes == old(view.nodes)
      ensures node.subDirs == old(node.subDirs) && node.hardLinks == old(node.hardLinks)
    {
      assert Synced(p);
      node.files := node.files[name := file];
      forall q | q in view.nodes && q != p
        ensures Synced(q)
      {
        assert old(Synced(q)) && Apart(view.nodes, p, q);
      }
      CommitPut(node, p, name, File(file.digest, file.executable));
    }

    method StoreSymlink(node: UploadDirState, ghost p: Path, name: string, target: string)
      requires Valid() && At(p, node) && Lookup(view.tree, p + [name]) == None
      modifies this`view, node
      ensures Valid() && At(p, node) && view.repr == old(view.repr)
      ensures view.tree == old(view.tree)[p + [name] := Symlink(target)]
      ensures p in old(view.heap) && view.heap == old(view.heap)[p := old(view.heap)[p].With(name, Symlink(target))]
      ensures view.nodes == old(view.nodes)
      ensures node.subDirs == old(node.subDirs) && node.hardLinks == old(node.hardLinks)
    {
      assert Synced(p);
      node.symlinks := node.symlinks[name := target];
      forall q | q in view.nodes && q != p
        ensures Synced(q)
      {
        assert old(Synced(q)) && Apart(view.nodes, p, q);
      }
      CommitPut(node, p, name, Symlink(target));
    }

    method StoreHardLink(node: UploadDirState, ghost p: Path, name: string, link: LinkTarget)
      requires Valid() && At(p, node) && Lookup(view.tree, p + [name]) == None
      modifies this`view, node
      ensures Valid() && At(p, node) && view.repr == old(view.repr)
      ensures view.tree == old(view.tree)[p + [name] := HardLink(link)]
    {
      assert Synced(p);
      node.hardLinks := node.hardLinks[name := link];
      forall q | q in view.nodes && q != p
        ensures Synced(q)
      {
        assert old(Synced(q)) && Apart(view.nodes, p, q);
      }
      CommitPut(node, p, name, HardLink(link));
    }

    method OnSymlinkSeen(dir: Path, name: string, target: string)
      requires Valid()
      modifies this, view.repr
      ensures Valid() && fresh(view.repr - old(view.repr))
      ensures view.tree == Apply(old(view.tree), Put(dir + [name], Symlink(target)))
    {
      var node := GetOrCreateChildDirState(dir);
      DeleteEntry(node, dir, name);
      StoreSymlink(node, dir, name, target);
      PutIsDeleteThenSet(old(view.tree), dir, name, Symlink(target));
    }

    method OnLinkSeen(dir: Path, name: string, link: LinkTarget)
      requires Valid()
      modifies this, view.repr
      ensures Valid() && fresh(view.repr - old(view.repr))
      ensures view.tree == Apply(old(view.tree), Put(dir + [name], HardLink(link)))
    {
      var node := GetOrCreateChildDirState(dir);
      DeleteEntry(node, dir, name);
      StoreHardLink(node, dir, name, link);
      PutIsDeleteThenSet(old(view.tree), dir, name, HardLink(link));
    }

    /** A regular file, or a whiteout in disguise. `blob` is what the upload
        returned, None when it failed; by then the old entry is already gone. */
    method OnFileSeen(dir: Path, name: string, blob: Option<BlobId>, mode: bv64) returns (ok: bool)
      requires Valid()
      modifies this, view.repr
      ensures Valid() && fresh(view.repr - old(view.repr))
      ensures ok <==> IsWhiteout(name) || blob.Some?
      ensures view.tree == Apply(old(view.tree),
                                 if ok then FileEvent(dir, name, if blob.Some? then blob.value else 0, mode)
                                 else Whiteout(dir, name))
      // A whiteout of a name, an opaque whiteout, or a file.
      ensures ".wh." <= name && name != ".wh..wh..opq" ==>
                view.tree == Apply(old(view.tree), Whiteout(dir, name[4..])) && Gone(view.tree, dir + [name[4..]])
      ensures name == ".wh..wh..opq" ==>
                && view.tree == Apply(old(view.tree), Opaque(dir))
                && Lookup(view.tree, dir) == Some(Dir) && GoneBeneath(view.tree, dir)
      ensures !(".wh." <= name) && blob.Some? ==>
                && view.tree == Apply(old(view.tree), Put(dir + [name], File(blob.value, mode & 0x49 != 0)))
                && Lookup(view.tree, dir + [name]) == Some(File(blob.value, mode & 0x49 != 0))
    {
      var digest := if blob.Some? then blob.value else 0;
      FileMeaning(view.tree, dir, name, digest, mode);
      var node := GetOrCreateChildDirState(dir);
      if WHITEOUT_PREFIX <= name {
        if name == OPAQUE_WHITEOUT {
          ClearDirectory(node, dir);
          OpaqueIsClear(old(view.tree), dir);
        } else {
          var target := name[|WHITEOUT_PREFIX|..];
          DeleteEntry(node, dir, target);
          WhiteoutIsDelete(old(view.tree), dir, target);
        }
        return true;
      }
      DeleteEntry(node, dir, name);
      if blob.None? {
        WhiteoutIsDelete(old(view.tree), dir, name);
        return false;
      }
      StoreFile(node, dir, name, FileNode(blob.value, mode & 0x49 != 0));
      PutIsDeleteThenSet(old(view.tree), dir, name, File(blob.value, mode & 0x49 != 0));
      ok := true;
    }

    // ---- Hard links ----

    method GetChildDirState(path: Path) returns (node: UploadDirState?)
      requires Valid()
      ensures node == null <==> path !in view.nodes
      ensures node != null ==> At(path, node)
    {
      node := root;
      assert Synced([]);
      for i := 0 to |path|
        invariant node != null && At(path[..i], node)
      {
        TakeSnoc(path, i);
        assert Synced(path[..i]) && MatchesAt(view.tree, view.heap, path[..i]);
        assert view.heap[path[..i]].Get(path[i]) == Lookup(view.tree, path[..i + 1]);
        if path[i] !in node.subDirs {
          NotADirectory(view.tree, path, i + 1);
          return null;
        }
        node := node.subDirs[path[i]];
      }
      assert path[..|path|] == path;
    }

    /** What a link to `link` is replaced by, or None when that is an error. */
    method FindSource(link: LinkTarget) returns (source: Option<Entry>)
      requires Valid()
      ensures source == Direct(view.tree, link)
    {
      var dirNode := GetChildDirState(link.dir);
      if dirNode == null {
        NothingInMissing(view.tree, link.dir, link.name);
        return None;
      }
      assert Synced(link.dir) && MatchesAt(view.tree, view.heap, link.dir);
      assert view.heap[link.dir].Get(link.name) == Lookup(view.tree, TargetPath(link));
      if link.name in dirNode.files {
        source := Some(File(dirNode.files[link.name].digest, dirNode.files[link.name].executable));
      } else if link.name in dirNode.subDirs {
        source := Some(Symlink(link.text));
      } else if link.name in dirNode.symlinks {
        source := Some(Symlink(dirNode.symlinks[link.name]));
      } else {
        source := None;
      }
    }

    /** One turn of the loop over a directory's links. */
    method ResolveOne(node: UploadDirState, ghost p: Path, name: string) returns (ok: bool)
      requires Valid() && At(p, node) && name in node.hardLinks
      modifies this`view, node
      ensures Valid() && At(p, node) && view.repr == old(view.repr) && view.nodes == old(view.nodes)
      ensures Lookup(old(view.tree), p + [name]) == Some(HardLink(old(node.hardLinks)[name]))
      ensures ok <==> Direct(old(view.tree), old(node.hardLinks)[name]).Some?
      ensures !ok ==> view == old(view) && node.hardLinks == old(node.hardLinks)
      ensures ok ==> view.tree == old(view.tree)[p + [name] := Direct(old(view.tree), old(node.hardLinks)[name]).value]
      ensures ok ==> node.hardLinks == old(node.hardLinks) - {name}
      ensures node.subDirs == old(node.subDirs)
    {
      var link := node.hardLinks[name];
      assert Synced(p) && MatchesAt(view.tree, view.heap, p);
      assert view.heap[p].Get(name) == Lookup(view.tree, p + [name]);
      var source := FindSource(link);
      if source.None? {
        return false;
      }
      ReplaceLink(node, p, name, source.value);
      ok := true;
    }

    method DeleteLeaf(node: UploadDirState, ghost p: Path, name: string)
      requires Valid() && At(p, node) && name !in node.subDirs
      requires p + [name] in view.tree && !view.tree[p + [name]].Dir?
      modifies this`view, node
      ensures Valid() && At(p, node) && view.repr == old(view.repr) && view.nodes == old(view.nodes)
      ensures view.tree == old(view.tree) - {p + [name]}
      ensures node.hardLinks == old(node.hardLinks) - {name} && node.subDirs == old(node.subDirs)
    {
      PruneLeaf(view.heap, view.tree, p, name);
      DeleteEntry(node, p, name);
    }

    method ReplaceLink(node: UploadDirState, ghost p: Path, name: string, e: Entry)
      requires Valid() && At(p, node) && (e.File? || e.Symlink?) && name !in node.subDirs
      requires p + [name] in view.tree && view.tree[p + [name]].HardLink?
      modifies this`view, node
      ensures Valid() && At(p, node) && view.repr == old(view.repr) && view.nodes == old(view.nodes)
      ensures view.tree == old(view.tree)[p + [name] := e]
      ensures node.hardLinks == old(node.hardLinks) - {name} && node.subDirs == old(node.subDirs)
    {
      DeleteLeaf(node, p, name);
      if e.File? {
        StoreFile(node, p, name, FileNode(e.digest, e.executable));
      } else {
        StoreSymlink(node, p, name, e.target);
      }
    }

    /** resolveHardlinks of the node at p. `m0` is the tree at the end of the
        layer and `done` the links handled before; `walk` is the order in which
        the loops and recursive calls take those beneath p from the maps. */
    method ResolveHardlinks(node: UploadDirState, ghost p: Path, ghost m0: Tree, ghost done: seq<Path>)
      returns (ok: bool, ghost walk: seq<Path>)
      requires Valid() && At(p, node) && ResolveInOrder(m0, done) == Some(view.tree) && AncestorsDone(view.tree, p)
      modifies this`view, view.repr
      ensures Valid() && view.repr == old(view.repr) && view.nodes == old(view.nodes)
      ensures ok ==> ResolveInOrder(m0, done + walk) == Some(view.tree)
      ensures ok ==> WalkUnder(old(Links(view.tree)), p, walk)
      ensures ok ==> forall q :: q in Links(view.tree) <==> q in old(Links(view.tree)) && !Under(p, q)
      ensures !ok ==> exists q :: Misplaced(m0, q)
      decreases (set q | q in view.nodes && p <= q), 1
    {
      ghost var links := Links(view.tree);
      ok, walk := ResolveOwnLinks(node, p, m0, done);
      if !ok {
        return;
      }
      assert Synced(p);
      var todo := node.subDirs.Keys;
      ghost var all := todo;
      LinksInSubDirs(view.heap, view.tree, p);
      AllDone(all);
      while todo != {}
        invariant Valid() && view.repr == old(view.repr) && view.nodes == old(view.nodes)
        invariant ResolveInOrder(m0, done + walk) == Some(view.tree)
        invariant todo <= all && forall x :: x in todo ==> p + [x] in view.nodes
        invariant PartWalk(links, p, all - todo, walk) && Links(view.tree) == Left(links, p, all - todo)
      {
        var name :| name in todo;
        ok, walk := ResolveSubDir(node, p, name, m0, done, links, all - todo, walk);
        if !ok {
          return;
        }
        DoneOneMore(all, todo, name);
        todo := todo - {name};
      }
      WholeWalk(links, p, all, walk);
      ForgetLinks(node, p);
    }

    /** One turn of the loop over the subdirectories. */
    method ResolveSubDir(node: UploadDirState, ghost p: Path, name: string, ghost m0: Tree, ghost done: seq<Path>,
                         ghost links: set<Path>, ghost names: set<string>, ghost walk: seq<Path>)
      returns (ok: bool, ghost walk': seq<Path>)
      requires Valid() && At(p, node) && p + [name] in view.nodes && name !in names
      requires ResolveInOrder(m0, done + walk) == Some(view.tree)
      requires forall q :: q in links && q != [] ==> !(Parent(q) < p)
      requires PartWalk(links, p, names, walk) && Links(view.tree) == Left(links, p, names)
      modifies this`view, view.repr
      ensures Valid() && view.repr == old(view.repr) && view.nodes == old(view.nodes)
      ensures ok ==> ResolveInOrder(m0, done + walk') == Some(view.tree)
      ensures ok ==> PartWalk(links, p, names + {name}, walk') && Links(view.tree) == Left(links, p, names + {name})
      ensures !ok ==> exists q :: Misplaced(m0, q)
      decreases (set q | q in view.nodes && p <= q), 0
    {
      assert Synced(p);
      SubDirNodes(view.heap, view.tree, p, name);
      NodesBeneath(view.nodes, p, name);
      AncestorsBelow(links, view.tree, p, names, name);
      ghost var block;
      ok, block := ResolveHardlinks(node.subDirs[name], p + [name], m0, done + walk);
      if ok {
        NextBlock(links, p, names, walk, name, block, Links(view.tree));
        Regroup(done, walk, block);
      }
      walk' := walk + block;
    }

    /** The loop over the node's own links. */
    method ResolveOwnLinks(node: UploadDirState, ghost p: Path, ghost m0: Tree, ghost done: seq<Path>)
      returns (ok: bool, ghost own: seq<Path>)
      requires Valid() && At(p, node) && ResolveInOrder(m0, done) == Some(view.tree) && AncestorsDone(view.tree, p)
      modifies this`view, node
      ensures Valid() && view.repr == old(view.repr) && view.nodes == old(view.nodes)
      ensures ok ==> ResolveInOrder(m0, done + own) == Some(view.tree) && node.hardLinks == map[]
      ensures ok ==> PartWalk(old(Links(view.tree)), p, {}, own)
      ensures ok ==> Links(view.tree) == Left(old(Links(view.tree)), p, {})
      ensures !ok ==> exists q :: Misplaced(m0, q)
    {
      own := [];
      ghost var links := Links(view.tree);
      NothingDone(done);
      while node.hardLinks != map[]
        invariant Valid() && At(p, node) && view.repr == old(view.repr) && view.nodes == old(view.nodes)
        invariant ResolveInOrder(m0, done + own) == Some(view.tree)
        invariant OwnSoFar(links, p, own, Links(view.tree))
        decreases node.hardLinks.Keys
      {
        var name :| name in node.hardLinks;
        ghost var before := view.tree;
        ok := ResolveOne(node, p, name);
        if !ok {
          assert Parent(p + [name]) == p;
          FailureIsMisplaced(m0, done + own, before, p + [name]);
          return;
        }
        ResolveSnoc(m0, done + own, before, p + [name]);
        LinkGone(before, p + [name]);
        OwnOneMore(links, p, own, Links(before), name);
        Regroup(done, own, [p + [name]]);
        own := own + [p + [name]];
      }
      assert Synced(p);
      NoOwnLinks(view.heap, view.tree, p);
      OwnDone(links, p, own, Links(view.tree));
      ok := true;
    }

    /** The final reset of the link map, which is empty by then. */
    method ForgetLinks(node: UploadDirState, ghost p: Path)
      requires Valid() && At(p, node) && forall q :: q in Links(view.tree) ==> !Under(p, q)
      modifies node
      ensures Valid()
    {
      assert Synced(p) && MatchesAt(view.tree, view.heap, p);
      forall x
        ensures x !in node.hardLinks
      {
        assert view.heap[p].Get(x) == Lookup(view.tree, p + [x]);
        assert Under(p, p + [x]) && p + [x] !in Links(view.tree);
        ListedLink(view.heap[p], x);
      }
      assert node.hardLinks == map[];
      node.hardLinks := map[];
      forall q | q in view.nodes
        ensures Synced(q)
      {
        assert old(Synced(q)) && Apart(view.nodes, p, q);
      }
    }

    /** Success leaves the tree that following every chain of links gives. It
        fails only over a link whose target is missing, or is itself a link that
        is not in a directory above; such a link makes some walk fail. */
    method OnLayerComplete() returns (ok: bool)
      requires Valid()
      modifies this`view, view.repr
      ensures Valid() && view.repr == old(view.repr)
      ensures ok ==> Resolvable(old(view.tree)) && view.tree == Resolved(old(view.tree))
      ensures ok ==> ResolvesByWalk(old(view.tree), view.tree)
      ensures ok ==> view.tree.Keys == old(view.tree).Keys
      ensures ok ==> forall p :: p in old(view.tree) ==>
                if old(view.tree)[p].HardLink? then Copied(old(view.tree), p, view.tree[p])
                else view.tree[p] == old(view.tree)[p]
      ensures !ok ==> exists q :: Misplaced(old(view.tree), q)
      ensures !ok ==> exists order :: Walk(old(view.tree), order) && ResolveInOrder(old(view.tree), order) == None
    {
      ghost var order;
      assert Synced([]);
      ok, order := ResolveHardlinks(root, [], view.tree, []);
      if ok {
        assert [] + order == order;
        WalkOfTree(old(view.tree), order);
        SuccessIsResolved(old(view.tree), order);
        SuccessCopiesEnds(old(view.tree), order, view.tree);
      } else {
        ghost var q :| Misplaced(old(view.tree), q);
        order := MisplacedFails(old(view.tree), q);
      }
    }

    method ClearDirectory(node: UploadDirState, ghost p: Path)
      requires Valid() && At(p, node)
      modifies this`view, node
      ensures Valid() && At(p, node) && view.repr == old(view.repr)
      ensures view.tree == Cleared(old(view.tree), p)
    {
      assert Synced(p);
      node.files := map[];
      node.subDirs := map[];
      node.symlinks := map[];
      node.hardLinks := map[];
      forall q | q in view.nodes && q != p
        ensures Synced(q)
      {
        assert old(Synced(q)) && Apart(view.nodes, p, q);
      }
      ClearRepresents(view.heap, view.tree, p);
      Commit(node, p, Emptied(view.heap, p), Cleared(view.tree, p));
    }
  }

  const WHITEOUT_PREFIX := ".wh."
  const OPAQUE_WHITEOUT := ".wh..wh..opq"

  predicate IsWhiteout(name: string)
  {
    WHITEOUT_PREFIX <= name
  }

  /** What a regular file called `name` in `dir` stands for. */
  function FileEvent(dir: Path, name: string, digest: BlobId, mode: bv64): Event
  {
    if name == OPAQUE_WHITEOUT then Opaque(dir)
    else if IsWhiteout(name) then Whiteout(dir, name[|WHITEOUT_PREFIX|..])
    else Put(dir + [name], File(digest, mode & 0x49 != 0))
  }

  /** Nothing is at p or beneath it. */
  ghost predicate Gone(m: Tree, p: Path)
  {
    forall q :: q in m ==> !(p <= q)
  }

  ghost predicate GoneBeneath(m: Tree, p: Path)
  {
    forall q :: q in m ==> !(p < q)
  }

  /** What a file's name asks for: .wh.x removes x with all that is beneath it,
      .wh..wh..opq all that is in the directory, and any other name a file. */
  lemma FileMeaning(m: Tree, dir: Path, name: string, digest: BlobId, mode: bv64)
    ensures var (ev, m') := (FileEvent(dir, name, digest, mode), Apply(m, FileEvent(dir, name, digest, mode)));
            && (".wh." <= name && name != ".wh..wh..opq" ==>
                  ev == Whiteout(dir, name[4..]) && Gone(m', dir + [name[4..]]))
            && (name == ".wh..wh..opq" ==> ev == Opaque(dir) && Lookup(m', dir) == Some(Dir) && GoneBeneath(m', dir))
            && (!(".wh." <= name) ==>
                  && ev == Put(dir + [name], File(digest, mode & 0x49 != 0))
                  && Lookup(m', dir + [name]) == Some(File(digest, mode & 0x49 != 0)))
  {
    var (ev, m') := (FileEvent(dir, name, digest, mode), Apply(m, FileEvent(dir, name, digest, mode)));
    forall q: Path
      ensures Lookup(m', q) == After(Lookup(m, q), EffectOn(ev, q))
    {
      ApplyPointwise(m, ev, q);
    }
    assert |OPAQUE_WHITEOUT| == 12 && OPAQUE_WHITEOUT[..4] == ".wh.";
    if ".wh." <= name && name != ".wh..wh..opq" {
      forall q | dir + [name[4..]] <= q
        ensures q !in m'
      {
        PrefixOfSnoc(q, dir, name[4..]);
        assert Lookup(m', q) == None;
      }
    } else if name == ".wh..wh..opq" {
      forall q | dir < q
        ensures q !in m'
      {
        assert Lookup(m', q) == None;
      }
    }
  }

  /** A path through something that is not a directory is no directory. */
  lemma NotADirectory(m: Tree, path: Path, i: nat)
    requires WellFormed(m) && i <= |path| && Lookup(m, path[..i]) != Some(Dir)
    ensures Lookup(m, path) != Some(Dir)
  {
    if path[..i] != path {
      NothingBeneath(m, path[..i], path);
    }
  }

  lemma NothingInMissing(m: Tree, dir: Path, name: string)
    requires WellFormed(m) && dir !in Dirs(m)
    ensures Lookup(m, dir + [name]) == None
  {
    NothingBeneath(m, dir, dir + [name]);
  }

  /** Deleting a leaf takes nothing else along. */
  lemma PruneLeaf(heap: Heap, tree: Tree, p: Path, name: string)
    requires Represents(heap, tree) && p in heap && p + [name] in tree && !tree[p + [name]].Dir?
    ensures Prune(tree, p + [name]) == tree - {p + [name]}
    ensures Pruned(heap, p, name).Keys == heap.Keys
  {
    var c := p + [name];
    forall q | q in tree && c <= q
      ensures q == c
    {
      if q != c {
        NothingBeneath(tree, c, q);
      }
    }
    assert c !in heap;
  }

  /** Every link beneath p lies in p itself or in one of its subdirectories. */
  lemma LinksInSubDirs(heap: Heap, tree: Tree, p: Path)
    requires Represents(heap, tree) && p in heap
    ensures forall q :: q in Links(tree) && Under(p, q) ==> Within(p, heap[p].subDirs, q)
    ensures forall x :: x in heap[p].subDirs ==> p + [x] in heap
  {
    assert MatchesAt(tree, heap, p);
    forall x | x in heap[p].subDirs
      ensures p + [x] in heap
    {
      assert heap[p].Get(x) == Lookup(tree, p + [x]);
    }
    forall q | q in Links(tree) && Under(p, q)
      ensures Within(p, heap[p].subDirs, q)
    {
      var c := p + [q[|p|]];
      assert heap[p].Get(q[|p|]) == Lookup(tree, c);
      assert c == q[..|c|];
      if c != q && Lookup(tree, c) != Some(Dir) {
        NothingBeneath(tree, c, q);
      }
    }
  }

  lemma DoneOneMore(all: set<string>, todo: set<string>, x: string)
    requires x in todo && todo <= all
    ensures all - todo + {x} == all - (todo - {x})
  {
  }

  lemma AllDone(all: set<string>)
    ensures all - all == {} && all - {} == all
  {
  }

  lemma NothingDone(s: seq<Path>)
    ensures s + [] == s
  {
  }

  lemma Regroup(a: seq<Path>, b: seq<Path>, c: seq<Path>)
    ensures a + b + c == a + (b + c)
  {
  }

  lemma NodesBeneath(nodes: Nodes, p: Path, x: string)
    requires p in nodes
    ensures (set q | q in nodes && p + [x] <= q) < (set q | q in nodes && p <= q)
  {
    var (below, all) := ((set q | q in nodes && p + [x] <= q), (set q | q in nodes && p <= q));
    forall q | q in nodes && p + [x] <= q
      ensures p <= q && q != p
    {
      PrefixOfSnoc(p, p, x);
    }
    assert p in all && p !in below && below <= all;
  }

  lemma NoOwnLinks(heap: Heap, tree: Tree, p: Path)
    requires Represents(heap, tree) && p in heap && heap[p].hardLinks == map[]
    ensures forall q :: q in Links(tree) ==> !Within(p, {}, q)
  {
    assert MatchesAt(tree, heap, p);
    forall x
      ensures p + [x] !in Links(tree)
    {
      assert heap[p].Get(x) == Lookup(tree, p + [x]);
      ListedLink(heap[p], x);
    }
    forall q | Within(p, {}, q)
      ensures q !in Links(tree)
    {
      assert q == p + [q[|p|]];
    }
  }

  /** When p's own links are done, so are those above its subdirectories. */
  lemma AncestorsBelow(links: set<Path>, m: Tree, p: Path, names: set<string>, x: string)
    requires forall q :: q in links && q != [] ==> !(Parent(q) < p)
    requires Links(m) == Left(links, p, names)
    ensures AncestorsDone(m, p + [x])
  {
    forall q | q in Links(m) && q != []
      ensures !(Parent(q) < p + [x])
    {
      PrefixOfSnoc(Parent(q), p, x);
      assert q == Parent(q) + [Last(q)] && Under(Parent(q), q);
    }
  }

  lemma ListedLink(v: Listing, x: string)
    requires v.DisjointNames()
    ensures x in v.hardLinks <==> v.Get(x).Some? && v.Get(x).value.HardLink?
  {
  }

  lemma SubDirNodes(heap: Heap, tree: Tree, p: Path, x: string)
    requires Represents(heap, tree) && p in heap && p + [x] in heap
    ensures x in heap[p].subDirs
  {
    assert MatchesAt(tree, heap, p);
    assert heap[p].Get(x) == Lookup(tree, p + [x]);
  }

  lemma LinkGone(m: Tree, p: Path)
    requires p in m && m[p].HardLink? && Direct(m, m[p].link).Some?
    ensures Links(m[p := Direct(m, m[p].link).value]) == Links(m) - {p}
  {
  }

  lemma NoSharingSub(nodes: Nodes, nodes': Nodes)
    requires NoSharing(nodes) && forall q :: q in nodes' ==> q in nodes && nodes'[q] == nodes[q]
    ensures NoSharing(nodes')
  {
    forall p, q
      ensures Apart(nodes', p, q)
    {
      assert Apart(nodes, p, q);
    }
  }
}
