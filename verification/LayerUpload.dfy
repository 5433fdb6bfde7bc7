/** The upload of the accumulated tree (upload, assertNoDuplicateNames, toSlice
    and UploadDirectories in pkg/blobstore/cas_uploading_layer_extractor.go). */
module LayerUpload {
  import opened LayerTree
  import opened Sorting
  import opened RemoteExecution
  import opened UploadedTree
  import LayerExtractor

  method ToSlice<V>(m: map<string, V>) returns (r: seq<V>, ghost keys: seq<string>)
    ensures |r| == |keys| && Distinct(keys)
    ensures forall i :: 0 <= i < |r| ==> keys[i] in m && r[i] == m[keys[i]]
    ensures forall x :: x in m ==> x in keys
  {
    r, keys := [], [];
    var todo := m.Keys;
    while todo != {}
      invariant |r| == |keys| && Distinct(keys) && todo <= m.Keys
      invariant forall i :: 0 <= i < |r| ==> keys[i] in m && keys[i] !in todo && r[i] == m[keys[i]]
      invariant forall x :: x in m ==> x in todo || x in keys
    {
      var x :| x in todo;
      r, keys, todo := r + [m[x]], keys + [x], todo - {x};
    }
  }

  // ---- assertNoDuplicateNames ----

  /** One loop over a list of names; `seen` holds the names met before. */
  method SeeNames(seen: set<string>, names: seq<string>) returns (ok: bool, seen': set<string>)
    ensures ok <==> Distinct(names) && forall x :: x in names ==> x !in seen
    ensures ok ==> seen' == seen + set x | x in names
  {
    seen' := seen;
    for n := 0 to |names|
      invariant Distinct(names[..n]) && forall i :: 0 <= i < n ==> names[i] !in seen
      invariant seen' == seen + set x | x in names[..n]
    {
      if names[n] in seen' {
        assert names[n] in names[..n] ==> exists i :: 0 <= i < n && names[i] == names[n];
        return false, seen';
      }
      seen' := seen' + {names[n]};
      assert names[..n + 1] == names[..n] + [names[n]];
    }
    assert names[..|names|] == names;
    ok := true;
  }

  function Names<T>(s: seq<T>, name: T -> string): seq<string>
  {
    seq(|s|, i requires 0 <= i < |s| => name(s[i]))
  }

  method AssertNoDuplicateNames(dir: Directory) returns (ok: bool)
    ensures ok <==> UniqueNames(dir)
  {
    var seen: set<string>;
    var (directories, symlinks, files) :=
      (Names(dir.directories, DirectoryName), Names(dir.symlinks, SymlinkName), Names(dir.files, FileName));
    NamesAlike(dir.directories, DirectoryName);
    NamesAlike(dir.symlinks, SymlinkName);
    NamesAlike(dir.files, FileName);
    NamesMeet(dir.directories, DirectoryName, dir.symlinks, SymlinkName);
    NamesMeet(dir.directories, DirectoryName, dir.files, FileName);
    NamesMeet(dir.symlinks, SymlinkName, dir.files, FileName);
    ok, seen := SeeNames({}, directories);
    if ok {
      ok, seen := SeeNames(seen, symlinks);
      if ok {
        ok, seen := SeeNames(seen, files);
      }
    }
  }

  lemma NamesAlike<T>(s: seq<T>, name: T -> string)
    ensures Distinct(Names(s, name)) <==> NamesDistinct(s, name)
    ensures forall a :: a in s ==> name(a) in Names(s, name)
  {
    var names := Names(s, name);
    assert forall i :: 0 <= i < |s| ==> names[i] == name(s[i]);
    forall a | a in s
      ensures name(a) in names
    {
      var i :| 0 <= i < |s| && s[i] == a;
      assert names[i] == name(a);
    }
  }

  lemma NamesMeet<S(!new), T(!new)>(s: seq<S>, sName: S -> string, t: seq<T>, tName: T -> string)
    ensures NoCommonName(s, sName, t, tName) <==> forall x :: x in Names(t, tName) ==> x !in Names(s, sName)
  {
    NamesAlike(s, sName);
    NamesAlike(t, tName);
    if NoCommonName(s, sName, t, tName) {
      forall i, j | 0 <= i < |s| && 0 <= j < |t|
        ensures sName(s[i]) != tName(t[j])
      {
        assert s[i] in s && t[j] in t;
      }
    }
  }

  // ---- From a node to a message ----

  /** The message has the entries of the listing, each once, in any order. */
  ghost predicate Transcribes(v: LayerExtractor.Listing, dir: Directory)
  {
    && (forall f :: f in dir.files <==>
      f.name in v.files && v.files[f.name] == LayerExtractor.FileNode(f.digest, f.executable))
    && (forall l :: l in dir.symlinks <==> l.name in v.symlinks && v.symlinks[l.name] == l.target)
    && (forall d :: d in dir.directories ==> d.name in v.subDirs)
    && (forall x :: x in v.subDirs ==> exists c :: DirectoryNode(x, c) in dir.directories)
    && NamesDistinct(dir.files, FileName)
    && NamesDistinct(dir.directories, DirectoryName)
    && NamesDistinct(dir.symlinks, SymlinkName)
  }

  /** The four maps of a node are disjoint, so the duplicate check passes. */
  lemma TranscribedUnique(v: LayerExtractor.Listing, dir: Directory)
    requires v.DisjointNames() && Transcribes(v, dir)
    ensures UniqueNames(dir)
  {
  }

  lemma TranscribedLists(tree: Tree, p: Path, v: LayerExtractor.Listing, dir: Directory)
    requires LayerExtractor.Matches(tree, p, v) && Transcribes(v, dir)
    ensures Lists(dir, tree, p)
  {
    forall name
      ensures v.Get(name) == Child(tree, p, name)
    {
    }
    forall name | Child(tree, p, name).Some? && !Child(tree, p, name).value.HardLink?
      ensures Listed(dir, name)
    {
      match v.Get(name).value
      case Dir =>
        var c :| DirectoryNode(name, c) in dir.directories;
        assert Has(dir, name, DirectoryAt(c));
      case File(digest, executable) =>
        assert FileNode(name, digest, executable) in dir.files;
        assert Has(dir, name, FileAt(digest, executable));
      case Symlink(target) =>
        assert SymlinkNode(name, target) in dir.symlinks;
        assert Has(dir, name, LinkAt(target));
    }
  }

  method FilesOf(files: map<string, LayerExtractor.FileNode>) returns (r: seq<FileNode>)
    ensures forall f :: f in r <==> f.name in files && files[f.name] == LayerExtractor.FileNode(f.digest, f.executable)
    ensures NamesDistinct(r, FileName)
  {
    ghost var keys;
    var m := map x | x in files :: FileNode(x, files[x].digest, files[x].executable);
    r, keys := ToSlice(m);
    forall f: FileNode | f.name in files && files[f.name] == LayerExtractor.FileNode(f.digest, f.executable)
      ensures f in r
    {
      assert f.name in m;
      var i :| 0 <= i < |keys| && keys[i] == f.name;
      assert r[i] == f;
    }
  }

  method SymlinksOf(symlinks: map<string, string>) returns (r: seq<SymlinkNode>)
    ensures forall l :: l in r <==> l.name in symlinks && symlinks[l.name] == l.target
    ensures NamesDistinct(r, SymlinkName)
  {
    ghost var keys;
    var m := map x | x in symlinks :: SymlinkNode(x, symlinks[x]);
    r, keys := ToSlice(m);
    forall l: SymlinkNode | l.name in symlinks && symlinks[l.name] == l.target
      ensures l in r
    {
      assert l.name in m;
      var i :| 0 <= i < |keys| && keys[i] == l.name;
      assert r[i] == l;
    }
  }

  // ---- The recursion ----

  /** The listed children of p are uploaded, and only they. */
  ghost predicate ChildrenDone(cas: Cas, hash: Hash, tree: Tree, p: Path, names: set<string>, nodes: seq<DirectoryNode>)
    requires p in tree
  {
    && (forall d :: d in nodes ==>
      d.name in names && Child(tree, p, d.name).Some? && SubUploaded(cas, hash, tree, p, d.name, d.digest))
    && (forall x :: x in names ==> exists c :: DirectoryNode(x, c) in nodes)
    && NamesDistinct(nodes, DirectoryName)
  }

  lemma AddDone(cas: Cas, cas': Cas, hash: Hash, tree: Tree, p: Path, names: set<string>, nodes: seq<DirectoryNode>,
                x: string, c: Digest)
    requires p in tree && ChildrenDone(cas, hash, tree, p, names, nodes) && Extends(cas, cas')
    requires x !in names && Child(tree, p, x).Some? && SubUploaded(cas', hash, tree, p, x, c)
    ensures ChildrenDone(cas', hash, tree, p, names + {x}, nodes + [DirectoryNode(x, c)])
  {
    var nodes' := nodes + [DirectoryNode(x, c)];
    forall d | d in nodes
      ensures SubUploaded(cas', hash, tree, p, d.name, d.digest)
    {
      UploadedMonotone(cas, cas', hash, tree, p + [d.name], d.digest);
    }
    forall y | y in names + {x}
      ensures exists c' :: DirectoryNode(y, c') in nodes'
    {
      if y in names {
        var c' :| DirectoryNode(y, c') in nodes;
        assert DirectoryNode(y, c') in nodes';
      } else {
        assert nodes'[|nodes|] == DirectoryNode(x, c);
      }
    }
    assert forall i :: 0 <= i < |nodes| ==> nodes[i] in nodes;
  }

  /** Storing the message of p completes its subtree. */
  lemma StoreMessage(cas: Cas, hash: Hash, tree: Tree, p: Path, v: LayerExtractor.Listing, dir: Directory,
                     dir': Directory)
    requires Injective(hash) && Sound(cas, hash) && p in tree
    requires LayerExtractor.Matches(tree, p, v) && Transcribes(v, dir) && SortedForm(dir, dir')
    requires ChildrenDone(cas, hash, tree, p, v.subDirs, dir.directories)
    ensures Uploaded(PutProto(cas, hash, Folder(dir')), hash, tree, p, hash(Folder(dir')))
  {
    var cas' := PutProto(cas, hash, Folder(dir'));
    PutExtends(cas, hash, Folder(dir'));
    TranscribedUnique(v, dir);
    TranscribedLists(tree, p, v, dir);
    SortedFormKeeps(dir, dir');
    forall name, c | Has(dir', name, DirectoryAt(c))
      ensures Child(tree, p, name).Some? && SubUploaded(cas', hash, tree, p, name, c)
    {
      assert Has(dir, name, DirectoryAt(c)) && DirectoryNode(name, c) in dir.directories;
      UploadedMonotone(cas, cas', hash, tree, p + [name], c);
    }
    SameLists(dir, dir', tree, p);
  }

  lemma SameLists(dir: Directory, dir': Directory, tree: Tree, p: Path)
    requires Lists(dir, tree, p) && forall name, node :: Has(dir', name, node) <==> Has(dir, name, node)
    ensures Lists(dir', tree, p)
  {
    forall name | Listed(dir, name)
      ensures Listed(dir', name)
    {
      var node :| Has(dir, name, node);
      assert Has(dir', name, node);
    }
  }

  /** upload of the node at p: the result is the digest of a canonical Merkle
      tree for p, and the duplicate check never fails. */
  method Upload(e: LayerExtractor.Extractor, node: LayerExtractor.UploadDirState, ghost p: Path, hash: Hash, cas: Cas)
    returns (d: Digest, cas': Cas)
    requires e.Valid() && e.At(p, node) && Injective(hash) && Sound(cas, hash)
    ensures Sound(cas', hash) && Extends(cas, cas')
    ensures p in e.view.tree && Uploaded(cas', hash, e.view.tree, p, d)
    decreases set q | q in e.view.tree && p <= q
  {
    assert e.Synced(p) && LayerExtractor.MatchesAt(e.view.tree, e.view.heap, p);
    assert p in (set q | q in e.view.tree && p <= q);
    ghost var tree := e.view.tree;
    var dirNodes: seq<DirectoryNode> := [];
    cas' := cas;
    var todo := node.subDirs.Keys;
    while todo != {}
      invariant Sound(cas', hash) && Extends(cas, cas') && todo <= node.subDirs.Keys
      invariant ChildrenDone(cas', hash, tree, p, node.subDirs.Keys - todo, dirNodes)
    {
      var name :| name in todo;
      assert e.At(p + [name], node.subDirs[name]);
      assert Child(tree, p, name) == e.view.heap[p].Get(name);
      Beneath(tree, p, name);
      ghost var before := cas';
      var c;
      c, cas' := Upload(e, node.subDirs[name], p + [name], hash, cas');
      AddDone(before, cas', hash, tree, p, node.subDirs.Keys - todo, dirNodes, name, c);
      dirNodes := dirNodes + [DirectoryNode(name, c)];
      todo := todo - {name};
      assert node.subDirs.Keys - todo == node.subDirs.Keys - (todo + {name}) + {name};
    }
    assert node.subDirs.Keys - {} == node.subDirs.Keys;
    d, cas' := StoreNode(node, dirNodes, hash, cas', tree, p);
  }

  /** The second half of upload: collect, check, sort and store. */
  method StoreNode(node: LayerExtractor.UploadDirState, dirNodes: seq<DirectoryNode>, hash: Hash, cas: Cas,
                   ghost tree: Tree, ghost p: Path)
    returns (d: Digest, cas': Cas)
    requires Injective(hash) && Sound(cas, hash) && p in tree && LayerExtractor.Matches(tree, p, node.Value())
    requires ChildrenDone(cas, hash, tree, p, node.subDirs.Keys, dirNodes)
    ensures Sound(cas', hash) && Extends(cas, cas') && Uploaded(cas', hash, tree, p, d)
  {
    var symlinks := SymlinksOf(node.symlinks);
    var files := FilesOf(node.files);
    var directory := Directory(files, dirNodes, symlinks);
    var ok := AssertNoDuplicateNames(directory);
    TranscribedUnique(node.Value(), directory);
    assert ok;
    var directory' := SortDirectory(directory);
    StoreMessage(cas, hash, tree, p, node.Value(), directory, directory');
    PutExtends(cas, hash, Folder(directory'));
    d, cas' := hash(Folder(directory')), PutProto(cas, hash, Folder(directory'));
  }

  /** UploadDirectories: stores the whole tree and starts over with an empty
      one. */
  method UploadDirectories(e: LayerExtractor.Extractor, hash: Hash, cas: Cas) returns (d: Digest, cas': Cas)
    requires e.Valid() && Injective(hash) && Sound(cas, hash)
    modifies e
    ensures Sound(cas', hash) && Extends(cas, cas')
    ensures WellFormed(old(e.view.tree)) && Uploaded(cas', hash, old(e.view.tree), [], d)
    ensures e.Valid() && e.view.tree == map[[] := Dir]
  {
    assert e.Synced([]);
    d, cas' := Upload(e, e.root, [], hash, cas);
    e.Reset();
  }
}
