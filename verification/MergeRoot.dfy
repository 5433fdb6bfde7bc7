/** Nesting an action's input root in the root directory of an image
    (mergeDockerRootOp.apply and assertDirectoryDoesntContainName in
    pkg/actionrouter/op_merge.go, putDirectory in pkg/actionrouter/pipeline.go). */
module MergeRoot {
  import opened LayerTree
  import opened RemoteExecution
  import opened DirTreeVerifier

  const BAZEL_INPUT_ROOT := "bazel_exec_root"

  ghost predicate ContainsName(dir: Directory, name: string)
  {
    exists node :: Has(dir, name, node)
  }

  method AssertDirectoryDoesntContainName(dir: Directory, name: string) returns (ok: bool)
    ensures ok <==> !ContainsName(dir, name)
  {
    for n := 0 to |dir.directories|
      invariant forall i :: 0 <= i < n ==> dir.directories[i].name != name
    {
      if dir.directories[n].name == name {
        assert Has(dir, name, DirectoryAt(dir.directories[n].digest));
        return false;
      }
    }
    for n := 0 to |dir.files|
      invariant forall i :: 0 <= i < n ==> dir.files[i].name != name
    {
      if dir.files[n].name == name {
        assert Has(dir, name, FileAt(dir.files[n].digest, dir.files[n].executable));
        return false;
      }
    }
    for n := 0 to |dir.symlinks|
      invariant forall i :: 0 <= i < n ==> dir.symlinks[i].name != name
    {
      if dir.symlinks[n].name == name {
        assert Has(dir, name, LinkAt(dir.symlinks[n].target));
        return false;
      }
    }
    ok := true;
  }

  /** The image's root directory with the input root added. */
  function Merged(image: Directory, inputRoot: Digest): Directory
  {
    image.(directories := image.directories + [DirectoryNode(BAZEL_INPUT_ROOT, inputRoot)])
  }

  /** The merged directory has the image's entries, the input root, and nothing
      else. */
  lemma MergedHas(image: Directory, inputRoot: Digest, name: string, node: Node)
    ensures Has(Merged(image, inputRoot), name, node) <==>
            Has(image, name, node) || (name == BAZEL_INPUT_ROOT && node == DirectoryAt(inputRoot))
  {
  }

  lemma MergedUnique(image: Directory, inputRoot: Digest)
    requires UniqueNames(image) && !ContainsName(image, BAZEL_INPUT_ROOT)
    ensures UniqueNames(Merged(image, inputRoot))
  {
    forall f | f in image.files
      ensures f.name != BAZEL_INPUT_ROOT
    {
      assert Has(image, f.name, FileAt(f.digest, f.executable));
    }
    forall d | d in image.directories
      ensures d.name != BAZEL_INPUT_ROOT
    {
      assert Has(image, d.name, DirectoryAt(d.digest));
    }
    forall l | l in image.symlinks
      ensures l.name != BAZEL_INPUT_ROOT
    {
      assert Has(image, l.name, LinkAt(l.target));
    }
    assert forall i :: 0 <= i < |image.directories| ==> image.directories[i] in image.directories;
  }

  /** `root` is the digest under which some sorted form of the merged directory
      has just been stored. */
  ghost predicate MergeStored(cas: Cas, hash: Hash, image: Digest, inputRoot: Digest, cas': Cas, root: Digest)
  {
    && Readable(cas, image) && !ContainsName(cas[image].dir, BAZEL_INPUT_ROOT)
    && exists dir :: SortedForm(Merged(cas[image].dir, inputRoot), dir) && StoredAs(cas, hash, dir, cas', root)
  }

  ghost predicate StoredAs(cas: Cas, hash: Hash, dir: Directory, cas': Cas, root: Digest)
  {
    cas' == PutProto(cas, hash, Folder(dir)) && root == hash(Folder(dir))
  }

  method PutDirectory(cas: Cas, hash: Hash, dir: Directory) returns (root: Digest, cas': Cas)
    ensures exists dir' :: SortedForm(dir, dir') && StoredAs(cas, hash, dir', cas', root)
  {
    var dir' := SortDirectory(dir);
    root, cas' := hash(Folder(dir')), PutProto(cas, hash, Folder(dir'));
    assert StoredAs(cas, hash, dir', cas', root);
  }

  /** The middle of apply: None when the image directory cannot be read or
      already has an entry called bazel_exec_root. */
  method Merge(cas: Cas, hash: Hash, image: Digest, inputRoot: Digest) returns (root: Option<Digest>, cas': Cas)
    ensures root.Some? <==> Readable(cas, image) && !ContainsName(cas[image].dir, BAZEL_INPUT_ROOT)
    ensures root.Some? ==> MergeStored(cas, hash, image, inputRoot, cas', root.value)
    ensures root.None? ==> cas' == cas
  {
    if image !in cas || !cas[image].Folder? {
      return None, cas;
    }
    var ok := AssertDirectoryDoesntContainName(cas[image].dir, BAZEL_INPUT_ROOT);
    if !ok {
      return None, cas;
    }
    var digest;
    digest, cas' := PutDirectory(cas, hash, Merged(cas[image].dir, inputRoot));
    root := Some(digest);
  }

  // ---- What paths mean afterwards ----

  /** What path q leads to in the image with the input root mounted in it. */
  ghost predicate Mounted(cas: Cas, image: Digest, inputRoot: Digest, q: Path, node: Node)
    requires q != []
  {
    if q[0] == BAZEL_INPUT_ROOT then Resolves(cas, inputRoot, q[1..], node)
    else Resolves(cas, image, q, node)
  }

  /** Under bazel_exec_root lies exactly the old input root, everywhere else
      exactly the image, for every path and whatever the sort did. */
  lemma MergePreservesMeaning(cas: Cas, hash: Hash, image: Digest, inputRoot: Digest, cas': Cas, root: Digest, q: Path,
                              node: Node)
    requires Injective(hash) && Sound(cas, hash) && MergeStored(cas, hash, image, inputRoot, cas', root) && q != []
    ensures Resolves(cas', root, q, node) <==> Mounted(cas', image, inputRoot, q, node)
  {
    var dir :| SortedForm(Merged(cas[image].dir, inputRoot), dir) && StoredAs(cas, hash, dir, cas', root);
    PutExtends(cas, hash, Folder(dir));
    SortedFormKeeps(Merged(cas[image].dir, inputRoot), dir);
    forall child
      ensures Has(dir, q[0], child) <==>
              if q[0] == BAZEL_INPUT_ROOT then child == DirectoryAt(inputRoot) else Has(cas[image].dir, q[0], child)
    {
      MergedHas(cas[image].dir, inputRoot, q[0], child);
    }
    if q[0] == BAZEL_INPUT_ROOT {
      OnlyChild(cas', root, DirectoryAt(inputRoot), q, node);
    } else {
      assert cas'[image] == cas[image];
      SameChildren(cas', root, image, q, node);
      SameChildren(cas', image, root, q, node);
    }
  }

  /** The same in any larger store: bazel_exec_root leads into the old root. */
  lemma MergeNests(cas: Cas, hash: Hash, image: Digest, inputRoot: Digest, cas': Cas, root: Digest, larger: Cas,
                   p: Path, node: Node)
    requires Injective(hash) && Sound(cas, hash) && MergeStored(cas, hash, image, inputRoot, cas', root)
    requires Extends(cas', larger)
    ensures Resolves(larger, root, [BAZEL_INPUT_ROOT] + p, node) <==> Resolves(larger, inputRoot, p, node)
  {
    var q := [BAZEL_INPUT_ROOT] + p;
    var dir :| SortedForm(Merged(cas[image].dir, inputRoot), dir) && StoredAs(cas, hash, dir, cas', root);
    SortedFormKeeps(Merged(cas[image].dir, inputRoot), dir);
    forall child
      ensures Has(dir, BAZEL_INPUT_ROOT, child) <==> child == DirectoryAt(inputRoot)
    {
      MergedHas(cas[image].dir, inputRoot, BAZEL_INPUT_ROOT, child);
    }
    assert q[1..] == p && larger[root] == Folder(dir);
    OnlyChild(larger, root, DirectoryAt(inputRoot), q, node);
  }

  lemma OnlyChild(cas: Cas, d: Digest, child: Node, q: Path, node: Node)
    requires q != [] && Readable(cas, d) && child.DirectoryAt?
    requires forall c :: Has(cas[d].dir, q[0], c) <==> c == child
    ensures Resolves(cas, d, q, node) <==> Resolves(cas, child.digest, q[1..], node)
  {
    assert ResolvesFrom(cas, child, q[1..], node) <==> Resolves(cas, child.digest, q[1..], node);
  }

  lemma SameChildren(cas: Cas, d: Digest, d': Digest, q: Path, node: Node)
    requires q != [] && Readable(cas, d) && Readable(cas, d')
    requires forall c :: Has(cas[d].dir, q[0], c) <==> Has(cas[d'].dir, q[0], c)
    ensures Resolves(cas, d, q, node) ==> Resolves(cas, d', q, node)
  {
    if Resolves(cas, d, q, node) {
      var c :| Has(cas[d].dir, q[0], c) && ResolvesFrom(cas, c, q[1..], node);
      assert Has(cas[d'].dir, q[0], c);
    }
  }

  /** Complete trees mean the same before and after the merge, so it preserves
      their meaning outright. */
  lemma MergeOfCompleteTrees(cas: Cas, hash: Hash, image: Digest, inputRoot: Digest, cas': Cas, root: Digest, q: Path,
                             node: Node)
    requires Injective(hash) && Sound(cas, hash) && MergeStored(cas, hash, image, inputRoot, cas', root) && q != []
    requires Complete(cas, image) && Complete(cas, inputRoot)
    ensures Resolves(cas', root, q, node) <==> Mounted(cas, image, inputRoot, q, node)
    ensures Resolves(cas', root, q, node) ==> Present(cas', node)
  {
    MergeExtends(cas, hash, image, inputRoot, cas', root);
    MergePreservesMeaning(cas, hash, image, inputRoot, cas', root, q, node);
    CompleteIsStable(cas, cas', image, q, node);
    CompleteIsStable(cas, cas', inputRoot, q[1..], node);
  }

  lemma MergeIsComplete(cas: Cas, hash: Hash, image: Digest, inputRoot: Digest, cas': Cas, root: Digest)
    requires Injective(hash) && Sound(cas, hash) && MergeStored(cas, hash, image, inputRoot, cas', root)
    requires Complete(cas, image) && Complete(cas, inputRoot)
    ensures Complete(cas', root)
  {
    MergeExtends(cas, hash, image, inputRoot, cas', root);
    forall q, node | Resolves(cas', root, q, node)
      ensures Present(cas', node)
    {
      if q != [] {
        MergeOfCompleteTrees(cas, hash, image, inputRoot, cas', root, q, node);
      }
    }
  }

  lemma MergeExtends(cas: Cas, hash: Hash, image: Digest, inputRoot: Digest, cas': Cas, root: Digest)
    requires Injective(hash) && Sound(cas, hash) && MergeStored(cas, hash, image, inputRoot, cas', root)
    ensures Sound(cas', hash) && Extends(cas, cas') && Readable(cas', root)
  {
    var dir :| SortedForm(Merged(cas[image].dir, inputRoot), dir) && StoredAs(cas, hash, dir, cas', root);
    PutExtends(cas, hash, Folder(dir));
  }

  /** Unique names in the image give a canonical merged directory, and then only
      one digest is possible. */
  lemma MergeIsCanonical(cas: Cas, hash: Hash, image: Digest, inputRoot: Digest, cas': Cas, root: Digest, cas'': Cas,
                         root': Digest)
    requires MergeStored(cas, hash, image, inputRoot, cas', root) && UniqueNames(cas[image].dir)
    requires MergeStored(cas, hash, image, inputRoot, cas'', root')
    ensures Readable(cas', root) && Canonical(cas'[root].dir)
    ensures root == root' && cas' == cas''
  {
    var merged := Merged(cas[image].dir, inputRoot);
    var dir :| SortedForm(merged, dir) && StoredAs(cas, hash, dir, cas', root);
    var dir' :| SortedForm(merged, dir') && StoredAs(cas, hash, dir', cas'', root');
    MergedUnique(cas[image].dir, inputRoot);
    SortedFormKeeps(merged, dir);
    SortedFormKeeps(merged, dir');
    CanonicalUnique(dir, dir');
  }
}
