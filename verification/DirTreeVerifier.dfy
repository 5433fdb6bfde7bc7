/** pkg/blobstore/dir_tree_verifier.go: is everything that a root digest leads to
    in the CAS? */
module DirTreeVerifier {
  import opened LayerTree
  import opened RemoteExecution
  import opened UploadedTree

  /** Everything that any path from d leads to can be fetched. */
  ghost predicate Complete(cas: Cas, d: Digest)
  {
    forall q, node :: Resolves(cas, d, q, node) ==> Present(cas, node)
  }

  predicate Present(cas: Cas, node: Node)
  {
    match node
    case DirectoryAt(c) => Readable(cas, c)
    case FileAt(c, _) => c in cas
    case LinkAt(_) => true
  }

  /** A digest that the storage could hold but does not. */
  predicate Missing(cas: Cas, wellFormed: Digest -> bool, node: Node)
  {
    !node.LinkAt? && wellFormed(node.digest) && node.digest !in cas
  }

  /** A digest that cannot be parsed, or a directory that cannot. */
  predicate Broken(cas: Cas, wellFormed: Digest -> bool, node: Node)
  {
    && !node.LinkAt?
    && (!wellFormed(node.digest) || (node.DirectoryAt? && node.digest in cas && !cas[node.digest].Folder?))
  }

  datatype Status = OK | NotFound | Invalid

  /** Digests are hashes of what contains them, so no directory contains itself:
      ranks fall from parent to child. */
  ghost predicate Acyclic(cas: Cas, rank: Digest -> nat)
  {
    forall d, name, c :: Readable(cas, d) && Has(cas[d].dir, name, DirectoryAt(c)) ==> rank(c) < rank(d)
  }

  /** Every directory on a path can be read and every file has its contents. */
  lemma CompleteIff(cas: Cas, d: Digest)
    ensures Complete(cas, d) <==>
            && (forall q, c :: Resolves(cas, d, q, DirectoryAt(c)) ==> c in cas && cas[c].Folder?)
            && (forall q, c, x :: Resolves(cas, d, q, FileAt(c, x)) ==> c in cas)
  {
    if Complete(cas, d) {
      assert forall q, c :: Resolves(cas, d, q, DirectoryAt(c)) ==> Present(cas, DirectoryAt(c));
      assert forall q, c, x :: Resolves(cas, d, q, FileAt(c, x)) ==> Present(cas, FileAt(c, x));
    } else {
      var q, node :| Resolves(cas, d, q, node) && !Present(cas, node);
      match node
      case DirectoryAt(c) => assert Resolves(cas, d, q, DirectoryAt(c));
      case FileAt(c, x) => assert Resolves(cas, d, q, FileAt(c, x));
    }
  }

  lemma ResolvesCons(cas: Cas, d: Digest, name: string, child: Node, q: Path, node: Node)
    requires Readable(cas, d) && Has(cas[d].dir, name, child) && ResolvesFrom(cas, child, q, node)
    ensures Resolves(cas, d, [name] + q, node)
  {
    assert ([name] + q)[1..] == q;
  }

  ghost predicate FilesPresent(cas: Cas, files: seq<FileNode>)
  {
    forall i :: 0 <= i < |files| ==> files[i].digest in cas
  }

  /** Completeness, one level at a time. */
  lemma CompleteUnfolds(cas: Cas, d: Digest)
    ensures Complete(cas, d) <==>
            && Readable(cas, d) && FilesPresent(cas, cas[d].dir.files)
            && forall i :: 0 <= i < |cas[d].dir.directories| ==> Complete(cas, cas[d].dir.directories[i].digest)
  {
    if Complete(cas, d) {
      assert Resolves(cas, d, [], DirectoryAt(d));
      assert Present(cas, DirectoryAt(d));
      forall i | 0 <= i < |cas[d].dir.files|
        ensures cas[d].dir.files[i].digest in cas
      {
        var f := cas[d].dir.files[i];
        ResolvesCons(cas, d, f.name, FileAt(f.digest, f.executable), [], FileAt(f.digest, f.executable));
        assert Present(cas, FileAt(f.digest, f.executable));
      }
      forall i, q, node | 0 <= i < |cas[d].dir.directories| && Resolves(cas, cas[d].dir.directories[i].digest, q, node)
        ensures Present(cas, node)
      {
        var n := cas[d].dir.directories[i];
        ResolvesCons(cas, d, n.name, DirectoryAt(n.digest), q, node);
      }
    } else {
      var q, node :| Resolves(cas, d, q, node) && !Present(cas, node);
      if q != [] {
        IncompleteBelow(cas, d, q, node);
      }
    }
  }

  lemma IncompleteBelow(cas: Cas, d: Digest, q: Path, node: Node)
    requires q != [] && Resolves(cas, d, q, node) && !Present(cas, node)
    ensures Readable(cas, d)
    ensures !FilesPresent(cas, cas[d].dir.files) ||
            exists i :: 0 <= i < |cas[d].dir.directories| && !Complete(cas, cas[d].dir.directories[i].digest)
  {
    var child :| Has(cas[d].dir, q[0], child) && ResolvesFrom(cas, child, q[1..], node);
    if child.DirectoryAt? {
      assert Resolves(cas, child.digest, q[1..], node);
      assert !Complete(cas, child.digest);
      var i :| 0 <= i < |cas[d].dir.directories| && cas[d].dir.directories[i] == DirectoryNode(q[0], child.digest);
      assert !Complete(cas, cas[d].dir.directories[i].digest);
    } else if child.FileAt? {
      var i :| 0 <= i < |cas[d].dir.files| && cas[d].dir.files[i] == FileNode(q[0], child.digest, child.executable);
    }
  }

  /** A complete tree means the same in every larger store. */
  lemma {:induction false} CompleteIsStable(cas: Cas, cas': Cas, d: Digest, q: Path, node: Node)
    requires Complete(cas, d) && Extends(cas, cas')
    ensures Resolves(cas', d, q, node) <==> Resolves(cas, d, q, node)
    ensures Resolves(cas', d, q, node) ==> Present(cas', node)
    decreases |q|
  {
    CompleteUnfolds(cas, d);
    if Resolves(cas, d, q, node) {
      ResolvesMonotone(cas, cas', d, q, node);
    } else if q != [] && Resolves(cas', d, q, node) {
      var child :| Has(cas'[d].dir, q[0], child) && ResolvesFrom(cas', child, q[1..], node);
      if q[1..] != [] {
        CompleteIsStable(cas, cas', child.digest, q[1..], node);
      }
      assert ResolvesFrom(cas, child, q[1..], node);
    }
  }

  lemma CompleteStays(cas: Cas, cas': Cas, d: Digest)
    requires Complete(cas, d) && Extends(cas, cas')
    ensures Complete(cas', d)
  {
    forall q, node | Resolves(cas', d, q, node)
      ensures Present(cas', node)
    {
      CompleteIsStable(cas, cas', d, q, node);
    }
  }

  /** verifyFiles: one FindMissing call over the set of the files' digests. */
  method VerifyFiles(cas: Cas, wellFormed: Digest -> bool, files: seq<FileNode>) returns (r: Status)
    requires forall d :: d in cas ==> wellFormed(d)
    ensures r == OK <==> FilesPresent(cas, files)
    ensures r == NotFound ==> exists i :: 0 <= i < |files| && wellFormed(files[i].digest) && files[i].digest !in cas
    ensures r == Invalid ==> exists i :: 0 <= i < |files| && !wellFormed(files[i].digest)
  {
    if |files| == 0 {
      return OK;
    }
    var digests: set<Digest> := {};
    for n := 0 to |files|
      invariant digests == set i | 0 <= i < n :: files[i].digest
      invariant forall i :: 0 <= i < n ==> wellFormed(files[i].digest)
    {
      if !wellFormed(files[n].digest) {
        return Invalid;
      }
      digests := digests + {files[n].digest};
    }
    var missing := digests - cas.Keys;
    if missing != {} {
      var d :| d in missing;
      assert exists i :: 0 <= i < |files| && files[i].digest == d;
      return NotFound;
    }
    forall i | 0 <= i < |files|
      ensures files[i].digest in cas
    {
      assert files[i].digest in digests && files[i].digest !in missing;
    }
    r := OK;
  }

  /** What an error says about the tree: some path leads to the culprit. */
  ghost predicate Explains(r: Status, cas: Cas, wellFormed: Digest -> bool, d: Digest)
  {
    && (r == NotFound ==> exists q, node :: Resolves(cas, d, q, node) && Missing(cas, wellFormed, node))
    && (r == Invalid ==> exists q, node :: Resolves(cas, d, q, node) && Broken(cas, wellFormed, node))
  }

  lemma ExplainsBelow(r: Status, cas: Cas, wellFormed: Digest -> bool, d: Digest, n: DirectoryNode)
    requires Readable(cas, d) && n in cas[d].dir.directories && Explains(r, cas, wellFormed, n.digest)
    ensures Explains(r, cas, wellFormed, d)
  {
    if r == NotFound {
      var q, node :| Resolves(cas, n.digest, q, node) && Missing(cas, wellFormed, node);
      ResolvesCons(cas, d, n.name, DirectoryAt(n.digest), q, node);
    } else if r == Invalid {
      var q, node :| Resolves(cas, n.digest, q, node) && Broken(cas, wellFormed, node);
      ResolvesCons(cas, d, n.name, DirectoryAt(n.digest), q, node);
    }
  }

  lemma ExplainsFile(r: Status, cas: Cas, wellFormed: Digest -> bool, d: Digest, f: FileNode)
    requires Readable(cas, d) && f in cas[d].dir.files
    requires r == NotFound ==> wellFormed(f.digest) && f.digest !in cas
    requires r == Invalid ==> !wellFormed(f.digest)
    ensures Explains(r, cas, wellFormed, d)
  {
    var node := FileAt(f.digest, f.executable);
    ResolvesCons(cas, d, f.name, node, [], node);
  }

  /** verifyDirectory: succeeds if and only if the tree is complete, otherwise
      the status code tells what is wrong with it. */
  method VerifyDirectory(cas: Cas, wellFormed: Digest -> bool, d: Digest, ghost rank: Digest -> nat) returns (r: Status)
    requires Acyclic(cas, rank) && forall d :: d in cas ==> wellFormed(d)
    ensures r == OK <==> Complete(cas, d)
    ensures Explains(r, cas, wellFormed, d)
    ensures r == NotFound ==>
              exists q, node :: Resolves(cas, d, q, node) && !node.LinkAt? && wellFormed(node.digest) &&
                                node.digest !in cas
    decreases rank(d)
  {
    CompleteUnfolds(cas, d);
    assert Resolves(cas, d, [], DirectoryAt(d));
    if !wellFormed(d) {
      assert Broken(cas, wellFormed, DirectoryAt(d));
      return Invalid;
    }
    if d !in cas {
      assert Missing(cas, wellFormed, DirectoryAt(d));
      return NotFound;
    }
    if !cas[d].Folder? {
      assert Broken(cas, wellFormed, DirectoryAt(d));
      return Invalid;
    }
    var directory := cas[d].dir;
    if |directory.files| > 0 {
      r := VerifyFiles(cas, wellFormed, directory.files);
      if r != OK {
        ghost var i :| 0 <= i < |directory.files| && directory.files[i].digest !in cas &&
                       (wellFormed(directory.files[i].digest) <==> r == NotFound);
        ExplainsFile(r, cas, wellFormed, d, directory.files[i]);
        return;
      }
    }
    for n := 0 to |directory.directories|
      invariant forall i :: 0 <= i < n ==> Complete(cas, directory.directories[i].digest)
    {
      var sub := directory.directories[n];
      assert Has(directory, sub.name, DirectoryAt(sub.digest));
      r := VerifyDirectory(cas, wellFormed, sub.digest, rank);
      if r != OK {
        ExplainsBelow(r, cas, wellFormed, d, sub);
        return;
      }
    }
    r := OK;
  }

  // ---- Uploads are complete ----

  ghost predicate FilesIn(tree: Tree, cas: Cas)
  {
    forall q :: q in tree && tree[q].File? ==> tree[q].digest in cas
  }

  /** The reader's side agrees with the writer's: an uploaded tree verifies once
      its file contents are stored. */
  lemma UploadedIsComplete(cas: Cas, hash: Hash, tree: Tree, d: Digest)
    requires WellFormed(tree) && Uploaded(cas, hash, tree, [], d) && FilesIn(tree, cas)
    ensures Complete(cas, d)
  {
    forall q, node | Resolves(cas, d, q, node)
      ensures Present(cas, node)
    {
      assert [] + q == q;
      ReadsOnlyTheTree(cas, hash, tree, [], d, q, node);
    }
  }
}
