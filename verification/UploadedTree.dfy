/** The Merkle tree that stands for a file system: every directory is a stored
    message that names its children by digest. */
module UploadedTree {
  import opened LayerTree
  import opened RemoteExecution

  /** What a tree entry looks like from its parent directory; a pending hard
      link does not show. */
  predicate Denotes(e: Entry, node: Node)
  {
    match e
    case Dir => node.DirectoryAt?
    case File(digest, executable) => node == FileAt(digest, executable)
    case Symlink(target) => node == LinkAt(target)
    case HardLink(_) => false
  }

  function Child(tree: Tree, p: Path, name: string): Option<Entry>
  {
    Lookup(tree, p + [name])
  }

  /** The directory message lists exactly the children of p. */
  ghost predicate Lists(dir: Directory, tree: Tree, p: Path)
  {
    && (forall name, node :: Has(dir, name, node) ==>
      Child(tree, p, name).Some? && Denotes(Child(tree, p, name).value, node))
    && (forall name :: Child(tree, p, name).Some? && !Child(tree, p, name).value.HardLink? ==> Listed(dir, name))
  }

  ghost predicate Listed(dir: Directory, name: string)
  {
    exists node :: Has(dir, name, node)
  }

  /** The hierarchy with root digest d stands for directory p of the tree. */
  ghost predicate Uploaded(cas: Cas, hash: Hash, tree: Tree, p: Path, d: Digest)
    requires p in tree
    decreases (set q | q in tree && p <= q), 0
  {
    && Readable(cas, d) && hash(cas[d]) == d
    && Canonical(cas[d].dir) && Lists(cas[d].dir, tree, p)
    && forall name, c :: Has(cas[d].dir, name, DirectoryAt(c)) ==>
      Child(tree, p, name).Some? && SubUploaded(cas, hash, tree, p, name, c)
  }

  ghost predicate SubUploaded(cas: Cas, hash: Hash, tree: Tree, p: Path, name: string, c: Digest)
    requires p in tree && Child(tree, p, name).Some?
    decreases (set q | q in tree && p <= q) - {p}, 1
  {
    Beneath(tree, p, name);
    assert p in (set q | q in tree && p <= q);
    Uploaded(cas, hash, tree, p + [name], c)
  }

  lemma Beneath(tree: Tree, p: Path, name: string)
    requires p in tree && p + [name] in tree
    ensures (set q | q in tree && p + [name] <= q) <= (set q | q in tree && p <= q) - {p}
  {
    forall q | q in tree && p + [name] <= q
      ensures p <= q && q != p
    {
      PrefixOfSnoc(p, p, name);
    }
  }

  lemma {:induction false} UploadedMonotone(cas: Cas, cas': Cas, hash: Hash, tree: Tree, p: Path, d: Digest)
    requires p in tree && Uploaded(cas, hash, tree, p, d) && Extends(cas, cas')
    ensures Uploaded(cas', hash, tree, p, d)
    decreases set q | q in tree && p <= q
  {
    forall name, c | Has(cas[d].dir, name, DirectoryAt(c))
      ensures Child(tree, p, name).Some? && SubUploaded(cas', hash, tree, p, name, c)
    {
      assert SubUploaded(cas, hash, tree, p, name, c);
      Beneath(tree, p, name);
      assert p in (set q | q in tree && p <= q);
      UploadedMonotone(cas, cas', hash, tree, p + [name], c);
    }
  }

  // ---- Reading back ----

  /** Following digests from the root reaches only what the tree has. */
  lemma {:induction false} ReadsOnlyTheTree(cas: Cas, hash: Hash, tree: Tree, p: Path, d: Digest, q: Path, node: Node)
    requires p in tree && tree[p].Dir? && Uploaded(cas, hash, tree, p, d) && Resolves(cas, d, q, node)
    ensures p + q in tree && Denotes(tree[p + q], node) && (node.DirectoryAt? ==> Readable(cas, node.digest))
    decreases |q|
  {
    if q == [] {
      assert p + q == p;
    } else {
      var child :| Has(cas[d].dir, q[0], child) && ResolvesFrom(cas, child, q[1..], node);
      assert p + q == (p + [q[0]]) + q[1..];
      assert Child(tree, p, q[0]).Some?;
      if q[1..] == [] {
        assert p + q == p + [q[0]];
        if node.DirectoryAt? {
          assert SubUploaded(cas, hash, tree, p, q[0], node.digest);
          assert Uploaded(cas, hash, tree, p + [q[0]], node.digest);
        }
      } else {
        assert SubUploaded(cas, hash, tree, p, q[0], child.digest);
        ReadsOnlyTheTree(cas, hash, tree, p + [q[0]], child.digest, q[1..], node);
      }
    }
  }

  /** ... and everything the tree has. */
  lemma {:induction false} ReadsAllTheTree(cas: Cas, hash: Hash, tree: Tree, p: Path, d: Digest, q: Path)
    returns (node: Node)
    requires WellFormed(tree) && p in tree && Uploaded(cas, hash, tree, p, d)
    requires p + q in tree && !tree[p + q].HardLink? && tree[p].Dir?
    ensures Resolves(cas, d, q, node)
    decreases |q|
  {
    if q == [] {
      node := DirectoryAt(d);
    } else {
      var (name, rest) := (q[0], q[1..]);
      var c := p + [name];
      assert p + q == c + rest && Parent(c) == p;
      if rest == [] {
        assert c == p + q;
        assert Child(tree, p, name).Some?;
        node :| Has(cas[d].dir, name, node);
        assert ResolvesFrom(cas, node, rest, node);
      } else {
        if Lookup(tree, c) != Some(Dir) {
          NothingBeneath(tree, c, p + q);
          assert false;
        }
        assert Child(tree, p, name) == Some(Dir);
        var child :| Has(cas[d].dir, name, child);
        assert SubUploaded(cas, hash, tree, p, name, child.digest);
        node := ReadsAllTheTree(cas, hash, tree, c, child.digest, rest);
        assert ResolvesFrom(cas, child, rest, node);
      }
    }
  }

  /** The uploaded root rebuilds the tree: a path leads to a file, symlink or
      directory if and only if the tree has just that there. */
  lemma ReadBack(cas: Cas, hash: Hash, tree: Tree, d: Digest, q: Path, node: Node)
    requires WellFormed(tree) && Uploaded(cas, hash, tree, [], d)
    ensures Resolves(cas, d, q, node) ==> q in tree && Denotes(tree[q], node)
    ensures q in tree && Denotes(tree[q], node) && !node.DirectoryAt? ==> Resolves(cas, d, q, node)
    ensures q in tree && tree[q].Dir? ==> exists c :: Resolves(cas, d, q, DirectoryAt(c))
    ensures q in tree && tree[q].File? ==>
              (Resolves(cas, d, q, node) <==> node == FileAt(tree[q].digest, tree[q].executable))
    ensures q in tree && tree[q].Symlink? ==> (Resolves(cas, d, q, node) <==> node == LinkAt(tree[q].target))
    ensures q in tree && tree[q].Dir? && Resolves(cas, d, q, node) ==> node.DirectoryAt?
  {
    assert [] + q == q;
    if Resolves(cas, d, q, node) {
      ReadsOnlyTheTree(cas, hash, tree, [], d, q, node);
    }
    if q in tree && !tree[q].HardLink? {
      var found := ReadsAllTheTree(cas, hash, tree, [], d, q);
      ReadsOnlyTheTree(cas, hash, tree, [], d, q, found);
      if tree[q].Dir? {
        assert Resolves(cas, d, q, DirectoryAt(found.digest));
      }
    }
  }

  /** What a digest leads to is the same in two stores that both have its tree. */
  lemma {:induction false} SameInBoth(cas: Cas, cas': Cas, hash: Hash, tree: Tree, tree': Tree, p: Path, d: Digest,
                                      q: Path, node: Node)
    requires Injective(hash) && p in tree && Uploaded(cas, hash, tree, p, d)
    requires p in tree' && Uploaded(cas', hash, tree', p, d) && Resolves(cas, d, q, node)
    ensures Resolves(cas', d, q, node)
    decreases |q|
  {
    assert cas[d] == cas'[d];
    if q != [] {
      var child :| Has(cas[d].dir, q[0], child) && ResolvesFrom(cas, child, q[1..], node);
      if q[1..] != [] {
        assert SubUploaded(cas, hash, tree, p, q[0], child.digest);
        assert SubUploaded(cas', hash, tree', p, q[0], child.digest);
        SameInBoth(cas, cas', hash, tree, tree', p + [q[0]], child.digest, q[1..], node);
      }
      assert ResolvesFrom(cas', child, q[1..], node);
    }
  }

  /** Different file systems never share a root digest, in whatever stores. */
  lemma DigestDeterminesTree(cas: Cas, cas': Cas, hash: Hash, tree: Tree, tree': Tree, d: Digest)
    requires Injective(hash)
    requires WellFormed(tree) && Uploaded(cas, hash, tree, [], d) && NoPendingLinks(tree)
    requires WellFormed(tree') && Uploaded(cas', hash, tree', [], d) && NoPendingLinks(tree')
    ensures tree == tree'
  {
    forall q: Path
      ensures Lookup(tree, q) == Lookup(tree', q)
    {
      SameEntry(cas, cas', hash, tree, tree', d, q);
      SameEntry(cas', cas, hash, tree', tree, d, q);
    }
    SameLookups(tree, tree');
  }

  ghost predicate NoPendingLinks(tree: Tree)
  {
    forall q :: q in tree ==> !tree[q].HardLink?
  }

  lemma SameEntry(cas: Cas, cas': Cas, hash: Hash, tree: Tree, tree': Tree, d: Digest, q: Path)
    requires Injective(hash)
    requires WellFormed(tree) && Uploaded(cas, hash, tree, [], d) && NoPendingLinks(tree)
    requires WellFormed(tree') && Uploaded(cas', hash, tree', [], d) && NoPendingLinks(tree')
    ensures q in tree ==> Lookup(tree, q) == Lookup(tree', q)
  {
    assert [] + q == q;
    if q in tree {
      var node := ReadsAllTheTree(cas, hash, tree, [], d, q);
      ReadsOnlyTheTree(cas, hash, tree, [], d, q, node);
      SameInBoth(cas, cas', hash, tree, tree', [], d, q, node);
      ReadsOnlyTheTree(cas', hash, tree', [], d, q, node);
    }
  }

  // ---- One digest per tree ----

  /** Equal trees get equal digests, whatever the order of the uploads and
      whatever else the two stores hold. */
  lemma {:induction false} DigestIsCanonical(cas: Cas, cas': Cas, hash: Hash, tree: Tree, p: Path, d: Digest,
                                             d': Digest)
    requires p in tree && Uploaded(cas, hash, tree, p, d) && Uploaded(cas', hash, tree, p, d')
    ensures d == d'
    decreases set q | q in tree && p <= q
  {
    var (dir, dir') := (cas[d].dir, cas'[d'].dir);
    forall name, c, c' | Has(dir, name, DirectoryAt(c)) && Has(dir', name, DirectoryAt(c'))
      ensures c == c'
    {
      assert SubUploaded(cas, hash, tree, p, name, c) && SubUploaded(cas', hash, tree, p, name, c');
      Beneath(tree, p, name);
      assert p in (set q | q in tree && p <= q);
      DigestIsCanonical(cas, cas', hash, tree, p + [name], c, c');
    }
    SameListing(dir, dir', tree, p);
    CanonicalUnique(dir, dir');
  }

  lemma SameListing(dir: Directory, dir': Directory, tree: Tree, p: Path)
    requires Lists(dir, tree, p) && Lists(dir', tree, p)
    requires forall name, c, c' :: Has(dir, name, DirectoryAt(c)) && Has(dir', name, DirectoryAt(c')) ==> c == c'
    ensures forall name, node :: Has(dir, name, node) <==> Has(dir', name, node)
  {
    forall name, node
      ensures Has(dir, name, node) <==> Has(dir', name, node)
    {
      ListedAlike(dir, dir', tree, p, name, node);
      ListedAlike(dir', dir, tree, p, name, node);
    }
  }

  lemma ListedAlike(dir: Directory, dir': Directory, tree: Tree, p: Path, name: string, node: Node)
    requires Lists(dir, tree, p) && Lists(dir', tree, p)
    requires forall c, c' :: Has(dir, name, DirectoryAt(c)) && Has(dir', name, DirectoryAt(c')) ==> c == c'
    ensures Has(dir, name, node) ==> Has(dir', name, node)
  {
    if Has(dir, name, node) {
      assert Listed(dir', name);
      var node' :| Has(dir', name, node');
      if node.DirectoryAt? {
        assert Has(dir, name, DirectoryAt(node.digest)) && Has(dir', name, DirectoryAt(node'.digest));
      }
    }
  }
}
