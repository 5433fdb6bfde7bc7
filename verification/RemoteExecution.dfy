/** The messages of Remote Execution API v2 that the sources handle, the content
    addressable storage (CAS) that holds them, and what a path means in a
    directory hierarchy that is linked by digests. */
module RemoteExecution {
  import opened LayerTree
  import opened Sorting
  import Text

  type Digest = BlobId

  datatype FileNode = FileNode(name: string, digest: Digest, executable: bool)
  datatype DirectoryNode = DirectoryNode(name: string, digest: Digest)
  datatype SymlinkNode = SymlinkNode(name: string, target: string)
  datatype Directory = Directory(files: seq<FileNode>, directories: seq<DirectoryNode>, symlinks: seq<SymlinkNode>)

  /** Environment variables and platform properties. */
  datatype Pair = Pair(name: string, value: string)
  datatype Command = Command(arguments: seq<string>, environment: seq<Pair>, workingDirectory: string)

  datatype Blob = Folder(dir: Directory) | Stored(command: Command) | Data(contents: string)

  type Cas = map<Digest, Blob>
  type Hash = Blob -> Digest

  ghost predicate Injective(hash: Hash)
  {
    forall a, b :: hash(a) == hash(b) ==> a == b
  }

  /** Every blob is stored under its own digest. */
  ghost predicate Sound(cas: Cas, hash: Hash)
  {
    forall d :: d in cas ==> hash(cas[d]) == d
  }

  ghost predicate Extends(cas: Cas, cas': Cas)
  {
    forall d :: d in cas ==> d in cas' && cas'[d] == cas[d]
  }

  function PutProto(cas: Cas, hash: Hash, blob: Blob): Cas
  {
    cas[hash(blob) := blob]
  }

  /** Storing a message never replaces another one. */
  lemma PutExtends(cas: Cas, hash: Hash, blob: Blob)
    requires Injective(hash) && Sound(cas, hash)
    ensures Sound(PutProto(cas, hash, blob), hash) && Extends(cas, PutProto(cas, hash, blob))
  {
  }

  // ---- Following paths ----

  /** What a name in a directory leads to. */
  datatype Node = DirectoryAt(digest: Digest) | FileAt(digest: Digest, executable: bool) | LinkAt(target: string)

  predicate Has(dir: Directory, name: string, node: Node)
  {
    match node
    case DirectoryAt(d) => DirectoryNode(name, d) in dir.directories
    case FileAt(d, executable) => FileNode(name, d, executable) in dir.files
    case LinkAt(target) => SymlinkNode(name, target) in dir.symlinks
  }

  predicate Readable(cas: Cas, d: Digest)
  {
    d in cas && cas[d].Folder?
  }

  /** Path q of the hierarchy with root digest d leads to `node`. */
  ghost predicate Resolves(cas: Cas, d: Digest, q: Path, node: Node)
    decreases |q|, 0
  {
    if q == [] then node == DirectoryAt(d)
    else Readable(cas, d) && exists child :: Has(cas[d].dir, q[0], child) && ResolvesFrom(cas, child, q[1..], node)
  }

  ghost predicate ResolvesFrom(cas: Cas, child: Node, rest: Path, node: Node)
    decreases |rest|, 1
  {
    if rest == [] then node == child
    else child.DirectoryAt? && Resolves(cas, child.digest, rest, node)
  }

  /** More blobs never change what a path leads to. */
  lemma {:induction false} ResolvesMonotone(cas: Cas, cas': Cas, d: Digest, q: Path, node: Node)
    requires Extends(cas, cas') && Resolves(cas, d, q, node)
    ensures Resolves(cas', d, q, node)
    decreases |q|
  {
    if q != [] {
      var child :| Has(cas[d].dir, q[0], child) && ResolvesFrom(cas, child, q[1..], node);
      if q[1..] != [] {
        ResolvesMonotone(cas, cas', child.digest, q[1..], node);
      }
      assert ResolvesFrom(cas', child, q[1..], node);
    }
  }

  // ---- Canonical directories ----

  predicate FileLe(a: FileNode, b: FileNode) { Text.Le(a.name, b.name) }

  predicate DirectoryLe(a: DirectoryNode, b: DirectoryNode) { Text.Le(a.name, b.name) }

  predicate SymlinkLe(a: SymlinkNode, b: SymlinkNode) { Text.Le(a.name, b.name) }

  function FileName(f: FileNode): string { f.name }

  function DirectoryName(d: DirectoryNode): string { d.name }

  function SymlinkName(l: SymlinkNode): string { l.name }

  ghost predicate NamesDistinct<T>(s: seq<T>, name: T -> string)
  {
    forall i, j :: 0 <= i < j < |s| ==> name(s[i]) != name(s[j])
  }

  ghost predicate NoCommonName<S(!new), T(!new)>(s: seq<S>, sName: S -> string, t: seq<T>, tName: T -> string)
  {
    forall a, b :: a in s && b in t ==> sName(a) != tName(b)
  }

  /** No name occurs twice, in one list or in two. */
  ghost predicate UniqueNames(dir: Directory)
  {
    && NamesDistinct(dir.files, FileName)
    && NamesDistinct(dir.directories, DirectoryName)
    && NamesDistinct(dir.symlinks, SymlinkName)
    && NoCommonName(dir.directories, DirectoryName, dir.symlinks, SymlinkName)
    && NoCommonName(dir.directories, DirectoryName, dir.files, FileName)
    && NoCommonName(dir.symlinks, SymlinkName, dir.files, FileName)
  }

  ghost predicate Sorted(dir: Directory)
  {
    SortedBy(FileLe, dir.files) && SortedBy(DirectoryLe, dir.directories) && SortedBy(SymlinkLe, dir.symlinks)
  }

  /** The form that Remote Execution API v2 requires of a Directory. */
  ghost predicate Canonical(dir: Directory)
  {
    Sorted(dir) && UniqueNames(dir)
  }

  lemma OrdersAreTotal()
    ensures TotalPreorder(FileLe) && TotalPreorder(DirectoryLe) && TotalPreorder(SymlinkLe)
  {
    NameOrderIsTotal(FileLe, FileName);
    NameOrderIsTotal(DirectoryLe, DirectoryName);
    NameOrderIsTotal(SymlinkLe, SymlinkName);
  }

  lemma NameOrderIsTotal<T(!new)>(le: (T, T) -> bool, name: T -> string)
    requires forall a, b :: le(a, b) == Text.Le(name(a), name(b))
    ensures TotalPreorder(le)
  {
    forall a, b
      ensures le(a, b) || le(b, a)
    {
      Text.LessTrichotomy(name(a), name(b));
    }
    forall a, b, c | le(a, b) && le(b, c)
      ensures le(a, c)
    {
      Text.LeTransitive(name(a), name(b), name(c));
    }
  }

  lemma PermutationKeepsNames<T>(s: seq<T>, t: seq<T>, name: T -> string)
    requires NamesDistinct(s, name) && multiset(s) == multiset(t)
    ensures NamesDistinct(t, name)
  {
    PermutationElements(s, t);
    PermutationKeepsDistinct(s, t);
    forall i, j | 0 <= i < j < |t|
      ensures name(t[i]) != name(t[j])
    {
      assert t[i] in s && t[j] in s;
      var k :| 0 <= k < |s| && s[k] == t[i];
      var l :| 0 <= l < |s| && s[l] == t[j];
    }
  }

  /** The same entries, in sorted lists. */
  ghost predicate SortedForm(dir: Directory, dir': Directory)
  {
    && Sorted(dir')
    && multiset(dir'.files) == multiset(dir.files)
    && multiset(dir'.directories) == multiset(dir.directories)
    && multiset(dir'.symlinks) == multiset(dir.symlinks)
  }

  /** Sorting keeps every entry, adds none and repeats none. */
  lemma SortedFormKeeps(dir: Directory, dir': Directory)
    requires SortedForm(dir, dir')
    ensures forall name, node :: Has(dir', name, node) <==> Has(dir, name, node)
    ensures UniqueNames(dir) ==> UniqueNames(dir')
  {
    PermutationElements(dir.files, dir'.files);
    PermutationElements(dir.directories, dir'.directories);
    PermutationElements(dir.symlinks, dir'.symlinks);
    if UniqueNames(dir) {
      PermutationKeepsNames(dir.files, dir'.files, FileName);
      PermutationKeepsNames(dir.directories, dir'.directories, DirectoryName);
      PermutationKeepsNames(dir.symlinks, dir'.symlinks, SymlinkName);
    }
  }

  /** The three calls to slices.SortFunc before a directory is stored. */
  method SortDirectory(dir: Directory) returns (dir': Directory)
    ensures SortedForm(dir, dir')
  {
    OrdersAreTotal();
    var files := SortFunc(dir.files, FileLe);
    var directories := SortFunc(dir.directories, DirectoryLe);
    var symlinks := SortFunc(dir.symlinks, SymlinkLe);
    dir' := Directory(files, directories, symlinks);
  }

  lemma SortedFormExists(dir: Directory) returns (dir': Directory)
    ensures SortedForm(dir, dir')
  {
    OrdersAreTotal();
    var files := SortedExists(dir.files, FileLe);
    var directories := SortedExists(dir.directories, DirectoryLe);
    var symlinks := SortedExists(dir.symlinks, SymlinkLe);
    dir' := Directory(files, directories, symlinks);
  }

  lemma {:induction false} SameList<T(!new)>(a: seq<T>, b: seq<T>, le: (T, T) -> bool, name: T -> string)
    requires forall x, y :: le(x, y) == Text.Le(name(x), name(y))
    requires SortedBy(le, a) && SortedBy(le, b) && NamesDistinct(a, name) && NamesDistinct(b, name)
    requires forall x :: x in a <==> x in b
    ensures a == b
  {
    assert Distinct(a) && Distinct(b);
    DistinctPermutation(a, b);
    forall i, j | 0 <= i < j < |a|
      ensures !(le(a[i], a[j]) && le(a[j], a[i]))
    {
      Text.LessTrichotomy(name(a[i]), name(a[j]));
    }
    SortedPermutationUnique(a, b, le);
  }

  /** A canonical directory is determined by what its names lead to. */
  lemma CanonicalUnique(a: Directory, b: Directory)
    requires Canonical(a) && Canonical(b)
    requires forall name, node :: Has(a, name, node) <==> Has(b, name, node)
    ensures a == b
  {
    forall f
      ensures f in a.files <==> f in b.files
    {
      assert Has(a, f.name, FileAt(f.digest, f.executable)) <==> Has(b, f.name, FileAt(f.digest, f.executable));
    }
    forall d
      ensures d in a.directories <==> d in b.directories
    {
      assert Has(a, d.name, DirectoryAt(d.digest)) <==> Has(b, d.name, DirectoryAt(d.digest));
    }
    forall l
      ensures l in a.symlinks <==> l in b.symlinks
    {
      assert Has(a, l.name, LinkAt(l.target)) <==> Has(b, l.name, LinkAt(l.target));
    }
    SameList(a.files, b.files, FileLe, FileName);
    SameList(a.directories, b.directories, DirectoryLe, DirectoryName);
    SameList(a.symlinks, b.symlinks, SymlinkLe, SymlinkName);
  }
}
