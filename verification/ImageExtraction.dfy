/** From an image to its root digest: the loop over a layer's tar entries
    (pkg/docker/layer_extractor.go), the visitor that puts the build user into
    /etc/passwd and /etc/group (pkg/blobstore/build_user_injecting_visitor.go),
    and the loop over an image's layers
    (pkg/actionrouter/image_to_cas_uploader.go). */
module ImageExtraction {
  import opened LayerTree
  import opened HardLinks
  import opened LinkWalks
  import opened RemoteExecution
  import opened UploadedTree
  import opened DirTreeVerifier
  import opened IdEntry
  import LayerExtractor
  import LayerUpload

  /** A tar entry by its type flag. `header` is the name in the tar header, which
      `dir` and `name` are the components of; `stored` says whether the file's
      contents could be uploaded. */
  datatype TarEntry =
    | TarDir(path: Path)
    | TarFile(header: string, dir: Path, name: string, data: string, stored: bool, mode: bv64)
    | TarSymlink(dir: Path, name: string, target: string)
    | TarLink(dir: Path, name: string, link: LinkTarget)
    | TarOther

  type Layer = seq<TarEntry>

  /** What an image is uploaded for: the build user and the digest function. */
  datatype Target = Target(user: UnixUser, hash: Hash)

  const EMPTY_TREE: Tree := map[[] := Dir]

  // ---- One entry ----

  predicate IsIdFile(header: string)
  {
    header == "etc/passwd" || header == "etc/group"
  }

  /** What the visitor makes of a file's contents. */
  function Contents(header: string, data: string, user: UnixUser): string
  {
    if header == "etc/passwd" then Rewritten(data, user.uid, user.name, PasswdLine(user))
    else if header == "etc/group" then Rewritten(data, user.gid, user.name, GroupLine(user))
    else data
  }

  /** BuildUserInjectingVisitor.OnFileSeen, up to the call of the visitor that it
      wraps. */
  method InjectUser(header: string, data: string, user: UnixUser) returns (content: Option<string>)
    ensures content.Some? <==> (IsIdFile(header) ==> Scannable(data))
    ensures content.Some? ==> content.value == Contents(header, data, user)
  {
    if header == "etc/passwd" {
      content := SetIDEntry(data, user.uid, user.name, PasswdLine(user));
    } else if header == "etc/group" {
      content := SetIDEntry(data, user.gid, user.name, GroupLine(user));
    } else {
      content := Some(data);
    }
  }

  /** Each file is rewritten for its own id: passwd for the user's, group for the
      group's; all others are taken as they are. */
  lemma InjectedTexts(header: string, data: string, user: UnixUser)
    ensures Contents("etc/passwd", "", user) ==
            user.name + ":x:" + Print(user.uid) + ":" + Print(user.gid) + "::/tmp:" + "/bin/sh" + "\n"
    ensures Contents("etc/group", "", user) == user.name + ":x:" + Print(user.gid) + ":" + "" + "\n"
    ensures header != "etc/passwd" && header != "etc/group" ==> Contents(header, data, user) == data
  {
    NewEntries(user);
  }

  /** What the entry does to the tree; device nodes and the like do nothing. */
  function EventOf(entry: TarEntry, t: Target): Option<Event>
  {
    match entry
    case TarDir(path) => Some(MkDir(path))
    case TarFile(header, dir, name, data, _, mode) =>
      Some(LayerExtractor.FileEvent(dir, name, t.hash(Data(Contents(header, data, t.user))), mode))
    case TarSymlink(dir, name, target) => Some(Put(dir + [name], Symlink(target)))
    case TarLink(dir, name, link) => Some(Put(dir + [name], HardLink(link)))
    case TarOther => None
  }

  /** When the visitors accept an entry. */
  predicate EntryOk(entry: TarEntry)
  {
    entry.TarFile? ==>
      && (IsIdFile(entry.header) ==> Scannable(entry.data))
      && (LayerExtractor.IsWhiteout(entry.name) || entry.stored)
  }

  function AfterEntry(m: Tree, entry: TarEntry, t: Target): Tree
  {
    AfterEvent(m, EventOf(entry, t))
  }

  function AfterEvent(m: Tree, ev: Option<Event>): Tree
  {
    if ev.Some? then Apply(m, ev.value) else m
  }

  ghost predicate ContentStored(entry: TarEntry, t: Target, cas: Cas)
  {
    var ev := EventOf(entry, t);
    ev.Some? && ev.value.Put? && ev.value.entry.File? ==> ev.value.entry.digest in cas
  }

  method VisitFile(e: LayerExtractor.Extractor, entry: TarEntry, t: Target, cas: Cas) returns (ok: bool, cas': Cas)
    requires e.Valid() && entry.TarFile? && Injective(t.hash) && Sound(cas, t.hash)
    modifies e, e.view.repr
    ensures e.Valid() && fresh(e.view.repr - old(e.view.repr)) && Sound(cas', t.hash) && Extends(cas, cas')
    ensures ok <==> EntryOk(entry)
    ensures ok ==> e.view.tree == AfterEntry(old(e.view.tree), entry, t) && ContentStored(entry, t, cas')
  {
    var content := InjectUser(entry.header, entry.data, t.user);
    if content.None? {
      return false, cas;
    }
    ok, cas' := VisitContent(e, entry.dir, entry.name, Data(content.value), entry.stored, entry.mode, t.hash, cas);
  }

  /** The extractor's OnFileSeen together with the upload that it makes. */
  method VisitContent(e: LayerExtractor.Extractor, dir: Path, name: string, blob: Blob, stored: bool, mode: bv64,
                      hash: Hash, cas: Cas) returns (ok: bool, cas': Cas)
    requires e.Valid() && Injective(hash) && Sound(cas, hash)
    modifies e, e.view.repr
    ensures e.Valid() && fresh(e.view.repr - old(e.view.repr)) && Sound(cas', hash) && Extends(cas, cas')
    ensures ok <==> LayerExtractor.IsWhiteout(name) || stored
    ensures ok ==> e.view.tree == Apply(old(e.view.tree), LayerExtractor.FileEvent(dir, name, hash(blob), mode))
    ensures ok && !LayerExtractor.IsWhiteout(name) ==> hash(blob) in cas'
  {
    cas' := cas;
    ok := e.OnFileSeen(dir, name, if stored then Some(hash(blob)) else None, mode);
    if ok && !LayerExtractor.IsWhiteout(name) {
      PutExtends(cas, hash, blob);
      cas' := PutProto(cas, hash, blob);
    }
  }

  method VisitEntry(e: LayerExtractor.Extractor, entry: TarEntry, t: Target, cas: Cas) returns (ok: bool, cas': Cas)
    requires e.Valid() && Injective(t.hash) && Sound(cas, t.hash)
    modifies e, e.view.repr
    ensures e.Valid() && fresh(e.view.repr - old(e.view.repr)) && Sound(cas', t.hash) && Extends(cas, cas')
    ensures ok <==> EntryOk(entry)
    ensures ok ==> e.view.tree == AfterEntry(old(e.view.tree), entry, t) && ContentStored(entry, t, cas')
  {
    ok, cas' := true, cas;
    if entry.TarFile? {
      ok, cas' := VisitFile(e, entry, t, cas);
    } else {
      VisitOther(e, entry, t);
    }
  }

  /** Entries without contents are always accepted. */
  method VisitOther(e: LayerExtractor.Extractor, entry: TarEntry, t: Target)
    requires e.Valid() && !entry.TarFile?
    modifies e, e.view.repr
    ensures e.Valid() && fresh(e.view.repr - old(e.view.repr))
    ensures e.view.tree == AfterEntry(old(e.view.tree), entry, t)
  {
    match entry
    case TarDir(path) => e.OnDirectorySeen(path);
    case TarSymlink(dir, name, target) => e.OnSymlinkSeen(dir, name, target);
    case TarLink(dir, name, link) => e.OnLinkSeen(dir, name, link);
    case TarOther =>
  }

  // ---- One layer ----

  function LayerEvents(entries: Layer, t: Target): seq<Event>
  {
    if entries == [] then []
    else With(LayerEvents(entries[..|entries| - 1], t), EventOf(entries[|entries| - 1], t))
  }

  function With(evs: seq<Event>, ev: Option<Event>): seq<Event>
  {
    if ev.Some? then evs + [ev.value] else evs
  }

  ghost predicate ContentsStored(entries: Layer, t: Target, cas: Cas)
  {
    forall i :: 0 <= i < |entries| ==> ContentStored(entries[i], t, cas)
  }

  /** processTar: the entries of a layer in order, up to the first error. */
  method ProcessTar(e: LayerExtractor.Extractor, entries: Layer, t: Target, cas: Cas) returns (ok: bool, cas': Cas)
    requires e.Valid() && Injective(t.hash) && Sound(cas, t.hash)
    modifies e, e.view.repr
    ensures e.Valid() && fresh(e.view.repr - old(e.view.repr)) && Sound(cas', t.hash) && Extends(cas, cas')
    ensures ok <==> forall i :: 0 <= i < |entries| ==> EntryOk(entries[i])
    ensures ok ==> e.view.tree == Stream(old(e.view.tree), LayerEvents(entries, t)) && ContentsStored(entries, t, cas')
  {
    cas' := cas;
    ghost var m := e.view.tree;
    for n := 0 to |entries|
      invariant e.Valid() && fresh(e.view.repr - old(e.view.repr)) && Sound(cas', t.hash) && Extends(cas, cas')
      invariant Processed(m, entries[..n], t, e.view.tree, cas')
    {
      ghost var (mid, before) := (e.view.tree, cas');
      ok, cas' := VisitEntry(e, entries[n], t, cas');
      TakeOneMore(entries, n);
      if !ok {
        return;
      }
      ProcessedOneMore(m, entries[..n], entries[n], t, mid, before, cas');
    }
    assert entries[..|entries|] == entries;
    ok := true;
  }

  lemma TakeOneMore(entries: Layer, n: nat)
    requires n < |entries|
    ensures entries[..n + 1] == entries[..n] + [entries[n]]
  {
  }

  /** The entries have been accepted, streamed and stored. */
  ghost predicate Processed(m: Tree, entries: Layer, t: Target, tree: Tree, cas: Cas)
  {
    && tree == Stream(m, LayerEvents(entries, t))
    && ContentsStored(entries, t, cas)
    && forall i :: 0 <= i < |entries| ==> EntryOk(entries[i])
  }

  lemma ProcessedOneMore(m: Tree, entries: Layer, entry: TarEntry, t: Target, tree: Tree, cas: Cas, cas': Cas)
    requires Processed(m, entries, t, tree, cas) && Extends(cas, cas') && EntryOk(entry)
    requires ContentStored(entry, t, cas')
    ensures Processed(m, entries + [entry], t, AfterEntry(tree, entry, t), cas')
  {
    var all := entries + [entry];
    StreamOneMore(m, entries, entry, t);
    forall i | 0 <= i < |all|
      ensures ContentStored(all[i], t, cas') && EntryOk(all[i])
    {
      assert i < |entries| ==> ContentStored(entries[i], t, cas) && EntryOk(entries[i]);
    }
  }

  lemma StreamOneMore(m: Tree, entries: Layer, entry: TarEntry, t: Target)
    ensures Stream(m, LayerEvents(entries + [entry], t)) == AfterEntry(Stream(m, LayerEvents(entries, t)), entry, t)
  {
    assert (entries + [entry])[..|entries|] == entries;
    StreamWith(m, LayerEvents(entries, t), EventOf(entry, t));
  }

  lemma StreamWith(m: Tree, evs: seq<Event>, ev: Option<Event>)
    ensures Stream(m, With(evs, ev)) == AfterEvent(Stream(m, evs), ev)
  {
    if ev.Some? {
      assert (evs + [ev.value])[..|evs|] == evs;
    }
  }

  /** A layer that can fail on tree m: an entry is refused, or a link has a target
      that is missing or misplaced. */
  ghost predicate LayerFails(m: Tree, entries: Layer, t: Target)
  {
    || (exists i :: 0 <= i < |entries| && !EntryOk(entries[i]))
    || (exists q :: Misplaced(Stream(m, LayerEvents(entries, t)), q))
  }

  /** ExtractAndVisitLayerContents. */
  method ExtractLayer(e: LayerExtractor.Extractor, entries: Layer, t: Target, cas: Cas) returns (ok: bool, cas': Cas)
    requires e.Valid() && Injective(t.hash) && Sound(cas, t.hash)
    modifies e, e.view.repr
    ensures e.Valid() && fresh(e.view.repr - old(e.view.repr)) && Sound(cas', t.hash) && Extends(cas, cas')
    ensures ok ==> forall i :: 0 <= i < |entries| ==> EntryOk(entries[i])
    ensures ok ==> ExtractsLayer(old(e.view.tree), LayerEvents(entries, t), e.view.tree) && Links(e.view.tree) == {}
    ensures ok ==> ContentsStored(entries, t, cas')
    ensures !ok ==> LayerFails(old(e.view.tree), entries, t)
  {
    ok, cas' := ProcessTar(e, entries, t, cas);
    if ok {
      ghost var streamed := e.view.tree;
      ok := e.OnLayerComplete();
      if ok {
        ResolvedIsClean(streamed);
        ghost var order :| Walk(streamed, order) && ResolveInOrder(streamed, order) == Some(e.view.tree);
        assert IsOrder(streamed, order);
      }
    }
  }

  // ---- One image ----

  function ImageEvents(layers: seq<Layer>, t: Target): seq<seq<Event>>
  {
    if layers == [] then [] else ImageEvents(layers[..|layers| - 1], t) + [LayerEvents(layers[|layers| - 1], t)]
  }

  /** A tree that the layers can extract to. */
  ghost predicate ImageTree(layers: seq<Layer>, t: Target, tree: Tree)
  {
    WellFormed(tree) && Links(tree) == {} && Extracts(EMPTY_TREE, ImageEvents(layers, t), tree)
  }

  /** A layer that can fail on what the layers before it extract to. */
  ghost predicate ImageFails(layers: seq<Layer>, t: Target)
  {
    exists n, mid ::
      0 <= n < |layers| && Extracts(EMPTY_TREE, ImageEvents(layers[..n], t), mid) && LayerFails(mid, layers[n], t)
  }

  ghost predicate ImageStored(layers: seq<Layer>, t: Target, cas: Cas)
  {
    forall n :: 0 <= n < |layers| ==> ContentsStored(layers[n], t, cas)
  }

  /** uploadImageToCASImpl: on success the root digest stands for a tree that the
      image's layers extract to, all of it is in the CAS, and nothing else has
      changed there; it fails only when a layer can. */
  method UploadImage(layers: seq<Layer>, t: Target, cas: Cas) returns (d: Option<Digest>, cas': Cas)
    requires Injective(t.hash) && Sound(cas, t.hash)
    ensures Sound(cas', t.hash) && Extends(cas, cas')
    ensures d.Some? ==> exists tree :: ImageTree(layers, t, tree) && Uploaded(cas', t.hash, tree, [], d.value)
    ensures d.Some? ==> Complete(cas', d.value)
    ensures d.Some? ==> AllAccepted(layers)
    ensures d.None? ==> ImageFails(layers, t)
  {
    var e := new LayerExtractor.Extractor();
    var ok;
    ok, cas' := ExtractLayers(e, layers, t, cas);
    if !ok {
      return None, cas';
    }
    d, cas' := UploadExtracted(e, layers, t, cas');
  }

  /** The loop over the layers. */
  method ExtractLayers(e: LayerExtractor.Extractor, layers: seq<Layer>, t: Target, cas: Cas)
    returns (ok: bool, cas': Cas)
    requires e.Valid() && e.view.tree == EMPTY_TREE && Injective(t.hash) && Sound(cas, t.hash)
    modifies e, e.view.repr
    ensures e.Valid() && fresh(e.view.repr - old(e.view.repr)) && Sound(cas', t.hash) && Extends(cas, cas')
    ensures ok ==> Extracted(layers, t, e.view.tree, cas')
    ensures !ok ==> ImageFails(layers, t)
  {
    cas' := cas;
    for n := 0 to |layers|
      invariant e.Valid() && fresh(e.view.repr - old(e.view.repr)) && Sound(cas', t.hash) && Extends(cas, cas')
      invariant Extracted(layers[..n], t, e.view.tree, cas')
    {
      ghost var (before, casBefore) := (e.view.tree, cas');
      ok, cas' := ExtractLayer(e, layers[n], t, cas');
      if !ok {
        FailsAt(layers, n, t, before);
        return;
      }
      ExtractedOneMore(layers, n, t, before, casBefore, e.view.tree, cas');
    }
    assert layers[..|layers|] == layers;
    ok := true;
  }

  /** The last step of uploadImageToCASImpl. */
  method UploadExtracted(e: LayerExtractor.Extractor, ghost layers: seq<Layer>, t: Target, cas: Cas)
    returns (d: Option<Digest>, cas': Cas)
    requires e.Valid() && Injective(t.hash) && Sound(cas, t.hash) && Extracted(layers, t, e.view.tree, cas)
    modifies e
    ensures Sound(cas', t.hash) && Extends(cas, cas') && d.Some? && Complete(cas', d.value)
    ensures exists tree :: ImageTree(layers, t, tree) && Uploaded(cas', t.hash, tree, [], d.value)
  {
    ghost var tree := e.view.tree;
    var digest;
    digest, cas' := LayerUpload.UploadDirectories(e, t.hash, cas);
    assert ImageTree(layers, t, tree);
    StoredIsComplete(layers, t, tree, cas, cas', digest);
    d := Some(digest);
  }

  ghost predicate AllAccepted(layers: seq<Layer>)
  {
    forall n, i :: 0 <= n < |layers| && 0 <= i < |layers[n]| ==> EntryOk(layers[n][i])
  }

  /** The layers have been extracted to this tree, and their contents stored. */
  ghost predicate Extracted(layers: seq<Layer>, t: Target, tree: Tree, cas: Cas)
  {
    && Extracts(EMPTY_TREE, ImageEvents(layers, t), tree) && Links(tree) == {}
    && ImageStored(layers, t, cas) && AllAccepted(layers)
  }

  lemma FailsAt(layers: seq<Layer>, n: nat, t: Target, mid: Tree)
    requires n < |layers| && Extracts(EMPTY_TREE, ImageEvents(layers[..n], t), mid) && LayerFails(mid, layers[n], t)
    ensures ImageFails(layers, t)
  {
  }

  lemma ExtractedOneMore(layers: seq<Layer>, n: nat, t: Target, mid: Tree, cas: Cas, tree: Tree, cas': Cas)
    requires n < |layers| && Extracted(layers[..n], t, mid, cas) && Extends(cas, cas')
    requires ExtractsLayer(mid, LayerEvents(layers[n], t), tree) && Links(tree) == {}
    requires ContentsStored(layers[n], t, cas') && AllAccepted([layers[n]])
    ensures Extracted(layers[..n + 1], t, tree, cas')
  {
    ExtractsOneMore(layers, n, t, mid, tree);
    ImageStoredOneMore(layers, n, t, cas, cas');
    AcceptedOneMore(layers, n);
  }

  lemma AcceptedOneMore(layers: seq<Layer>, n: nat)
    requires n < |layers| && AllAccepted(layers[..n]) && AllAccepted([layers[n]])
    ensures AllAccepted(layers[..n + 1])
  {
    var (init, last, all) := (layers[..n], [layers[n]], layers[..n + 1]);
    forall k, i | 0 <= k < |all| && 0 <= i < |all[k]|
      ensures EntryOk(all[k][i])
    {
      assert if k < n then all[k] == init[k] else all[k] == last[0];
    }
  }

  lemma ExtractsOneMore(layers: seq<Layer>, n: nat, t: Target, mid: Tree, tree: Tree)
    requires n < |layers| && Extracts(EMPTY_TREE, ImageEvents(layers[..n], t), mid)
    requires ExtractsLayer(mid, LayerEvents(layers[n], t), tree)
    ensures Extracts(EMPTY_TREE, ImageEvents(layers[..n + 1], t), tree)
  {
    var (init, last) := (ImageEvents(layers[..n], t), LayerEvents(layers[n], t));
    assert layers[..n + 1][..n] == layers[..n];
    assert (init + [last])[..|init|] == init;
    assert ExtractsLast(EMPTY_TREE, init, last, tree);
  }

  lemma ImageStoredOneMore(layers: seq<Layer>, n: nat, t: Target, cas: Cas, cas': Cas)
    requires n < |layers| && ImageStored(layers[..n], t, cas) && Extends(cas, cas')
    requires ContentsStored(layers[n], t, cas')
    ensures ImageStored(layers[..n + 1], t, cas')
  {
    var (init, all) := (layers[..n], layers[..n + 1]);
    ImageStoredStays(init, t, cas, cas');
    assert all == init + [layers[n]];
  }

  lemma ImageStoredStays(layers: seq<Layer>, t: Target, cas: Cas, cas': Cas)
    requires ImageStored(layers, t, cas) && Extends(cas, cas')
    ensures ImageStored(layers, t, cas')
  {
    forall n | 0 <= n < |layers|
      ensures ContentsStored(layers[n], t, cas')
    {
      StoredStays(layers[n], t, cas, cas');
    }
  }

  lemma StoredStays(entries: Layer, t: Target, cas: Cas, cas': Cas)
    requires ContentsStored(entries, t, cas) && Extends(cas, cas')
    ensures ContentsStored(entries, t, cas')
  {
    forall i | 0 <= i < |entries|
      ensures ContentStored(entries[i], t, cas')
    {
      assert ContentStored(entries[i], t, cas);
    }
  }

  // ---- The whole path ----

  /** For well-ordered layers, following digests from the uploaded root gives the
      image as the OCI standard defines it, path by path. */
  lemma UploadedImageIsOci(layers: seq<Layer>, t: Target, tree: Tree, cas: Cas, d: Digest, q: Path, node: Node)
    requires ImageTree(layers, t, tree) && Uploaded(cas, t.hash, tree, [], d)
    requires forall i :: 0 <= i < |ImageEvents(layers, t)| ==> OrderlyLayer(ImageEvents(layers, t)[i])
    ensures OciImage(EMPTY_TREE, ImageEvents(layers, t)) == Some(tree)
    ensures !node.DirectoryAt? ==> (Resolves(cas, d, q, node) <==> q in tree && Denotes(tree[q], node))
    ensures (exists c :: Resolves(cas, d, q, DirectoryAt(c))) <==> Lookup(tree, q) == Some(Dir)
  {
    assert forall i :: 0 <= i < |ImageEvents(layers, t)| ==> OrderlyLayer(ImageEvents(layers, t)[i]);
    ExtractionIsOciImage(EMPTY_TREE, ImageEvents(layers, t), tree);
    ReadBack(cas, t.hash, tree, d, q, node);
    if c :| Resolves(cas, d, q, DirectoryAt(c)) {
      ReadBack(cas, t.hash, tree, d, q, DirectoryAt(c));
    }
  }

  ghost predicate OrderlyLayer(evs: seq<Event>)
  {
    ValidLayer(evs) && Consistent(evs) && Settled(evs)
  }

  /** Two uploads of an image, into any stores, with whatever iteration orders,
      give the same digest. */
  lemma UploadIsDeterministic(layers: seq<Layer>, t: Target, cas: Cas, tree: Tree, d: Digest, cas': Cas, tree': Tree,
                              d': Digest)
    requires ImageTree(layers, t, tree) && Uploaded(cas, t.hash, tree, [], d)
    requires ImageTree(layers, t, tree') && Uploaded(cas', t.hash, tree', [], d')
    ensures d == d'
  {
    ExtractionIsUnique(EMPTY_TREE, ImageEvents(layers, t), tree, tree');
    DigestIsCanonical(cas, cas', t.hash, tree, [], d, d');
  }

  /** The iteration orders chosen in each layer do not show in the result. */
  lemma {:induction false} ExtractionIsUnique(m: Tree, layers: seq<seq<Event>>, a: Tree, b: Tree)
    requires Extracts(m, layers, a) && Extracts(m, layers, b)
    ensures a == b
  {
    if layers != [] {
      var (init, last) := (layers[..|layers| - 1], layers[|layers| - 1]);
      var ma :| Extracts(m, init, ma) && ExtractsLayer(ma, last, a);
      var mb :| Extracts(m, init, mb) && ExtractsLayer(mb, last, b);
      ExtractionIsUnique(m, init, ma, mb);
      var oa :| IsOrder(Stream(ma, last), oa) && ResolveInOrder(Stream(ma, last), oa) == Some(a);
      var ob :| IsOrder(Stream(mb, last), ob) && ResolveInOrder(Stream(mb, last), ob) == Some(b);
      ResolutionIsUnique(Stream(ma, last), oa, ob);
    }
  }

  // ---- Every file comes from an entry ----

  /** Every event of every layer brings only files that `good` holds of. */
  ghost predicate BringsOnly(evs: seq<Event>, good: Entry -> bool)
  {
    forall i :: 0 <= i < |evs| && evs[i].Put? && evs[i].entry.File? ==> good(evs[i].entry)
  }

  ghost predicate HasOnly(m: Tree, good: Entry -> bool)
  {
    forall q :: q in m && m[q].File? ==> good(m[q])
  }

  lemma {:induction false} StreamFiles(m: Tree, evs: seq<Event>, good: Entry -> bool)
    requires HasOnly(m, good) && BringsOnly(evs, good)
    ensures HasOnly(Stream(m, evs), good)
  {
    if evs != [] {
      var (mid, last) := (Stream(m, evs[..|evs| - 1]), evs[|evs| - 1]);
      StreamFiles(m, evs[..|evs| - 1], good);
      forall q | q in Apply(mid, last) && Apply(mid, last)[q].File?
        ensures good(Apply(mid, last)[q])
      {
        ApplyPointwise(mid, last, q);
      }
    }
  }

  lemma {:induction false} FinalFiles(m: Tree, link: LinkTarget, avail: set<Path>, good: Entry -> bool)
    requires HasOnly(m, good) && Final(m, link, avail).Some? && Final(m, link, avail).value.File?
    ensures good(Final(m, link, avail).value)
    decreases avail
  {
    var q := TargetPath(link);
    match Lookup(m, q)
    case Some(HardLink(next)) => FinalFiles(m, next, avail - {q}, good);
    case _ =>
  }

  lemma ResolvedFiles(m: Tree, m': Tree, good: Entry -> bool)
    requires HasOnly(m, good) && exists order :: IsOrder(m, order) && ResolveInOrder(m, order) == Some(m')
    ensures HasOnly(m', good)
  {
    var order :| IsOrder(m, order) && ResolveInOrder(m, order) == Some(m');
    SuccessIsResolved(m, order);
    forall q | q in m' && m'[q].File?
      ensures good(m'[q])
    {
      if m[q].HardLink? {
        FinalFiles(m, m[q].link, Links(m), good);
      }
    }
  }

  lemma {:induction false} ExtractsFiles(m: Tree, layers: seq<seq<Event>>, m': Tree, good: Entry -> bool)
    requires Extracts(m, layers, m') && HasOnly(m, good)
    requires forall i :: 0 <= i < |layers| ==> BringsOnly(layers[i], good)
    ensures HasOnly(m', good)
  {
    if layers != [] {
      var (init, last) := (layers[..|layers| - 1], layers[|layers| - 1]);
      var mid :| Extracts(m, init, mid) && ExtractsLayer(mid, last, m');
      ExtractsFiles(m, init, mid, good);
      StreamFiles(mid, last, good);
      ResolvedFiles(Stream(mid, last), m', good);
    }
  }

  function IsIn(cas: Cas): Entry -> bool
  {
    (e: Entry) => e.File? ==> e.digest in cas
  }

  lemma {:induction false} LayerBringsStored(entries: Layer, t: Target, cas: Cas)
    requires ContentsStored(entries, t, cas)
    ensures BringsOnly(LayerEvents(entries, t), IsIn(cas))
  {
    if entries != [] {
      var n := |entries| - 1;
      assert forall i :: 0 <= i < n ==> entries[..n][i] == entries[i];
      LayerBringsStored(entries[..n], t, cas);
      assert ContentStored(entries[n], t, cas);
    }
  }

  lemma {:induction false} ImageBringsStored(layers: seq<Layer>, t: Target, cas: Cas)
    requires ImageStored(layers, t, cas)
    ensures forall i :: 0 <= i < |ImageEvents(layers, t)| ==> BringsOnly(ImageEvents(layers, t)[i], IsIn(cas))
  {
    if layers != [] {
      var n := |layers| - 1;
      assert forall i :: 0 <= i < n ==> layers[..n][i] == layers[i];
      ImageBringsStored(layers[..n], t, cas);
      LayerBringsStored(layers[n], t, cas);
    }
  }

  /** Once the contents of its files are stored, an uploaded image passes the
      verifier. */
  lemma StoredIsComplete(layers: seq<Layer>, t: Target, tree: Tree, stored: Cas, cas: Cas, d: Digest)
    requires ImageTree(layers, t, tree) && Uploaded(cas, t.hash, tree, [], d)
    requires ImageStored(layers, t, stored) && Extends(stored, cas)
    ensures Complete(cas, d)
  {
    ImageBringsStored(layers, t, stored);
    ExtractsFiles(EMPTY_TREE, ImageEvents(layers, t), tree, IsIn(stored));
    forall q | q in tree && tree[q].File?
      ensures tree[q].digest in cas
    {
      assert IsIn(stored)(tree[q]);
    }
    UploadedIsComplete(cas, t.hash, tree, d);
  }

  // ---- The last entry decides ----

  /** What an entry at path p brings, takes away or leaves at q. */
  function Placed(p: Path, e: Entry, q: Path): Effect
  {
    if q == p then Set(e) else if q < p then Set(Dir) else if p < q then Remove else Keep
  }

  /** What a tar entry means for path q, in the words of the archive. */
  function Meaning(entry: TarEntry, q: Path, t: Target): Effect
  {
    match entry
    case TarDir(path) => if q <= path then Set(Dir) else Keep
    case TarFile(header, dir, name, data, _, mode) =>
      if name == ".wh..wh..opq" then
        if q <= dir then Set(Dir) else if dir < q then Remove else Keep
      else if ".wh." <= name then
        if q <= dir then Set(Dir) else if dir + [name[4..]] <= q then Remove else Keep
      else Placed(dir + [name], File(t.hash(Data(Contents(header, data, t.user))), mode & 0x49 != 0), q)
    case TarSymlink(dir, name, target) => Placed(dir + [name], Symlink(target), q)
    case TarLink(dir, name, link) => Placed(dir + [name], HardLink(link), q)
    case TarOther => Keep
  }

  lemma MeaningIsEffect(entry: TarEntry, q: Path, t: Target)
    ensures Meaning(entry, q, t) == if EventOf(entry, t).Some? then EffectOn(EventOf(entry, t).value, q) else Keep
  {
    if entry.TarFile? || entry.TarSymlink? || entry.TarLink? {
      PrefixOfSnoc(q, entry.dir, entry.name);
    }
    assert LayerExtractor.OPAQUE_WHITEOUT[..4] == ".wh.";
  }

  function LastMeaning(entries: Layer, q: Path, t: Target): Effect
  {
    if entries == [] then Keep
    else
      var last := Meaning(entries[|entries| - 1], q, t);
      if last != Keep then last else LastMeaning(entries[..|entries| - 1], q, t)
  }

  /** What the last entry of an image that touches q means for it. */
  function ImageMeaning(layers: seq<Layer>, q: Path, t: Target): Effect
  {
    if layers == [] then Keep
    else
      var last := LastMeaning(layers[|layers| - 1], q, t);
      if last != Keep then last else ImageMeaning(layers[..|layers| - 1], q, t)
  }

  /** The tree has at q what was last said, unless that was a hard link. */
  ghost predicate SaysAt(m: Tree, q: Path, effect: Effect)
  {
    match effect
    case Set(e) => if e.HardLink? then q in m else Lookup(m, q) == Some(e)
    case Remove => q !in m
    case Keep => q in m ==> q == []
  }

  function Over(before: Effect, after: Effect): Effect
  {
    if after != Keep then after else before
  }

  lemma EntrySays(m: Tree, entry: TarEntry, t: Target, q: Path, before: Effect)
    requires SaysAt(m, q, before)
    ensures SaysAt(AfterEntry(m, entry, t), q, Over(before, Meaning(entry, q, t)))
  {
    MeaningIsEffect(entry, q, t);
    var ev := EventOf(entry, t);
    if ev.Some? {
      ApplyPointwise(m, ev.value, q);
    }
  }

  lemma {:induction false} LayerSays(m: Tree, entries: Layer, t: Target, q: Path, before: Effect)
    requires SaysAt(m, q, before)
    ensures SaysAt(Stream(m, LayerEvents(entries, t)), q, Over(before, LastMeaning(entries, q, t)))
  {
    if entries != [] {
      var n := |entries| - 1;
      LayerSays(m, entries[..n], t, q, before);
      assert entries[..n] + [entries[n]] == entries;
      StreamOneMore(m, entries[..n], entries[n], t);
      var said := Over(before, LastMeaning(entries[..n], q, t));
      EntrySays(Stream(m, LayerEvents(entries[..n], t)), entries[n], t, q, said);
    }
  }

  lemma ResolutionSays(m: Tree, m': Tree, q: Path, effect: Effect)
    requires SaysAt(m, q, effect) && exists order :: IsOrder(m, order) && ResolveInOrder(m, order) == Some(m')
    ensures SaysAt(m', q, effect)
  {
    var order :| IsOrder(m, order) && ResolveInOrder(m, order) == Some(m');
    SuccessCopiesEnds(m, order, m');
  }

  lemma {:induction false} ImageSays(layers: seq<Layer>, t: Target, tree: Tree, q: Path)
    requires Extracts(EMPTY_TREE, ImageEvents(layers, t), tree)
    ensures SaysAt(tree, q, ImageMeaning(layers, q, t))
  {
    if layers != [] {
      var (init, last) := (layers[..|layers| - 1], layers[|layers| - 1]);
      var (evs, ev) := (ImageEvents(init, t), LayerEvents(last, t));
      assert (evs + [ev])[..|evs|] == evs;
      var mid :| Extracts(EMPTY_TREE, evs, mid) && ExtractsLayer(mid, ev, tree);
      ImageSays(init, t, mid, q);
      LayerSays(mid, last, t, q, ImageMeaning(init, q, t));
      ResolutionSays(Stream(mid, ev), tree, q, Over(ImageMeaning(init, q, t), LastMeaning(last, q, t)));
    }
  }

  ghost predicate FindsNothing(cas: Cas, root: Digest, q: Path)
  {
    forall node :: !Resolves(cas, root, q, node)
  }

  ghost predicate FindsDirectory(cas: Cas, root: Digest, q: Path)
  {
    exists c :: Resolves(cas, root, q, DirectoryAt(c))
  }

  /** A file or symlink with just these contents, a directory, or nothing. */
  ghost predicate Finds(cas: Cas, root: Digest, q: Path, effect: Effect)
  {
    match effect
    case Set(File(d, x)) => Resolves(cas, root, q, FileAt(d, x))
    case Set(Symlink(target)) => Resolves(cas, root, q, LinkAt(target))
    case Set(Dir) => FindsDirectory(cas, root, q)
    case Set(HardLink(_)) => true
    case Remove => FindsNothing(cas, root, q)
    case Keep => q != [] ==> FindsNothing(cas, root, q)
  }

  /** What the last entry of the image that touches a path means for it is what
      following digests from the uploaded root finds there. */
  lemma LastEntryDecides(layers: seq<Layer>, t: Target, tree: Tree, cas: Cas, root: Digest, q: Path)
    requires ImageTree(layers, t, tree) && Uploaded(cas, t.hash, tree, [], root)
    ensures Finds(cas, root, q, ImageMeaning(layers, q, t))
  {
    ImageSays(layers, t, tree, q);
    match ImageMeaning(layers, q, t)
    case Set(File(d, x)) => ReadBack(cas, t.hash, tree, root, q, FileAt(d, x));
    case Set(Symlink(target)) => ReadBack(cas, t.hash, tree, root, q, LinkAt(target));
    case Set(Dir) => ReadBack(cas, t.hash, tree, root, q, LinkAt(""));
    case Set(HardLink(_)) =>
    case _ =>
      forall node
        ensures q !in tree ==> !Resolves(cas, root, q, node)
      {
        ReadBack(cas, t.hash, tree, root, q, node);
      }
  }

  // ---- The build user ----

  const PASSWD: Path := ["etc", "passwd"]

  /** A file whose header spells etc/passwd, or that names the build user as it
      is. */
  ghost predicate NamesUser(header: string, data: string, user: UnixUser)
  {
    header == "etc/passwd" || (header != "etc/group" && Contains(data, Needle(user)))
  }

  /** Exactly then the visitor passes on contents that name the build user. */
  lemma NamesUserIff(header: string, data: string, user: UnixUser)
    requires header != "etc/group"
    ensures Contains(Contents(header, data, user), Needle(user)) <==> NamesUser(header, data, user)
  {
    if header == "etc/passwd" {
      PasswdNamesTheBuildUser(data, user);
    }
  }

  /** Any other spelling of the path passes the visitor by: the contents go into
      the tree as they are. */
  lemma OtherSpellingIsKept(data: string, mode: bv64, t: Target)
    ensures EventOf(TarFile("./etc/passwd", ["etc"], "passwd", data, true, mode), t) ==
            Some(Put(PASSWD, File(t.hash(Data(data)), mode & 0x49 != 0)))
  {
    assert ["etc"] + ["passwd"] == PASSWD;
    assert "passwd"[0] != ".wh."[0] && "passwd"[0] != LayerExtractor.OPAQUE_WHITEOUT[0];
  }

  /** The entry puts a file or a hard link at /etc/passwd. */
  predicate Writes(entry: TarEntry)
  {
    || (entry.TarFile? && !LayerExtractor.IsWhiteout(entry.name) && entry.dir + [entry.name] == PASSWD)
    || (entry.TarLink? && entry.dir + [entry.name] == PASSWD)
  }

  function LastIn(entries: Layer): Option<TarEntry>
  {
    if entries == [] then None
    else if Writes(entries[|entries| - 1]) then Some(entries[|entries| - 1])
    else LastIn(entries[..|entries| - 1])
  }

  /** The last such entry of an image. */
  function LastOf(layers: seq<Layer>): Option<TarEntry>
  {
    if layers == [] then None
    else
      var last := LastIn(layers[|layers| - 1]);
      if last.Some? then last else LastOf(layers[..|layers| - 1])
  }

  /** A file at /etc/passwd is the one that w brought, unless w is a link. */
  ghost predicate WrittenBy(m: Tree, t: Target, w: Option<TarEntry>)
  {
    match Lookup(m, PASSWD)
    case Some(File(d, _)) =>
      w.Some? && (w.value.TarFile? ==> d == t.hash(Data(Contents(w.value.header, w.value.data, t.user))))
    case Some(HardLink(_)) => w.Some? && !w.value.TarFile?
    case _ => true
  }

  function Later(w: Option<TarEntry>, w': Option<TarEntry>): Option<TarEntry>
  {
    if w'.Some? then w' else w
  }

  lemma EntryWrites(m: Tree, entry: TarEntry, t: Target, w: Option<TarEntry>)
    requires WrittenBy(m, t, w)
    ensures WrittenBy(AfterEntry(m, entry, t), t, if Writes(entry) then Some(entry) else w)
  {
    var ev := EventOf(entry, t);
    if ev.Some? {
      ApplyPointwise(m, ev.value, PASSWD);
    }
  }

  lemma {:induction false} LayerWrites(m: Tree, entries: Layer, t: Target, w: Option<TarEntry>)
    requires WrittenBy(m, t, w)
    ensures WrittenBy(Stream(m, LayerEvents(entries, t)), t, Later(w, LastIn(entries)))
  {
    if entries != [] {
      var n := |entries| - 1;
      LayerWrites(m, entries[..n], t, w);
      assert entries[..n] + [entries[n]] == entries;
      StreamOneMore(m, entries[..n], entries[n], t);
      EntryWrites(Stream(m, LayerEvents(entries[..n], t)), entries[n], t, Later(w, LastIn(entries[..n])));
    }
  }

  /** Resolving links touches /etc/passwd only if it is one. */
  lemma ResolutionWrites(m: Tree, m': Tree, t: Target, w: Option<TarEntry>)
    requires WrittenBy(m, t, w) && exists order :: IsOrder(m, order) && ResolveInOrder(m, order) == Some(m')
    ensures WrittenBy(m', t, w)
  {
    var order :| IsOrder(m, order) && ResolveInOrder(m, order) == Some(m');
    SuccessIsResolved(m, order);
    ResolvedIsClean(m);
  }

  lemma {:induction false} ImageWrites(layers: seq<Layer>, t: Target, tree: Tree)
    requires Extracts(EMPTY_TREE, ImageEvents(layers, t), tree)
    ensures WrittenBy(tree, t, LastOf(layers))
  {
    if layers != [] {
      var (init, last) := (layers[..|layers| - 1], layers[|layers| - 1]);
      var (evs, ev) := (ImageEvents(init, t), LayerEvents(last, t));
      assert (evs + [ev])[..|evs|] == evs;
      var mid :| Extracts(EMPTY_TREE, evs, mid) && ExtractsLayer(mid, ev, tree);
      ImageWrites(init, t, mid);
      LayerWrites(mid, last, t, LastOf(init));
      ResolutionWrites(Stream(mid, ev), tree, t, Later(LastOf(init), LastIn(last)));
    }
  }

  /** The file that following digests from the uploaded root to /etc/passwd finds
      has the text that the chroot helper looks for if and only if the last entry
      that wrote it is spelled etc/passwd, or had the text before. */
  lemma UploadedPasswdNamesTheBuildUser(layers: seq<Layer>, t: Target, tree: Tree, cas: Cas, root: Digest, d: Digest,
                                        x: bool)
    requires Injective(t.hash) && Sound(cas, t.hash) && ImageTree(layers, t, tree)
    requires Uploaded(cas, t.hash, tree, [], root) && Complete(cas, root) && Resolves(cas, root, PASSWD, FileAt(d, x))
    ensures d in cas && LastOf(layers).Some?
    ensures var w := LastOf(layers).value;
            w.TarFile? && w.header != "etc/group" ==>
              && cas[d].Data?
              && (Contains(cas[d].contents, Needle(t.user)) <==> NamesUser(w.header, w.data, t.user))
  {
    ImageWrites(layers, t, tree);
    ReadBack(cas, t.hash, tree, root, PASSWD, FileAt(d, x));
    assert Present(cas, FileAt(d, x));
    var w := LastOf(layers).value;
    if w.TarFile? && w.header != "etc/group" {
      assert cas[d] == Data(Contents(w.header, w.data, t.user));
      NamesUserIff(w.header, w.data, t.user);
    }
  }
}
