/** Where the merge operation gets the root digest of an image from
    (getDirDigest and getVerifiedFromRefStore in pkg/actionrouter/op_merge.go):
    a cache in memory, a store of refs that survives restarts, or an upload. */
module ImageRoots {
  import opened LayerTree
  import opened RemoteExecution
  import opened UploadedTree
  import opened DirTreeVerifier
  import opened ImageExtraction
  import Pipeline

  /** A directory's digest depends on those in it, so none contains itself. */
  ghost predicate AcyclicHash(hash: Hash, rank: Digest -> nat)
  {
    forall dir, name, c :: Has(dir, name, DirectoryAt(c)) ==> rank(c) < rank(hash(Folder(dir)))
  }

  lemma SoundIsAcyclic(cas: Cas, hash: Hash, rank: Digest -> nat)
    requires Sound(cas, hash) && AcyclicHash(hash, rank)
    ensures Acyclic(cas, rank)
  {
    forall d, name, c | Readable(cas, d) && Has(cas[d].dir, name, DirectoryAt(c))
      ensures rank(c) < rank(d)
    {
      assert cas[d] == Folder(cas[d].dir);
    }
  }

  /** The layers of an image extract to a tree that has this root digest. */
  ghost predicate IsRootOf(layers: seq<Layer>, t: Target, d: Digest)
  {
    exists tree, cas :: ImageTree(layers, t, tree) && Uploaded(cas, t.hash, tree, [], d)
  }

  /** An image has one root digest. */
  lemma RootIsUnique(layers: seq<Layer>, t: Target, d: Digest, d': Digest)
    requires IsRootOf(layers, t, d) && IsRootOf(layers, t, d')
    ensures d == d'
  {
    var tree, cas :| ImageTree(layers, t, tree) && Uploaded(cas, t.hash, tree, [], d);
    var tree', cas' :| ImageTree(layers, t, tree') && Uploaded(cas', t.hash, tree', [], d');
    UploadIsDeterministic(layers, t, cas, tree, d, cas', tree', d');
  }

  /** Wherever it is stored, the root directory of an image is canonical. */
  lemma RootIsCanonical(layers: seq<Layer>, t: Target, cas: Cas, d: Digest)
    requires Injective(t.hash) && Sound(cas, t.hash) && IsRootOf(layers, t, d) && Readable(cas, d)
    ensures Canonical(cas[d].dir)
  {
    var tree, cas' :| ImageTree(layers, t, tree) && Uploaded(cas', t.hash, tree, [], d);
    assert cas'[d] == cas[d];
  }

  /** What GetDirDigest promises of a digest when it enters the cache. */
  ghost predicate FoundRoot(layers: seq<Layer>, t: Target, cas: Cas, d: Digest)
  {
    IsRootOf(layers, t, d) && Complete(cas, d)
  }

  ghost predicate FindsRoots(env: Pipeline.Env, images: string -> seq<Layer>, t: Target, ref: string, cas: Cas)
  {
    var found := env.lookup(ref, cas);
    found.Some? ==>
      && FoundRoot(images(ref), t, found.value.cas, found.value.root)
      && Sound(found.value.cas, t.hash) && Extends(cas, found.value.cas)
  }

  /** It is all that the pipeline needs of an image root. */
  lemma FoundRootsAreReady(env: Pipeline.Env, images: string -> seq<Layer>, t: Target, base: Cas)
    requires env.hash == t.hash && Injective(t.hash)
    requires forall ref, cas :: Sound(cas, t.hash) && Extends(base, cas) ==> FindsRoots(env, images, t, ref, cas)
    ensures Pipeline.ImagesComplete(env, base) && Pipeline.ImagesUnique(env, base)
  {
    forall ref, cas | Sound(cas, env.hash) && Extends(base, cas)
      ensures Pipeline.FindsComplete(env.lookup(ref, cas)) && Pipeline.FindsUnique(env.lookup(ref, cas))
    {
      assert FindsRoots(env, images, t, ref, cas);
      var found := env.lookup(ref, cas);
      if found.Some? {
        CompleteUnfolds(found.value.cas, found.value.root);
        RootIsCanonical(images(ref), t, found.value.cas, found.value.root);
      }
    }
  }

  /** Everything that a path from d leads to is well-formed, even if missing. */
  ghost predicate NothingBroken(cas: Cas, wellFormed: Digest -> bool, d: Digest)
  {
    forall q, node :: Resolves(cas, d, q, node) ==> !Broken(cas, wellFormed, node)
  }

  /** Every ref is associated with the root digest of its image. */
  ghost predicate AreRoots(digests: map<string, Digest>, images: string -> seq<Layer>, t: Target)
  {
    forall ref {:trigger IsRootAt(digests, images, t, ref)} :: ref in digests ==> IsRootAt(digests, images, t, ref)
  }

  ghost predicate IsRootAt(digests: map<string, Digest>, images: string -> seq<Layer>, t: Target, ref: string)
  {
    ref in digests && IsRootOf(images(ref), t, digests[ref])
  }

  /** Every digest was the root of a complete tree in the CAS of its time. */
  ghost predicate WereComplete(digests: map<string, Digest>, casThen: map<string, Cas>)
  {
    forall ref {:trigger WasComplete(digests, casThen, ref)} :: ref in digests ==> WasComplete(digests, casThen, ref)
  }

  ghost predicate WasComplete(digests: map<string, Digest>, casThen: map<string, Cas>, ref: string)
  {
    ref in digests && ref in casThen && Complete(casThen[ref], digests[ref])
  }

  lemma AddRoot(digests: map<string, Digest>, images: string -> seq<Layer>, t: Target, ref: string, d: Digest)
    requires AreRoots(digests, images, t) && IsRootOf(images(ref), t, d)
    ensures AreRoots(digests[ref := d], images, t)
  {
    var more := digests[ref := d];
    forall other | other in more
      ensures IsRootAt(more, images, t, other)
    {
      assert other != ref ==> IsRootAt(digests, images, t, other);
    }
  }

  lemma AddComplete(digests: map<string, Digest>, casThen: map<string, Cas>, ref: string, d: Digest, cas: Cas)
    requires WereComplete(digests, casThen) && Complete(cas, d)
    ensures WereComplete(digests[ref := d], casThen[ref := cas])
  {
    var (more, then') := (digests[ref := d], casThen[ref := cas]);
    forall other | other in more
      ensures WasComplete(more, then', other)
    {
      assert other != ref ==> WasComplete(digests, casThen, other);
    }
  }

  class RootLookup {
    var cache: map<string, Digest>
    var refStore: map<string, Digest>
    var cas: Cas
    /** The layers that pulling a ref gives. */
    const images: string -> seq<Layer>
    const target: Target
    const wellFormed: Digest -> bool
    ghost const rank: Digest -> nat
    /** The CAS as it was when a digest entered the cache. */
    ghost var casThen: map<string, Cas>

    /** Every cached digest was the root of a complete tree for its ref when it
        was cached. Nothing is said about the CAS now: blobs may have expired. */
    ghost predicate Valid()
      reads this
    {
      && Hashing() && Sound(cas, target.hash)
      && AreRoots(refStore, images, target) && AreRoots(cache, images, target)
      && WereComplete(cache, casThen)
    }

    ghost predicate Hashing()
    {
      Injective(target.hash) && AcyclicHash(target.hash, rank) && forall blob :: wellFormed(target.hash(blob))
    }

    constructor (refStore: map<string, Digest>, cas: Cas, images: string -> seq<Layer>, target: Target,
                 wellFormed: Digest -> bool, ghost rank: Digest -> nat)
      requires Injective(target.hash) && AcyclicHash(target.hash, rank) && forall blob :: wellFormed(target.hash(blob))
      requires Sound(cas, target.hash) && AreRoots(refStore, images, target)
      ensures Valid() && cache == map[] && this.refStore == refStore && this.cas == cas
      ensures this.images == images && this.target == target && this.wellFormed == wellFormed
    {
      this.cache, this.refStore, this.cas, this.casThen := map[], refStore, cas, map[];
      this.images, this.target, this.wellFormed, this.rank := images, target, wellFormed, rank;
    }

    /** The stored digest, if there is one and its whole tree is in the CAS.
        `reachable` says whether the store answers. */
    method GetVerifiedFromRefStore(ref: string, reachable: bool) returns (status: Status, d: Digest)
      requires Valid()
      ensures status == OK <==> reachable && ref in refStore && Complete(cas, refStore[ref])
      ensures status == OK ==> d == refStore[ref]
      ensures reachable && ref !in refStore ==> status == NotFound
      ensures reachable && ref in refStore ==> Explains(status, cas, wellFormed, refStore[ref])
      ensures reachable && ref in refStore && NothingBroken(cas, wellFormed, refStore[ref]) ==> status != Invalid
      ensures !reachable ==> status == Invalid
    {
      d := 0;
      if !reachable {
        return Invalid, d;
      }
      if ref !in refStore {
        return NotFound, d;
      }
      d := refStore[ref];
      SoundIsAcyclic(cas, target.hash, rank);
      status := VerifyDirectory(cas, wellFormed, d, rank);
    }

    /** `pulled` says whether the image can be pulled, `recorded` whether the
        store accepts the new ref. */
    method GetDirDigest(ref: string, reachable: bool, pulled: bool, recorded: bool)
      returns (r: Option<Digest>, uploaded: bool)
      requires Valid()
      modifies this
      ensures Valid() && Extends(old(cas), cas)
      // A cached digest is returned as it is.
      ensures ref in old(cache) ==> r == Some(old(cache)[ref]) && !uploaded && cache == old(cache)
      // Any other result is a complete root of the image, cached and recorded.
      ensures r.Some? && ref !in old(cache) ==> cache == old(cache)[ref := r.value]
      ensures r.Some? && ref !in old(cache) ==> Complete(cas, r.value) && casThen == old(casThen)[ref := cas]
      ensures r.Some? && ref !in old(cache) ==> ref in refStore && refStore[ref] == r.value
      ensures r.Some? && uploaded ==> refStore == old(refStore)[ref := r.value]
      ensures r.None? ==> cache == old(cache)
      // So the pipeline can use it, unless something of a cached tree has been lost since.
      ensures ref in old(cache) ==> ref in old(casThen)
      ensures r.Some? && (ref in old(cache) ==> Extends(old(casThen)[ref], old(cas))) ==>
                FoundRoot(images(ref), target, cas, r.value)
      // A stored ref is used when its tree is complete.
      ensures ref !in old(cache) && reachable && ref in old(refStore) && Complete(old(cas), old(refStore)[ref]) ==>
                r == Some(old(refStore)[ref]) && !uploaded
      // The image is uploaded when the ref is not stored or its tree lacks something,
      ensures ref !in old(cache) && reachable && NeedsUpload(old(refStore), old(cas), ref) ==> uploaded
      // and only then: any other error ends the lookup and changes nothing.
      ensures uploaded ==> ref !in old(cache) && reachable
      ensures uploaded && ref in old(refStore) ==> Explains(NotFound, old(cas), wellFormed, old(refStore)[ref])
      ensures !uploaded ==> refStore == old(refStore) && cas == old(cas)
      // An upload gives the result unless a step of it fails.
      ensures uploaded && pulled && recorded && !ImageFails(images(ref), target) ==> r.Some?
    {
      if ref in cache {
        assert IsRootAt(cache, images, target, ref) && WasComplete(cache, casThen, ref);
        if Extends(casThen[ref], cas) {
          CompleteStays(casThen[ref], cas, cache[ref]);
        }
        return Some(cache[ref]), false;
      }
      r, uploaded := LookUp(ref, reachable, pulled, recorded);
      if r.Some? {
        AddRoot(cache, images, target, ref, r.value);
        AddComplete(cache, casThen, ref, r.value, cas);
        cache, casThen := cache[ref := r.value], casThen[ref := cas];
      }
    }

    /** The ref is not stored, or its tree lacks something but is not broken. */
    ghost predicate NeedsUpload(refStore: map<string, Digest>, cas: Cas, ref: string)
    {
      ref in refStore ==> !Complete(cas, refStore[ref]) && NothingBroken(cas, wellFormed, refStore[ref])
    }

    /** The lookup behind the cache, up to cache.Set. */
    method LookUp(ref: string, reachable: bool, pulled: bool, recorded: bool)
      returns (r: Option<Digest>, uploaded: bool)
      requires Valid()
      modifies this`cas, this`refStore
      ensures Valid() && Extends(old(cas), cas)
      ensures r.Some? ==> IsRootOf(images(ref), target, r.value) && Complete(cas, r.value)
      ensures r.Some? ==> ref in refStore && refStore[ref] == r.value
      ensures r.Some? && uploaded ==> refStore == old(refStore)[ref := r.value]
      ensures reachable && ref in old(refStore) && Complete(old(cas), old(refStore)[ref]) ==>
                r == Some(old(refStore)[ref]) && !uploaded
      ensures reachable && NeedsUpload(old(refStore), old(cas), ref) ==> uploaded
      ensures uploaded ==> reachable
      ensures uploaded && ref in old(refStore) ==> Explains(NotFound, old(cas), wellFormed, old(refStore)[ref])
      ensures !uploaded ==> refStore == old(refStore) && cas == old(cas)
      ensures uploaded && pulled && recorded && !ImageFails(images(ref), target) ==> r.Some?
    {
      var status, d := GetVerifiedFromRefStore(ref, reachable);
      uploaded := status == NotFound;
      if uploaded {
        r := UploadAndRecord(ref, pulled, recorded);
      } else {
        assert status == OK ==> IsRootAt(refStore, images, target, ref);
        r := if status == OK then Some(d) else None;
      }
    }

    /** UploadImageToCAS, then refStore.Put. */
    method UploadAndRecord(ref: string, pulled: bool, recorded: bool) returns (r: Option<Digest>)
      requires Valid()
      modifies this`cas, this`refStore
      ensures Valid() && Extends(old(cas), cas)
      ensures r.Some? ==> IsRootOf(images(ref), target, r.value) && Complete(cas, r.value)
      ensures r.Some? ==> refStore == old(refStore)[ref := r.value]
      ensures pulled && recorded && !ImageFails(images(ref), target) ==> r.Some?
    {
      if !pulled {
        return None;
      }
      var d, cas' := UploadImage(images(ref), target, cas);
      cas := cas';
      if d.None? || !recorded {
        return None;
      }
      assert IsRootOf(images(ref), target, d.value);
      AddRoot(refStore, images, target, ref, d.value);
      refStore := refStore[ref := d.value];
      r := d;
    }
  }
}
