/** The Server of pkg/fetcher/server.go: the critical sections as methods on
    mutable state, each equal to its counterpart in RootCache. The clock and the
    materialized path are parameters. */
module RootFetcherServer {
  import opened Text
  import opened RootCache

  const DEFAULT_USE_BOOST := 300
  const DEFAULT_MAX_USE_BOOST := 1800

  class MaterializedRoot {
    const path: string
    var leases: set<Token>
    var virtualLastUse: int
    var idleSince: int
    ghost const id: nat

    constructor (path: string, token: Token, now: int, ghost id: nat)
      ensures this.path == path && this.id == id
      ensures leases == {token} && virtualLastUse == now && idleSince == now
    {
      this.path := path;
      this.leases := {token};
      this.virtualLastUse := now;
      this.idleSince := now;
      this.id := id;
    }

    ghost function Value(): Root
      reads this
    {
      Root(path, leases, virtualLastUse, idleSince)
    }
  }

  function Normalize(o: Options): Options
  {
    var useBoost := if o.useBoost <= 0 then DEFAULT_USE_BOOST else o.useBoost;
    var maxUseBoost := if o.maxUseBoost <= 0 then DEFAULT_MAX_USE_BOOST else o.maxUseBoost;
    Options(if o.maxRoots < 1 then 1 else o.maxRoots,
            if o.maxConcurrentFetches < 1 then 1 else o.maxConcurrentFetches,
            o.prefetchImages, useBoost, if maxUseBoost < useBoost then useBoost else maxUseBoost)
  }

  /** Usable options are taken as they are, missing ones get the defaults of five
      and thirty minutes, and the ceiling is never below one boost. */
  lemma NormalizedOptions(o: Options)
    ensures Normalize(o).maxRoots >= 1 && (o.maxRoots >= 1 ==> Normalize(o).maxRoots == o.maxRoots)
    ensures Normalize(o).maxConcurrentFetches >= 1
    ensures o.maxConcurrentFetches >= 1 ==> Normalize(o).maxConcurrentFetches == o.maxConcurrentFetches
    ensures Normalize(o).useBoost == if o.useBoost > 0 then o.useBoost else 300
    ensures 0 < o.maxUseBoost && Normalize(o).useBoost <= o.maxUseBoost ==> Normalize(o).maxUseBoost == o.maxUseBoost
    ensures 0 < o.maxUseBoost < Normalize(o).useBoost ==> Normalize(o).maxUseBoost == Normalize(o).useBoost
    ensures o.maxUseBoost <= 0 && Normalize(o).useBoost <= 1800 ==> Normalize(o).maxUseBoost == 1800
    ensures Normalize(o).prefetchImages == o.prefetchImages
  {
  }

  /** NewServer: refuses exactly when the distinct prefetched images would take
      half of the slots or more, and otherwise starts from an empty cache with
      options that satisfy everything the runs rely on. */
  method NewServer(o: Options) returns (server: Server?)
    ensures server == null <==> 2 * |set x | x in o.prefetchImages| >= Normalize(o).maxRoots
    ensures server != null ==>
              && fresh(server) && server.Valid()
              && server.options == Normalize(o) && server.pinned == (set x | x in o.prefetchImages)
              && ValidOptions(server.options, server.pinned)
              && server.Abs() == Cache(map[], [], 0, 0, map[], {})
  {
    var options := Normalize(o);
    var pinned: set<Ref> := {};
    for i := 0 to |o.prefetchImages|
      invariant pinned == set x | x in o.prefetchImages[..i]
    {
      assert o.prefetchImages[..i + 1] == o.prefetchImages[..i] + [o.prefetchImages[i]];
      pinned := pinned + {o.prefetchImages[i]};
    }
    assert o.prefetchImages[..|o.prefetchImages|] == o.prefetchImages;
    if 2 * |pinned| >= options.maxRoots {
      return null;
    }
    server := new Server(options, pinned);
  }

  class Server {
    var roots: map<Ref, MaterializedRoot>
    var trashSeq: nat
    var gauge: int
    var disk: map<string, Inode>
    var trash: set<string>
    const options: Options
    const pinned: set<Ref>
    /** Every root object ever created, oldest first. */
    ghost var objects: seq<MaterializedRoot>

    constructor (options: Options, pinned: set<Ref>)
      requires ValidOptions(options, pinned)
      ensures Valid() && this.options == options && this.pinned == pinned
      ensures Abs() == Cache(map[], [], 0, 0, map[], {})
    {
      this.options := options;
      this.pinned := pinned;
      roots, trashSeq, gauge, disk, trash, objects := map[], 0, 0, map[], {}, [];
    }

    ghost predicate Valid()
      reads this, objects
    {
      && ValidOptions(options, pinned)
      && (forall i :: 0 <= i < |objects| ==> objects[i].id == i)
      && (forall r :: r in roots ==> Known(roots[r]))
    }

    ghost predicate Known(root: MaterializedRoot)
      reads this
    {
      root.id < |objects| && objects[root.id] == root
    }

    ghost function Abs(): (c: Cache)
      requires Valid()
      reads this, objects
      ensures ValidIds(c)
      ensures |c.objects| == |objects|
    {
      var all := objects;
      Cache(map r | r in roots :: roots[r].id,
            seq(|all|, i requires 0 <= i < |all| reads all => all[i].Value()),
            trashSeq, gauge, disk, trash)
    }

    lemma SameSize()
      requires Valid()
      ensures |Abs().roots| == |roots|
    {
      assert Abs().roots.Keys == roots.Keys;
    }

    method TouchLocked(root: MaterializedRoot, now: int)
      modifies root`virtualLastUse
      ensures root.virtualLastUse == Touch(options, old(root.virtualLastUse), now)
      ensures 0 < options.useBoost <= options.maxUseBoost && old(root.virtualLastUse) <= now ==>
                root.virtualLastUse == now + options.useBoost
    {
      if root.virtualLastUse < now {
        root.virtualLastUse := now;
      }
      root.virtualLastUse := root.virtualLastUse + options.useBoost;
      var ceiling := now + options.maxUseBoost;
      if root.virtualLastUse > ceiling {
        root.virtualLastUse := ceiling;
      }
    }

    method AcquireCachedRoot(ref: Ref, token: Token, now: int) returns (root: MaterializedRoot?)
      requires Valid()
      modifies objects
      ensures Valid() && objects == old(objects)
      ensures root == null <==> ref !in roots
      ensures root == null ==> Abs() == old(Abs())
      ensures root != null ==>
                Known(root) && root == roots[ref] && Abs() == Lease(options, old(Abs()), root.id, token, now)
    {
      if ref in roots {
        root := roots[ref];
        root.leases := root.leases + {token};
        TouchLocked(root, now);
        assert Abs() == Lease(options, old(Abs()), root.id, token, now);
      } else {
        root := null;
      }
    }

    method AttachLease(ref: Ref, root: MaterializedRoot, token: Token, now: int) returns (ok: bool)
      requires Valid() && Known(root)
      modifies objects
      ensures Valid() && objects == old(objects)
      ensures ok <==> ref in roots && roots[ref] == root
      ensures Abs() == if ok then Lease(options, old(Abs()), root.id, token, now) else old(Abs())
    {
      if ref !in roots || roots[ref] != root {
        return false;
      }
      root.leases := root.leases + {token};
      TouchLocked(root, now);
      ok := true;
      assert Abs() == Lease(options, old(Abs()), root.id, token, now);
    }

    /** The function releaseFunc returns. */
    method ReleaseLease(root: MaterializedRoot, token: Token, now: int)
      requires Valid() && Known(root)
      modifies objects
      ensures Valid() && objects == old(objects)
      ensures Abs() == Release(old(Abs()), root.id, token, now)
      ensures root.leases == old(root.leases) - {token} && root.virtualLastUse == old(root.virtualLastUse)
      ensures root.idleSince == if old(root.leases) == {token} then now else old(root.idleSince)
    {
      if token !in root.leases {
        return;
      }
      root.leases := root.leases - {token};
      if root.leases == {} {
        root.idleSince := now;
      }
      assert Abs() == Release(old(Abs()), root.id, token, now);
    }

    method DiscardLocked(path: string)
      requires Valid()
      modifies this`trashSeq, this`disk, this`trash
      ensures Valid()
      ensures Abs() == Discard(old(Abs()), path)
    {
      trashSeq := trashSeq + 1;
      var target := TrashName(trashSeq, path);
      if path in disk {
        disk := (disk - {path})[target := disk[path]];
      } else {
        target := path;
      }
      trash := trash + {target};
      assert Abs().roots == old(Abs()).roots && Abs().objects == old(Abs()).objects;
    }

    /** The goroutine discardLocked starts. */
    method ReapDiscarded(name: string)
      requires Valid() && name in trash
      modifies this`disk, this`trash
      ensures Valid()
      ensures Abs() == Reap(old(Abs()), name)
    {
      disk := disk - {name};
      trash := trash - {name};
      assert Abs().roots == old(Abs()).roots && Abs().objects == old(Abs()).objects;
    }

    /** The scan for a victim, in whatever order the map is walked. */
    method FindVictim() returns (scan: Scan)
      requires Valid()
      ensures ScanResult(Abs(), pinned, scan)
    {
      scan := Nothing;
      var todo := roots.Keys;
      while todo != {}
        invariant todo <= roots.Keys
        invariant scan.Nothing? ==> forall r :: r in roots && r !in todo ==> !Evictable(Abs(), pinned, r)
        invariant scan.Victim? ==> scan.ref in roots && Evictable(Abs(), pinned, scan.ref)
        invariant scan.Victim? ==>
                    forall r :: r in roots && r !in todo && Evictable(Abs(), pinned, r) && r != scan.ref ==>
                      Before(Abs(), scan.ref, r)
        decreases todo
      {
        var ref :| ref in todo;
        todo := todo - {ref};
        var root := roots[ref];
        assert Abs().objects[Abs().roots[ref]] == root.Value();
        if root.leases == {} && ref !in pinned {
          if scan.Nothing? || root.virtualLastUse < roots[scan.ref].virtualLastUse
             || (root.virtualLastUse == roots[scan.ref].virtualLastUse && Less(ref, scan.ref)) {
            ghost var previous := scan;
            scan := Victim(ref);
            if previous.Victim? {
              forall r | r in roots && r !in todo && Evictable(Abs(), pinned, r) && r != ref
                ensures Before(Abs(), ref, r)
              {
                BeforeTransitive(Abs(), ref, previous.ref, r);
              }
            }
          } else {
            LessTrichotomy(ref, scan.ref);
          }
        }
      }
    }

    method EvictOneIdleLocked() returns (ok: bool, ghost scan: Scan)
      requires Valid()
      modifies this`roots, this`gauge, this`trashSeq, this`disk, this`trash
      ensures Valid() && ScanResult(old(Abs()), pinned, scan)
      ensures ok == scan.Victim?
      ensures Abs() == if ok then Evict(old(Abs()), scan.ref) else old(Abs())
      ensures roots == if ok then old(roots) - {scan.ref} else old(roots)
    {
      var found := FindVictim();
      scan := found;
      if found.Nothing? {
        return false, scan;
      }
      var victim := roots[found.ref];
      roots := roots - {found.ref};
      gauge := gauge - 1;
      assert Abs().roots == old(Abs()).roots - {found.ref};
      assert Abs().objects == old(Abs()).objects;
      DiscardLocked(victim.path);
      ok := true;
    }

    /** fetchRefSingle after a successful materialization of `path`; a null
        result is the "all slots are in use" error. */
    method FinishFetchRef(ref: Ref, path: string, token: Token, now: int)
      returns (root: MaterializedRoot?, ghost scan: Scan)
      requires Valid()
      modifies this`roots, this`gauge, this`trashSeq, this`disk, this`trash, this`objects
      ensures Valid() && (scan.Victim? ==> IsVictim(old(Abs()), pinned, scan.ref))
      ensures ref !in old(roots) && |old(roots)| >= options.maxRoots ==> ScanResult(old(Abs()), pinned, scan)
      ensures var (result, c) := FinishFetch(options, old(Abs()), ref, path, token, now, scan);
              && Abs() == c
              && (root == null <==> result.Refused?)
              && (root != null ==> Known(root) && root.id == result.id)
      // An existing root is returned and nothing leaves the cache.
      ensures ref in old(roots) ==> roots == old(roots) && root == roots[ref]
      // A cache with room only gains the new root,
      ensures ref !in old(roots) && |old(roots)| < options.maxRoots ==> root != null && roots == old(roots)[ref := root]
      // and from a full one at most the victim leaves.
      ensures ref !in old(roots) && |old(roots)| >= options.maxRoots && root != null ==>
                && scan.Victim? && IsVictim(old(Abs()), pinned, scan.ref)
                && roots == (old(roots) - {scan.ref})[ref := root]
      ensures root == null ==> roots == old(roots) && |roots| >= options.maxRoots
    {
      scan := Nothing;
      if ref in roots {
        root := roots[ref];
        if root.path != path {
          DiscardLocked(path);
        }
        return;
      }
      root, scan := FinishMissing(ref, path, token, now);
    }

    /** The rest of it for a reference that is not cached. */
    method FinishMissing(ref: Ref, path: string, token: Token, now: int)
      returns (root: MaterializedRoot?, ghost scan: Scan)
      requires Valid() && ref !in roots
      modifies this`roots, this`gauge, this`trashSeq, this`disk, this`trash, this`objects
      ensures Valid() && (scan.Victim? ==> IsVictim(old(Abs()), pinned, scan.ref))
      ensures |old(roots)| >= options.maxRoots ==> ScanResult(old(Abs()), pinned, scan)
      ensures var (result, c) := FinishFetch(options, old(Abs()), ref, path, token, now, scan);
              && Abs() == c
              && (root == null <==> result.Refused?)
              && (root != null ==> Known(root) && root.id == result.id)
      ensures |old(roots)| < options.maxRoots ==> root != null && roots == old(roots)[ref := root]
      ensures |old(roots)| >= options.maxRoots && root != null ==>
                scan.Victim? && roots == (old(roots) - {scan.ref})[ref := root]
      ensures root == null ==> roots == old(roots) && |roots| >= options.maxRoots
    {
      SameSize();
      var ok;
      ok, scan := MakeRoom();
      if !ok {
        DiscardLocked(path);
        return null, scan;
      }
      root := InsertRoot(ref, path, token, now);
    }

    /** Evicts if the cache is full. */
    method MakeRoom() returns (ok: bool, ghost scan: Scan)
      requires Valid()
      modifies this`roots, this`gauge, this`trashSeq, this`disk, this`trash
      ensures Valid() && (scan.Victim? ==> IsVictim(old(Abs()), pinned, scan.ref))
      ensures |old(roots)| < options.maxRoots ==> ok && Abs() == old(Abs()) && roots == old(roots) && scan == Nothing
      ensures |old(roots)| >= options.maxRoots ==> ScanResult(old(Abs()), pinned, scan) && ok == scan.Victim?
      ensures |old(roots)| >= options.maxRoots && ok ==>
                Abs() == Evict(old(Abs()), scan.ref) && roots == old(roots) - {scan.ref}
      ensures !ok ==> Abs() == old(Abs()) && roots == old(roots)
    {
      ok, scan := true, Nothing;
      if |roots| >= options.maxRoots {
        ok, scan := EvictOneIdleLocked();
      }
    }

    method InsertRoot(ref: Ref, path: string, token: Token, now: int) returns (root: MaterializedRoot)
      requires Valid()
      modifies this`roots, this`gauge, this`objects
      ensures Valid() && Known(root) && root.id == |old(objects)|
      ensures Abs() == Insert(old(Abs()), ref, path, token, now)
      ensures roots == old(roots)[ref := root] && gauge == old(gauge) + 1 && fresh(root)
      ensures root.path == path && root.leases == {token} && root.virtualLastUse == now && root.idleSince == now
    {
      root := new MaterializedRoot(path, token, now, |objects|);
      objects := objects + [root];
      roots := roots[ref := root];
      gauge := gauge + 1;
      assert Valid();
      ghost var c := old(Abs());
      assert Abs().roots == c.roots[ref := |c.objects|];
      assert Abs().objects == c.objects + [Root(path, {token}, now, now)];
    }
  }
}
