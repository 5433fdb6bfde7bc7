/** What holds in every run of the root fetcher. */
module RootCacheTheorems {
  import opened Text
  import opened RootCache
  import opened RootCacheRuns

  ghost predicate Next(o: Options, pinned: set<Ref>, s: Sys, s': Sys)
  {
    Shape(s) && exists l :: Enabled(o, pinned, s, l) && s' == Step(o, pinned, s, l)
  }

  ghost predicate Run(o: Options, pinned: set<Ref>, trace: seq<Sys>)
  {
    && |trace| > 0 && trace[0] == Init()
    && forall i :: 0 < i < |trace| ==> Next(o, pinned, trace[i - 1], trace[i])
  }

  /** The facts that only ever grow. */
  ghost predicate Grows(pinned: set<Ref>, s: Sys, s': Sys)
  {
    && s.origins <= s'.origins
    && s.cache.trashSeq <= s'.cache.trashSeq
    && s.clock <= s'.clock
    && CreditGrows(s.cache.objects, s'.cache.objects)
    && Keeps(pinned, s.cache.roots, s'.cache.roots)
  }

  ghost predicate CreditGrows(objects: seq<Root>, objects': seq<Root>)
  {
    && |objects| <= |objects'|
    && forall id :: 0 <= id < |objects| ==> objects[id].virtualLastUse <= objects'[id].virtualLastUse
  }

  ghost predicate Keeps(pinned: set<Ref>, roots: map<Ref, nat>, roots': map<Ref, nat>)
  {
    forall r :: r in pinned && r in roots ==> r in roots' && roots'[r] == roots[r]
  }

  lemma LeaseGrows(o: Options, pinned: set<Ref>, s: Sys, t: Token, id: nat, now: int)
    requires 0 < o.useBoost <= o.maxUseBoost && s.clock <= now
    requires t < |s.calls| && id < |s.cache.objects| == |s.lastUse|
    requires s.cache.objects[id].virtualLastUse <= s.clock + o.maxUseBoost
    ensures Grows(pinned, s, TakeLease(o, s, t, id, now))
  {
    TouchBounds(o, s.cache.objects[id].virtualLastUse, now);
  }

  lemma EvictGrows(pinned: set<Ref>, s: Sys, v: Ref)
    requires ValidIds(s.cache) && v in s.cache.roots && v !in pinned
    ensures Grows(pinned, s, EvictStep(s, v))
  {
  }

  lemma InsertGrows(pinned: set<Ref>, s: Sys, t: Token, now: int)
    requires t < |s.calls| && s.calls[t].Fetched? && s.calls[t].path in s.cache.disk
    requires s.calls[t].ref !in s.cache.roots && s.clock <= now
    ensures Grows(pinned, s, InsertStep(s, t, now))
  {
  }

  lemma FinishGrows(o: Options, pinned: set<Ref>, s: Sys, t: Token, now: int, scan: Scan)
    requires Shape(s) && Enabled(o, pinned, s, Finish(t, now, scan))
    ensures Grows(pinned, s, FinishStep(o, s, t, now, scan))
  {
    if s.calls[t].ref !in s.cache.roots {
      if |s.cache.roots| < o.maxRoots {
        InsertGrows(pinned, s, t, now);
      } else if scan.Victim? {
        EvictGrows(pinned, s, scan.ref);
        InsertGrows(pinned, EvictStep(s, scan.ref), t, now);
      }
    }
  }

  lemma StepGrows(o: Options, pinned: set<Ref>, s: Sys, l: Label)
    requires 0 < o.useBoost <= o.maxUseBoost && Shape(s) && Enabled(o, pinned, s, l)
    requires forall id :: 0 <= id < |s.cache.objects| ==> s.cache.objects[id].virtualLastUse <= s.clock + o.maxUseBoost
    ensures Grows(pinned, s, Step(o, pinned, s, l))
  {
    match l
    case Lookup(t, now) =>
      if s.calls[t].ref in s.cache.roots {
        LeaseGrows(o, pinned, s, t, s.cache.roots[s.calls[t].ref], now);
      }
    case Attach(t, now) => LeaseGrows(o, pinned, s, t, s.calls[t].id, now);
    case Finish(t, now, scan) => FinishGrows(o, pinned, s, t, now, scan);
    case _ =>
  }

  lemma NextGrows(o: Options, pinned: set<Ref>, s: Sys, s': Sys)
    requires ValidOptions(o, pinned) && Inv(o, s) && Next(o, pinned, s, s')
    ensures Inv(o, s') && Grows(pinned, s, s')
  {
    var l :| Enabled(o, pinned, s, l) && s' == Step(o, pinned, s, l);
    StepKeeps(o, pinned, s, l);
    StepGrows(o, pinned, s, l);
  }

  lemma {:induction false} RunInv(o: Options, pinned: set<Ref>, trace: seq<Sys>, i: nat)
    requires ValidOptions(o, pinned) && Run(o, pinned, trace) && i < |trace|
    ensures Inv(o, trace[i])
  {
    if i == 0 {
      InitInv(o, pinned);
    } else {
      RunInv(o, pinned, trace, i - 1);
      NextGrows(o, pinned, trace[i - 1], trace[i]);
    }
  }

  lemma GrowsTransitive(pinned: set<Ref>, s: Sys, s': Sys, s'': Sys)
    requires Grows(pinned, s, s') && Grows(pinned, s', s'')
    ensures Grows(pinned, s, s'')
  {
  }

  ghost predicate GrowsAt(pinned: set<Ref>, trace: seq<Sys>, k: nat)
  {
    0 < k < |trace| && Grows(pinned, trace[k - 1], trace[k])
  }

  lemma AdjacentGrows(o: Options, pinned: set<Ref>, trace: seq<Sys>, j: nat)
    requires ValidOptions(o, pinned) && Run(o, pinned, trace) && 0 < j < |trace|
    ensures GrowsAt(pinned, trace, j)
  {
    RunInv(o, pinned, trace, j - 1);
    NextGrows(o, pinned, trace[j - 1], trace[j]);
  }

  lemma {:induction false} GrowsAlong(pinned: set<Ref>, trace: seq<Sys>, i: nat, j: nat)
    requires i <= j < |trace| && forall k :: 0 < k < |trace| ==> GrowsAt(pinned, trace, k)
    ensures Grows(pinned, trace[i], trace[j])
    decreases j
  {
    if i < j {
      GrowsAlong(pinned, trace, i, j - 1);
      assert GrowsAt(pinned, trace, j);
      GrowsTransitive(pinned, trace[i], trace[j - 1], trace[j]);
    }
  }

  lemma RunGrows(o: Options, pinned: set<Ref>, trace: seq<Sys>, i: nat, j: nat)
    requires ValidOptions(o, pinned) && Run(o, pinned, trace) && i <= j < |trace|
    ensures Grows(pinned, trace[i], trace[j])
  {
    forall k | 0 < k < |trace|
      ensures GrowsAt(pinned, trace, k)
    {
      AdjacentGrows(o, pinned, trace, k);
    }
    GrowsAlong(pinned, trace, i, j);
  }

  // ---- Leases ----

  /** The root a call holds: it is the root stored under the call's reference,
      the call is among its leases, and the directory made for it is still
      under its own name, not handed to any deletion. */
  ghost predicate SafelyHeld(s: Sys, t: Token, ref: Ref, id: nat)
  {
    && ref in s.cache.roots && s.cache.roots[ref] == id
    && id < |s.cache.objects| == |s.origins|
    && t in s.cache.objects[id].leases
    && s.cache.objects[id].path in s.cache.disk
    && s.cache.disk[s.cache.objects[id].path] == s.origins[id].inode
    && s.cache.objects[id].path !in s.cache.trash
  }

  lemma HoldersAreSafe(o: Options, pinned: set<Ref>, trace: seq<Sys>, i: nat, t: Token)
    requires ValidOptions(o, pinned) && Run(o, pinned, trace) && i < |trace|
    requires t < |trace[i].calls| && trace[i].calls[t].Holding?
    ensures SafelyHeld(trace[i], t, trace[i].calls[t].ref, trace[i].calls[t].id)
  {
    RunInv(o, pinned, trace, i);
    HolderIsSafe(o, trace[i], t);
  }

  lemma HolderIsSafe(o: Options, s: Sys, t: Token)
    requires Inv(o, s) && t < |s.calls| && s.calls[t].Holding?
    ensures SafelyHeld(s, t, s.calls[t].ref, s.calls[t].id)
  {
    var id := s.calls[t].id;
    assert CallRefers(s.origins, s.calls[t]);
    assert t in Claimants(s.calls, id);
    assert Cached(s.cache.roots, s.origins, id);
  }

  /** From the moment a call holds a root until it no longer does, the path it
      was given names one and the same directory. */
  lemma HeldDirectoryStays(o: Options, pinned: set<Ref>, trace: seq<Sys>, i: nat, j: nat, t: Token)
    requires ValidOptions(o, pinned) && Run(o, pinned, trace) && i <= j < |trace|
    requires t < |trace[i].calls| && trace[i].calls[t].Holding?
    requires t < |trace[j].calls| && trace[j].calls[t] == trace[i].calls[t]
    ensures var (id, s, s') := (trace[i].calls[t].id, trace[i], trace[j]);
            && id < |s.cache.objects| && id < |s'.cache.objects|
            && s'.cache.objects[id].path == s.cache.objects[id].path
            && s.cache.objects[id].path in s.cache.disk && s.cache.objects[id].path in s'.cache.disk
            && s'.cache.disk[s.cache.objects[id].path] == s.cache.disk[s.cache.objects[id].path]
  {
    RunGrows(o, pinned, trace, i, j);
    RunInv(o, pinned, trace, i);
    RunInv(o, pinned, trace, j);
    HoldersAreSafe(o, pinned, trace, i, t);
    HoldersAreSafe(o, pinned, trace, j, t);
    var id := trace[i].calls[t].id;
    assert trace[i].cache.objects[id].path == trace[i].origins[id].path;
    assert trace[j].cache.objects[id].path == trace[j].origins[id].path;
  }

  /** No leaks: a token is in a lease set exactly when its call still needs the
      root, and a root that is no longer cached has no leases at all. */
  lemma LeasesAreExact(o: Options, pinned: set<Ref>, trace: seq<Sys>, i: nat, id: nat, t: Token)
    requires ValidOptions(o, pinned) && Run(o, pinned, trace) && i < |trace|
    requires id < |trace[i].cache.objects|
    ensures t in trace[i].cache.objects[id].leases <==>
            t < |trace[i].calls| && Claims(trace[i].calls[t], id)
    ensures trace[i].cache.objects[id].leases != {} ==>
              exists r :: r in trace[i].cache.roots && trace[i].cache.roots[r] == id
  {
    RunInv(o, pinned, trace, i);
    var s := trace[i];
    assert s.cache.objects[id].leases == Claimants(s.calls, id);
    if s.cache.objects[id].leases != {} {
      assert Cached(s.cache.roots, s.origins, id);
    }
  }

  /** The call whose fetch inserted a root cannot lose the race to attach. */
  lemma InserterAttaches(o: Options, pinned: set<Ref>, trace: seq<Sys>, i: nat, t: Token, now: int)
    requires ValidOptions(o, pinned) && Run(o, pinned, trace) && i < |trace|
    requires t < |trace[i].calls| && trace[i].calls[t].Attaching? && trace[i].calls[t].own && trace[i].clock <= now
    ensures Shape(trace[i]) && Enabled(o, pinned, trace[i], Attach(t, now))
    ensures Step(o, pinned, trace[i], Attach(t, now)).calls[t] == Holding(trace[i].calls[t].ref, trace[i].calls[t].id)
  {
    RunInv(o, pinned, trace, i);
    ReadyIsEnabled(o, pinned, trace[i], Attach(t, now));
    OwnerAttaches(o, trace[i], t);
  }

  /** Releasing again leaves the whole cache as it is, idleSince included. */
  lemma SecondReleaseIsNoOp(o: Options, pinned: set<Ref>, trace: seq<Sys>, i: nat, t: Token, now: int)
    requires ValidOptions(o, pinned) && Run(o, pinned, trace) && i < |trace|
    requires t < |trace[i].calls| && trace[i].calls[t].Released? && trace[i].clock <= now
    ensures Shape(trace[i]) && Enabled(o, pinned, trace[i], DoRelease(t, now))
    ensures Step(o, pinned, trace[i], DoRelease(t, now)) == trace[i].(clock := now)
  {
    RunInv(o, pinned, trace, i);
    ReadyIsEnabled(o, pinned, trace[i], DoRelease(t, now));
    var s := trace[i];
    assert s.cache.objects[s.calls[t].id].leases == Claimants(s.calls, s.calls[t].id);
    assert s.calls[t := s.calls[t]] == s.calls;
  }

  /** At most one call at a time works on a reference. */
  lemma OneFetchPerReference(o: Options, pinned: set<Ref>, trace: seq<Sys>, i: nat, t: Token, u: Token)
    requires ValidOptions(o, pinned) && Run(o, pinned, trace) && i < |trace|
    requires t < |trace[i].calls| && u < |trace[i].calls|
    requires Leads(trace[i].calls[t]) && Leads(trace[i].calls[u]) && trace[i].calls[t].ref == trace[i].calls[u].ref
    ensures t == u
  {
    RunInv(o, pinned, trace, i);
    var s := trace[i];
    assert CallFlies(s.flights, s.group, t, s.calls[t]) && CallFlies(s.flights, s.group, u, s.calls[u]);
  }

  // ---- Disk ----

  ghost predicate OwnedByRoot(s: Sys, n: string, r: Ref)
  {
    r in s.cache.roots && s.cache.roots[r] < |s.cache.objects| && s.cache.objects[s.cache.roots[r]].path == n
  }

  ghost predicate OwnedByFetch(s: Sys, n: string, t: Token)
  {
    t < |s.calls| && s.calls[t].Fetched? && s.calls[t].path == n
  }

  /** A directory on disk belongs to a cached root, to a fetch that has yet to
      take the lock, or to a pending deletion; never to two of them, and never
      to two roots or two fetches. Conversely all of these are on disk. */
  lemma OwnershipIsExclusive(o: Options, pinned: set<Ref>, trace: seq<Sys>, i: nat, n: string)
    requires ValidOptions(o, pinned) && Run(o, pinned, trace) && i < |trace|
    ensures var s := trace[i];
            n in s.cache.disk <==>
              (exists r :: OwnedByRoot(s, n, r)) || (exists t :: OwnedByFetch(s, n, t)) || n in s.cache.trash
    ensures forall r, r' :: OwnedByRoot(trace[i], n, r) && OwnedByRoot(trace[i], n, r') ==> r == r'
    ensures forall t, t' :: OwnedByFetch(trace[i], n, t) && OwnedByFetch(trace[i], n, t') ==> t == t'
    ensures forall r, t :: !(OwnedByRoot(trace[i], n, r) && OwnedByFetch(trace[i], n, t))
    ensures n in trace[i].cache.trash ==>
              forall r, t :: !OwnedByRoot(trace[i], n, r) && !OwnedByFetch(trace[i], n, t)
  {
    RunInv(o, pinned, trace, i);
    OwnerIsUnique(o, trace[i], n);
  }

  lemma OwnerIsUnique(o: Options, s: Sys, n: string)
    requires Inv(o, s)
    ensures forall r :: OwnedByRoot(s, n, r) ==> n in s.owners && s.owners[n] == CachedRoot(s.cache.roots[r])
    ensures forall t :: OwnedByFetch(s, n, t) ==> n in s.owners && s.owners[n] == RunningFetch(t)
    ensures forall r, r' :: OwnedByRoot(s, n, r) && OwnedByRoot(s, n, r') ==> r == r'
    ensures n in s.cache.disk ==>
              (exists r :: OwnedByRoot(s, n, r)) || (exists t :: OwnedByFetch(s, n, t)) || n in s.cache.trash
    ensures n in s.cache.trash ==> n in s.cache.disk && s.owners[n].Trash?
    ensures s.owners.Keys == s.cache.disk.Keys
  {
    forall r | OwnedByRoot(s, n, r)
      ensures n in s.owners && s.owners[n] == CachedRoot(s.cache.roots[r])
    {
      assert RefersTo(s.origins, r, s.cache.roots[r]);
      assert Cached(s.cache.roots, s.origins, s.cache.roots[r]);
    }
    if n in s.cache.disk {
      assert Owns(s.owners[n], n, s.cache.trash, s.cache.trashSeq, s.cache.roots, s.origins, s.calls);
      match s.owners[n]
      case CachedRoot(id) => assert OwnedByRoot(s, n, s.origins[id].ref);
      case RunningFetch(t) => assert OwnedByFetch(s, n, t);
      case Trash(_, _) =>
    }
  }

  /** A background deletion never touches the directory of a cached root or of
      a running fetch. */
  lemma DeletionSparesLiveRoots(o: Options, pinned: set<Ref>, trace: seq<Sys>, i: nat, name: string, n: string)
    requires ValidOptions(o, pinned) && Run(o, pinned, trace) && i < |trace|
    requires Shape(trace[i]) && Enabled(o, pinned, trace[i], Delete(name))
    requires (exists r :: OwnedByRoot(trace[i], n, r)) || (exists t :: OwnedByFetch(trace[i], n, t))
    ensures n in trace[i].cache.disk && n in Step(o, pinned, trace[i], Delete(name)).cache.disk
    ensures Step(o, pinned, trace[i], Delete(name)).cache.disk[n] == trace[i].cache.disk[n]
  {
    RunInv(o, pinned, trace, i);
    OwnerIsUnique(o, trace[i], n);
    OwnerIsUnique(o, trace[i], name);
  }

  /** The next trash name has never been on disk before, in any earlier state. */
  lemma TrashNamesAreNew(o: Options, pinned: set<Ref>, trace: seq<Sys>, i: nat, j: nat, path: string)
    requires ValidOptions(o, pinned) && Run(o, pinned, trace) && i <= j < |trace|
    ensures TrashName(trace[j].cache.trashSeq + 1, path) !in trace[i].cache.disk
  {
    RunGrows(o, pinned, trace, i, j);
    RunInv(o, pinned, trace, i);
    var (s, name) := (trace[i], TrashName(trace[j].cache.trashSeq + 1, path));
    if name in s.owners {
      assert Owns(s.owners[name], name, s.cache.trash, s.cache.trashSeq, s.cache.roots, s.origins, s.calls);
      TrashNameInjective(trace[j].cache.trashSeq + 1, path, s.owners[name].number, s.owners[name].from);
    }
  }

  // ---- Who leaves the cache ----

  /** Roots leave the cache only to make room, one at a time. */
  ghost predicate LeavesOnlyVictim(o: Options, pinned: set<Ref>, c: Cache, c': Cache)
    requires ValidIds(c)
  {
    && (forall r :: r in c.roots && r in c'.roots ==> c'.roots[r] == c.roots[r])
    && (forall r :: r in c.roots && r !in c'.roots ==> |c.roots| >= o.maxRoots && IsVictim(c, pinned, r))
  }

  lemma StepEvicts(o: Options, pinned: set<Ref>, s: Sys, l: Label)
    requires Shape(s) && Enabled(o, pinned, s, l)
    ensures LeavesOnlyVictim(o, pinned, s.cache, Step(o, pinned, s, l).cache)
  {
    if l.Finish? {
      FinishStepIsFinishFetch(o, s, l.call, l.now, l.scan);
    }
  }

  /** Over any run: while there is room nothing is evicted, and from a full cache
      at most one root leaves, the one whose credit runs out first. */
  lemma RoomMeansNoEviction(o: Options, pinned: set<Ref>, trace: seq<Sys>, i: nat)
    requires ValidOptions(o, pinned) && Run(o, pinned, trace) && i + 1 < |trace|
    ensures Shape(trace[i])
    ensures forall r :: r in trace[i].cache.roots && r in trace[i + 1].cache.roots ==>
              trace[i + 1].cache.roots[r] == trace[i].cache.roots[r]
    ensures |trace[i].cache.roots| < o.maxRoots ==> trace[i].cache.roots.Keys <= trace[i + 1].cache.roots.Keys
    ensures forall r :: r in trace[i].cache.roots && r !in trace[i + 1].cache.roots ==>
              IsVictim(trace[i].cache, pinned, r)
    ensures |trace[i].cache.roots.Keys - trace[i + 1].cache.roots.Keys| <= 1
  {
    RunInv(o, pinned, trace, i);
    var (c, c') := (trace[i].cache, trace[i + 1].cache);
    var l :| Enabled(o, pinned, trace[i], l) && trace[i + 1] == Step(o, pinned, trace[i], l);
    StepEvicts(o, pinned, trace[i], l);
    var gone := c.roots.Keys - c'.roots.Keys;
    if v :| v in gone {
      forall w | w in gone
        ensures w == v
      {
        VictimUnique(c, pinned, v, w);
      }
      assert gone == {v};
    }
  }

  /** A fetch that gets its root in brings it leased to the leader, with no credit
      yet, and idle since now. */
  lemma InsertedRootIsNew(o: Options, pinned: set<Ref>, s: Sys, t: Token, now: int, scan: Scan, id: nat)
    requires Shape(s) && Enabled(o, pinned, s, Finish(t, now, scan))
    requires Step(o, pinned, s, Finish(t, now, scan)).calls[t] ==
             Landing(s.calls[t].ref, s.calls[t].flight, Inserted(id))
    ensures var s' := Step(o, pinned, s, Finish(t, now, scan));
            && s.calls[t].ref !in s.cache.roots && s.calls[t].ref in s'.cache.roots
            && s'.cache.roots[s.calls[t].ref] == id == |s.cache.objects| < |s'.cache.objects|
            && s'.cache.objects[id] == Root(s.calls[t].path, {t}, now, now)
  {
  }

  // ---- Capacity and pinning ----

  lemma CapacityHolds(o: Options, pinned: set<Ref>, trace: seq<Sys>, i: nat)
    requires ValidOptions(o, pinned) && Run(o, pinned, trace) && i < |trace|
    ensures |trace[i].cache.roots| <= o.maxRoots
    ensures trace[i].cache.gauge == |trace[i].cache.roots|
    ensures |SlotHolders(trace[i].calls)| <= o.maxConcurrentFetches
  {
    RunInv(o, pinned, trace, i);
  }

  lemma PinnedRootsStay(o: Options, pinned: set<Ref>, trace: seq<Sys>, i: nat, j: nat, r: Ref)
    requires ValidOptions(o, pinned) && Run(o, pinned, trace) && i <= j < |trace|
    requires r in pinned && r in trace[i].cache.roots
    ensures r in trace[j].cache.roots && trace[j].cache.roots[r] == trace[i].cache.roots[r]
  {
    RunGrows(o, pinned, trace, i, j);
  }

  /** A refusal happens only in a full cache without an evictable root. */
  lemma RefusedWhenFull(o: Options, pinned: set<Ref>, s: Sys, t: Token, now: int, scan: Scan)
    requires Shape(s) && Enabled(o, pinned, s, Finish(t, now, scan))
    requires Step(o, pinned, s, Finish(t, now, scan)).calls[t] == Landing(s.calls[t].ref, s.calls[t].flight, Refused)
    ensures |s.cache.roots| >= o.maxRoots
    ensures forall r :: r in s.cache.roots ==> !Evictable(s.cache, pinned, r)
  {
  }

  ghost predicate Busy(s: Sys, busy: set<Ref>)
    requires Shape(s)
  {
    && busy <= s.cache.roots.Keys
    && (forall r :: r in busy ==> s.cache.objects[s.cache.roots[r]].leases != {})
    && (forall r, r' :: r in busy && r' in busy && r != r' ==>
          s.cache.objects[s.cache.roots[r]].leases !! s.cache.objects[s.cache.roots[r']].leases)
  }

  lemma LeasesAreDisjoint(s: Sys, r: Ref, r': Ref)
    requires Shape(s) && Refs(s) && Leases(s)
    requires r in s.cache.roots && r' in s.cache.roots && r != r'
    ensures s.cache.objects[s.cache.roots[r]].leases !! s.cache.objects[s.cache.roots[r']].leases
  {
    var (id, id') := (s.cache.roots[r], s.cache.roots[r']);
    assert RefersTo(s.origins, r, id) && RefersTo(s.origins, r', id');
    assert s.cache.objects[id].leases == Claimants(s.calls, id);
    assert s.cache.objects[id'].leases == Claimants(s.calls, id');
  }

  /** When a fetch is refused for lack of slots, more than half of the slots are
      taken by unpinned roots, and each of these has a lease of its own. */
  lemma RefusalMeansBusy(o: Options, pinned: set<Ref>, trace: seq<Sys>, i: nat, t: Token, now: int, scan: Scan)
    returns (busy: set<Ref>)
    requires ValidOptions(o, pinned) && Run(o, pinned, trace) && i < |trace|
    requires Shape(trace[i]) && Enabled(o, pinned, trace[i], Finish(t, now, scan))
    requires Step(o, pinned, trace[i], Finish(t, now, scan)).calls[t] ==
             Landing(trace[i].calls[t].ref, trace[i].calls[t].flight, Refused)
    ensures 2 * |busy| > o.maxRoots && busy !! pinned && Busy(trace[i], busy)
  {
    RunInv(o, pinned, trace, i);
    var s := trace[i];
    RefusedWhenFull(o, pinned, s, t, now, scan);
    busy := s.cache.roots.Keys - pinned;
    MostRootsUnpinned(s.cache.roots.Keys, pinned);
    assert |s.cache.roots| == |s.cache.roots.Keys|;
    forall r, r' | r in busy && r' in busy && r != r' {
      LeasesAreDisjoint(s, r, r');
    }
  }

  lemma MostRootsUnpinned(roots: set<Ref>, pinned: set<Ref>)
    ensures |roots - pinned| >= |roots| - |pinned|
  {
    assert roots == (roots - pinned) + (roots * pinned);
    SubsetSize(roots * pinned, pinned);
  }

  lemma {:induction false} SubsetSize<T>(a: set<T>, b: set<T>)
    requires a <= b
    ensures |a| <= |b|
  {
    if x :| x in a {
      SubsetSize(a - {x}, b - {x});
    }
  }

  // ---- Eviction order ----

  /** A root no call has acquired yet is leased to the call that fetched it. */
  lemma UnusedIsLeased(o: Options, s: Sys, id: nat)
    requires Inv(o, s) && id < |s.lastUse| && s.lastUse[id].Never?
    ensures s.cache.objects[id].leases != {}
  {
    assert s.origins[id].leader in Claimants(s.calls, id);
  }

  /** Every root that can be evicted has been acquired, and its credit is worth
      between useBoost and maxUseBoost more than that acquire. */
  lemma EvictableWasUsed(o: Options, pinned: set<Ref>, s: Sys, r: Ref)
    requires Inv(o, s) && Evictable(s.cache, pinned, r)
    ensures var id := s.cache.roots[r];
            && s.lastUse[id].At?
            && s.lastUse[id].time + o.useBoost <= s.cache.objects[id].virtualLastUse
            && s.cache.objects[id].virtualLastUse <= s.lastUse[id].time + o.maxUseBoost
  {
    if s.lastUse[s.cache.roots[r]].Never? {
      UnusedIsLeased(o, s, s.cache.roots[r]);
    }
  }

  /** A root last acquired more than maxUseBoost - useBoost after another
      evictable root is never evicted before it. */
  lemma RecentUseProtects(o: Options, pinned: set<Ref>, trace: seq<Sys>, i: nat, a: Ref, b: Ref)
    requires ValidOptions(o, pinned) && Run(o, pinned, trace) && i < |trace| && Shape(trace[i])
    requires Evictable(trace[i].cache, pinned, a) && Evictable(trace[i].cache, pinned, b)
    requires var s := trace[i];
             var (ua, ub) := (s.lastUse[s.cache.roots[a]], s.lastUse[s.cache.roots[b]]);
             ua.At? && ub.At? && ua.time > ub.time + (o.maxUseBoost - o.useBoost)
    ensures !IsVictim(trace[i].cache, pinned, a)
  {
    RunInv(o, pinned, trace, i);
    EvictableWasUsed(o, pinned, trace[i], a);
    EvictableWasUsed(o, pinned, trace[i], b);
  }

  /** Least recently acquired, ties by the smaller reference. */
  ghost predicate IsLeastRecentlyUsed(s: Sys, pinned: set<Ref>, v: Ref)
    requires Shape(s)
  {
    && Evictable(s.cache, pinned, v)
    && s.lastUse[s.cache.roots[v]].At?
    && forall r :: r in s.cache.roots && Evictable(s.cache, pinned, r) && r != v ==>
         var (uv, ur) := (s.lastUse[s.cache.roots[v]], s.lastUse[s.cache.roots[r]]);
         ur.At? && (uv.time < ur.time || (uv.time == ur.time && Less(v, r)))
  }

  /** With maxUseBoost equal to useBoost the policy is plain LRU, in every
      reachable state. */
  lemma EqualBoostsAreLRU(o: Options, pinned: set<Ref>, trace: seq<Sys>, i: nat, v: Ref)
    requires ValidOptions(o, pinned) && o.useBoost == o.maxUseBoost
    requires Run(o, pinned, trace) && i < |trace| && Shape(trace[i])
    ensures IsVictim(trace[i].cache, pinned, v) <==> IsLeastRecentlyUsed(trace[i], pinned, v)
  {
    RunInv(o, pinned, trace, i);
    forall r | r in trace[i].cache.roots && Evictable(trace[i].cache, pinned, r) {
      EvictableWasUsed(o, pinned, trace[i], r);
    }
  }

  /** The virtual clock of a root never runs backwards. */
  lemma CreditNeverDecreases(o: Options, pinned: set<Ref>, trace: seq<Sys>, i: nat, j: nat, id: nat)
    requires ValidOptions(o, pinned) && Run(o, pinned, trace) && i <= j < |trace| && id < |trace[i].cache.objects|
    ensures id < |trace[j].cache.objects|
    ensures trace[i].cache.objects[id].virtualLastUse <= trace[j].cache.objects[id].virtualLastUse
  {
    RunGrows(o, pinned, trace, i, j);
  }
}
