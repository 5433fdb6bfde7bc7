/** Every interleaving of Acquire calls, releases, evictions and background
    deletions over the critical sections of RootCache. One program counter per
    Acquire call; the call's index is its lease token. */
module RootCacheRuns {
  import opened RootCache

  /** Where an Acquire call is. The flight number names the singleflight call it
      leads or joined; `own` says that the call's own fetch created the root. */
  datatype Call =
    | Started(ref: Ref)
    | Missed(ref: Ref)
    | Joined(ref: Ref, flight: nat)
    | Queued(ref: Ref, flight: nat)
    | Fetching(ref: Ref, flight: nat)
    | Fetched(ref: Ref, flight: nat, path: string)
    | Landing(ref: Ref, flight: nat, result: Fetch)
    | Attaching(ref: Ref, id: nat, own: bool)
    | Holding(ref: Ref, id: nat)
    | Released(ref: Ref, id: nat)
    | Failed(ref: Ref)

  datatype Outcome = Pending | Got(id: nat) | Error

  datatype Flight = Flight(ref: Ref, leader: Token, outcome: Outcome)

  /** Who answers for a directory on disk. */
  datatype Owner = CachedRoot(id: nat) | RunningFetch(call: Token) | Trash(number: nat, from: string)

  datatype LastUse = Never | At(time: int)

  datatype Origin = Origin(ref: Ref, path: string, inode: Inode, leader: Token)

  /** origins, lastUse and owners are history: per root object its reference,
      directory and fetching call, the time of its latest acquire, and per name
      on disk its owner. No step's effect on the other fields reads them. */
  datatype Sys = Sys(
    cache: Cache,
    clock: int,
    calls: seq<Call>,
    flights: seq<Flight>,
    group: map<Ref, nat>,
    nextInode: Inode,
    origins: seq<Origin>,
    lastUse: seq<LastUse>,
    owners: map<string, Owner>)

  // ---- The step relation ----

  function Init(): Sys
  {
    Sys(Cache(map[], [], 0, 0, map[], {}), 0, [], [], map[], 0, [], [], map[])
  }

  datatype Label =
    | Begin(ref: Ref)
    | Lookup(call: Token, now: int)
    | Join(call: Token)
    | Lead(call: Token)
    | TakeSlot(call: Token)
    | MaterializeOk(call: Token, path: string)
    | MaterializeErr(call: Token)
    | Finish(call: Token, now: int, scan: Scan)
    | Land(call: Token)
    | Deliver(call: Token)
    | Attach(call: Token, now: int)
    | DoRelease(call: Token, now: int)
    | Delete(name: string)

  predicate InFetch(pc: Call) {
    pc.Fetching? || pc.Fetched?
  }

  /** The calls that hold a slot of the fetch semaphore. */
  function SlotHolders(calls: seq<Call>): set<Token>
  {
    set t | 0 <= t < |calls| && InFetch(calls[t])
  }

  ghost predicate Shape(s: Sys)
  {
    && ValidIds(s.cache)
    && |s.cache.objects| == |s.origins| == |s.lastUse|
    && forall id :: 0 <= id < |s.origins| ==> s.cache.objects[id].path == s.origins[id].path
  }

  /** When a step can be taken: the call is at the right place, the clock does
      not run backwards, a slot is free, the materializer renames its result to a
      name that was not there, and an eviction scan reports the truth. */
  ghost predicate Ready(o: Options, pinned: set<Ref>, s: Sys, l: Label)
    requires Shape(s)
  {
    match l
    case Begin(_) => true
    case Lookup(t, now) => t < |s.calls| && s.calls[t].Started? && s.clock <= now
    case Join(t) => t < |s.calls| && s.calls[t].Missed? && s.calls[t].ref in s.group
    case Lead(t) => t < |s.calls| && s.calls[t].Missed? && s.calls[t].ref !in s.group
    case TakeSlot(t) => t < |s.calls| && s.calls[t].Queued? && |SlotHolders(s.calls)| < o.maxConcurrentFetches
    case MaterializeOk(t, path) =>
      t < |s.calls| && s.calls[t].Fetching? && path !in s.cache.disk && !(TRASH_PREFIX <= path)
    case MaterializeErr(t) => t < |s.calls| && s.calls[t].Fetching?
    case Finish(t, now, scan) =>
      t < |s.calls| && s.calls[t].Fetched? && s.clock <= now && ScanResult(s.cache, pinned, scan)
    case Land(t) => t < |s.calls| && s.calls[t].Landing?
    case Deliver(t) =>
      && t < |s.calls| && s.calls[t].Joined?
      && s.calls[t].flight < |s.flights| && !s.flights[s.calls[t].flight].outcome.Pending?
    case Attach(t, now) => t < |s.calls| && s.calls[t].Attaching? && s.clock <= now
    case DoRelease(t, now) => t < |s.calls| && (s.calls[t].Holding? || s.calls[t].Released?) && s.clock <= now
    case Delete(name) => name in s.cache.trash
  }

  /** What the effect of a step needs in order to be defined. These never turn a
      ready step away in a reachable state (lemma ReadyIsEnabled). */
  ghost predicate Enabled(o: Options, pinned: set<Ref>, s: Sys, l: Label)
    requires Shape(s)
  {
    && Ready(o, pinned, s, l)
    && match l
       case Finish(t, _, scan) =>
         && s.calls[t].path in s.cache.disk
         && (scan.Victim? ==> s.cache.objects[s.cache.roots[scan.ref]].path != s.calls[t].path)
       case Land(t) => s.calls[t].flight < |s.flights|
       case Attach(t, _) => s.calls[t].id < |s.cache.objects|
       case DoRelease(t, _) => s.calls[t].id < |s.cache.objects|
       case _ => true
  }

  function Goto(s: Sys, t: Token, pc: Call): Sys
    requires t < |s.calls|
  {
    s.(calls := s.calls[t := pc])
  }

  /** acquireCachedRoot's hit and attachLease's success: call t leases root id. */
  function TakeLease(o: Options, s: Sys, t: Token, id: nat, now: int): Sys
    requires t < |s.calls| && id < |s.cache.objects| == |s.lastUse|
  {
    s.(cache := Lease(o, s.cache, id, t, now), clock := now,
       calls := s.calls[t := Holding(s.calls[t].ref, id)],
       lastUse := s.lastUse[id := At(now)])
  }

  /** The directory at `path` now answers to the next trash name. */
  function GiveUp(s: Sys, path: string): map<string, Owner>
  {
    var k := s.cache.trashSeq + 1;
    (s.owners - {path})[TrashName(k, path) := Trash(k, path)]
  }

  /** Call t puts the directory it fetched into the cache and lands. */
  function InsertStep(s: Sys, t: Token, now: int): Sys
    requires t < |s.calls| && s.calls[t].Fetched? && s.calls[t].path in s.cache.disk
  {
    var (Fetched(ref, flight, path), id) := (s.calls[t], |s.cache.objects|);
    s.(cache := Insert(s.cache, ref, path, t, now), clock := now,
       calls := s.calls[t := Landing(ref, flight, Inserted(id))],
       origins := s.origins + [Origin(ref, path, s.cache.disk[path], t)],
       lastUse := s.lastUse + [Never],
       owners := s.owners[path := CachedRoot(id)])
  }

  function EvictStep(s: Sys, v: Ref): Sys
    requires v in s.cache.roots && s.cache.roots[v] < |s.cache.objects|
  {
    s.(cache := Evict(s.cache, v), owners := GiveUp(s, s.cache.objects[s.cache.roots[v]].path))
  }

  /** Call t throws away the directory it fetched and lands with `result`. */
  function DiscardStep(s: Sys, t: Token, now: int, result: Fetch): Sys
    requires t < |s.calls| && s.calls[t].Fetched?
  {
    var Fetched(ref, flight, path) := s.calls[t];
    s.(cache := Discard(s.cache, path), clock := now, owners := GiveUp(s, path),
       calls := s.calls[t := Landing(ref, flight, result)])
  }

  ghost function FinishStep(o: Options, s: Sys, t: Token, now: int, scan: Scan): Sys
    requires Shape(s) && t < |s.calls| && s.calls[t].Fetched? && s.calls[t].path in s.cache.disk
    requires scan.Victim? ==>
               scan.ref in s.cache.roots && s.cache.objects[s.cache.roots[scan.ref]].path != s.calls[t].path
  {
    var Fetched(ref, flight, path) := s.calls[t];
    if ref in s.cache.roots then
      var result := Existing(s.cache.roots[ref]);
      if s.cache.objects[s.cache.roots[ref]].path != path then DiscardStep(s, t, now, result)
      else s.(clock := now, calls := s.calls[t := Landing(ref, flight, result)])
    else if |s.cache.roots| < o.maxRoots then InsertStep(s, t, now)
    else if scan.Victim? then InsertStep(EvictStep(s, scan.ref), t, now)
    else DiscardStep(s, t, now, Refused)
  }

  /** The step's effect on the cache is that of the critical section. */
  lemma FinishStepIsFinishFetch(o: Options, s: Sys, t: Token, now: int, scan: Scan)
    requires Shape(s) && t < |s.calls| && s.calls[t].Fetched? && s.calls[t].path in s.cache.disk
    requires scan.Victim? ==>
               scan.ref in s.cache.roots && s.cache.objects[s.cache.roots[scan.ref]].path != s.calls[t].path
    ensures var Fetched(ref, flight, path) := s.calls[t];
            var (result, cache) := FinishFetch(o, s.cache, ref, path, t, now, scan);
            var s' := FinishStep(o, s, t, now, scan);
            s'.cache == cache && s'.calls == s.calls[t := Landing(ref, flight, result)]
  {
  }

  ghost function Step(o: Options, pinned: set<Ref>, s: Sys, l: Label): Sys
    requires Shape(s) && Enabled(o, pinned, s, l)
  {
    match l
    case Begin(ref) => s.(calls := s.calls + [Started(ref)])
    case Lookup(t, now) =>
      var ref := s.calls[t].ref;
      if ref in s.cache.roots then TakeLease(o, s, t, s.cache.roots[ref], now) else Goto(s, t, Missed(ref))
    case Join(t) => Goto(s, t, Joined(s.calls[t].ref, s.group[s.calls[t].ref]))
    case Lead(t) =>
      var (ref, f) := (s.calls[t].ref, |s.flights|);
      s.(flights := s.flights + [Flight(ref, t, Pending)], group := s.group[ref := f],
         calls := s.calls[t := Queued(ref, f)])
    case TakeSlot(t) => Goto(s, t, Fetching(s.calls[t].ref, s.calls[t].flight))
    case MaterializeOk(t, path) =>
      s.(cache := s.cache.(disk := s.cache.disk[path := s.nextInode]), nextInode := s.nextInode + 1,
         calls := s.calls[t := Fetched(s.calls[t].ref, s.calls[t].flight, path)],
         owners := s.owners[path := RunningFetch(t)])
    case MaterializeErr(t) => Goto(s, t, Landing(s.calls[t].ref, s.calls[t].flight, Refused))
    case Finish(t, now, scan) => FinishStep(o, s, t, now, scan)
    case Land(t) =>
      var Landing(ref, f, result) := s.calls[t];
      var outcome := if result.Refused? then Error else Got(result.id);
      s.(flights := s.flights[f := s.flights[f].(outcome := outcome)], group := s.group - {ref},
         calls := s.calls[t := if result.Refused? then Failed(ref) else Attaching(ref, result.id, result.Inserted?)])
    case Deliver(t) =>
      var Joined(ref, f) := s.calls[t];
      Goto(s, t, if s.flights[f].outcome.Error? then Failed(ref) else Attaching(ref, s.flights[f].outcome.id, false))
    case Attach(t, now) =>
      var Attaching(ref, id, own) := s.calls[t];
      if ref in s.cache.roots && s.cache.roots[ref] == id then TakeLease(o, s, t, id, now) else Goto(s, t, Failed(ref))
    case DoRelease(t, now) =>
      s.(cache := Release(s.cache, s.calls[t].id, t, now), clock := now,
         calls := s.calls[t := Released(s.calls[t].ref, s.calls[t].id)])
    case Delete(name) => s.(cache := Reap(s.cache, name), owners := s.owners - {name})
  }

  // ---- The invariant ----

  /** A call entitled to a lease on root id: it holds the root, or its own fetch
      inserted the root and it has yet to attach. */
  predicate Claims(pc: Call, id: nat)
  {
    || (pc.Holding? && pc.id == id)
    || (pc.Attaching? && pc.id == id && pc.own)
    || (pc.Landing? && pc.result == Inserted(id))
  }

  predicate Cached(roots: map<Ref, nat>, origins: seq<Origin>, id: nat)
  {
    id < |origins| && origins[id].ref in roots && roots[origins[id].ref] == id
  }

  predicate RefersTo(origins: seq<Origin>, ref: Ref, id: nat)
  {
    id < |origins| && origins[id].ref == ref
  }

  predicate CallRefers(origins: seq<Origin>, pc: Call)
  {
    && (pc.Attaching? || pc.Holding? || pc.Released? ==> RefersTo(origins, pc.ref, pc.id))
    && (pc.Landing? && !pc.result.Refused? ==> RefersTo(origins, pc.ref, pc.result.id))
  }

  predicate FlightRefers(origins: seq<Origin>, flight: Flight)
  {
    flight.outcome.Got? ==> RefersTo(origins, flight.ref, flight.outcome.id)
  }

  /** References and object numbers agree everywhere. */
  ghost predicate RefsInv(roots: map<Ref, nat>, origins: seq<Origin>, calls: seq<Call>, flights: seq<Flight>)
  {
    && (forall r :: r in roots ==> RefersTo(origins, r, roots[r]))
    && (forall t :: 0 <= t < |calls| ==> CallRefers(origins, calls[t]))
    && (forall f :: 0 <= f < |flights| ==> FlightRefers(origins, flights[f]))
  }

  predicate Leads(pc: Call) {
    pc.Queued? || pc.Fetching? || pc.Fetched? || pc.Landing?
  }

  predicate CallFlies(flights: seq<Flight>, group: map<Ref, nat>, t: Token, pc: Call)
  {
    && (Leads(pc) ==>
          && pc.flight < |flights| && flights[pc.flight] == Flight(pc.ref, t, Pending)
          && pc.ref in group && group[pc.ref] == pc.flight)
    && (pc.Joined? ==> pc.flight < |flights| && flights[pc.flight].ref == pc.ref)
  }

  /** Singleflight: who works on a reference is the leader of its one flight. */
  ghost predicate FlightsInv(calls: seq<Call>, flights: seq<Flight>, group: map<Ref, nat>)
  {
    && (forall t :: 0 <= t < |calls| ==> CallFlies(flights, group, t, calls[t]))
    && (forall r :: r in group ==> group[r] < |flights| && flights[group[r]].ref == r)
  }

  /** The lease sets hold exactly the entitled calls, and only cached roots have
      any. */
  ghost predicate LeasesInv(objects: seq<Root>, roots: map<Ref, nat>, origins: seq<Origin>, calls: seq<Call>)
  {
    forall id :: 0 <= id < |objects| ==>
      && objects[id].leases == Claimants(calls, id)
      && (objects[id].leases != {} ==> Cached(roots, origins, id))
  }

  function Claimants(calls: seq<Call>, id: nat): set<Token>
  {
    set t | 0 <= t < |calls| && Claims(calls[t], id)
  }

  lemma ClaimantsAfter(calls: seq<Call>, t: Token, pc: Call, id: nat)
    requires t < |calls|
    ensures Claimants(calls[t := pc], id) ==
            if Claims(pc, id) then Claimants(calls, id) + {t} else Claimants(calls, id) - {t}
  {
  }

  /** A root never acquired is still claimed by the call that fetched it; the
      credit of the others is that of their latest acquire. */
  ghost predicate UseInv(o: Options, objects: seq<Root>, origins: seq<Origin>, lastUse: seq<LastUse>,
                         calls: seq<Call>, clock: int)
    requires |objects| == |origins| == |lastUse|
  {
    && (forall id :: 0 <= id < |lastUse| && lastUse[id].Never? ==>
          && origins[id].leader < |calls|
          && Claims(calls[origins[id].leader], id) && !calls[origins[id].leader].Holding?)
    && (forall id :: 0 <= id < |lastUse| && lastUse[id].At? ==>
          && lastUse[id].time <= clock
          && lastUse[id].time + o.useBoost <= objects[id].virtualLastUse <= lastUse[id].time + o.maxUseBoost)
    && (forall id :: 0 <= id < |objects| ==> objects[id].virtualLastUse <= clock + o.maxUseBoost)
  }

  /** Every directory on disk has one owner, and the owner knows about it. */
  ghost predicate DiskInv(disk: map<string, Inode>, trash: set<string>, trashSeq: nat, roots: map<Ref, nat>,
                          origins: seq<Origin>, calls: seq<Call>, owners: map<string, Owner>)
  {
    && owners.Keys == disk.Keys
    && (forall n {:trigger Owns(owners[n], n, trash, trashSeq, roots, origins, calls)} ::
          n in owners ==> Owns(owners[n], n, trash, trashSeq, roots, origins, calls))
    && (forall id :: 0 <= id < |origins| && Cached(roots, origins, id) ==>
          && origins[id].path in owners && owners[origins[id].path] == CachedRoot(id)
          && disk[origins[id].path] == origins[id].inode)
    && (forall t :: 0 <= t < |calls| && calls[t].Fetched? ==>
          calls[t].path in owners && owners[calls[t].path] == RunningFetch(t))
    && (forall n :: n in trash ==> n in owners && owners[n].Trash?)
  }

  predicate Owns(owner: Owner, n: string, trash: set<string>, trashSeq: nat, roots: map<Ref, nat>,
                 origins: seq<Origin>, calls: seq<Call>)
  {
    match owner
    case CachedRoot(id) =>
      Cached(roots, origins, id) && origins[id].path == n && !(TRASH_PREFIX <= n)
    case RunningFetch(t) =>
      t < |calls| && calls[t].Fetched? && calls[t].path == n && !(TRASH_PREFIX <= n)
    case Trash(k, from) =>
      n in trash && n == TrashName(k, from) && k <= trashSeq
  }

  ghost predicate CapacityInv(o: Options, s: Sys)
  {
    && |s.cache.roots| <= o.maxRoots
    && s.cache.gauge == |s.cache.roots|
    && |SlotHolders(s.calls)| <= o.maxConcurrentFetches
  }

  ghost predicate Refs(s: Sys) { RefsInv(s.cache.roots, s.origins, s.calls, s.flights) }
  ghost predicate Flights(s: Sys) { FlightsInv(s.calls, s.flights, s.group) }
  ghost predicate Leases(s: Sys) { LeasesInv(s.cache.objects, s.cache.roots, s.origins, s.calls) }
  ghost predicate Use(o: Options, s: Sys)
    requires Shape(s)
  {
    UseInv(o, s.cache.objects, s.origins, s.lastUse, s.calls, s.clock)
  }
  ghost predicate Disk(s: Sys) {
    DiskInv(s.cache.disk, s.cache.trash, s.cache.trashSeq, s.cache.roots, s.origins, s.calls, s.owners)
  }

  ghost predicate Inv(o: Options, s: Sys)
  {
    Shape(s) && Refs(s) && Flights(s) && Leases(s) && Use(o, s) && Disk(s) && CapacityInv(o, s)
  }

  // ---- Moving one program counter ----

  lemma RefsMove(roots: map<Ref, nat>, origins: seq<Origin>, calls: seq<Call>, flights: seq<Flight>, t: Token, pc: Call)
    requires RefsInv(roots, origins, calls, flights) && t < |calls| && CallRefers(origins, pc)
    ensures RefsInv(roots, origins, calls[t := pc], flights)
  {
  }

  lemma FlightsMove(calls: seq<Call>, flights: seq<Flight>, group: map<Ref, nat>, t: Token, pc: Call)
    requires FlightsInv(calls, flights, group) && t < |calls| && CallFlies(flights, group, t, pc)
    ensures FlightsInv(calls[t := pc], flights, group)
  {
  }

  /** Moves that neither win nor lose an entitlement. */
  ghost predicate SameClaims(pc: Call, pc': Call)
  {
    && (forall id :: Claims(pc, id) <==> Claims(pc', id))
    && (pc.Holding? <==> pc'.Holding?)
  }

  lemma LeasesMove(objects: seq<Root>, roots: map<Ref, nat>, origins: seq<Origin>, calls: seq<Call>, t: Token, pc: Call)
    requires LeasesInv(objects, roots, origins, calls) && t < |calls| && SameClaims(calls[t], pc)
    ensures LeasesInv(objects, roots, origins, calls[t := pc])
  {
    forall id | 0 <= id < |objects|
      ensures objects[id].leases == Claimants(calls[t := pc], id)
    {
      ClaimantsAfter(calls, t, pc, id);
    }
  }

  lemma UseMove(o: Options, objects: seq<Root>, origins: seq<Origin>, lastUse: seq<LastUse>, calls: seq<Call>,
                clock: int, t: Token, pc: Call, now: int)
    requires |objects| == |origins| == |lastUse| && UseInv(o, objects, origins, lastUse, calls, clock)
    requires t < |calls| && clock <= now && (SameClaims(calls[t], pc) || calls[t].Holding?)
    ensures UseInv(o, objects, origins, lastUse, calls[t := pc], now)
  {
  }

  lemma UseFrame(o: Options, objects: seq<Root>, objects': seq<Root>, origins: seq<Origin>, lastUse: seq<LastUse>,
                 calls: seq<Call>, clock: int)
    requires |objects| == |objects'| == |origins| == |lastUse| && UseInv(o, objects, origins, lastUse, calls, clock)
    requires forall i :: 0 <= i < |objects| ==> objects'[i].virtualLastUse == objects[i].virtualLastUse
    ensures UseInv(o, objects', origins, lastUse, calls, clock)
  {
  }

  lemma DiskMove(disk: map<string, Inode>, trash: set<string>, trashSeq: nat, roots: map<Ref, nat>,
                 origins: seq<Origin>, calls: seq<Call>, owners: map<string, Owner>, t: Token, pc: Call)
    requires DiskInv(disk, trash, trashSeq, roots, origins, calls, owners)
    requires t < |calls| && !calls[t].Fetched? && !pc.Fetched?
    ensures DiskInv(disk, trash, trashSeq, roots, origins, calls[t := pc], owners)
  {
    forall n | n in owners
      ensures Owns(owners[n], n, trash, trashSeq, roots, origins, calls[t := pc])
    {
      assert Owns(owners[n], n, trash, trashSeq, roots, origins, calls);
    }
  }

  // ---- The other changes, one part of the state at a time ----

  lemma FlightsLand(calls: seq<Call>, flights: seq<Flight>, group: map<Ref, nat>, t: Token, pc: Call, outcome: Outcome)
    requires FlightsInv(calls, flights, group) && t < |calls| && Leads(calls[t]) && !Leads(pc) && !pc.Joined?
    ensures FlightsInv(calls[t := pc], flights[calls[t].flight := flights[calls[t].flight].(outcome := outcome)],
                       group - {calls[t].ref})
  {
    var (f, ref, calls') := (calls[t].flight, calls[t].ref, calls[t := pc]);
    var (flights', group') := (flights[f := flights[f].(outcome := outcome)], group - {ref});
    forall u | 0 <= u < |calls'|
      ensures CallFlies(flights', group', u, calls'[u])
    {
      if u != t {
        assert CallFlies(flights, group, u, calls[u]);
      }
    }
  }

  lemma FlightsLead(calls: seq<Call>, flights: seq<Flight>, group: map<Ref, nat>, t: Token)
    requires FlightsInv(calls, flights, group) && t < |calls| && calls[t].Missed? && calls[t].ref !in group
    ensures FlightsInv(calls[t := Queued(calls[t].ref, |flights|)], flights + [Flight(calls[t].ref, t, Pending)],
                       group[calls[t].ref := |flights|])
  {
    var (calls', flights') :=
      (calls[t := Queued(calls[t].ref, |flights|)], flights + [Flight(calls[t].ref, t, Pending)]);
    forall u | 0 <= u < |calls'|
      ensures CallFlies(flights', group[calls[t].ref := |flights|], u, calls'[u])
    {
      if u != t {
        assert CallFlies(flights, group, u, calls[u]);
      }
    }
  }

  lemma RefsLand(roots: map<Ref, nat>, origins: seq<Origin>, calls: seq<Call>, flights: seq<Flight>, f: nat,
                 outcome: Outcome)
    requires RefsInv(roots, origins, calls, flights) && f < |flights|
    requires outcome.Got? ==> RefersTo(origins, flights[f].ref, outcome.id)
    ensures RefsInv(roots, origins, calls, flights[f := flights[f].(outcome := outcome)])
  {
  }

  lemma LeasesEvict(objects: seq<Root>, roots: map<Ref, nat>, origins: seq<Origin>, calls: seq<Call>, v: Ref)
    requires LeasesInv(objects, roots, origins, calls)
    requires v in roots && roots[v] < |objects| && objects[roots[v]].leases == {}
    ensures LeasesInv(objects, roots - {v}, origins, calls)
  {
  }

  /** A call that has only started owns nothing yet. */
  lemma LeasesBegin(objects: seq<Root>, roots: map<Ref, nat>, origins: seq<Origin>, calls: seq<Call>, ref: Ref)
    requires LeasesInv(objects, roots, origins, calls)
    ensures LeasesInv(objects, roots, origins, calls + [Started(ref)])
  {
    forall i | 0 <= i < |objects|
      ensures Claimants(calls + [Started(ref)], i) == Claimants(calls, i)
    {
    }
  }

  lemma DiskBegin(disk: map<string, Inode>, trash: set<string>, trashSeq: nat, roots: map<Ref, nat>,
                  origins: seq<Origin>, calls: seq<Call>, owners: map<string, Owner>, ref: Ref)
    requires DiskInv(disk, trash, trashSeq, roots, origins, calls, owners)
    ensures DiskInv(disk, trash, trashSeq, roots, origins, calls + [Started(ref)], owners)
  {
    forall n | n in owners
      ensures Owns(owners[n], n, trash, trashSeq, roots, origins, calls + [Started(ref)])
    {
      assert Owns(owners[n], n, trash, trashSeq, roots, origins, calls);
    }
  }

  lemma RefsInsert(roots: map<Ref, nat>, origins: seq<Origin>, calls: seq<Call>, flights: seq<Flight>, x: Origin)
    requires RefsInv(roots, origins, calls, flights)
    ensures RefsInv(roots[x.ref := |origins|], origins + [x], calls, flights)
  {
    forall t | 0 <= t < |calls|
      ensures CallRefers(origins + [x], calls[t])
    {
      assert CallRefers(origins, calls[t]);
    }
    forall f | 0 <= f < |flights|
      ensures FlightRefers(origins + [x], flights[f])
    {
      assert FlightRefers(origins, flights[f]);
    }
  }

  lemma LeasesInsert(objects: seq<Root>, roots: map<Ref, nat>, origins: seq<Origin>, calls: seq<Call>,
                     t: Token, flight: nat, x: Origin, root: Root)
    requires |objects| == |origins| && LeasesInv(objects, roots, origins, calls)
    requires t < |calls| && calls[t].Fetched? && root.leases == {t} && x.ref !in roots
    requires forall u :: 0 <= u < |calls| ==> CallRefers(origins, calls[u])
    ensures LeasesInv(objects + [root], roots[x.ref := |origins|], origins + [x],
                      calls[t := Landing(x.ref, flight, Inserted(|origins|))])
  {
    var (objects', id, pc) := (objects + [root], |origins|, Landing(x.ref, flight, Inserted(|origins|)));
    forall i | 0 <= i < |objects'|
      ensures objects'[i].leases == Claimants(calls[t := pc], i)
      ensures objects'[i].leases != {} ==> Cached(roots[x.ref := id], origins + [x], i)
    {
      ClaimantsAfter(calls, t, pc, i);
      if i == id {
        assert forall u :: 0 <= u < |calls| ==> CallRefers(origins, calls[u]) && !Claims(calls[u], id);
      } else {
        assert objects'[i] == objects[i];
      }
    }
  }

  lemma UseInsert(o: Options, objects: seq<Root>, origins: seq<Origin>, lastUse: seq<LastUse>, calls: seq<Call>,
                  clock: int, t: Token, flight: nat, x: Origin, root: Root)
    requires |objects| == |origins| == |lastUse| && UseInv(o, objects, origins, lastUse, calls, clock)
    requires t < |calls| && x.leader == t && root.virtualLastUse <= clock + o.maxUseBoost
    requires calls[t].Fetched?
    ensures UseInv(o, objects + [root], origins + [x], lastUse + [Never],
                   calls[t := Landing(x.ref, flight, Inserted(|origins|))], clock)
  {
  }

  lemma FreshTrashName(disk: map<string, Inode>, trash: set<string>, trashSeq: nat, roots: map<Ref, nat>,
                       origins: seq<Origin>, calls: seq<Call>, owners: map<string, Owner>, path: string)
    requires DiskInv(disk, trash, trashSeq, roots, origins, calls, owners)
    ensures TrashName(trashSeq + 1, path) !in disk
  {
    var name := TrashName(trashSeq + 1, path);
    if name in owners {
      assert Owns(owners[name], name, trash, trashSeq, roots, origins, calls);
      TrashNameInjective(trashSeq + 1, path, owners[name].number, owners[name].from);
    }
  }

  lemma DiskEvict(disk: map<string, Inode>, trash: set<string>, trashSeq: nat, roots: map<Ref, nat>,
                  origins: seq<Origin>, calls: seq<Call>, owners: map<string, Owner>, v: Ref)
    requires DiskInv(disk, trash, trashSeq, roots, origins, calls, owners)
    requires v in roots && RefersTo(origins, v, roots[v])
    ensures var path := origins[roots[v]].path;
            var name := TrashName(trashSeq + 1, path);
            && path in disk
            && DiskInv((disk - {path})[name := disk[path]], trash + {name}, trashSeq + 1, roots - {v}, origins, calls,
                       (owners - {path})[name := Trash(trashSeq + 1, path)])
  {
    var (id, path) := (roots[v], origins[roots[v]].path);
    var name := TrashName(trashSeq + 1, path);
    assert Cached(roots, origins, id);
    FreshTrashName(disk, trash, trashSeq, roots, origins, calls, owners, path);
    var (trash', roots', owners') :=
      (trash + {name}, roots - {v}, (owners - {path})[name := Trash(trashSeq + 1, path)]);
    forall n | n in owners'
      ensures Owns(owners'[n], n, trash', trashSeq + 1, roots', origins, calls)
    {
      if n != name {
        assert Owns(owners[n], n, trash, trashSeq, roots, origins, calls);
      }
    }
  }

  lemma DiskDiscard(disk: map<string, Inode>, trash: set<string>, trashSeq: nat, roots: map<Ref, nat>,
                    origins: seq<Origin>, calls: seq<Call>, owners: map<string, Owner>, t: Token, pc: Call)
    requires DiskInv(disk, trash, trashSeq, roots, origins, calls, owners)
    requires t < |calls| && calls[t].Fetched? && !pc.Fetched?
    ensures var path := calls[t].path;
            var name := TrashName(trashSeq + 1, path);
            && path in disk
            && DiskInv((disk - {path})[name := disk[path]], trash + {name}, trashSeq + 1, roots, origins,
                       calls[t := pc],
                       (owners - {path})[name := Trash(trashSeq + 1, path)])
  {
    var (path, calls') := (calls[t].path, calls[t := pc]);
    var name := TrashName(trashSeq + 1, path);
    FreshTrashName(disk, trash, trashSeq, roots, origins, calls, owners, path);
    var (trash', owners') := (trash + {name}, (owners - {path})[name := Trash(trashSeq + 1, path)]);
    forall n | n in owners'
      ensures Owns(owners'[n], n, trash', trashSeq + 1, roots, origins, calls')
    {
      if n != name {
        assert Owns(owners[n], n, trash, trashSeq, roots, origins, calls);
      }
    }
  }

  lemma DiskInsert(disk: map<string, Inode>, trash: set<string>, trashSeq: nat, roots: map<Ref, nat>,
                   origins: seq<Origin>, calls: seq<Call>, owners: map<string, Owner>, t: Token, pc: Call, x: Origin)
    requires DiskInv(disk, trash, trashSeq, roots, origins, calls, owners)
    requires forall r :: r in roots ==> roots[r] < |origins|
    requires t < |calls| && calls[t].Fetched? && !pc.Fetched? && x.ref !in roots
    requires x.path == calls[t].path && x.path in disk && x.inode == disk[x.path]
    ensures DiskInv(disk, trash, trashSeq, roots[x.ref := |origins|], origins + [x], calls[t := pc],
                    owners[x.path := CachedRoot(|origins|)])
  {
    var (calls', owners') := (calls[t := pc], owners[x.path := CachedRoot(|origins|)]);
    var (roots', origins') := (roots[x.ref := |origins|], origins + [x]);
    forall n | n in owners'
      ensures Owns(owners'[n], n, trash, trashSeq, roots', origins', calls')
    {
      assert Owns(owners[n], n, trash, trashSeq, roots, origins, calls);
    }
    forall id | 0 <= id < |origins'| && Cached(roots', origins', id)
      ensures origins'[id].path in owners' && owners'[origins'[id].path] == CachedRoot(id)
      ensures disk[origins'[id].path] == origins'[id].inode
    {
      if id < |origins| {
        assert Cached(roots, origins, id);
      }
    }
  }

  lemma DiskMaterialize(disk: map<string, Inode>, trash: set<string>, trashSeq: nat, roots: map<Ref, nat>,
                        origins: seq<Origin>, calls: seq<Call>, owners: map<string, Owner>, t: Token, pc: Call,
                        inode: Inode)
    requires DiskInv(disk, trash, trashSeq, roots, origins, calls, owners)
    requires t < |calls| && !calls[t].Fetched? && pc.Fetched? && pc.path !in disk && !(TRASH_PREFIX <= pc.path)
    ensures DiskInv(disk[pc.path := inode], trash, trashSeq, roots, origins, calls[t := pc],
                    owners[pc.path := RunningFetch(t)])
  {
    var (calls', owners') := (calls[t := pc], owners[pc.path := RunningFetch(t)]);
    forall n | n in owners'
      ensures Owns(owners'[n], n, trash, trashSeq, roots, origins, calls')
    {
      if n != pc.path {
        assert Owns(owners[n], n, trash, trashSeq, roots, origins, calls);
      }
    }
  }

  lemma SlotsAfter(calls: seq<Call>, t: Token, pc: Call)
    requires t < |calls|
    ensures !InFetch(pc) ==> |SlotHolders(calls[t := pc])| <= |SlotHolders(calls)|
    ensures InFetch(pc) ==> |SlotHolders(calls[t := pc])| == |SlotHolders(calls)| + if InFetch(calls[t]) then 0 else 1
  {
    var (before, after) := (SlotHolders(calls), SlotHolders(calls[t := pc]));
    if InFetch(pc) && InFetch(calls[t]) {
      assert after == before;
    } else if InFetch(pc) {
      assert t !in before && after == before + {t};
    } else {
      assert after == before - {t};
    }
  }

  // ---- Every step keeps the invariant ----

  ghost predicate CanLease(s: Sys, t: Token, id: nat)
  {
    && t < |s.calls| && (s.calls[t].Started? || (s.calls[t].Attaching? && s.calls[t].id == id))
    && s.calls[t].ref in s.cache.roots && s.cache.roots[s.calls[t].ref] == id
  }

  lemma LeaseLeases(o: Options, s: Sys, t: Token, id: nat, now: int)
    requires Shape(s) && Refs(s) && Leases(s) && CanLease(s, t, id)
    ensures Leases(TakeLease(o, s, t, id, now))
  {
    var s' := TakeLease(o, s, t, id, now);
    forall i | 0 <= i < |s'.cache.objects|
      ensures s'.cache.objects[i].leases == Claimants(s'.calls, i)
    {
      ClaimantsAfter(s.calls, t, Holding(s.calls[t].ref, id), i);
    }
  }

  lemma LeaseUse(o: Options, s: Sys, t: Token, id: nat, now: int)
    requires Shape(s) && Use(o, s) && CanLease(s, t, id) && s.clock <= now && 0 < o.useBoost <= o.maxUseBoost
    ensures var s' := TakeLease(o, s, t, id, now); Shape(s') && Use(o, s')
  {
  }

  lemma LeaseKeeps(o: Options, s: Sys, t: Token, id: nat, now: int)
    requires Inv(o, s) && CanLease(s, t, id) && s.clock <= now && 0 < o.useBoost <= o.maxUseBoost
    ensures Inv(o, TakeLease(o, s, t, id, now))
  {
    var pc := Holding(s.calls[t].ref, id);
    LeaseLeases(o, s, t, id, now);
    LeaseUse(o, s, t, id, now);
    RefsMove(s.cache.roots, s.origins, s.calls, s.flights, t, pc);
    FlightsMove(s.calls, s.flights, s.group, t, pc);
    DiskMove(s.cache.disk, s.cache.trash, s.cache.trashSeq, s.cache.roots, s.origins, s.calls, s.owners, t, pc);
    SlotsAfter(s.calls, t, pc);
  }

  /** A call moves on without touching the cache. */
  lemma GotoKeeps(o: Options, s: Sys, t: Token, pc: Call)
    requires Inv(o, s) && t < |s.calls|
    requires CallRefers(s.origins, pc) && CallFlies(s.flights, s.group, t, pc) && SameClaims(s.calls[t], pc)
    requires !s.calls[t].Fetched? && !pc.Fetched?
    requires InFetch(pc) ==> InFetch(s.calls[t]) || |SlotHolders(s.calls)| < o.maxConcurrentFetches
    ensures Inv(o, Goto(s, t, pc))
  {
    RefsMove(s.cache.roots, s.origins, s.calls, s.flights, t, pc);
    FlightsMove(s.calls, s.flights, s.group, t, pc);
    LeasesMove(s.cache.objects, s.cache.roots, s.origins, s.calls, t, pc);
    UseMove(o, s.cache.objects, s.origins, s.lastUse, s.calls, s.clock, t, pc, s.clock);
    DiskMove(s.cache.disk, s.cache.trash, s.cache.trashSeq, s.cache.roots, s.origins, s.calls, s.owners, t, pc);
    SlotsAfter(s.calls, t, pc);
  }

  lemma LeadKeeps(o: Options, pinned: set<Ref>, s: Sys, t: Token)
    requires Inv(o, s) && Enabled(o, pinned, s, Lead(t))
    ensures Inv(o, Step(o, pinned, s, Lead(t)))
  {
    var (ref, f) := (s.calls[t].ref, |s.flights|);
    FlightsLead(s.calls, s.flights, s.group, t);
    LeasesMove(s.cache.objects, s.cache.roots, s.origins, s.calls, t, Queued(ref, f));
    UseMove(o, s.cache.objects, s.origins, s.lastUse, s.calls, s.clock, t, Queued(ref, f), s.clock);
    DiskMove(s.cache.disk, s.cache.trash, s.cache.trashSeq, s.cache.roots, s.origins, s.calls, s.owners, t,
      Queued(ref, f));
    SlotsAfter(s.calls, t, Queued(ref, f));
  }

  lemma LandKeeps(o: Options, pinned: set<Ref>, s: Sys, t: Token)
    requires Inv(o, s) && Enabled(o, pinned, s, Land(t))
    ensures Inv(o, Step(o, pinned, s, Land(t)))
  {
    var Landing(ref, f, result) := s.calls[t];
    var pc := if result.Refused? then Failed(ref) else Attaching(ref, result.id, result.Inserted?);
    assert CallRefers(s.origins, s.calls[t]) && CallFlies(s.flights, s.group, t, s.calls[t]);
    RefsMove(s.cache.roots, s.origins, s.calls, s.flights, t, pc);
    var outcome := if result.Refused? then Error else Got(result.id);
    RefsLand(s.cache.roots, s.origins, s.calls[t := pc], s.flights, f, outcome);
    FlightsLand(s.calls, s.flights, s.group, t, pc, outcome);
    LeasesMove(s.cache.objects, s.cache.roots, s.origins, s.calls, t, pc);
    UseMove(o, s.cache.objects, s.origins, s.lastUse, s.calls, s.clock, t, pc, s.clock);
    DiskMove(s.cache.disk, s.cache.trash, s.cache.trashSeq, s.cache.roots, s.origins, s.calls, s.owners, t, pc);
    SlotsAfter(s.calls, t, pc);
  }

  lemma MaterializeKeeps(o: Options, pinned: set<Ref>, s: Sys, t: Token, path: string)
    requires Inv(o, s) && Enabled(o, pinned, s, MaterializeOk(t, path))
    ensures Inv(o, Step(o, pinned, s, MaterializeOk(t, path)))
  {
    var pc := Fetched(s.calls[t].ref, s.calls[t].flight, path);
    assert CallFlies(s.flights, s.group, t, s.calls[t]);
    RefsMove(s.cache.roots, s.origins, s.calls, s.flights, t, pc);
    FlightsMove(s.calls, s.flights, s.group, t, pc);
    LeasesMove(s.cache.objects, s.cache.roots, s.origins, s.calls, t, pc);
    UseMove(o, s.cache.objects, s.origins, s.lastUse, s.calls, s.clock, t, pc, s.clock);
    DiskMaterialize(s.cache.disk, s.cache.trash, s.cache.trashSeq, s.cache.roots, s.origins, s.calls, s.owners, t, pc,
      s.nextInode);
    SlotsAfter(s.calls, t, pc);
  }

  lemma ReleaseLeases(c: Cache, origins: seq<Origin>, calls: seq<Call>, t: Token, now: int)
    requires |c.objects| == |origins| && LeasesInv(c.objects, c.roots, origins, calls)
    requires t < |calls| && (calls[t].Holding? || calls[t].Released?) && calls[t].id < |c.objects|
    ensures LeasesInv(Release(c, calls[t].id, t, now).objects, c.roots, origins,
            calls[t := Released(calls[t].ref, calls[t].id)])
  {
    forall i | 0 <= i < |c.objects| {
      ClaimantsAfter(calls, t, Released(calls[t].ref, calls[t].id), i);
    }
  }

  lemma ReleaseKeeps(o: Options, pinned: set<Ref>, s: Sys, t: Token, now: int)
    requires Inv(o, s) && Enabled(o, pinned, s, DoRelease(t, now))
    ensures Inv(o, Step(o, pinned, s, DoRelease(t, now)))
  {
    var pc := Released(s.calls[t].ref, s.calls[t].id);
    assert CallRefers(s.origins, s.calls[t]);
    RefsMove(s.cache.roots, s.origins, s.calls, s.flights, t, pc);
    FlightsMove(s.calls, s.flights, s.group, t, pc);
    ReleaseLeases(s.cache, s.origins, s.calls, t, now);
    UseMove(o, s.cache.objects, s.origins, s.lastUse, s.calls, s.clock, t, pc, now);
    UseFrame(o, s.cache.objects, Release(s.cache, pc.id, t, now).objects, s.origins, s.lastUse, s.calls[t := pc], now);
    DiskMove(s.cache.disk, s.cache.trash, s.cache.trashSeq, s.cache.roots, s.origins, s.calls, s.owners, t, pc);
    SlotsAfter(s.calls, t, pc);
  }

  lemma DiskDelete(disk: map<string, Inode>, trash: set<string>, trashSeq: nat, roots: map<Ref, nat>,
                   origins: seq<Origin>, calls: seq<Call>, owners: map<string, Owner>, name: string)
    requires DiskInv(disk, trash, trashSeq, roots, origins, calls, owners) && name in trash
    ensures DiskInv(disk - {name}, trash - {name}, trashSeq, roots, origins, calls, owners - {name})
  {
    forall n | n in owners - {name}
      ensures Owns(owners[n], n, trash - {name}, trashSeq, roots, origins, calls)
    {
      assert Owns(owners[n], n, trash, trashSeq, roots, origins, calls);
    }
  }

  lemma DeleteKeeps(o: Options, pinned: set<Ref>, s: Sys, name: string)
    requires Inv(o, s) && Enabled(o, pinned, s, Delete(name))
    ensures Inv(o, Step(o, pinned, s, Delete(name)))
  {
    DiskDelete(s.cache.disk, s.cache.trash, s.cache.trashSeq, s.cache.roots, s.origins, s.calls, s.owners, name);
  }

  lemma RefsBegin(roots: map<Ref, nat>, origins: seq<Origin>, calls: seq<Call>, flights: seq<Flight>, ref: Ref)
    requires RefsInv(roots, origins, calls, flights)
    ensures RefsInv(roots, origins, calls + [Started(ref)], flights)
  {
  }

  lemma FlightsBegin(calls: seq<Call>, flights: seq<Flight>, group: map<Ref, nat>, ref: Ref)
    requires FlightsInv(calls, flights, group)
    ensures FlightsInv(calls + [Started(ref)], flights, group)
  {
  }

  lemma UseBegin(o: Options, objects: seq<Root>, origins: seq<Origin>, lastUse: seq<LastUse>, calls: seq<Call>,
                 clock: int, ref: Ref)
    requires |objects| == |origins| == |lastUse| && UseInv(o, objects, origins, lastUse, calls, clock)
    ensures UseInv(o, objects, origins, lastUse, calls + [Started(ref)], clock)
  {
  }

  lemma SlotsBegin(calls: seq<Call>, ref: Ref)
    ensures SlotHolders(calls + [Started(ref)]) == SlotHolders(calls)
  {
  }

  lemma BeginKeeps(o: Options, pinned: set<Ref>, s: Sys, ref: Ref)
    requires Inv(o, s)
    ensures Inv(o, Step(o, pinned, s, Begin(ref)))
  {
    RefsBegin(s.cache.roots, s.origins, s.calls, s.flights, ref);
    FlightsBegin(s.calls, s.flights, s.group, ref);
    UseBegin(o, s.cache.objects, s.origins, s.lastUse, s.calls, s.clock, ref);
    SlotsBegin(s.calls, ref);
    LeasesBegin(s.cache.objects, s.cache.roots, s.origins, s.calls, ref);
    DiskBegin(s.cache.disk, s.cache.trash, s.cache.trashSeq, s.cache.roots, s.origins, s.calls, s.owners, ref);
  }

  lemma InsertKeeps(o: Options, s: Sys, t: Token, now: int)
    requires Inv(o, s) && s.clock <= now && 0 < o.useBoost <= o.maxUseBoost
    requires t < |s.calls| && s.calls[t].Fetched? && s.calls[t].path in s.cache.disk
    requires s.calls[t].ref !in s.cache.roots && |s.cache.roots| < o.maxRoots
    ensures Inv(o, InsertStep(s, t, now))
  {
    var s' := InsertStep(s, t, now);
    var (c, x, pc, root) := (s.cache, s'.origins[|s.origins|], s'.calls[t], s'.cache.objects[|s.cache.objects|]);
    assert CallFlies(s.flights, s.group, t, s.calls[t]);
    RefsInsert(c.roots, s.origins, s.calls, s.flights, x);
    RefsMove(s'.cache.roots, s'.origins, s.calls, s.flights, t, pc);
    FlightsMove(s.calls, s.flights, s.group, t, pc);
    LeasesInsert(c.objects, c.roots, s.origins, s.calls, t, pc.flight, x, root);
    assert UseInv(o, c.objects, s.origins, s.lastUse, s.calls, now);
    UseInsert(o, c.objects, s.origins, s.lastUse, s.calls, now, t, pc.flight, x, root);
    DiskInsert(c.disk, c.trash, c.trashSeq, c.roots, s.origins, s.calls, s.owners, t, pc, x);
    SlotsAfter(s.calls, t, pc);
  }

  lemma EvictDisk(s: Sys, v: Ref)
    requires Shape(s) && Disk(s) && v in s.cache.roots && RefersTo(s.origins, v, s.cache.roots[v])
    ensures Disk(EvictStep(s, v))
  {
    var (c, path) := (s.cache, s.origins[s.cache.roots[v]].path);
    assert c.objects[c.roots[v]].path == path;
    DiskEvict(c.disk, c.trash, c.trashSeq, c.roots, s.origins, s.calls, s.owners, v);
  }

  lemma EvictCount(c: Cache, v: Ref)
    requires v in c.roots && c.roots[v] < |c.objects|
    ensures |Evict(c, v).roots| == |c.roots| - 1
  {
    assert c.roots.Keys == (c.roots - {v}).Keys + {v};
  }

  lemma DiscardDisk(s: Sys, t: Token, now: int, result: Fetch)
    requires Shape(s) && Disk(s) && t < |s.calls| && s.calls[t].Fetched?
    ensures Disk(DiscardStep(s, t, now, result))
  {
    var (c, pc) := (s.cache, Landing(s.calls[t].ref, s.calls[t].flight, result));
    DiskDiscard(c.disk, c.trash, c.trashSeq, c.roots, s.origins, s.calls, s.owners, t, pc);
  }

  lemma EvictKeeps(o: Options, pinned: set<Ref>, s: Sys, v: Ref)
    requires Inv(o, s) && Evictable(s.cache, pinned, v)
    ensures Inv(o, EvictStep(s, v))
    ensures |EvictStep(s, v).cache.roots| == |s.cache.roots| - 1
  {
    EvictDisk(s, v);
    EvictCount(s.cache, v);
    LeasesEvict(s.cache.objects, s.cache.roots, s.origins, s.calls, v);
  }

  lemma DiscardKeeps(o: Options, s: Sys, t: Token, now: int, result: Fetch)
    requires Inv(o, s) && s.clock <= now
    requires t < |s.calls| && s.calls[t].Fetched?
    requires result.Refused? || (result.Existing? && RefersTo(s.origins, s.calls[t].ref, result.id))
    ensures Inv(o, DiscardStep(s, t, now, result))
  {
    var (c, pc) := (s.cache, Landing(s.calls[t].ref, s.calls[t].flight, result));
    assert CallFlies(s.flights, s.group, t, s.calls[t]);
    RefsMove(c.roots, s.origins, s.calls, s.flights, t, pc);
    FlightsMove(s.calls, s.flights, s.group, t, pc);
    LeasesMove(c.objects, c.roots, s.origins, s.calls, t, pc);
    UseMove(o, c.objects, s.origins, s.lastUse, s.calls, s.clock, t, pc, now);
    DiscardDisk(s, t, now, result);
    SlotsAfter(s.calls, t, pc);
  }

  lemma ReadyIsEnabled(o: Options, pinned: set<Ref>, s: Sys, l: Label)
    requires Inv(o, s) && Ready(o, pinned, s, l)
    ensures Enabled(o, pinned, s, l)
  {
    match l
    case Finish(t, _, scan) =>
      if scan.Victim? {
        assert Cached(s.cache.roots, s.origins, s.cache.roots[scan.ref]);
      }
    case Land(t) => assert CallFlies(s.flights, s.group, t, s.calls[t]);
    case Attach(t, _) => assert CallRefers(s.origins, s.calls[t]);
    case DoRelease(t, _) => assert CallRefers(s.origins, s.calls[t]);
    case _ =>
  }

  /** A fetched directory is not the directory of any cached root. */
  lemma FetchedIsNotCached(s: Sys, t: Token, r: Ref)
    requires Shape(s) && Refs(s) && Disk(s)
    requires t < |s.calls| && s.calls[t].Fetched? && r in s.cache.roots
    ensures s.calls[t].path in s.cache.disk && s.cache.objects[s.cache.roots[r]].path != s.calls[t].path
  {
    assert Cached(s.cache.roots, s.origins, s.cache.roots[r]);
  }

  lemma EvictInsertKeeps(o: Options, pinned: set<Ref>, s: Sys, t: Token, now: int, v: Ref)
    requires ValidOptions(o, pinned) && Inv(o, s) && s.clock <= now && Evictable(s.cache, pinned, v)
    requires t < |s.calls| && s.calls[t].Fetched? && s.calls[t].ref !in s.cache.roots
    ensures s.calls[t].path in EvictStep(s, v).cache.disk
    ensures Inv(o, InsertStep(EvictStep(s, v), t, now))
  {
    FetchedIsNotCached(s, t, v);
    EvictKeeps(o, pinned, s, v);
    InsertKeeps(o, EvictStep(s, v), t, now);
  }

  lemma FinishKeeps(o: Options, pinned: set<Ref>, s: Sys, t: Token, now: int, scan: Scan)
    requires ValidOptions(o, pinned) && Inv(o, s) && Enabled(o, pinned, s, Finish(t, now, scan))
    ensures Inv(o, FinishStep(o, s, t, now, scan))
  {
    var ref := s.calls[t].ref;
    if ref in s.cache.roots {
      FetchedIsNotCached(s, t, ref);
      DiscardKeeps(o, s, t, now, Existing(s.cache.roots[ref]));
    } else if |s.cache.roots| < o.maxRoots {
      InsertKeeps(o, s, t, now);
    } else if scan.Victim? {
      EvictInsertKeeps(o, pinned, s, t, now, scan.ref);
    } else {
      DiscardKeeps(o, s, t, now, Refused);
    }
  }

  lemma InitInv(o: Options, pinned: set<Ref>)
    requires ValidOptions(o, pinned)
    ensures Inv(o, Init())
  {
  }

  /** A call whose own fetch inserted the root always finds it when attaching. */
  lemma OwnerAttaches(o: Options, s: Sys, t: Token)
    requires Inv(o, s) && t < |s.calls| && s.calls[t].Attaching? && s.calls[t].own
    ensures s.calls[t].ref in s.cache.roots && s.cache.roots[s.calls[t].ref] == s.calls[t].id
  {
    assert CallRefers(s.origins, s.calls[t]);
    assert t in Claimants(s.calls, s.calls[t].id);
  }

  lemma DeliverKeeps(o: Options, pinned: set<Ref>, s: Sys, t: Token)
    requires Inv(o, s) && Enabled(o, pinned, s, Deliver(t))
    ensures Inv(o, Step(o, pinned, s, Deliver(t)))
  {
    var Joined(ref, f) := s.calls[t];
    assert CallFlies(s.flights, s.group, t, s.calls[t]) && FlightRefers(s.origins, s.flights[f]);
    var outcome := s.flights[f].outcome;
    GotoKeeps(o, s, t, if outcome.Error? then Failed(ref) else Attaching(ref, outcome.id, false));
  }

  lemma LookupKeeps(o: Options, pinned: set<Ref>, s: Sys, t: Token, now: int)
    requires ValidOptions(o, pinned) && Inv(o, s) && Enabled(o, pinned, s, Lookup(t, now))
    ensures Inv(o, Step(o, pinned, s, Lookup(t, now)))
  {
    var ref := s.calls[t].ref;
    if ref in s.cache.roots {
      LeaseKeeps(o, s, t, s.cache.roots[ref], now);
    } else {
      GotoKeeps(o, s, t, Missed(ref));
    }
  }

  lemma AttachKeeps(o: Options, pinned: set<Ref>, s: Sys, t: Token, now: int)
    requires ValidOptions(o, pinned) && Inv(o, s) && Enabled(o, pinned, s, Attach(t, now))
    ensures Inv(o, Step(o, pinned, s, Attach(t, now)))
  {
    var Attaching(ref, id, own) := s.calls[t];
    if own {
      OwnerAttaches(o, s, t);
    }
    if ref in s.cache.roots && s.cache.roots[ref] == id {
      LeaseKeeps(o, s, t, id, now);
    } else {
      GotoKeeps(o, s, t, Failed(ref));
    }
  }

  /** The steps that take a call from one place to the next and do nothing else. */
  lemma MoveKeeps(o: Options, pinned: set<Ref>, s: Sys, l: Label)
    requires Inv(o, s) && Enabled(o, pinned, s, l) && (l.Join? || l.TakeSlot? || l.MaterializeErr?)
    ensures Inv(o, Step(o, pinned, s, l))
  {
    var pc := s.calls[l.call];
    assert CallFlies(s.flights, s.group, l.call, pc);
    GotoKeeps(o, s, l.call, if l.Join? then Joined(pc.ref, s.group[pc.ref])
                            else if l.TakeSlot? then Fetching(pc.ref, pc.flight)
                            else Landing(pc.ref, pc.flight, Refused));
  }

  /** Every step from a good state leads to a good state. */
  lemma StepKeeps(o: Options, pinned: set<Ref>, s: Sys, l: Label)
    requires ValidOptions(o, pinned) && Inv(o, s) && Enabled(o, pinned, s, l)
    ensures Inv(o, Step(o, pinned, s, l))
  {
    match l
    case Begin(ref) => BeginKeeps(o, pinned, s, ref);
    case Lookup(t, now) => LookupKeeps(o, pinned, s, t, now);
    case Join(t) => MoveKeeps(o, pinned, s, l);
    case Lead(t) => LeadKeeps(o, pinned, s, t);
    case TakeSlot(t) => MoveKeeps(o, pinned, s, l);
    case MaterializeOk(t, path) => MaterializeKeeps(o, pinned, s, t, path);
    case MaterializeErr(t) => MoveKeeps(o, pinned, s, l);
    case Finish(t, now, scan) => FinishKeeps(o, pinned, s, t, now, scan);
    case Land(t) => LandKeeps(o, pinned, s, t);
    case Deliver(t) => DeliverKeeps(o, pinned, s, t);
    case Attach(t, now) => AttachKeeps(o, pinned, s, t, now);
    case DoRelease(t, now) => ReleaseKeeps(o, pinned, s, t, now);
    case Delete(name) => DeleteKeeps(o, pinned, s, name);
  }
}
