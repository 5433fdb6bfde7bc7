/** The mutex-protected state of the root fetcher (pkg/fetcher/server.go) as a
    value, and the effect of each critical section on it.

    A materialized root is named by the position of its object in the creation
    history, so two objects for one image reference stay distinct, just as two
    Go pointers do. Directory names are base names inside the roots directory. */
module RootCache {
  import opened Text

  type Ref = string
  type Token = nat
  type Inode = nat

  datatype Options = Options(
    maxRoots: int,
    maxConcurrentFetches: int,
    prefetchImages: seq<Ref>,
    useBoost: int,
    maxUseBoost: int)

  /** What NewServer establishes about the options it keeps. */
  ghost predicate ValidOptions(o: Options, pinned: set<Ref>)
  {
    && o.maxRoots >= 1
    && o.maxConcurrentFetches >= 1
    && 0 < o.useBoost <= o.maxUseBoost
    && 2 * |pinned| < o.maxRoots
  }

  datatype Root = Root(
    path: string,
    leases: set<Token>,
    virtualLastUse: int,
    idleSince: int)

  /** roots, trashSeq and the roots gauge are the server's; disk maps the names
      in the roots directory to the directories they denote, and trash holds the
      names handed to a background deletion that has not run yet. */
  datatype Cache = Cache(
    roots: map<Ref, nat>,
    objects: seq<Root>,
    trashSeq: nat,
    gauge: int,
    disk: map<string, Inode>,
    trash: set<string>)

  const TRASH_PREFIX: string := "trash-"

  function TrashName(k: nat, name: string): (t: string)
    ensures TRASH_PREFIX <= t
  {
    TRASH_PREFIX + (Decimal(k) + ['-'] + name)
  }

  /** The sequence number can be read back from a trash name, so names made with
      different numbers differ whatever they were made from. */
  lemma TrashNameInjective(k: nat, a: string, k': nat, a': string)
    requires TrashName(k, a) == TrashName(k', a')
    ensures k == k' && a == a'
  {
    DigitsLack(Decimal(k), '-');
    DigitsLack(Decimal(k'), '-');
    SameTail(TRASH_PREFIX, Decimal(k) + ['-'] + a, Decimal(k') + ['-'] + a');
    SplitUnique(Decimal(k), a, '-', Decimal(k'), a');
  }

  lemma SameTail(prefix: string, s: string, s': string)
    requires prefix + s == prefix + s'
    ensures s == s'
  {
    assert (prefix + s)[|prefix|..] == s && (prefix + s')[|prefix|..] == s';
  }

  // ---- Critical sections ----

  /** touchLocked: decayed credit restarts at now, every use adds useBoost, and
      the sum is capped at now + maxUseBoost. */
  function Touch(o: Options, last: int, now: int): int
  {
    var base := if last < now then now else last;
    var ceiling := now + o.maxUseBoost;
    if base + o.useBoost > ceiling then ceiling else base + o.useBoost
  }

  function Lease(o: Options, c: Cache, id: nat, token: Token, now: int): Cache
    requires id < |c.objects|
  {
    var root := c.objects[id];
    c.(objects := c.objects[id := root.(leases := root.leases + {token},
                                        virtualLastUse := Touch(o, root.virtualLastUse, now))])
  }

  function Release(c: Cache, id: nat, token: Token, now: int): Cache
    requires id < |c.objects|
  {
    var root := c.objects[id];
    if token !in root.leases then c else
      var left := root.leases - {token};
      c.(objects := c.objects[id := root.(leases := left,
                                          idleSince := if left == {} then now else root.idleSince)])
  }

  /** discardLocked, with the rename failing exactly when the source is gone. */
  function Discard(c: Cache, path: string): Cache
  {
    var k := c.trashSeq + 1;
    if path in c.disk then
      var target := TrashName(k, path);
      c.(trashSeq := k, disk := (c.disk - {path})[target := c.disk[path]], trash := c.trash + {target})
    else
      c.(trashSeq := k, trash := c.trash + {path})
  }

  /** One run of the deleting goroutine. */
  function Reap(c: Cache, name: string): Cache
  {
    c.(disk := c.disk - {name}, trash := c.trash - {name})
  }

  ghost predicate ValidIds(c: Cache)
  {
    forall r :: r in c.roots ==> c.roots[r] < |c.objects|
  }

  predicate Evictable(c: Cache, pinned: set<Ref>, r: Ref)
    requires r in c.roots ==> c.roots[r] < |c.objects|
  {
    r in c.roots && c.objects[c.roots[r]].leases == {} && r !in pinned
  }

  /** a goes before b: smaller virtual last use, ties by smaller reference. */
  predicate Before(c: Cache, a: Ref, b: Ref)
    requires a in c.roots && c.roots[a] < |c.objects|
    requires b in c.roots && c.roots[b] < |c.objects|
  {
    var (ua, ub) := (c.objects[c.roots[a]].virtualLastUse, c.objects[c.roots[b]].virtualLastUse);
    ua < ub || (ua == ub && Less(a, b))
  }

  ghost predicate IsVictim(c: Cache, pinned: set<Ref>, v: Ref)
    requires ValidIds(c)
  {
    && Evictable(c, pinned, v)
    && forall r :: r in c.roots && Evictable(c, pinned, r) && r != v ==> Before(c, v, r)
  }

  lemma BeforeTransitive(c: Cache, a: Ref, b: Ref, d: Ref)
    requires ValidIds(c) && a in c.roots && b in c.roots && d in c.roots
    requires Before(c, a, b) && (b == d || Before(c, b, d))
    ensures Before(c, a, d)
  {
    if Less(a, b) && Less(b, d) {
      LessTransitive(a, b, d);
    }
  }

  /** Whatever order the map is walked in, there is only one possible victim. */
  lemma VictimUnique(c: Cache, pinned: set<Ref>, v: Ref, w: Ref)
    requires ValidIds(c) && IsVictim(c, pinned, v) && IsVictim(c, pinned, w)
    ensures v == w
  {
    LessTrichotomy(v, w);
  }

  function Evict(c: Cache, v: Ref): Cache
    requires v in c.roots && c.roots[v] < |c.objects|
  {
    Discard(c.(roots := c.roots - {v}, gauge := c.gauge - 1), c.objects[c.roots[v]].path)
  }

  function Insert(c: Cache, ref: Ref, path: string, token: Token, now: int): Cache
  {
    c.(roots := c.roots[ref := |c.objects|],
       objects := c.objects + [Root(path, {token}, now, now)],
       gauge := c.gauge + 1)
  }

  datatype Fetch = Existing(id: nat) | Inserted(id: nat) | Refused

  datatype Scan = Nothing | Victim(ref: Ref)

  /** What a scan for an eviction candidate may report. */
  ghost predicate ScanResult(c: Cache, pinned: set<Ref>, scan: Scan)
    requires ValidIds(c)
  {
    match scan
    case Nothing => forall r :: r in c.roots ==> !Evictable(c, pinned, r)
    case Victim(v) => IsVictim(c, pinned, v)
  }

  /** The locked tail of fetchRefSingle; `scan` matters only when the cache is
      full and does not hold ref. */
  function FinishFetch(o: Options, c: Cache, ref: Ref, path: string, token: Token, now: int, scan: Scan): (Fetch, Cache)
    requires ref in c.roots ==> c.roots[ref] < |c.objects|
    requires scan.Victim? ==> scan.ref in c.roots && c.roots[scan.ref] < |c.objects|
  {
    if ref in c.roots then
      (Existing(c.roots[ref]), if c.objects[c.roots[ref]].path != path then Discard(c, path) else c)
    else if |c.roots| < o.maxRoots then
      (Inserted(|c.objects|), Insert(c, ref, path, token, now))
    else if scan.Victim? then
      (Inserted(|c.objects|), Insert(Evict(c, scan.ref), ref, path, token, now))
    else
      (Refused, Discard(c, path))
  }

  // ---- Use credit ----

  /** One acquire at time `now`: the virtual clock lands in
      [now + useBoost, now + maxUseBoost] and, unless it was already past the
      ceiling, never moves back. */
  lemma TouchBounds(o: Options, last: int, now: int)
    requires 0 < o.useBoost <= o.maxUseBoost
    ensures now + o.useBoost <= Touch(o, last, now) <= now + o.maxUseBoost
    ensures last <= Touch(o, last, now) <==> last <= now + o.maxUseBoost
  {
  }

  /** Credit that has run out starts again from now; what is left is added to, up
      to the ceiling. */
  lemma TouchExactly(o: Options, last: int, now: int)
    requires 0 < o.useBoost <= o.maxUseBoost
    ensures last <= now ==> Touch(o, last, now) == now + o.useBoost
    ensures now <= last <= now + o.maxUseBoost - o.useBoost ==> Touch(o, last, now) == last + o.useBoost
    ensures now + o.maxUseBoost - o.useBoost <= last ==> Touch(o, last, now) == now + o.maxUseBoost
  {
  }

  function TouchTimes(o: Options, last: int, now: int, n: nat): int
  {
    if n == 0 then last else Touch(o, TouchTimes(o, last, now, n - 1), now)
  }

  /** n acquires at the instant of insertion are worth n boosts, capped. */
  lemma {:induction false} CreditIsCappedSum(o: Options, now: int, n: nat)
    requires 0 < o.useBoost <= o.maxUseBoost
    ensures TouchTimes(o, now, now, n) ==
            now + (if n * o.useBoost <= o.maxUseBoost then n * o.useBoost else o.maxUseBoost)
  {
    if n > 0 {
      CreditIsCappedSum(o, now, n - 1);
      assert n * o.useBoost == (n - 1) * o.useBoost + o.useBoost;
    }
  }
}
