/** Hard-link resolution at the end of a layer (resolveHardlinks in
    pkg/blobstore/cas_uploading_layer_extractor.go): links are replaced one by
    one, in an order that map iteration leaves open. */
module HardLinks {
  import opened LayerTree

  function Links(m: Tree): set<Path>
  {
    set p | p in m && m[p].HardLink?
  }

  function TargetPath(link: LinkTarget): Path
  {
    link.dir + [link.name]
  }

  /** What a link to `link` becomes in the tree m, if it can be resolved now: a
      copy of a file or symlink; a directory is downgraded to a symlink. */
  function Direct(m: Tree, link: LinkTarget): Option<Entry>
  {
    match Lookup(m, TargetPath(link))
    case Some(File(digest, executable)) => Some(File(digest, executable))
    case Some(Dir) => Some(Symlink(link.text))
    case Some(Symlink(target)) => Some(Symlink(target))
    case _ => None
  }

  /** Resolving the links in the given order; None is the error return. */
  function ResolveInOrder(m: Tree, order: seq<Path>): Option<Tree>
  {
    if order == [] then Some(m)
    else
      var (init, p) := (order[..|order| - 1], order[|order| - 1]);
      match ResolveInOrder(m, init)
      case None => None
      case Some(m') =>
        if p !in m' || !m'[p].HardLink? then None
        else
          match Direct(m', m'[p].link)
          case None => None
          case Some(e) => Some(m'[p := e])
  }

  ghost predicate IsOrder(m: Tree, order: seq<Path>)
  {
    && (forall p :: p in order <==> p in Links(m))
    && (forall i, j :: 0 <= i < j < |order| ==> order[i] != order[j])
  }

  // ---- The reference: follow the chain ----

  /** What the chain of targets starting at `link` finally names, going through
      each of the links in `avail` at most once. */
  function Final(m: Tree, link: LinkTarget, avail: set<Path>): Option<Entry>
    decreases avail
  {
    var q := TargetPath(link);
    match Lookup(m, q)
    case Some(HardLink(next)) => if q in avail then Final(m, next, avail - {q}) else None
    case _ => Direct(m, link)
  }

  ghost predicate Resolvable(m: Tree)
  {
    forall p :: p in Links(m) ==> Final(m, m[p].link, Links(m)).Some?
  }

  /** Every link replaced by what it finally names; nothing else touched. */
  ghost function Resolved(m: Tree): Tree
    requires Resolvable(m)
  {
    map p | p in m :: if m[p].HardLink? then Final(m, m[p].link, Links(m)).value else m[p]
  }

  lemma {:induction false} FinalMonotone(m: Tree, link: LinkTarget, a: set<Path>, b: set<Path>)
    requires a <= b && Final(m, link, a).Some?
    ensures Final(m, link, b) == Final(m, link, a)
    decreases a
  {
    var q := TargetPath(link);
    match Lookup(m, q)
    case Some(HardLink(next)) => FinalMonotone(m, next, a - {q}, b - {q});
    case _ =>
  }

  lemma {:induction false} FinalIsNotLink(m: Tree, link: LinkTarget, avail: set<Path>)
    requires Final(m, link, avail).Some?
    ensures Final(m, link, avail).value.File? || Final(m, link, avail).value.Symlink?
    decreases avail
  {
    var q := TargetPath(link);
    match Lookup(m, q)
    case Some(HardLink(next)) => FinalIsNotLink(m, next, avail - {q});
    case _ =>
  }

  /** Link p became e, which is what its chain names through the links done. */
  ghost predicate DoneAs(m: Tree, done: seq<Path>, p: Path, e: Entry)
  {
    p in m && m[p].HardLink? && p !in done && Final(m, m[p].link, Seen(done)) == Some(e)
  }

  /** How far a run has got: the links of the order are done, each with what its
      chain names, the rest is as before. */
  ghost predicate Progress(m: Tree, order: seq<Path>, m': Tree)
  {
    && m'.Keys == m.Keys
    && (forall p :: p in m && p !in order ==> m'[p] == m[p])
    && (forall i :: 0 <= i < |order| ==> order[i] in m' && DoneAs(m, order[..i], order[i], m'[order[i]]))
  }

  function Seen(order: seq<Path>): set<Path>
  {
    set p | p in order
  }

  lemma ProgressStep(m: Tree, init: seq<Path>, m': Tree, p: Path)
    requires Progress(m, init, m') && p in m' && m'[p].HardLink? && Direct(m', m'[p].link).Some?
    ensures Progress(m, init + [p], m'[p := Direct(m', m'[p].link).value])
  {
    DoneIsNotLink(m, init, m', p);
    StepIsFinal(m, init, m', p);
    var (order, m'') := (init + [p], m'[p := Direct(m', m'[p].link).value]);
    forall i | 0 <= i < |order|
      ensures order[i] in m'' && DoneAs(m, order[..i], order[i], m''[order[i]])
    {
      if i < |init| {
        assert order[i] == init[i] && order[..i] == init[..i];
      } else {
        assert order[..i] == init;
      }
    }
  }

  lemma {:induction false} RunProgress(m: Tree, order: seq<Path>)
    requires ResolveInOrder(m, order).Some?
    ensures Progress(m, order, ResolveInOrder(m, order).value)
  {
    if order != [] {
      var (init, p) := (order[..|order| - 1], order[|order| - 1]);
      RunProgress(m, init);
      ProgressStep(m, init, ResolveInOrder(m, init).value, p);
      assert init + [p] == order;
    }
  }

  /** A link still pending has not been handled before. */
  lemma DoneIsNotLink(m: Tree, order: seq<Path>, m': Tree, p: Path)
    requires Progress(m, order, m') && p in m' && m'[p].HardLink?
    ensures p !in order && m'[p] == m[p]
  {
    if i :| 0 <= i < |order| && order[i] == p {
      FinalIsNotLink(m, m[p].link, Seen(order[..i]));
    }
  }

  /** One resolution agrees with following the chain through the links already
      handled. */
  lemma StepIsFinal(m: Tree, order: seq<Path>, m': Tree, p: Path)
    requires Progress(m, order, m') && p in m && m[p].HardLink? && Direct(m', m[p].link).Some?
    ensures Final(m, m[p].link, Seen(order)) == Direct(m', m[p].link)
  {
    var q := TargetPath(m[p].link);
    if q in order {
      var i :| 0 <= i < |order| && order[i] == q;
      FinalIsNotLink(m, m[q].link, Seen(order[..i]));
      FinalMonotone(m, m[q].link, Seen(order[..i]), Seen(order) - {q});
    }
  }

  /** Any successful run over all links gives the reference result: whatever the
      order was, every link is a copy of what its chain finally names. */
  lemma SuccessIsResolved(m: Tree, order: seq<Path>)
    requires IsOrder(m, order) && ResolveInOrder(m, order).Some?
    ensures Resolvable(m) && ResolveInOrder(m, order) == Some(Resolved(m))
  {
    RunProgress(m, order);
    var m' := ResolveInOrder(m, order).value;
    forall p | p in Links(m)
      ensures Final(m, m[p].link, Links(m)) == Some(m'[p])
    {
      var i :| 0 <= i < |order| && order[i] == p;
      FinalMonotone(m, m[p].link, Seen(order[..i]), Links(m));
    }
    forall p | p in m && !m[p].HardLink?
      ensures m'[p] == m[p]
    {
      assert p !in order;
    }
    assert m' == Resolved(m);
  }

  lemma ResolutionIsUnique(m: Tree, order: seq<Path>, order': seq<Path>)
    requires IsOrder(m, order) && ResolveInOrder(m, order).Some?
    requires IsOrder(m, order') && ResolveInOrder(m, order').Some?
    ensures ResolveInOrder(m, order) == ResolveInOrder(m, order')
  {
    SuccessIsResolved(m, order);
    SuccessIsResolved(m, order');
  }

  /** No link is left pending, nothing else has changed, and a tree stays one. */
  lemma ResolvedIsClean(m: Tree)
    requires Resolvable(m)
    ensures Links(Resolved(m)) == {}
    ensures Resolved(m).Keys == m.Keys
    ensures forall p :: p in m && !m[p].HardLink? ==> Resolved(m)[p] == m[p]
    ensures WellFormed(m) ==> WellFormed(Resolved(m))
  {
    forall p | p in Links(m) {
      FinalIsNotLink(m, m[p].link, Links(m));
    }
    assert forall q :: HasDirParent(m, q) ==> HasDirParent(Resolved(m), q);
  }

  // ---- Chains of links ----

  /** Every path but the last is a link, and leads to the next. */
  ghost predicate Chain(m: Tree, ps: seq<Path>)
  {
    && |ps| >= 2
    && (forall i :: 0 <= i < |ps| - 1 ==> Leads(m, ps[i], ps[i + 1]))
    && ps[|ps| - 1] in m && !m[ps[|ps| - 1]].HardLink?
  }

  ghost predicate Leads(m: Tree, p: Path, q: Path)
  {
    p in m && m[p].HardLink? && q == m[p].link.dir + [m[p].link.name]
  }

  /** e is what the chain makes of its first link: a copy of the file or symlink
      at its end, or a symlink with the text of the last link if a directory is
      there. */
  ghost predicate CopyOfEnd(m: Tree, ps: seq<Path>, e: Entry)
    requires Chain(m, ps)
  {
    var (last, link) := (m[ps[|ps| - 1]], ps[|ps| - 2]);
    assert Leads(m, ps[|ps| - 2], ps[|ps| - 1]);
    if last.Dir? then e == Symlink(m[link].link.text) else e == last
  }

  /** Entry e at p is what the chain from p on names. */
  ghost predicate Copied(m: Tree, p: Path, e: Entry)
  {
    exists ps :: Chain(m, ps) && ps[0] == p && CopyOfEnd(m, ps, e)
  }

  lemma ChainCons(m: Tree, p: Path, ps: seq<Path>)
    requires Chain(m, ps) && Leads(m, p, ps[0])
    ensures Chain(m, [p] + ps) && forall e :: CopyOfEnd(m, ps, e) ==> CopyOfEnd(m, [p] + ps, e)
  {
    var qs := [p] + ps;
    forall i | 0 <= i < |qs| - 1
      ensures Leads(m, qs[i], qs[i + 1])
    {
      assert i > 0 ==> Leads(m, ps[i - 1], ps[i]);
    }
  }

  lemma {:induction false} FinalIsCopy(m: Tree, p: Path, avail: set<Path>)
    requires p in m && m[p].HardLink? && Final(m, m[p].link, avail).Some?
    ensures Copied(m, p, Final(m, m[p].link, avail).value)
    decreases avail
  {
    var (q, e) := (TargetPath(m[p].link), Final(m, m[p].link, avail).value);
    if m[q].HardLink? {
      FinalIsCopy(m, q, avail - {q});
      var ps :| Chain(m, ps) && ps[0] == q && CopyOfEnd(m, ps, e);
      ChainCons(m, p, ps);
    } else {
      assert Leads(m, p, q) && Chain(m, [p, q]) && CopyOfEnd(m, [p, q], e);
    }
  }

  /** Any successful run leaves every link as a copy of what its chain of targets
      names in the end, and everything else as it was. */
  lemma SuccessCopiesEnds(m: Tree, order: seq<Path>, m': Tree)
    requires IsOrder(m, order) && ResolveInOrder(m, order) == Some(m')
    ensures m'.Keys == m.Keys
    ensures forall p :: p in m ==> if m[p].HardLink? then Copied(m, p, m'[p]) else m'[p] == m[p]
  {
    SuccessIsResolved(m, order);
    forall p | p in m && m[p].HardLink?
      ensures Copied(m, p, m'[p])
    {
      assert p in Links(m);
      FinalIsCopy(m, p, Links(m));
    }
  }

  // ---- When a run succeeds ----

  /** The target of link p is there, and is no link or a link handled before. */
  ghost predicate StepReady(m: Tree, done: seq<Path>, p: Path)
  {
    p in Links(m) &&
    var q := TargetPath(m[p].link);
    q in m && (m[q].HardLink? ==> q in done)
  }

  /** Exactly when a given order succeeds. */
  lemma {:induction false} OrderSucceedsIff(m: Tree, order: seq<Path>)
    requires forall i :: 0 <= i < |order| ==> order[i] in Links(m)
    requires forall i, j :: 0 <= i < j < |order| ==> order[i] != order[j]
    ensures ResolveInOrder(m, order).Some? <==> forall k :: 0 <= k < |order| ==> StepReady(m, order[..k], order[k])
  {
    if order != [] {
      var (n, init, p) := (|order| - 1, order[..|order| - 1], order[|order| - 1]);
      OrderSucceedsIff(m, init);
      assert forall k :: 0 <= k < n ==> order[..k] == init[..k] && order[k] == init[k];
      if ResolveInOrder(m, init).Some? {
        LastStepSucceedsIff(m, init, p);
        assert init + [p] == order;
      }
    }
  }

  lemma LastStepSucceedsIff(m: Tree, init: seq<Path>, p: Path)
    requires ResolveInOrder(m, init).Some?
    requires p in Links(m) && p !in init
    ensures ResolveInOrder(m, init + [p]).Some? <==> StepReady(m, init, p)
  {
    var (m', order, q) := (ResolveInOrder(m, init).value, init + [p], TargetPath(m[p].link));
    RunProgress(m, init);
    assert order[..|order| - 1] == init && m'[p] == m[p];
    if q in init {
      var i :| 0 <= i < |init| && init[i] == q;
      FinalIsNotLink(m, m[q].link, Seen(init[..i]));
    }
  }

  lemma ResolveSnoc(m: Tree, init: seq<Path>, m': Tree, p: Path)
    requires ResolveInOrder(m, init) == Some(m') && p in Links(m')
    ensures ResolveInOrder(m, init + [p]) ==
            match Direct(m', m'[p].link) case None => None case Some(e) => Some(m'[p := e])
  {
    assert (init + [p])[..|init|] == init;
  }

  /** A link whose target is missing or is another link. */
  ghost predicate Stuck(m: Tree, p: Path)
  {
    p in Links(m) && var q := TargetPath(m[p].link); q !in m || m[q].HardLink?
  }

  /** A link whose target is missing, or is a link that does not lie in one of
      the directories above. */
  ghost predicate Misplaced(m: Tree, p: Path)
  {
    p in Links(m) && p != [] &&
    var (link, q) := (m[p].link, TargetPath(m[p].link));
    q !in m || (m[q].HardLink? && !(link.dir < Parent(p)))
  }

  /** No link is left in the directories above d. */
  ghost predicate AncestorsDone(m: Tree, d: Path)
  {
    forall q :: q in Links(m) && q != [] ==> !(Parent(q) < d)
  }

  /** When the links above have been handled, only such a link makes a run fail. */
  lemma FailureIsMisplaced(m: Tree, init: seq<Path>, m': Tree, p: Path)
    requires ResolveInOrder(m, init) == Some(m') && p in Links(m') && Direct(m', m'[p].link) == None
    requires p != [] && AncestorsDone(m', Parent(p))
    ensures Misplaced(m, p)
  {
    RunProgress(m, init);
    DoneIsNotLink(m, init, m', p);
    var q := TargetPath(m[p].link);
    assert q != [] && Parent(q) == m[p].link.dir;
    if q in m' {
      DoneIsNotLink(m, init, m', q);
      assert q in Links(m');
    }
  }

  /** With no link to a link, every order succeeds. */
  lemma DirectLinksAlwaysResolve(m: Tree, order: seq<Path>)
    requires IsOrder(m, order)
    requires forall p :: p in Links(m) ==> !Stuck(m, p)
    ensures ResolveInOrder(m, order).Some?
  {
    OrderSucceedsIff(m, order);
    forall k | 0 <= k < |order|
      ensures StepReady(m, order[..k], order[k])
    {
      assert order[k] in order && !Stuck(m, order[k]);
    }
  }

  /** Links that only lead to each other. */
  ghost predicate Cyclic(m: Tree, s: set<Path>)
  {
    s <= Links(m) && forall p :: p in s ==> TargetPath(m[p].link) in s
  }

  lemma {:induction false} CycleHasNoFinal(m: Tree, s: set<Path>, link: LinkTarget, avail: set<Path>)
    requires Cyclic(m, s) && TargetPath(link) in s
    ensures Final(m, link, avail) == None
    decreases avail
  {
    var q := TargetPath(link);
    if q in avail {
      CycleHasNoFinal(m, s, m[q].link, avail - {q});
    }
  }

  /** A cycle of links fails in every order. */
  lemma CyclesAlwaysFail(m: Tree, s: set<Path>, order: seq<Path>)
    requires Cyclic(m, s) && s != {} && IsOrder(m, order)
    ensures ResolveInOrder(m, order) == None
  {
    var p :| p in s;
    CycleHasNoFinal(m, s, m[p].link, Links(m));
    if ResolveInOrder(m, order).Some? {
      SuccessIsResolved(m, order);
    }
  }

  /** A link to a link in the same directory: whether the run succeeds does
      depend on the order, although the result of a success does not. */
  lemma SuccessDependsOnOrder()
    ensures var m: Tree := map[[] := Dir, ["f"] := File(7, true),
                               ["a"] := HardLink(LinkTarget("f", [], "f")),
                               ["b"] := HardLink(LinkTarget("a", [], "a"))];
            && ResolveInOrder(m, [["a"], ["b"]]).Some?
            && ResolveInOrder(m, [["b"], ["a"]]) == None
  {
    var m: Tree := map[[] := Dir, ["f"] := File(7, true),
                       ["a"] := HardLink(LinkTarget("f", [], "f")),
                       ["b"] := HardLink(LinkTarget("a", [], "a"))];
    var (a, b) := (["a"], ["b"]);
    assert TargetPath(m[a].link) == ["f"] && TargetPath(m[b].link) == a;
    assert [a, b][..1] == [a];
    assert [b, a][..0] == [] && [a, b][..0] == [];
    OrderSucceedsIff(m, [a, b]);
    OrderSucceedsIff(m, [b, a]);
    assert !StepReady(m, [], b) && StepReady(m, [], a) && StepReady(m, [a], b);
  }

  // ---- Whole images ----

  /** One layer: stream its entries, then resolve its links in some order. */
  ghost predicate ExtractsLayer(m: Tree, evs: seq<Event>, m': Tree)
  {
    exists order :: IsOrder(Stream(m, evs), order) && ResolveInOrder(Stream(m, evs), order) == Some(m')
  }

  ghost predicate Extracts(m: Tree, layers: seq<seq<Event>>, m': Tree)
    decreases |layers|, 0
  {
    if layers == [] then m' == m
    else ExtractsLast(m, layers[..|layers| - 1], layers[|layers| - 1], m')
  }

  ghost predicate ExtractsLast(m: Tree, init: seq<seq<Event>>, last: seq<Event>, m': Tree)
    decreases |init|, 1
  {
    exists mid :: Extracts(m, init, mid) && ExtractsLayer(mid, last, m')
  }

  /** The image as the standard defines it, links followed in the merged tree. */
  ghost function OciImage(m: Tree, layers: seq<seq<Event>>): Option<Tree>
  {
    if layers == [] then Some(m)
    else
      match OciImage(m, layers[..|layers| - 1])
      case None => None
      case Some(mid) =>
        var merged := Merge(mid, layers[|layers| - 1]);
        if Resolvable(merged) then Some(Resolved(merged)) else None
  }

  /** Extracting any list of well-ordered layers, in any iteration order, gives
      the image the standard defines. */
  lemma {:induction false} ExtractionIsOciImage(m: Tree, layers: seq<seq<Event>>, m': Tree)
    requires forall i :: 0 <= i < |layers| ==> ValidLayer(layers[i]) && Consistent(layers[i]) && Settled(layers[i])
    requires Extracts(m, layers, m')
    ensures OciImage(m, layers) == Some(m')
  {
    if layers != [] {
      var (init, last) := (layers[..|layers| - 1], layers[|layers| - 1]);
      var mid :| Extracts(m, init, mid) && ExtractsLayer(mid, last, m');
      ExtractionIsOciImage(m, init, mid);
      StreamIsMerge(mid, last);
      var order :| IsOrder(Stream(mid, last), order) && ResolveInOrder(Stream(mid, last), order) == Some(m');
      SuccessIsResolved(Stream(mid, last), order);
    }
  }

  /** Once a layer is complete its links are copies: a later layer that does not
      touch the link itself leaves it alone, whatever it does to the target. */
  lemma LaterLayersKeepCopies(m: Tree, evs: seq<Event>, m': Tree, p: Path)
    requires Links(m) == {} && p in m && ExtractsLayer(m, evs, m')
    requires forall i :: 0 <= i < |evs| ==> EffectOn(evs[i], p) == Keep
    ensures Lookup(m', p) == Lookup(m, p)
  {
    var order :| IsOrder(Stream(m, evs), order) && ResolveInOrder(Stream(m, evs), order) == Some(m');
    NetOfUntouched(evs, p);
    StreamPointwise(m, evs, p);
    SuccessIsResolved(Stream(m, evs), order);
    assert p !in Links(m);
    ResolvedIsClean(Stream(m, evs));
  }
}
