/** Exactly when resolveHardlinks can succeed at all: some order that its
    recursion can take handles every link after its target. */
module LinkKnots {
  import opened LayerTree
  import opened HardLinks
  import opened LinkWalks

  /** q is the entry called x in directory d, or lies beneath it. */
  predicate InUnit(d: Path, x: string, q: Path)
  {
    Under(d, q) && q[|d|] == x
  }

  function Target(m: Tree, p: Path): Path
    requires p in Links(m)
  {
    TargetPath(m[p].link)
  }

  /** The target of p is another link, or p itself. */
  ghost predicate Needs(m: Tree, p: Path, q: Path)
  {
    p in Links(m) && q in Links(m) && Target(m, p) == q
  }

  /** In directory d, x must come before y: a directory waits for the directory's
      own links, and every entry for the targets of the links in it. */
  ghost predicate MustPrecede(m: Tree, d: Path, x: string, y: string)
  {
    || (d + [x] in Links(m) && d + [y] !in Links(m))
    || exists p, q :: Needs(m, p, q) && InUnit(d, y, p) && InUnit(d, x, q) && (x != y || p == q)
  }

  /** Names in d with links in them that all wait for one another. */
  ghost predicate Knot(m: Tree, d: Path, names: set<string>)
  {
    && names != {} && names <= AllNames(Links(m), d)
    && forall y :: y in names ==> Blocked(m, d, names, y)
  }

  ghost predicate Blocked(m: Tree, d: Path, names: set<string>, y: string)
  {
    exists x :: x in names && MustPrecede(m, d, x, y)
  }

  function AllNames(links: set<Path>, d: Path): set<string>
  {
    set q | q in links && Under(d, q) :: q[|d|]
  }

  // ---- A walk that succeeds leaves no knot ----

  /** Nothing lies beneath a link. */
  lemma OwnUnit(m: Tree, d: Path, x: string, q: Path)
    requires WellFormed(m) && d + [x] in Links(m) && q in Links(m) && InUnit(d, x, q)
    ensures q == d + [x]
  {
    assert d + [x] == q[..|d| + 1];
    if q != d + [x] {
      NothingBeneath(m, d + [x], q);
    }
  }

  ghost predicate Among(order: seq<Path>, d: Path, names: set<string>, i: nat)
  {
    i < |order| && Under(d, order[i]) && order[i][|d|] in names
  }

  lemma {:induction false} FirstAmong(order: seq<Path>, d: Path, names: set<string>, i: nat) returns (k: nat)
    requires Among(order, d, names, i)
    ensures Among(order, d, names, k) && forall j :: 0 <= j < k ==> !Among(order, d, names, j)
    decreases i
  {
    if j :| 0 <= j < i && Among(order, d, names, j) {
      k := FirstAmong(order, d, names, j);
    } else {
      k := i;
    }
  }

  lemma FirstOf(m: Tree, order: seq<Path>, d: Path, names: set<string>) returns (k: nat)
    requires IsOrder(m, order) && names != {} && names <= AllNames(Links(m), d)
    ensures Among(order, d, names, k) && forall j :: 0 <= j < k ==> !Among(order, d, names, j)
  {
    var x :| x in names;
    assert x in AllNames(Links(m), d);
    var q :| q in Links(m) && Under(d, q) && q[|d|] == x;
    assert q in order;
    var i :| 0 <= i < |order| && order[i] == q;
    k := FirstAmong(order, d, names, i);
  }

  /** The first of the names is an own link if any of them is. */
  lemma OwnLinkFirst(m: Tree, order: seq<Path>, d: Path, names: set<string>, k: nat, x: string)
    requires Walk(m, order) && Among(order, d, names, k) && forall j :: 0 <= j < k ==> !Among(order, d, names, j)
    requires x in names && d + [x] in Links(m)
    ensures d + [order[k][|d|]] in Links(m)
  {
    var u := d + [x];
    assert u in order && order[k] in order && d == order[k][..|d|];
    var j :| 0 <= j < |order| && order[j] == u;
    assert Among(order, d, names, j) && Parent(u) == d;
    if k < j {
      assert MayFollow(order[k], order[j]);
      assert d == Parent(order[k])[..|d|];
      OwnName(d, order[k]);
    }
  }

  lemma OwnName(d: Path, q: Path)
    requires Under(d, q) && |q| == |d| + 1
    ensures q == d + [q[|d|]]
  {
  }

  /** The target of a link in the first of the names lies in the same one, or in
      none of them. */
  lemma TargetFirst(m: Tree, order: seq<Path>, d: Path, names: set<string>, k: nat, p: Path, q: Path)
    requires WellFormed(m) && Walk(m, order) && ResolveInOrder(m, order).Some?
    requires Among(order, d, names, k) && forall j :: 0 <= j < k ==> !Among(order, d, names, j)
    requires Needs(m, p, q) && InUnit(d, order[k][|d|], p) && Under(d, q) && q[|d|] in names
    ensures q[|d|] == p[|d|] && p != q
  {
    var x := order[k][|d|];
    assert p in order && q in order && order[k] in order;
    var i :| 0 <= i < |order| && order[i] == p;
    var j := TargetBefore(m, order, i);
    assert Among(order, d, names, j);
    if d + [x] in Links(m) {
      OwnUnit(m, d, x, p);
      OwnUnit(m, d, x, order[k]);
    } else if k < j {
      DeeperThan(d, x, p, m);
      DeeperThan(d, x, order[k], m);
      UnderChild(d, x, p);
      UnderChild(d, x, order[k]);
      assert TogetherIn(order, d + [x]);
      UnderChild(d, x, q);
    }
  }

  lemma DeeperThan(d: Path, x: string, q: Path, m: Tree)
    requires q in Links(m) && InUnit(d, x, q) && d + [x] !in Links(m)
    ensures |q| > |d| + 1
  {
    assert d == q[..|d|];
    assert |q| == |d| + 1 ==> q == d + [x];
  }

  lemma TargetBefore(m: Tree, order: seq<Path>, i: nat) returns (j: nat)
    requires IsOrder(m, order) && ResolveInOrder(m, order).Some? && i < |order|
    requires order[i] in Links(m) && Target(m, order[i]) in Links(m)
    ensures j < i && order[j] == Target(m, order[i])
  {
    OrderSucceedsIff(m, order);
    assert StepReady(m, order[..i], order[i]);
    assert Target(m, order[i]) in order[..i];
    j :| 0 <= j < i && order[j] == Target(m, order[i]);
  }

  /** The first of the names waits for none of them. */
  lemma FirstIsFree(m: Tree, order: seq<Path>, d: Path, names: set<string>, k: nat, x: string)
    requires WellFormed(m) && Walk(m, order) && ResolveInOrder(m, order).Some?
    requires Among(order, d, names, k) && forall j :: 0 <= j < k ==> !Among(order, d, names, j)
    requires x in names
    ensures !MustPrecede(m, d, x, order[k][|d|])
  {
    var y := order[k][|d|];
    if d + [x] in Links(m) {
      OwnLinkFirst(m, order, d, names, k, x);
    }
    forall p, q | Needs(m, p, q) && InUnit(d, y, p) && InUnit(d, x, q)
      ensures x == y && p != q
    {
      TargetFirst(m, order, d, names, k, p, q);
    }
  }

  lemma SuccessHasNoKnot(m: Tree, order: seq<Path>, d: Path, names: set<string>)
    requires WellFormed(m) && Walk(m, order) && ResolveInOrder(m, order).Some?
    ensures !Knot(m, d, names)
  {
    if names != {} && names <= AllNames(Links(m), d) {
      var k := FirstOf(m, order, d, names);
      forall x | x in names
        ensures !MustPrecede(m, d, x, order[k][|d|])
      {
        FirstIsFree(m, order, d, names, k, x);
      }
      assert !Blocked(m, d, names, order[k][|d|]);
    }
  }

  // ---- Without knots there is such a walk ----

  /** Targets beneath d come first. */
  ghost predicate Settles(m: Tree, d: Path, s: seq<Path>)
  {
    forall i :: 0 <= i < |s| ==> SettledAt(m, d, s, i)
  }

  ghost predicate SettledAt(m: Tree, d: Path, s: seq<Path>, i: nat)
    requires i < |s|
  {
    s[i] in Links(m) && (Target(m, s[i]) in Links(m) && Under(d, Target(m, s[i])) ==> Target(m, s[i]) in s[..i])
  }

  ghost predicate NoKnots(m: Tree)
  {
    forall d, names :: !Knot(m, d, names)
  }

  /** Some name does not wait for any other. */
  lemma NextName(m: Tree, d: Path, todo: set<string>) returns (x: string)
    requires NoKnots(m) && todo != {} && todo <= AllNames(Links(m), d)
    ensures x in todo && forall y :: y in todo ==> !MustPrecede(m, d, y, x)
  {
    assert !Knot(m, d, todo);
    x :| x in todo && !Blocked(m, d, todo, x);
  }

  lemma SettlesAppend(m: Tree, d: Path, s: seq<Path>, block: seq<Path>)
    requires Settles(m, d, s)
    requires forall i :: 0 <= i < |block| ==> block[i] in Links(m)
    requires forall i :: 0 <= i < |block| && Target(m, block[i]) in Links(m) && Under(d, Target(m, block[i])) ==>
               Target(m, block[i]) in s || Target(m, block[i]) in block[..i]
    ensures Settles(m, d, s + block)
  {
    var (t, n) := (s + block, |s|);
    forall i | 0 <= i < |t|
      ensures SettledAt(m, d, t, i)
    {
      if i < n {
        assert SettledAt(m, d, s, i);
        assert t[..i] == s[..i];
      } else {
        assert t[i] == block[i - n] && t[..i] == s + block[..i - n];
      }
    }
  }

  /** The names of d still to come, and what has been done. */
  ghost predicate Halfway(m: Tree, d: Path, todo: set<string>, s: seq<Path>)
  {
    && todo <= AllNames(Links(m), d)
    && Settles(m, d, s)
    && forall q :: q in Links(m) && Under(d, q) ==> (q in s <==> q[|d|] !in todo)
  }

  /** A link in the unit whose turn it is: its target is done, or in the unit. */
  lemma TargetIsDone(m: Tree, d: Path, todo: set<string>, s: seq<Path>, x: string, p: Path)
    requires Halfway(m, d, todo, s) && x in todo && forall y :: y in todo ==> !MustPrecede(m, d, y, x)
    requires p in Links(m) && InUnit(d, x, p) && Target(m, p) in Links(m) && Under(d, Target(m, p))
    ensures Target(m, p) != p && (Target(m, p) in s || InUnit(d, x, Target(m, p)))
  {
    var q := Target(m, p);
    assert Needs(m, p, q) && InUnit(d, q[|d|], q);
    if q !in s {
      assert !MustPrecede(m, d, q[|d|], x);
    }
    if q == p {
      assert !MustPrecede(m, d, x, x);
    }
  }

  /** The own links of d, those that others wait for first. */
  lemma {:induction false} SettleOwn(m: Tree, d: Path, todo: set<string>, s: seq<Path>, left: set<Path>)
    returns (r: seq<Path>, rest: set<string>)
    requires WellFormed(m) && NoKnots(m) && Halfway(m, d, todo, s) && OwnSoFar(Links(m), d, s, left)
    ensures PartWalk(Links(m), d, {}, r) && Halfway(m, d, rest, r)
    ensures forall x :: x in rest ==> d + [x] !in Links(m)
    decreases todo
  {
    if forall x :: x in todo ==> d + [x] !in Links(m) {
      forall q | Within(d, {}, q)
        ensures q !in left
      {
        OwnName(d, q);
      }
      OwnDone(Links(m), d, s, left);
      r, rest := s, todo;
    } else {
      var x0 :| x0 in todo && d + [x0] in Links(m);
      var x := NextName(m, d, todo);
      assert !MustPrecede(m, d, x0, x);
      var u := d + [x];
      assert InUnit(d, x, u) && u !in s;
      SettleOne(m, d, todo, s, x);
      OwnOneMore(Links(m), d, s, left, x);
      r, rest := SettleOwn(m, d, todo - {x}, s + [u], left - {u});
    }
  }

  lemma SettleOne(m: Tree, d: Path, todo: set<string>, s: seq<Path>, x: string)
    requires WellFormed(m) && Halfway(m, d, todo, s) && x in todo && d + [x] in Links(m)
    requires forall y :: y in todo ==> !MustPrecede(m, d, y, x)
    ensures Halfway(m, d, todo - {x}, s + [d + [x]])
  {
    var u := d + [x];
    var q := Target(m, u);
    assert InUnit(d, x, u);
    if q in Links(m) && Under(d, q) {
      TargetIsDone(m, d, todo, s, x, u);
      if InUnit(d, x, q) {
        OwnUnit(m, d, x, q);
      }
    }
    SettlesAppend(m, d, s, [u]);
    forall r | r in Links(m) && Under(d, r)
      ensures r in s + [u] <==> r[|d|] !in todo - {x}
    {
      if r[|d|] == x {
        OwnUnit(m, d, x, r);
      }
    }
  }

  lemma SettleBlock(m: Tree, d: Path, todo: set<string>, s: seq<Path>, x: string, block: seq<Path>)
    requires Halfway(m, d, todo, s) && x in todo && d + [x] !in Links(m)
    requires forall y :: y in todo ==> !MustPrecede(m, d, y, x)
    requires WalkUnder(Links(m), d + [x], block) && Settles(m, d + [x], block)
    ensures Halfway(m, d, todo - {x}, s + block)
  {
    forall i | 0 <= i < |block|
      ensures block[i] in Links(m)
      ensures Target(m, block[i]) in Links(m) && Under(d, Target(m, block[i])) ==>
                Target(m, block[i]) in s || Target(m, block[i]) in block[..i]
    {
      assert block[i] in block && SettledAt(m, d + [x], block, i);
      UnderChild(d, x, block[i]);
      var q := Target(m, block[i]);
      if q in Links(m) && Under(d, q) {
        TargetIsDone(m, d, todo, s, x, block[i]);
        if InUnit(d, x, q) {
          DeeperThan(d, x, q, m);
          UnderChild(d, x, q);
        }
      }
    }
    SettlesAppend(m, d, s, block);
    forall q | q in Links(m) && Under(d, q)
      ensures q in s + block <==> q[|d|] !in todo - {x}
    {
      UnderChild(d, x, q);
      if q[|d|] == x {
        DeeperThan(d, x, q, m);
      }
    }
  }

  lemma SettleWalk(m: Tree, d: Path, depth: nat) returns (s: seq<Path>)
    requires WellFormed(m) && NoKnots(m) && |d| <= depth && forall q :: q in Links(m) ==> |q| <= depth
    ensures WalkUnder(Links(m), d, s) && Settles(m, d, s)
    decreases depth - |d|, 1
  {
    var all := AllNames(Links(m), d);
    assert Halfway(m, d, all, []) by {
      assert forall q :: q in Links(m) && Under(d, q) ==> q[|d|] in all;
    }
    assert OwnSoFar(Links(m), d, [], Links(m));
    var own, rest := SettleOwn(m, d, all, [], Links(m));
    s := SettleRest(m, d, depth, {}, rest, own);
  }

  lemma SettleRest(m: Tree, d: Path, depth: nat, names: set<string>, todo: set<string>, s: seq<Path>)
    returns (r: seq<Path>)
    requires WellFormed(m) && NoKnots(m) && |d| <= depth && forall q :: q in Links(m) ==> |q| <= depth
    requires Halfway(m, d, todo, s) && PartWalk(Links(m), d, names, s) && names !! todo
    requires forall x :: x in todo ==> d + [x] !in Links(m)
    ensures WalkUnder(Links(m), d, r) && Settles(m, d, r)
    decreases depth - |d|, 0, todo
  {
    if todo == {} {
      WholeWalk(Links(m), d, names, s);
      r := s;
    } else {
      var x := NextName(m, d, todo);
      assert x in AllNames(Links(m), d);
      var q :| q in Links(m) && Under(d, q) && q[|d|] == x;
      var block := SettleWalk(m, d + [x], depth);
      SettleBlock(m, d, todo, s, x, block);
      AppendBlock(Links(m), d, names, s, x, block);
      r := SettleRest(m, d, depth, names + {x}, todo - {x}, s + block);
    }
  }

  // ---- The exact condition ----

  lemma SettledSucceeds(m: Tree, order: seq<Path>)
    requires WellFormed(m) && Walk(m, order) && Settles(m, [], order)
    requires forall p :: p in Links(m) ==> Target(m, p) in m
    ensures ResolveInOrder(m, order).Some?
  {
    forall k | 0 <= k < |order|
      ensures StepReady(m, order[..k], order[k])
    {
      assert SettledAt(m, [], order, k);
      var q := Target(m, order[k]);
      if q in Links(m) {
        RootIsNoLink(m, q);
      }
    }
    OrderSucceedsIff(m, order);
  }

  /** Some order that the recursion can take succeeds if and only if every target
      is there and in no directory do names wait for one another in a circle. */
  lemma SomeWalkSucceedsIff(m: Tree)
    requires WellFormed(m)
    ensures (exists order :: Walk(m, order) && ResolveInOrder(m, order).Some?) <==>
            (forall p :: p in Links(m) ==> Target(m, p) in m) && NoKnots(m)
  {
    if order :| Walk(m, order) && ResolveInOrder(m, order).Some? {
      forall d, names
        ensures !Knot(m, d, names)
      {
        SuccessHasNoKnot(m, order, d, names);
      }
      TargetsAreThere(m, order);
    }
    if (forall p :: p in Links(m) ==> Target(m, p) in m) && NoKnots(m) {
      var depth := DepthBound(Links(m));
      var order := SettleWalk(m, [], depth);
      WalkOfTree(m, order);
      SettledSucceeds(m, order);
    }
  }

  lemma TargetsAreThere(m: Tree, order: seq<Path>)
    requires IsOrder(m, order) && ResolveInOrder(m, order).Some?
    ensures forall p :: p in Links(m) ==> Target(m, p) in m
  {
    OrderSucceedsIff(m, order);
    forall p | p in Links(m)
      ensures Target(m, p) in m
    {
      assert p in order;
      var k :| 0 <= k < |order| && order[k] == p;
      assert StepReady(m, order[..k], order[k]);
    }
  }

  /** A link to a link further down always fails. */
  lemma LinkDownFails(m: Tree, p: Path, q: Path, order: seq<Path>)
    requires WellFormed(m) && Needs(m, p, q) && p != [] && Parent(p) < q && |q| > |p| && Walk(m, order)
    ensures ResolveInOrder(m, order) == None
  {
    var d := Parent(p);
    var (x, y) := (Last(p), q[|d|]);
    assert p == d + [x] && InUnit(d, x, p) && InUnit(d, y, q);
    if d + [y] in Links(m) {
      OwnUnit(m, d, y, q);
    }
    assert MustPrecede(m, d, x, y) && MustPrecede(m, d, y, x);
    assert Blocked(m, d, {x, y}, x) && Blocked(m, d, {x, y}, y);
    assert Knot(m, d, {x, y});
    if ResolveInOrder(m, order).Some? {
      SuccessHasNoKnot(m, order, d, {x, y});
    }
  }
}
