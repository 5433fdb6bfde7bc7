/** The orders in which resolveHardlinks can come across the links of a tree
    (pkg/blobstore/cas_uploading_layer_extractor.go): those of a directory
    itself, then one subdirectory after the other, each with all that lies
    beneath it; and exactly when every such order succeeds. */
module LinkWalks {
  import opened LayerTree
  import opened Sorting
  import opened HardLinks

  predicate Under(d: Path, q: Path)
  {
    d < q
  }

  /** b may come after a: it does not lie in a directory above a's. */
  predicate MayFollow(a: Path, b: Path)
  {
    a != [] && b != [] && !(Parent(b) < Parent(a))
  }

  ghost predicate ParentsFirst(s: seq<Path>)
  {
    forall i, j :: 0 <= i < j < |s| ==> MayFollow(s[i], s[j])
  }

  /** What lies beneath a directory comes without interruption. */
  ghost predicate Together(s: seq<Path>)
  {
    forall e :: TogetherIn(s, e)
  }

  ghost predicate TogetherIn(s: seq<Path>, e: Path)
  {
    forall i, j, k :: 0 <= i < j < k < |s| && Under(e, s[i]) && Under(e, s[k]) ==> Under(e, s[j])
  }

  ghost predicate DepthFirst(s: seq<Path>)
  {
    Distinct(s) && ParentsFirst(s) && Together(s)
  }

  /** An order of all the links that the recursion can take. */
  ghost predicate Walk(m: Tree, order: seq<Path>)
  {
    IsOrder(m, order) && ParentsFirst(order) && Together(order)
  }

  /** What one run of resolveHardlinks can leave. */
  ghost predicate ResolvesByWalk(m: Tree, m': Tree)
  {
    exists order :: Walk(m, order) && ResolveInOrder(m, order) == Some(m')
  }

  /** The same for the links beneath directory d. */
  ghost predicate WalkUnder(links: set<Path>, d: Path, s: seq<Path>)
  {
    DepthFirst(s) && forall q :: q in s <==> q in links && Under(d, q)
  }

  /** q lies in directory d itself or beneath one of the given names in it. */
  predicate Within(d: Path, names: set<string>, q: Path)
  {
    Under(d, q) && (|q| == |d| + 1 || q[|d|] in names)
  }

  /** A walk of d that has done the links of d itself and some subdirectories. */
  ghost predicate PartWalk(links: set<Path>, d: Path, names: set<string>, s: seq<Path>)
  {
    DepthFirst(s) && forall q :: q in s <==> q in links && Within(d, names, q)
  }

  /** The links that such a walk has not come to. */
  function Left(links: set<Path>, d: Path, names: set<string>): set<Path>
  {
    set q | q in links && !Within(d, names, q)
  }

  // ---- One subdirectory more ----

  lemma UnderChild(d: Path, x: string, q: Path)
    ensures Under(d + [x], q) <==> Under(d, q) && q[|d|] == x && |q| > |d| + 1
  {
    if Under(d, q) && q[|d|] == x {
      assert d + [x] == q[..|d| + 1];
    }
    if Under(d + [x], q) {
      assert d + [x] == q[..|d| + 1];
      assert d == (d + [x])[..|d|] && x == (d + [x])[|d|];
    }
  }

  /** A directory with something of the block and something else beneath it is d
      or above d. */
  lemma MeetAbove(d: Path, x: string, a: Path, b: Path, e: Path)
    requires Under(d, a) && (|a| == |d| + 1 || a[|d|] != x) && Under(d + [x], b)
    requires Under(e, a) && Under(e, b)
    ensures e <= d
  {
    UnderChild(d, x, b);
    assert e == a[..|e|] && e == b[..|e|];
    if |e| > |d| {
      assert false;
    }
    assert d == b[..|d|];
    assert b[..|e|] == d[..|e|];
  }

  lemma Between(d: Path, x: string, a: Path, c: Path, b: Path, e: Path)
    requires Under(d, a) && (|a| == |d| + 1 || a[|d|] != x) && Under(d + [x], b)
    requires Under(e, a) && Under(e, b) && (Under(d, c) || Under(d + [x], c))
    ensures Under(e, c)
  {
    MeetAbove(d, x, a, b, e);
    UnderChild(d, x, c);
  }

  lemma BlockMayFollow(d: Path, x: string, a: Path, b: Path)
    requires Under(d, a) && (|a| == |d| + 1 || a[|d|] != x) && Under(d + [x], b)
    ensures MayFollow(a, b)
  {
    UnderChild(d, x, b);
    assert d + [x] == Parent(b)[..|d| + 1];
  }

  lemma BlockIsApart(links: set<Path>, d: Path, names: set<string>, s: seq<Path>, x: string, block: seq<Path>)
    requires PartWalk(links, d, names, s) && x !in names && WalkUnder(links, d + [x], block)
    ensures forall i :: 0 <= i < |s| ==> Under(d, s[i]) && (|s[i]| == |d| + 1 || s[i][|d|] != x)
    ensures forall i :: 0 <= i < |block| ==> Under(d + [x], block[i])
  {
    forall i | 0 <= i < |s|
      ensures Under(d, s[i]) && (|s[i]| == |d| + 1 || s[i][|d|] != x)
    {
      assert s[i] in s;
    }
    forall i | 0 <= i < |block|
      ensures Under(d + [x], block[i])
    {
      assert block[i] in block;
    }
  }

  lemma AppendOrder(d: Path, s: seq<Path>, x: string, block: seq<Path>)
    requires DepthFirst(s) && DepthFirst(block)
    requires forall i :: 0 <= i < |s| ==> Under(d, s[i]) && (|s[i]| == |d| + 1 || s[i][|d|] != x)
    requires forall i :: 0 <= i < |block| ==> Under(d + [x], block[i])
    ensures Distinct(s + block) && ParentsFirst(s + block)
  {
    var (t, n) := (s + block, |s|);
    forall i, j | 0 <= i < j < |t|
      ensures t[i] != t[j] && MayFollow(t[i], t[j])
    {
      if j < n {
        assert t[i] == s[i] && t[j] == s[j];
      } else if i < n {
        assert t[i] == s[i] && t[j] == block[j - n];
        UnderChild(d, x, t[j]);
        BlockMayFollow(d, x, t[i], t[j]);
      } else {
        assert t[i] == block[i - n] && t[j] == block[j - n];
      }
    }
  }

  lemma AppendTogether(d: Path, s: seq<Path>, x: string, block: seq<Path>, e: Path)
    requires TogetherIn(s, e) && TogetherIn(block, e)
    requires forall i :: 0 <= i < |s| ==> Under(d, s[i]) && (|s[i]| == |d| + 1 || s[i][|d|] != x)
    requires forall i :: 0 <= i < |block| ==> Under(d + [x], block[i])
    ensures TogetherIn(s + block, e)
  {
    var (t, n) := (s + block, |s|);
    forall i, j, k | 0 <= i < j < k < |t| && Under(e, t[i]) && Under(e, t[k])
      ensures Under(e, t[j])
    {
      if k < n {
        assert t[i] == s[i] && t[j] == s[j] && t[k] == s[k];
      } else if i < n {
        assert t[i] == s[i] && t[k] == block[k - n];
        assert t[j] == if j < n then s[j] else block[j - n];
        Between(d, x, t[i], t[j], t[k], e);
      } else {
        assert t[i] == block[i - n] && t[j] == block[j - n] && t[k] == block[k - n];
      }
    }
  }

  lemma AppendBlock(links: set<Path>, d: Path, names: set<string>, s: seq<Path>, x: string, block: seq<Path>)
    requires PartWalk(links, d, names, s) && x !in names && WalkUnder(links, d + [x], block)
    ensures PartWalk(links, d, names + {x}, s + block)
  {
    BlockIsApart(links, d, names, s, x, block);
    AppendOrder(d, s, x, block);
    forall e
      ensures TogetherIn(s + block, e)
    {
      assert TogetherIn(s, e) && TogetherIn(block, e);
      AppendTogether(d, s, x, block, e);
    }
    forall q
      ensures q in s + block <==> q in links && Within(d, names + {x}, q)
    {
      UnderChild(d, x, q);
    }
  }

  /** The links of one directory, in any order. */
  lemma OwnLinks(links: set<Path>, d: Path, s: seq<Path>)
    requires Distinct(s) && forall q :: q in s <==> q in links && Within(d, {}, q)
    ensures PartWalk(links, d, {}, s)
  {
    forall i | 0 <= i < |s|
      ensures Within(d, {}, s[i])
    {
      assert s[i] in s;
    }
    forall i, j | 0 <= i < j < |s|
      ensures MayFollow(s[i], s[j])
    {
      assert Within(d, {}, s[i]) && Within(d, {}, s[j]);
    }
    forall e
      ensures TogetherIn(s, e)
    {
      forall i, j, k | 0 <= i < j < k < |s| && Under(e, s[i]) && Under(e, s[k])
        ensures Under(e, s[j])
      {
        assert d == s[i][..|d|] && d == s[j][..|d|];
        assert e == s[i][..|e|] == d[..|e|] == s[j][..|e|];
      }
    }
  }

  /** Some links of d itself are done, and `left` are all the others. */
  ghost predicate OwnSoFar(links: set<Path>, d: Path, own: seq<Path>, left: set<Path>)
  {
    && Distinct(own) && left == links - Seen(own)
    && forall q :: q in own ==> q in links && Within(d, {}, q)
  }

  lemma OwnOneMore(links: set<Path>, d: Path, own: seq<Path>, left: set<Path>, x: string)
    requires OwnSoFar(links, d, own, left) && d + [x] in left
    ensures OwnSoFar(links, d, own + [d + [x]], left - {d + [x]})
  {
    assert Seen(own + [d + [x]]) == Seen(own) + {d + [x]};
  }

  lemma OwnDone(links: set<Path>, d: Path, own: seq<Path>, left: set<Path>)
    requires OwnSoFar(links, d, own, left) && forall q :: q in left ==> !Within(d, {}, q)
    ensures PartWalk(links, d, {}, own) && left == Left(links, d, {})
  {
    forall q
      ensures q in own <==> q in links && Within(d, {}, q)
    {
      assert q in own <==> q in Seen(own);
    }
    OwnLinks(links, d, own);
  }

  /** All subdirectories with links in them done, the walk is complete. */
  lemma WholeWalk(links: set<Path>, d: Path, names: set<string>, s: seq<Path>)
    requires PartWalk(links, d, names, s)
    requires forall q :: q in links && Under(d, q) ==> Within(d, names, q)
    ensures WalkUnder(links, d, s)
  {
  }

  /** One subdirectory more, as the recursion sees it: its links are still all
      there, and afterwards none of them is. */
  lemma NextBlock(links: set<Path>, d: Path, names: set<string>, s: seq<Path>, x: string, block: seq<Path>,
                  after: set<Path>)
    requires PartWalk(links, d, names, s) && x !in names
    requires WalkUnder(Left(links, d, names), d + [x], block)
    requires forall q :: q in after <==> q in Left(links, d, names) && !Under(d + [x], q)
    ensures PartWalk(links, d, names + {x}, s + block) && after == Left(links, d, names + {x})
  {
    forall q
      ensures q in links && Under(d + [x], q) <==> q in Left(links, d, names) && Under(d + [x], q)
      ensures Within(d, names + {x}, q) <==> Within(d, names, q) || Under(d + [x], q)
    {
      UnderChild(d, x, q);
    }
    AppendBlock(links, d, names, s, x, block);
  }

  // ---- Heading for one link ----

  /** Nothing comes before p but what lies in the directories above p's. */
  ghost predicate HeadsFor(s: seq<Path>, p: Path)
  {
    forall i, k :: 0 <= i < k < |s| && s[k] == p && p != [] ==> AboveParent(s[i], p)
  }

  predicate AboveParent(q: Path, p: Path)
    requires p != []
  {
    q != [] && Parent(q) < Parent(p)
  }

  lemma {:induction false} Enumerate(s: set<Path>, p: Path) returns (order: seq<Path>)
    ensures Distinct(order) && (forall q :: q in order <==> q in s) && (p in s ==> order[0] == p)
  {
    if s == {} {
      order := [];
    } else {
      var q :| q in s && (q == p ==> s == {p});
      var rest := Enumerate(s - {q}, p);
      assert s - {q} == {} ==> rest == [] by {
        assert rest != [] ==> rest[0] in rest;
      }
      order := rest + [q];
    }
  }

  /** Where p is while its directory's turn has not come. */
  ghost predicate Ahead(links: set<Path>, d: Path, todo: set<string>, s: seq<Path>, p: Path)
  {
    || p in s || p !in links || !Under(d, p)
    || (|p| > |d| + 1 && p[|d|] in todo && forall i :: 0 <= i < |s| ==> |s[i]| == |d| + 1)
  }

  /** The names in d that links lie beneath. */
  function Names(links: set<Path>, d: Path): set<string>
  {
    set q | q in links && Under(d, q) && |q| > |d| + 1 :: q[|d|]
  }

  lemma WalkTo(links: set<Path>, d: Path, p: Path, depth: nat) returns (s: seq<Path>)
    requires |d| <= depth && forall q :: q in links ==> |q| <= depth
    ensures WalkUnder(links, d, s) && HeadsFor(s, p)
    decreases depth - |d|, 1
  {
    var own := Enumerate((set q | q in links && Within(d, {}, q)), p);
    OwnLinks(links, d, own);
    assert forall i :: 0 <= i < |own| ==> own[i] in own;
    assert {} + Names(links, d) == Names(links, d);
    s := WalkRest(links, d, p, depth, {}, Names(links, d), own);
  }

  lemma WalkRest(links: set<Path>, d: Path, p: Path, depth: nat, names: set<string>, todo: set<string>, s: seq<Path>)
    returns (r: seq<Path>)
    requires |d| <= depth && forall q :: q in links ==> |q| <= depth
    requires PartWalk(links, d, names, s) && names !! todo && names + todo == Names(links, d)
    requires HeadsFor(s, p) && Ahead(links, d, todo, s, p)
    ensures WalkUnder(links, d, r) && HeadsFor(r, p)
    decreases depth - |d|, 0, todo
  {
    if todo == {} {
      WholeWalk(links, d, names, s);
      r := s;
    } else {
      var x :| x in todo && (Under(d, p) && p[|d|] in todo ==> x == p[|d|]);
      assert |d| < depth by {
        var q :| q in links && Under(d, q) && |q| > |d| + 1 && q[|d|] == x;
      }
      var block := WalkTo(links, d + [x], p, depth);
      AppendBlock(links, d, names, s, x, block);
      AppendHeads(links, d, names, todo, s, x, block, p);
      r := WalkRest(links, d, p, depth, names + {x}, todo - {x}, s + block);
    }
  }

  lemma AppendHeads(links: set<Path>, d: Path, names: set<string>, todo: set<string>, s: seq<Path>, x: string,
                    block: seq<Path>, p: Path)
    requires PartWalk(links, d, names, s) && x !in names && WalkUnder(links, d + [x], block)
    requires HeadsFor(s, p) && HeadsFor(block, p) && Ahead(links, d, todo, s, p)
    requires Under(d, p) && p[|d|] in todo ==> x == p[|d|]
    ensures HeadsFor(s + block, p) && Ahead(links, d, todo - {x}, s + block, p)
  {
    var (t, n) := (s + block, |s|);
    UnderChild(d, x, p);
    forall i, k | 0 <= i < k < |t| && t[k] == p && p != []
      ensures AboveParent(t[i], p)
    {
      if k < n {
        assert s[i] == t[i] && s[k] == t[k];
      } else {
        assert t[k] in block && Under(d + [x], p);
        assert p !in s;
        if i < n {
          assert s[i] in s && |s[i]| == |d| + 1;
          assert Parent(s[i]) == d && d == p[..|d|];
        } else {
          assert block[i - n] == t[i] && block[k - n] == t[k];
        }
      }
    }
    if p in links && Under(d + [x], p) {
      assert p in block;
    }
  }

  // ---- When every walk succeeds ----

  lemma {:induction false} DepthBound(links: set<Path>) returns (depth: nat)
    ensures forall q :: q in links ==> |q| <= depth
  {
    if links == {} {
      depth := 0;
    } else {
      var q :| q in links;
      var rest := DepthBound(links - {q});
      depth := if rest < |q| then |q| else rest;
    }
  }

  lemma RootIsNoLink(m: Tree, q: Path)
    requires WellFormed(m) && q in Links(m)
    ensures Under([], q)
  {
    assert q != [];
  }

  lemma WalkOfTree(m: Tree, s: seq<Path>)
    requires WellFormed(m)
    ensures WalkUnder(Links(m), [], s) <==> Walk(m, s)
  {
    forall q | q in Links(m)
      ensures Under([], q)
    {
      RootIsNoLink(m, q);
    }
  }

  /** A walk that comes to p with only the links above done, and fails there. */
  lemma MisplacedFails(m: Tree, p: Path) returns (order: seq<Path>)
    requires WellFormed(m) && Misplaced(m, p)
    ensures Walk(m, order) && ResolveInOrder(m, order) == None
  {
    var depth := DepthBound(Links(m));
    order := WalkTo(Links(m), [], p, depth);
    WalkOfTree(m, order);
    assert p in order;
    var k :| 0 <= k < |order| && order[k] == p;
    var q := TargetPath(m[p].link);
    assert q != [] && Parent(q) == m[p].link.dir;
    forall i | 0 <= i < k
      ensures order[i] == q ==> q !in m || !m[q].HardLink?
    {
      assert AboveParent(order[i], p);
    }
    OrderSucceedsIff(m, order);
    assert !StepReady(m, order[..k], order[k]);
  }

  lemma WellPlacedSucceeds(m: Tree, order: seq<Path>)
    requires WellFormed(m) && Walk(m, order) && forall p :: !Misplaced(m, p)
    ensures ResolveInOrder(m, order).Some?
  {
    forall k | 0 <= k < |order|
      ensures StepReady(m, order[..k], order[k])
    {
      var p := order[k];
      assert p in order && !Misplaced(m, p);
      RootIsNoLink(m, p);
      var q := TargetPath(m[p].link);
      assert q != [] && Parent(q) == m[p].link.dir;
      if q in m && m[q].HardLink? {
        assert q in order && forall i :: k < i < |order| ==> MayFollow(order[k], order[i]);
        var j :| 0 <= j < |order| && order[j] == q;
        assert order[..k][j] == q;
      }
    }
    OrderSucceedsIff(m, order);
  }

  /** Every order that the code can take succeeds if and only if no link's target
      is missing, or is a link that does not lie in a directory above. */
  lemma EveryWalkSucceedsIff(m: Tree)
    requires WellFormed(m)
    ensures (forall order :: Walk(m, order) ==> ResolveInOrder(m, order).Some?) <==> forall p :: !Misplaced(m, p)
  {
    if p :| Misplaced(m, p) {
      var order := MisplacedFails(m, p);
    } else {
      forall order | Walk(m, order)
        ensures ResolveInOrder(m, order).Some?
      {
        WellPlacedSucceeds(m, order);
      }
    }
  }
}
