/** The root fetcher cannot get stuck: as long as an Acquire call is unfinished,
    some Acquire call can take a step, and every such step brings its call
    nearer to its end. */
module RootCacheProgress {
  import Text
  import opened RootCache
  import opened RootCacheRuns
  import opened RootCacheTheorems

  /** The steps of Acquire itself. */
  predicate Advances(l: Label)
  {
    !l.Begin? && !l.DoRelease? && !l.Delete?
  }

  predicate Unfinished(pc: Call)
  {
    !pc.Holding? && !pc.Released? && !pc.Failed?
  }

  // ---- Nearer to the end ----

  /** How many steps of its own a call has before it at most. */
  function StepsLeft(pc: Call): nat
  {
    match pc
    case Started(_) => 7
    case Missed(_) => 6
    case Queued(_, _) => 5
    case Fetching(_, _) => 4
    case Fetched(_, _, _) => 3
    case Landing(_, _, _) => 2
    case Joined(_, _) => 2
    case Attaching(_, _, _) => 1
    case _ => 0
  }

  /** A step of Acquire moves its own call forward and no other. */
  lemma StepsGoForward(o: Options, pinned: set<Ref>, s: Sys, l: Label)
    requires Shape(s) && Enabled(o, pinned, s, l) && Advances(l)
    ensures var calls := Step(o, pinned, s, l).calls;
            && l.call < |s.calls| == |calls|
            && StepsLeft(calls[l.call]) < StepsLeft(s.calls[l.call])
            && forall u :: 0 <= u < |calls| && u != l.call ==> calls[u] == s.calls[u]
  {
    if l.Finish? {
      FinishStepIsFinishFetch(o, s, l.call, l.now, l.scan);
    }
  }

  // ---- Every pending flight has a leader at work ----

  ghost predicate Led(calls: seq<Call>, flights: seq<Flight>, f: nat)
    requires f < |flights|
  {
    flights[f].outcome.Pending? ==>
      var t := flights[f].leader;
      t < |calls| && Leads(calls[t]) && calls[t].flight == f
  }

  ghost predicate AllLed(calls: seq<Call>, flights: seq<Flight>)
  {
    forall f {:trigger Led(calls, flights, f)} :: 0 <= f < |flights| ==> Led(calls, flights, f)
  }

  lemma LedMove(calls: seq<Call>, flights: seq<Flight>, t: Token, pc: Call)
    requires AllLed(calls, flights) && t < |calls|
    requires Leads(calls[t]) ==> Leads(pc) && pc.flight == calls[t].flight
    ensures AllLed(calls[t := pc], flights)
  {
    var calls' := calls[t := pc];
    forall f | 0 <= f < |flights|
      ensures Led(calls', flights, f)
    {
      assert Led(calls, flights, f);
    }
  }

  lemma LedBegin(calls: seq<Call>, flights: seq<Flight>, ref: Ref)
    requires AllLed(calls, flights)
    ensures AllLed(calls + [Started(ref)], flights)
  {
    var calls' := calls + [Started(ref)];
    forall f | 0 <= f < |flights|
      ensures Led(calls', flights, f)
    {
      assert Led(calls, flights, f);
    }
  }

  lemma LedLead(calls: seq<Call>, flights: seq<Flight>, t: Token, ref: Ref)
    requires AllLed(calls, flights) && t < |calls| && !Leads(calls[t])
    ensures AllLed(calls[t := Queued(ref, |flights|)], flights + [Flight(ref, t, Pending)])
  {
    var (calls', flights') := (calls[t := Queued(ref, |flights|)], flights + [Flight(ref, t, Pending)]);
    forall f | 0 <= f < |flights'|
      ensures Led(calls', flights', f)
    {
      assert f < |flights| ==> Led(calls, flights, f);
    }
  }

  lemma LedLand(calls: seq<Call>, flights: seq<Flight>, t: Token, f: nat, pc: Call, outcome: Outcome)
    requires AllLed(calls, flights) && t < |calls| && Leads(calls[t]) && calls[t].flight == f < |flights|
    requires !outcome.Pending?
    ensures AllLed(calls[t := pc], flights[f := flights[f].(outcome := outcome)])
  {
    var (calls', flights') := (calls[t := pc], flights[f := flights[f].(outcome := outcome)]);
    forall g | 0 <= g < |flights'|
      ensures Led(calls', flights', g)
    {
      assert Led(calls, flights, g);
    }
  }

  lemma StepKeepsLed(o: Options, pinned: set<Ref>, s: Sys, l: Label)
    requires Shape(s) && Enabled(o, pinned, s, l) && AllLed(s.calls, s.flights)
    ensures AllLed(Step(o, pinned, s, l).calls, Step(o, pinned, s, l).flights)
  {
    var s' := Step(o, pinned, s, l);
    match l
    case Begin(ref) => LedBegin(s.calls, s.flights, ref);
    case Lead(t) => LedLead(s.calls, s.flights, t, s.calls[t].ref);
    case Land(t) =>
      var Landing(ref, f, result) := s.calls[t];
      LedLand(s.calls, s.flights, t, f, s'.calls[t], if result.Refused? then Error else Got(result.id));
    case Finish(t, now, scan) =>
      FinishStepIsFinishFetch(o, s, t, now, scan);
      LedMove(s.calls, s.flights, t, s'.calls[t]);
    case Delete(_) =>
    case _ => LedMove(s.calls, s.flights, l.call, s'.calls[l.call]);
  }

  lemma {:induction false} RunLed(o: Options, pinned: set<Ref>, trace: seq<Sys>, i: nat)
    requires ValidOptions(o, pinned) && Run(o, pinned, trace) && i < |trace|
    ensures AllLed(trace[i].calls, trace[i].flights)
  {
    if i > 0 {
      RunLed(o, pinned, trace, i - 1);
      RunInv(o, pinned, trace, i - 1);
      var l :| Enabled(o, pinned, trace[i - 1], l) && trace[i] == Step(o, pinned, trace[i - 1], l);
      StepKeepsLed(o, pinned, trace[i - 1], l);
    }
  }

  // ---- Some call can go on ----

  /** An eviction scan always has a result. */
  lemma ScanExists(c: Cache, pinned: set<Ref>) returns (scan: Scan)
    requires ValidIds(c)
    ensures ScanResult(c, pinned, scan)
  {
    var refs := set r | r in c.roots && Evictable(c, pinned, r);
    if refs == {} {
      assert forall r :: r in c.roots && Evictable(c, pinned, r) ==> r in refs;
      scan := Nothing;
    } else {
      var v := First(c, refs);
      assert forall r :: r in c.roots && Evictable(c, pinned, r) ==> r in refs;
      scan := Victim(v);
    }
  }

  lemma {:induction false} First(c: Cache, refs: set<Ref>) returns (v: Ref)
    requires ValidIds(c) && refs != {} && forall r :: r in refs ==> r in c.roots
    ensures v in refs && forall r :: r in refs && r != v ==> Before(c, v, r)
  {
    v :| v in refs;
    if refs != {v} {
      assert refs - {v} != {};
      var w := First(c, refs - {v});
      Text.LessTrichotomy(v, w);
      if Before(c, w, v) {
        v := w;
      } else {
        forall r | r in refs && r != v
          ensures Before(c, v, r)
        {
          BeforeTransitive(c, v, w, r);
        }
      }
    }
  }

  /** A call past the queue can always go on. */
  lemma FetcherGoesOn(o: Options, pinned: set<Ref>, s: Sys, t: Token) returns (l: Label)
    requires Inv(o, s) && t < |s.calls| && (InFetch(s.calls[t]) || s.calls[t].Landing?)
    ensures Advances(l) && Enabled(o, pinned, s, l)
  {
    if s.calls[t].Fetching? {
      l := MaterializeErr(t);
    } else if s.calls[t].Landing? {
      l := Land(t);
    } else {
      var scan := ScanExists(s.cache, pinned);
      l := Finish(t, s.clock, scan);
    }
    ReadyIsEnabled(o, pinned, s, l);
  }

  /** A queued call finds a slot, or those that have them go on. */
  lemma LeaderGoesOn(o: Options, pinned: set<Ref>, s: Sys, t: Token) returns (l: Label)
    requires ValidOptions(o, pinned) && Inv(o, s) && t < |s.calls| && Leads(s.calls[t])
    ensures Advances(l) && Enabled(o, pinned, s, l)
  {
    if !s.calls[t].Queued? {
      l := FetcherGoesOn(o, pinned, s, t);
    } else if |SlotHolders(s.calls)| < o.maxConcurrentFetches {
      l := TakeSlot(t);
    } else {
      assert SlotHolders(s.calls) != {};
      var u :| u in SlotHolders(s.calls);
      l := FetcherGoesOn(o, pinned, s, u);
    }
  }

  /** In every reachable state with an unfinished call, some call can take a step
      of Acquire, whatever the holders of leases and the deletions do. */
  lemma NeverStuck(o: Options, pinned: set<Ref>, trace: seq<Sys>, i: nat, t: Token) returns (l: Label)
    requires ValidOptions(o, pinned) && Run(o, pinned, trace) && i < |trace|
    requires t < |trace[i].calls| && Unfinished(trace[i].calls[t])
    ensures Shape(trace[i]) && Advances(l) && Enabled(o, pinned, trace[i], l)
  {
    RunInv(o, pinned, trace, i);
    RunLed(o, pinned, trace, i);
    var s := trace[i];
    var pc := s.calls[t];
    if Leads(pc) {
      l := LeaderGoesOn(o, pinned, s, t);
    } else if pc.Joined? && s.flights[pc.flight].outcome.Pending? {
      assert Led(s.calls, s.flights, pc.flight);
      l := LeaderGoesOn(o, pinned, s, s.flights[pc.flight].leader);
    } else {
      l := match pc
        case Started(_) => Lookup(t, s.clock)
        case Missed(ref) => if ref in s.group then Join(t) else Lead(t)
        case Joined(_, _) => Deliver(t)
        case _ => Attach(t, s.clock);
      ReadyIsEnabled(o, pinned, s, l);
    }
  }
}
