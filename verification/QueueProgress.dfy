/**
 * That nothing gets stuck: from every state the request queue can be in, there
 * are steps after which every request posted so far has had its handler called.
 */
module QueueProgress {
  import opened Bytes
  import opened QueueModel
  import opened QueueTheorems
  import opened QueueWorker

  /** Some steps lead from s to t, and none of them is a post. */
  ghost predicate Leads(s: State, t: State)
    requires |s.workers| > 0
  {
    exists steps :: Without(steps) && Reached(s, steps) == Some(t)
  }

  ghost predicate Without(steps: seq<Step>)
  {
    forall e :: e in steps ==> !e.Post?
  }

  /** The invariant, for every endpoint. */
  ghost predicate Good(s: State)
  {
    |s.workers| > 0 && AllRouted(s) && forall ep :: Inv(s, ep)
  }

  /** The requests posted and not yet run. */
  ghost function Unserved(s: State): set<Request>
  {
    set r | r in s.posted && r !in s.completed
  }

  lemma LeadsNowhere(s: State)
    requires |s.workers| > 0
    ensures Leads(s, s)
  {
    assert Without([]) && Reached(s, []) == Some(s);
  }

  lemma LeadsTwice(s: State, t: State, u: State)
    requires |s.workers| > 0 && |t.workers| > 0 && Leads(s, t) && Leads(t, u)
    ensures Leads(s, u)
  {
    hide Reached;
    var a :| Without(a) && Reached(s, a) == Some(t);
    var b :| Without(b) && Reached(t, b) == Some(u);
    ReachedOn(s, a, t, b);
    assert Without(a + b);
  }

  lemma LeadsByStep(s: State, e: Step)
    requires |s.workers| > 0 && Enabled(s, e) && !e.Post?
    ensures Leads(s, After(s, e))
  {
    hide Enabled, After;
    assert [e][1..] == [];
    assert Without([e]) && Reached(s, [e]) == Some(After(s, e));
  }

  lemma {:induction false} TicksOnly(n: nat)
    ensures Without(Ticks(n))
  {
    if n > 0 { TicksOnly(n - 1); }
  }

  lemma LeadsInTime(s: State, n: nat)
    requires |s.workers| > 0
    ensures Leads(s, s.(now := s.now + n))
  {
    hide Reached;
    TicksOnly(n);
    TicksPass(s, n);
  }

  /** What a step that is no post keeps. */
  ghost predicate Onward(s: State, t: State)
  {
    t.posted == s.posted && s.completed <= t.completed && |t.workers| == |s.workers|
  }

  lemma StepIsOnward(s: State, e: Step)
    requires |s.workers| > 0 && Enabled(s, e) && !e.Post?
    ensures Onward(s, After(s, e))
  {
  }

  lemma GoodStep(s: State, e: Step)
    requires Good(s) && Enabled(s, e)
    ensures Good(After(s, e))
  {
    hide Inv, AllRouted, Enabled, After;
    RoutingStep(s, e);
    forall ep ensures Inv(After(s, e), ep) { InvStep(s, e, ep); }
  }

  lemma {:induction false} GoodOn(s: State, steps: seq<Step>, t: State)
    requires Good(s) && Without(steps) && Reached(s, steps) == Some(t)
    ensures Good(t) && Onward(s, t)
    decreases |steps|
  {
    hide Good, Enabled, After;
    GoodHasWorkers(s);
    if steps != [] {
      GoodStep(s, steps[0]);
      StepIsOnward(s, steps[0]);
      GoodHasWorkers(After(s, steps[0]));
      GoodOn(After(s, steps[0]), steps[1..], t);
    }
  }

  lemma GoodHasWorkers(s: State)
    requires Good(s)
    ensures |s.workers| > 0
  {
  }

  lemma LeadsToGood(s: State, t: State)
    requires Good(s) && Leads(s, t)
    ensures Good(t) && Onward(s, t) && Unserved(t) <= Unserved(s)
  {
    hide Good, Reached;
    GoodHasWorkers(s);
    var steps :| Without(steps) && Reached(s, steps) == Some(t);
    GoodOn(s, steps, t);
  }

  // ------------------------------------------------------- a worker gets home

  const FREE := Response(1, 0, 0, false)

  /** The next step of a worker that is somewhere in its pass. */
  ghost function NextOf(p: Phase, w: nat): Step
  {
    match p
    case AtHead => Tick
    case Scanning(batch) =>
      if batch == map[] then Erase(w)
      else
        var ep :| ep in batch;
        Visit(w, ep)
    case Visiting(_, _, todo) => if todo == [] then Leave(w) else Check(w)
    case Cleared(_, _, _) => Start(w)
    case Running(_, _, _, _) => Finish(w, FREE)
    case Pushing(_, _, _) => Push(w)
  }

  /** What is left of a pass: endpoints first, then the stages of the one being visited. */
  function Stage(p: Phase): nat
  {
    match p
    case AtHead => 0
    case Scanning(_) => 0
    case Visiting(_, _, todo) => 4 * |todo| + 4
    case Cleared(_, _, todo) => 4 * |todo| + 3
    case Running(_, _, todo, _) => 4 * |todo| + 2
    case Pushing(_, _, todo) => 4 * |todo| + 1
  }

  function Left(p: Phase): nat
  {
    if p.AtHead? then 0 else |p.batch|
  }

  /** Before that and after it the worker is at the same point, or nearer home. */
  ghost predicate Nearer(p: Phase, q: Phase)
  {
    !p.AtHead? && (q.AtHead? || Left(q) < Left(p) || (Left(q) == Left(p) && Stage(q) < Stage(p)))
  }

  lemma HomeStep(s: State, w: nat)
    requires |s.workers| > 0 && w < |s.workers| && !s.workers[w].phase.AtHead?
    requires PhaseRouted(s.workers[w].phase, w, |s.workers|)
    ensures var e := NextOf(s.workers[w].phase, w);
            && Enabled(s, e) && !e.Post?
            && Nearer(s.workers[w].phase, After(s, e).workers[w].phase)
            && After(s, e).workers == s.workers[w := After(s, e).workers[w]]
  {
    hide Enabled, After, PhaseRouted, NextOf, Nearer;
    HomeEnabled(s, w);
    OnlyItsWorker(s, NextOf(s.workers[w].phase, w));
    if s.workers[w].phase.Scanning? {
      ScanNearer(s, w);
    } else {
      VisitNearer(s, w);
    }
  }

  lemma HomeEnabled(s: State, w: nat)
    requires |s.workers| > 0 && w < |s.workers| && !s.workers[w].phase.AtHead?
    requires PhaseRouted(s.workers[w].phase, w, |s.workers|)
    ensures var p := s.workers[w].phase;
            var e := NextOf(p, w);
            && Enabled(s, e) && !e.Post? && !e.Tick? && !e.Take? && !e.Fire? && e.w == w
            && (p.Cleared? || p.Running? || p.Pushing? ==> p.todo != [])
  {
    hide Thread, Routed;
  }

  lemma OnlyItsWorker(s: State, e: Step)
    requires |s.workers| > 0 && Enabled(s, e) && !e.Post? && !e.Tick? && !e.Take? && !e.Fire?
    ensures e.w < |s.workers| && After(s, e).workers == s.workers[e.w := After(s, e).workers[e.w]]
  {
    hide Erased;
  }

  lemma ScanNearer(s: State, w: nat)
    requires |s.workers| > 0 && w < |s.workers| && s.workers[w].phase.Scanning?
    requires Enabled(s, NextOf(s.workers[w].phase, w))
    ensures Nearer(s.workers[w].phase, After(s, NextOf(s.workers[w].phase, w)).workers[w].phase)
  {
    hide Erased;
    var p := s.workers[w].phase;
    if p.batch != map[] {
      var e := NextOf(p, w);
      assert p.batch.Keys != {};
      FewerKeys(p.batch, e.ep);
    }
  }

  lemma VisitNearer(s: State, w: nat)
    requires |s.workers| > 0 && w < |s.workers| && !s.workers[w].phase.Scanning? && !s.workers[w].phase.AtHead?
    requires Enabled(s, NextOf(s.workers[w].phase, w))
    ensures Nearer(s.workers[w].phase, After(s, NextOf(s.workers[w].phase, w)).workers[w].phase)
  {
    hide Erased, Thread, Pushed, Unrun;
  }

  lemma FewerKeys(m: map<Endpoint, seq<Request>>, ep: Endpoint)
    requires ep in m
    ensures |m - {ep}| < |m|
  {
    assert (m - {ep}).Keys == m.Keys - {ep};
  }

  /** Whatever a worker is doing, it can finish its pass. */
  lemma {:induction false} ComesHome(s: State, w: nat) returns (t: State)
    requires Good(s) && |s.workers| > 0 && w < |s.workers|
    ensures |t.workers| == |s.workers| && Leads(s, t) && Good(t) && t.workers[w].phase.AtHead?
    ensures forall v :: 0 <= v < |s.workers| && v != w ==> t.workers[v] == s.workers[v]
    decreases !s.workers[w].phase.AtHead?, Left(s.workers[w].phase), Stage(s.workers[w].phase)
  {
    hide Inv, Enabled, After, Leads, PhaseRouted, Routed, NextOf;
    if s.workers[w].phase.AtHead? {
      LeadsNowhere(s);
      t := s;
    } else {
      var e := NextOf(s.workers[w].phase, w);
      HomeStep(s, w);
      GoodStep(s, e);
      LeadsByStep(s, e);
      t := ComesHome(After(s, e), w);
      LeadsTwice(s, After(s, e), t);
    }
  }

  lemma {:induction false} AllComeHome(s: State, n: nat) returns (t: State)
    requires Good(s) && n <= |s.workers|
    ensures |t.workers| == |s.workers| && |s.workers| > 0 && Leads(s, t) && Good(t)
    ensures forall w :: 0 <= w < n ==> t.workers[w].phase.AtHead?
  {
    hide Good, Leads;
    GoodHasWorkers(s);
    if n == 0 {
      LeadsNowhere(s);
      t := s;
    } else {
      var u := AllComeHome(s, n - 1);
      t := ComesHome(u, n - 1);
      LeadsTwice(s, u, t);
    }
  }

  // ------------------------------------------------ one more request is run

  /** What is not yet run waits in its queue. */
  lemma UnservedWaits(s: State, r: Request)
    requires Good(s) && r in Unserved(s)
    ensures r in Waiting(s, r.endpoint)
  {
    hide Unrun, On, Ran, Spaced, LastBucket, Ahead, Limited;
    var ep := r.endpoint;
    assert Inv(s, ep);
    OnMember(ep, s.posted, r);
  }

  /** A worker at its head can take up an endpoint on which something waits. */
  lemma TakesUp(s: State, r: Request) returns (t: State)
    requires Good(s) && r in Unserved(s)
    requires s.workers[Thread(r.endpoint, |s.workers|)].phase.AtHead?
    ensures |t.workers| == |s.workers| > 0 && Leads(s, t) && Good(t)
    ensures var p := t.workers[Thread(r.endpoint, |s.workers|)].phase;
            p.Visiting? && p.ep == r.endpoint && p.todo != []
  {
    hide Leads, Good;
    GoodHasWorkers(s);
    var w := Thread(r.endpoint, |s.workers|);
    UnservedWaits(s, r);
    WaitsInQueue(s, r);
    var s1 := if s.limited then After(s, LiftLimit(w)) else s;
    if s.limited {
      GoodStep(s, LiftLimit(w));
      LeadsByStep(s, LiftLimit(w));
    } else {
      LeadsNowhere(s);
    }
    var s2 := After(s1, Copy(w));
    GoodStep(s1, Copy(w));
    LeadsByStep(s1, Copy(w));
    LeadsTwice(s, s1, s2);
    t := After(s2, Visit(w, r.endpoint));
    GoodStep(s2, Visit(w, r.endpoint));
    LeadsByStep(s2, Visit(w, r.endpoint));
    LeadsTwice(s, s2, t);
  }

  lemma WaitsInQueue(s: State, r: Request)
    requires |s.workers| > 0 && r in Waiting(s, r.endpoint)
    ensures var pending := s.workers[Thread(r.endpoint, |s.workers|)].pending;
            r.endpoint in pending && pending[r.endpoint] != []
  {
    UnrunMember(Queue(s.workers[Thread(r.endpoint, |s.workers|)].pending, r.endpoint), s.completed, r);
  }

  /** The first request of the endpoint a worker is visiting has not run. */
  lemma FirstIsUnserved(s: State, w: nat)
    requires Good(s) && w < |s.workers| && s.workers[w].phase.Visiting? && s.workers[w].phase.todo != []
    ensures s.workers[w].phase.todo[0] in Unserved(s)
  {
    hide Unrun, On, Ran, Spaced, LastBucket, Limited;
    var ep, r := s.workers[w].phase.ep, s.workers[w].phase.todo[0];
    assert PhaseRouted(s.workers[w].phase, w, |s.workers|);
    assert Inv(s, ep);
    assert Waiting(s, ep)[0] == r;
    UnrunMember(Queue(s.workers[w].pending, ep), s.completed, r);
    OnMember(ep, s.posted, r);
  }

  /** A worker that is about to serve an endpoint can run its first request, if only it waits long enough. */
  lemma RunsOne(s: State, w: nat) returns (t: State)
    requires Good(s) && w < |s.workers| && s.workers[w].phase.Visiting? && s.workers[w].phase.todo != []
    ensures |s.workers| > 0 && Leads(s, t) && Good(t)
    ensures s.workers[w].phase.todo[0] in t.completed
  {
    hide Leads, Good;
    GoodHasWorkers(s);
    var s1 := s.(now := s.now + TWO_64);
    LeadsInTime(s, TWO_64);
    LeadsToGood(s, s1);
    var s2 := OneStep(s, s1, Check(w));
    var s3 := OneStep(s, s2, Start(w));
    t := OneStep(s, s3, Finish(w, FREE));
  }

  lemma OneStep(s: State, t: State, e: Step) returns (u: State)
    requires |s.workers| > 0 && |t.workers| > 0 && Leads(s, t) && Good(t) && Enabled(t, e) && !e.Post?
    ensures u == After(t, e) && Leads(s, u) && Good(u)
  {
    hide Leads, Good, Enabled, After;
    u := After(t, e);
    GoodStep(t, e);
    LeadsByStep(t, e);
    LeadsTwice(s, t, u);
  }

  /** As long as a request has not run, one more can be run. */
  lemma OneMoreRuns(s: State, r: Request) returns (t: State)
    requires Good(s) && r in Unserved(s)
    ensures |s.workers| > 0 && Leads(s, t) && Good(t) && Unserved(t) < Unserved(s)
  {
    hide Leads, Good, Inv;
    GoodHasWorkers(s);
    var w := Thread(r.endpoint, |s.workers|);
    var home := ComesHome(s, w);
    LeadsToGood(s, home);
    if r !in Unserved(home) {
      t := home;
    } else {
      var up := TakesUp(home, r);
      LeadsTwice(s, home, up);
      LeadsToGood(home, up);
      FirstIsUnserved(up, w);
      t := RunsOne(up, w);
      LeadsToGood(up, t);
      LeadsTwice(s, up, t);
      assert up.workers[w].phase.todo[0] !in Unserved(t);
    }
  }

  lemma {:induction false} AllRun(s: State) returns (t: State)
    requires Good(s)
    ensures |s.workers| > 0 && Leads(s, t) && Good(t) && Unserved(t) == {}
    decreases |Unserved(s)|
  {
    hide Leads, Good, Unserved;
    GoodHasWorkers(s);
    if Unserved(s) == {} {
      LeadsNowhere(s);
      t := s;
    } else {
      var r :| r in Unserved(s);
      var u := OneMoreRuns(s, r);
      Smaller(Unserved(u), Unserved(s));
      t := AllRun(u);
      GoodHasWorkers(u);
      LeadsTwice(s, u, t);
    }
  }

  lemma Smaller(a: set<Request>, b: set<Request>)
    requires a < b
    ensures |a| < |b|
  {
    assert b == a + (b - a);
  }

  // ------------------------------------------------- the handlers are called

  lemma {:induction false} AllCalled(s: State) returns (t: State)
    requires Good(s)
    ensures |s.workers| > 0 && Leads(s, t) && Good(t) && t.workers == s.workers && t.out == [] && t.calling.None?
    decreases 2 * |s.out| + if s.calling.Some? then 1 else 0
  {
    hide Leads, Good;
    GoodHasWorkers(s);
    LeadsNowhere(s);
    if s.calling.Some? {
      var u := OneStep(s, s, Fire);
      t := AllCalled(u);
      LeadsTwice(s, u, t);
    } else if s.out != [] {
      var u := OneStep(s, s, Take);
      t := AllCalled(u);
      LeadsTwice(s, u, t);
    } else {
      t := s;
    }
  }

  /** With every worker at its head, nothing unserved, and nothing on its way, everything has been called. */
  lemma AllDelivered(s: State, ep: Endpoint)
    requires Good(s) && Unserved(s) == {} && s.out == [] && s.calling.None?
    requires forall w :: 0 <= w < |s.workers| ==> s.workers[w].phase.AtHead?
    ensures On(ep, s.fired) == On(ep, s.posted)
  {
    hide Unrun, On, Ran, Spaced, LastBucket, Ahead, Limited, Unserved;
    assert Inv(s, ep);
    var waiting := Waiting(s, ep);
    forall r | r in waiting ensures r in Unserved(s) { WaitingIsUnserved(s, ep, r); }
    EmptyOrNot(waiting);
    OnNone(ep);
    assert Served(s, ep) == On(ep, s.fired);
  }

  lemma EmptyOrNot(q: seq<Request>)
    ensures q == [] || q[0] in q
  {
  }

  lemma WaitingIsUnserved(s: State, ep: Endpoint, r: Request)
    requires Good(s) && r in Waiting(s, ep)
    ensures r in Unserved(s)
  {
    hide Unrun, On, Ran, Spaced, LastBucket, Ahead, Limited;
    assert Inv(s, ep);
    UnrunMember(Queue(s.workers[Thread(ep, |s.workers|)].pending, ep), s.completed, r);
    OnMember(ep, s.posted, r);
  }

  lemma OnNone(ep: Endpoint)
    ensures On(ep, []) == []
  {
  }

  /** Steps that are no posts after which the handlers of all that has been posted have been called, in order. */
  ghost predicate CanDeliver(s: State)
    requires |s.workers| > 0
  {
    exists t: State :: Leads(s, t) && t.posted == s.posted && forall ep :: On(ep, t.fired) == On(ep, s.posted)
  }

  /**
   * Nothing ever gets stuck: at every moment of every run there are steps,
   * without a further post, after which every request posted has been run and
   * called back.
   */
  lemma EverythingCanBeDelivered(states: seq<State>, i: nat)
    requires Behaviour(states) && i < |states|
    ensures |states[i].workers| > 0 && CanDeliver(states[i])
  {
    hide Leads, Good, Inv, AllRouted, Unserved;
    var s := states[i];
    InvAlways(states, i);
    assert Good(s) by { GoodMeans(s); }
    var a := AllRun(s);
    LeadsToGood(s, a);
    GoodHasWorkers(a);
    var b := AllComeHome(a, |a.workers|);
    LeadsToGood(a, b);
    var t := AllCalled(b);
    LeadsToGood(b, t);
    LeadsTwice(s, a, b);
    LeadsTwice(s, b, t);
    assert Unserved(t) == {};
    forall ep ensures On(ep, t.fired) == On(ep, s.posted) { AllDelivered(t, ep); }
  }

  lemma GoodMeans(s: State)
    requires |s.workers| > 0 && AllRouted(s) && forall ep :: Inv(s, ep)
    ensures Good(s)
  {
  }
}
