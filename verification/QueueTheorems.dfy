/**
 * What the request queue promises over every interleaving: requests to one
 * endpoint are run once each, in the order they were posted, and called back
 * once each, in that order, after they ran; none is lost on the way; and an
 * exhausted endpoint is left alone until its wait is over.
 */
module QueueTheorems {
  import opened Bytes
  import opened QueueModel

  // ------------------------------------------------------------- sequences

  lemma {:induction false} OnAppend(ep: Endpoint, a: seq<Request>, b: seq<Request>)
    ensures On(ep, a + b) == On(ep, a) + On(ep, b)
  {
    if a == [] {
      assert a + b == b;
    } else {
      OnAppend(ep, a[1..], b);
      assert (a + b)[1..] == a[1..] + b;
      var head := if a[0].endpoint == ep then [a[0]] else [];
      assert head + (On(ep, a[1..]) + On(ep, b)) == head + On(ep, a[1..]) + On(ep, b);
    }
  }

  lemma {:induction false} OnMember(ep: Endpoint, q: seq<Request>, r: Request)
    ensures r in On(ep, q) <==> r in q && r.endpoint == ep
  {
    if q != [] { OnMember(ep, q[1..], r); }
  }

  lemma {:induction false} OnSelf(ep: Endpoint, q: seq<Request>)
    requires forall r :: r in q ==> r.endpoint == ep
    ensures On(ep, q) == q
  {
    if q != [] { OnSelf(ep, q[1..]); }
  }

  lemma {:induction false} UnrunAppend(a: seq<Request>, b: seq<Request>, done: set<Request>)
    ensures Unrun(a + b, done) == Unrun(a, done) + Unrun(b, done)
  {
    if a == [] {
      assert a + b == b;
    } else {
      UnrunAppend(a[1..], b, done);
      assert (a + b)[1..] == a[1..] + b;
      assert [a[0]] + (Unrun(a[1..], done) + Unrun(b, done)) == [a[0]] + Unrun(a[1..], done) + Unrun(b, done);
    }
  }

  lemma {:induction false} UnrunMember(q: seq<Request>, done: set<Request>, r: Request)
    ensures r in Unrun(q, done) <==> r in q && r !in done
  {
    if q != [] { UnrunMember(q[1..], done, r); }
  }

  /** Completing a request that is not in the queue changes nothing in it. */
  lemma {:induction false} UnrunOther(q: seq<Request>, done: set<Request>, r: Request)
    requires r !in q
    ensures Unrun(q, done + {r}) == Unrun(q, done)
  {
    if q != [] { UnrunOther(q[1..], done, r); }
  }

  ghost predicate Distinct<T>(q: seq<T>)
  {
    forall i, j :: 0 <= i < j < |q| ==> q[i] != q[j]
  }

  /** Completing the first request that has not run takes it off the front. */
  lemma {:induction false} UnrunFirst(q: seq<Request>, done: set<Request>)
    requires Distinct(q) && Unrun(q, done) != []
    ensures Unrun(q, done + {Unrun(q, done)[0]}) == Unrun(q, done)[1..]
  {
    var r := Unrun(q, done)[0];
    if q[0] in done {
      UnrunFirst(q[1..], done);
    } else {
      UnrunOther(q[1..], done, r);
    }
  }

  lemma {:induction false} UnrunTwice(q: seq<Request>, done: set<Request>)
    ensures Unrun(Unrun(q, done), done) == Unrun(q, done)
  {
    if q != [] { UnrunTwice(q[1..], done); }
  }

  /** A request that occurs twice occurs twice on its endpoint. */
  lemma RepeatOn(q: seq<Request>, i: nat, j: nat)
    requires i < j < |q| && q[i] == q[j]
    ensures !Distinct(On(q[i].endpoint, q))
  {
    var ep := q[i].endpoint;
    var a, b := q[..i + 1], q[i + 1..];
    assert q == a + b;
    OnAppend(ep, a, b);
    assert a[i] == q[i] && b[j - i - 1] == q[j];
    OnMember(ep, a, q[i]);
    OnMember(ep, b, q[i]);
    var x :| 0 <= x < |On(ep, a)| && On(ep, a)[x] == q[i];
    var y :| 0 <= y < |On(ep, b)| && On(ep, b)[y] == q[i];
    assert On(ep, q)[x] == On(ep, q)[|On(ep, a)| + y];
  }

  /** No repeats on any one endpoint, no repeats at all. */
  lemma DistinctByEndpoint(q: seq<Request>)
    requires forall ep :: Distinct(On(ep, q))
    ensures Distinct(q)
  {
    forall i, j | 0 <= i < j < |q|
      ensures q[i] != q[j]
    {
      if q[i] == q[j] { RepeatOn(q, i, j); }
    }
  }

  lemma {:induction false} OnDistinct(ep: Endpoint, q: seq<Request>)
    requires Distinct(q)
    ensures Distinct(On(ep, q))
  {
    if q != [] {
      OnDistinct(ep, q[1..]);
      OnMember(ep, q[1..], q[0]);
    }
  }

  // ------------------------------------------------------- what stays true

  /** The requests that ran, in order. */
  function Ran(runs: seq<Run>): seq<Request>
  {
    if runs == [] then [] else Ran(runs[..|runs| - 1]) + [runs[|runs| - 1].req]
  }

  /** The bucket made by the last run on ep. */
  function LastBucket(ep: Endpoint, runs: seq<Run>): Option<Bucket>
  {
    if runs == [] then None
    else
      var last := runs[|runs| - 1];
      if last.req.endpoint == ep then Some(last.bucket) else LastBucket(ep, runs[..|runs| - 1])
  }

  /** Every run on ep began when the bucket of the run before it on ep was open. */
  ghost predicate Spaced(ep: Endpoint, runs: seq<Run>)
  {
    runs == [] ||
    (var last, before := runs[|runs| - 1], runs[..|runs| - 1];
     && Spaced(ep, before)
     && (last.req.endpoint == ep && LastBucket(ep, before).Some? ==>
           LastBucket(ep, before).value.Open(last.start)))
  }

  function Called(s: State): seq<Request>
  {
    if s.calling.Some? then [s.calling.value] else []
  }

  /** The request a worker has run and not yet put on the response queue. */
  function Unpushed(x: Worker): seq<Request>
  {
    if x.phase.Pushing? && x.phase.todo != [] then [x.phase.todo[0]] else []
  }

  /** The requests to ep that have run, in the order of the stages they have reached. */
  function Served(s: State, ep: Endpoint): seq<Request>
    requires |s.workers| > 0
  {
    On(ep, s.fired) + On(ep, Called(s)) + On(ep, s.out) + On(ep, Unpushed(s.workers[Thread(ep, |s.workers|)]))
  }

  function Waiting(s: State, ep: Endpoint): seq<Request>
    requires |s.workers| > 0
  {
    Unrun(Queue(s.workers[Thread(ep, |s.workers|)].pending, ep), s.completed)
  }

  /** Every queue of worker w holds requests to its own endpoint, one that w serves. */
  ghost predicate Routed(m: map<Endpoint, seq<Request>>, w: nat, n: nat)
    requires n > 0
  {
    forall ep :: ep in m ==> Thread(ep, n) == w && forall r :: r in m[ep] ==> r.endpoint == ep
  }

  /** The batch, and the requests of the endpoint being visited, are routed like the queues. */
  ghost predicate PhaseRouted(p: Phase, w: nat, n: nat)
    requires n > 0
  {
    && (!p.AtHead? ==> Routed(p.batch, w, n))
    && (!p.AtHead? && !p.Scanning? ==>
          Thread(p.ep, n) == w && forall i :: 0 <= i < |p.todo| ==> p.todo[i].endpoint == p.ep)
    && (p.Cleared? || p.Running? || p.Pushing? ==> p.todo != [])
  }

  ghost predicate AllRouted(s: State)
  {
    && |s.workers| > 0
    && forall w :: 0 <= w < |s.workers| ==>
         Routed(s.workers[w].pending, w, |s.workers|) && PhaseRouted(s.workers[w].phase, w, |s.workers|)
  }

  /** What a worker means to run on ep comes first among what waits there. */
  ghost predicate Ahead(p: Phase, ep: Endpoint, waiting: seq<Request>)
  {
    && (!p.AtHead? && ep in p.batch ==> p.batch[ep] <= waiting)
    && (!p.AtHead? && !p.Scanning? && p.ep == ep ==>
          && ep !in p.batch
          && (if p.Pushing? then p.todo != [] && p.todo[1..] <= waiting else p.todo <= waiting))
  }

  /** The limit on ep: the bucket at hand is the last one, and it lets through what is going through. */
  ghost predicate Limited(x: Worker, ep: Endpoint, runs: seq<Run>, now: nat)
  {
    && LastBucket(ep, runs) == (if ep in x.buckets then Some(x.buckets[ep]) else None)
    && (x.phase.Cleared? && x.phase.ep == ep && ep in x.buckets ==> x.buckets[ep].Open(now))
    && (x.phase.Running? && x.phase.ep == ep && ep in x.buckets ==> x.buckets[ep].Open(x.phase.start))
  }

  /** The invariant, for one endpoint. */
  ghost predicate Inv(s: State, ep: Endpoint)
    requires |s.workers| > 0
  {
    var x := s.workers[Thread(ep, |s.workers|)];
    && Distinct(On(ep, s.posted))
    && On(ep, s.posted) == Served(s, ep) + Waiting(s, ep)
    && On(ep, Ran(s.runs)) == Served(s, ep)
    && (forall r :: r in Served(s, ep) ==> r in s.completed)
    && (forall r :: r in Queue(x.pending, ep) ==> r in On(ep, s.posted))
    && (forall r :: r in s.completed && r.endpoint == ep ==> r in On(ep, s.posted))
    && Distinct(Queue(x.pending, ep))
    && Ahead(x.phase, ep, Waiting(s, ep))
    && (x.phase.AtHead? ==> Waiting(s, ep) == Queue(x.pending, ep))
    && Limited(x, ep, s.runs, s.now)
    && Spaced(ep, s.runs)
  }

  // ------------------------------------------------------- every step keeps it

  lemma RoutingInit(s: State)
    requires Init(s)
    ensures AllRouted(s)
  {
  }

  lemma RoutedErased(m: map<Endpoint, seq<Request>>, done: set<Request>, w: nat, n: nat)
    requires n > 0 && Routed(m, w, n)
    ensures Routed(Erased(m, done), w, n)
  {
    forall ep, r | ep in m && r in Unrun(m[ep], done)
      ensures r.endpoint == ep
    {
      UnrunMember(m[ep], done, r);
    }
  }

  lemma RoutingStep(s: State, e: Step)
    requires AllRouted(s) && Enabled(s, e)
    ensures AllRouted(After(s, e))
  {
    forall w | 0 <= w < |s.workers|
      ensures Routed(After(s, e).workers[w].pending, w, |s.workers|)
      ensures PhaseRouted(After(s, e).workers[w].phase, w, |s.workers|)
    {
      hide Enabled, Routed, PhaseRouted, After;
      QueuesStayRouted(s, e, w);
      PhaseStaysRouted(s, e, w);
    }
  }

  lemma QueuesStayRouted(s: State, e: Step, w: nat)
    requires |s.workers| > 0 && Enabled(s, e) && w < |s.workers|
    requires Routed(s.workers[w].pending, w, |s.workers|)
    ensures Routed(After(s, e).workers[w].pending, w, |s.workers|)
  {
    hide Thread, Unrun, Erased;
    if e.Erase? { RoutedErased(s.workers[w].pending, s.completed, w, |s.workers|); }
  }

  lemma PhaseStaysRouted(s: State, e: Step, w: nat)
    requires |s.workers| > 0 && Enabled(s, e) && w < |s.workers|
    requires Routed(s.workers[w].pending, w, |s.workers|) && PhaseRouted(s.workers[w].phase, w, |s.workers|)
    ensures PhaseRouted(After(s, e).workers[w].phase, w, |s.workers|)
  {
    hide Thread, Unrun, Erased;
  }

  /** A step that posts and runs nothing on ep keeps Inv if it keeps the worker in order. */
  lemma InvFrame(s: State, s': State, ep: Endpoint)
    requires |s.workers| == |s'.workers| > 0 && Inv(s, ep)
    requires On(ep, s'.posted) == On(ep, s.posted) && Served(s', ep) == Served(s, ep)
    requires Waiting(s', ep) == Waiting(s, ep)
    requires On(ep, Ran(s'.runs)) == On(ep, Ran(s.runs)) && Spaced(ep, s'.runs)
    requires s.completed <= s'.completed
    requires forall r :: r in s'.completed && r.endpoint == ep ==> r in s.completed
    requires var t := Thread(ep, |s.workers|);
             var x, x' := s.workers[t], s'.workers[t];
             && Queue(x'.pending, ep) == Queue(x.pending, ep)
             && Ahead(x'.phase, ep, Waiting(s, ep))
             && Limited(x', ep, s'.runs, s'.now)
             && (x'.phase.AtHead? ==> Waiting(s, ep) == Queue(x.pending, ep))
    ensures Inv(s', ep)
  {
    hide Thread, On, Unrun, Ran, Spaced, LastBucket, Served, Waiting, Distinct, Ahead, Limited, Queue;
  }

  /** The parts of Inv that the step lemmas use while Inv itself is hidden. */
  lemma InvParts(s: State, ep: Endpoint)
    requires |s.workers| > 0 && Inv(s, ep)
    ensures Spaced(ep, s.runs)
    ensures forall r :: r in Served(s, ep) ==> r in s.completed
    ensures var x := s.workers[Thread(ep, |s.workers|)];
            && Ahead(x.phase, ep, Waiting(s, ep))
            && Limited(x, ep, s.runs, s.now)
            && Distinct(Queue(x.pending, ep))
            && (x.phase.AtHead? ==> Waiting(s, ep) == Queue(x.pending, ep))
  {
  }

  lemma OnOne(ep: Endpoint, r: Request)
    ensures On(ep, [r]) == if r.endpoint == ep then [r] else []
    ensures On(ep, []) == []
  {
  }

  /** A response taken off the queue is still on its way. */
  lemma ServedTake(s: State, ep: Endpoint)
    requires |s.workers| > 0 && Enabled(s, Take)
    ensures Served(After(s, Take), ep) == Served(s, ep)
  {
    hide On, Thread, Unpushed;
    var r, rest := s.out[0], s.out[1..];
    assert s.out == [r] + rest;
    OnAppend(ep, [r], rest);
    OnOne(ep, r);
    assert On(ep, s.fired) + [] + (On(ep, [r]) + On(ep, rest)) == On(ep, s.fired) + On(ep, [r]) + On(ep, rest);
  }

  lemma InvTake(s: State, ep: Endpoint)
    requires |s.workers| > 0 && Inv(s, ep) && Enabled(s, Take)
    ensures Inv(After(s, Take), ep)
  {
    hide Thread, Unrun, Inv, Distinct, Served, On, Ran, Spaced, LastBucket;
    ServedTake(s, ep);
    InvParts(s, ep);
    InvFrame(s, After(s, Take), ep);
  }

  /** The handler is called, and not passed over: what has run has completed. */
  lemma ServedFire(s: State, ep: Endpoint)
    requires |s.workers| > 0 && Enabled(s, Fire)
    requires forall r :: r in Served(s, ep) ==> r in s.completed
    ensures Served(After(s, Fire), ep) == Served(s, ep)
  {
    hide On, Thread, Unpushed;
    var r := s.calling.value;
    OnAppend(ep, s.fired, [r]);
    OnOne(ep, r);
    if r.endpoint == ep { assert r in On(ep, Called(s)); assert r in Served(s, ep); }
    assert On(ep, s.fired) + On(ep, [r]) + [] == On(ep, s.fired) + On(ep, [r]);
  }

  lemma InvFire(s: State, ep: Endpoint)
    requires |s.workers| > 0 && Inv(s, ep) && Enabled(s, Fire)
    ensures Inv(After(s, Fire), ep)
  {
    hide Thread, Unrun, Inv, Distinct, Served, On, Ran, Spaced, LastBucket;
    InvParts(s, ep);
    ServedFire(s, ep);
    InvFrame(s, After(s, Fire), ep);
  }

  lemma InvTickLift(s: State, e: Step, ep: Endpoint)
    requires |s.workers| > 0 && Inv(s, ep) && Enabled(s, e) && (e.Tick? || e.LiftLimit?)
    ensures Inv(After(s, e), ep)
  {
    hide Thread, Unrun, Inv, Distinct, On;
    InvParts(s, ep);
    InvFrame(s, After(s, e), ep);
  }

  predicate IsPass(e: Step)
  {
    e.Copy? || e.Visit? || e.Check? || e.Leave? || e.Start?
  }

  /** Copy, Visit, Check, Leave and Start move a worker through its pass, and touch nothing else. */
  lemma PassMoves(s: State, e: Step)
    requires |s.workers| > 0 && Enabled(s, e) && IsPass(e)
    ensures e.w < |s.workers|
    ensures var x, x' := s.workers[e.w], After(s, e).workers[e.w];
            && After(s, e) == WithWorker(s, e.w, x')
            && x'.pending == x.pending && x'.buckets == x.buckets
            && Unpushed(x) == Unpushed(x') == [] && !x'.phase.AtHead?
  {
  }

  lemma PassStaysAhead(s: State, e: Step, ep: Endpoint, waiting: seq<Request>)
    requires |s.workers| > 0 && Enabled(s, e) && IsPass(e)
    requires var x := s.workers[e.w];
             Ahead(x.phase, ep, waiting) && (x.phase.AtHead? ==> waiting == Queue(x.pending, ep))
    ensures Ahead(After(s, e).workers[e.w].phase, ep, waiting)
  {
  }

  lemma PassStaysLimited(s: State, e: Step, ep: Endpoint, runs: seq<Run>)
    requires |s.workers| > 0 && Enabled(s, e) && IsPass(e)
    requires Limited(s.workers[e.w], ep, runs, s.now)
    ensures Limited(After(s, e).workers[e.w], ep, runs, s.now)
  {
    hide LastBucket;
  }

  lemma InvPass(s: State, e: Step, ep: Endpoint)
    requires |s.workers| > 0 && Inv(s, ep) && Enabled(s, e)
    requires IsPass(e)
    ensures Inv(After(s, e), ep)
  {
    hide Thread, Unrun, Inv, Distinct, On, Ran, Spaced, LastBucket, After, Enabled;
    hide Ahead, Limited, Unpushed, Queue;
    InvParts(s, ep);
    PassMoves(s, e);
    if e.w == Thread(ep, |s.workers|) {
      PassStaysAhead(s, e, ep, Waiting(s, ep));
      PassStaysLimited(s, e, ep, s.runs);
    }
    InvFrame(s, After(s, e), ep);
  }

  /** The endpoint a worker is visiting is one it serves. */
  lemma PhaseEndpoint(s: State, w: nat)
    requires AllRouted(s) && w < |s.workers|
    requires s.workers[w].phase.Running? || s.workers[w].phase.Pushing?
    ensures var p := s.workers[w].phase;
            p.todo != [] && p.todo[0].endpoint == p.ep && Thread(p.ep, |s.workers|) == w
  {
  }

  lemma ServedPush(s: State, w: nat, ep: Endpoint)
    requires AllRouted(s) && Enabled(s, Push(w))
    ensures Served(After(s, Push(w)), ep) == Served(s, ep)
  {
    PhaseEndpoint(s, w);
    hide On, Thread, AllRouted;
    var s' := After(s, Push(w));
    var r := s.workers[w].phase.todo[0];
    var t := Thread(ep, |s.workers|);
    OnAppend(ep, s.out, [r]);
    OnOne(ep, r);
    assert On(ep, Unpushed(s'.workers[t])) + On(ep, [r]) == On(ep, Unpushed(s.workers[t]));
    hide Unpushed, After, Enabled;
    PushIntoPlace(On(ep, s.fired) + On(ep, Called(s)), On(ep, s.out), On(ep, [r]), On(ep, Unpushed(s'.workers[t])));
  }

  lemma PushIntoPlace(a: seq<Request>, b: seq<Request>, r: seq<Request>, c: seq<Request>)
    requires r == [] || c == []
    ensures a + (b + r) + c == a + b + (c + r)
  {
  }

  lemma InvPush(s: State, w: nat, ep: Endpoint)
    requires AllRouted(s) && Inv(s, ep) && Enabled(s, Push(w))
    ensures Inv(After(s, Push(w)), ep)
  {
    hide Thread, Unrun, Inv, Distinct, Ran, Spaced, LastBucket, Served, On, AllRouted;
    ServedPush(s, w, ep);
    InvParts(s, ep);
    InvFrame(s, After(s, Push(w)), ep);
  }

  lemma RanAppend(runs: seq<Run>, x: Run)
    ensures Ran(runs + [x]) == Ran(runs) + [x.req]
    ensures forall ep :: LastBucket(ep, runs + [x]) ==
                         if x.req.endpoint == ep then Some(x.bucket) else LastBucket(ep, runs)
    ensures forall ep :: Spaced(ep, runs + [x]) <==>
              Spaced(ep, runs) &&
              (x.req.endpoint == ep && LastBucket(ep, runs).Some? ==> LastBucket(ep, runs).value.Open(x.start))
  {
  }

  /** A worker does not run what waits on an endpoint it is not visiting. */
  lemma NotQueuedElsewhere(s: State, w: nat, ep: Endpoint)
    requires AllRouted(s) && w < |s.workers| && s.workers[w].phase.Running? && s.workers[w].phase.ep != ep
    ensures s.workers[w].phase.todo[0] !in Queue(s.workers[Thread(ep, |s.workers|)].pending, ep)
  {
  }

  /** A request to another endpoint runs. */
  lemma InvFinishOther(s: State, w: nat, response: Response, ep: Endpoint)
    requires AllRouted(s) && Inv(s, ep) && Enabled(s, Finish(w, response)) && s.workers[w].phase.ep != ep
    ensures Inv(After(s, Finish(w, response)), ep)
  {
    hide AllRouted, Thread, Unrun, Inv, Distinct, Ran, Spaced, LastBucket, On, Queue;
    InvParts(s, ep);
    var s' := After(s, Finish(w, response));
    PhaseEndpoint(s, w);
    NotQueuedElsewhere(s, w, ep);
    var x := FinishedRun(s, w, response);
    UnrunOther(Queue(s.workers[Thread(ep, |s.workers|)].pending, ep), s.completed, x.req);
    RanAppend(s.runs, x);
    OnAppend(ep, Ran(s.runs), [x.req]);
    OnOne(ep, x.req);
    assert Served(s', ep) == Served(s, ep);
    InvFrame(s, s', ep);
  }

  /** The run that Finish records. */
  function FinishedRun(s: State, w: nat, response: Response): Run
    requires |s.workers| > 0 && Enabled(s, Finish(w, response))
  {
    var p := s.workers[w].phase;
    Run(p.todo[0], p.start, Bucket(response.remaining, response.resetAfter, response.retryAfter, s.now))
  }

  /** The request a worker has run is the first that waited on its endpoint. */
  lemma FinishTakesFirst(s: State, w: nat, response: Response, ep: Endpoint)
    requires AllRouted(s) && Enabled(s, Finish(w, response)) && s.workers[w].phase.ep == ep
    requires s.workers[w].phase.todo <= Waiting(s, ep)
    requires Distinct(Queue(s.workers[w].pending, ep))
    ensures var r := s.workers[w].phase.todo[0];
            && Thread(ep, |s.workers|) == w && r.endpoint == ep
            && Waiting(s, ep) == [r] + Waiting(After(s, Finish(w, response)), ep)
            && r in Queue(s.workers[w].pending, ep)
  {
    PhaseEndpoint(s, w);
    hide On, Thread, AllRouted, Unrun, Distinct, Queue;
    var r := s.workers[w].phase.todo[0];
    var q := Queue(s.workers[w].pending, ep);
    assert Waiting(s, ep)[0] == r;
    UnrunFirst(q, s.completed);
    UnrunMember(q, s.completed, r);
  }

  lemma FinishServes(s: State, w: nat, response: Response, ep: Endpoint)
    requires |s.workers| > 0 && Enabled(s, Finish(w, response))
    requires Thread(ep, |s.workers|) == w && s.workers[w].phase.todo[0].endpoint == ep
    ensures Served(After(s, Finish(w, response)), ep) == Served(s, ep) + [s.workers[w].phase.todo[0]]
  {
    hide On, Thread;
    OnOne(ep, s.workers[w].phase.todo[0]);
  }

  /** The first request that waits on ep moves from waiting to served. */
  lemma FinishMoves(s: State, w: nat, response: Response, ep: Endpoint)
    requires AllRouted(s) && Enabled(s, Finish(w, response)) && s.workers[w].phase.ep == ep
    requires s.workers[w].phase.todo <= Waiting(s, ep)
    requires Distinct(Queue(s.workers[w].pending, ep))
    ensures var s' := After(s, Finish(w, response));
            var r := s.workers[w].phase.todo[0];
            && Thread(ep, |s.workers|) == w && r.endpoint == ep
            && Waiting(s, ep) == [r] + Waiting(s', ep)
            && Served(s', ep) == Served(s, ep) + [r]
            && r in Queue(s.workers[w].pending, ep)
  {
    hide Waiting, Served, After, Queue, Distinct, Thread;
    FinishTakesFirst(s, w, response, ep);
    FinishServes(s, w, response, ep);
  }

  /** Inv, when a request has gone from the front of what waits to the end of what is served. */
  lemma InvServe(s: State, s': State, ep: Endpoint, x: Run)
    requires |s.workers| == |s'.workers| > 0 && Inv(s, ep) && x.req.endpoint == ep
    requires s'.posted == s.posted && s'.runs == s.runs + [x] && s'.completed == s.completed + {x.req}
    requires Waiting(s, ep) == [x.req] + Waiting(s', ep) && Served(s', ep) == Served(s, ep) + [x.req]
    requires LastBucket(ep, s.runs).Some? ==> LastBucket(ep, s.runs).value.Open(x.start)
    requires var t := Thread(ep, |s.workers|);
             var w, w' := s.workers[t], s'.workers[t];
             && Queue(w'.pending, ep) == Queue(w.pending, ep) && x.req in Queue(w.pending, ep)
             && w'.phase.Pushing? && w'.phase.ep == ep
             && Ahead(w'.phase, ep, Waiting(s', ep))
             && ep in w'.buckets && w'.buckets[ep] == x.bucket
    ensures Inv(s', ep)
  {
    hide Thread, Unrun, Distinct, Ran, Spaced, LastBucket, Served, Waiting, On, Ahead, Queue;
    RanAppend(s.runs, x);
    OnAppend(ep, Ran(s.runs), [x.req]);
    OnOne(ep, x.req);
    assert Served(s, ep) + Waiting(s, ep) == Served(s', ep) + Waiting(s', ep);
  }

  lemma InvFinishOwn(s: State, w: nat, response: Response, ep: Endpoint)
    requires AllRouted(s) && Inv(s, ep) && Enabled(s, Finish(w, response)) && s.workers[w].phase.ep == ep
    ensures Inv(After(s, Finish(w, response)), ep)
  {
    hide AllRouted, Inv, Thread, Unrun, Distinct, Ran, Spaced, LastBucket, Served, Waiting, On;
    PhaseEndpoint(s, w);
    InvParts(s, ep);
    FinishMoves(s, w, response, ep);
    InvServe(s, After(s, Finish(w, response)), ep, FinishedRun(s, w, response));
  }

  lemma InvErase(s: State, w: nat, ep: Endpoint)
    requires AllRouted(s) && Inv(s, ep) && Enabled(s, Erase(w))
    ensures Inv(After(s, Erase(w)), ep)
  {
    hide Thread, Unrun, Ran, Spaced, LastBucket, On;
    var s' := After(s, Erase(w));
    if w == Thread(ep, |s.workers|) {
      var q := Queue(s.workers[w].pending, ep);
      assert Unrun([], s.completed) == [] by { UnrunEmpty(s.completed); }
      UnrunTwice(q, s.completed);
      UnrunDistinct(q, s.completed);
      assert Queue(s'.workers[w].pending, ep) == Unrun(q, s.completed);
      assert Served(s', ep) == Served(s, ep);
      forall r | r in Unrun(q, s.completed)
        ensures r in q
      {
        UnrunMember(q, s.completed, r);
      }
    } else {
      InvParts(s, ep);
      InvFrame(s, s', ep);
    }
  }

  lemma UnrunEmpty(done: set<Request>)
    ensures Unrun([], done) == []
  {
  }

  lemma {:induction false} UnrunDistinct(q: seq<Request>, done: set<Request>)
    requires Distinct(q)
    ensures Distinct(Unrun(q, done))
  {
    if q != [] {
      UnrunDistinct(q[1..], done);
      UnrunMember(q[1..], done, q[0]);
    }
  }

  /** A post to another endpoint leaves this one as it is. */
  lemma PostElsewhere(s: State, r: Request, ep: Endpoint)
    requires |s.workers| > 0 && Enabled(s, Post(r)) && r.endpoint != ep
    ensures var s', t := After(s, Post(r)), Thread(ep, |s.workers|);
            && s'.workers[t].phase == s.workers[t].phase && s'.workers[t].buckets == s.workers[t].buckets
            && Queue(s'.workers[t].pending, ep) == Queue(s.workers[t].pending, ep)
            && On(ep, s'.posted) == On(ep, s.posted)
            && s' == s.(workers := s'.workers, posted := s'.posted) && |s'.workers| == |s.workers|
  {
    hide Thread, On;
    OnAppend(ep, s.posted, [r]);
    OnOne(ep, r);
  }

  lemma InvPostOther(s: State, r: Request, ep: Endpoint)
    requires AllRouted(s) && Inv(s, ep) && Enabled(s, Post(r)) && r.endpoint != ep
    ensures Inv(After(s, Post(r)), ep)
  {
    hide Thread, Unrun, Inv, Distinct, On, Ran, Spaced, LastBucket, After, Enabled, Queue, Ahead;
    InvParts(s, ep);
    PostElsewhere(s, r, ep);
    InvFrame(s, After(s, Post(r)), ep);
  }

  lemma PostMoves(s: State, r: Request)
    requires |s.workers| > 0 && Enabled(s, Post(r)) && r !in s.completed
    ensures var s', ep := After(s, Post(r)), r.endpoint;
            && Waiting(s', ep) == Waiting(s, ep) + [r]
            && Served(s', ep) == Served(s, ep)
            && On(ep, s'.posted) == On(ep, s.posted) + [r]
  {
    hide Thread, Unrun, On;
    var ep := r.endpoint;
    var q := Queue(s.workers[Thread(ep, |s.workers|)].pending, ep);
    UnrunAppend(q, [r], s.completed);
    UnrunOne(r, s.completed);
    OnAppend(ep, s.posted, [r]);
    OnOne(ep, r);
  }

  lemma InvPostOwn(s: State, r: Request, ep: Endpoint)
    requires AllRouted(s) && Inv(s, ep) && Enabled(s, Post(r)) && r.endpoint == ep
    ensures Inv(After(s, Post(r)), ep)
  {
    hide AllRouted, Thread, Unrun, Ran, Spaced, LastBucket, Served, Waiting, On;
    OnMember(ep, s.posted, r);
    PostMoves(s, r);
    var s' := After(s, Post(r));
    assert Served(s, ep) + (Waiting(s, ep) + [r]) == Served(s, ep) + Waiting(s, ep) + [r];
  }

  lemma UnrunOne(r: Request, done: set<Request>)
    requires r !in done
    ensures Unrun([r], done) == [r]
  {
  }

  lemma InvInit(s: State, ep: Endpoint)
    requires Init(s)
    ensures Inv(s, ep)
  {
  }

  lemma InvStep(s: State, e: Step, ep: Endpoint)
    requires AllRouted(s) && Inv(s, ep) && Enabled(s, e)
    ensures Inv(After(s, e), ep)
  {
    assert |s.workers| > 0;
    hide Inv, AllRouted, After;
    match e
    case Post(r) => if r.endpoint == ep { InvPostOwn(s, r, ep); } else { InvPostOther(s, r, ep); }
    case Finish(w, response) =>
      if s.workers[w].phase.ep == ep { InvFinishOwn(s, w, response, ep); }
      else { InvFinishOther(s, w, response, ep); }
    case Push(w) => InvPush(s, w, ep);
    case Erase(w) => InvErase(s, w, ep);
    case Take => InvTake(s, ep);
    case Fire => InvFire(s, ep);
    case Tick => InvTickLift(s, e, ep);
    case LiftLimit(_) => InvTickLift(s, e, ep);
    case _ => InvPass(s, e, ep);
  }

  // -------------------------------------------------------------- theorems

  /** What holds at every moment of every run. */
  ghost predicate Safe(s: State)
  {
    && |s.workers| > 0
    // to each endpoint, handlers are called in the order of the runs, and runs come in the order of posting
    && (forall ep :: On(ep, s.fired) <= On(ep, Ran(s.runs)) <= On(ep, s.posted))
    // nothing is run twice, and nothing is called back twice
    && Distinct(Ran(s.runs)) && Distinct(s.fired)
    // nothing posted is lost: it has been served as far as some stage, or it waits
    && (forall ep :: On(ep, s.posted) == Served(s, ep) + Waiting(s, ep))
    // a worker at the head of its loop has nothing queued that has already run
    && (forall w, ep, r ::
          0 <= w < |s.workers| && s.workers[w].phase.AtHead? && r in Queue(s.workers[w].pending, ep)
          ==> r !in s.completed)
    // an exhausted endpoint is left alone until its wait is over
    && (forall ep :: Spaced(ep, s.runs))
  }

  lemma SafeOnEndpoint(s: State, ep: Endpoint)
    requires |s.workers| > 0 && Inv(s, ep)
    ensures On(ep, s.fired) <= On(ep, Ran(s.runs)) <= On(ep, s.posted)
    ensures On(ep, s.posted) == Served(s, ep) + Waiting(s, ep)
    ensures Distinct(On(ep, Ran(s.runs))) && Distinct(On(ep, s.fired))
    ensures Spaced(ep, s.runs)
  {
    hide Thread, On, Unrun, Ran, Spaced, LastBucket, Waiting, Ahead, Limited, Queue;
    var x := s.workers[Thread(ep, |s.workers|)];
    assert On(ep, s.fired) <= Served(s, ep);
    PrefixDistinct(On(ep, Ran(s.runs)), On(ep, s.posted));
    PrefixDistinct(On(ep, s.fired), On(ep, s.posted));
  }

  lemma PrefixDistinct<T>(a: seq<T>, b: seq<T>)
    requires a <= b && Distinct(b)
    ensures Distinct(a)
  {
  }

  lemma HeadQueuesAreUnrun(s: State, w: nat, ep: Endpoint, r: Request)
    requires AllRouted(s) && Inv(s, ep)
    requires w < |s.workers| && s.workers[w].phase.AtHead? && r in Queue(s.workers[w].pending, ep)
    ensures r !in s.completed
  {
    hide Thread, On, Unrun, Ran, Spaced, LastBucket, Served, Distinct, Ahead, Limited, PhaseRouted;
    assert Routed(s.workers[w].pending, w, |s.workers|);
    assert Thread(ep, |s.workers|) == w;
    UnrunMember(Queue(s.workers[w].pending, ep), s.completed, r);
  }

  lemma InvIsSafe(s: State)
    requires |s.workers| > 0 && AllRouted(s) && forall ep :: Inv(s, ep)
    ensures Safe(s)
  {
    hide Thread, On, Unrun, Ran, Spaced, LastBucket, Served, Waiting, Distinct, Inv, AllRouted, Queue;
    forall ep
      ensures On(ep, s.fired) <= On(ep, Ran(s.runs)) <= On(ep, s.posted)
      ensures On(ep, s.posted) == Served(s, ep) + Waiting(s, ep)
      ensures Distinct(On(ep, Ran(s.runs))) && Distinct(On(ep, s.fired))
      ensures Spaced(ep, s.runs)
    {
      SafeOnEndpoint(s, ep);
    }
    DistinctByEndpoint(Ran(s.runs));
    DistinctByEndpoint(s.fired);
    forall w, ep, r | 0 <= w < |s.workers| && s.workers[w].phase.AtHead? && r in Queue(s.workers[w].pending, ep)
      ensures r !in s.completed
    {
      HeadQueuesAreUnrun(s, w, ep, r);
    }
  }

  lemma {:induction false} InvAlways(states: seq<State>, i: nat)
    requires Behaviour(states) && i < |states|
    ensures |states[i].workers| > 0 && AllRouted(states[i]) && forall ep :: Inv(states[i], ep)
  {
    hide Inv, AllRouted, Init, Enabled, After;
    if i == 0 {
      RoutingInit(states[0]);
      forall ep ensures Inv(states[0], ep) { InvInit(states[0], ep); }
    } else {
      InvAlways(states, i - 1);
      assert Next(states[i - 1], states[i - 1 + 1]);
      var e :| Enabled(states[i - 1], e) && states[i] == After(states[i - 1], e);
      RoutingStep(states[i - 1], e);
      forall ep ensures Inv(states[i], ep) { InvStep(states[i - 1], e, ep); }
    }
  }

  /** Every run of the request queue is safe at every moment. */
  lemma QueueIsSafe(states: seq<State>, i: nat)
    requires Behaviour(states) && i < |states|
    ensures Safe(states[i])
  {
    InvAlways(states, i);
    InvIsSafe(states[i]);
  }

  /** When nothing waits and nothing is on its way, every handler has been called, once, in order. */
  lemma QuiescentMeansDelivered(states: seq<State>, i: nat, ep: Endpoint)
    requires Behaviour(states) && i < |states|
    requires |states[i].workers| > 0 && states[i].out == [] && states[i].calling.None?
    requires var x := states[i].workers[Thread(ep, |states[i].workers|)];
             x.phase.AtHead? && Queue(x.pending, ep) == []
    ensures On(ep, states[i].fired) == On(ep, states[i].posted)
  {
    var s := states[i];
    InvAlways(states, i);
    hide Inv, AllRouted, Thread;
    SafeOnEndpoint(s, ep);
    assert Served(s, ep) == On(ep, s.fired) + [] + [] + [];
  }

  /** Spaced, for two runs on an endpoint with none on it between. */
  lemma {:induction false} SpacedMeans(ep: Endpoint, runs: seq<Run>, i: nat, j: nat)
    requires Spaced(ep, runs) && i < j < |runs|
    requires runs[i].req.endpoint == ep && runs[j].req.endpoint == ep
    requires forall k :: i < k < j ==> runs[k].req.endpoint != ep
    ensures runs[i].bucket.Open(runs[j].start)
    decreases |runs|
  {
    var before := runs[..|runs| - 1];
    if j < |runs| - 1 {
      SpacedMeans(ep, before, i, j);
    } else {
      LastBucketIs(ep, before, i);
    }
  }

  lemma {:induction false} LastBucketIs(ep: Endpoint, runs: seq<Run>, i: nat)
    requires i < |runs| && runs[i].req.endpoint == ep
    requires forall k :: i < k < |runs| ==> runs[k].req.endpoint != ep
    ensures LastBucket(ep, runs) == Some(runs[i].bucket)
    decreases |runs|
  {
    if i < |runs| - 1 { LastBucketIs(ep, runs[..|runs| - 1], i); }
  }

  /** How long a response asks to wait: its retry_after, or its reset_after if that is 0. */
  predicate AsksFor(b: Bucket, wait: nat)
  {
    (b.retryAfter > 0 && wait == b.retryAfter) || (b.retryAfter == 0 && wait == b.resetAfter)
  }

  /**
   * The rate limit over whole runs: after a response that leaves nothing
   * remaining, the next run on the endpoint begins after the time of that
   * response plus its wait, as long as that sum is a 64-bit number.
   */
  lemma RateLimitIsKept(states: seq<State>, t: nat, i: nat, j: nat, wait: nat)
    requires Behaviour(states) && t < |states|
    requires i < j < |states[t].runs|
    requires var runs := states[t].runs;
             && runs[i].req.endpoint == runs[j].req.endpoint
             && (forall k :: i < k < j ==> runs[k].req.endpoint != runs[i].req.endpoint)
             && runs[i].bucket.remaining == 0
             && AsksFor(runs[i].bucket, wait)
             && runs[i].bucket.timestamp + wait < TWO_64
    ensures var runs := states[t].runs;
            runs[j].start > runs[i].bucket.timestamp + wait
  {
    QueueIsSafe(states, t);
    SpacedMeans(states[t].runs[i].req.endpoint, states[t].runs, i, j);
  }

  /** The check on an exhausted bucket is the one intended just when its sum does not wrap. */
  lemma WaitIsKeptExactly(b: Bucket, wait: nat)
    requires b.remaining == 0 && AsksFor(b, wait) && b.timestamp < TWO_64 && wait < TWO_64
    ensures (forall now: nat :: now < TWO_64 && b.Open(now) ==> now > b.timestamp + wait)
            <==> b.timestamp + wait < TWO_64
    ensures forall now: nat :: now > b.timestamp + wait ==> b.Open(now)
  {
    var sum := b.timestamp + wait;
    if sum >= TWO_64 {
      assert b.Open(TWO_64 - 1) && !(TWO_64 - 1 > sum);
    }
  }

  /** A wait of 2^64 - 1 seconds is over at once. */
  lemma LongestWaitIsNoWait(now: nat)
    requires 0 < now < TWO_64
    ensures Bucket(0, 0, TWO_64 - 1, now).Open(now)
  {
  }
}
