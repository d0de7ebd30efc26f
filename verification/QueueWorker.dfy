/**
 * The parts of dep/dpp/queues.cpp that one thread runs on its own: the hash
 * that picks a worker, posting to a worker, the inner loop over the requests of
 * one endpoint, and the loop that erases what has run. Each is proved to do
 * what QueueModel.dfy takes it to do in its steps.
 */
module QueueWorker {
  import opened Bytes
  import opened QueueModel

  /** hash(): one pass over the characters, up to the first NUL, in 32-bit arithmetic. */
  method HashOf(s: Endpoint) returns (h: nat)
    ensures h == Hash(s)
  {
    h := 17;
    var i := 0;
    while i < |s| && s[i] != 0
      invariant i <= |s|
      invariant HashFrom(h, s[i..]) == Hash(s)
    {
      h := (Signed(s[i]) + 31 * h) % TWO_32;
      assert s[i..][1..] == s[i + 1..];
      i := i + 1;
    }
  }

  function Pow31(k: nat): nat
  {
    if k == 0 then 1 else 31 * Pow31(k - 1)
  }

  /** The signed characters of s, each times a power of 31, the last times 1. */
  function Weighted(s: Endpoint): int
  {
    if s == [] then 0
    else (if s[0] < 128 then s[0] else s[0] - 256) * Pow31(|s| - 1) + Weighted(s[1..])
  }

  lemma ModStep(x: int, p: nat, w: int)
    ensures (x % TWO_32 * p + w) % TWO_32 == (x * p + w) % TWO_32
  {
    var q, r := x / TWO_32, x % TWO_32;
    assert x == q * TWO_32 + r;
    assert x * p == q * p * TWO_32 + r * p;
    MultipleMore(r * p + w, q * p);
  }

  lemma MultipleMore(a: int, k: int)
    ensures (a + k * TWO_32) % TWO_32 == a % TWO_32
  {
  }

  lemma Spread(c: int, h: int, p: int, w: int)
    ensures (c + 31 * h) * p + w == h * (31 * p) + (c * p + w)
  {
  }

  lemma Unhashed(h: nat)
    requires h < TWO_32
    ensures HashFrom(h, []) == (h * Pow31(0) + Weighted([])) % TWO_32
  {
  }

  lemma OneHashed(h: nat, s: Endpoint)
    requires s != [] && s[0] != 0
    ensures HashFrom(h, s) == HashFrom((Signed(s[0]) + 31 * h) % TWO_32, s[1..])
    ensures Pow31(|s|) == 31 * Pow31(|s| - 1)
    ensures Weighted(s) == Signed(s[0]) * Pow31(|s| - 1) + Weighted(s[1..])
  {
  }

  lemma {:induction false} HashFromIs(h: nat, s: Endpoint)
    requires 0 !in s && h < TWO_32
    ensures HashFrom(h, s) == (h * Pow31(|s|) + Weighted(s)) % TWO_32
    decreases |s|
  {
    hide HashFrom, Weighted, Pow31;
    if s == [] {
      Unhashed(h);
    } else {
      var x, p, w := Signed(s[0]) + 31 * h, Pow31(|s| - 1), Weighted(s[1..]);
      OneHashed(h, s);
      HashFromIs(x % TWO_32, s[1..]);
      ModStep(x, p, w);
      Spread(Signed(s[0]), h, p, w);
    }
  }

  lemma {:induction false} HashFromStops(h: nat, s: Endpoint, rest: Endpoint)
    requires 0 !in s
    ensures HashFrom(h, s + [0] + rest) == HashFrom(h, s)
    decreases |s|
  {
    if s != [] {
      assert (s + [0] + rest)[1..] == s[1..] + [0] + rest;
      HashFromStops((Signed(s[0]) + 31 * h) % TWO_32, s[1..], rest);
    }
  }

  /**
   * The hash in closed form, modulo 2^32, of the characters before the first
   * NUL; and the worker that a request to that endpoint is posted to.
   */
  lemma HashIs(s: Endpoint, rest: Endpoint, n: nat)
    requires 0 !in s && n > 0 && (rest == [] || rest[0] == 0)
    ensures Hash(s + rest) == (17 * Pow31(|s|) + Weighted(s)) % 4294967296
    ensures Thread(s + rest, n) == (17 * Pow31(|s|) + Weighted(s)) % 4294967296 % n
  {
    hide HashFrom, Weighted, Pow31;
    HashFromIs(17, s);
    if rest == [] {
      assert s + rest == s;
    } else {
      HashFromStops(17, s, rest[1..]);
      assert s + rest == s + [0] + rest[1..];
    }
  }

  /** A post goes to the end of the queue of its endpoint, at the worker that serves that endpoint, and nowhere else. */
  lemma PostGoesToItsWorker(s: State, r: Request)
    requires |s.workers| > 0 && r !in s.posted
    ensures Enabled(s, Post(r))
    ensures var t, w := After(s, Post(r)), Hash(r.endpoint) % |s.workers|;
            && Queue(t.workers[w].pending, r.endpoint) == Queue(s.workers[w].pending, r.endpoint) + [r]
            && (forall ep :: ep != r.endpoint ==> Queue(t.workers[w].pending, ep) == Queue(s.workers[w].pending, ep))
            && (forall v :: 0 <= v < |s.workers| && v != w ==> t.workers[v] == s.workers[v])
  {
    hide Hash;
  }

  /** The places in the queues that hold a request. */
  ghost function Places(m: map<Endpoint, seq<Request>>): set<(Endpoint, int)>
  {
    set ep, k | ep in m.Keys && 0 <= k < |m[ep]| :: (ep, k)
  }

  lemma FewerPlaces(m: map<Endpoint, seq<Request>>, ep: Endpoint, q: seq<Request>)
    requires ep in m && |q| == |m[ep]| - 1
    ensures Places(m[ep := q]) < Places(m)
  {
    assert (ep, |q|) in Places(m) && (ep, |q|) !in Places(m[ep := q]);
  }

  lemma {:induction false} UnrunShorter(q: seq<Request>, done: set<Request>, i: nat)
    requires i < |q| && q[i] in done
    ensures Unrun(q[..i] + q[i + 1..], done) == Unrun(q, done)
  {
    if i == 0 {
      assert q[..0] + q[1..] == q[1..];
    } else {
      UnrunShorter(q[1..], done, i - 1);
      var r := q[..i] + q[i + 1..];
      assert r[1..] == q[1..][..i - 1] + q[1..][i..];
    }
  }

  lemma {:induction false} UnrunNothing(q: seq<Request>, done: set<Request>)
    requires forall i :: 0 <= i < |q| ==> q[i] !in done
    ensures Unrun(q, done) == q
  {
    if q != [] { UnrunNothing(q[1..], done); }
  }

  function BucketOf(response: Response, now: nat): Bucket
  {
    Bucket(response.remaining, response.resetAfter, response.retryAfter, now)
  }

  /** What a response that came at end makes of the endpoint at a later moment. */
  lemma OpenAfter(r: Response, end: nat, now: nat)
    ensures BucketOf(r, end).Open(now)
            <==> r.remaining > 0 || now > (end + if r.retryAfter > 0 then r.retryAfter else r.resetAfter) % TWO_64
  {
  }

  // ------------------------------------------- one pass, as steps of the model

  /** Where steps lead, if each is enabled when its turn comes. */
  function Reached(s: State, steps: seq<Step>): Option<State>
    requires |s.workers| > 0
    decreases |steps|
  {
    if steps == [] then Some(s)
    else if !Enabled(s, steps[0]) then None
    else Reached(After(s, steps[0]), steps[1..])
  }

  lemma {:induction false} ReachedOn(s: State, a: seq<Step>, t: State, b: seq<Step>)
    requires |s.workers| > 0 && |t.workers| > 0 && Reached(s, a) == Some(t)
    ensures Reached(s, a + b) == Reached(t, b)
    decreases |a|
  {
    hide Enabled, After;
    if a == [] {
      assert a + b == b;
    } else {
      ReachedOn(After(s, a[0]), a[1..], t, b);
      assert (a + b)[0] == a[0] && (a + b)[1..] == a[1..] + b;
    }
  }

  function Ticks(n: nat): seq<Step>
  {
    if n == 0 then [] else [Tick] + Ticks(n - 1)
  }

  lemma {:induction false} TicksPass(s: State, n: nat)
    requires |s.workers| > 0
    ensures Reached(s, Ticks(n)) == Some(s.(now := s.now + n))
    decreases n
  {
    if n > 0 {
      TicksPass(s.(now := s.now + 1), n - 1);
      assert Ticks(n)[1..] == Ticks(n - 1);
    }
  }

  predicate AboutToVisit(s: State, w: nat)
  {
    w < |s.workers| && s.workers[w].phase.Visiting?
  }

  /** The bucket at hand lets the endpoint through. */
  predicate LetsThrough(x: Worker, now: nat)
    requires x.phase.Visiting?
  {
    x.phase.ep in x.buckets ==> x.buckets[x.phase.ep].Open(now)
  }

  /** The state after the first request has been checked, run and pushed. */
  function OneServed(s: State, w: nat, check: nat, end: nat, response: Response): State
    requires AboutToVisit(s, w) && s.workers[w].phase.todo != []
  {
    var x, p := s.workers[w], s.workers[w].phase;
    var r, b := p.todo[0], BucketOf(response, end);
    State(s.workers[w := Worker(x.pending, x.buckets[r.endpoint := b], Visiting(p.batch, p.ep, p.todo[1..]))],
          s.completed + {r}, s.out + [r], s.calling, response.global, end,
          s.posted, s.runs + [Run(r, check, b)], s.fired)
  }

  /** Check and Start at one moment, Finish and Push at another. */
  lemma ServedSteps(s: State, w: nat, check: nat, end: nat, response: Response) returns (steps: seq<Step>)
    requires AboutToVisit(s, w) && s.workers[w].phase.todo != []
    requires s.now <= check <= end && LetsThrough(s.workers[w], check)
    ensures Reached(s, steps) == Some(OneServed(s, w, check, end, response))
  {
    hide Reached, Enabled, After, OneServed, BucketOf;
    var x, p := s.workers[w], s.workers[w].phase;
    var s1 := s.(now := check);
    var s2 := WithWorker(s1, w, x.(phase := Running(p.batch, p.ep, p.todo, check)));
    var s3 := s2.(now := end);
    var first, second := Ticks(check - s.now), Ticks(end - check);
    TicksPass(s, check - s.now);
    CheckedAndStarted(s1, w);
    TicksPass(s2, end - check);
    FinishedAndPushed(s3, w, response);
    ReachedOn(s, first, s1, [Check(w), Start(w)]);
    ReachedOn(s, first + [Check(w), Start(w)], s2, second);
    ReachedOn(s, first + [Check(w), Start(w)] + second, s3, [Finish(w, response), Push(w)]);
    steps := first + [Check(w), Start(w)] + second + [Finish(w, response), Push(w)];
    ServedFromRunning(s, w, check, end, response);
  }

  lemma Overwritten(workers: seq<Worker>, w: nat, x: Worker, y: Worker)
    requires w < |workers|
    ensures workers[w := x][w := y] == workers[w := y]
  {
  }

  lemma TwoSteps(s: State, a: Step, b: Step)
    requires |s.workers| > 0 && Enabled(s, a) && Enabled(After(s, a), b)
    ensures Reached(s, [a, b]) == Some(After(After(s, a), b))
  {
    hide Enabled, After;
    assert [a, b][1..] == [b] && [b][1..] == [];
    assert Reached(After(s, a), [b]) == Reached(After(After(s, a), b), []);
  }

  lemma CheckedAndStarted(s: State, w: nat)
    requires AboutToVisit(s, w) && s.workers[w].phase.todo != [] && LetsThrough(s.workers[w], s.now)
    ensures var x, p := s.workers[w], s.workers[w].phase;
            Reached(s, [Check(w), Start(w)])
            == Some(WithWorker(s, w, x.(phase := Running(p.batch, p.ep, p.todo, s.now))))
  {
    hide Reached;
    TwoSteps(s, Check(w), Start(w));
    var x, p := s.workers[w], s.workers[w].phase;
    Overwritten(s.workers, w, x.(phase := Cleared(p.batch, p.ep, p.todo)),
                x.(phase := Running(p.batch, p.ep, p.todo, s.now)));
  }

  /** The state after a request that is running has finished and its response is pushed. */
  function FinishedState(s: State, w: nat, response: Response): State
    requires w < |s.workers| && s.workers[w].phase.Running? && s.workers[w].phase.todo != []
  {
    var x, p := s.workers[w], s.workers[w].phase;
    var r, b := p.todo[0], BucketOf(response, s.now);
    State(s.workers[w := Worker(x.pending, x.buckets[r.endpoint := b], Visiting(p.batch, p.ep, p.todo[1..]))],
          s.completed + {r}, s.out + [r], s.calling, response.global, s.now,
          s.posted, s.runs + [Run(r, p.start, b)], s.fired)
  }

  lemma FinishedAndPushed(s: State, w: nat, response: Response)
    requires w < |s.workers| && s.workers[w].phase.Running? && s.workers[w].phase.todo != []
    ensures Reached(s, [Finish(w, response), Push(w)]) == Some(FinishedState(s, w, response))
  {
    hide Reached;
    TwoSteps(s, Finish(w, response), Push(w));
    var x, p := s.workers[w], s.workers[w].phase;
    var buckets := x.buckets[p.todo[0].endpoint := BucketOf(response, s.now)];
    Overwritten(s.workers, w, x.(buckets := buckets, phase := Pushing(p.batch, p.ep, p.todo)),
                Worker(x.pending, buckets, Visiting(p.batch, p.ep, p.todo[1..])));
  }

  lemma ServedFromRunning(s: State, w: nat, check: nat, end: nat, response: Response)
    requires AboutToVisit(s, w) && s.workers[w].phase.todo != []
    ensures var x, p := s.workers[w], s.workers[w].phase;
            var running := WithWorker(s, w, x.(phase := Running(p.batch, p.ep, p.todo, check))).(now := end);
            FinishedState(running, w, response) == OneServed(s, w, check, end, response)
  {
  }

  /** The runs of the requests pushed, each with its clock and its bucket. */
  ghost function RunsOf(pushed: seq<Request>, checks: nat -> nat, ends: nat -> nat, responses: nat -> Response): seq<Run>
  {
    if pushed == [] then []
    else
      var n := |pushed| - 1;
      RunsOf(pushed[..n], checks, ends, responses) + [Run(pushed[n], checks(n), BucketOf(responses(n), ends(n)))]
  }

  lemma Onward(reqs: seq<Request>, i: nat)
    requires i < |reqs|
    ensures reqs[i..] != [] && reqs[i..][0] == reqs[i] && reqs[i..][1..] == reqs[i + 1..]
    ensures reqs[..i] + [reqs[i]] == reqs[..i + 1]
  {
  }

  /** What has changed from s to t: worker w has the given buckets and phase, and what it pushed has run. */
  ghost predicate Passed(s: State, t: State, w: nat, buckets: map<Endpoint, Bucket>, phase: Phase,
                         pushed: seq<Request>, limited: Option<bool>,
                         checks: nat -> nat, ends: nat -> nat, responses: nat -> Response)
  {
    && w < |s.workers|
    && t == State(s.workers[w := Worker(s.workers[w].pending, buckets, phase)],
                  s.completed + (set r | r in pushed), s.out + pushed, s.calling,
                  if limited.Some? then limited.value else s.limited, t.now,
                  s.posted, s.runs + RunsOf(pushed, checks, ends, responses), s.fired)
  }

  lemma PassStarts(s: State, w: nat, checks: nat -> nat, ends: nat -> nat, responses: nat -> Response)
    requires w < |s.workers|
    ensures Reached(s, []) == Some(s)
    ensures Passed(s, s, w, s.workers[w].buckets, s.workers[w].phase, [], None, checks, ends, responses)
  {
    var x := s.workers[w];
    assert Worker(x.pending, x.buckets, x.phase) == x;
    assert s.workers[w := x] == s.workers && s.out + [] == s.out && s.runs + [] == s.runs;
  }

  lemma PassedOneMore(s: State, t: State, w: nat, buckets: map<Endpoint, Bucket>, phase: Phase,
                      pushed: seq<Request>, limited: Option<bool>,
                      checks: nat -> nat, ends: nat -> nat, responses: nat -> Response)
    requires Passed(s, t, w, buckets, phase, pushed, limited, checks, ends, responses)
    requires phase.Visiting? && phase.todo != []
    ensures var n, r := |pushed|, phase.todo[0];
            Passed(s, OneServed(t, w, checks(n), ends(n), responses(n)), w,
                   buckets[r.endpoint := BucketOf(responses(n), ends(n))],
                   Visiting(phase.batch, phase.ep, phase.todo[1..]),
                   pushed + [r], Some(responses(n).global), checks, ends, responses)
  {
    var n, r := |pushed|, phase.todo[0];
    assert (pushed + [r])[..n] == pushed;
    assert (set q | q in pushed + [r]) == (set q | q in pushed) + {r};
    var run := Run(r, checks(n), BucketOf(responses(n), ends(n)));
    var runs := RunsOf(pushed, checks, ends, responses);
    assert RunsOf(pushed + [r], checks, ends, responses) == runs + [run];
    hide RunsOf;
    assert s.runs + runs + [run] == s.runs + (runs + [run]) && s.out + pushed + [r] == s.out + (pushed + [r]);
  }

  lemma PassGoesOn(s: State, steps: seq<Step>, t: State, w: nat, buckets: map<Endpoint, Bucket>, phase: Phase,
                   pushed: seq<Request>, limited: Option<bool>,
                   checks: nat -> nat, ends: nat -> nat, responses: nat -> Response)
    returns (more: seq<Step>, u: State)
    requires |s.workers| > 0 && Reached(s, steps) == Some(t)
    requires Passed(s, t, w, buckets, phase, pushed, limited, checks, ends, responses)
    requires phase.Visiting? && phase.todo != []
    requires var n := |pushed|;
             t.now <= checks(n) <= ends(n) && (phase.ep in buckets ==> buckets[phase.ep].Open(checks(n)))
    ensures Reached(s, more) == Some(u) && u.now == ends(|pushed|)
    ensures var n, r := |pushed|, phase.todo[0];
            Passed(s, u, w, buckets[r.endpoint := BucketOf(responses(n), ends(n))],
                   Visiting(phase.batch, phase.ep, phase.todo[1..]),
                   pushed + [r], Some(responses(n).global), checks, ends, responses)
  {
    hide Reached, After, Enabled;
    var n := |pushed|;
    PassedOneMore(s, t, w, buckets, phase, pushed, limited, checks, ends, responses);
    var served := ServedSteps(t, w, checks(n), ends(n), responses(n));
    ReachedOn(s, steps, t, served);
    more, u := steps + served, OneServed(t, w, checks(n), ends(n), responses(n));
  }

  /** With nothing left to do, or a bucket that is closed, the worker goes on to the next endpoint. */
  lemma PassEnds(s: State, steps: seq<Step>, t: State, w: nat, buckets: map<Endpoint, Bucket>, phase: Phase,
                 pushed: seq<Request>, limited: Option<bool>,
                 checks: nat -> nat, ends: nat -> nat, responses: nat -> Response)
    returns (more: seq<Step>, u: State)
    requires |s.workers| > 0 && Reached(s, steps) == Some(t)
    requires Passed(s, t, w, buckets, phase, pushed, limited, checks, ends, responses)
    requires phase.Visiting? && t.now <= checks(|pushed|)
    requires phase.todo != [] ==> phase.ep in buckets && !buckets[phase.ep].Open(checks(|pushed|))
    ensures Reached(s, more) == Some(u)
    ensures Passed(s, u, w, buckets, Scanning(phase.batch), pushed, limited, checks, ends, responses)
  {
    var check := checks(|pushed|);
    var t1 := t.(now := check);
    var last := if phase.todo == [] then Leave(w) else Check(w);
    TicksPass(t, check - t.now);
    u := After(t1, last);
    assert Reached(t1, [last]) == Some(u) by { assert [last][1..] == []; }
    hide Reached, After, Enabled;
    var ticks := Ticks(check - t.now);
    ReachedOn(s, steps, t, ticks);
    ReachedOn(s, steps + ticks, t1, [last]);
    more := steps + ticks + [last];
  }

  function AtHand(buckets: map<Endpoint, Bucket>, ep: Endpoint): Option<Bucket>
  {
    if ep in buckets then Some(buckets[ep]) else None
  }

  /** The bucket before request i goes out, when responses come as given. */
  function BucketBefore(first: Option<Bucket>, i: nat, responses: nat -> Response, ends: nat -> nat): Option<Bucket>
  {
    if i > 0 then Some(BucketOf(responses(i - 1), ends(i - 1))) else first
  }

  /** There is no bucket yet, or one that is open. */
  predicate Free(b: Option<Bucket>, now: nat)
  {
    b.Some? ==> b.value.Open(now)
  }

  /**
   * So many requests of ep have run: each found its bucket free, the last left
   * its bucket in place of the one before, and its word on the global limit.
   */
  ghost predicate Serving(was: map<Endpoint, Bucket>, buckets: map<Endpoint, Bucket>, ep: Endpoint, ran: nat,
                          limited: Option<bool>, checks: nat -> nat, ends: nat -> nat, responses: nat -> Response)
  {
    && limited == (if ran == 0 then None else Some(responses(ran - 1).global))
    && buckets == (if ran == 0 then was else was[ep := BucketOf(responses(ran - 1), ends(ran - 1))])
    && forall i :: 0 <= i < ran ==> Free(BucketBefore(AtHand(was, ep), i, responses, ends), checks(i))
  }

  lemma ServingStarts(was: map<Endpoint, Bucket>, ep: Endpoint,
                      checks: nat -> nat, ends: nat -> nat, responses: nat -> Response)
    ensures Serving(was, was, ep, 0, None, checks, ends, responses)
  {
  }

  lemma ServingAt(was: map<Endpoint, Bucket>, buckets: map<Endpoint, Bucket>, ep: Endpoint, ran: nat,
                  limited: Option<bool>, checks: nat -> nat, ends: nat -> nat, responses: nat -> Response)
    requires Serving(was, buckets, ep, ran, limited, checks, ends, responses)
    ensures AtHand(buckets, ep) == BucketBefore(AtHand(was, ep), ran, responses, ends)
    ensures Free(AtHand(buckets, ep), checks(ran)) ==>
              Serving(was, buckets[ep := BucketOf(responses(ran), ends(ran))], ep, ran + 1,
                      Some(responses(ran).global), checks, ends, responses)
  {
  }

  /** One worker: its queues by endpoint, and its buckets. */
  class InThread {
    var requestsIn: map<Endpoint, seq<Request>>
    var buckets: map<Endpoint, Bucket>

    constructor ()
      ensures requestsIn == map[] && buckets == map[]
    {
      requestsIn := map[];
      buckets := map[];
    }

    method PostRequest(r: Request)
      modifies `requestsIn
      ensures requestsIn == Pushed(old(requestsIn), r)
    {
      if r.endpoint !in requestsIn {
        requestsIn := requestsIn[r.endpoint := []];
      }
      requestsIn := requestsIn[r.endpoint := requestsIn[r.endpoint] + [r]];
    }

    /**
     * The inner loop: run the requests of one endpoint, in order, until its
     * bucket says to wait, and put each on the response queue. The clock when
     * request i is checked and when it has run, and its response, are given.
     * The result is how many ran, what was pushed, and the last word on the
     * global limit. From any state s in which worker w is about to do this, the
     * given steps of the model do the same.
     */
    method ServeEndpoint(ep: Endpoint, reqs: seq<Request>, checks: nat -> nat, ends: nat -> nat,
                         responses: nat -> Response, ghost s: State, ghost w: nat)
      returns (ran: nat, pushed: seq<Request>, limited: Option<bool>, ghost steps: seq<Step>)
      requires forall r :: r in reqs ==> r.endpoint == ep
      requires w < |s.workers| && s.workers[w].buckets == buckets
      requires var p := s.workers[w].phase; p.Visiting? && p.ep == ep && p.todo == reqs
      requires s.now <= checks(0) && forall i: nat :: checks(i) <= ends(i) <= checks(i + 1)
      modifies `buckets
      ensures ran <= |reqs| && pushed == reqs[..ran]
      ensures Serving(old(buckets), buckets, ep, ran, limited, checks, ends, responses)
      ensures ran < |reqs| ==> !Free(BucketBefore(AtHand(old(buckets), ep), ran, responses, ends), checks(ran))
      ensures var t := Reached(s, steps);
              t.Some? && Passed(s, t.value, w, buckets, Scanning(s.workers[w].phase.batch), pushed, limited,
                                checks, ends, responses)
    {
      hide After, Enabled, Reached, Passed, OneServed, RunsOf, BucketOf, Bucket.Open, Serving, BucketBefore;
      ran, pushed, limited, steps := 0, [], None, [];
      ghost var t, batch := s, s.workers[w].phase.batch;
      ServingStarts(buckets, ep, checks, ends, responses);
      PassStarts(s, w, checks, ends, responses);
      assert reqs[0..] == reqs && reqs[..0] == [];
      while ran < |reqs|
        invariant ran <= |reqs| && pushed == reqs[..ran]
        invariant Serving(old(buckets), buckets, ep, ran, limited, checks, ends, responses)
        invariant Reached(s, steps) == Some(t) && t.now <= checks(ran)
        invariant Passed(s, t, w, buckets, Visiting(batch, ep, reqs[ran..]), pushed, limited, checks, ends, responses)
      {
        ServingAt(old(buckets), buckets, ep, ran, limited, checks, ends, responses);
        if ep in buckets && !buckets[ep].Open(checks(ran)) { break; }
        Onward(reqs, ran);
        steps, t := PassGoesOn(s, steps, t, w, buckets, Visiting(batch, ep, reqs[ran..]), pushed, limited,
                               checks, ends, responses);
        pushed := pushed + [reqs[ran]];
        buckets := buckets[reqs[ran].endpoint := BucketOf(responses(ran), ends(ran))];
        limited := Some(responses(ran).global);
        ran := ran + 1;
      }
      steps, t := PassEnds(s, steps, t, w, buckets, Visiting(batch, ep, reqs[ran..]), pushed, limited,
                           checks, ends, responses);
    }

    /** Find a request that has completed, in whatever order the endpoints come. */
    method FindCompleted(completed: set<Request>) returns (found: bool, ep: Endpoint, at: nat)
      ensures found ==> ep in requestsIn && at < |requestsIn[ep]| && requestsIn[ep][at] in completed
      ensures !found ==> forall e, i :: e in requestsIn && 0 <= i < |requestsIn[e]| ==>
                           requestsIn[e][i] !in completed
    {
      var left := requestsIn.Keys;
      ep, at := [], 0;
      while left != {}
        invariant left <= requestsIn.Keys
        invariant forall e, i :: e in requestsIn.Keys - left && 0 <= i < |requestsIn[e]| ==>
                    requestsIn[e][i] !in completed
        decreases left
      {
        ep :| ep in left;
        left := left - {ep};
        at := 0;
        while at < |requestsIn[ep]|
          invariant at <= |requestsIn[ep]|
          invariant forall i :: 0 <= i < at ==> requestsIn[ep][i] !in completed
        {
          if requestsIn[ep][at] in completed { return true, ep, at; }
          at := at + 1;
        }
      }
      found := false;
    }

    /** After a pass: erase one completed request and start over, until there is none. */
    method EraseCompleted(completed: set<Request>)
      modifies `requestsIn
      ensures requestsIn == Erased(old(requestsIn), completed)
    {
      var again := true;
      while again
        invariant requestsIn.Keys == old(requestsIn).Keys
        invariant forall e :: e in requestsIn ==>
                    Unrun(requestsIn[e], completed) == Unrun(old(requestsIn)[e], completed)
        invariant !again ==> forall e, i :: e in requestsIn && 0 <= i < |requestsIn[e]| ==>
                    requestsIn[e][i] !in completed
        decreases Places(requestsIn), again
      {
        var found, ep, at := FindCompleted(completed);
        if found {
          var q := requestsIn[ep];
          UnrunShorter(q, completed, at);
          FewerPlaces(requestsIn, ep, q[..at] + q[at + 1..]);
          requestsIn := requestsIn[ep := q[..at] + q[at + 1..]];
        }
        again := found;
      }
      forall e | e in requestsIn
        ensures requestsIn[e] == Unrun(old(requestsIn)[e], completed)
      {
        UnrunNothing(requestsIn[e], completed);
      }
    }
  }
}
