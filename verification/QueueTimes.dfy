/**
 * The rate limit in the words of the responses: when a worker's check lets a
 * request through, told from the steps of the run alone, and how soon after a
 * response that leaves nothing the endpoint is used again.
 */
module QueueTimes {
  import opened Bytes
  import opened QueueModel
  import opened QueueTheorems

  /** A run with the step taken at each moment. */
  ghost predicate Trace(states: seq<State>, steps: seq<Step>)
  {
    && |states| == |steps| + 1
    && Init(states[0])
    && forall i :: 0 <= i < |steps| ==>
         && |states[i].workers| > 0
         && Enabled(states[i], steps[i])
         && states[i + 1] == After(states[i], steps[i])
  }

  /** In step e from s, a request to ep has its response. */
  predicate Answers(s: State, e: Step, ep: Endpoint)
  {
    && e.Finish? && e.w < |s.workers|
    && s.workers[e.w].phase.Running?
    && s.workers[e.w].phase.todo != []
    && s.workers[e.w].phase.todo[0].endpoint == ep
  }

  /** Step e starts to run a request to ep. */
  predicate Begins(s: State, e: Step, ep: Endpoint)
  {
    && e.Start? && e.w < |s.workers|
    && s.workers[e.w].phase.Cleared?
    && s.workers[e.w].phase.todo != []
    && s.workers[e.w].phase.todo[0].endpoint == ep
  }

  /** Step e asks whether a request to ep may go out. */
  predicate Asks(s: State, e: Step, ep: Endpoint)
  {
    && e.Check? && e.w < |s.workers|
    && s.workers[e.w].phase.Visiting?
    && s.workers[e.w].phase.todo != []
    && s.workers[e.w].phase.todo[0].endpoint == ep
  }

  /** A run is a run of steps. */
  lemma {:induction false} TraceOf(states: seq<State>) returns (steps: seq<Step>)
    requires Behaviour(states)
    ensures Trace(states, steps)
  {
    hide Init, Enabled, After;
    steps := [];
    while |steps| < |states| - 1
      invariant |steps| <= |states| - 1
      invariant forall i :: 0 <= i < |steps| ==>
                  && |states[i].workers| > 0
                  && Enabled(states[i], steps[i])
                  && states[i + 1] == After(states[i], steps[i])
    {
      var n := |steps|;
      assert Next(states[n], states[n + 1]);
      var e :| Enabled(states[n], e) && states[n + 1] == After(states[n], e);
      steps := steps + [e];
    }
  }

  lemma TraceIsBehaviour(states: seq<State>, steps: seq<Step>)
    requires Trace(states, steps)
    ensures Behaviour(states)
  {
    hide Init, Enabled, After;
    forall i | 0 <= i < |states| - 1
      ensures Next(states[i], states[i + 1])
    {
      assert Enabled(states[i], steps[i]);
    }
  }

  lemma OtherStepsKeepLast(s: State, e: Step, ep: Endpoint)
    requires |s.workers| > 0 && Enabled(s, e) && !Answers(s, e, ep)
    ensures LastBucket(ep, After(s, e).runs) == LastBucket(ep, s.runs)
  {
    hide LastBucket, Ran, Spaced;
    if e.Finish? { RanAppend(s.runs, FinishedRun(s, e.w, e.response)); }
  }

  /** The bucket made at step a is the one at hand until another response for ep comes. */
  lemma {:induction false} LastSince(states: seq<State>, steps: seq<Step>, ep: Endpoint, a: nat, b: nat)
    requires Trace(states, steps) && a < b < |states| && Answers(states[a], steps[a], ep)
    requires forall k :: a < k < b ==> !Answers(states[k], steps[k], ep)
    ensures var r := steps[a].response;
            LastBucket(ep, states[b].runs)
            == Some(Bucket(r.remaining, r.resetAfter, r.retryAfter, states[a].now))
    decreases b
  {
    hide LastBucket, Ran, Spaced, Init;
    if b == a + 1 {
      RanAppend(states[a].runs, FinishedRun(states[a], steps[a].w, steps[a].response));
    } else {
      LastSince(states, steps, ep, a, b - 1);
      OtherStepsKeepLast(states[b - 1], steps[b - 1], ep);
    }
  }

  lemma {:induction false} NoneSoFar(states: seq<State>, steps: seq<Step>, ep: Endpoint, b: nat)
    requires Trace(states, steps) && b < |states|
    requires forall k :: 0 <= k < b ==> !Answers(states[k], steps[k], ep)
    ensures LastBucket(ep, states[b].runs) == None
  {
    if b > 0 {
      hide LastBucket, Enabled, After, Answers;
      NoneSoFar(states, steps, ep, b - 1);
      OtherStepsKeepLast(states[b - 1], steps[b - 1], ep);
    }
  }

  /** The worker that asks or begins has the last bucket of ep at hand. */
  lemma AtHand(states: seq<State>, steps: seq<Step>, ep: Endpoint, b: nat)
    requires Trace(states, steps) && b < |steps|
    requires Asks(states[b], steps[b], ep) || Begins(states[b], steps[b], ep)
    ensures var x := states[b].workers[steps[b].w];
            && x.phase.ep == ep
            && LastBucket(ep, states[b].runs) == (if ep in x.buckets then Some(x.buckets[ep]) else None)
            && (x.phase.Cleared? && ep in x.buckets ==> x.buckets[ep].Open(states[b].now))
  {
    hide LastBucket, Init, Inv, Behaviour, After, Enabled;
    TraceIsBehaviour(states, steps);
    InvAlways(states, b);
    var s := states[b];
    assert PhaseRouted(s.workers[steps[b].w].phase, steps[b].w, |s.workers|);
    InvParts(s, ep);
  }

  /**
   * Over whole runs: a request goes out only when the last response for its
   * endpoint left something, or later than the time of that response plus its
   * retry_after, or its reset_after if there is no retry_after. The sums are
   * the 64-bit ones of the program.
   */
  lemma RunsKeepTheLimit(states: seq<State>, steps: seq<Step>, ep: Endpoint, a: nat, b: nat)
    requires Trace(states, steps) && a < b < |steps|
    requires Answers(states[a], steps[a], ep) && steps[a].response.remaining == 0
    requires forall k :: a < k < b ==> !Answers(states[k], steps[k], ep)
    requires Begins(states[b], steps[b], ep)
    ensures var at, r := states[a].now, steps[a].response;
            && (r.retryAfter != 0 ==> states[b].now > (at + r.retryAfter) % TWO_64)
            && (r.retryAfter == 0 ==> states[b].now > (at + r.resetAfter) % TWO_64)
            && (r.retryAfter != 0 && at + r.retryAfter < TWO_64 ==> states[b].now > at + r.retryAfter)
            && (r.retryAfter == 0 && at + r.resetAfter < TWO_64 ==> states[b].now > at + r.resetAfter)
  {
    hide LastBucket, Init, After, Enabled, Answers;
    LastSince(states, steps, ep, a, b);
    AtHand(states, steps, ep, b);
  }

  /**
   * Over whole runs, what a check decides: after a response for the endpoint it
   * lets the request through exactly when that response left something or its
   * time is over, and else goes on to another endpoint with the request kept.
   */
  lemma CheckDecidesExactly(states: seq<State>, steps: seq<Step>, ep: Endpoint, a: nat, b: nat)
    requires Trace(states, steps) && a < b < |steps|
    requires Answers(states[a], steps[a], ep)
    requires forall k :: a < k < b ==> !Answers(states[k], steps[k], ep)
    requires Asks(states[b], steps[b], ep)
    ensures var at, r, w := states[a].now, steps[a].response, steps[b].w;
            var p, q := states[b].workers[w].phase, states[b + 1].workers[w].phase;
            && (r.remaining > 0 ==> q == Cleared(p.batch, ep, p.todo))
            && (r.remaining == 0 && r.retryAfter > 0 ==>
                  q == if states[b].now > (at + r.retryAfter) % TWO_64
                        then Cleared(p.batch, ep, p.todo) else Scanning(p.batch))
            && (r.remaining == 0 && r.retryAfter == 0 ==>
                  q == if states[b].now > (at + r.resetAfter) % TWO_64
                        then Cleared(p.batch, ep, p.todo) else Scanning(p.batch))
  {
    hide LastBucket, Init;
    LastSince(states, steps, ep, a, b);
    AtHand(states, steps, ep, b);
  }

  /** The first request to an endpoint is let through. */
  lemma FirstGoesThrough(states: seq<State>, steps: seq<Step>, ep: Endpoint, b: nat)
    requires Trace(states, steps) && b < |steps| && Asks(states[b], steps[b], ep)
    requires forall k :: 0 <= k < b ==> !Answers(states[k], steps[k], ep)
    ensures var p, q := states[b].workers[steps[b].w].phase, states[b + 1].workers[steps[b].w].phase;
            q == Cleared(p.batch, ep, p.todo)
  {
    hide LastBucket, Init;
    NoneSoFar(states, steps, ep, b);
    AtHand(states, steps, ep, b);
  }

  /** Does step e lift the global limit? */
  predicate Lifts(e: Step)
  {
    e.LiftLimit? || (e.Finish? && !e.response.global)
  }

  lemma {:induction false} LimitStays(states: seq<State>, steps: seq<Step>, a: nat, b: nat)
    requires Trace(states, steps) && a < b < |states|
    requires steps[a].Finish? && steps[a].response.global
    requires forall k :: a < k < b ==> !Lifts(steps[k])
    ensures states[b].limited
    decreases b
  {
    hide Init;
    if b > a + 1 { LimitStays(states, steps, a, b - 1); }
  }

  /** After a response that says the limit is global no worker starts a pass until one has lifted the limit. */
  lemma NoPassWhileLimited(states: seq<State>, steps: seq<Step>, a: nat, b: nat)
    requires Trace(states, steps) && a < b < |steps|
    requires steps[a].Finish? && steps[a].response.global && steps[b].Copy?
    ensures exists k :: a < k < b && Lifts(steps[k])
  {
    hide Init;
    if forall k :: a < k < b ==> !Lifts(steps[k]) {
      LimitStays(states, steps, a, b);
    }
  }
}
