/**
 * The rate-limited request queue of dep/dpp/queues.cpp as a state machine.
 *
 * Any number of threads post requests; a fixed pool of workers runs them; one
 * thread calls the completion handlers. A step is what one thread does between
 * two moments at which another can be seen to act, and any thread may move next.
 */
module QueueModel {
  import opened Bytes

  type Endpoint = seq<Byte>

  /** A posted http_request object; id tells apart two requests to one endpoint. */
  datatype Request = Request(endpoint: Endpoint, id: nat)

  /** What the worker keeps of a response. */
  datatype Response = Response(remaining: nat, resetAfter: nat, retryAfter: nat, global: bool)

  datatype Bucket = Bucket(remaining: nat, resetAfter: nat, retryAfter: nat, timestamp: nat)
  {
    function Wait(): nat
    {
      if retryAfter != 0 then retryAfter else resetAfter
    }

    /** May a request to this bucket's endpoint go out now? The sum is a uint64_t. */
    predicate Open(now: nat)
    {
      remaining >= 1 || now > (timestamp + Wait()) % TWO_64
    }
  }

  /** Where a worker is in its loop. batch holds the endpoints of this pass not yet visited. */
  datatype Phase =
    | AtHead
    | Scanning(batch: map<Endpoint, seq<Request>>)
    | Visiting(batch: map<Endpoint, seq<Request>>, ep: Endpoint, todo: seq<Request>)
    | Cleared(batch: map<Endpoint, seq<Request>>, ep: Endpoint, todo: seq<Request>)
    | Running(batch: map<Endpoint, seq<Request>>, ep: Endpoint, todo: seq<Request>, start: nat)
    | Pushing(batch: map<Endpoint, seq<Request>>, ep: Endpoint, todo: seq<Request>)

  datatype Worker = Worker(
    pending: map<Endpoint, seq<Request>>,   // requests_in
    buckets: map<Endpoint, Bucket>,
    phase: Phase)

  /** One call of http_request::run: when it began and the bucket made from its response. */
  datatype Run = Run(req: Request, start: nat, bucket: Bucket)

  /** posted, runs and fired record what has happened; the rest is the program's own state. */
  datatype State = State(
    workers: seq<Worker>,
    completed: set<Request>,
    out: seq<Request>,                      // responses_out
    calling: Option<Request>,               // taken from responses_out by the callback thread
    limited: bool,                          // globally_ratelimited
    now: nat,
    posted: seq<Request>,
    runs: seq<Run>,
    fired: seq<Request>)

  // ------------------------------------------------------------ the hash

  /** A byte as the signed char it is on the platforms this is built for. */
  function Signed(b: Byte): int
  {
    if b < 128 then b else b - 256
  }

  /** The hash of s after h: one multiplication and addition a character, up to the first NUL. */
  function HashFrom(h: nat, s: Endpoint): nat
    decreases |s|
  {
    if s == [] || s[0] == 0 then h else HashFrom((Signed(s[0]) + 31 * h) % TWO_32, s[1..])
  }

  function Hash(s: Endpoint): nat
  {
    HashFrom(17, s)
  }

  /** The worker that serves an endpoint. */
  function Thread(ep: Endpoint, n: nat): (w: nat)
    requires n > 0
    ensures w < n
  {
    Hash(ep) % n
  }

  // ----------------------------------------------------------- the queues

  function Queue(m: map<Endpoint, seq<Request>>, ep: Endpoint): seq<Request>
  {
    if ep in m then m[ep] else []
  }

  /** requests_in[req->endpoint].push_back(req) */
  function Pushed(m: map<Endpoint, seq<Request>>, r: Request): map<Endpoint, seq<Request>>
  {
    m[r.endpoint := Queue(m, r.endpoint) + [r]]
  }

  /** The requests of q that have not completed, in order. */
  function Unrun(q: seq<Request>, completed: set<Request>): seq<Request>
  {
    if q == [] then []
    else if q[0] in completed then Unrun(q[1..], completed)
    else [q[0]] + Unrun(q[1..], completed)
  }

  /** What the erase loop leaves: every endpoint stays, with its requests that have not completed. */
  function Erased(m: map<Endpoint, seq<Request>>, completed: set<Request>): map<Endpoint, seq<Request>>
  {
    map ep | ep in m :: Unrun(m[ep], completed)
  }

  /** The requests of q to one endpoint, in order. */
  function On(ep: Endpoint, q: seq<Request>): seq<Request>
  {
    if q == [] then []
    else (if q[0].endpoint == ep then [q[0]] else []) + On(ep, q[1..])
  }

  // ------------------------------------------------------------ the steps

  datatype Step =
    | Post(r: Request)
    | Copy(w: nat)
    | Visit(w: nat, ep: Endpoint)
    | Check(w: nat)
    | Leave(w: nat)
    | Start(w: nat)
    | Finish(w: nat, response: Response)
    | Push(w: nat)
    | Erase(w: nat)
    | LiftLimit(w: nat)
    | Take
    | Fire
    | Tick

  ghost predicate Init(s: State)
  {
    && |s.workers| > 0
    && (forall i :: 0 <= i < |s.workers| ==> s.workers[i] == Worker(map[], map[], AtHead))
    && s == State(s.workers, {}, [], None, false, s.now, [], [], [])
  }

  /** May step e be taken in s? */
  predicate Enabled(s: State, e: Step)
    requires |s.workers| > 0
  {
    match e
    case Post(r) => r !in s.posted
    case Copy(w) =>
      w < |s.workers| && s.workers[w].phase.AtHead? && !s.limited && s.workers[w].pending != map[]
    case Visit(w, ep) => w < |s.workers| && s.workers[w].phase.Scanning? && ep in s.workers[w].phase.batch
    case Check(w) => w < |s.workers| && s.workers[w].phase.Visiting? && s.workers[w].phase.todo != []
    case Leave(w) => w < |s.workers| && s.workers[w].phase.Visiting? && s.workers[w].phase.todo == []
    case Start(w) => w < |s.workers| && s.workers[w].phase.Cleared?
    case Finish(w, _) => w < |s.workers| && s.workers[w].phase.Running? && s.workers[w].phase.todo != []
    case Push(w) => w < |s.workers| && s.workers[w].phase.Pushing? && s.workers[w].phase.todo != []
    case Erase(w) =>
      w < |s.workers| && s.workers[w].phase.Scanning? && s.workers[w].phase.batch == map[]
    case LiftLimit(w) => w < |s.workers| && s.workers[w].phase.AtHead? && s.limited
    case Take => s.calling.None? && s.out != []
    case Fire => s.calling.Some?
    case Tick => true
  }

  function WithWorker(s: State, w: nat, x: Worker): State
    requires w < |s.workers|
  {
    s.(workers := s.workers[w := x])
  }

  /** The inner loop's decision: go on to run the first request, or give up on the endpoint. */
  function Checked(x: Worker, now: nat): Worker
    requires x.phase.Visiting?
  {
    var p := x.phase;
    if p.ep in x.buckets && !x.buckets[p.ep].Open(now) then x.(phase := Scanning(p.batch))
    else x.(phase := Cleared(p.batch, p.ep, p.todo))
  }

  function Finished(s: State, w: nat, response: Response): State
    requires w < |s.workers| && s.workers[w].phase.Running? && s.workers[w].phase.todo != []
  {
    var x := s.workers[w];
    var p := x.phase;
    var r := p.todo[0];
    var b := Bucket(response.remaining, response.resetAfter, response.retryAfter, s.now);
    WithWorker(s, w, x.(buckets := x.buckets[r.endpoint := b], phase := Pushing(p.batch, p.ep, p.todo)))
      .(completed := s.completed + {r}, limited := response.global, runs := s.runs + [Run(r, p.start, b)])
  }

  /** The state after step e. A clock that jumps is one that ticks several times. */
  function After(s: State, e: Step): (s': State)
    requires |s.workers| > 0 && Enabled(s, e)
    ensures |s'.workers| == |s.workers|
  {
    match e
    case Post(r) =>
      var w := Thread(r.endpoint, |s.workers|);
      WithWorker(s, w, s.workers[w].(pending := Pushed(s.workers[w].pending, r)))
        .(posted := s.posted + [r])
    case Copy(w) => WithWorker(s, w, s.workers[w].(phase := Scanning(s.workers[w].pending)))
    case Visit(w, ep) =>
      var batch := s.workers[w].phase.batch;
      WithWorker(s, w, s.workers[w].(phase := Visiting(batch - {ep}, ep, batch[ep])))
    case Check(w) => WithWorker(s, w, Checked(s.workers[w], s.now))
    case Leave(w) => WithWorker(s, w, s.workers[w].(phase := Scanning(s.workers[w].phase.batch)))
    case Start(w) =>
      var p := s.workers[w].phase;
      WithWorker(s, w, s.workers[w].(phase := Running(p.batch, p.ep, p.todo, s.now)))
    case Finish(w, response) => Finished(s, w, response)
    case Push(w) =>
      var p := s.workers[w].phase;
      WithWorker(s, w, s.workers[w].(phase := Visiting(p.batch, p.ep, p.todo[1..])))
        .(out := s.out + [p.todo[0]])
    case Erase(w) =>
      WithWorker(s, w, s.workers[w].(pending := Erased(s.workers[w].pending, s.completed), phase := AtHead))
    case LiftLimit(_) => s.(limited := false)
    case Take => s.(calling := Some(s.out[0]), out := s.out[1..])
    case Fire =>
      if s.calling.value in s.completed
      then s.(calling := None, fired := s.fired + [s.calling.value])
      else s.(calling := None)
    case Tick => s.(now := s.now + 1)
  }

  ghost predicate Next(s: State, s': State)
  {
    |s.workers| > 0 && exists e :: Enabled(s, e) && s' == After(s, e)
  }

  /** A run of the program: any interleaving, of any length. */
  ghost predicate Behaviour(states: seq<State>)
  {
    && states != []
    && Init(states[0])
    && forall i :: 0 <= i < |states| - 1 ==> Next(states[i], states[i + 1])
  }
}
