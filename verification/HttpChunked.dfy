/**
 * The body states of https_client::handle_buffer in dep/dpp/httpsclient.cpp:
 * an HTTP/1.1 body in chunks (section 7.1 of RFC 9112), taken apart as it
 * arrives, in whatever pieces the connection delivers it.
 */
module HttpChunked {
  import opened Bytes

  datatype HttpState = ChunkLen | ChunkContent | ChunkTrailer | ChunkLast | Content | Done

  /** What the client keeps between deliveries. */
  datatype Client = Client(
    state: HttpState,
    buffer: seq<Byte>,          // received and not yet used
    body: seq<Byte>,
    chunkSize: nat,
    chunkReceive: nat,          // bytes of the current chunk received so far
    contentLength: nat,
    keepalive: bool)
  {
    function With(b: seq<Byte>): Client
    {
      this.(buffer := b)
    }

    /** A chunk does not run over: content is taken only up to the chunk's size. */
    predicate Valid()
    {
      chunkReceive <= chunkSize || !state.ChunkContent?
    }
  }

  const CR: Byte := 13
  const LF: Byte := 10
  const CRLF: seq<Byte> := [CR, LF]

  // ---------------------------------------------------- std::stoi, base 16

  predicate IsSpace(c: Byte)
  {
    c == 32 || 9 <= c <= 13
  }

  function HexDigit(c: Byte): Option<nat>
  {
    if 48 <= c <= 57 then Some(c - 48)
    else if 65 <= c <= 70 then Some(c - 55)
    else if 97 <= c <= 102 then Some(c - 87)
    else None
  }

  function SkipSpace(s: seq<Byte>): seq<Byte>
  {
    if s != [] && IsSpace(s[0]) then SkipSpace(s[1..]) else s
  }

  /** The value of the hexadecimal digits at the front of s, after those worth v. */
  function HexValue(s: seq<Byte>, v: nat): nat
    decreases |s|
  {
    if s == [] || HexDigit(s[0]).None? then v else HexValue(s[1..], v * 16 + HexDigit(s[0]).value)
  }

  predicate StartsHex(s: seq<Byte>)
  {
    s != [] && HexDigit(s[0]).Some?
  }

  /** std::stoi(s, &index, 16): None when it throws. What follows the digits is not looked at. */
  function StoiHex(s: seq<Byte>): Option<int>
  {
    var s1 := SkipSpace(s);
    var negative := s1 != [] && s1[0] == 45;
    var s2 := if s1 != [] && (s1[0] == 45 || s1[0] == 43) then s1[1..] else s1;
    var s3 := if |s2| >= 3 && s2[0] == 48 && (s2[1] == 120 || s2[1] == 88) && StartsHex(s2[2..])
              then s2[2..] else s2;
    if !StartsHex(s3) then None
    else
      var v: int := if negative then 0 - HexValue(s3, 0) else HexValue(s3, 0);
      if -TWO_31 <= v < TWO_31 then Some(v) else None
  }

  // -------------------------------------------------------------- one step

  /** The place of the first CRLF, or the length of s when there is none. */
  function FindCrlf(s: seq<Byte>): (i: nat)
    ensures i <= |s|
    ensures i < |s| ==> i + 1 < |s| && s[i] == CR && s[i + 1] == LF
  {
    if |s| < 2 then |s|
    else if s[0] == CR && s[1] == LF then 0
    else 1 + FindCrlf(s[1..])
  }

  /** How the loop goes on: round again, or out with true (wait for more) or false (stop reading). */
  datatype Turn = Again | Wait | Stop

  function LenStep(c: Client): (Client, Turn)
  {
    var i := FindCrlf(c.buffer);
    if i == |c.buffer| then (c, Wait)
    else
      var rest := c.buffer[i + 2..];
      match StoiHex(c.buffer[..i])
      case None => (c.(buffer := rest, chunkReceive := 0, keepalive := false), Stop)
      case Some(n) =>
        if n == 0 then (c.(buffer := rest, chunkReceive := 0, chunkSize := 2, state := ChunkLast), Again)
        else (c.(buffer := rest, chunkReceive := 0, chunkSize := n % TWO_64, state := ChunkContent), Again)
  }

  function ContentStep(c: Client): (Client, Turn)
    requires c.chunkReceive <= c.chunkSize
  {
    var n := if c.chunkReceive + |c.buffer| > c.chunkSize then c.chunkSize - c.chunkReceive else |c.buffer|;
    var c' := c.(body := c.body + c.buffer[..n], chunkReceive := c.chunkReceive + n, buffer := c.buffer[n..]);
    if c'.chunkReceive >= c'.chunkSize then (c'.(state := ChunkTrailer), Again) else (c', Wait)
  }

  function TailStep(c: Client): (Client, Turn)
  {
    if |c.buffer| >= 2 && c.buffer[..2] == CRLF then
      if c.state == ChunkLast then (c.(state := Done), Stop)
      else (c.(state := ChunkLen, buffer := c.buffer[2..]), Again)
    else (c, Wait)
  }

  /** One turn of the loop in handle_buffer. */
  function Step(c: Client): (r: (Client, Turn))
    requires c.Valid()
    ensures r.0.Valid()
    ensures r.1.Again? ==>
              || |r.0.buffer| < |c.buffer|
              || (r.0.buffer == c.buffer && c.state.ChunkContent? && !r.0.state.ChunkContent?)
  {
    match c.state
    case ChunkLen => LenStep(c)
    case ChunkContent => ContentStep(c)
    case ChunkTrailer => TailStep(c)
    case ChunkLast => TailStep(c)
    case Content =>
      var c' := c.(body := c.body + c.buffer, buffer := []);
      if |c'.body| >= c'.contentLength then (c'.(state := Done), Stop) else (c', Wait)
    case Done => (c, Stop)
  }

  /** handle_buffer: turn by turn until it waits (true) or stops (false). */
  function Run(c: Client): (r: (Client, bool))
    requires c.Valid()
    ensures r.0.Valid()
    decreases |c.buffer|, if c.state.ChunkContent? then 1 else 0
  {
    match Step(c)
    case (c', Again) => Run(c')
    case (c', Wait) => (c', true)
    case (c', Stop) => (c', false)
  }

  /** The connection appends what it received and calls handle_buffer. */
  function Deliver(c: Client, data: seq<Byte>): (r: (Client, bool))
    requires c.Valid()
    ensures r.0.Valid()
  {
    Run(c.With(c.buffer + data))
  }

  /** The deliveries in turn, until handle_buffer says to stop. */
  function Feed(c: Client, deliveries: seq<seq<Byte>>): (r: (Client, bool))
    requires c.Valid()
    ensures r.0.Valid()
    decreases |deliveries|
  {
    if deliveries == [] then (c, true)
    else
      var (c', go) := Deliver(c, deliveries[0]);
      if go then Feed(c', deliveries[1..]) else (c', false)
  }

  function Concat(parts: seq<seq<Byte>>): seq<Byte>
  {
    if parts == [] then [] else parts[0] + Concat(parts[1..])
  }

  // ------------------------------------------------------------ the client

  class HttpsClient {
    var state: HttpState
    var buffer: seq<Byte>
    var body: seq<Byte>
    var chunkSize: nat
    var chunkReceive: nat
    var contentLength: nat
    var keepalive: bool

    /** The client as it stands when the headers announced a chunked body. */
    constructor (contentLength: nat)
      ensures Value() == Client(ChunkLen, [], [], 0, 0, contentLength, true) && Value().Valid()
    {
      state, buffer, body, chunkSize, chunkReceive := ChunkLen, [], [], 0, 0;
      this.contentLength := contentLength;
      keepalive := true;
    }

    ghost function Value(): Client
      reads this
    {
      Client(state, buffer, body, chunkSize, chunkReceive, contentLength, keepalive)
    }

    /** The first CRLF in the buffer, or its length. */
    method Find() returns (i: nat)
      ensures i == FindCrlf(buffer)
    {
      i := 0;
      while i + 1 < |buffer| && !(buffer[i] == CR && buffer[i + 1] == LF)
        invariant i <= |buffer|
        invariant FindCrlf(buffer) == i + FindCrlf(buffer[i..])
      {
        assert buffer[i..][1..] == buffer[i + 1..];
        i := i + 1;
      }
      if i + 1 >= |buffer| { i := |buffer|; }
    }

    method OnChunkLen() returns (turn: Turn)
      modifies this
      ensures (Value(), turn) == LenStep(old(Value()))
    {
      hide FindCrlf, StoiHex;
      var i := Find();
      if i == |buffer| { return Wait; }
      chunkReceive := 0;
      var line := buffer[..i];
      buffer := buffer[i + 2..];
      var n := StoiHex(line);
      if n.None? {
        keepalive := false;
        return Stop;
      }
      chunkSize := n.value % TWO_64;
      state := ChunkContent;
      if chunkSize == 0 {
        assert n.value == 0 by { StoiHexInRange(line); }
        state := ChunkLast;
        chunkSize := 2;
      }
      turn := Again;
    }

    method OnChunkContent() returns (turn: Turn)
      requires chunkReceive <= chunkSize
      modifies this
      ensures (Value(), turn) == ContentStep(old(Value()))
    {
      var toRead := |buffer|;
      if chunkReceive + |buffer| > chunkSize { toRead := chunkSize - chunkReceive; }
      body := body + buffer[..toRead];
      chunkReceive := chunkReceive + toRead;
      buffer := buffer[toRead..];
      if chunkReceive < chunkSize { return Wait; }
      state := ChunkTrailer;
      turn := Again;
    }

    method OnChunkEnd() returns (turn: Turn)
      modifies this
      ensures (Value(), turn) == TailStep(old(Value()))
    {
      if !(|buffer| >= 2 && buffer[..2] == CRLF) { return Wait; }
      if state == ChunkLast {
        state := Done;
        return Stop;
      }
      state := ChunkLen;
      buffer := buffer[2..];
      turn := Again;
    }

    method OnContent() returns (turn: Turn)
      requires state == Content
      modifies this
      ensures (Value(), turn) == Step(old(Value()))
    {
      body := body + buffer;
      buffer := [];
      if |body| < contentLength { return Wait; }
      state := Done;
      turn := Stop;
    }

    /** The do-while loop: a turn in the current state, for as long as the state changes. */
    method HandleBuffer() returns (more: bool)
      requires Value().Valid()
      modifies this
      ensures Value().Valid()
      ensures (Value(), more) == Run(old(Value()))
    {
      var turn := Again;
      while turn == Again
        invariant Value().Valid()
        invariant turn == Again ==> Run(Value()) == Run(old(Value()))
        invariant turn != Again ==> (Value(), turn == Wait) == Run(old(Value()))
        decreases turn == Again, |buffer|, if state.ChunkContent? then 1 else 0
      {
        ghost var before := Value();
        match state {
          case ChunkLen => turn := OnChunkLen();
          case ChunkContent => turn := OnChunkContent();
          case ChunkTrailer => turn := OnChunkEnd();
          case ChunkLast => turn := OnChunkEnd();
          case Content => turn := OnContent();
          case Done => turn := Stop;
        }
        assert (Value(), turn) == Step(before);
      }
      more := turn == Wait;
    }
  }

  lemma StoiHexInRange(s: seq<Byte>)
    ensures StoiHex(s).Some? ==> -TWO_31 <= StoiHex(s).value < TWO_31
  {
  }
}
