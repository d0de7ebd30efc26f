/**
 * Framing in dep/dpp/wsclient.cpp: the header the client writes before its own
 * payloads, and the loop that takes frames off the front of what it received.
 */
module WebSocket {
  import opened Bytes

  const FIN: nat := 128
  const MASK: nat := 128
  const MAGIC_LARGE: Byte := 126
  const MAGIC_HUGE: Byte := 127
  const MAX_SMALL := 125
  const MAX_LARGE := 65535
  const MAX_HEADER_SIZE := 10

  const OP_CONTINUATION := 0
  const OP_TEXT := 1
  const OP_BINARY := 2
  const OP_CLOSE := 8
  const OP_PING := 9
  const OP_PONG := 10

  // ------------------------------------------------------------- outgoing

  /** The length field for n, in its shortest form, with the given mask bit. */
  function LengthField(n: nat, mask: nat): seq<Byte>
    requires mask == 0 || mask == MASK
    requires n < TWO_64
  {
    if n <= MAX_SMALL then [mask + n]
    else if n <= MAX_LARGE then [mask + MAGIC_LARGE] + Be16(n)
    else [mask + MAGIC_HUGE] + Be64(n)
  }

  /** The header fill_header writes: final, masked, with a mask of zeros. */
  function Header(opcode: nat, n: nat): seq<Byte>
    requires opcode < 16 && n < TWO_64
  {
    [FIN + opcode] + LengthField(n, MASK) + [0, 0, 0, 0]
  }

  function HeaderSize(n: nat): nat
  {
    if n <= MAX_SMALL then 6 else if n <= MAX_LARGE then 8 else 14
  }

  /** Byte i of a number, counted from the least significant: (n >> 8 * i) & 0xff. */
  function ByteAt(n: nat, i: nat): Byte
  {
    if i == 0 then n % 256 else ByteAt(n / 256, i - 1)
  }

  lemma Be32Bytes(n: nat)
    ensures Be32(n) == [ByteAt(n, 3), ByteAt(n, 2), ByteAt(n, 1), ByteAt(n, 0)]
  {
    assert n / TWO_16 == n / 256 / 256;
    assert ByteAt(n, 2) == ByteAt(n / 256, 1) == ByteAt(n / 256 / 256, 0);
    assert ByteAt(n, 3) == ByteAt(n / 256, 2) == ByteAt(n / 256 / 256, 1);
  }

  lemma ByteAtHigh(n: nat, i: nat)
    ensures ByteAt(n, i + 4) == ByteAt(n / TWO_32, i)
  {
    assert n / TWO_32 == n / 256 / 256 / 256 / 256;
    assert ByteAt(n, i + 4) == ByteAt(n / 256, i + 3) == ByteAt(n / 256 / 256, i + 2);
    assert ByteAt(n / 256 / 256, i + 2) == ByteAt(n / 256 / 256 / 256, i + 1);
  }

  lemma Be64Bytes(n: nat)
    ensures Be64(n) == [ByteAt(n, 7), ByteAt(n, 6), ByteAt(n, 5), ByteAt(n, 4),
                        ByteAt(n, 3), ByteAt(n, 2), ByteAt(n, 1), ByteAt(n, 0)]
  {
    Be32Bytes(n);
    Be32Bytes(n / TWO_32);
    ByteAtHigh(n, 0);
    ByteAtHigh(n, 1);
    ByteAtHigh(n, 2);
    ByteAtHigh(n, 3);
    hide ByteAt, Be32;
  }

  /** The 64-bit length, most significant byte first, from out[2]. */
  method WriteHuge(out: array<Byte>, n: nat)
    requires out.Length >= 10
    modifies out
    ensures out[2..10] == Be64(n)
    ensures forall k :: 0 <= k < out.Length && !(2 <= k < 10) ==> out[k] == old(out[k])
  {
    var pos, i := 2, 8;
    while i > 0
      invariant 0 <= i <= 8 && pos == 10 - i
      invariant forall k :: 2 <= k < pos ==> out[k] == ByteAt(n, 9 - k)
      invariant forall k :: 0 <= k < out.Length && !(2 <= k < pos) ==> out[k] == old(out[k])
    {
      i := i - 1;
      out[pos] := ByteAt(n, i);
      pos := pos + 1;
    }
    Be64Bytes(n);
    hide ByteAt, Be64;
    assert out[2..10] == Be64(n);
  }

  /** The length field, without the mask bit, from out[1]. */
  method WriteLength(out: array<Byte>, n: nat) returns (pos: nat)
    requires n < TWO_64 && HeaderSize(n) <= out.Length
    modifies out
    ensures pos == HeaderSize(n) - 4 && out[1..pos] == LengthField(n, 0)
    ensures out[0] == old(out[0]) && forall k :: pos <= k < out.Length ==> out[k] == old(out[k])
  {
    if n <= MAX_SMALL {
      out[1] := n;
      pos := 2;
    } else if n <= MAX_LARGE {
      out[1], out[2], out[3] := MAGIC_LARGE, n / 0x100 % 256, n % 256;
      pos := 4;
    } else {
      hide Be64;
      out[1] := MAGIC_HUGE;
      WriteHuge(out, n);
      pos := 10;
      assert out[1..10] == [out[1]] + out[2..10];
    }
  }

  /** fill_header: writes at the front of out, which must have room, and returns how much it wrote. */
  method FillHeader(out: array<Byte>, sendLength: nat, opcode: nat) returns (pos: nat)
    requires opcode < 16 && sendLength < TWO_64 && HeaderSize(sendLength) <= out.Length
    modifies out
    ensures pos == HeaderSize(sendLength) && out[..pos] == Header(opcode, sendLength)
    ensures forall k :: pos <= k < out.Length ==> out[k] == old(out[k])
  {
    hide LengthField;
    out[0] := FIN + opcode;
    pos := WriteLength(out, sendLength);
    MaskBit(sendLength);
    SetMaskBit(out, pos, LengthField(sendLength, 0));
    WriteMask(out, pos);
    pos := pos + 4;
    assert out[..pos] == [out[0]] + out[1..pos - 4] + out[pos - 4..pos];
  }

  /** outbuf[1] |= WS_MASKBIT, on a field that ends at pos. */
  method SetMaskBit(out: array<Byte>, pos: nat, ghost field: seq<Byte>)
    requires 1 < pos <= out.Length && field == out[1..pos] && field[0] < 128
    modifies out
    ensures out[1..pos] == [field[0] + MASK] + field[1..]
    ensures forall k :: 0 <= k < out.Length && k != 1 ==> out[k] == old(out[k])
  {
    assert out[1] == field[0];
    out[1] := out[1] + MASK;
  }

  /** The four zero bytes of the mask. */
  method WriteMask(out: array<Byte>, pos: nat)
    requires pos + 4 <= out.Length
    modifies out
    ensures out[pos..pos + 4] == [0, 0, 0, 0]
    ensures forall k :: 0 <= k < out.Length && !(pos <= k < pos + 4) ==> out[k] == old(out[k])
    ensures out[..pos] == old(out[..pos])
  {
    out[pos], out[pos + 1], out[pos + 2], out[pos + 3] := 0, 0, 0, 0;
  }

  /** The mask bit is the top bit of the first byte of the length field. */
  lemma MaskBit(n: nat)
    requires n < TWO_64
    ensures var field := LengthField(n, 0);
            && field != [] && field[0] < 128
            && LengthField(n, MASK) == [field[0] + MASK] + field[1..]
  {
  }

  // ------------------------------------------------------------- incoming

  /** What a frame is handed on as: data to handle_frame, the rest to handle_ping_pong. */
  datatype Event = Data(payload: seq<Byte>) | PingPong(ping: bool, payload: seq<Byte>)

  /**
   * What parseheader makes of the buffer. Incomplete, Masked and Failed leave
   * the buffer as it is; Masked is the one of these that returns true.
   * TooLong is a length so close to 2^64 that adding the header's size wraps.
   */
  datatype Outcome =
    | Incomplete
    | Masked
    | Failed(code: nat)
    | TooLong
    | Frame(event: Event, size: nat)

  predicate IsFrameOpcode(op: nat)
  {
    op == OP_CONTINUATION || op == OP_TEXT || op == OP_BINARY || op == OP_PING || op == OP_PONG
  }

  function EventOf(op: nat, payload: seq<Byte>): Event
  {
    if op == OP_PING || op == OP_PONG then PingPong(op == OP_PING, payload) else Data(payload)
  }

  /** A frame of n payload bytes behind a header of the given size. */
  function FrameAt(d: seq<Byte>, header: nat, n: nat): Outcome
    requires 0 < header <= |d|
  {
    if header + n >= TWO_64 then TooLong
    else if |d| < header + n then Incomplete
    else Frame(EventOf(d[0] as int % 128, d[header..header + n]), header + n)
  }

  function Parse(d: seq<Byte>): Outcome
  {
    if |d| < 4 then Incomplete
    else
      var op := d[0] as int % 128;
      if IsFrameOpcode(op) then
        if d[1] >= 128 then Masked
        else if d[1] == MAGIC_LARGE then
          if |d| < 8 then Incomplete else FrameAt(d, 4, FromBe16(d[2..4]))
        else if d[1] == MAGIC_HUGE then
          if |d| < 10 then Incomplete else FrameAt(d, 10, FromBe64(d[2..10]))
        else FrameAt(d, 2, d[1])
      else if op == OP_CLOSE then Failed(FromBe16(d[2..4]))
      else Failed(0)
  }

  /** Why the loop in handle_buffer is not taking frames: see Outcome. */
  datatype Status = Waiting | Spinning | Closed(code: nat) | Undefined

  function StatusOf(o: Outcome): Status
    requires !o.Frame?
  {
    match o
    case Incomplete => Waiting
    case Masked => Spinning
    case Failed(code) => Closed(code)
    case TooLong => Undefined
  }

  datatype Drained = Drained(events: seq<Event>, rest: seq<Byte>, status: Status)

  lemma FrameFits(d: seq<Byte>)
    ensures Parse(d).Frame? ==> 2 <= Parse(d).size <= |d|
  {
  }

  /** The frames at the front of the buffer, up to where the loop takes no more. */
  function Drain(d: seq<Byte>): Drained
    decreases |d|
  {
    var o := Parse(d);
    if o.Frame? then
      FrameFits(d);
      var r := Drain(d[o.size..]);
      Drained([o.event] + r.events, r.rest, r.status)
    else Drained([], d, StatusOf(o))
  }

  /** Deliveries in turn, each appended to what the one before left. */
  function Feed(rest: seq<Byte>, deliveries: seq<seq<Byte>>): Drained
    decreases |deliveries|
  {
    if deliveries == [] then Drained([], rest, Waiting)
    else
      var r := Drain(rest + deliveries[0]);
      if r.status.Waiting? then
        var more := Feed(r.rest, deliveries[1..]);
        Drained(r.events + more.events, more.rest, more.status)
      else r
  }

  /** A connected client: its buffer, and what it has handed on. */
  class WebSocketClient {
    var buffer: seq<Byte>
    var events: seq<Event>

    constructor ()
      ensures buffer == [] && events == []
    {
      buffer, events := [], [];
    }

    /** The length of the payload and the size of the header, or None when the header is cut short. */
    method ReadLength() returns (r: Option<(nat, nat)>)
      requires |buffer| >= 4 && buffer[1] < 128
      ensures buffer[1] < MAGIC_LARGE ==> r == Some((2, buffer[1]))
      ensures buffer[1] == MAGIC_LARGE ==>
                r == if |buffer| < 8 then None else Some((4, FromBe16(buffer[2..4])))
      ensures buffer[1] == MAGIC_HUGE ==>
                r == if |buffer| < 10 then None else Some((10, FromBe64(buffer[2..10])))
    {
      var len: nat, start := buffer[1], 2;
      if buffer[1] == MAGIC_LARGE {
        if |buffer| < 8 { return None; }
        len := buffer[2] as int * 256 + buffer[3] as int;
        start := start + 2;
      } else if buffer[1] == MAGIC_HUGE {
        if |buffer| < 10 { return None; }
        len := 0;
        var v := 2;
        ghost var field := buffer[2..10];
        while v < 10
          invariant 2 <= v <= 10
          invariant len == FromBytes(field[..v - 2])
        {
          assert field[..v - 2] + [buffer[v]] == field[..v + 1 - 2];
          FromBytesAppend(field[..v - 2], buffer[v]);
          len := len * 256 + buffer[v] as int;
          v := v + 1;
        }
        assert field[..8] == field;
        FromBytes64(field);
        start := start + 8;
      }
      r := Some((start, len));
    }

    /** parseheader. The outcome says more than the source's result, which is goOn. */
    method ParseHeader() returns (goOn: bool, outcome: Outcome)
      modifies this
      ensures outcome == Parse(old(buffer))
      ensures goOn == (outcome.Masked? || outcome.Frame?)
      ensures if outcome.Frame? then
                2 <= outcome.size <= |old(buffer)| &&
                buffer == old(buffer)[outcome.size..] && events == old(events) + [outcome.event]
              else buffer == old(buffer) && events == old(events)
    {
      if |buffer| < 4 { return false, Incomplete; }
      var op := buffer[0] as int % 128;
      if IsFrameOpcode(op) {
        if buffer[1] >= 128 { return true, Masked; }
        var field := ReadLength();
        if field.None? { return false, Incomplete; }
        var (start, len) := field.value;
        if start + len >= TWO_64 { return false, TooLong; }
        if |buffer| < start + len { return false, Incomplete; }
        var event := EventOf(op, buffer[start..start + len]);
        events := events + [event];
        buffer := buffer[start + len..];
        return true, Frame(event, start + len);
      } else if op == OP_CLOSE {
        return false, Failed(FromBe16(buffer[2..4]));
      } else {
        return false, Failed(0);
      }
    }

    /**
     * handle_buffer when connected: parse until parseheader returns false. On a
     * masked frame the source goes round for ever; here the loop ends and says so.
     */
    method HandleBuffer() returns (status: Status)
      modifies this
      ensures var d := Drain(old(buffer));
              status == d.status && buffer == d.rest && events == old(events) + d.events
    {
      hide Parse;
      ghost var taken: seq<Event> := [];
      while true
        invariant events == old(events) + taken
        invariant var d, r := Drain(old(buffer)), Drain(buffer);
                  d == Drained(taken + r.events, r.rest, r.status)
        decreases |buffer|
      {
        var goOn, outcome := ParseHeader();
        if !outcome.Frame? {
          assert taken + [] == taken;
          return StatusOf(outcome);
        }
        ghost var r := Drain(buffer);
        assert taken + ([outcome.event] + r.events) == taken + [outcome.event] + r.events;
        taken := taken + [outcome.event];
      }
    }
  }

  /** The number whose digits in base 256 are b, most significant first. */
  ghost function FromBytes(b: seq<Byte>): nat
  {
    if b == [] then 0 else FromBytes(b[..|b| - 1]) * 256 + b[|b| - 1] as int
  }

  lemma FromBytesAppend(b: seq<Byte>, x: Byte)
    ensures FromBytes(b + [x]) == FromBytes(b) * 256 + x as int
  {
  }

  lemma FromBytes64(b: seq<Byte>)
    requires |b| == 8
    ensures FromBytes(b) == FromBe64(b)
  {
    var e: seq<Byte> := [];
    assert b == e + [b[0]] + [b[1]] + [b[2]] + [b[3]] + [b[4]] + [b[5]] + [b[6]] + [b[7]];
    FromBytesAppend(e, b[0]);
    FromBytesAppend(e + [b[0]], b[1]);
    FromBytesAppend(e + [b[0]] + [b[1]], b[2]);
    FromBytesAppend(e + [b[0]] + [b[1]] + [b[2]], b[3]);
    FromBytesAppend(e + [b[0]] + [b[1]] + [b[2]] + [b[3]], b[4]);
    FromBytesAppend(e + [b[0]] + [b[1]] + [b[2]] + [b[3]] + [b[4]], b[5]);
    FromBytesAppend(e + [b[0]] + [b[1]] + [b[2]] + [b[3]] + [b[4]] + [b[5]], b[6]);
    FromBytesAppend(e + [b[0]] + [b[1]] + [b[2]] + [b[3]] + [b[4]] + [b[5]] + [b[6]], b[7]);
  }
}
