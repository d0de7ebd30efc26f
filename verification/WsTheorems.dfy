/**
 * What framing promises: the header written is the one section 5.2 of RFC 6455
 * describes, and the frames read do not depend on how the stream was cut.
 */
module WsTheorems {
  import opened Bytes
  import opened WebSocket

  // ------------------------------------------------- RFC 6455, section 5.2

  /** A frame header, read as the RFC lays it out. size counts the header's own bytes. */
  datatype RfcHeader = RfcHeader(
    fin: bool, rsv: nat, opcode: nat, masked: bool, key: seq<Byte>, length: nat, size: nat)

  /** The header at the front of b, or None when b ends before it does. */
  function ReadHeader(b: seq<Byte>): Option<RfcHeader>
  {
    if |b| < 2 then None
    else
      var short := b[1] as int % 128;
      var size := if short == 126 then 4 else if short == 127 then 10 else 2;
      var masked := b[1] >= 128;
      var total := size + if masked then 4 else 0;
      if |b| < total then None
      else Some(RfcHeader(
                  b[0] >= 128, b[0] as int / 16 % 8, b[0] as int % 16, masked,
                  if masked then b[size..size + 4] else [],
                  if short == 126 then FromBe16(b[2..4])
                  else if short == 127 then FromBe64(b[2..10])
                  else short,
                  total))
  }

  /** The shortest length field that holds n: the size of the header it makes. */
  function ShortestSize(n: nat): nat
  {
    if n < 126 then 2 else if n < TWO_16 then 4 else 10
  }

  /**
   * Whatever the length, a reader of the RFC gets back a final frame with the
   * same opcode, a mask of zeros, and exactly that length, in its shortest form.
   */
  lemma HeaderReadsBack(opcode: nat, n: nat, r: seq<Byte>)
    requires opcode < 16 && n < TWO_64
    ensures ReadHeader(Header(opcode, n) + r)
            == Some(RfcHeader(true, 0, opcode, true, [0, 0, 0, 0], n, ShortestSize(n) + 4))
    ensures |Header(opcode, n)| == HeaderSize(n) == ShortestSize(n) + 4
  {
    hide ReadHeader, LengthField;
    var field := LengthField(n, MASK);
    LengthReads(FIN + opcode, MASK, n, [0, 0, 0, 0] + r);
    assert Header(opcode, n) + r == [FIN + opcode] + field + ([0, 0, 0, 0] + r);
    assert ([0, 0, 0, 0] + r)[..4] == [0, 0, 0, 0];
  }

  /** A first byte, a length field and what follows, as the RFC reads them. */
  lemma LengthReads(first: Byte, mask: nat, n: nat, r: seq<Byte>)
    requires (mask == 0 || mask == MASK) && n < TWO_64
    requires mask == MASK ==> |r| >= 4
    ensures |LengthField(n, mask)| == ShortestSize(n) - 1
    ensures var key := if mask == MASK then r[..4] else [];
            ReadHeader([first] + LengthField(n, mask) + r)
            == Some(RfcHeader(first >= 128, first as int / 16 % 8, first as int % 16, mask == MASK, key, n,
                              ShortestSize(n) + |key|))
  {
    if n <= MAX_SMALL {
      var b := [first, mask + n] + r;
      assert [first] + [mask + n] + r == b;
      assert mask == MASK ==> b[2..6] == r[..4];
    } else if n <= MAX_LARGE {
      LargeReads(first, mask, n, r);
    } else {
      HugeReads(first, mask, n, r);
    }
  }

  lemma LargeReads(first: Byte, mask: nat, n: nat, r: seq<Byte>)
    requires (mask == 0 || mask == MASK) && n < TWO_16
    requires mask == MASK ==> |r| >= 4
    ensures var key := if mask == MASK then r[..4] else [];
            ReadHeader([first] + ([mask + MAGIC_LARGE] + Be16(n)) + r)
            == Some(RfcHeader(first >= 128, first as int / 16 % 8, first as int % 16, mask == MASK, key, n, 4 + |key|))
  {
    hide FromBe16;
    var b := [first] + ([mask + MAGIC_LARGE] + Be16(n)) + r;
    Be16Inverse(n);
    assert b[2..4] == Be16(n) && (mask == MASK ==> b[4..8] == r[..4]);
  }

  lemma HugeReads(first: Byte, mask: nat, n: nat, r: seq<Byte>)
    requires (mask == 0 || mask == MASK) && n < TWO_64
    requires mask == MASK ==> |r| >= 4
    ensures var key := if mask == MASK then r[..4] else [];
            ReadHeader([first] + ([mask + MAGIC_HUGE] + Be64(n)) + r)
            == Some(RfcHeader(first >= 128, first as int / 16 % 8, first as int % 16, mask == MASK, key, n, 10 + |key|))
  {
    hide FromBe64, Be64;
    var b := [first] + ([mask + MAGIC_HUGE] + Be64(n)) + r;
    EightBytes(n);
    Be64Inverse(n);
    assert b[2..10] == Be64(n) && (mask == MASK ==> b[10..14] == r[..4]);
  }

  lemma EightBytes(n: int)
    ensures |Be64(n)| == 8
  {
  }

  /** The callers give fill_header ten bytes: room for its header up to a length of 65535, and no further. */
  lemma HeaderFitsExactly(n: nat)
    ensures HeaderSize(n) in {6, 8, 14}
    ensures HeaderSize(n) <= MAX_HEADER_SIZE <==> n <= 65535
  {
  }

  /** How a frame is handed on: opcode 9 is a ping, 10 a pong, and 0, 1 and 2 are data. */
  function HandedOn(opcode: nat, payload: seq<Byte>): Event
  {
    match opcode
    case 9 => PingPong(true, payload)
    case 10 => PingPong(false, payload)
    case _ => Data(payload)
  }

  /**
   * parseheader takes a frame exactly when the RFC finds a whole unmasked one,
   * of a known kind, at the front of at least four bytes (eight, behind a
   * 16-bit length), and it takes the frame the RFC finds.
   */
  lemma ParseIsRfc(d: seq<Byte>, e: Event, size: nat)
    ensures Parse(d) == Frame(e, size) <==>
            && |d| >= 4
            && ReadHeader(d).Some?
            && var h := ReadHeader(d).value;
               && !h.masked && h.rsv == 0 && h.opcode in {0, 1, 2, 9, 10}
               && (h.size == 4 ==> |d| >= 8)
               && h.size + h.length < TWO_64
               && h.size + h.length <= |d|
               && size == h.size + h.length
               && e == HandedOn(h.opcode, d[h.size..h.size + h.length])
  {
    hide FromBe16, FromBe64;
    if |d| >= 4 {
      assert d[0] as int % 128 == d[0] as int / 16 % 8 * 16 + d[0] as int % 16;
    }
  }

  /** It fails with the close code on a close frame, and with 0 on the kinds there are not. */
  lemma FailsExactly(d: seq<Byte>, code: nat)
    ensures Parse(d) == Failed(code) <==>
              && |d| >= 4
              && var op := d[0] as int % 128;
                 && op !in {0, 1, 2, 9, 10}
                 && code == if op == 8 then 256 * d[2] as int + d[3] as int else 0
  {
  }

  /** The loop gives a frame up exactly when its length and header do not fit 64 bits together. */
  lemma GivesUpExactly(d: seq<Byte>)
    ensures Drain(d).events == [] ==>
              (Drain(d).status == Undefined <==>
                 && |d| >= 10 && d[0] as int % 128 in {0, 1, 2, 9, 10} && d[1] == 127
                 && FromBe64(d[2..10]) + 10 >= 0x1_0000_0000_0000_0000)
  {
    hide FromBe16, FromBe64;
    SixteenBits(d);
  }

  lemma SixteenBits(d: seq<Byte>)
    ensures |d| >= 4 ==> FromBe16(d[2..4]) < TWO_16
  {
  }

  // ------------------------------------------------------ cutting a stream

  lemma FrameAtMore(d: seq<Byte>, more: seq<Byte>, header: nat, n: nat)
    requires 0 < header <= |d| && !FrameAt(d, header, n).Incomplete?
    ensures FrameAt(d + more, header, n) == FrameAt(d, header, n)
  {
    if FrameAt(d, header, n).Frame? {
      assert (d + more)[header..header + n] == d[header..header + n];
    }
  }

  /** What parseheader decides, it decides for good: more bytes behind change nothing. */
  lemma ParseMore(d: seq<Byte>, more: seq<Byte>)
    requires !Parse(d).Incomplete?
    ensures Parse(d + more) == Parse(d)
  {
    hide FrameAt;
    var b := d + more;
    assert b[2..4] == d[2..4];
    if IsFrameOpcode(d[0] as int % 128) && d[1] < 128 {
      if d[1] == MAGIC_LARGE {
        FrameAtMore(d, more, 4, FromBe16(d[2..4]));
      } else if d[1] == MAGIC_HUGE {
        assert b[2..10] == d[2..10];
        FrameAtMore(d, more, 10, FromBe64(d[2..10]));
      } else {
        FrameAtMore(d, more, 2, d[1]);
      }
    }
  }

  /** What comes of delivering more bytes to a client that has drained its buffer. */
  function Resume(r: Drained, more: seq<Byte>): Drained
  {
    if r.status.Waiting? then
      var next := Drain(r.rest + more);
      Drained(r.events + next.events, next.rest, next.status)
    else r.(rest := r.rest + more)
  }

  /** A stream cut in two gives what the whole gives, on any bytes at all. */
  lemma {:induction false} DrainSplit(d: seq<Byte>, more: seq<Byte>)
    ensures Drain(d + more) == Resume(Drain(d), more)
    decreases |d|
  {
    hide Parse;
    var o := Parse(d);
    if !o.Incomplete? {
      ParseMore(d, more);
      if o.Frame? {
        FrameFits(d);
        DrainSplit(d[o.size..], more);
        assert (d + more)[o.size..] == d[o.size..] + more;
        var r := Drain(d[o.size..]);
        var next := Drain(r.rest + more);
        assert [o.event] + (r.events + next.events) == [o.event] + r.events + next.events;
      }
    } else {
      var next := Drain(d + more);
      assert [] + next.events == next.events;
    }
  }

  function Concat(parts: seq<seq<Byte>>): seq<Byte>
  {
    if parts == [] then [] else parts[0] + Concat(parts[1..])
  }

  /** The bytes left over may differ only when the client has stopped taking frames. */
  predicate SameUpToRest(a: Drained, b: Drained)
  {
    a.events == b.events && a.status == b.status && (a.status.Waiting? ==> a.rest == b.rest)
  }

  /** However a stream is cut into deliveries, the frames and what is left are those of the whole stream. */
  lemma {:induction false} SplitInvariance(rest: seq<Byte>, deliveries: seq<seq<Byte>>)
    requires deliveries != []
    ensures SameUpToRest(Feed(rest, deliveries), Drain(rest + Concat(deliveries)))
    decreases |deliveries|
  {
    hide Drain;
    var first, tail := deliveries[0], deliveries[1..];
    var r := Drain(rest + first);
    DrainSplit(rest + first, Concat(tail));
    assert rest + first + Concat(tail) == rest + Concat(deliveries);
    if r.status.Waiting? {
      if tail == [] {
        DrainSettles(rest + first);
        assert r.rest + [] == r.rest;
      } else {
        SplitInvariance(r.rest, tail);
      }
    }
  }

  lemma {:induction false} DrainSettles(d: seq<Byte>)
    ensures var r := Drain(d); Drain(r.rest) == Drained([], r.rest, r.status)
    decreases |d|
  {
    hide Parse;
    if Parse(d).Frame? {
      FrameFits(d);
      DrainSettles(d[Parse(d).size..]);
    }
  }

  // ----------------------------------------------------- streams of frames

  /** A frame as a server sends it: unmasked. */
  datatype ServerFrame = ServerFrame(fin: bool, opcode: nat, payload: seq<Byte>)

  predicate GoodFrame(f: ServerFrame)
  {
    f.opcode in {0, 1, 2, 9, 10} && |f.payload| < TWO_63
  }

  function WireFrame(f: ServerFrame): seq<Byte>
    requires GoodFrame(f)
  {
    [(if f.fin then 128 else 0) + f.opcode] + LengthField(|f.payload|, 0) + f.payload
  }

  function Wire(frames: seq<ServerFrame>): seq<Byte>
    requires forall f :: f in frames ==> GoodFrame(f)
  {
    if frames == [] then [] else WireFrame(frames[0]) + Wire(frames[1..])
  }

  function Events(frames: seq<ServerFrame>): seq<Event>
  {
    if frames == [] then [] else [HandedOn(frames[0].opcode, frames[0].payload)] + Events(frames[1..])
  }

  lemma WireFrameHeader(f: ServerFrame, r: seq<Byte>)
    requires GoodFrame(f)
    ensures var n := |f.payload|;
            ReadHeader(WireFrame(f) + r)
            == Some(RfcHeader(f.fin, 0, f.opcode, false, [], n, ShortestSize(n)))
    ensures |WireFrame(f)| == ShortestSize(|f.payload|) + |f.payload|
    ensures (WireFrame(f) + r)[ShortestSize(|f.payload|)..|WireFrame(f)|] == f.payload
  {
    hide ReadHeader, LengthField;
    var n, first := |f.payload|, (if f.fin then 128 else 0) + f.opcode;
    LengthReads(first, 0, n, f.payload + r);
    assert WireFrame(f) + r == [first] + LengthField(n, 0) + (f.payload + r);
  }

  lemma FrameParses(f: ServerFrame, r: seq<Byte>)
    requires GoodFrame(f)
    ensures var b := WireFrame(f) + r;
            Parse(b) == if |b| < 4 then Incomplete
                        else Frame(HandedOn(f.opcode, f.payload), |WireFrame(f)|)
  {
    hide ReadHeader, Parse, WireFrame;
    var b := WireFrame(f) + r;
    WireFrameHeader(f, r);
    if |b| >= 4 {
      ParseIsRfc(b, HandedOn(f.opcode, f.payload), |WireFrame(f)|);
    } else {
      ShortIsIncomplete(b);
    }
  }

  lemma ShortIsIncomplete(b: seq<Byte>)
    requires |b| < 4
    ensures Parse(b) == Incomplete
  {
  }

  /**
   * A stream of frames: all of them are handed on, except that a last frame
   * with a payload of no more than one byte waits for whatever comes next.
   */
  lemma {:induction false} FramesArrive(frames: seq<ServerFrame>)
    requires forall f :: f in frames ==> GoodFrame(f)
    ensures var held := if frames != [] && |frames[|frames| - 1].payload| < 2 then 1 else 0;
            Drain(Wire(frames)) ==
              Drained(Events(frames[..|frames| - held]), Wire(frames[|frames| - held..]), Waiting)
    decreases |frames|
  {
    if frames == [] {
      ShortIsIncomplete([]);
    } else {
      hide Parse;
      var f, tail := frames[0], frames[1..];
      var b := Wire(frames);
      FrameParses(f, Wire(tail));
      WireFrameHeader(f, Wire(tail));
      var last := frames[|frames| - 1];
      var held := if |last.payload| < 2 then 1 else 0;
      if tail == [] {
        assert b == WireFrame(f);
        if held == 0 {
          assert b[|b|..] == [];
          ShortIsIncomplete([]);
          assert frames[..1] == frames && frames[1..] == [];
        } else {
          assert frames[..0] == [] && frames[0..] == frames;
        }
      } else {
        TwoFramesAreEnough(f, tail);
        assert b[|WireFrame(f)|..] == Wire(tail);
        FramesArrive(tail);
        assert tail[|tail| - 1] == last;
        assert frames[..|frames| - held][1..] == tail[..|tail| - held];
        assert frames[|frames| - held..] == tail[|tail| - held..];
      }
    }
  }

  lemma TwoFramesAreEnough(f: ServerFrame, tail: seq<ServerFrame>)
    requires GoodFrame(f) && tail != [] && forall g :: g in tail ==> GoodFrame(g)
    ensures |WireFrame(f) + Wire(tail)| >= 4
  {
  }

  /**
   * The same, cut into deliveries anywhere, and with both sides of when the
   * whole of it is handed on.
   */
  lemma FramesArriveHoweverCut(frames: seq<ServerFrame>, deliveries: seq<seq<Byte>>)
    requires forall f :: f in frames ==> GoodFrame(f)
    requires deliveries != [] && Concat(deliveries) == Wire(frames)
    ensures Feed([], deliveries).status == Waiting
    ensures Feed([], deliveries).events == Events(frames) && Feed([], deliveries).rest == []
            <==> frames == [] || |frames[|frames| - 1].payload| >= 2
    ensures frames != [] && |frames[|frames| - 1].payload| < 2 ==>
              Feed([], deliveries).events == Events(frames[..|frames| - 1])
  {
    SplitInvariance([], deliveries);
    assert [] + Concat(deliveries) == Wire(frames);
    FramesArrive(frames);
    assert frames[..|frames| - 0] == frames && frames[|frames| - 0..] == [];
    if frames != [] {
      var tail := frames[|frames| - 1..];
      assert Wire(tail) != [];
    }
  }

  // ----------------------------------------------------------- masked frames

  /** The front of a masked frame of a kind parseheader takes. */
  predicate MaskedHeader(b: seq<Byte>)
  {
    |b| >= 4 && b[0] as int % 128 in {0, 1, 2, 9, 10} && b[1] >= 128
  }

  /** The places in a buffer where its whole unmasked frames end, its start among them. */
  predicate FrameEnds(d: seq<Byte>, i: nat)
    decreases |d|
  {
    FrameFits(d);
    var o := Parse(d);
    i == 0 || (o.Frame? && o.size <= i && FrameEnds(d[o.size..], i - o.size))
  }

  /** A masked frame right behind whole frames. */
  predicate MaskedAt(d: seq<Byte>, i: nat)
  {
    i <= |d| && FrameEnds(d, i) && MaskedHeader(d[i..])
  }

  /** At a masked frame parseheader returns true and takes nothing. */
  lemma MaskedIsNotTaken(d: seq<Byte>)
    ensures Parse(d).Masked? <==> MaskedHeader(d)
  {
  }

  /**
   * The loop has no end exactly when a masked frame is at the front of what is
   * left, and that is exactly when one stands behind whole unmasked frames.
   */
  lemma {:induction false} MaskedFrameSpins(d: seq<Byte>)
    ensures Drain(d).status.Spinning? <==> MaskedHeader(Drain(d).rest)
    ensures Drain(d).status.Spinning? <==> exists i: nat :: MaskedAt(d, i)
    decreases |d|
  {
    hide Parse, MaskedHeader;
    MaskedIsNotTaken(d);
    FrameFits(d);
    var o := Parse(d);
    if o.Frame? {
      var rest := d[o.size..];
      MaskedFrameSpins(rest);
      if i: nat :| MaskedAt(rest, i) {
        assert rest[i..] == d[i + o.size..];
        assert MaskedAt(d, i + o.size);
      }
      if j: nat :| MaskedAt(d, j) {
        assert d[0..] == d;
        assert rest[j - o.size..] == d[j..];
        assert MaskedAt(rest, j - o.size);
      }
    } else {
      assert d[0..] == d;
      assert MaskedAt(d, 0) <==> MaskedHeader(d);
    }
  }

  /**
   * Frames that are in order are still handed on, and then the masked one stops
   * everything behind it, however it is cut.
   */
  lemma MaskedBehindFramesSpins(frames: seq<ServerFrame>, masked: seq<Byte>, deliveries: seq<seq<Byte>>)
    requires forall f :: f in frames ==> GoodFrame(f)
    requires MaskedHeader(masked) && deliveries != [] && Concat(deliveries) == Wire(frames) + masked
    ensures Feed([], deliveries).status.Spinning? && Feed([], deliveries).events == Events(frames)
  {
    hide Parse, MaskedHeader, Drain, Feed, Wire, Events, Concat, GoodFrame;
    SplitInvariance([], deliveries);
    assert [] + Concat(deliveries) == Wire(frames) + masked;
    MaskedIsNotTaken(masked);
    MaskedIsFour(masked);
    DrainStops(masked);
    DrainThrough(frames, masked);
    assert Events(frames) + [] == Events(frames);
  }

  lemma DrainStops(d: seq<Byte>)
    requires !Parse(d).Frame?
    ensures Drain(d) == Drained([], d, StatusOf(Parse(d)))
  {
  }

  lemma MaskedIsFour(masked: seq<Byte>)
    requires MaskedHeader(masked)
    ensures |masked| >= 4
  {
  }

  /** A close frame behind frames that are in order: these are handed on, and the code is reported. */
  lemma CloseBehindFrames(frames: seq<ServerFrame>, close: seq<Byte>, code: nat, deliveries: seq<seq<Byte>>)
    requires forall f :: f in frames ==> GoodFrame(f)
    requires |close| >= 4 && close[0] in {8, 136} && code == 256 * close[2] as int + close[3] as int
    requires deliveries != [] && Concat(deliveries) == Wire(frames) + close
    ensures Feed([], deliveries).status == Closed(code) && Feed([], deliveries).events == Events(frames)
  {
    hide Parse, Drain, Feed, Wire, Events, Concat, GoodFrame;
    SplitInvariance([], deliveries);
    assert [] + Concat(deliveries) == Wire(frames) + close;
    FailsExactly(close, code);
    DrainStops(close);
    DrainThrough(frames, close);
    assert Events(frames) + [] == Events(frames);
  }

  lemma {:induction false} DrainThrough(frames: seq<ServerFrame>, tail: seq<Byte>)
    requires (forall f :: f in frames ==> GoodFrame(f)) && |tail| >= 4
    ensures var r := Drain(tail);
            Drain(Wire(frames) + tail) == Drained(Events(frames) + r.events, r.rest, r.status)
  {
    hide Parse;
    var r := Drain(tail);
    if frames == [] {
      assert Wire(frames) + tail == tail && [] + r.events == r.events;
    } else {
      var f, more := frames[0], Wire(frames[1..]) + tail;
      assert Wire(frames) + tail == WireFrame(f) + more;
      FrameParses(f, more);
      WireFrameHeader(f, more);
      assert (WireFrame(f) + more)[|WireFrame(f)|..] == more;
      DrainThrough(frames[1..], tail);
      var event := HandedOn(f.opcode, f.payload);
      assert [event] + (Events(frames[1..]) + r.events) == [event] + Events(frames[1..]) + r.events;
    }
  }
}
