/**
 * Voice playout in dep/dpp/discordvoiceclient.cpp: the comparator that orders
 * parked packets although their 16-bit numbers wrap, the queue it drives, and
 * the loop that plays one packet per number and conceals the numbers it lacks.
 */
module Voice {
  import opened Bytes

  const BOUNDARY := 5000

  type Seq = s: nat | s < TWO_16
  type Timestamp = t: nat | t < TWO_32

  datatype Payload = Payload(number: Seq, timestamp: Timestamp, audio: seq<Byte>)

  /** operator<: a is played after b. */
  predicate Less(a: Payload, b: Payload)
  {
    if a.timestamp != b.timestamp then a.timestamp > b.timestamp
    else if (a.number < BOUNDARY) != (b.number < BOUNDARY) then
      (a.number as int + BOUNDARY) % TWO_16 > (b.number as int + BOUNDARY) % TWO_16
    else a.number > b.number
  }

  /** How many steps lead from one number up to another, modulo 2^16. */
  function Distance(from: Seq, to: Seq): Seq
  {
    (to as int - from as int) % TWO_16
  }

  /** Serial order as in RFC 1982: a comes before b by less than half the number space. */
  predicate Precedes(a: Seq, b: Seq)
  {
    0 < Distance(a, b) < TWO_16 / 2
  }

  // ---------------------------------------------------------- the comparator

  /** For a packet a serially before b, exactly when the comparator plays a first. */
  lemma ComparatorIsSerialExactly(a: Payload, b: Payload)
    requires Precedes(a.number, b.number)
    ensures Less(b, a) <==>
            || a.timestamp < b.timestamp
            || (a.timestamp == b.timestamp
                && (a.number < b.number || (a.number >= TWO_16 - BOUNDARY && b.number < BOUNDARY)))
    ensures Less(a, b) <==> !Less(b, a)
  {
  }

  /** At most 5000 apart, wrapped or not, equal timestamps: the serial order. */
  lemma SerialWithinBoundary(a: Payload, b: Payload)
    requires a.timestamp == b.timestamp
    requires 0 < Distance(a.number, b.number) <= BOUNDARY
    ensures Less(b, a) && !Less(a, b)
  {
    ComparatorIsSerialExactly(a, b);
  }

  /** One step further the order can turn round. */
  lemma BoundaryIsTight(t: Timestamp, audio: seq<Byte>)
    ensures var a, b := Payload(60535, t, audio), Payload(0, t, audio);
            Distance(a.number, b.number) == BOUNDARY + 1 && Less(a, b) && !Less(b, a)
  {
  }

  /** With numbers far enough apart the comparator is no order at all. */
  lemma ComparatorHasACycle(t: Timestamp, audio: seq<Byte>)
    ensures var a, b, c := Payload(100, t, audio), Payload(6000, t, audio), Payload(60600, t, audio);
            Less(b, a) && Less(c, b) && Less(a, c)
  {
  }

  // ---------------------------------------------------------------- batches

  /** What std::priority_queue asks of its comparator, on the given elements. */
  ghost predicate StrictWeak(s: multiset<Payload>)
  {
    && (forall a, b, c | a in s && b in s && c in s :: Less(a, b) && Less(b, c) ==> Less(a, c))
    && (forall a, b, c | a in s && b in s && c in s :: Less(a, c) ==> Less(a, b) || Less(b, c))
  }

  /** The comparator sees three stretches of numbers: the first 5000, the last 5000, and those between. */
  datatype Zone = Low | Middle | High

  function ZoneOf(s: Seq): Zone
  {
    if s < BOUNDARY then Low else if s < TWO_16 - BOUNDARY then Middle else High
  }

  ghost predicate HasZone(s: multiset<Payload>, t: Timestamp, z: Zone)
  {
    exists p :: p in s && p.timestamp == t && ZoneOf(p.number) == z
  }

  ghost predicate AllZones(s: multiset<Payload>, t: Timestamp)
  {
    HasZone(s, t, Low) && HasZone(s, t, Middle) && HasZone(s, t, High)
  }

  /** With one timestamp the last zone goes before the first, the first before the middle, the middle before the last. */
  lemma ZonesGoRound(a: Payload, b: Payload)
    requires a.timestamp == b.timestamp
    ensures Less(a, b) <==>
            match (ZoneOf(a.number), ZoneOf(b.number))
            case (Low, Middle) => false
            case (Middle, Low) => true
            case (Low, High) => true
            case (High, Low) => false
            case _ => a.number > b.number
  {
  }

  lemma OrderWithoutAllZones(a: Payload, b: Payload, c: Payload)
    requires a.timestamp == b.timestamp == c.timestamp ==>
               {ZoneOf(a.number), ZoneOf(b.number), ZoneOf(c.number)} != {Low, Middle, High}
    ensures Less(a, b) && Less(b, c) ==> Less(a, c)
    ensures Less(a, c) ==> Less(a, b) || Less(b, c)
  {
    if a.timestamp == b.timestamp == c.timestamp {
      assert Low in {Low, Middle, High} && Middle in {Low, Middle, High} && High in {Low, Middle, High};
      ZonesGoRound(a, b);
      ZonesGoRound(b, c);
      ZonesGoRound(a, c);
      hide Less;
    }
  }

  /**
   * What the priority queue needs of the comparator holds of a batch exactly
   * when no timestamp has packets in all three zones.
   */
  lemma StrictWeakExactly(s: multiset<Payload>)
    ensures StrictWeak(s) <==> forall t: Timestamp :: !AllZones(s, t)
  {
    if t: Timestamp :| AllZones(s, t) {
      var a :| a in s && a.timestamp == t && ZoneOf(a.number) == Low;
      var b :| b in s && b.timestamp == t && ZoneOf(b.number) == Middle;
      var c :| c in s && c.timestamp == t && ZoneOf(c.number) == High;
      ZonesGoRound(b, a);
      ZonesGoRound(a, c);
      ZonesGoRound(b, c);
      assert Less(b, a) && Less(a, c) && !Less(b, c);
    } else {
      forall a, b, c | a in s && b in s && c in s
        ensures Less(a, b) && Less(b, c) ==> Less(a, c)
        ensures Less(a, c) ==> Less(a, b) || Less(b, c)
      {
        if a.timestamp == b.timestamp == c.timestamp {
          ThreeZones(s, a, b, c);
        }
        OrderWithoutAllZones(a, b, c);
      }
    }
  }

  lemma ThreeZones(s: multiset<Payload>, a: Payload, b: Payload, c: Payload)
    requires a in s && b in s && c in s && a.timestamp == b.timestamp == c.timestamp
    requires !AllZones(s, a.timestamp)
    ensures {ZoneOf(a.number), ZoneOf(b.number), ZoneOf(c.number)} != {Low, Middle, High}
  {
    hide ZoneOf;
    var zones := {ZoneOf(a.number), ZoneOf(b.number), ZoneOf(c.number)};
    assert zones == {Low, Middle, High} ==> Low in zones && Middle in zones && High in zones;
  }

  /** The comparator plays the batch in serial order from min. */
  ghost predicate SerialBatch(min: Seq, s: multiset<Payload>)
  {
    forall p, q | p in s && q in s :: Less(p, q) <==> Distance(min, p.number) > Distance(min, q.number)
  }

  ghost predicate DistinctNumbers(s: multiset<Payload>)
  {
    && (forall p | p in s :: s[p] == 1)
    && (forall p, q | p in s && q in s && p.number == q.number :: p == q)
  }

  /** Numbers in a window of 5001 from min, and timestamps that do not go back along it. */
  ghost predicate InWindow(min: Seq, s: multiset<Payload>)
  {
    && (forall p | p in s :: Distance(min, p.number) <= BOUNDARY)
    && (forall p, q | p in s && q in s && Distance(min, p.number) < Distance(min, q.number) :: p.timestamp <= q.timestamp)
  }

  lemma DistanceInWindow(min: Seq, p: Seq, q: Seq)
    requires Distance(min, p) < Distance(min, q)
    ensures Distance(p, q) == Distance(min, q) - Distance(min, p)
  {
  }

  lemma DistanceIsInjective(min: Seq, p: Seq, q: Seq)
    ensures Distance(min, p) == Distance(min, q) ==> p == q
  {
  }

  lemma WindowIsSerial(min: Seq, s: multiset<Payload>)
    requires InWindow(min, s) && DistinctNumbers(s)
    ensures SerialBatch(min, s)
  {
    forall p, q | p in s && q in s
      ensures Less(p, q) <==> Distance(min, p.number) > Distance(min, q.number)
    {
      if Distance(min, p.number) < Distance(min, q.number) {
        LaterIsLess(min, s, p, q);
      } else if Distance(min, q.number) < Distance(min, p.number) {
        LaterIsLess(min, s, q, p);
      } else {
        DistanceIsInjective(min, p.number, q.number);
        assert p == q;
      }
    }
  }

  lemma LaterIsLess(min: Seq, s: multiset<Payload>, p: Payload, q: Payload)
    requires InWindow(min, s) && p in s && q in s
    requires Distance(min, p.number) < Distance(min, q.number)
    ensures Less(q, p) && !Less(p, q)
  {
    DistanceInWindow(min, p.number, q.number);
    if p.timestamp == q.timestamp {
      SerialWithinBoundary(p, q);
    }
  }

  lemma SerialIsStrictWeak(min: Seq, s: multiset<Payload>)
    requires SerialBatch(min, s)
    ensures StrictWeak(s)
  {
  }

  // --------------------------------------------------------------- the queue

  /** When the comparator is an order, none of the packets goes before the first. */
  ghost predicate FirstIsBest(s: seq<Payload>)
  {
    StrictWeak(multiset(s)) ==> forall p | p in s :: !Less(s[0], p)
  }

  /**
   * std::priority_queue. The layout of items behind the first is the
   * container's own business, and so is the first itself when the comparator
   * is no strict weak order on what it holds.
   */
  class PriorityQueue {
    var items: seq<Payload>

    ghost predicate Valid()
      reads this
    {
      FirstIsBest(items)
    }

    constructor ()
      ensures Valid() && items == []
    {
      items := [];
    }

    method Push(p: Payload)
      modifies this
      ensures Valid() && multiset(items) == multiset(old(items)) + multiset{p}
    {
      Arrange(items + [p]);
    }

    /** What moving the queue out of its lot leaves there. */
    method Clear()
      modifies this
      ensures Valid() && items == []
    {
      items := [];
    }

    method Top() returns (p: Payload)
      requires items != []
      ensures p == items[0]
    {
      p := items[0];
    }

    method Pop()
      requires items != []
      modifies this
      ensures Valid() && multiset(items) == multiset(old(items)) - multiset{old(items)[0]}
    {
      assert items == [items[0]] + items[1..];
      Arrange(items[1..]);
    }

    /** Put one that none outranks at the front. */
    method Arrange(s: seq<Payload>)
      modifies this
      ensures Valid() && multiset(items) == multiset(s)
    {
      hide Less;
      if s == [] {
        items := s;
        return;
      }
      var best: nat, i: nat := 0, 1;
      Irreflexive(s[0]);
      while i < |s|
        invariant 0 <= best < i <= |s|
        invariant StrictWeak(multiset(s)) ==> forall k | 0 <= k < i :: !Less(s[best], s[k])
      {
        Irreflexive(s[i]);
        if Less(s[best], s[i]) {
          best := i;
        }
        i := i + 1;
      }
      items := [s[best]] + s[..best] + s[best + 1..];
      FrontedBest(s, best);
    }
  }

  lemma Fronted(s: seq<Payload>, best: nat)
    requires best < |s|
    ensures multiset([s[best]] + s[..best] + s[best + 1..]) == multiset(s)
  {
    assert s == s[..best] + [s[best]] + s[best + 1..];
  }

  lemma FrontedBest(s: seq<Payload>, best: nat)
    requires best < |s|
    requires StrictWeak(multiset(s)) ==> forall k | 0 <= k < |s| :: !Less(s[best], s[k])
    ensures var t := [s[best]] + s[..best] + s[best + 1..];
            multiset(t) == multiset(s) && FirstIsBest(t)
  {
    hide Less;
    var t := [s[best]] + s[..best] + s[best + 1..];
    Fronted(s, best);
    forall p | p in t && StrictWeak(multiset(t)) ensures !Less(t[0], p) {
      assert p in multiset(s);
    }
  }

  lemma Irreflexive(p: Payload)
    ensures !Less(p, p)
  {
  }

  // ------------------------------------------------------------- the playout

  /** The two calls to the decoder: a packet's audio, or a guess at what a lost one held. */
  datatype Event = Played(payload: Payload) | Concealed(missing: Seq)

  function NumberOf(e: Event): Seq
  {
    match e
    case Played(p) => p.number
    case Concealed(n) => n
  }

  /** The number due when so many events have gone before. */
  function Due(min: Seq, done: nat): Seq
  {
    (min as int + done) % TWO_16
  }

  ghost function PlayedIn(events: seq<Event>): multiset<Payload>
  {
    if events == [] then multiset{}
    else
      var rest, last := PlayedIn(events[..|events| - 1]), events[|events| - 1];
      if last.Played? then rest + multiset{last.payload} else rest
  }

  lemma PlayedInAppend(events: seq<Event>, e: Event)
    ensures PlayedIn(events + [e]) == PlayedIn(events) + if e.Played? then multiset{e.payload} else multiset{}
  {
  }

  /** One event for each number, counting up from min. */
  ghost predicate OnePerNumber(min: Seq, events: seq<Event>)
  {
    forall k | 0 <= k < |events| :: NumberOf(events[k]) == Due(min, k)
  }

  /** Nothing is concealed that is in the batch. */
  ghost predicate ConcealsOnlyMissing(events: seq<Event>, batch: multiset<Payload>)
  {
    forall e, p | e in events && e.Concealed? && p in batch :: p.number != e.missing
  }

  /** Every packet still waiting has a number that is still to come. */
  ghost predicate AllAhead(min: Seq, done: nat, waiting: multiset<Payload>)
  {
    forall p | p in waiting :: done <= Distance(min, p.number)
  }

  ghost predicate Orderly(min: Seq, batch: multiset<Payload>)
  {
    SerialBatch(min, batch) && DistinctNumbers(batch)
  }

  /** The steps to the number of the first packet waiting. */
  function ToFirst(min: Seq, done: nat, waiting: seq<Payload>): Seq
  {
    if waiting == [] then 0 else Distance(Due(min, done), waiting[0].number)
  }

  /** Every packet is played or waiting, none twice, and the last event so far is a packet once none waits. */
  ghost predicate Accounted(batch: multiset<Payload>, events: seq<Event>, waiting: seq<Payload>)
  {
    && PlayedIn(events) + multiset(waiting) == batch
    && (waiting == [] && events != [] ==> events[|events| - 1].Played?)
  }

  /** No packet takes more than one turn through the numbers. */
  ghost predicate Bounded(min: Seq, size: nat, done: nat, waiting: seq<Payload>)
  {
    && |waiting| <= size
    && done + ToFirst(min, done, waiting) < TWO_16 * (size - |waiting| + 1)
    && (waiting == [] ==> done <= TWO_16 * size)
  }

  ghost predicate InOrder(min: Seq, batch: multiset<Payload>, events: seq<Event>, waiting: seq<Payload>)
  {
    && AllAhead(min, |events|, multiset(waiting))
    && ConcealsOnlyMissing(events, batch)
    && |events| <= TWO_16
  }

  /** What the loop keeps, between the events so far and the packets still waiting. */
  ghost predicate Playing(min: Seq, batch: multiset<Payload>, events: seq<Event>, waiting: seq<Payload>)
  {
    && Accounted(batch, events, waiting)
    && OnePerNumber(min, events)
    && Bounded(min, |batch|, |events|, waiting)
    && (Orderly(min, batch) ==> InOrder(min, batch, events, waiting))
  }

  lemma DueNext(min: Seq, done: nat)
    ensures (Due(min, done) as int + 1) % TWO_16 == Due(min, done + 1)
  {
  }

  lemma StartPlaying(min: Seq, waiting: seq<Payload>)
    ensures Playing(min, multiset(waiting), [], waiting) && Due(min, 0) == min
  {
  }

  /**
   * What the loop does with any batch: it plays each packet once, has one event
   * for each number and stops at a packet; an orderly batch takes one turn
   * through the numbers at most, and nothing that is in it is concealed.
   */
  ghost predicate PlaysOut(min: Seq, batch: multiset<Payload>, events: seq<Event>)
  {
    && PlayedIn(events) == batch
    && OnePerNumber(min, events)
    && (events != [] ==> events[|events| - 1].Played?)
    && |events| <= TWO_16 * |batch|
    && (Orderly(min, batch) ==> ConcealsOnlyMissing(events, batch) && |events| <= TWO_16)
  }

  lemma WhenAllPlayed(min: Seq, batch: multiset<Payload>, events: seq<Event>)
    requires Playing(min, batch, events, [])
    ensures PlaysOut(min, batch, events)
  {
  }

  lemma FirstIsNext(min: Seq, batch: multiset<Payload>, waiting: seq<Payload>, p: Payload)
    requires SerialBatch(min, batch) && multiset(waiting) <= batch && FirstIsBest(waiting)
    requires p in waiting
    ensures Distance(min, waiting[0].number) <= Distance(min, p.number)
  {
    hide Less, Distance;
    forall q | q in waiting ensures q in batch {
      assert q in multiset(waiting);
    }
    SerialIsStrictWeak(min, multiset(waiting));
  }

  lemma {:induction false} PlayedAt(events: seq<Event>, p: Payload)
    requires p in PlayedIn(events)
    ensures exists k :: 0 <= k < |events| && events[k] == Played(p)
  {
    var front, last := events[..|events| - 1], events[|events| - 1];
    if last != Played(p) {
      PlayedAt(front, p);
      var k :| 0 <= k < |front| && front[k] == Played(p);
      assert events[k] == Played(p);
    }
  }

  lemma DistanceBack(min: Seq, k: nat)
    requires k < TWO_16
    ensures Distance(min, Due(min, k)) == k
  {
  }

  lemma PlayedIsBehind(min: Seq, events: seq<Event>, p: Payload)
    requires OnePerNumber(min, events) && |events| <= TWO_16 && p in PlayedIn(events)
    ensures Distance(min, p.number) < |events|
  {
  }

  lemma OneCloser(from: Seq, to: Seq)
    requires from != to
    ensures Distance((from as int + 1) % TWO_16, to) == Distance(from, to) - 1
  {
    if from as int + 1 == TWO_16 {
      assert Distance(from, to) == to + 1;
    } else if from < to {
      assert Distance(from, to) == to - from;
    } else {
      assert Distance(from, to) == to as int - from as int + TWO_16;
    }
  }

  lemma BoundStep(min: Seq, size: nat, done: nat, waiting: seq<Payload>)
    requires waiting != [] && Bounded(min, size, done, waiting)
    requires waiting[0].number != Due(min, done)
    ensures Bounded(min, size, done + 1, waiting)
    ensures ToFirst(min, done + 1, waiting) < ToFirst(min, done, waiting)
  {
    hide Distance, Due;
    OneCloser(Due(min, done), waiting[0].number);
    DueNext(min, done);
  }

  /** Concealing the number now due, which the first packet waiting does not have. */
  lemma ConcealStep(min: Seq, batch: multiset<Payload>, events: seq<Event>, waiting: seq<Payload>)
    requires waiting != [] && FirstIsBest(waiting) && Playing(min, batch, events, waiting)
    requires waiting[0].number != Due(min, |events|)
    ensures Playing(min, batch, events + [Concealed(Due(min, |events|))], waiting)
    ensures ToFirst(min, |events| + 1, waiting) < ToFirst(min, |events|, waiting)
  {
    hide FirstIsBest, Orderly, PlayedIn, Bounded, InOrder, ToFirst;
    PlayedInAppend(events, Concealed(Due(min, |events|)));
    BoundStep(min, |batch|, |events|, waiting);
    if Orderly(min, batch) {
      ConcealedIsMissing(min, batch, events, waiting);
    }
  }

  lemma ConcealedIsMissing(min: Seq, batch: multiset<Payload>, events: seq<Event>, waiting: seq<Payload>)
    requires waiting != [] && FirstIsBest(waiting) && InOrder(min, batch, events, waiting)
    requires OnePerNumber(min, events) && PlayedIn(events) + multiset(waiting) == batch
    requires Orderly(min, batch)
    requires waiting[0].number != Due(min, |events|)
    ensures InOrder(min, batch, events + [Concealed(Due(min, |events|))], waiting)
  {
    hide PlayedIn, FirstIsBest, SerialBatch, DistinctNumbers, Less, OnePerNumber;
    assert waiting[0] in multiset(waiting);
    assert |events| < Distance(min, waiting[0].number);
    forall p | p in waiting ensures |events| < Distance(min, p.number) {
      FirstIsNext(min, batch, waiting, p);
    }
    var due := Due(min, |events|);
    DistanceBack(min, |events|);
    forall p | p in batch ensures p.number != due {
      if p in PlayedIn(events) {
        PlayedIsBehind(min, events, p);
      } else {
        assert p in multiset(waiting);
      }
    }
  }

  lemma PlayBound(min: Seq, size: nat, done: nat, waiting: seq<Payload>, rest: seq<Payload>)
    requires waiting != [] && Bounded(min, size, done, waiting)
    requires waiting[0].number == Due(min, done)
    requires |rest| == |waiting| - 1
    ensures Bounded(min, size, done + 1, rest)
  {
  }

  /** Playing the first packet waiting, which has the number now due. */
  lemma PlayStep(min: Seq, batch: multiset<Payload>, events: seq<Event>, waiting: seq<Payload>, rest: seq<Payload>)
    requires waiting != [] && FirstIsBest(waiting) && Playing(min, batch, events, waiting)
    requires waiting[0].number == Due(min, |events|)
    requires multiset(rest) == multiset(waiting) - multiset{waiting[0]}
    ensures Playing(min, batch, events + [Played(waiting[0])], rest)
    ensures |rest| == |waiting| - 1
  {
    hide FirstIsBest, Orderly, PlayedIn, Bounded, InOrder, ToFirst;
    var top := waiting[0];
    PlayedInAppend(events, Played(top));
    assert |rest| == |multiset(rest)| == |multiset(waiting)| - 1;
    assert PlayedIn(events) + multiset(waiting) == PlayedIn(events) + multiset{top} + multiset(rest);
    PlayBound(min, |batch|, |events|, waiting, rest);
    if Orderly(min, batch) {
      RestIsAhead(min, batch, events, waiting, rest);
    }
  }

  lemma RestIsAhead(min: Seq, batch: multiset<Payload>, events: seq<Event>, waiting: seq<Payload>, rest: seq<Payload>)
    requires waiting != [] && FirstIsBest(waiting) && InOrder(min, batch, events, waiting)
    requires multiset(waiting) <= batch && Orderly(min, batch)
    requires waiting[0].number == Due(min, |events|)
    requires multiset(rest) == multiset(waiting) - multiset{waiting[0]}
    ensures InOrder(min, batch, events + [Played(waiting[0])], rest)
  {
    hide PlayedIn, FirstIsBest, SerialBatch, Less;
    var top := waiting[0];
    assert top in multiset(waiting);
    assert |events| <= Distance(min, top.number);
    DistanceBack(min, |events|);
    assert |events| == Distance(min, top.number);
    assert multiset(waiting)[top] <= batch[top] == 1;
    forall p | p in multiset(rest) ensures |events| < Distance(min, p.number) {
      assert p != top && p in multiset(waiting);
      FirstIsNext(min, batch, waiting, p);
      DistanceIsInjective(min, p.number, top.number);
    }
  }

  /**
   * The courier's loop for one user. For every batch it ends, plays each packet
   * once and stops at a packet; a batch in a window is played in serial order.
   */
  method Playout(min: Seq, queue: PriorityQueue) returns (events: seq<Event>)
    requires queue.Valid()
    modifies queue
    ensures queue.Valid() && queue.items == []
    ensures PlaysOut(min, multiset(old(queue.items)), events)
    ensures InWindow(min, multiset(old(queue.items))) && DistinctNumbers(multiset(old(queue.items))) ==>
              InSerialOrder(min, multiset(old(queue.items)), events)
  {
    hide Less, InWindow, DistinctNumbers, InSerialOrder;
    hide FirstIsBest, Due, Playing, PlayedIn, ToFirst, Distance, OnePerNumber, PlaysOut;
    ghost var batch := multiset(queue.items);
    events := [];
    var due := min;
    StartPlaying(min, queue.items);
    while queue.items != []
      invariant due == Due(min, |events|)
      invariant queue.Valid() && Playing(min, batch, events, queue.items)
      decreases |queue.items|, ToFirst(min, |events|, queue.items)
    {
      var top := queue.Top();
      ghost var waiting, before := queue.items, events;
      if top.number != due {
        ConcealStep(min, batch, events, waiting);
        events := events + [Concealed(due)];
      } else {
        events := events + [Played(top)];
        queue.Pop();
        PlayStep(min, batch, before, waiting, queue.items);
      }
      DueNext(min, |events| - 1);
      due := (due as int + 1) % TWO_16;
    }
    WhenAllPlayed(min, batch, events);
    if InWindow(min, batch) && DistinctNumbers(batch) {
      WindowPlaysInOrder(min, batch, events);
    }
  }

  // ------------------------------------------------ what playing out comes to

  /** The packet in the batch that is so many steps from min, if there is one. */
  ghost predicate IsAt(min: Seq, batch: multiset<Payload>, k: nat, p: Payload)
  {
    p in batch && Distance(min, p.number) == k
  }

  /**
   * Serial order without a gap: each packet is played at its own number, each
   * number before the last packet that no packet has is concealed, and there is
   * nothing after the last packet.
   */
  ghost predicate InSerialOrder(min: Seq, batch: multiset<Payload>, events: seq<Event>)
  {
    && (forall p | p in batch ::
          Distance(min, p.number) < |events| && events[Distance(min, p.number)] == Played(p))
    && (forall k | 0 <= k < |events| ::
          if exists p :: IsAt(min, batch, k, p) then events[k].Played? && IsAt(min, batch, k, events[k].payload)
          else events[k] == Concealed(Due(min, k)) && k < |events| - 1)
  }

  lemma {:induction false} PlayedIsInBatch(events: seq<Event>, k: nat)
    requires k < |events| && events[k].Played?
    ensures events[k].payload in PlayedIn(events)
  {
    var n := |events| - 1;
    if k < n {
      PlayedIsInBatch(events[..n], k);
    }
  }

  /** An orderly batch is played in serial order, and exactly the gaps before its last packet are concealed. */
  lemma OrderlyPlaysInOrder(min: Seq, batch: multiset<Payload>, events: seq<Event>)
    requires PlaysOut(min, batch, events) && Orderly(min, batch)
    ensures InSerialOrder(min, batch, events)
  {
    hide PlayedIn, Distance, Due, Orderly, SerialBatch, DistinctNumbers;
    forall p | p in batch
      ensures Distance(min, p.number) < |events| && events[Distance(min, p.number)] == Played(p)
    {
      PlayedAt(events, p);
      var k :| 0 <= k < |events| && events[k] == Played(p);
      assert p.number == NumberOf(events[k]) == Due(min, k);
      DistanceBack(min, k);
    }
    forall k | 0 <= k < |events|
      ensures if exists p :: IsAt(min, batch, k, p) then events[k].Played? && IsAt(min, batch, k, events[k].payload)
              else events[k] == Concealed(Due(min, k)) && k < |events| - 1
    {
      DistanceBack(min, k);
      if events[k].Played? {
        PlayedIsInBatch(events, k);
        assert NumberOf(events[k]) == Due(min, k);
        assert IsAt(min, batch, k, events[k].payload);
      } else {
        assert events[k] == Concealed(Due(min, k));
      }
    }
  }

  /** The source's case: distinct numbers within 5000 of min, timestamps that follow them. */
  lemma WindowPlaysInOrder(min: Seq, batch: multiset<Payload>, events: seq<Event>)
    requires PlaysOut(min, batch, events) && InWindow(min, batch) && DistinctNumbers(batch)
    ensures InSerialOrder(min, batch, events) && |events| <= BOUNDARY + 1
  {
    hide PlayedIn, OnePerNumber, Distance, Less, ConcealsOnlyMissing, DistinctNumbers;
    WindowIsSerial(min, batch);
    OrderlyPlaysInOrder(min, batch, events);
    if events != [] {
      LastIsAPacket(min, batch, events);
    }
  }

  /** However the queue arranges its packets, an orderly batch sounds the same. */
  lemma PlayoutIsDetermined(min: Seq, batch: multiset<Payload>, e: seq<Event>, f: seq<Event>)
    requires PlaysOut(min, batch, e) && PlaysOut(min, batch, f) && Orderly(min, batch)
    ensures e == f
  {
    hide PlaysOut, Orderly, Distance, Due;
    OrderlyPlaysInOrder(min, batch, e);
    OrderlyPlaysInOrder(min, batch, f);
    NotLonger(min, batch, e, f);
    NotLonger(min, batch, f, e);
  }

  lemma LastIsAPacket(min: Seq, batch: multiset<Payload>, events: seq<Event>)
    requires InSerialOrder(min, batch, events) && events != []
    ensures var e := events[|events| - 1]; e.Played? && IsAt(min, batch, |events| - 1, e.payload)
  {
  }

  lemma NotLonger(min: Seq, batch: multiset<Payload>, e: seq<Event>, f: seq<Event>)
    requires InSerialOrder(min, batch, e) && InSerialOrder(min, batch, f)
    ensures |e| <= |f| && forall k | 0 <= k < |e| :: e[k] == f[k]
  {
    hide Distance, Due;
    if e != [] {
      LastIsAPacket(min, batch, e);
    }
    forall k | 0 <= k < |e| ensures k < |f| && e[k] == f[k] {
    }
  }

  // ---------------------------------------------------------------- parking

  /** One user's parked packets between two flushes. The range is unset until the first packet. */
  class ParkingLot {
    var started: bool
    var minSeq: Seq
    var maxSeq: Seq
    var minTimestamp: Timestamp
    var maxTimestamp: Timestamp
    const queue: PriorityQueue

    ghost predicate Valid()
      reads this, queue
    {
      && queue.Valid()
      && (queue.items != [] ==> started && exists p :: p in queue.items && p.number == maxSeq)
    }

    constructor ()
      ensures Valid() && !started && queue.items == [] && fresh(queue)
    {
      started := false;
      minSeq, maxSeq, minTimestamp, maxTimestamp := 0, 0, 0, 0;
      queue := new PriorityQueue();
    }

    /** A packet arrives; one that is behind the range in both number and time is dropped. */
    method Park(p: Payload) returns (kept: bool)
      requires Valid()
      modifies this, queue
      ensures Valid() && started
      ensures kept == !(old(started) && p.number < old(minSeq) && p.timestamp < old(minTimestamp))
      ensures minSeq == if old(started) then old(minSeq) else p.number
      ensures minTimestamp == if old(started) then old(minTimestamp) else p.timestamp
      ensures if kept then
                && multiset(queue.items) == multiset(old(queue.items)) + multiset{p}
                && maxSeq == p.number && maxTimestamp == p.timestamp
              else
                && queue.items == old(queue.items)
                && maxSeq == old(maxSeq) && maxTimestamp == old(maxTimestamp)
    {
      hide Less, FirstIsBest;
      if !started {
        started, minSeq, minTimestamp := true, p.number, p.timestamp;
      }
      if p.number < minSeq && p.timestamp < minTimestamp {
        return false;
      }
      maxSeq, maxTimestamp := p.number, p.timestamp;
      queue.Push(p);
      assert p in multiset(queue.items);
      return true;
    }

    /**
     * The courier takes the batch, moves the range on and plays the batch out,
     * or drops it when no handler is bound to hear it. In an orderly batch the
     * next one starts where this one stopped exactly when the packet parked
     * last was also the latest in serial order.
     */
    method Flush(heard: bool) returns (events: seq<Event>)
      requires Valid() && started
      modifies this, queue
      ensures Valid() && started && queue.items == []
      ensures if heard then PlaysOut(old(minSeq), multiset(old(queue.items)), events) else events == []
      ensures minSeq == (old(maxSeq) as int + 1) % TWO_16
      ensures minTimestamp == (old(maxTimestamp) as int + 1) % TWO_32
      ensures maxSeq == old(maxSeq) && maxTimestamp == old(maxTimestamp)
      ensures heard && old(queue.items) != [] && Orderly(old(minSeq), multiset(old(queue.items))) ==>
                (minSeq == Due(old(minSeq), |events|) <==>
                 LatestIs(old(minSeq), multiset(old(queue.items)), old(maxSeq)))
    {
      hide Less, FirstIsBest, Due, Orderly, PlaysOut, Distance, LatestIs;
      var min := minSeq;
      ghost var batch := multiset(queue.items);
      minSeq := (maxSeq as int + 1) % TWO_16;
      minTimestamp := (maxTimestamp as int + 1) % TWO_32;
      if !heard {
        queue.Clear();
        return [];
      }
      ghost var parkedLast :| batch != multiset{} ==> parkedLast in batch && parkedLast.number == maxSeq;
      events := Playout(min, queue);
      if batch != multiset{} && Orderly(min, batch) {
        NextStart(min, batch, events, parkedLast);
      }
    }
  }

  /** No packet is further from min than the given number. */
  ghost predicate LatestIs(min: Seq, batch: multiset<Payload>, number: Seq)
  {
    forall p | p in batch :: Distance(min, p.number) <= Distance(min, number)
  }

  lemma NextStart(min: Seq, batch: multiset<Payload>, events: seq<Event>, parkedLast: Payload)
    requires PlaysOut(min, batch, events) && Orderly(min, batch) && parkedLast in batch
    ensures (parkedLast.number as int + 1) % TWO_16 == Due(min, |events|) <==>
            LatestIs(min, batch, parkedLast.number)
  {
    hide PlaysOut, Orderly, Less, Distance;
    OrderlyPlaysInOrder(min, batch, events);
    var d := Distance(min, parkedLast.number);
    var last := |events| - 1;
    LastIsAPacket(min, batch, events);
    assert LatestIs(min, batch, parkedLast.number) <==> d == last;
    StepAfter(min, parkedLast.number, last);
  }

  lemma StepAfter(min: Seq, number: Seq, last: Seq)
    ensures (number as int + 1) % TWO_16 == Due(min, last + 1) <==> Distance(min, number) == last
  {
  }
}
