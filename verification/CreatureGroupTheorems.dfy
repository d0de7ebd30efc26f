/** What follows for whole calls and whole lives of a creature group. */
module CreatureGroupTheorems {
  import opened CreatureGroups
  import opened Ordered

  // --------------------------------------------- one top-level call, each once

  ghost predicate NoRepeats(s: seq<Guid>)
  {
    forall i, j | 0 <= i < j < |s| :: s[i] != s[j]
  }

  /** One RespawnAll respawns exactly the creatures of the group that can be, no one twice. */
  lemma RespawnAllReachesEachOnce(s: Snapshot, except: Guid)
    requires s.original !in s.members && !s.respawnGuard
    ensures NoRepeats(RespawnList(s, except))
    ensures forall g :: g in RespawnList(s, except) <==>
              && (g in s.members || g == s.original) && g != except && g in s.creatures
              && s.creatures[g].inWorld && s.creatures[g].respawnTime > s.now && s.creatures[g].spawnable
  {
    InOrderIsSorted(RespawnTargets(s, except, s.members.Keys));
    OneMore(InOrder(RespawnTargets(s, except, s.members.Keys)), s.original);
    hide InOrder;
  }

  lemma OneMore(s: seq<Guid>, g: Guid)
    requires NoRepeats(s) && g !in s
    ensures NoRepeats(s + [g])
  {
  }

  /** One OnMemberAttackStart brings in exactly the creatures of the group that can help, no one twice. */
  lemma AttackStartReachesEachOnce(s: Snapshot, attacker: Guid)
    requires s.original !in s.members && !s.assistGuard
    ensures NoRepeats(AssistList(s, attacker))
    ensures forall g :: g in AssistList(s, attacker) <==>
              && (g in s.members || g == s.original) && g != attacker && g in s.creatures
              && s.creatures[g].inWorld && s.creatures[g].alive && !s.creatures[g].hasVictim && s.creatures[g].hasAI
  {
    InOrderIsSorted(AssistTargets(s, attacker, s.members.Keys));
    OneMore(InOrder(AssistTargets(s, attacker, s.members.Keys)), s.original);
    hide InOrder;
  }

  /** A call that finds its guard set reaches no one. */
  lemma GuardedReachesNoOne(s: Snapshot, except: Guid)
    ensures s.respawnGuard ==> RespawnList(s, except) == []
    ensures s.assistGuard ==> AssistList(s, except) == []
  {
  }

  /** The options, by their bits. */
  lemma OptionBits(options: bv32)
    ensures Has(options, FORMATION_MOVE) <==> options & 1 != 0
    ensures Has(options, AGGRO_TOGETHER) <==> options & 2 != 0
    ensures Has(options, EVADE_TOGETHER) <==> options & 4 != 0
    ensures Has(options, RESPAWN_TOGETHER) <==> options & 8 != 0
    ensures Has(options, RESPAWN_ALL_ON_MASTER_EVADE) <==> options & 16 != 0
    ensures Has(options, RESPAWN_ALL_ON_ANY_EVADE) <==> options & 32 != 0
    ensures Has(options, INFORM_LEADER_ON_MEMBER_DIED) <==> options & 64 != 0
    ensures Has(options, INFORM_MEMBERS_ON_ANY_DIED) <==> options & 128 != 0
  {
  }

  // -------------------------------------------------------------- who is told

  lemma {:induction false} OrdersToAt(gs: seq<Guid>, kind: Kind, i: nat)
    requires i < |gs|
    ensures |OrdersTo(gs, kind)| == |gs| && OrdersTo(gs, kind)[i] == Order(kind, gs[i])
  {
    if i < |gs| - 1 {
      OrdersToAt(gs[..|gs| - 1], kind, i);
    } else if |gs| > 1 {
      OrdersToAt(gs[..|gs| - 1], kind, i - 1);
    }
  }

  /** Orders of one kind to a set of creatures: one to each of them, in guid order, and no others. */
  ghost predicate ToEach(orders: seq<Order>, kind: Kind, to: set<Guid>)
  {
    && (forall o :: o in orders <==> o.kind == kind && o.to in to)
    && (forall i, j :: 0 <= i < j < |orders| ==> orders[i].to < orders[j].to)
  }

  lemma OrdersReachEach(to: set<Guid>, kind: Kind)
    ensures ToEach(OrdersTo(InOrder(to), kind), kind, to)
  {
    InOrderIsSorted(to);
    var gs := InOrder(to);
    hide InOrder, OrdersTo;
    forall i | 0 <= i < |gs|
      ensures |OrdersTo(gs, kind)| == |gs| && OrdersTo(gs, kind)[i] == Order(kind, gs[i])
    {
      OrdersToAt(gs, kind, i);
    }
    var orders := OrdersTo(gs, kind);
    assert gs == [] ==> orders == [] by { if gs == [] { NoOrdersAtAll(kind); } }
    forall o ensures o in orders <==> o.kind == kind && o.to in to {
      if o.kind == kind && o.to in to {
        var i :| 0 <= i < |gs| && gs[i] == o.to;
        assert orders[i] == o;
      }
    }
  }

  lemma NoOrdersAtAll(kind: Kind)
    ensures OrdersTo([], kind) == []
  {
  }

  /** May the creature be made to evade: it is in the world, in combat, and has an AI. */
  predicate Fights(cs: Creatures, g: Guid)
  {
    g in cs && cs[g].inWorld && cs[g].inCombat && cs[g].hasAI
  }

  /**
   * Whom OnLeaveCombat tells to evade: with the option set, each other member
   * that fights, in guid order, and then the original leader if it is another
   * one and fights. And it counts as the original leader's evading when that
   * one leaves combat itself or is told so.
   */
  lemma EvadersExactly(options: bv32, original: Guid, members: set<Guid>, cs: Creatures, g: Guid)
    ensures var orders := EvadeOrders(options, original, members, cs, g);
            var leaderToo := options & 4 != 0 && g != original && Fights(cs, original);
            && (if options & 4 == 0 then orders == []
                else ToEach(if leaderToo then orders[..|orders| - 1] else orders, Evade,
                            set h | h in members && h != g && Fights(cs, h)))
            && (leaderToo ==> orders != [] && orders[|orders| - 1] == Order(Evade, original))
            && (MasterEvades(options, original, cs, g) <==> g == original || leaderToo)
  {
    hide InOrder, OrdersTo, Has;
    OptionBits(options);
    var others := Evaders(members, cs, g);
    assert others == set h | h in members && h != g && Fights(cs, h);
    OrdersReachEach(others, Evade);
    var row := OrdersTo(InOrder(others), Evade);
    assert row + [] == row;
    assert (row + [Order(Evade, original)])[..|row|] == row;
  }

  /** What the return of the original leader makes known: the leader, and a restart to every member that can move. */
  lemma ReturnExactly(s: Snapshot, g: Guid)
    ensures var t := Returned(s, g);
            if g != s.original || s.leader == s.original then t == s
            else
              && t.leader == s.original && s.orders <= t.orders
              && ToEach(t.orders[|s.orders|..], Restart,
                        set h | h in s.members && h in s.creatures && s.creatures[h].inWorld && s.creatures[h].alive)
  {
    hide InOrder, OrdersTo;
    if g == s.original && s.leader != s.original {
      var movers := Movers(s.members.Keys, s.creatures, {});
      assert movers == set h | h in s.members && h in s.creatures && s.creatures[h].inWorld && s.creatures[h].alive;
      OrdersReachEach(movers, Restart);
      var orders := OrdersTo(InOrder(movers), Restart);
      assert (s.orders + orders)[|s.orders|..] == orders;
    }
  }

  /** Has the creature an AI that hears, in the world and alive? */
  predicate Hears(cs: Creatures, g: Guid)
  {
    g in cs && cs[g].inWorld && cs[g].alive && cs[g].hasAI
  }

  /** Who is told of a death: the original leader of another's, and the other members, who hear if it was the leader. */
  lemma NoticesExactly(options: bv32, original: Guid, members: set<Guid>, cs: Creatures, died: Guid)
    ensures LeaderNotice(options, original, cs, died) ==
            if options & 64 != 0 && died != original && Hears(cs, original) then [Order(MemberDied, original)] else []
    ensures var orders := MemberNotices(options, original, members, cs, died);
            if options & 128 == 0 then orders == []
            else ToEach(orders, if died == original then LeaderDied else MemberDied,
                        set h | h in members && h != died && Hears(cs, h))
  {
    hide InOrder, OrdersTo, Has;
    OptionBits(options);
    var hearers := Hearers(members, cs, died);
    assert hearers == set h | h in members && h != died && Hears(cs, h);
    OrdersReachEach(hearers, if died == original then LeaderDied else MemberDied);
  }

  /** What movement a death brings: the new leader walks the waypoints, and the other living members follow it. */
  lemma HandOverExactly(before: Guid, after: Guid, original: Guid, members: set<Guid>, options: bv32,
                        cs: Creatures, died: Guid)
    ensures var orders := HandOver(before, after, original, members, options, cs, died);
            var others := set h | h in members && h != died && h in cs && cs[h].inWorld && cs[h].alive;
            if died == before && options & 1 != 0 && original in cs && cs[original].waypoints && others != {}
            then orders != [] && orders[0] == Order(LeadWaypoints, after)
                 && ToEach(orders[1..], RestartPatrol, others - {after})
            else orders == []
  {
    hide InOrder, OrdersTo, Has;
    OptionBits(options);
    var able := Movers(members, cs, {died});
    assert able == set h | h in members && h != died && h in cs && cs[h].inWorld && cs[h].alive;
    OrdersReachEach(able - {after}, RestartPatrol);
  }

  // ------------------------------------------------------- leader succession

  datatype State = State(leader: Guid, original: Guid, members: set<Guid>, formation: bool, creatures: Creatures)

  /**
   * What happens to a group: a creature dies or comes into the map, perhaps
   * alive again; a creature other than the original leader leaves the group or
   * joins it; or the creatures change in ways the group is not told of, as
   * when a script sets one alive where it lies. Reported is OnRespawn called for
   * the original leader by a callback, alive or not.
   */
  datatype Event =
    | Dies(g: Guid)
    | Appears(g: Guid, c: Creature)
    | Leaves(g: Guid)
    | Joins(g: Guid, formation: bool)
    | Changes(creatures: Creatures)
    | Reported

  predicate Lives(cs: Creatures, g: Guid)
  {
    g in cs && cs[g].alive
  }

  /** The original leader's leaving would end the group. */
  predicate Enabled(s: State, e: Event)
  {
    match e
    case Dies(g) => g in s.creatures
    case Appears(g, c) => true
    case Leaves(g) => g != s.original
    case Joins(g, formation) => g != s.original
    case Changes(cs) => true
    case Reported => true
  }

  ghost function Next(s: State, e: Event): State
    requires Enabled(s, e)
  {
    match e
    case Dies(g) =>
      var cs := s.creatures[g := s.creatures[g].(alive := false)];
      s.(creatures := cs, leader := Successor(s.leader, s.original, s.members, s.formation, cs, g))
    case Appears(g, c) =>
      s.(creatures := s.creatures[g := c], leader := if g == s.original && c.alive then g else s.leader)
    case Leaves(g) =>
      s.(members := s.members - {g}, leader := if g == s.leader then s.original else s.leader)
    case Joins(g, formation) =>
      if g == s.leader then s else s.(members := s.members + {g}, formation := s.formation || formation)
    case Changes(cs) => s.(creatures := cs)
    case Reported => s.(leader := s.original)
  }

  /** A loaded group, led by its original leader. */
  predicate Initial(s: State)
  {
    s.leader == s.original && s.original !in s.members
  }

  /** The leader is the original one or a member. */
  predicate LeaderKnown(s: State)
  {
    s.original !in s.members && (s.leader == s.original || s.leader in s.members)
  }

  /** And only while the original leader is dead another leads. */
  predicate LeaderInv(s: State)
  {
    LeaderKnown(s) && (s.leader != s.original ==> !Lives(s.creatures, s.original))
  }

  /** Not a change that leaves the original leader alive, unreported, while another leads. */
  predicate Told(s: State, e: Event)
  {
    e.Changes? && s.leader != s.original ==> !Lives(e.creatures, s.original)
  }

  ghost predicate Run(states: seq<State>, events: seq<Event>)
  {
    && |states| == |events| + 1
    && Initial(states[0])
    && forall i | 0 <= i < |events| :: Enabled(states[i], events[i]) && states[i + 1] == Next(states[i], events[i])
  }

  /** The first living member in the world leads, or else the original leader. */
  lemma SuccessorIsFirst(leader: Guid, original: Guid, members: set<Guid>, formation: bool, cs: Creatures, died: Guid)
    ensures var next := Successor(leader, original, members, formation, cs, died);
            var able := Movers(members, cs, {died});
            if !Elects(leader, original, formation, cs, died) then next == leader
            else if exists g :: g in able then IsLeast(able, next) && CanMove(cs, next) && next in members
            else next == original
  {
  }

  lemma LeaderKnownStep(s: State, e: Event)
    requires LeaderKnown(s) && Enabled(s, e)
    ensures LeaderKnown(Next(s, e))
  {
    if e.Dies? {
      var cs := s.creatures[e.g := s.creatures[e.g].(alive := false)];
      SuccessorIsFirst(s.leader, s.original, s.members, s.formation, cs, e.g);
      hide Successor, Movers;
    }
  }

  /** A step keeps the dead original leader from being led past exactly when the group is told of its return. */
  lemma LeaderInvStepExactly(s: State, e: Event)
    requires LeaderInv(s) && Enabled(s, e)
    ensures LeaderInv(Next(s, e)) <==> Told(s, e)
  {
    LeaderKnownStep(s, e);
    if e.Dies? {
      var cs := s.creatures[e.g := s.creatures[e.g].(alive := false)];
      SuccessorIsFirst(s.leader, s.original, s.members, s.formation, cs, e.g);
      hide Successor, Movers;
    }
  }

  /** At every moment of every run the group is led by its original leader or by a member. */
  lemma {:induction false} LeaderIsKnown(states: seq<State>, events: seq<Event>, i: nat)
    requires Run(states, events) && i < |states|
    ensures LeaderKnown(states[i])
  {
    hide Next, Enabled;
    if i > 0 {
      LeaderIsKnown(states, events, i - 1);
      LeaderKnownStep(states[i - 1], events[i - 1]);
    }
  }

  /**
   * And it is led by a member only while the original leader is dead, as long
   * as the group has been told of every return.
   */
  lemma {:induction false} LeaderIsSafe(states: seq<State>, events: seq<Event>, i: nat)
    requires Run(states, events) && i < |states|
    requires forall j | 0 <= j < i :: Told(states[j], events[j])
    ensures LeaderInv(states[i])
  {
    hide Next, Enabled, Told, LeaderKnown;
    if i > 0 {
      LeaderIsSafe(states, events, i - 1);
      LeaderInvStepExactly(states[i - 1], events[i - 1]);
    } else {
      LeaderIsKnown(states, events, 0);
    }
  }

  /** The first untold return is where it stops: the original leader lives and follows. */
  lemma UntoldReturnIsLedPast(states: seq<State>, events: seq<Event>, i: nat)
    requires Run(states, events) && i < |events|
    requires forall j | 0 <= j < i :: Told(states[j], events[j])
    requires !Told(states[i], events[i])
    ensures var t := states[i + 1];
            t.leader != t.original && t.leader in t.members && Lives(t.creatures, t.original)
  {
    hide Enabled;
    LeaderIsSafe(states, events, i);
    LeaderIsKnown(states, events, i + 1);
  }

  /** Such runs there are: the original leader dies, the second creature takes over, and a script sets the first alive. */
  lemma ReturnInPlace(c: Creature, follower: Creature)
    requires c.waypoints && c.alive && follower.inWorld && follower.alive
    ensures var s := State(1, 1, {2}, true, map[1 := c, 2 := follower]);
            var t := Next(s, Dies(1));
            && t.leader == 2
            && Run([s, t, Next(t, Changes(s.creatures))], [Dies(1), Changes(s.creatures)])
            && Told(s, Dies(1)) && !Told(t, Changes(s.creatures))
  {
    var s := State(1, 1, {2}, true, map[1 := c, 2 := follower]);
    var t := Next(s, Dies(1));
    SuccessorIsFirst(1, 1, {2}, true, t.creatures, 1);
    assert CanMove(t.creatures, 2);
    assert Movers({2}, t.creatures, {1}) == {2};
  }

  /** When a formation's leader dies and the original leader walks waypoints, whoever can lead does. */
  lemma DeathHandsOver(s: State, g: Guid)
    requires LeaderInv(s) && g == s.leader && g in s.creatures && s.formation
    requires s.original in s.creatures && s.creatures[s.original].waypoints
    ensures var t := Next(s, Dies(g));
            var able := set h | h in s.members && h != g && h in s.creatures
                                && s.creatures[h].inWorld && s.creatures[h].alive;
            if able != {} then t.leader in able && forall h :: h in able ==> t.leader <= h
            else t.leader == s.original
  {
    var t := Next(s, Dies(g));
    SuccessorIsFirst(s.leader, s.original, s.members, s.formation, t.creatures, g);
    var able := Movers(s.members, t.creatures, {g});
    assert forall h :: h in able <==> h in s.members && h != g && CanMove(s.creatures, h);
  }

  /** RemoveMember itself guards nothing: it keeps the invariant unless it takes a temporary leader away. */
  lemma RemoveMemberKeepsExactly(s: State, g: Guid)
    requires LeaderInv(s)
    ensures LeaderInv(s.(members := s.members - {g})) <==> g != s.leader || s.leader == s.original
  {
  }

  /** AddMember refuses the leader only: while another leads it would let the original leader in as a member. */
  lemma AddMemberKeepsExactly(s: State, g: Guid)
    requires LeaderInv(s) && g != s.leader
    ensures LeaderInv(s.(members := s.members + {g})) <==> g != s.original
  {
  }

  // ------------------------------------------------- the class takes these steps

  function StateIn(s: Snapshot): State
  {
    State(s.leader, s.original, s.members.Keys, IsFormation(s.options), s.creatures)
  }

  /** A creature dies, and its group is told. */
  method Die(group: CreatureGroup, g: Guid)
    requires g in group.world.creatures
    modifies group`leader, group.world`creatures, group.world`orders
    ensures StateIn(group.Snap()) == Next(StateIn(old(group.Snap())), Dies(g))
  {
    hide InOrder, OrdersTo, Has, LeaderNotice, MemberNotices, HandOver, Successor, World.Reports, World.Talks;
    group.world.creatures := group.world.creatures[g := group.world.creatures[g].(alive := false)];
    group.OnMemberDied(g);
  }

  /** A creature other than the original leader leaves its group. */
  method Leave(group: CreatureGroup, g: Guid)
    requires g != group.original
    modifies group`members, group`leader, group.world`orders
    ensures StateIn(group.Snap()) == Next(StateIn(old(group.Snap())), Leaves(g))
  {
    hide InOrder, OrdersTo, Has, World.Reports, World.Talks;
    group.Leave(g);
  }

  /** A creature joins a group, with its flags. */
  method Join(group: CreatureGroup, g: Guid, flags: bv32)
    requires g != group.original
    modifies group`members, group`options
    ensures StateIn(group.Snap()) == Next(StateIn(old(group.Snap())), Joins(g, flags & 1 != 0))
  {
    hide World.Reports, World.Talks;
    FormationBit(group.options, flags);
    var added := group.AddMember(g, flags);
  }

  lemma FormationBit(options: bv32, flags: bv32)
    ensures IsFormation(options | flags) <==> IsFormation(options) || flags & 1 != 0
  {
  }

  /** What OnRespawn and its callbacks come to: a report, or nothing but changes, and no creature lives or dies of it. */
  ghost predicate Reported(s: State, t: State, g: Guid)
  {
    && (forall h :: Lives(t.creatures, h) <==> Lives(s.creatures, h))
    && t == Next(if g == s.original || t.leader != s.leader then Next(s, Event.Reported) else s, Changes(t.creatures))
    && (LeaderInv(s) ==> LeaderInv(t))
  }

  lemma ReturnIsReported(a: Snapshot, b: Snapshot, g: Guid)
    requires Keeps(Returned(a, g), b)
    ensures Reported(StateIn(a), StateIn(b), g)
  {
    hide Keeps, Returned, IsFormation, Next, Enabled, Lives, SameCreatures;
    AfterReturn(a, b, g);
    SameLives(a.creatures, b.creatures);
    var s, t := StateIn(a), StateIn(b);
    QuietSteps(s, t.creatures);
    QuietSteps(s.(leader := s.original), t.creatures);
  }

  lemma AfterReturn(a: Snapshot, b: Snapshot, g: Guid)
    requires Keeps(Returned(a, g), b)
    ensures b.original == a.original && b.members == a.members && b.options == a.options
    ensures SameCreatures(a.creatures, b.creatures)
    ensures b.leader == a.original || (g != a.original && b.leader == a.leader)
  {
    hide InOrder, OrdersTo, Movers, SameCreatures, SameRespawnTimes, SameVictims;
  }

  lemma QuietSteps(s: State, cs: Creatures)
    ensures Enabled(s, Event.Reported) && Next(s, Event.Reported) == s.(leader := s.original)
    ensures Enabled(s, Changes(cs)) && Next(s, Changes(cs)) == s.(creatures := cs)
  {
  }

  lemma SameLives(a: Creatures, b: Creatures)
    requires SameCreatures(a, b)
    ensures forall h :: Lives(b, h) <==> Lives(a, h)
  {
  }

  method Return(group: CreatureGroup, g: Guid)
    requires group.Valid()
    modifies group, group.world
    ensures Reported(StateIn(old(group.Snap())), StateIn(group.Snap()), g)
  {
    hide RespawnList, Keeps, Returned, Reported, World.Reports, World.Talks;
    ghost var a := group.Snap();
    group.OnRespawn(g);
    ReturnIsReported(a, group.Snap(), g);
  }

  /** Every other call of a group, callbacks and all, keeps who may lead. */
  lemma CallsKeepTheLeader(a: Snapshot, b: Snapshot)
    requires Keeps(a, b) && LeaderInv(StateIn(a))
    ensures LeaderInv(StateIn(b))
    ensures !a.reports ==> b.leader == a.leader
  {
    hide Has, IsFormation, Lives, SameCreatures, SameRespawnTimes, SameVictims;
    SameLives(a.creatures, b.creatures);
  }
}
