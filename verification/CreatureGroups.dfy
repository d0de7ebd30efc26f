/**
 * Creature groups (src/game/CreatureGroups.cpp): who leads a formation after a
 * death, and the group calls that respawn or bring in every member although
 * those members call straight back into the group.
 */
module CreatureGroups {
  import opened Ordered

  type Guid = nat

  const FORMATION_MOVE: bv32 := 0x001
  const AGGRO_TOGETHER: bv32 := 0x002
  const EVADE_TOGETHER: bv32 := 0x004
  const RESPAWN_TOGETHER: bv32 := 0x008
  const RESPAWN_ALL_ON_MASTER_EVADE: bv32 := 0x010
  const RESPAWN_ALL_ON_ANY_EVADE: bv32 := 0x020
  const INFORM_LEADER_ON_MEMBER_DIED: bv32 := 0x040
  const INFORM_MEMBERS_ON_ANY_DIED: bv32 := 0x080

  // -------------------------------------------------------------- the world

  /** What the group looks at in a creature. spawnable is false where a battleground forbids its spawn. */
  datatype Creature = Creature(inWorld: bool, alive: bool, inCombat: bool, hasVictim: bool, hasAI: bool,
                               waypoints: bool, spawnable: bool, despawned: bool, respawnTime: nat)

  /** Calls into the group that respawning or being attacked may make. */
  datatype Callback = Respawned(g: Guid) | RespawnsAll(g: Guid) | StartsAttack(g: Guid) | LeavesCombat(g: Guid)

  /**
   * What the group tells a creature: its movement, its state, or its AI, which
   * hears of a member's or the leader's death.
   */
  datatype Kind = LeadWaypoints | RestartPatrol | Restart | Evade | MemberDied | LeaderDied

  datatype Order = Order(kind: Kind, to: Guid)

  type Creatures = map<Guid, Creature>

  predicate CanMove(cs: Creatures, g: Guid)
  {
    g in cs && cs[g].inWorld && cs[g].alive
  }

  predicate CanRespawn(cs: Creatures, now: nat, g: Guid)
  {
    g in cs && cs[g].inWorld && cs[g].respawnTime > now && cs[g].spawnable
  }

  predicate CanAssist(cs: Creatures, g: Guid)
  {
    CanMove(cs, g) && !cs[g].hasVictim && cs[g].hasAI
  }

  /** Nothing but respawn times and victims differs. */
  ghost predicate SameCreatures(a: Creatures, b: Creatures)
  {
    && a.Keys == b.Keys
    && forall g | g in a :: b[g] == a[g].(respawnTime := b[g].respawnTime, hasVictim := b[g].hasVictim)
  }

  ghost predicate SameRespawnTimes(a: Creatures, b: Creatures, except: set<Guid>)
    requires a.Keys == b.Keys
  {
    forall g | g in a && g !in except :: a[g].respawnTime == b[g].respawnTime
  }

  ghost predicate SameVictims(a: Creatures, b: Creatures, except: set<Guid>)
    requires a.Keys == b.Keys
  {
    forall g | g in a && g !in except :: a[g].hasVictim == b[g].hasVictim
  }

  /** The map the group's creatures are on, at one moment; which calls its creatures make back is up to them. */
  class World {
    var creatures: Creatures
    const now: nat
    const onRespawn: Guid -> seq<Callback>
    const onAttacked: Guid -> seq<Callback>
    const takesTarget: Guid -> bool
    var respawned: seq<Guid>
    var assisted: seq<Guid>
    var orders: seq<Order>

    /** Does some creature report the given one's return? */
    ghost predicate Reports(g: Guid)
    {
      exists h :: Respawned(g) in onRespawn(h) || Respawned(g) in onAttacked(h)
    }

    /** Does some creature make a call in which the group gives orders? */
    ghost predicate Talks()
    {
      exists h, c: Callback :: (c.Respawned? || c.LeavesCombat?) && (c in onRespawn(h) || c in onAttacked(h))
    }

    constructor (creatures: Creatures, now: nat, onRespawn: Guid -> seq<Callback>,
                 onAttacked: Guid -> seq<Callback>, takesTarget: Guid -> bool)
      ensures this.creatures == creatures && respawned == assisted == [] && orders == []
    {
      this.creatures, this.now := creatures, now;
      this.onRespawn, this.onAttacked, this.takesTarget := onRespawn, onAttacked, takesTarget;
      respawned, assisted, orders := [], [], [];
    }

    /** Creature::Respawn, without the calls it may make. */
    method Respawn(g: Guid)
      requires g in creatures
      modifies this
      ensures SameCreatures(old(creatures), creatures)
      ensures SameRespawnTimes(old(creatures), creatures, {g}) && SameVictims(old(creatures), creatures, {})
      ensures creatures[g].respawnTime == if old(creatures[g]).despawned then now else old(creatures[g]).respawnTime
      ensures respawned == old(respawned) + [g] && assisted == old(assisted) && orders == old(orders)
    {
      if creatures[g].despawned {
        creatures := creatures[g := creatures[g].(respawnTime := now)];
      }
      respawned := respawned + [g];
    }

    /** CreatureAI::AttackedBy, without the calls it may make. */
    method Attacked(g: Guid)
      requires g in creatures
      modifies this
      ensures SameCreatures(old(creatures), creatures)
      ensures SameRespawnTimes(old(creatures), creatures, {}) && SameVictims(old(creatures), creatures, {g})
      ensures creatures[g].hasVictim == (takesTarget(g) || old(creatures[g]).hasVictim)
      ensures assisted == old(assisted) + [g] && respawned == old(respawned) && orders == old(orders)
    {
      if takesTarget(g) {
        creatures := creatures[g := creatures[g].(hasVictim := true)];
      }
      assisted := assisted + [g];
    }

    method Tell(kind: Kind, g: Guid)
      modifies this`orders
      ensures orders == old(orders) + [Order(kind, g)]
    {
      orders := orders + [Order(kind, g)];
    }
  }

  // -------------------------------------------------------------- the group

  /** Everything the re-entrant calls touch, at one moment. */
  datatype Snapshot = Snapshot(leader: Guid, original: Guid, members: map<Guid, bv32>, options: bv32,
                               respawnGuard: bool, assistGuard: bool, creatures: Creatures, now: nat,
                               respawned: seq<Guid>, assisted: seq<Guid>, orders: seq<Order>,
                               reports: bool, talks: bool)

  /**
   * What every call keeps, however the creatures call back: the guards, the
   * members and the options; the leader, unless a callback reports the original
   * one; the orders given, and no new ones unless a callback is one that gives
   * orders; and under a guard everything that guard protects.
   */
  ghost predicate Keeps(a: Snapshot, b: Snapshot)
  {
    && b.respawnGuard == a.respawnGuard && b.assistGuard == a.assistGuard
    && b.members == a.members && b.options == a.options && b.original == a.original && b.now == a.now
    && b.reports == a.reports && b.talks == a.talks
    && (b.leader == a.leader || (a.reports && b.leader == a.original))
    && (b.orders == a.orders || (a.talks && a.orders <= b.orders))
    && SameCreatures(a.creatures, b.creatures)
    && (a.respawnGuard ==> b.respawned == a.respawned && SameRespawnTimes(a.creatures, b.creatures, {}))
    && (a.assistGuard ==> b.assisted == a.assisted && SameVictims(a.creatures, b.creatures, {}))
  }

  lemma KeepsTwice(a: Snapshot, b: Snapshot, c: Snapshot)
    requires Keeps(a, b) && Keeps(b, c)
    ensures Keeps(a, c)
  {
  }

  lemma KeepsKeys(a: Snapshot, b: Snapshot)
    requires Keeps(a, b)
    ensures a.creatures.Keys == b.creatures.Keys
  {
  }

  lemma KeepsItself(a: Snapshot)
    ensures Keeps(a, a)
  {
  }

  /** What OnRespawn itself does: the return of an original leader that is not leading is made known. */
  ghost function Returned(s: Snapshot, g: Guid): Snapshot
  {
    if g == s.original && s.leader != s.original
    then s.(leader := g, orders := s.orders + OrdersTo(InOrder(Movers(s.members.Keys, s.creatures, {})), Restart))
    else s
  }

  /** What OnLeaveCombat itself does: the others are told to evade. */
  ghost function Evaded(s: Snapshot, g: Guid): Snapshot
  {
    s.(orders := s.orders + EvadeOrders(s.options, s.original, s.members.Keys, s.creatures, g))
  }

  lemma SameList(s: Snapshot, h: Guid, except: Guid)
    ensures RespawnList(Returned(s, h), except) == RespawnList(Evaded(s, h), except) == RespawnList(s, except)
  {
    hide InOrder, OrdersTo, EvadeOrders, CanRespawn;
  }

  lemma CallbackKeeps(s: Snapshot, g: Guid)
    requires s.talks
    ensures (g == s.original ==> s.reports) ==> Keeps(s, Returned(s, g))
    ensures Keeps(s, Evaded(s, g))
  {
    hide InOrder, OrdersTo, EvadeOrders;
  }

  class CreatureGroup {
    var leader: Guid
    const original: Guid
    var options: bv32
    var assistGuard: bool
    var respawnGuard: bool
    var members: map<Guid, bv32>
    const world: World

    constructor (leader: Guid, world: World)
      ensures this.leader == original == leader && options == 0 && !assistGuard && !respawnGuard
      ensures members == map[] && this.world == world
    {
      this.leader, original, options, this.world := leader, leader, 0, world;
      assistGuard, respawnGuard, members := false, false, map[];
    }

    ghost function Snap(): Snapshot
      reads this, world
    {
      Snapshot(leader, original, members, options, respawnGuard, assistGuard,
               world.creatures, world.now, world.respawned, world.assisted, world.orders,
               world.Reports(original), world.Talks())
    }

    /** Two for no guard set, none for both: what the nesting of calls counts down. */
    function Open(): nat
      reads this
    {
      (if respawnGuard then 0 else 1) + (if assistGuard then 0 else 1)
    }

    /** AddMember lets in anyone but the leader; until it lets in the original leader, this holds. */
    predicate Valid()
      reads this
    {
      original !in members
    }

    // ------------------------------------------------------------ respawning

    /** Respawn. The place a formation member is put at is not modelled. */
    method Respawn(g: Guid)
      requires Valid() && g in world.creatures
      modifies this, world
      ensures Keeps(old(Snap()), Snap())
      ensures world.respawned == old(world.respawned) + Once(old(Snap()), g)
      ensures SameRespawnTimes(old(world.creatures), world.creatures, {g})
      decreases Open(), 2
    {
      if respawnGuard { return; }
      respawnGuard := true;
      if CanRespawn(world.creatures, world.now, g) {
        world.Respawn(g);
        CallBack(world.onRespawn(g), g);
      }
      respawnGuard := false;
    }

    /** RespawnAll: every member that can be, once and in guid order, then the original leader. */
    method RespawnAll(except: Guid)
      requires Valid()
      modifies this, world
      ensures Keeps(old(Snap()), Snap())
      ensures world.respawned == old(world.respawned) + RespawnList(old(Snap()), except)
      decreases Open(), 3
    {
      hide InOrder, SameCreatures, SameRespawnTimes, SameVictims;
      ghost var start := Snap();
      ghost var done: set<Guid> := {};
      var rest := members.Keys;
      StartRespawning(start, except);
      while rest != {}
        invariant rest <= members.Keys && done == members.Keys - rest
        invariant forall h, g | h in done && g in rest :: h < g
        invariant Keeps(start, Snap()) && Respawning(start, Snap(), except, done)
      {
        LeastExists(rest);
        var g :| g in rest && IsLeast(rest, g);
        ghost var before := Snap();
        if g != except && g in world.creatures {
          Respawn(g);
        }
        RespawnStep(start, before, Snap(), except, done, g);
        rest, done := rest - {g}, done + {g};
      }
      ghost var before := Snap();
      if except != original && original in world.creatures {
        Respawn(original);
      }
      RespawnEnd(start, before, Snap(), except, done);
    }

    /** OnRespawn: the original leader takes over again. */
    method OnRespawn(g: Guid)
      requires Valid()
      modifies this, world
      ensures Keeps(Returned(old(Snap()), g), Snap())
      ensures world.respawned == old(world.respawned) +
              if Has(options, RESPAWN_TOGETHER) then RespawnList(old(Snap()), g) else []
      decreases Open(), 4
    {
      hide InOrder, OrdersTo, Has, SameCreatures, SameRespawnTimes, SameVictims, World.Reports, World.Talks;
      ghost var returned := Returned(Snap(), g);
      if leader != original && g == original {
        leader := original;
        TellMovers({}, Restart);
      }
      assert Snap() == returned;
      KeepsItself(returned);
      if !Has(options, RESPAWN_TOGETHER) { return; }
      RespawnAll(g);
    }

    /** The part of OnLeaveCombat that makes the others evade; the answer is whether the original leader evades. */
    method EvadeTogether(g: Guid) returns (masterEvade: bool)
      modifies world`orders
      ensures masterEvade == MasterEvades(options, original, world.creatures, g)
      ensures world.orders == old(world.orders) + EvadeOrders(options, original, members.Keys, world.creatures, g)
    {
      hide InOrder, OrdersTo, CanEvade, Has, Evaders;
      masterEvade := g == original;
      if Has(options, EVADE_TOGETHER) {
        ghost var others := OrdersTo(InOrder(Evaders(members.Keys, world.creatures, g)), Evade);
        TellEvaders(g);
        if !masterEvade && CanEvade(world.creatures, original) {
          masterEvade := true;
          world.Tell(Evade, original);
          assert old(world.orders) + others + [Order(Evade, original)] ==
                 old(world.orders) + (others + [Order(Evade, original)]);
        }
      }
    }

    method TellEvaders(g: Guid)
      modifies world`orders
      ensures world.orders == old(world.orders) + OrdersTo(InOrder(Evaders(members.Keys, world.creatures, g)), Evade)
    {
      hide InOrder, OrdersTo, CanEvade;
      var evaders := set h | h in members && h != g && CanEvade(world.creatures, h);
      Tell(evaders, Evade);
      assert evaders == Evaders(members.Keys, world.creatures, g);
    }

    /** OnLeaveCombat. */
    method OnLeaveCombat(g: Guid)
      requires Valid()
      modifies this, world
      ensures Keeps(Evaded(old(Snap()), g), Snap())
      ensures world.respawned == old(world.respawned) +
              if || Has(options, RESPAWN_ALL_ON_ANY_EVADE)
                 || (Has(options, RESPAWN_ALL_ON_MASTER_EVADE)
                     && MasterEvades(options, original, old(world.creatures), g))
              then RespawnList(old(Snap()), g) else []
      decreases Open(), 4
    {
      hide InOrder, SameCreatures, SameRespawnTimes, SameVictims, RespawnList, MasterEvades, Has, EvadeOrders;
      hide World.Reports, World.Talks;
      ghost var evaded := Evaded(Snap(), g);
      var masterEvade := EvadeTogether(g);
      assert Snap() == evaded;
      KeepsItself(evaded);
      SameList(old(Snap()), g, g);
      if Has(options, RESPAWN_ALL_ON_ANY_EVADE) || (Has(options, RESPAWN_ALL_ON_MASTER_EVADE) && masterEvade) {
        RespawnAll(g);
      }
    }

    // --------------------------------------------------------------- assisting

    /** MemberAssist; a null creature is one that is not on the map. */
    method MemberAssist(g: Guid)
      requires Valid()
      modifies this, world
      ensures Keeps(old(Snap()), Snap())
      ensures world.assisted == old(world.assisted) +
              if !old(assistGuard) && CanAssist(old(world.creatures), g) then [g] else []
      ensures SameVictims(old(world.creatures), world.creatures, {g})
      decreases Open(), 2
    {
      if assistGuard { return; }
      if !CanMove(world.creatures, g) { return; }
      if world.creatures[g].hasVictim { return; }
      if world.creatures[g].hasAI {
        assistGuard := true;
        world.Attacked(g);
        CallBack(world.onAttacked(g), g);
        assistGuard := false;
      }
    }

    /** OnMemberAttackStart: every member that can help does, once and in guid order, then the original leader. */
    method OnMemberAttackStart(attacker: Guid)
      requires Valid()
      modifies this, world
      ensures Keeps(old(Snap()), Snap())
      ensures world.assisted == old(world.assisted) +
              if Has(options, AGGRO_TOGETHER) then AssistList(old(Snap()), attacker) else []
      decreases Open(), 3
    {
      hide InOrder, SameCreatures, SameRespawnTimes, SameVictims, Has;
      ghost var start := Snap();
      KeepsItself(start);
      if !Has(options, AGGRO_TOGETHER) { return; }
      ghost var done: set<Guid> := {};
      var rest := members.Keys;
      StartAssisting(start, attacker);
      while rest != {}
        invariant rest <= members.Keys && done == members.Keys - rest
        invariant forall h, g | h in done && g in rest :: h < g
        invariant Keeps(start, Snap()) && Assisting(start, Snap(), attacker, done)
      {
        LeastExists(rest);
        var g :| g in rest && IsLeast(rest, g);
        ghost var before := Snap();
        if g != attacker {
          MemberAssist(g);
        }
        AssistStep(start, before, Snap(), attacker, done, g);
        rest, done := rest - {g}, done + {g};
      }
      ghost var before := Snap();
      if attacker != original {
        MemberAssist(original);
      }
      AssistEnd(start, before, Snap(), attacker, done);
    }

    /** The calls that creature g makes back into the group while one of the guards is set. */
    method CallBack(calls: seq<Callback>, ghost g: Guid)
      requires Valid() && (calls == world.onRespawn(g) || calls == world.onAttacked(g))
      modifies this, world
      ensures Keeps(old(Snap()), Snap())
      decreases Open(), 5
    {
      hide InOrder, OrdersTo, SameCreatures, SameRespawnTimes, SameVictims;
      ghost var start := Snap();
      KeepsItself(start);
      var i := 0;
      while i < |calls|
        invariant 0 <= i <= |calls| && Keeps(start, Snap())
        decreases |calls| - i
      {
        ghost var before := Snap();
        assert calls[i] in world.onRespawn(g) || calls[i] in world.onAttacked(g);
        match calls[i] {
          case Respawned(h) => {
            assert Respawned(h) == calls[i] && world.Talks();
            CallbackKeeps(before, h);
            OnRespawn(h);
            KeepsTwice(before, Returned(before, h), Snap());
          }
          case RespawnsAll(h) => RespawnAll(h);
          case StartsAttack(h) => OnMemberAttackStart(h);
          case LeavesCombat(h) => {
            assert LeavesCombat(h) == calls[i] && world.Talks();
            CallbackKeeps(before, h);
            OnLeaveCombat(h);
            KeepsTwice(before, Evaded(before, h), Snap());
          }
        }
        KeepsTwice(start, before, Snap());
        i := i + 1;
      }
    }

    // ------------------------------------------------------------- succession

    /** Give an order to each of the given members, in guid order. */
    method Tell(to: set<Guid>, kind: Kind)
      modifies world`orders
      ensures world.orders == old(world.orders) + OrdersTo(InOrder(to), kind)
    {
      hide InOrder, OrdersTo;
      var rest := to;
      ghost var done: set<Guid> := {};
      ghost var given: seq<Order> := [];
      NoOrders(kind);
      while rest != {}
        invariant rest <= to && done == to - rest
        invariant forall h, g | h in done && g in rest :: h < g
        invariant given == OrdersTo(InOrder(done), kind) && world.orders == old(world.orders) + given
      {
        LeastExists(rest);
        var g :| g in rest && IsLeast(rest, g);
        world.Tell(kind, g);
        OneMoreOrder(done, g, kind);
        rest, done, given := rest - {g}, done + {g}, given + [Order(kind, g)];
      }
      assert done == to;
    }

    /** Give an order to every member that is alive and in the world. */
    method TellMovers(except: set<Guid>, kind: Kind)
      modifies world`orders
      ensures world.orders == old(world.orders) + OrdersTo(InOrder(Movers(members.Keys, world.creatures, except)), kind)
    {
      var movers := set h | h in members && h !in except && CanMove(world.creatures, h);
      Tell(movers, kind);
    }

    /** The loop of OnMemberDied that looks for a successor: the first other member that can move. */
    method FindSuccessor(died: Guid) returns (found: bool, successor: Guid)
      ensures var able := Movers(members.Keys, world.creatures, {died});
              found == (able != {}) && (found ==> IsLeast(able, successor))
    {
      var rest := members.Keys;
      while rest != {}
        invariant rest <= members.Keys
        invariant Movers(members.Keys, world.creatures, {died}) <= rest
      {
        LeastExists(rest);
        var g :| g in rest && IsLeast(rest, g);
        if g != died && CanMove(world.creatures, g) {
          assert g in Movers(members.Keys, world.creatures, {died});
          return true, g;
        }
        rest := rest - {g};
      }
      return false, 0;
    }

    /** The part of OnMemberDied that picks a new leader. */
    method ElectLeader(died: Guid)
      requires died in world.creatures
      modifies this`leader, world`orders
      ensures leader == Successor(old(leader), original, members.Keys, IsFormation(options), world.creatures, died)
      ensures world.orders == old(world.orders) +
              HandOver(old(leader), leader, original, members.Keys, options, world.creatures, died)
    {
      hide InOrder, Has;
      if died == leader && IsFormation(options) {
        if original in world.creatures && world.creatures[original].waypoints {
          var found, successor := FindSuccessor(died);
          if found {
            leader := successor;
            world.Tell(LeadWaypoints, successor);
            TellMovers({died, successor}, RestartPatrol);
            assert Movers(members.Keys, world.creatures, {died, successor}) ==
                   Movers(members.Keys, world.creatures, {died}) - {successor};
            SameLeast(Movers(members.Keys, world.creatures, {died}), leader);
          } else {
            leader := original;
          }
        }
      }
    }

    /** The part of OnMemberDied that tells the AI of the original leader. */
    method InformLeader(died: Guid)
      modifies world`orders
      ensures world.orders == old(world.orders) + LeaderNotice(options, original, world.creatures, died)
    {
      hide Has, CanHear;
      if Has(options, INFORM_LEADER_ON_MEMBER_DIED) && died != original && CanHear(world.creatures, original) {
        world.Tell(MemberDied, original);
      }
    }

    /** The part of OnMemberDied that tells the AI of the members. */
    method InformMembers(died: Guid)
      modifies world`orders
      ensures world.orders == old(world.orders) + MemberNotices(options, original, members.Keys, world.creatures, died)
    {
      hide InOrder, OrdersTo, Has, CanHear, Hearers;
      if Has(options, INFORM_MEMBERS_ON_ANY_DIED) {
        TellHearers(died, if died == original then LeaderDied else MemberDied);
      }
    }

    method TellHearers(died: Guid, kind: Kind)
      modifies world`orders
      ensures world.orders == old(world.orders) + OrdersTo(InOrder(Hearers(members.Keys, world.creatures, died)), kind)
    {
      hide InOrder, OrdersTo, CanHear;
      var hearers := set h | h in members && h != died && CanHear(world.creatures, h);
      Tell(hearers, kind);
      assert hearers == Hearers(members.Keys, world.creatures, died);
    }

    /** OnMemberDied. The dead creature is still on the map. */
    method OnMemberDied(died: Guid)
      requires died in world.creatures
      modifies this`leader, world`orders
      ensures leader == Successor(old(leader), original, members.Keys, IsFormation(options), world.creatures, died)
      ensures world.orders == old(world.orders)
              + LeaderNotice(options, original, world.creatures, died)
              + MemberNotices(options, original, members.Keys, world.creatures, died)
              + HandOver(old(leader), leader, original, members.Keys, options, world.creatures, died)
    {
      hide InOrder, OrdersTo, Has, LeaderNotice, MemberNotices, HandOver, Successor;
      InformLeader(died);
      InformMembers(died);
      ElectLeader(died);
    }

    /** AddMember. Its answer says whether the guid was let in. */
    method AddMember(g: Guid, flags: bv32) returns (added: bool)
      modifies this`members, this`options
      ensures added == (g != leader)
      ensures if added then members == old(members)[g := flags] && options == old(options) | flags
              else members == old(members) && options == old(options)
      ensures old(Valid()) ==> (Valid() <==> g != original || leader == original)
    {
      if g == leader { return false; }
      members := members[g := flags];
      options := options | flags;
      return true;
    }

    method RemoveMember(g: Guid)
      modifies this`members
      ensures members == old(members) - {g}
    {
      members := members - {g};
    }

    method RemoveTemporaryLeader(g: Guid)
      modifies this`members, this`leader, world`orders
      ensures leader == original && members == old(members) - {g}
      ensures world.orders == old(world.orders) +
              OrdersTo(InOrder(Movers(members.Keys, world.creatures, {g})), RestartPatrol)
    {
      hide InOrder;
      leader := original;
      RemoveMember(g);
      TellMovers({g}, RestartPatrol);
    }

    /** Creature::LeaveCreatureGroup, for any creature but the original leader, whose leaving disbands the group. */
    method Leave(g: Guid)
      requires g != original
      modifies this`members, this`leader, world`orders
      ensures members == old(members) - {g}
      ensures leader == if g == old(leader) then original else old(leader)
    {
      hide InOrder;
      if leader == g {
        RemoveTemporaryLeader(g);
      } else {
        RemoveMember(g);
      }
    }
  }

  // ------------------------------------------------- what the contracts name

  /** HasGroupFlag. */
  predicate Has(options: bv32, flag: bv32)
  {
    options & flag != 0
  }

  predicate IsFormation(options: bv32)
  {
    Has(options, FORMATION_MOVE)
  }

  predicate CanEvade(cs: Creatures, g: Guid)
  {
    g in cs && cs[g].inWorld && cs[g].inCombat && cs[g].hasAI
  }

  predicate CanHear(cs: Creatures, g: Guid)
  {
    CanMove(cs, g) && cs[g].hasAI
  }

  ghost function Hearers(members: set<Guid>, cs: Creatures, died: Guid): set<Guid>
  {
    set h | h in members && h != died && CanHear(cs, h)
  }

  /** The original leader is told of a member's death, if the options say so. */
  ghost function LeaderNotice(options: bv32, original: Guid, cs: Creatures, died: Guid): seq<Order>
  {
    if Has(options, INFORM_LEADER_ON_MEMBER_DIED) && died != original && CanHear(cs, original)
    then [Order(MemberDied, original)]
    else []
  }

  /** The other members are told of any death, if the options say so. */
  ghost function MemberNotices(options: bv32, original: Guid, members: set<Guid>, cs: Creatures, died: Guid): seq<Order>
  {
    if Has(options, INFORM_MEMBERS_ON_ANY_DIED)
    then OrdersTo(InOrder(Hearers(members, cs, died)), if died == original then LeaderDied else MemberDied)
    else []
  }

  /** What movement a change of leader brings with it: the new one leads, the others follow it. */
  ghost function HandOver(before: Guid, after: Guid, original: Guid, members: set<Guid>, options: bv32,
                          cs: Creatures, died: Guid): seq<Order>
  {
    var able := Movers(members, cs, {died});
    if Elects(before, original, IsFormation(options), cs, died) && able != {}
    then [Order(LeadWaypoints, after)] + OrdersTo(InOrder(able - {after}), RestartPatrol)
    else []
  }

  predicate MasterEvades(options: bv32, original: Guid, cs: Creatures, g: Guid)
  {
    g == original || (Has(options, EVADE_TOGETHER) && CanEvade(cs, original))
  }

  ghost function Evaders(members: set<Guid>, cs: Creatures, g: Guid): set<Guid>
  {
    set h | h in members && h != g && CanEvade(cs, h)
  }

  ghost function EvadeOrders(options: bv32, original: Guid, members: set<Guid>, cs: Creatures, g: Guid): seq<Order>
  {
    if !Has(options, EVADE_TOGETHER) then []
    else
      OrdersTo(InOrder(Evaders(members, cs, g)), Evade)
      + if g != original && CanEvade(cs, original) then [Order(Evade, original)] else []
  }

  ghost function Once(s: Snapshot, g: Guid): seq<Guid>
  {
    if !s.respawnGuard && CanRespawn(s.creatures, s.now, g) then [g] else []
  }

  ghost function RespawnTargets(s: Snapshot, except: Guid, among: set<Guid>): set<Guid>
  {
    set g | g in among && g != except && CanRespawn(s.creatures, s.now, g)
  }

  /** Whom RespawnAll respawns, judged before it starts. */
  ghost function RespawnList(s: Snapshot, except: Guid): seq<Guid>
  {
    if s.respawnGuard then []
    else InOrder(RespawnTargets(s, except, s.members.Keys)) + if except != s.original then Once(s, s.original) else []
  }

  ghost function AssistTargets(s: Snapshot, attacker: Guid, among: set<Guid>): set<Guid>
  {
    set g | g in among && g != attacker && CanAssist(s.creatures, g)
  }

  /** Whom OnMemberAttackStart brings in, judged before it starts. */
  ghost function AssistList(s: Snapshot, attacker: Guid): seq<Guid>
  {
    if s.assistGuard then []
    else
      InOrder(AssistTargets(s, attacker, s.members.Keys))
      + if attacker != s.original && CanAssist(s.creatures, s.original) then [s.original] else []
  }

  ghost function Movers(members: set<Guid>, cs: Creatures, except: set<Guid>): set<Guid>
  {
    set g | g in members && g !in except && CanMove(cs, g)
  }

  ghost function OrdersTo(gs: seq<Guid>, kind: Kind): seq<Order>
  {
    if gs == [] then [] else OrdersTo(gs[..|gs| - 1], kind) + [Order(kind, gs[|gs| - 1])]
  }

  lemma NoOrders(kind: Kind)
    ensures OrdersTo(InOrder({}), kind) == []
  {
  }

  lemma OneMoreOrder(done: set<Guid>, g: Guid, kind: Kind)
    requires forall h | h in done :: h < g
    ensures OrdersTo(InOrder(done + {g}), kind) == OrdersTo(InOrder(done), kind) + [Order(kind, g)]
  {
  }

  /** Whether this death makes the group look for a new leader. */
  ghost predicate Elects(leader: Guid, original: Guid, formation: bool, cs: Creatures, died: Guid)
  {
    died == leader && formation && original in cs && cs[original].waypoints
  }

  /** The leader after a death: the first living member in the world, or else the original leader. */
  ghost function Successor(leader: Guid, original: Guid, members: set<Guid>, formation: bool,
                           cs: Creatures, died: Guid): Guid
  {
    var able := Movers(members, cs, {died});
    if !Elects(leader, original, formation, cs, died) then leader
    else if able == {} then original
    else
      LeastExists(able);
      var g :| IsLeast(able, g);
      g
  }

  lemma SameLeast(s: set<Guid>, g: Guid)
    requires IsLeast(s, g)
    ensures forall h | IsLeast(s, h) :: h == g
  {
  }

  // ------------------------------------------------------------- loop steps

  /** The members done so far have been respawned as they could be at the start; the others are as they were. */
  ghost predicate Respawning(start: Snapshot, s: Snapshot, except: Guid, done: set<Guid>)
  {
    && start.creatures.Keys == s.creatures.Keys
    && SameRespawnTimes(start.creatures, s.creatures, done)
    && s.respawned == start.respawned + if start.respawnGuard then [] else InOrder(RespawnTargets(start, except, done))
  }

  lemma StartRespawning(s: Snapshot, except: Guid)
    ensures Keeps(s, s) && Respawning(s, s, except, {})
  {
  }

  lemma CanStillRespawn(start: Snapshot, s: Snapshot, done: set<Guid>, g: Guid)
    requires Keeps(start, s) && SameRespawnTimes(start.creatures, s.creatures, done) && g !in done
    ensures CanRespawn(s.creatures, s.now, g) <==> CanRespawn(start.creatures, start.now, g)
    ensures CanRespawn(start.creatures, start.now, g) ==> g in s.creatures
  {
  }

  lemma RespawnStep(start: Snapshot, s: Snapshot, next: Snapshot, except: Guid, done: set<Guid>, g: Guid)
    requires Keeps(start, s) && Respawning(start, s, except, done)
    requires g !in done && forall h | h in done :: h < g
    requires if g != except && g in s.creatures then
               && Keeps(s, next) && next.respawned == s.respawned + Once(s, g)
               && SameRespawnTimes(s.creatures, next.creatures, {g})
             else next == s
    ensures Keeps(start, next) && Respawning(start, next, except, done + {g})
  {
    hide InOrder, SameCreatures, SameVictims, CanRespawn;
    if g != except && g in s.creatures {
      KeepsTwice(start, s, next);
      KeepsKeys(s, next);
    }
    CanStillRespawn(start, s, done, g);
    var old', new' := RespawnTargets(start, except, done), RespawnTargets(start, except, done + {g});
    if g != except && CanRespawn(start.creatures, start.now, g) {
      assert new' == old' + {g};
      InOrderGrows(old', g);
    } else {
      assert new' == old';
    }
  }

  lemma RespawnEnd(start: Snapshot, s: Snapshot, next: Snapshot, except: Guid, done: set<Guid>)
    requires Keeps(start, s) && Respawning(start, s, except, done) && done == start.members.Keys
    requires start.original !in done
    requires if except != start.original && start.original in s.creatures then
               && Keeps(s, next) && next.respawned == s.respawned + Once(s, start.original)
             else next == s
    ensures Keeps(start, next)
    ensures next.respawned == start.respawned + RespawnList(start, except)
  {
    hide InOrder, SameCreatures, SameVictims, CanRespawn;
    CanStillRespawn(start, s, done, start.original);
    if next != s {
      KeepsTwice(start, s, next);
    }
  }

  ghost predicate Assisting(start: Snapshot, s: Snapshot, attacker: Guid, done: set<Guid>)
  {
    && start.creatures.Keys == s.creatures.Keys
    && SameVictims(start.creatures, s.creatures, done)
    && s.assisted == start.assisted + if start.assistGuard then [] else InOrder(AssistTargets(start, attacker, done))
  }

  lemma StartAssisting(s: Snapshot, attacker: Guid)
    ensures Keeps(s, s) && Assisting(s, s, attacker, {})
  {
  }

  lemma CanStillAssist(start: Snapshot, s: Snapshot, done: set<Guid>, g: Guid)
    requires Keeps(start, s) && SameVictims(start.creatures, s.creatures, done) && g !in done
    ensures CanAssist(s.creatures, g) <==> CanAssist(start.creatures, g)
  {
  }

  lemma AssistStep(start: Snapshot, s: Snapshot, next: Snapshot, attacker: Guid, done: set<Guid>, g: Guid)
    requires Keeps(start, s) && Assisting(start, s, attacker, done)
    requires g !in done && forall h | h in done :: h < g
    requires if g != attacker then
               && Keeps(s, next) && SameVictims(s.creatures, next.creatures, {g})
               && next.assisted == s.assisted + if !s.assistGuard && CanAssist(s.creatures, g) then [g] else []
             else next == s
    ensures Keeps(start, next) && Assisting(start, next, attacker, done + {g})
  {
    hide InOrder, SameCreatures, SameRespawnTimes, CanAssist;
    if g != attacker {
      KeepsTwice(start, s, next);
      KeepsKeys(s, next);
    }
    CanStillAssist(start, s, done, g);
    var old', new' := AssistTargets(start, attacker, done), AssistTargets(start, attacker, done + {g});
    if g != attacker && CanAssist(start.creatures, g) {
      assert new' == old' + {g};
      InOrderGrows(old', g);
    } else {
      assert new' == old';
    }
  }

  lemma AssistEnd(start: Snapshot, s: Snapshot, next: Snapshot, attacker: Guid, done: set<Guid>)
    requires Keeps(start, s) && Assisting(start, s, attacker, done) && done == start.members.Keys
    requires start.original !in done
    requires if attacker != start.original then
               && Keeps(s, next)
               && next.assisted == s.assisted +
                  if !s.assistGuard && CanAssist(s.creatures, start.original) then [start.original] else []
             else next == s
    ensures Keeps(start, next)
    ensures next.assisted == start.assisted + AssistList(start, attacker)
  {
    hide InOrder, SameCreatures, SameRespawnTimes, CanAssist;
    CanStillAssist(start, s, done, start.original);
    if next != s {
      KeepsTwice(start, s, next);
    }
  }
}
