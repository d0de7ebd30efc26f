/**
 * Cameras and viewpoints (src/game/Camera.h, src/game/Camera.cpp): each camera
 * knows the object it looks from, each object lists the cameras that do, and
 * an event on the object calls every camera in a list that the calls change.
 */
module Cameras {
  import opened Bytes

  // ------------------------------------------------------------ lists of nodes

  ghost predicate NoRepeats(s: seq<Camera>)
  {
    forall i, j | 0 <= i < j < |s| :: s[i] != s[j]
  }

  /** std::list::remove. */
  function Without(s: seq<Camera>, x: Camera): seq<Camera>
  {
    if s == [] then []
    else if s[0] == x then Without(s[1..], x)
    else [s[0]] + Without(s[1..], x)
  }

  lemma {:induction false} WithoutHolds(s: seq<Camera>, x: Camera)
    ensures var r := Without(s, x);
            && (forall y | y in s && y != x :: y in r)
            && (forall y | y in r :: y in s && y != x)
            && (NoRepeats(s) ==> NoRepeats(r))
  {
    if s != [] {
      WithoutHolds(s[1..], x);
      assert forall y | y in s :: y == s[0] || y in s[1..];
      var rest := Without(s[1..], x);
      assert forall k | 0 <= k < |rest| :: rest[k] in rest;
      if NoRepeats(s) {
        assert forall k | 0 <= k < |s[1..]| :: s[1..][k] == s[k + 1];
        assert NoRepeats(s[1..]) && s[0] !in s[1..];
      }
    }
  }

  lemma {:induction false} WithoutAbsent(s: seq<Camera>, x: Camera)
    requires x !in s
    ensures Without(s, x) == s
  {
    if s != [] {
      WithoutAbsent(s[1..], x);
      assert s == [s[0]] + s[1..];
    }
  }

  lemma {:induction false} WithoutMiddle(a: seq<Camera>, x: Camera, b: seq<Camera>)
    requires x !in a && x !in b
    ensures Without(a + [x] + b, x) == a + b
  {
    var s := a + [x] + b;
    if a == [] {
      WithoutAbsent(b, x);
      assert s[1..] == b && a + b == b;
    } else {
      WithoutMiddle(a[1..], x, b);
      assert s[1..] == a[1..] + [x] + b;
      assert [a[0]] + (a[1..] + b) == a + b;
    }
  }

  /** The elements of s outside a set, in their order. */
  ghost function Outside(s: seq<Camera>, out: set<Camera>): seq<Camera>
  {
    if s == [] then []
    else
      var last := s[|s| - 1];
      Outside(s[..|s| - 1], out) + if last in out then [] else [last]
  }

  lemma OutsideGrows(s: seq<Camera>, x: Camera, out: set<Camera>)
    ensures Outside(s + [x], out) == Outside(s, out) + if x in out then [] else [x]
  {
  }

  lemma {:induction false} OutsideHolds(s: seq<Camera>, out: set<Camera>)
    ensures forall x | x in Outside(s, out) :: x in s && x !in out
    ensures forall x | x in s && x !in out :: x in Outside(s, out)
  {
    if s != [] {
      OutsideHolds(s[..|s| - 1], out);
      assert s == s[..|s| - 1] + [s[|s| - 1]];
    }
  }

  // ------------------------------------------------------------- the classes

  /** The calls a viewpoint makes to its cameras. UpdateVisibility stands for UpdateVisibilityForOwner. */
  datatype Handler = AddedToWorld | RemovedFromWorld | Moved | VisibilityChanged | UpdateVisibility

  /** An object of the world together with the ViewPoint it contains: cameras and grid are the viewpoint's. */
  class WorldObject {
    const isUnitOrDynamic: bool
    var inWorld: bool
    var mapId: nat
    var visible: set<WorldObject>
    var cameras: seq<Camera>
    var grid: Option<nat>

    constructor (isUnitOrDynamic: bool)
      ensures !inWorld && cameras == [] && grid == None && this.isUnitOrDynamic == isUnitOrDynamic
    {
      this.isUnitOrDynamic := isUnitOrDynamic;
      inWorld, mapId, visible, cameras, grid := false, 0, {}, [], None;
    }

    predicate IsInMap(other: WorldObject)
      reads this`inWorld, this`mapId, other`inWorld, other`mapId
    {
      inWorld && other.inWorld && mapId == other.mapId
    }

    /** Attach. */
    method Attach(c: Camera)
      modifies this`cameras
      ensures cameras == old(cameras) + [c]
    {
      cameras := cameras + [c];
    }

    /** Detach. */
    method Detach(c: Camera)
      modifies this`cameras
      ensures cameras == Without(old(cameras), c)
    {
      cameras := Without(cameras, c);
    }

    /** The node an iterator moves on to from c's. */
    method After(c: Camera) returns (next: Option<Camera>, ghost at: nat)
      requires c in cameras
      ensures at < |cameras| && cameras[at] == c
      ensures next == if at + 1 < |cameras| then Some(cameras[at + 1]) else None
    {
      var i := 0;
      while cameras[i] != c
        invariant 0 <= i < |cameras| && forall k | 0 <= k < i :: cameras[k] != c
        decreases |cameras| - i
      {
        i := i + 1;
      }
      at := i;
      next := if i + 1 < |cameras| then Some(cameras[i + 1]) else None;
    }

    /**
     * CameraCall: every camera in the list is called once and in order,
     * although a call may take its camera out of the list. The iterator has
     * moved on before the call, to a node that the call leaves in place.
     */
    method CameraCall(h: Handler, ghost w: World) returns (ghost called: seq<Camera>)
      requires w.Listed() && this in w.objects
      requires h.AddedToWorld? || h.Moved? ==> grid.Some?
      modifies w.objects`cameras, w.cameras
      ensures w.Listed() && called == old(cameras)
      ensures cameras == Outside(called, old(Leaving(h)))
      ensures forall c | c in w.cameras ::
                if c in old(cameras) then Called(h, c, c in old(Leaving(h)), old(c.link))
                else c.source == old(c.source) && c.link == old(c.link)
    {
      hide Outside, Without, Wired, NoRepeats, LinkAfter, Remaining, FirstOf, SendsHome;
      ghost var initial, leaving, n := cameras, Leaving(h), 0;
      called := [];
      var next := if cameras == [] then None else Some(cameras[0]);
      CallStart(initial, leaving);
      ListedMeans(w);
      while next.Some?
        invariant n <= |initial| && called == initial[..n]
        invariant next == if n < |initial| then Some(initial[n]) else None
        invariant cameras == Remaining(initial, n, leaving)
        invariant w.Listed()
        invariant forall c | c in w.cameras ::
                    if c in FirstOf(initial, n) then Called(h, c, c in leaving, old(c.link))
                    else c.source == old(c.source) && c.link == old(c.link)
        decreases |initial| - n
      {
        var c := next.value;
        ListedMeans(w);
        next := Advance(c, initial, n, leaving);
        CallOne(h, c, w, initial, n, leaving);
        CountStep(initial, n);
        called, n := called + [c], n + 1;
      }
      CallEnd(initial, leaving);
    }

    /** Where CameraCall's iterator goes before camera n is called. */
    method Advance(c: Camera, ghost initial: seq<Camera>, ghost n: nat, ghost leaving: set<Camera>)
      returns (next: Option<Camera>)
      requires n < |initial| && c == initial[n] && NoRepeats(initial)
      requires cameras == Remaining(initial, n, leaving) && NoRepeats(cameras)
      ensures next == if n + 1 < |initial| then Some(initial[n + 1]) else None
    {
      hide Remaining, Without, FirstOf;
      ghost var at := CallStep(initial, n, leaving);
      ghost var place: nat;
      assert cameras[at] == c;
      next, place := After(c);
    }

    /** One call of CameraCall. */
    method CallOne(h: Handler, c: Camera, ghost w: World,
                   ghost initial: seq<Camera>, ghost n: nat, ghost leaving: set<Camera>)
      requires w.Listed() && this in w.objects
      requires h.AddedToWorld? || h.Moved? ==> grid.Some?
      requires c in leaving <==> SendsHome(h, c)
      requires n < |initial| && c == initial[n] && NoRepeats(initial) && cameras == Remaining(initial, n, leaving)
      modifies c, this`cameras, c.owner`cameras
      ensures w.Listed() && Called(h, c, c in leaving, old(c.link))
      ensures cameras == Remaining(initial, n + 1, leaving)
    {
      hide Without, Wired, NoRepeats, LinkAfter, Remaining, FirstOf;
      ListedMeans(w);
      ghost var at := CallStep(initial, n, leaving);
      assert cameras[at] == c;
      c.Handle(h, w);
    }

    /** Event_AddedToWorld. */
    method EventAddedToWorld(g: nat, ghost w: World)
      requires w.Listed() && this in w.objects
      modifies this`grid, w.objects`cameras, w.cameras
      ensures w.Listed() && grid == Some(g) && cameras == old(cameras)
      ensures forall c | c in w.cameras :: c.source == old(c.source)
      ensures forall c | c in w.cameras :: c.link == if c in cameras then grid else old(c.link)
    {
      hide Outside, Wired, NoRepeats;
      ListedMeans(w);
      grid := Some(g);
      ghost var leaving := Leaving(AddedToWorld);
      ghost var called := CameraCall(AddedToWorld, w);
      OutsideNothing(called, leaving);
    }

    /** Event_GridChanged. */
    method EventGridChanged(g: nat, ghost w: World)
      requires w.Listed() && this in w.objects
      modifies this`grid, w.objects`cameras, w.cameras
      ensures w.Listed() && grid == Some(g) && cameras == old(cameras)
      ensures forall c | c in w.cameras :: c.source == old(c.source)
      ensures forall c | c in w.cameras :: c.link == if c in cameras then grid else old(c.link)
    {
      hide Outside, Wired, NoRepeats;
      ListedMeans(w);
      grid := Some(g);
      ghost var leaving := Leaving(Moved);
      ghost var called := CameraCall(Moved, w);
      OutsideNothing(called, leaving);
    }

    /**
     * Event_RemovedFromWorld. Every camera whose owner is in the world goes
     * home; the object's own camera is unlinked and stays. A camera whose owner
     * is not in the world stays too, with its link to the old grid.
     */
    method EventRemovedFromWorld(ghost w: World)
      requires w.Listed() && this in w.objects
      modifies this`grid, w.objects`cameras, w.cameras
      ensures w.Listed() && grid == None
      ensures forall c | c in w.cameras ::
                if c in old(cameras) && c.owner != this && c.owner.inWorld then
                  c.source == c.owner && c.link == c.owner.grid
                else
                  && c.source == old(c.source)
                  && c.link == if c in old(cameras) && c.owner == this then None else old(c.link)
      ensures (forall c | c in cameras :: c.owner == this) <==>
              (forall c | c in old(cameras) :: c.owner == this || c.owner.inWorld)
    {
      hide Outside, Wired, NoRepeats;
      ListedMeans(w);
      grid := None;
      ghost var called := CameraCall(RemovedFromWorld, w);
      ListedMeans(w);
      OutsideHolds(old(cameras), old(Leaving(RemovedFromWorld)));
    }

    /** Event_ViewPointVisibilityChanged: the cameras whose owner no longer sees the object go home. */
    method EventViewPointVisibilityChanged(ghost w: World)
      requires w.Listed() && this in w.objects
      modifies w.objects`cameras, w.cameras
      ensures w.Listed()
      ensures forall c | c in w.cameras ::
                if c in old(cameras) && c.owner != this && c.owner.inWorld && this !in c.owner.visible
                then c.source == c.owner && c.link == c.owner.grid
                else c.source == old(c.source) && c.link == old(c.link)
    {
      hide Outside, Wired, NoRepeats;
      ListedMeans(w);
      ghost var called := CameraCall(VisibilityChanged, w);
    }

    ghost function Leaving(h: Handler): set<Camera>
      reads this`cameras, (set c | c in cameras :: c.owner)`inWorld, (set c | c in cameras :: c.owner)`visible
    {
      set c | c in cameras && SendsHome(h, c)
    }

    /** What a call has done to a camera of this object. */
    ghost predicate Called(h: Handler, c: Camera, left: bool, link: Option<nat>)
      reads this`grid, c, c.owner`grid
    {
      if left then c.source == c.owner && c.link == c.owner.grid
      else c.source == this && c.link == LinkAfter(h, c.owner == this, grid, link)
    }

    /** Which of its cameras a call sends home: those of another owner that is in the world and no longer sees it. */
    ghost predicate SendsHome(h: Handler, c: Camera)
      reads c.owner`inWorld, c.owner`visible
    {
      && c.owner != this && c.owner.inWorld
      && (h.RemovedFromWorld? || (h.VisibilityChanged? && this !in c.owner.visible))
    }
  }

  class Camera {
    const owner: WorldObject
    var source: WorldObject
    var link: Option<nat>

    /** Camera::Camera; the grid reference starts unlinked. */
    constructor (player: WorldObject)
      modifies player`cameras
      ensures owner == player && source == player && link == None
      ensures player.cameras == old(player.cameras) + [this]
    {
      owner, source, link := player, player, None;
      new;
      player.Attach(this);
    }

    /** UpdateForCurrentViewPoint. */
    method UpdateForCurrentViewPoint()
      modifies this`link
      ensures link == source.grid
    {
      link := None;
      if source.grid.Some? {
        link := source.grid;
      }
    }

    /** Whether SetView has a view to change to. */
    predicate CanView(obj: WorldObject)
      reads this`source, owner`inWorld, owner`mapId, obj`inWorld, obj`mapId
    {
      source != obj && owner.inWorld && obj.inWorld && owner.mapId == obj.mapId && obj.isUnitOrDynamic
    }

    /** SetView. */
    method SetView(obj: WorldObject, ghost w: World)
      requires w.Listed() && this in w.cameras && obj in w.objects
      modifies this, source`cameras, obj`cameras
      ensures w.Listed()
      ensures if old(CanView(obj)) then
                && source == obj && link == obj.grid
                && obj.cameras == old(obj.cameras) + [this]
                && old(source).cameras == Without(old(source.cameras), this)
              else
                && source == old(source) && link == old(link)
                && source.cameras == old(source.cameras) && obj.cameras == old(obj.cameras)
    {
      hide Without, Wired, NoRepeats;
      if source == obj { return; }
      if !owner.IsInMap(obj) { return; }
      if !obj.isUnitOrDynamic { return; }
      ChangeSource(obj, w);
      UpdateForCurrentViewPoint();
    }

    /** The part of SetView that goes from one list to the other. */
    method ChangeSource(obj: WorldObject, ghost w: World)
      requires w.Listed() && this in w.cameras && obj in w.objects && obj != source
      modifies this`source, source`cameras, obj`cameras
      ensures w.Listed() && source == obj
      ensures obj.cameras == old(obj.cameras) + [this]
      ensures old(source).cameras == Without(old(source.cameras), this)
    {
      hide Without, Wired, NoRepeats;
      ListedMeans(w);
      ghost var v := w.Wires();
      source.Detach(this);
      source := obj;
      source.Attach(this);
      MovedIsWired(w, v, this, obj);
    }

    /** ResetView. */
    method ResetView(ghost w: World)
      requires w.Listed() && this in w.cameras
      modifies this, source`cameras, owner`cameras
      ensures w.Listed()
      ensures if old(source != owner && owner.inWorld) then
                && source == owner && link == owner.grid
                && owner.cameras == old(owner.cameras) + [this]
                && old(source).cameras == Without(old(source.cameras), this)
              else
                && source == old(source) && link == old(link)
                && source.cameras == old(source.cameras) && owner.cameras == old(owner.cameras)
    {
      hide Without, Wired, NoRepeats;
      SetView(owner, w);
    }

    /** The handlers Event_AddedToWorld, Event_RemovedFromWorld, Event_Moved and Event_ViewPointVisibilityChanged. */
    method Handle(h: Handler, ghost w: World)
      requires w.Listed() && this in w.cameras
      requires h.AddedToWorld? || h.Moved? ==> source.grid.Some?
      modifies this, source`cameras, owner`cameras
      ensures w.Listed()
      ensures if old(source.SendsHome(h, this)) then
                && source == owner && link == owner.grid
                && owner.cameras == old(owner.cameras) + [this]
                && old(source).cameras == Without(old(source.cameras), this)
              else
                && source == old(source)
                && source.cameras == old(source.cameras) && owner.cameras == old(owner.cameras)
                && link == LinkAfter(h, source == owner, source.grid, old(link))
    {
      hide Without, Wired, NoRepeats;
      match h {
        case AddedToWorld => link := source.grid;
        case Moved =>
          link := None;
          link := source.grid;
        case RemovedFromWorld =>
          if source == owner {
            link := None;
          } else {
            ResetView(w);
          }
        case VisibilityChanged =>
          if source !in owner.visible {
            ResetView(w);
          }
        case UpdateVisibility =>
      }
    }
  }

  /** Which object each camera looks from, and which cameras each object lists. */
  datatype Wiring = Wiring(sources: map<Camera, WorldObject>, lists: map<WorldObject, seq<Camera>>)

  /** Every camera is in the list of the object it looks from, once, and in no other. */
  ghost predicate Wired(v: Wiring)
  {
    && (forall c | c in v.sources :: v.sources[c] in v.lists && c in v.lists[v.sources[c]])
    && (forall o, c | o in v.lists && c in v.lists[o] :: c in v.sources && v.sources[c] == o)
    && (forall o | o in v.lists :: NoRepeats(v.lists[o]))
  }

  ghost function Rewired(v: Wiring, c: Camera, to: WorldObject): Wiring
    requires c in v.sources && v.sources[c] in v.lists && to in v.lists
  {
    var from := v.sources[c];
    Wiring(v.sources[c := to], v.lists[from := Without(v.lists[from], c)][to := v.lists[to] + [c]])
  }

  /** Moving a camera from its list to the end of another keeps both directions in step. */
  lemma RewiringKeepsWired(v: Wiring, c: Camera, to: WorldObject)
    requires Wired(v) && c in v.sources && to in v.lists && v.sources[c] != to
    ensures Wired(Rewired(v, c, to))
  {
    hide Without;
    var from := v.sources[c];
    WithoutHolds(v.lists[from], c);
    assert c !in v.lists[to];
  }

  /** All objects and all cameras. */
  class World {
    var objects: set<WorldObject>
    var cameras: set<Camera>

    ghost function Wires(): Wiring
      reads this, cameras`source, objects`cameras
    {
      Wiring(map c | c in cameras :: c.source, map o | o in objects :: o.cameras)
    }

    ghost predicate Listed()
      reads this, cameras`source, objects`cameras
    {
      && Wired(Wires())
      && forall c | c in cameras :: c.owner in objects && c.owner.isUnitOrDynamic
    }

    /** Every camera's grid link is its viewpoint's grid. */
    ghost predicate GridsLinked()
      reads this, cameras, cameras`source, (set c | c in cameras :: c.source)`grid
    {
      forall c | c in cameras :: c.link == c.source.grid
    }

    constructor ()
      ensures objects == {} && cameras == {}
    {
      objects, cameras := {}, {};
    }
  }

  /** A world in which one camera has moved, and nothing else. */
  lemma MovedIsWired(w: World, v: Wiring, c: Camera, to: WorldObject)
    requires Wired(v) && c in v.sources && to in v.lists && v.sources[c] != to && v.sources[c] in v.lists
    requires w.objects == v.lists.Keys && w.cameras == v.sources.Keys
    requires c.source == to && forall d | d in v.sources && d != c :: d.source == v.sources[d]
    requires to.cameras == v.lists[to] + [c] && v.sources[c].cameras == Without(v.lists[v.sources[c]], c)
    requires forall o | o in v.lists && o != to && o != v.sources[c] :: o.cameras == v.lists[o]
    ensures Wired(w.Wires())
  {
    hide Without, Wired, NoRepeats;
    RewiringKeepsWired(v, c, to);
    assert w.Wires().sources == v.sources[c := to];
    assert w.Wires().lists == Rewired(v, c, to).lists;
  }

  lemma ListedMeans(w: World)
    requires w.Listed()
    ensures forall c | c in w.cameras ::
              c.owner in w.objects && c.source in w.objects && c.owner.isUnitOrDynamic && c in c.source.cameras
    ensures forall o, c | o in w.objects && c in o.cameras :: c in w.cameras && c.source == o
    ensures forall o | o in w.objects :: NoRepeats(o.cameras)
  {
    hide NoRepeats;
    var v := w.Wires();
    forall c | c in w.cameras ensures c.source in w.objects && c in c.source.cameras {
      assert v.sources[c] == c.source;
      assert c.source in v.lists && c in v.lists[c.source];
    }
    forall o, c | o in w.objects && c in o.cameras ensures c in w.cameras && c.source == o {
      assert o in v.lists && c in v.lists[o];
      assert c in v.sources && v.sources[c] == o;
    }
    forall o | o in w.objects ensures NoRepeats(o.cameras) {
      assert NoRepeats(v.lists[o]);
    }
  }

  lemma {:induction false} OutsideNothing(s: seq<Camera>, out: set<Camera>)
    requires forall c | c in s :: c !in out
    ensures Outside(s, out) == s
  {
    if s != [] {
      OutsideNothing(s[..|s| - 1], out);
    }
  }

  ghost function FirstOf(s: seq<Camera>, n: nat): set<Camera>
    requires n <= |s|
  {
    set i | 0 <= i < n :: s[i]
  }

  /** The list when the first n cameras have been called. */
  ghost function Remaining(initial: seq<Camera>, n: nat, leaving: set<Camera>): seq<Camera>
    requires n <= |initial|
  {
    Outside(initial[..n], leaving) + initial[n..]
  }

  lemma CallStart(initial: seq<Camera>, leaving: set<Camera>)
    ensures FirstOf(initial, 0) == {} && Remaining(initial, 0, leaving) == initial
  {
  }

  lemma CallEnd(initial: seq<Camera>, leaving: set<Camera>)
    ensures forall c :: c in FirstOf(initial, |initial|) <==> c in initial
    ensures Remaining(initial, |initial|, leaving) == Outside(initial, leaving)
  {
    hide Outside;
    var none := initial[|initial|..];
    assert initial[..|initial|] == initial && none == [];
    assert Outside(initial, leaving) + none == Outside(initial, leaving);
  }

  lemma CountStep(initial: seq<Camera>, n: nat)
    requires n < |initial| && NoRepeats(initial)
    ensures initial[..n + 1] == initial[..n] + [initial[n]]
    ensures initial[n] in initial && initial[n] !in FirstOf(initial, n)
    ensures FirstOf(initial, n + 1) == FirstOf(initial, n) + {initial[n]}
  {
  }

  /** One step of CameraCall on the list: the camera called stays where it is, or goes. */
  lemma CallStep(initial: seq<Camera>, n: nat, leaving: set<Camera>) returns (at: nat)
    requires n < |initial| && NoRepeats(initial)
    ensures var list, c := Remaining(initial, n, leaving), initial[n];
            && at < |list| && list[at] == c
            && (if n + 1 < |initial| then at + 1 < |list| && list[at + 1] == initial[n + 1] else at + 1 == |list|)
            && (if c in leaving then Without(list, c) else list) == Remaining(initial, n + 1, leaving)
  {
    hide Outside;
    var c, kept, rest := initial[n], Outside(initial[..n], leaving), initial[n + 1..];
    OutsideHolds(initial[..n], leaving);
    OutsideGrows(initial[..n], c, leaving);
    at := |kept|;
    assert initial[..n + 1] == initial[..n] + [c];
    assert initial[n..] == [c] + rest;
    assert kept + initial[n..] == kept + [c] + rest;
    if c in leaving {
      assert c !in rest;
      WithoutMiddle(kept, c, rest);
      assert kept + [] == kept;
    }
  }

  /** The grid link of a camera that stays, after a call. */
  function LinkAfter(h: Handler, own: bool, grid: Option<nat>, link: Option<nat>): Option<nat>
  {
    match h
    case AddedToWorld => grid
    case Moved => grid
    case RemovedFromWorld => if own then None else link
    case VisibilityChanged => link
    case UpdateVisibility => link
  }
}
