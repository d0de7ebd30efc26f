/**
 * Whole histories of cameras: objects enter and leave the world and move, and
 * players change views, in any order. One invariant holds between the steps.
 */
module CameraRuns {
  import opened Bytes
  import opened Cameras

  /** A camera that looks away from its owner looks at something in its owner's map. */
  ghost predicate Home(w: World)
    reads w, w.cameras`source, (set c | c in w.cameras :: c.source)`inWorld, (set c | c in w.cameras :: c.source)`mapId,
          (set c | c in w.cameras :: c.owner)`inWorld, (set c | c in w.cameras :: c.owner)`mapId
  {
    forall c | c in w.cameras :: c.source == c.owner || c.owner.IsInMap(c.source)
  }

  /** An object outside the world has no grid, and a player has one camera. */
  ghost predicate Placed(w: World)
    reads w, w.objects`grid, w.objects`inWorld
  {
    && (forall o | o in w.objects && !o.inWorld :: o.grid.None?)
    && (forall c, d | c in w.cameras && d in w.cameras && c.owner == d.owner :: c == d)
  }

  ghost predicate Valid(w: World)
    reads w, w.objects, w.cameras, (set c | c in w.cameras :: c.source), (set c | c in w.cameras :: c.owner)
  {
    w.Listed() && w.GridsLinked() && Home(w) && Placed(w)
  }

  method NewWorld() returns (w: World)
    ensures fresh(w) && Valid(w)
  {
    w := new World();
    Empty(w);
  }

  lemma Empty(w: World)
    requires w.objects == {} && w.cameras == {}
    ensures Valid(w)
  {
  }

  /** In no such world does a camera whose owner is elsewhere stand on another object. */
  lemma ForeignOwnersAreInTheWorld(w: World, o: WorldObject)
    requires Valid(w) && o in w.objects
    ensures forall c | c in o.cameras :: c.owner == o || (c.owner.inWorld && o.inWorld && c.owner.mapId == o.mapId)
  {
    hide Wired, NoRepeats;
    ListedMeans(w);
  }

  /** A new object, not yet in the world. */
  method AddObject(w: World, isUnitOrDynamic: bool) returns (o: WorldObject)
    requires Valid(w)
    modifies w
    ensures Valid(w) && fresh(o) && w.objects == old(w.objects) + {o} && w.cameras == old(w.cameras)
  {
    hide Wired, NoRepeats;
    ListedMeans(w);
    ghost var v := w.Wires();
    o := new WorldObject(isUnitOrDynamic);
    w.objects := w.objects + {o};
    AddListKeepsWired(v, o);
    assert w.Wires() == Wiring(v.sources, v.lists[o := []]);
  }

  lemma AddListKeepsWired(v: Wiring, o: WorldObject)
    requires Wired(v) && o !in v.lists
    ensures Wired(Wiring(v.sources, v.lists[o := []]))
  {
  }

  lemma AddCameraKeepsWired(v: Wiring, c: Camera, o: WorldObject)
    requires Wired(v) && c !in v.sources && o in v.lists
    ensures Wired(Wiring(v.sources[c := o], v.lists[o := v.lists[o] + [c]]))
  {
  }

  lemma AddedIsWired(w: World, v: Wiring, c: Camera, player: WorldObject)
    requires Wired(v) && c !in v.sources && player in v.lists
    requires w.objects == v.lists.Keys && w.cameras == v.sources.Keys + {c}
    requires c.source == player && forall d | d in v.sources :: d.source == v.sources[d]
    requires player.cameras == v.lists[player] + [c]
    requires forall o | o in v.lists && o != player :: o.cameras == v.lists[o]
    ensures Wired(w.Wires())
  {
    hide Wired, NoRepeats;
    AddCameraKeepsWired(v, c, player);
    assert w.Wires().sources == v.sources[c := player];
    assert w.Wires().lists == v.lists[player := v.lists[player] + [c]];
  }

  /** Camera::Camera keeps the lists right, and the grid links exactly when the player has no grid yet. */
  method AttachCamera(w: World, player: WorldObject) returns (c: Camera)
    requires w.GridsLinked() && w.Listed() && player in w.objects && player.isUnitOrDynamic
    modifies player`cameras, w`cameras
    ensures fresh(c) && w.cameras == old(w.cameras) + {c} && c.owner == c.source == player
    ensures w.Listed() && (w.GridsLinked() <==> player.grid.None?)
  {
    hide Wired, NoRepeats;
    ListedMeans(w);
    ghost var v := w.Wires();
    c := new Camera(player);
    w.cameras := w.cameras + {c};
    AddedIsWired(w, v, c, player);
  }

  /** A player's camera is made with the player, which is not yet in the world. */
  method AddCamera(w: World, player: WorldObject) returns (c: Camera)
    requires Valid(w) && player in w.objects && player.isUnitOrDynamic && !player.inWorld
    requires forall d | d in w.cameras :: d.owner != player
    modifies w`cameras, player`cameras
    ensures Valid(w) && fresh(c) && w.cameras == old(w.cameras) + {c}
    ensures c.owner == c.source == player
  {
    hide Wired, NoRepeats;
    c := AttachCamera(w, player);
    assert Home(w);
  }

  /** An object comes into a map. */
  method Enter(w: World, o: WorldObject, mapId: nat, grid: nat)
    requires Valid(w) && o in w.objects && !o.inWorld
    modifies o, w.objects`cameras, w.cameras
    ensures Valid(w) && o.inWorld && o.mapId == mapId && o.grid == Some(grid)
    ensures forall c | c in w.cameras :: c.source == old(c.source)
  {
    hide Wired, NoRepeats;
    ListedMeans(w);
    o.mapId, o.inWorld := mapId, true;
    o.EventAddedToWorld(grid, w);
    ListedMeans(w);
  }

  /** An object moves to another grid. */
  method Relocate(w: World, o: WorldObject, grid: nat)
    requires Valid(w) && o in w.objects && o.inWorld
    modifies o`grid, w.objects`cameras, w.cameras
    ensures Valid(w) && o.grid == Some(grid)
    ensures forall c | c in w.cameras :: c.source == old(c.source)
  {
    hide Wired, NoRepeats;
    ListedMeans(w);
    o.EventGridChanged(grid, w);
    ListedMeans(w);
  }

  /** A player's own camera comes home before the player leaves. */
  method BringHome(w: World, c: Camera)
    requires Valid(w) && c in w.cameras && c.owner.inWorld
    modifies w.objects`cameras, c
    ensures Valid(w) && c.source == c.owner
  {
    hide Wired, NoRepeats;
    ListedMeans(w);
    c.ResetView(w);
    assert w.GridsLinked();
    assert Home(w);
  }

  /** The leaving object's viewpoint sends every camera home that is not its own. */
  method Evict(w: World, o: WorldObject)
    requires Valid(w) && o in w.objects && o.inWorld
    requires forall c | c in w.cameras && c.owner == o :: c.source == o
    modifies o`grid, w.objects`cameras, w.cameras
    ensures Valid(w) && o.grid.None?
    ensures forall c | c in w.cameras :: c.source == if old(c.source) == o then c.owner else old(c.source)
  {
    hide Wired, NoRepeats;
    ListedMeans(w);
    o.EventRemovedFromWorld(w);
    ListedMeans(w);
    assert w.GridsLinked();
    assert Home(w);
  }

  /**
   * An object leaves the world: a player's own camera comes home first, then
   * every camera still on the object is sent home, so that afterwards only the
   * object's own camera is in its list.
   */
  method Leave(w: World, o: WorldObject, own: Option<Camera>)
    requires Valid(w) && o in w.objects && o.inWorld
    requires own.Some? ==> own.value in w.cameras && own.value.owner == o
    requires own.None? ==> forall c | c in w.cameras :: c.owner != o
    modifies o, w.objects`cameras, w.cameras
    ensures Valid(w) && !o.inWorld
    ensures forall c | c in o.cameras :: c.owner == o
    ensures forall c | c in w.cameras ::
              c.source == if c.owner == o || old(c.source) == o then c.owner else old(c.source)
  {
    hide Wired, NoRepeats;
    if own.Some? {
      BringHome(w, own.value);
    }
    Evict(w, o);
    ListedMeans(w);
    o.inWorld := false;
    assert w.GridsLinked();
    assert Home(w);
  }

  /** A player asks for a view. */
  method SetView(w: World, c: Camera, o: WorldObject)
    requires Valid(w) && c in w.cameras && o in w.objects
    modifies w.objects`cameras, w.cameras
    ensures Valid(w)
    ensures c.source == if old(c.CanView(o)) then o else old(c.source)
  {
    hide Wired, NoRepeats;
    ListedMeans(w);
    c.SetView(o, w);
  }

  /** What players see changes, and the object's viewers are told. */
  method ChangeVisibility(w: World, o: WorldObject, player: WorldObject, visible: set<WorldObject>)
    requires Valid(w) && o in w.objects && player in w.objects
    modifies player`visible, w.objects`cameras, w.cameras
    ensures Valid(w)
    ensures forall c | c in o.cameras :: c.owner == o || o in c.owner.visible
  {
    hide Wired, NoRepeats;
    ListedMeans(w);
    player.visible := visible;
    assert Home(w);
    o.EventViewPointVisibilityChanged(w);
    ListedMeans(w);
    assert w.GridsLinked();
    assert Home(w);
  }
}
