/**
 * The collision demo: a scene with four static walls and a list of moving
 * boxes, each owned by a game object that reverses one component of its
 * velocity when it is told of a collision.
 *
 * The collision manager is used only through its registry surface: bodies
 * are created, destroyed and counted. How it detects contacts and fills in
 * the contact normal is not part of this model; the normal arrives as part
 * of the message a game object receives.
 */
module CollisionDemo {
  import opened Geometry

  /** Thickness of the four walls around the screen. */
  const WALL_THICKNESS: real := 16.0

  /** Number of objects the scene starts with. */
  const INITIAL_OBJECTS: nat := 50

  /**
   * The value the manager gives a new body's `solid` flag. The body type's
   * declaration is not part of this model; the walls and the boxes of the
   * demo are all created without setting the flag, and the bounce rule
   * needs both of them solid, so the default is taken to be solid.
   */
  const SOLID_BY_DEFAULT: bool := true

  // ---------------------------------------------------------------------------
  // Bodies and the manager's registry

  class Body {
    var bb: AABB2
    var dynamic: bool
    var solid: bool
    var owner: GameObject?

    constructor (dynamic: bool)
      ensures this.dynamic == dynamic && solid == SOLID_BY_DEFAULT && owner == null
    {
      this.dynamic := dynamic;
      solid := SOLID_BY_DEFAULT;
      owner := null;
      bb := AABB2(Vector2(0.0, 0.0), Vector2(0.0, 0.0));
    }
  }

  /** The live bodies of the collision manager. */
  class CollisionManager2 {
    var bodies: set<Body>

    constructor ()
      ensures bodies == {}
    {
      bodies := {};
    }

    /** `create_body(dynamic)`: a fresh body, registered as live. */
    method CreateBody(dynamic: bool) returns (b: Body)
      modifies this
      ensures fresh(b) && b.dynamic == dynamic && b.solid == SOLID_BY_DEFAULT && b.owner == null
      ensures bodies == old(bodies) + {b}
    {
      b := new Body(dynamic);
      bodies := bodies + {b};
    }

    /** `destroy_body(b)`: the body is no longer live. */
    method DestroyBody(b: Body)
      modifies this
      ensures bodies == old(bodies) - {b}
    {
      bodies := bodies - {b};
    }

    /** `body_count()`. */
    function BodyCount(): nat
      reads this
    {
      |bodies|
    }
  }

  // ---------------------------------------------------------------------------
  // Game objects and the bounce rule

  /** The geometry a collision message carries; only its normal is read. */
  datatype Collision = Collision(normal: Vector2)

  /** A message delivered to a game object. */
  datatype Message =
    | CollisionBegin(otherBody: Body, collision: Collision)
    | OtherEvent

  /**
   * The bounce rule: when this body is dynamic and solid and the other body
   * is solid, the x component of the direction is reversed if the contact
   * normal has an x component, and the y component otherwise.
   */
  function Bounce(dir: Vector2, dynamic: bool, solid: bool, otherSolid: bool, normal: Vector2): Vector2
  {
    if dynamic && solid && otherSolid then
      if normal.x != 0.0 then Vector2(-dir.x, dir.y) else Vector2(dir.x, -dir.y)
    else dir
  }

  /** The three cases of the bounce rule. */
  lemma BounceCases(dir: Vector2, dynamic: bool, solid: bool, otherSolid: bool, normal: Vector2)
    ensures var r := Bounce(dir, dynamic, solid, otherSolid, normal);
      (dynamic && solid && otherSolid && normal.x != 0.0 ==> r.x == -dir.x && r.y == dir.y) &&
      (dynamic && solid && otherSolid && normal.x == 0.0 ==> r.x == dir.x && r.y == -dir.y) &&
      (!(dynamic && solid && otherSolid) ==> r == dir)
  {
  }

  /** Bouncing twice on the same contact restores the direction, and the speed on each axis never changes. */
  lemma BounceInvolution(dir: Vector2, dynamic: bool, solid: bool, otherSolid: bool, normal: Vector2)
    ensures Bounce(Bounce(dir, dynamic, solid, otherSolid, normal), dynamic, solid, otherSolid, normal) == dir
    ensures var r := Bounce(dir, dynamic, solid, otherSolid, normal);
      r.x * r.x == dir.x * dir.x && r.y * r.y == dir.y * dir.y
  {
  }

  class GameObject {
    var dir: Vector2
    const body: Body

    /** The object takes ownership of its body. Subscribing to collision events is not modelled. */
    constructor (dir: Vector2, body: Body)
      modifies body
      ensures this.dir == dir && this.body == body && body.owner == this
      ensures body.bb == old(body.bb) && body.dynamic == old(body.dynamic) && body.solid == old(body.solid)
    {
      this.dir := dir;
      this.body := body;
      new;
      body.owner := this;
    }

    /** `receive(msg)`: applies the bounce rule to a collision message and ignores every other message. */
    method Receive(msg: Message)
      modifies this
      ensures msg.CollisionBegin? ==>
        dir == Bounce(old(dir), body.dynamic, body.solid, msg.otherBody.solid, msg.collision.normal)
      ensures msg.OtherEvent? ==> dir == old(dir)
    {
      match msg
      case CollisionBegin(otherBody, collision) =>
        if body.dynamic && body.solid && otherBody.solid {
          if collision.normal.x != 0.0 {
            dir := Vector2(-dir.x, dir.y);
          } else {
            dir := Vector2(dir.x, -dir.y);
          }
        }
      case OtherEvent =>
    }
  }

  // ---------------------------------------------------------------------------
  // Layout

  /** The box of a new object: centred on `pos`, reaching `size` out on both axes. */
  function ObjectBox(pos: Vector2, size: real): (b: AABB2)
  {
    AABB2(pos.Minus(Vector2(size, size)), pos.Plus(Vector2(size, size)))
  }

  /** An object's box is centred on its position, is `2 * size` wide and high, and is well formed exactly when `size >= 0`. */
  lemma ObjectBoxShape(pos: Vector2, size: real)
    ensures var b := ObjectBox(pos, size);
      (b.min.x + b.max.x) / 2.0 == pos.x && (b.min.y + b.max.y) / 2.0 == pos.y &&
      b.max.x - b.min.x == 2.0 * size && b.max.y - b.min.y == 2.0 * size &&
      (WellFormed(b) <==> size >= 0.0)
  {
  }

  /**
   * The walls, in the order north, east, south, west, for a screen whose
   * half-dimensions are `sd`: north and south span the full width, east and
   * west fill the height between them.
   */
  function WallBoxes(sd: Vector2): (walls: seq<AABB2>)
    ensures |walls| == 4
  {
    [ AABB2(Vector2(-sd.x, -sd.y), Vector2(sd.x, -sd.y + WALL_THICKNESS)),
      AABB2(Vector2(sd.x - WALL_THICKNESS, -sd.y + WALL_THICKNESS), Vector2(sd.x, sd.y - WALL_THICKNESS)),
      AABB2(Vector2(-sd.x, sd.y - WALL_THICKNESS), Vector2(sd.x, sd.y)),
      AABB2(Vector2(-sd.x, -sd.y + WALL_THICKNESS), Vector2(-sd.x + WALL_THICKNESS, sd.y - WALL_THICKNESS)) ]
  }

  /** The screen area inside the walls. */
  function Arena(sd: Vector2): AABB2
  {
    AABB2(Vector2(-sd.x + WALL_THICKNESS, -sd.y + WALL_THICKNESS), Vector2(sd.x - WALL_THICKNESS, sd.y - WALL_THICKNESS))
  }

  /**
   * On a screen at least two walls wide and high, the walls are well formed,
   * lie on the screen, meet only along their edges, and leave the arena
   * inside them free.
   */
  lemma WallLayout(sd: Vector2)
    requires sd.x >= WALL_THICKNESS && sd.y >= WALL_THICKNESS
    ensures forall i :: 0 <= i < 4 ==> WellFormed(WallBoxes(sd)[i])
    ensures forall i :: 0 <= i < 4 ==> Inside(WallBoxes(sd)[i], AABB2(sd.Scale(-1.0), sd))
    ensures forall i, j :: 0 <= i < j < 4 ==> !Overlap(WallBoxes(sd)[i], WallBoxes(sd)[j])
    ensures forall i :: 0 <= i < 4 ==> !Overlap(WallBoxes(sd)[i], Arena(sd))
  {
  }

  /** A box moved by `dir * delta`, as one animation step does. */
  function Advance(bb: AABB2, dir: Vector2, delta: real): AABB2
  {
    AABB2(bb.min.Plus(dir.Scale(delta)), bb.max.Plus(dir.Scale(delta)))
  }

  // ---------------------------------------------------------------------------
  // The scene

  datatype Key = Escape | Minus | Equals | Space | G | OtherKey

  /** What the debug effect draws. */
  datatype DebugFlag = Bodies | Grid

  /** The random values `add_object` draws: direction, position and size. */
  datatype Spawn = Spawn(dir: Vector2, pos: Vector2, size: real)

  /** The bodies of a list of objects, in order. */
  function BodiesOf(objects: seq<GameObject>): (bs: seq<Body>)
    ensures |bs| == |objects|
    ensures forall i :: 0 <= i < |objects| ==> bs[i] == objects[i].body
  {
    if objects == [] then [] else [objects[0].body] + BodiesOf(objects[1..])
  }

  ghost predicate DistinctBodies(bs: seq<Body>)
  {
    forall i, j :: 0 <= i < j < |bs| ==> bs[i] != bs[j]
  }

  ghost function Elements(bs: seq<Body>): set<Body>
  {
    set b | b in bs
  }

  /** A list of distinct bodies has as many elements as entries. */
  lemma {:induction false} DistinctCount(bs: seq<Body>)
    requires DistinctBodies(bs)
    ensures |Elements(bs)| == |bs|
  {
    if bs != [] {
      var rest := bs[1..];
      assert Elements(bs) == {bs[0]} + Elements(rest);
      assert bs[0] !in Elements(rest);
      DistinctCount(rest);
    }
  }

  /**
   * The four walls of the scene's construction: static bodies created in
   * the order north, east, south, west, each given its box.
   */
  method CreateWalls(cm: CollisionManager2, sd: Vector2) returns (walls: seq<Body>)
    modifies cm
    ensures |walls| == 4 && DistinctBodies(walls)
    ensures forall i :: 0 <= i < 4 ==> fresh(walls[i]) && walls[i].bb == WallBoxes(sd)[i] && !walls[i].dynamic
    ensures cm.bodies == old(cm.bodies) + Elements(walls)
  {
    var boxes := WallBoxes(sd);
    var north := cm.CreateBody(false);
    north.bb := boxes[0];
    var east := cm.CreateBody(false);
    east.bb := boxes[1];
    var south := cm.CreateBody(false);
    south.bb := boxes[2];
    var west := cm.CreateBody(false);
    west.bb := boxes[3];
    walls := [north, east, south, west];
    assert Elements(walls) == {north, east, south, west};
  }

  /** An object made by `add_object` from the given random values. */
  ghost predicate SpawnedFrom(o: GameObject, spawn: Spawn)
    reads o, o.body
  {
    o.dir == spawn.dir && o.body.owner == o && o.body.bb == ObjectBox(spawn.pos, spawn.size) && o.body.dynamic
  }

  class CollisionScene {
    var animate: bool
    var showGrid: bool
    var debugFlags: set<DebugFlag>
    var done: bool
    var objects: seq<GameObject>
    const cm: CollisionManager2
    const screenDim: Vector2
    ghost var walls: seq<Body>

    /**
     * The manager's live bodies are exactly the four walls and the objects'
     * bodies, all distinct; the walls are static and keep their boxes.
     */
    ghost predicate Valid()
      reads this, cm, walls
    {
      && |walls| == 4
      && DistinctBodies(walls + BodiesOf(objects))
      && cm.bodies == Elements(walls + BodiesOf(objects))
      && (forall i :: 0 <= i < 4 ==> walls[i].bb == WallBoxes(screenDim)[i] && !walls[i].dynamic)
    }

    /** What `body_count()` reports: the four walls and one body per object. */
    lemma BodyCountIsObjectsPlusWalls()
      requires Valid()
      ensures cm.BodyCount() == 4 + |objects|
    {
      DistinctCount(walls + BodiesOf(objects));
    }

    /**
     * The scene's construction, for a window of the given size: the four
     * walls, then one object per spawn (the random values of the 50 calls to
     * `add_object`), with animation and the grid switched on.
     */
    constructor (windowWidth: real, windowHeight: real, spawns: seq<Spawn>)
      requires |spawns| == INITIAL_OBJECTS as int
      ensures Valid()
      ensures animate && showGrid && !done
      ensures screenDim == Vector2(0.5 * windowWidth, 0.5 * windowHeight)
      ensures |objects| == |spawns|
      ensures forall i :: 0 <= i < |spawns| ==> SpawnedFrom(objects[i], spawns[i])
    {
      animate := true;
      showGrid := true;
      done := false;
      objects := [];
      screenDim := Vector2(0.5 * windowWidth, 0.5 * windowHeight);
      cm := new CollisionManager2();
      new;
      walls := CreateWalls(cm, screenDim);
      assert walls + BodiesOf(objects) == walls;
      assert Valid();
      AddObjects(spawns);
    }

    /** The construction's loop of `add_object` calls, one per spawn, on a scene with no objects yet. */
    method AddObjects(spawns: seq<Spawn>)
      requires Valid() && objects == []
      modifies this, cm
      ensures Valid()
      ensures animate == old(animate) && showGrid == old(showGrid) && done == old(done)
      ensures |objects| == |spawns|
      ensures forall i :: 0 <= i < |spawns| ==> SpawnedFrom(objects[i], spawns[i])
    {
      for i := 0 to |spawns|
        invariant Valid()
        invariant animate == old(animate) && showGrid == old(showGrid) && done == old(done)
        invariant |objects| == i
        invariant forall k :: 0 <= k < i ==> SpawnedFrom(objects[k], spawns[k])
      {
        AddObject(spawns[i]);
      }
    }

    /**
     * `add_object()`, with the random direction, position and size passed
     * in: a new dynamic body whose box is centred on the position, owned by
     * a new object appended to the list.
     */
    method AddObject(spawn: Spawn)
      requires Valid()
      modifies this, cm
      ensures Valid()
      ensures animate == old(animate) && showGrid == old(showGrid)
      ensures debugFlags == old(debugFlags) && done == old(done)
      ensures |objects| == |old(objects)| + 1 && objects == old(objects) + [objects[|old(objects)|]]
      ensures var o := objects[|objects| - 1];
        fresh(o) && fresh(o.body) && o.dir == spawn.dir && o.body.owner == o &&
        o.body.bb == ObjectBox(spawn.pos, spawn.size) && o.body.dynamic &&
        cm.bodies == old(cm.bodies) + {o.body}
      ensures forall k :: 0 <= k < |old(objects)| ==> objects[k].body.bb == old(objects[k].body.bb)
    {
      var body := cm.CreateBody(true);
      body.bb := ObjectBox(spawn.pos, spawn.size);
      var o := new GameObject(spawn.dir, body);
      ghost var before := walls + BodiesOf(objects);
      objects := objects + [o];
      assert walls + BodiesOf(objects) == before + [body];
      DistinctAppend(before, body);
    }

    /**
     * `remove_object()`: with no objects, nothing happens; otherwise the last
     * object's body is destroyed and the last object removed.
     */
    method RemoveObject()
      requires Valid()
      modifies this, cm
      ensures Valid()
      ensures animate == old(animate) && showGrid == old(showGrid)
      ensures debugFlags == old(debugFlags) && done == old(done)
      ensures old(objects) == [] ==> objects == [] && cm.bodies == old(cm.bodies)
      ensures old(objects) != [] ==>
        objects == old(objects)[..|old(objects)| - 1] &&
        cm.bodies == old(cm.bodies) - {old(objects)[|old(objects)| - 1].body}
    {
      if objects != [] {
        var last := objects[|objects| - 1];
        cm.DestroyBody(last.body);
        ghost var before := walls + BodiesOf(objects);
        objects := objects[..|objects| - 1];
        assert before == walls + BodiesOf(objects) + [last.body];
        DistinctDropLast(walls + BodiesOf(objects), last.body);
      }
    }

    /**
     * `update(delta)`: while animation is on, every object's box moves by its
     * direction times `delta`; while it is off, no box changes.
     */
    method Update(delta: real)
      requires Valid()
      modifies set i | 0 <= i < |objects| :: objects[i].body
      ensures Valid()
      ensures forall i :: 0 <= i < |objects| ==>
        objects[i].body.bb == if animate then Advance(old(objects[i].body.bb), objects[i].dir, delta)
                              else old(objects[i].body.bb)
    {
      if animate {
        var bs := BodiesOf(objects);
        SplitDistinct(walls, bs);
        for i := 0 to |objects|
          invariant forall k :: 0 <= k < i ==>
            objects[k].body.bb == Advance(old(objects[k].body.bb), objects[k].dir, delta)
          invariant forall k :: i <= k < |objects| ==> objects[k].body.bb == old(objects[k].body.bb)
          invariant forall k :: 0 <= k < 4 ==> walls[k].bb == old(walls[k].bb)
        {
          var b := objects[i].body;
          b.bb := Advance(b.bb, objects[i].dir, delta);
        }
      }
    }

    /**
     * `handle_keyboard(key)`, with the random values of a possible
     * `add_object` passed in: Escape ends the game, '-' removes an object,
     * '=' adds one, Space toggles animation, and 'g' toggles the grid and
     * sets the debug flags to match it.
     */
    method HandleKeyboard(key: Key, spawn: Spawn)
      requires Valid()
      modifies this, cm
      ensures Valid()
      ensures done == (old(done) || key == Escape)
      ensures animate == (if key == Space then !old(animate) else old(animate))
      ensures showGrid == (if key == G then !old(showGrid) else old(showGrid))
      ensures key == G ==> debugFlags == (if showGrid then {Bodies, Grid} else {Bodies})
      ensures key != G ==> debugFlags == old(debugFlags)
      ensures key == Minus && old(objects) == [] ==> objects == [] && cm.bodies == old(cm.bodies)
      ensures key == Minus && old(objects) != [] ==>
        objects == old(objects)[..|old(objects)| - 1] &&
        cm.bodies == old(cm.bodies) - {old(objects)[|old(objects)| - 1].body}
      ensures key == Equals ==>
        |objects| == |old(objects)| + 1 && objects == old(objects) + [objects[|old(objects)|]] &&
        var o := objects[|old(objects)|];
        fresh(o) && fresh(o.body) && o.body.owner == o && SpawnedFrom(o, spawn) &&
        cm.bodies == old(cm.bodies) + {o.body}
      ensures key != Minus && key != Equals ==> objects == old(objects) && cm.bodies == old(cm.bodies)
    {
      match key
      case Escape =>
        done := true;
      case Minus =>
        RemoveObject();
      case Equals =>
        AddObject(spawn);
      case Space =>
        animate := !animate;
      case G =>
        showGrid := !showGrid;
        if showGrid {
          debugFlags := {Bodies, Grid};
        } else {
          debugFlags := {Bodies};
        }
      case OtherKey =>
    }
  }

  /** In a list of distinct bodies made of two parts, the second part is distinct and shares no body with the first. */
  lemma SplitDistinct(ws: seq<Body>, bs: seq<Body>)
    requires DistinctBodies(ws + bs)
    ensures DistinctBodies(bs)
    ensures forall i, k :: 0 <= i < |bs| && 0 <= k < |ws| ==> bs[i] != ws[k]
  {
    forall i, j | 0 <= i < j < |bs| ensures bs[i] != bs[j] {
      assert bs[i] == (ws + bs)[i + |ws|] && bs[j] == (ws + bs)[j + |ws|];
    }
    forall i, k | 0 <= i < |bs| && 0 <= k < |ws| ensures bs[i] != ws[k] {
      assert bs[i] == (ws + bs)[i + |ws|] && ws[k] == (ws + bs)[k];
    }
  }

  /** Appending a body not yet in a list of distinct bodies keeps it distinct and adds exactly that body. */
  lemma DistinctAppend(bs: seq<Body>, b: Body)
    requires DistinctBodies(bs) && b !in Elements(bs)
    ensures DistinctBodies(bs + [b])
    ensures Elements(bs + [b]) == Elements(bs) + {b}
  {
  }

  /** Dropping the last of a list of distinct bodies keeps the rest distinct and removes exactly that body. */
  lemma DistinctDropLast(bs: seq<Body>, b: Body)
    requires DistinctBodies(bs + [b])
    ensures DistinctBodies(bs)
    ensures Elements(bs) == Elements(bs + [b]) - {b}
  {
    forall i, j | 0 <= i < j < |bs| ensures bs[i] != bs[j] {
      assert bs[i] == (bs + [b])[i] && bs[j] == (bs + [b])[j];
    }
    forall x | x in bs ensures x != b {
      var i :| 0 <= i < |bs| && bs[i] == x;
      assert (bs + [b])[i] == x && (bs + [b])[|bs|] == b;
    }
  }
}
