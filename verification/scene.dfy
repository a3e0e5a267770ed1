/** `Scene`: an ordered list of actors and one of lights, each member
    pointing back at the scene it belongs to, and a cached bounding box of
    the actors with a dirty flag `modifiedBounds`.

    Actors, lights, scenes and models are named by identities.  The world
    box of an actor, `actor->model->boundingBox()`, is the function `box`,
    and the model an actor holds is the function `modelOf`: both read the
    models as they are while the scene operations run. */
module Scenes {
  import opened Wrappers
  import opened Vectors
  import G = Geometry

  type ActorId = nat
  type LightId = nat
  type SceneId = nat
  type ModelId = nat

  datatype Scene = Scene(
    id: SceneId,
    actors: seq<ActorId>,
    lights: seq<LightId>,
    bounds: G.Bounds3,
    modifiedBounds: bool)

  /** A scene together with the back-references `actor->scene` and
      `light->scene` of every actor and light; a missing key is null. */
  datatype World = World(
    scene: Scene,
    actorScene: map<ActorId, SceneId>,
    lightScene: map<LightId, SceneId>)

  /** The scene an actor or light points back at is this one. */
  predicate OwnedBy<K>(links: map<K, SceneId>, k: K, id: SceneId) {
    k in links && links[k] == id
  }

  // ---------------------------------------------------------------------
  // Lists

  /** The position of the first occurrence of x in s. */
  function IndexOf<T(==)>(s: seq<T>, x: T): (i: nat)
    requires x in s
    ensures i < |s| && s[i] == x && x !in s[..i]
  {
    if s[0] == x then 0
    else
      var j := IndexOf(s[1..], x);
      assert s[..j + 1] == [s[0]] + s[1..][..j];
      j + 1
  }

  /** `List::remove`: the first occurrence of x taken out, the order of
      the rest kept; nothing changes when x is absent. */
  function RemoveFirst<T(==)>(s: seq<T>, x: T): seq<T> {
    if x in s then s[..IndexOf(s, x)] + s[IndexOf(s, x) + 1..] else s
  }

  /** Exactly one x leaves the list when there is one, and nothing else
      does. */
  lemma RemoveFirstCount<T>(s: seq<T>, x: T)
    ensures multiset(RemoveFirst(s, x)) == multiset(s) - multiset{x}
    ensures x in s ==> |RemoveFirst(s, x)| == |s| - 1
  {
    if x in s {
      var i := IndexOf(s, x);
      var a, b := s[..i], s[i + 1..];
      assert RemoveFirst(s, x) == a + b;
      assert s == a + [x] + b;
      assert multiset(a + b) == multiset(a) + multiset(b);
      assert multiset(a + [x] + b) == multiset(a) + multiset{x} + multiset(b);
    } else {
      assert x !in multiset(s);
    }
  }

  // ---------------------------------------------------------------------
  // The union of the actors' boxes

  /** The two corners of each actor's box, in list order. */
  function BoxCorners(actors: seq<ActorId>, box: ActorId -> G.Bounds3): (r: seq<Vec3E>)
    ensures |r| == 2 * |actors|
    ensures forall i :: 0 <= i < |actors| ==> r[2 * i] == box(actors[i]).p1 && r[2 * i + 1] == box(actors[i]).p2
  {
    if |actors| == 0 then []
    else BoxCorners(actors[..|actors| - 1], box) + [box(actors[|actors| - 1]).p1, box(actors[|actors| - 1]).p2]
  }

  /** The box the cache stands for: the empty box inflated by each actor's
      box in list order. */
  function UnionOf(actors: seq<ActorId>, box: ActorId -> G.Bounds3): G.Bounds3 {
    G.InflateAll(G.Empty(), BoxCorners(actors, box))
  }

  /** Inflating the union by one more actor's box is the union with that
      actor appended. */
  lemma UnionAppend(actors: seq<ActorId>, a: ActorId, box: ActorId -> G.Bounds3)
    ensures UnionOf(actors + [a], box) == G.InflateBox(UnionOf(actors, box), box(a))
  {
    var s := actors + [a];
    assert s[..|s| - 1] == actors && s[|s| - 1] == a;
    var c := BoxCorners(actors, box);
    var d := BoxCorners(s, box);
    assert d == c + [box(a).p1, box(a).p2];
    assert d[..|d| - 1] == c + [box(a).p1];
    assert (c + [box(a).p1])[..|c|] == c;
    assert G.InflateAll(G.Empty(), c + [box(a).p1]) == G.InflatePoint(G.InflateAll(G.Empty(), c), box(a).p1);
    assert G.InflateAll(G.Empty(), d) == G.InflatePoint(G.InflateAll(G.Empty(), c + [box(a).p1]), box(a).p2);
  }

  /** The union holds both corners of every actor's box (their non-NaN
      coordinates) and lies within any box that does: it is the smallest
      box around the actors. */
  lemma UnionSmallest(actors: seq<ActorId>, box: ActorId -> G.Bounds3, c: G.Bounds3)
    ensures forall i :: 0 <= i < |actors| ==>
      G.Covers(UnionOf(actors, box), box(actors[i]).p1) && G.Covers(UnionOf(actors, box), box(actors[i]).p2)
    ensures (forall i :: 0 <= i < |actors| ==> G.Covers(c, box(actors[i]).p1) && G.Covers(c, box(actors[i]).p2)) ==>
      G.Within(UnionOf(actors, box), c)
  {
    var pts := BoxCorners(actors, box);
    G.InflateAllCovers(G.Empty(), pts, c.p1);
    forall i | 0 <= i < |actors|
      ensures G.Covers(UnionOf(actors, box), box(actors[i]).p1) && G.Covers(UnionOf(actors, box), box(actors[i]).p2)
    {
      assert pts[2 * i] == box(actors[i]).p1;
      assert pts[2 * i + 1] == box(actors[i]).p2;
    }
    if forall i :: 0 <= i < |actors| ==> G.Covers(c, box(actors[i]).p1) && G.Covers(c, box(actors[i]).p2) {
      forall k | 0 <= k < |pts|
        ensures G.Covers(c, pts[k])
      {
        var i := k / 2;
        assert k == 2 * i || k == 2 * i + 1;
        assert i < |actors|;
        assert G.Covers(c, box(actors[i]).p1) && G.Covers(c, box(actors[i]).p2);
      }
      G.InflateAllSmallest(pts, c);
    }
  }

  // ---------------------------------------------------------------------
  // The cache

  /** While the flag is clear, the cached box is the union. */
  predicate CacheValid(w: World, box: ActorId -> G.Bounds3) {
    !w.scene.modifiedBounds ==> w.scene.bounds == UnionOf(w.scene.actors, box)
  }

  /** A new scene: no actors, no lights, the empty box and a clear flag.
      (The constructor is in a header that is not part of this model.) */
  function NewScene(id: SceneId, actorScene: map<ActorId, SceneId>, lightScene: map<LightId, SceneId>): (w: World)
    ensures w.scene.id == id && w.scene.actors == [] && w.scene.lights == []
    ensures !w.scene.modifiedBounds && G.IsEmpty(w.scene.bounds)
  {
    World(Scene(id, [], [], G.Empty(), false), actorScene, lightScene)
  }

  /** `updateBounds()`: the empty box, inflated by the world box of each
      actor from the head of the list on. */
  method UpdateBounds(actors: seq<ActorId>, box: ActorId -> G.Bounds3) returns (b: G.Bounds3)
    ensures b == UnionOf(actors, box)
  {
    b := G.Empty();
    var i := 0;
    while i < |actors|
      invariant 0 <= i <= |actors|
      invariant b == UnionOf(actors[..i], box)
    {
      UnionAppend(actors[..i], actors[i], box);
      assert actors[..i + 1] == actors[..i] + [actors[i]];
      b := G.InflateBox(b, box(actors[i]));
      i := i + 1;
    }
    assert actors[..i] == actors;
  }

  /** `boundingBox()`: recomputes the cache when the flag is set, and
      returns the cache.  The flag is never cleared here, so every later
      call recomputes again.  Returns the new state and the box. */
  method BoundingBox(w: World, box: ActorId -> G.Bounds3) returns (r: World, b: G.Bounds3)
    ensures b == r.scene.bounds
    ensures r.scene.modifiedBounds == w.scene.modifiedBounds
    ensures r.scene.actors == w.scene.actors && r.scene.lights == w.scene.lights && r.scene.id == w.scene.id
    ensures r.actorScene == w.actorScene && r.lightScene == w.lightScene
    ensures w.scene.modifiedBounds ==> b == UnionOf(w.scene.actors, box)
    ensures !w.scene.modifiedBounds ==> r == w
    ensures CacheValid(w, box) ==> CacheValid(r, box) && b == UnionOf(w.scene.actors, box)
  {
    if w.scene.modifiedBounds {
      b := UpdateBounds(w.scene.actors, box);
      r := w.(scene := w.scene.(bounds := b));
    } else {
      r := w;
      b := w.scene.bounds;
    }
  }

  // ---------------------------------------------------------------------
  // Actors

  /** `findActor(model)`: the first actor of the list holding that model,
      or None. */
  function FindActor(actors: seq<ActorId>, modelOf: ActorId -> ModelId, model: ModelId): (r: Option<ActorId>)
    ensures r.None? <==> forall i :: 0 <= i < |actors| ==> modelOf(actors[i]) != model
    ensures r.Some? ==> exists i :: 0 <= i < |actors| && actors[i] == r.value && modelOf(r.value) == model &&
                                    (forall j :: 0 <= j < i ==> modelOf(actors[j]) != model)
  {
    if |actors| == 0 then None
    else if modelOf(actors[0]) == model then
      assert actors[0] == actors[0];
      Some(actors[0])
    else
      var r := FindActor(actors[1..], modelOf, model);
      assert forall i :: 1 <= i < |actors| ==> actors[i] == actors[1..][i - 1];
      r
  }

  /** `addActor(actor)`: nothing for null; otherwise the actor is appended,
      points back at this scene, and the cache grows by its world box
      unless the flag is set. */
  function AddActor(w: World, a: Option<ActorId>, box: ActorId -> G.Bounds3): (r: World)
    ensures a.None? ==> r == w
    ensures a.Some? ==> r.scene.actors == w.scene.actors + [a.value] && OwnedBy(r.actorScene, a.value, w.scene.id)
    ensures a.Some? ==> forall k :: k in w.actorScene && k != a.value ==> OwnedBy(r.actorScene, k, w.actorScene[k])
    ensures a.Some? ==> r.actorScene.Keys == w.actorScene.Keys + {a.value}
    ensures r.scene.lights == w.scene.lights && r.lightScene == w.lightScene && r.scene.id == w.scene.id
    ensures r.scene.modifiedBounds == w.scene.modifiedBounds
    ensures a.Some? && !w.scene.modifiedBounds ==> r.scene.bounds == G.InflateBox(w.scene.bounds, box(a.value))
    ensures w.scene.modifiedBounds ==> r.scene.bounds == w.scene.bounds
  {
    match a
    case None => w
    case Some(x) =>
      var s := w.scene.(actors := w.scene.actors + [x]);
      var s' := if w.scene.modifiedBounds then s else s.(bounds := G.InflateBox(s.bounds, box(x)));
      w.(scene := s', actorScene := w.actorScene[x := w.scene.id])
  }

  /** `deleteActor(actor)`: only when the actor points back at this scene,
      it is taken out of the list, its back-reference cleared and the flag
      set; otherwise nothing changes. */
  function DeleteActor(w: World, a: Option<ActorId>): (r: World)
    ensures !(a.Some? && OwnedBy(w.actorScene, a.value, w.scene.id)) ==> r == w
    ensures a.Some? && OwnedBy(w.actorScene, a.value, w.scene.id) ==>
      && r.scene.actors == RemoveFirst(w.scene.actors, a.value)
      && r.actorScene == w.actorScene - {a.value}
      && r.scene.modifiedBounds
      && r.scene.bounds == w.scene.bounds
    ensures r.scene.lights == w.scene.lights && r.lightScene == w.lightScene && r.scene.id == w.scene.id
  {
    if a.Some? && OwnedBy(w.actorScene, a.value, w.scene.id) then
      w.(scene := w.scene.(actors := RemoveFirst(w.scene.actors, a.value), modifiedBounds := true),
         actorScene := w.actorScene - {a.value})
    else
      w
  }

  /** `deleteActors()`: every actor taken out and unlinked, the cache
      reset to the empty box and the flag cleared. */
  function DeleteActors(w: World): (r: World)
    ensures r.scene.actors == [] && r.scene.bounds == G.Empty() && !r.scene.modifiedBounds
    ensures forall k :: k in w.scene.actors ==> k !in r.actorScene
    ensures forall k :: k in w.actorScene && k !in w.scene.actors ==> OwnedBy(r.actorScene, k, w.actorScene[k])
    ensures r.actorScene.Keys <= w.actorScene.Keys
    ensures r.scene.lights == w.scene.lights && r.lightScene == w.lightScene && r.scene.id == w.scene.id
  {
    w.(scene := w.scene.(actors := [], bounds := G.Empty(), modifiedBounds := false),
       actorScene := w.actorScene - set k | k in w.scene.actors)
  }

  // ---------------------------------------------------------------------
  // Lights

  /** `addLight(light)`: nothing for null; otherwise the light is appended
      and points back at this scene.  The actors and the cache stay. */
  function AddLight(w: World, l: Option<LightId>): (r: World)
    ensures l.None? ==> r == w
    ensures l.Some? ==> r.scene.lights == w.scene.lights + [l.value] && OwnedBy(r.lightScene, l.value, w.scene.id)
    ensures l.Some? ==> forall k :: k in w.lightScene && k != l.value ==> OwnedBy(r.lightScene, k, w.lightScene[k])
    ensures l.Some? ==> r.lightScene.Keys == w.lightScene.Keys + {l.value}
    ensures r.scene.actors == w.scene.actors && r.actorScene == w.actorScene && r.scene.id == w.scene.id
    ensures r.scene.bounds == w.scene.bounds && r.scene.modifiedBounds == w.scene.modifiedBounds
  {
    match l
    case None => w
    case Some(x) => w.(scene := w.scene.(lights := w.scene.lights + [x]), lightScene := w.lightScene[x := w.scene.id])
  }

  /** `deleteLight(light)`: only when the light points back at this scene,
      it is taken out of the list and its back-reference cleared.  The
      actors and the cache stay either way. */
  function DeleteLight(w: World, l: Option<LightId>): (r: World)
    ensures !(l.Some? && OwnedBy(w.lightScene, l.value, w.scene.id)) ==> r == w
    ensures l.Some? && OwnedBy(w.lightScene, l.value, w.scene.id) ==>
      r.scene.lights == RemoveFirst(w.scene.lights, l.value) && r.lightScene == w.lightScene - {l.value}
    ensures r.scene.actors == w.scene.actors && r.actorScene == w.actorScene && r.scene.id == w.scene.id
    ensures r.scene.bounds == w.scene.bounds && r.scene.modifiedBounds == w.scene.modifiedBounds
  {
    if l.Some? && OwnedBy(w.lightScene, l.value, w.scene.id) then
      w.(scene := w.scene.(lights := RemoveFirst(w.scene.lights, l.value)), lightScene := w.lightScene - {l.value})
    else
      w
  }

  /** `deleteLights()`: every light taken out and unlinked. */
  function DeleteLights(w: World): (r: World)
    ensures r.scene.lights == []
    ensures forall k :: k in w.scene.lights ==> k !in r.lightScene
    ensures forall k :: k in w.lightScene && k !in w.scene.lights ==> OwnedBy(r.lightScene, k, w.lightScene[k])
    ensures r.lightScene.Keys <= w.lightScene.Keys
    ensures r.scene.actors == w.scene.actors && r.actorScene == w.actorScene && r.scene.id == w.scene.id
    ensures r.scene.bounds == w.scene.bounds && r.scene.modifiedBounds == w.scene.modifiedBounds
  {
    w.(scene := w.scene.(lights := []), lightScene := w.lightScene - set k | k in w.scene.lights)
  }

  // ---------------------------------------------------------------------
  // The cache invariant

  /** Every operation keeps the cache valid: a clear flag always means the
      cache is the union of the current actors' boxes. */
  lemma CacheValidKept(w: World, box: ActorId -> G.Bounds3, a: Option<ActorId>, l: Option<LightId>)
    requires CacheValid(w, box)
    ensures CacheValid(AddActor(w, a, box), box)
    ensures CacheValid(DeleteActor(w, a), box)
    ensures CacheValid(DeleteActors(w), box)
    ensures CacheValid(AddLight(w, l), box)
    ensures CacheValid(DeleteLight(w, l), box)
    ensures CacheValid(DeleteLights(w), box)
  {
    if a.Some? && !w.scene.modifiedBounds {
      UnionAppend(w.scene.actors, a.value, box);
    }
  }

  /** A new scene starts with a valid cache. */
  lemma NewSceneCacheValid(id: SceneId, actorScene: map<ActorId, SceneId>, lightScene: map<LightId, SceneId>, box: ActorId -> G.Bounds3)
    ensures CacheValid(NewScene(id, actorScene, lightScene), box)
    ensures NewScene(id, actorScene, lightScene).scene.bounds == UnionOf([], box)
  {
  }

  /** Once an actor has been deleted the flag stays set through every
      operation but `deleteActors`, which alone clears it. */
  lemma FlagStaysSet(w: World, box: ActorId -> G.Bounds3, a: Option<ActorId>, l: Option<LightId>)
    requires w.scene.modifiedBounds
    ensures AddActor(w, a, box).scene.modifiedBounds
    ensures DeleteActor(w, a).scene.modifiedBounds
    ensures AddLight(w, l).scene.modifiedBounds
    ensures DeleteLight(w, l).scene.modifiedBounds
    ensures DeleteLights(w).scene.modifiedBounds
    ensures !DeleteActors(w).scene.modifiedBounds
  {
  }

  /** Adding an actor and asking for the box gives the union with that
      actor, whether or not the flag was set. */
  method AddThenBoundingBox(w: World, a: ActorId, box: ActorId -> G.Bounds3) returns (b: G.Bounds3)
    requires CacheValid(w, box)
    ensures b == UnionOf(w.scene.actors + [a], box)
    ensures b == G.InflateBox(UnionOf(w.scene.actors, box), box(a))
  {
    var w1 := AddActor(w, Some(a), box);
    CacheValidKept(w, box, Some(a), None);
    UnionAppend(w.scene.actors, a, box);
    var w2;
    w2, b := BoundingBox(w1, box);
  }
}
