/** Sprites: the geometric part of a sprite record, its axis-aligned bounding
    box (AABB) and the inclusive box-overlap test the game uses for
    collisions. Positions and sizes are exact reals. */
module Sprites {

  datatype Vec2 = Vec2(x: real, y: real)
  datatype Vec3 = Vec3(x: real, y: real, z: real)

  /** A sprite as gameplay sees it: its centre, its size and the box corners
      cached by UpdateSpriteBounds. Texture, vertex array, angle and the
      animation bookkeeping are not part of the model. */
  datatype Sprite = Sprite(position: Vec3, dimensions: Vec3, pMin: Vec2, pMax: Vec2)

  /** Lower corner of the box: the centre minus half the size (z ignored). */
  function PMin(s: Sprite): (p: Vec2)
    ensures p.x + s.dimensions.x / 2.0 == s.position.x
    ensures p.y + s.dimensions.y / 2.0 == s.position.y
    ensures s.dimensions.x >= 0.0 && s.dimensions.y >= 0.0 ==>
      p.x <= s.position.x && p.y <= s.position.y
  {
    Vec2(s.position.x - s.dimensions.x / 2.0, s.position.y - s.dimensions.y / 2.0)
  }

  /** Upper corner of the box: the centre plus half the size (z ignored). */
  function PMax(s: Sprite): (p: Vec2)
    ensures p.x - s.dimensions.x / 2.0 == s.position.x
    ensures p.y - s.dimensions.y / 2.0 == s.position.y
    ensures s.dimensions.x >= 0.0 && s.dimensions.y >= 0.0 ==>
      s.position.x <= p.x && s.position.y <= p.y
  {
    Vec2(s.position.x + s.dimensions.x / 2.0, s.position.y + s.dimensions.y / 2.0)
  }

  /** The cached corners agree with the ones computed from position and size. */
  predicate BoundsFresh(s: Sprite) {
    s.pMin == PMin(s) && s.pMax == PMax(s)
  }

  /** Refreshes the cached corners; nothing else of the sprite changes. */
  function UpdateSpriteBounds(s: Sprite): (r: Sprite)
    ensures BoundsFresh(r)
    ensures r.position == s.position && r.dimensions == s.dimensions
  {
    s.(pMin := PMin(s), pMax := PMax(s))
  }

  function Abs(x: real): (a: real)
    ensures 0.0 <= a && (a == x || a == -x)
  {
    if x < 0.0 then -x else x
  }

  /** Inclusive AABB overlap on both axes, read from the COMPUTED corners,
      never from the cached ones. Equivalently (the reference definition):
      on each axis the centres are at most the sum of the half sizes apart. */
  function CheckCollision(one: Sprite, two: Sprite): (hit: bool)
    ensures hit <==>
      Abs(one.position.x - two.position.x) <= (one.dimensions.x + two.dimensions.x) / 2.0 &&
      Abs(one.position.y - two.position.y) <= (one.dimensions.y + two.dimensions.y) / 2.0
  {
    PMax(one).x >= PMin(two).x && PMin(one).x <= PMax(two).x &&
    PMax(one).y >= PMin(two).y && PMin(one).y <= PMax(two).y
  }

  // ---------------------------------------------------------------------
  // Bounds

  /** After a refresh the cache holds exactly centre -/+ half size. */
  lemma UpdateSpriteBoundsExact(s: Sprite)
    ensures UpdateSpriteBounds(s).pMin ==
      Vec2(s.position.x - s.dimensions.x / 2.0, s.position.y - s.dimensions.y / 2.0)
    ensures UpdateSpriteBounds(s).pMax ==
      Vec2(s.position.x + s.dimensions.x / 2.0, s.position.y + s.dimensions.y / 2.0)
  {
  }

  /** Refreshing twice is the same as refreshing once. */
  lemma UpdateSpriteBoundsIdempotent(s: Sprite)
    ensures UpdateSpriteBounds(UpdateSpriteBounds(s)) == UpdateSpriteBounds(s)
  {
  }

  /** The box and the (centre, size) pair determine each other: the centre is
      the midpoint of the corners and the size is their difference. */
  lemma BoxCentreAndSize(s: Sprite)
    ensures (PMin(s).x + PMax(s).x) / 2.0 == s.position.x
    ensures (PMin(s).y + PMax(s).y) / 2.0 == s.position.y
    ensures PMax(s).x - PMin(s).x == s.dimensions.x
    ensures PMax(s).y - PMin(s).y == s.dimensions.y
  {
  }

  lemma BoxDeterminesCentreAndSize(s: Sprite, t: Sprite)
    ensures (PMin(s) == PMin(t) && PMax(s) == PMax(t)) <==>
      (s.position.x == t.position.x && s.position.y == t.position.y &&
       s.dimensions.x == t.dimensions.x && s.dimensions.y == t.dimensions.y)
  {
  }

  // ---------------------------------------------------------------------
  // Collision

  lemma CollisionSymmetric(a: Sprite, b: Sprite)
    ensures CheckCollision(a, b) == CheckCollision(b, a)
  {
  }

  /** Boxes separated on one axis by more than the half sizes never collide. */
  lemma SeparatedNeverCollide(a: Sprite, b: Sprite)
    requires Abs(a.position.x - b.position.x) > (a.dimensions.x + b.dimensions.x) / 2.0 ||
             Abs(a.position.y - b.position.y) > (a.dimensions.y + b.dimensions.y) / 2.0
    ensures !CheckCollision(a, b)
  {
  }

  /** Two sprites with the same centre and non-negative sizes always collide. */
  lemma CollisionSameCentre(a: Sprite, b: Sprite)
    requires a.position.x == b.position.x && a.position.y == b.position.y
    requires a.dimensions.x >= 0.0 && a.dimensions.y >= 0.0
    requires b.dimensions.x >= 0.0 && b.dimensions.y >= 0.0
    ensures CheckCollision(a, b)
  {
  }

  /** Boundaries are inclusive: boxes that only touch along a vertical edge
      (and overlap vertically) or along a horizontal edge (and overlap
      horizontally) collide, in both orders. */
  lemma CollisionTouchingEdges(a: Sprite, b: Sprite)
    requires a.dimensions.x >= 0.0 && b.dimensions.x >= 0.0
    requires a.dimensions.y >= 0.0 && b.dimensions.y >= 0.0
    ensures PMax(a).x == PMin(b).x && PMax(a).y >= PMin(b).y && PMin(a).y <= PMax(b).y ==>
      CheckCollision(a, b) && CheckCollision(b, a)
    ensures PMax(a).y == PMin(b).y && PMax(a).x >= PMin(b).x && PMin(a).x <= PMax(b).x ==>
      CheckCollision(a, b) && CheckCollision(b, a)
  {
  }

  /** The cached corners are write-only as far as collision goes: two sprites
      that differ only in their caches collide with exactly the same sprites. */
  lemma CollisionIgnoresCache(a: Sprite, a': Sprite, b: Sprite, b': Sprite)
    requires a.position == a'.position && a.dimensions == a'.dimensions
    requires b.position == b'.position && b.dimensions == b'.dimensions
    ensures CheckCollision(a, b) == CheckCollision(a', b')
  {
  }
}
