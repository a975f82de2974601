/** Gameplay: one frame of the game as a function of the world before it,
    the key table and the rand() values the frame draws.

    The world is the game state, the spaceship and the ordered, fixed-size
    collection of meteors. A frame runs exactly one branch of the state
    machine: the start screen waits for ENTER, the running game moves the
    spaceship and the meteors and tests collisions, the game-over screen waits
    for SPACE and then resets the actors. */
module Gameplay {
  import opened Sprites
  import opened Screen
  import opened Keys

  /** Distance moved per frame by the spaceship and the meteors. */
  const VEL: real := 1.2
  /** A meteor whose x falls below this is recycled to the right edge. */
  const OFFSCREEN_LEFT: real := -100.0
  const NUM_METEORS: int := 5
  /** Where the spaceship starts and where a reset puts it back. */
  const SPAWN_POINT: Vec3 := Vec3(100.0, 300.0, 0.0)

  datatype GameState = BeforeStart | Running | GameOver

  datatype World = World(state: GameState, spaceship: Sprite, meteors: seq<Sprite>)

  /** Every meteor's height gives the spawn formula a non-zero modulus. */
  predicate AllSpawnable(ms: seq<Sprite>) {
    forall k :: 0 <= k < |ms| ==> Spawnable(ms[k].dimensions.y)
  }

  /** The only state changes a frame may make. */
  predicate Transition(s: GameState, t: GameState) {
    t == s ||
    (s == BeforeStart && t == Running) ||
    (s == Running && t == GameOver) ||
    (s == GameOver && t == BeforeStart)
  }

  // ---------------------------------------------------------------------
  // Spaceship movement

  /** The four key pairs are tested one after the other and independently:
      LEFT/A moves left, RIGHT/D right, UP/W up, DOWN/S down, each by VEL. */
  function MoveSpaceship(p: Vec3, keys: seq<bool>): (q: Vec3)
    requires |keys| == KEY_COUNT
    ensures q.x == p.x - (if keys[KEY_LEFT] || keys[KEY_A] then VEL else 0.0)
                       + (if keys[KEY_RIGHT] || keys[KEY_D] then VEL else 0.0)
    ensures q.y == p.y + (if keys[KEY_UP] || keys[KEY_W] then VEL else 0.0)
                       - (if keys[KEY_DOWN] || keys[KEY_S] then VEL else 0.0)
    ensures q.z == p.z
  {
    var p1 := if keys[KEY_LEFT] || keys[KEY_A] then p.(x := p.x - VEL) else p;
    var p2 := if keys[KEY_RIGHT] || keys[KEY_D] then p1.(x := p1.x + VEL) else p1;
    var p3 := if keys[KEY_UP] || keys[KEY_W] then p2.(y := p2.y + VEL) else p2;
    if keys[KEY_DOWN] || keys[KEY_S] then p3.(y := p3.y - VEL) else p3
  }

  /** Opposite keys held together cancel on their axis. */
  lemma OppositeKeysCancel(p: Vec3, keys: seq<bool>)
    requires |keys| == KEY_COUNT
    ensures (keys[KEY_LEFT] || keys[KEY_A]) && (keys[KEY_RIGHT] || keys[KEY_D]) ==>
      MoveSpaceship(p, keys).x == p.x
    ensures (keys[KEY_UP] || keys[KEY_W]) && (keys[KEY_DOWN] || keys[KEY_S]) ==>
      MoveSpaceship(p, keys).y == p.y
  {
  }

  /** Diagonal movement is not normalised: RIGHT and UP together move VEL
      along both axes. */
  lemma DiagonalMovesBothAxes(p: Vec3, keys: seq<bool>)
    requires |keys| == KEY_COUNT
    requires keys[KEY_RIGHT] && keys[KEY_UP]
    requires !keys[KEY_LEFT] && !keys[KEY_A] && !keys[KEY_DOWN] && !keys[KEY_S]
    ensures MoveSpaceship(p, keys) == Vec3(p.x + VEL, p.y + VEL, p.z)
  {
  }

  // ---------------------------------------------------------------------
  // Meteors

  /** One meteor's update in the running game: move left by VEL; if it is
      then past the left threshold, put it at the right edge with a fresh
      random y (which needs the spawn formula to be defined); refresh bounds. */
  function MoveMeteor(m: Sprite, r: Rand): (m': Sprite)
    requires m.position.x - VEL < OFFSCREEN_LEFT ==> Spawnable(m.dimensions.y)
    ensures m'.dimensions == m.dimensions && m'.position.z == m.position.z
    ensures BoundsFresh(m')
    ensures m.position.x - VEL < OFFSCREEN_LEFT ==>
      m'.position.x == WIDTH as real && m'.position.y == SpawnY(r, m.dimensions.y)
    ensures m.position.x - VEL >= OFFSCREEN_LEFT ==>
      m'.position.x == m.position.x - VEL && m'.position.y == m.position.y
  {
    var moved := m.(position := m.position.(x := m.position.x - VEL));
    var placed :=
      if moved.position.x < OFFSCREEN_LEFT then
        moved.(position := moved.position.(x := WIDTH as real, y := SpawnY(r, moved.dimensions.y)))
      else moved;
    UpdateSpriteBounds(placed)
  }

  /** A moved meteor is never left beyond the threshold, and a recycled one of
      moderate height re-enters inside the screen's vertical band. */
  lemma MoveMeteorStaysInPlay(m: Sprite, r: Rand)
    requires m.position.x - VEL < OFFSCREEN_LEFT ==> Spawnable(m.dimensions.y)
    ensures MoveMeteor(m, r).position.x >= OFFSCREEN_LEFT
    ensures m.position.x - VEL < OFFSCREEN_LEFT &&
            0.0 <= m.dimensions.y && Trunc(m.dimensions.y * 2.0) < HEIGHT ==>
      Trunc(m.dimensions.y) as real <= MoveMeteor(m, r).position.y < HEIGHT as real
  {
  }

  /** A meteor at x = -150 is recycled in one frame: x becomes WIDTH and y is
      inside the screen. */
  lemma RecycleScenario(m: Sprite, r: Rand)
    requires m.position.x == -150.0
    requires 0.0 <= m.dimensions.y && Trunc(m.dimensions.y * 2.0) < HEIGHT
    ensures Spawnable(m.dimensions.y)
    ensures MoveMeteor(m, r).position.x == WIDTH as real
    ensures 0.0 <= MoveMeteor(m, r).position.y < HEIGHT as real
  {
  }

  /** The processed meteor k (moved, maybe recycled, bounds refreshed)
      collides with the spaceship. */
  predicate Hits(ship: Sprite, ms: seq<Sprite>, rs: seq<Rand>, k: int)
    requires 0 <= k < |ms| && |rs| == |ms| && AllSpawnable(ms)
  {
    CheckCollision(ship, MoveMeteor(ms[k], rs[k]))
  }

  /** Reference definition: the first index from i on whose processed meteor
      hits the spaceship, or |ms| when there is none. */
  function FirstHit(ship: Sprite, ms: seq<Sprite>, rs: seq<Rand>, i: int): (k: int)
    requires 0 <= i <= |ms| && |rs| == |ms| && AllSpawnable(ms)
    ensures i <= k <= |ms|
    ensures k < |ms| ==> Hits(ship, ms, rs, k)
    ensures forall j :: i <= j < k ==> !Hits(ship, ms, rs, j)
    decreases |ms| - i
  {
    if i == |ms| then |ms|
    else if Hits(ship, ms, rs, i) then i
    else FirstHit(ship, ms, rs, i + 1)
  }

  /** The meteor loop from index i on, writing each processed meteor back in
      place and stopping at the first collision. Returns the meteors and
      whether a collision stopped the loop. */
  function MeteorPass(ship: Sprite, ms: seq<Sprite>, rs: seq<Rand>, i: int): (r: (seq<Sprite>, bool))
    requires 0 <= i <= |ms| && |rs| == |ms| && AllSpawnable(ms)
    ensures |r.0| == |ms|
    ensures forall k :: 0 <= k < |ms| ==> r.0[k].dimensions == ms[k].dimensions
    ensures forall k :: 0 <= k < i ==> r.0[k] == ms[k]
    decreases |ms| - i
  {
    if i == |ms| then (ms, false)
    else
      var m := MoveMeteor(ms[i], rs[i]);
      if CheckCollision(ship, m) then (ms[i := m], true)
      else
        assert AllSpawnable(ms[i := m]) by {
          assert forall k :: 0 <= k < |ms| ==> ms[i := m][k].dimensions == ms[k].dimensions;
        }
        MeteorPass(ship, ms[i := m], rs, i + 1)
  }

  /** FirstHit from i only looks at the meteors from i on. */
  lemma {:induction false} FirstHitFrame(ship: Sprite, ms: seq<Sprite>, ms': seq<Sprite>, rs: seq<Rand>, i: int)
    requires 0 <= i <= |ms| && |ms'| == |ms| && |rs| == |ms|
    requires AllSpawnable(ms) && AllSpawnable(ms')
    requires forall j :: i <= j < |ms| ==> ms'[j] == ms[j]
    ensures FirstHit(ship, ms, rs, i) == FirstHit(ship, ms', rs, i)
    decreases |ms| - i
  {
    if i < |ms| && !Hits(ship, ms, rs, i) {
      FirstHitFrame(ship, ms, ms', rs, i + 1);
    }
  }

  /** The loop stops exactly at the first hit: every meteor up to and
      including the first colliding one is processed, every later one is left
      as it was, and a collision is reported exactly when there is a hit. */
  lemma {:induction false} MeteorPassMatchesFirstHit(ship: Sprite, ms: seq<Sprite>, rs: seq<Rand>, i: int)
    requires 0 <= i <= |ms| && |rs| == |ms| && AllSpawnable(ms)
    ensures MeteorPass(ship, ms, rs, i).1 <==> FirstHit(ship, ms, rs, i) < |ms|
    ensures forall j :: i <= j < |ms| ==>
      MeteorPass(ship, ms, rs, i).0[j] ==
        if j <= FirstHit(ship, ms, rs, i) then MoveMeteor(ms[j], rs[j]) else ms[j]
    decreases |ms| - i
  {
    if i < |ms| {
      var m := MoveMeteor(ms[i], rs[i]);
      if !CheckCollision(ship, m) {
        var ms' := ms[i := m];
        assert forall k :: 0 <= k < |ms| ==> ms'[k].dimensions == ms[k].dimensions;
        MeteorPassMatchesFirstHit(ship, ms', rs, i + 1);
        FirstHitFrame(ship, ms, ms', rs, i + 1);
      }
    }
  }

  /** A reset meteor: x at the right edge, a fresh random y, bounds refreshed. */
  function ResetMeteor(m: Sprite, r: Rand): (m': Sprite)
    requires Spawnable(m.dimensions.y)
    ensures m'.position == Vec3(WIDTH as real, SpawnY(r, m.dimensions.y), m.position.z)
    ensures m'.dimensions == m.dimensions && BoundsFresh(m')
  {
    var atRight := m.(position := m.position.(x := WIDTH as real));
    UpdateSpriteBounds(atRight.(position := atRight.position.(y := SpawnY(r, atRight.dimensions.y))))
  }

  /** Every meteor reset; the count and the sizes stay. */
  function ResetMeteors(ms: seq<Sprite>, rs: seq<Rand>): (out: seq<Sprite>)
    requires |rs| == |ms| && AllSpawnable(ms)
    ensures |out| == |ms| && AllSpawnable(out)
    ensures forall k :: 0 <= k < |ms| ==>
      out[k].position.x == WIDTH as real &&
      out[k].position.y == SpawnY(rs[k], ms[k].dimensions.y) &&
      out[k].position.z == ms[k].position.z &&
      out[k].dimensions == ms[k].dimensions && BoundsFresh(out[k])
  {
    seq(|ms|, k requires 0 <= k < |ms| => ResetMeteor(ms[k], rs[k]))
  }

  // ---------------------------------------------------------------------
  // One frame

  /** One iteration of the game loop, without its draw calls. */
  function Frame(w: World, keys: seq<bool>, rs: seq<Rand>): (w': World)
    requires |keys| == KEY_COUNT && |rs| == |w.meteors| && AllSpawnable(w.meteors)
    ensures |w'.meteors| == |w.meteors| && AllSpawnable(w'.meteors)
    ensures forall k :: 0 <= k < |w.meteors| ==> w'.meteors[k].dimensions == w.meteors[k].dimensions
    ensures w'.spaceship.dimensions == w.spaceship.dimensions
  {
    match w.state
    case BeforeStart =>
      if keys[KEY_ENTER] then w.(state := Running) else w
    case Running =>
      var ship := w.spaceship.(position := MoveSpaceship(w.spaceship.position, keys));
      var pass := MeteorPass(ship, w.meteors, rs, 0);
      World(if pass.1 then GameOver else Running, UpdateSpriteBounds(ship), pass.0)
    case GameOver =>
      if keys[KEY_SPACE] then
        World(BeforeStart, w.spaceship.(position := SPAWN_POINT), ResetMeteors(w.meteors, rs))
      else w
  }

  /** On the start screen only ENTER changes anything, and it starts the game. */
  lemma FrameBeforeStart(w: World, keys: seq<bool>, rs: seq<Rand>)
    requires |keys| == KEY_COUNT && |rs| == |w.meteors| && AllSpawnable(w.meteors)
    requires w.state == BeforeStart
    ensures Frame(w, keys, rs).state == (if keys[KEY_ENTER] then Running else BeforeStart)
    ensures Frame(w, keys, rs).spaceship == w.spaceship
    ensures Frame(w, keys, rs).meteors == w.meteors
  {
  }

  /** In the running game the spaceship moves by its keys and gets fresh
      bounds; the meteors are processed up to the first one that hits the
      moved spaceship and left alone after it; the game is over exactly when
      some meteor hits. */
  lemma FrameRunning(w: World, keys: seq<bool>, rs: seq<Rand>)
    requires |keys| == KEY_COUNT && |rs| == |w.meteors| && AllSpawnable(w.meteors)
    requires w.state == Running
    ensures var ship := w.spaceship.(position := MoveSpaceship(w.spaceship.position, keys));
      var w' := Frame(w, keys, rs);
      var k := FirstHit(ship, w.meteors, rs, 0);
      && (w'.state == GameOver <==> exists j :: 0 <= j < |w.meteors| && Hits(ship, w.meteors, rs, j))
      && (w'.state == GameOver || w'.state == Running)
      && w'.spaceship == UpdateSpriteBounds(ship)
      && (forall j :: 0 <= j < |w.meteors| ==>
            w'.meteors[j] == if j <= k then MoveMeteor(w.meteors[j], rs[j]) else w.meteors[j])
  {
    var ship := w.spaceship.(position := MoveSpaceship(w.spaceship.position, keys));
    MeteorPassMatchesFirstHit(ship, w.meteors, rs, 0);
    var k := FirstHit(ship, w.meteors, rs, 0);
    if exists j :: 0 <= j < |w.meteors| && Hits(ship, w.meteors, rs, j) {
      var j :| 0 <= j < |w.meteors| && Hits(ship, w.meteors, rs, j);
      assert k <= j;
    }
  }

  /** On the game-over screen only SPACE changes anything: it goes back to
      the start screen, returns the spaceship to its spawn point and resets
      every meteor. */
  lemma FrameGameOver(w: World, keys: seq<bool>, rs: seq<Rand>)
    requires |keys| == KEY_COUNT && |rs| == |w.meteors| && AllSpawnable(w.meteors)
    requires w.state == GameOver
    ensures Frame(w, keys, rs).state == (if keys[KEY_SPACE] then BeforeStart else GameOver)
    ensures !keys[KEY_SPACE] ==> Frame(w, keys, rs) == w
    ensures keys[KEY_SPACE] ==>
      Frame(w, keys, rs).spaceship == w.spaceship.(position := SPAWN_POINT) &&
      Frame(w, keys, rs).meteors == ResetMeteors(w.meteors, rs)
  {
  }

  /** Every frame makes one of the permitted state changes, or none. */
  lemma FrameTransitionLegal(w: World, keys: seq<bool>, rs: seq<Rand>)
    requires |keys| == KEY_COUNT && |rs| == |w.meteors| && AllSpawnable(w.meteors)
    ensures Transition(w.state, Frame(w, keys, rs).state)
  {
  }

  /** End to end: a spaceship at its spawn point and a meteor centred on it,
      with no key held, end the running game within the frame. */
  lemma CollisionScenario(ship: Sprite, meteor: Sprite, rs: seq<Rand>)
    requires ship.position == SPAWN_POINT && ship.dimensions == Vec3(50.0, 50.0, 1.0)
    requires meteor.position == SPAWN_POINT && meteor.dimensions == Vec3(40.0, 40.0, 1.0)
    requires |rs| == 1
    ensures AllSpawnable([meteor])
    ensures Frame(World(Running, ship, [meteor]), seq(KEY_COUNT, _ => false), rs).state == GameOver
  {
  }

  // ---------------------------------------------------------------------
  // Setup

  /** A sprite's size is its texture image's width and height scaled by a
      factor (0.1 for the spaceship, 0.2 for a meteor), with depth 1. */
  const SHIP_SCALE: real := 0.1
  const METEOR_SCALE: real := 0.2

  function SpriteSize(imgWidth: int, imgHeight: int, scale: real): Vec3 {
    Vec3(imgWidth as real * scale, imgHeight as real * scale, 1.0)
  }

  /** A meteor as set up before the game loop: bounds computed at
      (500 + 100 i, 300), then y replaced by a random one WITHOUT refreshing
      the bounds. */
  function InitialMeteor(i: int, dims: Vec3, r: Rand): (m: Sprite)
    requires Spawnable(dims.y)
    ensures m.position == Vec3((500 + 100 * i) as real, SpawnY(r, dims.y), 0.0)
    ensures m.dimensions == dims
    ensures BoundsFresh(m.(position := m.position.(y := 300.0)))
  {
    var s := UpdateSpriteBounds(Sprite(Vec3((500 + 100 * i) as real, 300.0, 0.0), dims, Vec2(0.0, 0.0), Vec2(0.0, 0.0)));
    s.(position := s.position.(y := SpawnY(r, s.dimensions.y)))
  }

  /** The world before the first frame: the start screen, the spaceship at its
      spawn point with fresh bounds and NUM_METEORS meteors of one size. */
  function InitialWorld(shipDims: Vec3, meteorDims: Vec3, rs: seq<Rand>): (w: World)
    requires |rs| == NUM_METEORS && Spawnable(meteorDims.y)
    ensures w.state == BeforeStart
    ensures w.spaceship.position == SPAWN_POINT && w.spaceship.dimensions == shipDims
    ensures BoundsFresh(w.spaceship)
    ensures |w.meteors| == NUM_METEORS && AllSpawnable(w.meteors)
    ensures forall i :: 0 <= i < NUM_METEORS ==> w.meteors[i] == InitialMeteor(i, meteorDims, rs[i])
  {
    World(BeforeStart,
          UpdateSpriteBounds(Sprite(SPAWN_POINT, shipDims, Vec2(0.0, 0.0), Vec2(0.0, 0.0))),
          seq(NUM_METEORS, i requires 0 <= i < NUM_METEORS => InitialMeteor(i, meteorDims, rs[i])))
  }

  /** The initial meteors' cached bounds are stale once the random y differs
      from 300; collisions are unaffected (CollisionIgnoresCache) and the
      first running frame refreshes them. */
  lemma InitialMeteorCacheStale(i: int, dims: Vec3, r: Rand)
    requires Spawnable(dims.y) && SpawnY(r, dims.y) != 300.0
    ensures !BoundsFresh(InitialMeteor(i, dims, r))
  {
  }
}
