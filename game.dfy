/** GameLoop: the game's mutable state and the operations that update it in
    place: the key callback writing the key table, the reset of the actors,
    and one iteration of the game loop. Each is proved against the functions
    of Gameplay and Keys. */
module GameLoop {
  import opened Sprites
  import opened Screen
  import opened Keys
  import opened Gameplay

  class Game {
    var state: GameState
    var spaceship: Sprite
    /** The meteors, a fixed-size collection updated element by element. */
    var meteors: array<Sprite>
    /** The pressed-key table written by the key callback. */
    var keys: array<bool>

    ghost predicate Valid()
      reads this, meteors
    {
      keys.Length == KEY_COUNT && AllSpawnable(meteors[..])
    }

    /** The abstract world the game loop works on. */
    ghost function View(): (w: World)
      reads this, meteors
    {
      World(state, spaceship, meteors[..])
    }

    /** Setup before the game loop: the spaceship at its spawn point, the
        meteors in a row from x = 500 with random y positions, no key held.
        The widths and heights of the loaded texture images are parameters;
        the sprite sizes are those scaled by 0.1 for the spaceship and 0.2
        for the meteors, with depth 1. */
    constructor (shipWidth: int, shipHeight: int, meteorWidth: int, meteorHeight: int, rs: seq<Rand>)
      requires |rs| == NUM_METEORS
      requires Spawnable(SpriteSize(meteorWidth, meteorHeight, METEOR_SCALE).y)
      ensures Valid() && fresh(meteors) && fresh(keys)
      ensures View() == InitialWorld(SpriteSize(shipWidth, shipHeight, SHIP_SCALE),
                                     SpriteSize(meteorWidth, meteorHeight, METEOR_SCALE), rs)
      ensures forall k :: 0 <= k < KEY_COUNT ==> !keys[k]
    {
      var shipDims := SpriteSize(shipWidth, shipHeight, SHIP_SCALE);
      var meteorDims := SpriteSize(meteorWidth, meteorHeight, METEOR_SCALE);
      var ms := new Sprite[NUM_METEORS](_ => Sprite(Vec3(0.0, 0.0, 0.0), meteorDims, Vec2(0.0, 0.0), Vec2(0.0, 0.0)));
      for i := 0 to NUM_METEORS
        invariant forall k :: 0 <= k < i ==> ms[k] == InitialMeteor(k, meteorDims, rs[k])
      {
        var meteor := UpdateSpriteBounds(Sprite(Vec3((500 + 100 * i) as real, 300.0, 0.0), meteorDims, Vec2(0.0, 0.0), Vec2(0.0, 0.0)));
        meteor := meteor.(position := meteor.position.(y := SpawnY(rs[i], meteor.dimensions.y)));
        ms[i] := meteor;
      }
      state := BeforeStart;
      spaceship := UpdateSpriteBounds(Sprite(SPAWN_POINT, shipDims, Vec2(0.0, 0.0), Vec2(0.0, 0.0)));
      meteors := ms;
      keys := new bool[KEY_COUNT](_ => false);
    }

    /** The key callback's table update: keys[key] becomes true on a press and
        false on a release of a key in [0, KEY_COUNT); nothing else changes. */
    method KeyCallback(key: int, action: int)
      requires Valid()
      modifies keys
      ensures Valid()
      ensures keys[..] == KeyTableUpdate(old(keys[..]), key, action)
    {
      if 0 <= key < keys.Length {
        if action == PRESS {
          keys[key] := true;
        } else if action == RELEASE {
          keys[key] := false;
        }
      }
    }

    /** Puts the spaceship back at its spawn point and every meteor at the
        right edge with a random y from rs and refreshed bounds. */
    method ResetGame(rs: seq<Rand>)
      requires Valid() && |rs| == meteors.Length
      modifies this`spaceship, meteors
      ensures Valid()
      ensures spaceship == old(spaceship).(position := SPAWN_POINT)
      ensures meteors[..] == ResetMeteors(old(meteors[..]), rs)
    {
      spaceship := spaceship.(position := SPAWN_POINT);
      ghost var before := meteors[..];
      for i := 0 to meteors.Length
        invariant spaceship == old(spaceship).(position := SPAWN_POINT)
        invariant forall k :: 0 <= k < i ==> meteors[k] == ResetMeteor(before[k], rs[k])
        invariant forall k :: i <= k < meteors.Length ==> meteors[k] == before[k]
      {
        assert Spawnable(before[i].dimensions.y);
        meteors[i] := meteors[i].(position := meteors[i].position.(x := WIDTH as real));
        meteors[i] := meteors[i].(position := meteors[i].position.(y := SpawnY(rs[i], meteors[i].dimensions.y)));
        meteors[i] := UpdateSpriteBounds(meteors[i]);
      }
      assert meteors[..] == ResetMeteors(before, rs);
    }

    /** The running game's movement controls: the four key pairs are tested
        in turn, each moving the spaceship by VEL. */
    method MoveShip()
      requires Valid()
      modifies this`spaceship
      ensures Valid()
      ensures spaceship == old(spaceship).(position := MoveSpaceship(old(spaceship).position, keys[..]))
    {
      if keys[KEY_LEFT] || keys[KEY_A] {
        spaceship := spaceship.(position := spaceship.position.(x := spaceship.position.x - VEL));
      }
      if keys[KEY_RIGHT] || keys[KEY_D] {
        spaceship := spaceship.(position := spaceship.position.(x := spaceship.position.x + VEL));
      }
      if keys[KEY_UP] || keys[KEY_W] {
        spaceship := spaceship.(position := spaceship.position.(y := spaceship.position.y + VEL));
      }
      if keys[KEY_DOWN] || keys[KEY_S] {
        spaceship := spaceship.(position := spaceship.position.(y := spaceship.position.y - VEL));
      }
    }

    /** The running game's meteor loop: each meteor in order moves left,
        is recycled at the right edge once past the threshold, gets fresh
        bounds and is tested against the spaceship; the loop stops at the
        first collision and reports it. */
    method UpdateMeteors(ship: Sprite, rs: seq<Rand>) returns (hit: bool)
      requires Valid() && |rs| == meteors.Length
      modifies meteors
      ensures Valid()
      ensures (meteors[..], hit) == MeteorPass(ship, old(meteors[..]), rs, 0)
    {
      hit := false;
      var i := 0;
      while i < meteors.Length
        invariant 0 <= i <= meteors.Length
        invariant AllSpawnable(meteors[..])
        invariant MeteorPass(ship, meteors[..], rs, i) == MeteorPass(ship, old(meteors[..]), rs, 0)
        invariant !hit
      {
        ghost var before := meteors[..];
        meteors[i] := meteors[i].(position := meteors[i].position.(x := meteors[i].position.x - VEL));
        if meteors[i].position.x < OFFSCREEN_LEFT {
          meteors[i] := meteors[i].(position := meteors[i].position.(x := WIDTH as real, y := SpawnY(rs[i], meteors[i].dimensions.y)));
        }
        meteors[i] := UpdateSpriteBounds(meteors[i]);
        assert meteors[i] == MoveMeteor(before[i], rs[i]);
        assert meteors[..] == before[i := MoveMeteor(before[i], rs[i])];
        if CheckCollision(ship, meteors[i]) {
          hit := true;
          break;
        }
        i := i + 1;
      }
    }

    /** One iteration of the game loop (draw calls left out), reading the key
        table and taking the rand() value for meteor i from rs[i]. */
    method Step(rs: seq<Rand>)
      requires Valid() && |rs| == meteors.Length
      modifies this`state, this`spaceship, meteors
      ensures Valid()
      ensures View() == Frame(old(View()), keys[..], rs)
    {
      if state == BeforeStart {
        if keys[KEY_ENTER] {
          state := Running;
        }
      } else if state == Running {
        MoveShip();
        var hit := UpdateMeteors(spaceship, rs);
        if hit {
          state := GameOver;
        }
        spaceship := UpdateSpriteBounds(spaceship);
      } else if state == GameOver {
        if keys[KEY_SPACE] {
          state := BeforeStart;
          ResetGame(rs);
        }
      }
    }
  }
}
