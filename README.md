# Spaceship game: gameplay core in Dafny

A model of the gameplay core of a small 2D arcade game. A spaceship must dodge
meteors that scroll in from the right. Each frame the game loop runs one branch
of a three-state machine:

- the start screen waits for ENTER;
- the running game moves the spaceship by the arrow/WASD keys, moves every
  meteor left, recycles meteors that leave the screen, refreshes their
  bounding boxes and tests each against the spaceship, stopping at the first
  collision, which ends the game;
- the game-over screen waits for SPACE, then returns to the start screen and
  resets the spaceship and the meteors.

Collision is an inclusive axis-aligned bounding-box (AABB) overlap test on boxes
centred on each sprite's position. The keyboard callback keeps a 1024-entry
table of held keys.

Files and modules:

- `sprites.dfy` (`Sprites`): the sprite record (position, size, cached box
  corners), the box corners, the bounds refresh and the collision test.
- `screen.dfy` (`Screen`): window size, the C truncating cast and the random
  spawn height `rand() % (HEIGHT - (int)(2h)) + (int)h`. `HEIGHT` is an
  unsigned 32-bit constant, so this formula is modelled in unsigned 32-bit
  arithmetic.
- `keys.dfy` (`Keys`): key codes, actions and the key-table update.
- `gameplay.dfy` (`Gameplay`): the game state, the world (state, spaceship,
  meteors), one frame as a function `Frame`, and the lemmas about it.
- `game.dfy` (`GameLoop`): the `Game` class. Its fields are the state, the
  spaceship, an `array` of meteors and the key `array`. Its methods update
  them in place, and each is proved equal to the matching function of
  `Gameplay` or `Keys`.

Randomness is a parameter: `Step` and `ResetGame` take one `rand()` value per
meteor index (`rs[i]` for meteor `i`). The source draws `rand()` once for
each meteor it recycles or resets, in index order. Because the values are
arbitrary, giving one per index allows exactly the same behaviours. The
widths and heights of the loaded texture images are parameters of the
constructor. As in the source, the sprite sizes are those scaled by 0.1 for
the spaceship and 0.2 for the meteors, with depth 1 (`SpriteSize`).

Facts about main.cpp that shape the model:

- The spawn height is offset by `(int)dimensions.y`, the full height, and
  ranges over `HEIGHT - (int)(2 * dimensions.y)` values (main.cpp:257). As
  proved in `SpawnYInRange`, y lies in
  `[(int)h, HEIGHT - (int)(2h) + (int)h - 1]`.
- For heights whose casts fit in an int, the only undefined case of the
  formula is a modulus that truncates to exactly 0, a division by zero; the
  model requires it away. A "negative" range is not undefined: the unsigned
  subtraction wraps, and the meteor is placed at `rand() + (int)h`, usually
  far off the screen (`SpawnYTallMeteorWraps`).
- `checkCollision` (main.cpp:451-454) reads the corners computed from
  position and size, never the cached ones, so a stale cache has no effect
  (`CollisionIgnoresCache`). The initial meteors do have stale caches: their
  bounds are computed before their y is randomised at main.cpp:178
  (`InitialMeteorCacheStale`).

## Model

| member | source | states |
|---|---|---|
| Sprites.PMin | main.cpp:48 | the lower corner lies half the size below the centre on x and y, and not above it when the size is non-negative |
| Sprites.PMax | main.cpp:49 | the upper corner lies half the size above the centre on x and y, and not below it when the size is non-negative |
| Sprites.UpdateSpriteBounds | main.cpp:457-460 | the refreshed sprite's cache agrees with its computed corners; position and size are unchanged |
| Sprites.UpdateSpriteBoundsExact | main.cpp:457-460 | after a refresh pMin = (x - w/2, y - h/2) and pMax = (x + w/2, y + h/2) exactly |
| Sprites.UpdateSpriteBoundsIdempotent | main.cpp:457-460 | refreshing twice is the same as refreshing once |
| Sprites.BoxCentreAndSize | main.cpp:48-49 | the centre is the midpoint of the two corners and the size is their difference, on x and on y |
| Sprites.BoxDeterminesCentreAndSize | main.cpp:48-49 | two sprites have the same box exactly when they have the same centre and size in x and y |
| Sprites.CollisionSymmetric | main.cpp:451-454 | checkCollision(a, b) == checkCollision(b, a) |
| Sprites.CheckCollision | main.cpp:451-454 | boxes collide exactly when on each axis the centres are at most half the summed sizes apart |
| Sprites.SeparatedNeverCollide | main.cpp:451-454 | boxes whose centres are farther apart than half the summed sizes on some axis never collide |
| Sprites.CollisionSameCentre | main.cpp:451-454 | two sprites with the same centre and non-negative sizes always collide |
| Sprites.CollisionTouchingEdges | main.cpp:451-454 | boundaries are inclusive: boxes with non-negative sizes touching along a vertical edge (overlapping in y) or along a horizontal edge (overlapping in x) collide, in both orders |
| Sprites.CollisionIgnoresCache | main.cpp:451-454 | the collision result does not depend on the cached corners, only on position and size |
| Screen.Trunc | main.cpp:257 | the (int) cast truncates toward zero: the result has the sign of x and is less than 1 away from it, toward 0 |
| Screen.SpawnRange | main.cpp:257 | the unsigned modulus HEIGHT - (int)(2h) lies in [0, 2^32); it equals HEIGHT - (int)(2h) for small heights and wraps by 2^32 for tall ones |
| Screen.SpawnY | main.cpp:257 | the spawned y is a whole number in [0, 2^32) |
| Screen.SpawnYInRange | main.cpp:257 | for 0 <= h with (int)(2h) < HEIGHT the formula is defined and y lies in [(int)h, HEIGHT - (int)(2h) + (int)h - 1], below HEIGHT |
| Screen.SpawnYOnScreen | main.cpp:257 | for 2 <= h with (int)(2h) < HEIGHT the spawned box lies vertically within [0, HEIGHT] |
| Screen.HalfScreenMeteorNotSpawnable | main.cpp:257 | a height whose double truncates to HEIGHT makes the modulus zero (division by zero) |
| Screen.SpawnYTallMeteorWraps | main.cpp:257 | for a height whose double truncates above HEIGHT the formula is defined and y = rand() + (int)h, by unsigned wrap-around |
| Screen.TallMeteorSpawnsOffScreen | main.cpp:257 | a 310-tall meteor with rand() = 1000 spawns at y = 1310, beyond the screen |
| Keys.KeyTableUpdate | main.cpp:392-398 | a press of key 0 <= k < 1024 sets keys[k], a release clears it; other actions and out-of-range keys leave the table; no other entry changes |
| Keys.ReleaseUndoesPress | main.cpp:392-398 | a press followed by a release of the same key gives the same table as the release alone |
| Keys.RepeatKeepsTable | main.cpp:392-398 | an auto-repeat event leaves the table unchanged |
| Gameplay.MoveSpaceship | main.cpp:241-248 | x decreases by vel for LEFT/A and increases by vel for RIGHT/D; y increases for UP/W and decreases for DOWN/S; z unchanged |
| Gameplay.OppositeKeysCancel | main.cpp:241-248 | opposite key pairs held together leave that coordinate unchanged |
| Gameplay.DiagonalMovesBothAxes | main.cpp:241-248 | RIGHT and UP together move vel along both axes (no normalisation) |
| Gameplay.MoveMeteor | main.cpp:252-261 | x becomes x - vel; if that is below -100, x becomes WIDTH and y the spawn formula; size and z unchanged, bounds fresh |
| Gameplay.MoveMeteorStaysInPlay | main.cpp:252-258 | after its update a meteor is never left of -100, and a recycled meteor of moderate height re-enters with y in [(int)h, HEIGHT) |
| Gameplay.RecycleScenario | main.cpp:252-258 | a meteor at x = -150 gets x = WIDTH and a y on the screen in one frame |
| Gameplay.FirstHit | main.cpp:251-270 | the least index from i whose processed meteor collides with the spaceship, or the meteor count if none does |
| Gameplay.MeteorPass | main.cpp:251-270 | the meteor loop keeps the meteor count and every size, and never touches meteors before its start index |
| Gameplay.MeteorPassMatchesFirstHit | main.cpp:251-270 | the loop reports a collision exactly when some meteor hits; meteors up to the first hit are processed, later ones are left as they were |
| Gameplay.ResetMeteor | main.cpp:320-322 | a reset meteor is at (WIDTH, spawn y, old z) with its size kept and bounds fresh |
| Gameplay.ResetMeteors | main.cpp:319-323 | every meteor is at x = WIDTH with the spawn y from its rand() and fresh bounds; count and sizes kept |
| Gameplay.Frame | main.cpp:228-300 | a frame keeps the meteor count, every meteor size and the spaceship size |
| Gameplay.FrameBeforeStart | main.cpp:228-237 | on the start screen the state becomes RUNNING exactly when ENTER is held, otherwise it stays; nothing else changes |
| Gameplay.FrameRunning | main.cpp:238-278 | in the running game the state becomes GAME_OVER exactly when some processed meteor hits the moved spaceship, else stays RUNNING; the spaceship is moved and refreshed; meteors after the first hit are untouched |
| Gameplay.FrameGameOver | main.cpp:291-299 | on the game-over screen the state becomes BEFORE_START exactly when SPACE is held, and then the spaceship is at (100, 300, 0) and the meteors are reset; otherwise nothing changes |
| Gameplay.FrameTransitionLegal | main.cpp:228-300 | every frame either keeps the state or moves BEFORE_START to RUNNING, RUNNING to GAME_OVER or GAME_OVER to BEFORE_START |
| Gameplay.CollisionScenario | main.cpp:251-270 | a spaceship at (100, 300) and a meteor centred on it, with no key held, end the running game in that frame |
| Gameplay.InitialMeteor | main.cpp:172-181 | meteor i starts at (500 + 100 i, spawn y, 0) with the given size, and its cache holds the fresh bounds of the sprite at (500 + 100 i, 300) |
| Gameplay.InitialWorld | main.cpp:166-181 | the game starts on the start screen with the spaceship at (100, 300, 0) with fresh bounds and five meteors of one size |
| Gameplay.InitialMeteorCacheStale | main.cpp:175-178 | an initial meteor whose random y is not 300 has a stale bounds cache |
| GameLoop.Game.constructor | main.cpp:166-181 | the new game's world is the initial world for the image sizes scaled by 0.1 (spaceship) and 0.2 (meteors), depth 1, and no key is held |
| GameLoop.Game.KeyCallback | main.cpp:389-399 | the key array afterwards is the key-table update of the old one; the object invariant is kept |
| GameLoop.Game.ResetGame | main.cpp:316-324 | the spaceship is moved to (100, 300, 0) and nothing else of it changes; the meteor array is the reset of the old one, in place |
| GameLoop.Game.MoveShip | main.cpp:241-248 | the spaceship's position becomes the moved position for the held keys |
| GameLoop.Game.UpdateMeteors | main.cpp:251-270 | the meteor array and the collision flag are the meteor loop's result on the old array, computed in place with a break at the first hit |
| GameLoop.Game.Step | main.cpp:228-300 | the game's state, spaceship and meteor array afterwards are one frame of the old ones; the object invariant is kept |

## Left out

- The graphics and windowing side: window and context creation, shader
  compilation, texture loading, the vertex buffers of `setupSprite`, every
  draw call, the draw order and buffer swapping. These are calls into
  libraries whose only effect is on the screen.
- The outer loop `while (!glfwWindowShouldClose(...))` and event polling.
  `Game.Step` is one iteration of the loop, and `KeyCallback` is one
  delivered key event.
- Closing the window on ESC (main.cpp:390-391): this is a library side
  effect.
- The leftover single `meteor` sprite that is refreshed, collision-tested and
  drawn at main.cpp:279-289. The variable is never initialised, because the
  setup loop declares its own `meteor`, so reading it is undefined behaviour.
  Only the meteor collection is modelled, so in the model only the meteors in
  the collection can end the game.
- The global `collision` flag (main.cpp:110). It is overwritten before
  every read, so it is a local result in `UpdateMeteors`.
- Floating-point rounding. Positions, sizes and `vel = 1.2` are exact reals,
  so for example moving left and then right restores x exactly. The
  float-to-int casts are modelled as truncation for every value, although C
  leaves values outside the int range undefined. The conversion of the
  unsigned spawn value to float is exact below 2^24, which covers every y of
  a meteor with `(int)(2h) < HEIGHT`. The wrapped values of taller meteors
  can exceed 2^24 and are rounded when stored as a float; the model keeps
  them exact.
- `rand()` itself: it is replaced by supplied values in [0, 2^31 - 1], the
  range of the GNU C library.
- Texture identifiers, the angle and the animation fields (`nFrames`,
  `iFrame`, `d`, `FPS`, `lastTime`). Gameplay never reads them.
- game.cpp is not part of this model. It is an unfinished skeleton with no
  gameplay logic.
- GameLoop.Game.Step: requires, through `Valid()`, that every meteor's height gives
  the spawn formula a non-zero modulus. This holds even for meteors that are
  not recycled in that frame. The setup at main.cpp:178 already evaluates the
  formula for every meteor, so every game that got past setup satisfies it.
  The same requirement stands on `Gameplay.Frame`, `Gameplay.MeteorPass`,
  `Gameplay.ResetMeteors` and `GameLoop.Game.UpdateMeteors`.
