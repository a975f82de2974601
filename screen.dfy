/** Screen: the window size and the formula that picks a random vertical
    position for a meteor entering from the right.

    The height is an unsigned 32-bit constant, so the formula
      rand() % (HEIGHT - (int)(2 * h)) + (int)h
    is evaluated in unsigned 32-bit arithmetic: the modulus and the sum wrap
    modulo 2^32, and a modulus of 0 is a division by zero. The (int) casts
    truncate toward zero. */
module Screen {

  const WIDTH: int := 800
  const HEIGHT: int := 600
  const U32: int := 0x1_0000_0000

  /** The largest value rand() returns (that of the GNU C library). */
  const RAND_MAX: int := 0x7fff_ffff

  /** A value returned by one call of rand(). */
  type Rand = r: int | 0 <= r <= RAND_MAX

  /** The C conversion of a floating value to int: truncation toward zero. */
  function Trunc(x: real): (n: int)
    ensures 0.0 <= x ==> 0 <= n && n as real <= x < n as real + 1.0
    ensures x < 0.0 ==> n <= 0 && n as real - 1.0 < x <= n as real
  {
    if x >= 0.0 then x.Floor else -((-x).Floor)
  }

  /** The unsigned modulus HEIGHT - (int)(2 * h) of the spawn formula. */
  function SpawnRange(h: real): (m: int)
    ensures 0 <= m < U32
    ensures 0.0 <= h && Trunc(h * 2.0) <= HEIGHT ==> m == HEIGHT - Trunc(h * 2.0)
    ensures HEIGHT < Trunc(h * 2.0) <= U32 ==> m == HEIGHT - Trunc(h * 2.0) + U32
  {
    var d := HEIGHT - Trunc(h * 2.0);
    if 0 <= d < U32 then
      ModIdentity(d, U32); d % U32
    else if -U32 <= d < 0 then
      ModShiftDown(d); d % U32
    else
      d % U32
  }

  lemma ModIdentity(a: int, n: int)
    requires 0 <= a < n
    ensures a % n == a
  {
  }

  /** Unsigned wrap-around of a negative difference. */
  lemma ModShiftDown(a: int)
    requires -U32 <= a < 0
    ensures a % U32 == a + U32
  {
  }

  /** The spawn formula is defined (no division by zero) for height h. */
  predicate Spawnable(h: real) {
    SpawnRange(h) != 0
  }

  /** The y a meteor of height h gets from the rand() value r, converted from
      unsigned to floating point. */
  function SpawnY(r: Rand, h: real): (y: real)
    requires Spawnable(h)
    ensures y == y.Floor as real && 0.0 <= y < U32 as real
  {
    ((r % SpawnRange(h) + Trunc(h)) % U32) as real
  }

  /** Twice the truncation of h is at most the truncation of twice h. */
  lemma TruncDouble(h: real)
    requires 0.0 <= h
    ensures 2 * Trunc(h) <= Trunc(h * 2.0)
  {
  }

  /** For a meteor shorter than half the screen the formula is defined and y is
      an integer in [(int)h, HEIGHT - (int)(2h) + (int)h - 1], inside the
      screen. */
  lemma SpawnYInRange(r: Rand, h: real)
    requires 0.0 <= h && Trunc(h * 2.0) < HEIGHT
    ensures Spawnable(h)
    ensures Trunc(h) as real <= SpawnY(r, h)
    ensures SpawnY(r, h) <= (HEIGHT - Trunc(h * 2.0) + Trunc(h) - 1) as real
    ensures SpawnY(r, h) < HEIGHT as real
  {
  }

  /** For a meteor at least 2 units tall and shorter than half the screen the
      whole box lies on the screen vertically. */
  lemma SpawnYOnScreen(r: Rand, h: real)
    requires 2.0 <= h && Trunc(h * 2.0) < HEIGHT
    ensures Spawnable(h)
    ensures 0.0 <= SpawnY(r, h) - h / 2.0
    ensures SpawnY(r, h) + h / 2.0 <= HEIGHT as real
  {
  }

  /** A meteor whose doubled height truncates to exactly HEIGHT (a height in
      [300, 300.5)) makes the modulus zero: the formula divides by zero. */
  lemma HalfScreenMeteorNotSpawnable(h: real)
    requires HEIGHT as real <= h * 2.0 < (HEIGHT + 1) as real
    ensures !Spawnable(h)
  {
  }

  /** For a meteor whose doubled height truncates above HEIGHT the unsigned
      subtraction wraps, the modulus exceeds every rand() value, and y is
      rand() + (int)h. */
  lemma SpawnYTallMeteorWraps(r: Rand, h: real)
    requires (HEIGHT + 1) as real <= h * 2.0 < 0x8000_0000 as real
    ensures Spawnable(h)
    ensures SpawnY(r, h) == (r + Trunc(h)) as real
  {
    var t2 := Trunc(h * 2.0);
    assert HEIGHT < t2 < 0x8000_0000;
    var m := SpawnRange(h);
    assert m == HEIGHT - t2 + U32;
    ModIdentity(r, m);
    TruncDouble(h);
    ModIdentity(r + Trunc(h), U32);
  }

  /** Consequence: a 310-unit meteor can spawn off the screen: with
      rand() = 1000 its centre is at y = 1310, beyond HEIGHT. */
  lemma TallMeteorSpawnsOffScreen()
    ensures Spawnable(310.0) && SpawnY(1000, 310.0) == 1310.0
    ensures SpawnY(1000, 310.0) > HEIGHT as real
  {
  }
}
