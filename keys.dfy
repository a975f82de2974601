/** Keys: the key codes and actions of the windowing library that the game
    reads, and the update of the 1024-entry table of pressed keys. */
module Keys {

  /** Number of entries of the key table; larger key codes are ignored. */
  const KEY_COUNT: int := 1024

  const KEY_SPACE: int := 32
  const KEY_A: int := 65
  const KEY_D: int := 68
  const KEY_S: int := 83
  const KEY_W: int := 87
  const KEY_ENTER: int := 257
  const KEY_RIGHT: int := 262
  const KEY_LEFT: int := 263
  const KEY_DOWN: int := 264
  const KEY_UP: int := 265

  const RELEASE: int := 0
  const PRESS: int := 1
  const REPEAT: int := 2

  /** One key event applied to the table: a press of a tracked key marks it
      down, a release marks it up; any other action, and any key outside
      [0, KEY_COUNT), leaves the table as it was. */
  function KeyTableUpdate(t: seq<bool>, key: int, action: int): (t': seq<bool>)
    requires |t| == KEY_COUNT
    ensures |t'| == KEY_COUNT
    ensures forall k :: 0 <= k < KEY_COUNT && k != key ==> t'[k] == t[k]
    ensures 0 <= key < KEY_COUNT && action == PRESS ==> t'[key]
    ensures 0 <= key < KEY_COUNT && action == RELEASE ==> !t'[key]
    ensures !(0 <= key < KEY_COUNT) || (action != PRESS && action != RELEASE) ==> t' == t
  {
    if 0 <= key < KEY_COUNT then
      if action == PRESS then t[key := true]
      else if action == RELEASE then t[key := false]
      else t
    else t
  }

  /** A release undoes a press: pressing and then releasing a key leaves the
      table as a single release would. */
  lemma ReleaseUndoesPress(t: seq<bool>, key: int)
    requires |t| == KEY_COUNT
    ensures KeyTableUpdate(KeyTableUpdate(t, key, PRESS), key, RELEASE) ==
            KeyTableUpdate(t, key, RELEASE)
  {
  }

  /** Auto-repeat events do not touch the table, so holding a key keeps it
      marked down. */
  lemma RepeatKeepsTable(t: seq<bool>, key: int)
    requires |t| == KEY_COUNT
    ensures KeyTableUpdate(t, key, REPEAT) == t
  {
  }
}
