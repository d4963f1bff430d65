/**
 * The JavaScript values the game works with: `null`-able cells, the two
 * player names, and the arguments a caller may pass as a box id.
 */
module Values {

  /** `null` (None) or a present value (Some). */
  datatype Option<+T> = None | Some(value: T)

  /** The two marks. In the game state they are the strings 'X' and 'O'. */
  datatype Player = X | O

  /** The string the game stores for a player. */
  function Name(p: Player): (s: string)
    ensures |s| == 1
  {
    match p
    case X => "X"
    case O => "O"
  }

  /** The player who moves after `p`. */
  function Other(p: Player): (q: Player)
    ensures q != p
  {
    match p
    case X => O
    case O => X
  }

  /**
   * A value passed as a box id. Every JavaScript value falls in one class:
   * a finite number (represented exactly by a real), a non-finite number
   * (NaN, Infinity, -Infinity: `typeof` still says 'number'), or a value of
   * any other type (string, undefined, null, object, ...).
   */
  datatype BoxArg = Number(value: real) | NonFiniteNumber | NonNumber
}
