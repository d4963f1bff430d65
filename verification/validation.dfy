/** The two validation predicates of the game. */
module Validation {
  import opened Values

  /**
   * A player argument is valid exactly when it is the name of one of the two
   * players, 'O' or 'X'.
   */
  function IsValidPlayer(s: string): (ok: bool)
    ensures ok <==> exists p: Player :: Name(p) == s
  {
    assert Name(X) == "X" && Name(O) == "O";
    s == "O" || s == "X"
  }

  /**
   * A box id is valid when it is a number between 0 and 8 inclusive.
   * Integrality is not checked: 1.5 is valid, NaN and Infinity are not.
   */
  function IsValidBoxId(b: BoxArg): (ok: bool)
    ensures ok ==> b.Number? && 0.0 <= b.value <= 8.0
    ensures b.Number? && b.value == b.value.Floor as real ==>
              (ok <==> 0 <= b.value.Floor <= 8)
  {
    match b
    case Number(v) => v >= 0.0 && v <= 8.0
    case NonFiniteNumber => false
    case NonNumber => false
  }
}
