/** The click entry point: a square was clicked, play it for whoever's turn it is. */
module Events {
  import opened Values
  import opened Validation
  import opened GameLogic

  /**
   * `clickSquare(boxId)`: validates the id, then moves on behalf of the
   * player whose turn it is. The wrong-turn guard therefore never fires;
   * the click takes effect exactly when the id is valid and names an empty
   * cell, and then the current player's mark lands there.
   */
  function ClickSquare(g: Game, boxId: BoxArg): (r: Game)
    ensures r.winner == g.winner && |r.board| == |g.board|
    ensures !IsValidBoxId(boxId) ==> r == g
    ensures r == g ==> !IsValidBoxId(boxId) || Check(g, Name(g.playerTurn), boxId) == Some(AlreadyTaken)
    ensures r != g <==> IsValidBoxId(boxId) && HoldsNull(g.board, boxId)
    ensures r != g ==> 0 <= Index(boxId) <= 8 && Index(boxId) < |g.board|
                       && r.board[Index(boxId)] == Some(g.playerTurn)
                       && r.playerTurn == Other(g.playerTurn)
  {
    if !IsValidBoxId(boxId) then g
    else TakeTurn(g, Name(g.playerTurn), boxId)
  }

  /** The id check in `clickSquare` repeats the one in `takeTurn`: clicking is moving as the current player. */
  lemma ClickIsCurrentPlayersMove(g: Game, boxId: BoxArg)
    ensures ClickSquare(g, boxId) == TakeTurn(g, Name(g.playerTurn), boxId)
  {
  }
}
