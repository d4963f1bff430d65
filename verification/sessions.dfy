/**
 * Sequences of `takeTurn` calls against the one game record: what a whole
 * session of moves can and cannot do to the state.
 */
module Sessions {
  import opened Values
  import opened GameLogic

  /** One call `takeTurn(player, boxId)`. */
  datatype Move = Move(player: string, boxId: BoxArg)

  /** The state after making `moves` in order, starting from `g`. */
  function Play(g: Game, moves: seq<Move>): Game
    decreases |moves|
  {
    if moves == [] then g
    else
      var m := moves[|moves| - 1];
      TakeTurn(Play(g, moves[..|moves| - 1]), m.player, m.boxId)
  }

  /** The players whose moves took effect, in the order they were made. */
  function Movers(g: Game, moves: seq<Move>): seq<Player>
    decreases |moves|
  {
    if moves == [] then []
    else
      var m := moves[|moves| - 1];
      var before := Play(g, moves[..|moves| - 1]);
      Movers(g, moves[..|moves| - 1])
        + (if Check(before, m.player, m.boxId) == None then [before.playerTurn] else [])
  }

  /**
   * No sequence of moves changes the board's size or the winner, and a
   * mark, once placed, stays.
   */
  lemma {:induction false} PlayKeepsMarks(g: Game, moves: seq<Move>)
    ensures |Play(g, moves).board| == |g.board|
    ensures Play(g, moves).winner == g.winner
    ensures forall i | 0 <= i < |g.board| && g.board[i] != None :: Play(g, moves).board[i] == g.board[i]
    decreases |moves|
  {
    if moves != [] {
      PlayKeepsMarks(g, moves[..|moves| - 1]);
    }
  }

  /**
   * Accepted moves alternate between the player to move and the other one;
   * the turn after the session is fixed by how many moves took effect, and
   * each of them filled exactly one empty cell.
   */
  lemma {:induction false} Alternation(g: Game, moves: seq<Move>)
    ensures var ps := Movers(g, moves);
            && (forall i | 0 <= i < |ps| :: ps[i] == if i % 2 == 0 then g.playerTurn else Other(g.playerTurn))
            && Play(g, moves).playerTurn == (if |ps| % 2 == 0 then g.playerTurn else Other(g.playerTurn))
            && Count(Play(g, moves).board, None) + |ps| == Count(g.board, None)
    decreases |moves|
  {
    if moves != [] {
      var init := moves[..|moves| - 1];
      var m := moves[|moves| - 1];
      var before := Play(g, init);
      var after := Play(g, moves);
      var qs, ps := Movers(g, init), Movers(g, moves);
      Alternation(g, init);
      assert after == TakeTurn(before, m.player, m.boxId);
      if Check(before, m.player, m.boxId) == None {
        assert ps == qs + [before.playerTurn];
        assert after.playerTurn == Other(before.playerTurn);
        AlternatingExtends(g.playerTurn, qs);
      } else {
        assert ps == qs;
        assert after == before;
      }
    }
  }

  /**
   * An alternating run of movers stays alternating when the player whose
   * turn it is moves next, and the turn then passes on by parity.
   */
  lemma AlternatingExtends(first: Player, qs: seq<Player>)
    requires forall i | 0 <= i < |qs| :: qs[i] == if i % 2 == 0 then first else Other(first)
    ensures var next := if |qs| % 2 == 0 then first else Other(first);
            && (forall i | 0 <= i < |qs| + 1 :: (qs + [next])[i] == if i % 2 == 0 then first else Other(first))
            && Other(next) == if (|qs| + 1) % 2 == 0 then first else Other(first)
  {
    var n := |qs|;
    var next := if n % 2 == 0 then first else Other(first);
    assert (n + 1) % 2 == (if n % 2 == 0 then 1 else 0);
    assert Other(Other(first)) == first;
    forall i | 0 <= i < n + 1
      ensures (qs + [next])[i] == if i % 2 == 0 then first else Other(first)
    {
      if i < n {
        assert (qs + [next])[i] == qs[i];
      }
    }
  }

  /** From the start of the game, X makes every odd-numbered accepted move and O every even one. */
  lemma {:induction false} AlternationFromStart(moves: seq<Move>)
    ensures var ps := Movers(Initial, moves);
            && |ps| <= 9
            && (forall i | 0 <= i < |ps| :: ps[i] == if i % 2 == 0 then X else O)
            && Play(Initial, moves).playerTurn == (if |ps| % 2 == 0 then X else O)
  {
    InitialGame();
    Alternation(Initial, moves);
  }

  /**
   * What every state reached from the start satisfies: nine cells, no
   * winner, and X has one mark more than O exactly when it is O's turn.
   */
  predicate Consistent(g: Game)
  {
    && |g.board| == 9
    && g.winner == None
    && Count(g.board, Some(X)) == Count(g.board, Some(O)) + (if g.playerTurn == O then 1 else 0)
  }

  /** One move, accepted or not, keeps a consistent state consistent. */
  lemma TakeTurnKeepsConsistent(g: Game, player: string, boxId: BoxArg)
    requires Consistent(g)
    ensures Consistent(TakeTurn(g, player, boxId))
  {
  }

  /** Every state reachable from the start is consistent. */
  lemma {:induction false} ReachableIsConsistent(moves: seq<Move>)
    ensures Consistent(Play(Initial, moves))
    decreases |moves|
  {
    if moves == [] {
      InitialGame();
    } else {
      var m := moves[|moves| - 1];
      ReachableIsConsistent(moves[..|moves| - 1]);
      TakeTurnKeepsConsistent(Play(Initial, moves[..|moves| - 1]), m.player, m.boxId);
    }
  }
}
