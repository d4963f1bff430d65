/**
 * The game state and the move function: a record of whose turn it is, the
 * nine cells and the winner, and `takeTurn`, which runs three guards in
 * order and, if all pass, writes one mark and hands the turn over.
 */
module GameLogic {
  import opened Values
  import opened Validation

  /** A cell is `null` (None) or holds a player's mark. */
  type Cell = Option<Player>

  /**
   * The single game record. `winner` is part of the record but no operation
   * ever assigns it: win detection is not implemented.
   */
  datatype Game = Game(playerTurn: Player, board: seq<Cell>, winner: Option<Player>)

  /** The state the game starts in: X to move, nine empty cells, no winner. */
  const Initial: Game := Game(X, [None, None, None, None, None, None, None, None, None], None)

  /** The number of cells of `board` equal to `c`. */
  function Count(board: seq<Cell>, c: Cell): (n: nat)
    ensures n <= |board|
  {
    if board == [] then 0
    else (if board[0] == c then 1 else 0) + Count(board[1..], c)
  }

  /** Overwriting one cell moves it from the count of its old value to that of its new one. */
  lemma {:induction false} CountUpdate(board: seq<Cell>, k: int, v: Cell, c: Cell)
    requires 0 <= k < |board|
    ensures Count(board[k := v], c)
            == Count(board, c) - (if board[k] == c then 1 else 0) + (if v == c then 1 else 0)
  {
    if k == 0 {
      assert board[k := v][1..] == board[1..];
    } else {
      assert board[k := v][1..] == board[1..][k - 1 := v];
      CountUpdate(board[1..], k - 1, v, c);
    }
  }

  /** The starting board is nine empty cells and holds no mark. */
  lemma InitialGame()
    ensures Initial.playerTurn == X && Initial.winner == None
    ensures |Initial.board| == 9 && forall i | 0 <= i < 9 :: Initial.board[i] == None
    ensures Count(Initial.board, None) == 9
    ensures Count(Initial.board, Some(X)) == 0 && Count(Initial.board, Some(O)) == 0
  {
  }

  /** The board index a box id denotes, or -1 when it denotes none. */
  function Index(b: BoxArg): int
  {
    if b.Number? then b.value.Floor else -1
  }

  /**
   * `board[boxId] === null`. Only an integral number naming a cell of the
   * board reaches a cell; any other key reads `undefined`, which is not
   * `null`, so such an id counts as occupied.
   */
  predicate HoldsNull(board: seq<Cell>, b: BoxArg)
  {
    && b.Number?
    && b.value == Index(b) as real
    && 0 <= Index(b) < |board|
    && board[Index(b)] == None
  }

  /** Why a move was refused; each matches one error the game logs. */
  datatype Rejection =
    | WrongTurn(turn: Player)   // it is the other player's turn
    | InvalidBoxId               // the id failed `IsValidBoxId`
    | AlreadyTaken               // the cell does not hold `null`

  /**
   * The guards of `takeTurn`, in the order it runs them; the first that
   * fails decides the rejection, and None means the move is accepted.
   */
  function Check(g: Game, player: string, boxId: BoxArg): (e: Option<Rejection>)
    ensures e == Some(WrongTurn(g.playerTurn)) <==> player != Name(g.playerTurn)
    ensures e.Some? && e.value.WrongTurn? ==> player != Name(g.playerTurn) && e.value.turn == g.playerTurn
    ensures player == Name(g.playerTurn) && !IsValidBoxId(boxId) ==> e == Some(InvalidBoxId)
    ensures (player == Name(g.playerTurn) && IsValidBoxId(boxId) && !HoldsNull(g.board, boxId))
              ==> e == Some(AlreadyTaken)
    ensures e == Some(InvalidBoxId) ==> !IsValidBoxId(boxId)
    ensures e == Some(AlreadyTaken) ==> IsValidBoxId(boxId) && !HoldsNull(g.board, boxId)
    ensures e == None <==>
              player == Name(g.playerTurn) && IsValidBoxId(boxId) && HoldsNull(g.board, boxId)
    ensures e == None ==> IsValidPlayer(player) && 0 <= Index(boxId) <= 8
  {
    if Name(g.playerTurn) != player then Some(WrongTurn(g.playerTurn))
    else if !IsValidBoxId(boxId) then Some(InvalidBoxId)
    else if !HoldsNull(g.board, boxId) then Some(AlreadyTaken)
    else None
  }

  /**
   * `takeTurn(player, boxId)`: a refused move leaves the whole state as it
   * was; an accepted one writes the mover's mark into the one empty cell
   * named, flips the turn, and touches nothing else. Marks already placed
   * are never overwritten and `winner` never changes.
   */
  function TakeTurn(g: Game, player: string, boxId: BoxArg): (r: Game)
    ensures r.winner == g.winner
    ensures |r.board| == |g.board|
    ensures Check(g, player, boxId).Some? ==> r == g
    ensures forall i | 0 <= i < |g.board| && g.board[i] != None :: r.board[i] == g.board[i]
    ensures Check(g, player, boxId) == None ==>
              && r != g
              && r.board[Index(boxId)] == Some(g.playerTurn)
              && (forall i | 0 <= i < |g.board| && i != Index(boxId) :: r.board[i] == g.board[i])
              && r.playerTurn == Other(g.playerTurn)
              && Count(r.board, None) + 1 == Count(g.board, None)
              && Count(r.board, Some(g.playerTurn)) == Count(g.board, Some(g.playerTurn)) + 1
              && Count(r.board, Some(Other(g.playerTurn))) == Count(g.board, Some(Other(g.playerTurn)))
  {
    match Check(g, player, boxId)
    case Some(_) => g
    case None =>
      var k := Index(boxId);
      var mark := Some(g.playerTurn);
      CountUpdate(g.board, k, mark, None);
      CountUpdate(g.board, k, mark, mark);
      CountUpdate(g.board, k, mark, Some(Other(g.playerTurn)));
      g.(board := g.board[k := mark], playerTurn := if player == "X" then O else X)
  }

  /** A move changes the state exactly when every guard passes. */
  lemma MoveTakesEffectIffAccepted(g: Game, player: string, boxId: BoxArg)
    ensures TakeTurn(g, player, boxId) != g <==> Check(g, player, boxId) == None
  {
  }

  /** The wrong player is turned away whatever box id they name. */
  lemma WrongTurnFirst(g: Game, player: string, boxId: BoxArg)
    requires player != Name(g.playerTurn)
    ensures Check(g, player, boxId) == Some(WrongTurn(g.playerTurn))
    ensures TakeTurn(g, player, boxId) == g
  {
  }

  /**
   * A fractional id inside 0..8 passes validation but reads `undefined`
   * from the board, so the move is refused as if the cell were taken.
   */
  lemma FractionalIdRefusedAsTaken(g: Game, v: real)
    requires 0.0 <= v <= 8.0 && v != v.Floor as real
    ensures IsValidBoxId(Number(v))
    ensures Check(g, Name(g.playerTurn), Number(v)) == Some(AlreadyTaken)
    ensures TakeTurn(g, Name(g.playerTurn), Number(v)) == g
  {
  }

  /** Opening: X takes the centre, then O takes the top-left corner. */
  lemma OpeningExample()
    ensures var g := TakeTurn(TakeTurn(Initial, "X", Number(4.0)), "O", Number(0.0));
            g.playerTurn == X && g.winner == None
            && g.board[4] == Some(X) && g.board[0] == Some(O)
            && Count(g.board, None) == 7
  {
    InitialGame();
  }

  /** O cannot open the game, and 9 is not a box. */
  lemma RefusedOpenings()
    ensures Check(Initial, "O", Number(4.0)) == Some(WrongTurn(X))
    ensures TakeTurn(Initial, "O", Number(4.0)) == Initial
    ensures Check(Initial, "X", Number(9.0)) == Some(InvalidBoxId)
    ensures TakeTurn(Initial, "X", Number(9.0)) == Initial
  {
  }
}
