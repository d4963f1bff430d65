/**
 * The HTML string builders: the page shows whose turn it is and the nine
 * squares in three rows, each square carrying its box id and its contents.
 */
module Html {
  import opened Values
  import opened GameLogic
  import Decimal

  /** `buildPlayerTurn(playerTurn)`. */
  function BuildPlayerTurn(p: Player): (s: string)
    ensures |s| == 26 && s[19] == Name(p)[0]
  {
    "<div>Current turn: " + Name(p) + "</div>"
  }

  /** The text a square shows: `null` shows as the empty string. */
  function Text(contents: Option<string>): string
  {
    match contents
    case None => ""
    case Some(s) => s
  }

  const SquareOpen: string := "<div class=\"square\" id=\"box"

  /** `buildSquare(boxId, contents)`: the element id is "box" followed by the id in decimal. */
  function BuildSquare(boxId: nat, contents: Option<string>): string
  {
    SquareOpen + Decimal.Show(boxId) + "\">" + Text(contents) + "</div>"
  }

  /** One `{id, contents}` entry handed to `buildRow`. */
  datatype Square = Square(id: nat, contents: Option<string>)

  /** `buildRow(squares)`: the first three squares, wrapped in a row. */
  function BuildRow(squares: seq<Square>): string
    requires |squares| >= 3
  {
    "<div class=\"row\">"
      + BuildSquare(squares[0].id, squares[0].contents)
      + BuildSquare(squares[1].id, squares[1].contents)
      + BuildSquare(squares[2].id, squares[2].contents)
      + "</div>"
  }

  /** The stored value of a cell: `null` or the player's name. */
  function CellValue(c: Cell): Option<string>
  {
    match c
    case None => None
    case Some(p) => Some(Name(p))
  }

  /** `buildBoard(board)`: rows of box ids 0-2, 3-5 and 6-8. */
  function BuildBoard(board: seq<Cell>): string
    requires |board| == 9
  {
    var row1 := [Square(0, CellValue(board[0])), Square(1, CellValue(board[1])), Square(2, CellValue(board[2]))];
    var row2 := [Square(3, CellValue(board[3])), Square(4, CellValue(board[4])), Square(5, CellValue(board[5]))];
    var row3 := [Square(6, CellValue(board[6])), Square(7, CellValue(board[7])), Square(8, CellValue(board[8]))];
    "<div class=\"board\">"
      + BuildRow(row1)
      + BuildRow(row2)
      + BuildRow(row3)
      + "</div>"
  }

  /** `buildGame(game)`: title, current turn, board. */
  function BuildGame(g: Game): string
    requires |g.board| == 9
  {
    "<h1>Tic Tac Toe</h1>" + BuildPlayerTurn(g.playerTurn) + BuildBoard(g.board)
  }

  // ---------------------------------------------------------------------------
  // What the markup promises
  // ---------------------------------------------------------------------------

  /** A `null` square renders exactly like a square holding the empty string. */
  lemma BuildSquareNullIsEmpty(boxId: nat)
    ensures BuildSquare(boxId, None) == BuildSquare(boxId, Some(""))
  {
  }

  /**
   * Two squares render the same exactly when they have the same box id and
   * show the same text: every square's element id names its box.
   */
  lemma BuildSquareInjective(i: nat, j: nat, c: Option<string>, d: Option<string>)
    ensures BuildSquare(i, c) == BuildSquare(j, d) <==> i == j && Text(c) == Text(d)
  {
    if BuildSquare(i, c) == BuildSquare(j, d) {
      var ri := "\">" + (Text(c) + "</div>");
      var rj := "\">" + (Text(d) + "</div>");
      Assoc5(SquareOpen, Decimal.Show(i), "\">", Text(c), "</div>");
      Assoc5(SquareOpen, Decimal.Show(j), "\">", Text(d), "</div>");
      StripPrefix(SquareOpen, Decimal.Show(i) + ri, Decimal.Show(j) + rj);
      Decimal.SplitAtNonDigit(Decimal.Show(i), ri, Decimal.Show(j), rj);
      Decimal.ShowInjective(i, j);
      StripPrefix("\">", Text(c) + "</div>", Text(d) + "</div>");
      StripSuffix(Text(c), Text(d), "</div>");
    }
  }

  const RowOpen: string := "<div class=\"row\">"

  /** The nine squares of `board` as `buildBoard` renders them, in index order. */
  function Squares(board: seq<Cell>): seq<string>
    requires |board| == 9
  {
    seq(9, i requires 0 <= i < 9 => BuildSquare(i, CellValue(board[i])))
  }

  /**
   * An independent statement of the board layout, over any nine rendered
   * squares: squares `i`..8 in index order, a row opened before every index
   * divisible by three and closed after every third square.
   */
  function RowMajor(sq: seq<string>, i: nat): string
    requires |sq| == 9 && i <= 9
    decreases 9 - i
  {
    if i == 9 then ""
    else if i % 3 == 0 then RowOpen + (sq[i] + RowMajor(sq, i + 1))
    else if i % 3 == 1 then sq[i] + RowMajor(sq, i + 1)
    else sq[i] + ("</div>" + RowMajor(sq, i + 1))
  }

  /** One row of three rendered squares, as `buildRow` wraps them. */
  function Row(a: string, b: string, c: string): string
  {
    RowOpen + a + b + c + "</div>"
  }

  /** The entries `buildBoard` hands to `buildRow` for the row starting at cell `i`. */
  function RowEntries(board: seq<Cell>, i: nat): seq<Square>
    requires |board| == 9 && i + 2 < 9
  {
    [Square(i, CellValue(board[i])),
     Square(i + 1, CellValue(board[i + 1])),
     Square(i + 2, CellValue(board[i + 2]))]
  }

  /** `buildRow` on the entries of a row wraps that row's three squares. */
  lemma BuildRowOfEntries(board: seq<Cell>, i: nat)
    requires |board| == 9 && i + 2 < 9
    ensures BuildRow(RowEntries(board, i)) == Row(Squares(board)[i], Squares(board)[i + 1], Squares(board)[i + 2])
  {
  }

  /** The row starting at square `i`, followed by the rows below it, is the row-major markup from `i` on. */
  lemma RowThenRest(sq: seq<string>, i: nat)
    requires |sq| == 9 && i % 3 == 0 && i < 9
    ensures RowMajor(sq, i) == Row(sq[i], sq[i + 1], sq[i + 2]) + RowMajor(sq, i + 3)
  {
    var rest := RowMajor(sq, i + 3);
    assert (i + 1) % 3 == 1 && (i + 2) % 3 == 2;
    assert RowMajor(sq, i + 2) == sq[i + 2] + ("</div>" + rest);
    assert RowMajor(sq, i + 1) == sq[i + 1] + RowMajor(sq, i + 2);
    assert RowMajor(sq, i) == RowOpen + (sq[i] + RowMajor(sq, i + 1));
    Regroup6(RowOpen, sq[i], sq[i + 1], sq[i + 2], "</div>", rest);
  }

  /** The rows from the one starting at square `i` down, each wrapped as `buildRow` wraps it. */
  function Rows(sq: seq<string>, i: nat): string
    requires |sq| == 9 && i % 3 == 0 && i <= 9
    decreases 9 - i
  {
    if i == 9 then "" else Row(sq[i], sq[i + 1], sq[i + 2]) + Rows(sq, i + 3)
  }

  /** Row by row and square by square, the markup from row start `i` on is the same. */
  lemma {:induction false} RowMajorIsRows(sq: seq<string>, i: nat)
    requires |sq| == 9 && i % 3 == 0 && i <= 9
    ensures RowMajor(sq, i) == Rows(sq, i)
    decreases 9 - i
  {
    if i < 9 {
      RowThenRest(sq, i);
      RowMajorIsRows(sq, i + 3);
    }
  }

  /** The three rows `buildBoard` builds. */
  lemma BoardRows(board: seq<Cell>)
    requires |board| == 9
    ensures BuildBoard(board) == "<div class=\"board\">" + BuildRow(RowEntries(board, 0))
              + BuildRow(RowEntries(board, 3)) + BuildRow(RowEntries(board, 6)) + "</div>"
  {
  }

  /** `buildBoard` wraps the rows of the board's squares. */
  lemma BoardAsRows(board: seq<Cell>)
    requires |board| == 9
    ensures BuildBoard(board) == "<div class=\"board\">" + Rows(Squares(board), 0) + "</div>"
  {
    var sq := Squares(board);
    BoardRows(board);
    BuildRowOfEntries(board, 0);
    BuildRowOfEntries(board, 3);
    BuildRowOfEntries(board, 6);
    assert Rows(sq, 6) == Row(sq[6], sq[7], sq[8]) + "";
    assert Rows(sq, 3) == Row(sq[3], sq[4], sq[5]) + Rows(sq, 6);
    assert Rows(sq, 0) == Row(sq[0], sq[1], sq[2]) + Rows(sq, 3);
    RegroupBoard(BuildBoard(board), "<div class=\"board\">", Row(sq[0], sq[1], sq[2]),
                 Row(sq[3], sq[4], sq[5]), Row(sq[6], sq[7], sq[8]), "</div>", Rows(sq, 0), Rows(sq, 3), Rows(sq, 6));
  }

  /** `buildBoard` lays the cells out in row-major order, three to a row. */
  lemma BuildBoardRowMajor(board: seq<Cell>)
    requires |board| == 9
    ensures BuildBoard(board) == "<div class=\"board\">" + RowMajor(Squares(board), 0) + "</div>"
  {
    BoardAsRows(board);
    RowMajorIsRows(Squares(board), 0);
  }

  /** The text shown for a cell can be told apart from the markup that follows it. */
  lemma ShownCellDelimited(c1: Cell, c2: Cell, t1: string, t2: string)
    requires |t1| > 0 && t1[0] == '<' && |t2| > 0 && t2[0] == '<'
    requires Text(CellValue(c1)) + t1 == Text(CellValue(c2)) + t2
    ensures c1 == c2 && t1 == t2
  {
    var u1 := Text(CellValue(c1)) + t1;
    var u2 := Text(CellValue(c2)) + t2;
    assert u1[0] == (match c1 case None => '<' case Some(X) => 'X' case Some(O) => 'O');
    assert u2[0] == (match c2 case None => '<' case Some(X) => 'X' case Some(O) => 'O');
    StripPrefix(Text(CellValue(c1)), t1, t2);
  }

  /** The markup that opens square `i`, up to its text. */
  function SquareHead(i: nat): string
  {
    SquareOpen + Decimal.Show(i) + "\">"
  }

  /** A square is its head, its text and a closing tag. */
  lemma SquareSplit(i: nat, c: Option<string>)
    ensures BuildSquare(i, c) == SquareHead(i) + (Text(c) + "</div>")
  {
    Assoc3(SquareHead(i), Text(c), "</div>");
  }

  /** The markup the row-major layout puts before square `i`, and after its closing tag. */
  function Pre(i: nat): string
  {
    if i % 3 == 0 then RowOpen else ""
  }

  function After(i: nat): string
  {
    if i % 3 == 2 then "</div>" + "</div>" else "</div>"
  }

  /** Square `i` of the row-major markup, split around its text. */
  lemma Framed(sq: seq<string>, i: nat, h: string, t: string)
    requires |sq| == 9 && i < 9 && sq[i] == h + (t + "</div>")
    ensures RowMajor(sq, i) == (Pre(i) + h) + (t + (After(i) + RowMajor(sq, i + 1)))
  {
    var rest := RowMajor(sq, i + 1);
    var x := t + (After(i) + rest);
    if i % 3 == 0 {
      assert RowMajor(sq, i) == RowOpen + (sq[i] + rest);
      assert After(i) == "</div>";
      Regroup(h, t, "</div>", rest);
      Assoc3(RowOpen, h, x);
      assert Pre(i) == RowOpen;
    } else if i % 3 == 1 {
      assert RowMajor(sq, i) == sq[i] + rest;
      assert After(i) == "</div>";
      Regroup(h, t, "</div>", rest);
      assert Pre(i) + h == h;
    } else {
      assert RowMajor(sq, i) == sq[i] + ("</div>" + rest);
      assert After(i) == "</div>" + "</div>";
      Assoc3("</div>", "</div>", rest);
      Regroup(h, t, "</div>", "</div>" + rest);
      assert Pre(i) + h == h;
    }
  }

  /** The row-major markup from square `i` is square `i`'s text framed by fixed markup, then the rest. */
  lemma RowMajorAt(board: seq<Cell>, i: nat)
    requires |board| == 9 && i < 9
    ensures RowMajor(Squares(board), i)
            == (Pre(i) + SquareHead(i)) + (Text(CellValue(board[i])) + (After(i) + RowMajor(Squares(board), i + 1)))
  {
    SquareSplit(i, CellValue(board[i]));
    Framed(Squares(board), i, SquareHead(i), Text(CellValue(board[i])));
  }

  /** Equal markup of squares `i`..8 means equal cells `i`..8. */
  lemma {:induction false} RowMajorInjective(b1: seq<Cell>, b2: seq<Cell>, i: nat)
    requires |b1| == 9 && |b2| == 9 && i <= 9
    requires RowMajor(Squares(b1), i) == RowMajor(Squares(b2), i)
    ensures b1[i..] == b2[i..]
    decreases 9 - i
  {
    if i < 9 {
      var rest1, rest2 := RowMajor(Squares(b1), i + 1), RowMajor(Squares(b2), i + 1);
      RowMajorAt(b1, i);
      RowMajorAt(b2, i);
      StripPrefix(Pre(i) + SquareHead(i), Text(CellValue(b1[i])) + (After(i) + rest1),
                             Text(CellValue(b2[i])) + (After(i) + rest2));
      ShownCellDelimited(b1[i], b2[i], After(i) + rest1, After(i) + rest2);
      StripPrefix(After(i), rest1, rest2);
      RowMajorInjective(b1, b2, i + 1);
      assert b1[i..] == [b1[i]] + b1[i + 1..];
      assert b2[i..] == [b2[i]] + b2[i + 1..];
    }
  }

  /** The rendered board shows every cell: two boards render alike only if they are equal. */
  lemma BuildBoardInjective(b1: seq<Cell>, b2: seq<Cell>)
    requires |b1| == 9 && |b2| == 9
    ensures BuildBoard(b1) == BuildBoard(b2) <==> b1 == b2
  {
    if BuildBoard(b1) == BuildBoard(b2) {
      BuildBoardRowMajor(b1);
      BuildBoardRowMajor(b2);
      BoardMarkupDetermines(b1, b2, BuildBoard(b1));
    }
  }

  /** Markup of the `buildBoard` shape determines the cells it was built from. */
  lemma BoardMarkupDetermines(b1: seq<Cell>, b2: seq<Cell>, x: string)
    requires |b1| == 9 && |b2| == 9
    requires x == "<div class=\"board\">" + RowMajor(Squares(b1), 0) + "</div>"
    requires x == "<div class=\"board\">" + RowMajor(Squares(b2), 0) + "</div>"
    ensures b1 == b2
  {
    Unwrap(x, x, "<div class=\"board\">", RowMajor(Squares(b1), 0), RowMajor(Squares(b2), 0), "</div>");
    RowMajorInjective(b1, b2, 0);
    assert b1 == b1[0..] && b2 == b2[0..];
  }

  /** The turn line names the player to move. */
  lemma BuildPlayerTurnInjective(p: Player, q: Player)
    ensures BuildPlayerTurn(p) == BuildPlayerTurn(q) <==> p == q
  {
    if BuildPlayerTurn(p) == BuildPlayerTurn(q) {
      assert Name(p)[0] == Name(q)[0];
    }
  }

  /**
   * The page shows the whole state except `winner`: two games render to
   * the same page exactly when they agree on the turn and on every cell.
   */
  lemma BuildGameShowsState(g: Game, h: Game)
    requires |g.board| == 9 && |h.board| == 9
    ensures BuildGame(g) == BuildGame(h) <==> g.playerTurn == h.playerTurn && g.board == h.board
  {
    if BuildGame(g) == BuildGame(h) {
      Unconcat(BuildGame(g), BuildGame(h), "<h1>Tic Tac Toe</h1>",
               BuildPlayerTurn(g.playerTurn), BuildPlayerTurn(h.playerTurn), BuildBoard(g.board), BuildBoard(h.board));
      BuildPlayerTurnInjective(g.playerTurn, h.playerTurn);
      BuildBoardInjective(g.board, h.board);
    }
  }

  // ---------------------------------------------------------------------------
  // Facts about concatenation used above
  // ---------------------------------------------------------------------------

  lemma Assoc3(x: string, y: string, z: string)
    ensures (x + y) + z == x + (y + z)
  {
  }

  lemma Assoc5(a: string, b: string, c: string, d: string, e: string)
    ensures a + b + c + d + e == a + (b + (c + (d + e)))
  {
  }

  lemma Regroup(x: string, y: string, z: string, r: string)
    ensures (x + (y + z)) + r == x + (y + (z + r))
  {
  }

  lemma Regroup6(a: string, b: string, c: string, d: string, e: string, r: string)
    ensures a + b + c + d + e + r == a + (b + (c + (d + (e + r))))
  {
  }

  lemma RegroupBoard(x: string, open: string, r0: string, r1: string, r2: string, close: string,
                      m: string, m3: string, m6: string)
    requires x == open + r0 + r1 + r2 + close
    requires m == r0 + m3 && m3 == r1 + m6 && m6 == r2 + ""
    ensures x == open + m + close
  {
  }

  lemma Unwrap(x1: string, x2: string, open: string, m1: string, m2: string, close: string)
    requires x1 == open + m1 + close && x2 == open + m2 + close && x1 == x2
    ensures m1 == m2
  {
    Assoc3(open, m1, close);
    Assoc3(open, m2, close);
    StripPrefix(open, m1 + close, m2 + close);
    StripSuffix(m1, m2, close);
  }

  lemma Unconcat(x1: string, x2: string, a: string, p1: string, p2: string, d1: string, d2: string)
    requires x1 == a + p1 + d1 && x2 == a + p2 + d2 && x1 == x2 && |p1| == |p2|
    ensures p1 == p2 && d1 == d2
  {
    Assoc3(a, p1, d1);
    Assoc3(a, p2, d2);
    StripPrefix(a, p1 + d1, p2 + d2);
    SplitAtLength(p1, d1, p2, d2);
  }

  lemma StripPrefix(a: string, x: string, y: string)
    requires a + x == a + y
    ensures x == y
  {
    assert x == (a + x)[|a|..];
    assert y == (a + y)[|a|..];
  }

  lemma StripSuffix(x: string, y: string, a: string)
    requires x + a == y + a
    ensures x == y
  {
    assert x == (x + a)[..|x|];
    assert y == (y + a)[..|y|];
  }

  lemma SplitAtLength(x1: string, y1: string, x2: string, y2: string)
    requires |x1| == |x2| && x1 + y1 == x2 + y2
    ensures x1 == x2 && y1 == y2
  {
    assert x1 == (x1 + y1)[..|x1|];
    assert x2 == (x2 + y2)[..|x2|];
    assert y1 == (x1 + y1)[|x1|..];
    assert y2 == (x2 + y2)[|x2|..];
  }
}
