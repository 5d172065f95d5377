/**
 * The Connect Four game controller: one game's grid, whose turn it is, and
 * whether the game has ended, with the move handler that drops a piece,
 * checks for a win and then a tie, and otherwise passes the turn.
 */
module Connect4 {
  import opened Wrappers
  import opened Board

  /** The announcement made when the board fills with no winner. */
  const TIE: string := "Tie!"

  /** The message the start button shows when the board would be too small. */
  const TOO_SMALL: string := "Width x Heigh should be greater than 8!"

  /** The player who moves after `id`. */
  function Other(id: int): (r: int)
    requires id == 1 || id == 2
    ensures (r == 1 || r == 2) && r != id
  {
    if id == 1 then 2 else 1
  }

  /** "Player {id} won!" for a one-digit player id. */
  function WinMessage(id: int): (msg: string)
    requires 0 <= id <= 9
    ensures |msg| == 13 && msg[..7] == "Player " && msg[8..] == " won!"
    ensures msg[7] as int - '0' as int == id
  {
    "Player " + [('0' as int + id) as char] + " won!"
  }

  class Game {
    const width: nat
    const height: nat
    /** The grid, row 0 at the top; EMPTY or a player id in each cell. */
    var board: Grid
    /** The id of the player whose turn it is. */
    var currPlayer: int
    /** Set once a win or a tie has been announced; no move is accepted after it. */
    var gameOver: bool
    /** The last end-of-game announcement, "" before the game ends. */
    var message: string

    /** The shape of the game state, which holds also mid-move. */
    ghost predicate WellFormed()
      reads this
    {
      && Rect(board, height, width)
      && Pieces(board)
      && Settled(board)
      && (currPlayer == 1 || currPlayer == 2)
    }

    /** The game invariant: a game still in progress has no winning line on its board. */
    ghost predicate Valid()
      reads this
    {
      WellFormed() && (!gameOver ==> !HasWin(board, 1) && !HasWin(board, 2))
    }

    /** A new game, player 1 to move, before its board is made. */
    constructor (width: nat, height: nat)
      ensures this.width == width && this.height == height
      ensures board == [] && currPlayer == 1 && !gameOver && message == ""
    {
      this.width := width;
      this.height := height;
      board := [];
      currPlayer := 1;
      gameOver := false;
      message := "";
    }

    /** Appends `height` rows of `width` EMPTY cells to the (empty) board. */
    method MakeBoard()
      requires board == [] && currPlayer == 1 && !gameOver
      modifies this`board
      ensures Valid()
      ensures Rect(board, height, width) && AllEmpty(board)
    {
      for y := 0 to height
        invariant Rect(board, y, width) && AllEmpty(board)
      {
        board := board + [seq(width, _ => EMPTY)];
      }
      EmptyHasNoWin(board, 1);
      EmptyHasNoWin(board, 2);
    }

    /** The row a piece dropped into column `x` lands in, scanning from the bottom row up. */
    method FindSpotForCol(x: int) returns (r: Option<nat>)
      requires Rect(board, height, width) && 0 <= x < width
      ensures r == DropRow(board, x)
    {
      var y := height - 1;
      while y >= 0
        invariant -1 <= y < height
        invariant DropRow(board, x) == ScanUp(board, x, y + 1)
      {
        if board[y][x] == EMPTY {
          return Some(y);
        }
        y := y - 1;
      }
      return None;
    }

    /**
     * Scans every cell in row-major order and, at each cell of the current
     * player, tests the four lines anchored there.
     */
    method CheckForWin() returns (won: bool)
      requires Rect(board, height, width)
      ensures won == HasWin(board, currPlayer)
    {
      var p := currPlayer;
      AnchorsOwned(board, p);
      for y := 0 to height
        invariant forall y', x', d :: 0 <= y' < y ==> !WinsAt(board, p, y', x', d)
      {
        for x := 0 to width
          invariant forall y', x', d :: 0 <= y' < y ==> !WinsAt(board, p, y', x', d)
          invariant forall x', d :: 0 <= x' < x ==> !WinsAt(board, p, y, x', d)
          invariant forall x', d :: (x' < 0 || width <= x') ==> !WinsAt(board, p, y, x', d)
        {
          if board[y][x] != p {
            continue;
          }
          var horiz := Line(y, x, Horiz);
          var vert := Line(y, x, Vert);
          var diagDR := Line(y, x, DiagDR);
          var diagDL := Line(y, x, DiagDL);
          if AllOwned(board, p, horiz) || AllOwned(board, p, vert)
            || AllOwned(board, p, diagDR) || AllOwned(board, p, diagDL)
          {
            assert WinsAt(board, p, y, x, Horiz) || WinsAt(board, p, y, x, Vert)
              || WinsAt(board, p, y, x, DiagDR) || WinsAt(board, p, y, x, DiagDL);
            return true;
          }
          forall d: Direction ensures !WinsAt(board, p, y, x, d) {
            match d
            case Horiz =>
            case Vert =>
            case DiagDR =>
            case DiagDL =>
          }
        }
      }
      return false;
    }

    /** Announces the end of the game: no further move is accepted. */
    method EndGame(msg: string)
      modifies this`gameOver, this`message
      ensures gameOver && message == msg
    {
      gameOver := true;
      message := msg;
    }

    /**
     * A click on column `x`: drop the current player's piece, then end the game
     * on a win or on a full board, or else pass the turn.  A click after the
     * game has ended or on a full column changes nothing.
     */
    method HandleClick(x: int)
      requires Valid() && 0 <= x < width
      modifies this
      ensures Valid()
      ensures old(gameOver) || old(DropRow(board, x)).None? ==>
        board == old(board) && currPlayer == old(currPlayer)
        && gameOver == old(gameOver) && message == old(message)
      ensures !old(gameOver) && old(DropRow(board, x)).Some? ==>
        board == Play(old(board), old(DropRow(board, x)).value, x, old(currPlayer))
      ensures !old(gameOver) && old(DropRow(board, x)).Some? && HasWin(board, old(currPlayer)) ==>
        gameOver && message == WinMessage(old(currPlayer)) && currPlayer == old(currPlayer)
      ensures (!old(gameOver) && old(DropRow(board, x)).Some? && !HasWin(board, old(currPlayer))
               && Full(board)) ==>
        gameOver && message == TIE && currPlayer == old(currPlayer)
      ensures (!old(gameOver) && old(DropRow(board, x)).Some? && !HasWin(board, old(currPlayer))
               && !Full(board)) ==>
        !gameOver && message == old(message) && currPlayer == Other(old(currPlayer))
    {
      if gameOver {
        return;
      }
      var spot := FindSpotForCol(x);
      if spot.None? {
        return;
      }
      var y := spot.value;
      var p := currPlayer;
      var before := board;
      board := Play(board, y, x, p);
      PlayKeepsRect(before, height, width, y, x, p);
      PlayKeepsPieces(before, y, x, p);
      PlayKeepsSettled(before, x, p);
      PlayKeepsOpponentWinless(before, y, x, p, Other(p));
      assert WellFormed();
      var won := CheckForWin();
      if won {
        EndGame(WinMessage(p));
        assert currPlayer == p && HasWin(board, p);
        return;
      }
      if Full(board) {
        EndGame(TIE);
        return;
      }
      assert !HasWin(board, p) && !HasWin(board, Other(p));
      currPlayer := Other(p);
    }
  }

  /**
   * The start button: refuses a board of fewer than eight cells with a
   * message, and otherwise creates a game and makes its board.
   */
  method OnStart(width: nat, height: nat) returns (r: Result<Game, string>)
    ensures r.Failure? <==> width * height < 8
    ensures r.Failure? ==> r.error == TOO_SMALL
    ensures r.Success? ==>
      var g := r.value;
      && fresh(g) && g.Valid() && g.width == width && g.height == height
      && AllEmpty(g.board) && g.currPlayer == 1 && !g.gameOver
  {
    if width * height < 8 {
      return Failure(TOO_SMALL);
    }
    var game := new Game(width, height);
    game.MakeBoard();
    return Success(game);
  }
}
