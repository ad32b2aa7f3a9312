/** Concrete games played against the handlers' contracts alone. */
module Scenarios {
  import opened TicTacToe

  /** X takes the top row: X 0, O 3, X 1, O 4, X 2. */
  method TopRowGame() returns (g: Game)
    ensures fresh(g) && g.Valid()
    ensures g.currentStep == 5 && |g.history| == 6 && g.gameStatus == Winner(X)
  {
    g := new Game();
    g.HandleSquareClick(0);
    g.HandleSquareClick(3);
    g.HandleSquareClick(1);
    StillInPlay(g.board, 2);
    g.HandleSquareClick(4);
    StillInPlay(g.board, 2);
    g.HandleSquareClick(2);
    assert OwnedBy(g.board, WinningLines[0], X);
    WinnerIff(g.history, g.currentStep, X);
  }

  /** Once X has won, the status names X and a further click is ignored. */
  method XWinsTopRow() {
    var g := TopRowGame();
    assert StatusMessage(g.gameStatus, g.isXNext) == "Winner: X";
    g.HandleSquareClick(8);
    assert |g.history| == 6 && g.currentStep == 5 && g.gameStatus == Winner(X);
  }

  /** O takes the middle column: X 0, O 1, X 2, O 4, X 3, O 7. */
  method OWinsMiddleColumn() {
    var g := new Game();
    g.HandleSquareClick(0);
    g.HandleSquareClick(1);
    g.HandleSquareClick(2);
    StillInPlay(g.board, 4);
    g.HandleSquareClick(4);
    StillInPlay(g.board, 3);
    g.HandleSquareClick(3);
    StillInPlay(g.board, 7);
    g.HandleSquareClick(7);
    assert OwnedBy(g.board, WinningLines[4], O);
    WinnerIff(g.history, g.currentStep, O);
    assert g.gameStatus == Winner(O);
  }

  /** Proof aid for the scenarios, not a property of the game: the constant
      `WinningLines` spelled out, so that a concrete board can be checked
      line by line. */
  lemma LinesSpelledOut(b: Board)
    ensures NoCompleteLine(b) <==>
      !Completes(b, Line(0, 1, 2)) && !Completes(b, Line(3, 4, 5)) && !Completes(b, Line(6, 7, 8)) &&
      !Completes(b, Line(0, 3, 6)) && !Completes(b, Line(1, 4, 7)) && !Completes(b, Line(2, 5, 8)) &&
      !Completes(b, Line(0, 4, 8)) && !Completes(b, Line(2, 4, 6))
  {
    assert WinningLines[0] == Line(0, 1, 2) && WinningLines[1] == Line(3, 4, 5);
    assert WinningLines[2] == Line(6, 7, 8) && WinningLines[3] == Line(0, 3, 6);
    assert WinningLines[4] == Line(1, 4, 7) && WinningLines[5] == Line(2, 5, 8);
    assert WinningLines[6] == Line(0, 4, 8) && WinningLines[7] == Line(2, 4, 6);
  }

  /** No line of `b` is complete, checked line by line. */
  predicate NoLineSpelledOut(b: Board) {
    !Completes(b, Line(0, 1, 2)) && !Completes(b, Line(3, 4, 5)) && !Completes(b, Line(6, 7, 8)) &&
    !Completes(b, Line(0, 3, 6)) && !Completes(b, Line(1, 4, 7)) && !Completes(b, Line(2, 5, 8)) &&
    !Completes(b, Line(0, 4, 8)) && !Completes(b, Line(2, 4, 6))
  }

  /** A board without a line and with an empty square is still in play. */
  lemma StillInPlay(b: Board, e: Index)
    requires NoLineSpelledOut(b) && b[e] == Empty
    ensures StatusOf(b) == InProgress
  {
    LinesSpelledOut(b);
    StatusOfSpec(b);
  }

  /** A full board without a line is a draw. */
  lemma Drawn(b: Board)
    requires NoLineSpelledOut(b)
    requires b[0] != Empty && b[1] != Empty && b[2] != Empty && b[3] != Empty && b[4] != Empty
    requires b[5] != Empty && b[6] != Empty && b[7] != Empty && b[8] != Empty
    ensures StatusOf(b) == Draw
  {
    LinesSpelledOut(b);
    StatusOfSpec(b);
  }

  /** Four moves: X 0, O 1, X 2, O 3, giving five snapshots. */
  method FourMoves() returns (g: Game)
    ensures fresh(g) && g.Valid() && g.currentStep == 4 && |g.history| == 5
    ensures g.board[0] == Mark(X) && g.board[1] == Mark(O) && g.board[2] == Mark(X)
    ensures g.board[3] == Mark(O) && g.board[4] == Empty && g.board[5] == Empty
    ensures g.board[6] == Empty && g.board[7] == Empty && g.board[8] == Empty
    ensures g.history[2][2] == Empty && g.history[2][3] == Empty && g.history[2][8] == Empty
  {
    g := new Game();
    g.HandleSquareClick(0);
    g.HandleSquareClick(1);
    ghost var atTwo := g.board;
    assert atTwo[2] == Empty && atTwo[3] == Empty && atTwo[8] == Empty;
    g.HandleSquareClick(2);
    assert g.history[2] == atTwo;
    g.HandleSquareClick(3);
    assert g.history[2] == atTwo;
  }

  /** The first five moves of a drawn game: the four above, then X 4. */
  method DrawOpening() returns (g: Game)
    ensures fresh(g) && g.Valid() && g.currentStep == 5
    ensures g.board[0] == Mark(X) && g.board[1] == Mark(O) && g.board[2] == Mark(X)
    ensures g.board[3] == Mark(O) && g.board[4] == Mark(X) && g.board[5] == Empty
    ensures g.board[6] == Empty && g.board[7] == Empty && g.board[8] == Empty
  {
    g := FourMoves();
    StillInPlay(g.board, 4);
    g.HandleSquareClick(4);
  }

  /** The rest of the drawn game: O 6, X 5, O 8, X 7 fill the board without
      a line. */
  method FullBoardDraw() {
    var g := DrawOpening();
    StillInPlay(g.board, 5);
    g.HandleSquareClick(6);
    StillInPlay(g.board, 5);
    g.HandleSquareClick(5);
    StillInPlay(g.board, 7);
    g.HandleSquareClick(8);
    StillInPlay(g.board, 7);
    g.HandleSquareClick(7);
    Drawn(g.board);
    assert g.gameStatus == Draw;
    assert StatusMessage(g.gameStatus, g.isXNext) == "Game ended in a draw!";
  }

  /** A click on a taken square changes nothing. */
  method OccupiedSquareIgnored() {
    var g := new Game();
    g.HandleSquareClick(4);
    g.HandleSquareClick(4);
    assert g.currentStep == 1 && |g.history| == 2 && !g.isXNext;
    assert StatusMessage(g.gameStatus, g.isXNext) == "Next player: O";
  }

  /** Jumping back to the start of a won game puts it back in progress;
      jumping forward to the last step shows the win again. */
  method JumpBackUnendsGame() {
    var g := TopRowGame();
    g.JumpToMove(0);
    assert g.gameStatus == InProgress && g.isXNext && |g.history| == 6;
    g.JumpToMove(5);
    assert g.gameStatus == Winner(X);
  }

  /** After four moves (five snapshots), a jump to step 2 and a new move
      leave four snapshots: steps 0..2 kept, the new one appended. */
  method BranchDiscard() {
    var g := FourMoves();
    ghost var before := g.history;
    g.JumpToMove(2);
    StillInPlay(g.board, 8);
    g.HandleSquareClick(8);
    assert |g.history| == 4 && g.currentStep == 3;
    assert g.history[..3] == before[..3];
    assert g.board[8] == Mark(X) && g.board[2] == Empty && g.board[3] == Empty;
  }
}
