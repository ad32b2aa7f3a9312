/** The game engine of the tic-tac-toe component: the board, the win and draw
    checks, the status text, and the game state with its three event handlers
    (a square click, a jump into the history, a reset). */
module TicTacToe {

  datatype Option<T> = None | Some(value: T)

  /** The two player marks, 'X' and 'O'. */
  datatype Player = X | O

  /** A square: null in the component, or one player's mark. */
  datatype Cell = Empty | Mark(player: Player)

  /** A square index, 0..8 in row-major order. */
  type Index = i: nat | i < 9

  /** A board is always exactly nine squares. */
  type Board = b: seq<Cell> | |b| == 9
    witness [Empty, Empty, Empty, Empty, Empty, Empty, Empty, Empty, Empty]

  /** The game status: 'in-progress', 'winner-X' / 'winner-O', or 'draw'. */
  datatype Status = InProgress | Winner(mark: Player) | Draw

  /** One of the eight three-in-a-row triples. */
  datatype Line = Line(a: Index, b: Index, c: Index)

  /** The initial board, nine empty squares. */
  const EmptyBoard: Board := [Empty, Empty, Empty, Empty, Empty, Empty, Empty, Empty, Empty]

  /** The winning lines in the order the component checks them:
      the three rows, the three columns, then the two diagonals. */
  const WinningLines: seq<Line> := [
    Line(0, 1, 2), Line(3, 4, 5), Line(6, 7, 8),
    Line(0, 3, 6), Line(1, 4, 7), Line(2, 5, 8),
    Line(0, 4, 8), Line(2, 4, 6)
  ]

  /** The mark placed on a move when X is (or is not) the next player. */
  function MarkFor(isXNext: bool): Player {
    if isXNext then X else O
  }

  /** The player who moves from the snapshot at history step `step`:
      X on even steps. */
  function PlayerOn(step: nat): Player {
    MarkFor(step % 2 == 0)
  }

  // ---------------------------------------------------------------------
  // Win detection
  // ---------------------------------------------------------------------

  /** All three squares of `line` hold the same mark. */
  predicate Completes(squares: Board, line: Line) {
    squares[line.a] != Empty && squares[line.a] == squares[line.b] && squares[line.a] == squares[line.c]
  }

  /** `line` is complete and its three squares hold `p`'s mark. */
  predicate OwnedBy(squares: Board, line: Line, p: Player) {
    squares[line.a] == Mark(p) && squares[line.b] == Mark(p) && squares[line.c] == Mark(p)
  }

  /** No winning line at all is complete. */
  predicate NoCompleteLine(squares: Board) {
    forall k :: 0 <= k < |WinningLines| ==> !Completes(squares, WinningLines[k])
  }

  /** Line number `k` is the first complete line in the checking order. */
  predicate FirstCompleteLine(squares: Board, k: int) {
    0 <= k < |WinningLines| && Completes(squares, WinningLines[k]) &&
    forall j :: 0 <= j < k ==> !Completes(squares, WinningLines[j])
  }

  /** The winner among lines `i`.. of the checking order: the owner of the
      first complete line from `i` on, if any. */
  function FirstWinnerFrom(squares: Board, i: nat): Option<Player>
    requires i <= |WinningLines|
    decreases |WinningLines| - i
  {
    if i == |WinningLines| then None
    else if Completes(squares, WinningLines[i]) then Some(squares[WinningLines[i].a].player)
    else FirstWinnerFrom(squares, i + 1)
  }

  /** The search from line `i` finds nothing exactly when no line from `i`
      on is complete, and otherwise names the owner of the first complete
      one. */
  lemma {:induction false} FirstWinnerFromSpec(squares: Board, i: nat)
    requires i <= |WinningLines|
    ensures var w := FirstWinnerFrom(squares, i);
      (w.None? <==> forall k :: i <= k < |WinningLines| ==> !Completes(squares, WinningLines[k])) &&
      (w.Some? ==> exists k :: (i <= k < |WinningLines| &&
        Completes(squares, WinningLines[k]) && OwnedBy(squares, WinningLines[k], w.value) &&
        forall j :: i <= j < k ==> !Completes(squares, WinningLines[j])))
    decreases |WinningLines| - i
  {
    if i < |WinningLines| && !Completes(squares, WinningLines[i]) {
      FirstWinnerFromSpec(squares, i + 1);
    }
  }

  /** What the component's win check computes for a board. */
  function FirstWinner(squares: Board): Option<Player> {
    FirstWinnerFrom(squares, 0)
  }

  /** The win check returns `p` exactly when the first complete line in the
      checking order belongs to `p`, and nothing exactly when no line is
      complete. */
  lemma FirstWinnerSpec(squares: Board, p: Player)
    ensures FirstWinner(squares) == None <==> NoCompleteLine(squares)
    ensures FirstWinner(squares) == Some(p) <==>
      exists k :: FirstCompleteLine(squares, k) && OwnedBy(squares, WinningLines[k], p)
  {
    FirstWinnerFromSpec(squares, 0);
    if FirstWinner(squares) == Some(p) {
      var k :| 0 <= k < |WinningLines| &&
        Completes(squares, WinningLines[k]) && OwnedBy(squares, WinningLines[k], p) &&
        forall j :: 0 <= j < k ==> !Completes(squares, WinningLines[j]);
      assert FirstCompleteLine(squares, k);
    }
    if exists k :: FirstCompleteLine(squares, k) && OwnedBy(squares, WinningLines[k], p) {
      var k :| FirstCompleteLine(squares, k) && OwnedBy(squares, WinningLines[k], p);
      var w := FirstWinner(squares);
      assert w.Some?;
      var k' :| 0 <= k' < |WinningLines| &&
        Completes(squares, WinningLines[k']) && OwnedBy(squares, WinningLines[k'], w.value) &&
        forall j :: 0 <= j < k' ==> !Completes(squares, WinningLines[j]);
      if k < k' {
        assert false;
      } else if k' < k {
        assert false;
      }
    }
  }

  /** The component's win check: the eight lines in order, returning the mark
      of the first complete one, or nothing. */
  method CalculateWinner(squares: Board) returns (winner: Option<Player>)
    ensures winner == FirstWinner(squares)
  {
    for i := 0 to |WinningLines|
      invariant forall j :: 0 <= j < i ==> !Completes(squares, WinningLines[j])
    {
      var line := WinningLines[i];
      if squares[line.a] != Empty && squares[line.a] == squares[line.b] && squares[line.a] == squares[line.c] {
        ghost var w := FirstWinner(squares);
        assert w.Some? && FirstCompleteLine(squares, i);
        FirstWinnerSpec(squares, squares[line.a].player);
        return Some(squares[line.a].player);
      }
    }
    return None;
  }

  // ---------------------------------------------------------------------
  // Draw detection and the derived status
  // ---------------------------------------------------------------------

  /** Every square is taken (the component's `every` over the squares). */
  function IsBoardFull(squares: seq<Cell>): (full: bool)
    ensures full <==> forall i :: 0 <= i < |squares| ==> squares[i] != Empty
  {
    |squares| == 0 || (squares[0] != Empty && IsBoardFull(squares[1..]))
  }

  /** The status the component derives for a board: a win is checked before
      a draw, and a board that is neither stays in progress. */
  function StatusOf(squares: Board): Status {
    var w := FirstWinner(squares);
    if w.Some? then Winner(w.value)
    else if IsBoardFull(squares) then Draw
    else InProgress
  }

  /** The derived status is a win exactly when some line is complete, and
      then the owner of the first complete line; a draw exactly when no line
      is complete and no square is empty; in progress otherwise. */
  lemma StatusOfSpec(squares: Board)
    ensures var s := StatusOf(squares);
      (s.Winner? <==> !NoCompleteLine(squares)) &&
      (s.Winner? ==> exists k :: FirstCompleteLine(squares, k) && OwnedBy(squares, WinningLines[k], s.mark)) &&
      (s == Draw <==> NoCompleteLine(squares) && forall i :: 0 <= i < 9 ==> squares[i] != Empty) &&
      (s == InProgress <==> NoCompleteLine(squares) && exists i :: 0 <= i < 9 && squares[i] == Empty)
  {
    var w := FirstWinner(squares);
    FirstWinnerSpec(squares, if w.Some? then w.value else X);
  }

  // ---------------------------------------------------------------------
  // Status text
  // ---------------------------------------------------------------------

  function MarkText(p: Player): string {
    match p
    case X => "X"
    case O => "O"
  }

  /** The status line shown above the board. */
  function StatusMessage(status: Status, isXNext: bool): (msg: string) {
    match status
    case Winner(p) => "Winner: " + MarkText(p)
    case Draw => "Game ended in a draw!"
    case InProgress => "Next player: " + MarkText(MarkFor(isXNext))
  }

  /** The text identifies the status: the winner when there is one, a draw
      as a draw, and the next player while the game is in progress. */
  lemma StatusMessageIdentifies(s1: Status, x1: bool, s2: Status, x2: bool)
    requires StatusMessage(s1, x1) == StatusMessage(s2, x2)
    ensures s1 == s2
    ensures s1 == InProgress ==> x1 == x2
  {
    var m := StatusMessage(s1, x1);
    assert m[0] == StatusMessage(s2, x2)[0];
    match s1
    case Winner(_) =>
      assert m[8] == StatusMessage(s2, x2)[8];
    case Draw =>
    case InProgress =>
      assert m[13] == StatusMessage(s2, x2)[13];
  }

  // ---------------------------------------------------------------------
  // Snapshots and histories
  // ---------------------------------------------------------------------

  /** `after` is `before` with one empty square now holding `p`'s mark. */
  ghost predicate IsMove(before: Board, after: Board, p: Player) {
    exists idx: Index :: before[idx] == Empty && after == before[idx := Mark(p)]
  }

  /** What a history of snapshots looks like: it starts at the empty board,
      each snapshot is one move of the player on turn from its predecessor,
      and the game goes on at every snapshot but the last. */
  ghost predicate WellFormedHistory(h: seq<Board>) {
    |h| >= 1 && h[0] == EmptyBoard &&
    (forall i :: 0 <= i < |h| - 1 ==> IsMove(h[i], h[i + 1], PlayerOn(i))) &&
    (forall i :: 0 <= i < |h| - 1 ==> StatusOf(h[i]) == InProgress)
  }

  /** The number of taken squares. */
  function MarkCount(squares: seq<Cell>): (n: nat)
    ensures n <= |squares|
  {
    if |squares| == 0 then 0
    else (if squares[0] == Empty then 0 else 1) + MarkCount(squares[1..])
  }

  /** Taking an empty square adds exactly one mark. */
  lemma {:induction false} MarkCountTake(squares: seq<Cell>, idx: nat, c: Cell)
    requires idx < |squares| && squares[idx] == Empty && c != Empty
    ensures MarkCount(squares[idx := c]) == MarkCount(squares) + 1
  {
    if idx > 0 {
      MarkCountTake(squares[1..], idx - 1, c);
      assert squares[idx := c][1..] == squares[1..][idx - 1 := c];
    } else {
      assert squares[idx := c][1..] == squares[1..];
    }
  }

  lemma {:induction false} MarkCountEmpty(squares: seq<Cell>)
    requires forall i :: 0 <= i < |squares| ==> squares[i] == Empty
    ensures MarkCount(squares) == 0
  {
    if |squares| > 0 {
      MarkCountEmpty(squares[1..]);
    }
  }

  /** The snapshot at step `i` holds exactly `i` marks, so a history has at
      most ten snapshots. */
  lemma {:induction false} MarkCountIsStep(h: seq<Board>, i: nat)
    requires WellFormedHistory(h) && i < |h|
    ensures MarkCount(h[i]) == i
  {
    if i == 0 {
      MarkCountEmpty(h[0]);
    } else {
      MarkCountIsStep(h, i - 1);
      assert IsMove(h[i - 1], h[i], PlayerOn(i - 1));
      var idx: Index :| h[i - 1][idx] == Empty && h[i] == h[i - 1][idx := Mark(PlayerOn(i - 1))];
      MarkCountTake(h[i - 1], idx, Mark(PlayerOn(i - 1)));
    }
  }

  /** The last snapshot holds one mark per step, so a history has at most
      ten snapshots. */
  lemma HistoryBounded(h: seq<Board>)
    requires WellFormedHistory(h)
    ensures |h| <= 10
  {
    MarkCountIsStep(h, |h| - 1);
  }

  /** A mark, once placed, stays in every later snapshot. */
  lemma {:induction false} MarksPersist(h: seq<Board>, i: nat, j: nat, k: Index)
    requires WellFormedHistory(h) && i <= j < |h| && h[i][k] != Empty
    ensures h[j][k] == h[i][k]
  {
    if i < j {
      MarksPersist(h, i, j - 1, k);
      assert IsMove(h[j - 1], h[j], PlayerOn(j - 1));
    }
  }

  /** A line that is complete after a move on a board without a complete
      line passes through the square just taken, so it is the mover's. */
  lemma CompleteAfterMove(before: Board, idx: Index, p: Player, k: nat)
    requires NoCompleteLine(before) && before[idx] == Empty
    requires k < |WinningLines| && Completes(before[idx := Mark(p)], WinningLines[k])
    ensures OwnedBy(before[idx := Mark(p)], WinningLines[k], p)
  {
    var line := WinningLines[k];
    assert !Completes(before, line);
  }

  /** On every snapshot of a history all complete lines have one owner: at
      most one player can have won. */
  lemma SingleOwner(h: seq<Board>, i: nat, k1: nat, k2: nat, p1: Player, p2: Player)
    requires WellFormedHistory(h) && i < |h|
    requires k1 < |WinningLines| && OwnedBy(h[i], WinningLines[k1], p1)
    requires k2 < |WinningLines| && OwnedBy(h[i], WinningLines[k2], p2)
    ensures p1 == p2
  {
    if i > 0 {
      assert IsMove(h[i - 1], h[i], PlayerOn(i - 1));
      var idx: Index :| h[i - 1][idx] == Empty && h[i] == h[i - 1][idx := Mark(PlayerOn(i - 1))];
      assert StatusOf(h[i - 1]) == InProgress;
      StatusOfSpec(h[i - 1]);
      CompleteAfterMove(h[i - 1], idx, PlayerOn(i - 1), k1);
      CompleteAfterMove(h[i - 1], idx, PlayerOn(i - 1), k2);
    }
  }

  /** On a snapshot of a history the status is a win for `p` exactly when
      some line is complete with `p`'s mark. */
  lemma WinnerIff(h: seq<Board>, i: nat, p: Player)
    requires WellFormedHistory(h) && i < |h|
    ensures StatusOf(h[i]) == Winner(p) <==>
      exists k :: 0 <= k < |WinningLines| && OwnedBy(h[i], WinningLines[k], p)
  {
    var s := StatusOf(h[i]);
    StatusOfSpec(h[i]);
    if s == Winner(p) {
      var k :| FirstCompleteLine(h[i], k) && OwnedBy(h[i], WinningLines[k], p);
    }
    if exists k :: 0 <= k < |WinningLines| && OwnedBy(h[i], WinningLines[k], p) {
      var k :| 0 <= k < |WinningLines| && OwnedBy(h[i], WinningLines[k], p);
      assert Completes(h[i], WinningLines[k]);
      assert s.Winner?;
      var k' :| FirstCompleteLine(h[i], k') && OwnedBy(h[i], WinningLines[k'], s.mark);
      SingleOwner(h, i, k, k', p, s.mark);
    }
  }

  /** A legal click at step `step` keeps the history well formed: the
      snapshots up to `step` are kept and the new board is appended. */
  lemma HistoryExtend(h: seq<Board>, step: nat, idx: Index)
    requires WellFormedHistory(h) && step < |h|
    requires StatusOf(h[step]) == InProgress && h[step][idx] == Empty
    ensures WellFormedHistory(h[..step + 1] + [h[step][idx := Mark(PlayerOn(step))]])
  {
    var nb := h[step][idx := Mark(PlayerOn(step))];
    var h' := h[..step + 1] + [nb];
    assert IsMove(h[step], nb, PlayerOn(step));
    forall i | 0 <= i < |h'| - 1
      ensures IsMove(h'[i], h'[i + 1], PlayerOn(i)) && StatusOf(h'[i]) == InProgress
    {
      if i < step {
        assert h'[i] == h[i] && h'[i + 1] == h[i + 1];
      }
    }
  }

  // ---------------------------------------------------------------------
  // The game state and its handlers
  // ---------------------------------------------------------------------

  /** The five state cells of the component and the handlers that update
      them; each handler is one atomic transition over the pre-call values. */
  class Game {
    var board: Board
    var isXNext: bool
    var history: seq<Board>
    var currentStep: nat
    var gameStatus: Status

    /** The invariant every handler preserves. */
    ghost predicate Valid()
      reads this
    {
      WellFormedHistory(history) &&
      currentStep < |history| &&
      board == history[currentStep] &&
      isXNext == (currentStep % 2 == 0) &&
      gameStatus == StatusOf(board)
    }

    /** The initial state: an empty board, X to move, a one-entry history. */
    constructor ()
      ensures Valid()
      ensures board == EmptyBoard && isXNext && history == [EmptyBoard]
      ensures currentStep == 0 && gameStatus == InProgress
    {
      board := EmptyBoard;
      isXNext := true;
      history := [EmptyBoard];
      currentStep := 0;
      gameStatus := InProgress;
      assert EmptyBoard[0] == Empty;
    }

    /** Sets the status to a win or a draw when `currentBoard` is one, and
        leaves it as it was otherwise. */
    method CheckGameStatus(currentBoard: Board)
      modifies this`gameStatus
      ensures StatusOf(currentBoard) != InProgress ==> gameStatus == StatusOf(currentBoard)
      ensures StatusOf(currentBoard) == InProgress ==> gameStatus == old(gameStatus)
    {
      var winner := CalculateWinner(currentBoard);
      if winner.Some? {
        gameStatus := Winner(winner.value);
      } else if IsBoardFull(currentBoard) {
        gameStatus := Draw;
      }
    }

    /** A click on square `index`. Ignored on a taken square or once the
        game is over; otherwise the mover's mark is placed, the turn passes,
        the history after the current step is discarded and the new board
        appended, and the status is re-derived. */
    method HandleSquareClick(index: Index)
      requires Valid()
      modifies this
      ensures Valid()
      ensures (old(board)[index] != Empty || old(gameStatus) != InProgress) ==>
        board == old(board) && isXNext == old(isXNext) && history == old(history) &&
        currentStep == old(currentStep) && gameStatus == old(gameStatus)
      ensures (old(board)[index] == Empty && old(gameStatus) == InProgress) ==>
        board == old(board)[index := Mark(MarkFor(old(isXNext)))] &&
        isXNext == !old(isXNext) &&
        history == old(history)[..old(currentStep) + 1] + [board] &&
        currentStep == old(currentStep) + 1 == |history| - 1 &&
        gameStatus == StatusOf(board)
    {
      if board[index] != Empty || gameStatus != InProgress {
        return;
      }
      var newBoard := board[index := Mark(MarkFor(isXNext))];
      var newHistory := history[..currentStep + 1] + [newBoard];
      HistoryExtend(history, currentStep, index);
      board := newBoard;
      isXNext := !isXNext;
      history := newHistory;
      currentStep := |newHistory| - 1;
      CheckGameStatus(newBoard);
    }

    /** A jump to history step `step`: the snapshot becomes the board, the
        turn follows the step's parity, the history is kept, and the status
        is put back in progress when leaving a finished game for an earlier
        step, and is re-derived from the snapshot otherwise. */
    method JumpToMove(step: nat)
      requires Valid() && step < |history|
      modifies this
      ensures Valid()
      ensures currentStep == step && board == old(history)[step] && history == old(history)
      ensures isXNext == (step % 2 == 0)
      ensures (old(gameStatus) != InProgress && step < |history| - 1) ==> gameStatus == InProgress
      ensures !(old(gameStatus) != InProgress && step < |history| - 1) ==>
        (StatusOf(board) != InProgress ==> gameStatus == StatusOf(board)) &&
        (StatusOf(board) == InProgress ==> gameStatus == old(gameStatus))
      ensures gameStatus == StatusOf(board)
    {
      currentStep := step;
      board := history[step];
      isXNext := step % 2 == 0;
      if gameStatus != InProgress && step < |history| - 1 {
        gameStatus := InProgress;
      } else {
        CheckGameStatus(history[step]);
      }
    }

    /** Back to the initial state, whatever the state was. */
    method ResetGame()
      modifies this
      ensures Valid()
      ensures board == EmptyBoard && isXNext && history == [EmptyBoard]
      ensures currentStep == 0 && gameStatus == InProgress
    {
      board := EmptyBoard;
      isXNext := true;
      history := [EmptyBoard];
      currentStep := 0;
      gameStatus := InProgress;
      assert EmptyBoard[0] == Empty;
    }
  }
}
