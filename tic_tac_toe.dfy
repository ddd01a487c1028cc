/** Tic-tac-toe: a nine-square board, eight winning lines, alternating turns
    and a running tally of wins and draws. */
module TicTacToe {
  import opened Common

  datatype Player = X | O

  /** A square is empty or holds a player's mark (the source's `Player | null`). */
  datatype Square = Empty | Mark(player: Player)

  /** The result of `checkWinner`, and the `winner` state: null, a player or 'draw'. */
  datatype Outcome = Undecided | Won(player: Player) | Draw

  function Other(p: Player): Player {
    if p == X then O else X
  }

  /** Rows, columns and the two diagonals of the 3 x 3 board, as board indices. */
  const WinningCombinations: seq<(int, int, int)> :=
    [(0, 1, 2), (3, 4, 5), (6, 7, 8),
     (0, 3, 6), (1, 4, 7), (2, 5, 8),
     (0, 4, 8), (2, 4, 6)]

  const EmptyBoard: seq<Square> := [Empty, Empty, Empty, Empty, Empty, Empty, Empty, Empty, Empty]

  /** The player holding all three squares of combination k, if any. */
  function Owner(board: seq<Square>, k: int): Option<Player>
    requires |board| == 9 && 0 <= k < 8
  {
    var (a, b, c) := WinningCombinations[k];
    if board[a] != Empty && board[a] == board[b] && board[a] == board[c] then Some(board[a].player) else None
  }

  ghost predicate HasLine(board: seq<Square>, p: Player)
    requires |board| == 9
  {
    exists k :: 0 <= k < 8 && Owner(board, k) == Some(p)
  }

  predicate Full(board: seq<Square>) {
    forall i :: 0 <= i < |board| ==> board[i] != Empty
  }

  /** The owner of the first winning combination from index k on. */
  function FirstOwner(board: seq<Square>, k: int): Option<Player>
    requires |board| == 9 && 0 <= k <= 8
    decreases 8 - k
  {
    if k == 8 then None
    else if Owner(board, k).Some? then Owner(board, k)
    else FirstOwner(board, k + 1)
  }

  /** The reference outcome: the owner of the first listed winning line; with no
      line, a draw once all nine squares are taken. */
  ghost function Decide(board: seq<Square>): Outcome
    requires |board| == 9
  {
    match FirstOwner(board, 0)
    case Some(p) => Won(p)
    case None => if Full(board) then Draw else Undecided
  }

  lemma {:induction false} FirstOwnerIsAnOwner(board: seq<Square>, k: int)
    requires |board| == 9 && 0 <= k <= 8
    ensures FirstOwner(board, k).Some? ==>
      exists j :: k <= j < 8 && Owner(board, j) == FirstOwner(board, k)
    ensures FirstOwner(board, k).None? ==> forall j :: k <= j < 8 ==> Owner(board, j).None?
    decreases 8 - k
  {
    if k < 8 && Owner(board, k).None? {
      FirstOwnerIsAnOwner(board, k + 1);
    }
  }

  /** `checkWinner` is right about the winner whenever at most one player holds
      a line: player p is reported iff p holds one of the eight lines. A draw is
      reported iff nobody holds a line and the board is full, so a full board
      with a winning line reports the winner. */
  lemma DecideCorrect(board: seq<Square>)
    requires |board| == 9
    ensures Decide(board) == Draw <==> !HasLine(board, X) && !HasLine(board, O) && Full(board)
    ensures Decide(board) == Undecided <==> !HasLine(board, X) && !HasLine(board, O) && !Full(board)
    ensures forall p :: !HasLine(board, Other(p)) ==> (Decide(board) == Won(p) <==> HasLine(board, p))
  {
    FirstOwnerIsAnOwner(board, 0);
    if FirstOwner(board, 0).Some? {
      var j :| 0 <= j < 8 && Owner(board, j) == FirstOwner(board, 0);
      if FirstOwner(board, 0).value == X {
        assert HasLine(board, X);
      } else {
        assert HasLine(board, O);
      }
    }
  }

  /** `checkWinner`: the loop over the eight combinations with an early return,
      then the `every` test for a draw. */
  method CheckWinner(board: seq<Square>) returns (r: Outcome)
    requires |board| == 9
    ensures r == Decide(board)
  {
    var k := 0;
    while k < 8
      invariant 0 <= k <= 8
      invariant FirstOwner(board, 0) == FirstOwner(board, k)
    {
      var (a, b, c) := WinningCombinations[k];
      if board[a] != Empty && board[a] == board[b] && board[a] == board[c] {
        return Won(board[a].player);
      }
      k := k + 1;
    }
    return if Full(board) then Draw else Undecided;
  }

  /** A mark by p on an empty square cannot give the other player a line. */
  lemma MoveGivesNoLineToOther(board: seq<Square>, i: int, p: Player)
    requires |board| == 9 && 0 <= i < 9
    requires !HasLine(board, Other(p))
    ensures !HasLine(board[i := Mark(p)], Other(p))
  {
    var after := board[i := Mark(p)];
    forall k | 0 <= k < 8 ensures Owner(after, k) != Some(Other(p)) {
      assert Owner(board, k) != Some(Other(p));
    }
  }

  class TicTacToeGame {
    var board: seq<Square>
    var currentPlayer: Player
    var winner: Outcome
    var gameStarted: bool
    var xWins: nat
    var oWins: nat
    var draws: nat

    /** The board has nine squares and `winner` tells the truth: while undecided
        nobody holds a line, a winner is the only player holding one, and a draw
        is a full board without a line. */
    ghost predicate Valid()
      reads this
    {
      |board| == 9 &&
      (winner == Undecided ==> !HasLine(board, X) && !HasLine(board, O) && !Full(board)) &&
      (winner.Won? ==> HasLine(board, winner.player) && !HasLine(board, Other(winner.player))) &&
      (winner == Draw ==> !HasLine(board, X) && !HasLine(board, O) && Full(board))
    }

    constructor ()
      ensures Valid()
      ensures board == EmptyBoard && currentPlayer == X && winner == Undecided && !gameStarted
      ensures xWins == 0 && oWins == 0 && draws == 0
    {
      board := EmptyBoard;
      currentPlayer := X;
      winner := Undecided;
      gameStarted := false;
      xWins, oWins, draws := 0, 0, 0;
      new;
      DecideCorrect(board);
      assert !Full(board) by { assert board[0] == Empty; }
      assert FirstOwner(board, 0) == None by { FirstOwnerIsAnOwner(board, 0); }
    }

    /** `makeMove`: a no-op on a taken square, once decided, or before start.
        Otherwise the current player's mark goes on that square only, the
        outcome is recorded, the tally of the outcome grows by one, and the turn
        passes to the other player only if the game is still undecided. */
    method MakeMove(index: int) returns (reported: Option<int>)
      requires Valid() && 0 <= index < 9
      modifies this
      ensures Valid() && gameStarted == old(gameStarted)
      ensures old(board[index]) != Empty || old(winner) != Undecided || !old(gameStarted) ==>
        board == old(board) && currentPlayer == old(currentPlayer) && winner == old(winner) &&
        xWins == old(xWins) && oWins == old(oWins) && draws == old(draws) && reported == None
      ensures old(board[index]) == Empty && old(winner) == Undecided && old(gameStarted) ==>
        board == old(board)[index := Mark(old(currentPlayer))] &&
        winner == Decide(board) &&
        (winner == Undecided ==> currentPlayer == Other(old(currentPlayer))) &&
        (winner != Undecided ==> currentPlayer == old(currentPlayer)) &&
        (winner == Undecided ==> xWins == old(xWins) && oWins == old(oWins) && draws == old(draws) && reported == None) &&
        (winner == Draw ==> xWins == old(xWins) && oWins == old(oWins) && draws == old(draws) + 1 && reported == None) &&
        (winner == Won(X) ==> xWins == old(xWins) + 1 && oWins == old(oWins) && draws == old(draws) && reported == Some(xWins)) &&
        (winner == Won(O) ==> oWins == old(oWins) + 1 && xWins == old(xWins) && draws == old(draws) && reported == Some(oWins))
    {
      reported := None;
      if board[index] != Empty || winner != Undecided || !gameStarted {
        return;
      }
      ghost var was := board;
      board := board[index := Mark(currentPlayer)];
      var result := CheckWinner(board);
      MoveGivesNoLineToOther(was, index, currentPlayer);
      DecideCorrect(board);
      if result != Undecided {
        winner := result;
        if result == Draw {
          draws := draws + 1;
        } else if result.player == X {
          xWins := xWins + 1;
          reported := Some(xWins);
        } else {
          oWins := oWins + 1;
          reported := Some(oWins);
        }
      } else {
        currentPlayer := Other(currentPlayer);
      }
    }

    /** `resetGame` ("New Round"): an empty board, X to move, no result; the
        tallies and the started flag stay. */
    method ResetGame()
      modifies this
      ensures Valid()
      ensures board == EmptyBoard && currentPlayer == X && winner == Undecided
      ensures gameStarted == old(gameStarted)
      ensures xWins == old(xWins) && oWins == old(oWins) && draws == old(draws)
    {
      board := EmptyBoard;
      currentPlayer := X;
      winner := Undecided;
      DecideCorrect(board);
      assert !Full(board) by { assert board[0] == Empty; }
      assert FirstOwner(board, 0) == None by { FirstOwnerIsAnOwner(board, 0); }
    }

    /** `startGame`. */
    method StartGame()
      modifies this
      ensures Valid() && gameStarted
      ensures board == EmptyBoard && currentPlayer == X && winner == Undecided
      ensures xWins == old(xWins) && oWins == old(oWins) && draws == old(draws)
    {
      gameStarted := true;
      ResetGame();
    }

    /** The "Reset All" button: not started, all tallies zero, a new round. */
    method ResetAll()
      modifies this
      ensures Valid() && !gameStarted
      ensures board == EmptyBoard && currentPlayer == X && winner == Undecided
      ensures xWins == 0 && oWins == 0 && draws == 0
    {
      gameStarted := false;
      xWins, oWins, draws := 0, 0, 0;
      ResetGame();
    }
  }
}
