/** The sliding-number puzzle: a side x side board holding the numbers
    1 .. side*side - 1 and one blank; a tile next to the blank slides into it. */
module NumberPuzzle {
  import opened Common

  datatype Slot = Blank | Tile(number: int)

  /** Side of the board chosen by the difficulty setting. */
  function GridSize(difficulty: string): (n: nat)
    ensures n == 3 || n == 4 || n == 5
    ensures n == 3 <==> difficulty == "easy"
    ensures n == 4 <==> difficulty == "medium"
  {
    if difficulty == "easy" then 3 else if difficulty == "medium" then 4 else 5
  }

  /** The tiles lo, lo+1, ..., hi-1. */
  function Numbers(lo: int, hi: int): (r: seq<Slot>)
    requires lo <= hi
    ensures |r| == hi - lo
    decreases hi - lo
  {
    if lo == hi then [] else [Tile(lo)] + Numbers(lo + 1, hi)
  }

  lemma {:induction false} NumbersAt(lo: int, hi: int, k: int)
    requires lo <= hi && 0 <= k < hi - lo
    ensures Numbers(lo, hi)[k] == Tile(lo + k)
    decreases hi - lo
  {
    if k > 0 {
      NumbersAt(lo + 1, hi, k - 1);
    }
  }

  lemma {:induction false} NumbersHaveNoBlank(lo: int, hi: int)
    requires lo <= hi
    ensures Blank !in Numbers(lo, hi)
    decreases hi - lo
  {
    if lo < hi {
      NumbersHaveNoBlank(lo + 1, hi);
    }
  }

  /** The board before shuffling: 1 .. total-1, then the blank. */
  function Ordered(total: nat): (r: seq<Slot>)
    requires total >= 1
    ensures |r| == total
  {
    Numbers(1, total) + [Blank]
  }

  lemma OrderedAt(total: nat, i: int)
    requires total >= 1 && 0 <= i < total
    ensures Ordered(total)[i] == if i < total - 1 then Tile(i + 1) else Blank
  {
    if i < total - 1 {
      NumbersAt(1, total, i);
    }
  }

  /** The solved board, as `isSolved` tests it. */
  ghost predicate Solved(tiles: seq<Slot>, total: nat) {
    |tiles| == total && total >= 1 &&
    (forall i :: 0 <= i < total - 1 ==> tiles[i] == Tile(i + 1)) &&
    tiles[total - 1] == Blank
  }

  /** The solved board is exactly the unshuffled board. */
  lemma SolvedIffOrdered(tiles: seq<Slot>, total: nat)
    requires total >= 1
    ensures Solved(tiles, total) <==> tiles == Ordered(total)
  {
    forall i | 0 <= i < total {
      OrderedAt(total, i);
    }
  }

  /** A board reachable from the unshuffled one by exchanges. */
  ghost predicate Permuted(tiles: seq<Slot>, total: nat) {
    total >= 1 && |tiles| == total && multiset(tiles) == multiset(Ordered(total))
  }

  /** A permuted board holds exactly one blank. */
  lemma OneBlank(tiles: seq<Slot>, total: nat)
    requires Permuted(tiles, total)
    ensures Blank in tiles
    ensures forall i, j :: 0 <= i < j < |tiles| && tiles[i] == Blank ==> tiles[j] != Blank
  {
    NumbersHaveNoBlank(1, total);
    assert multiset(Ordered(total))[Blank] == 1 by {
      assert multiset(Ordered(total)) == multiset(Numbers(1, total)) + multiset{Blank};
    }
    assert Blank in multiset(tiles);
    forall i, j | 0 <= i < j < |tiles| && tiles[i] == Blank ensures tiles[j] != Blank {
      if tiles[j] == Blank {
        TwoOccurrences(tiles, i, j);
      }
    }
  }

  /** `tiles.findIndex(tile => tile === null)`. */
  function IndexOfBlank(tiles: seq<Slot>): (r: int)
    ensures -1 <= r < |tiles|
    ensures r == -1 <==> Blank !in tiles
    ensures r >= 0 ==> tiles[r] == Blank && forall j :: 0 <= j < r ==> tiles[j] != Blank
  {
    if tiles == [] then -1
    else if tiles[0] == Blank then 0
    else
      var r := IndexOfBlank(tiles[1..]);
      if r == -1 then -1 else r + 1
  }

  /** `canMove`: slot index and the blank's slot are orthogonal neighbours in
      the row/column layout of a board of the given side. */
  predicate CanMove(index: int, emptyIndex: int, side: int)
    requires side >= 1 && index >= 0 && emptyIndex >= 0
  {
    var row := index / side;
    var col := index % side;
    var emptyRow := emptyIndex / side;
    var emptyCol := emptyIndex % side;
    (Abs(row - emptyRow) == 1 && col == emptyCol) || (Abs(col - emptyCol) == 1 && row == emptyRow)
  }

  lemma {:induction false} MulAtLeast(a: int, b: int)
    requires a >= 1 && b >= 1
    ensures a * b >= a
    decreases b
  {
    if b > 1 {
      MulAtLeast(a, b - 1);
      assert a * b == a * (b - 1) + a;
    }
  }

  /** Row and column of a slot are unique. */
  lemma DivModUnique(x: int, side: int, q: int, r: int)
    requires side >= 1 && 0 <= r < side && x == side * q + r
    ensures x / side == q && x % side == r
  {
    var q', r' := x / side, x % side;
    assert x == side * q' + r';
    assert side * (q - q') == r' - r;
    if q > q' {
      MulAtLeast(side, q - q');
    } else if q < q' {
      MulAtLeast(side, q' - q);
    }
  }

  /** The blank's neighbours are the slots one row up or down and, within the
      same row, one column left or right: a move never wraps from the end of one
      row to the start of the next. */
  lemma CanMoveIffNeighbour(i: int, e: int, side: int)
    requires side >= 1 && i >= 0 && e >= 0
    ensures CanMove(i, e, side) <==>
      e == i + side || e == i - side ||
      (e == i + 1 && e % side != 0) || (e == i - 1 && i % side != 0)
  {
    if CanMove(i, e, side) {
      CanMoveIsNeighbour(i, e, side);
    }
    if e == i + side || e == i - side || (e == i + 1 && e % side != 0) || (e == i - 1 && i % side != 0) {
      NeighbourCanMove(i, e, side);
    }
  }

  /** The movable slots are neighbours in the flat slot order. */
  lemma CanMoveIsNeighbour(i: int, e: int, side: int)
    requires side >= 1 && i >= 0 && e >= 0 && CanMove(i, e, side)
    ensures e == i + side || e == i - side ||
      (e == i + 1 && e % side != 0) || (e == i - 1 && i % side != 0)
  {
    var row, col, er, ec := i / side, i % side, e / side, e % side;
    assert i == side * row + col && e == side * er + ec;
    if row - er == 1 {
      assert side * row == side * er + side;
    } else if er - row == 1 {
      assert side * er == side * row + side;
    }
  }

  /** The neighbours in the flat slot order that do not wrap are movable. */
  lemma NeighbourCanMove(i: int, e: int, side: int)
    requires side >= 1 && i >= 0 && e >= 0
    requires e == i + side || e == i - side ||
      (e == i + 1 && e % side != 0) || (e == i - 1 && i % side != 0)
    ensures CanMove(i, e, side)
  {
    var row, col, er, ec := i / side, i % side, e / side, e % side;
    assert i == side * row + col && e == side * er + ec;
    if e == i + side {
      DivModUnique(e, side, row + 1, col);
    } else if e == i - side {
      DivModUnique(i, side, er + 1, ec);
    } else if e == i + 1 {
      if col + 1 == side {
        DivModUnique(e, side, row + 1, 0);
      } else {
        DivModUnique(e, side, row, col + 1);
      }
    } else {
      if ec + 1 == side {
        DivModUnique(i, side, er + 1, 0);
      } else {
        DivModUnique(i, side, er, ec + 1);
      }
    }
  }

  /** The score reported on solving: a time bonus and a move bonus, each at
      least 10. `elapsedMs` is `Date.now() - startTime`; `movesBefore` is the
      move count before the winning move, the value the click handler reads. */
  function FinalScore(elapsedMs: int, movesBefore: int): (score: int)
    ensures score >= 20
    ensures elapsedMs >= 0 && movesBefore >= 0 ==> score <= 200
    ensures 0 <= elapsedMs < 90000 && 0 <= movesBefore <= 90 ==>
      score == 200 - elapsedMs / 1000 - movesBefore
  {
    var timeBonus := Max(100 - elapsedMs / 1000, 10);
    var moveBonus := Max(100 - movesBefore, 10);
    timeBonus + moveBonus
  }

  function Max(a: int, b: int): int { if a < b then b else a }

  /** Exchanging two slots keeps the board a permutation. */
  lemma SwapKeepsPermuted(tiles: seq<Slot>, total: nat, i: int, j: int)
    requires Permuted(tiles, total) && 0 <= i < total && 0 <= j < total
    ensures Permuted(SwapAt(tiles, i, j), total)
  {
    assert SwapAt(tiles, i, j) == tiles[i := tiles[j]][j := tiles[i]];
  }

  /** `isSolved`: the loop over the first total-1 slots, then the last slot. */
  method IsSolved(tiles: seq<Slot>, total: nat) returns (b: bool)
    requires |tiles| == total && total >= 1
    ensures b <==> Solved(tiles, total)
  {
    var i := 0;
    while i < total - 1
      invariant 0 <= i <= total - 1
      invariant forall k :: 0 <= k < i ==> tiles[k] == Tile(k + 1)
    {
      if tiles[i] != Tile(i + 1) {
        return false;
      }
      i := i + 1;
    }
    return tiles[total - 1] == Blank;
  }

  class NumberPuzzleGame {
    const side: nat
    const totalTiles: nat
    var tiles: seq<Slot>
    var moves: nat
    var gameStarted: bool
    var gameWon: bool
    /** `Date.now()` at the last initialisation, in milliseconds. */
    var startTime: int

    ghost predicate Valid()
      reads this
    {
      side >= 1 && totalTiles == side * side && Permuted(tiles, totalTiles)
    }

    constructor (difficulty: string, picks: seq<int>, now: int)
      requires |picks| == GridSize(difficulty) * GridSize(difficulty)
      requires forall i :: 0 < i < |picks| ==> 0 <= picks[i] <= i
      ensures Valid() && !gameStarted && !gameWon && moves == 0 && startTime == now
      ensures side == GridSize(difficulty)
    {
      side := GridSize(difficulty);
      totalTiles := GridSize(difficulty) * GridSize(difficulty);
      tiles := [];
      moves := 0;
      gameStarted := false;
      gameWon := false;
      startTime := now;
      new;
      InitializePuzzle(picks, now);
    }

    /** `initializePuzzle`: the board 1 .. total-1 followed by the blank,
        shuffled with the random picks; moves cleared, not won, clock restarted. */
    method InitializePuzzle(picks: seq<int>, now: int)
      requires side >= 1 && totalTiles == side * side
      requires |picks| == totalTiles
      requires forall i :: 0 < i < |picks| ==> 0 <= picks[i] <= i
      modifies this
      ensures Valid()
      ensures tiles == Shuffled(Ordered(totalTiles), picks, totalTiles - 1)
      ensures moves == 0 && !gameWon && startTime == now && gameStarted == old(gameStarted)
    {
      var numbers := new Slot[totalTiles](i => if i < totalTiles - 1 then Tile(i + 1) else Blank);
      forall i | 0 <= i < totalTiles ensures numbers[i] == Ordered(totalTiles)[i] {
        OrderedAt(totalTiles, i);
      }
      assert numbers[..] == Ordered(totalTiles);
      Shuffle(numbers, picks);
      tiles := numbers[..];
      moves := 0;
      gameWon := false;
      startTime := now;
    }

    /** `handleTileClick`: before start or after winning nothing happens. A tile
        next to the blank trades places with it and the move count grows by one;
        when that solves the board the game is won and the score is reported.
        Any other click changes nothing. */
    method HandleTileClick(index: int, now: int) returns (reported: Option<int>)
      requires Valid() && 0 <= index < totalTiles
      modifies this
      ensures Valid() && gameStarted == old(gameStarted) && startTime == old(startTime)
      ensures !old(gameStarted) || old(gameWon) ==>
        tiles == old(tiles) && moves == old(moves) && gameWon == old(gameWon) && reported == None
      ensures old(gameStarted) && !old(gameWon) ==>
        var e := IndexOfBlank(old(tiles));
        e >= 0 &&
        (CanMove(index, e, side) ==>
          tiles == SwapAt(old(tiles), index, e) && moves == old(moves) + 1 &&
          (gameWon <==> Solved(tiles, totalTiles)) &&
          reported == (if gameWon then Some(FinalScore(now - startTime, old(moves))) else None)) &&
        (!CanMove(index, e, side) ==>
          tiles == old(tiles) && moves == old(moves) && !gameWon && reported == None)
    {
      reported := None;
      if !gameStarted || gameWon {
        return;
      }
      OneBlank(tiles, totalTiles);
      var emptyIndex := IndexOfBlank(tiles);
      if CanMove(index, emptyIndex, side) {
        SwapKeepsPermuted(tiles, totalTiles, index, emptyIndex);
        var newTiles := SwapAt(tiles, index, emptyIndex);
        var movesBefore := moves;
        tiles := newTiles;
        moves := moves + 1;
        var solved := IsSolved(tiles, totalTiles);
        if solved {
          gameWon := true;
          reported := Some(FinalScore(now - startTime, movesBefore));
        }
      }
    }

    /** `startGame`. */
    method StartGame(picks: seq<int>, now: int)
      requires Valid() && |picks| == totalTiles
      requires forall i :: 0 < i < |picks| ==> 0 <= picks[i] <= i
      modifies this
      ensures Valid() && gameStarted && moves == 0 && !gameWon && startTime == now
      ensures tiles == Shuffled(Ordered(totalTiles), picks, totalTiles - 1)
    {
      gameStarted := true;
      InitializePuzzle(picks, now);
    }

    /** `resetGame`. */
    method ResetGame(picks: seq<int>, now: int)
      requires Valid() && |picks| == totalTiles
      requires forall i :: 0 < i < |picks| ==> 0 <= picks[i] <= i
      modifies this
      ensures Valid() && !gameStarted && moves == 0 && !gameWon && startTime == now
      ensures tiles == Shuffled(Ordered(totalTiles), picks, totalTiles - 1)
    {
      gameStarted := false;
      InitializePuzzle(picks, now);
    }
  }
}
