/** The snake game on a 20 x 20 board, one `MoveSnake` per timer tick. */
module Snake {
  import opened Common

  datatype Pos = Pos(x: int, y: int)
  datatype Direction = Up | Down | Left | Right
  /** The keys the handler looks at; every other key is `OtherKey`. */
  datatype Key = ArrowUp | ArrowDown | ArrowLeft | ArrowRight | OtherKey

  const GridSize := 20
  const StartPos := Pos(10, 10)
  const StartFood := Pos(15, 15)

  predicate OnBoard(p: Pos) {
    0 <= p.x < GridSize && 0 <= p.y < GridSize
  }

  function Opposite(d: Direction): Direction {
    match d
    case Up => Down
    case Down => Up
    case Left => Right
    case Right => Left
  }

  /** The head one cell further in direction d: y grows downwards, x to the right. */
  function Step(p: Pos, d: Direction): (q: Pos)
    ensures Abs(q.x - p.x) + Abs(q.y - p.y) == 1
    ensures q.y < p.y <==> d == Up
    ensures q.y > p.y <==> d == Down
    ensures q.x < p.x <==> d == Left
    ensures q.x > p.x <==> d == Right
  {
    match d
    case Up => Pos(p.x, p.y - 1)
    case Down => Pos(p.x, p.y + 1)
    case Left => Pos(p.x - 1, p.y)
    case Right => Pos(p.x + 1, p.y)
  }

  /** The direction the key asks for, if it is an arrow key. */
  function Requested(k: Key): Option<Direction> {
    match k
    case ArrowUp => Some(Up)
    case ArrowDown => Some(Down)
    case ArrowLeft => Some(Left)
    case ArrowRight => Some(Right)
    case OtherKey => None
  }

  /** The direction guard of the key handler: an arrow key turns the snake
      unless it asks for the exact reverse of the current direction. */
  function Steer(current: Direction, k: Key): (d: Direction)
    ensures d != Opposite(current)
    ensures Requested(k).Some? && Requested(k).value != Opposite(current) ==> d == Requested(k).value
    ensures Requested(k).None? || Requested(k).value == Opposite(current) ==> d == current
  {
    match k
    case ArrowUp => if current != Down then Up else current
    case ArrowDown => if current != Up then Down else current
    case ArrowLeft => if current != Right then Left else current
    case ArrowRight => if current != Left then Right else current
    case OtherKey => current
  }

  /** `generateFood`'s retry loop over the random draws: the first draw that is
      not a snake segment. The draws are the values of
      `Math.floor(Math.random() * gridSize)`, hence on the board; when every one
      of them lands on the snake there is no result. */
  method GenerateFood(snake: seq<Pos>, draws: seq<Pos>) returns (food: Option<Pos>)
    requires forall i :: 0 <= i < |draws| ==> OnBoard(draws[i])
    ensures food.Some? ==> OnBoard(food.value) && food.value !in snake
    ensures food.Some? ==> exists i :: 0 <= i < |draws| && food.value == draws[i] &&
                                      (forall j :: 0 <= j < i ==> draws[j] in snake)
    ensures food.None? <==> forall i :: 0 <= i < |draws| ==> draws[i] in snake
  {
    var i := 0;
    while i < |draws|
      invariant 0 <= i <= |draws|
      invariant forall j :: 0 <= j < i ==> draws[j] in snake
    {
      var candidate := draws[i];
      if candidate !in snake {
        return Some(candidate);
      }
      i := i + 1;
    }
    return None;
  }

  class SnakeGame {
    /** Head first. */
    var snake: seq<Pos>
    var food: Pos
    var direction: Direction
    var gameStarted: bool
    var gameOver: bool
    var score: nat

    /** The snake is a non-empty list of distinct board cells, the food is on
        the board, and during a game the score is ten points per segment grown. */
    ghost predicate Valid()
      reads this
    {
      |snake| >= 1 && NoDuplicates(snake) &&
      (forall i :: 0 <= i < |snake| ==> OnBoard(snake[i])) &&
      OnBoard(food) &&
      (gameStarted ==> score == 10 * (|snake| - 1))
    }

    constructor ()
      ensures Valid()
      ensures snake == [StartPos] && food == StartFood && direction == Right
      ensures !gameStarted && !gameOver && score == 0
    {
      snake := [StartPos];
      food := StartFood;
      direction := Right;
      gameStarted, gameOver := false, false;
      score := 0;
    }

    /** One tick of `moveSnake`. Before start or after game over nothing
        happens. The new head is one step from the old one; off the board or on
        a segment the game ends with the snake as it was. Otherwise the head is
        prepended; on the food the snake grows by one, the score gains 10 and is
        reported, and new food is drawn off the snake (kept where it was if no
        draw is free); elsewhere the tail is dropped. */
    method MoveSnake(draws: seq<Pos>) returns (reported: Option<int>)
      requires Valid()
      requires forall i :: 0 <= i < |draws| ==> OnBoard(draws[i])
      modifies this
      ensures Valid()
      ensures direction == old(direction) && gameStarted == old(gameStarted)
      ensures !old(gameStarted) || old(gameOver) ==>
        snake == old(snake) && food == old(food) && score == old(score) && gameOver == old(gameOver) && reported == None
      ensures old(gameStarted) && !old(gameOver) ==>
        var head := Step(old(snake[0]), old(direction));
        (!OnBoard(head) || head in old(snake) ==>
          gameOver && snake == old(snake) && food == old(food) && score == old(score) && reported == None) &&
        (OnBoard(head) && head !in old(snake) && head == old(food) ==>
          !gameOver && snake == [head] + old(snake) && score == old(score) + 10 && reported == Some(score) &&
          ((exists i :: 0 <= i < |draws| && draws[i] !in snake) ==>
            food !in snake && exists i :: 0 <= i < |draws| && food == draws[i] &&
                                        (forall j :: 0 <= j < i ==> draws[j] in snake)) &&
          ((forall i :: 0 <= i < |draws| ==> draws[i] in snake) ==> food == old(food))) &&
        (OnBoard(head) && head !in old(snake) && head != old(food) ==>
          !gameOver && snake == [head] + old(snake)[..|old(snake)| - 1] && food == old(food) &&
          score == old(score) && reported == None)
    {
      reported := None;
      if !gameStarted || gameOver {
        return;
      }
      var head := Step(snake[0], direction);
      if !OnBoard(head) || head in snake {
        gameOver := true;
        return;
      }
      var newSnake := [head] + snake;
      assert NoDuplicates(newSnake) by {
        forall i, j | 0 <= i < j < |newSnake| ensures newSnake[i] != newSnake[j] {
          if i == 0 {
            assert newSnake[j] == snake[j - 1];
          } else {
            assert newSnake[i] == snake[i - 1] && newSnake[j] == snake[j - 1];
          }
        }
      }
      if head == food {
        score := score + 10;
        reported := Some(score);
        var next := GenerateFood(newSnake, draws);
        if next.Some? {
          food := next.value;
        }
        snake := newSnake;
      } else {
        snake := newSnake[..|newSnake| - 1];
        assert snake == [head] + old(snake)[..|old(snake)| - 1];
      }
    }

    /** `handleKeyPress`: ignored unless a game is running, otherwise the
        direction guard of `Steer`. */
    method HandleKeyPress(k: Key)
      requires Valid()
      modifies this
      ensures Valid()
      ensures snake == old(snake) && food == old(food) && score == old(score)
      ensures gameStarted == old(gameStarted) && gameOver == old(gameOver)
      ensures direction != Opposite(old(direction))
      ensures direction == if old(gameStarted) && !old(gameOver) then Steer(old(direction), k) else old(direction)
    {
      if !gameStarted || gameOver {
        return;
      }
      direction := Steer(direction, k);
    }

    /** `startGame`: the one-segment snake at the centre heading right, food at
        (15, 15), score 0, running. */
    method StartGame()
      modifies this
      ensures Valid()
      ensures snake == [StartPos] && food == StartFood && direction == Right
      ensures gameStarted && !gameOver && score == 0
    {
      snake := [StartPos];
      food := StartFood;
      direction := Right;
      gameStarted := true;
      gameOver := false;
      score := 0;
    }

    /** `resetGame`: stopped, not over, score 0; snake, food and direction stay. */
    method ResetGame()
      requires Valid()
      modifies this
      ensures Valid()
      ensures snake == old(snake) && food == old(food) && direction == old(direction)
      ensures !gameStarted && !gameOver && score == 0
    {
      gameStarted := false;
      gameOver := false;
      score := 0;
    }
  }
}
