/** The match-three engine: a square grid of coloured cells, the two-pass run
    detector, the click / selection / swap state machine and the one-step
    cascade (clear, score, gravity, refill). */
module MatchThree {
  import opened Common

  /** Number of colours; a colour is an integer in [0, Colors). */
  const Colors := 5
  /** The transient colour that marks a cleared cell during a cascade. */
  const Empty := -1

  /** A cell position; the source's string id `${row}-${col}`. */
  datatype Pos = Pos(row: int, col: int)

  datatype Cell = Cell(color: int, row: int, col: int, selected: bool)

  function Id(c: Cell): Pos { Pos(c.row, c.col) }

  /** Side of the grid chosen by the difficulty setting. */
  function GridSize(difficulty: string): (n: nat)
    ensures n == 6 || n == 8 || n == 10
    ensures n == 6 <==> difficulty == "easy"
    ensures n == 8 <==> difficulty == "medium"
  {
    if difficulty == "easy" then 6 else if difficulty == "medium" then 8 else 10
  }

  /** The swap gate: Manhattan distance exactly one. */
  predicate Adjacent(a: Pos, b: Pos) {
    Abs(a.row - b.row) + Abs(a.col - b.col) == 1
  }

  /** Adjacency means one of the four orthogonal neighbours; a cell is never
      adjacent to itself, nor to a diagonal neighbour. */
  lemma AdjacentIsOrthogonalNeighbour(a: Pos, b: Pos)
    ensures Adjacent(a, b) <==>
      b == Pos(a.row - 1, a.col) || b == Pos(a.row + 1, a.col) ||
      b == Pos(a.row, a.col - 1) || b == Pos(a.row, a.col + 1)
    ensures !Adjacent(a, a)
    ensures !Adjacent(a, Pos(a.row + 1, a.col + 1)) && !Adjacent(a, Pos(a.row + 1, a.col - 1))
  {
  }

  // ---------------------------------------------------------------------
  // Run detection on one line (a row or a column read in scan order)
  // ---------------------------------------------------------------------

  /** Three equal values start at index s. */
  ghost predicate Window(line: seq<int>, s: int) {
    0 <= s && s + 2 < |line| && line[s] == line[s + 1] == line[s + 2]
  }

  /** Index i lies in some run of three or more equal values. */
  ghost predicate InRun(line: seq<int>, i: int) {
    Window(line, i - 2) || Window(line, i - 1) || Window(line, i)
  }

  /** [lo, hi) is a maximal run of equal values: it cannot be extended. */
  ghost predicate MaximalRun(line: seq<int>, lo: int, hi: int) {
    0 <= lo < hi <= |line| &&
    (forall k :: lo <= k < hi ==> line[k] == line[lo]) &&
    (lo == 0 || line[lo - 1] != line[lo]) &&
    (hi == |line| || line[hi] != line[lo])
  }

  /** Soundness and completeness of InRun against maximal runs: an index of a
      maximal run is in a run of three iff that maximal run has length >= 3. */
  lemma InRunIffLongRun(line: seq<int>, lo: int, hi: int, i: int)
    requires MaximalRun(line, lo, hi) && lo <= i < hi
    ensures InRun(line, i) <==> hi - lo >= 3
  {
    if hi - lo >= 3 {
      var s := if i + 2 < hi then i else hi - 3;
      assert line[s] == line[lo] && line[s + 1] == line[lo] && line[s + 2] == line[lo];
      assert Window(line, s);
    }
  }

  /** The indices i, i+1, ..., hi-1. */
  function Span(lo: int, hi: int): (r: seq<int>)
    requires lo <= hi
    ensures |r| == hi - lo && forall k :: 0 <= k < |r| ==> r[k] == lo + k
    ensures forall i :: i in r <==> lo <= i < hi
    decreases hi - lo
  {
    if lo == hi then [] else [lo] + Span(lo + 1, hi)
  }

  /** One pass of the detector over a line: a running `count` of equal values
      ending at `col`, flushed when the value changes and at the end. */
  method ScanLine(line: seq<int>) returns (idx: seq<int>)
    ensures forall i :: i in idx <==> 0 <= i < |line| && InRun(line, i)
    ensures forall a, b :: 0 <= a < b < |idx| ==> idx[a] < idx[b]
  {
    idx := [];
    if |line| == 0 {
      return;
    }
    var n := |line|;
    var count := 1;
    var current := line[0];
    var col := 1;
    while col < n
      invariant 1 <= col <= n
      invariant 1 <= count <= col
      invariant line[col - count] == current
      invariant forall k :: col - count <= k < col ==> line[k] == current
      invariant col - count == 0 || line[col - count - 1] != current
      invariant forall i :: i in idx <==> 0 <= i < col - count && InRun(line, i)
      invariant forall a :: 0 <= a < |idx| ==> idx[a] < col - count
      invariant forall a, b :: 0 <= a < b < |idx| ==> idx[a] < idx[b]
    {
      if line[col] == current {
        count := count + 1;
      } else {
        forall i | col - count <= i < col ensures InRun(line, i) <==> count >= 3 {
          InRunIffLongRun(line, col - count, col, i);
        }
        if count >= 3 {
          idx := idx + Span(col - count, col);
        }
        count := 1;
        current := line[col];
      }
      col := col + 1;
    }
    forall i | n - count <= i < n ensures InRun(line, i) <==> count >= 3 {
      InRunIffLongRun(line, n - count, n, i);
    }
    if count >= 3 {
      idx := idx + Span(n - count, n);
    }
  }

  // ---------------------------------------------------------------------
  // The detector over a grid
  // ---------------------------------------------------------------------

  function RowColors(g: array2<Cell>, r: int): (line: seq<int>)
    requires 0 <= r < g.Length0
    reads g
    ensures |line| == g.Length1
    ensures forall c :: 0 <= c < g.Length1 ==> line[c] == g[r, c].color
  {
    seq(g.Length1, c requires 0 <= c < g.Length1 reads g => g[r, c].color)
  }

  function ColColors(g: array2<Cell>, c: int): (line: seq<int>)
    requires 0 <= c < g.Length1
    reads g
    ensures |line| == g.Length0
    ensures forall r :: 0 <= r < g.Length0 ==> line[r] == g[r, c].color
  {
    seq(g.Length0, r requires 0 <= r < g.Length0 reads g => g[r, c].color)
  }

  ghost predicate InGridOf(g: array2<Cell>, p: Pos) {
    0 <= p.row < g.Length0 && 0 <= p.col < g.Length1
  }

  ghost predicate RowMatched(g: array2<Cell>, p: Pos)
    reads g
  {
    InGridOf(g, p) && InRun(RowColors(g, p.row), p.col)
  }

  ghost predicate ColMatched(g: array2<Cell>, p: Pos)
    reads g
  {
    InGridOf(g, p) && InRun(ColColors(g, p.col), p.row)
  }

  /** A position the detector must report: in a horizontal or a vertical run of
      three or more equal colours. */
  ghost predicate Matched(g: array2<Cell>, p: Pos)
    reads g
  {
    RowMatched(g, p) || ColMatched(g, p)
  }

  function RowPositions(r: int, idx: seq<int>): (ps: seq<Pos>)
    ensures |ps| == |idx| && forall k :: 0 <= k < |idx| ==> ps[k] == Pos(r, idx[k])
    ensures forall p :: p in ps <==> p.row == r && p.col in idx
  {
    assert forall k :: 0 <= k < |idx| ==> seq(|idx|, k requires 0 <= k < |idx| => Pos(r, idx[k]))[k] == Pos(r, idx[k]);
    seq(|idx|, k requires 0 <= k < |idx| => Pos(r, idx[k]))
  }

  function ColPositions(c: int, idx: seq<int>): (ps: seq<Pos>)
    ensures |ps| == |idx| && forall k :: 0 <= k < |idx| ==> ps[k] == Pos(idx[k], c)
    ensures forall p :: p in ps <==> p.col == c && p.row in idx
  {
    assert forall k :: 0 <= k < |idx| ==> seq(|idx|, k requires 0 <= k < |idx| => Pos(idx[k], c))[k] == Pos(idx[k], c);
    seq(|idx|, k requires 0 <= k < |idx| => Pos(idx[k], c))
  }

  /** `findMatches`: a horizontal pass over every row, a vertical pass over
      every column, then the union without duplicates. */
  method FindMatches(g: array2<Cell>) returns (matches: seq<Pos>)
    ensures NoDuplicates(matches)
    ensures forall p :: p in matches <==> Matched(g, p)
  {
    var found: seq<Pos> := [];
    var row := 0;
    while row < g.Length0
      invariant 0 <= row <= g.Length0
      invariant forall p :: p in found <==> p.row < row && RowMatched(g, p)
    {
      var idx := ScanLine(RowColors(g, row));
      found := found + RowPositions(row, idx);
      row := row + 1;
    }
    var col := 0;
    while col < g.Length1
      invariant 0 <= col <= g.Length1
      invariant forall p :: p in found <==> RowMatched(g, p) || (p.col < col && ColMatched(g, p))
    {
      var idx := ScanLine(ColColors(g, col));
      found := found + ColPositions(col, idx);
      col := col + 1;
    }
    matches := Dedup(found);
  }

  // ---------------------------------------------------------------------
  // The cascade: clear, gravity, refill
  // ---------------------------------------------------------------------

  /** Random colours for a fresh grid or a refill: an n x n matrix over [0, Colors). */
  predicate ColorMatrix(m: seq<seq<int>>, n: int) {
    |m| == n && forall r :: 0 <= r < n ==> |m[r]| == n && forall c :: 0 <= c < n ==> 0 <= m[r][c] < Colors
  }

  /** Column c read from the bottom row upwards (the order in which the cascade
      collects it). */
  ghost function ColumnUp(g: array2<Cell>, c: int): (cells: seq<Cell>)
    requires 0 <= c < g.Length1
    reads g
    ensures |cells| == g.Length0
    ensures forall k :: 0 <= k < g.Length0 ==> cells[k] == g[g.Length0 - 1 - k, c]
  {
    seq(g.Length0, k requires 0 <= k < g.Length0 reads g => g[g.Length0 - 1 - k, c])
  }

  /** The cells of a column that are not marked Empty, in order. */
  function Kept(cells: seq<Cell>): seq<Cell>
  {
    if cells == [] then []
    else
      var last := cells[|cells| - 1];
      Kept(cells[..|cells| - 1]) + (if last.color != Empty then [last] else [])
  }

  /** The cells whose position is not cleared, in their original order. */
  function Survivors(cells: seq<Cell>, cleared: seq<Pos>): seq<Cell>
  {
    if cells == [] then []
    else
      var last := cells[|cells| - 1];
      Survivors(cells[..|cells| - 1], cleared) + (if Id(last) !in cleared then [last] else [])
  }

  /** A survivor is exactly a cell of the column whose position was not cleared,
      and there are no more survivors than cells. */
  lemma {:induction false} SurvivorsMembership(cells: seq<Cell>, cleared: seq<Pos>)
    ensures |Survivors(cells, cleared)| <= |cells|
    ensures forall x :: x in Survivors(cells, cleared) <==> x in cells && Id(x) !in cleared
  {
    if cells != [] {
      var init := cells[..|cells| - 1];
      SurvivorsMembership(init, cleared);
      assert cells == init + [cells[|cells| - 1]];
    }
  }

  /** Marking the cleared positions Empty and then keeping the non-Empty cells
      yields exactly the survivors. */
  lemma {:induction false} KeptAfterMarking(before: seq<Cell>, marked: seq<Cell>, cleared: seq<Pos>)
    requires |marked| == |before|
    requires forall k :: 0 <= k < |before| ==> before[k].color != Empty
    requires forall k :: 0 <= k < |before| ==>
      marked[k] == if Id(before[k]) in cleared then before[k].(color := Empty) else before[k]
    ensures Kept(marked) == Survivors(before, cleared)
  {
    if before != [] {
      KeptAfterMarking(before[..|before| - 1], marked[..|marked| - 1], cleared);
    }
  }

  /** The cell that ends up at row r of column c, the k-th row counted from the
      bottom: the k-th kept cell moved to (r, c), or a fresh cell of the refill
      colour once the kept cells are used up. */
  function Settled(kept: seq<Cell>, k: int, r: int, c: int, refill: seq<seq<int>>): Cell
    requires 0 <= r < |refill| && 0 <= c < |refill[r]|
  {
    if 0 <= k < |kept| then kept[k].(row := r, col := c) else Cell(refill[r][c], r, c, false)
  }

  /** After the cascade every cell sits at its own position and holds a real
      colour: survivors keep theirs, fresh cells take the refill colour. */
  lemma SettledWellFormed(kept: seq<Cell>, k: int, r: int, c: int, refill: seq<seq<int>>, n: int)
    requires ColorMatrix(refill, n) && 0 <= r < n && 0 <= c < n
    requires forall x :: x in kept ==> 0 <= x.color < Colors
    ensures var x := Settled(kept, k, r, c, refill);
      x.row == r && x.col == c && 0 <= x.color < Colors && x.color != Empty
  {
    if 0 <= k < |kept| {
      assert kept[k] in kept;
    }
  }

  function Min(a: int, b: int): int { if a < b then a else b }

  // ---------------------------------------------------------------------
  // The game controller
  // ---------------------------------------------------------------------

  class MatchThreeGame {
    const size: nat
    var grid: array2<Cell>
    var score: int
    /** The selection list; at most one entry survives a click. */
    var selectedCells: seq<Pos>
    /** The input lock, held while a cascade is scheduled. */
    var isAnimating: bool
    var gameStarted: bool
    /** The match list captured by the scheduled 300 ms cascade timer. */
    var pending: seq<Pos>

    predicate InGrid(p: Pos) {
      0 <= p.row < size && 0 <= p.col < size
    }

    ghost predicate WellFormedGrid()
      reads this, grid
    {
      grid.Length0 == size && grid.Length1 == size &&
      forall r, c :: 0 <= r < size && 0 <= c < size ==>
        grid[r, c].row == r && grid[r, c].col == c && 0 <= grid[r, c].color < Colors
    }

    ghost predicate Valid()
      reads this, grid
    {
      WellFormedGrid() &&
      |selectedCells| <= 1 && (forall i :: 0 <= i < |selectedCells| ==> InGrid(selectedCells[i])) &&
      NoDuplicates(pending) && (forall p :: p in pending ==> InGrid(p)) &&
      (isAnimating ==> pending != []) &&
      score >= 0
    }

    /** Mounting the component: not started, score 0, and the grid already
        generated by the mount effect. */
    constructor (difficulty: string, colors: seq<seq<int>>)
      requires ColorMatrix(colors, GridSize(difficulty))
      ensures Valid() && fresh(grid)
      ensures size == GridSize(difficulty)
      ensures !gameStarted && !isAnimating && score == 0 && selectedCells == [] && pending == []
      ensures forall r, c :: 0 <= r < size && 0 <= c < size ==> grid[r, c] == Cell(colors[r][c], r, c, false)
    {
      size := GridSize(difficulty);
      grid := new Cell[0, 0];
      score := 0;
      selectedCells := [];
      isAnimating := false;
      gameStarted := false;
      pending := [];
      new;
      InitializeGrid(colors);
    }

    /** `initializeGrid`: a fresh grid whose cell (r, c) has colour colors[r][c]
        (the random draw), position (r, c) and no selection flag. */
    method InitializeGrid(colors: seq<seq<int>>)
      requires ColorMatrix(colors, size)
      modifies this
      ensures fresh(grid) && WellFormedGrid()
      ensures forall r, c :: 0 <= r < size && 0 <= c < size ==> grid[r, c] == Cell(colors[r][c], r, c, false)
      ensures score == old(score) && selectedCells == old(selectedCells) && pending == old(pending)
      ensures isAnimating == old(isAnimating) && gameStarted == old(gameStarted)
    {
      var g := new Cell[size, size];
      var row := 0;
      while row < size
        modifies g
        invariant 0 <= row <= size
        invariant forall r, c :: 0 <= r < row && 0 <= c < size ==> g[r, c] == Cell(colors[r][c], r, c, false)
      {
        var col := 0;
        while col < size
          modifies g
          invariant 0 <= col <= size
          invariant forall r, c :: 0 <= r < row && 0 <= c < size ==> g[r, c] == Cell(colors[r][c], r, c, false)
          invariant forall c :: 0 <= c < col ==> g[row, c] == Cell(colors[row][c], row, c, false)
        {
          g[row, col] := Cell(colors[row][col], row, col, false);
          col := col + 1;
        }
        row := row + 1;
      }
      grid := g;
    }

    /** `startGame`. */
    method StartGame(colors: seq<seq<int>>)
      requires Valid() && ColorMatrix(colors, size)
      modifies this
      ensures Valid() && fresh(grid)
      ensures gameStarted && score == 0
      ensures forall r, c :: 0 <= r < size && 0 <= c < size ==> grid[r, c] == Cell(colors[r][c], r, c, false)
      ensures selectedCells == old(selectedCells) && isAnimating == old(isAnimating) && pending == old(pending)
    {
      gameStarted := true;
      score := 0;
      InitializeGrid(colors);
    }

    /** `resetGame`, followed by the effect that regenerates the grid once the
        game is no longer started. */
    method ResetGame(colors: seq<seq<int>>)
      requires Valid() && ColorMatrix(colors, size)
      modifies this
      ensures Valid() && fresh(grid)
      ensures !gameStarted && score == 0 && selectedCells == []
      ensures forall r, c :: 0 <= r < size && 0 <= c < size ==> grid[r, c] == Cell(colors[r][c], r, c, false)
      ensures isAnimating == old(isAnimating) && pending == old(pending)
    {
      gameStarted := false;
      score := 0;
      selectedCells := [];
      InitializeGrid(colors);
    }

    /** Sets every cell's `selected` flag to whether it is the target. */
    method MarkSelected(target: Option<Pos>)
      requires WellFormedGrid()
      modifies grid
      ensures WellFormedGrid()
      ensures forall r, c :: 0 <= r < size && 0 <= c < size ==>
        grid[r, c] == old(grid[r, c]).(selected := target == Some(Pos(r, c)))
    {
      var row := 0;
      while row < size
        invariant 0 <= row <= size
        invariant forall r, c :: 0 <= r < size && 0 <= c < size ==>
          grid[r, c] == if r < row then old(grid[r, c]).(selected := target == Some(Pos(r, c))) else old(grid[r, c])
      {
        var col := 0;
        while col < size
          invariant 0 <= col <= size
          invariant forall r, c :: 0 <= r < size && 0 <= c < size ==>
            grid[r, c] == if r < row || (r == row && c < col) then old(grid[r, c]).(selected := target == Some(Pos(r, c))) else old(grid[r, c])
        {
          grid[row, col] := grid[row, col].(selected := target == Some(Pos(row, col)));
          col := col + 1;
        }
        row := row + 1;
      }
    }

    /** The swap of a second, adjacent click: the two colours are exchanged and
        every other field of every cell is left alone. */
    method SwapColors(a: Pos, b: Pos)
      requires WellFormedGrid() && InGrid(a) && InGrid(b)
      modifies grid
      ensures WellFormedGrid()
      ensures grid[a.row, a.col] == old(grid[a.row, a.col]).(color := old(grid[b.row, b.col].color))
      ensures grid[b.row, b.col] == old(grid[b.row, b.col]).(color := old(grid[a.row, a.col].color))
      ensures forall r, c :: 0 <= r < size && 0 <= c < size && Pos(r, c) != a && Pos(r, c) != b ==>
        grid[r, c] == old(grid[r, c])
    {
      var temp := grid[a.row, a.col].color;
      grid[a.row, a.col] := grid[a.row, a.col].(color := grid[b.row, b.col].color);
      grid[b.row, b.col] := grid[b.row, b.col].(color := temp);
    }

    /** `removeMatches`: an empty list changes nothing; otherwise the score grows
        by 10 per matched cell, the lock is taken, the list is handed to the
        cascade timer and the new score is reported. */
    method RemoveMatches(matches: seq<Pos>) returns (reported: Option<int>)
      requires Valid()
      requires NoDuplicates(matches) && forall p :: p in matches ==> InGrid(p)
      modifies this
      ensures Valid() && grid == old(grid) && gameStarted == old(gameStarted)
      ensures selectedCells == old(selectedCells)
      ensures matches == [] ==>
        score == old(score) && isAnimating == old(isAnimating) && pending == old(pending) && reported == None
      ensures matches != [] ==>
        score == old(score) + 10 * |matches| && isAnimating && pending == matches && reported == Some(score)
    {
      if |matches| == 0 {
        return None;
      }
      isAnimating := true;
      score := score + |matches| * 10;
      pending := matches;
      reported := Some(score);
    }

    /** First half of a column's cascade: the cells that are not Empty, read
        from the bottom row upwards (the source's `column.push` loop). */
    method CollectColumn(c: int) returns (column: seq<Cell>)
      requires grid.Length0 == size && grid.Length1 == size && 0 <= c < size
      ensures column == Kept(ColumnUp(grid, c))
    {
      ghost var up := ColumnUp(grid, c);
      column := [];
      var row := size - 1;
      while row >= 0
        invariant -1 <= row < size
        invariant column == Kept(up[..size - 1 - row])
      {
        assert up[..size - row] == up[..size - 1 - row] + [grid[row, c]];
        assert up[..size - row][..size - 1 - row] == up[..size - 1 - row];
        if grid[row, c].color != Empty {
          column := column + [grid[row, c]];
        }
        row := row - 1;
      }
      assert up[..size] == up;
    }

    /** Second half: from the bottom row up, each row takes the next collected
        cell (moved to its new position) or, once they are used up, a fresh
        cell with the refill colour. */
    method FillColumn(c: int, kept: seq<Cell>, refill: seq<seq<int>>)
      requires grid.Length0 == size && grid.Length1 == size && 0 <= c < size
      requires ColorMatrix(refill, size)
      modifies grid
      ensures forall r, c' :: 0 <= r < size && 0 <= c' < size && c' != c ==> grid[r, c'] == old(grid[r, c'])
      ensures forall r :: 0 <= r < size ==> grid[r, c] == Settled(kept, size - 1 - r, r, c, refill)
    {
      var column := kept;
      var row := size - 1;
      while row >= 0
        invariant -1 <= row < size
        invariant column == kept[Min(size - 1 - row, |kept|)..]
        invariant forall r :: row < r < size ==> grid[r, c] == Settled(kept, size - 1 - r, r, c, refill)
        invariant forall r, c' :: 0 <= r < size && 0 <= c' < size && c' != c ==> grid[r, c'] == old(grid[r, c'])
      {
        if |column| > 0 {
          grid[row, c] := column[0].(row := row, col := c);
          column := column[1..];
        } else {
          grid[row, c] := Cell(refill[row][c], row, c, false);
        }
        row := row - 1;
      }
    }
  
    /** Step 1 of the cascade: every cleared position is marked Empty. */
    method ClearMatched(cleared: seq<Pos>)
      requires grid.Length0 == size && grid.Length1 == size
      requires forall p :: p in cleared ==> InGrid(p)
      modifies grid
      ensures forall r, c :: 0 <= r < size && 0 <= c < size ==>
        grid[r, c] == if Pos(r, c) in cleared then old(grid[r, c]).(color := Empty) else old(grid[r, c])
    {
      var i := 0;
      while i < |cleared|
        invariant 0 <= i <= |cleared|
        invariant forall r, c :: 0 <= r < size && 0 <= c < size ==>
          grid[r, c] == if Pos(r, c) in cleared[..i] then old(grid[r, c]).(color := Empty) else old(grid[r, c])
      {
        var p := cleared[i];
        assert p in cleared;
        assert cleared[..i + 1] == cleared[..i] + [p];
        grid[p.row, p.col] := grid[p.row, p.col].(color := Empty);
        i := i + 1;
      }
      assert cleared[..i] == cleared;
    }

    /** Steps 2 and 3: each column is compacted downwards and refilled. */
    method DropAndRefill(refill: seq<seq<int>>)
      requires grid.Length0 == size && grid.Length1 == size
      requires ColorMatrix(refill, size)
      modifies grid
      ensures forall r, c :: 0 <= r < size && 0 <= c < size ==>
        grid[r, c] == Settled(Kept(old(ColumnUp(grid, c))), size - 1 - r, r, c, refill)
    {
      ghost var before := seq(size, c requires 0 <= c < grid.Length1 reads this, grid => ColumnUp(grid, c));
      var col := 0;
      while col < size
        invariant 0 <= col <= size
        invariant forall r, c :: 0 <= r < size && col <= c < size ==> grid[r, c] == old(grid[r, c])
        invariant forall r, c :: 0 <= r < size && 0 <= c < col ==>
          grid[r, c] == Settled(Kept(before[c]), size - 1 - r, r, c, refill)
      {
        var column := CollectColumn(col);
        assert ColumnUp(grid, col) == before[col];
        FillColumn(col, column, refill);
        col := col + 1;
      }
    }

    /** The 300 ms cascade timer firing: the pending positions are cleared, every
        column is compacted downwards with its survivors in their bottom-to-top
        order, the rows above are refilled from refill (the random draws), and
        the lock is released. Without a scheduled cascade nothing changes but the
        lock, which stays released. */
    method Resolve(refill: seq<seq<int>>)
      requires Valid() && ColorMatrix(refill, size)
      modifies this, grid
      ensures Valid() && grid == old(grid) && !isAnimating
      ensures score == old(score) && gameStarted == old(gameStarted) && selectedCells == old(selectedCells)
      ensures !old(isAnimating) ==> unchanged(grid) && pending == old(pending)
      ensures old(isAnimating) ==> pending == []
      ensures old(isAnimating) ==>
        forall r, c :: 0 <= r < size && 0 <= c < size ==>
          grid[r, c] == Settled(Survivors(old(ColumnUp(grid, c)), old(pending)), size - 1 - r, r, c, refill)
    {
      if !isAnimating {
        return;
      }
      Cascade(pending, refill);
      isAnimating := false;
      pending := [];
    }

    /** Steps 1 to 3 on the grid: the cleared positions are marked empty, then
        every column is compacted downwards and refilled; the grid stays well
        formed. */
    method Cascade(cleared: seq<Pos>, refill: seq<seq<int>>)
      requires WellFormedGrid() && ColorMatrix(refill, size)
      requires forall p :: p in cleared ==> InGrid(p)
      modifies grid
      ensures WellFormedGrid()
      ensures forall r, c :: 0 <= r < size && 0 <= c < size ==>
        grid[r, c] == Settled(Survivors(old(ColumnUp(grid, c)), cleared), size - 1 - r, r, c, refill)
    {
      ghost var before := seq(size, c requires 0 <= c < grid.Length1 reads this, grid => ColumnUp(grid, c));
      ClearMatched(cleared);
      ghost var marked := seq(size, c requires 0 <= c < grid.Length1 reads this, grid => ColumnUp(grid, c));
      forall c | 0 <= c < size ensures Kept(marked[c]) == Survivors(before[c], cleared) {
        KeptAfterMarking(before[c], marked[c], cleared);
      }
      DropAndRefill(refill);
      forall r, c | 0 <= r < size && 0 <= c < size
        ensures grid[r, c] == Settled(Survivors(before[c], cleared), size - 1 - r, r, c, refill)
      {
        assert grid[r, c] == Settled(Kept(marked[c]), size - 1 - r, r, c, refill);
      }
      forall r, c | 0 <= r < size && 0 <= c < size
        ensures grid[r, c].row == r && grid[r, c].col == c && 0 <= grid[r, c].color < Colors
      {
        SurvivorsMembership(before[c], cleared);
        forall x | x in Survivors(before[c], cleared) ensures 0 <= x.color < Colors {
          var k :| 0 <= k < size && before[c][k] == x;
        }
        SettledWellFormed(Survivors(before[c], cleared), size - 1 - r, r, c, refill, size);
      }
    }

    /** `handleCellClick`. Locked or not started: nothing happens. First click:
        the cell becomes the selection and the only flagged cell. Second click on
        an adjacent cell: the two colours are exchanged (the swap is kept even if
        nothing matches), every flag is cleared, and any match on the new grid is
        handed to removeMatches. Second click elsewhere (the same cell included):
        the selection list is emptied and the grid, flags included, is left as it
        is. */
    method HandleCellClick(p: Pos) returns (reported: Option<int>)
      requires Valid() && InGrid(p)
      modifies this, grid
      ensures Valid() && grid == old(grid) && gameStarted == old(gameStarted)
      ensures old(isAnimating) || !old(gameStarted) ==>
        unchanged(grid) && selectedCells == old(selectedCells) && score == old(score) &&
        isAnimating == old(isAnimating) && pending == old(pending) && reported == None
      ensures !old(isAnimating) && old(gameStarted) && old(selectedCells) == [] ==>
        selectedCells == [p] && score == old(score) && !isAnimating && pending == old(pending) && reported == None &&
        forall r, c :: 0 <= r < size && 0 <= c < size ==> grid[r, c] == old(grid[r, c]).(selected := Pos(r, c) == p)
      ensures !old(isAnimating) && old(gameStarted) && |old(selectedCells)| == 1 && !Adjacent(old(selectedCells[0]), p) ==>
        selectedCells == [] && unchanged(grid) && score == old(score) && !isAnimating && pending == old(pending) &&
        reported == None
      ensures !old(isAnimating) && old(gameStarted) && |old(selectedCells)| == 1 && Adjacent(old(selectedCells[0]), p) ==>
        var q := old(selectedCells[0]);
        selectedCells == [] &&
        (forall r, c :: 0 <= r < size && 0 <= c < size ==>
          grid[r, c] == Cell(if Pos(r, c) == p then old(grid[q.row, q.col].color)
                             else if Pos(r, c) == q then old(grid[p.row, p.col].color)
                             else old(grid[r, c].color), r, c, false)) &&
        (isAnimating ==>
          (forall x :: x in pending <==> Matched(grid, x)) &&
          score == old(score) + 10 * |pending| && reported == Some(score)) &&
        (!isAnimating ==>
          (forall x :: !Matched(grid, x)) && score == old(score) && pending == old(pending) && reported == None)
    {
      reported := None;
      if isAnimating || !gameStarted {
        return;
      }
      if |selectedCells| == 0 {
        selectedCells := [p];
        MarkSelected(Some(p));
        return;
      }
      var q := selectedCells[0];
      if Adjacent(q, p) {
        SwapColors(p, q);
        MarkSelected(None);
        // Detection reads colours only, so it may run after the flags are cleared.
        var matches := FindMatches(grid);
        reported := RemoveMatches(matches);
      }
      selectedCells := [];
    }

    /** The manual "Check Matches" button (shown only once started, disabled
        while locked): any runs on the current grid go to removeMatches. */
    method CheckMatches() returns (reported: Option<int>)
      requires Valid()
      modifies this
      ensures Valid() && grid == old(grid) && gameStarted == old(gameStarted) && selectedCells == old(selectedCells)
      ensures old(isAnimating) || !old(gameStarted) ==>
        score == old(score) && isAnimating == old(isAnimating) && pending == old(pending) && reported == None
      ensures !old(isAnimating) && old(gameStarted) ==>
        (isAnimating ==>
          (forall x :: x in pending <==> Matched(grid, x)) &&
          score == old(score) + 10 * |pending| && reported == Some(score)) &&
        (!isAnimating ==>
          (forall x :: !Matched(grid, x)) && score == old(score) && pending == old(pending) && reported == None)
    {
      reported := None;
      if isAnimating || !gameStarted {
        return;
      }
      var matches := FindMatches(grid);
      reported := RemoveMatches(matches);
    }

    /** One tick of the 1000 ms auto-scan interval, which is registered only
        while the game is started and unlocked; it runs the same check. */
    method AutoScanTick() returns (reported: Option<int>)
      requires Valid()
      modifies this
      ensures Valid() && grid == old(grid) && gameStarted == old(gameStarted) && selectedCells == old(selectedCells)
      ensures old(isAnimating) || !old(gameStarted) ==>
        score == old(score) && isAnimating == old(isAnimating) && pending == old(pending) && reported == None
      ensures !old(isAnimating) && old(gameStarted) ==>
        (isAnimating ==>
          (forall x :: x in pending <==> Matched(grid, x)) &&
          score == old(score) + 10 * |pending| && reported == Some(score)) &&
        (!isAnimating ==>
          (forall x :: !Matched(grid, x)) && score == old(score) && pending == old(pending) && reported == None)
    {
      reported := None;
      if !gameStarted || isAnimating {
        return;
      }
      reported := CheckMatches();
    }
  }
}
