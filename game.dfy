/** The game-state engine: the board as a 10 x 10 array repainted in place by
    a queue-driven breadth-first flood fill, the move counter, the win test
    and the one-ply move suggestion. */
module Game {
  import opened Flood

  /** The array a holds the board cells. */
  ghost predicate Holds(a: array2<Color>, cells: Grid)
    reads a
  {
    && a.Length0 == N && a.Length1 == N && WellFormed(cells)
    && forall i, j :: 0 <= i < N && 0 <= j < N ==> a[i, j] == cells[i][j]
  }

  class ColorFloodGame {
    const grid: array2<Color>
    /** The board grid holds, as a value. */
    ghost var Board: Grid
    var steps: nat
    const MaxSteps: nat := 25

    ghost predicate Valid()
      reads this, grid
    {
      Holds(grid, Board)
    }

    /** A new game on the given board, with no moves made yet. */
    constructor (cells: Grid)
      requires WellFormed(cells)
      ensures Valid() && fresh(grid)
      ensures Board == cells && steps == 0
    {
      grid := new Color[N, N]((i, j) requires 0 <= i < N && 0 <= j < N => cells[i][j]);
      Board := cells;
      steps := 0;
    }

    /** Repaints, in g, the cells 4-connected to (x, y) through cells of
        colour target: a queue starts with (x, y); a popped cell that is on
        the board and still has colour target is repainted and its four
        neighbours are appended; any other popped cell is dropped. */
    method FloodFillSimulation(x: int, y: int, target: Color, replacement: Color, g: array2<Color>,
                               ghost cells: Grid)
      requires Holds(g, cells)
      modifies g
      ensures Holds(g, Fill(cells, target, replacement, (x, y)))
    {
      ghost var s := (x, y);
      if target == replacement {
        FillSameColour(cells, target, s);
        return;
      }
      ghost var painted: set<Cell> := {};
      var queue: seq<Cell> := [(x, y)];
      TraversalStart(cells, target, s);
      while queue != []
        invariant Traversal(cells, target, s, painted, queue)
        invariant Holds(g, Paint(cells, painted, replacement))
        decreases Region(cells, target, s) - painted, |queue|
      {
        var c := queue[0];
        var (cx, cy) := c;
        if 0 <= cx < N && 0 <= cy < N {
          PaintAt(cells, painted, replacement, c);
        }
        if 0 <= cx < N && 0 <= cy < N && g[cx, cy] == target {
          TraversalVisit(cells, target, s, painted, queue);
          PaintStep(cells, painted, replacement, c);
          SetCell(g, Paint(cells, painted, replacement), cx, cy, replacement);
          painted := painted + {c};
          queue := queue[1..] + Neighbours(c);
        } else {
          TraversalSkip(cells, target, s, painted, queue);
          queue := queue[1..];
        }
      }
      TraversalDone(cells, target, s, painted);
      FillIsPaint(cells, target, replacement, s);
    }

    /** Writes one cell of g, keeping g in step with its board value. */
    static method SetCell(g: array2<Color>, ghost cells: Grid, x: int, y: int, v: Color)
      requires Holds(g, cells) && 0 <= x < N && 0 <= y < N
      modifies g
      ensures Holds(g, cells[x := cells[x][y := v]])
    {
      g[x, y] := v;
    }

    /** flood_fill: the same repaint on the game's own board. */
    method FloodFill(x: int, y: int, target: Color, replacement: Color)
      requires Valid()
      modifies this, grid
      ensures Valid() && steps == old(steps)
      ensures Board == Fill(old(Board), target, replacement, (x, y))
    {
      FloodFillSimulation(x, y, target, replacement, grid, Board);
      Board := Fill(Board, target, replacement, (x, y));
    }

    /** Choosing the colour (0, 0) already has changes nothing; any other
        colour repaints the anchor region and counts one step. */
    method MakeMove(color: Color)
      requires Valid()
      modifies this, grid
      ensures Valid() && Board == Move(old(Board), color) && At(Board, Origin) == color
      ensures color == old(At(Board, Origin)) ==> Board == old(Board) && steps == old(steps)
      ensures color != old(At(Board, Origin)) ==> steps == old(steps) + 1
    {
      var targetColor := grid[0, 0];
      if targetColor != color {
        FillPaintsStart(Board, targetColor, color, Origin);
        FloodFill(0, 0, targetColor, color);
        steps := steps + 1;
      } else {
        FillSameColour(Board, targetColor, Origin);
      }
    }

    /** is_game_won: every cell has the colour of (0, 0). */
    function IsGameWon(): (won: bool)
      reads this, grid
      requires Valid()
      ensures won <==> IsWon(Board)
      ensures won <==> |ColoursOf(Board)| == 1
      ensures won <==> AnchorRegion(Board) == AllCells
    {
      WonIffOneColour(Board);
      WonIffRegionIsEverything(Board);
      forall i, j | 0 <= i < N && 0 <= j < N :: grid[i, j] == grid[0, 0]
    }

    /** simulate_move: floods a fresh copy of a board, leaving the board alone. */
    method SimulateMove(g: array2<Color>, ghost cells: Grid, color: Color) returns (newGrid: array2<Color>)
      requires Holds(g, cells)
      ensures fresh(newGrid) && Holds(newGrid, Move(cells, color))
    {
      newGrid := new Color[N, N]((i, j) requires 0 <= i < N && 0 <= j < N reads g => g[i, j]);
      FloodFillSimulation(0, 0, newGrid[0, 0], color, newGrid, cells);
    }

    /** evaluate_grid: counts, with its own breadth-first search over a
        visited set, the cells connected to (0, 0) in its colour. */
    method EvaluateGrid(g: array2<Color>, ghost cells: Grid) returns (connectedCount: nat)
      requires Holds(g, cells)
      ensures connectedCount == |AnchorRegion(cells)|
      ensures 1 <= connectedCount <= N * N
    {
      var firstColor := g[0, 0];
      var visited: set<Cell> := {};
      var queue: seq<Cell> := [(0, 0)];
      connectedCount := 0;
      TraversalStart(cells, firstColor, Origin);
      while queue != []
        invariant Traversal(cells, firstColor, Origin, visited, queue)
        invariant connectedCount == |visited|
        decreases Region(cells, firstColor, Origin) - visited, |queue|
      {
        var (x, y) := queue[0];
        if (x, y) !in visited && 0 <= x < N && 0 <= y < N && g[x, y] == firstColor {
          TraversalVisit(cells, firstColor, Origin, visited, queue);
          visited := visited + {(x, y)};
          connectedCount := connectedCount + 1;
          queue := queue[1..] + Neighbours((x, y));
        } else {
          TraversalSkip(cells, firstColor, Origin, visited, queue);
          queue := queue[1..];
        }
      }
      TraversalDone(cells, firstColor, Origin, visited);
      AnchorRegionSize(cells);
    }

    /** suggest_best_move: tries every colour but the anchor colour, in
        palette order, on a copy of the board; the score of a colour is
        count - 0.1 * (100 - count), here scaled by ten to 11 * count - 100,
        and the best score starts at -1, scaled to -10. A colour replaces the
        best one only when its score is strictly greater. */
    method SuggestBestMove() returns (bestMove: Option<Color>)
      requires Valid()
      ensures IsBestMove(Board, bestMove)
    {
      bestMove := None;
      var bestScore := -10;
      for k := 0 to |Colors|
        invariant Valid()
        invariant BestAmong(Board, k, bestMove)
        invariant bestScore == Score(Board, bestMove)
      {
        var color := Colors[k];
        BestAmongStep(Board, k, bestMove);
        if color == grid[0, 0] {
          continue;
        }
        var simulatedGrid := SimulateMove(grid, Board, color);
        var count := EvaluateGrid(simulatedGrid, Move(Board, color));
        var score := 11 * (count as int) - 100;
        if score > bestScore {
          bestScore := score;
          bestMove := Some(color);
        }
      }
      BestAmongAll(Board, bestMove);
    }
  }
}
