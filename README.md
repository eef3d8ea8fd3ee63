# Colour flood: the game engine, verified

This project models `ColorFloodGame` from `Game.py`, the engine behind a
10 x 10 colour-flood puzzle. Each cell of the board has one of five palette
colours. A move picks a colour. The region of cells that is 4-connected to the
top-left cell (0, 0) in that cell's colour is repainted with the chosen colour,
and, unless the chosen colour already is the colour of (0, 0), the step counter
goes up by one. The game is won when the whole board has one
colour. A one-ply "AI" suggests the next colour.

The model has three modules.

- `Flood` (`flood.dfy`) holds the pure definitions:
  - boards as values (`Grid`, rows of `Color`);
  - the region of a cell, defined through paths of same-coloured 4-neighbours;
  - `Fill`, the repaint that a flood fill performs, and `Move`, a player's move;
  - `IsWon`, the win condition;
  - `IsBestMove`, what a suggestion must return.

  It also holds the lemmas about these definitions. This includes the
  closure argument that makes every breadth-first traversal complete.
- `Game` (`game.dfy`) is the class `ColorFloodGame`. Its board is a 10 x 10
  `array2<Color>` that the queue-driven flood fill repaints in place. A ghost
  field `Board` holds the same board as a value. Each method is proved against
  the `Flood` definitions:
  - both flood fills and `MakeMove` end in exactly `Fill` or `Move` of the old
    board;
  - `EvaluateGrid` returns the size of the anchor region;
  - `SuggestBestMove` returns exactly the answer `IsBestMove` describes.
- `Gui` (`gui.dfy`) keeps, from the game window, only the guard of its move
  handler. A move is refused once the board is won or 25 steps are used.

The suggestion's score, `count - 0.1 * (100 - count)`, starts from a best score
of -1. The model multiplies both by ten: the score is `11 * count - 100` and the
initial best is `-10`. The comparison is strict, so a colour can be suggested
only when its simulated region has at least 9 cells. When no colour reaches
that, the code returns no suggestion, and the window then reports "No valid
moves available!" (Game.py:206). Yet every colour other than the anchor's is a
legal move. On any board where no two neighbours share a colour, no colour
reaches 9 cells, so the suggestion is always none there
(`Flood.SuggestionWithoutEqualNeighbours`).

## Model

| member | source | states |
|---|---|---|
| Game.ColorFloodGame.constructor | Game.py:12-15 | a new game holds the given 10 x 10 board, with zero steps; the step limit is 25 |
| Game.ColorFloodGame.FloodFillSimulation | Game.py:84-93 | the breadth-first repaint leaves the array equal to `Fill` of the old board: it repaints exactly the cells 4-connected to (x, y) through the target colour, and every other cell is unchanged; the repaint terminates |
| Game.ColorFloodGame.FloodFill | Game.py:17-26 | the same repaint on the game's own board, with `steps` unchanged |
| Game.ColorFloodGame.MakeMove | Game.py:28-33 | choosing the colour (0, 0) already has changes neither the board nor `steps`; any other colour makes the board `Move` of the old board and adds exactly one step; afterwards (0, 0) has the chosen colour |
| Game.ColorFloodGame.IsGameWon | Game.py:35-38 | true iff every cell equals (0, 0), iff exactly one colour is left, iff the anchor region is the whole board; reads and changes nothing else |
| Game.ColorFloodGame.SimulateMove | Game.py:42-46 | returns a fresh array holding `Move` of the given board; the original array is untouched |
| Game.ColorFloodGame.EvaluateGrid | Game.py:48-62 | the visited-set traversal counts exactly the cells of the anchor region, which lies between 1 and 100 |
| Game.ColorFloodGame.SuggestBestMove | Game.py:40-82 | the answer is exactly `IsBestMove`: never the anchor colour; the first colour in palette order with the largest region; that region has at least 9 cells; no colour iff no candidate reaches 9; the game state is left unchanged |
| Gui.MakeMove | Game.py:192-196 | a move on a won game, or with the step limit reached, changes nothing; otherwise it is the game's move: the board becomes `Move` of the old board and the step count rises by one, or by none when the colour is the anchor's own; a game within the step limit stays within it |
| Flood.Rank | Game.py:8 | the palette order: every colour has a position in the palette list, and that position holds the colour |
| Flood.FillSameColour | Game.py:19-20 | filling with the colour the region already has leaves the board unchanged |
| Flood.FillFromOtherColour | Game.py:24 | a fill whose start is off the board or not of the target colour changes nothing |
| Flood.FillCell | Game.py:21-26 | cell by cell, a fill paints exactly the cells connected to the start through the target colour; any cell it changes held the target colour |
| Flood.FillPaintsStart | Game.py:30-32 | a fill from a start of the target colour repaints the start |
| Flood.RegionWithin | Game.py:23-26 | any set that holds the start and is closed under stepping to same-coloured neighbours contains the whole region; this is why the traversal reaches every connected cell |
| Flood.RegionStep | Game.py:24-26 | a region is closed under stepping to an in-bounds neighbour of its colour |
| Flood.RegionColour | Game.py:24 | every cell of a region is on the board and has the region's colour, and so has the start |
| Flood.TraversalVisit | Game.py:24-26 | repainting or visiting the popped cell and enqueuing its neighbours keeps the traversal invariant; one more region cell is handled, so the remaining region shrinks |
| Flood.TraversalSkip | Game.py:24 | dropping a popped cell that is handled, off the board or of another colour keeps the traversal invariant |
| Flood.TraversalDone | Game.py:22 | when the queue is empty the handled cells are exactly the region |
| Flood.AnchorRegionSize | Game.py:48-62 | the anchor region holds (0, 0) and has between 1 and 100 cells |
| Flood.MoveNeverShrinksRegion | Game.py:28-33 | every cell connected to (0, 0) before a move is still connected after it, so the simulated count never falls below the current region |
| Flood.WonIffOneColour | Game.py:35-38 | all cells equal (0, 0) iff exactly one colour occurs on the board |
| Flood.WonIffRegionIsEverything | Game.py:35-38 | all cells equal (0, 0) iff the anchor region covers the whole board |
| Flood.MoveOnWonBoard | Game.py:28-33 | on a won board, a move with another colour repaints every cell and the game stays won |
| Flood.BestMoveUnique | Game.py:64-82 | at most one answer meets `IsBestMove`, so the suggestion is determined by the board |
| Flood.BestAmongStep | Game.py:68-80 | one round of the search: the anchor colour is passed over, and a colour replaces the best so far exactly when its score is strictly greater; this keeps "best among the colours tried" |
| Flood.MoveWithoutEqualNeighbours | Game.py:28-33 | on a board where no two neighbours share a colour, a move repaints only (0, 0) |
| Flood.NoSuggestionWithoutEqualNeighbours | Game.py:48-62 | on such a board every simulated count is at most 3 |
| Flood.SuggestionWithoutEqualNeighbours | Game.py:64-82 | on such a board the suggestion is no colour at all |
| Flood.AllCellsSize | Game.py:7 | the board has exactly 100 cells |

## Left out

- The tkinter window (`ColorFloodGUI`, apart from the move guard): the grid of cell buttons and their recolouring, the colour buttons, the status label, message boxes and `main`. These are presentation and I/O.
- Random initialisation: the constructor takes any 10 x 10 board of palette colours instead of drawing one with `random.choice`.
- Floating point: the suggestion's score is replaced by the integer comparison above. The float score is not exactly a tenth of the integer one (count 8 gives `8 - 9.200000000000001`), but every strict comparison comes out the same. Two different counts differ by at least 1.1 in score, count 8 scores -1.2 < -1, and count 9 scores -0.1 > -1.
- `deque` and `set`: the queue is a sequence popped at the front and extended at the back, and the visited set is a set of cells. Their library internals are not modelled.
- The board in the source is a list of row lists that could in principle share rows. Here it is one `array2`, so rows never alias. The source never shares rows either: the comprehension that builds the board makes a new list for each row (Game.py:13), and the copy in `simulate_move` makes fresh rows as well (Game.py:44).
- The value of the board (`Board`) and the board handed to `FloodFillSimulation`, `SimulateMove` and `EvaluateGrid` are ghost companions of the arrays. They carry the proof and take no part in the computation.
- Colours outside the palette: `make_move` (Game.py:28) accepts any value and would paint it onto the board, but `Color` admits only the five palette colours. Every caller passes a palette colour: a board cell's colour (Game.py:133) or an entry of `COLORS` (Game.py:156).
- `reset_game` is left out, because it only builds a new game.
