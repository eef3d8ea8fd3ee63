/** The pure model of a colour-flood board: the palette, grids as values, the
    4-connected region of a cell, the repaint a flood fill performs, and what a
    one-ply suggestion has to return. The imperative engine in module Game is
    proved against these definitions. */
module Flood {

  /** The palette, COLORS in Game.py. */
  datatype Color = Red | Green | Blue | Yellow | Purple

  /** The palette in its declared order: the order the suggestion tries colours in. */
  const Colors: seq<Color> := [Red, Green, Blue, Yellow, Purple]

  /** Position of a colour in Colors. */
  function Rank(c: Color): (k: nat)
    ensures k < |Colors| && Colors[k] == c
  {
    match c
    case Red => 0
    case Green => 1
    case Blue => 2
    case Yellow => 3
    case Purple => 4
  }

  datatype Option<T> = None | Some(value: T)

  /** GRID_SIZE: the side of the square board. */
  const N: nat := 10

  /** A position (x, y): the row index, then the column index. */
  type Cell = (int, int)

  const Origin: Cell := (0, 0)

  /** A board as a value, row by row. */
  type Grid = seq<seq<Color>>

  predicate WellFormed(g: Grid)
  {
    |g| == N && forall i :: 0 <= i < |g| ==> |g[i]| == N
  }

  predicate InBounds(c: Cell)
  {
    0 <= c.0 < N && 0 <= c.1 < N
  }

  function At(g: Grid, c: Cell): Color
    requires WellFormed(g) && InBounds(c)
  {
    g[c.0][c.1]
  }

  /** The four cells a traversal enqueues after (x, y), in the order it enqueues them. */
  function Neighbours(c: Cell): seq<Cell>
  {
    [(c.0 - 1, c.1), (c.0 + 1, c.1), (c.0, c.1 - 1), (c.0, c.1 + 1)]
  }

  /** Every cell of the board. */
  ghost const AllCells: set<Cell> := set i, j | 0 <= i < N && 0 <= j < N :: (i, j)

  /** p walks through in-bounds cells of colour t, each step to a 4-neighbour. */
  ghost predicate IsPath(g: Grid, t: Color, p: seq<Cell>)
    requires WellFormed(g)
  {
    && |p| > 0
    && (forall k :: 0 <= k < |p| ==> InBounds(p[k]) && At(g, p[k]) == t)
    && (forall k :: 0 <= k < |p| - 1 ==> p[k + 1] in Neighbours(p[k]))
  }

  ghost predicate Connected(g: Grid, t: Color, s: Cell, c: Cell)
    requires WellFormed(g)
  {
    exists p :: IsPath(g, t, p) && p[0] == s && p[|p| - 1] == c
  }

  /** The cells 4-connected to s through cells of colour t (empty when s itself
      is off the board or not of colour t). */
  ghost function Region(g: Grid, t: Color, s: Cell): set<Cell>
    requires WellFormed(g)
  {
    set c | c in AllCells && Connected(g, t, s, c)
  }

  /** The anchor region: the region of (0, 0) in its own colour. */
  ghost function AnchorRegion(g: Grid): set<Cell>
    requires WellFormed(g)
  {
    Region(g, At(g, Origin), Origin)
  }

  /** The board after flood-filling from s: the region of s in colour t is
      repainted r, every other cell keeps its colour. */
  ghost function Fill(g: Grid, t: Color, r: Color, s: Cell): (f: Grid)
    requires WellFormed(g)
    ensures WellFormed(f)
  {
    seq(N, i requires 0 <= i < N =>
      seq(N, j requires 0 <= j < N =>
        if (i, j) in Region(g, t, s) then r else g[i][j]))
  }

  /** The board g with the cells of S given colour r. */
  ghost function Paint(g: Grid, S: set<Cell>, r: Color): (f: Grid)
    requires WellFormed(g)
    ensures WellFormed(f)
  {
    seq(N, i requires 0 <= i < N =>
      seq(N, j requires 0 <= j < N =>
        if (i, j) in S then r else g[i][j]))
  }

  /** A painted cell has colour r, any other cell keeps its colour. */
  lemma PaintAt(g: Grid, S: set<Cell>, r: Color, c: Cell)
    requires WellFormed(g) && InBounds(c)
    ensures At(Paint(g, S, r), c) == if c in S then r else At(g, c)
  {
  }

  /** Painting one more cell is one point update of the painted board. */
  lemma PaintStep(g: Grid, S: set<Cell>, r: Color, c: Cell)
    requires WellFormed(g) && InBounds(c)
    ensures var p := Paint(g, S, r);
            Paint(g, S + {c}, r) == p[c.0 := p[c.0][c.1 := r]]
  {
    var p := Paint(g, S, r);
    GridExt(Paint(g, S + {c}, r), p[c.0 := p[c.0][c.1 := r]]);
  }

  /** Filling is painting the region. */
  lemma FillIsPaint(g: Grid, t: Color, r: Color, s: Cell)
    requires WellFormed(g)
    ensures Fill(g, t, r, s) == Paint(g, Region(g, t, s), r)
  {
    GridExt(Fill(g, t, r, s), Paint(g, Region(g, t, s), r));
  }

  /** The board after choosing colour c: the anchor region repainted c. */
  ghost function Move(g: Grid, c: Color): Grid
    requires WellFormed(g)
  {
    Fill(g, At(g, Origin), c, Origin)
  }

  /** The game is won when every cell has the colour of (0, 0). */
  predicate IsWon(g: Grid)
    requires WellFormed(g)
  {
    forall i, j :: 0 <= i < N && 0 <= j < N ==> g[i][j] == g[0][0]
  }

  /** The colours that occur on the board. */
  ghost function ColoursOf(g: Grid): set<Color>
    requires WellFormed(g)
  {
    set i, j | 0 <= i < N && 0 <= j < N :: g[i][j]
  }

  /** The connectivity score of choosing c: the size of the anchor region of
      the board after the move. */
  ghost function SimCount(g: Grid, c: Color): nat
    requires WellFormed(g)
  {
    |AnchorRegion(Move(g, c))|
  }

  /** What a one-ply suggestion returns: among the colours other than the
      anchor colour, the first one in palette order whose score is largest,
      provided that score is at least 9; no colour when none reaches 9. */
  ghost predicate IsBestMove(g: Grid, best: Option<Color>)
    requires WellFormed(g)
  {
    var anchor := At(g, Origin);
    match best
    case None =>
      forall c :: c != anchor ==> SimCount(g, c) < 9
    case Some(m) =>
      && m != anchor
      && SimCount(g, m) >= 9
      && (forall c :: c != anchor ==> SimCount(g, c) <= SimCount(g, m))
      && (forall c :: c != anchor && Rank(c) < Rank(m) ==> SimCount(g, c) < SimCount(g, m))
  }

  // ---------------------------------------------------------------------
  // The board's cells

  lemma AllCellsInBounds(c: Cell)
    ensures c in AllCells <==> InBounds(c)
  {
    if InBounds(c) {
      assert c == (c.0, c.1);
    }
  }

  ghost function RowCells(i: int, m: nat): set<Cell>
  {
    set j | 0 <= j < m :: (i, j)
  }

  lemma {:induction false} RowCellsSize(i: int, m: nat)
    ensures |RowCells(i, m)| == m
  {
    if m > 0 {
      RowCellsSize(i, m - 1);
      assert RowCells(i, m) == RowCells(i, m - 1) + {(i, m - 1)};
    }
  }

  ghost function BlockCells(m: nat): set<Cell>
  {
    set i, j | 0 <= i < m && 0 <= j < N :: (i, j)
  }

  lemma {:induction false} BlockCellsSize(m: nat)
    ensures |BlockCells(m)| == m * N
  {
    if m > 0 {
      BlockCellsSize(m - 1);
      RowCellsSize(m - 1, N);
      assert BlockCells(m) == BlockCells(m - 1) + RowCells(m - 1, N);
      assert BlockCells(m - 1) !! RowCells(m - 1, N);
    }
  }

  /** The board has N * N cells. */
  lemma AllCellsSize()
    ensures |AllCells| == N * N
  {
    BlockCellsSize(N);
    assert AllCells == BlockCells(N);
  }

  // ---------------------------------------------------------------------
  // Regions

  lemma RegionMember(g: Grid, t: Color, s: Cell, c: Cell)
    requires WellFormed(g)
    ensures c in Region(g, t, s) <==> InBounds(c) && Connected(g, t, s, c)
  {
    AllCellsInBounds(c);
  }

  /** Every cell of a region has the region's colour, and so has its start. */
  lemma RegionColour(g: Grid, t: Color, s: Cell, c: Cell)
    requires WellFormed(g)
    requires c in Region(g, t, s)
    ensures InBounds(c) && At(g, c) == t
    ensures InBounds(s) && At(g, s) == t
  {
    var p :| IsPath(g, t, p) && p[0] == s && p[|p| - 1] == c;
    assert InBounds(p[|p| - 1]) && InBounds(p[0]);
  }

  /** A start of colour t belongs to its own region. */
  lemma StartInRegion(g: Grid, t: Color, s: Cell)
    requires WellFormed(g)
    requires InBounds(s) && At(g, s) == t
    ensures s in Region(g, t, s)
  {
    assert IsPath(g, t, [s]);
    RegionMember(g, t, s, s);
  }

  /** A region is closed under stepping to a neighbour of its colour. */
  lemma RegionStep(g: Grid, t: Color, s: Cell, c: Cell, n: Cell)
    requires WellFormed(g)
    requires c in Region(g, t, s) && n in Neighbours(c) && InBounds(n) && At(g, n) == t
    ensures n in Region(g, t, s)
  {
    var p :| IsPath(g, t, p) && p[0] == s && p[|p| - 1] == c;
    var q := p + [n];
    assert IsPath(g, t, q) by {
      forall k | 0 <= k < |q| - 1 ensures q[k + 1] in Neighbours(q[k]) {
        if k < |p| - 1 {
          assert q[k] == p[k] && q[k + 1] == p[k + 1];
        }
      }
    }
    assert q[0] == s && q[|q| - 1] == n;
    RegionMember(g, t, s, n);
  }

  lemma {:induction false} PathWithin(g: Grid, t: Color, p: seq<Cell>, S: set<Cell>, k: nat)
    requires WellFormed(g) && IsPath(g, t, p) && k < |p|
    requires p[0] in S
    requires forall c, n :: c in S && n in Neighbours(c) && InBounds(n) && At(g, n) == t ==> n in S
    ensures p[k] in S
  {
    if k > 0 {
      PathWithin(g, t, p, S, k - 1);
      assert p[k] in Neighbours(p[k - 1]);
    }
  }

  /** A set that holds the start (when it has colour t) and is closed under
      stepping to neighbours of colour t contains the whole region. This is
      the completeness argument of every breadth-first traversal below. */
  lemma RegionWithin(g: Grid, t: Color, s: Cell, S: set<Cell>)
    requires WellFormed(g)
    requires InBounds(s) && At(g, s) == t ==> s in S
    requires forall c, n :: c in S && n in Neighbours(c) && InBounds(n) && At(g, n) == t ==> n in S
    ensures Region(g, t, s) <= S
  {
    forall c | c in Region(g, t, s) ensures c in S {
      var p :| IsPath(g, t, p) && p[0] == s && p[|p| - 1] == c;
      PathWithin(g, t, p, S, |p| - 1);
    }
  }

  lemma {:induction false} PathInRegion(g: Grid, t: Color, p: seq<Cell>, k: nat)
    requires WellFormed(g) && IsPath(g, t, p) && k < |p|
    ensures p[k] in Region(g, t, p[0])
  {
    if k == 0 {
      StartInRegion(g, t, p[0]);
    } else {
      PathInRegion(g, t, p, k - 1);
      RegionStep(g, t, p[0], p[k - 1], p[k]);
    }
  }

  /** The anchor region has at least the anchor cell and at most every cell. */
  lemma AnchorRegionSize(g: Grid)
    requires WellFormed(g)
    ensures Origin in AnchorRegion(g)
    ensures 1 <= |AnchorRegion(g)| <= N * N
  {
    StartInRegion(g, At(g, Origin), Origin);
    forall c | c in AnchorRegion(g) ensures c in AllCells {
      RegionMember(g, At(g, Origin), Origin, c);
      AllCellsInBounds(c);
    }
    AllCellsSize();
    SubsetSize(AnchorRegion(g), AllCells);
  }

  lemma {:induction false} SubsetSize<T>(a: set<T>, b: set<T>)
    requires a <= b
    ensures |a| <= |b|
    decreases |b|
  {
    if b != {} {
      var x :| x in b;
      SubsetSize(a - {x}, b - {x});
    }
  }

  // ---------------------------------------------------------------------
  // Breadth-first traversal from s: S holds the cells already handled
  // (repainted or counted), queue the cells still to pop.

  /** Every same-coloured neighbour of a handled cell is handled or queued. */
  ghost predicate Frontier(g: Grid, t: Color, S: set<Cell>, queue: seq<Cell>)
    requires WellFormed(g)
  {
    forall c, n :: c in S && n in Neighbours(c) && InBounds(n) && At(g, n) == t ==> n in S || n in queue
  }

  /** Every queued cell that is on the board with colour t lies in the region of s. */
  ghost predicate QueueInRegion(g: Grid, t: Color, s: Cell, queue: seq<Cell>)
    requires WellFormed(g)
  {
    forall q :: q in queue && InBounds(q) && At(g, q) == t ==> q in Region(g, t, s)
  }

  /** Handling the head of the queue and appending its neighbours keeps the frontier. */
  lemma FrontierVisit(g: Grid, t: Color, S: set<Cell>, queue: seq<Cell>)
    requires WellFormed(g) && queue != [] && Frontier(g, t, S, queue)
    ensures Frontier(g, t, S + {queue[0]}, queue[1..] + Neighbours(queue[0]))
  {
    var q := queue[0];
    var queue' := queue[1..] + Neighbours(q);
    forall c, n | c in S + {q} && n in Neighbours(c) && InBounds(n) && At(g, n) == t
      ensures n in S + {q} || n in queue'
    {
      if c != q && n !in S && n != q {
        assert n in queue;
        assert queue == [q] + queue[1..];
      }
    }
  }

  /** Dropping a head that is handled already, off the board or of another
      colour keeps the frontier. */
  lemma FrontierSkip(g: Grid, t: Color, S: set<Cell>, queue: seq<Cell>)
    requires WellFormed(g) && queue != [] && Frontier(g, t, S, queue)
    requires queue[0] in S || !InBounds(queue[0]) || At(g, queue[0]) != t
    ensures Frontier(g, t, S, queue[1..])
  {
    forall c, n | c in S && n in Neighbours(c) && InBounds(n) && At(g, n) == t
      ensures n in S || n in queue[1..]
    {
      if n !in S {
        assert n in queue;
        assert queue == [queue[0]] + queue[1..];
      }
    }
  }

  /** The neighbours of a region cell that are appended keep the queue inside the region. */
  lemma QueueInRegionVisit(g: Grid, t: Color, s: Cell, queue: seq<Cell>)
    requires WellFormed(g) && queue != [] && QueueInRegion(g, t, s, queue)
    requires InBounds(queue[0]) && At(g, queue[0]) == t
    ensures QueueInRegion(g, t, s, queue[1..] + Neighbours(queue[0]))
  {
    var q := queue[0];
    forall n | n in queue[1..] + Neighbours(q) && InBounds(n) && At(g, n) == t
      ensures n in Region(g, t, s)
    {
      if n in Neighbours(q) {
        RegionStep(g, t, s, q, n);
      }
    }
  }

  /** What a breadth-first traversal from s keeps true: it has handled only
      region cells, it has handled or still queues the start, and the
      frontier of what it has handled is queued. */
  ghost predicate Traversal(g: Grid, t: Color, s: Cell, S: set<Cell>, queue: seq<Cell>)
    requires WellFormed(g)
  {
    && S <= Region(g, t, s)
    && (InBounds(s) && At(g, s) == t ==> s in S || s in queue)
    && QueueInRegion(g, t, s, queue)
    && Frontier(g, t, S, queue)
  }

  lemma TraversalStart(g: Grid, t: Color, s: Cell)
    requires WellFormed(g)
    ensures Traversal(g, t, s, {}, [s])
  {
    if InBounds(s) && At(g, s) == t {
      StartInRegion(g, t, s);
    }
  }

  /** Handling a queued region cell not handled before: one more cell handled,
      fewer region cells left. */
  lemma TraversalVisit(g: Grid, t: Color, s: Cell, S: set<Cell>, queue: seq<Cell>)
    requires WellFormed(g) && queue != [] && Traversal(g, t, s, S, queue)
    requires queue[0] !in S && InBounds(queue[0]) && At(g, queue[0]) == t
    ensures Traversal(g, t, s, S + {queue[0]}, queue[1..] + Neighbours(queue[0]))
    ensures |S + {queue[0]}| == |S| + 1
    ensures Region(g, t, s) - (S + {queue[0]}) < Region(g, t, s) - S
  {
    var q := queue[0];
    FrontierVisit(g, t, S, queue);
    QueueInRegionVisit(g, t, s, queue);
    assert q in Region(g, t, s) - S;
  }

  /** Dropping a head that is handled, off the board or of another colour. */
  lemma TraversalSkip(g: Grid, t: Color, s: Cell, S: set<Cell>, queue: seq<Cell>)
    requires WellFormed(g) && queue != [] && Traversal(g, t, s, S, queue)
    requires queue[0] in S || !InBounds(queue[0]) || At(g, queue[0]) != t
    ensures Traversal(g, t, s, S, queue[1..])
  {
    FrontierSkip(g, t, S, queue);
    if InBounds(s) && At(g, s) == t && s !in S {
      assert queue == [queue[0]] + queue[1..];
    }
  }

  /** When the queue runs empty, the handled cells are the whole region. */
  lemma TraversalDone(g: Grid, t: Color, s: Cell, S: set<Cell>)
    requires WellFormed(g) && Traversal(g, t, s, S, [])
    ensures S == Region(g, t, s)
  {
    RegionWithin(g, t, s, S);
  }

  // ---------------------------------------------------------------------
  // Flood fill

  lemma GridExt(a: Grid, b: Grid)
    requires WellFormed(a) && WellFormed(b)
    requires forall i, j :: 0 <= i < N && 0 <= j < N ==> a[i][j] == b[i][j]
    ensures a == b
  {
    forall i | 0 <= i < N ensures a[i] == b[i] {
      assert forall j :: 0 <= j < N ==> a[i][j] == b[i][j];
    }
  }

  /** Filling with the colour the region already has changes nothing. */
  lemma FillSameColour(g: Grid, t: Color, s: Cell)
    requires WellFormed(g)
    ensures Fill(g, t, t, s) == g
  {
    var f := Fill(g, t, t, s);
    forall i, j | 0 <= i < N && 0 <= j < N ensures f[i][j] == g[i][j] {
      if (i, j) in Region(g, t, s) {
        RegionColour(g, t, s, (i, j));
      }
    }
    GridExt(f, g);
  }

  /** A fill whose start is off the board or not of colour t changes nothing. */
  lemma FillFromOtherColour(g: Grid, t: Color, r: Color, s: Cell)
    requires WellFormed(g) && !(InBounds(s) && At(g, s) == t)
    ensures Fill(g, t, r, s) == g
  {
    RegionWithin(g, t, s, {});
    GridExt(Fill(g, t, r, s), g);
  }

  /** Cell by cell, a fill paints r exactly the cells 4-connected to s through
      colour t; a cell it changes held t before. */
  lemma FillCell(g: Grid, t: Color, r: Color, s: Cell, c: Cell)
    requires WellFormed(g) && InBounds(c)
    ensures At(Fill(g, t, r, s), c) == if Connected(g, t, s, c) then r else At(g, c)
    ensures At(Fill(g, t, r, s), c) != At(g, c) ==> At(g, c) == t && At(Fill(g, t, r, s), c) == r
  {
    RegionMember(g, t, s, c);
    if c in Region(g, t, s) {
      RegionColour(g, t, s, c);
    }
  }

  /** A fill from a start of colour t paints the start. */
  lemma FillPaintsStart(g: Grid, t: Color, r: Color, s: Cell)
    requires WellFormed(g) && InBounds(s) && At(g, s) == t
    ensures At(Fill(g, t, r, s), s) == r
  {
    StartInRegion(g, t, s);
  }

  /** Choosing a colour never shrinks the anchor region: every cell that was
      connected to (0, 0) stays connected to it after the move. */
  lemma MoveNeverShrinksRegion(g: Grid, c: Color)
    requires WellFormed(g)
    ensures AnchorRegion(g) <= AnchorRegion(Move(g, c))
    ensures |AnchorRegion(g)| <= SimCount(g, c)
  {
    var t := At(g, Origin);
    var m := Move(g, c);
    FillPaintsStart(g, t, c, Origin);
    forall x | x in AnchorRegion(g) ensures x in AnchorRegion(m) {
      var p :| IsPath(g, t, p) && p[0] == Origin && p[|p| - 1] == x;
      forall k | 0 <= k < |p| ensures InBounds(p[k]) && At(m, p[k]) == c {
        PathInRegion(g, t, p, k);
      }
      assert IsPath(m, c, p);
      RegionMember(m, c, Origin, x);
      RegionColour(g, t, Origin, x);
    }
    SubsetSize(AnchorRegion(g), AnchorRegion(m));
  }

  // ---------------------------------------------------------------------
  // Winning

  /** Won means exactly one colour is left on the board. */
  lemma WonIffOneColour(g: Grid)
    requires WellFormed(g)
    ensures IsWon(g) <==> |ColoursOf(g)| == 1
  {
    var cs := ColoursOf(g);
    var a := g[0][0];
    assert a in cs;
    if IsWon(g) {
      assert cs == {a};
    } else {
      var i, j :| 0 <= i < N && 0 <= j < N && g[i][j] != a;
      assert g[i][j] in cs;
      SubsetSize({a, g[i][j]}, cs);
    }
  }

  lemma {:induction false} ColumnInRegion(g: Grid, i: nat)
    requires WellFormed(g) && IsWon(g) && i < N
    ensures (i, 0) in AnchorRegion(g)
  {
    if i == 0 {
      StartInRegion(g, g[0][0], Origin);
    } else {
      ColumnInRegion(g, i - 1);
      RegionStep(g, g[0][0], Origin, (i - 1, 0), (i, 0));
    }
  }

  lemma {:induction false} RowInRegion(g: Grid, i: nat, j: nat)
    requires WellFormed(g) && IsWon(g) && i < N && j < N
    ensures (i, j) in AnchorRegion(g)
  {
    if j == 0 {
      ColumnInRegion(g, i);
    } else {
      RowInRegion(g, i, j - 1);
      RegionStep(g, g[0][0], Origin, (i, j - 1), (i, j));
    }
  }

  /** Won means the anchor region covers the whole board. */
  lemma WonIffRegionIsEverything(g: Grid)
    requires WellFormed(g)
    ensures IsWon(g) <==> AnchorRegion(g) == AllCells
  {
    var t := g[0][0];
    if IsWon(g) {
      forall c | c in AllCells ensures c in AnchorRegion(g) {
        AllCellsInBounds(c);
        RowInRegion(g, c.0, c.1);
      }
      forall c | c in AnchorRegion(g) ensures c in AllCells {
        RegionMember(g, t, Origin, c);
        AllCellsInBounds(c);
      }
    } else {
      var i, j :| 0 <= i < N && 0 <= j < N && g[i][j] != t;
      AllCellsInBounds((i, j));
      if (i, j) in AnchorRegion(g) {
        RegionColour(g, t, Origin, (i, j));
      }
    }
  }

  /** On a board of one colour, any other colour floods every cell at once. */
  lemma MoveOnWonBoard(g: Grid, c: Color)
    requires WellFormed(g) && IsWon(g) && c != g[0][0]
    ensures IsWon(Move(g, c)) && Move(g, c)[0][0] == c
  {
    var m := Move(g, c);
    WonIffRegionIsEverything(g);
    forall i, j | 0 <= i < N && 0 <= j < N ensures m[i][j] == c {
      AllCellsInBounds((i, j));
    }
  }

  // ---------------------------------------------------------------------
  // Suggestions

  /** At most one answer meets IsBestMove: the suggestion is determined by
      the board. */
  lemma BestMoveUnique(g: Grid, a: Option<Color>, b: Option<Color>)
    requires WellFormed(g) && IsBestMove(g, a) && IsBestMove(g, b)
    ensures a == b
  {
    if a.Some? && b.Some? {
      assert Rank(a.value) == Rank(b.value);
    }
  }

  /** The score of a candidate, scaled by ten: count - 0.1 * (100 - count)
      becomes 11 * count - 100; no candidate stands for the initial best
      score -1, scaled to -10. */
  ghost function Score(g: Grid, best: Option<Color>): int
    requires WellFormed(g)
  {
    match best
    case None => -10
    case Some(m) => 11 * SimCount(g, m) - 100
  }

  /** IsBestMove restricted to the colours of rank below k. */
  ghost predicate BestAmong(g: Grid, k: nat, best: Option<Color>)
    requires WellFormed(g)
  {
    var anchor := At(g, Origin);
    match best
    case None =>
      forall c :: Rank(c) < k && c != anchor ==> SimCount(g, c) < 9
    case Some(m) =>
      && Rank(m) < k && m != anchor
      && SimCount(g, m) >= 9
      && (forall c :: Rank(c) < k && c != anchor ==> SimCount(g, c) <= SimCount(g, m))
      && (forall c :: Rank(c) < Rank(m) && c != anchor ==> SimCount(g, c) < SimCount(g, m))
  }

  /** Trying the colour of rank k: it replaces the best so far exactly when
      its score is strictly greater; the anchor colour is passed over. */
  lemma BestAmongStep(g: Grid, k: nat, best: Option<Color>)
    requires WellFormed(g) && k < |Colors| && BestAmong(g, k, best)
    ensures Colors[k] == At(g, Origin) ==> BestAmong(g, k + 1, best)
    ensures Colors[k] != At(g, Origin) ==>
              var c := Some(Colors[k]);
              BestAmong(g, k + 1, if Score(g, c) > Score(g, best) then c else best)
  {
    forall c | Rank(c) == k ensures c == Colors[k] { }
  }

  /** Once every colour is tried, the best so far is the suggestion. */
  lemma BestAmongAll(g: Grid, best: Option<Color>)
    requires WellFormed(g) && BestAmong(g, |Colors|, best)
    ensures IsBestMove(g, best)
  {
  }

  /** No two 4-neighbours share a colour. */
  ghost predicate NoEqualNeighbours(g: Grid)
    requires WellFormed(g)
  {
    forall c, n :: InBounds(c) && n in Neighbours(c) && InBounds(n) ==> At(g, c) != At(g, n)
  }

  /** Without equal neighbours the anchor region is the anchor alone, so a
      move repaints (0, 0) and nothing else. */
  lemma MoveWithoutEqualNeighbours(g: Grid, c: Color, x: Cell)
    requires WellFormed(g) && NoEqualNeighbours(g) && InBounds(x) && x != Origin
    ensures At(Move(g, c), x) == At(g, x)
  {
    var t := At(g, Origin);
    forall y, n | y in {Origin} && n in Neighbours(y) && InBounds(n) ensures At(g, n) != t {
    }
    RegionWithin(g, t, Origin, {Origin});
  }

  /** On a board where no two neighbours share a colour every move joins at
      most (1, 0) and (0, 1) to the anchor, so no colour reaches a score of
      9 and the suggestion is "no colour", although every other colour is a
      legal move. */
  lemma NoSuggestionWithoutEqualNeighbours(g: Grid, c: Color)
    requires WellFormed(g) && NoEqualNeighbours(g)
    ensures SimCount(g, c) <= 3
  {
    var m := Move(g, c);
    var a := At(m, Origin);
    var near := {Origin, (1, 0), (0, 1)};
    var S := set x | x in near && (x == Origin || At(m, x) == a);
    forall x, n | x in S && n in Neighbours(x) && InBounds(n) && n !in S
      ensures At(m, n) != a
    {
      if x != Origin {
        MoveWithoutEqualNeighbours(g, c, x);
        MoveWithoutEqualNeighbours(g, c, n);
      }
    }
    RegionWithin(m, a, Origin, S);
    SubsetSize(AnchorRegion(m), S);
    SubsetSize(S, near);
  }

  /** Hence on such a board the suggestion is no colour at all. */
  lemma SuggestionWithoutEqualNeighbours(g: Grid)
    requires WellFormed(g) && NoEqualNeighbours(g)
    ensures IsBestMove(g, None)
  {
    forall c | c != At(g, Origin) ensures SimCount(g, c) < 9 {
      NoSuggestionWithoutEqualNeighbours(g, c);
    }
  }
}
