/** The 3x3 board: a log of distinct in-grid cells never holds more than nine moves. */
module Board {
  import opened Types
  import opened StateHolder
  import opened Grid
  import opened Game

  /** The nine cells of the board. */
  const GridCells: set<Cell> := {
    Cell(0, 0), Cell(1, 0), Cell(2, 0),
    Cell(0, 1), Cell(1, 1), Cell(2, 1),
    Cell(0, 2), Cell(1, 2), Cell(2, 2)
  }

  /** `GridCells` holds exactly the cells satisfying `InGrid`. */
  lemma GridCellsAreTheBoard(c: Cell)
    ensures c in GridCells <==> InGrid(c)
  {
  }

  /** The board has nine cells. */
  lemma GridCellsCount()
    ensures |GridCells| == 9
  {
  }

  /** Every recorded move lies on the board. */
  predicate OnBoard(moves: seq<Move>) {
    forall i :: 0 <= i < |moves| ==> InGrid(moves[i].cell)
  }

  /** The set of cells the log occupies. */
  function CellsOf(moves: seq<Move>): (cells: set<Cell>)
    ensures forall c :: c in cells <==> exists i :: 0 <= i < |moves| && moves[i].cell == c
  {
    if moves == [] then {} else {moves[0].cell} + CellsOf(moves[1..])
  }

  /** With no cell taken twice, there are as many occupied cells as moves. */
  lemma {:induction false} DistinctCellsCount(moves: seq<Move>)
    requires DistinctCells(moves)
    ensures |CellsOf(moves)| == |moves|
  {
    if moves != [] {
      var rest := moves[1..];
      assert DistinctCells(rest) by {
        forall i, j | 0 <= i < j < |rest| ensures rest[i].cell != rest[j].cell {
          assert rest[i] == moves[i + 1] && rest[j] == moves[j + 1];
        }
      }
      DistinctCellsCount(rest);
      assert moves[0].cell !in CellsOf(rest) by {
        forall i | 0 <= i < |rest| ensures rest[i].cell != moves[0].cell {
          assert rest[i] == moves[i + 1];
        }
      }
    }
  }

  /** A subset has no more elements than its superset. */
  lemma {:induction false} SubsetCount(a: set<Cell>, b: set<Cell>)
    requires a <= b
    ensures |a| <= |b|
    decreases |a|
  {
    if a != {} {
      var c :| c in a;
      SubsetCount(a - {c}, b - {c});
    }
  }

  /** A log of distinct cells on the board holds at most nine moves. */
  lemma AtMostNineMoves(moves: seq<Move>)
    requires DistinctCells(moves) && OnBoard(moves)
    ensures |moves| <= 9
  {
    DistinctCellsCount(moves);
    forall c | c in CellsOf(moves) ensures c in GridCells {
      GridCellsAreTheBoard(c);
    }
    SubsetCount(CellsOf(moves), GridCells);
    GridCellsCount();
  }

  /** Clicks on board cells keep the log on the board. */
  lemma {:induction false} ClicksStayOnBoard(s: AppState, cs: seq<Cell>)
    requires OnBoard(s.moves)
    requires forall k :: 0 <= k < |cs| ==> InGrid(cs[k])
    ensures OnBoard(Clicks(s, cs).moves)
    decreases |cs|
  {
    if cs != [] {
      var t := AfterClick(s, cs[0]);
      assert OnBoard(t.moves);
      ClicksStayOnBoard(t, cs[1..]);
    }
  }

  /** From any log of distinct cells all on the board, clicks inside the canvas never take it past nine moves. */
  lemma ClicksInsideCanvasAtMostNine(s: AppState, ps: seq<Position>, canvasWidth: int, canvasHeight: int)
    requires canvasWidth > 0 && canvasHeight > 0
    requires DistinctCells(s.moves) && OnBoard(s.moves)
    requires forall k :: 0 <= k < |ps| ==>
               0.0 <= ps[k].x < canvasWidth as real && 0.0 <= ps[k].y < canvasHeight as real
    ensures |Clicks(s, seq(|ps|, k requires 0 <= k < |ps| => CellAddress(ps[k], canvasWidth, canvasHeight))).moves| <= 9
  {
    var cs := seq(|ps|, k requires 0 <= k < |ps| => CellAddress(ps[k], canvasWidth, canvasHeight));
    forall k | 0 <= k < |cs| ensures InGrid(cs[k]) {
      CellAddressInGridIffInside(ps[k], canvasWidth, canvasHeight);
    }
    ClicksStayOnBoard(s, cs);
    ClicksKeepCellsDistinct(s, cs);
    AtMostNineMoves(Clicks(s, cs).moves);
  }
}
