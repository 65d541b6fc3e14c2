/** Turn alternation, the move log and the click step, over the single `State` holder. */
module Game {
  import opened Types
  import opened StateHolder
  import opened Grid

  /** The one error `addMove` throws: "INVALID PLAYER". */
  datatype Error = InvalidPlayer

  // ---------------------------------------------------------------- turns

  /** The player whose turn follows `p`'s. */
  function Other(p: Player): (q: Player)
    ensures q != p
  {
    match p
    case Player1 => Player2
    case Player2 => Player1
  }

  /** Toggling twice gives the turn back. */
  lemma OtherIsInvolution(p: Player)
    ensures Other(Other(p)) == p
  {
  }

  /** The patch `togglePlayerTurn` hands to `setState`. */
  function TogglePatch(s: AppState): Patch {
    EmptyPatch.(currentTurn := Present(Other(s.currentTurn)))
  }

  /** The state after `togglePlayerTurn`: only the turn changes, and it changes hands. */
  function Toggled(s: AppState): (r: AppState)
    ensures r == s.(currentTurn := Other(s.currentTurn))
  {
    Merge(s, TogglePatch(s))
  }

  /** Toggling twice restores the whole state. */
  lemma ToggledTwiceRestores(s: AppState)
    ensures Toggled(Toggled(s)) == s
  {
  }

  /** `togglePlayerTurn`: hands the turn to the other player and touches nothing else. */
  method TogglePlayerTurn(st: State)
    modifies st
    ensures st.state == Toggled(old(st.state))
    ensures st.state == old(st.state).(currentTurn := Other(old(st.state).currentTurn))
  {
    var s := st.GetState();
    st.SetState(TogglePatch(s));
  }

  // ------------------------------------------------------------- move log

  /** The comparison `moveAlreadyExists` applies to each move. */
  predicate SameCell(m: Move, c: Cell) {
    m.cell.x == c.x && m.cell.y == c.y
  }

  /** `moves.some(move => same cell)`, scanning from the first move on. */
  function Occupied(moves: seq<Move>, c: Cell): (b: bool)
    ensures b <==> exists i :: 0 <= i < |moves| && SameCell(moves[i], c)
  {
    if moves == [] then false
    else SameCell(moves[0], c) || Occupied(moves[1..], c)
  }

  /** `moveAlreadyExists`: whether some recorded move sits on `selectedCell`. */
  method MoveAlreadyExists(st: State, selectedCell: Cell) returns (b: bool)
    ensures b <==> exists i :: 0 <= i < |st.state.moves| && SameCell(st.state.moves[i], selectedCell)
  {
    var s := st.GetState();
    b := Occupied(s.moves, selectedCell);
  }

  /** The move log's invariant: no two moves share a cell. */
  predicate DistinctCells(moves: seq<Move>) {
    forall i, j :: 0 <= i < j < |moves| ==> moves[i].cell != moves[j].cell
  }

  /** What `addMove` does to a state: throw, ignore, or append on a fresh copy. */
  function AddMoveTo(s: AppState, c: Cell): (r: Result<AppState, Error>)
    ensures r.Err? <==> s.player1 == None
    ensures r.Err? ==> r.error == InvalidPlayer
    ensures r.Ok? && Occupied(s.moves, c) ==> r.value == s
    ensures r.Ok? && !Occupied(s.moves, c) ==>
              r.value == s.(moves := s.moves + [Move(s.currentTurn, c)])
  {
    if s.player1 == None then Err(InvalidPlayer)
    else if Occupied(s.moves, c) then Ok(s)
    else Ok(Merge(s, EmptyPatch.(moves := Present(s.moves + [Move(s.currentTurn, c)]))))
  }

  /** A successful `addMove` keeps every earlier move where it was and adds at most one. */
  lemma AddMoveExtendsLog(s: AppState, c: Cell)
    requires AddMoveTo(s, c).Ok?
    ensures var t := AddMoveTo(s, c).value;
            s.moves <= t.moves && |t.moves| <= |s.moves| + 1 &&
            t.player1 == s.player1 && t.player2 == s.player2 &&
            t.currentTurn == s.currentTurn && t.hoveredCell == s.hoveredCell
  {
  }

  /** `addMove` never puts a second move on a cell. */
  lemma AddMoveKeepsCellsDistinct(s: AppState, c: Cell)
    requires DistinctCells(s.moves)
    requires AddMoveTo(s, c).Ok?
    ensures DistinctCells(AddMoveTo(s, c).value.moves)
  {
    var t := AddMoveTo(s, c).value;
    if !Occupied(s.moves, c) {
      forall i, j | 0 <= i < j < |t.moves| ensures t.moves[i].cell != t.moves[j].cell {
        if j == |s.moves| {
          assert !SameCell(s.moves[i], c);
        }
      }
    }
  }

  /**
   * `addMove`: throws "INVALID PLAYER" when no symbol is chosen, returns silently
   * on an occupied cell, and otherwise records `{cell, player: currentTurn}`.
   */
  method AddMove(st: State, selectedCell: Cell) returns (r: Outcome<Error>)
    modifies st
    ensures r.Fail? <==> old(st.state).player1 == None
    ensures r.Fail? ==> r.error == InvalidPlayer && st.state == old(st.state)
    ensures r.Pass? && Occupied(old(st.state).moves, selectedCell) ==> st.state == old(st.state)
    ensures r.Pass? && !Occupied(old(st.state).moves, selectedCell) ==>
              st.state == old(st.state).(moves := old(st.state).moves + [Move(old(st.state).currentTurn, selectedCell)])
    ensures AddMoveTo(old(st.state), selectedCell) == if r.Fail? then Err(r.error) else Ok(st.state)
  {
    var s := st.GetState();
    if s.player1 == None {
      return Fail(InvalidPlayer);
    }
    var taken := MoveAlreadyExists(st, selectedCell);
    if taken {
      return Pass;
    }
    var temp := s.moves;
    temp := temp + [Move(s.currentTurn, selectedCell)];
    st.SetState(EmptyPatch.(moves := Present(temp)));
    return Pass;
  }

  // ----------------------------------------------------------- click step

  /**
   * One click listener run on cell `c`: `addMove`, then `togglePlayerTurn`. A
   * throw from `addMove` leaves the listener, so the turn is then not toggled.
   */
  function ClickAt(s: AppState, c: Cell): (r: Result<AppState, Error>)
    ensures r.Err? <==> s.player1 == None
    ensures r.Ok? ==> r.value.currentTurn == Other(s.currentTurn)
    ensures r.Ok? && Occupied(s.moves, c) ==> r.value == s.(currentTurn := Other(s.currentTurn))
    ensures r.Ok? && !Occupied(s.moves, c) ==>
              r.value == s.(moves := s.moves + [Move(s.currentTurn, c)], currentTurn := Other(s.currentTurn))
  {
    match AddMoveTo(s, c)
    case Err(e) => Err(e)
    case Ok(t) => Ok(Toggled(t))
  }

  /** `handleSelectCell`, from a canvas-relative position on: map it to a cell and `addMove` it. */
  method HandleSelectCell(st: State, selection: Position, canvasWidth: int, canvasHeight: int)
    returns (r: Outcome<Error>)
    requires canvasWidth > 0 && canvasHeight > 0
    modifies st
    ensures AddMoveTo(old(st.state), CellAddress(selection, canvasWidth, canvasHeight)) ==
            if r.Fail? then Err(r.error) else Ok(st.state)
    ensures r.Fail? ==> st.state == old(st.state)
  {
    var selectedCell := CellAddress(selection, canvasWidth, canvasHeight);
    r := AddMove(st, selectedCell);
  }

  /** The canvas click listener: `handleSelectCell`, then `togglePlayerTurn` unless it threw. */
  method OnCanvasClick(st: State, selection: Position, canvasWidth: int, canvasHeight: int)
    returns (r: Outcome<Error>)
    requires canvasWidth > 0 && canvasHeight > 0
    modifies st
    ensures ClickAt(old(st.state), CellAddress(selection, canvasWidth, canvasHeight)) ==
            if r.Fail? then Err(r.error) else Ok(st.state)
    ensures r.Fail? ==> st.state == old(st.state)
    ensures r.Pass? ==> st.state.currentTurn == Other(old(st.state).currentTurn)
  {
    r := HandleSelectCell(st, selection, canvasWidth, canvasHeight);
    if r.Fail? {
      return;
    }
    TogglePlayerTurn(st);
  }

  // --------------------------------------------------------------- traces

  /** The state after one click event; a click whose listener threw changes nothing. */
  function AfterClick(s: AppState, c: Cell): AppState {
    match ClickAt(s, c)
    case Err(_) => s
    case Ok(t) => t
  }

  /** The state after a run of click events on the cells `cs`, first to last. */
  function Clicks(s: AppState, cs: seq<Cell>): AppState
    decreases |cs|
  {
    if cs == [] then s else Clicks(AfterClick(s, cs[0]), cs[1..])
  }

  /** Clicks never change the chosen symbols, and with no symbol chosen nothing changes at all. */
  lemma {:induction false} ClicksKeepSymbols(s: AppState, cs: seq<Cell>)
    ensures Clicks(s, cs).player1 == s.player1 && Clicks(s, cs).player2 == s.player2
    ensures s.player1 == None ==> Clicks(s, cs) == s
    decreases |cs|
  {
    if cs != [] {
      ClicksKeepSymbols(AfterClick(s, cs[0]), cs[1..]);
    }
  }

  /** The move log only grows, by at most one move per click, until a reset. */
  lemma {:induction false} ClicksExtendLog(s: AppState, cs: seq<Cell>)
    ensures s.moves <= Clicks(s, cs).moves
    ensures |Clicks(s, cs).moves| <= |s.moves| + |cs|
    decreases |cs|
  {
    if cs != [] {
      var t := AfterClick(s, cs[0]);
      ClicksExtendLog(t, cs[1..]);
    }
  }

  /** Every click with a symbol chosen passes the turn, recorded or not. */
  lemma {:induction false} ClicksAlternateTurn(s: AppState, cs: seq<Cell>)
    requires s.player1 != None
    ensures Clicks(s, cs).currentTurn == if |cs| % 2 == 0 then s.currentTurn else Other(s.currentTurn)
    decreases |cs|
  {
    if cs != [] {
      var t := AfterClick(s, cs[0]);
      ClicksAlternateTurn(t, cs[1..]);
    }
  }

  /** Starting from distinct cells, in particular from the empty log, cells stay distinct. */
  lemma {:induction false} ClicksKeepCellsDistinct(s: AppState, cs: seq<Cell>)
    requires DistinctCells(s.moves)
    ensures DistinctCells(Clicks(s, cs).moves)
    decreases |cs|
  {
    if cs != [] {
      if AddMoveTo(s, cs[0]).Ok? {
        AddMoveKeepsCellsDistinct(s, cs[0]);
      }
      ClicksKeepCellsDistinct(AfterClick(s, cs[0]), cs[1..]);
    }
  }

  /** After a reset, any run of clicks leaves no cell taken twice. */
  lemma ClicksFromResetKeepCellsDistinct(cs: seq<Cell>, symbol: Symbol)
    ensures DistinctCells(Clicks(DefaultAppState.(player1 := Some(symbol)), cs).moves)
    ensures DistinctCells(Clicks(DefaultAppState, cs).moves)
  {
    ClicksKeepCellsDistinct(DefaultAppState.(player1 := Some(symbol)), cs);
    ClicksKeepCellsDistinct(DefaultAppState, cs);
  }
}
