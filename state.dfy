/** The application state record and the mutable holder around it. */
module StateHolder {
  import opened Types

  /** One recorded move: who played, and where. */
  datatype Move = Move(player: Player, cell: Cell)

  /** The shape of `DEFAULT_APP_STATE`; `None` stands for `null`. */
  datatype AppState = AppState(
    player1: Option<Symbol>,
    player2: Option<Symbol>,
    currentTurn: Player,
    hoveredCell: Option<Cell>,
    moves: seq<Move>)

  /** The state at load time and after a return to the main menu. */
  const DefaultAppState := AppState(None, None, Player1, None, [])

  /** Whether a key is present in a partial state object, and with which value. */
  datatype Field<T> = Absent | Present(value: T)

  /** A `Partial<typeof DEFAULT_APP_STATE>`: each key may be given or left out. */
  datatype Patch = Patch(
    player1: Field<Option<Symbol>>,
    player2: Field<Option<Symbol>>,
    currentTurn: Field<Player>,
    hoveredCell: Field<Option<Cell>>,
    moves: Field<seq<Move>>)

  /** The object literal `{}`. */
  const EmptyPatch := Patch(Absent, Absent, Absent, Absent, Absent)

  /** The value of one key after the spread: the given one if present, else the kept one. */
  function Pick<T>(given: Field<T>, kept: T): T {
    if given.Present? then given.value else kept
  }

  /** The spread `{ ...s, ...p }`: keys given in `p` win, every other key keeps its value. */
  function Merge(s: AppState, p: Patch): (r: AppState)
    ensures p.player1.Present? ==> r.player1 == p.player1.value
    ensures p.player1.Absent? ==> r.player1 == s.player1
    ensures p.player2.Present? ==> r.player2 == p.player2.value
    ensures p.player2.Absent? ==> r.player2 == s.player2
    ensures p.currentTurn.Present? ==> r.currentTurn == p.currentTurn.value
    ensures p.currentTurn.Absent? ==> r.currentTurn == s.currentTurn
    ensures p.hoveredCell.Present? ==> r.hoveredCell == p.hoveredCell.value
    ensures p.hoveredCell.Absent? ==> r.hoveredCell == s.hoveredCell
    ensures p.moves.Present? ==> r.moves == p.moves.value
    ensures p.moves.Absent? ==> r.moves == s.moves
  {
    AppState(
      Pick(p.player1, s.player1),
      Pick(p.player2, s.player2),
      Pick(p.currentTurn, s.currentTurn),
      Pick(p.hoveredCell, s.hoveredCell),
      Pick(p.moves, s.moves))
  }

  /** `q` laid over `p`: the patch whose merge equals merging `p` and then `q`. */
  function Then(p: Patch, q: Patch): Patch {
    Patch(
      if q.player1.Present? then q.player1 else p.player1,
      if q.player2.Present? then q.player2 else p.player2,
      if q.currentTurn.Present? then q.currentTurn else p.currentTurn,
      if q.hoveredCell.Present? then q.hoveredCell else p.hoveredCell,
      if q.moves.Present? then q.moves else p.moves)
  }

  /** Merging `{}` changes nothing. */
  lemma MergeEmptyIsIdentity(s: AppState)
    ensures Merge(s, EmptyPatch) == s
  {
  }

  /** Setting the same fields twice is setting them once. */
  lemma MergeIsIdempotent(s: AppState, p: Patch)
    ensures Merge(Merge(s, p), p) == Merge(s, p)
  {
  }

  /** Two successive `setState` calls equal one call with the later patch laid over the earlier. */
  lemma MergeComposes(s: AppState, p: Patch, q: Patch)
    ensures Merge(Merge(s, p), q) == Merge(s, Then(p, q))
  {
  }

  /** A patch that gives every key discards the old state entirely. */
  lemma FullPatchReplaces(s: AppState, t: AppState)
    ensures Merge(s, Patch(Present(t.player1), Present(t.player2), Present(t.currentTurn),
                           Present(t.hoveredCell), Present(t.moves))) == t
  {
  }

  /** The holder of the single application state; its record is replaced, never edited. */
  class State {
    var state: AppState

    /** `new State(initialState)` keeps a shallow copy of `initialState`. */
    constructor (initialState: AppState)
      ensures state == initialState
    {
      state := initialState;
    }

    /** Hands out the current record. */
    method GetState() returns (r: AppState)
      ensures r == state
    {
      r := state;
    }

    /** Replaces the record by the shallow merge of the old one with `newState`. */
    method SetState(newState: Patch)
      modifies this
      ensures state == Merge(old(state), newState)
    {
      state := Merge(state, newState);
    }

    /** Restores a copy of the defaults, whatever the state was. */
    method ResetState()
      modifies this
      ensures state == DefaultAppState
      ensures state.player1 == None && state.player2 == None
      ensures state.currentTurn == Player1 && state.hoveredCell == None && state.moves == []
    {
      state := DefaultAppState;
    }
  }
}
