/**
 * Who makes each move. As written, a click on an occupied cell records nothing
 * but still passes the turn, so one player can end up with two moves in a row.
 * `ClickAtFixed` passes the turn only when a move was recorded, and keeps the
 * log alternating Player1, Player2, Player1, ...
 */
module Turns {
  import opened Types
  import opened StateHolder
  import opened Game

  /** The player who should make the move at position `i` of the log. */
  function PlayerAt(i: nat): Player {
    if i % 2 == 0 then Player1 else Player2
  }

  /** Moves alternate from Player1 on, and the turn belongs to whoever makes the next move. */
  predicate TurnsAlternate(s: AppState) {
    (forall i :: 0 <= i < |s.moves| ==> s.moves[i].player == PlayerAt(i)) &&
    s.currentTurn == PlayerAt(|s.moves|)
  }

  /** The click listener with the toggle moved to where a move is recorded. */
  function ClickAtFixed(s: AppState, c: Cell): (r: Result<AppState, Error>)
    ensures r.Err? <==> s.player1 == None
    ensures r.Ok? && Occupied(s.moves, c) ==> r.value == s
    ensures r.Ok? && !Occupied(s.moves, c) ==>
              r.value == s.(moves := s.moves + [Move(s.currentTurn, c)], currentTurn := Other(s.currentTurn))
  {
    match AddMoveTo(s, c)
    case Err(e) => Err(e)
    case Ok(t) => if Occupied(s.moves, c) then Ok(t) else Ok(Toggled(t))
  }

  /** The state after one corrected click event; a click that threw changes nothing. */
  function AfterClickFixed(s: AppState, c: Cell): AppState {
    match ClickAtFixed(s, c)
    case Err(_) => s
    case Ok(t) => t
  }

  /** The state after a run of corrected click events on the cells `cs`, first to last. */
  function ClicksFixed(s: AppState, cs: seq<Cell>): AppState
    decreases |cs|
  {
    if cs == [] then s else ClicksFixed(AfterClickFixed(s, cs[0]), cs[1..])
  }

  /** One corrected click keeps the moves alternating. */
  lemma ClickAtFixedKeepsAlternation(s: AppState, c: Cell)
    requires TurnsAlternate(s)
    ensures TurnsAlternate(AfterClickFixed(s, c))
  {
    var t := AfterClickFixed(s, c);
    if s.player1 != None && !Occupied(s.moves, c) {
      assert PlayerAt(|s.moves| + 1) == Other(PlayerAt(|s.moves|));
      assert forall i :: 0 <= i < |s.moves| ==> t.moves[i] == s.moves[i];
    }
  }

  /** Any run of corrected clicks keeps the moves alternating. */
  lemma {:induction false} ClicksFixedKeepAlternation(s: AppState, cs: seq<Cell>)
    requires TurnsAlternate(s)
    ensures TurnsAlternate(ClicksFixed(s, cs))
    decreases |cs|
  {
    if cs != [] {
      ClickAtFixedKeepsAlternation(s, cs[0]);
      ClicksFixedKeepAlternation(AfterClickFixed(s, cs[0]), cs[1..]);
    }
  }

  /** From the defaults after a symbol is chosen, the corrected game alternates forever. */
  lemma ClicksFixedFromStartAlternate(symbol: Symbol, cs: seq<Cell>)
    ensures TurnsAlternate(ClicksFixed(DefaultAppState.(player1 := Some(symbol)), cs))
  {
    ClicksFixedKeepAlternation(DefaultAppState.(player1 := Some(symbol)), cs);
  }

  /** The corrected click differs from the written one only on an occupied cell. */
  lemma ClickAtFixedAgreesOnFreeCells(s: AppState, c: Cell)
    requires !Occupied(s.moves, c)
    ensures ClickAtFixed(s, c) == ClickAt(s, c)
  {
  }

  /**
   * As written: Player1 takes (0,0), Player2 clicks (0,0) again and loses the
   * turn, and Player1 then takes (1,1), a second move in a row.
   */
  lemma ClicksAsWrittenBreakAlternation()
    ensures var s := DefaultAppState.(player1 := Some(X));
            var t := Clicks(s, [Cell(0, 0), Cell(0, 0), Cell(1, 1)]);
            TurnsAlternate(s) && !TurnsAlternate(t) &&
            t.moves == [Move(Player1, Cell(0, 0)), Move(Player1, Cell(1, 1))]
  {
    var s := DefaultAppState.(player1 := Some(X));
    var s1 := AfterClick(s, Cell(0, 0));
    assert s1.moves == [Move(Player1, Cell(0, 0))] && s1.currentTurn == Player2;
    var s2 := AfterClick(s1, Cell(0, 0));
    assert Occupied(s1.moves, Cell(0, 0));
    assert s2.moves == s1.moves && s2.currentTurn == Player1;
    var s3 := AfterClick(s2, Cell(1, 1));
    assert !Occupied(s2.moves, Cell(1, 1)) by {
      assert !SameCell(s2.moves[0], Cell(1, 1));
    }
    assert s3.moves == [Move(Player1, Cell(0, 0)), Move(Player1, Cell(1, 1))];
    assert Clicks(s, [Cell(0, 0), Cell(0, 0), Cell(1, 1)]) == s3 by {
      assert [Cell(0, 0), Cell(0, 0), Cell(1, 1)][1..] == [Cell(0, 0), Cell(1, 1)];
      assert [Cell(0, 0), Cell(1, 1)][1..] == [Cell(1, 1)];
      assert [Cell(1, 1)][1..] == [];
    }
    assert s3.moves[1].player != PlayerAt(1);
  }
}
