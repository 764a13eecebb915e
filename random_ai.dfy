/**
 * `random` of rust_engine/src/ai/mod.rs: pick an eligible piece, pick one of
 * its destinations, and play that move on the board. Both picks are free
 * choices here; nothing is claimed about their distribution.
 */
module RandomAi {
  import opened Wrappers
  import opened Rules
  import opened Transition
  import opened BoardObject

  /**
   * `random(b)`: the source unwraps the choice of a piece, so some piece
   * must be eligible. The move played is one of `valid_moves` taken before
   * the call, it passes the checks of `move_it`, and `last_moves` records it.
   */
  method Random(b: Board)
    requires b.Valid() && |b.validPiecesToMove| > 0
    modifies b, b.board
    ensures b.board == old(b.board) && b.Valid()
    ensures b.moveNo == old(b.moveNo) + 1 && |b.lastMoves| == |old(b.lastMoves)| + 1
    ensures var mv := b.lastMoves[|b.lastMoves| - 1];
      mv in old(AllMoves(b.validPiecesToMove, b.board[..], b.nextMove)) &&
      Legal(old(b.Snapshot()), mv.0, mv.1, mv.2, mv.3) &&
      b.Snapshot() == AfterMove(old(b.Snapshot()), mv.0, mv.1, mv.2, mv.3)
  {
    ghost var s := b.Snapshot();
    var v := b.validPiecesToMove;
    var k :| 0 <= k < |v|;
    var e := v[k];
    AllowedHasMoves(s, e.0, e.1);
    var m := Mv(v, b.board[..], b.nextMove, e.0, e.1).value;
    var j :| 0 <= j < |m|;
    var n := m[j];
    assert Legal(s, e.0, e.1, n.x, n.y);
    LegalIffValidMove(s, e.0, e.1, n.x, n.y);
    AfterMoveShape(s, e.0, e.1, n.x, n.y);
    b.MoveIt(e.0, e.1, n.x, n.y);
    assert b.lastMoves[|b.lastMoves| - 1] == (e.0, e.1, n.x, n.y);
  }
}
