/**
 * The `Board` object of rust_engine/src/board/board.rs with the methods that
 * change it in place. Its cells are a 64-element array; every other field is
 * a sequence or value the methods reassign. Each method is proved against the
 * function of the same name on the `State` record, and every method keeps
 * the invariant `WellFormed`.
 */
module BoardObject {
  import opened Wrappers
  import opened Seqs
  import opened Rules
  import opened MoveLaws
  import opened Transition
  import opened Setup

  class Board {
    var positions: seq<Square>
    var board: array<Color>
    var nextMove: Player
    var validPiecesToMove: seq<Square>
    var winner: Player
    var lastMoves: seq<Move>
    var moveNo: int

    /** The value this object holds. */
    function Snapshot(): State
      reads this, board
      requires board.Length == 64
    {
      State(positions, board[..], nextMove, validPiecesToMove, winner, lastMoves, moveNo)
    }

    ghost predicate Valid()
      reads this, board
    {
      board.Length == 64 && WellFormed(Snapshot())
    }

    /** `from(v)`: list the occupied cells, Black to move, then compute the eligible pieces. */
    constructor From(v: Cells)
      ensures board.Length == 64 && Snapshot() == FromCells(v) && Valid()
      ensures fresh(board)
    {
      positions := CreatePositions(v);
      board := new Color[64](i requires 0 <= i < 64 => v[i]);
      nextMove := Black;
      validPiecesToMove := [];
      winner := Nobody;
      lastMoves := [];
      moveNo := 0;
      new;
      assert board[..] == v;
      UpdateValidPiecesToMove();
      FromWellFormed(v);
    }

    /** `new()`: the twelve men of each side on their start squares, Black to move. */
    static method New() returns (r: Board)
      ensures r.board.Length == 64 && r.Snapshot() == FromCells(InitialCells()) && r.Valid()
      ensures fresh(r) && fresh(r.board)
    {
      var brd := new Color[64](_ => Empty);
      assert brd[..] == EmptyCells();
      StartsOnBoard();
      PlaceAll(brd, WhiteStart, WhiteNormal);
      PlaceAll(brd, BlackStart, BlackNormal);
      r := new Board.From(brd[..]);
    }

    /** The loop of `new` over one side's start squares: write `c` onto each of them. */
    static method PlaceAll(brd: array<Color>, sqs: seq<Square>, c: Color)
      requires brd.Length == 64 && AllOnBoard(sqs)
      modifies brd
      ensures brd[..] == Placed(old(brd[..]), sqs, c)
    {
      ghost var v := brd[..];
      for i := 0 to |sqs|
        invariant brd[..] == Placed(v, sqs[..i], c)
      {
        var sq := sqs[i];
        assert sq in sqs;
        brd[sq.1 * 8 + sq.0] := c;
        assert sqs[..i + 1][..i] == sqs[..i];
      }
      assert sqs[..|sqs|] == sqs;
    }

    /** `remove_position`: swap-remove the first entry `(x, y)`; the source unwraps the search, so the entry must be there. */
    method RemovePosition(x: int, y: int)
      requires (x, y) in positions
      modifies this
      ensures positions == SwapRemove(old(positions), (x, y))
      ensures board == old(board) && nextMove == old(nextMove) && validPiecesToMove == old(validPiecesToMove)
      ensures winner == old(winner) && lastMoves == old(lastMoves) && moveNo == old(moveNo)
    {
      ghost var first := FirstIndex(positions, (x, y));
      var p := 0;
      while positions[p] != (x, y)
        invariant p <= first
        decreases first - p
      {
        p := p + 1;
      }
      var n := |positions|;
      positions := positions[p := positions[n - 1]][..n - 1];
    }

    /** `update_valid_pieces_to_move`: the pieces that can capture if there are any, else those that can move. */
    method UpdateValidPiecesToMove()
      requires board.Length == 64
      modifies this
      ensures board == old(board) && validPiecesToMove == EligibleFor(positions, board[..], nextMove)
      ensures positions == old(positions) && nextMove == old(nextMove)
      ensures winner == old(winner) && lastMoves == old(lastMoves) && moveNo == old(moveNo)
    {
      var t := PiecesThatCanJump(positions, board[..], nextMove);
      if |t| > 0 {
        validPiecesToMove := t;
      } else {
        validPiecesToMove := PiecesThatCanMove(positions, board[..], nextMove);
      }
    }

    /** `valid_moves`: every move of every eligible piece, in eligibility order and then destination order. */
    method ValidMoves() returns (v: seq<Move>)
      requires board.Length == 64
      ensures v == AllMoves(validPiecesToMove, board[..], nextMove)
    {
      v := [];
      var cells: Cells := board[..];
      var pieces := validPiecesToMove;
      for i := 0 to |pieces|
        invariant v == AllMoves(pieces[..i], cells, nextMove)
      {
        var sq := pieces[i];
        assert pieces[..i + 1][..i] == pieces[..i];
        match MovesFor(cells, nextMove, sq.0, sq.1)
        case Some(m) =>
          v := PushMoves(v, sq, m);
        case None =>
      }
      assert pieces[..|pieces|] == pieces;
    }

    /** The inner loop of `valid_moves`: push a move to each destination of the piece on `sq`. */
    static method PushMoves(v: seq<Move>, sq: Square, m: seq<Point>) returns (r: seq<Move>)
      ensures r == v + Tagged(sq, m)
    {
      r := v;
      for k := 0 to |m|
        invariant r == v + Tagged(sq, m[..k])
      {
        r := r + [(sq.0, sq.1, m[k].x, m[k].y)];
        assert Tagged(sq, m[..k + 1]) == Tagged(sq, m[..k]) + [(sq.0, sq.1, m[k].x, m[k].y)];
      }
      assert m[..|m|] == m;
    }

    /** `clear_last_moves`. */
    method ClearLastMoves()
      modifies this
      ensures lastMoves == []
      ensures positions == old(positions) && board == old(board) && nextMove == old(nextMove)
      ensures validPiecesToMove == old(validPiecesToMove) && winner == old(winner) && moveNo == old(moveNo)
    {
      lastMoves := [];
    }

    /**
     * The turn logic in the middle of `move_it`: after a capture from which
     * the piece on `(dx, dy)` can capture again, only that piece may move;
     * otherwise the other side moves and, if it has nothing to move, the
     * side that just moved has won.
     */
    method SettleTurn(removed: bool, dx: int, dy: int)
      requires board.Length == 64 && nextMove != Nobody
      modifies this
      ensures board == old(board) && board.Length == 64
      ensures Snapshot() == Settle(old(Snapshot()), removed, dx, dy)
    {
      var player := nextMove;
      if removed && CanRemovePiece(board[..], nextMove, dx, dy) {
        validPiecesToMove := [(dx, dy)];
      } else {
        nextMove := OtherPlayer(nextMove);
        UpdateValidPiecesToMove();
        if |validPiecesToMove| == 0 {
          winner := player;
        }
      }
    }

    /** Push the destination cell `q`, swap-remove the source cell `p`, and move the piece across. */
    method JumpPiece(p: nat, q: nat)
      requires board.Length == 64 && p < 64 && q < 64 && p != q && Coord(p) in positions
      modifies this, board
      ensures board == old(board) && board.Length == 64
      ensures positions == SwapRemove(old(positions) + [Coord(q)], Coord(p))
      ensures board[..] == old(board[..])[q := old(board[p])][p := Empty]
      ensures nextMove == old(nextMove) && validPiecesToMove == old(validPiecesToMove) && winner == old(winner)
      ensures lastMoves == old(lastMoves) && moveNo == old(moveNo)
    {
      positions := positions + [Coord(q)];
      RemovePosition(p % 8, p / 8);
      board[q] := board[p];
      board[p] := Empty;
    }

    /** Swap-remove the jumped cell `c` and empty it. */
    method RemoveJumped(c: nat)
      requires board.Length == 64 && c < 64 && Coord(c) in positions
      modifies this, board
      ensures board == old(board) && board.Length == 64
      ensures positions == SwapRemove(old(positions), Coord(c))
      ensures board[..] == old(board[..])[c := Empty]
      ensures nextMove == old(nextMove) && validPiecesToMove == old(validPiecesToMove) && winner == old(winner)
      ensures lastMoves == old(lastMoves) && moveNo == old(moveNo)
    {
      RemovePosition(c % 8, c / 8);
      board[c] := Empty;
    }

    /**
     * The relocation in the middle of `move_it`: record the move, push the
     * destination, swap-remove the source, move the piece and, on a jump,
     * swap-remove and empty the jumped square.
     */
    method RelocatePiece(x: int, y: int, dx: int, dy: int) returns (removed: bool)
      requires board.Length == 64 && PositionsAgree(positions, board[..])
      requires Index(x, y).Some? && Index(dx, dy).Some?
      requires Movable(board[..], Index(x, y).value, Index(dx, dy).value, Captured(x, y, dx, dy))
      modifies this, board
      ensures board == old(board) && board.Length == 64
      ensures removed == (Abs(dx - x) == 2)
      ensures Coord(Index(x, y).value) in old(positions)
      ensures Captured(x, y, dx, dy).Some? ==>
        Coord(Captured(x, y, dx, dy).value) in old(positions) && Coord(Captured(x, y, dx, dy).value) != Coord(Index(x, y).value)
      ensures positions == MovedPositions(old(positions), Index(x, y).value, Index(dx, dy).value, Captured(x, y, dx, dy))
      ensures board[..] == MovedCells(old(board[..]), Index(x, y).value, Index(dx, dy).value, Captured(x, y, dx, dy))
      ensures nextMove == old(nextMove) && validPiecesToMove == old(validPiecesToMove) && winner == old(winner)
      ensures lastMoves == old(lastMoves) + [(x, y, dx, dy)] && moveNo == old(moveNo) + 1
    {
      ghost var ps0 := positions;
      ghost var b0 := board[..];
      ghost var pp := Captured(x, y, dx, dy);
      var p := Index(x, y).value;
      var q := Index(dx, dy).value;
      MovedListed(ps0, b0, p, q, pp);

      lastMoves := lastMoves + [(x, y, dx, dy)];
      moveNo := moveNo + 1;
      JumpPiece(p, q);
      MovedSteps(ps0, b0, p, q, pp);

      removed := false;
      if Abs(dx - x) == 2 {
        CapturedOnBoard(x, y, dx, dy);
        var c := Index(x + (dx - x) / 2, y + (dy - y) / 2).value;
        RemoveJumped(c);
        removed := true;
      }
    }

    /**
     * `move_it(x, y, dx, dy)`: a request that fails the checks changes
     * nothing; a legal one relocates the piece, removes a jumped piece,
     * settles the turn and crowns, exactly as `AfterMove` says.
     */
    method MoveIt(x: int, y: int, dx: int, dy: int)
      requires Valid()
      modifies this, board
      ensures board == old(board) && Valid()
      ensures Snapshot() == AfterMove(old(Snapshot()), x, y, dx, dy)
    {
      ghost var s := Snapshot();
      if !MovingPieceIsAllowed(validPiecesToMove, x, y) || winner != Nobody {
        NoOpExactlyWhenIllegal(s, x, y, dx, dy);
        return;
      }
      AllowedHasMoves(s, x, y);
      var v := MovesFor(board[..], nextMove, x, y).value;
      if Point(dx, dy) !in v {
        NoOpExactlyWhenIllegal(s, x, y, dx, dy);
        return;
      }
      assert Legal(s, x, y, dx, dy);
      AfterMoveSteps(s, x, y, dx, dy);
      PlayLegal(x, y, dx, dy);
      AfterMoveWellFormed(s, x, y, dx, dy);
    }

    /** The body of `move_it` once the checks have passed. */
    method PlayLegal(x: int, y: int, dx: int, dy: int)
      requires board.Length == 64 && nextMove != Nobody && PositionsAgree(positions, board[..])
      requires Index(x, y).Some? && Index(dx, dy).Some?
      requires Movable(board[..], Index(x, y).value, Index(dx, dy).value, Captured(x, y, dx, dy))
      requires Coord(Index(x, y).value) in positions
      requires Captured(x, y, dx, dy).Some? ==>
        Coord(Captured(x, y, dx, dy).value) in positions && Coord(Captured(x, y, dx, dy).value) != Coord(Index(x, y).value)
      modifies this, board
      ensures board == old(board) && board.Length == 64
      ensures Snapshot() == Played(old(Snapshot()), x, y, dx, dy)
    {
      ghost var s := Snapshot();
      var p := Index(x, y).value;
      var q := Index(dx, dy).value;
      ghost var m := Shifted(s, p, q, Captured(x, y, dx, dy), (x, y, dx, dy));
      var removed := RelocatePiece(x, y, dx, dy);
      assert Snapshot() == m;
      var player := nextMove;
      SettleTurn(removed, dx, dy);
      ghost var t := Snapshot();
      assert t == Settle(m, Abs(dx - x) == 2, dx, dy);
      Crown(player, q, dy);
      assert Snapshot() == CrownedState(t, player, q, dy);
    }

    /** The crowning at the end of `move_it`: a Black mover on row 0, or a White one on row 7, becomes a dame. */
    method Crown(player: Player, q: nat, dy: int)
      requires board.Length == 64 && q < 64
      modifies board
      ensures board[..] == Promote(old(board[..]), player, q, dy)
    {
      if dy == 0 && player == Black {
        board[q] := BlackDame;
      }
      if dy == 7 && player == White {
        board[q] := WhiteDame;
      }
    }
  }
}
