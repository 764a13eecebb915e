/**
 * `move_it` of rust_engine/src/board/board.rs as a function from the state
 * before the request to the state after it, and the invariant of `Board`
 * (`positions` lists the occupied squares, the eligible list is the one
 * the forced-capture rule gives, a winner only once nobody can move) that
 * every request preserves.
 */
module Transition {
  import opened Wrappers
  import opened Seqs
  import opened Rules
  import opened MoveLaws

  // ---------------------------------------------------------------------------
  // positions and remove_position

  /** 1 if `pt` is an occupied square of `b`, else 0. */
  function Occupancy(b: Cells, pt: Square): nat {
    match Index(pt.0, pt.1)
    case Some(k) => if b[k] != Empty then 1 else 0
    case None => 0
  }

  /** `positions` holds every occupied square exactly once and nothing else. */
  ghost predicate PositionsAgree(ps: seq<Square>, b: Cells) {
    forall pt :: multiset(ps)[pt] == Occupancy(b, pt)
  }

  lemma PositionsOnBoard(ps: seq<Square>, b: Cells)
    requires PositionsAgree(ps, b)
    ensures AllOnBoard(ps)
  {
    forall pt | pt in ps ensures OnBoard(pt) {
      assert multiset(ps)[pt] > 0;
    }
  }

  /** `iter().position(...)`: the first index holding `e`. */
  function FirstIndex(ps: seq<Square>, e: Square): (i: nat)
    requires e in ps
    ensures i < |ps| && ps[i] == e && e !in ps[..i]
  {
    if ps[0] == e then 0
    else
      assert ps == [ps[0]] + ps[1..];
      var j := FirstIndex(ps[1..], e);
      assert ps[..j + 1] == [ps[0]] + ps[1..][..j];
      j + 1
  }

  /**
   * `remove_position`: `swap_remove` of the first entry equal to `e` (the
   * source unwraps the search, so `e` must be listed). One occurrence of `e`
   * goes and everything else stays.
   */
  function SwapRemove(ps: seq<Square>, e: Square): (r: seq<Square>)
    requires e in ps
    ensures |r| == |ps| - 1
    ensures multiset(r) == multiset(ps) - multiset{e}
  {
    var i := FirstIndex(ps, e);
    var n := |ps|;
    SwapRemoveCounts(ps, i);
    ps[i := ps[n - 1]][..n - 1]
  }

  lemma SwapRemoveCounts(ps: seq<Square>, i: nat)
    requires i < |ps|
    ensures multiset(ps[i := ps[|ps| - 1]][..|ps| - 1]) == multiset(ps) - multiset{ps[i]}
  {
    var n := |ps|;
    var r := ps[i := ps[n - 1]][..n - 1];
    if i == n - 1 {
      assert ps == r + [ps[i]];
    } else {
      assert r == ps[..i] + [ps[n - 1]] + ps[i + 1..n - 1];
      assert ps == ps[..i] + [ps[i]] + ps[i + 1..n - 1] + [ps[n - 1]];
    }
  }

  /** The slots of a swap-remove: the last entry fills the freed slot and every other entry keeps its place. */
  lemma SwapRemoveSlots(ps: seq<Square>, e: Square)
    requires e in ps
    ensures var i := FirstIndex(ps, e); var r := SwapRemove(ps, e);
      (forall j :: 0 <= j < |r| && j != i ==> r[j] == ps[j]) &&
      (i < |r| ==> r[i] == ps[|ps| - 1])
  {
  }

  // ---------------------------------------------------------------------------
  // The invariant

  /** The only eligible piece is the one in the middle of a capture chain, and it can capture again. */
  predicate ChainPending(s: State) {
    |s.eligible| == 1 && CanRemovePiece(s.board, s.nextMove, s.eligible[0].0, s.eligible[0].1)
  }

  /** What every `Board` built by `from` and driven by `move_it` satisfies. */
  ghost predicate WellFormed(s: State) {
    s.nextMove != Nobody &&
    PositionsAgree(s.positions, s.board) &&
    (s.eligible == EligibleFor(s.positions, s.board, s.nextMove) || ChainPending(s)) &&
    (s.winner != Nobody ==> s.winner == OtherPlayer(s.nextMove) && s.eligible == [])
  }

  /** A game that is not over offers a move. */
  predicate Live(s: State) {
    s.winner == Nobody ==> s.eligible != []
  }

  /** Every eligible piece belongs to the side to move and has a move. */
  lemma EligibleOwned(s: State, pt: Square)
    requires WellFormed(s) && pt in s.eligible
    ensures MoverAt(s.board, s.nextMove, pt.0, pt.1) && MovesFor(s.board, s.nextMove, pt.0, pt.1).Some?
  {
    if ChainPending(s) {
      assert s.eligible == [s.eligible[0]];
      ChainOwned(s.board, s.nextMove, pt);
    } else {
      EligibleForOwned(s.positions, s.board, s.nextMove, pt);
    }
  }

  /** The piece of a pending capture chain belongs to the side to move and has a move. */
  lemma ChainOwned(b: Cells, next: Player, pt: Square)
    requires CanRemovePiece(b, next, pt.0, pt.1)
    ensures MoverAt(b, next, pt.0, pt.1) && MovesFor(b, next, pt.0, pt.1).Some?
  {
    CanRemovePieceSpec(b, next, pt.0, pt.1);
    MovesForSome(b, next, pt.0, pt.1);
  }

  // ---------------------------------------------------------------------------
  // move_it

  /** The checks at the head of `move_it`: the piece is eligible, nobody has won, and the destination is offered. */
  predicate Legal(s: State, x: int, y: int, dx: int, dy: int) {
    MovingPieceIsAllowed(s.eligible, x, y) && s.winner == Nobody &&
    MovesFor(s.board, s.nextMove, x, y).Some? && Point(dx, dy) in MovesFor(s.board, s.nextMove, x, y).value
  }

  /** The square jumped over when moving from `(x, y)` to `(dx, dy)`. */
  function Mid(x: int, y: int, dx: int, dy: int): Square {
    (x + (dx - x) / 2, y + (dy - y) / 2)
  }

  /** The geometry of a legal request. */
  lemma LegalFacts(s: State, x: int, y: int, dx: int, dy: int)
    requires WellFormed(s) && Legal(s, x, y, dx, dy)
    ensures MoverAt(s.board, s.nextMove, x, y)
    ensures IsStep(s.board, s.nextMove, x, y, Point(dx, dy)) || IsJump(s.board, s.nextMove, x, y, Point(dx, dy))
    ensures Index(x, y).Some? && Index(dx, dy).Some? && Index(x, y) != Index(dx, dy)
    ensures s.board[Index(dx, dy).value] == Empty
    ensures (x, y) in s.positions && (dx, dy) !in s.positions
    ensures Abs(dx - x) == 2 ==> IsJump(s.board, s.nextMove, x, y, Point(dx, dy)) && MidFacts(s, x, y, dx, dy)
  {
    var d := Point(dx, dy);
    MovesForSound(s.board, s.nextMove, x, y, d);
    assert Index(x, y) != Index(dx, dy) by {
      assert Coord(Index(x, y).value) == (x, y);
      assert Coord(Index(dx, dy).value) == (dx, dy);
    }
    Listed(s, (x, y));
    Listed(s, (dx, dy));
    if Abs(dx - x) == 2 {
      JumpMid(s, x, y, d);
    }
  }

  /** With `positions` agreeing with the cells, a square is listed exactly when it is occupied. */
  lemma Listed(s: State, pt: Square)
    requires PositionsAgree(s.positions, s.board)
    ensures pt in s.positions <==> Occupancy(s.board, pt) == 1
  {
    assert multiset(s.positions)[pt] == Occupancy(s.board, pt);
  }

  /** The square a jump passes over. */
  lemma JumpMid(s: State, x: int, y: int, d: Point)
    requires PositionsAgree(s.positions, s.board) && IsJump(s.board, s.nextMove, x, y, d)
    ensures MidFacts(s, x, y, d.x, d.y)
  {
    var m := Mid(x, y, d.x, d.y);
    HalfWay(x, d.x);
    HalfWay(y, d.y);
    assert m == ((x + d.x) / 2, (y + d.y) / 2);
    Listed(s, m);
  }

  /** The jumped square is on the board, holds a piece of the opponent, and is neither end of the move. */
  ghost predicate MidFacts(s: State, x: int, y: int, dx: int, dy: int) {
    var m := Mid(x, y, dx, dy);
    OnBoard(m) && m != (x, y) && m != (dx, dy) && m in s.positions &&
    OpponentAt(s.board, s.nextMove, m.0, m.1)
  }

  lemma CoordIndex(k: nat)
    requires k < 64
    ensures Index(Coord(k).0, Coord(k).1) == Some(k)
  {
  }

  // ---------------------------------------------------------------------------
  // Relocation, on the two fields it changes

  /**
   * `positions` after moving the piece on cell `p` to cell `q`: push the
   * destination, swap-remove the source and, when `pp` names a jumped cell,
   * swap-remove that too.
   */
  function MovedPositions(ps: seq<Square>, p: nat, q: nat, pp: Option<nat>): seq<Square>
    requires p < 64 && q < 64 && Coord(p) in ps
    requires pp.Some? ==> pp.value < 64 && Coord(pp.value) in ps && Coord(pp.value) != Coord(p)
  {
    var ps1 := SwapRemove(ps + [Coord(q)], Coord(p));
    match pp
    case None => ps1
    case Some(k) =>
      assert multiset(ps1)[Coord(k)] == multiset(ps + [Coord(q)])[Coord(k)] > 0;
      SwapRemove(ps1, Coord(k))
  }

  /** The cells after moving the piece on cell `p` to cell `q` and emptying the jumped cell `pp`, if any. */
  function MovedCells(b: Cells, p: nat, q: nat, pp: Option<nat>): Cells
    requires p < 64 && q < 64 && (pp.Some? ==> pp.value < 64)
  {
    var b1 := b[q := b[p]][p := Empty];
    match pp
    case None => b1
    case Some(k) => b1[k := Empty]
  }

  /** The requirements of a relocation: a piece on `p`, an empty `q`, and a different piece on `pp`. */
  predicate Movable(b: Cells, p: nat, q: nat, pp: Option<nat>) {
    p < 64 && q < 64 && p != q && b[p] != Empty && b[q] == Empty &&
    (pp.Some? ==> pp.value < 64 && pp.value != p && pp.value != q && b[pp.value] != Empty)
  }

  /** The relocation in the order `move_it` performs it: push and swap-remove, move the piece, then remove the jumped piece. */
  lemma MovedSteps(ps: seq<Square>, b: Cells, p: nat, q: nat, pp: Option<nat>)
    requires p < 64 && q < 64 && Coord(p) in ps
    requires pp.Some? ==> pp.value < 64 && Coord(pp.value) in ps && Coord(pp.value) != Coord(p)
    ensures var ps1 := SwapRemove(ps + [Coord(q)], Coord(p)); var b1 := b[q := b[p]][p := Empty];
      (pp.None? ==> MovedPositions(ps, p, q, pp) == ps1 && MovedCells(b, p, q, pp) == b1) &&
      (pp.Some? ==> Coord(pp.value) in ps1 && MovedPositions(ps, p, q, pp) == SwapRemove(ps1, Coord(pp.value)) &&
                    MovedCells(b, p, q, pp) == b1[pp.value := Empty])
  {
    var ps1 := SwapRemove(ps + [Coord(q)], Coord(p));
    if pp.Some? {
      assert multiset(ps1)[Coord(pp.value)] == multiset(ps + [Coord(q)])[Coord(pp.value)] > 0;
    }
  }

  /** Halfway between two rows, or two columns, of the board is on the board too. */
  lemma HalfBetween(a: int, b: int)
    requires 0 <= a < 8 && 0 <= b < 8
    ensures 0 <= a + (b - a) / 2 < 8
  {
  }

  /** The jumped cell of a jump between two squares of the board. */
  lemma CapturedOnBoard(x: int, y: int, dx: int, dy: int)
    requires 0 <= x < 8 && 0 <= y < 8 && 0 <= dx < 8 && 0 <= dy < 8 && Abs(dx - x) == 2
    ensures Index(x + (dx - x) / 2, y + (dy - y) / 2).Some?
    ensures Captured(x, y, dx, dy) == Index(x + (dx - x) / 2, y + (dy - y) / 2)
  {
    HalfBetween(x, dx);
    HalfBetween(y, dy);
  }

  /** The cells of a relocation: source emptied, destination holds the piece, jumped cell emptied, the rest untouched. */
  lemma MovedCellsSpec(b: Cells, p: nat, q: nat, pp: Option<nat>)
    requires Movable(b, p, q, pp)
    ensures var r := MovedCells(b, p, q, pp);
      r[p] == Empty && r[q] == b[p] && (pp.Some? ==> r[pp.value] == Empty) &&
      (forall k :: 0 <= k < 64 && k != p && k != q && pp != Some(k) ==> r[k] == b[k])
  {
  }

  /** Relocation keeps `positions` in agreement with the cells. */
  lemma MovedAgrees(ps: seq<Square>, b: Cells, p: nat, q: nat, pp: Option<nat>)
    requires PositionsAgree(ps, b) && Movable(b, p, q, pp)
    ensures Coord(p) in ps && (pp.Some? ==> Coord(pp.value) in ps && Coord(pp.value) != Coord(p))
    ensures PositionsAgree(MovedPositions(ps, p, q, pp), MovedCells(b, p, q, pp))
  {
    MovedListed(ps, b, p, q, pp);
    forall pt ensures multiset(MovedPositions(ps, p, q, pp))[pt] == Occupancy(MovedCells(b, p, q, pp), pt) {
      MovedAgreesAt(ps, b, p, q, pp, pt);
    }
  }

  lemma MovedListed(ps: seq<Square>, b: Cells, p: nat, q: nat, pp: Option<nat>)
    requires PositionsAgree(ps, b) && Movable(b, p, q, pp)
    ensures Coord(p) in ps && Coord(q) !in ps && (pp.Some? ==> Coord(pp.value) in ps && Coord(pp.value) != Coord(p))
  {
    CoordIndex(p);
    CoordIndex(q);
    assert multiset(ps)[Coord(p)] == Occupancy(b, Coord(p));
    assert multiset(ps)[Coord(q)] == Occupancy(b, Coord(q));
    if pp.Some? {
      CoordIndex(pp.value);
      assert multiset(ps)[Coord(pp.value)] == Occupancy(b, Coord(pp.value));
    }
  }

  lemma MovedAgreesAt(ps: seq<Square>, b: Cells, p: nat, q: nat, pp: Option<nat>, pt: Square)
    requires PositionsAgree(ps, b) && Movable(b, p, q, pp)
    ensures Coord(p) in ps && (pp.Some? ==> Coord(pp.value) in ps && Coord(pp.value) != Coord(p))
    ensures multiset(MovedPositions(ps, p, q, pp))[pt] == Occupancy(MovedCells(b, p, q, pp), pt)
  {
    MovedListed(ps, b, p, q, pp);
    MovedCount(ps, p, q, pp, pt);
    MovedOccupancy(b, p, q, pp, pt);
    assert multiset(ps)[pt] == Occupancy(b, pt);
  }

  /** How often `pt` is listed after a relocation: once more if it is the destination, once less if it is the source or the jumped cell. */
  lemma MovedCount(ps: seq<Square>, p: nat, q: nat, pp: Option<nat>, pt: Square)
    requires p < 64 && q < 64 && Coord(p) in ps
    requires pp.Some? ==> pp.value < 64 && Coord(pp.value) in ps && Coord(pp.value) != Coord(p)
    ensures multiset(MovedPositions(ps, p, q, pp))[pt] ==
      multiset(ps)[pt] + (if pt == Coord(q) then 1 else 0) - (if pt == Coord(p) then 1 else 0)
      - (if pp.Some? && pt == Coord(pp.value) then 1 else 0)
  {
    var ps0 := ps + [Coord(q)];
    assert multiset(ps0) == multiset(ps) + multiset{Coord(q)};
    var ps1 := SwapRemove(ps0, Coord(p));
    SwapRemoveAt(ps0, Coord(p), pt);
    if pp.Some? {
      assert multiset(ps1)[Coord(pp.value)] > 0;
      SwapRemoveAt(ps1, Coord(pp.value), pt);
    }
  }

  /** A swap-remove lowers the count of `e` by one and keeps every other count. */
  lemma SwapRemoveAt(ps: seq<Square>, e: Square, pt: Square)
    requires e in ps
    ensures multiset(SwapRemove(ps, e))[pt] == multiset(ps)[pt] - (if pt == e then 1 else 0)
  {
  }

  /** Whether `pt` is occupied after a relocation, in the same terms. */
  lemma MovedOccupancy(b: Cells, p: nat, q: nat, pp: Option<nat>, pt: Square)
    requires Movable(b, p, q, pp)
    ensures Occupancy(MovedCells(b, p, q, pp), pt) ==
      Occupancy(b, pt) + (if pt == Coord(q) then 1 else 0) - (if pt == Coord(p) then 1 else 0)
      - (if pp.Some? && pt == Coord(pp.value) then 1 else 0)
  {
    MovedCellsSpec(b, p, q, pp);
    CoordIndex(p);
    CoordIndex(q);
    if pp.Some? {
      CoordIndex(pp.value);
    }
    if Index(pt.0, pt.1).Some? {
      var k := Index(pt.0, pt.1).value;
      assert Coord(k) == pt;
    }
  }

  /** The cell jumped over, for a jump. */
  function Captured(x: int, y: int, dx: int, dy: int): Option<nat> {
    if Abs(dx - x) == 2 then Index(Mid(x, y, dx, dy).0, Mid(x, y, dx, dy).1) else None
  }

  /** The cells a legal request touches can be relocated. */
  lemma LegalMovable(s: State, x: int, y: int, dx: int, dy: int)
    requires WellFormed(s) && Legal(s, x, y, dx, dy)
    ensures Index(x, y).Some? && Index(dx, dy).Some?
    ensures Movable(s.board, Index(x, y).value, Index(dx, dy).value, Captured(x, y, dx, dy))
  {
    LegalFacts(s, x, y, dx, dy);
    if Abs(dx - x) == 2 {
      var m := Mid(x, y, dx, dy);
      CoordIndex(Index(m.0, m.1).value);
    }
  }

  /**
   * The relocation part of `move_it`: record the move, push the destination
   * onto `positions`, swap-remove the source, move the piece and, on a jump,
   * swap-remove and empty the jumped square.
   */
  function Relocate(s: State, x: int, y: int, dx: int, dy: int): (r: State)
    requires WellFormed(s) && Legal(s, x, y, dx, dy)
    ensures r.nextMove == s.nextMove && r.eligible == s.eligible && r.winner == s.winner
    ensures r.lastMoves == s.lastMoves + [(x, y, dx, dy)] && r.moveNo == s.moveNo + 1
  {
    LegalMovable(s, x, y, dx, dy);
    var p := Index(x, y).value;
    var q := Index(dx, dy).value;
    var pp := Captured(x, y, dx, dy);
    MovedAgrees(s.positions, s.board, p, q, pp);
    s.(positions := MovedPositions(s.positions, p, q, pp), board := MovedCells(s.board, p, q, pp),
       lastMoves := s.lastMoves + [(x, y, dx, dy)], moveNo := s.moveNo + 1)
  }

  /**
   * The turn logic of `move_it`: after a capture from which the piece can
   * capture again the same side keeps the move with only that piece eligible;
   * otherwise the turn passes, eligibility is recomputed for the new side, and
   * a new side with nothing eligible makes the mover the winner.
   */
  function Settle(m: State, captured: bool, dx: int, dy: int): State
    requires m.nextMove != Nobody
  {
    var player := m.nextMove;
    if captured && CanRemovePiece(m.board, player, dx, dy) then m.(eligible := [(dx, dy)])
    else
      var other := OtherPlayer(player);
      var e := EligibleFor(m.positions, m.board, other);
      m.(nextMove := other, eligible := e, winner := if |e| == 0 then player else m.winner)
  }

  /** The crowning at the end of `move_it`: a Black mover landing on row 0, or a White one on row 7, becomes a dame. */
  function Promote(b: Cells, player: Player, q: nat, dy: int): Cells
    requires q < 64
  {
    if dy == 0 && player == Black then b[q := BlackDame]
    else if dy == 7 && player == White then b[q := WhiteDame]
    else b
  }

  /** `move_it(x, y, dx, dy)`. */
  function AfterMove(s: State, x: int, y: int, dx: int, dy: int): (r: State)
    requires WellFormed(s)
  {
    if !Legal(s, x, y, dx, dy) then s
    else
      LegalMovable(s, x, y, dx, dy);
      var t := Settle(Relocate(s, x, y, dx, dy), Abs(dx - x) == 2, dx, dy);
      t.(board := Promote(t.board, s.nextMove, Index(dx, dy).value, dy))
  }

  // ---------------------------------------------------------------------------
  // What a request does

  /** `mv` cannot fail for an eligible piece, so the `unwrap` in `move_it` does not panic. */
  lemma AllowedHasMoves(s: State, x: int, y: int)
    requires WellFormed(s) && MovingPieceIsAllowed(s.eligible, x, y)
    ensures MovesFor(s.board, s.nextMove, x, y).Some? && |MovesFor(s.board, s.nextMove, x, y).value| > 0
  {
    EligibleOwned(s, (x, y));
    MovesForSome(s.board, s.nextMove, x, y);
  }

  /** A request changes the board exactly when it passes the checks; one that fails them changes nothing at all. */
  lemma NoOpExactlyWhenIllegal(s: State, x: int, y: int, dx: int, dy: int)
    requires WellFormed(s)
    ensures AfterMove(s, x, y, dx, dy) == s <==> !Legal(s, x, y, dx, dy)
  {
    if Legal(s, x, y, dx, dy) {
      assert AfterMove(s, x, y, dx, dy).moveNo == s.moveNo + 1;
    }
  }

  /** The two fields a legal request relocates, and the records it keeps. */
  lemma AfterMoveShape(s: State, x: int, y: int, dx: int, dy: int)
    requires WellFormed(s) && Legal(s, x, y, dx, dy)
    ensures Index(x, y).Some? && Index(dx, dy).Some?
    ensures Movable(s.board, Index(x, y).value, Index(dx, dy).value, Captured(x, y, dx, dy))
    ensures Coord(Index(x, y).value) in s.positions
    ensures Captured(x, y, dx, dy).Some? ==>
      Coord(Captured(x, y, dx, dy).value) in s.positions && Coord(Captured(x, y, dx, dy).value) != Coord(Index(x, y).value)
    ensures var p := Index(x, y).value; var q := Index(dx, dy).value; var pp := Captured(x, y, dx, dy);
      var r := AfterMove(s, x, y, dx, dy);
      r.positions == MovedPositions(s.positions, p, q, pp) &&
      r.board == Promote(MovedCells(s.board, p, q, pp), s.nextMove, q, dy) &&
      Relocate(s, x, y, dx, dy).board == MovedCells(s.board, p, q, pp) &&
      r.lastMoves == s.lastMoves + [(x, y, dx, dy)] && r.moveNo == s.moveNo + 1
  {
    LegalMovable(s, x, y, dx, dy);
    var p := Index(x, y).value;
    var q := Index(dx, dy).value;
    var pp := Captured(x, y, dx, dy);
    MovedListed(s.positions, s.board, p, q, pp);
    var m := Relocate(s, x, y, dx, dy);
    AfterMoveLegal(s, x, y, dx, dy);
    SettleKeeps(m, Abs(dx - x) == 2, dx, dy);
  }

  /** `AfterMove` of a request that passes the checks. */
  lemma AfterMoveLegal(s: State, x: int, y: int, dx: int, dy: int)
    requires WellFormed(s) && Legal(s, x, y, dx, dy)
    ensures Index(dx, dy).Some?
    ensures AfterMove(s, x, y, dx, dy) ==
      CrownedState(Settle(Relocate(s, x, y, dx, dy), Abs(dx - x) == 2, dx, dy), s.nextMove, Index(dx, dy).value, dy)
  {
    LegalMovable(s, x, y, dx, dy);
  }

  /** Settling the turn leaves the pieces and the move records alone. */
  lemma SettleKeeps(m: State, captured: bool, dx: int, dy: int)
    requires m.nextMove != Nobody
    ensures var t := Settle(m, captured, dx, dy);
      t.positions == m.positions && t.board == m.board && t.lastMoves == m.lastMoves && t.moveNo == m.moveNo
  {
  }

  /** The relocation step of `move_it` on the cells `p`, `q` and the jumped cell `pp`, with the move recorded. */
  function Shifted(s: State, p: nat, q: nat, pp: Option<nat>, mv: Move): State
    requires p < 64 && q < 64 && Coord(p) in s.positions
    requires pp.Some? ==> pp.value < 64 && Coord(pp.value) in s.positions && Coord(pp.value) != Coord(p)
  {
    s.(positions := MovedPositions(s.positions, p, q, pp), board := MovedCells(s.board, p, q, pp),
       lastMoves := s.lastMoves + [mv], moveNo := s.moveNo + 1)
  }

  /** The crowning step of `move_it`, on a whole state. */
  function CrownedState(t: State, player: Player, q: nat, dy: int): State
    requires q < 64
  {
    t.(board := Promote(t.board, player, q, dy))
  }

  /** The steps `move_it` takes once its checks have passed: relocate, settle the turn, crown. */
  function Played(s: State, x: int, y: int, dx: int, dy: int): State
    requires s.nextMove != Nobody && Index(x, y).Some? && Index(dx, dy).Some?
    requires Coord(Index(x, y).value) in s.positions
    requires Captured(x, y, dx, dy).Some? ==>
      Captured(x, y, dx, dy).value < 64 &&
      Coord(Captured(x, y, dx, dy).value) in s.positions && Coord(Captured(x, y, dx, dy).value) != Coord(Index(x, y).value)
  {
    var q := Index(dx, dy).value;
    var m := Shifted(s, Index(x, y).value, q, Captured(x, y, dx, dy), (x, y, dx, dy));
    CrownedState(Settle(m, Abs(dx - x) == 2, dx, dy), s.nextMove, q, dy)
  }

  /** `AfterMove` of a legal request is those steps. */
  lemma AfterMoveSteps(s: State, x: int, y: int, dx: int, dy: int)
    requires WellFormed(s) && Legal(s, x, y, dx, dy)
    ensures Index(x, y).Some? && Index(dx, dy).Some?
    ensures Movable(s.board, Index(x, y).value, Index(dx, dy).value, Captured(x, y, dx, dy))
    ensures Coord(Index(x, y).value) in s.positions
    ensures Captured(x, y, dx, dy).Some? ==>
      Coord(Captured(x, y, dx, dy).value) in s.positions && Coord(Captured(x, y, dx, dy).value) != Coord(Index(x, y).value)
    ensures AfterMove(s, x, y, dx, dy) == Played(s, x, y, dx, dy)
  {
    AfterMoveShape(s, x, y, dx, dy);
  }

  /** The content of the destination after crowning. */
  function Crowned(c: Color, player: Player, dy: int): Color {
    if dy == 0 && player == Black then BlackDame
    else if dy == 7 && player == White then WhiteDame
    else c
  }

  /** The cells of a relocation followed by crowning. */
  lemma CellsOfMove(b: Cells, p: nat, q: nat, pp: Option<nat>, player: Player, dy: int)
    requires Movable(b, p, q, pp)
    ensures var r := Promote(MovedCells(b, p, q, pp), player, q, dy);
      r[p] == Empty && r[q] == Crowned(b[p], player, dy) && (pp.Some? ==> r[pp.value] == Empty) &&
      (forall k :: 0 <= k < 64 && k != p && k != q && pp != Some(k) ==> r[k] == b[k])
  {
    MovedCellsSpec(b, p, q, pp);
  }

  /** A legal request empties its source and puts the moved piece, crowned on the far row, on its destination. */
  lemma LegalMoveEnds(s: State, x: int, y: int, dx: int, dy: int)
    requires WellFormed(s) && Legal(s, x, y, dx, dy)
    ensures ColorAt(AfterMove(s, x, y, dx, dy).board, x, y) == Some(Empty)
    ensures ColorAt(s.board, x, y).Some? &&
      ColorAt(AfterMove(s, x, y, dx, dy).board, dx, dy) == Some(Crowned(ColorAt(s.board, x, y).value, s.nextMove, dy))
  {
    AfterMoveShape(s, x, y, dx, dy);
    CellsOfMove(s.board, Index(x, y).value, Index(dx, dy).value, Captured(x, y, dx, dy), s.nextMove, dy);
  }

  /** A legal jump removes the piece of the opponent it jumps over. */
  lemma LegalMoveCapture(s: State, x: int, y: int, dx: int, dy: int)
    requires WellFormed(s) && Legal(s, x, y, dx, dy) && Abs(dx - x) == 2
    ensures OpponentAt(s.board, s.nextMove, Mid(x, y, dx, dy).0, Mid(x, y, dx, dy).1)
    ensures ColorAt(AfterMove(s, x, y, dx, dy).board, Mid(x, y, dx, dy).0, Mid(x, y, dx, dy).1) == Some(Empty)
  {
    AfterMoveShape(s, x, y, dx, dy);
    LegalFacts(s, x, y, dx, dy);
    CellsOfMove(s.board, Index(x, y).value, Index(dx, dy).value, Captured(x, y, dx, dy), s.nextMove, dy);
  }

  /** A legal request changes no square other than its source, destination and jumped square. */
  lemma LegalMoveElsewhere(s: State, x: int, y: int, dx: int, dy: int, sq: Square)
    requires WellFormed(s) && Legal(s, x, y, dx, dy)
    requires sq != (x, y) && sq != (dx, dy) && (Abs(dx - x) == 2 ==> sq != Mid(x, y, dx, dy))
    ensures ColorAt(AfterMove(s, x, y, dx, dy).board, sq.0, sq.1) == ColorAt(s.board, sq.0, sq.1)
  {
    AfterMoveShape(s, x, y, dx, dy);
    var p := Index(x, y).value;
    var q := Index(dx, dy).value;
    var pp := Captured(x, y, dx, dy);
    CellsOfMove(s.board, p, q, pp, s.nextMove, dy);
    if Index(sq.0, sq.1).Some? {
      var k := Index(sq.0, sq.1).value;
      assert k != p && k != q && pp != Some(k) by {
        CoordIndex(p);
        CoordIndex(q);
        if pp.Some? { CoordIndex(pp.value); }
      }
    }
  }

  /** Crowning keeps every square's side and occupancy. */
  lemma PromoteKeepsSides(b: Cells, player: Player, q: nat, dy: int)
    requires q < 64 && Owner(b[q]) == player && player != Nobody
    ensures SameFor(b, Promote(b, player, q, dy), OtherPlayer(player))
    ensures forall pt :: Occupancy(Promote(b, player, q, dy), pt) == Occupancy(b, pt)
  {
  }

  /** A piece that can capture again was not crowned by this move: men cannot jump off the far row. */
  lemma NoCrowningInChain(b: Cells, player: Player, dx: int, dy: int)
    requires Index(dx, dy).Some? && CanRemovePiece(b, player, dx, dy)
    ensures Promote(b, player, Index(dx, dy).value, dy) == b
  {
    CanRemovePieceSpec(b, player, dx, dy);
    var d :| IsJump(b, player, dx, dy, d);
    var q := Index(dx, dy).value;
    if dy == 0 && player == Black {
      assert b[q] == BlackDame;
    }
    if dy == 7 && player == White {
      assert b[q] == WhiteDame;
    }
  }

  /** The moved piece jumped and, before crowning, can jump again. */
  ghost predicate CapturesAgain(s: State, x: int, y: int, dx: int, dy: int)
    requires WellFormed(s) && Legal(s, x, y, dx, dy)
  {
    Abs(dx - x) == 2 && HasJump(Relocate(s, x, y, dx, dy).board, s.nextMove, dx, dy)
  }

  /** In the middle of a capture chain the same side keeps the move, with only the capturing piece eligible. */
  lemma TurnKept(s: State, x: int, y: int, dx: int, dy: int)
    requires WellFormed(s) && Legal(s, x, y, dx, dy) && CapturesAgain(s, x, y, dx, dy)
    ensures var r := AfterMove(s, x, y, dx, dy);
      r.nextMove == s.nextMove && r.eligible == [(dx, dy)] && r.winner == Nobody &&
      r.board == Relocate(s, x, y, dx, dy).board && ChainPending(r)
  {
    LegalMovable(s, x, y, dx, dy);
    var m := Relocate(s, x, y, dx, dy);
    CanRemovePieceSpec(m.board, s.nextMove, dx, dy);
    NoCrowningInChain(m.board, s.nextMove, dx, dy);
  }

  /**
   * Otherwise the other side moves, with the eligible list the forced-capture
   * rule gives for the new board, and the mover has won exactly when that list
   * is empty.
   */
  lemma TurnPassed(s: State, x: int, y: int, dx: int, dy: int)
    requires WellFormed(s) && Legal(s, x, y, dx, dy) && !CapturesAgain(s, x, y, dx, dy)
    ensures var r := AfterMove(s, x, y, dx, dy);
      r.nextMove == OtherPlayer(s.nextMove) &&
      r.eligible == EligibleFor(r.positions, r.board, r.nextMove) &&
      (r.winner == s.nextMove <==> r.eligible == []) &&
      (r.eligible != [] ==> r.winner == Nobody)
  {
    LegalMovable(s, x, y, dx, dy);
    var m := Relocate(s, x, y, dx, dy);
    var q := Index(dx, dy).value;
    CanRemovePieceSpec(m.board, s.nextMove, dx, dy);
    RelocatedOwner(s, x, y, dx, dy);
    SettlePassed(m, Abs(dx - x) == 2, dx, dy, q);
  }

  /** The moved piece stands on the destination, so its cell belongs to the mover. */
  lemma RelocatedOwner(s: State, x: int, y: int, dx: int, dy: int)
    requires WellFormed(s) && Legal(s, x, y, dx, dy)
    ensures Index(dx, dy).Some? && Owner(Relocate(s, x, y, dx, dy).board[Index(dx, dy).value]) == s.nextMove
  {
    LegalMovable(s, x, y, dx, dy);
    var p := Index(x, y).value;
    var q := Index(dx, dy).value;
    var pp := Captured(x, y, dx, dy);
    assert MoverAt(s.board, s.nextMove, x, y) by {
      LegalFacts(s, x, y, dx, dy);
    }
    assert Relocate(s, x, y, dx, dy).board == MovedCells(s.board, p, q, pp);
    MovedOwner(s.board, p, q, pp, s.nextMove);
  }

  lemma MovedOwner(b: Cells, p: nat, q: nat, pp: Option<nat>, next: Player)
    requires Movable(b, p, q, pp) && Matching(next, b[p])
    ensures Owner(MovedCells(b, p, q, pp)[q]) == next
  {
    MovedCellsSpec(b, p, q, pp);
  }

  /** Settling without a pending capture, then crowning the mover's piece on `q`. */
  lemma SettlePassed(m: State, captured: bool, dx: int, dy: int, q: nat)
    requires m.nextMove != Nobody && m.winner == Nobody && q < 64 && Owner(m.board[q]) == m.nextMove
    requires !(captured && CanRemovePiece(m.board, m.nextMove, dx, dy))
    ensures var t := Settle(m, captured, dx, dy);
      var r := t.(board := Promote(t.board, m.nextMove, q, dy));
      r.nextMove == OtherPlayer(m.nextMove) &&
      r.eligible == EligibleFor(r.positions, r.board, r.nextMove) &&
      (r.winner == m.nextMove <==> r.eligible == []) &&
      (r.eligible != [] ==> r.winner == Nobody)
  {
    PromoteKeepsSides(m.board, m.nextMove, q, dy);
    EligibleForSame(m.positions, m.board, Promote(m.board, m.nextMove, q, dy), OtherPlayer(m.nextMove));
  }

  /** Crowning an occupied cell keeps the occupancy of every square. */
  lemma PromoteOccupancy(c: Cells, player: Player, q: nat, dy: int, pt: Square)
    requires q < 64 && c[q] != Empty
    ensures Occupancy(Promote(c, player, q, dy), pt) == Occupancy(c, pt)
  {
  }

  /** Relocation followed by crowning keeps `positions` in agreement with the cells. */
  lemma MovedPromotedAgrees(ps: seq<Square>, b: Cells, p: nat, q: nat, pp: Option<nat>, player: Player, dy: int)
    requires PositionsAgree(ps, b) && Movable(b, p, q, pp)
    ensures Coord(p) in ps && (pp.Some? ==> Coord(pp.value) in ps && Coord(pp.value) != Coord(p))
    ensures PositionsAgree(MovedPositions(ps, p, q, pp), Promote(MovedCells(b, p, q, pp), player, q, dy))
  {
    MovedListed(ps, b, p, q, pp);
    MovedCellsSpec(b, p, q, pp);
    var c := MovedCells(b, p, q, pp);
    var r := MovedPositions(ps, p, q, pp);
    forall pt ensures multiset(r)[pt] == Occupancy(Promote(c, player, q, dy), pt) {
      MovedAgreesAt(ps, b, p, q, pp, pt);
      PromoteOccupancy(c, player, q, dy, pt);
    }
  }

  /** After a legal request `positions` still lists exactly the occupied squares. */
  lemma AfterMoveAgrees(s: State, x: int, y: int, dx: int, dy: int)
    requires WellFormed(s) && Legal(s, x, y, dx, dy)
    ensures PositionsAgree(AfterMove(s, x, y, dx, dy).positions, AfterMove(s, x, y, dx, dy).board)
  {
    AfterMoveShape(s, x, y, dx, dy);
    MovedPromotedAgrees(s.positions, s.board, Index(x, y).value, Index(dx, dy).value, Captured(x, y, dx, dy), s.nextMove, dy);
  }

  /** `move_it` keeps the invariant of `Board`. */
  lemma AfterMoveWellFormed(s: State, x: int, y: int, dx: int, dy: int)
    requires WellFormed(s)
    ensures WellFormed(AfterMove(s, x, y, dx, dy))
  {
    if Legal(s, x, y, dx, dy) {
      AfterMoveAgrees(s, x, y, dx, dy);
      if CapturesAgain(s, x, y, dx, dy) {
        TurnKept(s, x, y, dx, dy);
      } else {
        TurnPassed(s, x, y, dx, dy);
      }
    }
  }

  /** A legal move leaves a game that is either over or offers a move. */
  lemma AfterMoveLive(s: State, x: int, y: int, dx: int, dy: int)
    requires WellFormed(s) && Legal(s, x, y, dx, dy)
    ensures Live(AfterMove(s, x, y, dx, dy))
  {
    if CapturesAgain(s, x, y, dx, dy) {
      TurnKept(s, x, y, dx, dy);
    } else {
      TurnPassed(s, x, y, dx, dy);
    }
  }

  /** A request passes the checks of `move_it` exactly when it is one of the moves `valid_moves` lists. */
  lemma LegalIffValidMove(s: State, x: int, y: int, dx: int, dy: int)
    requires s.winner == Nobody
    ensures Legal(s, x, y, dx, dy) <==> (x, y, dx, dy) in AllMoves(s.eligible, s.board, s.nextMove)
  {
    AllMovesSpec(s.eligible, s.board, s.nextMove, (x, y, dx, dy));
  }

  /**
   * The legal requests by the rules of the game: an eligible piece makes one
   * of its jumps, or one of its steps when it has no jump.
   */
  lemma LegalByRules(s: State, x: int, y: int, dx: int, dy: int)
    requires s.winner == Nobody
    ensures Legal(s, x, y, dx, dy) <==>
      (x, y) in s.eligible &&
      (IsJump(s.board, s.nextMove, x, y, Point(dx, dy)) ||
       (IsStep(s.board, s.nextMove, x, y, Point(dx, dy)) && !HasJump(s.board, s.nextMove, x, y)))
  {
    MovesForSpec(s.board, s.nextMove, x, y, Point(dx, dy));
  }

  /** `mv` offers a destination exactly when `move_it` would accept the move to it, while nobody has won. */
  lemma MvLegal(s: State, x: int, y: int, dx: int, dy: int)
    requires s.winner == Nobody
    ensures (Mv(s.eligible, s.board, s.nextMove, x, y).Some? && Point(dx, dy) in Mv(s.eligible, s.board, s.nextMove, x, y).value) <==>
      Legal(s, x, y, dx, dy)
  {
  }
}
