/**
 * The position `new` in rust_engine/src/board/board.rs starts a game from:
 * the men stand on the squares whose coordinates add up to an even number,
 * White on rows 0 to 2 and Black on rows 5 to 7. From it `from` lists the
 * white men and then the black men in cell order, Black is to move, and only
 * the four black men on row 5 may move.
 */
module StartPosition {
  import opened Wrappers
  import opened Seqs
  import opened Rules
  import opened MoveLaws
  import opened Transition
  import opened Setup

  /** The black men on row 5, the only ones with a free square in front of them. */
  const FrontRow: seq<Square> := [(1, 5), (3, 5), (5, 5), (7, 5)]
  /** The other black men. */
  const BackRows: seq<Square> := [(0, 6), (2, 6), (4, 6), (6, 6), (1, 7), (3, 7), (5, 7), (7, 7)]

  /** The content of every square of the start position. */
  lemma StartSquare(x: int, y: int)
    requires 0 <= x < 8 && 0 <= y < 8
    ensures InitialCells()[y * 8 + x] ==
      if (x + y) % 2 != 0 then Empty
      else if y <= 2 then WhiteNormal
      else if y >= 5 then BlackNormal
      else Empty
  {
    var k := y * 8 + x;
    assert k % 8 == x && k / 8 == y;
    InitialCellsSpec(k);
  }

  // ---------------------------------------------------------------------------
  // The start squares

  lemma WhiteStartSquares(pt: Square)
    requires pt in WhiteStart
    ensures 0 <= pt.0 < 8 && 0 <= pt.1 <= 2 && (pt.0 + pt.1) % 2 == 0
  {
  }

  lemma BlackStartSquares(pt: Square)
    requires pt in BlackStart
    ensures 0 <= pt.0 < 8 && 5 <= pt.1 < 8 && (pt.0 + pt.1) % 2 == 0
  {
  }

  lemma FrontRowSquares(pt: Square)
    requires pt in FrontRow
    ensures 1 <= pt.0 < 8 && pt.1 == 5 && (pt.0 + pt.1) % 2 == 0
  {
  }

  lemma BackRowSquares(pt: Square)
    requires pt in BackRows
    ensures 0 <= pt.0 < 8 && 6 <= pt.1 < 8 && (pt.0 + pt.1) % 2 == 0
  {
  }
  // ---------------------------------------------------------------------------
  // What each man of the start position may do, with Black to move

  /** Rows 0 to 2 hold no black man, so nothing there is Black's to move. */
  lemma WhiteIdle(x: int, y: int)
    requires 0 <= x < 8 && 0 <= y <= 2
    ensures !HasMove(InitialCells(), Black, x, y) && !HasJump(InitialCells(), Black, x, y)
  {
    StartSquare(x, y);
    assert Index(x, y) == Some(y * 8 + x);
    assert !MoverAt(InitialCells(), Black, x, y);
  }

  /** No black man can capture: the squares in front of them hold no white man. */
  lemma BlackNoJump(x: int, y: int)
    requires 0 <= x < 8 && 5 <= y < 8
    ensures !HasJump(InitialCells(), Black, x, y)
  {
    forall d ensures !IsJump(InitialCells(), Black, x, y, d) {
      NoJumpTo(x, y, d);
    }
  }

  lemma NoJumpTo(x: int, y: int, d: Point)
    requires 0 <= x < 8 && 5 <= y < 8
    ensures !IsJump(InitialCells(), Black, x, y, d)
  {
    if IsJump(InitialCells(), Black, x, y, d) {
      StartSquare(x, y);
      assert Index(x, y) == Some(y * 8 + x);
      ManJump(InitialCells(), x, y, d);
      NoWhiteMan((x + d.x) / 2, y - 1);
    }
  }

  /** A black man jumps forward, over a white piece on the row in front of it. */
  lemma ManJump(b: Cells, x: int, y: int, d: Point)
    requires IsJump(b, Black, x, y, d) && b[Index(x, y).value] == BlackNormal
    ensures OpponentAt(b, Black, (x + d.x) / 2, y - 1)
  {
    HalfWay(y, d.y);
  }

  /** Below row 3 no square holds a white man. */
  lemma NoWhiteMan(x: int, y: int)
    requires y >= 3
    ensures !OpponentAt(InitialCells(), Black, x, y)
  {
    if 0 <= x < 8 && y < 8 {
      StartSquare(x, y);
      assert Index(x, y) == Some(y * 8 + x);
    }
  }

  /** A man of the front row can step forward to the left. */
  lemma FrontMoves(x: int, y: int)
    requires 1 <= x < 8 && y == 5 && (x + y) % 2 == 0
    ensures HasMove(InitialCells(), Black, x, y)
  {
    StartSquare(x, y);
    StartSquare(x - 1, 4);
    assert Index(x, y) == Some(y * 8 + x);
    assert Index(x - 1, 4) == Some(4 * 8 + x - 1);
    assert IsStep(InitialCells(), Black, x, y, Point(x - 1, 4));
  }

  /** A man behind the front row is blocked. */
  lemma BackIdle(x: int, y: int)
    requires 0 <= x < 8 && 6 <= y < 8 && (x + y) % 2 == 0
    ensures !HasMove(InitialCells(), Black, x, y)
  {
    forall d ensures !IsStep(InitialCells(), Black, x, y, d) && !IsJump(InitialCells(), Black, x, y, d) {
      NoStepTo(x, y, d);
      NoJumpTo(x, y, d);
    }
  }

  lemma NoStepTo(x: int, y: int, d: Point)
    requires 0 <= x < 8 && 6 <= y < 8 && (x + y) % 2 == 0
    ensures !IsStep(InitialCells(), Black, x, y, d)
  {
    if IsStep(InitialCells(), Black, x, y, d) {
      StartSquare(x, y);
      assert Index(x, y) == Some(y * 8 + x);
      ManStep(InitialCells(), x, y, d);
      StartSquare(d.x, d.y);
    }
  }

  /** A black man steps forward, diagonally, onto an empty square of the board. */
  lemma ManStep(b: Cells, x: int, y: int, d: Point)
    requires IsStep(b, Black, x, y, d) && b[Index(x, y).value] == BlackNormal
    ensures d.y == y - 1 && (d.x == x - 1 || d.x == x + 1) && 0 <= d.x < 8 && 0 <= d.y < 8
  {
  }
  // ---------------------------------------------------------------------------
  // The board `new` builds

  /** `create_positions` of the start cells: the white men, then the black men, each in cell order. */
  lemma StartPositionsListed()
    ensures CreatePositions(InitialCells()) == WhiteStart + BlackStart
  {
    var v := InitialCells();
    var ps := CreatePositions(v);
    CreatePositionsSpec(v);
    forall pt ensures pt in ps <==> pt in WhiteStart + BlackStart {
      StartMember(pt);
      Listed(State(ps, v, Black, [], Nobody, [], 0), pt);
    }
    StartAscending();
    AscendingUnique(ps, WhiteStart + BlackStart);
  }

  /** The white and then the black start squares are in ascending cell order. */
  lemma StartAscending()
    ensures Ascending(WhiteStart + BlackStart)
  {
    WhiteAscending();
    BlackAscending();
    forall x, y | x in WhiteStart && y in BlackStart ensures CellOf(x) < CellOf(y) {
      WhiteStartSquares(x);
      BlackStartSquares(y);
    }
    AscendingAppend(WhiteStart, BlackStart);
  }

  lemma WhiteAscending()
    ensures Ascending(WhiteStart)
  {
  }

  lemma BlackAscending()
    ensures Ascending(BlackStart)
  {
  }

  /** A square is occupied in the start position exactly when it is a start square of either side. */
  lemma StartMember(pt: Square)
    ensures Occupancy(InitialCells(), pt) == 1 <==> pt in WhiteStart + BlackStart
  {
    if pt in WhiteStart {
      WhiteStartSquares(pt);
    }
    if pt in BlackStart {
      BlackStartSquares(pt);
    }
    if OnBoard(pt) {
      StartSquare(pt.0, pt.1);
      assert Index(pt.0, pt.1) == Some(pt.1 * 8 + pt.0);
    }
  }
  /** `update_valid_pieces_to_move` on the start position: nobody can capture, and only the front row can move. */
  lemma StartEligible()
    ensures EligibleFor(WhiteStart + BlackStart, InitialCells(), Black) == FrontRow
  {
    var v := InitialCells();
    var ps := WhiteStart + BlackStart;
    forall pt | pt in ps ensures !CanJump(v, Black)(pt) {
      if pt in WhiteStart {
        WhiteStartSquares(pt);
        WhiteIdle(pt.0, pt.1);
      } else {
        BlackStartSquares(pt);
        BlackNoJump(pt.0, pt.1);
      }
      CanRemovePieceSpec(v, Black, pt.0, pt.1);
    }
    FilterNone(ps, CanJump(v, Black));
    StartMovers();
  }

  /** `pieces_that_can_move` on the start position. */
  lemma StartMovers()
    ensures PiecesThatCanMove(WhiteStart + BlackStart, InitialCells(), Black) == FrontRow
  {
    assert BlackStart == FrontRow + BackRows;
    WhiteCannotMove();
    FrontRowCanMove();
    BackRowsCannotMove();
    FilterMiddle(WhiteStart, FrontRow, BackRows, CanMove(InitialCells(), Black));
  }

  lemma FilterMiddle<T(!new)>(a: seq<T>, b: seq<T>, c: seq<T>, f: T -> bool)
    requires Filter(a, f) == [] && Filter(b, f) == b && Filter(c, f) == []
    ensures Filter(a + (b + c), f) == b
  {
    FilterAppend(a, b + c, f);
    FilterAppend(b, c, f);
  }

  lemma FilterSizes<T(!new)>(a: seq<T>, b: seq<T>, f: T -> bool)
    ensures |Filter(a + b, f)| == |Filter(a, f)| + |Filter(b, f)|
  {
    FilterAppend(a, b, f);
  }

  lemma WhiteCannotMove()
    ensures Filter(WhiteStart, CanMove(InitialCells(), Black)) == []
  {
    forall pt | pt in WhiteStart ensures !CanMove(InitialCells(), Black)(pt) {
      WhiteStartSquares(pt);
      WhiteIdle(pt.0, pt.1);
      MovesForSome(InitialCells(), Black, pt.0, pt.1);
    }
    FilterNone(WhiteStart, CanMove(InitialCells(), Black));
  }

  lemma FrontRowCanMove()
    ensures Filter(FrontRow, CanMove(InitialCells(), Black)) == FrontRow
  {
    forall pt | pt in FrontRow ensures CanMove(InitialCells(), Black)(pt) {
      FrontRowSquares(pt);
      FrontMoves(pt.0, pt.1);
      MovesForSome(InitialCells(), Black, pt.0, pt.1);
    }
    FilterAll(FrontRow, CanMove(InitialCells(), Black));
  }

  lemma BackRowsCannotMove()
    ensures Filter(BackRows, CanMove(InitialCells(), Black)) == []
  {
    forall pt | pt in BackRows ensures !CanMove(InitialCells(), Black)(pt) {
      BackRowSquares(pt);
      BackIdle(pt.0, pt.1);
      MovesForSome(InitialCells(), Black, pt.0, pt.1);
    }
    FilterNone(BackRows, CanMove(InitialCells(), Black));
  }

  /** Each side starts with twelve men and no dame. */
  lemma StartCounts()
    ensures AllOnBoard(WhiteStart + BlackStart)
    ensures CountNormal(WhiteStart + BlackStart, InitialCells(), White) == 12
    ensures CountNormal(WhiteStart + BlackStart, InitialCells(), Black) == 12
    ensures CountDame(WhiteStart + BlackStart, InitialCells(), White) == 0
    ensures CountDame(WhiteStart + BlackStart, InitialCells(), Black) == 0
  {
    StartMen(White);
    StartMen(Black);
    StartDames(White);
    StartDames(Black);
  }

  lemma StartMen(p: Player)
    requires p != Nobody
    ensures AllOnBoard(WhiteStart + BlackStart)
    ensures CountNormal(WhiteStart + BlackStart, InitialCells(), p) == 12
  {
    StartsOnBoard();
    OnBoardAppend(WhiteStart, BlackStart);
    MenCount(WhiteStart, White, p);
    MenCount(BlackStart, Black, p);
    FilterSizes(WhiteStart, BlackStart, NormalOf(InitialCells(), p));
  }

  /** How many men of `p` one side's start squares hold: all twelve for that side, none for the other. */
  lemma MenCount(xs: seq<Square>, side: Player, p: Player)
    requires side != Nobody && xs == (if side == White then WhiteStart else BlackStart)
    ensures |Filter(xs, NormalOf(InitialCells(), p))| == if p == side then 12 else 0
  {
    MenFilter(xs, side, p);
    StartLengths();
    if p == side {
      assert |Filter(xs, NormalOf(InitialCells(), p))| == |xs|;
    }
  }

  lemma StartLengths()
    ensures |WhiteStart| == 12 && |BlackStart| == 12
  {
  }

  lemma OnBoardAppend(a: seq<Square>, b: seq<Square>)
    requires AllOnBoard(a) && AllOnBoard(b)
    ensures AllOnBoard(a + b)
  {
  }

  lemma StartDames(p: Player)
    ensures AllOnBoard(WhiteStart + BlackStart)
    ensures CountDame(WhiteStart + BlackStart, InitialCells(), p) == 0
  {
    StartsOnBoard();
    DameFilter(WhiteStart, p);
    DameFilter(BlackStart, p);
    OnBoardAppend(WhiteStart, BlackStart);
    FilterSizes(WhiteStart, BlackStart, DameOf(InitialCells(), p));
  }

  /** The men of one side, filtered by the side of `count_normal`: all of them for their own side, none for the other. */
  lemma MenFilter(xs: seq<Square>, side: Player, p: Player)
    requires side != Nobody && xs == (if side == White then WhiteStart else BlackStart)
    ensures Filter(xs, NormalOf(InitialCells(), p)) == if p == side then xs else []
  {
    forall pt | pt in xs ensures NormalOf(InitialCells(), p)(pt) == (p == side) {
      if side == White { WhiteStartSquares(pt); } else { BlackStartSquares(pt); }
      ManOf(pt, p);
    }
    FilterConst(xs, NormalOf(InitialCells(), p), p == side);
  }

  /** No start square holds a dame. */
  lemma DameFilter(xs: seq<Square>, p: Player)
    requires xs == WhiteStart || xs == BlackStart
    ensures Filter(xs, DameOf(InitialCells(), p)) == []
  {
    forall pt | pt in xs ensures !DameOf(InitialCells(), p)(pt) {
      if xs == WhiteStart { WhiteStartSquares(pt); } else { BlackStartSquares(pt); }
      ManOf(pt, p);
    }
    FilterConst(xs, DameOf(InitialCells(), p), false);
  }

  lemma FilterConst<T(!new)>(xs: seq<T>, f: T -> bool, pass: bool)
    requires forall x :: x in xs ==> f(x) == pass
    ensures Filter(xs, f) == if pass then xs else []
  {
    if pass { FilterAll(xs, f); } else { FilterNone(xs, f); }
  }

  /** The man on a start square, as the filters of `count_normal` and `count_dame` see it. */
  lemma ManOf(pt: Square, p: Player)
    requires 0 <= pt.0 < 8 && 0 <= pt.1 < 8 && (pt.0 + pt.1) % 2 == 0 && (pt.1 <= 2 || pt.1 >= 5)
    ensures NormalOf(InitialCells(), p)(pt) == ((p == White && pt.1 <= 2) || (p == Black && pt.1 >= 5))
    ensures !DameOf(InitialCells(), p)(pt)
  {
    ManAt(pt.0, pt.1);
  }

  /** The kind and side of the man on a start square, in the terms `count_normal` and `count_dame` use. */
  lemma ManAt(x: int, y: int)
    requires 0 <= x < 8 && 0 <= y < 8 && (x + y) % 2 == 0 && (y <= 2 || y >= 5)
    ensures var v := InitialCells();
      OnBoard((x, y)) && !IsDame(v, x, y) && IsNormal(v, x, y) &&
      IsPlayer(v, x, y, White) == (y <= 2) && IsPlayer(v, x, y, Black) == (y >= 5)
  {
    StartSquare(x, y);
    assert Index(x, y) == Some(y * 8 + x);
  }
  // ---------------------------------------------------------------------------
  // The board `new` returns, and the examples of its tests

  /**
   * `Board::new()`: the men of both sides listed from the start cells, Black
   * to move, no winner, the four front-row black men eligible, and twelve men
   * and no dame per side.
   */
  lemma NewBoard()
    ensures var s := FromCells(InitialCells());
      s.positions == WhiteStart + BlackStart && s.nextMove == Black && s.winner == Nobody &&
      s.eligible == FrontRow && s.lastMoves == [] && s.moveNo == 0
    ensures var s := FromCells(InitialCells());
      AllOnBoard(s.positions) &&
      CountNormal(s.positions, s.board, White) == 12 && CountNormal(s.positions, s.board, Black) == 12 &&
      CountDame(s.positions, s.board, White) == 0 && CountDame(s.positions, s.board, Black) == 0
  {
    StartPositionsListed();
    StartEligible();
    StartCounts();
  }

  /** The corner `(0, 0)` holds a white man, `(1, 0)` is empty, `(0, 6)` holds a black man, and `(0, 8)` and `(8, 0)` are off the board. */
  lemma StartColors()
    ensures IsColor(InitialCells(), 0, 0, WhiteNormal)
    ensures IsColor(InitialCells(), 1, 0, Empty)
    ensures IsColor(InitialCells(), 0, 6, BlackNormal)
    ensures ColorAt(InitialCells(), 0, 0) == Some(WhiteNormal) && ColorAt(InitialCells(), 1, 0) == Some(Empty)
    ensures ColorAt(InitialCells(), 0, 6) == Some(BlackNormal)
    ensures ColorAt(InitialCells(), 0, 8).None? && ColorAt(InitialCells(), 8, 0).None?
  {
    StartSquare(0, 0);
    StartSquare(1, 0);
    StartSquare(0, 6);
  }

  /** The black man on `(1, 5)` has the two steps to `(0, 4)` and `(2, 4)`. */
  lemma StartMovesExample()
    ensures MovesFor(InitialCells(), Black, 1, 5) == Some([Point(0, 4), Point(2, 4)])
  {
    StartSquare(1, 5);
    StartSquare(0, 4);
    StartSquare(2, 4);
    FrontSteps(InitialCells());
  }

  /** A black man on `(1, 5)` with both squares in front of it empty has exactly those two steps. */
  lemma FrontSteps(b: Cells)
    requires ColorAt(b, 1, 5) == Some(BlackNormal)
    requires IsEmpty(b, 0, 4) && IsEmpty(b, 2, 4)
    ensures MovesFor(b, Black, 1, 5) == Some([Point(0, 4), Point(2, 4)])
  {
    var cs := MoveCandidates(b, 1, 5, -1, White);
    assert !IsEmpty(b, -1, 3);
    assert !IsPlayer(b, 2, 4, White);
    assert cs == [(0, 4, true), (2, 4, true), (-1, 3, false), (3, 3, false)];
    FlaggedTwo(cs);
    var ms := MovePiece(b, 1, 5, -1, White);
    assert ms == [(0, 4), (2, 4)];
    assert Candidates(b, Black, 1, 5) == Some(ms);
    FilterNone(ms, TwoRowsFrom(5));
    assert |ToPoints(Filter(ms, TwoRowsFrom(5)))| == 0;
    assert ToPoints(ms) == [Point(0, 4), Point(2, 4)];
  }

  lemma FlaggedTwo(cs: seq<(int, int, bool)>)
    requires |cs| == 4 && cs[0].2 && cs[1].2 && !cs[2].2 && !cs[3].2
    ensures Filter(cs, Flagged) == cs[..2]
  {
    assert cs == cs[..2] + cs[2..];
    FilterAppend(cs[..2], cs[2..], Flagged);
    FilterAll(cs[..2], Flagged);
    FilterNone(cs[2..], Flagged);
  }
}
