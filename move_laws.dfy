/**
 * What the move generator of rust_engine/src/board/board.rs computes, stated
 * against an independent, declarative description of the draughts rules:
 * a step is one square diagonally in a direction the piece may travel, onto an
 * empty square; a jump is two squares diagonally over a piece of the opponent,
 * onto an empty square. Men travel forward only (White towards row 7, Black
 * towards row 0), dames both ways; a piece with a jump must jump, and when any
 * piece of the side to move can jump, only jumpers are eligible.
 */
module MoveLaws {
  import opened Wrappers
  import opened Seqs
  import opened Rules

  /** The side a square's content belongs to. */
  function Owner(c: Color): Player {
    match c
    case WhiteNormal | WhiteDame => White
    case BlackNormal | BlackDame => Black
    case Empty => Nobody
  }

  /** The row directions a piece may travel in. */
  predicate MayTravel(c: Color, dir: int) {
    match c
    case WhiteNormal => dir == 1
    case BlackNormal => dir == -1
    case WhiteDame | BlackDame => dir == 1 || dir == -1
    case Empty => false
  }

  /** `(x, y)` holds a piece of the opponent of `next`. */
  ghost predicate OpponentAt(b: Cells, next: Player, x: int, y: int) {
    Index(x, y).Some? && next != Nobody && Owner(b[Index(x, y).value]) == OtherPlayer(next)
  }

  /** The piece on `(x, y)` belongs to the side to move. */
  ghost predicate MoverAt(b: Cells, next: Player, x: int, y: int) {
    Index(x, y).Some? && Matching(next, b[Index(x, y).value])
  }

  /** A plain step of the mover's piece on `(x, y)` to `d`. */
  ghost predicate IsStep(b: Cells, next: Player, x: int, y: int, d: Point) {
    MoverAt(b, next, x, y) && Abs(d.x - x) == 1 &&
    MayTravel(b[Index(x, y).value], d.y - y) && IsEmpty(b, d.x, d.y)
  }

  /** A capturing jump of the mover's piece on `(x, y)` to `d`. */
  ghost predicate IsJump(b: Cells, next: Player, x: int, y: int, d: Point) {
    MoverAt(b, next, x, y) && Abs(d.x - x) == 2 && Abs(d.y - y) == 2 &&
    MayTravel(b[Index(x, y).value], (d.y - y) / 2) && IsEmpty(b, d.x, d.y) &&
    OpponentAt(b, next, (x + d.x) / 2, (y + d.y) / 2)
  }

  ghost predicate HasJump(b: Cells, next: Player, x: int, y: int) {
    exists d :: IsJump(b, next, x, y, d)
  }

  ghost predicate HasMove(b: Cells, next: Player, x: int, y: int) {
    exists d :: IsStep(b, next, x, y, d) || IsJump(b, next, x, y, d)
  }

  // ---------------------------------------------------------------------------
  // move_piece and the colour dispatch

  /** A candidate square is kept whatever its flag was; `Filter` then decides which flags survive. */
  lemma ProjectIn(cs: seq<(int, int, bool)>, e: Square)
    ensures e in Project(cs) <==> (e.0, e.1, true) in cs || (e.0, e.1, false) in cs
  {
    if e in Project(cs) {
      var i :| 0 <= i < |cs| && Project(cs)[i] == e;
      assert cs[i] == (e.0, e.1, cs[i].2) && cs[i] in cs;
      if cs[i].2 { assert (e.0, e.1, true) in cs; } else { assert (e.0, e.1, false) in cs; }
    }
    if (e.0, e.1, true) in cs {
      var i :| 0 <= i < |cs| && cs[i] == (e.0, e.1, true);
      assert Project(cs)[i] == e;
    }
    if (e.0, e.1, false) in cs {
      var i :| 0 <= i < |cs| && cs[i] == (e.0, e.1, false);
      assert Project(cs)[i] == e;
    }
  }
  lemma IsPlayerOwner(b: Cells, x: int, y: int, p: Player)
    requires Index(x, y).Some?
    ensures IsPlayer(b, x, y, p) <==> p != Nobody && Owner(b[Index(x, y).value]) == p
  {
  }

  /** `move_piece` keeps exactly the candidates whose flag is set. */
  lemma MovePieceIn(b: Cells, x: int, y: int, dir: int, p: Player, e: Square)
    requires Index(x, y).Some? && (dir == 1 || dir == -1)
    ensures var cand := MoveCandidates(b, x, y, dir, p);
      var t := (e.0, e.1, true);
      e in MovePiece(b, x, y, dir, p) <==> (t == cand[0] || t == cand[1] || t == cand[2] || t == cand[3])
  {
    var cand := MoveCandidates(b, x, y, dir, p);
    ProjectIn(Filter(cand, Flagged), e);
    var t := (e.0, e.1, true);
    assert t in cand <==> (t == cand[0] || t == cand[1] || t == cand[2] || t == cand[3]);
  }

  /** The jump candidate over `(mx, my)`: its flag says the jumped square holds a piece of the opponent. */
  lemma JumpOver(b: Cells, next: Player, x: int, y: int, d: Point, mx: int, my: int)
    requires next != Nobody && Index(mx, my).Some?
    requires mx == (x + d.x) / 2 && my == (y + d.y) / 2
    ensures IsPlayer(b, mx, my, OtherPlayer(next)) <==> OpponentAt(b, next, (x + d.x) / 2, (y + d.y) / 2)
  {
    IsPlayerOwner(b, mx, my, OtherPlayer(next));
  }

  /** One direction of `move_piece` for a piece of the side to move: its steps, and its jumps over an opponent. */
  lemma OneDirection(b: Cells, next: Player, x: int, y: int, dir: int, d: Point)
    requires MoverAt(b, next, x, y) && (dir == 1 || dir == -1)
    ensures (d.x, d.y) in MovePiece(b, x, y, dir, OtherPlayer(next)) <==>
      (Abs(d.x - x) == 1 && d.y == y + dir && IsEmpty(b, d.x, d.y)) ||
      (Abs(d.x - x) == 2 && d.y == y + 2 * dir && IsEmpty(b, d.x, d.y) &&
       OpponentAt(b, next, (x + d.x) / 2, (y + d.y) / 2))
  {
    var p := OtherPlayer(next);
    if d.y == y + dir && (d.x == x - 1 || d.x == x + 1) {
      StepSide(b, next, x, y, dir, d);
    } else if d.y == y + 2 * dir && (d.x == x - 2 || d.x == x + 2) {
      JumpSide(b, next, x, y, dir, d);
    } else {
      var cand := MoveCandidates(b, x, y, dir, p);
      var t := (d.x, d.y, true);
      MovePieceIn(b, x, y, dir, p, (d.x, d.y));
      assert t != cand[0] && t != cand[1] && t != cand[2] && t != cand[3];
    }
  }

  /** A diagonal step in direction `dir` is offered exactly when its square is empty. */
  lemma StepSide(b: Cells, next: Player, x: int, y: int, dir: int, d: Point)
    requires MoverAt(b, next, x, y) && (dir == 1 || dir == -1)
    requires d.y == y + dir && (d.x == x - 1 || d.x == x + 1)
    ensures (d.x, d.y) in MovePiece(b, x, y, dir, OtherPlayer(next)) <==> IsEmpty(b, d.x, d.y)
  {
    var p := OtherPlayer(next);
    var cand := MoveCandidates(b, x, y, dir, p);
    var t := (d.x, d.y, true);
    MovePieceIn(b, x, y, dir, p, (d.x, d.y));
    if d.x == x - 1 {
      assert t == cand[0] <==> IsEmpty(b, d.x, d.y);
    } else {
      assert t == cand[1] <==> IsEmpty(b, d.x, d.y);
    }
  }

  /** Half of a distance of two, measured either way. */
  lemma HalfWay(a: int, b: int)
    requires Abs(b - a) == 2
    ensures a + (b - a) / 2 == (a + b) / 2
    ensures b == a + 2 ==> (a + b) / 2 == a + 1
    ensures b == a - 2 ==> (a + b) / 2 == a - 1
  {
    if b == a + 2 {
      assert (b - a) / 2 == 1;
      assert a + b == 2 * (a + 1);
    } else {
      assert (b - a) / 2 == -1;
      assert a + b == 2 * (a - 1);
    }
  }

  /** A jump in direction `dir` is offered exactly when its square is empty and it passes over an opponent. */
  lemma JumpSide(b: Cells, next: Player, x: int, y: int, dir: int, d: Point)
    requires MoverAt(b, next, x, y) && (dir == 1 || dir == -1)
    requires d.y == y + 2 * dir && (d.x == x - 2 || d.x == x + 2)
    ensures (d.x, d.y) in MovePiece(b, x, y, dir, OtherPlayer(next)) <==>
      IsEmpty(b, d.x, d.y) && OpponentAt(b, next, (x + d.x) / 2, (y + d.y) / 2)
  {
    var p := OtherPlayer(next);
    var cand := MoveCandidates(b, x, y, dir, p);
    var t := (d.x, d.y, true);
    MovePieceIn(b, x, y, dir, p, (d.x, d.y));
    HalfWay(x, d.x);
    HalfWay(y, d.y);
    if d.x == x - 2 {
      assert t == cand[2] <==> IsEmpty(b, d.x, d.y) && IsPlayer(b, x - 1, y + dir, p);
      if IsEmpty(b, d.x, d.y) {
        JumpOver(b, next, x, y, d, x - 1, y + dir);
      }
    } else {
      assert t == cand[3] <==> IsEmpty(b, d.x, d.y) && IsPlayer(b, x + 1, y + dir, p);
      if IsEmpty(b, d.x, d.y) {
        JumpOver(b, next, x, y, d, x + 1, y + dir);
      }
    }
  }

  /** The squares a man or a dame of the side to move is offered, before the capture rule. */
  ghost predicate OfferedExactly(b: Cells, next: Player, x: int, y: int, d: Point, v: seq<Square>)
    requires MoverAt(b, next, x, y)
  {
    ((d.x, d.y) in v <==> IsStep(b, next, x, y, d) || IsJump(b, next, x, y, d)) &&
    ((d.x, d.y) in v ==> (Abs(d.y - y) == 2 <==> IsJump(b, next, x, y, d)))
  }

  /** In a direction the piece may travel, the squares `move_piece` describes are its steps and jumps in that direction. */
  lemma DirectionLaw(b: Cells, next: Player, x: int, y: int, dir: int, d: Point)
    requires MoverAt(b, next, x, y) && (dir == 1 || dir == -1) && MayTravel(b[Index(x, y).value], dir)
    ensures (Abs(d.x - x) == 1 && d.y == y + dir && IsEmpty(b, d.x, d.y)) <==>
      IsStep(b, next, x, y, d) && d.y == y + dir
    ensures (Abs(d.x - x) == 2 && d.y == y + 2 * dir && IsEmpty(b, d.x, d.y) &&
       OpponentAt(b, next, (x + d.x) / 2, (y + d.y) / 2)) <==>
      IsJump(b, next, x, y, d) && d.y == y + 2 * dir
  {
    if d.y == y + 2 * dir {
      assert (d.y - y) / 2 == dir;
    }
  }

  /** A man travels one way only: every step or jump of it goes in the direction `dir`. */
  lemma ManDirection(b: Cells, next: Player, x: int, y: int, dir: int, d: Point)
    requires MoverAt(b, next, x, y)
    requires dir == (if b[Index(x, y).value] == WhiteNormal then 1 else -1)
    requires b[Index(x, y).value] == WhiteNormal || b[Index(x, y).value] == BlackNormal
    ensures IsStep(b, next, x, y, d) ==> d.y == y + dir
    ensures IsJump(b, next, x, y, d) ==> d.y == y + 2 * dir
  {
    if IsJump(b, next, x, y, d) {
      assert (d.y - y) / 2 == dir;
    }
  }

  lemma ManCandidates(b: Cells, next: Player, x: int, y: int, d: Point)
    requires MoverAt(b, next, x, y)
    requires b[Index(x, y).value] == WhiteNormal || b[Index(x, y).value] == BlackNormal
    ensures Candidates(b, next, x, y).Some?
    ensures OfferedExactly(b, next, x, y, d, Candidates(b, next, x, y).value)
  {
    var c := b[Index(x, y).value];
    var dir := if c == WhiteNormal then 1 else -1;
    assert next == Owner(c);
    assert Candidates(b, next, x, y) == Some(MovePiece(b, x, y, dir, OtherPlayer(next)));
    OneDirection(b, next, x, y, dir, d);
    DirectionLaw(b, next, x, y, dir, d);
    ManDirection(b, next, x, y, dir, d);
  }

  /** A dame travels both ways: every step or jump of it goes up or down. */
  lemma DameDirection(b: Cells, next: Player, x: int, y: int, d: Point)
    requires MoverAt(b, next, x, y)
    ensures IsStep(b, next, x, y, d) ==> d.y == y + 1 || d.y == y - 1
    ensures IsJump(b, next, x, y, d) ==> d.y == y + 2 || d.y == y - 2
  {
  }

  lemma DameCandidates(b: Cells, next: Player, x: int, y: int, d: Point)
    requires MoverAt(b, next, x, y)
    requires b[Index(x, y).value] == WhiteDame || b[Index(x, y).value] == BlackDame
    ensures Candidates(b, next, x, y).Some?
    ensures OfferedExactly(b, next, x, y, d, Candidates(b, next, x, y).value)
  {
    var c := b[Index(x, y).value];
    assert next == Owner(c);
    var p := OtherPlayer(next);
    assert Candidates(b, next, x, y) == Some(MovePiece(b, x, y, 1, p) + MovePiece(b, x, y, -1, p));
    OneDirection(b, next, x, y, 1, d);
    OneDirection(b, next, x, y, -1, d);
    DirectionLaw(b, next, x, y, 1, d);
    DirectionLaw(b, next, x, y, -1, d);
    DameDirection(b, next, x, y, d);
  }

  /** The colour dispatch offers a square exactly when it is a step or a jump, and a jump exactly when it is two rows away. */
  lemma CandidatesSpec(b: Cells, next: Player, x: int, y: int, d: Point)
    ensures Candidates(b, next, x, y).Some? <==> MoverAt(b, next, x, y)
    ensures Candidates(b, next, x, y).Some? ==> OfferedExactly(b, next, x, y, d, Candidates(b, next, x, y).value)
  {
    if MoverAt(b, next, x, y) {
      var c := b[Index(x, y).value];
      if c == WhiteNormal || c == BlackNormal {
        ManCandidates(b, next, x, y, d);
      } else {
        DameCandidates(b, next, x, y, d);
      }
    }
  }

  // ---------------------------------------------------------------------------
  // moves_for and can_remove_piece

  lemma ToPointsIn(v: seq<Square>, d: Point)
    ensures d in ToPoints(v) <==> (d.x, d.y) in v
  {
    if d in ToPoints(v) {
      var i :| 0 <= i < |v| && ToPoints(v)[i] == d;
      assert v[i] == (d.x, d.y);
    }
    if (d.x, d.y) in v {
      var i :| 0 <= i < |v| && v[i] == (d.x, d.y);
      assert ToPoints(v)[i] == d;
    }
  }

  /** Every destination `moves_for` offers is a step or a jump of a piece of the side to move. */
  lemma MovesForSound(b: Cells, next: Player, x: int, y: int, d: Point)
    requires MovesFor(b, next, x, y).Some? && d in MovesFor(b, next, x, y).value
    ensures MoverAt(b, next, x, y)
    ensures IsJump(b, next, x, y, d) || IsStep(b, next, x, y, d)
  {
    CandidatesSpec(b, next, x, y, d);
    var v := Candidates(b, next, x, y).value;
    ToPointsIn(Filter(v, TwoRowsFrom(y)), d);
    ToPointsIn(v, d);
  }

  /** A piece with a jump is offered its jumps and nothing else. */
  lemma MovesForWithJump(b: Cells, next: Player, x: int, y: int, d: Point)
    requires HasJump(b, next, x, y)
    ensures MovesFor(b, next, x, y).Some?
    ensures d in MovesFor(b, next, x, y).value <==> IsJump(b, next, x, y, d)
  {
    WithJumpJumps(b, next, x, y);
    CandidatesSpec(b, next, x, y, d);
    var v := Candidates(b, next, x, y).value;
    JumpsOffered(b, next, x, y, d, v);
    ToPointsIn(Filter(v, TwoRowsFrom(y)), d);
  }

  /** Among the offered squares, those two rows away are exactly the jumps. */
  lemma JumpsOffered(b: Cells, next: Player, x: int, y: int, d: Point, v: seq<Square>)
    requires MoverAt(b, next, x, y) && OfferedExactly(b, next, x, y, d, v)
    ensures (d.x, d.y) in Filter(v, TwoRowsFrom(y)) <==> IsJump(b, next, x, y, d)
  {
    assert (d.x, d.y) in Filter(v, TwoRowsFrom(y)) <==> (d.x, d.y) in v && Abs(d.y - y) == 2;
  }

  /** A piece with a jump is offered the candidates two rows away, and there are some. */
  lemma WithJumpJumps(b: Cells, next: Player, x: int, y: int)
    requires HasJump(b, next, x, y)
    ensures MoverAt(b, next, x, y) && Candidates(b, next, x, y).Some?
    ensures MovesFor(b, next, x, y) == Some(ToPoints(Filter(Candidates(b, next, x, y).value, TwoRowsFrom(y))))
  {
    var j :| IsJump(b, next, x, y, j);
    CandidatesSpec(b, next, x, y, j);
    var v := Candidates(b, next, x, y).value;
    JumpsOffered(b, next, x, y, j, v);
    var js := Filter(v, TwoRowsFrom(y));
    assert |ToPoints(js)| > 0;
  }

  /** Without a jump, no candidate of the colour dispatch is two rows away. */
  lemma NoJumpCandidate(b: Cells, next: Player, x: int, y: int, sq: Square)
    requires !HasJump(b, next, x, y) && MoverAt(b, next, x, y)
    requires sq in Candidates(b, next, x, y).value
    ensures !TwoRowsFrom(y)(sq)
  {
    var j := Point(sq.0, sq.1);
    CandidatesSpec(b, next, x, y, j);
    assert !IsJump(b, next, x, y, j);
    NotJumpOffered(b, next, x, y, j, Candidates(b, next, x, y).value);
  }

  /** An offered square that is not a jump is not two rows away. */
  lemma NotJumpOffered(b: Cells, next: Player, x: int, y: int, d: Point, v: seq<Square>)
    requires MoverAt(b, next, x, y) && OfferedExactly(b, next, x, y, d, v)
    requires (d.x, d.y) in v && !IsJump(b, next, x, y, d)
    ensures !TwoRowsFrom(y)((d.x, d.y))
  {
  }

  /** Without a jump, `moves_for` offers every candidate of the colour dispatch (if there is one). */
  lemma NoJumpAll(b: Cells, next: Player, x: int, y: int)
    requires !HasJump(b, next, x, y) && MoverAt(b, next, x, y)
    ensures Candidates(b, next, x, y).Some?
    ensures var v := ToPoints(Candidates(b, next, x, y).value);
      MovesFor(b, next, x, y) == if |v| > 0 then Some(v) else None
  {
    CandidatesSpec(b, next, x, y, Point(x, y));
    var v := Candidates(b, next, x, y).value;
    forall sq | sq in v ensures !TwoRowsFrom(y)(sq) {
      NoJumpCandidate(b, next, x, y, sq);
    }
    FilterNone(v, TwoRowsFrom(y));
  }

  /** A piece without a jump is offered exactly its steps. */
  lemma MovesForWithoutJump(b: Cells, next: Player, x: int, y: int, d: Point)
    requires !HasJump(b, next, x, y)
    ensures (MovesFor(b, next, x, y).Some? && d in MovesFor(b, next, x, y).value) <==> IsStep(b, next, x, y, d)
  {
    CandidatesSpec(b, next, x, y, d);
    if MoverAt(b, next, x, y) {
      NoJumpAll(b, next, x, y);
      ToPointsIn(Candidates(b, next, x, y).value, d);
    }
  }

  /** `moves_for` offers exactly the jumps of the piece when it has one, and otherwise exactly its steps. */
  lemma MovesForSpec(b: Cells, next: Player, x: int, y: int, d: Point)
    ensures (MovesFor(b, next, x, y).Some? && d in MovesFor(b, next, x, y).value) <==>
      IsJump(b, next, x, y, d) || (IsStep(b, next, x, y, d) && !HasJump(b, next, x, y))
  {
    if HasJump(b, next, x, y) {
      MovesForWithJump(b, next, x, y, d);
    } else {
      MovesForWithoutJump(b, next, x, y, d);
    }
  }

  /** `moves_for` is `None` exactly when the square holds no piece of the side to move that has a step or a jump. */
  lemma MovesForSome(b: Cells, next: Player, x: int, y: int)
    ensures MovesFor(b, next, x, y).Some? <==> HasMove(b, next, x, y)
    ensures MovesFor(b, next, x, y).Some? ==> MoverAt(b, next, x, y) && |MovesFor(b, next, x, y).value| > 0
  {
    if MovesFor(b, next, x, y).Some? {
      var v := MovesFor(b, next, x, y).value;
      assert |v| > 0;
      MovesForSound(b, next, x, y, v[0]);
    }
    if HasMove(b, next, x, y) {
      var d :| IsStep(b, next, x, y, d) || IsJump(b, next, x, y, d);
      MovesForSpec(b, next, x, y, d);
      if !IsJump(b, next, x, y, d) && HasJump(b, next, x, y) {
        var j :| IsJump(b, next, x, y, j);
        MovesForSpec(b, next, x, y, j);
      }
    }
  }

  /** `can_remove_piece` holds exactly when the piece has a capturing jump. */
  lemma CanRemovePieceSpec(b: Cells, next: Player, x: int, y: int)
    ensures CanRemovePiece(b, next, x, y) <==> HasJump(b, next, x, y)
  {
    if CanRemovePiece(b, next, x, y) {
      CanRemoveHasJump(b, next, x, y);
    }
    if HasJump(b, next, x, y) {
      HasJumpCanRemove(b, next, x, y);
    }
  }

  lemma CanRemoveHasJump(b: Cells, next: Player, x: int, y: int)
    requires CanRemovePiece(b, next, x, y)
    ensures HasJump(b, next, x, y)
  {
    var v := MovesFor(b, next, x, y).value;
    var i :| 0 <= i < |v| && Abs(v[i].x - x) == 2;
    MovesForSound(b, next, x, y, v[i]);
    assert IsJump(b, next, x, y, v[i]);
  }

  lemma HasJumpCanRemove(b: Cells, next: Player, x: int, y: int)
    requires HasJump(b, next, x, y)
    ensures CanRemovePiece(b, next, x, y)
  {
    var j :| IsJump(b, next, x, y, j);
    MovesForSpec(b, next, x, y, j);
    var v := MovesFor(b, next, x, y).value;
    var i :| 0 <= i < |v| && v[i] == j;
    assert Abs(v[i].x - x) == 2;
  }

  // ---------------------------------------------------------------------------
  // Eligibility: the global forced-capture rule

  /** Some listed piece of the side to move has a capturing jump. */
  ghost predicate AnyJump(ps: seq<Square>, b: Cells, next: Player) {
    exists pt :: pt in ps && HasJump(b, next, pt.0, pt.1)
  }

  lemma PiecesThatCanJumpSpec(ps: seq<Square>, b: Cells, next: Player, pt: Square)
    ensures pt in PiecesThatCanJump(ps, b, next) <==> pt in ps && HasJump(b, next, pt.0, pt.1)
  {
    CanRemovePieceSpec(b, next, pt.0, pt.1);
  }

  lemma PiecesThatCanMoveSpec(ps: seq<Square>, b: Cells, next: Player, pt: Square)
    ensures pt in PiecesThatCanMove(ps, b, next) <==> pt in ps && HasMove(b, next, pt.0, pt.1)
  {
    MovesForSome(b, next, pt.0, pt.1);
  }

  /**
   * `update_valid_pieces_to_move`: when some listed piece can jump, exactly the
   * listed pieces with a jump are eligible; otherwise exactly the listed pieces
   * with any move.
   */
  lemma EligibleForSpec(ps: seq<Square>, b: Cells, next: Player, pt: Square)
    ensures pt in EligibleFor(ps, b, next) <==>
      pt in ps && (if AnyJump(ps, b, next) then HasJump(b, next, pt.0, pt.1) else HasMove(b, next, pt.0, pt.1))
  {
    var t := PiecesThatCanJump(ps, b, next);
    PiecesThatCanJumpSpec(ps, b, next, pt);
    PiecesThatCanMoveSpec(ps, b, next, pt);
    if AnyJump(ps, b, next) {
      var w :| w in ps && HasJump(b, next, w.0, w.1);
      PiecesThatCanJumpSpec(ps, b, next, w);
    }
    if |t| > 0 {
      assert t[0] in t;
      PiecesThatCanJumpSpec(ps, b, next, t[0]);
    }
  }

  /** Every eligible piece belongs to the side to move and has a move. */
  lemma EligibleForOwned(ps: seq<Square>, b: Cells, next: Player, pt: Square)
    requires pt in EligibleFor(ps, b, next)
    ensures MoverAt(b, next, pt.0, pt.1) && MovesFor(b, next, pt.0, pt.1).Some?
  {
    EligibleForSpec(ps, b, next, pt);
    PiecesThatCanMoveSpec(ps, b, next, pt);
    MovesForSome(b, next, pt.0, pt.1);
    if AnyJump(ps, b, next) {
      var d :| IsJump(b, next, pt.0, pt.1, d);
    }
  }

  // ---------------------------------------------------------------------------
  // valid_moves

  lemma PieceMovesSpec(b: Cells, next: Player, sq: Square, m: Move)
    ensures m in PieceMoves(b, next, sq) <==>
      (m.0, m.1) == sq && MovesFor(b, next, sq.0, sq.1).Some? && Point(m.2, m.3) in MovesFor(b, next, sq.0, sq.1).value
  {
    if MovesFor(b, next, sq.0, sq.1).Some? {
      var ds := MovesFor(b, next, sq.0, sq.1).value;
      if Point(m.2, m.3) in ds && (m.0, m.1) == sq {
        var k :| 0 <= k < |ds| && ds[k] == Point(m.2, m.3);
        assert PieceMoves(b, next, sq)[k] == m;
      }
    }
  }

  /** `valid_moves` lists exactly the destinations `moves_for` offers for the eligible pieces. */
  lemma {:induction false} AllMovesSpec(eligible: seq<Square>, b: Cells, next: Player, m: Move)
    ensures m in AllMoves(eligible, b, next) <==>
      (m.0, m.1) in eligible && MovesFor(b, next, m.0, m.1).Some? && Point(m.2, m.3) in MovesFor(b, next, m.0, m.1).value
  {
    if eligible != [] {
      var n := |eligible|;
      AllMovesSpec(eligible[..n - 1], b, next, m);
      PieceMovesSpec(b, next, eligible[n - 1], m);
      InLast(eligible, (m.0, m.1));
    }
  }

  /** An element of a non-empty sequence is in its front part or is its last element. */
  lemma InLast<T>(xs: seq<T>, x: T)
    requires xs != []
    ensures x in xs <==> x in xs[..|xs| - 1] || x == xs[|xs| - 1]
  {
    assert xs == xs[..|xs| - 1] + [xs[|xs| - 1]];
  }

  // ---------------------------------------------------------------------------
  // Move generation only looks at sides, and at the kind of the mover's own pieces

  /** Two boards agree on the side of every square and on every piece of `next`. */
  ghost predicate SameFor(b1: Cells, b2: Cells, next: Player) {
    forall k :: 0 <= k < 64 ==> Owner(b1[k]) == Owner(b2[k]) && (Owner(b1[k]) == next ==> b1[k] == b2[k])
  }

  lemma SameForSquare(b1: Cells, b2: Cells, next: Player, x: int, y: int, p: Player)
    requires SameFor(b1, b2, next)
    ensures IsEmpty(b1, x, y) == IsEmpty(b2, x, y)
    ensures Index(x, y).Some? ==> IsPlayer(b1, x, y, p) == IsPlayer(b2, x, y, p)
  {
    if Index(x, y).Some? {
      var k := Index(x, y).value;
      assert Owner(b1[k]) == Owner(b2[k]);
      IsPlayerOwner(b1, x, y, p);
      IsPlayerOwner(b2, x, y, p);
    }
  }

  lemma MovePieceSame(b1: Cells, b2: Cells, next: Player, x: int, y: int, dir: int, p: Player)
    requires SameFor(b1, b2, next)
    requires Index(x, y).Some? && (dir == 1 || dir == -1)
    ensures MovePiece(b1, x, y, dir, p) == MovePiece(b2, x, y, dir, p)
  {
    SameForSquare(b1, b2, next, x - 1, y + dir, p);
    SameForSquare(b1, b2, next, x + 1, y + dir, p);
    SameForSquare(b1, b2, next, x - 2, y + 2 * dir, p);
    SameForSquare(b1, b2, next, x + 2, y + 2 * dir, p);
    MoveCandidatesSame(b1, b2, x, y, dir, p);
  }

  /** The candidates of `move_piece` depend only on the emptiness of the four targets and the owners of the two squares jumped. */
  lemma MoveCandidatesSame(b1: Cells, b2: Cells, x: int, y: int, dir: int, p: Player)
    requires Index(x, y).Some? && (dir == 1 || dir == -1)
    requires IsEmpty(b1, x - 1, y + dir) == IsEmpty(b2, x - 1, y + dir)
    requires IsEmpty(b1, x + 1, y + dir) == IsEmpty(b2, x + 1, y + dir)
    requires IsEmpty(b1, x - 2, y + 2 * dir) == IsEmpty(b2, x - 2, y + 2 * dir)
    requires IsEmpty(b1, x + 2, y + 2 * dir) == IsEmpty(b2, x + 2, y + 2 * dir)
    requires Index(x - 1, y + dir).Some? ==> IsPlayer(b1, x - 1, y + dir, p) == IsPlayer(b2, x - 1, y + dir, p)
    requires Index(x + 1, y + dir).Some? ==> IsPlayer(b1, x + 1, y + dir, p) == IsPlayer(b2, x + 1, y + dir, p)
    ensures MoveCandidates(b1, x, y, dir, p) == MoveCandidates(b2, x, y, dir, p)
  {
  }

  /** `moves_for` gives the same answer on two boards that are the same for the side to move. */
  lemma MovesForSame(b1: Cells, b2: Cells, next: Player, x: int, y: int)
    requires SameFor(b1, b2, next)
    ensures MovesFor(b1, next, x, y) == MovesFor(b2, next, x, y)
  {
    CandidatesSame(b1, b2, next, x, y);
  }

  lemma CandidatesSame(b1: Cells, b2: Cells, next: Player, x: int, y: int)
    requires SameFor(b1, b2, next)
    ensures Candidates(b1, next, x, y) == Candidates(b2, next, x, y)
  {
    if Index(x, y).Some? {
      var k := Index(x, y).value;
      assert Owner(b1[k]) == Owner(b2[k]);
      if Matching(next, b1[k]) {
        assert b1[k] == b2[k];
        var p := OtherPlayer(next);
        MovePieceSame(b1, b2, next, x, y, 1, p);
        MovePieceSame(b1, b2, next, x, y, -1, p);
      } else {
        assert !Matching(next, b2[k]);
      }
    }
  }

  lemma EligibleForSame(ps: seq<Square>, b1: Cells, b2: Cells, next: Player)
    requires SameFor(b1, b2, next)
    ensures EligibleFor(ps, b1, next) == EligibleFor(ps, b2, next)
  {
    forall pt | pt in ps
      ensures CanMove(b1, next)(pt) == CanMove(b2, next)(pt) && CanJump(b1, next)(pt) == CanJump(b2, next)(pt)
    {
      MovesForSame(b1, b2, next, pt.0, pt.1);
    }
    FilterCongruent(ps, CanMove(b1, next), CanMove(b2, next));
    FilterCongruent(ps, CanJump(b1, next), CanJump(b2, next));
  }

  // ---------------------------------------------------------------------------
  // positions, count_normal, count_dame

  /** `positions(p)` lists exactly the listed squares whose piece belongs to `p`. */
  lemma PiecesOfSpec(ps: seq<Square>, b: Cells, p: Player, pt: Square)
    requires AllOnBoard(ps)
    ensures pt in PiecesOf(ps, b, p) <==>
      pt in ps && OnBoard(pt) && p != Nobody && Owner(b[Index(pt.0, pt.1).value]) == p
  {
    if pt in ps {
      IsPlayerOwner(b, pt.0, pt.1, p);
    }
  }

  /** Every piece of `p` is a man or a dame, so `count_normal` and `count_dame` together count `positions(p)`. */
  lemma PiecesCounted(ps: seq<Square>, b: Cells, p: Player)
    requires AllOnBoard(ps)
    ensures |PiecesOf(ps, b, p)| == CountNormal(ps, b, p) + CountDame(ps, b, p)
  {
    forall pt | pt in ps
      ensures PieceOf(b, p)(pt) == (NormalOf(b, p)(pt) || DameOf(b, p)(pt))
      ensures !(NormalOf(b, p)(pt) && DameOf(b, p)(pt))
    {
      IsPlayerOwner(b, pt.0, pt.1, p);
    }
    FilterSplit(ps, PieceOf(b, p), NormalOf(b, p), DameOf(b, p));
  }
}
