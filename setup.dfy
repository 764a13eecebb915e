/**
 * Construction of a `Board` in rust_engine/src/board/board.rs: `create_positions`
 * lists the occupied cells, `from` starts a game on given cells with Black to
 * move, and `new` places the twelve men of each side on their start squares.
 */
module Setup {
  import opened Wrappers
  import opened Seqs
  import opened Rules
  import opened MoveLaws
  import opened Transition

  /** The cell index of a square, `y * 8 + x`. */
  function CellOf(sq: Square): int { sq.1 * 8 + sq.0 }

  lemma CellOfCoord(k: nat)
    requires k < 64
    ensures CellOf(Coord(k)) == k && OnBoard(Coord(k))
  {
  }

  // ---------------------------------------------------------------------------
  // create_positions

  /** The squares of the occupied cells from cell `k` on, in index order. */
  function PositionsFrom(v: Cells, k: nat): seq<Square>
    requires k <= 64
    decreases 64 - k
  {
    if k == 64 then [] else (if v[k] != Empty then [Coord(k)] else []) + PositionsFrom(v, k + 1)
  }

  /** `create_positions`. */
  function CreatePositions(v: Cells): seq<Square> { PositionsFrom(v, 0) }

  lemma {:induction false} PositionsFromCount(v: Cells, k: nat, pt: Square)
    requires k <= 64
    ensures multiset(PositionsFrom(v, k))[pt] ==
      if OnBoard(pt) && k <= CellOf(pt) && v[CellOf(pt)] != Empty then 1 else 0
    decreases 64 - k
  {
    if k < 64 {
      PositionsFromCount(v, k + 1, pt);
      var head := if v[k] != Empty then [Coord(k)] else [];
      assert multiset(PositionsFrom(v, k)) == multiset(head) + multiset(PositionsFrom(v, k + 1));
      CoordIs(k, pt);
    }
  }

  /** A cell index names `pt` exactly when it is the cell of that square. */
  lemma CoordIs(k: nat, pt: Square)
    requires k < 64
    ensures Coord(k) == pt <==> OnBoard(pt) && CellOf(pt) == k
  {
    CellOfCoord(k);
    if OnBoard(pt) {
      assert Index(pt.0, pt.1) == Some(CellOf(pt));
    }
  }

  lemma {:induction false} PositionsFromBounds(v: Cells, k: nat)
    requires k <= 64
    ensures forall sq :: sq in PositionsFrom(v, k) ==> OnBoard(sq) && k <= CellOf(sq) < 64 && v[CellOf(sq)] != Empty
    decreases 64 - k
  {
    if k < 64 {
      PositionsFromBounds(v, k + 1);
      CellOfCoord(k);
    }
  }

  lemma {:induction false} PositionsFromOrdered(v: Cells, k: nat)
    requires k <= 64
    ensures forall i, j :: 0 <= i < j < |PositionsFrom(v, k)| ==> CellOf(PositionsFrom(v, k)[i]) < CellOf(PositionsFrom(v, k)[j])
    decreases 64 - k
  {
    if k < 64 {
      PositionsFromOrdered(v, k + 1);
      PositionsFromBounds(v, k + 1);
      CellOfCoord(k);
      var rest := PositionsFrom(v, k + 1);
      var r := PositionsFrom(v, k);
      if v[k] != Empty {
        assert r == [Coord(k)] + rest;
        AscendingCons(Coord(k), rest);
      } else {
        assert r == rest;
      }
    }
  }

  /** Squares in strictly ascending cell order. */
  predicate Ascending(ps: seq<Square>) {
    forall i, j :: 0 <= i < j < |ps| ==> CellOf(ps[i]) < CellOf(ps[j])
  }

  lemma AscendingCons(h: Square, rest: seq<Square>)
    requires Ascending(rest)
    requires forall sq :: sq in rest ==> CellOf(h) < CellOf(sq)
    ensures Ascending([h] + rest)
  {
    var r := [h] + rest;
    forall i, j | 0 <= i < j < |r| ensures CellOf(r[i]) < CellOf(r[j]) {
      assert r[j] == rest[j - 1] && rest[j - 1] in rest;
      if i > 0 { assert r[i] == rest[i - 1]; }
    }
  }

  /** Two lists in ascending cell order joined, the first wholly below the second, are in ascending order. */
  lemma AscendingAppend(a: seq<Square>, b: seq<Square>)
    requires Ascending(a) && Ascending(b)
    requires forall x, y :: x in a && y in b ==> CellOf(x) < CellOf(y)
    ensures Ascending(a + b)
  {
    var r := a + b;
    forall i, j | 0 <= i < j < |r| ensures CellOf(r[i]) < CellOf(r[j]) {
      if j < |a| {
        assert r[i] == a[i] && r[j] == a[j];
      } else if i >= |a| {
        assert r[i] == b[i - |a|] && r[j] == b[j - |a|];
      } else {
        assert r[i] == a[i] && a[i] in a && r[j] == b[j - |a|] && b[j - |a|] in b;
      }
    }
  }

  /** Without its head an ascending list holds exactly its other members. */
  lemma AscendingTail(a: seq<Square>)
    requires Ascending(a) && a != []
    ensures Ascending(a[1..])
    ensures forall x :: x in a[1..] <==> x in a && x != a[0]
  {
    forall x | x in a && x != a[0] ensures x in a[1..] {
      var i :| 0 <= i < |a| && a[i] == x;
      assert a[1..][i - 1] == x;
    }
    forall x | x in a[1..] ensures x != a[0] {
      var i :| 0 <= i < |a| - 1 && a[1..][i] == x;
      assert CellOf(a[0]) < CellOf(a[i + 1]);
    }
  }

  lemma NoMembers<T>(xs: seq<T>)
    ensures xs == [] <==> forall x :: x !in xs
  {
    if xs != [] {
      assert xs[0] in xs;
    }
  }

  /** A list in ascending cell order is determined by its members. */
  lemma {:induction false} AscendingUnique(a: seq<Square>, b: seq<Square>)
    requires Ascending(a) && Ascending(b)
    requires forall x :: x in a <==> x in b
    ensures a == b
    decreases |a|
  {
    if a == [] || b == [] {
      NoMembers(a);
      NoMembers(b);
    } else {
      assert a[0] in b && b[0] in a;
      var i :| 0 <= i < |a| && a[i] == b[0];
      var j :| 0 <= j < |b| && b[j] == a[0];
      assert CellOf(a[0]) <= CellOf(a[i]);
      assert CellOf(b[0]) <= CellOf(b[j]);
      assert i == 0;
      AscendingTail(a);
      AscendingTail(b);
      AscendingUnique(a[1..], b[1..]);
      assert a == [a[0]] + a[1..] && b == [b[0]] + b[1..];
    }
  }

  /** `create_positions` lists every occupied cell once, in ascending cell order, and nothing else. */
  lemma CreatePositionsSpec(v: Cells)
    ensures PositionsAgree(CreatePositions(v), v)
    ensures forall sq :: sq in CreatePositions(v) ==> OnBoard(sq) && v[CellOf(sq)] != Empty
    ensures forall i, j :: 0 <= i < j < |CreatePositions(v)| ==> CellOf(CreatePositions(v)[i]) < CellOf(CreatePositions(v)[j])
  {
    PositionsFromOrdered(v, 0);
    PositionsFromBounds(v, 0);
    forall pt ensures multiset(CreatePositions(v))[pt] == Occupancy(v, pt) {
      CreatePositionsCount(v, pt);
    }
  }

  lemma CreatePositionsCount(v: Cells, pt: Square)
    ensures multiset(CreatePositions(v))[pt] == Occupancy(v, pt)
  {
    PositionsFromCount(v, 0, pt);
    OccupancyCell(v, pt);
  }

  lemma OccupancyCell(v: Cells, pt: Square)
    ensures Occupancy(v, pt) == if OnBoard(pt) && 0 <= CellOf(pt) && v[CellOf(pt)] != Empty then 1 else 0
  {
    if OnBoard(pt) {
      assert Index(pt.0, pt.1) == Some(CellOf(pt));
    }
  }

  // ---------------------------------------------------------------------------
  // from

  /** `from(v)`: Black to move, no winner, no moves yet, and the eligible list the forced-capture rule gives. */
  function FromCells(v: Cells): (s: State)
    ensures s.board == v && s.nextMove == Black && s.winner == Nobody && s.lastMoves == [] && s.moveNo == 0
    ensures s.eligible == EligibleFor(s.positions, v, Black)
  {
    var ps := CreatePositions(v);
    State(ps, v, Black, EligibleFor(ps, v, Black), Nobody, [], 0)
  }

  /** A board built by `from` satisfies the invariant. */
  lemma FromWellFormed(v: Cells)
    ensures WellFormed(FromCells(v))
  {
    CreatePositionsSpec(v);
  }

  // ---------------------------------------------------------------------------
  // new

  /** The start squares of the white and of the black men. */
  const WhiteStart: seq<Square> := [
    (0, 0), (2, 0), (4, 0), (6, 0), (1, 1), (3, 1), (5, 1), (7, 1),
    (0, 2), (2, 2), (4, 2), (6, 2)]
  const BlackStart: seq<Square> := [
    (1, 5), (3, 5), (5, 5), (7, 5), (0, 6), (2, 6), (4, 6), (6, 6),
    (1, 7), (3, 7), (5, 7), (7, 7)]

  /** Every start square is on the board. */
  lemma StartsOnBoard()
    ensures AllOnBoard(WhiteStart) && AllOnBoard(BlackStart)
  {
    forall pt | pt in WhiteStart ensures OnBoard(pt) {
      var i :| 0 <= i < |WhiteStart| && WhiteStart[i] == pt;
    }
    forall pt | pt in BlackStart ensures OnBoard(pt) {
      var i :| 0 <= i < |BlackStart| && BlackStart[i] == pt;
    }
  }

  /** The 64 empty cells `new` starts from. */
  function EmptyCells(): Cells { seq(64, _ => Empty) }

  /** The cells after writing `c` onto each of the squares `sqs`, in order. */
  function Placed(v: Cells, sqs: seq<Square>, c: Color): Cells
    requires AllOnBoard(sqs)
  {
    if sqs == [] then v
    else
      var last := sqs[|sqs| - 1];
      assert last in sqs;
      Placed(v, sqs[..|sqs| - 1], c)[CellOf(last) := c]
  }

  /** A cell holds `c` after placing exactly when its square is one of `sqs`; the others are as they were. */
  lemma {:induction false} PlacedSpec(v: Cells, sqs: seq<Square>, c: Color, k: nat)
    requires AllOnBoard(sqs) && k < 64
    ensures Placed(v, sqs, c)[k] == if Coord(k) in sqs then c else v[k]
  {
    if sqs != [] {
      var n := |sqs|;
      var last := sqs[n - 1];
      assert last in sqs;
      PlacedSpec(v, sqs[..n - 1], c, k);
      assert sqs == sqs[..n - 1] + [last];
      CellOfCoord(k);
      CoordIndex(CellOf(last));
    }
  }

  /** The cells `new` starts from. */
  function InitialCells(): Cells {
    StartsOnBoard();
    Placed(Placed(EmptyCells(), WhiteStart, WhiteNormal), BlackStart, BlackNormal)
  }

  /** The start position: a black man on each black start square, a white man on each white one, every other cell empty. */
  lemma InitialCellsSpec(k: nat)
    requires k < 64
    ensures InitialCells()[k] ==
      if Coord(k) in BlackStart then BlackNormal
      else if Coord(k) in WhiteStart then WhiteNormal
      else Empty
  {
    StartsOnBoard();
    var w := Placed(EmptyCells(), WhiteStart, WhiteNormal);
    assert InitialCells() == Placed(w, BlackStart, BlackNormal);
    PlacedSpec(w, BlackStart, BlackNormal, k);
    PlacedSpec(EmptyCells(), WhiteStart, WhiteNormal, k);
  }

  // ---------------------------------------------------------------------------
  // The example of the `positions` test

  /** Three white men on cells 0, 9 and 11 and a black man on cell 63. */
  function SampleCells(): Cells {
    EmptyCells()[0 := WhiteNormal][9 := WhiteNormal][11 := WhiteNormal][63 := BlackNormal]
  }

  /** `from` lists the occupied cells of the sample in cell order. */
  lemma SamplePositions()
    ensures CreatePositions(SampleCells()) == [(0, 0), (1, 1), (3, 1), (7, 7)]
  {
    var v := SampleCells();
    var ps := CreatePositions(v);
    CreatePositionsSpec(v);
    forall pt ensures pt in ps <==> pt in [(0, 0), (1, 1), (3, 1), (7, 7)] {
      Listed(State(ps, v, Black, [], Nobody, [], 0), pt);
      SampleOccupancy(pt);
    }
    SampleAscending();
    AscendingUnique(ps, [(0, 0), (1, 1), (3, 1), (7, 7)]);
  }

  lemma SampleAscending()
    ensures Ascending([(0, 0), (1, 1), (3, 1), (7, 7)])
  {
  }

  lemma SampleOccupancy(pt: Square)
    ensures Occupancy(SampleCells(), pt) == 1 <==> pt in [(0, 0), (1, 1), (3, 1), (7, 7)]
  {
    if OnBoard(pt) {
      assert Index(pt.0, pt.1) == Some(pt.1 * 8 + pt.0);
    }
  }

  /** The two `remove_position` calls of the `positions` test: the last entry fills the gap each time. */
  lemma SampleRemovals()
    ensures SwapRemove([(0, 0), (1, 1), (3, 1), (7, 7)], (1, 1)) == [(0, 0), (7, 7), (3, 1)]
    ensures SwapRemove([(0, 0), (7, 7), (3, 1)], (3, 1)) == [(0, 0), (7, 7)]
  {
    SwapRemoveSecond([(0, 0), (1, 1), (3, 1), (7, 7)]);
    SwapRemoveLast([(0, 0), (7, 7), (3, 1)]);
  }

  lemma SwapRemoveSecond(a: seq<Square>)
    requires |a| == 4 && a[0] != a[1]
    ensures a[1] in a && SwapRemove(a, a[1]) == [a[0], a[3], a[2]]
  {
    assert FirstIndex(a, a[1]) == 1 by {
      assert a[1..][0] == a[1];
    }
  }

  lemma SwapRemoveLast(a: seq<Square>)
    requires |a| == 3 && a[0] != a[2] && a[1] != a[2]
    ensures a[2] in a && SwapRemove(a, a[2]) == [a[0], a[1]]
  {
    assert FirstIndex(a, a[2]) == 2 by {
      assert a[1..][1..][0] == a[2];
      assert a[1..][0] != a[2];
    }
  }
}
