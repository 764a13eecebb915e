/**
 * Pieces, squares and move generation of the draughts rules engine: the
 * read-only methods of `Board` in rust_engine/src/board/board.rs, written as
 * functions of the fields they read (the 64 cells, the side to move, the list
 * of occupied squares and the list of pieces allowed to move).
 */
module Rules {
  import opened Wrappers
  import opened Seqs

  /** The content of a square. */
  datatype Color = Empty | WhiteNormal | WhiteDame | BlackNormal | BlackDame

  /** A side; `Nobody` is the source's `Player::None` (no winner yet). */
  datatype Player = White | Black | Nobody

  /** A destination square (the `x`, `y` record of `board::point::Point`). */
  datatype Point = Point(x: int, y: int)

  /** An `(x, y)` square and an `(x, y, dx, dy)` move, as the source's tuples. */
  type Square = (int, int)
  type Move = (int, int, int, int)

  /** The board vector: 64 cells, the cell of `(x, y)` at index `y * 8 + x`. */
  type Cells = b: seq<Color> | |b| == 64 witness seq(64, _ => Empty)

  /** The full state of a `Board` value. */
  datatype State = State(
    positions: seq<Square>,   // the occupied squares, unordered
    board: Cells,
    nextMove: Player,
    eligible: seq<Square>,    // `valid_pieces_to_move`
    winner: Player,
    lastMoves: seq<Move>,
    moveNo: int)

  function Abs(n: int): nat { if n < 0 then -n else n }

  /** `index`: the cell of `(x, y)`, if the square is on the board. */
  function Index(x: int, y: int): (r: Option<nat>)
    ensures r.Some? <==> 0 <= x < 8 && 0 <= y < 8
    ensures r.Some? ==> r.value < 64 && Coord(r.value) == (x, y)
  {
    if x >= 0 && x < 8 && y >= 0 && y < 8 then Some(y * 8 + x) else None
  }

  /** `(idx % 8, idx / 8)`: the square of a cell index (non-negative, so Rust's and Dafny's division agree). */
  function Coord(k: nat): Square { (k % 8, k / 8) }

  predicate OnBoard(sq: Square) { Index(sq.0, sq.1).Some? }

  /** `color`: the content of `(x, y)`, if the square is on the board. */
  function ColorAt(b: Cells, x: int, y: int): (r: Option<Color>)
    ensures r.Some? <==> Index(x, y).Some?
    ensures r.Some? ==> r.value == b[Index(x, y).value]
  {
    match Index(x, y)
    case Some(p) => Some(b[p])
    case None => None
  }

  predicate IsBlack(c: Color) { c == BlackNormal || c == BlackDame }

  predicate IsWhite(c: Color) { c == WhiteNormal || c == WhiteDame }

  /** `matching`: `c` is a piece of the side to move. */
  predicate Matching(next: Player, c: Color) {
    (next == Black && IsBlack(c)) || (next == White && IsWhite(c))
  }

  predicate IsColor(b: Cells, x: int, y: int, c: Color) {
    match Index(x, y)
    case Some(p) => b[p] == c
    case None => false
  }

  /** `is_empty`: false off the board. */
  predicate IsEmpty(b: Cells, x: int, y: int) { IsColor(b, x, y, Empty) }

  /** `is_player`: the piece on `(x, y)` belongs to `p`; the source unwraps the square, so it must be on the board. */
  predicate IsPlayer(b: Cells, x: int, y: int, p: Player)
    requires Index(x, y).Some?
  {
    var c := ColorAt(b, x, y).value;
    match p
    case Black => IsBlack(c)
    case White => IsWhite(c)
    case Nobody => false
  }

  /** `other_player`: it panics on `Player::None`. */
  function OtherPlayer(p: Player): (r: Player)
    requires p != Nobody
    ensures r != Nobody && r != p
  {
    match p
    case Black => White
    case White => Black
  }

  predicate IsNormal(b: Cells, x: int, y: int)
    requires Index(x, y).Some?
  {
    var p := Index(x, y).value;
    b[p] == BlackNormal || b[p] == WhiteNormal
  }

  predicate IsDame(b: Cells, x: int, y: int)
    requires Index(x, y).Some?
  {
    var p := Index(x, y).value;
    b[p] == BlackDame || b[p] == WhiteDame
  }

  predicate AllOnBoard(ps: seq<Square>) {
    forall pt :: pt in ps ==> OnBoard(pt)
  }

  /** `count_normal`: the men of `p` among the listed squares. */
  function CountNormal(positions: seq<Square>, b: Cells, p: Player): nat
    requires AllOnBoard(positions)
  {
    |Filter(positions, NormalOf(b, p))|
  }

  function NormalOf(b: Cells, p: Player): Square -> bool {
    (pt: Square) => OnBoard(pt) && IsPlayer(b, pt.0, pt.1, p) && IsNormal(b, pt.0, pt.1)
  }

  /** `count_dame`: the dames (kings) of `p` among the listed squares. */
  function CountDame(positions: seq<Square>, b: Cells, p: Player): nat
    requires AllOnBoard(positions)
  {
    |Filter(positions, DameOf(b, p))|
  }

  function DameOf(b: Cells, p: Player): Square -> bool {
    (pt: Square) => OnBoard(pt) && IsPlayer(b, pt.0, pt.1, p) && IsDame(b, pt.0, pt.1)
  }

  /** `positions(p)`: the listed squares holding a piece of `p`. */
  function PiecesOf(positions: seq<Square>, b: Cells, p: Player): seq<Square>
    requires AllOnBoard(positions)
  {
    Filter(positions, PieceOf(b, p))
  }

  function PieceOf(b: Cells, p: Player): Square -> bool {
    (pt: Square) => OnBoard(pt) && IsPlayer(b, pt.0, pt.1, p)
  }

  /**
   * `move_piece`: the two steps `(x +- 1, y + ydirection)` onto an empty square
   * and the two jumps `(x +- 2, y + 2 * ydirection)` onto an empty square over a
   * piece of `p`, in that order.
   */
  function MovePiece(b: Cells, x: int, y: int, ydirection: int, p: Player): seq<Square>
    requires Index(x, y).Some? && (ydirection == 1 || ydirection == -1)
  {
    Project(Filter(MoveCandidates(b, x, y, ydirection, p), Flagged))
  }

  /** The four `(x, y, allowed)` candidates `move_piece` filters. */
  function MoveCandidates(b: Cells, x: int, y: int, ydirection: int, p: Player): seq<(int, int, bool)>
    requires Index(x, y).Some? && (ydirection == 1 || ydirection == -1)
  {
    var dy1 := ydirection;
    var dy2 := ydirection * 2;
    [ (x - 1, y + dy1, IsEmpty(b, x - 1, y + dy1)),
      (x + 1, y + dy1, IsEmpty(b, x + 1, y + dy1)),
      (x - 2, y + dy2, IsEmpty(b, x - 2, y + dy2) && IsPlayer(b, x - 1, y + dy1, p)),
      (x + 2, y + dy2, IsEmpty(b, x + 2, y + dy2) && IsPlayer(b, x + 1, y + dy1, p)) ]
  }

  predicate Flagged(c: (int, int, bool)) { c.2 }

  /** `.map(|&(x, y, _)| (x, y))`: drops the flag of each candidate. */
  function Project(cs: seq<(int, int, bool)>): (r: seq<Square>)
    ensures |r| == |cs|
    ensures forall i :: 0 <= i < |cs| ==> r[i] == (cs[i].0, cs[i].1)
  {
    seq(|cs|, i requires 0 <= i < |cs| => (cs[i].0, cs[i].1))
  }

  /** The inner match of `moves_for`: colour and direction dispatch. */
  function Candidates(b: Cells, next: Player, x: int, y: int): Option<seq<Square>> {
    match ColorAt(b, x, y)
    case None => None
    case Some(c) =>
      if !Matching(next, c) then None
      else match c
        case WhiteNormal => Some(MovePiece(b, x, y, 1, Black))
        case WhiteDame => Some(MovePiece(b, x, y, 1, Black) + MovePiece(b, x, y, -1, Black))
        case BlackNormal => Some(MovePiece(b, x, y, -1, White))
        case BlackDame => Some(MovePiece(b, x, y, 1, White) + MovePiece(b, x, y, -1, White))
        case Empty => None
  }

  function ToPoints(v: seq<Square>): seq<Point> {
    seq(|v|, i requires 0 <= i < |v| => Point(v[i].0, v[i].1))
  }

  /** `moves_for`: the destinations of the piece on `(x, y)`, only its jumps when it has one. */
  function MovesFor(b: Cells, next: Player, x: int, y: int): Option<seq<Point>> {
    match Candidates(b, next, x, y)
    case None => None
    case Some(v) =>
      var jumps := ToPoints(Filter(v, TwoRowsFrom(y)));
      if |jumps| > 0 then Some(jumps)
      else
        var all := ToPoints(v);
        if |all| > 0 then Some(all) else None
  }

  /** `.filter(|&&(_, dy)| (dy - y).abs() == 2)`: the candidates two rows away, i.e. the jumps. */
  function TwoRowsFrom(y: int): Square -> bool {
    (d: Square) => Abs(d.1 - y) == 2
  }

  /** `can_remove_piece`: some destination of the piece on `(x, y)` is two columns away. */
  predicate CanRemovePiece(b: Cells, next: Player, x: int, y: int) {
    match MovesFor(b, next, x, y)
    case Some(v) => exists i :: 0 <= i < |v| && Abs(v[i].x - x) == 2
    case None => false
  }

  /** `moving_piece_is_allowed`. */
  predicate MovingPieceIsAllowed(eligible: seq<Square>, x: int, y: int) {
    (x, y) in eligible
  }

  /** `pieces_that_can_move`. */
  function PiecesThatCanMove(positions: seq<Square>, b: Cells, next: Player): seq<Square> {
    Filter(positions, CanMove(b, next))
  }

  function CanMove(b: Cells, next: Player): Square -> bool {
    (pt: Square) => MovesFor(b, next, pt.0, pt.1).Some?
  }

  /** `pieces_that_can_jump`. */
  function PiecesThatCanJump(positions: seq<Square>, b: Cells, next: Player): seq<Square> {
    Filter(positions, CanJump(b, next))
  }

  function CanJump(b: Cells, next: Player): Square -> bool {
    (pt: Square) => CanRemovePiece(b, next, pt.0, pt.1)
  }

  /** The list `update_valid_pieces_to_move` stores: the jumpers if there are any, else every piece that can move. */
  function EligibleFor(positions: seq<Square>, b: Cells, next: Player): seq<Square> {
    var t := PiecesThatCanJump(positions, b, next);
    if |t| > 0 then t else PiecesThatCanMove(positions, b, next)
  }

  /** `mv`: the destinations of `(x, y)` if that piece is allowed to move. */
  function Mv(eligible: seq<Square>, b: Cells, next: Player, x: int, y: int): Option<seq<Point>> {
    if MovingPieceIsAllowed(eligible, x, y) then MovesFor(b, next, x, y) else None
  }

  /** The moves `valid_moves` pushes for one eligible piece. */
  function PieceMoves(b: Cells, next: Player, sq: Square): seq<Move> {
    match MovesFor(b, next, sq.0, sq.1)
    case Some(m) => Tagged(sq, m)
    case None => []
  }

  /** The moves from `sq` to each of the destinations `m`, in order. */
  function Tagged(sq: Square, m: seq<Point>): seq<Move> {
    seq(|m|, k requires 0 <= k < |m| => (sq.0, sq.1, m[k].x, m[k].y))
  }

  /** The list `valid_moves` builds: the moves of each eligible piece, in eligibility order. */
  function AllMoves(eligible: seq<Square>, b: Cells, next: Player): seq<Move> {
    if eligible == [] then []
    else AllMoves(eligible[..|eligible| - 1], b, next) + PieceMoves(b, next, eligible[|eligible| - 1])
  }

  /** `finished`. */
  predicate Finished(s: State) { s.winner != Nobody }

  /** The cell of `(4, 5)` is 44; a coordinate of 8 or -1 is off the board. */
  lemma IndexExample()
    ensures Index(4, 5) == Some(44)
    ensures Index(8, 1).None? && Index(1, 8).None? && Index(-1, 3).None? && Index(3, -1).None?
  {
  }

  /** With Black to move only the black pieces match; with White to move only the white ones. */
  lemma MatchingExample()
    ensures Matching(Black, BlackNormal) && Matching(Black, BlackDame)
    ensures !Matching(Black, WhiteNormal) && !Matching(Black, WhiteDame) && !Matching(Black, Empty)
    ensures !Matching(White, BlackNormal) && !Matching(White, BlackDame)
    ensures Matching(White, WhiteNormal) && Matching(White, WhiteDame) && !Matching(White, Empty)
  {
  }
}
