/**
 * `Dame` of rust_engine/src/dame.rs: a board together with the side the AI
 * plays, and its implementation of the `Game` trait the search runs on.
 * `set` works on a copy of the board, so here it is the transition
 * `AfterMove` applied to a value.
 */
module DameGame {
  import opened Wrappers
  import opened Seqs
  import opened Rules
  import opened MoveLaws
  import opened Transition
  import opened Setup
  import opened DameMoves
  import Minimax

  datatype Dame = Dame(b: State, ai: Player)

  /** The positions the search visits: a board satisfying the invariant, and an AI side that is a real side. */
  type LegalDame = d: Dame | WellFormed(d.b) && d.ai != Nobody
    witness Dame(State([], EmptyCells(), Black, [], Nobody, [], 0), Black)

  /** `Dame::new`: the AI plays the side to move. */
  function NewDame(b: State): (d: Dame)
    ensures d.b == b && d.ai == b.nextMove
  {
    Dame(b, b.nextMove)
  }

  /** `current_player`: the AI is to move exactly when the board's side to move is the AI's side. */
  function CurrentPlayer(d: Dame): (r: Minimax.Mover)
    ensures r == Minimax.AI <==> d.ai == d.b.nextMove
  {
    if d.ai == d.b.nextMove then Minimax.AI else Minimax.Human
  }

  /** At the root of a search the AI is to move. */
  lemma NewDameIsAI(b: State)
    ensures CurrentPlayer(NewDame(b)) == Minimax.AI
  {
  }

  /** `valid_moves`: `Board::valid_moves`, each move turned into a `DameMove`, in the same order. */
  function ValidMoves(d: Dame): (r: seq<DameMove>)
    ensures var v := AllMoves(d.b.eligible, d.b.board, d.b.nextMove);
      |r| == |v| && forall i | 0 <= i < |v| :: r[i] == NewDameMove(v[i])
  {
    var v := AllMoves(d.b.eligible, d.b.board, d.b.nextMove);
    seq(|v|, i requires 0 <= i < |v| => NewDameMove(v[i]))
  }

  /** The moves offered are exactly the requests `move_it` accepts, while nobody has won. */
  lemma ValidMovesLegal(d: Dame, m: DameMove)
    requires d.b.winner == Nobody
    ensures m in ValidMoves(d) <==> Legal(d.b, m.srcX, m.srcY, m.dstX, m.dstY)
  {
    var v := AllMoves(d.b.eligible, d.b.board, d.b.nextMove);
    LegalIffValidMove(d.b, m.srcX, m.srcY, m.dstX, m.dstY);
    if Tuple(m) in v {
      var i :| 0 <= i < |v| && v[i] == Tuple(m);
      assert ValidMoves(d)[i] == m;
    }
    if m in ValidMoves(d) {
      var i :| 0 <= i < |v| && ValidMoves(d)[i] == m;
      assert v[i] == Tuple(m);
    }
  }

  /** A finished game offers no moves. */
  lemma FinishedHasNoMoves(d: LegalDame)
    requires Finished(d.b)
    ensures ValidMoves(d) == []
  {
  }

  /** An unfinished game on a board with a piece to move offers a move. */
  lemma LiveHasMoves(d: LegalDame)
    requires Live(d.b) && !Finished(d.b)
    ensures |ValidMoves(d)| > 0
  {
    var pt := d.b.eligible[0];
    AllowedHasMoves(d.b, pt.0, pt.1);
    var dst := MovesFor(d.b.board, d.b.nextMove, pt.0, pt.1).value[0];
    AllMovesSpec(d.b.eligible, d.b.board, d.b.nextMove, (pt.0, pt.1, dst.x, dst.y));
  }

  // ---------------------------------------------------------------------------
  // score

  /** The win term `s0`: +1 once the AI has won, -1 once the game is over and the AI has not won, 0 before. */
  function WinTerm(d: Dame): real {
    var s0 := if d.b.winner == d.ai then 1.0 else 0.0;
    if Finished(d.b) && d.b.winner != d.ai then -1.0 else s0
  }

  lemma WinTermCases(d: Dame)
    requires d.ai != Nobody
    ensures WinTerm(d) == 1.0 <==> d.b.winner == d.ai
    ensures WinTerm(d) == -1.0 <==> Finished(d.b) && d.b.winner != d.ai
    ensures WinTerm(d) == 0.0 <==> !Finished(d.b)
  {
  }

  /**
   * `score`: twenty times the win term, plus the men difference and three
   * times the dame difference, each over twelve, plus the AI's dames.
   */
  function Score(d: LegalDame): real {
    PositionsOnBoard(d.b.positions, d.b.board);
    var opp := OtherPlayer(d.ai);
    var nAi := CountNormal(d.b.positions, d.b.board, d.ai);
    var nHm := CountNormal(d.b.positions, d.b.board, opp);
    var dAi := CountDame(d.b.positions, d.b.board, d.ai);
    var dHm := CountDame(d.b.positions, d.b.board, opp);
    WinTerm(d) * 20.0 + (nAi - nHm) as real / 12.0 + (dAi - dHm) as real / 12.0 * 3.0 + dAi as real
  }

  /**
   * Seen from the two sides the evaluation is zero-sum except for the dame
   * bonus: the scores of the same board for either AI side add up to the
   * number of dames on the board.
   */
  lemma ScoreZeroSum(b: State, p: Player)
    requires WellFormed(b) && p != Nobody
    ensures AllOnBoard(b.positions)
    ensures Score(Dame(b, p)) + Score(Dame(b, OtherPlayer(p))) ==
      (CountDame(b.positions, b.board, p) + CountDame(b.positions, b.board, OtherPlayer(p))) as real
  {
    PositionsOnBoard(b.positions, b.board);
    WinTermCases(Dame(b, p));
    WinTermCases(Dame(b, OtherPlayer(p)));
    if Finished(b) {
      assert b.winner == OtherPlayer(b.nextMove);
    }
  }

  // ---------------------------------------------------------------------------
  // set

  /** `set`: the board after `move_it` of the move's coordinates; the AI side is kept and the input is left as it is. */
  function Set(d: LegalDame, m: DameMove): (r: LegalDame)
    ensures r.ai == d.ai && r.b == AfterMove(d.b, m.srcX, m.srcY, m.dstX, m.dstY)
  {
    AfterMoveWellFormed(d.b, m.srcX, m.srcY, m.dstX, m.dstY);
    Dame(AfterMove(d.b, m.srcX, m.srcY, m.dstX, m.dstY), d.ai)
  }

  /** A move `set` is given changes the game exactly when it is one `move_it` accepts. */
  lemma SetChangesExactlyWhenLegal(d: LegalDame, m: DameMove)
    ensures Set(d, m) == d <==> !Legal(d.b, m.srcX, m.srcY, m.dstX, m.dstY)
  {
    NoOpExactlyWhenIllegal(d.b, m.srcX, m.srcY, m.dstX, m.dstY);
  }

  /** Playing an offered move makes one more move on the board, and the new position is not stuck. */
  lemma SetOfferedMove(d: LegalDame, m: DameMove)
    requires m in ValidMoves(d)
    ensures Set(d, m).b.moveNo == d.b.moveNo + 1
    ensures Finished(Set(d, m).b) || |ValidMoves(Set(d, m))| > 0
  {
    if d.b.winner != Nobody {
      FinishedHasNoMoves(d);
    }
    ValidMovesLegal(d, m);
    AfterMoveShape(d.b, m.srcX, m.srcY, m.dstX, m.dstY);
    AfterMoveLive(d.b, m.srcX, m.srcY, m.dstX, m.dstY);
    if !Finished(Set(d, m).b) {
      LiveHasMoves(Set(d, m));
    }
  }

  // ---------------------------------------------------------------------------
  // The Game trait

  function Ops(): Minimax.GameOps<LegalDame, DameMove> {
    Minimax.GameOps(
      (d: LegalDame) => ValidMoves(d),
      (d: LegalDame) => Score(d),
      (d: LegalDame, m: DameMove) => Set(d, m),
      (d: LegalDame) => Finished(d.b),
      (d: LegalDame) => CurrentPlayer(d))
  }

  /** In draughts every unfinished position reached by an offered move has a move. */
  lemma OpsMoveUntilFinished()
    ensures Minimax.MovesUntilFinished(Ops())
  {
    forall d: LegalDame, m | m in Ops().validMoves(d)
      ensures Ops().finished(Ops().play(d, m)) || |Ops().validMoves(Ops().play(d, m))| > 0
    {
      SetOfferedMove(d, m);
    }
  }

  /** A search from an unfinished position with a piece to move never expands a node without moves. */
  lemma SearchFromLive(d: LegalDame, maxRecursion: nat)
    requires Live(d.b) && !Finished(d.b)
    ensures Minimax.Searchable(Ops(), d, 0, maxRecursion)
  {
    LiveHasMoves(d);
    OpsMoveUntilFinished();
    Minimax.SearchableFromRoot(Ops(), d, 0, maxRecursion);
  }
}
