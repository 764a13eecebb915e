# Draughts engine: rules board, minimax search and the Dame adapter

This project models the core of a draughts (checkers) engine written in
Rust. The core has four parts:

- **The rules engine `Board`**
  (`rust_engine/src/board/board.rs`). It holds a 64-cell board indexed by
  `y * 8 + x` and an unordered list of occupied squares. It also holds the
  side to move, the pieces allowed to move, the winner, the moves played and
  a move counter.
  - Men move one row forward: White towards row 7, Black towards row 0.
    Dames move both ways.
  - A piece that can jump must jump. When any piece of the side to move can
    jump, only jumpers may move.
  - A piece that captured and can capture again keeps the turn.
  - A side left with nothing to move loses.
  - A man reaching the far row becomes a dame.
- **The search `MiniMax`** (`rust_engine/src/ai/minimax.rs`). It is a
  full-width minimax over any game offering `valid_moves`, `score`, `set`,
  `finished` and `current_player`. It counts the leaves it scores and
  breaks ties at random.
- **The adapter `Dame`** (`rust_engine/src/dame.rs`). It plays the board as
  such a game from the point of view of one side. Its static evaluation
  combines a win term with the men and dame balance. `DameMove` is its move
  type, rendered in algebraic notation (`e6-d5`).
- **`random`** (`rust_engine/src/ai/mod.rs`). It plays a random legal move.

## Layout of the model

- `rules.dfy` (`Rules`): the read-only methods of `Board`, written as
  functions of the fields they read. These are `index`, `color`,
  `matching`, `is_player`, `other_player`, `count_*`, `positions`,
  `move_piece`, `moves_for`, `can_remove_piece`, the eligibility filters,
  `mv` and `valid_moves`.
- `move_laws.dfy` (`MoveLaws`): an independent statement of the draughts
  rules. It defines steps, jumps, who may move and the forced-capture rule,
  and proves the generator in `Rules` equal to it.
- `setup.dfy` and `start_position.dfy` (`Setup`, `StartPosition`):
  `create_positions`, `from`, the start position of `new`, and the facts
  the source's unit tests check.
- `transition.dfy` (`Transition`):
  - the invariant `WellFormed` of every board the engine builds;
  - `AfterMove`, which is `move_it` as a function on values;
  - the lemmas about what a move does.
- `board.dfy` (`BoardObject`): the class `Board`. Its cells are an
  `array`. Its methods change the object in place, and each is proved
  against the corresponding function.
- `minimax.dfy` (`Minimax`): the `Game` trait as a record of functions.
  - `Value`, `Leaves`, `ValidPath` and `Follow` state what a search computes.
  - The class `MiniMax` performs the search, with the recursive methods
    proved against those functions.
- `dame.dfy` and `dame_move.dfy` (`DameGame`, `DameMoves`): the adapter, its
  evaluation, and the notation of a move with its parser.
- `random_ai.dfy` (`RandomAi`): `random` on a `Board` object.
- `wrappers.dfy` and `seqs.dfy`: `Option`, and `Filter`, the model of Rust's
  `iter().filter().collect()`.

Scores are `real`: the evaluation's divisions by 12 are exact here.

## Model

| member | source | states |
|---|---|---|
| Rules.Index | rust_engine/src/board/board.rs:119-125 | a square has a cell exactly when both coordinates lie in 0..8; the cell is `y * 8 + x` and maps back to the square |
| Rules.IndexExample | rust_engine/src/board/board.rs:386-395 | `(4, 5)` is cell 44; `(8, 1)`, `(1, 8)`, `(-1, 3)` and `(3, -1)` are off the board |
| Rules.ColorAt | rust_engine/src/board/board.rs:127-132 | a colour is read exactly for on-board squares, and it is the content of that square's cell |
| Rules.MatchingExample | rust_engine/src/board/board.rs:407-421 | with Black to move exactly the black pieces match; with White to move exactly the white ones; an empty cell never matches |
| Rules.OtherPlayer | rust_engine/src/board/board.rs:167-173 | the other side of a real side is a real side, distinct from it |
| MoveLaws.IsPlayerOwner | rust_engine/src/board/board.rs:158-165 | `is_player(x, y, p)` holds exactly when `p` is a side and owns the piece on the square |
| MoveLaws.PiecesOfSpec | rust_engine/src/board/board.rs:195-198 | `positions(p)` lists exactly the listed squares whose piece belongs to `p` |
| MoveLaws.PiecesCounted | rust_engine/src/board/board.rs:175-198 | `count_normal(p) + count_dame(p)` is the number of squares `positions(p)` lists |
| MoveLaws.MovePieceIn | rust_engine/src/board/board.rs:201-214 | `move_piece` keeps exactly the step and jump candidates whose condition holds |
| MoveLaws.StepSide | rust_engine/src/board/board.rs:201-214 | a one-row candidate is kept exactly when its target is an empty on-board square |
| MoveLaws.JumpSide | rust_engine/src/board/board.rs:201-214 | a two-row candidate is kept exactly when its target is empty and on the board and the square jumped over holds an opponent's piece |
| MoveLaws.ManDirection | rust_engine/src/board/board.rs:272-282 | a man steps one row and jumps two rows in its own forward direction only (White +1, Black -1) |
| MoveLaws.DameDirection | rust_engine/src/board/board.rs:276-286 | a dame steps and jumps both forward and backward |
| MoveLaws.CandidatesSpec | rust_engine/src/board/board.rs:269-292 | the colour dispatch yields candidates exactly for a piece of the side to move, and they are exactly its steps and jumps |
| MoveLaws.MovesForSpec | rust_engine/src/board/board.rs:266-312 | the destinations `moves_for` offers are exactly the piece's jumps if it has one, and otherwise exactly its steps |
| MoveLaws.MovesForSome | rust_engine/src/board/board.rs:266-312 | `moves_for` is `None` exactly when the square holds no piece of the side to move with a step or jump; otherwise the list is non-empty |
| MoveLaws.CanRemovePieceSpec | rust_engine/src/board/board.rs:217-226 | `can_remove_piece` holds exactly when the piece has a capturing jump |
| MoveLaws.PiecesThatCanJumpSpec | rust_engine/src/board/board.rs:240-244 | the list holds exactly the listed pieces that have a jump |
| MoveLaws.PiecesThatCanMoveSpec | rust_engine/src/board/board.rs:234-238 | the list holds exactly the listed pieces that have a step or a jump |
| MoveLaws.EligibleForSpec | rust_engine/src/board/board.rs:246-254 | the eligible pieces are exactly the jumpers when any listed piece can jump, and otherwise every listed piece with a move |
| MoveLaws.EligibleForOwned | rust_engine/src/board/board.rs:246-254 | every eligible piece belongs to the side to move and has a move |
| MoveLaws.AllMovesSpec | rust_engine/src/board/board.rs:94-109 | `valid_moves` lists exactly the moves from an eligible piece to a destination `moves_for` offers it |
| MoveLaws.EligibleForSame | rust_engine/src/board/board.rs:246-254 | two boards that agree on the side owning every square, and on every piece of the side to move, give the same eligible list |
| Setup.CreatePositionsSpec | rust_engine/src/board/board.rs:53-57 | `create_positions` lists each non-empty cell exactly once, in ascending cell order, and nothing else |
| Setup.CreatePositionsCount | rust_engine/src/board/board.rs:53-57 | each square occurs in the list once if its cell is occupied and never otherwise |
| Setup.FromCells | rust_engine/src/board/board.rs:64-76 | `from` keeps the cells, gives Black the move, has no winner, no moves played and move number 0, with the eligible pieces the forced-capture rule gives |
| Setup.FromWellFormed | rust_engine/src/board/board.rs:64-76 | a board built by `from` satisfies the invariant `WellFormed` |
| Setup.SamplePositions | rust_engine/src/board/board.rs:470-481 | cells 0, 9, 11 and 63 occupied give the list `(0, 0), (1, 1), (3, 1), (7, 7)` |
| Setup.SampleRemovals | rust_engine/src/board/board.rs:482-488 | removing `(1, 1)` then `(3, 1)` from that list gives `(0, 0), (7, 7), (3, 1)` and then `(0, 0), (7, 7)` |
| Transition.SwapRemove | rust_engine/src/board/board.rs:59-62 | swap-removing drops exactly one occurrence of the entry and shortens the list by one |
| Transition.SwapRemoveSlots | rust_engine/src/board/board.rs:59-62 | the last entry moves into the slot of the first occurrence and every other slot is kept |
| StartPosition.StartPositionsListed | rust_engine/src/board/board.rs:34-51 | the start board's occupied squares, in cell order, are the twelve white then the twelve black start squares |
| StartPosition.StartEligible | rust_engine/src/board/board.rs:438-444 | at the start the eligible pieces are `(1, 5), (3, 5), (5, 5), (7, 5)` |
| StartPosition.StartCounts | rust_engine/src/board/board.rs:34-51 | at the start each side has 12 men and no dames |
| StartPosition.NewBoard | rust_engine/src/board/board.rs:34-51 | the start board lists the 24 start squares with Black to move, no winner, the front row eligible, nothing played, and 12 men and no dames per side |
| StartPosition.StartColors | rust_engine/src/board/board.rs:397-405 | `(0, 0)` holds a white man, `(1, 0)` is empty, `(0, 6)` holds a black man, and `(0, 8)` and `(8, 0)` have no colour |
| StartPosition.StartMovesExample | rust_engine/src/board/board.rs:431-436 | the black man on `(1, 5)` can move to exactly `(0, 4)` and `(2, 4)` |
| Transition.MvLegal | rust_engine/src/board/board.rs:256-263 | while nobody has won, `mv` offers a destination exactly when `move_it` accepts the move to it |
| Transition.NoOpExactlyWhenIllegal | rust_engine/src/board/board.rs:317-330 | a request leaves the whole board unchanged exactly when the piece is not eligible, the game is over, or the destination is not offered |
| Transition.AllowedHasMoves | rust_engine/src/board/board.rs:323-324 | for an eligible piece `moves_for` is `Some` and non-empty, so the `unwrap` cannot fail |
| Transition.LegalByRules | rust_engine/src/board/board.rs:317-330 | the legal requests are exactly an eligible piece's jumps, or its steps when it has no jump |
| Transition.LegalIffValidMove | rust_engine/src/board/board.rs:94-109 | while nobody has won, a request is legal exactly when it is one of the moves `valid_moves` lists |
| Transition.LegalMoveEnds | rust_engine/src/board/board.rs:338-342 | a legal move empties the source and puts the moved piece on the destination, crowned on the far row |
| Transition.LegalMoveCapture | rust_engine/src/board/board.rs:344-351 | a legal jump passes over an opponent's piece, and that square becomes empty |
| Transition.LegalMoveElsewhere | rust_engine/src/board/board.rs:332-351 | no other square changes |
| Transition.AfterMoveShape | rust_engine/src/board/board.rs:332-351 | a legal move appends `(x, y, dx, dy)` to the moves played and raises the move number by one |
| Transition.AfterMoveAgrees | rust_engine/src/board/board.rs:338-351 | after a move the list of positions still has each occupied square exactly once and nothing else |
| Transition.TurnKept | rust_engine/src/board/board.rs:355-358 | after a jump whose piece can jump again the same side keeps the move, with only that piece eligible |
| Transition.TurnPassed | rust_engine/src/board/board.rs:359-369 | otherwise the other side moves, with eligibility recomputed, and the mover has won exactly when nothing is eligible |
| Transition.NoCrowningInChain | rust_engine/src/board/board.rs:371-377 | a piece that can still capture is not crowned by the move that brought it there |
| Transition.AfterMoveWellFormed | rust_engine/src/board/board.rs:317-378 | `move_it` keeps the invariant: positions agree with the cells, the eligible pieces follow the forced-capture rule or are the one piece of a pending capture chain, and a winner is the side that just moved |
| Transition.AfterMoveLive | rust_engine/src/board/board.rs:355-369 | after a legal move, a game nobody has won has a piece to move |
| BoardObject.Board.From | rust_engine/src/board/board.rs:64-76 | `from` builds the object whose value is `FromCells` of the cells, satisfying the invariant |
| BoardObject.Board.New | rust_engine/src/board/board.rs:34-51 | `new` builds the board of `from` on the start cells, satisfying the invariant |
| BoardObject.Board.PlaceAll | rust_engine/src/board/board.rs:43-48 | the loop writes the colour onto each listed square and leaves the other cells alone |
| BoardObject.Board.RemovePosition | rust_engine/src/board/board.rs:59-62 | the positions become the swap-removal of `(x, y)`; nothing else changes |
| BoardObject.Board.UpdateValidPiecesToMove | rust_engine/src/board/board.rs:246-254 | the eligible list becomes the jumpers or else the movers; nothing else changes |
| BoardObject.Board.ValidMoves | rust_engine/src/board/board.rs:94-109 | the loop returns the moves of every eligible piece, in order |
| BoardObject.Board.ClearLastMoves | rust_engine/src/board/board.rs:314-316 | the moves played become empty; nothing else changes |
| BoardObject.Board.MoveIt | rust_engine/src/board/board.rs:317-378 | the object's new value is `AfterMove` of its old value; the invariant is kept |
| BoardObject.Board.RelocatePiece | rust_engine/src/board/board.rs:332-351 | the piece moves, the jumped piece goes, the move is recorded and counted |
| BoardObject.Board.SettleTurn | rust_engine/src/board/board.rs:353-369 | the turn is kept or passed as `Settle` says |
| BoardObject.Board.Crown | rust_engine/src/board/board.rs:371-377 | a Black mover on row 0 or a White mover on row 7 becomes a dame |
| Minimax.Path.Push | rust_engine/src/ai/minimax.rs:42-48 | the new path is the old one with `m` appended; the receiver is a value and is unchanged |
| Minimax.LeafBeyondDepth | rust_engine/src/ai/minimax.rs:106-120 | a child that is expanded sits above the depth bound `min(max_recursion, 1000)`; every child at or beyond it is a leaf |
| Minimax.MaxOf | rust_engine/src/ai/minimax.rs:129-130 | the maximum is one of the scores and no score exceeds it |
| Minimax.MinOf | rust_engine/src/ai/minimax.rs:131-132 | the minimum is one of the scores and no score is below it |
| Minimax.ValueIsExtremum | rust_engine/src/ai/minimax.rs:122-139 | a node's value is some child's value, the largest at an AI node and the smallest at a HUMAN node |
| Minimax.LeavesAtLeastMoves | rust_engine/src/ai/minimax.rs:106-126 | a search scores at least one leaf per valid move of its root |
| Minimax.SearchableFromRoot | rust_engine/src/ai/minimax.rs:122-134 | in a game where every unfinished reached state has a move, a search from a root with a move never meets an empty node |
| Minimax.MiniMax.New | rust_engine/src/ai/minimax.rs:68-77 | no leaf counted, score 0 and an empty path |
| Minimax.MiniMax.Minimax | rust_engine/src/ai/minimax.rs:79-104 | the move returned is a valid move of the root and the first of the recorded path; the path has 1 to `depth + 1` moves, each valid where it is played, and leads to a leaf (a finished game, or one at level 1000 or `max_recursion`) whose score is the recorded score, the root's minimax value; the counter grows by the leaves scored |
| Minimax.MiniMax.AiMinimax | rust_engine/src/ai/minimax.rs:106-120 | a leaf child is scored and counted once, any other is searched one level deeper; the result extends the path by the move |
| Minimax.MiniMax.SelectBy | rust_engine/src/ai/minimax.rs:122-139 | the score is the node's minimax value, reached by a valid path of bounded length below the given path that ends at a leaf scored at its own level |
| Minimax.MiniMax.Choose | rust_engine/src/ai/minimax.rs:136-138 | the tie-break returns one of the children whose score is the extremum |
| Minimax.MiniMax.ScoreChildren | rust_engine/src/ai/minimax.rs:124-126 | each valid move is scored in order, and the counter grows by the leaves below them |
| DameMoves.NewDameMove | rust_engine/src/dame.rs:16-24 | the four components are copied in order |
| DameMoves.NewDameMoveInverse | rust_engine/src/dame.rs:16-24 | `DameMove::new` loses nothing: it is inverse to reading the tuple back |
| DameMoves.ParseRender | rust_engine/src/dame.rs:27-32 | the text of a move, column letter then row `y + 1`, a dash, then the same for the destination, reads back as that move |
| DameMoves.RenderInjective | rust_engine/src/dame.rs:27-32 | two moves have the same text exactly when they are equal |
| DameMoves.RenderExample | rust_engine/src/dame.rs:27-32 | the move from `(4, 5)` to `(3, 4)` is written `e6-d5` |
| DameGame.NewDame | rust_engine/src/dame.rs:42-48 | the AI plays the side to move of the board it is given |
| DameGame.CurrentPlayer | rust_engine/src/dame.rs:65-70 | it is the AI's turn exactly when the board's side to move is the AI's side |
| DameGame.ValidMoves | rust_engine/src/dame.rs:72-74 | the moves are `valid_moves` of the board, each turned into a `DameMove`, in the same order |
| DameGame.ValidMovesLegal | rust_engine/src/dame.rs:72-74 | while nobody has won, a move is offered exactly when `move_it` accepts it |
| DameGame.FinishedHasNoMoves | rust_engine/src/dame.rs:76-78 | a finished game offers no move |
| DameGame.WinTermCases | rust_engine/src/dame.rs:84-91 | the win term is +1 exactly when the AI has won, -1 exactly when the game is over and the AI has not won, and 0 exactly while the game goes on |
| DameGame.ScoreZeroSum | rust_engine/src/dame.rs:82-114 | the scores of one board for the two AI sides add up to the number of dames on it |
| DameGame.Set | rust_engine/src/dame.rs:116-123 | the new game keeps the AI side and holds the board after `move_it` of the move; the input is a value and is unchanged |
| DameGame.SetChangesExactlyWhenLegal | rust_engine/src/dame.rs:116-123 | `set` changes the game exactly when `move_it` accepts the move |
| DameGame.SetOfferedMove | rust_engine/src/dame.rs:116-123 | an offered move raises the move number by one and leaves a game that is over or has a move |
| DameGame.SearchFromLive | rust_engine/src/ai/minimax.rs:122-134 | a search of the draughts game from an unfinished position with a piece to move never reaches the empty-selection panic |
| RandomAi.Random | rust_engine/src/ai/mod.rs:7-15 | some piece must be eligible; the move played was in `valid_moves` before the call, passes `move_it`'s checks, is recorded and raises the move number by one, and the board becomes `AfterMove` of the old one |

## Left out

- Timing is not modelled: `start`, `duration` and `duration_ms` use a
  wall clock.
- `to_json` and the JSON derive attributes are not modelled: they
  serialise through an external library.
- The random picks of `random` and of the tie-break in `_select_by` are
  free choices from the allowed set. Their distribution is not modelled.
- `avg_distance` is not modelled: it uses square roots on floats, and its
  only use is commented out.
- Scores are `real`. The rounding of `f64` and of its division by 12 is
  not modelled.
- Machine integers are not modelled: `move_no` and `score_cnt` would
  overflow only after about 2^31 (or 2^64) steps.
- The `Game` trait is a record of functions. Its `set` is named `play`,
  because `set` is a Dafny keyword.
- The accessors are the fields themselves: `player` is `nextMove`, `winner`
  is `winner`, `movable_pieces` is `validPiecesToMove`, `get_last_moves` is
  `lastMoves`; `finished` is `Finished`. The accessors `scores`, `score` and
  `path` of `MiniMax` are the fields `scoreCnt`, `scoreWinner` and `path`.
  `Score::new` and `Path::new` are the datatype constructors `Score` and
  `Path([])`.
- BoardObject.Board.MoveIt: the body is split into `RelocatePiece`,
  `SettleTurn` and `Crown`. It requires the invariant, which every board
  built by `new` or `from` satisfies. Without it, the `unwrap` of
  `moves_for` could panic.
- BoardObject.Board.From: `from` accepts a vector of any length.
  The model takes exactly 64 cells, the only length `new` and the engine
  use.
- DameMoves.Render: requires both columns in 0..8, because the source
  indexes `"abcdefgh"` with them and would panic otherwise. Its rows are
  unbounded integers: the source's `src_y + 1` and `dst_y + 1` on `i32`
  overflow when a row is `i32::MAX`; `valid_moves` only yields rows 0..7.
- Rules.OtherPlayer: requires a real side, because the source panics on
  `Player::None`.
- BoardObject.Board.RemovePosition: requires `(x, y)` among the
  positions, because the source unwraps the result of its search.
- DameGame.Set: its game is a `LegalDame`, a well-formed board with a
  real AI side, where the source's `Dame` holds any board. `Dame::new` of
  a board built by `Board::new` or `from`, with a real side to move, gives
  one.
- DameGame.Ops: the draughts game record ranges over `LegalDame` only,
  for the same reason as `DameGame.Set`.
- Rules.IsPlayer: requires the square on the board, because the source
  unwraps its colour.
- Minimax.MiniMax.Minimax: requires `Searchable`. Without it an expanded
  node with no valid move makes `max_by(..).unwrap()` panic. For draughts
  this is discharged by `DameGame.SearchFromLive`.
- RandomAi.Random: requires a piece to be eligible, because the source
  unwraps its random choice of a piece; it also requires the invariant,
  as `BoardObject.Board.MoveIt` does.
- DameGame.Score: it is defined on `LegalDame` only, as `DameGame.Set`
  is. It has no contract of its own. Its properties are
  `WinTermCases` and `ScoreZeroSum`. No claim is made that a won game
  outscores every game in play: on a board given to `from` with more than
  twelve pieces a side, the material terms can reach the win term's
  weight of 20.
- rust_engine/src/lib.rs, rest/rest.py, html/code.js and the example
  drivers are not part of this model: they hold a Python binding, an HTTP
  server, a browser UI and printing demos.
