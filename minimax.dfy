/**
 * The game-tree search of rust_engine/src/ai/minimax.rs. A game is given by
 * the five operations of the `Game` trait, bundled as a record of functions.
 * `Value`, `Leaves`, `ValidPath` and `Follow` state what a search computes.
 * The class `MiniMax` performs it, with the leaf counter kept in a field.
 */
module Minimax {
  import opened Seqs

  /** `minimax::Player`: whose turn it is, seen from the search. */
  datatype Mover = AI | Human

  /** The `Game` trait: `valid_moves`, `score`, `set` (here `play`, as `set` is a Dafny keyword), `finished`, `current_player`. */
  datatype GameOps<!G, !M> = GameOps(
    validMoves: G -> seq<M>,
    score: G -> real,
    play: (G, M) -> G,
    finished: G -> bool,
    currentPlayer: G -> Mover)

  /** A sequence of moves from the root. */
  datatype Path<M> = Path(p: seq<M>)
  {
    /** `Path::push`: a new path with `m` appended; the receiver is a value and stays as it is. */
    function Push(m: M): (r: Path<M>)
      ensures |r.p| == |p| + 1 && r.p[..|p|] == p && r.p[|p|] == m
    {
      Path(p + [m])
    }
  }

  /** A leaf's static score with the path leading to it. */
  datatype Score<M> = Score(path: Path<M>, score: real)

  /** The last level whose children are searched further: `max_recursion`, capped at 1000. */
  function Depth(maxRecursion: nat): nat {
    if maxRecursion < 1000 then maxRecursion else 1000
  }

  /** The test of `_ai_minimax`: a child reached at level `rec` is scored, not searched. */
  predicate IsLeaf<G, M>(ops: GameOps<G, M>, c: G, rec: nat, maxRecursion: nat) {
    ops.finished(c) || rec >= 1000 || rec >= maxRecursion
  }

  lemma LeafBeyondDepth<G, M>(ops: GameOps<G, M>, c: G, rec: nat, maxRecursion: nat)
    ensures !IsLeaf(ops, c, rec, maxRecursion) ==> rec < Depth(maxRecursion)
    ensures rec >= Depth(maxRecursion) ==> IsLeaf(ops, c, rec, maxRecursion)
  {
  }

  // ---------------------------------------------------------------------------
  // What a search computes

  /**
   * The search from `g` at level `rec` never meets the case `_select_by`
   * cannot handle: every node it expands has at least one valid move (the
   * `max_by(..).unwrap()` would panic on none).
   */
  ghost predicate Searchable<G, M>(ops: GameOps<G, M>, g: G, rec: nat, maxRecursion: nat)
    requires rec <= Depth(maxRecursion)
    decreases Depth(maxRecursion) - rec, 1
  {
    |ops.validMoves(g)| > 0 &&
    forall m | m in ops.validMoves(g) :: ChildSearchable(ops, ops.play(g, m), rec, maxRecursion)
  }

  ghost predicate ChildSearchable<G, M>(ops: GameOps<G, M>, c: G, rec: nat, maxRecursion: nat)
    requires rec <= Depth(maxRecursion)
    decreases Depth(maxRecursion) - rec, 0
  {
    IsLeaf(ops, c, rec, maxRecursion) || Searchable(ops, c, rec + 1, maxRecursion)
  }

  /** The value `_select_by` returns for `g`: the best child value for the side to move. */
  function Value<G, M>(ops: GameOps<G, M>, g: G, rec: nat, maxRecursion: nat): real
    requires rec <= Depth(maxRecursion) && Searchable(ops, g, rec, maxRecursion)
    decreases Depth(maxRecursion) - rec, 2
  {
    var vs := ChildValues(ops, g, rec, maxRecursion);
    if ops.currentPlayer(g) == AI then MaxOf(vs) else MinOf(vs)
  }

  /** The value of each child of `g`, in the order of `valid_moves`. */
  function ChildValues<G, M>(ops: GameOps<G, M>, g: G, rec: nat, maxRecursion: nat): (r: seq<real>)
    requires rec <= Depth(maxRecursion) && Searchable(ops, g, rec, maxRecursion)
    ensures |r| == |ops.validMoves(g)|
    decreases Depth(maxRecursion) - rec, 1
  {
    var ms := ops.validMoves(g);
    seq(|ms|, i requires 0 <= i < |ms| => assert ms[i] in ms; ChildValue(ops, ops.play(g, ms[i]), rec, maxRecursion))
  }

  /** The value `_ai_minimax` returns for the child `c`: its score if it is a leaf, its search value otherwise. */
  function ChildValue<G, M>(ops: GameOps<G, M>, c: G, rec: nat, maxRecursion: nat): real
    requires rec <= Depth(maxRecursion) && ChildSearchable(ops, c, rec, maxRecursion)
    decreases Depth(maxRecursion) - rec, 0
  {
    if IsLeaf(ops, c, rec, maxRecursion) then ops.score(c) else Value(ops, c, rec + 1, maxRecursion)
  }

  /** The number of leaves the search from `g` scores. */
  function Leaves<G, M>(ops: GameOps<G, M>, g: G, rec: nat, maxRecursion: nat): nat
    requires rec <= Depth(maxRecursion) && Searchable(ops, g, rec, maxRecursion)
    decreases Depth(maxRecursion) - rec, 2
  {
    Sum(LeafCounts(ops, g, rec, maxRecursion))
  }

  function LeafCounts<G, M>(ops: GameOps<G, M>, g: G, rec: nat, maxRecursion: nat): (r: seq<nat>)
    requires rec <= Depth(maxRecursion) && Searchable(ops, g, rec, maxRecursion)
    ensures |r| == |ops.validMoves(g)|
    decreases Depth(maxRecursion) - rec, 1
  {
    var ms := ops.validMoves(g);
    seq(|ms|, i requires 0 <= i < |ms| => assert ms[i] in ms; ChildLeaves(ops, ops.play(g, ms[i]), rec, maxRecursion))
  }

  function ChildLeaves<G, M>(ops: GameOps<G, M>, c: G, rec: nat, maxRecursion: nat): nat
    requires rec <= Depth(maxRecursion) && ChildSearchable(ops, c, rec, maxRecursion)
    decreases Depth(maxRecursion) - rec, 0
  {
    if IsLeaf(ops, c, rec, maxRecursion) then 1 else Leaves(ops, c, rec + 1, maxRecursion)
  }

  /** Each move of `ms` is a valid move of the state the earlier ones lead to. */
  ghost predicate ValidPath<G, M>(ops: GameOps<G, M>, g: G, ms: seq<M>) {
    ms == [] || (ms[0] in ops.validMoves(g) && ValidPath(ops, ops.play(g, ms[0]), ms[1..]))
  }

  /** The state `ms` leads to from `g`. */
  function Follow<G, M>(ops: GameOps<G, M>, g: G, ms: seq<M>): G {
    if ms == [] then g else Follow(ops, ops.play(g, ms[0]), ms[1..])
  }

  // ---------------------------------------------------------------------------
  // Extremes and sums

  /** The largest element: `max_by` on the scores. */
  function MaxOf(xs: seq<real>): (r: real)
    requires |xs| > 0
    ensures r in xs
    ensures forall i | 0 <= i < |xs| :: xs[i] <= r
  {
    if |xs| == 1 then xs[0]
    else
      var m := MaxOf(xs[..|xs| - 1]);
      assert forall i | 0 <= i < |xs| - 1 :: xs[..|xs| - 1][i] == xs[i];
      if xs[|xs| - 1] > m then xs[|xs| - 1] else m
  }

  /** The smallest element: `min_by` on the scores. */
  function MinOf(xs: seq<real>): (r: real)
    requires |xs| > 0
    ensures r in xs
    ensures forall i | 0 <= i < |xs| :: r <= xs[i]
  {
    if |xs| == 1 then xs[0]
    else
      var m := MinOf(xs[..|xs| - 1]);
      assert forall i | 0 <= i < |xs| - 1 :: xs[..|xs| - 1][i] == xs[i];
      if xs[|xs| - 1] < m then xs[|xs| - 1] else m
  }

  function Sum(xs: seq<nat>): nat {
    if xs == [] then 0 else Sum(xs[..|xs| - 1]) + xs[|xs| - 1]
  }

  // ---------------------------------------------------------------------------
  // Properties of a search

  /**
   * The selection rule of `_select_by`: at an AI node the value is the
   * largest child value, at a HUMAN node the smallest, and some child has it.
   */
  lemma ValueIsExtremum<G, M>(ops: GameOps<G, M>, g: G, rec: nat, maxRecursion: nat)
    requires rec <= Depth(maxRecursion) && Searchable(ops, g, rec, maxRecursion)
    ensures exists i :: 0 <= i < |ops.validMoves(g)| && ChildValues(ops, g, rec, maxRecursion)[i] == Value(ops, g, rec, maxRecursion)
    ensures forall i | 0 <= i < |ops.validMoves(g)| ::
      if ops.currentPlayer(g) == AI then ChildValues(ops, g, rec, maxRecursion)[i] <= Value(ops, g, rec, maxRecursion)
      else Value(ops, g, rec, maxRecursion) <= ChildValues(ops, g, rec, maxRecursion)[i]
  {
    var vs := ChildValues(ops, g, rec, maxRecursion);
    var v := Value(ops, g, rec, maxRecursion);
    assert v in vs;
    var i :| 0 <= i < |vs| && vs[i] == v;
  }

  lemma {:induction false} SumPositive(xs: seq<nat>)
    requires |xs| > 0 && forall i | 0 <= i < |xs| :: xs[i] > 0
    ensures Sum(xs) >= |xs|
  {
    if |xs| > 1 {
      var ys := xs[..|xs| - 1];
      assert forall i | 0 <= i < |ys| :: ys[i] == xs[i];
      SumPositive(ys);
    }
  }

  /** Every search scores at least one leaf per valid move of the root. */
  lemma {:induction false} LeavesAtLeastMoves<G, M>(ops: GameOps<G, M>, g: G, rec: nat, maxRecursion: nat)
    requires rec <= Depth(maxRecursion) && Searchable(ops, g, rec, maxRecursion)
    ensures Leaves(ops, g, rec, maxRecursion) >= |ops.validMoves(g)|
    decreases Depth(maxRecursion) - rec, 1
  {
    var ms := ops.validMoves(g);
    var cs := LeafCounts(ops, g, rec, maxRecursion);
    forall i | 0 <= i < |cs| ensures cs[i] > 0 {
      assert ms[i] in ms;
      ChildLeavesPositive(ops, ops.play(g, ms[i]), rec, maxRecursion);
    }
    SumPositive(cs);
  }

  lemma {:induction false} ChildLeavesPositive<G, M>(ops: GameOps<G, M>, c: G, rec: nat, maxRecursion: nat)
    requires rec <= Depth(maxRecursion) && ChildSearchable(ops, c, rec, maxRecursion)
    ensures ChildLeaves(ops, c, rec, maxRecursion) > 0
    decreases Depth(maxRecursion) - rec, 0
  {
    if !IsLeaf(ops, c, rec, maxRecursion) {
      LeavesAtLeastMoves(ops, c, rec + 1, maxRecursion);
    }
  }

  /** A game in which every unfinished state reached by a valid move has a move of its own. */
  ghost predicate MovesUntilFinished<G(!new), M(!new)>(ops: GameOps<G, M>) {
    forall g, m | m in ops.validMoves(g) :: ops.finished(ops.play(g, m)) || |ops.validMoves(ops.play(g, m))| > 0
  }

  /** In such a game the search from any root with a move never expands an empty node. */
  lemma {:induction false} SearchableFromRoot<G(!new), M(!new)>(ops: GameOps<G, M>, g: G, rec: nat, maxRecursion: nat)
    requires rec <= Depth(maxRecursion) && MovesUntilFinished(ops) && |ops.validMoves(g)| > 0
    ensures Searchable(ops, g, rec, maxRecursion)
    decreases Depth(maxRecursion) - rec
  {
    forall m | m in ops.validMoves(g) ensures ChildSearchable(ops, ops.play(g, m), rec, maxRecursion) {
      var c := ops.play(g, m);
      if !IsLeaf(ops, c, rec, maxRecursion) {
        SearchableFromRoot(ops, c, rec + 1, maxRecursion);
      }
    }
  }

  // ---------------------------------------------------------------------------
  // The search object

  /**
   * `Score` `s` was returned for the move `m` from `game`, searched at level
   * `rec` below `path`: its path ends at a leaf, the child scored at the level
   * of its last move, and the score is that leaf's.
   */
  ghost predicate Reaches<G, M>(ops: GameOps<G, M>, game: G, m: M, rec: nat, maxRecursion: nat, path: Path<M>, s: Score<M>) {
    var n := |path.p|;
    n < |s.path.p| <= n + Depth(maxRecursion) - rec + 1 &&
    s.path.p[..n + 1] == path.p + [m] &&
    ValidPath(ops, ops.play(game, m), s.path.p[n + 1..]) &&
    IsLeaf(ops, Follow(ops, ops.play(game, m), s.path.p[n + 1..]), rec + |s.path.p| - n - 1, maxRecursion) &&
    ops.score(Follow(ops, ops.play(game, m), s.path.p[n + 1..])) == s.score
  }

  function ScoreIs<M>(v: real): Score<M> -> bool {
    (s: Score<M>) => s.score == v
  }

  function ScoresOf<M>(ss: seq<Score<M>>): (r: seq<real>)
    ensures |r| == |ss| && forall i | 0 <= i < |ss| :: r[i] == ss[i].score
  {
    seq(|ss|, i requires 0 <= i < |ss| => ss[i].score)
  }

  class MiniMax<M(!new)> {
    var scoreCnt: nat
    const maxRecursion: nat
    var scoreWinner: real
    var path: seq<M>

    /** `MiniMax::new`: no leaf scored yet, no result recorded. */
    constructor New(maxRecursion: nat)
      ensures this.maxRecursion == maxRecursion && scoreCnt == 0 && scoreWinner == 0.0 && path == []
    {
      this.maxRecursion := maxRecursion;
      scoreCnt := 0;
      scoreWinner := 0.0;
      path := [];
    }

    /**
     * `minimax`: search from `game` and record the chosen path and its score.
     * The move returned is the first of that path, a valid move of the root.
     * The counter is not reset, so it adds this search's leaves to earlier ones.
     */
    method Minimax<G>(ops: GameOps<G, M>, game: G) returns (m: M)
      requires Searchable(ops, game, 0, maxRecursion)
      modifies this
      ensures m in ops.validMoves(game)
      ensures scoreCnt == old(scoreCnt) + Leaves(ops, game, 0, maxRecursion)
      ensures scoreWinner == Value(ops, game, 0, maxRecursion)
      ensures 0 < |path| <= Depth(maxRecursion) + 1 && path[0] == m
      ensures ValidPath(ops, game, path) && ops.score(Follow(ops, game, path)) == scoreWinner
      ensures IsLeaf(ops, Follow(ops, game, path), |path| - 1, maxRecursion)
    {
      var r := SelectBy(ops, game, 0, Path([]));
      scoreWinner := r.score;
      path := r.path.p;
      assert path[0..] == path;
      m := path[0];
    }

    /**
     * `_ai_minimax`: play `m`; score the child and count it when it is a
     * leaf, search it one level deeper otherwise.
     */
    method AiMinimax<G>(ops: GameOps<G, M>, game: G, m: M, rec: nat, path: Path<M>) returns (r: Score<M>)
      requires rec <= Depth(maxRecursion) && ChildSearchable(ops, ops.play(game, m), rec, maxRecursion)
      modifies this
      ensures scoreCnt == old(scoreCnt) + ChildLeaves(ops, ops.play(game, m), rec, maxRecursion)
      ensures r.score == ChildValue(ops, ops.play(game, m), rec, maxRecursion)
      ensures Reaches(ops, game, m, rec, maxRecursion, path, r)
      decreases Depth(maxRecursion) - rec, 0
    {
      var g := ops.play(game, m);
      var p := path.Push(m);
      if ops.finished(g) || rec >= 1000 {
        scoreCnt := scoreCnt + 1;
        r := Score(p, ops.score(g));
        assert r.path.p[|path.p| + 1..] == [];
      } else if rec >= maxRecursion {
        scoreCnt := scoreCnt + 1;
        r := Score(p, ops.score(g));
        assert r.path.p[|path.p| + 1..] == [];
      } else {
        r := SelectBy(ops, g, rec + 1, p);
        assert r.path.p[..|path.p| + 1] == r.path.p[..|p.p|][..|path.p| + 1];
      }
    }

    /**
     * `_select_by`: search every valid move in order, take the largest score
     * at an AI node or the smallest at a HUMAN node, and return one of the
     * children with that score, chosen freely.
     */
    method SelectBy<G>(ops: GameOps<G, M>, game: G, rec: nat, path: Path<M>) returns (r: Score<M>)
      requires rec <= Depth(maxRecursion) && Searchable(ops, game, rec, maxRecursion)
      modifies this
      ensures scoreCnt == old(scoreCnt) + Leaves(ops, game, rec, maxRecursion)
      ensures r.score == Value(ops, game, rec, maxRecursion)
      ensures |path.p| < |r.path.p| <= |path.p| + Depth(maxRecursion) - rec + 1
      ensures r.path.p[..|path.p|] == path.p && r.path.p[|path.p|] in ops.validMoves(game)
      ensures ChildValue(ops, ops.play(game, r.path.p[|path.p|]), rec, maxRecursion) == r.score
      ensures ValidPath(ops, game, r.path.p[|path.p|..])
      ensures ops.score(Follow(ops, game, r.path.p[|path.p|..])) == r.score
      ensures IsLeaf(ops, Follow(ops, game, r.path.p[|path.p|..]), rec + |r.path.p| - |path.p| - 1, maxRecursion)
      decreases Depth(maxRecursion) - rec, 2
    {
      var scores := ScoreChildren(ops, game, rec, path);
      var best := if ops.currentPlayer(game) == AI then MaxOf(ScoresOf(scores)) else MinOf(ScoresOf(scores));
      assert best == Value(ops, game, rec, maxRecursion);
      r := Choose(scores, best);
      ghost var t :| 0 <= t < |scores| && scores[t] == r;
      assert r.score == ScoresOf(scores)[t];
      ChildEntry(ops, game, rec, maxRecursion, t);
      ReachesPath(ops, game, ops.validMoves(game)[t], rec, maxRecursion, path, r);
    }

    /** The random pick among the children whose score is `best`, as a free choice. */
    static method Choose(scores: seq<Score<M>>, best: real) returns (r: Score<M>)
      requires best in ScoresOf(scores)
      ensures r in scores && r.score == best
    {
      var j :| 0 <= j < |scores| && ScoresOf(scores)[j] == best;
      var tied := Filter(scores, ScoreIs(best));
      assert scores[j] in tied;
      var k :| 0 <= k < |tied|;
      r := tied[k];
    }

    /** The loop of `_select_by`: the score of every valid move, in order, each searched below `path`. */
    method ScoreChildren<G>(ops: GameOps<G, M>, game: G, rec: nat, path: Path<M>) returns (scores: seq<Score<M>>)
      requires rec <= Depth(maxRecursion) && Searchable(ops, game, rec, maxRecursion)
      modifies this
      ensures scoreCnt == old(scoreCnt) + Leaves(ops, game, rec, maxRecursion)
      ensures |scores| == |ops.validMoves(game)| && ScoresOf(scores) == ChildValues(ops, game, rec, maxRecursion)
      ensures forall j | 0 <= j < |scores| :: Reaches(ops, game, ops.validMoves(game)[j], rec, maxRecursion, path, scores[j])
      decreases Depth(maxRecursion) - rec, 1
    {
      var moves := ops.validMoves(game);
      ghost var counts := LeafCounts(ops, game, rec, maxRecursion);
      ghost var values := ChildValues(ops, game, rec, maxRecursion);
      scores := [];
      for i := 0 to |moves|
        invariant |scores| == i
        invariant scoreCnt == old(scoreCnt) + Sum(counts[..i])
        invariant forall j | 0 <= j < i :: scores[j].score == values[j]
        invariant forall j | 0 <= j < i :: Reaches(ops, game, moves[j], rec, maxRecursion, path, scores[j])
      {
        ChildEntry(ops, game, rec, maxRecursion, i);
        SumSnoc(counts, i);
        var s := AiMinimax(ops, game, moves[i], rec, path);
        scores := scores + [s];
      }
      assert counts[..|moves|] == counts;
      assert ScoresOf(scores) == values;
    }
  }

  /** The `i`-th child of a searchable node: it can be searched, and its entries in the counts and values are its own. */
  lemma ChildEntry<G, M>(ops: GameOps<G, M>, g: G, rec: nat, maxRecursion: nat, i: nat)
    requires rec <= Depth(maxRecursion) && Searchable(ops, g, rec, maxRecursion) && i < |ops.validMoves(g)|
    ensures ChildSearchable(ops, ops.play(g, ops.validMoves(g)[i]), rec, maxRecursion)
    ensures LeafCounts(ops, g, rec, maxRecursion)[i] == ChildLeaves(ops, ops.play(g, ops.validMoves(g)[i]), rec, maxRecursion)
    ensures ChildValues(ops, g, rec, maxRecursion)[i] == ChildValue(ops, ops.play(g, ops.validMoves(g)[i]), rec, maxRecursion)
  {
    assert ops.validMoves(g)[i] in ops.validMoves(g);
  }

  lemma SumSnoc(xs: seq<nat>, i: nat)
    requires i < |xs|
    ensures Sum(xs[..i + 1]) == Sum(xs[..i]) + xs[i]
  {
    assert xs[..i + 1][..i] == xs[..i];
  }

  /** The path facts `_select_by` reports, from those of the chosen child. */
  lemma ReachesPath<G, M>(ops: GameOps<G, M>, game: G, m: M, rec: nat, maxRecursion: nat, path: Path<M>, s: Score<M>)
    requires Reaches(ops, game, m, rec, maxRecursion, path, s)
    ensures |path.p| < |s.path.p| && s.path.p[..|path.p|] == path.p && s.path.p[|path.p|] == m
    ensures m in ops.validMoves(game) ==> ValidPath(ops, game, s.path.p[|path.p|..])
    ensures ops.score(Follow(ops, game, s.path.p[|path.p|..])) == s.score
    ensures IsLeaf(ops, Follow(ops, game, s.path.p[|path.p|..]), rec + |s.path.p| - |path.p| - 1, maxRecursion)
  {
    var n := |path.p|;
    var tail := s.path.p[n..];
    assert s.path.p[..n] == s.path.p[..n + 1][..n];
    assert s.path.p[n] == s.path.p[..n + 1][n];
    assert tail[0] == m && tail[1..] == s.path.p[n + 1..];
  }
}
