/** Move selection for the computer player: a random empty cell, or the
    depth-bounded minimax search without pruning. */
module Search {
  import opened Optional
  import opened Rules

  /** Stand-ins for the `-Infinity` and `Infinity` seeds of the search: one
      past the largest score magnitude the search produces (MinimaxBounds). */
  const NegInfinity: int := -11
  const PosInfinity: int := 11

  /** The indices of the empty cells from `i` on, in ascending order. */
  function AvailableFrom(board: Board, i: nat): (r: seq<Index>)
    requires i <= 9
    ensures forall k :: 0 <= k < |r| ==> i <= r[k] && board[r[k]] == Empty
    ensures forall j :: i <= j < 9 && board[j] == Empty ==> j in r
    ensures forall k, l :: 0 <= k < l < |r| ==> r[k] < r[l]
    decreases 9 - i
  {
    if i == 9 then []
    else if board[i] == Empty then [i as Index] + AvailableFrom(board, i + 1)
    else AvailableFrom(board, i + 1)
  }

  /** The map/filter that collects the empty cells of the board. */
  function AvailableMoves(board: Board): (r: seq<Index>)
    ensures forall j: Index :: board[j] == Empty <==> j in r
    ensures forall k, l :: 0 <= k < l < |r| ==> r[k] < r[l]
    ensures |r| == 0 <==> IsBoardFull(board)
  {
    var r := AvailableFrom(board, 0);
    assert |r| > 0 ==> board[r[0]] == Empty;
    r
  }

  /** A uniformly random empty cell in the source; here any empty cell. */
  method GetRandomMove(board: Board) returns (move: Option<Index>)
    ensures move.None? <==> IsBoardFull(board)
    ensures move.Some? ==> board[move.value] == Empty
  {
    var availableMoves := AvailableMoves(board);
    if |availableMoves| == 0 {
      return None;
    }
    var randomIndex :| 0 <= randomIndex < |availableMoves|;
    return Some(availableMoves[randomIndex]);
  }

  function Max(a: int, b: int): int { if a < b then b else a }
  function Min(a: int, b: int): int { if a < b then a else b }

  /** The mark placed at a maximising ply is `player`'s, at a minimising ply `opponent`'s. */
  function Mover(isMaximizing: bool, player: Player, opponent: Player): Player {
    if isMaximizing then player else opponent
  }

  /** The score of the position after the ply at `depth` puts its mark in cell `j`. */
  function ChildValue(board: Board, depth: nat, isMaximizing: bool, player: Player, opponent: Player, j: Index): int
    requires depth <= 5
    decreases 6 - depth, 0
  {
    MinimaxValue(board[j := Taken(Mover(isMaximizing, player, opponent))], depth + 1, !isMaximizing, player, opponent)
  }

  /** The running best of the scan over cells `i..8`, starting from `acc`:
      the maximum at a maximising ply, the minimum at a minimising one. */
  function BestFrom(board: Board, depth: nat, isMaximizing: bool, player: Player, opponent: Player, i: nat, acc: int): int
    requires depth <= 5 && i <= 9
    decreases 6 - depth, 9 - i
  {
    if i == 9 then acc
    else if board[i] == Empty then
      var score := ChildValue(board, depth, isMaximizing, player, opponent, i);
      BestFrom(board, depth, isMaximizing, player, opponent, i + 1,
               if isMaximizing then Max(acc, score) else Min(acc, score))
    else BestFrom(board, depth, isMaximizing, player, opponent, i + 1, acc)
  }

  /** The score minimax gives `board`, always from `player`'s point of view. */
  function MinimaxValue(board: Board, depth: nat, isMaximizing: bool, player: Player, opponent: Player): int
    decreases 6 - depth, 10
  {
    var winnerInfo := CheckWinner(board);
    if winnerInfo.Some? && winnerInfo.value.winner == player then 10 - depth
    else if winnerInfo.Some? && winnerInfo.value.winner == opponent then depth - 10
    else if IsBoardFull(board) then 0
    else if depth > 5 then 0
    else if isMaximizing then BestFrom(board, depth, true, player, opponent, 0, NegInfinity)
    else BestFrom(board, depth, false, player, opponent, 0, PosInfinity)
  }

  method Minimax(board: Board, depth: nat, isMaximizing: bool, player: Player, opponent: Player) returns (score: int)
    ensures score == MinimaxValue(board, depth, isMaximizing, player, opponent)
    decreases 6 - depth
  {
    var winnerInfo := CheckWinner(board);
    if winnerInfo.Some? && winnerInfo.value.winner == player {
      return 10 - depth;
    }
    if winnerInfo.Some? && winnerInfo.value.winner == opponent {
      return depth - 10;
    }
    if IsBoardFull(board) {
      return 0;
    }
    if depth > 5 {
      return 0;
    }
    var bestScore := if isMaximizing then NegInfinity else PosInfinity;
    var i := 0;
    while i < 9
      invariant 0 <= i <= 9
      invariant BestFrom(board, depth, isMaximizing, player, opponent, i, bestScore)
             == MinimaxValue(board, depth, isMaximizing, player, opponent)
    {
      if board[i] == Empty {
        var newBoard := board[i := Taken(Mover(isMaximizing, player, opponent))];
        var childScore := Minimax(newBoard, depth + 1, !isMaximizing, player, opponent);
        bestScore := if isMaximizing then Max(bestScore, childScore) else Min(bestScore, childScore);
      }
      i := i + 1;
    }
    return bestScore;
  }

  /** The scan from cell `i` returns its seed or one of the child scores, and
      it is at least (maximising) or at most (minimising) the seed and every
      child score it visits. */
  lemma {:induction false} BestFromFacts(board: Board, depth: nat, isMaximizing: bool, player: Player, opponent: Player, i: nat, acc: int)
    requires depth <= 5 && i <= 9
    ensures var r := BestFrom(board, depth, isMaximizing, player, opponent, i, acc);
      && (if isMaximizing then acc <= r else r <= acc)
      && (forall j :: i <= j < 9 && board[j] == Empty ==>
            if isMaximizing then ChildValue(board, depth, isMaximizing, player, opponent, j) <= r
            else r <= ChildValue(board, depth, isMaximizing, player, opponent, j))
      && (r == acc || exists j :: i <= j < 9 && board[j] == Empty && r == ChildValue(board, depth, isMaximizing, player, opponent, j))
    decreases 9 - i
  {
    if i < 9 {
      if board[i] == Empty {
        var score := ChildValue(board, depth, isMaximizing, player, opponent, i);
        BestFromFacts(board, depth, isMaximizing, player, opponent, i + 1,
                      if isMaximizing then Max(acc, score) else Min(acc, score));
      } else {
        BestFromFacts(board, depth, isMaximizing, player, opponent, i + 1, acc);
      }
    }
  }

  /** Every score lies in [depth - 10, 10 - depth]; from the top of the
      search (depth 0) that is [-10, 10], strictly inside the seeds. */
  lemma {:induction false} MinimaxBounds(board: Board, depth: nat, isMaximizing: bool, player: Player, opponent: Player)
    requires depth <= 6
    ensures depth - 10 <= MinimaxValue(board, depth, isMaximizing, player, opponent) <= 10 - depth
    decreases 6 - depth
  {
    var winnerInfo := CheckWinner(board);
    if winnerInfo.Some? && (winnerInfo.value.winner == player || winnerInfo.value.winner == opponent) {
    } else if IsBoardFull(board) || depth > 5 {
    } else {
      var seed := if isMaximizing then NegInfinity else PosInfinity;
      var v := MinimaxValue(board, depth, isMaximizing, player, opponent);
      assert v == BestFrom(board, depth, isMaximizing, player, opponent, 0, seed);
      BestFromFacts(board, depth, isMaximizing, player, opponent, 0, seed);
      var e: Index :| board[e] == Empty;
      MinimaxBounds(board[e := Taken(Mover(isMaximizing, player, opponent))], depth + 1, !isMaximizing, player, opponent);
      if v == seed {
        assert false;
      } else {
        var j: Index :| board[j] == Empty && v == ChildValue(board, depth, isMaximizing, player, opponent, j);
        MinimaxBounds(board[j := Taken(Mover(isMaximizing, player, opponent))], depth + 1, !isMaximizing, player, opponent);
      }
    }
  }

  /** Away from the leaves, a maximising ply scores the maximum and a
      minimising ply the minimum of the scores of its moves. */
  lemma MinimaxPly(board: Board, depth: nat, isMaximizing: bool, player: Player, opponent: Player)
    requires depth <= 5 && CheckWinner(board).None? && !IsBoardFull(board)
    ensures var v := MinimaxValue(board, depth, isMaximizing, player, opponent);
      && (exists j: Index :: board[j] == Empty && v == ChildValue(board, depth, isMaximizing, player, opponent, j))
      && (forall j: Index :: board[j] == Empty ==>
            if isMaximizing then ChildValue(board, depth, isMaximizing, player, opponent, j) <= v
            else v <= ChildValue(board, depth, isMaximizing, player, opponent, j))
  {
    var seed := if isMaximizing then NegInfinity else PosInfinity;
    var v := MinimaxValue(board, depth, isMaximizing, player, opponent);
    BestFromFacts(board, depth, isMaximizing, player, opponent, 0, seed);
    var e: Index :| board[e] == Empty;
    MinimaxBounds(board[e := Taken(Mover(isMaximizing, player, opponent))], depth + 1, !isMaximizing, player, opponent);
  }

  /** The score getBestMove gives to putting `player`'s mark in cell `k`. */
  function MoveScore(board: Board, player: Player, k: Index): int {
    MinimaxValue(board[k := Taken(player)], 0, false, player, Other(player))
  }

  /** `k` has the highest score, and every empty cell before it a strictly lower one. */
  predicate LowestArgMax(board: Board, player: Player, k: Index) {
    && (forall j: Index :: board[j] == Empty ==> MoveScore(board, player, j) <= MoveScore(board, player, k))
    && (forall j: Index :: j < k && board[j] == Empty ==> MoveScore(board, player, j) < MoveScore(board, player, k))
  }

  /** `k` has the lowest score, and every empty cell before it a strictly higher one. */
  predicate LowestArgMin(board: Board, player: Player, k: Index) {
    && (forall j: Index :: board[j] == Empty ==> MoveScore(board, player, k) <= MoveScore(board, player, j))
    && (forall j: Index :: j < k && board[j] == Empty ==> MoveScore(board, player, k) < MoveScore(board, player, j))
  }

  /** The strict improvement test of getBestMove's scan. */
  predicate Improves(player: Player, score: int, bestScore: int) {
    (player == O && score > bestScore) || (player == X && score < bestScore)
  }

  /** A move scores 10, the most any move can, exactly when it completes a
      line for the player at once. */
  lemma ImmediateWinScore(board: Board, player: Player, k: Index)
    ensures MoveScore(board, player, k) <= 10
    ensures MoveScore(board, player, k) == 10 <==> WinsWith(board, player, k)
  {
    var after := board[k := Taken(player)];
    MinimaxBounds(after, 0, false, player, Other(player));
    var w := CheckWinner(after);
    if !(w.Some? && (w.value.winner == player || w.value.winner == Other(player))) && !IsBoardFull(after) {
      MinimaxPly(after, 0, false, player, Other(player));
      var j: Index :| after[j] == Empty && MoveScore(board, player, k) == ChildValue(after, 0, false, player, Other(player), j);
      MinimaxBounds(after[j := Taken(Other(player))], 1, true, player, Other(player));
    }
  }

  /** The scores getBestMove computes, cell by cell (0 for an occupied cell). */
  function MoveScores(board: Board, player: Player): (r: seq<int>)
    ensures |r| == 9
  {
    seq(9, j requires 0 <= j < 9 => if board[j] == Empty then MoveScore(board, player, j) else 0)
  }

  /** Recording the score of cell `i` extends the recorded prefix by one. */
  lemma MoveScoresExtend(board: Board, player: Player, scores: seq<int>, i: nat, score: int)
    requires i < 9 && scores == MoveScores(board, player)[..i]
    requires score == if board[i] == Empty then MoveScore(board, player, i) else 0
    ensures scores + [score] == MoveScores(board, player)[..i + 1]
  {
    assert MoveScores(board, player)[i] == score;
  }

  /** What getBestMove's scan establishes about the cell `m` it keeps: no
      empty cell improves on it, and every empty cell before it is improved on. */
  predicate ScanChoice(board: Board, player: Player, m: Index) {
    && board[m] == Empty
    && (forall j: Index :: board[j] == Empty ==> !Improves(player, MoveScore(board, player, j), MoveScore(board, player, m)))
    && (forall j: Index :: j < m && board[j] == Empty ==> Improves(player, MoveScore(board, player, m), MoveScore(board, player, j)))
  }

  /** For "O" the scan keeps the lowest cell of highest score, and it takes
      an immediate win whenever one exists. */
  lemma ScanChoiceForO(board: Board, m: Index)
    requires ScanChoice(board, O, m)
    ensures LowestArgMax(board, O, m)
    ensures (exists k: Index :: board[k] == Empty && WinsWith(board, O, k)) ==> WinsWith(board, O, m)
  {
    ImmediateWinScore(board, O, m);
    if exists k: Index :: board[k] == Empty && WinsWith(board, O, k) {
      var k: Index :| board[k] == Empty && WinsWith(board, O, k);
      ImmediateWinScore(board, O, k);
    }
  }

  /** For "X" the scan keeps the lowest cell of LOWEST score, so it passes
      over an immediate win whenever some other move does not win at once. */
  lemma ScanChoiceForX(board: Board, m: Index)
    requires ScanChoice(board, X, m)
    ensures LowestArgMin(board, X, m)
    ensures (exists k: Index :: board[k] == Empty && !WinsWith(board, X, k)) ==> !WinsWith(board, X, m)
  {
    ImmediateWinScore(board, X, m);
    if exists k: Index :: board[k] == Empty && !WinsWith(board, X, k) {
      var k: Index :| board[k] == Empty && !WinsWith(board, X, k);
      ImmediateWinScore(board, X, k);
    }
  }

  /** X threatens to complete a line in cell `c` and in no other cell, and
      O cannot complete a line with one move. */
  predicate SingleThreat(board: Board, c: Index) {
    && CheckWinner(board).None?
    && board[c] == Empty && WinsWith(board, X, c)
    && (forall k: Index :: k != c && board[k] == Empty ==> !WinsWith(board, X, k))
    && (forall k: Index :: board[k] == Empty ==> !WinsWith(board, O, k))
  }

  /** If O plays elsewhere, the game goes on and X's reply at `c` wins. */
  lemma ThreatStands(board: Board, c: Index, k: Index)
    requires SingleThreat(board, c) && k != c && board[k] == Empty
    ensures CheckWinner(board[k := Taken(O)]).None?
    ensures var w := CheckWinner(board[k := Taken(O)][c := Taken(X)]); w.Some? && w.value.winner == X
  {
    var after := board[k := Taken(O)];
    PlaceWinner(board, k, O);
    PlaceWinner(after, c, X);
    CheckWinnerSpec(board[c := Taken(X)]);
    var l := CheckWinner(board[c := Taken(X)]).value.line;
    assert k != l.a && k != l.b && k != l.c;
    CheckWinnerSpec(after[c := Taken(X)]);
    assert Complete(after[c := Taken(X)], l);
  }

  /** After O blocks at `c`, the game goes on and no reply of X wins. */
  lemma BlockHolds(board: Board, c: Index, j: Index)
    requires SingleThreat(board, c) && j != c && board[j] == Empty
    ensures CheckWinner(board[c := Taken(O)]).None?
    ensures CheckWinner(board[c := Taken(O)][j := Taken(X)]).None?
  {
    var after := board[c := Taken(O)];
    PlaceWinner(board, c, O);
    PlaceWinner(after, j, X);
    var w := CheckWinner(after[j := Taken(X)]);
    if w.Some? {
      CheckWinnerSpec(after[j := Taken(X)]);
      var l := w.value.line;
      assert c != l.a && c != l.b && c != l.c;
      CheckWinnerSpec(board[j := Taken(X)]);
      assert Complete(board[j := Taken(X)], l);
      PlaceWinner(board, j, X);
    }
  }

  /** Any cell other than the threatened one scores at most -9 for O. */
  lemma ThreatScore(board: Board, c: Index, k: Index)
    requires SingleThreat(board, c) && k != c && board[k] == Empty
    ensures MoveScore(board, O, k) <= -9
  {
    var after := board[k := Taken(O)];
    ThreatStands(board, c, k);
    assert after[c] == Empty;
    MinimaxPly(after, 0, false, O, X);
    assert ChildValue(after, 0, false, O, X, c) == -9;
  }

  /** The blocking cell scores at least -8 for O. */
  lemma BlockScore(board: Board, c: Index)
    requires SingleThreat(board, c)
    ensures -8 <= MoveScore(board, O, c)
  {
    var after := board[c := Taken(O)];
    PlaceWinner(board, c, O);
    if !IsBoardFull(after) {
      MinimaxPly(after, 0, false, O, X);
      var j: Index :| after[j] == Empty && MoveScore(board, O, c) == ChildValue(after, 0, false, O, X, j);
      BlockHolds(board, c, j);
      var reply := after[j := Taken(X)];
      if !IsBoardFull(reply) {
        MinimaxPly(reply, 1, true, O, X);
        var i: Index :| reply[i] == Empty && ChildValue(after, 0, false, O, X, j) == ChildValue(reply, 1, true, O, X, i);
        MinimaxBounds(reply[i := Taken(O)], 2, false, O, X);
      }
    }
  }

  /** Facing a single threat of X and with no win of its own, O's search
      takes the blocking cell. */
  lemma BlocksSingleThreat(board: Board, c: Index, m: Index)
    requires SingleThreat(board, c) && ScanChoice(board, O, m)
    ensures m == c
  {
    if m != c {
      ThreatScore(board, c, m);
      BlockScore(board, c);
    }
  }

  /** The state of getBestMove's scan after cells `0..i-1`, over the
      scores `scores` of the cells visited so far. */
  predicate ScanState(board: Board, player: Player, scores: seq<int>, i: nat, bestScore: int, bestMove: Option<Index>)
    requires |scores| == i <= 9
  {
    && (bestMove.None? <==> forall j :: 0 <= j < i ==> board[j] != Empty)
    && (bestMove.None? ==> bestScore == if player == O then NegInfinity else PosInfinity)
    && (bestMove.Some? ==>
          && bestMove.value < i && board[bestMove.value] == Empty
          && bestScore == scores[bestMove.value]
          && (forall j :: 0 <= j < i && board[j] == Empty ==> !Improves(player, scores[j], bestScore))
          && (forall j :: 0 <= j < bestMove.value && board[j] == Empty ==> Improves(player, bestScore, scores[j])))
  }

  /** One step of getBestMove's scan keeps its state. */
  lemma ScanStep(board: Board, player: Player, scores: seq<int>, i: nat, bestScore: int, bestMove: Option<Index>, score: int)
    requires |scores| == i < 9 && ScanState(board, player, scores, i, bestScore, bestMove)
    requires board[i] == Empty ==> -10 <= score <= 10
    ensures var improves := board[i] == Empty && Improves(player, score, bestScore);
      ScanState(board, player, scores + [score], i + 1,
                if improves then score else bestScore, if improves then Some(i as Index) else bestMove)
  {
  }

  /** At the end of the scan the kept cell is the scan's choice, and there
      is none exactly when the board is full. */
  lemma ScanEnd(board: Board, player: Player, scores: seq<int>, bestScore: int, bestMove: Option<Index>)
    requires scores == MoveScores(board, player)
    requires ScanState(board, player, scores, 9, bestScore, bestMove)
    ensures bestMove.None? <==> IsBoardFull(board)
    ensures bestMove.Some? ==> ScanChoice(board, player, bestMove.value)
  {
    if bestMove.None? {
      assert Empty !in board;
    }
  }

  /** The move search of the computer player. For "O" it returns the lowest
      cell of highest score; for "X" it minimises a score that is still X's
      own, so it returns the lowest cell of lowest score. */
  method GetBestMove(board: Board, player: Player) returns (bestMove: Option<Index>)
    ensures bestMove.None? <==> IsBoardFull(board)
    ensures bestMove.Some? ==> board[bestMove.value] == Empty
    ensures bestMove.Some? && player == O ==> LowestArgMax(board, O, bestMove.value)
    ensures bestMove.Some? && player == X ==> LowestArgMin(board, X, bestMove.value)
    ensures player == O && (exists k: Index :: board[k] == Empty && WinsWith(board, O, k)) ==>
      bestMove.Some? && WinsWith(board, O, bestMove.value)
    ensures player == O ==> forall c: Index :: SingleThreat(board, c) ==> bestMove == Some(c)
    ensures player == X && (exists k: Index :: board[k] == Empty && !WinsWith(board, X, k)) ==>
      bestMove.Some? && !WinsWith(board, X, bestMove.value)
  {
    var opponent := Other(player);
    var bestScore := if player == O then NegInfinity else PosInfinity;
    bestMove := None;
    ghost var scores: seq<int> := [];
    var i := 0;
    while i < 9
      invariant 0 <= i <= 9 && |scores| == i
      invariant scores == MoveScores(board, player)[..i]
      invariant ScanState(board, player, scores, i, bestScore, bestMove)
    {
      var score := 0;
      if board[i] == Empty {
        var newBoard := board[i := Taken(player)];
        score := Minimax(newBoard, 0, false, player, opponent);
        MinimaxBounds(newBoard, 0, false, player, opponent);
        ScanStep(board, player, scores, i, bestScore, bestMove, score);
        if (player == O && score > bestScore) || (player == X && score < bestScore) {
          bestScore := score;
          bestMove := Some(i);
        }
      } else {
        ScanStep(board, player, scores, i, bestScore, bestMove, score);
      }
      MoveScoresExtend(board, player, scores, i, score);
      scores := scores + [score];
      i := i + 1;
    }
    ScanEnd(board, player, scores, bestScore, bestMove);
    if bestMove.Some? {
      if player == O {
        ScanChoiceForO(board, bestMove.value);
        forall c: Index | SingleThreat(board, c)
          ensures bestMove == Some(c)
        {
          BlocksSingleThreat(board, c, bestMove.value);
        }
      } else {
        ScanChoiceForX(board, bestMove.value);
      }
    }
  }
}
