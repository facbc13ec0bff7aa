/** The state of one play session of the component (board, history,
    current step, turn, score board, mode and difficulty) and its handlers,
    each taken as one atomic transition. */
module Session {
  import opened Optional
  import opened Rules
  import Search

  datatype Mode = Human | AI
  datatype Difficulty = Easy | Medium | Hard

  /** The score board `{ X, O, draw }`. */
  datatype Scores = Scores(x: nat, o: nat, draw: nat)

  const ZeroScores: Scores := Scores(0, 0, 0)

  function Total(scores: Scores): nat {
    scores.x + scores.o + scores.draw
  }

  /** The values of the state fields at one moment. `history[k]` is the
      board before move k + 1 was played, so the board after k moves. */
  datatype Snapshot = Snapshot(
    board: Board,
    history: seq<Board>,
    currentStep: int,
    isXNext: bool,
    scores: Scores,
    gameMode: Mode,
    difficulty: Difficulty)

  /** The initial values of the `useState` hooks. */
  const Initial: Snapshot := Snapshot(EmptyBoard, [], 0, true, ZeroScores, Human, Medium)

  /** The invariant every handler keeps. */
  predicate StepInRange(s: Snapshot) {
    s.currentStep <= |s.history|
  }

  function Mark(isXNext: bool): Player {
    if isXNext then X else O
  }

  /** `h.slice(0, n)`: a negative end counts from the back, an end past
      the length is the length. */
  function SliceTo<T>(h: seq<T>, n: int): (r: seq<T>)
    ensures |r| == if n > |h| then |h| else if n >= 0 then n else if |h| + n >= 0 then |h| + n else 0
    ensures r == h[..|r|]
  {
    if n > |h| then h
    else if n >= 0 then h[..n]
    else if |h| + n >= 0 then h[..|h| + n]
    else []
  }

  /** updateScores: the winner's counter, or the draw counter, goes up by one. */
  function Tally(scores: Scores, board: Board): (r: Scores)
    ensures !GameOver(board) ==> r == scores
    ensures GameOver(board) ==> Total(r) == Total(scores) + 1
    ensures scores.x <= r.x && scores.o <= r.o && scores.draw <= r.draw
    ensures scores.x < r.x <==> CheckWinner(board).Some? && CheckWinner(board).value.winner == X
    ensures scores.o < r.o <==> CheckWinner(board).Some? && CheckWinner(board).value.winner == O
    ensures scores.draw < r.draw <==> IsDraw(board)
  {
    var win := CheckWinner(board);
    if win.Some? then
      match win.value.winner
      case X => scores.(x := scores.x + 1)
      case O => scores.(o := scores.o + 1)
    else if IsBoardFull(board) then scores.(draw := scores.draw + 1)
    else scores
  }

  /** The cell is free and the game is neither won nor drawn. */
  predicate Playable(s: Snapshot, index: Index) {
    s.board[index] == Empty && !GameOver(s.board)
  }

  /** handleClick(index). */
  function Click(s: Snapshot, index: Index): (r: Snapshot)
    ensures !Playable(s, index) ==> r == s
    ensures Playable(s, index) ==>
      && r.board[index] == Taken(Mark(s.isXNext))
      && (forall j: Index :: j != index ==> r.board[j] == s.board[j])
      && r.history == SliceTo(s.history, s.currentStep) + [s.board]
      && r.currentStep == s.currentStep + 1
      && r.isXNext == !s.isXNext
      && r.scores == Tally(s.scores, r.board)
      && r.gameMode == s.gameMode && r.difficulty == s.difficulty
    ensures StepInRange(s) ==> StepInRange(r)
  {
    if !Playable(s, index) then s
    else
      var newBoard := s.board[index := Taken(Mark(s.isXNext))];
      s.(board := newBoard,
         history := SliceTo(s.history, s.currentStep) + [s.board],
         currentStep := s.currentStep + 1,
         isXNext := !s.isXNext,
         scores := if GameOver(newBoard) then Tally(s.scores, newBoard) else s.scores)
  }

  /** undoMove: one board back against a human, two against the computer. */
  function Undo(s: Snapshot): (r: Snapshot)
    ensures |s.history| == 0 ==> r == s
    ensures s.gameMode == AI && |s.history| < 2 ==> r == s
    ensures s.gameMode == AI && |s.history| >= 2 ==>
      && r.board == s.history[|s.history| - 2]
      && r.history + s.history[|s.history| - 2..] == s.history
      && r.currentStep == s.currentStep - 2
      && r.isXNext == s.isXNext
    ensures s.gameMode == Human && |s.history| > 0 ==>
      && r.board == s.history[|s.history| - 1]
      && r.history + [r.board] == s.history
      && r.currentStep == s.currentStep - 1
      && r.isXNext == !s.isXNext
    ensures r.scores == s.scores && r.gameMode == s.gameMode && r.difficulty == s.difficulty
    ensures StepInRange(s) ==> StepInRange(r)
  {
    var h := s.history;
    if |h| == 0 then s
    else if s.gameMode == AI then
      if |h| >= 2 then
        s.(board := h[|h| - 2], history := SliceTo(h, -2), currentStep := s.currentStep - 2)
      else s
    else
      s.(board := h[|h| - 1], history := SliceTo(h, -1), currentStep := s.currentStep - 1,
         isXNext := !s.isXNext)
  }

  /** jumpToMove(step) as written: for step >= 1 it shows `history[step - 1]`. */
  function JumpToAsWritten(s: Snapshot, step: nat): (r: Snapshot)
    ensures step >= |s.history| ==> r == s
    ensures step < |s.history| ==>
      && r.board == (if step == 0 then EmptyBoard else s.history[step - 1])
      && r.currentStep == step
      && r.isXNext == (step % 2 == 0)
      && r.history == s.history && r.scores == s.scores
      && r.gameMode == s.gameMode && r.difficulty == s.difficulty
  {
    if step < |s.history| then
      s.(board := if step == 0 then EmptyBoard else s.history[step - 1],
         currentStep := step,
         isXNext := step % 2 == 0)
    else s
  }

  /** jumpToMove(step), showing the board after `step` moves. */
  function JumpTo(s: Snapshot, step: nat): (r: Snapshot)
    ensures step >= |s.history| ==> r == s
    ensures step < |s.history| ==>
      && r.board == s.history[step]
      && r.currentStep == step
      && r.isXNext == (step % 2 == 0)
      && r.history == s.history && r.scores == s.scores
      && r.gameMode == s.gameMode && r.difficulty == s.difficulty
    ensures StepInRange(s) ==> StepInRange(r)
  {
    if step < |s.history| then
      s.(board := s.history[step], currentStep := step, isXNext := step % 2 == 0)
    else s
  }

  /** restartGame: an empty board and history, X to move; scores, mode and
      difficulty stay. */
  function Restart(s: Snapshot): (r: Snapshot)
    ensures r.board == EmptyBoard && r.history == [] && r.currentStep == 0 && r.isXNext
    ensures r.scores == s.scores && r.gameMode == s.gameMode && r.difficulty == s.difficulty
    ensures StepInRange(r)
  {
    s.(board := EmptyBoard, history := [], currentStep := 0, isXNext := true)
  }

  /** The condition under which the computer is to play: it is O's turn in a
      game against the computer that is neither won nor drawn. */
  predicate AIShouldMove(s: Snapshot) {
    s.gameMode == AI && !s.isXNext && CheckWinner(s.board).None? && !IsBoardFull(s.board)
  }

  /** When the computer is to play, any empty cell it picks is taken by O
      and the turn passes back to X. */
  lemma AITurnPlacesO(s: Snapshot, k: Index)
    requires AIShouldMove(s) && s.board[k] == Empty
    ensures var r := Click(s, k);
      r.board == s.board[k := Taken(O)] && r.isXNext && r.currentStep == s.currentStep + 1
  {
  }

  /** Against a human, undo right after a move that does not end the game
      restores the session exactly, when no earlier step is being viewed. */
  lemma UndoRevertsClick(s: Snapshot, index: Index)
    requires s.gameMode == Human && s.currentStep == |s.history|
    requires Playable(s, index) && !GameOver(Click(s, index).board)
    ensures Undo(Click(s, index)) == s
  {
    var r := Click(s, index);
    assert r.history == s.history + [s.board];
    assert r.history[..|r.history| - 1] == s.history;
  }

  /** Against the computer, undo after the player's move and the reply
      restores the session exactly, when neither move ended the game. */
  lemma UndoRevertsMoveAndReply(s: Snapshot, move: Index, reply: Index)
    requires s.gameMode == AI && s.currentStep == |s.history|
    requires Playable(s, move) && Playable(Click(s, move), reply)
    requires !GameOver(Click(Click(s, move), reply).board)
    ensures Undo(Click(Click(s, move), reply)) == s
  {
    var r1 := Click(s, move);
    var r2 := Click(r1, reply);
    assert r1.history == s.history + [s.board];
    assert r2.history == s.history + [s.board, r1.board];
    assert r2.history[..|r2.history| - 2] == s.history;
  }

  /** The number of marked cells. */
  function Marks(cells: seq<Cell>): nat {
    if |cells| == 0 then 0 else (if cells[0] == Empty then 0 else 1) + Marks(cells[1..])
  }

  lemma {:induction false} MarksPlace(cells: seq<Cell>, k: nat, p: Player)
    requires k < |cells| && cells[k] == Empty
    ensures Marks(cells[k := Taken(p)]) == Marks(cells) + 1
  {
    if k > 0 {
      MarksPlace(cells[1..], k - 1, p);
      assert cells[k := Taken(p)][1..] == cells[1..][k - 1 := Taken(p)];
    }
  }

  lemma {:induction false} MarksEmpty(cells: seq<Cell>)
    requires forall i :: 0 <= i < |cells| ==> cells[i] == Empty
    ensures Marks(cells) == 0
  {
    if |cells| > 0 {
      MarksEmpty(cells[1..]);
    }
  }

  /** The player who makes move k + 1: X after an even number of moves. */
  function MoverAfter(k: nat): Player {
    if k % 2 == 0 then X else O
  }

  /** `next` follows `b` by one move: the player to move after k moves puts
      a mark in one empty cell of `b`. */
  predicate NextPosition(b: Board, next: Board, k: nat) {
    exists i: Index :: b[i] == Empty && next == b[i := Taken(MoverAfter(k))]
  }

  /** The session is a game replayed from the start: the history begins
      with the empty board and each entry follows the one before by one
      move; the board follows the entry before `currentStep` by one move
      (or is the empty board at step 0), and it is the recorded entry when
      an earlier step is viewed; X is to move exactly after an even number
      of moves. */
  predicate Replayable(s: Snapshot) {
    && 0 <= s.currentStep <= |s.history|
    && (0 < |s.history| ==> s.history[0] == EmptyBoard)
    && (forall k :: 0 <= k < |s.history| - 1 ==> NextPosition(s.history[k], s.history[k + 1], k))
    && (s.currentStep == 0 ==> s.board == EmptyBoard)
    && (0 < s.currentStep ==> NextPosition(s.history[s.currentStep - 1], s.board, s.currentStep - 1))
    && (s.currentStep < |s.history| ==> s.board == s.history[s.currentStep])
    && (s.isXNext <==> s.currentStep % 2 == 0)
  }

  lemma {:induction false} ChainMarks(history: seq<Board>, n: nat)
    requires n < |history| && history[0] == EmptyBoard
    requires forall k :: 0 <= k < |history| - 1 ==> NextPosition(history[k], history[k + 1], k)
    ensures Marks(history[n]) == n
  {
    if n == 0 {
      MarksEmpty(EmptyBoard);
    } else {
      ChainMarks(history, n - 1);
      assert NextPosition(history[n - 1], history[n], n - 1);
      var i: Index :| history[n - 1][i] == Empty && history[n] == history[n - 1][i := Taken(MoverAfter(n - 1))];
      MarksPlace(history[n - 1], i, MoverAfter(n - 1));
    }
  }

  /** In a replayed session the k-th history entry holds k marks and the
      board holds `currentStep` marks. */
  lemma ReplayableMarks(s: Snapshot)
    requires Replayable(s)
    ensures forall k :: 0 <= k < |s.history| ==> Marks(s.history[k]) == k
    ensures Marks(s.board) == s.currentStep
  {
    forall k | 0 <= k < |s.history|
      ensures Marks(s.history[k]) == k
    {
      ChainMarks(s.history, k);
    }
    if s.currentStep == 0 {
      MarksEmpty(EmptyBoard);
    } else {
      var c := s.currentStep - 1;
      var i: Index :| s.history[c][i] == Empty && s.board == s.history[c][i := Taken(MoverAfter(c))];
      MarksPlace(s.history[c], i, MoverAfter(c));
    }
  }

  lemma InitialReplayable()
    ensures Replayable(Initial)
  {
  }

  lemma ClickKeepsReplayable(s: Snapshot, index: Index)
    requires Replayable(s)
    ensures Replayable(Click(s, index))
  {
    if Playable(s, index) {
      var r := Click(s, index);
      var c := s.currentStep;
      assert r.history == s.history[..c] + [s.board];
      assert r.board == s.board[index := Taken(MoverAfter(c))];
      assert NextPosition(r.history[c], r.board, c);
      forall k | 0 <= k < |r.history| - 1
        ensures NextPosition(r.history[k], r.history[k + 1], k)
      {
        if k < c - 1 {
          assert NextPosition(s.history[k], s.history[k + 1], k);
        }
      }
    }
  }

  lemma RestartReplayable(s: Snapshot)
    ensures Replayable(Restart(s))
  {
  }

  /** Undo keeps the session replayable when the latest position is shown;
      it reads the end of the history, not the viewed step. */
  lemma UndoKeepsReplayable(s: Snapshot)
    requires Replayable(s) && s.currentStep == |s.history|
    ensures Replayable(Undo(s))
  {
    var h := s.history;
    var r := Undo(s);
    if |h| > 0 && (s.gameMode == Human || |h| >= 2) {
      var n := if s.gameMode == Human then |h| - 1 else |h| - 2;
      assert r.history == h[..n] && r.board == h[n];
      if n > 0 {
        assert NextPosition(h[n - 1], h[n], n - 1);
      }
    }
  }

  /** Jumping to a recorded step shows the position after that many moves. */
  lemma JumpToKeepsReplayable(s: Snapshot, step: nat)
    requires Replayable(s)
    ensures Replayable(JumpTo(s, step))
    ensures step < |s.history| ==> Marks(JumpTo(s, step).board) == step
  {
    if 0 < step < |s.history| {
      assert NextPosition(s.history[step - 1], s.history[step], step - 1);
    }
    ReplayableMarks(JumpTo(s, step));
  }

  /** As written, "Go to move #1" after two moves shows the empty board
      with O to move, and the session is no longer replayable. */
  lemma JumpToAsWrittenShowsEarlierBoard()
    ensures var b1 := EmptyBoard[4 := Taken(X)];
      var s := Snapshot(b1[0 := Taken(O)], [EmptyBoard, b1], 2, true, ZeroScores, Human, Medium);
      && Replayable(s)
      && JumpToAsWritten(s, 1).board == EmptyBoard
      && !JumpToAsWritten(s, 1).isXNext
      && !Replayable(JumpToAsWritten(s, 1))
  {
    var b1 := EmptyBoard[4 := Taken(X)];
    var s := Snapshot(b1[0 := Taken(O)], [EmptyBoard, b1], 2, true, ZeroScores, Human, Medium);
    assert NextPosition(EmptyBoard, b1, 0) by {
      assert EmptyBoard[4] == Empty;
    }
    assert NextPosition(b1, s.board, 1) by {
      assert b1[0] == Empty;
    }
    assert b1[4] != EmptyBoard[4];
  }

  /** The fields of the component that the handlers read and write. */
  class Game {
    var board: Board
    var history: seq<Board>
    var currentStep: int
    var isXNext: bool
    var scores: Scores
    var gameMode: Mode
    var difficulty: Difficulty

    function State(): Snapshot
      reads this
    {
      Snapshot(board, history, currentStep, isXNext, scores, gameMode, difficulty)
    }

    constructor()
      ensures State() == Initial
    {
      board := EmptyBoard;
      history := [];
      currentStep := 0;
      isXNext := true;
      scores := ZeroScores;
      gameMode := Human;
      difficulty := Medium;
    }

    method UpdateScores(b: Board)
      modifies this`scores
      ensures scores == Tally(old(scores), b)
    {
      var win := CheckWinner(b);
      if win.Some? {
        if win.value.winner == X {
          scores := scores.(x := scores.x + 1);
        } else {
          scores := scores.(o := scores.o + 1);
        }
      } else if Empty !in b {
        scores := scores.(draw := scores.draw + 1);
      }
    }

    method HandleClick(index: Index)
      modifies this
      ensures State() == Click(old(State()), index)
    {
      var winnerInfo := CheckWinner(board);
      var isDraw := winnerInfo.None? && Empty !in board;
      if board[index] != Empty || winnerInfo.Some? || isDraw {
        return;
      }
      var historyCopy := SliceTo(history, currentStep);
      var newBoard := board[index := Taken(if isXNext then X else O)];
      history := historyCopy + [board];
      board := newBoard;
      currentStep := currentStep + 1;
      isXNext := !isXNext;
      if CheckWinner(newBoard).Some? || Empty !in newBoard {
        UpdateScores(newBoard);
      }
    }

    method UndoMove()
      modifies this
      ensures State() == Undo(old(State()))
    {
      if |history| > 0 {
        if gameMode == AI {
          if |history| >= 2 {
            board := history[|history| - 2];
            history := SliceTo(history, -2);
            currentStep := currentStep - 2;
          }
        } else {
          board := history[|history| - 1];
          history := SliceTo(history, -1);
          currentStep := currentStep - 1;
          isXNext := !isXNext;
        }
      }
    }

    /** jumpToMove as written: for step >= 1 it shows `history[step - 1]`. */
    method JumpToMove(step: nat)
      modifies this
      ensures State() == JumpToAsWritten(old(State()), step)
    {
      if step < |history| {
        board := if step == 0 then EmptyBoard else history[step - 1];
        currentStep := step;
        isXNext := step % 2 == 0;
      }
    }

    /** The corrected jump: shows `history[step]`, the board after `step` moves. */
    method JumpToRecordedMove(step: nat)
      modifies this
      ensures State() == JumpTo(old(State()), step)
    {
      if step < |history| {
        board := history[step];
        currentStep := step;
        isXNext := step % 2 == 0;
      }
    }

    method RestartGame()
      modifies this
      ensures State() == Restart(old(State()))
    {
      board := EmptyBoard;
      history := [];
      currentStep := 0;
      isXNext := true;
    }

    method ResetScores()
      modifies this`scores
      ensures scores == ZeroScores
    {
      scores := ZeroScores;
    }

    /** Choosing a mode in the settings also restarts the game. */
    method ChangeGameMode(mode: Mode)
      modifies this
      ensures State() == Restart(old(State())).(gameMode := mode)
    {
      gameMode := mode;
      RestartGame();
    }

    method ChangeDifficulty(level: Difficulty)
      modifies this`difficulty
      ensures difficulty == level
    {
      difficulty := level;
    }

    /** makeAIMove. `coin` is the outcome of `Math.random() > 0.5`, which
        picks the search over a random cell at medium difficulty. */
    method MakeAIMove(coin: bool) returns (aiMove: Option<Index>)
      modifies this
      ensures GameOver(old(board)) ==> aiMove.None? && State() == old(State())
      ensures !GameOver(old(board)) ==>
        && aiMove.Some? && old(board)[aiMove.value] == Empty
        && State() == Click(old(State()), aiMove.value)
      ensures !GameOver(old(board)) && (old(difficulty) == Hard || (old(difficulty) == Medium && coin)) ==>
        && Search.LowestArgMax(old(board), O, aiMove.value)
        && ((exists k: Index :: old(board)[k] == Empty && WinsWith(old(board), O, k)) ==> WinsWith(old(board), O, aiMove.value))
        && (forall c: Index :: Search.SingleThreat(old(board), c) ==> aiMove == Some(c))
    {
      var winnerInfo := CheckWinner(board);
      if winnerInfo.Some? || (Empty !in board) {
        return None;
      }
      match difficulty {
        case Easy =>
          aiMove := Search.GetRandomMove(board);
        case Hard =>
          aiMove := Search.GetBestMove(board, O);
        case Medium =>
          if coin {
            aiMove := Search.GetBestMove(board, O);
          } else {
            aiMove := Search.GetRandomMove(board);
          }
      }
      if aiMove.Some? {
        HandleClick(aiMove.value);
      }
    }

    /** The computer's turn: when the guard holds, one move for O. */
    method TakeAITurn(coin: bool) returns (aiMove: Option<Index>)
      modifies this
      ensures !AIShouldMove(old(State())) ==> aiMove.None? && State() == old(State())
      ensures AIShouldMove(old(State())) ==>
        && aiMove.Some? && old(board)[aiMove.value] == Empty
        && State() == Click(old(State()), aiMove.value)
        && board == old(board)[aiMove.value := Taken(O)]
        && isXNext
      ensures AIShouldMove(old(State())) && (old(difficulty) == Hard || (old(difficulty) == Medium && coin)) ==>
        && Search.LowestArgMax(old(board), O, aiMove.value)
        && ((exists k: Index :: old(board)[k] == Empty && WinsWith(old(board), O, k)) ==> WinsWith(old(board), O, aiMove.value))
        && (forall c: Index :: Search.SingleThreat(old(board), c) ==> aiMove == Some(c))
    {
      aiMove := None;
      if gameMode == AI && !isXNext && CheckWinner(board).None? && Empty in board {
        aiMove := MakeAIMove(coin);
      }
    }
  }
}
