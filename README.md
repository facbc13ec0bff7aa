# Tic-Tac-Toe game engine and session, in Dafny

This project models the logic of a single-component React Tic-Tac-Toe game
(`src/App.js`). It covers four parts:

- **Rules** (`rules.dfy`, module `Rules`): the nine-cell board (cells `null`,
  `"X"` or `"O"`, numbered 0-8 in row-major order), the table of the eight
  winning lines, the winner check that reports the first complete line in
  table order, and the full-board and draw conditions.
- **Move search** (`search.dfy`, module `Search`):
  - the random move, taken as any empty cell;
  - the depth-limited minimax, which does no pruning and always scores from
    `player`'s side;
  - the move scan of the computer player, which keeps the lowest cell with a
    strictly better score.

  `minimax` and `getBestMove` are methods with loops. Each is proved against
  a left-fold specification function (`MinimaxValue`, `MoveScores`). The
  `-Infinity` and `Infinity` seeds are the integers -11 and 11, one past the
  score range [-10, 10] that `MinimaxBounds` proves.
- **Clock** (`clock.dfy`, module `Clock`): `formatTime`, which renders whole
  seconds as `m:ss`.
- **Session** (`session.dfy`, module `Session`):
  - The component's state hooks (board, history, current step, turn, score
    board, mode, difficulty) are the fields of class `Game`.
  - Each event handler is a method on `Game`. Its postcondition ties the new
    state to a transition function on a `Snapshot` value.
  - Lemmas about those functions state what the handlers promise:
    - nothing changes when a click is refused;
    - exactly one counter goes up when a game ends;
    - undo reverts a move against a human, and a move and its reply against
      the computer;
    - `currentStep <= |history|` always holds;
    - the "replayable" invariant: the history starts from the empty board,
      and each entry follows the one before by one move of the player whose
      turn it was; the board follows the entry before `currentStep` the same
      way. Counting marks then shows that history entry k holds k marks.

`currentStep` is an unbounded integer. Undo after a jump back can drive it
below zero, because undo reads the end of the history and not the viewed
step. `Array.prototype.slice` with a negative end is modelled as it behaves
in JavaScript (`SliceTo`).

## Model

| member | source | states |
|---|---|---|
| Rules.FirstWinFromSpec | src/App.js:409-416 | the scan from line k returns nothing iff no later line is complete; otherwise it returns a complete line of the table, with its mark, and no earlier line from k on is complete |
| Rules.CheckWinnerSpec | src/App.js:409-416 | the winner check reports nothing iff no winning combination is complete; otherwise the reported line is in the table, its three cells all hold the reported mark, and it is the first complete line in table order |
| Rules.PlaceWinner | src/App.js:409-416 | on a board with no complete line, after one more mark the winner check reports nobody or the player who placed it |
| Rules.WinningCombinationsAreAlignedTriples | src/App.js:4-8 | a triple of ascending cells is in the table iff the cells lie on one row, one column or one diagonal of the 3x3 grid |
| Rules.WinningCombinationsAscending | src/App.js:4-8 | every line of the table lists three ascending, aligned cells |
| Search.AvailableMoves | src/App.js:98-100 | the collected indices are exactly the empty cells, in strictly ascending order; the list is empty iff the board is full |
| Search.GetRandomMove | src/App.js:97-106 | returns null iff the board is full; otherwise an empty cell |
| Search.Minimax | src/App.js:136-174 | the loop over the cells computes the running maximum (or minimum) of the child scores, which is the value of the specification `MinimaxValue`; the recursion ends because the depth grows toward the cutoff |
| Search.BestFromFacts | src/App.js:147-173 | a scan's result is at least (or at most) its seed and every child score it visits, and it is the seed or one of those child scores |
| Search.MinimaxBounds | src/App.js:136-174 | every score at depth d lies in [d - 10, 10 - d], so from depth 0 in [-10, 10], strictly inside the seeds |
| Search.MinimaxPly | src/App.js:147-173 | away from the leaves, a maximising ply scores the maximum and a minimising ply the minimum of its moves' scores, each attained by some empty cell |
| Search.ImmediateWinScore | src/App.js:118-122 | a move's score is at most 10, and it is 10 iff the move completes a line for the player |
| Search.MoveScoresExtend | src/App.js:115-122 | recording the score of the next cell extends the recorded scores to the next prefix of the full score sequence |
| Search.ScanStep | src/App.js:124-129 | one step of the strict-improvement scan keeps the best cell: it is empty, no visited cell improves on it, and every visited empty cell before it is improved on |
| Search.ScanEnd | src/App.js:115-133 | after the last cell there is no choice iff the board is full; otherwise the choice is empty and no empty cell improves on it, while every earlier empty cell is improved on |
| Search.ScanChoiceForO | src/App.js:125-128 | for O the scan's choice is the lowest cell of highest score, and it completes a line whenever some empty cell would |
| Search.ScanChoiceForX | src/App.js:125-128 | for X the scan's choice is the lowest cell of lowest score, so it passes over an immediate win whenever some empty cell does not win at once |
| Search.ThreatStands | src/App.js:140-141 | when X threatens a single cell and O plays elsewhere, the game goes on and X's reply in the threatened cell is reported as X's win |
| Search.BlockHolds | src/App.js:140-142 | after O blocks the single threat, the game goes on and no reply of X completes a line |
| Search.ThreatScore | src/App.js:160-172 | facing a single threat, every other empty cell scores at most -9 for O, because X then wins at depth 1 |
| Search.BlockScore | src/App.js:147-172 | the blocking cell scores at least -8 for O: X has no immediate win after it, and deeper scores are bounded |
| Search.BlocksSingleThreat | src/App.js:115-129 | facing a single immediate threat of X, with no immediate win of its own, O's scan chooses exactly the blocking cell |
| Search.GetBestMove | src/App.js:108-134 | returns null iff the board is full; otherwise an empty cell; for O the lowest cell of maximal minimax score, which wins at once when any move does, and which is the blocking cell when X has exactly one immediate winning cell and O has none; for X the lowest cell of minimal score, which avoids an immediate win when it can |
| Clock.Decimal | src/App.js:239 | the rendering of a number is non-empty, all digits, has no leading zero except for 0, and has one digit iff the number is below 10 |
| Clock.DecimalRoundTrip | src/App.js:239 | reading the rendered digits back gives the number |
| Clock.TwoDigits | src/App.js:239 | the seconds field of a value below 60 is exactly two digits that read back as that value |
| Clock.FormatTime | src/App.js:236-240 | the text is digits, a colon, then exactly two digits; the two digits read below 60, the minutes have no leading zero, and minutes times 60 plus seconds equals the input |
| Session.SliceTo | src/App.js:58 | `slice(0, n)` is a prefix of the list, of length n clamped to the list, counting a negative n from the end |
| Session.Tally | src/App.js:176-183 | scores are unchanged unless the game is over; if it is, the total rises by exactly one; X's counter rises iff X is the reported winner, O's iff O is, and the draw counter iff the board is a draw |
| Session.Click | src/App.js:54-71 | a click on a taken cell or a finished game changes nothing; otherwise only that cell changes, to the mover's mark; the history becomes its first currentStep boards plus the old board; the step rises by one; the turn flips; the scores are tallied on the new board; and currentStep is at most the history length is kept |
| Session.Undo | src/App.js:185-202 | with no history nothing changes; against a human, the board becomes the last history entry, that entry is dropped, the step falls by one and the turn flips; against the computer with two or more entries, the board becomes the second-to-last entry, two entries are dropped, the step falls by two and the turn stays; with fewer, nothing changes; scores are kept; currentStep is at most the history length is kept |
| Session.JumpToAsWritten | src/App.js:204-212 | for a step below the history length: the board becomes the empty board for step 0 and history[step - 1] otherwise, the step is set, and X moves after an even step; other steps change nothing |
| Session.JumpTo | src/App.js:204-212 | as above but showing history[step], the board after that many moves, and keeping currentStep is at most the history length |
| Session.Restart | src/App.js:214-221 | empty board and history, step 0, X to move; scores, mode and difficulty kept |
| Session.AITurnPlacesO | src/App.js:32 | when the guard lets the computer move, a click on any empty cell places O there and hands the turn back to X |
| Session.UndoRevertsClick | src/App.js:185-202 | against a human, undo right after a move that does not end the game restores the session exactly, when the latest position is shown |
| Session.UndoRevertsMoveAndReply | src/App.js:185-194 | against the computer, undo after the player's move and the computer's reply restores the session exactly, when neither ends the game |
| Session.MarksPlace | src/App.js:60-61 | placing a mark on an empty cell adds exactly one marked cell |
| Session.ChainMarks | src/App.js:64 | in a history that starts from the empty board and grows one move at a time, entry k holds exactly k marks |
| Session.ReplayableMarks | src/App.js:58-65 | in a replayable session history entry k holds k marks and the board holds currentStep marks |
| Session.InitialReplayable | src/App.js:11-14 | the initial state is replayable: empty board, empty history, step 0, X to move |
| Session.ClickKeepsReplayable | src/App.js:54-66 | a click keeps the session replayable: the history starts from the empty board and each entry follows the one before by one move of the player to move; the board follows the entry before currentStep by one move, and is the recorded entry when an earlier step is viewed; X moves exactly after an even number of moves |
| Session.RestartReplayable | src/App.js:214-218 | a restart leaves a replayable session |
| Session.UndoKeepsReplayable | src/App.js:185-202 | undo keeps the session replayable when the latest position is shown |
| Session.JumpToKeepsReplayable | src/App.js:204-212 | the corrected jump keeps the session replayable, and the board it shows holds exactly `step` marks |
| Session.JumpToAsWrittenShowsEarlierBoard | src/App.js:207 | after two moves, the jump as written to step 1 shows the empty board with O to move, breaking replayability |
| Session.Game.constructor | src/App.js:11-19 | the state starts as the initial snapshot: empty board and history, step 0, X to move, zero scores, human mode, medium difficulty |
| Session.Game.UpdateScores | src/App.js:176-183 | the score field becomes the tally of the given board; no other field changes |
| Session.Game.HandleClick | src/App.js:54-71 | the new state is `Click` of the old state |
| Session.Game.UndoMove | src/App.js:185-202 | the new state is `Undo` of the old state |
| Session.Game.JumpToMove | src/App.js:204-212 | the new state is `JumpToAsWritten` of the old state: the jump the program runs |
| Session.Game.JumpToRecordedMove | src/App.js:204-212 | the corrected handler: the new state is `JumpTo` of the old state, showing the board after `step` moves (see Findings) |
| Session.Game.RestartGame | src/App.js:214-221 | the new state is `Restart` of the old state |
| Session.Game.ResetScores | src/App.js:223-225 | all three counters become zero; no other field changes |
| Session.Game.ChangeGameMode | src/App.js:286-291 | the mode is set and the game restarts |
| Session.Game.ChangeDifficulty | src/App.js:301-308 | the difficulty is set; no other field changes |
| Session.Game.MakeAIMove | src/App.js:73-95 | on a finished game returns null and changes nothing; otherwise picks an empty cell and applies `Click` to it; on hard, or on medium when the coin picks the search, the cell is O's lowest best-scoring move, wins at once when any move does, and blocks X's single immediate threat |
| Session.Game.TakeAITurn | src/App.js:31-38 | when the guard does not hold nothing changes; when it does, the new state is `Click` of the old state on an empty cell, which receives O with X to move; on hard, or on medium when the coin picks the search, that cell is O's lowest best-scoring move, wins at once when any move does, and blocks X's single immediate threat |

## Left out

- Rendering is left out: the JSX, the `Board` and `Square` components and the CSS classes (src/App.js:242-407).
- The effect hook's scheduling is left out: `setTimeout`, `setInterval`, `Date.now`, `gameStartTime` and `gameTime` (src/App.js:25-48, 219-220). The elapsed time is an input of `Clock.FormatTime`, and the AI guard of line 32 is `Session.AIShouldMove`.
- Clock.FormatTime: takes an unbounded natural number. The elapsed time is never negative, so a negative input is not modelled. JavaScript numbers are doubles, so the source is exact only below 2^53 seconds, and it would print in exponent notation from 1e21; the model does not capture either limit.
- Search.GetRandomMove: promises only some empty cell; the uniform distribution of `Math.random` cannot be stated here.
- Session.Game.MakeAIMove: the medium level's 50/50 coin is a parameter with no distribution, and the random branch only promises some empty cell.
- Dark mode, the player-name inputs and the history-visibility toggle are left out; they are presentation only.
- React's asynchronous, batched `setState` is not modelled: each handler is one atomic transition on the values of one render.
- Search.GetBestMove: claims optimality for O only. For X the scan minimises X's own score; the app never asks it to play X.
- Session.UndoKeepsReplayable: requires that the latest position is shown (`currentStep == |history|`). Undo reads the end of the history, so after a jump back it restores a board that does not match the decremented step.
- Session.UndoRevertsClick: does not cover a move that ends the game. There the scores are not reverted, and the Undo button is disabled (src/App.js:347).
- Search.GetBestMove: blocking is promised only for a single threat of X and when O has no immediate win. With two threats there is no single blocking cell, and with a win of its own O takes the win.
- That two perfect players draw is not proved; it would need the full game tree below the depth cutoff at 5.

## Findings

| source | as written | input that shows it | evidently intended | confidence | as-written member | corrected member |
|---|---|---|---|---|---|---|
| src/App.js:207 | `jumpToMove(step)` shows `history[step - 1]` for step >= 1, the board after step - 1 moves, while it sets `currentStep` to step and the turn from step's parity | X plays 4 and O plays 0, then "Go to move #1" (`jumpToMove(1)`): the empty board is shown with O to move | show `history[step]`, the board after `step` moves (for step 0 that is the empty board) | not executed; high | Session.JumpToAsWritten (Session.JumpToAsWrittenShowsEarlierBoard) | Session.JumpTo (Session.JumpToKeepsReplayable, Session.Game.JumpToRecordedMove) |
