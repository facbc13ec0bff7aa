/** The rules of Tic-Tac-Toe: the board, the eight winning lines, the
    winner check and the draw condition. */
module Rules {
  import opened Optional

  datatype Player = X | O

  /** A square of the board: `null`, "X" or "O". */
  datatype Cell = Empty | Taken(mark: Player)

  /** A cell index; cells are numbered 0-8 in row-major order. */
  type Index = i: int | 0 <= i < 9

  type Board = b: seq<Cell> | |b| == 9
    witness [Empty, Empty, Empty, Empty, Empty, Empty, Empty, Empty, Empty]

  /** `Array(9).fill(null)` */
  const EmptyBoard: Board := [Empty, Empty, Empty, Empty, Empty, Empty, Empty, Empty, Empty]

  datatype Line = Line(a: Index, b: Index, c: Index)

  /** Rows, then columns, then the two diagonals: the scan order of CheckWinner. */
  const WinningCombinations: seq<Line> := [
    Line(0, 1, 2), Line(3, 4, 5), Line(6, 7, 8),
    Line(0, 3, 6), Line(1, 4, 7), Line(2, 5, 8),
    Line(0, 4, 8), Line(2, 4, 6)
  ]

  /** What the winner check reports: the mark and the completed line. */
  datatype WinInfo = WinInfo(winner: Player, line: Line)

  function Other(p: Player): (q: Player)
    ensures q != p
  {
    if p == X then O else X
  }

  /** The three cells of `l` hold the same mark. */
  predicate Complete(board: Board, l: Line) {
    board[l.a] != Empty && board[l.a] == board[l.b] && board[l.a] == board[l.c]
  }

  /** The first complete line among WinningCombinations[k..], in scan order. */
  function FirstWinFrom(board: Board, k: nat): Option<WinInfo>
    requires k <= |WinningCombinations|
    decreases |WinningCombinations| - k
  {
    if k == |WinningCombinations| then None
    else
      var l := WinningCombinations[k];
      if Complete(board, l) then Some(WinInfo(board[l.a].mark, l))
      else FirstWinFrom(board, k + 1)
  }

  /** The winner check: the first completed line and its mark, or None. */
  function CheckWinner(board: Board): Option<WinInfo> {
    FirstWinFrom(board, 0)
  }

  lemma {:induction false} FirstWinFromSpec(board: Board, k: nat)
    requires k <= |WinningCombinations|
    ensures var r := FirstWinFrom(board, k);
      && (r.None? <==> forall j :: k <= j < |WinningCombinations| ==> !Complete(board, WinningCombinations[j]))
      && (r.Some? ==>
            exists j :: k <= j < |WinningCombinations| && WinningCombinations[j] == r.value.line
              && Complete(board, r.value.line)
              && board[r.value.line.a] == Taken(r.value.winner)
              && forall i :: k <= i < j ==> !Complete(board, WinningCombinations[i]))
    decreases |WinningCombinations| - k
  {
    if k < |WinningCombinations| {
      FirstWinFromSpec(board, k + 1);
    }
  }

  /** CheckWinner reports nothing exactly when no line is complete, and
      otherwise the first complete line in table order, with its mark. */
  lemma CheckWinnerSpec(board: Board)
    ensures var r := CheckWinner(board);
      && (r.None? <==> forall l :: l in WinningCombinations ==> !Complete(board, l))
      && (r.Some? ==>
            && r.value.line in WinningCombinations
            && board[r.value.line.a] == board[r.value.line.b] == board[r.value.line.c] == Taken(r.value.winner))
      && (r.Some? ==>
            exists j :: 0 <= j < |WinningCombinations| && WinningCombinations[j] == r.value.line
              && forall i :: 0 <= i < j ==> !Complete(board, WinningCombinations[i]))
  {
    FirstWinFromSpec(board, 0);
  }

  /** On a board with no complete line, one more mark can complete only
      lines through its cell, so the winner check then reports nobody or
      the player who placed it. */
  lemma PlaceWinner(board: Board, k: Index, p: Player)
    requires CheckWinner(board).None? && board[k] == Empty
    ensures var w := CheckWinner(board[k := Taken(p)]); w.None? || w.value.winner == p
  {
    var after := board[k := Taken(p)];
    CheckWinnerSpec(board);
    CheckWinnerSpec(after);
    var w := CheckWinner(after);
    if w.Some? {
      assert !Complete(board, w.value.line);
    }
  }

  /** `!board.includes(null)` */
  predicate IsBoardFull(board: Board) {
    Empty !in board
  }

  /** Nobody has a line and no square is left. */
  predicate IsDraw(board: Board) {
    CheckWinner(board).None? && IsBoardFull(board)
  }

  /** Either somebody has won or the game is drawn; no more moves are taken. */
  predicate GameOver(board: Board) {
    CheckWinner(board).Some? || IsBoardFull(board)
  }

  /** Placing `p` at `k` makes the winner check report `p`. */
  predicate WinsWith(board: Board, p: Player, k: Index) {
    var w := CheckWinner(board[k := Taken(p)]);
    w.Some? && w.value.winner == p
  }

  function Row(i: Index): int { i / 3 }
  function Column(i: Index): int { i % 3 }

  /** Three cells of the 3x3 grid that lie on one row, one column or one of
      the two diagonals; a geometric definition independent of the table. */
  predicate Aligned(a: Index, b: Index, c: Index) {
    || (Row(a) == Row(b) == Row(c))
    || (Column(a) == Column(b) == Column(c))
    || (Row(a) == Column(a) && Row(b) == Column(b) && Row(c) == Column(c))
    || (Row(a) + Column(a) == 2 && Row(b) + Column(b) == 2 && Row(c) + Column(c) == 2)
  }

  /** The table of winning combinations lists exactly the aligned triples
      of distinct cells, each once, in ascending order of its cells. */
  lemma WinningCombinationsAreAlignedTriples(a: Index, b: Index, c: Index)
    requires a < b < c
    ensures Line(a, b, c) in WinningCombinations <==> Aligned(a, b, c)
  {
  }

  lemma WinningCombinationsAscending(l: Line)
    requires l in WinningCombinations
    ensures l.a < l.b < l.c && Aligned(l.a, l.b, l.c)
  {
  }
}
