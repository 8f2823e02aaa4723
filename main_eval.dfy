/** The board interface that main.py uses from pygame_chess_api, its
    piece-square tables and its evaluator `evaluate_board`.

    A board is a value here: the search never changes a board, it asks the
    library for a fresh hypothesis board for every move. Each piece carries its
    kind, its square (x, y), the library's SCORE_VALUE for it and its allowed
    moves, each move together with the hypothesis board it leads to.

    Scores are kept in exact integer tenths: the mobility term
    `len(moves) * 0.1` becomes `len(moves)`, and the material and table terms
    are multiplied by 10. */
module MainEval {
  import opened Basics

  datatype Color = White | Black

  datatype Kind = Pawn | Knight | Bishop | Rook | Queen | King

  /** A file or rank index of the 8x8 board. */
  type Coord = i: int | 0 <= i < 8

  type Row = r: seq<int> | |r| == 8 witness [0, 0, 0, 0, 0, 0, 0, 0]

  const ZeroRow: Row := [0, 0, 0, 0, 0, 0, 0, 0]

  /** A piece-square table, indexed first by row y, then by column x. */
  type Table = t: seq<Row> | |t| == 8 witness seq(8, _ => ZeroRow)

  const PawnTable: Table := [
    [0, 0, 0, 0, 0, 0, 0, 0],
    [5, 10, 10, -20, -20, 10, 10, 5],
    [5, -5, -10, 0, 0, -10, -5, 5],
    [0, 0, 0, 20, 20, 0, 0, 0],
    [5, 5, 10, 25, 25, 10, 5, 5],
    [10, 10, 20, 30, 30, 20, 10, 10],
    [50, 50, 50, 50, 50, 50, 50, 50],
    [0, 0, 0, 0, 0, 0, 0, 0]
  ]

  const KnightTable: Table := [
    [-50, -40, -30, -30, -30, -30, -40, -50],
    [-40, -20, 0, 0, 0, 0, -20, -40],
    [-30, 0, 10, 15, 15, 10, 0, -30],
    [-30, 5, 15, 20, 20, 15, 5, -30],
    [-30, 0, 15, 20, 20, 15, 0, -30],
    [-30, 5, 10, 15, 15, 10, 5, -30],
    [-40, -20, 0, 5, 5, 0, -20, -40],
    [-50, -40, -30, -30, -30, -30, -40, -50]
  ]

  const BishopTable: Table := [
    [-20, -10, -10, -10, -10, -10, -10, -20],
    [-10, 0, 0, 0, 0, 0, 0, -10],
    [-10, 0, 5, 10, 10, 5, 0, -10],
    [-10, 5, 5, 10, 10, 5, 5, -10],
    [-10, 0, 10, 10, 10, 10, 0, -10],
    [-10, 10, 10, 10, 10, 10, 10, -10],
    [-10, 5, 0, 0, 0, 0, 5, -10],
    [-20, -10, -10, -10, -10, -10, -10, -20]
  ]

  const RookTable: Table := [
    [0, 0, 0, 5, 5, 0, 0, 0],
    [-5, -5, 0, 0, 0, 0, -5, -5],
    [-5, -5, 0, 0, 0, 0, -5, -5],
    [-5, -5, 0, 0, 0, 0, -5, -5],
    [-5, -5, 0, 0, 0, 0, -5, -5],
    [-5, -5, 0, 0, 0, 0, -5, -5],
    [5, 10, 10, 10, 10, 10, 10, 5],
    [0, 0, 0, 0, 0, 0, 0, 0]
  ]

  const QueenTable: Table := [
    [-20, -10, -10, -5, -5, -10, -10, -20],
    [-10, 0, 0, 0, 0, 0, 0, -10],
    [-10, 0, 5, 5, 5, 5, 0, -10],
    [-5, 0, 5, 5, 5, 5, 0, -5],
    [0, 0, 5, 5, 5, 5, 0, -5],
    [-10, 5, 5, 5, 5, 5, 0, -10],
    [-10, 0, 5, 0, 0, 0, 0, -10],
    [-20, -10, -10, -5, -5, -10, -10, -20]
  ]

  const KingTable: Table := [
    [-30, -40, -40, -50, -50, -40, -40, -30],
    [-30, -40, -40, -50, -50, -40, -40, -30],
    [-30, -40, -40, -50, -50, -40, -40, -30],
    [-30, -40, -40, -50, -50, -40, -40, -30],
    [-20, -30, -30, -40, -40, -30, -30, -20],
    [-10, -20, -20, -20, -20, -20, -20, -10],
    [20, 20, 0, 0, 0, 0, 20, 20],
    [20, 30, 10, 0, 0, 10, 30, 20]
  ]

  /** `position_tables`: the king's table is filed under the library's
      `Check` class rather than under the king's class. The model takes
      `Check` to be no piece's class, so no piece finds that table and kings,
      like any kind without an entry, get the all-zero default table. */
  function TableFor(kind: Kind): Option<Table> {
    match kind
    case Pawn => Some(PawnTable)
    case Knight => Some(KnightTable)
    case Bishop => Some(BishopTable)
    case Rook => Some(RookTable)
    case Queen => Some(QueenTable)
    case King => None
  }

  /** The positional bonus `table[pos[1]][pos[0]]`, the same for both colours
      (the tables are not mirrored for Black). Every entry of every table lies
      in -50 .. 50. */
  function PositionBonus(kind: Kind, x: Coord, y: Coord): (r: int)
    ensures -50 <= r <= 50
    ensures kind == King ==> r == 0
  {
    match TableFor(kind)
    case None => 0
    case Some(t) => TablesBounded(); t[y][x]
  }

  /** Every entry of the six tables, the king's included, lies in -50 .. 50. */
  lemma TablesBounded()
    ensures forall k: Kind, y: Coord, x: Coord :: TableFor(k).Some? ==> -50 <= TableFor(k).value[y][x] <= 50
    ensures forall y: Coord, x: Coord :: -50 <= KingTable[y][x] <= 50
  {
  }

  datatype Piece = Piece(kind: Kind, x: Coord, y: Coord, scoreValue: int, moves: seq<Move>)

  /** An allowed move, with the hypothesis board the library builds for it. */
  datatype Move = Move(name: string, next: Board)

  /** `pieces_by_color`, the side to move `cur_color_turn` and `game_ended`. */
  datatype Board = Board(white: seq<Piece>, black: seq<Piece>, turn: Color, gameEnded: bool)

  function PiecesOf(b: Board, c: Color): seq<Piece> {
    if c == White then b.white else b.black
  }

  /** What one piece weighs, in tenths: material, table bonus and mobility. */
  function PieceWorth(p: Piece): int {
    10 * p.scoreValue + 10 * PositionBonus(p.kind, p.x, p.y) + |p.moves|
  }

  /** The summed worth of a list of pieces. */
  function Total(ps: seq<Piece>): int {
    if ps == [] then 0 else Total(ps[..|ps| - 1]) + PieceWorth(ps[|ps| - 1])
  }

  /** The score of a board in tenths: Black's total minus White's, so a
      positive score favours Black. */
  function Evaluation(b: Board): int {
    Total(b.black) - Total(b.white)
  }

  lemma {:induction false} TotalOfConcat(ps: seq<Piece>, qs: seq<Piece>)
    ensures Total(ps + qs) == Total(ps) + Total(qs)
    decreases |qs|
  {
    if qs == [] {
      assert ps + qs == ps;
    } else {
      var n := |qs|;
      assert (ps + qs)[..|ps + qs| - 1] == ps + qs[..n - 1];
      assert (ps + qs)[|ps + qs| - 1] == qs[n - 1];
      TotalOfConcat(ps, qs[..n - 1]);
    }
  }

  /** Each White piece's worth is subtracted from the score and each Black
      piece's is added, wherever it stands in its side's list. */
  lemma AddedPieceShiftsEvaluation(b: Board, c: Color, k: nat, p: Piece)
    requires k <= |PiecesOf(b, c)|
    ensures var ps := PiecesOf(b, c);
            var ps' := ps[..k] + [p] + ps[k..];
            var b' := if c == White then b.(white := ps') else b.(black := ps');
            Evaluation(b') == if c == White then Evaluation(b) - PieceWorth(p) else Evaluation(b) + PieceWorth(p)
  {
    var ps := PiecesOf(b, c);
    TotalOfConcat(ps[..k] + [p], ps[k..]);
    TotalOfConcat(ps[..k], [p]);
    TotalOfConcat(ps[..k], ps[k..]);
    assert ps[..k] + ps[k..] == ps;
    assert Total([p]) == PieceWorth(p) by {
      assert [p][..0] == [];
    }
  }

  /** `evaluate_board(board)`: first the White pieces are subtracted, then the
      Black pieces added. */
  method EvaluateBoard(board: Board) returns (evaluation: int)
    ensures evaluation == Evaluation(board)
  {
    evaluation := 0;
    var whites := board.white;
    for i := 0 to |whites|
      invariant evaluation == -Total(whites[..i])
    {
      var piece := whites[i];
      var value := 10 * piece.scoreValue;
      value := value + 10 * PositionBonus(piece.kind, piece.x, piece.y);
      value := value + |piece.moves|;
      evaluation := evaluation - value;
      assert whites[..i + 1][..i] == whites[..i];
    }
    assert whites[..|whites|] == whites;
    var blacks := board.black;
    for i := 0 to |blacks|
      invariant evaluation == Total(blacks[..i]) - Total(whites)
    {
      var piece := blacks[i];
      var value := 10 * piece.scoreValue;
      value := value + 10 * PositionBonus(piece.kind, piece.x, piece.y);
      value := value + |piece.moves|;
      evaluation := evaluation + value;
      assert blacks[..i + 1][..i] == blacks[..i];
    }
    assert blacks[..|blacks|] == blacks;
  }
}
