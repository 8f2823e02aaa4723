/** The position interface that minmax.py uses from python-chess, and its
    material-only evaluator `evaluate_board`.

    The rules engine is abstracted into an explicit finite game tree: every
    position carries its 64 squares, whether the game is over, and its legal
    moves in generation order, each move together with the position it leads
    to. The python-chess Board object, which the search changes in place with
    push and pop, is the class Board. */
module MinMaxBoard {
  import opened Basics

  datatype Color = White | Black

  datatype PieceType = Pawn | Knight | Bishop | Rook | Queen | King

  datatype Piece = Piece(pieceType: PieceType, color: Color)

  /** The contents of the 64 squares a1 .. h8, in python-chess square order. */
  type Placement = s: seq<Option<Piece>> | |s| == 64 witness seq(64, _ => None)

  datatype Position = Position(placement: Placement, gameOver: bool, legal: seq<Move>)

  /** A legal move, given by its UCI name and the position it leads to. */
  datatype Move = Move(uci: string, result: Position)

  /** The `piece_values` table. */
  function PieceValue(t: PieceType): nat {
    match t
    case Pawn => 1
    case Knight => 3
    case Bishop => 3
    case Rook => 5
    case Queen => 9
    case King => 1000
  }

  /** What one square adds to the score: +value for a White piece, -value for a
      Black one, nothing when the square is empty. */
  function SquareScore(sq: Option<Piece>): int {
    match sq
    case None => 0
    case Some(p) =>
      var value: int := PieceValue(p.pieceType);
      if p.color == White then value else -value
  }

  /** The sum of SquareScore over a run of squares. */
  function Material(squares: seq<Option<Piece>>): int {
    if squares == [] then 0
    else Material(squares[..|squares| - 1]) + SquareScore(squares[|squares| - 1])
  }

  /** The total value of the pieces of one colour on a run of squares. */
  function SideMaterial(squares: seq<Option<Piece>>, c: Color): nat {
    if squares == [] then 0
    else
      var sq := squares[|squares| - 1];
      SideMaterial(squares[..|squares| - 1], c)
        + (if sq.Some? && sq.value.color == c then PieceValue(sq.value.pieceType) else 0)
  }

  /** The score is White's material minus Black's. */
  lemma {:induction false} MaterialIsWhiteMinusBlack(squares: seq<Option<Piece>>)
    ensures Material(squares) == SideMaterial(squares, White) - SideMaterial(squares, Black)
  {
    if squares != [] {
      MaterialIsWhiteMinusBlack(squares[..|squares| - 1]);
    }
  }

  function Opponent(c: Color): Color {
    if c == White then Black else White
  }

  function FlipSquare(sq: Option<Piece>): Option<Piece> {
    match sq
    case None => None
    case Some(p) => Some(Piece(p.pieceType, Opponent(p.color)))
  }

  /** Every piece changes colour; the squares stay where they are. */
  function FlipColors(squares: seq<Option<Piece>>): (r: seq<Option<Piece>>)
    ensures |r| == |squares|
    ensures forall i :: 0 <= i < |squares| ==> r[i] == FlipSquare(squares[i])
  {
    seq(|squares|, i requires 0 <= i < |squares| => FlipSquare(squares[i]))
  }

  /** Flipping the colour of every piece negates the score. */
  lemma {:induction false} FlipNegatesMaterial(squares: seq<Option<Piece>>)
    ensures Material(FlipColors(squares)) == -Material(squares)
  {
    if squares != [] {
      var n := |squares|;
      var f := FlipColors(squares);
      assert f[..n - 1] == FlipColors(squares[..n - 1]);
      FlipNegatesMaterial(squares[..n - 1]);
    }
  }

  /** The python-chess board: the current position, the stack of moves played
      on it, and for each of them the position it was played from (python-chess
      keeps these saved states so that `pop` can restore them). */
  class Board {
    var current: Position
    var moveStack: seq<Move>
    var saved: seq<Position>

    /** Each saved state is the position its move was played from, and each
        move leads to the next saved state (the last one to the current
        position). */
    ghost predicate Valid()
      reads this
    {
      |saved| == |moveStack| &&
      forall i :: 0 <= i < |moveStack| ==>
        moveStack[i].result == (if i + 1 < |saved| then saved[i + 1] else current)
    }

    constructor (start: Position)
      ensures Valid()
      ensures current == start && moveStack == [] && saved == []
    {
      current := start;
      moveStack := [];
      saved := [];
    }

    /** `board.piece_at(square)`. */
    function PieceAt(square: nat): Option<Piece>
      requires square < 64
      reads this
    {
      current.placement[square]
    }

    /** `board.push(move)`: play a move. */
    method Push(m: Move)
      requires Valid()
      modifies this
      ensures Valid()
      ensures current == m.result
      ensures moveStack == old(moveStack) + [m]
      ensures saved == old(saved) + [old(current)]
    {
      saved := saved + [current];
      moveStack := moveStack + [m];
      current := m.result;
    }

    /** `board.pop()`: take back the last move and return it. */
    method Pop() returns (m: Move)
      requires Valid() && moveStack != []
      modifies this
      ensures Valid()
      ensures m == old(moveStack[|moveStack| - 1])
      ensures current == old(saved[|saved| - 1])
      ensures moveStack == old(moveStack[..|moveStack| - 1])
      ensures saved == old(saved[..|saved| - 1])
    {
      m := moveStack[|moveStack| - 1];
      current := saved[|saved| - 1];
      moveStack := moveStack[..|moveStack| - 1];
      saved := saved[..|saved| - 1];
    }
  }

  /** `evaluate_board(board)`: the loop over chess.SQUARES. */
  method EvaluateBoard(board: Board) returns (score: int)
    ensures score == Material(board.current.placement)
  {
    score := 0;
    for square := 0 to 64
      invariant score == Material(board.current.placement[..square])
    {
      var piece := board.PieceAt(square);
      if piece.Some? {
        var value: int := PieceValue(piece.value.pieceType);
        score := score + if piece.value.color == White then value else -value;
      }
      assert board.current.placement[..square + 1][..square] == board.current.placement[..square];
    }
    assert board.current.placement[..64] == board.current.placement;
  }
}
