/** The draughts board: squares, their padded numbering 1..35, and 32-bit sets of squares. */
module DraughtsBoard {

  /** `valid_board_position`: 9, 18 and 27 are holes that keep the edges apart. */
  predicate OnBoard(position: int) {
    1 <= position <= 35 && position != 9 && position != 18 && position != 27
  }

  /** `get_effective_col` */
  function EffectiveCol(col: int): int {
    if col == 1 then 0 else col / 2
  }

  /** `get_draught_board_position`: 0 for a light square. Rows count down from the top. */
  function BoardPosition(col: int, row: int): int
    requires 1 <= col <= 8 && 1 <= row <= 8
  {
    var rowUsed := 9 - row;
    if rowUsed % 2 == 1 && col % 2 == 0 then 0
    else if rowUsed % 2 == 0 && col % 2 == 1 then 0
    else rowUsed * 4 + rowUsed / 2 - EffectiveCol(col)
  }

  /** The row of a position, counted from the top. */
  function RowOf(position: int): int
    requires OnBoard(position)
  {
    if position <= 4 then 8 else if position <= 8 then 7
    else if position <= 13 then 6 else if position <= 17 then 5
    else if position <= 22 then 4 else if position <= 26 then 3
    else if position <= 31 then 2 else 1
  }

  /** The largest position of a row: the square nearest to column 1. */
  function RowEnd(row: int): int {
    if row == 8 then 4 else if row == 7 then 8 else if row == 6 then 13 else if row == 5 then 17
    else if row == 4 then 22 else if row == 3 then 26 else if row == 2 then 31 else 35
  }

  function ColOf(position: int): int
    requires OnBoard(position)
  {
    var row := RowOf(position);
    var skip := if row == 8 || row == 6 || row == 4 || row == 2 then 1 else 2;
    2 * (RowEnd(row) - position) + skip
  }

  /** The numbering is a bijection between dark squares and positions. */
  lemma SquareOfPosition(position: int)
    requires OnBoard(position)
    ensures 1 <= ColOf(position) <= 8 && 1 <= RowOf(position) <= 8
    ensures BoardPosition(ColOf(position), RowOf(position)) == position
  {
  }

  lemma PositionOfSquare(col: int, row: int)
    requires 1 <= col <= 8 && 1 <= row <= 8
    ensures BoardPosition(col, row) != 0 <==> (col + row) % 2 == 1
    ensures BoardPosition(col, row) != 0 ==>
      OnBoard(BoardPosition(col, row))
      && ColOf(BoardPosition(col, row)) == col && RowOf(BoardPosition(col, row)) == row
  {
    assert col == 1 || col == 2 || col == 3 || col == 4 || col == 5 || col == 6 || col == 7 || col == 8;
  }

  /** Adding 4 or 5 is exactly a diagonal step towards black's far side. */
  lemma StepIsDiagonal(p: int, q: int)
    requires OnBoard(p) && OnBoard(q)
    ensures q - p == 4 <==> RowOf(q) == RowOf(p) - 1 && ColOf(q) == ColOf(p) + 1
    ensures q - p == 5 <==> RowOf(q) == RowOf(p) - 1 && ColOf(q) == ColOf(p) - 1
  {
  }

  /** A difference of 8 or 10 is a straight jump exactly when the midpoint is no hole. */
  lemma JumpIsStraight(p: int, q: int)
    requires OnBoard(p) && OnBoard(q)
    ensures q - p == 8 && OnBoard(p + 4) <==> RowOf(q) == RowOf(p) - 2 && ColOf(q) == ColOf(p) + 2
    ensures q - p == 10 && OnBoard(p + 5) <==> RowOf(q) == RowOf(p) - 2 && ColOf(q) == ColOf(p) - 2
  {
  }

  // ---------------------------------------------------------------- bits

  /** `get_draught_location_bit` of a position; a hole is returned unchanged. */
  function LocationBit(position: int): (bit: int)
    requires 1 <= position <= 35
    ensures bit == position <==> !OnBoard(position)
    ensures OnBoard(position) ==> 0 <= bit < 32
  {
    if position <= 8 then position - 1
    else if 10 <= position <= 17 then position - 2
    else if 19 <= position <= 26 then position - 3
    else if 28 <= position <= 35 then position - 4
    else position
  }

  function PositionOfBit(bit: int): (position: int)
    requires 0 <= bit < 32
    ensures OnBoard(position) && LocationBit(position) == bit
  {
    bit + 1 + bit / 8
  }

  /** An int used as 32 flags, as the set of bits that are on: `1 << b` is {b}, `|` is union,
      `& ~` is difference. No arithmetic is ever done on it. */
  type Flags = set<Bit>

  type Bit = b: int | 0 <= b < 32

  predicate Has(pieces: Flags, position: int)
    requires OnBoard(position)
  {
    LocationBit(position) in pieces
  }

  /** The positions a bitboard holds. */
  function Squares(pieces: Flags): set<int> {
    set b | b in pieces :: PositionOfBit(b)
  }

  lemma BitIsPosition(position: int)
    requires OnBoard(position)
    ensures PositionOfBit(LocationBit(position)) == position
  {
  }

  lemma SquaresHold(pieces: Flags, position: int)
    ensures position in Squares(pieces) <==> OnBoard(position) && Has(pieces, position)
  {
    if OnBoard(position) {
      BitIsPosition(position);
    }
  }

  lemma SquaresOfUnion(pieces: Flags, more: Flags)
    ensures Squares(pieces + more) == Squares(pieces) + Squares(more)
  {
  }

  lemma SquaresOfDifference(pieces: Flags, gone: Flags)
    ensures Squares(pieces - gone) == Squares(pieces) - Squares(gone)
  {
    forall p
      ensures p in Squares(pieces - gone) <==> p in Squares(pieces) - Squares(gone)
    {
      SquaresHold(pieces - gone, p);
      SquaresHold(pieces, p);
      SquaresHold(gone, p);
    }
  }

  lemma SquareOfBit(position: int)
    requires OnBoard(position)
    ensures Squares({LocationBit(position)}) == {position}
  {
    BitIsPosition(position);
  }

  lemma SquaresEmpty(pieces: Flags)
    ensures pieces == {} <==> Squares(pieces) == {}
  {
    forall b | b in pieces
      ensures PositionOfBit(b) in Squares(pieces)
    {
    }
  }

  /** Turning the board round: position p goes to 36 - p, bit b to 31 - b. */
  lemma TurnedBit(position: int)
    requires OnBoard(position)
    ensures OnBoard(36 - position) && LocationBit(36 - position) == 31 - LocationBit(position)
  {
  }
}
