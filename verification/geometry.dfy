/** The fixed logical coordinate space of the board and the arithmetic that
    places cards in it (src/App.js:3-7, 66-67, 75, 162).  Coordinates are
    reals: the source's numbers are doubles, whose rounding is not modelled. */
module Geometry {

  const CanvasWidth: real := 900.0
  const CanvasHeight: real := 600.0
  /** Three equal column bands. */
  const ColumnWidth: real := CanvasWidth / 3.0
  const RowHeight: real := 60.0
  const Gap: real := 16.0
  /** The top of the first card in every column. */
  const FirstRowTop: real := 50.0
  /** A card spans its column less one gap on each side. */
  const CardWidth: real := ColumnWidth - 2.0 * Gap
  /** Vertical distance between consecutive rows: one card and one gap. */
  const RowPitch: real := RowHeight + Gap

  datatype Point = Point(x: real, y: real)

  /** The derived measures, evaluated. */
  lemma Measures()
    ensures ColumnWidth == 300.0 && CardWidth == 268.0 && RowPitch == 76.0
  {
  }

  /** Left edge of a card in column `col`. */
  function CardLeft(col: int): real
  {
    col as real * ColumnWidth + Gap
  }

  /** Top edge of the card in row `row` of any column. */
  function CardTop(row: int): real
  {
    FirstRowTop + row as real * RowPitch
  }

  /** The column index under horizontal position `x`: Math.floor(x / ColumnWidth).
      It may lie outside 0..2; range checks are the caller's job. */
  function ColumnAt(x: real): (col: int)
    ensures col as real * ColumnWidth <= x < (col + 1) as real * ColumnWidth
  {
    (x / ColumnWidth).Floor
  }

  /** ColumnAt is monotonic: moving right never decreases the column. */
  lemma ColumnAtMonotonic(x: real, y: real)
    requires x <= y
    ensures ColumnAt(x) <= ColumnAt(y)
  {
  }

  /** ColumnAt names one of the three columns exactly on the canvas width. */
  lemma ColumnAtInRange(x: real)
    ensures 0 <= ColumnAt(x) < 3 <==> 0.0 <= x < CanvasWidth
  {
  }

  /** A card lies strictly inside its column band, so every point of a card's
      interior maps back to that card's column. */
  lemma CardInsideBand(col: int, x: real)
    requires CardLeft(col) < x < CardLeft(col) + CardWidth
    ensures col as real * ColumnWidth < CardLeft(col)
    ensures CardLeft(col) + CardWidth < (col + 1) as real * ColumnWidth
    ensures ColumnAt(x) == col
  {
  }
}
