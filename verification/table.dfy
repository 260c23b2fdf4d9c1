/**
 * The numbers behind `ImageGenerator.draw_sizes_colors_table`: where the table goes, where
 * each of its cells goes, what each row says, and the height the caller shifts the photo by.
 * The drawing itself (rectangles, fonts, colours) is not part of this model.
 */
module TableDrawing {
  import opened SizeColors
  import opened Layout

  const TableTop := 20
  const RowHeight := 30
  const ColWidth := 80
  const ColorColWidth := 150
  /** Colour names longer than this are cut and marked with "...". */
  const LabelLimit := 18

  /** The table's outer rectangle on the canvas. */
  datatype Box = Box(left: int, top: int, width: int, height: int)

  predicate HasTable(m: SizeColorMatrix) {
    m.sizes != [] && m.colors != []
  }

  /** `table_width`, `table_left` (floor-centred) and `table_height` of a drawn table. */
  function TableBox(m: SizeColorMatrix, canvasWidth: int): (b: Box)
    ensures b.width == ColorColWidth + ColWidth * |m.sizes| && b.top == TableTop
    ensures b.height == (|m.colors| + 1) * RowHeight
    ensures 0 <= (canvasWidth - b.width) - 2 * b.left <= 1
  {
    var width := ColorColWidth + |m.sizes| * ColWidth;
    Box((canvasWidth - width) / 2, TableTop, width, (|m.colors| + 1) * RowHeight)
  }

  /**
   * The value `draw_sizes_colors_table` returns: 0 when there is nothing to draw, otherwise
   * the table's height plus a 10 px margin.
   */
  function DrawnTableHeight(m: SizeColorMatrix): (h: nat)
    ensures h == 0 <==> !HasTable(m)
    ensures HasTable(m) ==> h == TableBox(m, 0).height + 10
  {
    if m.sizes == [] || m.colors == [] then 0 else (|m.colors| + 1) * RowHeight + 10
  }

  /** The label of a colour row: at most 18 characters of the name, then "..." if it was cut. */
  function ColorLabel(color: string): (r: string)
    ensures |color| <= LabelLimit ==> r == color
    ensures |color| > LabelLimit ==>
      |r| == LabelLimit + 3 && r[..LabelLimit] == color[..LabelLimit] && r[LabelLimit..] == "..."
    ensures |r| <= LabelLimit + 3
  {
    if |color| > LabelLimit then color[..LabelLimit] + "..." else color
  }

  /** `availability.get(color, {}).get(size, False)`: a missing colour or size reads as unavailable. */
  function IsAvailable(availability: map<string, map<string, bool>>, color: string, size: string): (b: bool)
    ensures b ==> color in availability && size in availability[color]
    ensures color in availability && size in availability[color] ==> b == availability[color][size]
  {
    if color in availability && size in availability[color] then availability[color][size] else false
  }

  /** Left edge of the cell in size column `col` (the colour column comes first). */
  function CellLeft(b: Box, col: int): int {
    b.left + ColorColWidth + col * ColWidth
  }

  /** Top edge of row `row`; row 0 is the header, colour `k` sits in row `k + 1`. */
  function RowTop(row: int): int {
    TableTop + row * RowHeight
  }

  /** Every cell the loops draw lies inside the table's rectangle, and cells do not overlap. */
  lemma CellsInsideTable(m: SizeColorMatrix, canvasWidth: int, row: int, col: int)
    requires 0 <= row <= |m.colors| && 0 <= col < |m.sizes|
    ensures var b := TableBox(m, canvasWidth);
      b.left + ColorColWidth <= CellLeft(b, col) && CellLeft(b, col) + ColWidth <= b.left + b.width &&
      b.top <= RowTop(row) && RowTop(row) + RowHeight <= b.top + b.height
    ensures var b := TableBox(m, canvasWidth);
      col + 1 < |m.sizes| ==> CellLeft(b, col) + ColWidth == CellLeft(b, col + 1)
  {
    var b := TableBox(m, canvasWidth);
    assert col * ColWidth + ColWidth <= |m.sizes| * ColWidth;
    assert row * RowHeight + RowHeight <= (|m.colors| + 1) * RowHeight;
  }

  /** When the canvas is at least as wide as the table, the table lies inside it horizontally. */
  lemma TableInsideCanvas(m: SizeColorMatrix, canvasWidth: int)
    requires ColorColWidth + ColWidth * |m.sizes| <= canvasWidth
    ensures var b := TableBox(m, canvasWidth); 0 <= b.left && b.left + b.width <= canvasWidth
  {
  }

  /**
   * The height the table really takes is below the estimate `calculate_layout` reserved for
   * it: both vanish together, and a drawn table leaves `5 * rows + 40` px of that room unused.
   */
  lemma DrawnWithinReserved(m: SizeColorMatrix)
    ensures DrawnTableHeight(m) == 0 <==> ReservedTableHeight(m) == 0
    ensures HasTable(m) ==>
      ReservedTableHeight(m) - DrawnTableHeight(m) == 5 * (|m.colors| + 1) + 40
    ensures DrawnTableHeight(m) <= ReservedTableHeight(m)
  {
  }

  /** For a matrix as the scraper builds it, every cell of the table shows the available mark. */
  lemma ScrapedTableAllAvailable(m: SizeColorMatrix, color: string, size: string)
    requires AllAvailable(m)
    requires color in m.colors && size in m.sizes
    ensures IsAvailable(m.availability, color, size)
  {
  }
}
