/**
 * Page geometry of a card page: the layout constants and the integer (floor-division)
 * arithmetic that derives the cell size and each cell's origin from them.
 */
module Layout {
  const GRID_SIZE: nat := 4
  const IMAGES_PER_CARD: nat := GRID_SIZE * GRID_SIZE
  // The number of grid cells, as a function so that the recursive cell draws are not unrolled on a literal
  function CellCount(): nat { IMAGES_PER_CARD }

  // Letter page at 300 DPI
  const PAGE_WIDTH: int := 2550
  const PAGE_HEIGHT: int := 3300

  const TITLE_HEIGHT: int := 200
  const FOLIO_HEIGHT: int := 80
  const MARGIN_TOP: int := 100
  const MARGIN_BOTTOM: int := 100
  const MARGIN_LEFT: int := 150
  const MARGIN_RIGHT: int := 150

  const GAP_BETWEEN_IMAGES: int := 15

  const LABEL_PADDING_BOTTOM: int := 35
  // A function rather than a constant, so that the recursive outline draws are not unrolled on a literal
  function LabelOutlineWidth(): nat { 2 }

  // Font sizes of the title, the folio and the CLI's fixed caption size
  const TITLE_FONT_SIZE: nat := 80
  const FOLIO_FONT_SIZE: nat := 40
  const LABEL_FONT_SIZE: nat := 32

  /** An axis-aligned rectangle of pixels [x, x + width) x [y, y + height). */
  datatype Rect = Rect(x: int, y: int, width: int, height: int)

  predicate Disjoint(a: Rect, b: Rect) {
    a.x + a.width <= b.x || b.x + b.width <= a.x ||
    a.y + a.height <= b.y || b.y + b.height <= a.y
  }

  predicate Inside(inner: Rect, outer: Rect) {
    outer.x <= inner.x && inner.x + inner.width <= outer.x + outer.width &&
    outer.y <= inner.y && inner.y + inner.height <= outer.y + outer.height
  }

  /**
   * The size of each of `n` equal cells separated by `gap` pixels within `available` pixels,
   * computed with floor division: the largest size for which the n cells and gaps still fit.
   */
  function CellSize(available: int, n: nat, gap: int): (size: int)
    requires n > 0
    ensures n * size + (n - 1) * gap <= available
    ensures available < n * (size + 1) + (n - 1) * gap
  {
    var room := available - (n - 1) * gap;
    assert room == n * (room / n) + room % n;
    room / n
  }

  function AvailableWidth(): int {
    PAGE_WIDTH - MARGIN_LEFT - MARGIN_RIGHT
  }

  function AvailableHeight(): int {
    PAGE_HEIGHT - TITLE_HEIGHT - MARGIN_TOP - MARGIN_BOTTOM - FOLIO_HEIGHT
  }

  function CellWidth(): (w: int)
    ensures w > 0
  {
    CellSize(AvailableWidth(), GRID_SIZE, GAP_BETWEEN_IMAGES)
  }

  function CellHeight(): (h: int)
    ensures h > 0
  {
    CellSize(AvailableHeight(), GRID_SIZE, GAP_BETWEEN_IMAGES)
  }

  const GRID_START_X: int := MARGIN_LEFT
  const GRID_START_Y: int := MARGIN_TOP + TITLE_HEIGHT

  /** Left edge of the cells in column `col`. */
  function CellX(col: int): int {
    GRID_START_X + col * (CellWidth() + GAP_BETWEEN_IMAGES)
  }

  /** Top edge of the cells in row `row`. */
  function CellY(row: int): int {
    GRID_START_Y + row * (CellHeight() + GAP_BETWEEN_IMAGES)
  }

  function CellRect(row: int, col: int): Rect {
    Rect(CellX(col), CellY(row), CellWidth(), CellHeight())
  }

  /** The area between the margins, below the title band and above the folio band. */
  function GridArea(): Rect {
    Rect(GRID_START_X, GRID_START_Y, AvailableWidth(), AvailableHeight())
  }

  /** With the constants above the cells are 551 x 693 pixels. */
  lemma CellDimensions()
    ensures CellWidth() == 551 && CellHeight() == 693
  {
  }

  /** Neighbouring cells are one cell plus one gap apart, horizontally and vertically. */
  lemma NeighbourOffsets(row: int, col: int)
    ensures CellX(col + 1) - CellX(col) == CellWidth() + GAP_BETWEEN_IMAGES
    ensures CellY(row + 1) - CellY(row) == CellHeight() + GAP_BETWEEN_IMAGES
  {
  }

  /** Every cell of the 4x4 grid lies inside the margins, between the title and folio bands. */
  lemma {:induction false} CellInsideGrid(row: int, col: int)
    requires 0 <= row < GRID_SIZE && 0 <= col < GRID_SIZE
    ensures Inside(CellRect(row, col), GridArea())
    ensures MARGIN_LEFT <= CellX(col) && CellX(col) + CellWidth() <= PAGE_WIDTH - MARGIN_RIGHT
    ensures MARGIN_TOP + TITLE_HEIGHT <= CellY(row)
    ensures CellY(row) + CellHeight() <= PAGE_HEIGHT - MARGIN_BOTTOM - FOLIO_HEIGHT
  {
    var w, h, g := CellWidth(), CellHeight(), GAP_BETWEEN_IMAGES;
    assert col * (w + g) <= (GRID_SIZE - 1) * (w + g);
    assert row * (h + g) <= (GRID_SIZE - 1) * (h + g);
  }

  /** Two different cells of the grid never overlap. */
  lemma {:induction false} DistinctCellsDisjoint(r1: int, c1: int, r2: int, c2: int)
    requires 0 <= r1 < GRID_SIZE && 0 <= c1 < GRID_SIZE
    requires 0 <= r2 < GRID_SIZE && 0 <= c2 < GRID_SIZE
    requires r1 != r2 || c1 != c2
    ensures Disjoint(CellRect(r1, c1), CellRect(r2, c2))
  {
    var w, h, g := CellWidth(), CellHeight(), GAP_BETWEEN_IMAGES;
    if c1 < c2 {
      assert c2 * (w + g) - c1 * (w + g) == (c2 - c1) * (w + g);
    } else if c2 < c1 {
      assert c1 * (w + g) - c2 * (w + g) == (c1 - c2) * (w + g);
    } else if r1 < r2 {
      assert r2 * (h + g) - r1 * (h + g) == (r2 - r1) * (h + g);
    } else {
      assert r1 * (h + g) - r2 * (h + g) == (r1 - r2) * (h + g);
    }
  }
}
