/**
 * One card page (`create_card_image`): the title and folio at the top, then the 16 images in
 * row-major order over the 4x4 grid, each fitted to its cell and captioned with its file stem.
 * An image that fails to decode or resize leaves its cell blank and the loop moves on.
 */
module Card {
  import opened Wrappers
  import opened Layout
  import Fit
  import Paths
  import Folio
  import opened Drawing

  /** The width and height `textbbox` reports for a text at a font size. */
  datatype Extent = Extent(width: nat, height: nat)

  const COLOR_TEXT: Colour := BLACK

  /** Horizontal position that centres a text of the given width on the page. */
  function TitleX(titleWidth: nat): (x: int)
    ensures 0 <= (PAGE_WIDTH - titleWidth - x) - x <= 1
  {
    (PAGE_WIDTH - titleWidth) / 2
  }

  /** Horizontal position that makes a text of the given width end at the right margin. */
  function FolioX(folioWidth: nat): (x: int)
    ensures x + folioWidth == PAGE_WIDTH - MARGIN_RIGHT
  {
    PAGE_WIDTH - MARGIN_RIGHT - folioWidth
  }

  /**
   * Where the caption of the given extent is drawn in the cell whose origin is (cellX, cellY):
   * centred horizontally in the cell (to within one pixel) and with its bottom
   * LABEL_PADDING_BOTTOM pixels above the cell's bottom edge.
   */
  function LabelPosition(cellX: int, cellY: int, extent: Extent): (pos: (int, int))
    ensures 0 <= (cellX + CellWidth() - (pos.0 + extent.width)) - (pos.0 - cellX) <= 1
    ensures cellY + CellHeight() - (pos.1 + extent.height) == LABEL_PADDING_BOTTOM
    ensures extent.width <= CellWidth() ==> cellX <= pos.0 && pos.0 + extent.width <= cellX + CellWidth()
  {
    (cellX + (CellWidth() - extent.width) / 2, cellY + CellHeight() - LABEL_PADDING_BOTTOM - extent.height)
  }

  /** The cell-sized box for the image at `path`, or None when opening or resizing it raises. */
  function FittedBox(path: string, decode: string -> Option<Fit.Image>): Option<Fit.Box>
  {
    match decode(path)
    case None => None
    case Some(image) => Fit.ResizeToFit(image, CellWidth(), CellHeight())
  }

  /** The outlined caption of a cell: only when the file stem is non-empty. */
  function Caption(path: string, cellX: int, cellY: int, labelSize: nat, measure: (string, nat) -> Extent): seq<DrawEvent>
  {
    var stem := Paths.Stem(path);
    if stem == "" then []
    else
      var (labelX, labelY) := LabelPosition(cellX, cellY, measure(stem, labelSize));
      OutlinedText(labelX, labelY, stem, labelSize, WHITE, BLACK, LabelOutlineWidth())
  }

  /** What one pass of the grid loop draws for the image at `path` in cell (row, col). */
  function CellEvents(path: string, row: int, col: int, labelSize: nat,
                      measure: (string, nat) -> Extent, decode: string -> Option<Fit.Image>): seq<DrawEvent>
  {
    match FittedBox(path, decode)
    case None => []
    case Some(box) => [Paste(CellX(col), CellY(row), box)] + Caption(path, CellX(col), CellY(row), labelSize, measure)
  }

  /** The draws of the first `count` cells, image i going to row i / 4, column i % 4. */
  function GridEvents(paths: seq<string>, count: nat, labelSize: nat,
                      measure: (string, nat) -> Extent, decode: string -> Option<Fit.Image>): seq<DrawEvent>
    requires count <= |paths|
  {
    if count == 0 then []
    else
      var k := count - 1;
      GridEvents(paths, k, labelSize, measure, decode) +
      CellEvents(paths[k], k / GRID_SIZE, k % GRID_SIZE, labelSize, measure, decode)
  }

  /** The title, centred, and the folio text, right-aligned, both MARGIN_TOP / 2 from the top. */
  function HeaderEvents(title: string, folioNumber: int, measure: (string, nat) -> Extent): seq<DrawEvent>
  {
    var folioText := Folio.FolioText(folioNumber);
    [ Text(TitleX(measure(title, TITLE_FONT_SIZE).width), MARGIN_TOP / 2, title, COLOR_TEXT, TITLE_FONT_SIZE),
      Text(FolioX(measure(folioText, FOLIO_FONT_SIZE).width), MARGIN_TOP / 2, folioText, COLOR_TEXT, FOLIO_FONT_SIZE) ]
  }

  /** Everything drawn on a card page, in order. */
  function CardEvents(paths: seq<string>, title: string, folioNumber: int, labelSize: nat,
                      measure: (string, nat) -> Extent, decode: string -> Option<Fit.Image>): seq<DrawEvent>
    requires |paths| >= IMAGES_PER_CARD
  {
    HeaderEvents(title, folioNumber, measure) + GridEvents(paths, IMAGES_PER_CARD, labelSize, measure, decode)
  }

  /** The grid's events grow cell by cell. */
  lemma GridEventsStep(paths: seq<string>, k: nat, labelSize: nat,
                       measure: (string, nat) -> Extent, decode: string -> Option<Fit.Image>)
    requires k < |paths|
    ensures GridEvents(paths, k + 1, labelSize, measure, decode) ==
      GridEvents(paths, k, labelSize, measure, decode) + CellEvents(paths[k], k / GRID_SIZE, k % GRID_SIZE, labelSize, measure, decode)
  {
  }

  lemma SeqAssoc<T>(a: seq<T>, b: seq<T>, c: seq<T>)
    ensures (a + b) + c == a + (b + c)
  {
  }

  /**
   * The body of the grid loop for one cell: open the image, fit it to the cell, paste it at the
   * cell's origin and draw its outlined caption; any failure leaves the cell as it is.
   */
  method DrawCell(canvas: Canvas, path: string, row: int, col: int, labelSize: nat,
                  measure: (string, nat) -> Extent, decode: string -> Option<Fit.Image>)
    modifies canvas
    ensures canvas.events == old(canvas.events) + CellEvents(path, row, col, labelSize, measure, decode)
  {
    var cellWidth, cellHeight := CellWidth(), CellHeight();
    var image := decode(path);
    if image.Some? {
      var resized := Fit.ResizeToFit(image.value, cellWidth, cellHeight);
      if resized.Some? {
        var cellX, cellY := CellX(col), CellY(row);
        canvas.PasteBox(cellX, cellY, resized.value);
        ghost var pasted := canvas.events;
        var filename := Paths.Stem(path);
        if filename != "" {
          var extent := measure(filename, labelSize);
          var (labelX, labelY) := LabelPosition(cellX, cellY, extent);
          DrawTextWithOutline(canvas, labelX, labelY, filename, labelSize, WHITE, BLACK, LabelOutlineWidth());
        }
        ghost var caption := Caption(path, cellX, cellY, labelSize, measure);
        assert canvas.events == pasted + caption;
        assert FittedBox(path, decode) == resized;
        assert CellEvents(path, row, col, labelSize, measure, decode) == [Paste(cellX, cellY, resized.value)] + caption;
        SeqAssoc(old(canvas.events), [Paste(cellX, cellY, resized.value)], caption);
      } else {
        assert CellEvents(path, row, col, labelSize, measure, decode) == [];
      }
    } else {
      assert CellEvents(path, row, col, labelSize, measure, decode) == [];
    }
  }

  /**
   * `create_card_image(image_paths, title, folio_number, label_font_size)`. Decoding an image file
   * and measuring a text are the parameters `decode` and `measure`.
   */
  method CreateCardImage(imagePaths: seq<string>, title: string, folioNumber: int, labelSize: nat,
                         measure: (string, nat) -> Extent, decode: string -> Option<Fit.Image>)
    returns (canvas: Canvas)
    requires |imagePaths| >= IMAGES_PER_CARD
    ensures fresh(canvas) && canvas.width == PAGE_WIDTH && canvas.height == PAGE_HEIGHT
    ensures canvas.events == CardEvents(imagePaths, title, folioNumber, labelSize, measure, decode)
  {
    canvas := new Canvas(PAGE_WIDTH, PAGE_HEIGHT);

    var titleWidth := measure(title, TITLE_FONT_SIZE).width;
    canvas.DrawText(TitleX(titleWidth), MARGIN_TOP / 2, title, COLOR_TEXT, TITLE_FONT_SIZE);

    var folioText := Folio.FolioText(folioNumber);
    var folioWidth := measure(folioText, FOLIO_FONT_SIZE).width;
    canvas.DrawText(FolioX(folioWidth), MARGIN_TOP / 2, folioText, COLOR_TEXT, FOLIO_FONT_SIZE);

    ghost var header := canvas.events;
    assert header == HeaderEvents(title, folioNumber, measure);

    var imageIndex := 0;
    var row := 0;
    while row < GRID_SIZE
      invariant 0 <= row <= GRID_SIZE
      invariant imageIndex == row * GRID_SIZE
      invariant canvas.events == header + GridEvents(imagePaths, imageIndex, labelSize, measure, decode)
    {
      var col := 0;
      while col < GRID_SIZE
        invariant 0 <= col <= GRID_SIZE
        invariant imageIndex == row * GRID_SIZE + col
        invariant canvas.events == header + GridEvents(imagePaths, imageIndex, labelSize, measure, decode)
      {
        DrawCell(canvas, imagePaths[imageIndex], row, col, labelSize, measure, decode);
        ghost var cell := CellEvents(imagePaths[imageIndex], row, col, labelSize, measure, decode);
        ghost var done := GridEvents(imagePaths, imageIndex, labelSize, measure, decode);
        SeqAssoc(header, done, cell);
        // A failure above only skips this cell: the index still advances.
        assert imageIndex / GRID_SIZE == row && imageIndex % GRID_SIZE == col;
        GridEventsStep(imagePaths, imageIndex, labelSize, measure, decode);
        imageIndex := imageIndex + 1;
        col := col + 1;
      }
      row := row + 1;
    }
  }

  /** `e` is the paste of cell k: the fitted box of the k-th image at the origin of row k / 4, column k % 4. */
  predicate PastedFrom(e: DrawEvent, paths: seq<string>, k: int, decode: string -> Option<Fit.Image>)
    requires 0 <= k < |paths|
  {
    e.Paste? && FittedBox(paths[k], decode) == Some(e.box) &&
    e.x == CellX(k % GRID_SIZE) && e.y == CellY(k / GRID_SIZE)
  }

  /** The paste of a box into cell k: at the origin of row k / 4, column k % 4. */
  function CellPaste(k: int, box: Fit.Box): (e: DrawEvent)
    ensures e.Paste? && e.box == box
  {
    Paste(CellX(k % GRID_SIZE), CellY(k / GRID_SIZE), box)
  }

  /** A caption draws only texts. */
  lemma {:induction false} CaptionOnlyTexts(path: string, cellX: int, cellY: int, labelSize: nat, measure: (string, nat) -> Extent)
    ensures forall e :: e in Caption(path, cellX, cellY, labelSize, measure) ==> e.Text?
  {
    var stem := Paths.Stem(path);
    if stem != "" {
      var (labelX, labelY) := LabelPosition(cellX, cellY, measure(stem, labelSize));
      var width := LabelOutlineWidth();
      HaloDrawsMembers(labelX, labelY, stem, BLACK, labelSize, width, width + 1);
      var halo := HaloDraws(labelX, labelY, stem, BLACK, labelSize, width, width + 1);
      assert OutlinedText(labelX, labelY, stem, labelSize, WHITE, BLACK, width) == halo + [Text(labelX, labelY, stem, WHITE, labelSize)];
    }
  }

  /** The cell's events: nothing when its image fails, else the paste followed by the caption. */
  lemma CellEventsSplit(path: string, row: int, col: int, labelSize: nat,
                        measure: (string, nat) -> Extent, decode: string -> Option<Fit.Image>)
    ensures var c := CellEvents(path, row, col, labelSize, measure, decode);
      && (FittedBox(path, decode).None? ==> c == [])
      && (FittedBox(path, decode).Some? ==>
            c == [Paste(CellX(col), CellY(row), FittedBox(path, decode).value)] + Caption(path, CellX(col), CellY(row), labelSize, measure))
  {
  }

  lemma {:induction false} CellPastes(path: string, k: nat, paths: seq<string>, labelSize: nat,
                                      measure: (string, nat) -> Extent, decode: string -> Option<Fit.Image>)
    requires k < |paths| && path == paths[k]
    ensures forall e :: e in CellEvents(path, k / GRID_SIZE, k % GRID_SIZE, labelSize, measure, decode) && e.Paste? ==>
      PastedFrom(e, paths, k, decode)
    ensures FittedBox(path, decode).Some? ==>
      CellPaste(k, FittedBox(path, decode).value) in CellEvents(path, k / GRID_SIZE, k % GRID_SIZE, labelSize, measure, decode)
  {
    var row, col := k / GRID_SIZE, k % GRID_SIZE;
    CellEventsSplit(path, row, col, labelSize, measure, decode);
    CaptionOnlyTexts(path, CellX(col), CellY(row), labelSize, measure);
  }

  /** Every paste on the grid is the fitted image of one of the first `count` cells, at that cell's origin. */
  lemma {:induction false} GridPastesFromCells(paths: seq<string>, count: nat, labelSize: nat,
                                               measure: (string, nat) -> Extent, decode: string -> Option<Fit.Image>)
    requires count <= |paths|
    ensures forall e :: e in GridEvents(paths, count, labelSize, measure, decode) && e.Paste? ==>
      exists k :: 0 <= k < count && PastedFrom(e, paths, k, decode)
  {
    if count > 0 {
      var k := count - 1;
      GridPastesFromCells(paths, k, labelSize, measure, decode);
      CellPastes(paths[k], k, paths, labelSize, measure, decode);
      var done := GridEvents(paths, k, labelSize, measure, decode);
      var cell := CellEvents(paths[k], k / GRID_SIZE, k % GRID_SIZE, labelSize, measure, decode);
      assert GridEvents(paths, count, labelSize, measure, decode) == done + cell;
      forall e: DrawEvent | e in done + cell && e.Paste?
        ensures exists j :: 0 <= j < count && PastedFrom(e, paths, j, decode)
      {
        if e in cell {
          assert PastedFrom(e, paths, k, decode);
        } else {
          var j :| 0 <= j < k && PastedFrom(e, paths, j, decode);
          assert 0 <= j < count;
        }
      }
    }
  }

  /** The image of every one of the first `count` cells that opens and fits is pasted at that cell's origin. */
  lemma {:induction false} GridPastesEveryCell(paths: seq<string>, count: nat, labelSize: nat,
                                               measure: (string, nat) -> Extent, decode: string -> Option<Fit.Image>)
    requires count <= |paths|
    ensures forall k :: 0 <= k < count && FittedBox(paths[k], decode).Some? ==>
      CellPaste(k, FittedBox(paths[k], decode).value) in GridEvents(paths, count, labelSize, measure, decode)
  {
    if count > 0 {
      var k := count - 1;
      GridPastesEveryCell(paths, k, labelSize, measure, decode);
      CellPastes(paths[k], k, paths, labelSize, measure, decode);
      var done := GridEvents(paths, k, labelSize, measure, decode);
      var cell := CellEvents(paths[k], k / GRID_SIZE, k % GRID_SIZE, labelSize, measure, decode);
      assert GridEvents(paths, count, labelSize, measure, decode) == done + cell;
      forall j | 0 <= j < count && FittedBox(paths[j], decode).Some?
        ensures CellPaste(j, FittedBox(paths[j], decode).value) in done + cell
      {
        if j == k {
          assert CellPaste(j, FittedBox(paths[j], decode).value) in cell;
        } else {
          assert CellPaste(j, FittedBox(paths[j], decode).value) in done;
        }
      }
    }
  }

  /**
   * Every image that opens and fits is pasted, scaled into the cell of its own grid position
   * (row k / 4, column k % 4), whatever happens to the other images; and every paste on the
   * card is of that kind.
   */
  lemma {:induction false} CardPastes(paths: seq<string>, title: string, folioNumber: int, labelSize: nat,
                                      measure: (string, nat) -> Extent, decode: string -> Option<Fit.Image>)
    requires |paths| >= IMAGES_PER_CARD
    ensures forall k :: 0 <= k < IMAGES_PER_CARD && FittedBox(paths[k], decode).Some? ==>
      CellPaste(k, FittedBox(paths[k], decode).value) in CardEvents(paths, title, folioNumber, labelSize, measure, decode)
    ensures forall e :: e in CardEvents(paths, title, folioNumber, labelSize, measure, decode) && e.Paste? ==>
      exists k :: 0 <= k < IMAGES_PER_CARD && PastedFrom(e, paths, k, decode)
  {
    GridPastesFromCells(paths, IMAGES_PER_CARD, labelSize, measure, decode);
    GridPastesEveryCell(paths, IMAGES_PER_CARD, labelSize, measure, decode);
    var header := HeaderEvents(title, folioNumber, measure);
    var grid := GridEvents(paths, IMAGES_PER_CARD, labelSize, measure, decode);
    forall e: DrawEvent | e in header + grid && e.Paste? ensures e in grid {
    }
  }

  /**
   * An image that fails to open or resize leaves its cell without any paste, and every other
   * image that fits is still pasted into its own cell.
   */
  lemma {:induction false} FailedImageLeavesCellBlank(paths: seq<string>, title: string, folioNumber: int, labelSize: nat,
                                                      measure: (string, nat) -> Extent, decode: string -> Option<Fit.Image>, k: nat)
    requires |paths| >= IMAGES_PER_CARD && k < IMAGES_PER_CARD
    requires FittedBox(paths[k], decode).None?
    ensures forall e :: e in CardEvents(paths, title, folioNumber, labelSize, measure, decode) && e.Paste? ==>
      e.x != CellX(k % GRID_SIZE) || e.y != CellY(k / GRID_SIZE)
    ensures forall j :: 0 <= j < IMAGES_PER_CARD && j != k && FittedBox(paths[j], decode).Some? ==>
      CellPaste(j, FittedBox(paths[j], decode).value) in CardEvents(paths, title, folioNumber, labelSize, measure, decode)
  {
    CardPastes(paths, title, folioNumber, labelSize, measure, decode);
    forall e | e in CardEvents(paths, title, folioNumber, labelSize, measure, decode) && e.Paste?
      ensures e.x != CellX(k % GRID_SIZE) || e.y != CellY(k / GRID_SIZE)
    {
      var j :| 0 <= j < IMAGES_PER_CARD && PastedFrom(e, paths, j, decode);
      assert j != k;
      DistinctCellsDisjoint(j / GRID_SIZE, j % GRID_SIZE, k / GRID_SIZE, k % GRID_SIZE);
    }
  }

  function PasteRect(e: DrawEvent): Rect
    requires e.Paste?
  {
    Rect(e.x, e.y, e.box.width, e.box.height)
  }

  /**
   * Every paste on a card covers exactly one cell of the grid, inside the margins and between the
   * title and folio bands, and pastes at different origins never overlap.
   */
  lemma {:induction false} CardPastesInsideGrid(paths: seq<string>, title: string, folioNumber: int, labelSize: nat,
                                                measure: (string, nat) -> Extent, decode: string -> Option<Fit.Image>)
    requires |paths| >= IMAGES_PER_CARD
    ensures forall e :: e in CardEvents(paths, title, folioNumber, labelSize, measure, decode) && e.Paste? ==>
      e.box.width == CellWidth() && e.box.height == CellHeight() && Inside(PasteRect(e), GridArea())
    ensures forall e1, e2 ::
      (e1 in CardEvents(paths, title, folioNumber, labelSize, measure, decode) && e1.Paste? &&
       e2 in CardEvents(paths, title, folioNumber, labelSize, measure, decode) && e2.Paste? &&
       (e1.x != e2.x || e1.y != e2.y)) ==> Disjoint(PasteRect(e1), PasteRect(e2))
  {
    var events := CardEvents(paths, title, folioNumber, labelSize, measure, decode);
    CardPastes(paths, title, folioNumber, labelSize, measure, decode);
    forall e | e in events && e.Paste?
      ensures e.box.width == CellWidth() && e.box.height == CellHeight() && Inside(PasteRect(e), GridArea())
    {
      var k :| 0 <= k < IMAGES_PER_CARD && PastedFrom(e, paths, k, decode);
      CellInsideGrid(k / GRID_SIZE, k % GRID_SIZE);
    }
    forall e1, e2 | e1 in events && e1.Paste? && e2 in events && e2.Paste? && (e1.x != e2.x || e1.y != e2.y)
      ensures Disjoint(PasteRect(e1), PasteRect(e2))
    {
      var k1 :| 0 <= k1 < IMAGES_PER_CARD && PastedFrom(e1, paths, k1, decode);
      var k2 :| 0 <= k2 < IMAGES_PER_CARD && PastedFrom(e2, paths, k2, decode);
      DistinctCellsDisjoint(k1 / GRID_SIZE, k1 % GRID_SIZE, k2 / GRID_SIZE, k2 % GRID_SIZE);
    }
  }

  /**
   * A caption exists only for a non-empty file stem. It ends with the stem in white at the caption
   * position, and every draw before that is a black halo copy around the same position.
   */
  lemma {:induction false} CaptionShape(path: string, cellX: int, cellY: int, labelSize: nat, measure: (string, nat) -> Extent)
    ensures var c := Caption(path, cellX, cellY, labelSize, measure);
      && (Paths.Stem(path) == "" <==> c == [])
      && (Paths.Stem(path) != "" ==>
            var stem := Paths.Stem(path);
            var (labelX, labelY) := LabelPosition(cellX, cellY, measure(stem, labelSize));
            && |c| == (2 * LabelOutlineWidth() + 1) * (2 * LabelOutlineWidth() + 1)
            && c[|c| - 1] == Text(labelX, labelY, stem, WHITE, labelSize)
            && forall i :: 0 <= i < |c| - 1 ==> IsHaloDraw(c[i], labelX, labelY, stem, BLACK, labelSize, LabelOutlineWidth()))
  {
    var stem := Paths.Stem(path);
    if stem != "" {
      var (labelX, labelY) := LabelPosition(cellX, cellY, measure(stem, labelSize));
      OutlinedTextShape(labelX, labelY, stem, labelSize, WHITE, BLACK, LabelOutlineWidth());
      var o := OutlinedText(labelX, labelY, stem, labelSize, WHITE, BLACK, LabelOutlineWidth());
      forall i | 0 <= i < |o| - 1 ensures IsHaloDraw(o[i], labelX, labelY, stem, BLACK, labelSize, LabelOutlineWidth()) {
        assert o[i] == o[..|o| - 1][i];
      }
    }
  }
}
