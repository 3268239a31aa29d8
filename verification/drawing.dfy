/**
 * The canvas of a page, recorded as the sequence of draw operations applied to it, and the
 * outlined-text routine (`draw_text_with_outline`) that issues a halo of outline-coloured
 * copies of a text followed by the text itself in the fill colour.
 */
module Drawing {
  import Fit
  import opened Sequences

  datatype Colour = Rgb(r: nat, g: nat, b: nat)

  const WHITE: Colour := Rgb(255, 255, 255)
  const BLACK: Colour := Rgb(0, 0, 0)

  /** One operation on the canvas: pasting a fitted cell box, or drawing a text. */
  datatype DrawEvent =
    | Paste(x: int, y: int, box: Fit.Box)
    | Text(x: int, y: int, text: string, fill: Colour, size: nat)

  /** A page of fixed pixel size; `events` is everything drawn on it so far, in order. */
  class Canvas {
    const width: int
    const height: int
    var events: seq<DrawEvent>

    /** `Image.new('RGB', (width, height), white)`: a blank page. */
    constructor (width: int, height: int)
      ensures this.width == width && this.height == height
      ensures events == []
    {
      this.width := width;
      this.height := height;
      events := [];
    }

    /** `canvas.paste(box, (x, y))`. */
    method PasteBox(x: int, y: int, box: Fit.Box)
      modifies this
      ensures events == old(events) + [Paste(x, y, box)]
    {
      events := events + [Paste(x, y, box)];
    }

    /** `draw.text((x, y), text, fill=fill, font=<font of the given size>)`. */
    method DrawText(x: int, y: int, text: string, fill: Colour, size: nat)
      modifies this
      ensures events == old(events) + [Text(x, y, text, fill, size)]
    {
      events := events + [Text(x, y, text, fill, size)];
    }
  }

  /**
   * The outline draws for one `offsetX`, with `offsetY` running over [-width, yEnd):
   * every offset except (0, 0).
   */
  function ColumnDraws(x: int, y: int, text: string, colour: Colour, size: nat, width: nat, offsetX: int, yEnd: int): seq<DrawEvent>
    requires -(width as int) <= yEnd
    decreases yEnd + width
  {
    if yEnd == -(width as int) then []
    else
      var offsetY := yEnd - 1;
      ColumnDraws(x, y, text, colour, size, width, offsetX, offsetY) +
      (if offsetX != 0 || offsetY != 0 then [Text(x + offsetX, y + offsetY, text, colour, size)] else [])
  }

  /** The outline draws with `offsetX` running over [-width, xEnd), each with its full column of `offsetY`. */
  function HaloDraws(x: int, y: int, text: string, colour: Colour, size: nat, width: nat, xEnd: int): seq<DrawEvent>
    requires -(width as int) <= xEnd
    decreases xEnd + width
  {
    if xEnd == -(width as int) then []
    else HaloDraws(x, y, text, colour, size, width, xEnd - 1) + ColumnDraws(x, y, text, colour, size, width, xEnd - 1, width + 1)
  }

  /** Everything `draw_text_with_outline` draws: the whole halo, then the text on top. */
  function OutlinedText(x: int, y: int, text: string, size: nat, fill: Colour, outline: Colour, width: nat): seq<DrawEvent>
  {
    HaloDraws(x, y, text, outline, size, width, width + 1) + [Text(x, y, text, fill, size)]
  }

  /** `draw_text_with_outline(draw, (x, y), text, font, fill, outline, width)`. */
  method DrawTextWithOutline(canvas: Canvas, x: int, y: int, text: string, size: nat, fill: Colour, outline: Colour, width: nat)
    modifies canvas
    ensures canvas.events == old(canvas.events) + OutlinedText(x, y, text, size, fill, outline, width)
  {
    var offsetX := -(width as int);
    while offsetX < width + 1
      invariant -(width as int) <= offsetX <= width + 1
      invariant canvas.events == old(canvas.events) + HaloDraws(x, y, text, outline, size, width, offsetX)
    {
      var offsetY := -(width as int);
      while offsetY < width + 1
        invariant -(width as int) <= offsetY <= width + 1
        invariant canvas.events == old(canvas.events) + HaloDraws(x, y, text, outline, size, width, offsetX)
                                   + ColumnDraws(x, y, text, outline, size, width, offsetX, offsetY)
      {
        if offsetX != 0 || offsetY != 0 {
          canvas.DrawText(x + offsetX, y + offsetY, text, outline, size);
        }
        offsetY := offsetY + 1;
      }
      offsetX := offsetX + 1;
    }
    canvas.DrawText(x, y, text, fill, size);
  }

  /** An outline draw: the text in the outline colour, displaced by a non-zero offset of at most `width`. */
  predicate IsHaloDraw(e: DrawEvent, x: int, y: int, text: string, colour: Colour, size: nat, width: nat) {
    && e.Text? && e.text == text && e.fill == colour && e.size == size
    && x - width <= e.x <= x + width && y - width <= e.y <= y + width
    && (e.x != x || e.y != y)
  }

  lemma {:induction false} ColumnDrawsCount(x: int, y: int, text: string, colour: Colour, size: nat, width: nat, offsetX: int, yEnd: int)
    requires -(width as int) <= yEnd
    ensures |ColumnDraws(x, y, text, colour, size, width, offsetX, yEnd)| == yEnd + width - (if offsetX == 0 && 0 < yEnd then 1 else 0)
    decreases yEnd + width
  {
    if yEnd > -(width as int) {
      ColumnDrawsCount(x, y, text, colour, size, width, offsetX, yEnd - 1);
    }
  }

  lemma {:induction false} ColumnDrawsMembers(x: int, y: int, text: string, colour: Colour, size: nat, width: nat, offsetX: int, yEnd: int)
    requires -(width as int) <= offsetX <= width && -(width as int) <= yEnd <= width + 1
    ensures forall e :: e in ColumnDraws(x, y, text, colour, size, width, offsetX, yEnd) <==>
      IsHaloDraw(e, x, y, text, colour, size, width) && e.x == x + offsetX && e.y < y + yEnd
    decreases yEnd + width
  {
    if yEnd > -(width as int) {
      ColumnDrawsMembers(x, y, text, colour, size, width, offsetX, yEnd - 1);
    }
  }

  lemma {:induction false} ColumnDrawsDistinct(x: int, y: int, text: string, colour: Colour, size: nat, width: nat, offsetX: int, yEnd: int)
    requires -(width as int) <= offsetX <= width && -(width as int) <= yEnd <= width + 1
    ensures Distinct(ColumnDraws(x, y, text, colour, size, width, offsetX, yEnd))
    decreases yEnd + width
  {
    if yEnd > -(width as int) {
      ColumnDrawsDistinct(x, y, text, colour, size, width, offsetX, yEnd - 1);
      ColumnDrawsMembers(x, y, text, colour, size, width, offsetX, yEnd - 1);
    }
  }

  lemma {:induction false} HaloDrawsCount(x: int, y: int, text: string, colour: Colour, size: nat, width: nat, xEnd: int)
    requires -(width as int) <= xEnd <= width + 1
    ensures |HaloDraws(x, y, text, colour, size, width, xEnd)| == (xEnd + width) * (2 * width + 1) - (if 0 < xEnd then 1 else 0)
    decreases xEnd + width
  {
    if xEnd > -(width as int) {
      HaloDrawsCount(x, y, text, colour, size, width, xEnd - 1);
      ColumnDrawsCount(x, y, text, colour, size, width, xEnd - 1, width + 1);
      var side, columns := 2 * width + 1, xEnd - 1 + width;
      assert (columns + 1) * side == columns * side + side;
    }
  }

  lemma {:induction false} HaloDrawsMembers(x: int, y: int, text: string, colour: Colour, size: nat, width: nat, xEnd: int)
    requires -(width as int) <= xEnd <= width + 1
    ensures forall e :: e in HaloDraws(x, y, text, colour, size, width, xEnd) <==>
      IsHaloDraw(e, x, y, text, colour, size, width) && e.x < x + xEnd
    decreases xEnd + width
  {
    if xEnd > -(width as int) {
      HaloDrawsMembers(x, y, text, colour, size, width, xEnd - 1);
      ColumnDrawsMembers(x, y, text, colour, size, width, xEnd - 1, width + 1);
    }
  }

  lemma {:induction false} HaloDrawsDistinct(x: int, y: int, text: string, colour: Colour, size: nat, width: nat, xEnd: int)
    requires -(width as int) <= xEnd <= width + 1
    ensures Distinct(HaloDraws(x, y, text, colour, size, width, xEnd))
    decreases xEnd + width
  {
    if xEnd > -(width as int) {
      HaloDrawsDistinct(x, y, text, colour, size, width, xEnd - 1);
      ColumnDrawsDistinct(x, y, text, colour, size, width, xEnd - 1, width + 1);
      HaloDrawsMembers(x, y, text, colour, size, width, xEnd - 1);
      ColumnDrawsMembers(x, y, text, colour, size, width, xEnd - 1, width + 1);
      var before := HaloDraws(x, y, text, colour, size, width, xEnd - 1);
      var column := ColumnDraws(x, y, text, colour, size, width, xEnd - 1, width + 1);
      var h := before + column;
      forall i, j | 0 <= i < j < |h| ensures h[i] != h[j] {
        if j >= |before| && i < |before| {
          assert h[i] in before && h[j] in column;
        }
      }
    }
  }

  /**
   * The outlined text is exactly (2w+1)^2 - 1 halo draws followed by one fill draw at (x, y).
   * The halo draws are exactly the draws of the text in the outline colour at the non-zero
   * offsets of at most w in each direction, none twice.
   */
  lemma {:induction false} OutlinedTextShape(x: int, y: int, text: string, size: nat, fill: Colour, outline: Colour, width: nat)
    ensures var o := OutlinedText(x, y, text, size, fill, outline, width);
      && |o| == (2 * width + 1) * (2 * width + 1)
      && o[|o| - 1] == Text(x, y, text, fill, size)
      && (forall e :: e in o[..|o| - 1] <==> IsHaloDraw(e, x, y, text, outline, size, width))
      && Distinct(o[..|o| - 1])
  {
    HaloDrawsCount(x, y, text, outline, size, width, width + 1);
    HaloDrawsMembers(x, y, text, outline, size, width, width + 1);
    HaloDrawsDistinct(x, y, text, outline, size, width, width + 1);
    var h := HaloDraws(x, y, text, outline, size, width, width + 1);
    var o := OutlinedText(x, y, text, size, fill, outline, width);
    assert o[..|o| - 1] == h;
    assert (width + 1 + width) * (2 * width + 1) - 1 + 1 == (2 * width + 1) * (2 * width + 1);
  }
}
