/**
 Box and point geometry shared by the still-image and the video scripts:
 the size filter that discards tiny detections, the placement of the text
 label next to a box, and the 1.5x display scaling of the still image.
 Coordinates are frame pixels, origin top-left, y growing downward.
 */
module Geometry {

  /** A detection box after `map(int, box)`: corners (x1, y1) and (x2, y2). */
  datatype Box = Box(x1: int, y1: int, x2: int, y2: int)

  datatype Point = Point(x: int, y: int)

  /** Smallest width and height a video detection must have to be read. */
  const MinWidth: int := 50
  const MinHeight: int := 20

  /** Vertical offsets used to place the label above or below the box. */
  const Headroom: int := 40
  const AboveOffset: int := 20
  const BelowOffset: int := 50

  function Width(b: Box): int { b.x2 - b.x1 }

  function Height(b: Box): int { b.y2 - b.y1 }

  /** The video script's size filter: true when the box is discarded. */
  predicate TooSmall(b: Box)
  {
    Width(b) < MinWidth || Height(b) < MinHeight
  }

  /** A box that passes the size filter spans at least 50 by 20 pixels: x1 < x2 and y1 < y2. */
  lemma KeptBoxIsNonDegenerate(b: Box)
    requires !TooSmall(b)
    ensures b.x1 + MinWidth <= b.x2 && b.y1 + MinHeight <= b.y2
    ensures b.x1 < b.x2 && b.y1 < b.y2
  {
  }

  /** The filter is exact at its boundary: 50 by 20 is kept, one pixel less in either axis is dropped. */
  lemma SizeFilterBoundary(x: int, y: int)
    ensures !TooSmall(Box(x, y, x + 50, y + 20))
    ensures TooSmall(Box(x, y, x + 49, y + 20))
    ensures TooSmall(Box(x, y, x + 50, y + 19))
  {
  }

  /**
   Where the label text is drawn: 20 pixels above the top edge when the box
   starts more than 40 pixels below the top of the frame, otherwise 50 pixels
   below the bottom edge. The x coordinate is always the box's left edge.
   */
  function Anchor(b: Box): (p: Point)
    ensures p.x == b.x1
    ensures b.y1 > Headroom ==> p.y == b.y1 - AboveOffset
    ensures b.y1 <= Headroom ==> p.y == b.y2 + BelowOffset
  {
    Point(b.x1, if b.y1 - Headroom > 0 then b.y1 - AboveOffset else b.y2 + BelowOffset)
  }

  /** The label never sits on a row the box covers: it is strictly above or strictly below it. */
  lemma AnchorOutsideBox(b: Box)
    requires b.y1 <= b.y2
    ensures Anchor(b).y < b.y1 || Anchor(b).y > b.y2
    ensures b.y1 > Headroom <==> Anchor(b).y < b.y1
  {
  }

  /** For a box inside the frame the label baseline is more than 20 pixels below the top edge of the frame. */
  lemma AnchorHasHeadroom(b: Box)
    requires 0 <= b.y1 <= b.y2
    ensures Anchor(b).y > AboveOffset
  {
  }

  /**
   One display dimension of the still image: `int(n * 1.5)`, the float product
   truncated toward zero. While the double product is exact, that is while
   3n < 2^53 (n <= 3002399751580330), this is the floor of 3n/2.
   */
  function ScaledDim(n: nat): (r: nat)
    ensures (r as real) <= (n as real) * 1.5 < (r as real) + 1.0
  {
    var r := n * 3 / 2;
    assert 2 * r <= 3 * n < 2 * r + 2;
    assert (2 * r) as real <= (3 * n) as real < (2 * r + 2) as real;
    r
  }

  /** The scaling grows with the input and never shrinks the image. */
  lemma ScaledDimMonotone(m: nat, n: nat)
    requires m <= n
    ensures m <= ScaledDim(m) <= ScaledDim(n)
  {
  }

}
