/** The geometry helper (src/render-helpers.ts): walls and platforms are
    placed by their centre, while drawing needs the top-left corner. Numbers
    are exact reals here. */
module RenderHelpers {

  datatype Point = Point(x: real, y: real)

  /** `centerToTopLeft`: the corner half a width left of and half a height
      above the centre. */
  function CenterToTopLeft(centerX: real, centerY: real, width: real, height: real): (r: Point)
    ensures r.x + width / 2.0 == centerX && r.y + height / 2.0 == centerY
  {
    Point(centerX - width / 2.0, centerY - height / 2.0)
  }

  /** The inverse conversion: the centre of a box given its corner. */
  function TopLeftToCenter(x: real, y: real, width: real, height: real): (r: Point)
    ensures r.x - width / 2.0 == x && r.y - height / 2.0 == y
  {
    Point(x + width / 2.0, y + height / 2.0)
  }

  /** The two conversions undo each other, in both orders. */
  lemma ConversionsAreInverse(cx: real, cy: real, width: real, height: real)
    ensures var c := CenterToTopLeft(cx, cy, width, height);
            TopLeftToCenter(c.x, c.y, width, height) == Point(cx, cy)
    ensures var t := TopLeftToCenter(cx, cy, width, height);
            CenterToTopLeft(t.x, t.y, width, height) == Point(cx, cy)
  {
  }

  /** The corner's x depends only on the centre's x and the width, and its y
      only on the centre's y and the height. */
  lemma AxesAreIndependent(cx: real, cy1: real, cy2: real, w: real, h1: real, h2: real)
    ensures CenterToTopLeft(cx, cy1, w, h1).x == CenterToTopLeft(cx, cy2, w, h2).x
    ensures CenterToTopLeft(cy1, cx, h1, w).y == CenterToTopLeft(cy2, cx, h2, w).y
  {
  }

  /** A box of no size has its corner at its centre. */
  lemma ZeroSizeCornerIsCentre(cx: real, cy: real)
    ensures CenterToTopLeft(cx, cy, 0.0, 0.0) == Point(cx, cy)
  {
  }

  /** A box of non-negative size has its corner up and to the left of its centre. */
  lemma CornerIsAboveLeft(cx: real, cy: real, width: real, height: real)
    requires width >= 0.0 && height >= 0.0
    ensures CenterToTopLeft(cx, cy, width, height).x <= cx
    ensures CenterToTopLeft(cx, cy, width, height).y <= cy
  {
  }
}
