// Integer rectangles: what a Qt QRect, or an (x, y, width, height) tuple,
// carries in the modelled code.
module Geometry {
  datatype Rect = Rect(x: int, y: int, w: int, h: int)

  /** The rectangle lies wholly inside a sheet of the given size. */
  predicate InsideSheet(r: Rect, sheetWidth: int, sheetHeight: int)
  {
    r.x >= 0 && r.y >= 0 && r.x + r.w <= sheetWidth && r.y + r.h <= sheetHeight
  }

  /** `outer` covers every pixel of `inner`. */
  predicate Encloses(outer: Rect, inner: Rect)
  {
    outer.x <= inner.x && outer.y <= inner.y &&
    inner.x + inner.w <= outer.x + outer.w && inner.y + inner.h <= outer.y + outer.h
  }

  /** Python's `a // b` (floor division) for a non-zero divisor. */
  function FloorDiv(a: int, b: int): (q: int)
    requires b != 0
    ensures b > 0 ==> q * b <= a < q * b + b
    ensures b < 0 ==> q * b >= a > q * b + b
  {
    if b > 0 then a / b else (-a) / (-b)
  }

  /** Python's `math.ceil(a / b)` for a positive divisor. */
  function CeilDiv(a: int, b: int): (q: int)
    requires b > 0
    ensures (q - 1) * b < a <= q * b
  {
    (a + b - 1) / b
  }
}
