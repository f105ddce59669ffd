/** The small numeric helpers of the world (`clamp`, `dist2`, `Math.min`,
    `Math.max`, `Math.floor`), over unbounded reals. */
module Numeric {

  type PosReal = r: real | r > 0.0 witness 1.0

  type NonNegReal = r: real | r >= 0.0 witness 0.0

  function Min(a: real, b: real): (r: real)
    ensures r <= a && r <= b
    ensures r == a || r == b
  {
    if a <= b then a else b
  }

  function Max(a: real, b: real): (r: real)
    ensures a <= r && b <= r
    ensures r == a || r == b
  {
    if a >= b then a else b
  }

  /** `clamp(v, a, b)`: the lower bound is tested first. */
  function Clamp(v: real, lo: real, hi: real): (r: real)
    ensures lo <= hi ==> lo <= r <= hi
    ensures lo <= v <= hi ==> r == v
    ensures v < lo ==> r == lo
    ensures lo <= hi < v ==> r == hi
  {
    if v < lo then lo else if v > hi then hi else v
  }

  /** `dist2`: the squared Euclidean distance between two points, zero
      exactly when they coincide and the same in either direction. */
  function Dist2(ax: real, ay: real, bx: real, bY: real): (d: real)
    ensures d >= 0.0
    ensures d == 0.0 <==> ax == bx && ay == bY
    ensures d == (bx - ax) * (bx - ax) + (bY - ay) * (bY - ay)
  {
    var dx := ax - bx;
    var dy := ay - bY;
    SquarePositive(dx);
    SquarePositive(dy);
    assert (bx - ax) * (bx - ax) == dx * dx;
    assert (bY - ay) * (bY - ay) == dy * dy;
    dx * dx + dy * dy
  }

  lemma SquarePositive(d: real)
    ensures d * d >= 0.0
    ensures d * d == 0.0 <==> d == 0.0
  {
    if d > 0.0 {
      SquareStrict(0.0, d);
    } else if d < 0.0 {
      SquareStrict(0.0, -d);
      assert (-d) * (-d) == d * d;
    }
  }

  /** Index of the cell of width `c` that holds `v`: `Math.floor(v / c)`,
      the unique integer `i` with `i <= v / c < i + 1`. */
  function CellIndex(c: PosReal, v: real): (i: int)
    ensures i as real <= v / c < (i + 1) as real
  {
    (v / c).Floor
  }

  lemma MulStrict(a: real, b: real, c: real)
    requires a < b && c > 0.0
    ensures a * c < b * c
  {
  }

  /** The cell index is the only integer whose cell contains `v`. */
  lemma CellIndexUnique(c: PosReal, v: real, i: int)
    requires i as real <= v / c < (i + 1) as real
    ensures CellIndex(c, v) == i
  {
    var j := CellIndex(c, v);
    assert j as real <= v / c < (j + 1) as real;
  }

  /** Dividing by a positive width keeps order. */
  lemma DivMono(a: real, b: real, c: PosReal)
    requires a <= b
    ensures a / c <= b / c
  {
  }

  /** Floor division by a positive width is monotone. */
  lemma CellIndexMonotone(c: PosReal, a: real, b: real)
    requires a <= b
    ensures CellIndex(c, a) <= CellIndex(c, b)
  {
    DivMono(a, b, c);
  }

  /** A point within Euclidean distance `r` is within `r` on each axis. */
  lemma {:induction false} Dist2Box(ax: real, ay: real, bx: real, bY: real, r: real)
    requires r >= 0.0 && Dist2(ax, ay, bx, bY) <= r * r
    ensures ax - r <= bx <= ax + r && ay - r <= bY <= ay + r
  {
    var dx := ax - bx;
    var dy := ay - bY;
    assert dx * dx <= r * r by {
      assert dy * dy >= 0.0;
    }
    assert dy * dy <= r * r by {
      assert dx * dx >= 0.0;
    }
    SquareBound(dx, r);
    SquareBound(dy, r);
  }

  lemma SquareBound(d: real, r: real)
    requires r >= 0.0 && d * d <= r * r
    ensures -r <= d <= r
  {
    if d > r {
      SquareStrict(r, d);
    } else if d < -r {
      SquareStrict(r, -d);
    }
  }

  lemma SquareStrict(a: real, b: real)
    requires 0.0 <= a < b
    ensures a * a < b * b
  {
    MulStrict(a, b, b);
    var ab := a * b;
    var bb := b * b;
    var aa := a * a;
    assert ab < bb;
    assert aa <= ab;
    assert aa < bb;
  }
}
