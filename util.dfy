/** Integer range and point helpers of src/library/shogi/util.ts. */
module Util {

  /** A point on the board: `x` is the file index, `y` the rank index. */
  datatype Point = Point(x: int, y: int)

  function Max0(n: int): nat { if n < 0 then 0 else n }

  /** `range(start, end)`: the integers start, start+1, ..., end (empty when end < start). */
  function Range(start: int, end: int): (r: seq<int>)
    ensures |r| == Max0(end - start + 1)
    ensures forall k :: 0 <= k < |r| ==> r[k] == start + k
  {
    seq(Max0(end - start + 1), k => k + start)
  }

  /** Membership in a range is exactly the closed interval. */
  lemma RangeMembers(start: int, end: int, v: int)
    ensures v in Range(start, end) <==> start <= v <= end
  {
    if start <= v <= end {
      assert Range(start, end)[v - start] == v;
    }
  }

  /** A non-empty range is its first element followed by the rest. */
  lemma {:induction false} RangeCons(start: int, end: int)
    requires start <= end
    ensures Range(start, end) == [start] + Range(start + 1, end)
  {
    var r, t := Range(start, end), Range(start + 1, end);
    assert |r| == |t| + 1;
    forall k | 0 <= k < |r| ensures r[k] == ([start] + t)[k] {
      if k > 0 { assert ([start] + t)[k] == t[k - 1]; }
    }
  }

  /** `irange(start, end)`: the generator's loop, collecting what it yields. */
  method IRange(start: int, end: int) returns (yielded: seq<int>)
    ensures yielded == Range(start, end)
  {
    yielded := [];
    var i := start;
    while i <= end
      invariant start <= i <= if end < start then start else end + 1
      invariant yielded == Range(start, i - 1)
    {
      yielded := yielded + [i];
      i := i + 1;
    }
  }

  /** `min(a, b)`: the smaller argument (the first one on a tie). */
  function Min(a: int, b: int): (r: int)
    ensures r <= a && r <= b
    ensures r == a || r == b
  {
    if a <= b then a else b
  }

  /** `max(a, b)`: the larger argument (the second one on a tie). */
  function Max(a: int, b: int): (r: int)
    ensures r >= a && r >= b
    ensures r == a || r == b
  {
    if a > b then a else b
  }

  lemma MinLeMax(a: int, b: int)
    ensures Min(a, b) <= Max(a, b)
    ensures Min(a, b) + Max(a, b) == a + b
  {
  }

  function Add(a: Point, b: Point): (r: Point)
    ensures r.x - b.x == a.x && r.y - b.y == a.y
  {
    Point(a.x + b.x, a.y + b.y)
  }

  function Sub(a: Point, b: Point): (r: Point)
    ensures Add(r, b) == a
  {
    Point(a.x - b.x, a.y - b.y)
  }

  function Mul(a: Point, b: Point): (r: Point)
    ensures b == Point(1, 1) ==> r == a
    ensures b == Point(0, 0) ==> r == Point(0, 0)
    ensures (r.x == 0 <==> a.x == 0 || b.x == 0) && (r.y == 0 <==> a.y == 0 || b.y == 0)
  {
    Point(a.x * b.x, a.y * b.y)
  }

  /** `mul` is the componentwise product: commutative, associative, and distributive over `add`. */
  lemma MulAlgebra(a: Point, b: Point, c: Point)
    ensures Mul(a, b) == Mul(b, a)
    ensures Mul(Mul(a, b), c) == Mul(a, Mul(b, c))
    ensures Mul(a, Add(b, c)) == Add(Mul(a, b), Mul(a, c))
  {
    assert a.x * b.x == b.x * a.x && a.y * b.y == b.y * a.y;
    assert (a.x * b.x) * c.x == a.x * (b.x * c.x) && (a.y * b.y) * c.y == a.y * (b.y * c.y);
    assert a.x * (b.x + c.x) == a.x * b.x + a.x * c.x && a.y * (b.y + c.y) == a.y * b.y + a.y * c.y;
  }

  /** Adding then subtracting the same offset gives the point back. */
  lemma SubAddCancel(a: Point, b: Point)
    ensures Sub(Add(a, b), b) == a
    ensures Add(Sub(a, b), b) == a
  {
  }

  /** `interpolation(c, d)`: the integers strictly between c and d, ascending. */
  function Interpolation(c: int, d: int): (r: seq<int>)
    ensures |r| == Max0(Max(c, d) - Min(c, d) - 1)
    ensures forall k :: 0 <= k < |r| ==> Min(c, d) < r[k] < Max(c, d)
    ensures forall k :: 0 <= k < |r| ==> r[k] == Min(c, d) + 1 + k
  {
    Range(Min(c, d) + 1, Max(c, d) - 1)
  }

  /** Every integer strictly between c and d is listed, and nothing else. */
  lemma InterpolationMembers(c: int, d: int, v: int)
    ensures v in Interpolation(c, d) <==> Min(c, d) < v < Max(c, d)
  {
    RangeMembers(Min(c, d) + 1, Max(c, d) - 1, v);
  }

  /** The list between two integers does not depend on their order. */
  lemma InterpolationSymmetric(c: int, d: int)
    ensures Interpolation(c, d) == Interpolation(d, c)
  {
    MinLeMax(c, d);
  }

  function Reverse<T>(s: seq<T>): (r: seq<T>)
    ensures |r| == |s|
    ensures forall k :: 0 <= k < |s| ==> r[k] == s[|s| - 1 - k]
  {
    seq(|s|, k requires 0 <= k < |s| => s[|s| - 1 - k])
  }

  /** The x-coordinates and y-coordinates `interpolation2D(a, b)` pairs up, each walked from a toward b. */
  function StepsX(a: Point, b: Point): seq<int> {
    if a.x < b.x then Interpolation(a.x, b.x) else Reverse(Interpolation(a.x, b.x))
  }

  function StepsY(a: Point, b: Point): seq<int> {
    if a.y < b.y then Interpolation(a.y, b.y) else Reverse(Interpolation(a.y, b.y))
  }

  /**
   * `interpolation2D(a, b)`: pairs the i-th x-step with the i-th y-step.
   * The source reads `rangeY[i]` past its end for a horizontal segment (an
   * undefined y); the model admits only segments whose y-range is at least
   * as long as their x-range.
   */
  function Interpolation2D(a: Point, b: Point): (r: seq<Point>)
    requires |StepsX(a, b)| <= |StepsY(a, b)|
    ensures |r| == |StepsX(a, b)|
  {
    var xs, ys := StepsX(a, b), StepsY(a, b);
    seq(|xs|, i requires 0 <= i < |xs| => Point(xs[i], ys[i]))
  }

  function Abs(n: int): nat { if n < 0 then -n else n }

  /** On a diagonal the points strictly between a and b, ordered from a toward b. */
  lemma Interpolation2DDiagonal(a: Point, b: Point)
    requires Abs(b.x - a.x) == Abs(b.y - a.y)
    ensures |StepsX(a, b)| <= |StepsY(a, b)|
    ensures |Interpolation2D(a, b)| == Max0(Abs(b.x - a.x) - 1)
    ensures forall i :: 0 <= i < |Interpolation2D(a, b)| ==>
      Interpolation2D(a, b)[i] ==
        Point(a.x + (if a.x < b.x then i + 1 else -(i + 1)), a.y + (if a.y < b.y then i + 1 else -(i + 1)))
  {
  }

  /** A vertical segment has an empty x-range, so nothing is listed. */
  lemma Interpolation2DVertical(a: Point, b: Point)
    requires a.x == b.x
    ensures Interpolation2D(a, b) == []
  {
  }
}
