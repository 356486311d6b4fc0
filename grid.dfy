/**
 * The 9x9 grid of src/library/shogi/board.ts as a value: a sequence of nine
 * rows of nine cells, indexed `g[y][x]`. These are the operations that return
 * values or new boards; the ones that update a board in place are in Boards.
 */
module Grid {
  import opened Util
  import opened Results

  const Width: int := 9
  const Height: int := 9

  /** The shape every board has: nine rows of nine cells. */
  ghost predicate IsGrid<T>(g: seq<seq<T>>) {
    |g| == Height && forall y :: 0 <= y < Height ==> |g[y]| == Width
  }

  /** `Board.inBound`: the point lies on the board. */
  predicate InBound(p: Point)
    ensures InBound(p) <==> 0 <= p.x < Width && 0 <= p.y < Height
  {
    !(p.x < 0 || p.x >= Width || p.y < 0 || p.y >= Height)
  }

  /** `Board.at`: the cell at p, or nothing when p is off the board. */
  function At<T>(g: seq<seq<T>>, p: Point): (r: Option<T>)
    requires IsGrid(g)
    ensures r.None? <==> !InBound(p)
    ensures r.Some? ==> r.value == g[p.y][p.x]
  {
    if !InBound(p) then None else Some(g[p.y][p.x])
  }

  /** A board with every cell set to v (`resetByValue` on an empty board). */
  function Filled<T>(v: T): (r: seq<seq<T>>)
    ensures IsGrid(r)
    ensures forall y, x :: 0 <= y < Height && 0 <= x < Width ==> r[y][x] == v
  {
    seq(Height, _ => seq(Width, _ => v))
  }

  /** `assign(p, e)` on a board value: cell p becomes e. */
  function Assign<T>(g: seq<seq<T>>, p: Point, e: T): (r: seq<seq<T>>)
    requires IsGrid(g) && InBound(p)
    ensures IsGrid(r)
    ensures r[p.y][p.x] == e
  {
    g[p.y := g[p.y][p.x := e]]
  }

  /** Assigning a cell changes that cell and no other. */
  lemma AssignOnlyAt<T>(g: seq<seq<T>>, p: Point, e: T, q: Point)
    requires IsGrid(g) && InBound(p)
    ensures At(Assign(g, p, e), q) == if q == p then Some(e) else At(g, q)
  {
  }

  /** `posMatrix()`: the board whose every cell holds its own coordinates. */
  function PosMatrix(): (r: seq<seq<Point>>)
    ensures IsGrid(r)
  {
    seq(Height, y => seq(Width, x => Point(x, y)))
  }

  /** Reading `posMatrix()` at an in-bound point gives that point back. */
  lemma PosMatrixAt(p: Point)
    requires InBound(p)
    ensures At(PosMatrix(), p) == Some(p)
  {
  }

  /** `Shogi.reversePosition`: the 180-degree turn (x, y) -> (8 - x, 8 - y). */
  function ReversePosition(p: Point): (r: Point)
    ensures InBound(r) <==> InBound(p)
  {
    Point(Width - 1 - p.x, Height - 1 - p.y)
  }

  lemma ReversePositionInvolution(p: Point)
    ensures ReversePosition(ReversePosition(p)) == p
    ensures ReversePosition(p) == p <==> p == Point(4, 4)
  {
  }

  /** The board turned by 180 degrees: what `reverseMatrix` leaves behind. */
  function Reversed<T>(g: seq<seq<T>>): (r: seq<seq<T>>)
    requires IsGrid(g)
    ensures IsGrid(r)
    ensures forall y, x :: 0 <= y < Height && 0 <= x < Width ==> r[Height - 1 - y][Width - 1 - x] == g[y][x]
  {
    seq(Height, y requires 0 <= y < Height => seq(Width, x requires 0 <= x < Width => g[Height - 1 - y][Width - 1 - x]))
  }

  /** Reading the turned board at p reads the original at the reversed point. */
  lemma ReversedAt<T>(g: seq<seq<T>>, p: Point)
    requires IsGrid(g)
    ensures At(Reversed(g), p) == At(g, ReversePosition(p))
  {
  }

  /**
   * Turning twice is the identity, so `applyWithReverse` with a function
   * that does not touch the board leaves the board as it was.
   */
  lemma ReversedTwice<T>(g: seq<seq<T>>)
    requires IsGrid(g)
    ensures Reversed(Reversed(g)) == g
  {
    var r := Reversed(Reversed(g));
    forall y | 0 <= y < Height ensures r[y] == g[y] {
      assert |r[y]| == |g[y]|;
      forall x | 0 <= x < Width ensures r[y][x] == g[y][x] {
        assert r[y][x] == Reversed(g)[Height - 1 - y][Width - 1 - x];
      }
    }
  }

  /** `matMap`: apply fn to every cell with its coordinates. */
  function MatMap<T, U>(g: seq<seq<T>>, fn: (T, Point) -> U): (r: seq<seq<U>>)
    requires IsGrid(g)
    ensures IsGrid(r)
    ensures forall y, x :: 0 <= y < Height && 0 <= x < Width ==> r[y][x] == fn(g[y][x], Point(x, y))
  {
    seq(Height, y requires 0 <= y < Height => seq(Width, x requires 0 <= x < Width => fn(g[y][x], Point(x, y))))
  }

  /** `zip(rhs)`: the two boards paired cell by cell. */
  function Zip<T>(a: seq<seq<T>>, b: seq<seq<T>>): (r: seq<seq<(T, T)>>)
    requires IsGrid(a) && IsGrid(b)
    ensures IsGrid(r)
    ensures forall y, x :: 0 <= y < Height && 0 <= x < Width ==> r[y][x] == (a[y][x], b[y][x])
  {
    seq(Height, y requires 0 <= y < Height => seq(Width, x requires 0 <= x < Width => (a[y][x], b[y][x])))
  }

  /** `BitBoard.and`: the zipped boards mapped with conjunction. */
  function And(a: seq<seq<bool>>, b: seq<seq<bool>>): (r: seq<seq<bool>>)
    requires IsGrid(a) && IsGrid(b)
    ensures IsGrid(r)
  {
    MatMap(Zip(a, b), (e: (bool, bool), _: Point) => e.0 && e.1)
  }

  /** `BitBoard.or`: the zipped boards mapped with disjunction. */
  function Or(a: seq<seq<bool>>, b: seq<seq<bool>>): (r: seq<seq<bool>>)
    requires IsGrid(a) && IsGrid(b)
    ensures IsGrid(r)
  {
    MatMap(Zip(a, b), (e: (bool, bool), _: Point) => e.0 || e.1)
  }

  /** `and` and `or` are pointwise conjunction and disjunction. */
  lemma AndOrPointwise(a: seq<seq<bool>>, b: seq<seq<bool>>, p: Point)
    requires IsGrid(a) && IsGrid(b) && InBound(p)
    ensures And(a, b)[p.y][p.x] == (a[p.y][p.x] && b[p.y][p.x])
    ensures Or(a, b)[p.y][p.x] == (a[p.y][p.x] || b[p.y][p.x])
  {
  }

  /** `line.some(...)` over the cells of row y from column x on. */
  function RowSome<T>(line: seq<T>, y: int, fn: (T, Point) -> bool, x: nat): bool
    requires x <= |line|
    decreases |line| - x
  {
    if x == |line| then false else fn(line[x], Point(x, y)) || RowSome(line, y, fn, x + 1)
  }

  /** `matSome` over the rows from row y on. */
  function RowsSome<T>(g: seq<seq<T>>, fn: (T, Point) -> bool, y: nat): bool
    requires y <= |g|
    decreases |g| - y
  {
    if y == |g| then false else RowSome(g[y], y, fn, 0) || RowsSome(g, fn, y + 1)
  }

  /** `matSome(fn)`: some cell satisfies fn, rows first. */
  function MatSome<T>(g: seq<seq<T>>, fn: (T, Point) -> bool): (r: bool)
    ensures IsGrid(g) ==> (r <==> exists p :: InBound(p) && fn(g[p.y][p.x], p))
  {
    RowsSomeGrid(g, fn);
    RowsSome(g, fn, 0)
  }

  lemma {:induction false} RowSomeIff<T>(line: seq<T>, y: int, fn: (T, Point) -> bool, x: nat)
    requires x <= |line|
    ensures RowSome(line, y, fn, x) <==> exists i :: x <= i < |line| && fn(line[i], Point(i, y))
    decreases |line| - x
  {
    if x < |line| {
      RowSomeIff(line, y, fn, x + 1);
    }
  }

  lemma {:induction false} RowsSomeIff<T>(g: seq<seq<T>>, fn: (T, Point) -> bool, y: nat)
    requires y <= |g|
    ensures RowsSome(g, fn, y) <==> exists j, i :: y <= j < |g| && 0 <= i < |g[j]| && fn(g[j][i], Point(i, j))
    decreases |g| - y
  {
    if y < |g| {
      RowSomeIff(g[y], y, fn, 0);
      RowsSomeIff(g, fn, y + 1);
    }
  }

  /** On a 9x9 grid the row scan finds a match exactly when some on-board point satisfies fn. */
  lemma RowsSomeGrid<T>(g: seq<seq<T>>, fn: (T, Point) -> bool)
    ensures IsGrid(g) ==> (RowsSome(g, fn, 0) <==> exists p :: InBound(p) && fn(g[p.y][p.x], p))
  {
    RowsSomeIff(g, fn, 0);
    if IsGrid(g) && RowsSome(g, fn, 0) {
      var j, i :| 0 <= j < |g| && 0 <= i < |g[j]| && fn(g[j][i], Point(i, j));
      assert InBound(Point(i, j));
    }
  }

  /** `BitBoard.exist`: some cell is true. */
  function Exist(b: seq<seq<bool>>): (r: bool)
    ensures IsGrid(b) ==> (r <==> exists p :: InBound(p) && b[p.y][p.x])
  {
    MatSome(b, (e: bool, _: Point) => e)
  }

  /** The row-major position number of a square, and back. */
  function IndexOf(p: Point): int { p.y * Width + p.x }

  function PointOf(j: int): (p: Point)
    requires 0 <= j < Width * Height
    ensures InBound(p) && IndexOf(p) == j
  {
    Point(j % Width, j / Width)
  }

  lemma PointOfIndex(p: Point)
    requires InBound(p)
    ensures PointOf(IndexOf(p)) == p
  {
  }

  /** The cell numbered j satisfies fn. */
  predicate MatchAt<T>(g: seq<seq<T>>, fn: (T, Point) -> bool, j: int)
    requires IsGrid(g) && 0 <= j < Width * Height
  {
    var p := PointOf(j); fn(g[p.y][p.x], p)
  }

  /** The first cell numbered j or later that satisfies fn. */
  function FindFrom<T>(g: seq<seq<T>>, fn: (T, Point) -> bool, j: nat): Option<Point>
    requires IsGrid(g) && j <= Width * Height
    decreases Width * Height - j
  {
    if j == Width * Height then None
    else if MatchAt(g, fn, j) then Some(PointOf(j))
    else FindFrom(g, fn, j + 1)
  }

  /** `matFindIndex(fn)`: the first matching cell in row-major order. */
  function FindIndex<T>(g: seq<seq<T>>, fn: (T, Point) -> bool): (r: Option<Point>)
    requires IsGrid(g)
    ensures r.Some? ==> InBound(r.value) && fn(g[r.value.y][r.value.x], r.value)
  {
    FindFromSpec(g, fn, 0);
    var r := FindFrom(g, fn, 0);
    if r.Some? then PointOfIndex(r.value); r else r
  }

  lemma {:induction false} FindFromSpec<T>(g: seq<seq<T>>, fn: (T, Point) -> bool, j: nat)
    requires IsGrid(g) && j <= Width * Height
    ensures FindFrom(g, fn, j).None? ==> forall k :: j <= k < Width * Height ==> !MatchAt(g, fn, k)
    ensures FindFrom(g, fn, j).Some? ==>
      var p := FindFrom(g, fn, j).value;
      j <= IndexOf(p) < Width * Height && InBound(p) && MatchAt(g, fn, IndexOf(p)) &&
      forall k :: j <= k < IndexOf(p) ==> !MatchAt(g, fn, k)
    decreases Width * Height - j
  {
    if j < Width * Height && !MatchAt(g, fn, j) {
      FindFromSpec(g, fn, j + 1);
    }
  }

  /** Skipping cells that do not match does not change the search result. */
  lemma {:induction false} FindFromSkip<T>(g: seq<seq<T>>, fn: (T, Point) -> bool, i: nat, j: nat)
    requires IsGrid(g) && i <= j <= Width * Height
    requires forall k :: i <= k < j ==> !MatchAt(g, fn, k)
    ensures FindFrom(g, fn, i) == FindFrom(g, fn, j)
    decreases j - i
  {
    if i < j {
      FindFromSkip(g, fn, i + 1, j);
    }
  }

  /**
   * `matFindIndex` returns the first matching point in row-major order, or
   * nothing when no cell matches.
   */
  lemma FindIndexFirst<T>(g: seq<seq<T>>, fn: (T, Point) -> bool)
    requires IsGrid(g)
    ensures FindIndex(g, fn).None? <==> forall p :: InBound(p) ==> !fn(g[p.y][p.x], p)
    ensures FindIndex(g, fn).Some? ==>
      var p := FindIndex(g, fn).value;
      InBound(p) && fn(g[p.y][p.x], p) &&
      forall q :: InBound(q) && IndexOf(q) < IndexOf(p) ==> !fn(g[q.y][q.x], q)
  {
    FindFromSpec(g, fn, 0);
    forall q | InBound(q) && (FindIndex(g, fn).None? || IndexOf(q) < IndexOf(FindIndex(g, fn).value))
      ensures !fn(g[q.y][q.x], q)
    {
      PointOfIndex(q);
      assert !MatchAt(g, fn, IndexOf(q));
    }
    if FindIndex(g, fn).Some? {
      PointOfIndex(FindIndex(g, fn).value);
    }
  }
}
