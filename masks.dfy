/**
 * The bit board `isRestrictionPieceConstraits(piece, pos)` builds in
 * src/library/shogi/shogi.ts: a fresh board filled with false, marked
 * through repeated `assign` calls, pattern loops, rook lines and do-while
 * diagonal walks, and turned around for White. Each step is proved against
 * the reachability predicate of Rules.
 */
module Masks {
  import opened Util
  import opened Results
  import opened Grid
  import opened Pieces
  import opened Boards
  import opened Rules

  /** The closure `assign`: mark p when it lies on the board. */
  method Mark(b: Board<bool>, p: Point)
    requires IsGrid(b.cells)
    modifies b
    ensures IsGrid(b.cells)
    ensures forall q :: InBound(q) ==> b.cells[q.y][q.x] == (old(b.cells)[q.y][q.x] || q == p)
  {
    if InBound(p) {
      b.Assign(p, true);
    }
  }

  /** The Gold General's 3x3 pattern, row 0 being the row ahead. */
  const GoldPattern: seq<seq<bool>> := [[true, true, true], [true, false, true], [false, true, false]]

  /** The Silver General's 3x3 pattern. */
  const SilverPattern: seq<seq<bool>> := [[true, true, true], [false, false, false], [true, false, true]]

  predicate IsPattern(pattern: seq<seq<bool>>) {
    |pattern| == 3 && forall i :: 0 <= i < 3 ==> |pattern[i]| == 3
  }

  /** q is a marked entry of the pattern centred on pos, among its first entries up to (row, col). */
  predicate InPatternBefore(pattern: seq<seq<bool>>, pos: Point, q: Point, row: int, col: int)
    requires IsPattern(pattern)
  {
    var r := q.y - pos.y + 1;
    var c := q.x - pos.x + 1;
    0 <= r < 3 && 0 <= c < 3 && pattern[r][c] && (r < row || (r == row && c < col))
  }

  /** `pattern.forEach((line, y) => line.forEach((p, x) => p && assign(pos + (x - 1, y - 1))))`. */
  method MarkPattern(b: Board<bool>, pos: Point, pattern: seq<seq<bool>>)
    requires IsGrid(b.cells) && IsPattern(pattern)
    modifies b
    ensures IsGrid(b.cells)
    ensures forall q :: InBound(q) ==>
              b.cells[q.y][q.x] == (old(b.cells)[q.y][q.x] || InPatternBefore(pattern, pos, q, 3, 0))
  {
    for y := 0 to 3
      invariant IsGrid(b.cells)
      invariant forall q :: InBound(q) ==>
                  b.cells[q.y][q.x] == (old(b.cells)[q.y][q.x] || InPatternBefore(pattern, pos, q, y, 0))
    {
      for x := 0 to 3
        invariant IsGrid(b.cells)
        invariant forall q :: InBound(q) ==>
                    b.cells[q.y][q.x] == (old(b.cells)[q.y][q.x] || InPatternBefore(pattern, pos, q, y, x))
      {
        if pattern[y][x] {
          Mark(b, Point(pos.x + (x - 1), pos.y + (y - 1)));
        }
      }
    }
  }

  /** q lies in the 3x3 block around pos, among its squares before (dy, dx) in row-major order. */
  predicate InBlockBefore(pos: Point, q: Point, dy: int, dx: int) {
    var ry := q.y - pos.y;
    var rx := q.x - pos.x;
    Box(rx, ry) && (ry < dy || (ry == dy && rx < dx))
  }

  /** `range(-1, 1).forEach(y => range(-1, 1).forEach(x => assign(pos + (x, y))))`. */
  method MarkBlock(b: Board<bool>, pos: Point)
    requires IsGrid(b.cells)
    modifies b
    ensures IsGrid(b.cells)
    ensures forall q :: InBound(q) ==> b.cells[q.y][q.x] == (old(b.cells)[q.y][q.x] || Box(q.x - pos.x, q.y - pos.y))
  {
    var ys := Range(-1, 1);
    for i := 0 to |ys|
      invariant IsGrid(b.cells)
      invariant forall q :: InBound(q) ==>
                  b.cells[q.y][q.x] == (old(b.cells)[q.y][q.x] || InBlockBefore(pos, q, i - 1, -1))
    {
      var y := ys[i];
      var xs := Range(-1, 1);
      for j := 0 to |xs|
        invariant IsGrid(b.cells)
        invariant forall q :: InBound(q) ==>
                    b.cells[q.y][q.x] == (old(b.cells)[q.y][q.x] || InBlockBefore(pos, q, y, j - 1))
      {
        var x := xs[j];
        Mark(b, Point(pos.x + x, pos.y + y));
      }
    }
  }

  /** `rookAssign`: the whole file and rank of pos, pos itself excluded. */
  method MarkRookLines(b: Board<bool>, pos: Point)
    requires IsGrid(b.cells)
    modifies b
    ensures IsGrid(b.cells)
    ensures forall q :: InBound(q) ==>
              b.cells[q.y][q.x] == (old(b.cells)[q.y][q.x] || RookLine(q.x - pos.x, q.y - pos.y))
  {
    var ys := Range(0, Height - 1);
    for i := 0 to |ys|
      invariant IsGrid(b.cells)
      invariant forall q :: InBound(q) ==>
                  b.cells[q.y][q.x] == (old(b.cells)[q.y][q.x] || (q.x == pos.x && q.y != pos.y && q.y < i))
    {
      if ys[i] != pos.y {
        Mark(b, Point(pos.x, ys[i]));
      }
    }
    ghost var mid := b.cells;
    var xs := Range(0, Width - 1);
    for i := 0 to |xs|
      invariant IsGrid(b.cells)
      invariant forall q :: InBound(q) ==>
                  b.cells[q.y][q.x] == (mid[q.y][q.x] || (q.y == pos.y && q.x != pos.x && q.x < i))
    {
      if xs[i] != pos.x {
        Mark(b, Point(xs[i], pos.y));
      }
    }
  }

  /** The point n steps from pos in direction (dx, dy), each of them 1 or -1. */
  function Step(pos: Point, dx: int, dy: int, n: int): Point {
    Point(if dx == 1 then pos.x + n else pos.x - n, if dy == 1 then pos.y + n else pos.y - n)
  }

  /** The number of steps from pos to q along direction (dx, dy), when q is on that ray. */
  function StepsTo(pos: Point, dx: int, q: Point): int {
    if dx == 1 then q.x - pos.x else pos.x - q.x
  }

  predicate OnRay(pos: Point, dx: int, dy: int, q: Point) {
    StepsTo(pos, dx, q) >= 0 && q == Step(pos, dx, dy, StepsTo(pos, dx, q))
  }

  /** `diagonalAssign(dx, dy)`: a do-while walk marking pos and every square after it up to the edge. */
  method MarkDiagonal(b: Board<bool>, pos: Point, dx: int, dy: int)
    requires IsGrid(b.cells) && InBound(pos)
    requires (dx == 1 || dx == -1) && (dy == 1 || dy == -1)
    modifies b
    ensures IsGrid(b.cells)
    ensures forall q :: InBound(q) ==> b.cells[q.y][q.x] == (old(b.cells)[q.y][q.x] || OnRay(pos, dx, dy, q))
  {
    var p := pos;
    ghost var n := 0;
    var walking := true;
    while walking
      invariant IsGrid(b.cells)
      invariant 0 <= n <= Width
      invariant p == Step(pos, dx, dy, n)
      invariant walking ==> InBound(p)
      invariant !walking ==> !InBound(p) && n > 0
      invariant forall q :: InBound(q) ==>
                  b.cells[q.y][q.x] == (old(b.cells)[q.y][q.x] || (OnRay(pos, dx, dy, q) && StepsTo(pos, dx, q) < n))
      decreases Width - n, walking
    {
      Mark(b, p);
      p := Point(p.x + dx, p.y + dy);
      n := n + 1;
      walking := InBound(p);
    }
    forall q | InBound(q) && OnRay(pos, dx, dy, q)
      ensures StepsTo(pos, dx, q) < n
    {
    }
  }

  /** `range(0, pos.y - 1).forEach(y => assign({x: pos.x, y}))`: the file ahead of a Lance. */
  method MarkFileAhead(b: Board<bool>, pos: Point)
    requires IsGrid(b.cells)
    modifies b
    ensures IsGrid(b.cells)
    ensures forall q :: InBound(q) ==> b.cells[q.y][q.x] == (old(b.cells)[q.y][q.x] || (q.x == pos.x && q.y < pos.y))
  {
    var ys := Range(0, pos.y - 1);
    for i := 0 to |ys|
      invariant IsGrid(b.cells)
      invariant forall q :: InBound(q) ==> b.cells[q.y][q.x] == (old(b.cells)[q.y][q.x] || (q.x == pos.x && q.y < i))
    {
      Mark(b, Point(pos.x, ys[i]));
    }
  }

  /**
   * `_isRestrictionPieceConstraits(pos)`: mark the Black-frame mask of the
   * piece on b; `raised` when the piece is a promoted King or Gold General.
   */
  method MarkBlackFrame(b: Board<bool>, piece: Piece, pos: Point) returns (raised: bool)
    requires IsGrid(b.cells) && InBound(pos)
    modifies b
    ensures IsGrid(b.cells)
    ensures raised <==> MaskRaises(piece)
    ensures !raised ==> forall q :: InBound(q) ==>
              b.cells[q.y][q.x] == (old(b.cells)[q.y][q.x] || BlackReach(piece.kind, piece.promoted, pos, q))
  {
    raised := false;
    if piece.promoted {
      match piece.kind
      case Pawn => MarkPattern(b, pos, GoldPattern);
      case Lance => MarkPattern(b, pos, GoldPattern);
      case Knight => MarkPattern(b, pos, GoldPattern);
      case SilverGeneral => MarkPattern(b, pos, GoldPattern);
      case Rook =>
        MarkRookLines(b, pos);
        MarkBlock(b, pos);
      case Bishop =>
        MarkDiagonals(b, pos);
        MarkBlock(b, pos);
      case GoldGeneral => raised := true;
      case King => raised := true;
    } else {
      match piece.kind
      case Pawn => Mark(b, Point(pos.x, pos.y - 1));
      case Lance => MarkFileAhead(b, pos);
      case Knight =>
        Mark(b, Point(pos.x - 1, pos.y - 2));
        Mark(b, Point(pos.x + 1, pos.y - 2));
      case SilverGeneral => MarkPattern(b, pos, SilverPattern);
      case GoldGeneral => MarkPattern(b, pos, GoldPattern);
      case King => MarkBlock(b, pos);
      case Rook => MarkRookLines(b, pos);
      case Bishop => MarkDiagonals(b, pos);
    }
  }

  /** `bishopAssign`: the four diagonal walks, which together cover both diagonals through pos. */
  method MarkDiagonals(b: Board<bool>, pos: Point)
    requires IsGrid(b.cells) && InBound(pos)
    modifies b
    ensures IsGrid(b.cells)
    ensures forall q :: InBound(q) ==> b.cells[q.y][q.x] == (old(b.cells)[q.y][q.x] || Diagonal(q.x - pos.x, q.y - pos.y))
  {
    MarkDiagonal(b, pos, 1, 1);
    MarkDiagonal(b, pos, 1, -1);
    MarkDiagonal(b, pos, -1, 1);
    MarkDiagonal(b, pos, -1, -1);
  }

  lemma ReversedFilled<T>(v: T)
    ensures Reversed(Filled(v)) == Filled(v)
  {
    var r := Reversed(Filled(v));
    forall y | 0 <= y < Height ensures r[y] == Filled(v)[y] {
      forall x | 0 <= x < Width ensures r[y][x] == Filled(v)[y][x] {
        assert r[y][x] == r[Height - 1 - (Height - 1 - y)][Width - 1 - (Width - 1 - x)];
      }
    }
  }

  /** Two boards that agree on every square are equal. */
  lemma SameBoard(a: seq<seq<bool>>, b: seq<seq<bool>>)
    requires IsGrid(a) && IsGrid(b)
    requires forall q :: InBound(q) ==> a[q.y][q.x] == b[q.y][q.x]
    ensures a == b
  {
    forall y | 0 <= y < Height
      ensures a[y] == b[y]
    {
      forall x | 0 <= x < Width
        ensures a[y][x] == b[y][x]
      {
        assert InBound(Point(x, y));
      }
    }
  }

  /** The Black-frame mask as a bit board. */
  function BlackMask(kind: PieceType, promoted: bool, pos: Point): (r: seq<seq<bool>>)
    ensures IsGrid(r)
    ensures forall q :: InBound(q) ==> r[q.y][q.x] == BlackReach(kind, promoted, pos, q)
  {
    seq(Height, y => seq(Width, x => BlackReach(kind, promoted, pos, Point(x, y))))
  }

  /** Black's mask is the Black-frame mask; White's is the one at the turned position, turned back. */
  lemma MaskFromBlackFrame(piece: Piece, pos: Point)
    ensures piece.owner == Black ==> Mask(piece, pos) == BlackMask(piece.kind, piece.promoted, pos)
    ensures piece.owner == White ==>
              Mask(piece, pos) == Reversed(BlackMask(piece.kind, piece.promoted, ReversePosition(pos)))
  {
    var bm := BlackMask(piece.kind, piece.promoted, if piece.owner == Black then pos else ReversePosition(pos));
    if piece.owner == Black {
      SameBoard(Mask(piece, pos), bm);
    } else {
      forall q | InBound(q)
        ensures Reversed(bm)[q.y][q.x] == Mask(piece, pos)[q.y][q.x]
      {
        ReversedAt(bm, q);
      }
      SameBoard(Reversed(bm), Mask(piece, pos));
    }
  }

  /** Marking the Black-frame mask on an all-false board leaves exactly that mask. */
  method MarkFreshBoard(b: Board<bool>, piece: Piece, pos: Point) returns (raised: bool)
    requires b.cells == Filled(false) && InBound(pos)
    modifies b
    ensures IsGrid(b.cells)
    ensures raised <==> MaskRaises(piece)
    ensures !raised ==> b.cells == BlackMask(piece.kind, piece.promoted, pos)
  {
    raised := MarkBlackFrame(b, piece, pos);
    if !raised {
      SameBoard(b.cells, BlackMask(piece.kind, piece.promoted, pos));
    }
  }

  /**
   * `Shogi.isRestrictionPieceConstraits(piece, pos)`: the bit board of the
   * squares the piece may reach from pos, or `Raised` for a promoted King or
   * Gold General. White's board is turned, marked at the turned position,
   * and turned back.
   */
  method RestrictionMask(piece: Piece, pos: Point) returns (r: Outcome<seq<seq<bool>>>)
    requires InBound(pos)
    ensures r.Raised? <==> MaskRaises(piece)
    ensures r.Done? ==> r.value == Mask(piece, pos)
  {
    var board := new Board<bool>();
    board.ResetByValue(false);
    assert board.cells == Filled(false);
    MaskFromBlackFrame(piece, pos);
    var raised: bool;
    if piece.owner == Black {
      raised := MarkFreshBoard(board, piece, pos);
    } else {
      board.ReverseMatrix();
      ReversedFilled(false);
      raised := MarkFreshBoard(board, piece, ReversePosition(pos));
      board.ReverseMatrix();
    }
    if raised {
      return Raised;
    }
    r := Done(board.cells);
  }
}
