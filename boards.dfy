/**
 * The board class of src/library/shogi/board.ts: the operations that fill or
 * rewrite its rows in place, and `PieceBoard.make`, the opening layout.
 */
module Boards {
  import opened Util
  import opened Results
  import opened Grid
  import opened Pieces

  /** `Board<T>`: an array of rows that its methods rewrite in place. */
  class Board<T> {
    var cells: seq<seq<T>>

    /** `new Board()`: an array with no rows yet. */
    constructor ()
      ensures cells == []
    {
      cells := [];
    }

    /** `resetByArray(arr)`: drop every row, then copy the top-left 9x9 of arr row by row. */
    method ResetByArray(arr: seq<seq<T>>)
      requires |arr| >= Height && forall y :: 0 <= y < Height ==> |arr[y]| >= Width
      modifies this
      ensures IsGrid(cells)
      ensures forall y, x :: 0 <= y < Height && 0 <= x < Width ==> cells[y][x] == arr[y][x]
    {
      cells := [];
      for y := 0 to Height
        invariant |cells| == y
        invariant forall j :: 0 <= j < y ==> cells[j] == arr[j][..Width]
      {
        var line: seq<T> := [];
        for x := 0 to Width
          invariant line == arr[y][..x]
        {
          line := line + [arr[y][x]];
        }
        cells := cells + [line];
      }
    }

    /** `resetByValue(v)`: push nine rows of nine copies of v after the existing rows. */
    method ResetByValue(v: T)
      modifies this
      ensures cells == old(cells) + Filled(v)
    {
      for y := 0 to Height
        invariant cells == old(cells) + Filled(v)[..y]
      {
        var line: seq<T> := [];
        for x := 0 to Width
          invariant line == seq(x, _ => v)
        {
          line := line + [v];
        }
        cells := cells + [line];
      }
    }

    /** `assign(p, e)`: overwrite one cell. */
    method Assign(p: Point, e: T)
      requires IsGrid(cells) && InBound(p)
      modifies this
      ensures cells == Grid.Assign(old(cells), p, e)
    {
      cells := cells[p.y := cells[p.y][p.x := e]];
    }

    /** `reverseMatrix()`: copy the board, then write each copied cell to its turned place. */
    method ReverseMatrix()
      requires IsGrid(cells)
      modifies this
      ensures cells == Reversed(old(cells))
    {
      var buf := cells;
      var m := cells;
      var ys := IRange(0, Height - 1);
      for i := 0 to |ys|
        invariant IsGrid(m)
        invariant forall r, c {:trigger m[r][c]} :: 0 <= r < Height && 0 <= c < Width ==>
          m[r][c] == if Height - 1 - r < i then buf[Height - 1 - r][Width - 1 - c] else buf[r][c]
      {
        var y := ys[i];
        assert y == i;
        var xs := IRange(0, Width - 1);
        for j := 0 to |xs|
          invariant IsGrid(m)
          invariant forall r, c {:trigger m[r][c]} :: 0 <= r < Height && 0 <= c < Width ==>
            m[r][c] == if Height - 1 - r < y || (r == Height - 1 - y && Width - 1 - c < j)
                       then buf[Height - 1 - r][Width - 1 - c] else buf[r][c]
        {
          var x := xs[j];
          assert x == j;
          m := m[Height - 1 - y := m[Height - 1 - y][Width - 1 - x := buf[y][x]]];
        }
      }
      forall r | 0 <= r < Height ensures m[r] == Reversed(buf)[r] {
        forall c | 0 <= c < Width ensures m[r][c] == Reversed(buf)[r][c] {
          assert Reversed(buf)[Height - 1 - (Height - 1 - r)][Width - 1 - (Width - 1 - c)] == buf[Height - 1 - r][Width - 1 - c];
        }
      }
      cells := m;
    }

    /**
     * `applyWithReverse(fn)`: turn the board, run fn on it, turn it back. For
     * an fn that only reads the board, the result is fn of the turned board
     * and the board ends as it began.
     */
    method ApplyWithReverse<U>(fn: seq<seq<T>> -> U) returns (res: U)
      requires IsGrid(cells)
      modifies this
      ensures res == fn(Reversed(old(cells)))
      ensures cells == old(cells)
    {
      ReverseMatrix();
      res := fn(cells);
      ReverseMatrix();
      ReversedTwice(old(cells));
    }

    /** `matFindIndex(fn)`: scan rows, then cells, and return the first match. */
    method MatFindIndex(fn: (T, Point) -> bool) returns (r: Option<Point>)
      requires IsGrid(cells)
      ensures r == FindIndex(cells, fn)
    {
      for y := 0 to Height
        invariant forall k :: 0 <= k < y * Width ==> !MatchAt(cells, fn, k)
      {
        for x := 0 to Width
          invariant forall k :: 0 <= k < y * Width + x ==> !MatchAt(cells, fn, k)
        {
          PointOfIndex(Point(x, y));
          if fn(cells[y][x], Point(x, y)) {
            FindFromSkip(cells, fn, 0, y * Width + x);
            return Some(Point(x, y));
          }
          assert !MatchAt(cells, fn, y * Width + x);
        }
      }
      FindFromSkip(cells, fn, 0, Width * Height);
      r := None;
    }
  }

  /** The kind on the back rank (rank 8 from the owner's side) at file x. */
  function BackRank(x: int): PieceType {
    if x == 0 || x == 8 then Lance
    else if x == 1 || x == 7 then Knight
    else if x == 2 || x == 6 then SilverGeneral
    else if x == 3 || x == 5 then GoldGeneral
    else King
  }

  /** `place(board, player)` on a board value: back rank, Bishop, Rook and the pawn row. */
  function Place(g: seq<seq<Option<Piece>>>, player: Player): (r: seq<seq<Option<Piece>>>)
    requires IsGrid(g)
    ensures IsGrid(r)
  {
    g[8 := seq(Width, x => Some(NewPiece(BackRank(x), player)))]
     [7 := g[7][1 := Some(NewPiece(Bishop, player))][7 := Some(NewPiece(Rook, player))]]
     [6 := seq(Width, _ => Some(NewPiece(Pawn, player)))]
  }

  /**
   * The opening position, built as `PieceBoard.make` does: Black placed on
   * an empty board, then White placed on the turned board, turned back.
   */
  function Opening(): (r: seq<seq<Option<Piece>>>)
    ensures IsGrid(r)
  {
    Reversed(Place(Reversed(Place(Filled(None), Black)), White))
  }

  /** What stands on a side's own half at (x, r), ranks counted from that side's far edge. */
  function Home(x: int, r: int): Option<PieceType> {
    if r == 8 then Some(BackRank(x))
    else if r == 7 && x == 1 then Some(Bishop)
    else if r == 7 && x == 7 then Some(Rook)
    else if r == 6 then Some(Pawn)
    else None
  }

  /** Every square of the opening: Black's pieces on ranks 6-8, White's mirrored on ranks 0-2. */
  lemma OpeningAt(p: Point)
    requires InBound(p)
    ensures Opening()[p.y][p.x] ==
      if Home(p.x, p.y).Some? then Some(NewPiece(Home(p.x, p.y).value, Black))
      else if Home(Width - 1 - p.x, Height - 1 - p.y).Some? then Some(NewPiece(Home(Width - 1 - p.x, Height - 1 - p.y).value, White))
      else None
  {
    var b := Place(Filled(None), Black);
    var w := Place(Reversed(b), White);
    assert Opening()[p.y][p.x] == w[Height - 1 - p.y][Width - 1 - p.x];
    assert Reversed(b)[Height - 1 - p.y][Width - 1 - p.x] == b[p.y][p.x];
  }

  /** The Kings stand at (4, 8) for Black and (4, 0) for White. */
  lemma OpeningKings()
    ensures Opening()[8][4] == Some(Piece(King, Black, false))
    ensures Opening()[0][4] == Some(Piece(King, White, false))
  {
    OpeningAt(Point(4, 8));
    OpeningAt(Point(4, 0));
  }

  /** Rank 6 is all Black pawns and rank 2 all White pawns. */
  lemma OpeningPawns(x: int)
    requires 0 <= x < Width
    ensures Opening()[6][x] == Some(Piece(Pawn, Black, false))
    ensures Opening()[2][x] == Some(Piece(Pawn, White, false))
  {
    OpeningAt(Point(x, 6));
    OpeningAt(Point(x, 2));
  }

  function SwapOwner(c: Option<Piece>): Option<Piece> {
    if c.None? then None else Some(c.value.(owner := Opponent(c.value.owner)))
  }

  /** The opening is symmetric under the 180-degree turn with owners swapped. */
  lemma OpeningSymmetric(p: Point)
    requires InBound(p)
    ensures Opening()[Height - 1 - p.y][Width - 1 - p.x] == SwapOwner(Opening()[p.y][p.x])
  {
    OpeningAt(p);
    OpeningAt(ReversePosition(p));
  }

  /** `place(board, player)` as the source writes it, cell by cell and the pawn row at once. */
  method PlaceOn(b: Board<Option<Piece>>, player: Player)
    requires IsGrid(b.cells)
    modifies b
    ensures b.cells == Place(old(b.cells), player)
  {
    PlaceBackRank(b, player);
    b.Assign(Point(1, 7), Some(NewPiece(Bishop, player)));
    b.Assign(Point(7, 7), Some(NewPiece(Rook, player)));
    b.cells := b.cells[6 := seq(Width, _ => Some(NewPiece(Pawn, player)))];
  }

  /** The nine assignments of `place` to rank 8. */
  method PlaceBackRank(b: Board<Option<Piece>>, player: Player)
    requires IsGrid(b.cells)
    modifies b
    ensures b.cells == old(b.cells)[8 := seq(Width, x => Some(NewPiece(BackRank(x), player)))]
  {
    b.Assign(Point(0, 8), Some(NewPiece(Lance, player)));
    b.Assign(Point(1, 8), Some(NewPiece(Knight, player)));
    b.Assign(Point(2, 8), Some(NewPiece(SilverGeneral, player)));
    b.Assign(Point(3, 8), Some(NewPiece(GoldGeneral, player)));
    b.Assign(Point(4, 8), Some(NewPiece(King, player)));
    b.Assign(Point(5, 8), Some(NewPiece(GoldGeneral, player)));
    b.Assign(Point(6, 8), Some(NewPiece(SilverGeneral, player)));
    b.Assign(Point(7, 8), Some(NewPiece(Knight, player)));
    b.Assign(Point(8, 8), Some(NewPiece(Lance, player)));
    assert b.cells[8] == seq(Width, x => Some(NewPiece(BackRank(x), player)));
  }

  /** `PieceBoard.make()`: an empty board, Black placed, then White placed on the turned board. */
  method MakePieceBoard() returns (b: Board<Option<Piece>>)
    ensures fresh(b)
    ensures b.cells == Opening()
  {
    b := new Board();
    b.ResetByValue(None);
    PlaceOn(b, Black);
    // applyWithReverse(() => place(board, White)): the callback itself rewrites the board
    b.ReverseMatrix();
    PlaceOn(b, White);
    b.ReverseMatrix();
  }
}
