/**
 * Sides, piece kinds and pieces (src/library/shogi/piece.ts, with the same
 * definitions in the first-revision engine), and the declarative movement
 * table `MovableDir` built from `MovedirMatrix`.
 */
module Pieces {
  import opened Util
  import Grid

  /** The two sides; Black moves first. */
  datatype Player = Black | White

  /** The side that is not p (`changePlayer`'s ternary). */
  function Opponent(p: Player): (r: Player)
    ensures r != p
  {
    if p == Black then White else Black
  }

  /** The closed set of piece kinds, in the order of the numeric enum. */
  datatype PieceType = King | Rook | Bishop | GoldGeneral | SilverGeneral | Knight | Lance | Pawn

  /** A piece: its kind never changes; its owner and promotion do. */
  datatype Piece = Piece(kind: PieceType, owner: Player, promoted: bool)

  /** `new Piece(type, owner)`: a fresh piece is never promoted. */
  function NewPiece(kind: PieceType, owner: Player): (r: Piece)
    ensures r.kind == kind && r.owner == owner && !r.promoted
  {
    Piece(kind, owner, false)
  }

  /** `Piece.canPromote`: every kind but King and GoldGeneral can promote. */
  function CanPromote(t: PieceType): (r: bool)
    ensures r <==> t != King && t != GoldGeneral
  {
    match t
    case King => false
    case Rook => true
    case Bishop => true
    case GoldGeneral => false
    case SilverGeneral => true
    case Knight => true
    case Lance => true
    case Pawn => true
  }

  /** `lookX`: a file index as seen from the piece's owner. */
  function LookX(p: Piece, x: int): (r: int)
    ensures p.owner == Black ==> r == x
    ensures p.owner == White ==> r == Grid.Width - 1 - x
  {
    if p.owner == Black then x else (Grid.Width - 1) - x
  }

  /** `lookY`: a rank index as seen from the piece's owner. */
  function LookY(p: Piece, y: int): (r: int)
    ensures p.owner == Black ==> r == y
    ensures p.owner == White ==> r == Grid.Height - 1 - y
  {
    if p.owner == Black then y else (Grid.Height - 1) - y
  }

  /** `look`: a point as seen from the piece's owner. */
  function Look(p: Piece, q: Point): (r: Point)
    ensures p.owner == Black ==> r == q
    ensures p.owner == White ==> r == Grid.ReversePosition(q)
  {
    Point(LookX(p, q.x), LookY(p, q.y))
  }

  /** Looking twice from the same side gives the coordinate back. */
  lemma LookInvolution(p: Piece, q: Point)
    ensures LookX(p, LookX(p, q.x)) == q.x
    ensures LookY(p, LookY(p, q.y)) == q.y
    ensures Look(p, Look(p, q)) == q
  {
  }

  /** A step count in the movement table; `Infinity` is `Unbounded`. */
  datatype Times = Count(n: nat) | Unbounded

  /** `Dir`: an offset per step and how many steps may be taken. */
  datatype Dir = Dir(dif: Point, times: Times)

  const O: Times := Count(0)
  const I: Times := Count(1)
  const U: Times := Unbounded

  const GoldMatrix: seq<seq<Times>> := [[I, I, I], [I, O, I], [O, I, O]]

  /** Every row of the matrix is as long as the matrix is high. */
  predicate Square(mat: seq<seq<Times>>) {
    forall i :: 0 <= i < |mat| ==> |mat[i]| == |mat|
  }

  /** A square matrix with a zero centre: the table holds no null step. */
  predicate CentredTable(mat: seq<seq<Times>>) {
    |mat| > 0 && |mat| % 2 == 1 && Square(mat) && mat[|mat| / 2][|mat| / 2] == Count(0)
  }

  /**
   * `MovedirMatrix[type]`: the normal and promoted matrices, Black-forward is
   * row 0. Every table is square, odd-sized and has a zero centre; the
   * promoted table is empty exactly for the kinds that cannot promote.
   */
  function MovedirMatrix(t: PieceType): (r: (seq<seq<Times>>, seq<seq<Times>>))
    ensures CentredTable(r.0)
    ensures r.1 == [] <==> !CanPromote(t)
    ensures r.1 != [] ==> CentredTable(r.1)
  {
    match t
    case Pawn => ([[O, I, O], [O, O, O], [O, O, O]], GoldMatrix)
    case Lance => ([[O, U, O], [O, O, O], [O, O, O]], GoldMatrix)
    case Knight => ([[O, I, O, I, O], [O, O, O, O, O], [O, O, O, O, O], [O, O, O, O, O], [O, I, O, I, O]], GoldMatrix)
    case SilverGeneral => ([[I, I, I], [O, O, O], [I, O, I]], GoldMatrix)
    case GoldGeneral => (GoldMatrix, [])
    case Rook => ([[O, U, O], [U, O, U], [O, U, O]], [[I, U, I], [U, O, U], [I, U, I]])
    case Bishop => ([[U, O, U], [O, O, O], [U, O, U]], [[U, I, U], [I, O, I], [U, I, U]])
    case King => ([[I, I, I], [I, O, I], [I, I, I]], [])
  }

  /** The entries of one matrix row, from column x on, with a non-zero count. */
  function RowDirs(line: seq<Times>, y: int, offset: int, x: nat): seq<Dir>
    requires x <= |line|
    decreases |line| - x
  {
    if x == |line| then []
    else (if line[x] != Count(0) then [Dir(Point(x - offset, y - offset), line[x])] else [])
         + RowDirs(line, y, offset, x + 1)
  }

  /** The entries of the rows from row y on, rows first (`map(...).flat()`). */
  function MatDirs(mat: seq<seq<Times>>, offset: int, y: nat): seq<Dir>
    requires y <= |mat|
    decreases |mat| - y
  {
    if y == |mat| then [] else RowDirs(mat[y], y, offset, 0) + MatDirs(mat, offset, y + 1)
  }

  /**
   * `makeDirPositionList`: non-zero cells as offsets from the matrix centre.
   * No entry has a zero count, and a table with a zero centre yields no null
   * step.
   */
  function MakeDirPositionList(mat: seq<seq<Times>>): (r: seq<Dir>)
    ensures forall k :: 0 <= k < |r| ==> r[k].times != Count(0)
    ensures CentredTable(mat) ==> forall k :: 0 <= k < |r| ==> r[k].dif != Point(0, 0)
  {
    if |mat| == 0 then []
    else
      MatDirsNonZero(mat);
      MatDirs(mat, |mat| / 2, 0)
  }

  lemma MatDirsNonZero(mat: seq<seq<Times>>)
    requires |mat| > 0
    ensures forall k :: 0 <= k < |MatDirs(mat, |mat| / 2, 0)| ==> MatDirs(mat, |mat| / 2, 0)[k].times != Count(0)
    ensures CentredTable(mat) ==>
              forall k :: 0 <= k < |MatDirs(mat, |mat| / 2, 0)| ==> MatDirs(mat, |mat| / 2, 0)[k].dif != Point(0, 0)
  {
    var ds := MatDirs(mat, |mat| / 2, 0);
    forall k | 0 <= k < |ds|
      ensures ds[k].times != Count(0) && (CentredTable(mat) ==> ds[k].dif != Point(0, 0))
    {
      MatDirsMembers(mat, |mat| / 2, 0, ds[k]);
    }
  }

  /**
   * `MovableDir[type][normal | promoted]`: every listed direction is a real
   * step with a non-zero count, and a kind that cannot promote has no
   * promoted directions.
   */
  function MovableDir(t: PieceType, promoted: bool): (r: seq<Dir>)
    ensures forall k :: 0 <= k < |r| ==> r[k].times != Count(0) && r[k].dif != Point(0, 0)
    ensures promoted && !CanPromote(t) ==> r == []
  {
    MakeDirPositionList(if promoted then MovedirMatrix(t).1 else MovedirMatrix(t).0)
  }

  lemma {:induction false} RowDirsMembers(line: seq<Times>, y: int, offset: int, x: nat, d: Dir)
    requires x <= |line|
    ensures d in RowDirs(line, y, offset, x) <==>
      exists c :: x <= c < |line| && line[c] != Count(0) && d == Dir(Point(c - offset, y - offset), line[c])
    decreases |line| - x
  {
    if x < |line| {
      RowDirsMembers(line, y, offset, x + 1, d);
    }
  }

  lemma {:induction false} MatDirsMembers(mat: seq<seq<Times>>, offset: int, y: nat, d: Dir)
    requires y <= |mat|
    ensures d in MatDirs(mat, offset, y) <==>
      exists r, c :: y <= r < |mat| && 0 <= c < |mat[r]| && mat[r][c] != Count(0) &&
        d == Dir(Point(c - offset, r - offset), mat[r][c])
    decreases |mat| - y
  {
    if y < |mat| {
      RowDirsMembers(mat[y], y, offset, 0, d);
      MatDirsMembers(mat, offset, y + 1, d);
      assert MatDirs(mat, offset, y) == RowDirs(mat[y], y, offset, 0) + MatDirs(mat, offset, y + 1);
      if d in RowDirs(mat[y], y, offset, 0) {
        var c :| 0 <= c < |mat[y]| && mat[y][c] != Count(0) && d == Dir(Point(c - offset, y - offset), mat[y][c]);
        assert y <= y < |mat| && 0 <= c < |mat[y]|;
      }
      if exists r, c :: y <= r < |mat| && 0 <= c < |mat[r]| && mat[r][c] != Count(0) &&
           d == Dir(Point(c - offset, r - offset), mat[r][c]) {
        var r, c :| y <= r < |mat| && 0 <= c < |mat[r]| && mat[r][c] != Count(0) &&
          d == Dir(Point(c - offset, r - offset), mat[r][c]);
        if r == y {
          assert d in RowDirs(mat[y], y, offset, 0);
        } else {
          assert d in MatDirs(mat, offset, y + 1);
        }
      }
    }
  }

  /**
   * `makeDirPositionList` lists exactly the non-zero cells (row, col) of the
   * matrix, each as the offset (col - n/2, row - n/2) with the cell's count.
   */
  lemma MakeDirPositionListMembers(mat: seq<seq<Times>>, d: Dir)
    ensures d in MakeDirPositionList(mat) <==>
      exists r, c :: 0 <= r < |mat| && 0 <= c < |mat[r]| && mat[r][c] != Count(0) &&
        d == Dir(Point(c - |mat| / 2, r - |mat| / 2), mat[r][c])
  {
    if |mat| > 0 {
      MatDirsMembers(mat, |mat| / 2, 0, d);
    }
  }

  /** Gold and King have an empty promoted matrix, hence no promoted directions. */
  lemma NoPromotedDirs()
    ensures MovableDir(GoldGeneral, true) == []
    ensures MovableDir(King, true) == []
  {
  }

  /** The cell of one matrix row that `makeDirPositionList` keeps, if any. */
  function Kept(line: seq<Times>, y: int, offset: int, c: nat): seq<Dir>
    requires c < |line|
  {
    if line[c] != Count(0) then [Dir(Point(c - offset, y - offset), line[c])] else []
  }

  lemma Row3(line: seq<Times>, y: int, offset: int)
    requires |line| == 3
    ensures RowDirs(line, y, offset, 0) == Kept(line, y, offset, 0) + Kept(line, y, offset, 1) + Kept(line, y, offset, 2)
  {
    assert RowDirs(line, y, offset, 2) == Kept(line, y, offset, 2) + [];
  }

  lemma Row5(line: seq<Times>, y: int, offset: int)
    requires |line| == 5
    ensures RowDirs(line, y, offset, 0) ==
      Kept(line, y, offset, 0) + (Kept(line, y, offset, 1) + (Kept(line, y, offset, 2) + (Kept(line, y, offset, 3) + Kept(line, y, offset, 4))))
  {
    var k0, k1, k2 := Kept(line, y, offset, 0), Kept(line, y, offset, 1), Kept(line, y, offset, 2);
    var k3, k4 := Kept(line, y, offset, 3), Kept(line, y, offset, 4);
    assert RowDirs(line, y, offset, 4) == k4 + [];
    assert RowDirs(line, y, offset, 3) == k3 + k4;
    assert RowDirs(line, y, offset, 2) == k2 + (k3 + k4);
    assert RowDirs(line, y, offset, 1) == k1 + (k2 + (k3 + k4));
    assert RowDirs(line, y, offset, 0) == k0 + (k1 + (k2 + (k3 + k4)));
  }

  /** The normal Pawn moves one square forward and nothing else. */
  lemma PawnTable()
    ensures MovableDir(Pawn, false) == [Dir(Point(0, -1), Count(1))]
  {
    var m := MovedirMatrix(Pawn).0;
    Row3(m[0], 0, 1);
    Row3(m[1], 1, 1);
    Row3(m[2], 2, 1);
    assert MatDirs(m, 1, 2) == [] + [];
    assert MatDirs(m, 1, 1) == [] + ([] + []);
  }

  /** The normal Knight table: two squares forward or back, one sideways. */
  lemma KnightTable()
    ensures MovableDir(Knight, false) ==
      [Dir(Point(-1, -2), Count(1)), Dir(Point(1, -2), Count(1)),
       Dir(Point(-1, 2), Count(1)), Dir(Point(1, 2), Count(1))]
  {
    var m := MovedirMatrix(Knight).0;
    Row5(m[0], 0, 2);
    Row5(m[1], 1, 2);
    Row5(m[2], 2, 2);
    Row5(m[3], 3, 2);
    Row5(m[4], 4, 2);
    assert MatDirs(m, 2, 4) == [Dir(Point(-1, 2), Count(1)), Dir(Point(1, 2), Count(1))] + [];
    assert MatDirs(m, 2, 3) == [] + MatDirs(m, 2, 4);
    assert MatDirs(m, 2, 2) == [] + MatDirs(m, 2, 3);
    assert MatDirs(m, 2, 1) == [] + MatDirs(m, 2, 2);
  }

  /** The unpromoted Rook slides without bound along its rank and file. */
  lemma RookTable(d: Dir)
    ensures d in MovableDir(Rook, false) <==>
      d.times == Unbounded && Abs(d.dif.x) + Abs(d.dif.y) == 1
  {
    var m := MovedirMatrix(Rook).0;
    MakeDirPositionListMembers(m, d);
    if d.times == Unbounded && Abs(d.dif.x) + Abs(d.dif.y) == 1 {
      assert m[d.dif.y + 1][d.dif.x + 1] != Count(0);
    }
  }

  /** The promoted Rook keeps the slides and adds the four diagonal single steps. */
  lemma PromotedRookTable(d: Dir)
    ensures d in MovableDir(Rook, true) <==>
      (d.times == Unbounded && Abs(d.dif.x) + Abs(d.dif.y) == 1) ||
      (d.times == Count(1) && Abs(d.dif.x) == 1 && Abs(d.dif.y) == 1)
  {
    var m := MovedirMatrix(Rook).1;
    MakeDirPositionListMembers(m, d);
    if (d.times == Unbounded && Abs(d.dif.x) + Abs(d.dif.y) == 1) ||
       (d.times == Count(1) && Abs(d.dif.x) == 1 && Abs(d.dif.y) == 1) {
      assert m[d.dif.y + 1][d.dif.x + 1] != Count(0);
    }
  }
}
