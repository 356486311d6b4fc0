/**
 * The rule engine of src/library/shogi/shogi.ts on game values: which
 * squares a piece reaches, sliding collisions, the move and drop checks,
 * the self-check (neglected King) foul, applying a move or a drop, and
 * four-fold repetition.
 */
module Rules {
  import opened Util
  import opened Results
  import opened Grid
  import opened Pieces
  import opened GameState
  import Codec

  // ---------------------------------------------------------------------------
  // reachability masks (`isRestrictionPieceConstraits`)

  /** The 3x3 block around the origin, origin included. */
  predicate Box(dx: int, dy: int) {
    -1 <= dx <= 1 && -1 <= dy <= 1
  }

  /** The Gold General pattern: three squares ahead, both sides, one behind. */
  predicate GoldStep(dx: int, dy: int) {
    (dy == -1 && -1 <= dx <= 1) || (dy == 0 && (dx == -1 || dx == 1)) || (dy == 1 && dx == 0)
  }

  /** The Silver General pattern: three squares ahead, two diagonally behind. */
  predicate SilverStep(dx: int, dy: int) {
    (dy == -1 && -1 <= dx <= 1) || (dy == 1 && (dx == -1 || dx == 1))
  }

  /** Same file or same rank, origin excluded. */
  predicate RookLine(dx: int, dy: int) {
    (dx == 0 && dy != 0) || (dy == 0 && dx != 0)
  }

  /** On one of the two diagonals through the origin, origin included. */
  predicate Diagonal(dx: int, dy: int) {
    Abs(dx) == Abs(dy)
  }

  /** The mask computation throws for a promoted King or Gold General. */
  predicate MaskRaises(p: Piece) {
    p.promoted && (p.kind == King || p.kind == GoldGeneral)
  }

  /**
   * The mask seen from Black's side: square q is marked for a piece of kind
   * `kind` standing on `pos` (forward is towards row 0).
   */
  predicate BlackReach(kind: PieceType, promoted: bool, pos: Point, q: Point) {
    var dx := q.x - pos.x;
    var dy := q.y - pos.y;
    InBound(q) &&
    if promoted then
      match kind
      case Pawn => GoldStep(dx, dy)
      case Lance => GoldStep(dx, dy)
      case Knight => GoldStep(dx, dy)
      case SilverGeneral => GoldStep(dx, dy)
      case Rook => RookLine(dx, dy) || Box(dx, dy)
      case Bishop => Diagonal(dx, dy) || Box(dx, dy)
      case GoldGeneral => false
      case King => false
    else
      match kind
      case Pawn => dx == 0 && dy == -1
      case Lance => dx == 0 && dy < 0
      case Knight => (dx == -1 || dx == 1) && dy == -2
      case SilverGeneral => SilverStep(dx, dy)
      case GoldGeneral => GoldStep(dx, dy)
      case King => Box(dx, dy)
      case Rook => RookLine(dx, dy)
      case Bishop => Diagonal(dx, dy)
  }

  /**
   * `isRestrictionPieceConstraits(piece, pos).at(q)`: Black's mask as is,
   * White's computed at the turned position and turned back.
   */
  predicate Reach(p: Piece, pos: Point, q: Point)
    ensures Reach(p, pos, q) ==> InBound(q)
    ensures Reach(p, pos, q) && !p.promoted && (p.kind == Pawn || p.kind == Lance || p.kind == Knight) ==>
              if p.owner == Black then q.y < pos.y else q.y > pos.y
  {
    if p.owner == Black then BlackReach(p.kind, p.promoted, pos, q)
    else BlackReach(p.kind, p.promoted, ReversePosition(pos), ReversePosition(q))
  }

  /** The whole mask as a bit board. */
  function Mask(p: Piece, pos: Point): (r: seq<seq<bool>>)
    ensures IsGrid(r)
    ensures forall q :: InBound(q) ==> r[q.y][q.x] == Reach(p, pos, q)
  {
    seq(Height, y => seq(Width, x => Reach(p, pos, Point(x, y))))
  }

  // ---------------------------------------------------------------------------
  // sliding collisions (`isCollideWithOtherPieces`)

  /** A Bishop's move runs along a diagonal, or is a single step when promoted. */
  lemma BishopGeometry(p: Piece, from: Point, to: Point)
    requires p.kind == Bishop && Reach(p, from, to)
    ensures Abs(to.x - from.x) == Abs(to.y - from.y) || (p.promoted && Box(to.x - from.x, to.y - from.y))
  {
  }

  /** The square n steps from `from` in direction (sx, sy) holds a piece. */
  predicate OccupiedOnRay(board: Cells, from: Point, sx: int, sy: int, n: int)
    requires IsGrid(board)
    requires InBound(Point(from.x + sx * n, from.y + sy * n))
  {
    board[from.y + sy * n][from.x + sx * n].Some?
  }

  /**
   * Whether a piece sliding from `from` to `to` passes over another piece,
   * looked at in the board's own coordinates for both sides. `Raised` is the
   * `throw` a Bishop reaches on a step that is neither diagonal nor null.
   */
  function IsCollide(board: Cells, p: Piece, from: Point, to: Point): (r: Outcome<bool>)
    requires IsGrid(board) && InBound(from) && InBound(to) && Reach(p, from, to)
    ensures r.Raised? <==> p.kind == Bishop && from != to && (from.x == to.x || from.y == to.y)
    ensures r.Raised? ==> p.promoted && Abs(to.x - from.x) + Abs(to.y - from.y) == 1
    ensures p.kind != Lance && p.kind != Rook && p.kind != Bishop ==> r == Done(false)
  {
    match p.kind
    case King => Done(false)
    case GoldGeneral => Done(false)
    case Knight => Done(false)
    case Pawn => Done(false)
    case SilverGeneral => Done(false)
    case Lance =>
      if p.promoted then Done(false)
      else Done(exists y :: to.y + 1 <= y <= from.y - 1 && board[y][from.x].Some?)
    case Rook =>
      if from.x != to.x && from.y != to.y then Done(false)
      else if from.x == to.x then
        Done(exists y :: Min(from.y, to.y) + 1 <= y <= Max(from.y, to.y) - 1 && board[y][from.x].Some?)
      else
        Done(exists x :: Min(from.x, to.x) + 1 <= x <= Max(from.x, to.x) - 1 && board[from.y][x].Some?)
    case Bishop =>
      BishopGeometry(p, from, to);
      BishopCollide(board, from, to)
  }

  /** The Bishop case: the four diagonal walks, each stopping two squares short of `to`. */
  function BishopCollide(board: Cells, from: Point, to: Point): (r: Outcome<bool>)
    requires IsGrid(board) && InBound(from) && InBound(to)
    requires Diagonal(to.x - from.x, to.y - from.y) || Box(to.x - from.x, to.y - from.y)
    ensures r.Raised? <==> from != to && (from.x == to.x || from.y == to.y)
  {
    if from.x == to.x && from.y == to.y then Done(false)
    else if from.x < to.x && from.y < to.y then
      Done(exists n :: 1 <= n <= to.x - from.x - 2 && OccupiedOnRay(board, from, 1, 1, n))
    else if from.x < to.x && from.y > to.y then
      Done(exists n :: 1 <= n <= to.x - from.x - 2 && OccupiedOnRay(board, from, 1, -1, n))
    else if from.x > to.x && from.y < to.y then
      Done(exists n :: 1 <= n <= from.x - to.x - 2 && OccupiedOnRay(board, from, -1, 1, n))
    else if from.x > to.x && from.y > to.y then
      Done(exists n :: 1 <= n <= from.x - to.x - 2 && OccupiedOnRay(board, from, -1, -1, n))
    else Raised
  }

  /** q lies strictly between `from` and `to` on a shared file, rank or diagonal. */
  predicate StrictlyBetween(from: Point, to: Point, q: Point) {
    (from.x <= q.x <= to.x || to.x <= q.x <= from.x) && (from.y <= q.y <= to.y || to.y <= q.y <= from.y) &&
    q != from && q != to &&
    ((q.x == from.x && q.x == to.x) || (q.y == from.y && q.y == to.y) ||
     (q.x - from.x == q.y - from.y && to.x - q.x == to.y - q.y) ||
     (q.x - from.x == from.y - q.y && to.x - q.x == q.y - to.y))
  }

  /** q is on the board, strictly between `from` and `to`, and holds a piece. */
  predicate CollisionWitness(board: Cells, from: Point, to: Point, q: Point)
    requires IsGrid(board)
  {
    InBound(q) && StrictlyBetween(from, to, q) && board[q.y][q.x].Some?
  }

  /** A collision is only ever reported for a piece standing strictly between the two squares. */
  lemma CollisionBetween(board: Cells, p: Piece, from: Point, to: Point)
    requires IsGrid(board) && InBound(from) && InBound(to) && Reach(p, from, to)
    requires IsCollide(board, p, from, to) == Done(true)
    ensures exists q :: CollisionWitness(board, from, to, q)
  {
    if p.kind == Lance {
      assert from.x == to.x;
      var y :| to.y + 1 <= y <= from.y - 1 && board[y][from.x].Some?;
      assert CollisionWitness(board, from, to, Point(from.x, y));
    } else if p.kind == Rook && from.x == to.x {
      var y :| Min(from.y, to.y) + 1 <= y <= Max(from.y, to.y) - 1 && board[y][from.x].Some?;
      assert CollisionWitness(board, from, to, Point(from.x, y));
    } else if p.kind == Rook {
      var x :| Min(from.x, to.x) + 1 <= x <= Max(from.x, to.x) - 1 && board[from.y][x].Some?;
      assert CollisionWitness(board, from, to, Point(x, from.y));
    } else {
      BishopGeometry(p, from, to);
      BishopCollisionBetween(board, from, to);
      var q :| BishopWitness(board, from, to, q);
      assert CollisionWitness(board, from, to, q);
    }
  }

  /** The square one diagonal step short of `to`, coming from `from`. */
  function SquareBefore(from: Point, to: Point): Point {
    Point(if from.x < to.x then to.x - 1 else to.x + 1, if from.y < to.y then to.y - 1 else to.y + 1)
  }

  /** A piece strictly between `from` and `to` that the Bishop's walk looks at: any but the last one. */
  predicate BishopWitness(board: Cells, from: Point, to: Point, q: Point)
    requires IsGrid(board)
  {
    CollisionWitness(board, from, to, q) && q != SquareBefore(from, to)
  }

  /** A Rook collides exactly when some square strictly between `from` and `to` holds a piece. */
  lemma RookCollides(board: Cells, p: Piece, from: Point, to: Point)
    requires IsGrid(board) && InBound(from) && InBound(to) && Reach(p, from, to) && p.kind == Rook
    ensures IsCollide(board, p, from, to) == Done(exists q :: CollisionWitness(board, from, to, q))
  {
    if IsCollide(board, p, from, to) == Done(true) {
      CollisionBetween(board, p, from, to);
    }
    if exists q :: CollisionWitness(board, from, to, q) {
      var q :| CollisionWitness(board, from, to, q);
      if from.x == to.x {
        assert q.x == from.x && Min(from.y, to.y) + 1 <= q.y <= Max(from.y, to.y) - 1;
      } else if from.y == to.y {
        assert q.y == from.y && Min(from.x, to.x) + 1 <= q.x <= Max(from.x, to.x) - 1;
      } else {
        assert false;
      }
    }
  }

  /**
   * When its path check does not throw, a Bishop collides exactly when a
   * square strictly between `from` and `to`, other than the one just
   * before `to`, holds a piece.
   */
  lemma BishopCollides(board: Cells, p: Piece, from: Point, to: Point)
    requires IsGrid(board) && InBound(from) && InBound(to) && Reach(p, from, to) && p.kind == Bishop
    requires IsCollide(board, p, from, to).Done?
    ensures IsCollide(board, p, from, to).value <==> exists q :: BishopWitness(board, from, to, q)
  {
    BishopGeometry(p, from, to);
    BishopCollisionBetween(board, from, to);
  }

  lemma BishopCollisionBetween(board: Cells, from: Point, to: Point)
    requires IsGrid(board) && InBound(from) && InBound(to)
    requires Diagonal(to.x - from.x, to.y - from.y) || Box(to.x - from.x, to.y - from.y)
    requires BishopCollide(board, from, to).Done?
    ensures BishopCollide(board, from, to).value <==> exists q :: BishopWitness(board, from, to, q)
  {
    if from.x < to.x && from.y < to.y {
      BishopDownRight(board, from, to);
    } else if from.x < to.x && from.y > to.y {
      BishopUpRight(board, from, to);
    } else if from.x > to.x && from.y < to.y {
      BishopDownLeft(board, from, to);
    } else if from.x > to.x && from.y > to.y {
      BishopUpLeft(board, from, to);
    } else {
      assert from == to;
      assert forall q :: !StrictlyBetween(from, to, q);
    }
  }

  /** Walking down and right: the walk finds a piece iff a Bishop witness exists. */
  lemma BishopDownRight(board: Cells, from: Point, to: Point)
    requires IsGrid(board) && InBound(from) && InBound(to) && from.x < to.x && from.y < to.y
    requires Diagonal(to.x - from.x, to.y - from.y)
    ensures (exists n :: 1 <= n <= to.x - from.x - 2 && OccupiedOnRay(board, from, 1, 1, n)) <==>
              exists q :: BishopWitness(board, from, to, q)
  {
    if exists n :: 1 <= n <= to.x - from.x - 2 && OccupiedOnRay(board, from, 1, 1, n) {
      var n :| 1 <= n <= to.x - from.x - 2 && OccupiedOnRay(board, from, 1, 1, n);
      BishopDownRightRay(board, from, to, n);
    }
    if exists q :: BishopWitness(board, from, to, q) {
      var q :| BishopWitness(board, from, to, q);
      BishopDownRightBack(board, from, to, q);
    }
  }

  lemma BishopDownRightRay(board: Cells, from: Point, to: Point, n: int)
    requires IsGrid(board) && InBound(from) && InBound(to) && from.x < to.x && from.y < to.y
    requires Diagonal(to.x - from.x, to.y - from.y)
    requires 1 <= n <= to.x - from.x - 2 && OccupiedOnRay(board, from, 1, 1, n)
    ensures BishopWitness(board, from, to, Point(from.x + n, from.y + n))
  {
  }

  lemma BishopDownRightBack(board: Cells, from: Point, to: Point, q: Point)
    requires IsGrid(board) && InBound(from) && InBound(to) && from.x < to.x && from.y < to.y
    requires Diagonal(to.x - from.x, to.y - from.y)
    requires BishopWitness(board, from, to, q)
    ensures 1 <= q.x - from.x <= to.x - from.x - 2 && OccupiedOnRay(board, from, 1, 1, q.x - from.x)
  {
    var n := q.x - from.x;
    assert Point(from.x + n, from.y + n) == q;
  }

  /** Walking up and right: the walk finds a piece iff a Bishop witness exists. */
  lemma BishopUpRight(board: Cells, from: Point, to: Point)
    requires IsGrid(board) && InBound(from) && InBound(to) && from.x < to.x && from.y > to.y
    requires Diagonal(to.x - from.x, to.y - from.y)
    ensures (exists n :: 1 <= n <= to.x - from.x - 2 && OccupiedOnRay(board, from, 1, -1, n)) <==>
              exists q :: BishopWitness(board, from, to, q)
  {
    if exists n :: 1 <= n <= to.x - from.x - 2 && OccupiedOnRay(board, from, 1, -1, n) {
      var n :| 1 <= n <= to.x - from.x - 2 && OccupiedOnRay(board, from, 1, -1, n);
      BishopUpRightRay(board, from, to, n);
    }
    if exists q :: BishopWitness(board, from, to, q) {
      var q :| BishopWitness(board, from, to, q);
      BishopUpRightBack(board, from, to, q);
    }
  }

  lemma BishopUpRightRay(board: Cells, from: Point, to: Point, n: int)
    requires IsGrid(board) && InBound(from) && InBound(to) && from.x < to.x && from.y > to.y
    requires Diagonal(to.x - from.x, to.y - from.y)
    requires 1 <= n <= to.x - from.x - 2 && OccupiedOnRay(board, from, 1, -1, n)
    ensures BishopWitness(board, from, to, Point(from.x + n, from.y - n))
  {
  }

  lemma BishopUpRightBack(board: Cells, from: Point, to: Point, q: Point)
    requires IsGrid(board) && InBound(from) && InBound(to) && from.x < to.x && from.y > to.y
    requires Diagonal(to.x - from.x, to.y - from.y)
    requires BishopWitness(board, from, to, q)
    ensures 1 <= q.x - from.x <= to.x - from.x - 2 && OccupiedOnRay(board, from, 1, -1, q.x - from.x)
  {
    var n := q.x - from.x;
    assert Point(from.x + n, from.y - n) == q;
  }

  /** Walking down and left: the walk finds a piece iff a Bishop witness exists. */
  lemma BishopDownLeft(board: Cells, from: Point, to: Point)
    requires IsGrid(board) && InBound(from) && InBound(to) && from.x > to.x && from.y < to.y
    requires Diagonal(to.x - from.x, to.y - from.y)
    ensures (exists n :: 1 <= n <= from.x - to.x - 2 && OccupiedOnRay(board, from, -1, 1, n)) <==>
              exists q :: BishopWitness(board, from, to, q)
  {
    if exists n :: 1 <= n <= from.x - to.x - 2 && OccupiedOnRay(board, from, -1, 1, n) {
      var n :| 1 <= n <= from.x - to.x - 2 && OccupiedOnRay(board, from, -1, 1, n);
      BishopDownLeftRay(board, from, to, n);
    }
    if exists q :: BishopWitness(board, from, to, q) {
      var q :| BishopWitness(board, from, to, q);
      BishopDownLeftBack(board, from, to, q);
    }
  }

  lemma BishopDownLeftRay(board: Cells, from: Point, to: Point, n: int)
    requires IsGrid(board) && InBound(from) && InBound(to) && from.x > to.x && from.y < to.y
    requires Diagonal(to.x - from.x, to.y - from.y)
    requires 1 <= n <= from.x - to.x - 2 && OccupiedOnRay(board, from, -1, 1, n)
    ensures BishopWitness(board, from, to, Point(from.x - n, from.y + n))
  {
  }

  lemma BishopDownLeftBack(board: Cells, from: Point, to: Point, q: Point)
    requires IsGrid(board) && InBound(from) && InBound(to) && from.x > to.x && from.y < to.y
    requires Diagonal(to.x - from.x, to.y - from.y)
    requires BishopWitness(board, from, to, q)
    ensures 1 <= from.x - q.x <= from.x - to.x - 2 && OccupiedOnRay(board, from, -1, 1, from.x - q.x)
  {
    var n := from.x - q.x;
    assert Point(from.x - n, from.y + n) == q;
  }

  /** Walking up and left: the walk finds a piece iff a Bishop witness exists. */
  lemma BishopUpLeft(board: Cells, from: Point, to: Point)
    requires IsGrid(board) && InBound(from) && InBound(to) && from.x > to.x && from.y > to.y
    requires Diagonal(to.x - from.x, to.y - from.y)
    ensures (exists n :: 1 <= n <= from.x - to.x - 2 && OccupiedOnRay(board, from, -1, -1, n)) <==>
              exists q :: BishopWitness(board, from, to, q)
  {
    if exists n :: 1 <= n <= from.x - to.x - 2 && OccupiedOnRay(board, from, -1, -1, n) {
      var n :| 1 <= n <= from.x - to.x - 2 && OccupiedOnRay(board, from, -1, -1, n);
      BishopUpLeftRay(board, from, to, n);
    }
    if exists q :: BishopWitness(board, from, to, q) {
      var q :| BishopWitness(board, from, to, q);
      BishopUpLeftBack(board, from, to, q);
    }
  }

  lemma BishopUpLeftRay(board: Cells, from: Point, to: Point, n: int)
    requires IsGrid(board) && InBound(from) && InBound(to) && from.x > to.x && from.y > to.y
    requires Diagonal(to.x - from.x, to.y - from.y)
    requires 1 <= n <= from.x - to.x - 2 && OccupiedOnRay(board, from, -1, -1, n)
    ensures BishopWitness(board, from, to, Point(from.x - n, from.y - n))
  {
  }

  lemma BishopUpLeftBack(board: Cells, from: Point, to: Point, q: Point)
    requires IsGrid(board) && InBound(from) && InBound(to) && from.x > to.x && from.y > to.y
    requires Diagonal(to.x - from.x, to.y - from.y)
    requires BishopWitness(board, from, to, q)
    ensures 1 <= from.x - q.x <= from.x - to.x - 2 && OccupiedOnRay(board, from, -1, -1, from.x - q.x)
  {
    var n := from.x - q.x;
    assert Point(from.x - n, from.y - n) == q;
  }

  // ---------------------------------------------------------------------------
  // the move check (`checkCanMove` without the foul part)

  function PieceAt(g: Game, p: Point): Option<Piece>
    requires ValidGame(g) && InBound(p)
  {
    g.board[p.y][p.x]
  }

  /**
   * The checks of `checkCanMove` in source order, up to the promotion
   * checks: the answer when `skipFoul` is set.
   */
  function CheckMoveRules(g: Game, from: Point, to: Point, doPromote: bool): (r: Answer)
    requires ValidGame(g)
    ensures !InBound(from) || !InBound(to) ==> r == MoveError(NoPieceError)
    ensures InBound(from) && InBound(to) && (PieceAt(g, from).None? || PieceAt(g, from).value.owner != g.turn) ==>
              r == MoveError(NoPieceError)
    ensures r == Ok ==>
              InBound(from) && InBound(to) && from != to &&
              PieceAt(g, from).Some? && PieceAt(g, from).value.owner == g.turn &&
              Reach(PieceAt(g, from).value, from, to) &&
              IsCollide(g.board, PieceAt(g, from).value, from, to) == Done(false) &&
              (PieceAt(g, to).None? || PieceAt(g, to).value.owner != g.turn) &&
              (doPromote ==> !PieceAt(g, from).value.promoted && CanPromote(PieceAt(g, from).value.kind))
    ensures r == Thrown <==>
              InBound(from) && InBound(to) && PieceAt(g, from).Some? && PieceAt(g, from).value.owner == g.turn &&
              (MaskRaises(PieceAt(g, from).value) ||
               (Reach(PieceAt(g, from).value, from, to) && IsCollide(g.board, PieceAt(g, from).value, from, to).Raised?))
    ensures r.MoveError? ==> r.reason in {NoPieceError, CantMoveError, CantPromoteError}
    ensures r.PutError? ==> false
  {
    if !InBound(from) || !InBound(to) then MoveError(NoPieceError)
    else
      var taken := g.board[to.y][to.x];
      var moved := g.board[from.y][from.x];
      if moved.None? then MoveError(NoPieceError)
      else if moved.value.owner != g.turn then MoveError(NoPieceError)
      else if MaskRaises(moved.value) then Thrown
      else if !Reach(moved.value, from, to) then MoveError(CantMoveError)
      else match IsCollide(g.board, moved.value, from, to)
        case Raised => Thrown
        case Done(collides) =>
          if collides then MoveError(CantMoveError)
          else if taken.Some? && taken.value.owner == g.turn then MoveError(CantMoveError)
          else if moved.value.promoted && doPromote then MoveError(CantPromoteError)
          else if doPromote && !CanPromote(moved.value.kind) then MoveError(CantPromoteError)
          else Ok
  }

  // ---------------------------------------------------------------------------
  // applying a move (`move` once the check passed)

  /** The captured piece as it enters the capturer's hand. */
  function Captured(taken: Piece, capturer: Player): (r: Piece)
    ensures r.kind == taken.kind && r.owner == capturer && !r.promoted
  {
    taken.(owner := capturer, promoted := false)
  }

  /**
   * The state after moving the piece on `from` to `to`: promote it if asked,
   * put a captured piece into the mover's hand, log the move with the
   * position string taken before the turn passes, and pass the turn.
   */
  function ApplyMove(g: Game, from: Point, to: Point, doPromote: bool): (r: Game)
    requires ValidGame(g) && InBound(from) && InBound(to) && from != to && PieceAt(g, from).Some?
    ensures ValidGame(r)
  {
    var moved := g.board[from.y][from.x].value;
    var taken := g.board[to.y][to.x];
    var placed := if doPromote then moved.(promoted := true) else moved;
    var hand := if taken.Some? then g.hand.With(g.turn, g.hand.Of(g.turn) + [Captured(taken.value, g.turn)]) else g.hand;
    var board := Assign(Assign(g.board, to, Some(placed)), from, None);
    var entry := MoveLog(g.turn, to, moved.kind, doPromote, Some(from), placed.promoted || doPromote,
                         Codec.Encode(board, hand, g.turn));
    Game(board, hand, Opponent(g.turn), g.score + [entry])
  }

  // ---------------------------------------------------------------------------
  // the self-check foul (`checkNeglectKing`)

  /** Matches the King of `side`. */
  function KingOf(side: Player): (Option<Piece>, Point) -> bool {
    (c: Option<Piece>, _: Point) => c.Some? && c.value.owner == side && c.value.kind == King
  }

  /**
   * Some square makes the move check throw for the piece on `pp`: computing
   * that piece's reachable area (`findReachedArea`) throws.
   */
  predicate AreaRaises(g: Game, pp: Point)
    requires ValidGame(g)
  {
    exists y, x :: 0 <= y < Height && 0 <= x < Width && CheckMoveRules(g, pp, Point(x, y), false) == Thrown
  }

  /** The cell numbered j holds a piece of `attacker` that may move onto `k`. */
  predicate Attacks(g: Game, attacker: Player, k: Point, j: int)
    requires ValidGame(g) && 0 <= j < Width * Height
  {
    var pp := PointOf(j);
    g.board[pp.y][pp.x].Some? && g.board[pp.y][pp.x].value.owner == attacker &&
    CheckMoveRules(g, pp, k, false) == Ok
  }

  /**
   * The cell numbered j holds a piece of `attacker` whose reachable area
   * throws: it is not that side's turn, or some move check throws.
   */
  predicate ThrowsAt(g: Game, attacker: Player, j: int)
    requires ValidGame(g) && 0 <= j < Width * Height
  {
    var pp := PointOf(j);
    g.board[pp.y][pp.x].Some? && g.board[pp.y][pp.x].value.owner == attacker &&
    (attacker != g.turn || AreaRaises(g, pp))
  }

  /**
   * `matSome` over the cells numbered j and later: for each piece of
   * `attacker`, its reachable area is computed (which throws when the piece
   * does not belong to the side to move, or when a move check throws) and
   * evaluated at the King's square `k`.
   */
  function AttackScan(g: Game, attacker: Player, k: Point, j: nat): (r: Outcome<bool>)
    requires ValidGame(g) && InBound(k) && j <= Width * Height
    ensures r.Raised? ==> exists i :: j <= i < Width * Height && ThrowsAt(g, attacker, i)
    decreases Width * Height - j
  {
    if j == Width * Height then Done(false)
    else
      var pp := PointOf(j);
      var c := g.board[pp.y][pp.x];
      if c.Some? && c.value.owner == attacker then
        if attacker != g.turn || AreaRaises(g, pp) then assert ThrowsAt(g, attacker, j); Raised
        else if Attacks(g, attacker, k, j) then Done(true)
        else AttackScan(g, attacker, k, j + 1)
      else AttackScan(g, attacker, k, j + 1)
  }

  /**
   * `checkNeglectKing(next, attacker)`: some piece of `attacker` may take the
   * other side's King. Throws when that King is not on the board.
   */
  function NeglectKing(next: Game, attacker: Player): (r: Outcome<bool>)
    requires ValidGame(next)
    ensures FindIndex(next.board, KingOf(Opponent(attacker))).None? ==> r == Raised
    ensures r.Done? ==> (r.value <==> KingAttacked(next, attacker))
  {
    match FindIndex(next.board, KingOf(Opponent(attacker)))
    case None => Raised
    case Some(k) =>
      FindIndexFirst(next.board, KingOf(Opponent(attacker)));
      AttackScanSound(next, attacker, k, 0);
      AttackScan(next, attacker, k, 0)
  }

  /** When the scan finishes, it answers whether some later cell attacks `k`. */
  lemma {:induction false} AttackScanSound(g: Game, attacker: Player, k: Point, j: nat)
    requires ValidGame(g) && InBound(k) && j <= Width * Height
    ensures AttackScan(g, attacker, k, j).Done? ==>
              (AttackScan(g, attacker, k, j).value <==> exists i :: j <= i < Width * Height && Attacks(g, attacker, k, i))
    decreases Width * Height - j
  {
    if j < Width * Height {
      AttackScanStep(g, attacker, k, j);
      AttackScanSound(g, attacker, k, j + 1);
      AttacksFrom(g, attacker, k, j);
    }
  }

  /** One step of the scan: it throws, finds an attacker at j, or passes j by. */
  lemma AttackScanStep(g: Game, attacker: Player, k: Point, j: nat)
    requires ValidGame(g) && InBound(k) && j < Width * Height
    ensures AttackScan(g, attacker, k, j).Raised? ||
            (Attacks(g, attacker, k, j) && AttackScan(g, attacker, k, j) == Done(true)) ||
            (!Attacks(g, attacker, k, j) && AttackScan(g, attacker, k, j) == AttackScan(g, attacker, k, j + 1))
    ensures attacker == g.turn && !AreaRaises(g, PointOf(j)) ==>
              AttackScan(g, attacker, k, j) == Done(true) || AttackScan(g, attacker, k, j) == AttackScan(g, attacker, k, j + 1)
  {
  }

  /** Some cell from j on attacks `k` iff cell j does or some cell after it does. */
  lemma AttacksFrom(g: Game, attacker: Player, k: Point, j: nat)
    requires ValidGame(g) && InBound(k) && j < Width * Height
    ensures (exists i :: j <= i < Width * Height && Attacks(g, attacker, k, i)) <==>
            Attacks(g, attacker, k, j) || exists i :: j + 1 <= i < Width * Height && Attacks(g, attacker, k, i)
  {
  }

  /** The scan only throws at a piece of `attacker`, never for a board it can walk. */
  lemma {:induction false} AttackScanRaises(g: Game, attacker: Player, k: Point, j: nat)
    requires ValidGame(g) && InBound(k) && j <= Width * Height
    requires attacker == g.turn
    requires forall i :: j <= i < Width * Height ==> !AreaRaises(g, PointOf(i))
    ensures AttackScan(g, attacker, k, j).Done?
    decreases Width * Height - j
  {
    if j < Width * Height {
      AttackScanStep(g, attacker, k, j);
      AttackScanRaises(g, attacker, k, j + 1);
    }
  }

  /** The King `attacker` threatens, once the move has been made. */
  predicate KingAttacked(next: Game, attacker: Player)
    requires ValidGame(next)
  {
    var k := FindIndex(next.board, KingOf(Opponent(attacker)));
    k.Some? && (FindIndexFirst(next.board, KingOf(Opponent(attacker)));
    exists i :: 0 <= i < Width * Height && Attacks(next, attacker, k.value, i))
  }

  // ---------------------------------------------------------------------------
  // the full move check (`checkCanMove`)

  /**
   * `checkCanMove(from, to, doPromote, skipFoul)`: the rule checks, then,
   * unless `skipFoul`, the self-check foul on a copy with the move made.
   */
  function CheckCanMove(g: Game, from: Point, to: Point, doPromote: bool, skipFoul: bool): (r: Answer)
    requires ValidGame(g)
    ensures CheckMoveRules(g, from, to, doPromote) != Ok ==> r == CheckMoveRules(g, from, to, doPromote)
    ensures skipFoul ==> r == CheckMoveRules(g, from, to, doPromote)
    ensures r == Ok ==> CheckMoveRules(g, from, to, doPromote) == Ok
    ensures r == MoveError(NeglectKingError) ==> !skipFoul
  {
    var rules := CheckMoveRules(g, from, to, doPromote);
    if rules != Ok || skipFoul then rules
    else match NeglectKing(ApplyMove(g, from, to, doPromote), Opponent(g.turn))
      case Raised => Thrown
      case Done(attacked) => if attacked then MoveError(NeglectKingError) else Ok
  }

  /**
   * Unless `skipFoul`, a move that passes the rule checks is rejected as a
   * neglected King exactly when, with the move made, some opponent piece may
   * take the mover's King (whenever the foul check does not throw).
   */
  lemma SelfCheckFoul(g: Game, from: Point, to: Point, doPromote: bool)
    requires ValidGame(g)
    requires CheckMoveRules(g, from, to, doPromote) == Ok
    requires NeglectKing(ApplyMove(g, from, to, doPromote), Opponent(g.turn)).Done?
    ensures CheckCanMove(g, from, to, doPromote, false) == MoveError(NeglectKingError) <==>
              KingAttacked(ApplyMove(g, from, to, doPromote), Opponent(g.turn))
    ensures CheckCanMove(g, from, to, doPromote, false) == Ok <==>
              !KingAttacked(ApplyMove(g, from, to, doPromote), Opponent(g.turn))
  {
  }

  // ---------------------------------------------------------------------------
  // drops (`checkCanPlaceHandPiece` / `placeHandPiece`)

  /** A Pawn or Lance on the far rank, or a Knight on the last two ranks, could never move. */
  predicate Immobile(piece: Piece, pos: Point) {
    (piece.kind == Pawn && pos.y == LookY(piece, 0)) ||
    (piece.kind == Lance && pos.y == LookY(piece, 0)) ||
    (piece.kind == Knight && (pos.y == LookY(piece, 0) || pos.y == LookY(piece, 1)))
  }

  /**
   * An unpromoted piece is immobile on its square exactly when its mask
   * there is empty: the check names precisely the squares the piece could
   * never leave.
   */
  lemma ImmobileMeansStuck(piece: Piece, pos: Point)
    requires InBound(pos) && !piece.promoted
    ensures Immobile(piece, pos) <==> forall q :: !Reach(piece, pos, q)
  {
    var bp := if piece.owner == Black then pos else ReversePosition(pos);
    assert bp.y == LookY(piece, pos.y);
    ReversePositionInvolution(pos);
    if !Immobile(piece, pos) {
      var side := Point(if bp.x < Width - 1 then bp.x + 1 else bp.x - 1, bp.y);
      var bq :=
        match piece.kind
        case Pawn => Point(bp.x, bp.y - 1)
        case Lance => Point(bp.x, bp.y - 1)
        case Knight => Point(side.x, bp.y - 2)
        case SilverGeneral => if bp.y > 0 then Point(bp.x, bp.y - 1) else Point(side.x, bp.y + 1)
        case GoldGeneral => side
        case Rook => side
        case King => bp
        case Bishop => bp;
      assert BlackReach(piece.kind, false, bp, bq);
      var q := if piece.owner == Black then bq else ReversePosition(bq);
      ReversePositionInvolution(bq);
      assert Reach(piece, pos, q);
    }
  }

  /** The striking foul: a Pawn dropped on the square below (row y+1 of) the other side's King. */
  predicate Strikes(g: Game, piece: Piece, pos: Point)
    requires ValidGame(g) && InBound(pos)
  {
    piece.kind == Pawn && pos.y != 0 &&
    var front := g.board[pos.y - 1][pos.x];
    front.Some? && front.value.kind == King && front.value.owner != g.turn
  }

  /** 1 when the cell holds a Pawn of `owner`, promoted or not. */
  function PawnMark(c: Option<Piece>, owner: Player): nat {
    if c.Some? && c.value.owner == owner && c.value.kind == Pawn then 1 else 0
  }

  /** The `reduce` over the first n rows counting `owner`'s Pawns in file x. */
  function PawnsInRows(board: Cells, x: int, owner: Player, n: nat): nat
    requires IsGrid(board) && 0 <= x < Width && n <= Height
  {
    if n == 0 then 0 else PawnsInRows(board, x, owner, n - 1) + PawnMark(board[n - 1][x], owner)
  }

  function PawnsOnFile(board: Cells, x: int, owner: Player): (r: nat)
    requires IsGrid(board) && 0 <= x < Width
    ensures r == |PawnRows(board, x, owner, Height)|
  {
    PawnsInRowsCount(board, x, owner, Height);
    PawnsInRows(board, x, owner, Height)
  }

  /** The rows among the first n of file x holding a Pawn of `owner`. */
  ghost function PawnRows(board: Cells, x: int, owner: Player, n: nat): set<int>
    requires IsGrid(board) && 0 <= x < Width && n <= Height
  {
    if n == 0 then {}
    else PawnRows(board, x, owner, n - 1) + (if PawnMark(board[n - 1][x], owner) == 1 then {n - 1} else {})
  }

  lemma {:induction false} PawnRowsMembers(board: Cells, x: int, owner: Player, n: nat, y: int)
    requires IsGrid(board) && 0 <= x < Width && n <= Height
    ensures y in PawnRows(board, x, owner, n) <==> 0 <= y < n && PawnMark(board[y][x], owner) == 1
  {
    if n > 0 {
      PawnRowsMembers(board, x, owner, n - 1, y);
    }
  }

  lemma {:induction false} PawnsInRowsCount(board: Cells, x: int, owner: Player, n: nat)
    requires IsGrid(board) && 0 <= x < Width && n <= Height
    ensures PawnsInRows(board, x, owner, n) == |PawnRows(board, x, owner, n)|
  {
    if n > 0 {
      PawnsInRowsCount(board, x, owner, n - 1);
      PawnRowsMembers(board, x, owner, n - 1, n - 1);
      var prev := PawnRows(board, x, owner, n - 1);
      var m := PawnMark(board[n - 1][x], owner);
      assert PawnRows(board, x, owner, n) == prev + (if m == 1 then {n - 1} else {});
      assert |prev + (if m == 1 then {n - 1} else {})| == |prev| + m;
    }
  }

  /** Removing one entry from a hand (`filter(p => p !== piece)` for the piece at index i). */
  function RemoveAt(s: seq<Piece>, i: int): (r: seq<Piece>)
    requires 0 <= i < |s|
    ensures |r| == |s| - 1
    ensures multiset(r) + multiset{s[i]} == multiset(s)
  {
    assert s == s[..i] + [s[i]] + s[i + 1..];
    s[..i] + s[i + 1..]
  }

  /**
   * The state after dropping hand piece i of the side to move on `pos`:
   * the piece leaves the hand, the drop is logged, the turn passes.
   */
  function ApplyDrop(g: Game, i: int, pos: Point): (r: Game)
    requires ValidGame(g) && InBound(pos) && 0 <= i < |g.hand.Of(g.turn)|
    ensures ValidGame(r)
  {
    var piece := g.hand.Of(g.turn)[i];
    var board := Assign(g.board, pos, Some(piece));
    var hand := g.hand.With(g.turn, RemoveAt(g.hand.Of(g.turn), i));
    var entry := MoveLog(g.turn, pos, piece.kind, false, None, false, Codec.Encode(board, hand, g.turn));
    Game(board, hand, Opponent(g.turn), g.score + [entry])
  }

  /**
   * `checkCanPlaceHandPiece(piece, pos, skipFoul)` for the piece at index i
   * of the mover's hand; an index outside the hand is a piece not in it.
   */
  function CheckCanPlace(g: Game, i: int, pos: Point, skipFoul: bool): (r: Answer)
    requires ValidGame(g)
    ensures !InBound(pos) ==> r == PutError(BoundError)
    ensures InBound(pos) && !(0 <= i < |g.hand.Of(g.turn)|) ==> r == PutError(NoPieceError)
    ensures r == Ok ==>
              InBound(pos) && 0 <= i < |g.hand.Of(g.turn)| && g.hand.Of(g.turn)[i].owner == g.turn &&
              PieceAt(g, pos).None? && !Immobile(g.hand.Of(g.turn)[i], pos)
    ensures r == PutError(StrikingError) ==> !skipFoul && Strikes(g, g.hand.Of(g.turn)[i], pos)
    ensures (InBound(pos) && 0 <= i < |g.hand.Of(g.turn)| && g.hand.Of(g.turn)[i].owner == g.turn &&
             PieceAt(g, pos).None? && !Immobile(g.hand.Of(g.turn)[i], pos) && !skipFoul &&
             Strikes(g, g.hand.Of(g.turn)[i], pos)) ==> r == PutError(StrikingError)
    ensures r == PutError(DoublePawnError) ==>
              !skipFoul && !Strikes(g, g.hand.Of(g.turn)[i], pos) &&
              PawnsOnFile(g.board, pos.x, g.hand.Of(g.turn)[i].owner) == 2
    ensures r.MoveError? ==> false
  {
    if !InBound(pos) then PutError(BoundError)
    else if !(0 <= i < |g.hand.Of(g.turn)|) then PutError(NoPieceError)
    else
      var piece := g.hand.Of(g.turn)[i];
      if piece.owner != g.turn then PutError(NoPieceError)
      else if g.board[pos.y][pos.x].Some? then PutError(DuplicateError)
      else if Immobile(piece, pos) then PutError(CantMoveError)
      else if skipFoul then Ok
      else if Strikes(g, piece, pos) then PutError(StrikingError)
      else if PawnsOnFile(g.board, pos.x, piece.owner) == 2 then PutError(DoublePawnError)
      else match NeglectKing(ApplyDrop(g, i, pos), Opponent(g.turn))
        case Raised => Thrown
        case Done(attacked) => if attacked then PutError(NeglectKingError) else Ok
  }

  /**
   * Unless `skipFoul`, a drop that passes the earlier checks is rejected as a
   * neglected King exactly when, with the piece dropped, some opponent piece
   * may take the dropper's King (whenever the foul check does not throw).
   */
  lemma DropSelfCheckFoul(g: Game, i: int, pos: Point)
    requires ValidGame(g) && InBound(pos) && 0 <= i < |g.hand.Of(g.turn)|
    requires g.hand.Of(g.turn)[i].owner == g.turn && PieceAt(g, pos).None?
    requires !Immobile(g.hand.Of(g.turn)[i], pos) && !Strikes(g, g.hand.Of(g.turn)[i], pos)
    requires PawnsOnFile(g.board, pos.x, g.turn) != 2
    requires NeglectKing(ApplyDrop(g, i, pos), Opponent(g.turn)).Done?
    ensures CheckCanPlace(g, i, pos, false) == PutError(NeglectKingError) <==>
              KingAttacked(ApplyDrop(g, i, pos), Opponent(g.turn))
    ensures CheckCanPlace(g, i, pos, false) == Ok <==>
              !KingAttacked(ApplyDrop(g, i, pos), Opponent(g.turn))
  {
  }

  // ---------------------------------------------------------------------------
  // four-fold repetition (`checkThousandDays`)

  /** The `reduce` counting the log entries whose id is `id`. */
  function CountId(score: seq<MoveLog>, id: string): (n: nat)
    ensures n <= |score|
  {
    if |score| == 0 then 0
    else CountId(score[..|score| - 1], id) + (if score[|score| - 1].id == id then 1 else 0)
  }

  function Ids(score: seq<MoveLog>): (r: seq<string>)
    ensures |r| == |score|
  {
    seq(|score|, i requires 0 <= i < |score| => score[i].id)
  }

  lemma {:induction false} CountIdOccurrences(score: seq<MoveLog>, id: string)
    ensures CountId(score, id) == multiset(Ids(score))[id]
  {
    if |score| > 0 {
      var front := score[..|score| - 1];
      CountIdOccurrences(front, id);
      assert Ids(score) == Ids(front) + [score[|score| - 1].id];
    }
  }

  /**
   * `checkThousandDays`: at least four entries before the last carry the
   * last entry's position id. Reading the last entry of an empty log throws.
   */
  function ThousandDays(score: seq<MoveLog>): (r: Outcome<bool>)
    ensures r.Raised? <==> |score| == 0
    ensures r == Done(true) ==> |score| >= 5
  {
    if |score| == 0 then Raised
    else Done(CountId(score[..|score| - 1], score[|score| - 1].id) >= 4)
  }

  /** Repetition holds exactly when the last position id occurs at least five times in the log. */
  lemma ThousandDaysOccurrences(score: seq<MoveLog>)
    ensures |score| > 0 ==>
              (ThousandDays(score).value <==> multiset(Ids(score))[score[|score| - 1].id] >= 5)
  {
    if |score| > 0 {
      var last := score[|score| - 1].id;
      CountIdOccurrences(score, last);
    }
  }
}
