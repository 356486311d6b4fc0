/**
 * What the rule engine of src/library/shogi/shogi.ts guarantees, and the
 * places where it behaves unexpectedly, stated over the definitions in
 * Rules.
 */
module RuleFacts {
  import opened Util
  import opened Results
  import opened Grid
  import opened Pieces
  import opened GameState
  import opened Rules
  import Codec

  // ---------------------------------------------------------------------------
  // masks

  /** A Black Pawn reaches only the square straight ahead of it. */
  lemma BlackPawnMask(pos: Point, q: Point)
    requires InBound(pos)
    ensures Reach(Piece(Pawn, Black, false), pos, q) <==> InBound(q) && q == Point(pos.x, pos.y - 1)
  {
  }

  /** A Black Knight reaches the two squares two ahead and one aside. */
  lemma BlackKnightMask(pos: Point, q: Point)
    requires InBound(pos)
    ensures Reach(Piece(Knight, Black, false), pos, q) <==>
              InBound(q) && q.y == pos.y - 2 && (q.x == pos.x - 1 || q.x == pos.x + 1)
  {
  }

  /** A Black Lance reaches every square ahead of it in its file. */
  lemma BlackLanceMask(pos: Point, q: Point)
    requires InBound(pos)
    ensures Reach(Piece(Lance, Black, false), pos, q) <==> q.x == pos.x && 0 <= q.y < pos.y
  {
  }

  /** White's mask is Black's turned by 180 degrees: a White Pawn reaches the square below it. */
  lemma WhitePawnMask(pos: Point, q: Point)
    requires InBound(pos)
    ensures Reach(Piece(Pawn, White, false), pos, q) <==> InBound(q) && q == Point(pos.x, pos.y + 1)
  {
    ReversePositionInvolution(q);
    if Reach(Piece(Pawn, White, false), pos, q) {
      assert ReversePosition(q) == Point(ReversePosition(pos).x, ReversePosition(pos).y - 1);
    }
  }

  /** White's Lance reaches every square below it in its file. */
  lemma WhiteLanceMask(pos: Point, q: Point)
    requires InBound(pos)
    ensures Reach(Piece(Lance, White, false), pos, q) <==> q.x == pos.x && pos.y < q.y < Height
  {
  }

  /**
   * For every piece, White's mask at `pos` is Black's mask at the turned
   * position, turned back.
   */
  lemma WhiteMaskMirrors(kind: PieceType, promoted: bool, pos: Point, q: Point)
    ensures Reach(Piece(kind, White, promoted), pos, q) ==
            Reach(Piece(kind, Black, promoted), ReversePosition(pos), ReversePosition(q))
    ensures Reach(Piece(kind, White, promoted), ReversePosition(pos), ReversePosition(q)) ==
            Reach(Piece(kind, Black, promoted), pos, q)
  {
    ReversePositionInvolution(pos);
    ReversePositionInvolution(q);
  }

  /**
   * The Bishop, King and promoted Rook/Bishop masks contain the piece's own
   * square, yet moving such a piece onto the square it stands on is always
   * refused.
   */
  lemma MaskHoldsOrigin(p: Piece, pos: Point, g: Game, doPromote: bool)
    requires InBound(pos) && ValidGame(g) && PieceAt(g, pos) == Some(p)
    requires p.kind == Bishop || (p.kind == King && !p.promoted) || (p.kind == Rook && p.promoted)
    ensures Reach(p, pos, pos)
    ensures CheckMoveRules(g, pos, pos, doPromote) != Ok
  {
  }

  // ---------------------------------------------------------------------------
  // collisions

  /**
   * The Bishop's path check never looks at the square next to the
   * destination: whatever stands there, the answer is the same.
   */
  lemma BishopSkipsLastSquare(board: Cells, p: Piece, from: Point, to: Point, c: Option<Piece>)
    requires IsGrid(board) && InBound(from) && InBound(to) && Reach(p, from, to)
    requires p.kind == Bishop && from.x < to.x && from.y < to.y
    ensures IsCollide(Assign(board, Point(to.x - 1, to.y - 1), c), p, from, to) == IsCollide(board, p, from, to)
  {
    BishopGeometry(p, from, to);
    var last := Point(to.x - 1, to.y - 1);
    var board' := Assign(board, last, c);
    forall n | 1 <= n <= to.x - from.x - 2
      ensures OccupiedOnRay(board', from, 1, 1, n) == OccupiedOnRay(board, from, 1, 1, n)
    {
      AssignOnlyAt(board, last, c, Point(from.x + n, from.y + n));
    }
  }

  /**
   * So a Bishop jumps a piece standing right before its destination: with
   * the squares before that one empty, the move is not a collision.
   */
  lemma BishopJumpsLastSquare(board: Cells, p: Piece, from: Point, to: Point)
    requires IsGrid(board) && InBound(from) && InBound(to) && Reach(p, from, to)
    requires p.kind == Bishop && from.x < to.x && from.y < to.y
    requires board[to.y - 1][to.x - 1].Some?
    requires forall q :: InBound(q) && from.x < q.x < to.x - 1 && q.y - from.y == q.x - from.x ==> board[q.y][q.x].None?
    ensures IsCollide(board, p, from, to) == Done(false)
  {
    BishopGeometry(p, from, to);
    forall n | 1 <= n <= to.x - from.x - 2
      ensures !OccupiedOnRay(board, from, 1, 1, n)
    {
      var q := Point(from.x + n, from.y + n);
      assert board[q.y][q.x].None?;
    }
  }

  /** A promoted Bishop's one-square orthogonal step makes the move check throw. */
  lemma PromotedBishopStepThrows(g: Game, from: Point, to: Point, doPromote: bool)
    requires ValidGame(g) && InBound(from) && InBound(to)
    requires PieceAt(g, from) == Some(Piece(Bishop, g.turn, true))
    requires Abs(to.x - from.x) + Abs(to.y - from.y) == 1
    ensures CheckMoveRules(g, from, to, doPromote) == Thrown
  {
    assert Reach(PieceAt(g, from).value, from, to);
    assert IsCollide(g.board, PieceAt(g, from).value, from, to) == Raised;
  }

  /**
   * Collisions are traced in the board's own coordinates for both sides, so
   * an unpromoted White Lance never collides: its range of squares is empty.
   */
  lemma WhiteLanceNeverCollides(board: Cells, from: Point, to: Point)
    requires IsGrid(board) && InBound(from) && InBound(to) && Reach(Piece(Lance, White, false), from, to)
    ensures IsCollide(board, Piece(Lance, White, false), from, to) == Done(false)
  {
    WhiteLanceMask(from, to);
  }

  /** A Black Lance collides exactly when a square strictly between is occupied. */
  lemma BlackLanceCollides(board: Cells, from: Point, to: Point)
    requires IsGrid(board) && InBound(from) && InBound(to) && Reach(Piece(Lance, Black, false), from, to)
    ensures IsCollide(board, Piece(Lance, Black, false), from, to) ==
            Done(exists y :: to.y < y < from.y && board[y][from.x].Some?)
  {
  }

  // ---------------------------------------------------------------------------
  // move rejections

  /** Promoting a King or a Gold General is refused. */
  lemma PromoteKingOrGoldRefused(g: Game, from: Point, to: Point)
    requires ValidGame(g) && InBound(from) && InBound(to) && PieceAt(g, from).Some?
    requires PieceAt(g, from).value.kind == King || PieceAt(g, from).value.kind == GoldGeneral
    ensures CheckMoveRules(g, from, to, true) != Ok
  {
  }

  /**
   * The reason a move of the mover's own piece is refused: outside its mask,
   * a collision, or the mover's own piece on the destination give
   * `CantMoveError`; promoting a promoted piece, a King or a Gold General
   * gives `CantPromoteError`.
   */
  lemma MoveRejectionReasons(g: Game, from: Point, to: Point, doPromote: bool)
    requires ValidGame(g) && InBound(from) && InBound(to)
    requires PieceAt(g, from).Some? && PieceAt(g, from).value.owner == g.turn && !MaskRaises(PieceAt(g, from).value)
    ensures var p := PieceAt(g, from).value;
            var r := CheckMoveRules(g, from, to, doPromote);
            (!Reach(p, from, to) ==> r == MoveError(CantMoveError)) &&
            (Reach(p, from, to) && IsCollide(g.board, p, from, to) == Done(true) ==> r == MoveError(CantMoveError)) &&
            (Reach(p, from, to) && IsCollide(g.board, p, from, to) == Done(false) ==>
               ((PieceAt(g, to).Some? && PieceAt(g, to).value.owner == g.turn ==> r == MoveError(CantMoveError)) &&
                (PieceAt(g, to).None? || PieceAt(g, to).value.owner != g.turn ==>
                   (doPromote && (p.promoted || !CanPromote(p.kind)) ==> r == MoveError(CantPromoteError)) &&
                   (!(doPromote && (p.promoted || !CanPromote(p.kind))) ==> r == Ok))))
  {
  }

  /**
   * The drop checks in order: off the board, not a hand piece of the mover,
   * an occupied square, a piece that could never move again; only then the
   * fouls, and only without `skipFoul`.
   */
  lemma DropRejectionReasons(g: Game, i: int, pos: Point, skipFoul: bool)
    requires ValidGame(g) && InBound(pos) && 0 <= i < |g.hand.Of(g.turn)|
    ensures var piece := g.hand.Of(g.turn)[i];
            var r := CheckCanPlace(g, i, pos, skipFoul);
            (piece.owner != g.turn ==> r == PutError(NoPieceError)) &&
            (piece.owner == g.turn && PieceAt(g, pos).Some? ==> r == PutError(DuplicateError)) &&
            (piece.owner == g.turn && PieceAt(g, pos).None? && Immobile(piece, pos) ==> r == PutError(CantMoveError)) &&
            (piece.owner == g.turn && PieceAt(g, pos).None? && !Immobile(piece, pos) && skipFoul ==> r == Ok) &&
            ((piece.owner == g.turn && PieceAt(g, pos).None? && !Immobile(piece, pos) && !skipFoul &&
              Strikes(g, piece, pos)) ==> r == PutError(StrikingError))
  {
  }

  /** A move that passes the rule checks never lands on the mover's own piece or its own square. */
  lemma MoveNeverOntoOwnPiece(g: Game, from: Point, to: Point, doPromote: bool, skipFoul: bool)
    requires ValidGame(g)
    requires CheckCanMove(g, from, to, doPromote, skipFoul) == Ok
    ensures from != to && InBound(to)
    ensures PieceAt(g, to).None? || PieceAt(g, to).value.owner == Opponent(g.turn)
  {
  }

  // ---------------------------------------------------------------------------
  // effects of a move

  /** The pieces on a row, counted. */
  function RowCount(row: seq<Option<Piece>>): nat {
    if |row| == 0 then 0 else RowCount(row[..|row| - 1]) + (if row[|row| - 1].Some? then 1 else 0)
  }

  function RowsCount(board: Cells): nat {
    if |board| == 0 then 0 else RowsCount(board[..|board| - 1]) + RowCount(board[|board| - 1])
  }

  /** Every piece in the game: on the board or in a hand. */
  function PieceTotal(g: Game): nat {
    RowsCount(g.board) + |g.hand.black| + |g.hand.white|
  }

  function Occupancy(c: Option<Piece>): nat {
    if c.Some? then 1 else 0
  }

  lemma {:induction false} RowCountUpdate(row: seq<Option<Piece>>, x: int, e: Option<Piece>)
    requires 0 <= x < |row|
    ensures RowCount(row[x := e]) + Occupancy(row[x]) == RowCount(row) + Occupancy(e)
  {
    var n := |row|;
    if x < n - 1 {
      RowCountUpdate(row[..n - 1], x, e);
      assert row[x := e][..n - 1] == row[..n - 1][x := e];
    } else {
      assert row[x := e][..n - 1] == row[..n - 1];
    }
  }

  lemma {:induction false} RowsCountUpdate(board: Cells, y: int, row: seq<Option<Piece>>)
    requires 0 <= y < |board|
    ensures RowsCount(board[y := row]) + RowCount(board[y]) == RowsCount(board) + RowCount(row)
  {
    var n := |board|;
    if y < n - 1 {
      RowsCountUpdate(board[..n - 1], y, row);
      assert board[y := row][..n - 1] == board[..n - 1][y := row];
    } else {
      assert board[y := row][..n - 1] == board[..n - 1];
    }
  }

  /** Assigning a cell changes the piece count by what left and what arrived. */
  lemma AssignCount(board: Cells, p: Point, e: Option<Piece>)
    requires IsGrid(board) && InBound(p)
    ensures RowsCount(Assign(board, p, e)) + Occupancy(board[p.y][p.x]) == RowsCount(board) + Occupancy(e)
  {
    RowCountUpdate(board[p.y], p.x, e);
    RowsCountUpdate(board, p.y, board[p.y][p.x := e]);
  }

  /**
   * `move` on an accepted move: the piece (promoted if asked) stands on
   * `to`, `from` is empty, no other square changes, a captured piece joins
   * the mover's hand as the mover's unpromoted piece, the opponent's hand is
   * untouched, one log entry is appended and the turn passes.
   */
  lemma MoveEffects(g: Game, from: Point, to: Point, doPromote: bool)
    requires ValidGame(g)
    requires CheckMoveRules(g, from, to, doPromote) == Ok
    ensures var next := ApplyMove(g, from, to, doPromote);
            var moved := PieceAt(g, from).value;
            PieceAt(next, to) == Some(if doPromote then moved.(promoted := true) else moved) &&
            PieceAt(next, from).None? &&
            (forall q :: InBound(q) && q != from && q != to ==> PieceAt(next, q) == PieceAt(g, q)) &&
            next.hand.Of(g.turn) ==
              (if PieceAt(g, to).Some? then g.hand.Of(g.turn) + [Piece(PieceAt(g, to).value.kind, g.turn, false)]
               else g.hand.Of(g.turn)) &&
            next.hand.Of(Opponent(g.turn)) == g.hand.Of(Opponent(g.turn)) &&
            next.turn == Opponent(g.turn) &&
            |next.score| == |g.score| + 1 && next.score[..|g.score|] == g.score &&
            next.score[|g.score|].player == g.turn && next.score[|g.score|].from == Some(from) &&
            next.score[|g.score|].position == to && next.score[|g.score|].isPromotion == doPromote
  {
    var next := ApplyMove(g, from, to, doPromote);
    var moved := PieceAt(g, from).value;
    var mid := Assign(g.board, to, Some(if doPromote then moved.(promoted := true) else moved));
    forall q | InBound(q) && q != from && q != to
      ensures PieceAt(next, q) == PieceAt(g, q)
    {
      AssignOnlyAt(g.board, to, Some(if doPromote then moved.(promoted := true) else moved), q);
      AssignOnlyAt(mid, from, None, q);
    }
    AssignOnlyAt(mid, from, None, to);
  }

  /** A move neither creates nor destroys pieces: a capture moves one from the board to a hand. */
  lemma MoveConservesPieces(g: Game, from: Point, to: Point, doPromote: bool)
    requires ValidGame(g)
    requires CheckMoveRules(g, from, to, doPromote) == Ok
    ensures PieceTotal(ApplyMove(g, from, to, doPromote)) == PieceTotal(g)
  {
    var moved := PieceAt(g, from).value;
    var placed := if doPromote then moved.(promoted := true) else moved;
    var mid := Assign(g.board, to, Some(placed));
    AssignCount(g.board, to, Some(placed));
    AssignCount(mid, from, None);
    AssignOnlyAt(g.board, to, Some(placed), from);
  }

  /** Every hand piece belongs to the hand's side and is unpromoted. */
  predicate HandsWellFormed(h: Hand) {
    (forall i :: 0 <= i < |h.black| ==> h.black[i].owner == Black && !h.black[i].promoted) &&
    (forall i :: 0 <= i < |h.white| ==> h.white[i].owner == White && !h.white[i].promoted)
  }

  lemma HandsWellFormedOf(h: Hand, p: Player)
    requires HandsWellFormed(h)
    ensures forall i :: 0 <= i < |h.Of(p)| ==> h.Of(p)[i].owner == p && !h.Of(p)[i].promoted
  {
  }

  /** Moves keep the hands well formed: captured pieces change side and lose promotion. */
  lemma MoveKeepsHands(g: Game, from: Point, to: Point, doPromote: bool)
    requires ValidGame(g) && HandsWellFormed(g.hand)
    requires CheckMoveRules(g, from, to, doPromote) == Ok
    ensures HandsWellFormed(ApplyMove(g, from, to, doPromote).hand)
  {
    HandsWellFormedOf(g.hand, g.turn);
    HandsWellFormedOf(g.hand, Opponent(g.turn));
    MoveEffects(g, from, to, doPromote);
    var h := ApplyMove(g, from, to, doPromote).hand;
    assert forall i :: 0 <= i < |h.Of(g.turn)| ==> h.Of(g.turn)[i].owner == g.turn && !h.Of(g.turn)[i].promoted;
    assert forall i :: 0 <= i < |h.Of(Opponent(g.turn))| ==>
             h.Of(Opponent(g.turn))[i].owner == Opponent(g.turn) && !h.Of(Opponent(g.turn))[i].promoted;
  }

  /**
   * The log id is taken before the turn passes, so it names the mover and
   * differs from the position string of the state the move produces.
   */
  lemma MoveLogIdNamesMover(g: Game, from: Point, to: Point, doPromote: bool)
    requires ValidGame(g)
    requires CheckMoveRules(g, from, to, doPromote) == Ok
    ensures var next := ApplyMove(g, from, to, doPromote);
            next.score[|g.score|].id[0] == Codec.OwnerChar(g.turn) &&
            next.score[|g.score|].id != Codec.Encode(next.board, next.hand, next.turn)
  {
    var next := ApplyMove(g, from, to, doPromote);
  }

  // ---------------------------------------------------------------------------
  // drops

  /**
   * `placeHandPiece` on an accepted drop: the piece stands on `pos`, no
   * other square changes, exactly that piece leaves the mover's hand, the
   * log gains an entry without origin or promotion, and the turn passes.
   */
  lemma DropEffects(g: Game, i: int, pos: Point, skipFoul: bool)
    requires ValidGame(g)
    requires CheckCanPlace(g, i, pos, skipFoul) == Ok
    ensures var next := ApplyDrop(g, i, pos);
            var piece := g.hand.Of(g.turn)[i];
            PieceAt(next, pos) == Some(piece) &&
            (forall q :: InBound(q) && q != pos ==> PieceAt(next, q) == PieceAt(g, q)) &&
            multiset(next.hand.Of(g.turn)) + multiset{piece} == multiset(g.hand.Of(g.turn)) &&
            next.hand.Of(Opponent(g.turn)) == g.hand.Of(Opponent(g.turn)) &&
            next.turn == Opponent(g.turn) &&
            |next.score| == |g.score| + 1 && next.score[..|g.score|] == g.score &&
            next.score[|g.score|].from.None? && !next.score[|g.score|].isPromotion &&
            next.score[|g.score|].position == pos && next.score[|g.score|].pieceType == piece.kind
  {
    var piece := g.hand.Of(g.turn)[i];
    forall q | InBound(q) && q != pos
      ensures PieceAt(ApplyDrop(g, i, pos), q) == PieceAt(g, q)
    {
      AssignOnlyAt(g.board, pos, Some(piece), q);
    }
  }

  /** A drop moves one piece from a hand to the board. */
  lemma DropConservesPieces(g: Game, i: int, pos: Point, skipFoul: bool)
    requires ValidGame(g)
    requires CheckCanPlace(g, i, pos, skipFoul) == Ok
    ensures PieceTotal(ApplyDrop(g, i, pos)) == PieceTotal(g)
  {
    AssignCount(g.board, pos, Some(g.hand.Of(g.turn)[i]));
  }

  /** A drop keeps the hands well formed. */
  lemma DropKeepsHands(g: Game, i: int, pos: Point, skipFoul: bool)
    requires ValidGame(g) && HandsWellFormed(g.hand)
    requires CheckCanPlace(g, i, pos, skipFoul) == Ok
    ensures HandsWellFormed(ApplyDrop(g, i, pos).hand)
  {
    var s := g.hand.Of(g.turn);
    HandsWellFormedOf(g.hand, g.turn);
    RemoveAtKeepsSide(s, i, g.turn);
    WithKeepsHands(g.hand, g.turn, RemoveAt(s, i));
  }

  /** Removing a piece from a hand of one side's unpromoted pieces leaves such a hand. */
  lemma RemoveAtKeepsSide(s: seq<Piece>, i: int, p: Player)
    requires 0 <= i < |s|
    requires forall j :: 0 <= j < |s| ==> s[j].owner == p && !s[j].promoted
    ensures forall j :: 0 <= j < |RemoveAt(s, i)| ==> RemoveAt(s, i)[j].owner == p && !RemoveAt(s, i)[j].promoted
  {
    var r := RemoveAt(s, i);
    forall j | 0 <= j < |r|
      ensures r[j].owner == p && !r[j].promoted
    {
      if j < i { assert r[j] == s[j]; } else { assert r[j] == s[j + 1]; }
    }
  }

  /** Replacing one side's hand by a well-formed one keeps both hands well formed. */
  lemma WithKeepsHands(h: Hand, p: Player, s: seq<Piece>)
    requires HandsWellFormed(h)
    requires forall j :: 0 <= j < |s| ==> s[j].owner == p && !s[j].promoted
    ensures HandsWellFormed(h.With(p, s))
  {
  }

  /**
   * The striking foul looks at the square of row y-1 whichever side drops:
   * a White Pawn dropped right in front of Black's King (row y+1) is never
   * refused for striking, unless another Black King stands at row y-1.
   */
  lemma StrikeIgnoresSide(g: Game, i: int, pos: Point)
    requires ValidGame(g) && g.turn == White && InBound(pos)
    requires 0 <= i < |g.hand.Of(White)| && g.hand.Of(White)[i].kind == Pawn
    requires pos.y == 0 || g.board[pos.y - 1][pos.x] != Some(Piece(King, Black, false))
    requires pos.y == 0 || g.board[pos.y - 1][pos.x] != Some(Piece(King, Black, true))
    ensures CheckCanPlace(g, i, pos, false) != PutError(StrikingError)
  {
  }

  /**
   * The other half of the same test: a White Pawn dropped right behind
   * (row y-1 of) a Black King is refused for striking.
   */
  lemma StrikeLooksAbove(g: Game, i: int, pos: Point)
    requires ValidGame(g) && g.turn == White && InBound(pos) && 0 < pos.y
    requires 0 <= i < |g.hand.Of(White)| && g.hand.Of(White)[i] == Piece(Pawn, White, false)
    requires PieceAt(g, pos).None? && pos.y != LookY(g.hand.Of(White)[i], 0)
    requires g.board[pos.y - 1][pos.x] == Some(Piece(King, Black, false))
    ensures CheckCanPlace(g, i, pos, false) == PutError(StrikingError)
  {
    var piece := g.hand.Of(White)[i];
    assert !Immobile(piece, pos);
    assert Strikes(g, piece, pos);
  }

  /**
   * The two-pawn foul counts the file before the drop, counts promoted
   * Pawns as well, and fires for any dropped kind when the count is exactly
   * two.
   */
  lemma DoublePawnRule(g: Game, i: int, pos: Point)
    requires ValidGame(g) && InBound(pos) && 0 <= i < |g.hand.Of(g.turn)|
    requires g.hand.Of(g.turn)[i].owner == g.turn && PieceAt(g, pos).None?
    requires !Immobile(g.hand.Of(g.turn)[i], pos) && !Strikes(g, g.hand.Of(g.turn)[i], pos)
    ensures CheckCanPlace(g, i, pos, false) == PutError(DoublePawnError) <==>
              |PawnRows(g.board, pos.x, g.turn, Height)| == 2
  {
  }
}
