/**
 * The `Shogi` class of src/library/shogi/shogi.ts: a board, both hands, the
 * side to move and the move log, updated in place by `move`,
 * `placeHandPiece` and `fromString`. Each method is proved against the
 * functions of Rules and Codec on the value of its fields.
 */
module Engine {
  import opened Util
  import opened Results
  import opened Grid
  import opened Pieces
  import opened Boards
  import opened GameState
  import opened Rules
  import opened RuleFacts
  import opened Codec
  import Masks

  /** Matches a cell holding exactly this piece. */
  function Holds(piece: Piece): (Option<Piece>, Point) -> bool {
    (c: Option<Piece>, _: Point) => c == Some(piece)
  }

  /** The row-major scan of `getPosition`: the first square holding the piece. */
  method ScanFor(cells: Cells, piece: Piece) returns (r: Option<Point>)
    requires IsGrid(cells)
    ensures r == FindIndex(cells, Holds(piece))
  {
    var fn := Holds(piece);
    for y := 0 to Height
      invariant forall k :: 0 <= k < y * Width ==> !MatchAt(cells, fn, k)
    {
      for x := 0 to Width
        invariant forall k :: 0 <= k < y * Width + x ==> !MatchAt(cells, fn, k)
      {
        PointOfIndex(Point(x, y));
        if cells[y][x] == Some(piece) {
          FindFromSkip(cells, fn, 0, y * Width + x);
          return Some(Point(x, y));
        }
        assert !MatchAt(cells, fn, y * Width + x);
      }
    }
    FindFromSkip(cells, fn, 0, Width * Height);
    return None;
  }

  /** The inner loop of `toString`: one row's cells, '-' between cells. */
  method RowOut(row: seq<Option<Piece>>) returns (res: string)
    requires |row| == Width
    ensures res == RowString(row)
  {
    ghost var cells := CellStrings(row);
    res := "";
    for x := 0 to Width
      invariant res == JoinPrefix(cells, x, '-')
    {
      JoinPrefixStep(cells, x, '-');
      res := res + CellString(row[x]);
      if x != Width - 1 {
        res := res + ['-'];
      }
    }
    JoinPrefixAll(cells, '-');
  }

  class Shogi {
    var board: Cells
    var hand: Hand
    var turnPlayer: Player
    var score: seq<MoveLog>

    ghost predicate Valid()
      reads this
    {
      IsGrid(board)
    }

    /** The fields as one game value. */
    function State(): Game
      reads this
    {
      Game(board, hand, turnPlayer, score)
    }

    /** `new Shogi()`: the opening layout, empty hands, Black to move, an empty log. */
    constructor ()
      ensures Valid()
      ensures board == Opening() && hand == Hand([], []) && turnPlayer == Black && score == []
      ensures HandsWellFormed(hand)
    {
      var b := MakePieceBoard();
      board := b.cells;
      hand := Hand([], []);
      turnPlayer := Black;
      score := [];
    }

    /** `changePlayer`: pass the turn. */
    method ChangePlayer()
      modifies this
      ensures turnPlayer == Opponent(old(turnPlayer))
      ensures board == old(board) && hand == old(hand) && score == old(score)
    {
      turnPlayer := if turnPlayer == Black then White else Black;
    }

    /** `toString`: the position string, the board part built cell by cell. */
    method ToString() returns (data: string)
      requires Valid()
      ensures data == Encode(board, hand, turnPlayer)
    {
      data := [OwnerChar(turnPlayer)] + [','];
      data := data + HandString(hand.black) + [','];
      data := data + HandString(hand.white) + [','];
      var rows := BoardString();
      EncodeLayout(board, hand, turnPlayer);
      data := data + rows;
    }

    /** The closure in `toString` that appends each row, ',' between rows. */
    method BoardString() returns (res: string)
      requires Valid()
      ensures res == Join(RowStrings(board), ',')
    {
      ghost var rows := RowStrings(board);
      res := "";
      for y := 0 to Height
        invariant res == JoinPrefix(rows, y, ',')
      {
        var line := RowOut(board[y]);
        JoinPrefixStep(rows, y, ',');
        res := res + line;
        if y != Height - 1 {
          res := res + [','];
        }
      }
      JoinPrefixAll(rows, ',');
    }

    /**
     * `fromString(data)`: the side to move, both hands and the board are
     * replaced by what the string describes; the log is kept. A string that
     * does not describe a position changes nothing.
     */
    method FromString(data: string) returns (ok: bool)
      requires Valid()
      modifies this
      ensures Valid()
      ensures ok <==> Decode(data).Some?
      ensures ok ==> var p := Decode(data).value;
                     turnPlayer == p.turn && hand == Hand(p.black, p.white) && board == p.board && score == old(score)
      ensures !ok ==> State() == old(State())
    {
      var decoded := Decode(data);
      if decoded.None? {
        return false;
      }
      var p := decoded.value;
      turnPlayer := p.turn;
      hand := Hand(p.black, p.white);
      var b := new Board<Option<Piece>>();
      b.ResetByArray(p.board);
      assert b.cells == p.board by {
        forall y | 0 <= y < Height ensures b.cells[y] == p.board[y] {
          assert |b.cells[y]| == |p.board[y]|;
        }
      }
      board := b.cells;
      ok := true;
    }

    /** `getPosition(piece)`: the first square, in row-major order, holding the piece. */
    method GetPosition(piece: Piece) returns (r: Option<Point>)
      requires Valid()
      ensures r == FindIndex(board, Holds(piece))
      ensures r.None? <==> forall q :: InBound(q) ==> board[q.y][q.x] != Some(piece)
      ensures r.Some? ==> InBound(r.value) && board[r.value.y][r.value.x] == Some(piece)
    {
      r := ScanFor(board, piece);
      FindIndexFirst(board, Holds(piece));
    }

    /**
     * `isRestrictionPieceConstraits(piece)`: the piece's mask at its square;
     * `None` (a `NoPieceError`) when the piece is not on the board.
     */
    method PieceMask(piece: Piece) returns (r: Outcome<Option<seq<seq<bool>>>>)
      requires Valid()
      ensures FindIndex(board, Holds(piece)).None? ==> r == Done(None)
      ensures FindIndex(board, Holds(piece)).Some? ==>
                var pos := FindIndex(board, Holds(piece)).value;
                (r.Raised? <==> MaskRaises(piece)) && (r.Done? ==> r == Done(Some(Mask(piece, pos))))
    {
      var pos := GetPosition(piece);
      if pos.None? {
        return Done(None);
      }
      var m := Masks.RestrictionMask(piece, pos.value);
      if m.Raised? {
        return Raised;
      }
      r := Done(Some(m.value));
    }

    /** `checkNeglectKing()`: may the side to move take the other side's King? */
    function CheckNeglectKing(): (r: Outcome<bool>)
      requires Valid()
      reads this
      ensures r.Done? ==> (r.value <==> KingAttacked(State(), turnPlayer))
    {
      NeglectKing(State(), turnPlayer)
    }

    /**
     * `move(from, to, doPromote, skipFoul)`: check the move; if it is
     * accepted, promote, capture, relocate, log and pass the turn; otherwise
     * change nothing.
     */
    method Move(from: Point, to: Point, doPromote: bool, skipFoul: bool) returns (r: Answer)
      requires Valid()
      modifies this
      ensures Valid()
      ensures r == CheckCanMove(old(State()), from, to, doPromote, skipFoul)
      ensures r == Ok ==> State() == ApplyMove(old(State()), from, to, doPromote)
      ensures r != Ok ==> State() == old(State())
      ensures PieceTotal(State()) == old(PieceTotal(State()))
      ensures old(HandsWellFormed(hand)) ==> HandsWellFormed(hand)
    {
      ghost var g := State();
      r := CheckCanMove(State(), from, to, doPromote, skipFoul);
      if r == Ok {
        assert CheckMoveRules(g, from, to, doPromote) == Ok;
        MoveConservesPieces(g, from, to, doPromote);
        if HandsWellFormed(hand) {
          MoveKeepsHands(g, from, to, doPromote);
        }
        ApplyAcceptedMove(from, to, doPromote);
      }
    }

    /**
     * The body of `move` once the move is accepted: promote, capture,
     * relocate, log with the position string, and pass the turn.
     */
    method ApplyAcceptedMove(from: Point, to: Point, doPromote: bool)
      requires Valid() && InBound(from) && InBound(to) && from != to && PieceAt(State(), from).Some?
      modifies this
      ensures Valid()
      ensures State() == ApplyMove(old(State()), from, to, doPromote)
    {
      ghost var next := ApplyMove(State(), from, to, doPromote);
      var taken := board[to.y][to.x];
      var moved := board[from.y][from.x].value;
      if doPromote {
        moved := moved.(promoted := true);
      }
      if taken.Some? {
        var newHandPiece := taken.value.(owner := turnPlayer, promoted := false);
        hand := hand.With(turnPlayer, hand.Of(turnPlayer) + [newHandPiece]);
      }
      board := Grid.Assign(board, to, Some(moved));
      board := Grid.Assign(board, from, None);
      assert board == next.board && hand == next.hand;
      var id := ToString();
      score := score + [MoveLog(turnPlayer, to, moved.kind, doPromote, Some(from), moved.promoted || doPromote, id)];
      ChangePlayer();
    }

    /**
     * `placeHandPiece(piece, pos, skipFoul)` for hand piece i of the side to
     * move: check the drop; if it is accepted, place the piece, take it out
     * of the hand, log and pass the turn; otherwise change nothing.
     */
    method PlaceHandPiece(i: int, pos: Point, skipFoul: bool) returns (r: Answer)
      requires Valid()
      modifies this
      ensures Valid()
      ensures r == CheckCanPlace(old(State()), i, pos, skipFoul)
      ensures r == Ok ==> State() == ApplyDrop(old(State()), i, pos)
      ensures r != Ok ==> State() == old(State())
      ensures PieceTotal(State()) == old(PieceTotal(State()))
      ensures old(HandsWellFormed(hand)) ==> HandsWellFormed(hand)
    {
      ghost var g := State();
      r := CheckCanPlace(State(), i, pos, skipFoul);
      if r == Ok {
        DropConservesPieces(g, i, pos, skipFoul);
        if HandsWellFormed(hand) {
          DropKeepsHands(g, i, pos, skipFoul);
        }
        ApplyAcceptedDrop(i, pos);
      }
    }

    /**
     * The body of `placeHandPiece` once the drop is accepted: place the
     * piece, take it out of the hand, log with the position string, and
     * pass the turn.
     */
    method ApplyAcceptedDrop(i: int, pos: Point)
      requires Valid() && InBound(pos) && 0 <= i < |hand.Of(turnPlayer)|
      modifies this
      ensures Valid()
      ensures State() == ApplyDrop(old(State()), i, pos)
    {
      var piece := hand.Of(turnPlayer)[i];
      board := Grid.Assign(board, pos, Some(piece));
      hand := hand.With(turnPlayer, RemoveAt(hand.Of(turnPlayer), i));
      var id := ToString();
      score := score + [MoveLog(turnPlayer, pos, piece.kind, false, None, false, id)];
      ChangePlayer();
    }
  }
}
