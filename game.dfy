/**
 * The state and result types of the first-revision engine
 * (src/library/shogi/shogi.ts) and the error kinds of
 * src/library/shogi/errors.ts.
 */
module GameState {
  import opened Util
  import opened Results
  import opened Pieces
  import Grid

  /** A board of pieces: `PieceBoard`, a 9x9 grid of `Piece | null`. */
  type Cells = seq<seq<Option<Piece>>>

  /** The error classes a rejection carries (`reason`), rev 1 and rev 2 names together. */
  datatype Reason =
    | BoundError          // the square is off the board
    | DuplicateError      // the square is already occupied
    | NoPieceError        // no piece of the side to move there (rev 1 also uses it for "not yours")
    | NotOwnedPieceError  // rev 2's separate "not yours"; rev 1 never produces it
    | CantMoveError       // the piece cannot go there
    | CantPromoteError    // the piece cannot promote
    | ThousandDaysFoul    // four-fold repetition
    | NeglectKingError    // own King left attackable
    | StrikingError       // pawn dropped in front of the enemy King
    | DoublePawnError     // two-pawn foul

  /**
   * `Ok | MoveError | PutError`, plus `Thrown` for a call that ends in a
   * thrown exception instead of returning.
   */
  datatype Answer = Ok | MoveError(reason: Reason) | PutError(reason: Reason) | Thrown

  /** One entry of the move log (`MoveLog`); `from` is absent for a drop. */
  datatype MoveLog = MoveLog(
    player: Player,
    position: Point,
    pieceType: PieceType,
    isPromotion: bool,
    from: Option<Point>,
    isPromoted: bool,
    id: string)

  /** Each side's captured pieces, in the order they were taken. */
  datatype Hand = Hand(black: seq<Piece>, white: seq<Piece>) {
    function Of(p: Player): seq<Piece> {
      if p == Black then black else white
    }

    function With(p: Player, s: seq<Piece>): (h: Hand)
      ensures h.Of(p) == s && h.Of(Opponent(p)) == Of(Opponent(p))
    {
      if p == Black then this.(black := s) else this.(white := s)
    }
  }

  /** The fields of a `Shogi` object as one value: a speculative copy is just this value. */
  datatype Game = Game(board: Cells, hand: Hand, turn: Player, score: seq<MoveLog>)

  ghost predicate ValidGame(g: Game) {
    Grid.IsGrid(g.board)
  }
}
