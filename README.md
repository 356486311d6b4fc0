# Shogi rule engine, modelled in Dafny

This project models the rule engine of the `Shogi` TypeScript library
(`src/library/shogi`). The engine is a class holding a 9×9 board of pieces,
both players' hands of captured pieces, the side to move and the game record
(the "score"). Its main operations are these:

- The opening position.
- The move check (`checkCanMove`) and the move itself (`move`).
- The drop check (`checkCanPlaceHandPiece`) and the drop (`placeHandPiece`).
- Reach masks (`isRestrictionPieceConstraits`) and collisions along a path
  (`isCollideWithOtherPieces`).
- The self-check foul (`checkNeglectKing`) and the repetition count
  (`checkThousandDays`).
- The position string (`toString` and `fromString`).

It also covers the revised helper files:

- `board.ts`: a generic board that its methods rewrite in place, plus bit
  boards.
- `piece.ts`: pieces, perspective, and the direction tables.
- `util.ts`: ranges, points and interpolation.

## Layout

| file | module | contents |
|---|---|---|
| `results.dfy` | `Results` | `Option`, and `Outcome` (`Done(v)` or `Raised`: a thrown exception) |
| `util.dfy` | `Util` | `range`, `irange` (a loop), `min`, `max`, point arithmetic, `interpolation`, `interpolation2D` |
| `grid.dfy` | `Grid` | 9×9 value grids: `at`, `assign`, `inBound`, turning the board round, `matMap`, `zip`, `and`, `or`, `matSome`, `exist`, `matFindIndex` |
| `pieces.dfy` | `Pieces` | players, piece kinds, `canPromote`, `lookX`/`lookY`/`look`, the direction tables of `piece.ts` |
| `boards.dfy` | `Boards` | `class Board<T>`, whose methods rewrite its `cells` in place, and the opening position built by `make` |
| `game.dfy` | `GameState` | move-log entries, hands, the game state, and the error reasons and answers |
| `codec.dfy` | `Codec` | the position string: its encoding, parsing and round trip |
| `rules.dfy` | `Rules` | masks, collisions, the move and drop checks and their effects, the self-check foul, repetition |
| `masks.dfy` | `Masks` | the mask computation as the source does it, by marking a bit board in place |
| `rule_facts.dfy` | `RuleFacts` | properties of the rules, including the engine's unexpected behaviours |
| `shogi.dfy` | `Engine` | `class Shogi`, with the fields and methods of the engine |

Conventions:

- Coordinates are `Point(x, y)`, with row 0 at the top. Black moves "up",
  towards row 0.
- White's masks are computed on the board turned by 180 degrees.
- A thrown `ShogiError` becomes `Outcome.Raised` in functions and
  `Answer.Thrown` in the move and drop answers.
- `Ok`, `MoveError(reason)` and `PutError(reason)` are the library's result
  objects.
- Piece objects become values. A hand piece is named by its index in the
  mover's hand.
- The position string stores piece kinds as the digits of the numeric
  `PieceType` enum in `shogi.ts`: King=0, Rook=1, Bishop=2, GoldGeneral=3,
  SilverGeneral=4, Knight=5, Lance=6, Pawn=7.

## Model

| member | source | states |
|---|---|---|
| Util.Range | src/library/shogi/util.ts:51-52 | the list of start..end inclusive, in order, empty when end < start |
| Util.RangeMembers | src/library/shogi/util.ts:51-52 | v is in range(start, end) iff start <= v <= end |
| Util.RangeCons | src/library/shogi/util.ts:51-52 | a non-empty range is its start followed by the range after it |
| Util.IRange | src/library/shogi/util.ts:60-64 | the counting loop yields exactly range(start, end) |
| Util.Min | src/library/shogi/util.ts:67 | the result is one of the two arguments and not above either |
| Util.Max | src/library/shogi/util.ts:70 | the result is one of the two arguments and not below either |
| Util.MinLeMax | src/library/shogi/util.ts:67-70 | min <= max, and min + max is the sum of the two arguments |
| Util.Add | src/library/shogi/util.ts:80 | subtracting b from the sum gives back a |
| Util.Sub | src/library/shogi/util.ts:81 | adding b back to the difference gives a |
| Util.Mul | src/library/shogi/util.ts:82 | (1,1) is the unit, (0,0) absorbs, and a coordinate of the product is 0 iff that coordinate of a factor is 0 |
| Util.MulAlgebra | src/library/shogi/util.ts:80-82 | mul is commutative and associative and distributes over add |
| Util.SubAddCancel | src/library/shogi/util.ts:80-81 | add and sub are inverse to each other |
| Util.Interpolation | src/library/shogi/util.ts:86-87 | the integers strictly between c and d, ascending, one per gap |
| Util.InterpolationMembers | src/library/shogi/util.ts:86-87 | v is listed iff it lies strictly between c and d |
| Util.InterpolationSymmetric | src/library/shogi/util.ts:86-87 | the list is the same whichever endpoint comes first |
| Util.Reverse | src/library/shogi/util.ts:91-92 | same length, elements in the opposite order |
| Util.Interpolation2D | src/library/shogi/util.ts:90-94 | one point per x strictly between the endpoints |
| Util.Interpolation2DDiagonal | src/library/shogi/util.ts:90-94 | on a diagonal it lists the squares strictly between a and b, stepping from a towards b |
| Util.Interpolation2DVertical | src/library/shogi/util.ts:90-94 | on a file (same x) it lists nothing |
| Grid.InBound | src/library/shogi/board.ts:68-70 | inside iff 0 <= x < 9 and 0 <= y < 9 |
| Grid.At | src/library/shogi/board.ts:47-52 | null (None) exactly off the board, otherwise the cell's value |
| Grid.Filled | src/library/shogi/board.ts:26-34 | a 9×9 grid with the value in every cell |
| Grid.Assign | src/library/shogi/board.ts:59-62 | the cell at p holds e afterwards and the result is still a 9×9 grid |
| Grid.AssignOnlyAt | src/library/shogi/board.ts:59-62 | assign changes the cell at p and no other |
| Grid.PosMatrix | src/library/shogi/board.ts:37-41 | a 9×9 grid |
| Grid.PosMatrixAt | src/library/shogi/board.ts:37-41 | every cell holds its own coordinates |
| Grid.ReversePosition | src/library/shogi/shogi.ts:877-879 | turning a point keeps it on the board iff it was on the board |
| Grid.ReversePositionInvolution | src/library/shogi/shogi.ts:877-879 | turning twice is the identity; only the centre (4,4) is fixed |
| Grid.Reversed | src/library/shogi/board.ts:153-160 | cell (8-x, 8-y) of the result holds cell (x, y) of the input |
| Grid.ReversedAt | src/library/shogi/board.ts:153-160 | reading the turned board at p reads the board at the turned p |
| Grid.ReversedTwice | src/library/shogi/board.ts:76-81 | turning twice restores the board, as applyWithReverse relies on |
| Grid.MatMap | src/library/shogi/board.ts:84-86 | each cell is fn applied to the cell and its coordinates |
| Grid.Zip | src/library/shogi/board.ts:141-150 | each cell pairs the two boards' cells at the same point |
| Grid.And | src/library/shogi/board.ts:212-214 | a 9×9 bit board |
| Grid.Or | src/library/shogi/board.ts:220-222 | a 9×9 bit board |
| Grid.AndOrPointwise | src/library/shogi/board.ts:212-222 | and / or are the pointwise conjunction / disjunction |
| Grid.RowSomeIff | src/library/shogi/board.ts:97-99 | some cell of the row from x on satisfies fn iff the row-level `some` holds |
| Grid.RowsSomeIff | src/library/shogi/board.ts:97-99 | the same for the rows from y on |
| Grid.RowsSomeGrid | src/library/shogi/board.ts:97-99 | on a 9×9 grid the row-by-row scan succeeds iff some on-board point satisfies fn |
| Grid.MatSome | src/library/shogi/board.ts:97-99 | on a 9×9 grid, matSome holds iff some on-board point satisfies fn |
| Grid.Exist | src/library/shogi/board.ts:225-227 | on a 9×9 bit board, exist holds iff some on-board bit is set |
| Grid.PointOf | src/library/shogi/board.ts:124-133 | the j-th cell in row-major order is on the board and has index j |
| Grid.PointOfIndex | src/library/shogi/board.ts:124-133 | index and point are inverse |
| Grid.FindFromSpec | src/library/shogi/board.ts:124-133 | the search from index j finds the first matching cell at or after j, or none exists |
| Grid.FindFromSkip | src/library/shogi/board.ts:124-133 | non-matching cells can be skipped without changing the answer |
| Grid.FindIndex | src/library/shogi/board.ts:124-133 | a found point is on the board and its cell satisfies fn |
| Grid.FindIndexFirst | src/library/shogi/board.ts:124-133 | matFindIndex is null iff no cell matches; otherwise it returns a matching cell with no match before it in row-major order |
| Pieces.Opponent | src/library/shogi/shogi.ts:579-581 | the other player |
| Pieces.NewPiece | src/library/shogi/piece.ts:45-49 | a new piece has the given kind and owner and is unpromoted |
| Pieces.CanPromote | src/library/shogi/piece.ts:89-100 | every kind but King and Gold General can promote |
| Pieces.LookX | src/library/shogi/piece.ts:57-59 | Black sees x itself; White sees 8 - x |
| Pieces.LookY | src/library/shogi/piece.ts:62-64 | Black sees y itself; White sees 8 - y |
| Pieces.Look | src/library/shogi/piece.ts:52-54 | Black sees the point itself; White sees the turned point |
| Pieces.LookInvolution | src/library/shogi/piece.ts:52-64 | looking twice from the same side gives the point back |
| Pieces.MovedirMatrix | src/library/shogi/piece.ts:103-170 | every normal table is square, odd-sized and zero at the centre; the promoted table is empty exactly for the kinds that cannot promote, and otherwise has the same shape |
| Pieces.MakeDirPositionList | src/library/shogi/piece.ts:181-192 | no listed direction has a zero count, and a table zero at its centre yields no null step |
| Pieces.MatDirsNonZero | src/library/shogi/piece.ts:185-191 | the row-major listing keeps only non-zero counts, and none is the centre when the centre is zero |
| Pieces.MovableDir | src/library/shogi/piece.ts:177-200 | every direction of every kind is a real step with a non-zero count; kinds that cannot promote have no promoted directions |
| Pieces.MakeDirPositionListMembers | src/library/shogi/piece.ts:181-192 | the list holds exactly the non-zero cells, each as its offset from the centre with its count |
| Pieces.NoPromotedDirs | src/library/shogi/piece.ts:142-169 | Gold and King have no promoted directions |
| Pieces.PawnTable | src/library/shogi/piece.ts:104-112 | an unpromoted Pawn moves once, one square forward |
| Pieces.KnightTable | src/library/shogi/piece.ts:122-132 | the unpromoted Knight table lists the two forward and the two backward jumps |
| Pieces.RookTable | src/library/shogi/piece.ts:147-150 | d is an unpromoted Rook direction iff it is an unbounded orthogonal unit step |
| Pieces.PromotedRookTable | src/library/shogi/piece.ts:151-155 | d is a promoted Rook direction iff it is an unbounded orthogonal step or a single diagonal step |
| Boards.Board.constructor | src/library/shogi/board.ts:6 | a new board has no rows |
| Boards.Board.ResetByArray | src/library/shogi/board.ts:14-23 | the board becomes the top-left 9×9 part of arr |
| Boards.Board.ResetByValue | src/library/shogi/board.ts:26-34 | nine rows filled with the value are appended to the current rows |
| Boards.Board.Assign | src/library/shogi/board.ts:59-62 | the cells become the old cells with p set to e |
| Boards.Board.ReverseMatrix | src/library/shogi/board.ts:153-160 | the cells become the old cells turned by 180 degrees |
| Boards.Board.ApplyWithReverse | src/library/shogi/board.ts:76-81 | fn sees the turned board; the board is as before afterwards |
| Boards.Board.MatFindIndex | src/library/shogi/board.ts:124-133 | the nested loop returns the first matching cell in row-major order |
| Boards.Place | src/library/shogi/board.ts:174-187 | placing one side keeps a 9×9 board |
| Boards.Opening | src/library/shogi/board.ts:173-195 | the opening position is a 9×9 board |
| Boards.OpeningAt | src/library/shogi/board.ts:173-195 | every square of the opening: each side's back rank, Bishop, Rook and pawn row, and empty squares elsewhere |
| Boards.OpeningKings | src/library/shogi/board.ts:179 | Black's King is on (4,8) and White's on (4,0) |
| Boards.OpeningPawns | src/library/shogi/board.ts:186 | row 6 is Black's Pawns and row 2 White's |
| Boards.OpeningSymmetric | src/library/shogi/board.ts:192-193 | the opening is symmetric under turning the board with the owners swapped |
| Boards.PlaceBackRank | src/library/shogi/board.ts:175-183 | the nine assignments set rank 8 to the back-rank pieces of the player and change nothing else |
| Boards.PlaceOn | src/library/shogi/board.ts:174-187 | the in-place placement yields the cells Place describes |
| Boards.MakePieceBoard | src/library/shogi/board.ts:173-195 | a fresh board holding the opening position |
| Codec.TypeCode | src/library/shogi/shogi.ts:92-101 | each kind's digit is below 8 |
| Codec.TypeCodeBijection | src/library/shogi/shogi.ts:92-101 | kinds and digits 0..7 correspond one to one |
| Codec.TypeOfCode | src/library/shogi/shogi.ts:383-388 | parseInt of a kind digit gives the kind whose enum value is that digit |
| Codec.Digit | src/library/shogi/shogi.ts:364 | a digit character |
| Codec.Split | src/library/shogi/shogi.ts:382 | split always returns at least one part |
| Codec.SplitPlain | src/library/shogi/shogi.ts:382 | a string without the separator splits into itself |
| Codec.SplitFirst | src/library/shogi/shogi.ts:382 | splitting stops at the first separator |
| Codec.SplitJoin | src/library/shogi/shogi.ts:359-382 | splitting a join of separator-free parts gives the parts back |
| Codec.JoinSnoc | src/library/shogi/shogi.ts:356-359 | joining one more part appends the separator and the part |
| Codec.JoinPrefixStep | src/library/shogi/shogi.ts:362-366 | each loop step appends the next cell and a separator unless it is the last |
| Codec.JoinPrefixAll | src/library/shogi/shogi.ts:360-369 | after the last step the loop's output is the join of all parts |
| Codec.JoinAvoids | src/library/shogi/shogi.ts:360-369 | a character in no part and not the separator is not in the join |
| Codec.Insert | src/library/shogi/shogi.ts:357 | insertion keeps the codes sorted and adds exactly x |
| Codec.Sort | src/library/shogi/shogi.ts:357 | the hand digits come out sorted and are a permutation of the input |
| Codec.SortBounded | src/library/shogi/shogi.ts:357 | sorting introduces no digit beyond the input's bound |
| Codec.Codes | src/library/shogi/shogi.ts:357 | one digit per hand piece, each below 8 |
| Codec.Digits | src/library/shogi/shogi.ts:357 | one character per code, each in '0'..'7' |
| Codec.HandString | src/library/shogi/shogi.ts:357-358 | a hand field never holds the field separator |
| Codec.CellString | src/library/shogi/shogi.ts:364 | a cell never holds ',' or '-' |
| Codec.RowString | src/library/shogi/shogi.ts:362-366 | a row never holds ',' |
| Codec.JoinCons | src/library/shogi/shogi.ts:355-369 | joining a part in front puts it and a separator before the rest |
| Codec.JoinThreeThen | src/library/shogi/shogi.ts:355-369 | three leading fields are written each followed by a separator |
| Codec.Encode | src/library/shogi/shogi.ts:353-372 | the position string is non-empty and starts with the digit of the side to move |
| Codec.EncodeLayout | src/library/shogi/shogi.ts:353-372 | the string is the turn digit, both sorted hands and the nine rows, with a ',' after each of the first three fields |
| Codec.DigitValue | src/library/shogi/shogi.ts:383-384 | a kind digit parses to a code below 8 |
| Codec.ParseHand | src/library/shogi/shogi.ts:383-384 | a hand parses iff every character is a kind digit; each becomes a new unpromoted piece of the side |
| Codec.ParseCell | src/library/shogi/shogi.ts:385-391 | "_" is an empty square; otherwise a kind digit, owner Black iff the second character is '0', promoted iff the third is '1' |
| Codec.ParseCells | src/library/shogi/shogi.ts:385 | one cell per '-'-separated part |
| Codec.ParseRow | src/library/shogi/shogi.ts:143-151 | a row of at least nine cells parses to its first nine, as init keeps them; a shorter row is rejected (see Left out) |
| Codec.ParseRows | src/library/shogi/shogi.ts:385 | one 9-cell row per line |
| Codec.Decode | src/library/shogi/shogi.ts:379-394 | a decoded position has a 9×9 board |
| Codec.ParseHandString | src/library/shogi/shogi.ts:357-384 | a written hand reads back as the sorted hand, owned by the side and unpromoted |
| Codec.ParseCellString | src/library/shogi/shogi.ts:364-391 | every written cell reads back as itself |
| Codec.ParseCellsStrings | src/library/shogi/shogi.ts:364-391 | written cells read back |
| Codec.ParseRowString | src/library/shogi/shogi.ts:362-391 | every written row reads back as itself |
| Codec.ParseRowsStrings | src/library/shogi/shogi.ts:362-391 | written rows read back |
| Codec.FieldsSeparatorFree | src/library/shogi/shogi.ts:353-372 | no field of the string holds ',' |
| Codec.DecodeEncode | src/library/shogi/shogi.ts:353-394 | fromString(toString()) restores the turn and the board exactly, and each hand as its sorted digits |
| Codec.RestoredHand | src/library/shogi/shogi.ts:357-384 | a restored hand is sorted, holds the same kinds as before, and is owned by the side and unpromoted |
| Rules.Mask | src/library/shogi/shogi.ts:772-874 | a 9×9 bit board whose set squares are exactly the reach of the piece from pos |
| Rules.Reach | src/library/shogi/shogi.ts:772-874 | only squares on the board are marked; an unpromoted Pawn, Lance or Knight only reaches squares ahead of it from its owner's side |
| Rules.BishopGeometry | src/library/shogi/shogi.ts:784-820 | a Bishop's mask is its diagonals, plus the 3×3 block around it when promoted |
| Rules.IsCollide | src/library/shogi/shogi.ts:654-720 | throws exactly for a Bishop whose step shares a file or rank, which only a promoted Bishop's one-square orthogonal step can be; King, Gold, Silver, Knight and Pawn never collide |
| Rules.BishopCollide | src/library/shogi/shogi.ts:685-707 | the four diagonal walks throw exactly on a non-null step along a file or rank |
| Rules.CollisionBetween | src/library/shogi/shogi.ts:654-720 | a reported collision always has an occupied square strictly between from and to on their shared line |
| Rules.RookCollides | src/library/shogi/shogi.ts:670-680 | a Rook collides iff some square strictly between from and to holds a piece |
| Rules.BishopCollides | src/library/shogi/shogi.ts:685-707 | when the check does not throw, a Bishop collides iff some square strictly between from and to, other than the one just before to, holds a piece |
| Rules.BishopCollisionBetween | src/library/shogi/shogi.ts:686-707 | the four diagonal walks find a piece iff a square strictly between from and to, other than the one just before to, holds a piece |
| Rules.BishopDownRight | src/library/shogi/shogi.ts:687-690 | the walk towards larger x and y finds a piece iff a square strictly between from and to, other than the one just before to, holds a piece |
| Rules.BishopUpRight | src/library/shogi/shogi.ts:692-695 | the walk towards larger x and smaller y finds a piece iff a square strictly between from and to, other than the one just before to, holds a piece |
| Rules.BishopDownLeft | src/library/shogi/shogi.ts:697-700 | the walk towards smaller x and larger y finds a piece iff a square strictly between from and to, other than the one just before to, holds a piece |
| Rules.BishopUpLeft | src/library/shogi/shogi.ts:702-705 | the walk towards smaller x and y finds a piece iff a square strictly between from and to, other than the one just before to, holds a piece |
| Rules.CheckMoveRules | src/library/shogi/shogi.ts:397-429 | the move check before the foul: off-board or not the mover's piece is NoPieceError; Ok only for an in-reach, collision-free move off the square onto an empty or enemy square with a legal promotion; throws exactly for a promoted King/Gold or a throwing path check; only move reasons |
| Rules.Captured | src/library/shogi/shogi.ts:457-462 | a captured piece keeps its kind, changes side and loses promotion |
| Rules.ApplyMove | src/library/shogi/shogi.ts:447-483 | the state after a move is a valid game |
| Rules.AttackScanSound | src/library/shogi/shogi.ts:740-741 | a scan that does not throw answers whether some later square holds an attacker reaching the King |
| Rules.AttackScanRaises | src/library/shogi/shogi.ts:592-600 | the scan does not throw when the attacker is to move and no area computation throws |
| Rules.AttackScan | src/library/shogi/shogi.ts:740-741 | a throw comes only from a later cell holding an attacker piece whose area computation throws |
| Rules.NeglectKing | src/library/shogi/shogi.ts:728-742 | throws when the King is missing; when it does not throw, it holds iff some attacker piece's reachable area holds the King's square |
| Rules.CheckCanMove | src/library/shogi/shogi.ts:397-444 | the foul can only turn an Ok into NeglectKingError, and only without skipFoul |
| Rules.SelfCheckFoul | src/library/shogi/shogi.ts:427-442 | a rule-legal move is refused with NeglectKingError iff it leaves the mover's King attacked, else it is Ok |
| Rules.PawnsInRowsCount | src/library/shogi/shogi.ts:527-530 | the file count is the number of rows holding a Pawn of the owner |
| Rules.PawnsOnFile | src/library/shogi/shogi.ts:527-530 | the reduce counts the rows of the file holding a Pawn of the owner |
| Rules.RemoveAt | src/library/shogi/shogi.ts:549 | removing the dropped piece takes exactly that piece from the hand |
| Rules.ImmobileMeansStuck | src/library/shogi/shogi.ts:501-503 | an unpromoted piece is refused as unable to move exactly where its mask is empty |
| Rules.ApplyDrop | src/library/shogi/shogi.ts:542-566 | the state after a drop is a valid game |
| Rules.CheckCanPlace | src/library/shogi/shogi.ts:486-539 | off-board is BoundError; no such hand piece is NoPieceError; Ok only on an empty square where the piece can still move; a striking Pawn past the earlier checks is StrikingError without skipFoul; DoublePawnError only under its condition; only drop reasons |
| Rules.DropSelfCheckFoul | src/library/shogi/shogi.ts:505-533 | without skipFoul, a drop past the earlier checks is NeglectKingError iff it leaves the dropper's King attacked, and Ok iff not |
| Rules.Ids | src/library/shogi/shogi.ts:746-750 | one id per log entry |
| Rules.CountIdOccurrences | src/library/shogi/shogi.ts:747-750 | the reduce counts the occurrences of the id |
| Rules.ThousandDays | src/library/shogi/shogi.ts:745-752 | throws exactly on an empty log; a repetition needs at least five entries |
| Rules.ThousandDaysOccurrences | src/library/shogi/shogi.ts:745-752 | on a non-empty log, holds iff the last position occurs at least five times in the log |
| Masks.Mark | src/library/shogi/shogi.ts:777 | the square is set if on the board; nothing else changes |
| Masks.MarkPattern | src/library/shogi/shogi.ts:807-812 | exactly the pattern's squares around pos are added |
| Masks.MarkBlock | src/library/shogi/shogi.ts:816 | exactly the 3×3 block around pos is added |
| Masks.MarkRookLines | src/library/shogi/shogi.ts:779-782 | exactly the file and rank of pos, pos itself excluded, are added |
| Masks.MarkDiagonal | src/library/shogi/shogi.ts:786-793 | the do-while adds exactly pos and the squares of the ray |
| Masks.MarkDiagonals | src/library/shogi/shogi.ts:784-798 | exactly both diagonals through pos are added |
| Masks.MarkFileAhead | src/library/shogi/shogi.ts:832 | exactly the squares ahead on the file are added |
| Masks.MarkBlackFrame | src/library/shogi/shogi.ts:800-866 | the switch throws exactly for a promoted King or Gold, else adds exactly Black's reach |
| Masks.ReversedFilled | src/library/shogi/board.ts:199-209 | turning an all-false board leaves it unchanged |
| Masks.BlackMask | src/library/shogi/shogi.ts:800-866 | the mask from Black's side marks exactly Black's reach |
| Masks.MaskFromBlackFrame | src/library/shogi/shogi.ts:869-874 | Black uses its frame directly; White's mask is Black's at the turned position, turned back |
| Masks.MarkFreshBoard | src/library/shogi/shogi.ts:773-866 | on an empty bit board: throws exactly for a promoted King or Gold, otherwise yields Black's mask |
| Masks.RestrictionMask | src/library/shogi/shogi.ts:772-875 | throws exactly for a promoted King or Gold; otherwise the bit board is exactly the piece's mask |
| RuleFacts.BlackPawnMask | src/library/shogi/shogi.ts:828-830 | a Black Pawn reaches only the square ahead |
| RuleFacts.BlackKnightMask | src/library/shogi/shogi.ts:834-837 | a Black Knight reaches the two squares two ahead and one aside |
| RuleFacts.BlackLanceMask | src/library/shogi/shogi.ts:831-833 | a Black Lance reaches every square ahead on its file |
| RuleFacts.WhitePawnMask | src/library/shogi/shogi.ts:869-874 | a White Pawn reaches only the square below it |
| RuleFacts.WhiteLanceMask | src/library/shogi/shogi.ts:869-874 | a White Lance reaches every square below it on its file |
| RuleFacts.WhiteMaskMirrors | src/library/shogi/shogi.ts:869-874 | White's mask at pos is Black's at the turned pos, turned |
| RuleFacts.MaskHoldsOrigin | src/library/shogi/shogi.ts:784-862 | for a Bishop, King or promoted Rook standing on pos, its mask includes pos, but moving it onto its own square is refused |
| RuleFacts.BishopSkipsLastSquare | src/library/shogi/shogi.ts:685-708 | the Bishop's path check never looks at the square before the destination |
| RuleFacts.BishopJumpsLastSquare | src/library/shogi/shogi.ts:685-708 | so a Bishop passes a piece on the square before its destination |
| RuleFacts.PromotedBishopStepThrows | src/library/shogi/shogi.ts:706-707 | a promoted Bishop's orthogonal step makes the move check throw |
| RuleFacts.WhiteLanceNeverCollides | src/library/shogi/shogi.ts:712-719 | collisions are traced in board coordinates, so a White Lance never collides |
| RuleFacts.BlackLanceCollides | src/library/shogi/shogi.ts:663-669 | a Black Lance collides iff a square strictly between is occupied |
| RuleFacts.PromoteKingOrGoldRefused | src/library/shogi/shogi.ts:425 | promoting a King or Gold is never Ok |
| RuleFacts.MoveRejectionReasons | src/library/shogi/shogi.ts:414-425 | which reason refuses a move of the mover's piece: CantMoveError for reach, collision or own target, then CantPromoteError |
| RuleFacts.DropRejectionReasons | src/library/shogi/shogi.ts:486-536 | the drop checks in source order, the striking and two-pawn fouls only without skipFoul, a striking Pawn always refused for striking |
| RuleFacts.MoveNeverOntoOwnPiece | src/library/shogi/shogi.ts:397-444 | an accepted move leaves its square and never lands on the mover's own piece |
| RuleFacts.RowCountUpdate | src/library/shogi/shogi.ts:465-466 | setting one cell changes a row's piece count by what left and what came |
| RuleFacts.RowsCountUpdate | src/library/shogi/shogi.ts:465-466 | replacing a row changes the board count by the rows' difference |
| RuleFacts.AssignCount | src/library/shogi/shogi.ts:465-466 | assigning a cell changes the board's piece count by what left and what came |
| RuleFacts.MoveEffects | src/library/shogi/shogi.ts:447-483 | an accepted move: piece (promoted if asked) on to, from empty, nothing else changed, capture into the mover's hand, one log entry, turn passes |
| RuleFacts.MoveConservesPieces | src/library/shogi/shogi.ts:447-483 | a move neither creates nor destroys pieces |
| RuleFacts.HandsWellFormedOf | src/library/shogi/shogi.ts:457-462 | a well-formed hand holds only its side's unpromoted pieces |
| RuleFacts.MoveKeepsHands | src/library/shogi/shogi.ts:457-462 | moves keep both hands well formed |
| RuleFacts.MoveLogIdNamesMover | src/library/shogi/shogi.ts:469-480 | the log id is written before the turn passes: it names the mover, so it differs from the resulting position's string |
| RuleFacts.DropEffects | src/library/shogi/shogi.ts:542-566 | an accepted drop: piece on pos, nothing else changed, exactly that piece leaves the hand, one log entry, turn passes |
| RuleFacts.DropConservesPieces | src/library/shogi/shogi.ts:542-566 | a drop neither creates nor destroys pieces |
| RuleFacts.DropKeepsHands | src/library/shogi/shogi.ts:548-549 | drops keep both hands well formed |
| RuleFacts.StrikeIgnoresSide | src/library/shogi/shogi.ts:515-524 | the striking foul always looks at row y-1, so a White Pawn in front of Black's King is not refused for striking |
| RuleFacts.StrikeLooksAbove | src/library/shogi/shogi.ts:515-524 | and a White Pawn dropped right behind Black's King is refused for striking |
| RuleFacts.DoublePawnRule | src/library/shogi/shogi.ts:527-530 | the two-pawn foul fires, for any dropped kind, iff the file already holds exactly two of the owner's Pawns (promoted ones included) |
| Engine.Shogi.constructor | src/library/shogi/shogi.ts:288-316 | the opening position, empty hands, Black to move, empty log |
| Engine.Shogi.ChangePlayer | src/library/shogi/shogi.ts:579-581 | the turn passes to the other player; nothing else changes |
| Engine.Shogi.ToString | src/library/shogi/shogi.ts:353-372 | the loops build exactly the position string Encode defines |
| Engine.Shogi.BoardString | src/library/shogi/shogi.ts:359-369 | the loop over rows writes the rows joined by ',' |
| Engine.RowOut | src/library/shogi/shogi.ts:362-366 | the loop over one row writes its cells joined by '-' |
| Engine.Shogi.FromString | src/library/shogi/shogi.ts:379-394 | succeeds iff the string decodes; then turn, hands and board are the decoded ones and the log is kept; otherwise nothing changes |
| Engine.ScanFor | src/library/shogi/shogi.ts:570-575 | the nested row-major loop returns the first square holding the piece, or null after the last square |
| Engine.Shogi.GetPosition | src/library/shogi/shogi.ts:569-576 | null iff the piece is on no square; otherwise its first square in row-major order |
| Engine.Shogi.PieceMask | src/library/shogi/shogi.ts:758-765 | NoPieceError (None) if the piece is on no square, otherwise the piece's mask at its square |
| Engine.Shogi.CheckNeglectKing | src/library/shogi/shogi.ts:723-725 | when it does not throw, it holds iff the King of the side not to move is attacked by the side to move |
| Engine.Shogi.Move | src/library/shogi/shogi.ts:447-483 | answers checkCanMove; on Ok the state becomes the moved state, otherwise it is unchanged; the piece total and well-formed hands are kept |
| Engine.Shogi.ApplyAcceptedMove | src/library/shogi/shogi.ts:450-480 | the in-place updates of an accepted move produce exactly the state ApplyMove describes |
| Engine.Shogi.ApplyAcceptedDrop | src/library/shogi/shogi.ts:546-563 | the in-place updates of an accepted drop produce exactly the state ApplyDrop describes |
| Engine.Shogi.PlaceHandPiece | src/library/shogi/shogi.ts:542-566 | answers the drop check; on Ok the state becomes the dropped state, otherwise it is unchanged; the piece total and well-formed hands are kept |

## Left out

- `printBoard` and `Piece.toString` only write to the console. They are left
  out.
- `checkCheckMate`, `findPlaceableArea` and `findReachedArea` as public
  operations are left out. The first two compare a result with a fresh
  object literal (`=== { type: "ok" }`), which is never true.
  `findReachedArea` enters the model only inside the self-check foul
  (`Rules.AreaRaises`, `Rules.Attacks`).
- `checkFoul` is a one-line wrapper around the repetition check, which is
  `Rules.ThousandDays`.
- `deepCopy`, `equal` and `isSameInstance` work on object identity and JSON
  text. Values make them unnecessary.
- `div` divides in floating point. It is left out.
- The UI, scenes, networking and server code are not part of this model.
- Object identity is replaced by values. A dropped piece is named by its
  index in the mover's hand, and `filter(p => p !== piece)` becomes
  `Rules.RemoveAt` of that index. `getPosition` returns the first square
  holding an equal piece, where the source looks for the very same object.
- The mutation of a captured piece object shared with other references is
  not modelled (aliasing).
- Rev1 `Piece.look` (`shogi.ts:133-135`) turns only y. Nothing in the engine
  calls it. `Pieces.Look` follows `piece.ts`.
- `NotOwnedPieceError` of `errors.ts` is declared in `GameState.Reason` but
  never produced: the engine of `shogi.ts` reports a piece of the wrong side
  as `NoPieceError`.
- `PieceType` is numeric in `shogi.ts` and a string enum in `piece.ts`. One
  datatype serves both.
- `.sort()` on the hand digits compares them as strings. For single digits
  this is the numeric order used by `Codec.Sort`.
- Engine.Shogi.FromString: a string with too few fields, a kind character
  outside 0-7, or a row of fewer than nine '-'-separated cells, is rejected without change. The source instead assigns `NaN` or
  `undefined` kinds, or throws part-way through after having already changed
  some fields.
- Codec.Decode: the same malformed inputs yield `None`: too few fields, a kind
  character outside 0-7, or a short row. For the bad kinds the source
  produces pieces with `NaN` or out-of-range kinds. For a short row, `init`
  (`shogi.ts:143-151`) stores `undefined` in the missing cells without
  throwing, and turn, hands and board are all replaced.
- Masks.RestrictionMask: requires an on-board position. The source is only
  called with on-board squares, and off-board its do-while marks nothing
  useful.
- Rules.IsCollide: requires the destination to be in the piece's reach. Its
  only caller checks the mask first. Off its diagonals the source's Bishop
  walk can leave the board: from (0,5) to (8,6), with the squares it passes
  first empty, it reads `this.board[9]` (`shogi.ts:690`) and fails with a
  TypeError, which the model does not represent. The Rook's `throw` (`shogi.ts:683`) is unreachable for every
  input, and the model has no such branch.
- Util.Interpolation2D: requires the x-steps to be no more than the y-steps.
  Otherwise the source reads past the y list and yields points with an
  undefined y.
- The engine raises a TypeScript exception on a missing King (`Rules.NeglectKing` returns
  `Raised`) or on an empty log (`Rules.ThousandDays` returns `Raised`). The
  model represents these as values, not as control flow.
