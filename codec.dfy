/**
 * The canonical position string of src/library/shogi/shogi.ts
 * (`toString` / `fromString`): side to move, both hands as sorted type
 * digits, then the nine board rows, fields separated by ',' and the
 * cells of a row by '-'.
 */
module Codec {
  import opened Results
  import opened Pieces
  import opened Grid
  import opened GameState

  /** The numeric value of the `PieceType` enum. */
  function TypeCode(t: PieceType): (n: nat)
    ensures n < 8
  {
    match t
    case King => 0
    case Rook => 1
    case Bishop => 2
    case GoldGeneral => 3
    case SilverGeneral => 4
    case Knight => 5
    case Lance => 6
    case Pawn => 7
  }

  /** The enum member with value `n`. */
  function TypeOfCode(n: nat): (r: PieceType)
    requires n < 8
    ensures TypeCode(r) == n
  {
    [King, Rook, Bishop, GoldGeneral, SilverGeneral, Knight, Lance, Pawn][n]
  }

  /** The enum values and the enum members are in one-to-one correspondence. */
  lemma TypeCodeBijection(t: PieceType, n: nat)
    requires n < 8
    ensures TypeOfCode(TypeCode(t)) == t
    ensures TypeCode(TypeOfCode(n)) == n
  {
  }

  function Digit(n: nat): (c: char)
    requires n < 10
    ensures '0' <= c <= '9'
  {
    ('0' as int + n) as char
  }

  /** "0" for Black and "1" for White. */
  function OwnerChar(p: Player): char {
    if p == Black then '0' else '1'
  }

  // ---------------------------------------------------------------------------
  // join / split

  /** `parts.join(sep)`. */
  function Join(parts: seq<string>, sep: char): string {
    if |parts| == 0 then ""
    else if |parts| == 1 then parts[0]
    else parts[0] + [sep] + Join(parts[1..], sep)
  }

  /** `s.split(sep)`: the pieces between separators; never empty. */
  function Split(s: string, sep: char): (r: seq<string>)
    ensures |r| >= 1
  {
    if |s| == 0 then [""]
    else if s[0] == sep then [""] + Split(s[1..], sep)
    else
      var rest := Split(s[1..], sep);
      [[s[0]] + rest[0]] + rest[1..]
  }

  lemma {:induction false} SplitPlain(a: string, sep: char)
    requires sep !in a
    ensures Split(a, sep) == [a]
  {
    if |a| > 0 {
      SplitPlain(a[1..], sep);
      assert [a[0]] + a[1..] == a;
    }
  }

  lemma {:induction false} SplitFirst(a: string, b: string, sep: char)
    requires sep !in a
    ensures Split(a + [sep] + b, sep) == [a] + Split(b, sep)
  {
    if |a| == 0 {
      assert a + [sep] + b == [sep] + b;
      assert ([sep] + b)[1..] == b;
    } else {
      assert (a + [sep] + b)[1..] == a[1..] + [sep] + b;
      SplitFirst(a[1..], b, sep);
      assert [a[0]] + a[1..] == a;
    }
  }

  /** Splitting a join of separator-free parts gives the parts back. */
  lemma {:induction false} SplitJoin(parts: seq<string>, sep: char)
    requires |parts| >= 1
    requires forall i :: 0 <= i < |parts| ==> sep !in parts[i]
    ensures Split(Join(parts, sep), sep) == parts
  {
    if |parts| == 1 {
      SplitPlain(parts[0], sep);
    } else {
      SplitJoin(parts[1..], sep);
      SplitFirst(parts[0], Join(parts[1..], sep), sep);
      assert [parts[0]] + parts[1..] == parts;
    }
  }

  lemma {:induction false} JoinSnoc(parts: seq<string>, p: string, sep: char)
    requires |parts| >= 1
    ensures Join(parts + [p], sep) == Join(parts, sep) + [sep] + p
  {
    if |parts| == 1 {
      assert (parts + [p])[1..] == [p];
    } else {
      assert (parts + [p])[1..] == parts[1..] + [p];
      JoinSnoc(parts[1..], p, sep);
    }
  }

  /** What a loop that appends part n and then, unless it was the last, a separator has built after n parts. */
  function JoinPrefix(parts: seq<string>, n: int, sep: char): string
    requires 0 <= n <= |parts|
  {
    Join(parts[..n], sep) + (if 0 < n < |parts| then [sep] else [])
  }

  lemma JoinPrefixStep(parts: seq<string>, n: int, sep: char)
    requires 0 <= n < |parts|
    ensures JoinPrefix(parts, n + 1, sep) == JoinPrefix(parts, n, sep) + parts[n] + (if n + 1 < |parts| then [sep] else [])
  {
    assert parts[..n + 1] == parts[..n] + [parts[n]];
    if n > 0 {
      JoinSnoc(parts[..n], parts[n], sep);
    }
  }

  lemma JoinPrefixAll(parts: seq<string>, sep: char)
    ensures JoinPrefix(parts, |parts|, sep) == Join(parts, sep)
  {
    assert parts[..|parts|] == parts;
  }

  lemma {:induction false} JoinAvoids(parts: seq<string>, sep: char, c: char)
    requires c != sep
    requires forall i :: 0 <= i < |parts| ==> c !in parts[i]
    ensures c !in Join(parts, sep)
  {
    if |parts| > 1 {
      JoinAvoids(parts[1..], sep, c);
    }
  }

  // ---------------------------------------------------------------------------
  // sorting the hand digits

  predicate Sorted(s: seq<nat>) {
    forall i, j :: 0 <= i < j < |s| ==> s[i] <= s[j]
  }

  function Insert(x: nat, s: seq<nat>): (r: seq<nat>)
    requires Sorted(s)
    ensures Sorted(r)
    ensures multiset(r) == multiset(s) + multiset{x}
    ensures |r| == |s| + 1
  {
    if |s| == 0 then [x]
    else if x <= s[0] then [x] + s
    else
      assert s == [s[0]] + s[1..];
      var t := Insert(x, s[1..]);
      BoundedBelow(t, s[1..], x, s[0]);
      [s[0]] + t
  }

  /** Every element of a permutation of `s` plus `x` is at least a lower bound of both. */
  lemma BoundedBelow(t: seq<nat>, s: seq<nat>, x: nat, b: nat)
    requires multiset(t) == multiset(s) + multiset{x}
    requires b <= x && forall i :: 0 <= i < |s| ==> b <= s[i]
    ensures forall k :: 0 <= k < |t| ==> b <= t[k]
  {
    forall k | 0 <= k < |t|
      ensures b <= t[k]
    {
      assert t[k] in multiset(t);
      if t[k] != x {
        assert t[k] in multiset(s);
      }
    }
  }

  /** `.sort()` of single-digit numbers (string order and numeric order agree on them). */
  function Sort(s: seq<nat>): (r: seq<nat>)
    ensures Sorted(r)
    ensures multiset(r) == multiset(s)
    ensures |r| == |s|
  {
    if |s| == 0 then []
    else
      assert s == [s[0]] + s[1..];
      Insert(s[0], Sort(s[1..]))
  }

  lemma SortBounded(s: seq<nat>, bound: nat)
    requires forall i :: 0 <= i < |s| ==> s[i] < bound
    ensures forall i :: 0 <= i < |Sort(s)| ==> Sort(s)[i] < bound
  {
    var r := Sort(s);
    forall i | 0 <= i < |r|
      ensures r[i] < bound
    {
      assert r[i] in multiset(r);
      assert r[i] in multiset(s);
    }
  }

  // ---------------------------------------------------------------------------
  // encoding

  /** The type digits of a list of pieces, in list order. */
  function Codes(ps: seq<Piece>): (r: seq<nat>)
    ensures |r| == |ps|
    ensures forall i :: 0 <= i < |r| ==> r[i] < 8
  {
    seq(|ps|, i requires 0 <= i < |ps| => TypeCode(ps[i].kind))
  }

  function Digits(ns: seq<nat>): (r: string)
    requires forall i :: 0 <= i < |ns| ==> ns[i] < 8
    ensures |r| == |ns|
    ensures forall i :: 0 <= i < |r| ==> '0' <= r[i] <= '7'
  {
    seq(|ns|, i requires 0 <= i < |ns| => Digit(ns[i]))
  }

  /** `hand.map(p => p.type).sort().join("")`. */
  function HandString(ps: seq<Piece>): (r: string)
    ensures ',' !in r
  {
    SortBounded(Codes(ps), 8);
    Digits(Sort(Codes(ps)))
  }

  /** A cell: type digit, owner digit, promotion digit; "_" when empty. */
  function CellString(c: Option<Piece>): (r: string)
    ensures ',' !in r && '-' !in r
  {
    match c
    case None => "_"
    case Some(p) => [Digit(TypeCode(p.kind)), OwnerChar(p.owner), if p.promoted then '1' else '0']
  }

  function CellStrings(row: seq<Option<Piece>>): seq<string>
    requires |row| == Width
  {
    seq(Width, x requires 0 <= x < Width => CellString(row[x]))
  }

  function RowString(row: seq<Option<Piece>>): (r: string)
    requires |row| == Width
    ensures ',' !in r
  {
    JoinAvoids(CellStrings(row), '-', ',');
    Join(CellStrings(row), '-')
  }

  function RowStrings(board: Cells): seq<string>
    requires IsGrid(board)
  {
    seq(Height, y requires 0 <= y < Height => RowString(board[y]))
  }

  function Fields(board: Cells, hand: Hand, turn: Player): seq<string>
    requires IsGrid(board)
  {
    [[OwnerChar(turn)], HandString(hand.black), HandString(hand.white)] + RowStrings(board)
  }

  /** `toString()`: the position without its history. */
  function Encode(board: Cells, hand: Hand, turn: Player): (r: string)
    requires IsGrid(board)
    ensures |r| > 0 && r[0] == OwnerChar(turn)
  {
    var fields := Fields(board, hand, turn);
    assert |fields| > 1 && fields[0] == [OwnerChar(turn)];
    Join(fields, ',')
  }

  lemma JoinCons(p: string, rest: seq<string>, sep: char)
    requires |rest| >= 1
    ensures Join([p] + rest, sep) == p + [sep] + Join(rest, sep)
  {
    assert ([p] + rest)[1..] == rest;
  }

  lemma JoinThreeThen(a: string, b: string, c: string, rest: seq<string>, sep: char)
    requires |rest| >= 1
    ensures Join([a, b, c] + rest, sep) == a + [sep] + b + [sep] + c + [sep] + Join(rest, sep)
  {
    JoinCons(c, rest, sep);
    JoinCons(b, [c] + rest, sep);
    JoinCons(a, [b] + ([c] + rest), sep);
    assert [a, b, c] + rest == [a] + ([b] + ([c] + rest));
  }

  /** The position string spelled out: turn, both hands, then the rows, separated by ','. */
  lemma EncodeLayout(board: Cells, hand: Hand, turn: Player)
    requires IsGrid(board)
    ensures Encode(board, hand, turn) ==
            [OwnerChar(turn)] + [','] + HandString(hand.black) + [','] + HandString(hand.white) + [','] +
            Join(RowStrings(board), ',')
  {
    JoinThreeThen([OwnerChar(turn)], HandString(hand.black), HandString(hand.white), RowStrings(board), ',');
  }

  // ---------------------------------------------------------------------------
  // decoding

  /** What `fromString` writes into a `Shogi`: everything except the log. */
  datatype Position = Position(turn: Player, black: seq<Piece>, white: seq<Piece>, board: Cells)

  predicate IsTypeDigit(c: char) {
    '0' <= c <= '7'
  }

  function DigitValue(c: char): (n: nat)
    requires IsTypeDigit(c)
    ensures n < 8
  {
    c as int - '0' as int
  }

  /** `[...s].map(type => new Piece(parseInt(type), side))`, failing on a non-type digit. */
  function ParseHand(s: string, side: Player): (r: Option<seq<Piece>>)
    ensures r.Some? <==> forall i :: 0 <= i < |s| ==> IsTypeDigit(s[i])
    ensures r.Some? ==> |r.value| == |s|
    ensures r.Some? ==> forall i :: 0 <= i < |s| ==> r.value[i] == NewPiece(TypeOfCode(DigitValue(s[i])), side)
  {
    if |s| == 0 then Some([])
    else if !IsTypeDigit(s[0]) then None
    else match ParseHand(s[1..], side)
      case None => None
      case Some(rest) => Some([NewPiece(TypeOfCode(DigitValue(s[0])), side)] + rest)
  }

  /** One cell: "_" is empty; otherwise type digit, then '0' for Black, then '1' if promoted. */
  function ParseCell(d: string): (r: Option<Option<Piece>>)
    ensures r.Some? <==> d == "_" || (|d| >= 1 && IsTypeDigit(d[0]))
  {
    if d == "_" then Some(None)
    else if |d| >= 1 && IsTypeDigit(d[0]) then
      Some(Some(Piece(TypeOfCode(DigitValue(d[0])),
                      if |d| >= 2 && d[1] == '0' then Black else White,
                      |d| >= 3 && d[2] == '1')))
    else None
  }

  function ParseCells(ds: seq<string>): (r: Option<seq<Option<Piece>>>)
    ensures r.Some? ==> |r.value| == |ds|
  {
    if |ds| == 0 then Some([])
    else match (ParseCell(ds[0]), ParseCells(ds[1..]))
      case (Some(c), Some(rest)) => Some([c] + rest)
      case _ => None
  }

  /** One row: its first nine '-'-separated cells. */
  function ParseRow(line: string): (r: Option<seq<Option<Piece>>>)
    ensures r.Some? ==> |r.value| == Width
  {
    var ds := Split(line, '-');
    if |ds| < Width then None else ParseCells(ds[..Width])
  }

  function ParseRows(lines: seq<string>): (r: Option<Cells>)
    ensures r.Some? ==> |r.value| == |lines| && forall y :: 0 <= y < |lines| ==> |r.value[y]| == Width
  {
    if |lines| == 0 then Some([])
    else match (ParseRow(lines[0]), ParseRows(lines[1..]))
      case (Some(row), Some(rest)) => Some([row] + rest)
      case _ => None
  }

  /**
   * `fromString`: `None` for a string that does not describe a position
   * (fewer than twelve fields, a bad hand digit, a short row or an
   * unreadable cell).
   */
  function Decode(s: string): (r: Option<Position>)
    ensures r.Some? ==> IsGrid(r.value.board)
  {
    var data := Split(s, ',');
    if |data| < 3 + Height then None
    else match (ParseHand(data[1], Black), ParseHand(data[2], White), ParseRows(data[3..3 + Height]))
      case (Some(black), Some(white), Some(board)) =>
        Some(Position(if data[0] == "0" then Black else White, black, white, board))
      case _ => None
  }

  // ---------------------------------------------------------------------------
  // the round trip

  /** The hand `fromString` rebuilds: one fresh piece of `side` per sorted type digit. */
  function Restored(ps: seq<Piece>, side: Player): (r: seq<Piece>)
  {
    var codes := Sort(Codes(ps));
    SortBounded(Codes(ps), 8);
    seq(|codes|, i requires 0 <= i < |codes| => NewPiece(TypeOfCode(codes[i]), side))
  }

  lemma ParseHandString(ps: seq<Piece>, side: Player)
    ensures ParseHand(HandString(ps), side) == Some(Restored(ps, side))
  {
    var codes := Sort(Codes(ps));
    SortBounded(Codes(ps), 8);
    var s := HandString(ps);
    forall i | 0 <= i < |s|
      ensures IsTypeDigit(s[i]) && DigitValue(s[i]) == codes[i]
    {
    }
    var r := ParseHand(s, side);
    assert r.Some?;
    assert |r.value| == |Restored(ps, side)|;
    forall i | 0 <= i < |s|
      ensures r.value[i] == Restored(ps, side)[i]
    {
    }
    assert r.value == Restored(ps, side);
  }

  lemma ParseCellString(c: Option<Piece>)
    ensures ParseCell(CellString(c)) == Some(c)
  {
    if c.Some? {
      TypeCodeBijection(c.value.kind, 0);
    }
  }

  lemma {:induction false} ParseCellsStrings(cs: seq<Option<Piece>>)
    ensures ParseCells(seq(|cs|, x requires 0 <= x < |cs| => CellString(cs[x]))) == Some(cs)
  {
    if |cs| > 0 {
      var ds := seq(|cs|, x requires 0 <= x < |cs| => CellString(cs[x]));
      ParseCellString(cs[0]);
      ParseCellsStrings(cs[1..]);
      assert ds[1..] == seq(|cs[1..]|, x requires 0 <= x < |cs[1..]| => CellString(cs[1..][x]));
      assert [cs[0]] + cs[1..] == cs;
    }
  }

  lemma ParseRowString(row: seq<Option<Piece>>)
    requires |row| == Width
    ensures ParseRow(RowString(row)) == Some(row)
  {
    SplitJoin(CellStrings(row), '-');
    assert CellStrings(row)[..Width] == CellStrings(row);
    ParseCellsStrings(row);
  }

  lemma {:induction false} ParseRowsStrings(rows: seq<seq<Option<Piece>>>)
    requires forall y :: 0 <= y < |rows| ==> |rows[y]| == Width
    ensures ParseRows(seq(|rows|, y requires 0 <= y < |rows| => RowString(rows[y]))) == Some(rows)
  {
    if |rows| > 0 {
      var ls := seq(|rows|, y requires 0 <= y < |rows| => RowString(rows[y]));
      ParseRowString(rows[0]);
      ParseRowsStrings(rows[1..]);
      assert ls[1..] == seq(|rows[1..]|, y requires 0 <= y < |rows[1..]| => RowString(rows[1..][y]));
      assert [rows[0]] + rows[1..] == rows;
    }
  }

  /**
   * `fromString(toString())` restores the board and the side to move
   * exactly, and each hand as its type digits in ascending order, every
   * piece owned by that side and unpromoted.
   */
  lemma FieldsSeparatorFree(board: Cells, hand: Hand, turn: Player)
    requires IsGrid(board)
    ensures forall i :: 0 <= i < |Fields(board, hand, turn)| ==> ',' !in Fields(board, hand, turn)[i]
  {
    var fields := Fields(board, hand, turn);
    forall i | 0 <= i < |fields|
      ensures ',' !in fields[i]
    {
      if i == 0 {
        assert fields[0] == [OwnerChar(turn)];
      } else if i == 1 {
        assert fields[1] == HandString(hand.black);
      } else if i == 2 {
        assert fields[2] == HandString(hand.white);
      } else {
        assert fields[i] == RowString(board[i - 3]);
      }
    }
  }

  /**
   * `fromString(toString())` restores the board and the side to move
   * exactly, and each hand as its type digits in ascending order, every
   * piece owned by that side and unpromoted.
   */
  lemma DecodeEncode(board: Cells, hand: Hand, turn: Player)
    requires IsGrid(board)
    ensures Decode(Encode(board, hand, turn))
         == Some(Position(turn, Restored(hand.black, Black), Restored(hand.white, White), board))
  {
    var fields := Fields(board, hand, turn);
    FieldsSeparatorFree(board, hand, turn);
    SplitJoin(fields, ',');
    var data := Split(Encode(board, hand, turn), ',');
    assert data == fields;
    ParseHandString(hand.black, Black);
    ParseHandString(hand.white, White);
    assert data[3..3 + Height] == RowStrings(board);
    ParseRowsStrings(board);
    assert data[0] == "0" <==> turn == Black;
  }

  /**
   * A restored hand lists the same types as the original, in ascending
   * order, each piece owned by its side and not promoted.
   */
  lemma RestoredHand(ps: seq<Piece>, side: Player)
    ensures Sorted(Codes(Restored(ps, side)))
    ensures multiset(Codes(Restored(ps, side))) == multiset(Codes(ps))
    ensures forall i :: 0 <= i < |Restored(ps, side)| ==>
              Restored(ps, side)[i].owner == side && !Restored(ps, side)[i].promoted
  {
    var codes := Sort(Codes(ps));
    SortBounded(Codes(ps), 8);
    var r := Restored(ps, side);
    forall i | 0 <= i < |r|
      ensures Codes(r)[i] == codes[i]
    {
      TypeCodeBijection(r[i].kind, codes[i]);
    }
    assert Codes(r) == codes;
  }
}
