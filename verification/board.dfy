/**
 * A position (src/board.rs): the piece boards, the side to move, the two
 * move clocks and the castling and en passant state, and the detector that
 * finds the enemy pieces giving check to a king, the enemy sliders pinning
 * a piece against it, the check mask and the four-axis pin mask.
 */
module Boards {
  import opened BitBoards
  import opened Lookup
  import opened Moves
  import opened Text
  import Colors
  import Placement
  import GameStates
  import opened StartPosition

  type Color = Colors.Color

  /** The pin mask of src/pin.rs: one board per axis through the king. */
  datatype PinMask = PinMask(h: BitBoard, v: BitBoard, d1: BitBoard, d2: BitBoard)
  {
    /** The board of one axis. */
    function Get(x: Axis): BitBoard
    {
      match x
      case Horizontal => h
      case Vertical => v
      case Diagonal => d1
      case AntiDiagonal => d2
    }
  }

  /** The king's rank, its file, and the diagonals where rank and file rise together or oppositely. */
  datatype Axis = Horizontal | Vertical | Diagonal | AntiDiagonal

  datatype Board = Board(
    pieces: Placement.Pieces, sideToMove: Color, halfmoves: nat, fullmoves: nat, state: GameStates.GameState)

  // ---------------------------------------------------------------------
  // Parsing a FEN record
  // ---------------------------------------------------------------------

  /**
   * `from_str` unwraps both field parsers, indexes fields 1, 4 and 5 of the
   * space-separated record, panics on a side field other than `w` or `b` in
   * either case, and subtracts `'0'` from the first character of each clock
   * field as a `usize`.
   */
  predicate FenParses(s: string)
  {
    var fields := Split(s, ' ');
    && Placement.Parses(s) && GameStates.Parses(s)
    && |fields| >= 6
    && (Lower(fields[1]) == "w" || Lower(fields[1]) == "b")
    && |fields[4]| > 0 && fields[4][0] >= '0'
    && |fields[5]| > 0 && fields[5][0] >= '0'
  }

  /** The side to move named by the second field: `w` or `W` is white, `b` or `B` black. */
  function SideToMove(field: string): (r: Color)
    requires Lower(field) == "w" || Lower(field) == "b"
    ensures r == Colors.White <==> field == "w" || field == "W"
    ensures r == Colors.Black <==> field == "b" || field == "B"
  {
    assert |field| == 1;
    assert field == [field[0]];
    if Lower(field) == "w" then Colors.White else Colors.Black
  }

  /**
   * `Board::from_str`: the pieces and the castling and en passant state from
   * their own parsers, the side to move from the second field, and each
   * clock from the first character of its field alone.
   */
  method FromStr(s: string) returns (board: Board)
    requires FenParses(s)
    ensures board.pieces == Placement.PlaceAll(Placement.NoPieces, Placement.AllPlacements(s))
    ensures board.state == GameStates.FromStr(s)
    ensures board.sideToMove == SideToMove(Split(s, ' ')[1])
    ensures board.halfmoves == Split(s, ' ')[4][0] as int - '0' as int
    ensures board.fullmoves == Split(s, ' ')[5][0] as int - '0' as int
  {
    var pieces := Placement.FromStr(s);
    var state := GameStates.FromStr(s);
    var parsed := Split(s, ' ');
    var sideToMove := SideToMove(parsed[1]);
    var halfmoves := parsed[4][0] as int - '0' as int;
    var fullmoves := parsed[5][0] as int - '0' as int;
    board := Board(pieces, sideToMove, halfmoves, fullmoves, state);
  }

  /** The initial position's record parses. */
  lemma StartFenParses()
    ensures FenParses(StartFen)
    ensures Split(StartFen, ' ') == StartFields
  {
    StartFenFields();
    StartPlacementParses();
  }

  /**
   * `Board::default`: the initial position, white to move, both clocks
   * read from their first characters, every castling right and no en
   * passant square.
   */
  method Default() returns (board: Board)
    ensures FenParses(StartFen)
    ensures board.pieces == Placement.PlaceAll(Placement.NoPieces, Placement.AllPlacements(StartFen))
    ensures board.sideToMove == Colors.White && board.halfmoves == 0 && board.fullmoves == 1
    ensures board.state == GameStates.GameState((true, true, true, true), GameStates.None)
    ensures Squares(board.pieces.king) == {4, 60}
    ensures Squares(board.pieces.white) == RankSpan(0, 2) && Squares(board.pieces.black) == RankSpan(6, 8)
  {
    StartFenParses();
    board := FromStr(StartFen);
    StartSquares();
    Placement.FromStrSquares(StartFen, Placement.King, Colors.White);
    Placement.FromStrSquares(StartFen, Placement.King, Colors.Black);
  }

  // ---------------------------------------------------------------------
  // Selectors
  // ---------------------------------------------------------------------

  /** `colors(color)`: the board of one side's pieces. */
  function ColorsOf(b: Board, c: Color): (r: BitBoard)
    ensures c == Colors.White ==> r == b.pieces.white
    ensures c == Colors.Black ==> r == b.pieces.black
  {
    match c
    case White => b.pieces.white
    case Black => b.pieces.black
  }

  /** `pieces(piece_type)`: the board of one piece type, of both sides. */
  function PiecesOf(b: Board, t: Placement.PieceType): (r: BitBoard)
    ensures r == b.pieces.OfType(t)
  {
    match t
    case King => b.pieces.king
    case Queen => b.pieces.queen
    case Rook => b.pieces.rook
    case Bishop => b.pieces.bishop
    case Knight => b.pieces.knight
    case Pawn => b.pieces.pawn
  }

  /** `occupied()`: the squares holding a piece of either side. */
  function Occupied(b: Board): (r: BitBoard)
    ensures Squares(r) == Squares(b.pieces.white) + Squares(b.pieces.black)
  {
    Or(b.pieces.white, b.pieces.black)
  }

  /** The occupied squares are those of the side `c` and those of the other side. */
  lemma OccupiedBySides(b: Board, c: Color)
    ensures Squares(Occupied(b)) == Squares(ColorsOf(b, c)) + Squares(ColorsOf(b, Colors.Not(c)))
  {
    match c
    case White =>
    case Black =>
  }

  /** The squares a pawn of colour `c` on `sq` attacks. */
  ghost function PawnAttackSquares(c: Color, sq: int): set<int>
    requires 0 <= sq < 64
  {
    match c
    case White => WhitePawnSquares(sq)
    case Black => BlackPawnSquares(sq)
  }

  /** `pawn_attacks(piece_index, color)`: the pawn-capture entry of that colour's table. */
  method PawnAttacks(b: Board, pieceIndex: int, c: Color) returns (r: BitBoard)
    requires 0 <= pieceIndex < 64
    ensures Squares(r) == PawnAttackSquares(c, pieceIndex)
  {
    match c {
      case White => r := WhitePawnLookup(pieceIndex);
      case Black => r := BlackPawnLookup(pieceIndex);
    }
  }

  /**
   * A pawn of colour `c` on `i` attacks `j` exactly when a pawn of the other
   * colour on `j` attacks `i`: the entry for the king's own colour lists the
   * squares from which an enemy pawn attacks the king.
   */
  lemma PawnAttacksMirror(c: Color, i: int, j: int)
    requires 0 <= i < 64 && 0 <= j < 64
    ensures j in PawnAttackSquares(c, i) <==> i in PawnAttackSquares(Colors.Not(c), j)
  {
    match c
    case White => PawnMirror(i, j);
    case Black => PawnMirror(j, i);
  }

  // ---------------------------------------------------------------------
  // What checkers_pinners computes
  // ---------------------------------------------------------------------

  /** `our_king`: the kings of side `c`. */
  function OurKing(b: Board, c: Color): BitBoard
  {
    And(ColorsOf(b, c), PiecesOf(b, Placement.King))
  }

  /** Side `c` has a king; without one the tables are indexed at 64. */
  predicate HasKing(b: Board, c: Color)
  {
    OurKing(b, c) != EMPTY
  }

  /** The square of side `c`'s king (the lowest, should there be several). */
  function KingSquare(b: Board, c: Color): (k: int)
    requires HasKing(b, c)
    ensures 0 <= k < 64 && k in Squares(OurKing(b, c))
  {
    First(OurKing(b, c))
  }

  /** The pieces of the side opposing `c`. */
  function Theirs(b: Board, c: Color): BitBoard
  {
    ColorsOf(b, Colors.Not(c))
  }

  /**
   * Enemy rooks and queens on the king's rank or file and enemy bishops and
   * queens on its diagonals, whatever stands between.
   */
  ghost function SliderAttackers(b: Board, c: Color): set<int>
    requires HasKing(b, c)
  {
    var k := KingSquare(b, c);
    var theirs := Squares(Theirs(b, c));
    (RookSquares(k) * (Squares(b.pieces.rook) + Squares(b.pieces.queen)) * theirs)
      + (BishopSquares(k) * (Squares(b.pieces.bishop) + Squares(b.pieces.queen)) * theirs)
  }

  /**
   * The occupied squares strictly between `a` and the king on `k`, other
   * than the squares in `kings` and `a` itself. It is written behind a
   * recursion of depth one so that the solver does not unfold the squares
   * between where only the number of blockers matters; `BlockersValue`
   * states the definition.
   */
  ghost function BlockersAt(k: int, kings: set<int>, occupied: set<int>, a: int): set<int>
  {
    BlockersLayer(k, kings, occupied, a, 1)
  }

  ghost function BlockersLayer(k: int, kings: set<int>, occupied: set<int>, a: int, depth: nat): set<int>
  {
    if depth == 0 then BetweenSquares(a, k) * occupied - (kings + {a})
    else BlockersLayer(k, kings, occupied, a, depth - 1)
  }

  lemma BlockersValue(k: int, kings: set<int>, occupied: set<int>, a: int)
    ensures BlockersAt(k, kings, occupied, a) == BetweenSquares(a, k) * occupied - (kings + {a})
  {
    assert BlockersLayer(k, kings, occupied, a, 0) == BetweenSquares(a, k) * occupied - (kings + {a});
  }

  /** The squares of `attackers` with exactly `n` blockers. */
  ghost function WithBlockers(k: int, kings: set<int>, occupied: set<int>, attackers: set<int>, n: nat): set<int>
  {
    set a | a in attackers && |BlockersAt(k, kings, occupied, a)| == n
  }

  /** The blockers between `a` and the king of side `c`, our kings not counted. */
  ghost function Blockers(b: Board, c: Color, a: int): set<int>
    requires HasKing(b, c)
  {
    BlockersAt(KingSquare(b, c), Squares(OurKing(b, c)), Squares(Occupied(b)), a)
  }

  /** Slider checkers: enemy sliders with nothing between them and the king. */
  ghost function SliderCheckers(b: Board, c: Color): set<int>
    requires HasKing(b, c)
  {
    WithBlockers(KingSquare(b, c), Squares(OurKing(b, c)), Squares(Occupied(b)), SliderAttackers(b, c), 0)
  }

  /** Pinners: enemy sliders with exactly one piece between them and the king. */
  ghost function Pinners(b: Board, c: Color): set<int>
    requires HasKing(b, c)
  {
    WithBlockers(KingSquare(b, c), Squares(OurKing(b, c)), Squares(Occupied(b)), SliderAttackers(b, c), 1)
  }

  /** Enemy pieces of any type a knight's jump from the king (the mask is by colour only). */
  ghost function KnightCheckers(b: Board, c: Color): set<int>
    requires HasKing(b, c)
  {
    KnightSquares(KingSquare(b, c)) * Squares(Theirs(b, c))
  }

  /** Enemy pawns on the squares a pawn of colour `c` on the king's square would attack. */
  ghost function PawnCheckers(b: Board, c: Color): set<int>
    requires HasKing(b, c)
  {
    PawnAttackSquares(c, KingSquare(b, c)) * Squares(b.pieces.pawn) * Squares(Theirs(b, c))
  }

  ghost function Checkers(b: Board, c: Color): set<int>
    requires HasKing(b, c)
  {
    SliderCheckers(b, c) + KnightCheckers(b, c) + PawnCheckers(b, c)
  }

  // ---------------------------------------------------------------------
  // checkers_pinners
  // ---------------------------------------------------------------------

  /** Adding one attacker adds it to the class of its blocker count and to no other. */
  lemma WithBlockersAdd(k: int, kings: set<int>, occupied: set<int>, done: set<int>, a: int, n: nat)
    ensures |BlockersAt(k, kings, occupied, a)| == n
      ==> WithBlockers(k, kings, occupied, done + {a}, n) == WithBlockers(k, kings, occupied, done, n) + {a}
    ensures |BlockersAt(k, kings, occupied, a)| != n
      ==> WithBlockers(k, kings, occupied, done + {a}, n) == WithBlockers(k, kings, occupied, done, n)
  {}

  /** The blockers the word operations leave are those `BlockersAt` names. */
  lemma BlockerSquares(between: set<int>, occupied: set<int>, kings: set<int>, a: int)
    requires between <= AllSquares
    ensures between * occupied * (AllSquares - (kings + {a})) == between * occupied - (kings + {a})
  {}

  /**
   * One pass of the attacker loop: the attacker `a` becomes a checker when
   * no blocker stands between it and the king, and a pinner when one does.
   */
  method ClassifyAttacker(occupied: BitBoard, ourKing: BitBoard, a: int, checkers: BitBoard, pinners: BitBoard)
    returns (nextCheckers: BitBoard, nextPinners: BitBoard)
    requires ourKing != EMPTY && 0 <= a < 64
    ensures |BlockersAt(First(ourKing), Squares(ourKing), Squares(occupied), a)| == 0
      ==> Squares(nextCheckers) == Squares(checkers) + {a}
    ensures |BlockersAt(First(ourKing), Squares(ourKing), Squares(occupied), a)| != 0 ==> nextCheckers == checkers
    ensures |BlockersAt(First(ourKing), Squares(ourKing), Squares(occupied), a)| == 1
      ==> Squares(nextPinners) == Squares(pinners) + {a}
    ensures |BlockersAt(First(ourKing), Squares(ourKing), Squares(occupied), a)| != 1 ==> nextPinners == pinners
  {
    var square := New(a);
    var blockers := BlockersOf(occupied, ourKing, square, a);
    nextCheckers, nextPinners := checkers, pinners;
    match Count(blockers) {
      case 0 => nextCheckers := OrAssign(checkers, square);
      case 1 => nextPinners := OrAssign(pinners, square);
      case _ =>
    }
  }

  /** `between_rays(1 << a, our_king) & occupied & !(our_king | 1 << a)`. */
  method BlockersOf(occupied: BitBoard, ourKing: BitBoard, square: BitBoard, a: int) returns (blockers: BitBoard)
    requires ourKing != EMPTY && 0 <= a < 64 && square == New(a)
    ensures Squares(blockers) == BlockersAt(First(ourKing), Squares(ourKing), Squares(occupied), a)
  {
    EmptyFullSquares();
    assert First(square) == a;
    var between := BetweenRays(square, ourKing);
    BetweenEnds(a, First(ourKing));
    blockers := And(And(between, occupied), Not(Or(ourKing, square)));
    BlockerSquares(Squares(between), Squares(occupied), Squares(ourKing), a);
    BlockersValue(First(ourKing), Squares(ourKing), Squares(occupied), a);
  }

  /**
   * The loop state over the king square `k`, the kings of its side, the
   * occupied squares and the attackers `all`: the attackers no longer in
   * `rest` are classified into checkers and pinners.
   */
  ghost predicate Scanned(k: int, kings: set<int>, occupied: set<int>, all: set<int>,
                          rest: set<int>, checkers: set<int>, pinners: set<int>)
  {
    ScanState(k, kings, occupied, all, rest, checkers, pinners) == true
  }

  ghost predicate ScanState(k: int, kings: set<int>, occupied: set<int>, all: set<int>,
                            rest: set<int>, checkers: set<int>, pinners: set<int>)
  {
    && rest <= all
    && checkers == WithBlockers(k, kings, occupied, all - rest, 0)
    && pinners == WithBlockers(k, kings, occupied, all - rest, 1)
  }

  lemma ScanStart(k: int, kings: set<int>, occupied: set<int>, all: set<int>)
    ensures Scanned(k, kings, occupied, all, all, {}, {})
  {
    assert all - all == {};
  }

  lemma ScanEnd(k: int, kings: set<int>, occupied: set<int>, all: set<int>, checkers: set<int>, pinners: set<int>)
    requires Scanned(k, kings, occupied, all, {}, checkers, pinners)
    ensures checkers == WithBlockers(k, kings, occupied, all, 0)
    ensures pinners == WithBlockers(k, kings, occupied, all, 1)
  {
    assert all - {} == all;
  }

  /** Clearing the lowest square leaves one square fewer. */
  lemma PopShrinks(x: BitBoard)
    requires x != EMPTY
    ensures Count(PopLowest(x)) < Count(x)
  {
    assert Squares(x) == Squares(PopLowest(x)) + {First(x)};
  }

  lemma ScanStep(k: int, kings: set<int>, occupied: set<int>, all: set<int>,
                 rest: set<int>, checkers: set<int>, pinners: set<int>, a: int,
                 nextCheckers: set<int>, nextPinners: set<int>)
    requires Scanned(k, kings, occupied, all, rest, checkers, pinners) && a in rest
    requires |BlockersAt(k, kings, occupied, a)| == 0 ==> nextCheckers == checkers + {a}
    requires |BlockersAt(k, kings, occupied, a)| != 0 ==> nextCheckers == checkers
    requires |BlockersAt(k, kings, occupied, a)| == 1 ==> nextPinners == pinners + {a}
    requires |BlockersAt(k, kings, occupied, a)| != 1 ==> nextPinners == pinners
    ensures Scanned(k, kings, occupied, all, rest - {a}, nextCheckers, nextPinners)
  {
    assert all - (rest - {a}) == (all - rest) + {a};
    WithBlockersAdd(k, kings, occupied, all - rest, a, 0);
    WithBlockersAdd(k, kings, occupied, all - rest, a, 1);
  }

  /**
   * `attackers`: the rook entry of the king's square masked with the enemy
   * rooks and queens, or-ed with the bishop entry masked with the enemy
   * bishops and queens.
   */
  method Attackers(b: Board, c: Color, k: int, theirs: BitBoard) returns (attackers: BitBoard)
    requires HasKing(b, c) && k == KingSquare(b, c) && theirs == Theirs(b, c)
    ensures Squares(attackers) == SliderAttackers(b, c)
  {
    var rookTable := RookLookup(k);
    var bishopTable := BishopLookup(k);
    attackers := And(And(rookTable, Or(b.pieces.rook, b.pieces.queen)), theirs);
    attackers := OrAssign(attackers, And(And(bishopTable, Or(b.pieces.bishop, b.pieces.queen)), theirs));
  }

  /**
   * The `while attackers > 0` loop: each attacker, lowest square first, is
   * classified by the number of blockers between it and the king.
   */
  method ScanAttackers(occupied: BitBoard, ourKing: BitBoard, attackers: BitBoard) returns (checkers: BitBoard, pinners: BitBoard)
    requires ourKing != EMPTY
    ensures Squares(checkers) == WithBlockers(First(ourKing), Squares(ourKing), Squares(occupied), Squares(attackers), 0)
    ensures Squares(pinners) == WithBlockers(First(ourKing), Squares(ourKing), Squares(occupied), Squares(attackers), 1)
  {
    EmptyFullSquares();
    checkers, pinners := EMPTY, EMPTY;
    ghost var k, kings, occ, all := First(ourKing), Squares(ourKing), Squares(occupied), Squares(attackers);
    ScanStart(k, kings, occ, all);
    var rest := attackers;
    while rest != EMPTY
      invariant Scanned(k, kings, occ, all, Squares(rest), Squares(checkers), Squares(pinners))
      decreases Count(rest)
    {
      var nextCheckers, nextPinners := ClassifyAttacker(occupied, ourKing, First(rest), checkers, pinners);
      ScanStep(k, kings, occ, all, Squares(rest), Squares(checkers), Squares(pinners), First(rest),
        Squares(nextCheckers), Squares(nextPinners));
      checkers, pinners := nextCheckers, nextPinners;
      PopShrinks(rest);
      rest := PopLowest(rest);
    }
    ScanEnd(k, kings, occ, all, Squares(checkers), Squares(pinners));
  }

  /**
   * `checkers_pinners(color)`: every enemy rook or queen on the king's rank
   * or file and every enemy bishop or queen on its diagonals, taken lowest
   * square first, is a checker when no piece stands between it and the king
   * and a pinner when exactly one does. Enemy pieces of any type a knight's
   * jump away and enemy pawns diagonally ahead of the king are checkers too.
   */
  method CheckersPinners(b: Board, c: Color) returns (checkers: BitBoard, pinners: BitBoard)
    requires HasKing(b, c)
    ensures Squares(checkers) == Checkers(b, c)
    ensures Squares(pinners) == Pinners(b, c)
  {
    var ourKing := And(ColorsOf(b, c), PiecesOf(b, Placement.King));
    var k := First(ourKing);
    var theirs;
    match c {
      case White => theirs := ColorsOf(b, Colors.Black);
      case Black => theirs := ColorsOf(b, Colors.White);
    }
    var attackers := Attackers(b, c, k, theirs);
    checkers, pinners := ScanAttackers(Occupied(b), ourKing, attackers);
    var knightTable := KnightLookup(k);
    checkers := OrAssign(checkers, And(knightTable, theirs));
    var pawnTable := PawnAttacks(b, k, c);
    checkers := OrAssign(checkers, And(And(pawnTable, b.pieces.pawn), theirs));
  }

  // ---------------------------------------------------------------------
  // What checkmask_pinmask computes
  // ---------------------------------------------------------------------

  /** The squares strictly between the king on `k` and any square of `sliders`. */
  ghost function Rays(k: int, sliders: set<int>): set<int>
  {
    set s, t | s in sliders && t in BetweenSquares(s, k) :: t
  }

  /**
   * The check mask for the king on `k`, its side's kings `kings` and the
   * checkers `checkers`: the squares between the king and each checker not a
   * knight's jump away, without the kings unless a knight's jump away.
   */
  ghost function CheckMask(k: int, kings: set<int>, checkers: set<int>): set<int>
    requires 0 <= k < 64
  {
    Rays(k, checkers - KnightSquares(k)) * ((AllSquares - kings) + KnightSquares(k))
  }

  /** `p` is on the king's rank, its file or one of its diagonals. */
  predicate OnAxis(k: int, p: int)
  {
    || RankOf(k) == RankOf(p) || FileOf(k) == FileOf(p)
    || RankOf(k) - RankOf(p) == FileOf(k) - FileOf(p) || RankOf(k) - RankOf(p) == FileOf(p) - FileOf(k)
  }

  /** The axis the if-chain of the pin loop picks for a pinner on `p`. */
  function AxisOf(k: int, p: int): Axis
    requires OnAxis(k, p)
  {
    if RankOf(k) == RankOf(p) then Horizontal
    else if FileOf(k) == FileOf(p) then Vertical
    else if RankOf(k) - RankOf(p) == FileOf(k) - FileOf(p) then Diagonal
    else AntiDiagonal
  }

  /** The squares a piece pinned by `p` may still go to: between the king and `p`, and `p`, but none of `ours`. */
  ghost function PinLine(k: int, p: int, ours: set<int>): set<int>
  {
    (BetweenSquares(k, p) + {p}) - ours
  }

  /** The pinners of `pinners` whose axis is `x`. */
  ghost function AxisPinners(k: int, pinners: set<int>, x: Axis): set<int>
  {
    set p | p in pinners && OnAxis(k, p) && AxisOf(k, p) == x
  }

  /** The largest member of `s` below `t`, or -1 when there is none. */
  ghost function Highest(s: set<int>, t: int): int
    requires 0 <= t
    decreases t
  {
    if t == 0 then -1 else if t - 1 in s then t - 1 else Highest(s, t - 1)
  }

  /** The mask of axis `x`: the pin line of the highest pinner on that axis, which the loop sees last. */
  ghost function AxisMask(k: int, ours: set<int>, pinners: set<int>, x: Axis): set<int>
  {
    var p := Highest(AxisPinners(k, pinners, x), 64);
    if p < 0 then {} else PinLine(k, p, ours)
  }

  /** Four square sets, one per axis, as a pin mask stands for them. */
  datatype AxisSets = AxisSets(h: set<int>, v: set<int>, d1: set<int>, d2: set<int>)
  {
    function Set(x: Axis, s: set<int>): AxisSets
    {
      match x
      case Horizontal => this.(h := s)
      case Vertical => this.(v := s)
      case Diagonal => this.(d1 := s)
      case AntiDiagonal => this.(d2 := s)
    }
  }

  ghost function SquaresOf(m: PinMask): AxisSets
  {
    AxisSets(Squares(m.h), Squares(m.v), Squares(m.d1), Squares(m.d2))
  }

  ghost function AxisMasks(k: int, ours: set<int>, pinners: set<int>): AxisSets
  {
    AxisSets(AxisMask(k, ours, pinners, Horizontal), AxisMask(k, ours, pinners, Vertical),
      AxisMask(k, ours, pinners, Diagonal), AxisMask(k, ours, pinners, AntiDiagonal))
  }

  /** `a - b` on `usize`, which wraps (in a build without overflow checks). */
  function UsizeSub(a: int, b: int): int
  {
    (a - b) % 0x1_0000_0000_0000_0000
  }

  /** On ranks and files, wrapped differences are equal exactly when the differences are. */
  lemma UsizeSubEqual(a: int, b: int, c: int, d: int)
    requires 0 <= a < 8 && 0 <= b < 8 && 0 <= c < 8 && 0 <= d < 8
    ensures UsizeSub(a, b) == UsizeSub(c, d) <==> a - b == c - d
  {
    var m := 0x1_0000_0000_0000_0000;
    assert UsizeSub(a, b) == if a >= b then a - b else a - b + m;
    assert UsizeSub(c, d) == if c >= d then c - d else c - d + m;
  }

  // ---------------------------------------------------------------------
  // checkmask_pinmask
  // ---------------------------------------------------------------------

  lemma RaysAdd(k: int, done: set<int>, s: int)
    ensures Rays(k, done + {s}) == Rays(k, done) + BetweenSquares(s, k)
  {}

  /** Every board holds squares of the board only. */
  lemma SquaresOnBoard(x: BitBoard)
    ensures Squares(x) <= AllSquares
  {
    forall t | t in Squares(x) ensures t in AllSquares {
      InSquares(x, t);
    }
  }

  /** The loop state of the slider loop: `mask` holds the rays of the sliders of `all` no longer in `rest`. */
  ghost predicate Rayed(k: int, all: set<int>, rest: set<int>, mask: set<int>)
  {
    RayState(k, all, rest, mask) == true
  }

  ghost predicate RayState(k: int, all: set<int>, rest: set<int>, mask: set<int>)
  {
    rest <= all && mask == Rays(k, all - rest)
  }

  lemma RayStep(k: int, all: set<int>, rest: set<int>, mask: set<int>, s: int, between: set<int>)
    requires Rayed(k, all, rest, mask) && s in rest && between == BetweenSquares(s, k)
    ensures Rayed(k, all, rest - {s}, mask + between)
  {
    assert all - (rest - {s}) == (all - rest) + {s};
    RaysAdd(k, all - rest, s);
  }

  lemma RayEnds(k: int, all: set<int>, mask: set<int>)
    ensures Rayed(k, all, all, {})
    ensures Rayed(k, all, {}, mask) ==> mask == Rays(k, all)
  {
    assert all - all == {};
    assert all - {} == all;
  }

  /** One pass of the slider loop: `checkmask |= between_rays(1 << s, our_king)`. */
  method AddRay(ourKing: BitBoard, s: int, checkmask: BitBoard) returns (next: BitBoard)
    requires ourKing != EMPTY && 0 <= s < 64
    ensures Squares(next) == Squares(checkmask) + BetweenSquares(s, First(ourKing))
  {
    var square := New(s);
    EmptyFullSquares();
    assert First(square) == s;
    var between := BetweenRays(square, ourKing);
    next := OrAssign(checkmask, between);
  }

  /** The `while sliders > 0` loop: the squares between the king and each slider, or-ed together. */
  method SliderRays(ourKing: BitBoard, sliders: BitBoard) returns (checkmask: BitBoard)
    requires ourKing != EMPTY
    ensures Squares(checkmask) == Rays(First(ourKing), Squares(sliders))
  {
    EmptyFullSquares();
    checkmask := EMPTY;
    var rest := sliders;
    ghost var k, all := First(ourKing), Squares(sliders);
    RayEnds(k, all, {});
    while rest != EMPTY
      invariant Rayed(k, all, Squares(rest), Squares(checkmask))
      decreases Count(rest)
    {
      RayStep(k, all, Squares(rest), Squares(checkmask), First(rest), BetweenSquares(First(rest), k));
      checkmask := AddRay(ourKing, First(rest), checkmask);
      PopShrinks(rest);
      rest := PopLowest(rest);
    }
    RayEnds(k, all, Squares(checkmask));
  }

  /** `Highest` finds the largest member below `t`, and -1 exactly when there is none. */
  lemma {:induction false} HighestMax(s: set<int>, t: int)
    requires 0 <= t
    ensures -1 <= Highest(s, t) < t
    ensures Highest(s, t) == -1 <==> forall q :: q in s ==> !(0 <= q < t)
    ensures Highest(s, t) >= 0 ==> Highest(s, t) in s && forall q :: q in s && q < t ==> q <= Highest(s, t)
    decreases t
  {
    if t > 0 && t - 1 !in s {
      HighestMax(s, t - 1);
    }
  }

  /** Adding `p` above every member makes `p` the highest below any `t > p`. */
  lemma {:induction false} HighestTop(s: set<int>, p: int, t: int)
    requires 0 <= p < t && forall q :: q in s ==> q < p
    ensures Highest(s + {p}, t) == p
    decreases t
  {
    if t - 1 != p {
      HighestTop(s, p, t - 1);
    }
  }

  /** A pinner above all earlier ones takes over its axis and leaves the other axes alone. */
  lemma AxisMaskAdd(k: int, ours: set<int>, done: set<int>, p: int, x: Axis)
    requires 0 <= p < 64 && OnAxis(k, p) && forall q :: q in done ==> q < p
    ensures AxisMask(k, ours, done + {p}, x) == if x == AxisOf(k, p) then PinLine(k, p, ours) else AxisMask(k, ours, done, x)
  {
    if x == AxisOf(k, p) {
      assert AxisPinners(k, done + {p}, x) == AxisPinners(k, done, x) + {p};
      HighestTop(AxisPinners(k, done, x), p, 64);
    } else {
      assert AxisPinners(k, done + {p}, x) == AxisPinners(k, done, x);
    }
  }

  lemma AxisMasksAdd(k: int, ours: set<int>, done: set<int>, p: int)
    requires 0 <= p < 64 && OnAxis(k, p) && forall q :: q in done ==> q < p
    ensures AxisMasks(k, ours, done + {p}) == AxisMasks(k, ours, done).Set(AxisOf(k, p), PinLine(k, p, ours))
  {
    AxisMaskAdd(k, ours, done, p, Horizontal);
    AxisMaskAdd(k, ours, done, p, Vertical);
    AxisMaskAdd(k, ours, done, p, Diagonal);
    AxisMaskAdd(k, ours, done, p, AntiDiagonal);
  }

  /** Without pinners every axis is empty. */
  lemma AxisMasksNone(k: int, ours: set<int>)
    ensures AxisMasks(k, ours, {}) == AxisSets({}, {}, {}, {})
  {
    HighestMax(AxisPinners(k, {}, Horizontal), 64);
    HighestMax(AxisPinners(k, {}, Vertical), 64);
    HighestMax(AxisPinners(k, {}, Diagonal), 64);
    HighestMax(AxisPinners(k, {}, AntiDiagonal), 64);
  }

  /**
   * The loop state of the pin loop: the pinners of `all` no longer in
   * `rest` lie below `floor` and those still in it do not, and `masks` is
   * what the former set.
   */
  ghost predicate Pinned(k: int, ours: set<int>, all: set<int>, rest: set<int>, masks: AxisSets, floor: int)
  {
    PinState(k, ours, all, rest, masks, floor) == true
  }

  ghost predicate PinState(k: int, ours: set<int>, all: set<int>, rest: set<int>, masks: AxisSets, floor: int)
  {
    && rest <= all
    && (forall d :: d in all - rest ==> d < floor)
    && (forall r :: r in rest ==> floor <= r)
    && masks == AxisMasks(k, ours, all - rest)
  }

  lemma PinStart(k: int, ours: set<int>, all: set<int>)
    requires all <= AllSquares
    ensures Pinned(k, ours, all, all, AxisSets({}, {}, {}, {}), 0)
  {
    assert all - all == {};
    AxisMasksNone(k, ours);
  }

  lemma PinStep(k: int, ours: set<int>, all: set<int>, rest: set<int>, masks: AxisSets, floor: int, p: int)
    requires Pinned(k, ours, all, rest, masks, floor) && p in rest && 0 <= p < 64 && OnAxis(k, p)
    requires forall r :: r in rest ==> p <= r
    ensures Pinned(k, ours, all, rest - {p}, masks.Set(AxisOf(k, p), PinLine(k, p, ours)), p + 1)
  {
    var done := all - rest;
    assert all - (rest - {p}) == done + {p};
    AxisMasksAdd(k, ours, done, p);
  }

  lemma PinEnd(k: int, ours: set<int>, all: set<int>, masks: AxisSets, floor: int)
    requires Pinned(k, ours, all, {}, masks, floor)
    ensures masks == AxisMasks(k, ours, all)
  {
    assert all - {} == all;
  }

  /** `(between_rays(our_king, 1 << p) | 1 << p) & !colors(color)`. */
  method PinLineOf(ourKing: BitBoard, ours: BitBoard, p: int) returns (pin: BitBoard)
    requires ourKing != EMPTY && 0 <= p < 64
    ensures Squares(pin) == PinLine(First(ourKing), p, Squares(ours))
  {
    var square := New(p);
    EmptyFullSquares();
    assert First(square) == p;
    var between := BetweenRays(ourKing, square);
    BetweenEnds(First(ourKing), p);
    pin := And(Or(between, square), Not(ours));
    MaskOut(Squares(between) + {p}, Squares(ours));
  }

  /** Masking with the complement of `ours` removes `ours`. */
  lemma MaskOut(s: set<int>, ours: set<int>)
    requires s <= AllSquares
    ensures s * (AllSquares - ours) == s - ours
  {}

  /**
   * One pass of the pin loop: the pinner on `p` sets the mask of its axis,
   * chosen in the order rank, file, rising diagonal, falling diagonal.
   */
  method PinAxis(ourKing: BitBoard, ours: BitBoard, kingRank: int, kingFile: int, p: int, pinmask: PinMask)
    returns (next: PinMask)
    requires ourKing != EMPTY && 0 <= p < 64 && kingRank == First(ourKing) / 8 && kingFile == First(ourKing) % 8
    requires OnAxis(First(ourKing), p)
    ensures SquaresOf(next) == SquaresOf(pinmask).Set(AxisOf(First(ourKing), p), PinLine(First(ourKing), p, Squares(ours)))
  {
    var rank := p / 8;
    var file := p % 8;
    var pin := PinLineOf(ourKing, ours, p);
    ghost var x := AxisOf(First(ourKing), p);
    ghost var line := PinLine(First(ourKing), p, Squares(ours));
    UsizeSubEqual(kingRank, rank, kingFile, file);
    UsizeSubEqual(kingRank, rank, file, kingFile);
    if kingRank == rank {
      assert x == Horizontal;
      next := pinmask.(h := pin);
    } else if kingFile == file {
      assert x == Vertical;
      next := pinmask.(v := pin);
    } else if UsizeSub(kingRank, rank) == UsizeSub(kingFile, file) {
      assert x == Diagonal;
      next := pinmask.(d1 := pin);
    } else if UsizeSub(kingRank, rank) == UsizeSub(file, kingFile) {
      assert x == AntiDiagonal;
      next := pinmask.(d2 := pin);
    } else {
      assert false;
    }
  }

  /** The `while pinners.0 > 0` loop: each pinner, lowest square first, sets the mask of its axis. */
  method PinAxes(ourKing: BitBoard, ours: BitBoard, pinners: BitBoard) returns (pinmask: PinMask)
    requires ourKing != EMPTY
    requires forall p :: p in Squares(pinners) ==> OnAxis(First(ourKing), p)
    ensures SquaresOf(pinmask) == AxisMasks(First(ourKing), Squares(ours), Squares(pinners))
  {
    EmptyFullSquares();
    pinmask := PinMask(EMPTY, EMPTY, EMPTY, EMPTY);
    var kingRank := First(ourKing) / 8;
    var kingFile := First(ourKing) % 8;
    ghost var k, o, all := First(ourKing), Squares(ours), Squares(pinners);
    SquaresOnBoard(pinners);
    PinStart(k, o, all);
    ghost var floor := 0;
    var rest := pinners;
    while rest != EMPTY
      invariant Squares(rest) <= all
      invariant Pinned(k, o, all, Squares(rest), SquaresOf(pinmask), floor)
      decreases Count(rest)
    {
      PinStep(k, o, all, Squares(rest), SquaresOf(pinmask), floor, First(rest));
      floor := First(rest) + 1;
      pinmask := PinAxis(ourKing, ours, kingRank, kingFile, First(rest), pinmask);
      PopShrinks(rest);
      rest := PopLowest(rest);
    }
    PinEnd(k, o, all, SquaresOf(pinmask), floor);
  }

  /**
   * `checkmask_pinmask(color, checkers, pinners)`: the check mask holds the
   * squares between the king and every checker not a knight's jump away
   * (never a checker's own square), without the king; each axis of the pin
   * mask holds the line from the king to the last pinner on that axis,
   * without the pieces of `color`. A pinner on no axis through the king
   * stops the program.
   */
  method CheckmaskPinmask(b: Board, c: Color, checkers: BitBoard, pinners: BitBoard)
    returns (checkmask: BitBoard, pinmask: PinMask)
    requires HasKing(b, c)
    requires forall p :: p in Squares(pinners) ==> OnAxis(KingSquare(b, c), p)
    ensures Squares(checkmask) == CheckMask(KingSquare(b, c), Squares(OurKing(b, c)), Squares(checkers))
    ensures SquaresOf(pinmask) == AxisMasks(KingSquare(b, c), Squares(ColorsOf(b, c)), Squares(pinners))
  {
    var ourKing := And(ColorsOf(b, c), PiecesOf(b, Placement.King));
    checkmask := CheckMaskOf(ourKing, checkers);
    pinmask := PinAxes(ourKing, ColorsOf(b, c), pinners);
  }

  /** The check-mask half of `checkmask_pinmask`. */
  method CheckMaskOf(ourKing: BitBoard, checkers: BitBoard) returns (checkmask: BitBoard)
    requires ourKing != EMPTY
    ensures Squares(checkmask) == CheckMask(First(ourKing), Squares(ourKing), Squares(checkers))
  {
    var k := First(ourKing);
    var knightTable := KnightLookup(k);
    var sliders := And(checkers, Not(knightTable));
    SquaresOnBoard(checkers);
    MaskOut(Squares(checkers), KnightSquares(k));
    checkmask := SliderRays(ourKing, sliders);
    checkmask := AndAssign(checkmask, Or(Not(ourKing), knightTable));
  }
}
