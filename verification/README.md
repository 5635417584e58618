# Bitboard chess geometry, modelled in Dafny

This project models the core of a small Rust chess library:

- the 64-bit square set `BitBoard`;
- the attack tables for king, knight, pawn captures, rook, bishop and queen, built on a 12x10 padded "mailbox" board;
- the "squares strictly between" table;
- the check and pin detector of `Board`;
- the parsers for the fields of a Forsyth–Edwards Notation (FEN) record: piece placement, side to move, castling, en passant and the two clocks.

Every board is a `bv64`. `BitBoards.Squares(b)` is the set of squares it stands for, square `rank * 8 + file`. Each operation is specified by what it does to that set. The loops of the source stay loops: the lookup builders, the between-walk, the detector's bit-clearing loops and the placement parser are methods with loop invariants. Each method is proved against a plain rank/file or set-level definition, and the properties the library relies on are lemmas about those definitions.

Modules, one per source file:

| module | file | source |
|---|---|---|
| `BitBoards` | bitboard.dfy | src/bitboard.rs |
| `Colors` | color.dfy | src/color.rs |
| `Lookup` | lookup.dfy | src/lookup.rs |
| `Moves` | moves.dfy | src/moves.rs |
| `Placement` | pieces.dfy | src/pieces.rs |
| `GameStates` | gamestate.dfy | src/gamestate.rs |
| `Boards` | board.dfy | src/board.rs and the `PinMask` record of src/pin.rs |
| `BoardFacts` | board_facts.dfy | geometric facts about the src/board.rs detector |
| `Text` | text.dfy | `str::split` on one character, ASCII `to_lowercase` |
| `StartPosition` | start.dfy | the FEN record `Board::default` parses |

The model keeps these quirks of the code:

- Rook, bishop and queen entries hold the piece's own square. `multiplier` is reset to 0, not 1, after the first direction, so the later directions test distance 0 first (`Lookup.StartMultiplier`, `Lookup.SliderHoldsOrigin`).
- Knight-square checkers are masked by colour only: any enemy piece a knight's jump from the king is a checker (`BoardFacts.KnightCheckerIff`).
- The check mask holds only squares strictly between the king and a slider, never a checker's own square (`BoardFacts.CheckMaskIff`, `BoardFacts.CheckMaskAvoidsCheckers`).
- A later pinner on an axis overwrites the earlier one (`BoardFacts.LastPinnerWins`).

Rust panics are preconditions. These include:

- a table indexed at 64 when a side has no king;
- `usize` underflow in the parsers;
- a shift of 64 or more in `BitBoard::new` or `offset`;
- the `assert!` on a ninth placement segment;
- `panic!` on an invalid pin or side to move.

## Model

| member | source | states |
|---|---|---|
| BitBoards.Not | src/bitboard.rs:4-9 | the complement holds exactly the board squares not in the operand |
| BitBoards.And | src/bitboard.rs:11-16 | the result's squares are the intersection of the operands' squares |
| BitBoards.Or | src/bitboard.rs:17-22 | the result's squares are the union of the operands' squares |
| BitBoards.Xor | src/bitboard.rs:23-28 | the result's squares are the symmetric difference of the operands' squares |
| BitBoards.NotSquares | src/bitboard.rs:4-9 | `Squares(!a)` is the 64 squares minus `Squares(a)`, proved bit by bit |
| BitBoards.AndSquares | src/bitboard.rs:11-16 | `Squares(a & b)` is the intersection, proved bit by bit |
| BitBoards.OrSquares | src/bitboard.rs:17-22 | `Squares(a \| b)` is the union, proved bit by bit |
| BitBoards.XorSquares | src/bitboard.rs:23-28 | `Squares(a ^ b)` is the symmetric difference, proved bit by bit |
| BitBoards.AndAssign | src/bitboard.rs:30-34 | `self &= rhs` leaves `self` equal to `self & rhs`, the intersection |
| BitBoards.OrAssign | src/bitboard.rs:35-39 | `self \|= rhs` leaves `self` equal to `self \| rhs`, the union |
| BitBoards.XorAssign | src/bitboard.rs:40-44 | `self ^= rhs` leaves `self` equal to `self ^ rhs`, the symmetric difference |
| BitBoards.Sub | src/bitboard.rs:45-50 | subtraction needs `rhs <= self` (no underflow); when `rhs`'s squares lie among `self`'s, it removes them |
| BitBoards.SubsetSubAt | src/bitboard.rs:45-50 | subtracting a word whose bits all lie in `a` equals clearing them with xor |
| BitBoards.EmptyFullSquares | src/bitboard.rs:53-54 | `EMPTY` has no square, `FULL` has all 64, and `FULL == !EMPTY` |
| BitBoards.SquaresInjective | src/bitboard.rs:1-2 | two boards with the same squares are the same word, so the square-set view loses nothing |
| BitBoards.New | src/bitboard.rs:55-57 | for `i < 64`, `new(i)` holds square `i` and nothing else |
| BitBoards.NewCount | src/bitboard.rs:55-63 | `count(new(i)) == 1` and `first(new(i)) == i` |
| BitBoards.First | src/bitboard.rs:58-60 | `first()` is the lowest square of the board, no square lies below it, and it is 64 exactly for `EMPTY` |
| BitBoards.FirstIsLowest | src/bitboard.rs:58-60 | a trailing-zero count is a member of the board that no member lies below, or 64 for an empty board |
| BitBoards.Count | src/bitboard.rs:61-63 | `count()` is the number of squares on the board, at most 64 |
| BitBoards.Rank | src/bitboard.rs:67-69 | `rank()` lies in 0..8 and is 8 exactly for `EMPTY` |
| BitBoards.File | src/bitboard.rs:70-72 | `file()` lies in 0..7 and `rank() * 8 + file() == first()` |
| BitBoards.Offset | src/bitboard.rs:73-78 | `offset(r, f)` is the single square at the new rank and file, when the shift stays below 64 |
| BitBoards.OffsetOnBoard | src/bitboard.rs:73-78 | when both new coordinates are in 0..7 the shift is legal and the result is `new((rank + r) * 8 + file + f)` |
| BitBoards.PopLowest | src/board.rs:111 | `x &= x - 1` removes exactly the lowest square of a non-empty board |
| BitBoards.PopLowestSquares | src/board.rs:111 | the word `x & (x - 1)` holds the squares of `x` less `first(x)` |
| Colors.Not | src/color.rs:6-13 | no colour is its own negation |
| Colors.NotInvolutive | src/color.rs:6-13 | `!!c == c`, and `!c` is White exactly when `c` is Black |
| Lookup.MailboxOfSquare | src/lookup.rs:5-7 | `to_12x10(sq) == 21 + 10 * rank + file` |
| Lookup.MailboxRoundTrip | src/lookup.rs:5-16 | every square's cell passes `verify_index`, and `to_8x8(to_12x10(sq)) == sq` |
| Lookup.MailboxCell | src/lookup.rs:8-16 | a cell up to two files off the board is accepted exactly when on the board, and then maps back to its square: no step wraps across an edge |
| Lookup.AcceptedSquare | src/lookup.rs:24 | every accepted cell maps to a square 0..63 |
| Lookup.StepLookup | src/lookup.rs:18-30 | the single-step loop ORs in exactly the accepted targets of its offsets |
| Lookup.StepGeo | src/lookup.rs:18-30 | a mailbox step of at most two files reaches the same square as the rank/file step, or none when that is off the board |
| Lookup.StepTargetsGeo | src/lookup.rs:18-30 | the targets of a list of mailbox offsets are exactly the squares at the matching rank/file displacements |
| Lookup.KingTargets | src/lookup.rs:18-30 | the king offsets reach exactly the squares at Chebyshev distance 1 |
| Lookup.KnightTargets | src/lookup.rs:94-106 | the knight offsets reach exactly the squares (1,2) or (2,1) away |
| Lookup.WhitePawnTargets | src/lookup.rs:107-119 | the white pawn offsets reach the squares one rank up and one file to either side |
| Lookup.BlackPawnTargets | src/lookup.rs:120-132 | the black pawn offsets reach the squares one rank down and one file to either side |
| Lookup.KingLookup | src/lookup.rs:18-30 | `king_lookup(i)` is the squares at Chebyshev distance exactly 1 from `i` |
| Lookup.KnightLookup | src/lookup.rs:94-106 | `knight_lookup(i)` is the squares a knight's jump from `i` |
| Lookup.WhitePawnLookup | src/lookup.rs:107-119 | `white_pawn_lookup(i)` is the one or two squares diagonally up from `i` |
| Lookup.BlackPawnLookup | src/lookup.rs:120-132 | `black_pawn_lookup(i)` is the one or two squares diagonally down from `i` |
| Lookup.KingSymmetric | src/lookup.rs:18-30 | `j` is in the king entry of `i` exactly when `i` is in that of `j` |
| Lookup.KnightSymmetric | src/lookup.rs:94-106 | `j` is in the knight entry of `i` exactly when `i` is in that of `j` |
| Lookup.PawnMirror | src/lookup.rs:107-132 | `j` is in the white pawn entry of `i` exactly when `i` is in the black pawn entry of `j` |
| Lookup.PawnEdges | src/lookup.rs:107-132 | white entries on rank 7 and black entries on rank 0 are empty |
| Lookup.SlideDirection | src/lookup.rs:37-46 | the inner `while multiplier < 8` loop adds the squares of one direction up to the first rejected cell |
| Lookup.SlideLookup | src/lookup.rs:31-93 | the outer slider loop ORs in each direction's ray, the first from multiplier 1 and the rest from 0 |
| Lookup.RayWalk | src/lookup.rs:37-46 | a mailbox slide in a unit direction sets exactly the on-board squares of a straight walk, stopping at the edge |
| Lookup.WalkMember | src/lookup.rs:37-46 | a straight walk reaches exactly the on-board squares at steps `k..7` |
| Lookup.SlideTargetsWalks | src/lookup.rs:31-93 | the slides of a list of mailbox offsets are the walks of the matching unit directions |
| Lookup.SlideWalksMember | src/lookup.rs:31-93 | a square is on the slides exactly when one direction's walk, started as the loop starts it, reaches it |
| Lookup.RookFrom | src/lookup.rs:52-72 | every square a rook slide reaches is on the origin's rank or file |
| Lookup.RookTo | src/lookup.rs:52-72 | every square on the origin's rank or file, the origin included, is on some rook slide |
| Lookup.BishopFrom | src/lookup.rs:73-93 | every square a bishop slide reaches is on one of the origin's diagonals |
| Lookup.BishopTo | src/lookup.rs:73-93 | every square on the origin's diagonals, the origin included, is on some bishop slide |
| Lookup.QueenFrom | src/lookup.rs:31-51 | every square a queen slide reaches is on the origin's rank, file or diagonals |
| Lookup.QueenLine | src/lookup.rs:31-51 | a slide in any unit direction stays on the origin's rank, file or diagonals |
| Lookup.QueenTo | src/lookup.rs:31-51 | every square on the origin's lines is on some queen slide |
| Lookup.RookTargets | src/lookup.rs:52-72 | the rook offsets slide onto exactly the origin's rank and file, the origin included |
| Lookup.BishopTargets | src/lookup.rs:73-93 | the bishop offsets slide onto exactly the origin's diagonals, the origin included |
| Lookup.QueenTargets | src/lookup.rs:31-51 | the queen offsets slide onto exactly the union of the rook and bishop squares |
| Lookup.RookLookup | src/lookup.rs:52-72 | `rook_lookup(i)` is every square on `i`'s rank and file, `i` included |
| Lookup.BishopLookup | src/lookup.rs:73-93 | `bishop_lookup(i)` is every square on `i`'s two diagonals, `i` included |
| Lookup.QueenLookup | src/lookup.rs:31-51 | `queen_lookup(i)` is the rook squares and the bishop squares of `i` together |
| Lookup.QueenIsRookOrBishop | src/lookup.rs:31-93 | the queen entry equals `rook_lookup(i) \| bishop_lookup(i)` as a word |
| Lookup.SliderHoldsOrigin | src/lookup.rs:47 | rook, bishop and queen entries contain the origin square, because the multiplier restarts at 0 |
| Lookup.GenerateKing | src/lookup.rs:187-195 | entry `i` of the built table is the king lookup of `i`, for every `i` in 0..63 |
| Lookup.GenerateQueen | src/lookup.rs:196-204 | entry `i` is the queen lookup of `i` |
| Lookup.GenerateRook | src/lookup.rs:205-213 | entry `i` is the rook lookup of `i` |
| Lookup.GenerateBishop | src/lookup.rs:214-222 | entry `i` is the bishop lookup of `i` |
| Lookup.GenerateKnight | src/lookup.rs:223-231 | entry `i` is the knight lookup of `i` |
| Lookup.GenerateWhitePawn | src/lookup.rs:232-240 | entry `i` is the white pawn lookup of `i` |
| Lookup.GenerateBlackPawn | src/lookup.rs:241-249 | entry `i` is the black pawn lookup of `i` |
| Moves.StepOnBoard | src/moves.rs:20-28 | for aligned squares every step of the walk up to `to` is on the board, and it meets `to` only at the last step |
| Moves.BetweenEnds | src/moves.rs:12-30 | the walk takes at most 7 steps; the result never holds either endpoint, holds only board squares, and is empty for a square with itself or a neighbour |
| Moves.BetweenSymmetric | src/moves.rs:12-30 | `between(a, b) == between(b, a)` |
| Moves.StepReversed | src/moves.rs:20-28 | the walk from `b` to `a` visits the same squares in reverse order |
| Moves.Unaligned | src/moves.rs:15-19 | squares sharing no rank, file or diagonal have nothing between them |
| Moves.BetweenIff | src/moves.rs:12-30 | a square is collected by the walk exactly when it lies on the segment: aligned with `a`, toward `b`, strictly nearer than `b` |
| Moves.BetweenOnSegment | src/moves.rs:20-28 | every collected square is on the segment |
| Moves.SegmentBetween | src/moves.rs:20-28 | every square on the segment is collected |
| Moves.OffsetStep | src/moves.rs:27 | each `offset(dr, df)` of the walk stays on the board and lands on the next step |
| Moves.WalkStart | src/moves.rs:20-23 | the first `offset` from `from` is step 1 of the walk, with nothing collected |
| Moves.WalkStep | src/moves.rs:24-28 | a square that is not `to` is collected, the walk has steps left, and the next `offset` is legal |
| Moves.WalkDone | src/moves.rs:24-29 | when the walk's square equals `to`, the collected squares are exactly those between |
| Moves.BetweenWalk | src/moves.rs:12-30 | the inner walk returns exactly the squares between the lowest square of `from` and the square of `to` |
| Moves.SquareWalk | src/moves.rs:38 | each table entry is the walk between the single squares `from` and `to` |
| Moves.BetweenTable | src/moves.rs:32-46 | every entry `[f][t]` of the 64x64 table holds the squares between `f` and `t` |
| Moves.BetweenRays | src/moves.rs:11-48 | the exported call returns the squares between the lowest squares of its two non-empty arguments |
| Placement.SegmentPlacements | src/pieces.rs:36-91 | every placement a segment makes is a piece letter on a square 0..63 |
| Placement.ReadSquare | src/pieces.rs:37-90 | a letter is placed on `index` in its type's and its colour's board; a space stops the segment; any other character moves the offset by `c - '1'` |
| Placement.ReadStep | src/pieces.rs:37-90 | one character keeps the reading invariant: letters place their square, skips move the offset |
| Placement.ReadRank | src/pieces.rs:36-93 | after segment `rankCount`, the boards hold what the first `rankCount + 1` segments place |
| Placement.FromStr | src/pieces.rs:18-105 | the parser returns the empty boards with every letter of every segment placed, in reading order |
| Placement.PlaceAllSquares | src/pieces.rs:39-87 | placing letters adds to each type board exactly the squares of letters of that type, and to each colour board those of that colour |
| Placement.FromStrSquares | src/pieces.rs:39-87 | each returned board holds exactly the squares where a letter of its type, or of its colour, is placed |
| Placement.PlacedCovered | src/pieces.rs:39-87 | the six type boards together, and the two colour boards together, hold the same squares: every placed square |
| Placement.DistinctDisjoint | src/pieces.rs:39-87 | when no square is placed twice, the colour boards are disjoint and so are two different type boards |
| Placement.LetterPlaced | src/pieces.rs:36-90 | each letter before the first space lands on `base` plus the cells the characters before it cover |
| Placement.PlacedLetter | src/pieces.rs:36-90 | conversely, every placement comes from a letter before the first space, on that square |
| Placement.SegmentAscending | src/pieces.rs:36-90 | the squares a segment places rise strictly from its first square on |
| Placement.FromStrLetter | src/pieces.rs:31-90 | the letter at position `j` of segment `k` is on the boards of its type and colour at square `(7 - k) * 8` plus the cells before it |
| Placement.SegmentsLetter | src/pieces.rs:31-90 | that letter is among the placements of the whole record |
| Placement.LettersParse | src/pieces.rs:35-41 | a segment of at most eight letters, ended by its end or a space, reads without a panic on any rank |
| Placement.SkipParses | src/pieces.rs:89 | a segment that is one skip character reads without a panic |
| Placement.EmptyRankPlacements | src/pieces.rs:89 | the segment `8` reads without a panic and places nothing |
| Placement.SpaceEnds | src/pieces.rs:88 | what follows a space in a segment is never read: it changes neither whether the segment parses nor what it places |
| Placement.LettersPlacements | src/pieces.rs:36-87 | a segment of eight piece letters places its letter `i` on square `base + i`, one placement per letter |
| Placement.RankPlacements | src/pieces.rs:36-87 | a segment of eight piece letters read as rank `r` places exactly the full rank: letter `i` on square `8 * r + i` |
| Placement.PlacementsNext | src/pieces.rs:34-93 | each segment adds its placements after those of the segments before it |
| Placement.SquaresAppend | src/pieces.rs:39-87 | the squares of each type and colour that `xs + ys` places are the union of those `xs` and `ys` place |
| Placement.Classify | src/pieces.rs:39-87 | each of `KQRBNP` names its type in white and each of `kqrbnp` the same type in black |
| Placement.PlaceAllAppend | src/pieces.rs:34-94 | placing `xs` and then `ys` is placing `xs + ys`, so filling the boards segment by segment places all letters in reading order |
| GameStates.EnPassant | src/gamestate.rs:21-29 | `-` gives none; a file letter and rank digit give the square `file + 8 * rank` |
| GameStates.FromStr | src/gamestate.rs:13-34 | each castling flag is whether field 2 holds `Q`, `K`, `q`, `k`; en passant is none exactly for `-`, and otherwise `file + 8 * rank` read from the first two characters of field 3 (`EnPassant`) |
| GameStates.EnPassantName | src/gamestate.rs:21-29 | reading a square's algebraic name gives the square back |
| GameStates.CastlingOrderFree | src/gamestate.rs:15-20 | the castling flags depend only on which letters field 2 holds, not their order |
| GameStates.NoCastling | src/gamestate.rs:15-20 | a castling field `-` grants no right |
| Boards.SideToMove | src/board.rs:23-29 | `w` or `W` is White and `b` or `B` is Black; any other field panics |
| Boards.FromStr | src/board.rs:19-40 | the board holds the placement and game-state parses, the side named by field 1, and each clock from the first character of fields 4 and 5 |
| Boards.Default | src/board.rs:42-48 | the default board is the initial position, White to move, clocks 0 and 1, all castling rights, no en passant square; the kings stand on squares 4 and 60, White fills ranks 1 and 2, Black ranks 7 and 8 |
| StartPosition.StartPlacements | src/board.rs:44 | reading the initial position places, eighth rank first, the letters of `rnbqkbnr`, `pppppppp`, `PPPPPPPP` and `RNBQKBNR` on their ranks in file order |
| StartPosition.StartSquares | src/board.rs:44 | in the initial position kings are placed on squares 4 and 60 only, white letters on exactly ranks 1 and 2, black letters on exactly ranks 7 and 8 |
| StartPosition.StartPlacementParses | src/board.rs:44 | the placement field of the initial position reads without a panic |
| StartPosition.StartFenFields | src/board.rs:44 | the initial record splits at spaces into its six fields |
| StartPosition.StartFenSegments | src/board.rs:44 | the initial record splits at `/` into the eight ranks, the last running on into the other fields |
| Boards.StartFenParses | src/board.rs:44-47 | the initial position's record satisfies every demand `from_str` makes |
| Boards.ColorsOf | src/board.rs:51-56 | `colors(c)` is the board of side `c` |
| Boards.PiecesOf | src/board.rs:57-66 | `pieces(t)` is the board of piece type `t` |
| Boards.Occupied | src/board.rs:67-69 | `occupied()` is the union of the white and black boards |
| Boards.OccupiedBySides | src/board.rs:67-69 | the occupied squares are those of one side and of the other |
| Boards.PawnAttacks | src/board.rs:70-75 | `pawn_attacks(i, c)` is the pawn-capture entry of colour `c` for square `i` |
| Boards.PawnAttacksMirror | src/board.rs:114-118 | a pawn of colour `c` on `i` attacks `j` exactly when a pawn of the other colour on `j` attacks `i` |
| Boards.KingSquare | src/board.rs:77 | a side with a king has its king's square, 0..63, among its kings |
| Boards.Attackers | src/board.rs:85-90 | the attackers are the enemy rooks and queens on the king's rank or file and enemy bishops and queens on its diagonals |
| Boards.BlockersOf | src/board.rs:100-105 | the blockers of attacker `a` are the occupied squares strictly between `a` and the king, our kings and `a` excluded |
| Boards.ClassifyAttacker | src/board.rs:106-110 | an attacker with 0 blockers is added to checkers, one with 1 to pinners, one with more to neither |
| Boards.ScanAttackers | src/board.rs:99-112 | the loop makes checkers exactly the attackers with 0 blockers and pinners those with 1 |
| Boards.CheckersPinners | src/board.rs:76-120 | checkers are the unblocked slider attackers, the enemy pieces a knight's jump away and the enemy pawns attacking the king; pinners are the slider attackers with exactly one blocker |
| Boards.AddRay | src/board.rs:132-136 | one pass ORs in the squares between the king and one slider |
| Boards.SliderRays | src/board.rs:131-139 | the slider loop builds the union of the squares between the king and each slider |
| Boards.CheckMaskOf | src/board.rs:127-140 | the check mask is the squares between the king and each checker not a knight's jump away, without our kings unless a knight's jump away |
| Boards.UsizeSubEqual | src/board.rs:160-162 | on ranks and files, wrapped `usize` differences are equal exactly when the integer differences are |
| Boards.PinLineOf | src/board.rs:153-155 | a pin line is the squares between the king and the pinner, plus the pinner, less the side's own pieces |
| Boards.PinAxis | src/board.rs:150-167 | one pinner sets the mask of its axis, chosen in the order rank, file, rising diagonal, falling diagonal, and leaves the other three alone |
| Boards.PinAxes | src/board.rs:142-168 | each axis ends as the pin line of the highest pinner on it, and empty without one |
| Boards.AxisMaskAdd | src/board.rs:150-167 | a pinner above all earlier ones takes over its axis and leaves the others unchanged |
| Boards.AxisMasksAdd | src/board.rs:150-167 | over all four axes: a new highest pinner replaces the mask of its own axis only |
| Boards.AxisMasksNone | src/board.rs:142-147 | with no pinner every axis mask is empty, as the mask starts |
| Boards.HighestMax | src/board.rs:150 | the highest member below a bound is a member no other exceeds, and -1 exactly for none |
| Boards.CheckmaskPinmask | src/board.rs:121-170 | returns the check mask of the checkers and, per axis, the pin line of the last pinner on it without the side's pieces |
| BoardFacts.BlockersOnSegment | src/board.rs:100-105 | the counted blockers are the occupied squares on the segment from attacker to king, our kings excepted |
| BoardFacts.NoBlockerIff | src/board.rs:106-107 | an attacker is a checker exactly when no occupied square is on its segment to the king |
| BoardFacts.OneBlockerIff | src/board.rs:108 | an attacker is a pinner exactly when one occupied square, and no other, is on its segment |
| BoardFacts.CheckersNotPinners | src/board.rs:106-110 | no attacker is both checker and pinner, and both are attackers |
| BoardFacts.PinnersOnAxis | src/board.rs:150-166 | every returned pinner is on one of the king's four axes and is not the king's square, so the pin loop never panics |
| BoardFacts.PinnersShape | src/board.rs:85-112 | pinners are enemy rooks, bishops or queens, and no slider checker is also a pinner |
| BoardFacts.CheckersEnemy | src/board.rs:85-118 | every checker is an enemy piece |
| BoardFacts.AttackersOnLines | src/board.rs:85-90 | the slider attackers lie on the king's rank, file or diagonals |
| BoardFacts.AttackersEnemySliders | src/board.rs:85-90 | the slider attackers are enemy rooks, bishops and queens |
| BoardFacts.PawnCheckersAdjacent | src/board.rs:114-118 | pawn checkers stand one step from the king |
| BoardFacts.KnightCheckerIff | src/board.rs:113 | a square is a knight checker exactly when it holds an enemy piece of any type a knight's jump from the king |
| BoardFacts.PawnCheckerIff | src/board.rs:114-118 | a square is a pawn checker exactly when it holds an enemy pawn whose capture squares hold the king |
| BoardFacts.CheckMaskIff | src/board.rs:128-140 | a square is in the check mask exactly when it is on the segment from the king to a checker not a knight's jump away, and is not one of our kings unless a knight's jump away |
| BoardFacts.CheckMaskKing | src/board.rs:140 | the king's square is never in the check mask, and checkers all a knight's jump away leave it empty |
| BoardFacts.CheckMaskAvoidsCheckers | src/board.rs:121-140 | the check mask built from the returned checkers holds none of them |
| BoardFacts.CheckersOccupied | src/board.rs:85-118 | when no square holds both sides, every checker is occupied and is not one of our kings |
| BoardFacts.Enemies | src/board.rs:67-69 | when no square holds both sides, the enemy pieces are occupied squares and none of them is one of our kings |
| BoardFacts.PinLineIff | src/board.rs:153-155 | a square is on a pin line exactly when it is the pinner or on the segment to it, and is not one of ours |
| BoardFacts.LastPinnerWins | src/board.rs:156-163 | the highest pinner on an axis decides that axis's mask; earlier ones leave no trace |
| BoardFacts.AxisMaskEmpty | src/board.rs:142-167 | no axis mask holds our pieces; an axis with no pinner on it is empty; and when no pinner is ours an axis is empty exactly when no pinner is on it |
| Text.Split | src/pieces.rs:31 | the parts of `split` hold no separator and join back to the input |
| Text.SplitJoin | src/gamestate.rs:14 | splitting the join of separator-free parts gives the parts back |
| Text.Lower | src/board.rs:23 | ASCII `to_lowercase` keeps the length and lowers each character |

## Left out

- `king_moves` (src/board.rs:171-177) is a `todo!()` stub, and the `Move` record (src/moves.rs:5-9) is unused; neither is modelled.
- The `time_table` test (src/moves.rs:49-58) measures wall-clock time and prints; it has no behaviour to state.
- The commented-out `generate_key` and `generate_slide_lookup` (src/lookup.rs:134-186) are dead code.
- The crate root that defines `ROOK_LOOKUP`, `BISHOP_LOOKUP`, `KNIGHT_LOOKUP` and the pawn tables is not part of this model. The detector methods call the lookup methods where the source reads a table entry. The tables are taken to equal their `generate_*` results, and compile-time evaluation and sharing are not modelled.
- The `usize` subtractions of the pin test (src/board.rs:160, 162) panic in a build with overflow checks when the pinner's rank or file exceeds the king's. The model follows the wrapping build (`Boards.UsizeSub`), where the comparisons equal integer comparisons.
- Boards.KingSquare: with several kings of one side, the model uses the lowest one, like `trailing_zeros`; only one king per side is meaningful.
- Moves.BetweenWalk: requires `to` to be a single square, as every table entry is built; with more squares the source loop would never meet `to`.
- BitBoards.Sub: the contract gives the resulting squares only when `rhs`'s squares lie among `self`'s (the only use, `x - 1` style clearing, is covered by `PopLowest`); other differences of two words are not described as sets.
- BitBoards.Offset: the square is given when the new file is 0..7; a file of 8 or more that still shifts below 64 lands on another rank, and that word is not described.
- Placement.DistinctDisjoint: a record whose skips overrun a rank can place two letters on one square, which may then be in both colour boards; the lemma assumes distinct squares.
- Placement.FromStrLetter: stated over the segments `Split(s, '/')` of the record; `AllPlacements(s)` is by definition the placements of those segments.
- The parsers read characters, not bytes: `rank.as_bytes()[sq] as char` agrees with the character for ASCII text only, and non-ASCII input is not modelled. `to_lowercase` is modelled for ASCII letters only.
- Boards.FromStr: each clock is its field's first character minus `'0'`, as the source computes; longer clock fields are not read further.
- `Board::default` parses one fixed record. `StartPosition.StartFen` is written as the join of its six fields and eight ranks, the same text.
- The loop bodies of `Pieces::from_str` are separate methods (`ReadSquare` for the match, `ReadRank` for the character loop), which take the parsed segments and the segment count.
- Derived `Debug`, `Hash`, `PartialOrd` and the `ParseFenError` types carry no behaviour here; every parser in the source returns `Ok` or panics.
