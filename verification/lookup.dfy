/**
 * The attack tables of src/lookup.rs. Each table entry is computed on a
 * 12x10 "mailbox": the 8x8 board sits inside a frame of padding cells, so a
 * step that leaves the board lands on a cell that `VerifyIndex` rejects.
 * Each lookup loop is proved equal to a plain rank/file description.
 */
module Lookup {
  import opened BitBoards

  // ---------------------------------------------------------------------
  // Board geometry
  // ---------------------------------------------------------------------

  function RankOf(sq: int): int { sq / 8 }
  function FileOf(sq: int): int { sq % 8 }

  predicate OnBoard(rank: int, file: int)
  {
    0 <= rank < 8 && 0 <= file < 8
  }

  /** The square number of an on-board (rank, file) pair. */
  function SquareAt(rank: int, file: int): (sq: int)
    requires OnBoard(rank, file)
    ensures 0 <= sq < 64 && RankOf(sq) == rank && FileOf(sq) == file
  {
    rank * 8 + file
  }

  function Abs(x: int): nat { if x < 0 then -x else x }

  // ---------------------------------------------------------------------
  // Mailbox arithmetic (isize division truncates toward zero)
  // ---------------------------------------------------------------------

  /** Rust's `/` on signed integers: the quotient rounded toward zero. */
  function TruncDiv(a: int, b: int): int
    requires b > 0
  {
    if a >= 0 then a / b else -((-a) / b)
  }

  /** Rust's `%` on signed integers: the remainder has the sign of `a`. */
  function TruncRem(a: int, b: int): int
    requires b > 0
  {
    a - b * TruncDiv(a, b)
  }

  /** `to_12x10`: the mailbox cell of a square. */
  function To12x10(index: int): int
  {
    index + 21 + 2 * TruncDiv(index, 8)
  }

  /** `to_8x8`: the square of a mailbox cell. */
  function To8x8(index: int): int
  {
    (index - 21) - 2 * TruncDiv(index - 21, 10)
  }

  /** `verify_index`: the cell lies in rows 2..11 and in one of the columns 1..8. */
  predicate VerifyIndex(index: int)
  {
    if index < 21 || index > 119 then false else TruncRem(index - 21, 10) < 8
  }

  /** The test every lookup applies to a cell before setting its bit. */
  predicate Accepted(cell: int)
  {
    VerifyIndex(cell) && To8x8(cell) < 64
  }

  /** The cell of square `sq` is `21 + 10 * rank + file`. */
  lemma MailboxOfSquare(sq: int)
    requires 0 <= sq < 64
    ensures To12x10(sq) == 21 + 10 * RankOf(sq) + FileOf(sq)
  {}

  /** `to_8x8` undoes `to_12x10` on every square. */
  lemma MailboxRoundTrip(sq: int)
    requires 0 <= sq < 64
    ensures VerifyIndex(To12x10(sq)) && To8x8(To12x10(sq)) == sq
  {
    MailboxCell(RankOf(sq), FileOf(sq));
  }

  /**
   * A cell one or two columns beyond the board edge is rejected, and an
   * on-board cell is accepted and maps back to its square: no step that
   * crosses an edge wraps around to the other side.
   */
  lemma MailboxCell(rank: int, file: int)
    requires -2 <= file <= 9
    ensures Accepted(21 + 10 * rank + file) <==> OnBoard(rank, file)
    ensures OnBoard(rank, file) ==> To8x8(21 + 10 * rank + file) == rank * 8 + file
  {
    var cell := 21 + 10 * rank + file;
    var n := 10 * rank + file;
    if n < 0 {
      assert !VerifyIndex(cell);
    } else if file < 0 {
      assert n == 10 * (rank - 1) + (file + 10);
      assert TruncDiv(n, 10) == rank - 1;
      assert !VerifyIndex(cell);
    } else if file < 8 {
      assert TruncDiv(n, 10) == rank;
      assert To8x8(cell) == rank * 8 + file;
    } else {
      assert TruncDiv(n, 10) == rank;
      assert !VerifyIndex(cell);
    }
  }

  /** Every accepted cell names a square. */
  lemma AcceptedSquare(cell: int)
    requires Accepted(cell)
    ensures 0 <= To8x8(cell) < 64
  {
    var n := cell - 21;
    assert TruncDiv(n, 10) == n / 10;
  }

  /** The cell `steps` mailbox offsets `delta` from the cell of `sq`. */
  function CellAt(sq: int, delta: int, steps: int): int
  {
    CellLayer(sq, delta, steps, 1)
  }

  /**
   * `CellAt` behind a recursion of depth one, so that the loops that use it
   * do not carry the product `delta * steps`; `CellValue` states it.
   */
  function CellLayer(sq: int, delta: int, steps: int, depth: nat): int
  {
    if depth == 0 then To12x10(sq) + delta * steps else CellLayer(sq, delta, steps, depth - 1)
  }

  lemma CellValue(sq: int, delta: int, steps: int)
    ensures CellAt(sq, delta, steps) == To12x10(sq) + delta * steps
  {
    assert CellLayer(sq, delta, steps, 0) == To12x10(sq) + delta * steps;
  }

  /** A mailbox offset that moves `dr` ranks and `df` files. */
  lemma StepCell(sq: int, dr: int, df: int, k: int)
    requires 0 <= sq < 64
    ensures CellAt(sq, 10 * dr + df, k) == 21 + 10 * (RankOf(sq) + k * dr) + (FileOf(sq) + k * df)
  {
    MailboxOfSquare(sq);
    CellValue(sq, 10 * dr + df, k);
    assert (10 * dr + df) * k == 10 * (k * dr) + k * df;
  }

  // ---------------------------------------------------------------------
  // Single-step lookups: king, knight, pawn captures
  // ---------------------------------------------------------------------

  /** The square one mailbox step `delta` reaches from `sq`, if its cell is accepted. */
  ghost function StepTarget(sq: int, delta: int): set<int>
  {
    var cell := CellAt(sq, delta, 1);
    if Accepted(cell) then {To8x8(cell)} else {}
  }

  /** The squares the steps of `moves` reach from `sq`. */
  ghost function StepTargets(sq: int, moves: seq<int>): set<int>
  {
    if moves == [] then {}
    else StepTargets(sq, moves[..|moves| - 1]) + StepTarget(sq, moves[|moves| - 1])
  }

  lemma StepTargetsSnoc(sq: int, moves: seq<int>, m: int)
    requires 0 <= m < |moves|
    ensures StepTargets(sq, moves[..m + 1]) == StepTargets(sq, moves[..m]) + StepTarget(sq, moves[m])
  {
    assert moves[..m + 1][..m] == moves[..m];
  }

  /** One turn of the lookup loop adds the target of `moves[m]`, if its cell is accepted. */
  lemma StepTargetsNext(sq: int, moves: seq<int>, m: int, cell: int)
    requires 0 <= m < |moves| && cell == To12x10(sq) + moves[m]
    ensures StepTargets(sq, moves[..m + 1])
         == StepTargets(sq, moves[..m]) + if Accepted(cell) then {To8x8(cell)} else {}
  {
    StepTargetsSnoc(sq, moves, m);
    CellValue(sq, moves[m], 1);
  }

  /** The loop shared by `king_lookup`, `knight_lookup` and the two pawn lookups. */
  method StepLookup(pieceIndex: int, moves: seq<int>) returns (result: BitBoard)
    requires 0 <= pieceIndex < 64
    ensures Squares(result) == StepTargets(pieceIndex, moves)
  {
    result := EMPTY;
    EmptyFullSquares();
    var m := 0;
    while m < |moves|
      invariant 0 <= m <= |moves|
      invariant Squares(result) == StepTargets(pieceIndex, moves[..m])
    {
      var cell := To12x10(pieceIndex) + moves[m];
      StepTargetsNext(pieceIndex, moves, m, cell);
      if VerifyIndex(cell) && To8x8(cell) < 64 {
        AcceptedSquare(cell);
        result := Or(result, New(To8x8(cell)));
      }
      m := m + 1;
    }
    assert moves[..m] == moves;
  }

  /** The square `dr` ranks and `df` files from `sq`, if it is on the board. */
  ghost function GeoStep(sq: int, dr: int, df: int): set<int>
    requires 0 <= sq < 64
  {
    var rank, file := RankOf(sq) + dr, FileOf(sq) + df;
    if OnBoard(rank, file) then {SquareAt(rank, file)} else {}
  }

  /** A mailbox step of at most two files is the same step on the board. */
  lemma StepGeo(sq: int, dr: int, df: int)
    requires 0 <= sq < 64 && -2 <= df <= 2
    ensures StepTarget(sq, 10 * dr + df) == GeoStep(sq, dr, df)
  {
    var rank, file := RankOf(sq) + dr, FileOf(sq) + df;
    StepCell(sq, dr, df, 1);
    var cell := CellAt(sq, 10 * dr + df, 1);
    assert cell == 21 + 10 * rank + file;
    MailboxCell(rank, file);
    if OnBoard(rank, file) {
      assert Accepted(cell) && To8x8(cell) == SquareAt(rank, file);
    } else {
      assert !Accepted(cell);
    }
  }

  /** The squares whose (rank, file) displacement from `sq` is one of `dirs`. */
  ghost function GeoSteps(sq: int, dirs: seq<(int, int)>): set<int>
    requires 0 <= sq < 64
  {
    set t | 0 <= t < 64 && (RankOf(t) - RankOf(sq), FileOf(t) - FileOf(sq)) in dirs
  }

  /** `moves[m]` is the mailbox offset of the board displacement `dirs[m]`. */
  ghost predicate Encodes(moves: seq<int>, dirs: seq<(int, int)>)
  {
    |moves| == |dirs| &&
    forall m :: 0 <= m < |moves| ==> -2 <= dirs[m].1 <= 2 && moves[m] == 10 * dirs[m].0 + dirs[m].1
  }

  lemma GeoStepMember(sq: int, d: (int, int), t: int)
    requires 0 <= sq < 64
    ensures t in GeoStep(sq, d.0, d.1) <==> 0 <= t < 64 && (RankOf(t) - RankOf(sq), FileOf(t) - FileOf(sq)) == d
  {
    if 0 <= t < 64 && (RankOf(t) - RankOf(sq), FileOf(t) - FileOf(sq)) == d {
      assert t == SquareAt(RankOf(t), FileOf(t));
    }
  }

  lemma GeoStepsSnoc(sq: int, dirs: seq<(int, int)>)
    requires 0 <= sq < 64 && dirs != []
    ensures GeoSteps(sq, dirs) == GeoSteps(sq, dirs[..|dirs| - 1]) + GeoStep(sq, dirs[|dirs| - 1].0, dirs[|dirs| - 1].1)
  {
    var n := |dirs| - 1;
    var d := dirs[n];
    assert dirs == dirs[..n] + [d];
    forall t ensures t in GeoSteps(sq, dirs) <==> t in GeoSteps(sq, dirs[..n]) || t in GeoStep(sq, d.0, d.1) {
      GeoStepMember(sq, d, t);
    }
  }

  /** The mailbox steps of `moves` reach exactly the displacements `dirs`. */
  lemma {:induction false} StepTargetsGeo(sq: int, moves: seq<int>, dirs: seq<(int, int)>)
    requires 0 <= sq < 64 && Encodes(moves, dirs)
    ensures StepTargets(sq, moves) == GeoSteps(sq, dirs)
    decreases |moves|
  {
    if moves == [] {
      assert GeoSteps(sq, dirs) == {};
    } else {
      var n := |moves| - 1;
      assert Encodes(moves[..n], dirs[..n]);
      StepTargetsGeo(sq, moves[..n], dirs[..n]);
      StepGeo(sq, dirs[n].0, dirs[n].1);
      GeoStepsSnoc(sq, dirs);
    }
  }

  /** The mailbox offsets of each piece, in the order the source lists them. */
  const KingMoves: seq<int> := [-11, -10, -9, -1, 1, 9, 10, 11]
  const KnightMoves: seq<int> := [-21, -19, -12, -8, 8, 12, 19, 21]
  const WhitePawnMoves: seq<int> := [11, 9]
  const BlackPawnMoves: seq<int> := [-11, -9]

  /** The same offsets as (rank, file) displacements. */
  const KingDirs: seq<(int, int)> := [(-1, -1), (-1, 0), (-1, 1), (0, -1), (0, 1), (1, -1), (1, 0), (1, 1)]
  const KnightDirs: seq<(int, int)> := [(-2, -1), (-2, 1), (-1, -2), (-1, 2), (1, -2), (1, 2), (2, -1), (2, 1)]
  const WhitePawnDirs: seq<(int, int)> := [(1, 1), (1, -1)]
  const BlackPawnDirs: seq<(int, int)> := [(-1, -1), (-1, 1)]

  /** The squares at Chebyshev distance exactly 1 from `sq`. */
  ghost function KingSquares(sq: int): set<int>
    requires 0 <= sq < 64
  {
    set t | 0 <= t < 64 && t != sq
      && Abs(RankOf(t) - RankOf(sq)) <= 1 && Abs(FileOf(t) - FileOf(sq)) <= 1
  }

  /** The squares a knight's jump from `sq`: one rank and two files, or two ranks and one file. */
  ghost function KnightSquares(sq: int): set<int>
    requires 0 <= sq < 64
  {
    set t | 0 <= t < 64
      && ((Abs(RankOf(t) - RankOf(sq)) == 1 && Abs(FileOf(t) - FileOf(sq)) == 2)
       || (Abs(RankOf(t) - RankOf(sq)) == 2 && Abs(FileOf(t) - FileOf(sq)) == 1))
  }

  /** The squares one rank up and one file to either side of `sq`. */
  ghost function WhitePawnSquares(sq: int): set<int>
    requires 0 <= sq < 64
  {
    set t | 0 <= t < 64 && RankOf(t) == RankOf(sq) + 1 && Abs(FileOf(t) - FileOf(sq)) == 1
  }

  /** The squares one rank down and one file to either side of `sq`. */
  ghost function BlackPawnSquares(sq: int): set<int>
    requires 0 <= sq < 64
  {
    set t | 0 <= t < 64 && RankOf(t) == RankOf(sq) - 1 && Abs(FileOf(t) - FileOf(sq)) == 1
  }

  /** Two squares with the same rank and file are the same square. */
  lemma SameSquare(a: int, b: int)
    requires 0 <= a < 64 && 0 <= b < 64
    requires RankOf(a) == RankOf(b) && FileOf(a) == FileOf(b)
    ensures a == b
  {
    assert a == RankOf(a) * 8 + FileOf(a);
    assert b == RankOf(b) * 8 + FileOf(b);
  }

  lemma KingDirsMember(dr: int, df: int)
    ensures (dr, df) in KingDirs <==> Abs(dr) <= 1 && Abs(df) <= 1 && (dr, df) != (0, 0)
  {}

  lemma KnightDirsMember(dr: int, df: int)
    ensures (dr, df) in KnightDirs <==>
      (Abs(dr) == 1 && Abs(df) == 2) || (Abs(dr) == 2 && Abs(df) == 1)
  {}

  lemma KingTargets(sq: int)
    requires 0 <= sq < 64
    ensures StepTargets(sq, KingMoves) == KingSquares(sq)
  {
    assert Encodes(KingMoves, KingDirs);
    StepTargetsGeo(sq, KingMoves, KingDirs);
    forall t ensures t in GeoSteps(sq, KingDirs) <==> t in KingSquares(sq) {
      KingStep(sq, t);
    }
  }

  lemma KingStep(sq: int, t: int)
    requires 0 <= sq < 64
    ensures t in GeoSteps(sq, KingDirs) <==> t in KingSquares(sq)
  {
    if 0 <= t < 64 {
      KingDirsMember(RankOf(t) - RankOf(sq), FileOf(t) - FileOf(sq));
      if RankOf(t) == RankOf(sq) && FileOf(t) == FileOf(sq) {
        SameSquare(t, sq);
      }
    }
  }

  lemma KnightTargets(sq: int)
    requires 0 <= sq < 64
    ensures StepTargets(sq, KnightMoves) == KnightSquares(sq)
  {
    assert Encodes(KnightMoves, KnightDirs);
    StepTargetsGeo(sq, KnightMoves, KnightDirs);
    forall t | 0 <= t < 64 ensures t in GeoSteps(sq, KnightDirs) <==> t in KnightSquares(sq) {
      KnightDirsMember(RankOf(t) - RankOf(sq), FileOf(t) - FileOf(sq));
    }
  }

  lemma WhitePawnTargets(sq: int)
    requires 0 <= sq < 64
    ensures StepTargets(sq, WhitePawnMoves) == WhitePawnSquares(sq)
  {
    assert Encodes(WhitePawnMoves, WhitePawnDirs);
    StepTargetsGeo(sq, WhitePawnMoves, WhitePawnDirs);
    assert GeoSteps(sq, WhitePawnDirs) == WhitePawnSquares(sq);
  }

  lemma BlackPawnTargets(sq: int)
    requires 0 <= sq < 64
    ensures StepTargets(sq, BlackPawnMoves) == BlackPawnSquares(sq)
  {
    assert Encodes(BlackPawnMoves, BlackPawnDirs);
    StepTargetsGeo(sq, BlackPawnMoves, BlackPawnDirs);
    assert GeoSteps(sq, BlackPawnDirs) == BlackPawnSquares(sq);
  }

  /** `king_lookup`: the king's neighbourhood. */
  method KingLookup(pieceIndex: int) returns (result: BitBoard)
    requires 0 <= pieceIndex < 64
    ensures Squares(result) == KingSquares(pieceIndex)
  {
    result := StepLookup(pieceIndex, KingMoves);
    KingTargets(pieceIndex);
  }

  /** `knight_lookup`: the knight's jumps. */
  method KnightLookup(pieceIndex: int) returns (result: BitBoard)
    requires 0 <= pieceIndex < 64
    ensures Squares(result) == KnightSquares(pieceIndex)
  {
    result := StepLookup(pieceIndex, KnightMoves);
    KnightTargets(pieceIndex);
  }

  /** `white_pawn_lookup`: the squares a white pawn captures on. */
  method WhitePawnLookup(pieceIndex: int) returns (result: BitBoard)
    requires 0 <= pieceIndex < 64
    ensures Squares(result) == WhitePawnSquares(pieceIndex)
  {
    result := StepLookup(pieceIndex, WhitePawnMoves);
    WhitePawnTargets(pieceIndex);
  }

  /** `black_pawn_lookup`: the squares a black pawn captures on. */
  method BlackPawnLookup(pieceIndex: int) returns (result: BitBoard)
    requires 0 <= pieceIndex < 64
    ensures Squares(result) == BlackPawnSquares(pieceIndex)
  {
    result := StepLookup(pieceIndex, BlackPawnMoves);
    BlackPawnTargets(pieceIndex);
  }

  /** King moves are symmetric: `j` neighbours `i` exactly when `i` neighbours `j`. */
  lemma KingSymmetric(i: int, j: int)
    requires 0 <= i < 64 && 0 <= j < 64
    ensures j in KingSquares(i) <==> i in KingSquares(j)
  {}

  /** Knight jumps are symmetric. */
  lemma KnightSymmetric(i: int, j: int)
    requires 0 <= i < 64 && 0 <= j < 64
    ensures j in KnightSquares(i) <==> i in KnightSquares(j)
  {}

  /** A white pawn on `i` attacks `j` exactly when a black pawn on `j` attacks `i`. */
  lemma PawnMirror(i: int, j: int)
    requires 0 <= i < 64 && 0 <= j < 64
    ensures j in WhitePawnSquares(i) <==> i in BlackPawnSquares(j)
  {}

  /** White pawns on the last rank and black pawns on the first attack nothing. */
  lemma PawnEdges(sq: int)
    requires 0 <= sq < 64
    ensures RankOf(sq) == 7 ==> WhitePawnSquares(sq) == {}
    ensures RankOf(sq) == 0 ==> BlackPawnSquares(sq) == {}
  {}

  // ---------------------------------------------------------------------
  // Sliding lookups: rook, bishop, queen
  // ---------------------------------------------------------------------

  /**
   * The squares a slide along mailbox offset `delta` sets from step
   * `multiplier` on: it stops at the first rejected cell or at step 8.
   */
  ghost function Ray(sq: int, delta: int, multiplier: int): set<int>
    requires 0 <= multiplier
    decreases 8 - multiplier
  {
    if multiplier >= 8 then {}
    else
      var cell := CellAt(sq, delta, multiplier);
      if Accepted(cell) then {To8x8(cell)} + Ray(sq, delta, multiplier + 1) else {}
  }

  /**
   * The multiplier direction `m` starts from: 1 for the first direction, and
   * 0 for the later ones, because the loop resets it to 0 rather than 1.
   */
  function StartMultiplier(m: int): int
  {
    if m == 0 then 1 else 0
  }

  /** The squares the slides of `moves` set from `sq`. */
  ghost function SlideTargets(sq: int, moves: seq<int>): set<int>
  {
    if moves == [] then {}
    else SlideTargets(sq, moves[..|moves| - 1]) + Ray(sq, moves[|moves| - 1], StartMultiplier(|moves| - 1))
  }

  /** An accepted cell adds its square to the slide and the slide goes on. */
  lemma RayAccepted(sq: int, delta: int, k: int, cell: int)
    requires 0 <= k < 8 && cell == CellAt(sq, delta, k) && Accepted(cell)
    ensures 0 <= To8x8(cell) < 64
    ensures Ray(sq, delta, k) == {To8x8(cell)} + Ray(sq, delta, k + 1)
  {
    AcceptedSquare(cell);
  }

  /** Moving square `x` from the rest of the slide into the result keeps their union. */
  lemma MoveToResult(before: set<int>, after: set<int>, x: int, rest: set<int>, total: set<int>)
    requires before + ({x} + rest) == total && after == before + {x}
    ensures after + rest == total
  {}

  /** A rejected cell ends the slide. */
  lemma RayRejected(sq: int, delta: int, k: int, cell: int)
    requires 0 <= k && cell == CellAt(sq, delta, k) && !Accepted(cell)
    ensures Ray(sq, delta, k) == {}
  {}

  lemma SlideTargetsSnoc(sq: int, moves: seq<int>, m: int)
    requires 0 <= m < |moves|
    ensures SlideTargets(sq, moves[..m + 1]) == SlideTargets(sq, moves[..m]) + Ray(sq, moves[m], StartMultiplier(m))
  {
    assert moves[..m + 1][..m] == moves[..m];
  }

  /**
   * The inner `while multiplier < 8` loop of the sliding lookups: it sets
   * the squares of one direction from `multiplier` on, until a cell is
   * rejected.
   */
  method SlideDirection(pieceIndex: int, delta: int, multiplier: int, acc: BitBoard) returns (result: BitBoard)
    requires 0 <= pieceIndex < 64 && 0 <= multiplier
    ensures Squares(result) == Squares(acc) + Ray(pieceIndex, delta, multiplier)
  {
    result := acc;
    var k := multiplier;
    while k < 8
      invariant multiplier <= k
      invariant Squares(result) + Ray(pieceIndex, delta, k) == Squares(acc) + Ray(pieceIndex, delta, multiplier)
    {
      var cell := CellAt(pieceIndex, delta, k);
      if VerifyIndex(cell) && To8x8(cell) < 64 {
        RayAccepted(pieceIndex, delta, k, cell);
        var next := OrAssign(result, New(To8x8(cell)));
        MoveToResult(Squares(result), Squares(next), To8x8(cell), Ray(pieceIndex, delta, k + 1),
          Squares(acc) + Ray(pieceIndex, delta, multiplier));
        result := next;
      } else {
        RayRejected(pieceIndex, delta, k, cell);
        break;
      }
      k := k + 1;
    }
  }

  /** The outer loop shared by `rook_lookup`, `bishop_lookup` and `queen_lookup`. */
  method SlideLookup(pieceIndex: int, moves: seq<int>) returns (result: BitBoard)
    requires 0 <= pieceIndex < 64
    ensures Squares(result) == SlideTargets(pieceIndex, moves)
  {
    result := EMPTY;
    EmptyFullSquares();
    var m := 0;
    var multiplier := 1;
    while m < |moves|
      invariant 0 <= m <= |moves|
      invariant multiplier == StartMultiplier(m)
      invariant Squares(result) == SlideTargets(pieceIndex, moves[..m])
    {
      result := SlideDirection(pieceIndex, moves[m], multiplier, result);
      SlideTargetsSnoc(pieceIndex, moves, m);
      multiplier := 0;
      m := m + 1;
    }
    assert moves[..m] == moves;
  }

  /** The rook's mailbox offsets and the same as (rank, file) steps. */
  const RookMoves: seq<int> := [-10, -1, 1, 10]
  const RookDirs: seq<(int, int)> := [(-1, 0), (0, -1), (0, 1), (1, 0)]
  /** The bishop's mailbox offsets and the same as (rank, file) steps. */
  const BishopMoves: seq<int> := [-11, -9, 9, 11]
  const BishopDirs: seq<(int, int)> := [(-1, -1), (-1, 1), (1, -1), (1, 1)]

  /** `x + d * j` for a unit step `d` in -1..1, written without a product. */
  function Along(x: int, d: int, j: int): int
  {
    if d > 0 then x + j else if d < 0 then x - j else x
  }

  lemma AlongValue(x: int, d: int, j: int)
    requires -1 <= d <= 1
    ensures Along(x, d, j) == x + j * d
  {}

  /** Square `t` is `j` steps of (`dr`, `df`) away from (`rank`, `file`). */
  predicate AtStep(rank: int, file: int, dr: int, df: int, j: int, t: int)
  {
    0 <= t < 64 && RankOf(t) == Along(rank, dr, j) && FileOf(t) == Along(file, df, j)
  }

  /**
   * The squares steps `k`, `k + 1`, ... 7 of (`dr`, `df`) from (`rank`,
   * `file`) reach, up to the first one that leaves the board.
   */
  ghost function Walk(rank: int, file: int, dr: int, df: int, k: int): set<int>
    requires 0 <= k
    decreases 8 - k
  {
    if k >= 8 then {}
    else
      var r, f := Along(rank, dr, k), Along(file, df, k);
      if OnBoard(r, f) then {SquareAt(r, f)} + Walk(rank, file, dr, df, k + 1) else {}
  }

  /**
   * From a square on the board a straight walk never leaves the board and
   * comes back, so it reaches exactly the on-board squares at steps k..7.
   */
  lemma {:induction false} WalkMember(rank: int, file: int, dr: int, df: int, k: int, t: int)
    requires OnBoard(rank, file) && -1 <= dr <= 1 && -1 <= df <= 1 && 0 <= k
    ensures t in Walk(rank, file, dr, df, k) <==> exists j :: k <= j < 8 && AtStep(rank, file, dr, df, j, t)
    decreases 8 - k
  {
    if k < 8 {
      var r, f := Along(rank, dr, k), Along(file, df, k);
      WalkMember(rank, file, dr, df, k + 1, t);
      if OnBoard(r, f) {
        assert Walk(rank, file, dr, df, k) == {SquareAt(r, f)} + Walk(rank, file, dr, df, k + 1);
        StepHere(rank, file, dr, df, k, t);
        if j :| k <= j < 8 && AtStep(rank, file, dr, df, j, t) {
          if j > k {
            assert k + 1 <= j < 8 && AtStep(rank, file, dr, df, j, t);
          }
        }
      } else {
        forall j | k <= j < 8 ensures !AtStep(rank, file, dr, df, j, t) {
          OffBoardStays(rank, file, dr, df, k, j, t);
        }
      }
    }
  }

  /** Step `k` lands on `t` exactly when `t` is the square step `k` reaches. */
  lemma StepHere(rank: int, file: int, dr: int, df: int, k: int, t: int)
    requires OnBoard(Along(rank, dr, k), Along(file, df, k))
    ensures AtStep(rank, file, dr, df, k, t) <==> t == SquareAt(Along(rank, dr, k), Along(file, df, k))
  {
    var x := SquareAt(Along(rank, dr, k), Along(file, df, k));
    if AtStep(rank, file, dr, df, k, t) {
      SameSquare(t, x);
    }
  }

  /** Once a straight walk from a square on the board leaves the board, it stays off. */
  lemma OffBoardStays(rank: int, file: int, dr: int, df: int, k: int, j: int, t: int)
    requires OnBoard(rank, file) && -1 <= dr <= 1 && -1 <= df <= 1 && 0 <= k <= j
    requires !OnBoard(Along(rank, dr, k), Along(file, df, k))
    ensures !AtStep(rank, file, dr, df, j, t)
  {
    AlongValue(rank, dr, k);
    AlongValue(rank, dr, j);
    AlongValue(file, df, k);
    AlongValue(file, df, j);
  }

  /** The cell `k` steps of `10 * dr + df` from `sq` is `k` steps of (`dr`, `df`) on the board. */
  lemma WalkCell(sq: int, dr: int, df: int, k: int)
    requires 0 <= sq < 64 && -1 <= dr <= 1 && -1 <= df <= 1
    ensures CellAt(sq, 10 * dr + df, k) == 21 + 10 * Along(RankOf(sq), dr, k) + Along(FileOf(sq), df, k)
  {
    AlongValue(RankOf(sq), dr, k);
    AlongValue(FileOf(sq), df, k);
    StepCell(sq, dr, df, k);
  }

  /** A mailbox slide along `10 * dr + df` walks the board in direction (`dr`, `df`). */
  lemma {:induction false} RayWalk(sq: int, dr: int, df: int, k: int)
    requires 0 <= sq < 64 && -1 <= dr <= 1 && -1 <= df <= 1 && 0 <= k
    requires k == 0 || OnBoard(Along(RankOf(sq), dr, k - 1), Along(FileOf(sq), df, k - 1))
    ensures Ray(sq, 10 * dr + df, k) == Walk(RankOf(sq), FileOf(sq), dr, df, k)
    decreases 8 - k
  {
    if k < 8 {
      if OnBoard(Along(RankOf(sq), dr, k), Along(FileOf(sq), df, k)) {
        RayWalkOn(sq, dr, df, k);
        RayWalk(sq, dr, df, k + 1);
      } else {
        RayWalkOff(sq, dr, df, k);
      }
    }
  }

  /** Step `k` of a slide on the board adds the same square to the ray and to the walk. */
  lemma RayWalkOn(sq: int, dr: int, df: int, k: int)
    requires 0 <= sq < 64 && -1 <= dr <= 1 && -1 <= df <= 1 && 0 <= k < 8
    requires OnBoard(Along(RankOf(sq), dr, k), Along(FileOf(sq), df, k))
    ensures var x := SquareAt(Along(RankOf(sq), dr, k), Along(FileOf(sq), df, k));
      && Ray(sq, 10 * dr + df, k) == {x} + Ray(sq, 10 * dr + df, k + 1)
      && Walk(RankOf(sq), FileOf(sq), dr, df, k) == {x} + Walk(RankOf(sq), FileOf(sq), dr, df, k + 1)
  {
    var r, f := Along(RankOf(sq), dr, k), Along(FileOf(sq), df, k);
    WalkCell(sq, dr, df, k);
    var cell := CellAt(sq, 10 * dr + df, k);
    MailboxCell(r, f);
    RayAccepted(sq, 10 * dr + df, k, cell);
    assert To8x8(cell) == SquareAt(r, f);
  }

  /** Step `k` of a slide off the board ends both the ray and the walk. */
  lemma RayWalkOff(sq: int, dr: int, df: int, k: int)
    requires 0 <= sq < 64 && -1 <= dr <= 1 && -1 <= df <= 1 && 0 <= k < 8
    requires k == 0 || OnBoard(Along(RankOf(sq), dr, k - 1), Along(FileOf(sq), df, k - 1))
    requires !OnBoard(Along(RankOf(sq), dr, k), Along(FileOf(sq), df, k))
    ensures Ray(sq, 10 * dr + df, k) == {} && Walk(RankOf(sq), FileOf(sq), dr, df, k) == {}
  {
    var r, f := Along(RankOf(sq), dr, k), Along(FileOf(sq), df, k);
    WalkCell(sq, dr, df, k);
    var cell := CellAt(sq, 10 * dr + df, k);
    MailboxCell(r, f);
    RayRejected(sq, 10 * dr + df, k, cell);
  }

  /** Direction `d`, the `i`-th of the sliding loop, walks onto square `t`. */
  ghost predicate InWalk(sq: int, d: (int, int), i: nat, t: int)
    requires 0 <= sq < 64
  {
    t in Walk(RankOf(sq), FileOf(sq), d.0, d.1, StartMultiplier(i))
  }

  /** The walks of the directions `dirs`, started as the sliding loop starts them. */
  ghost function SlideWalks(sq: int, dirs: seq<(int, int)>): set<int>
    requires 0 <= sq < 64
  {
    if dirs == [] then {}
    else
      var d := dirs[|dirs| - 1];
      SlideWalks(sq, dirs[..|dirs| - 1]) + Walk(RankOf(sq), FileOf(sq), d.0, d.1, StartMultiplier(|dirs| - 1))
  }

  /** `moves[m]` is the mailbox offset of the unit step `dirs[m]`. */
  ghost predicate EncodesUnit(moves: seq<int>, dirs: seq<(int, int)>)
  {
    |moves| == |dirs| &&
    forall m :: 0 <= m < |moves| ==>
      -1 <= dirs[m].0 <= 1 && -1 <= dirs[m].1 <= 1 && moves[m] == 10 * dirs[m].0 + dirs[m].1
  }

  lemma {:induction false} SlideTargetsWalks(sq: int, moves: seq<int>, dirs: seq<(int, int)>)
    requires 0 <= sq < 64 && EncodesUnit(moves, dirs)
    ensures SlideTargets(sq, moves) == SlideWalks(sq, dirs)
    decreases |moves|
  {
    if moves != [] {
      var n := |moves| - 1;
      assert EncodesUnit(moves[..n], dirs[..n]);
      SlideTargetsWalks(sq, moves[..n], dirs[..n]);
      RayWalk(sq, dirs[n].0, dirs[n].1, StartMultiplier(n));
    }
  }

  lemma {:induction false} SlideWalksMember(sq: int, dirs: seq<(int, int)>, t: int)
    requires 0 <= sq < 64
    ensures t in SlideWalks(sq, dirs) <==> exists i :: 0 <= i < |dirs| && InWalk(sq, dirs[i], i, t)
    decreases |dirs|
  {
    if dirs != [] {
      var n := |dirs| - 1;
      var front := dirs[..n];
      var last := Walk(RankOf(sq), FileOf(sq), dirs[n].0, dirs[n].1, StartMultiplier(n));
      assert SlideWalks(sq, dirs) == SlideWalks(sq, front) + last;
      assert InWalk(sq, dirs[n], n, t) == (t in last);
      SlideWalksMember(sq, front, t);
      if t in SlideWalks(sq, dirs) {
        if t in last {
          assert InWalk(sq, dirs[n], n, t);
        } else {
          var i :| 0 <= i < n && InWalk(sq, front[i], i, t);
          assert front[i] == dirs[i];
        }
      }
      if i :| 0 <= i < |dirs| && InWalk(sq, dirs[i], i, t) {
        if i < n {
          assert front[i] == dirs[i];
          assert t in SlideWalks(sq, front);
        } else {
          assert i == n;
          assert InWalk(sq, dirs[n], n, t);
        }
      }
    }
  }

  /** A square `j` steps along the `i`-th direction, past the loop's start, is on its walk. */
  lemma Reach(sq: int, dirs: seq<(int, int)>, i: int, j: int, t: int)
    requires 0 <= sq < 64 && 0 <= i < |dirs| && -1 <= dirs[i].0 <= 1 && -1 <= dirs[i].1 <= 1
    requires StartMultiplier(i) <= j < 8 && AtStep(RankOf(sq), FileOf(sq), dirs[i].0, dirs[i].1, j, t)
    ensures InWalk(sq, dirs[i], i, t)
  {
    WalkMember(RankOf(sq), FileOf(sq), dirs[i].0, dirs[i].1, StartMultiplier(i), t);
  }

  /** Every square of `sq`'s rank and file, `sq` itself included. */
  ghost function RookSquares(sq: int): set<int>
    requires 0 <= sq < 64
  {
    set t | 0 <= t < 64 && (RankOf(t) == RankOf(sq) || FileOf(t) == FileOf(sq))
  }

  /** Every square of `sq`'s two diagonals, `sq` itself included. */
  ghost function BishopSquares(sq: int): set<int>
    requires 0 <= sq < 64
  {
    set t | 0 <= t < 64 && Abs(RankOf(t) - RankOf(sq)) == Abs(FileOf(t) - FileOf(sq))
  }

  /** Whatever a walk reaches lies on the line of its direction from the start. */
  lemma WalkLine(sq: int, d: (int, int), i: nat, t: int)
    requires 0 <= sq < 64 && -1 <= d.0 <= 1 && -1 <= d.1 <= 1 && InWalk(sq, d, i, t)
    ensures 0 <= t < 64
    ensures d.0 == 0 ==> RankOf(t) == RankOf(sq)
    ensures d.1 == 0 ==> FileOf(t) == FileOf(sq)
    ensures d.0 != 0 && d.1 != 0 ==> Abs(RankOf(t) - RankOf(sq)) == Abs(FileOf(t) - FileOf(sq))
  {
    WalkMember(RankOf(sq), FileOf(sq), d.0, d.1, StartMultiplier(i), t);
  }

  /** A rook slide stays on `sq`'s rank or file. */
  lemma RookFrom(sq: int, i: int, t: int)
    requires 0 <= sq < 64 && 0 <= i < |RookDirs| && InWalk(sq, RookDirs[i], i, t)
    ensures t in RookSquares(sq)
  {
    assert RookDirs[i].0 == 0 || RookDirs[i].1 == 0;
    WalkLine(sq, RookDirs[i], i, t);
  }

  /** Each square of `sq`'s rank or file is on one of the rook's slides. */
  lemma RookTo(sq: int, t: int)
    requires 0 <= sq < 64 && t in RookSquares(sq)
    ensures exists i :: 0 <= i < |RookDirs| && InWalk(sq, RookDirs[i], i, t)
  {
    var dr, df := RankOf(t) - RankOf(sq), FileOf(t) - FileOf(sq);
    if dr == 0 && df < 0 {
      assert AtStep(RankOf(sq), FileOf(sq), 0, -1, -df, t);
      Reach(sq, RookDirs, 1, -df, t);
    } else if dr == 0 {
      assert AtStep(RankOf(sq), FileOf(sq), 0, 1, df, t);
      Reach(sq, RookDirs, 2, df, t);
    } else if dr < 0 {
      assert AtStep(RankOf(sq), FileOf(sq), -1, 0, -dr, t);
      Reach(sq, RookDirs, 0, -dr, t);
    } else {
      assert AtStep(RankOf(sq), FileOf(sq), 1, 0, dr, t);
      Reach(sq, RookDirs, 3, dr, t);
    }
  }

  /** A bishop slide stays on one of `sq`'s diagonals. */
  lemma BishopFrom(sq: int, i: int, t: int)
    requires 0 <= sq < 64 && 0 <= i < |BishopDirs| && InWalk(sq, BishopDirs[i], i, t)
    ensures t in BishopSquares(sq)
  {
    assert BishopDirs[i].0 != 0 && BishopDirs[i].1 != 0;
    WalkLine(sq, BishopDirs[i], i, t);
    assert 0 <= t < 64 && Abs(RankOf(t) - RankOf(sq)) == Abs(FileOf(t) - FileOf(sq));
  }

  /** Each square of `sq`'s diagonals is on one of the bishop's slides. */
  lemma BishopTo(sq: int, t: int)
    requires 0 <= sq < 64 && t in BishopSquares(sq)
    ensures exists i :: 0 <= i < |BishopDirs| && InWalk(sq, BishopDirs[i], i, t)
  {
    var dr, df := RankOf(t) - RankOf(sq), FileOf(t) - FileOf(sq);
    assert Abs(dr) == Abs(df);
    if dr < 0 && df < 0 {
      assert AtStep(RankOf(sq), FileOf(sq), -1, -1, -dr, t);
      Reach(sq, BishopDirs, 0, -dr, t);
    } else if dr <= 0 {
      assert AtStep(RankOf(sq), FileOf(sq), -1, 1, -dr, t);
      Reach(sq, BishopDirs, 1, -dr, t);
    } else if df < 0 {
      assert AtStep(RankOf(sq), FileOf(sq), 1, -1, dr, t);
      Reach(sq, BishopDirs, 2, dr, t);
    } else {
      assert AtStep(RankOf(sq), FileOf(sq), 1, 1, dr, t);
      Reach(sq, BishopDirs, 3, dr, t);
    }
  }

  /** A queen slide stays on `sq`'s rank, file or diagonals. */
  lemma QueenFrom(sq: int, i: int, t: int)
    requires 0 <= sq < 64 && 0 <= i < |KingDirs| && InWalk(sq, KingDirs[i], i, t)
    ensures t in RookSquares(sq) + BishopSquares(sq)
  {
    var d := KingDirs[i];
    assert d in KingDirs;
    KingDirsMember(d.0, d.1);
    QueenLine(sq, d, i, t);
  }

  /** A slide in any unit direction stays on `sq`'s rank, file or diagonals. */
  lemma QueenLine(sq: int, d: (int, int), i: nat, t: int)
    requires 0 <= sq < 64 && -1 <= d.0 <= 1 && -1 <= d.1 <= 1 && InWalk(sq, d, i, t)
    ensures t in RookSquares(sq) + BishopSquares(sq)
  {
    WalkLine(sq, d, i, t);
    if d.0 != 0 && d.1 != 0 {
      assert 0 <= t < 64 && Abs(RankOf(t) - RankOf(sq)) == Abs(FileOf(t) - FileOf(sq));
      assert t in BishopSquares(sq);
    } else {
      assert t in RookSquares(sq);
    }
  }

  /** Each square of `sq`'s rank, file or diagonals is on one of the queen's slides. */
  lemma QueenTo(sq: int, t: int)
    requires 0 <= sq < 64 && t in RookSquares(sq) + BishopSquares(sq)
    ensures exists i :: 0 <= i < |KingDirs| && InWalk(sq, KingDirs[i], i, t)
  {
    var dr, df := RankOf(t) - RankOf(sq), FileOf(t) - FileOf(sq);
    if dr == 0 && df < 0 {
      assert AtStep(RankOf(sq), FileOf(sq), 0, -1, -df, t);
      Reach(sq, KingDirs, 3, -df, t);
    } else if dr == 0 {
      assert AtStep(RankOf(sq), FileOf(sq), 0, 1, df, t);
      Reach(sq, KingDirs, 4, df, t);
    } else if df == 0 && dr < 0 {
      assert AtStep(RankOf(sq), FileOf(sq), -1, 0, -dr, t);
      Reach(sq, KingDirs, 1, -dr, t);
    } else if df == 0 {
      assert AtStep(RankOf(sq), FileOf(sq), 1, 0, dr, t);
      Reach(sq, KingDirs, 6, dr, t);
    } else {
      assert t in BishopSquares(sq);
      assert Abs(dr) == Abs(df);
      if dr < 0 && df < 0 {
        assert AtStep(RankOf(sq), FileOf(sq), -1, -1, -dr, t);
        Reach(sq, KingDirs, 0, -dr, t);
      } else if dr < 0 {
        assert AtStep(RankOf(sq), FileOf(sq), -1, 1, -dr, t);
        Reach(sq, KingDirs, 2, -dr, t);
      } else if df < 0 {
        assert AtStep(RankOf(sq), FileOf(sq), 1, -1, dr, t);
        Reach(sq, KingDirs, 5, dr, t);
      } else {
        assert AtStep(RankOf(sq), FileOf(sq), 1, 1, dr, t);
        Reach(sq, KingDirs, 7, dr, t);
      }
    }
  }

  /** A rook entry holds `sq` and every square sharing its rank or file. */
  lemma RookTargets(sq: int)
    requires 0 <= sq < 64
    ensures SlideTargets(sq, RookMoves) == RookSquares(sq)
  {
    SlideTargetsWalks(sq, RookMoves, RookDirs);
    forall t ensures t in SlideWalks(sq, RookDirs) <==> t in RookSquares(sq) {
      SlideWalksMember(sq, RookDirs, t);
      if t in RookSquares(sq) {
        RookTo(sq, t);
      }
      if i :| 0 <= i < |RookDirs| && InWalk(sq, RookDirs[i], i, t) {
        RookFrom(sq, i, t);
      }
    }
  }

  /** A bishop entry holds `sq` and every square on its two diagonals. */
  lemma BishopTargets(sq: int)
    requires 0 <= sq < 64
    ensures SlideTargets(sq, BishopMoves) == BishopSquares(sq)
  {
    SlideTargetsWalks(sq, BishopMoves, BishopDirs);
    forall t ensures t in SlideWalks(sq, BishopDirs) <==> t in BishopSquares(sq) {
      SlideWalksMember(sq, BishopDirs, t);
      if t in BishopSquares(sq) {
        BishopTo(sq, t);
      }
      if i :| 0 <= i < |BishopDirs| && InWalk(sq, BishopDirs[i], i, t) {
        BishopFrom(sq, i, t);
      }
    }
  }

  /** A queen entry is the union of the rook and the bishop entries. */
  lemma QueenTargets(sq: int)
    requires 0 <= sq < 64
    ensures SlideTargets(sq, KingMoves) == RookSquares(sq) + BishopSquares(sq)
  {
    SlideTargetsWalks(sq, KingMoves, KingDirs);
    forall t ensures t in SlideWalks(sq, KingDirs) <==> t in RookSquares(sq) + BishopSquares(sq) {
      SlideWalksMember(sq, KingDirs, t);
      if t in RookSquares(sq) + BishopSquares(sq) {
        QueenTo(sq, t);
      }
      if i :| 0 <= i < |KingDirs| && InWalk(sq, KingDirs[i], i, t) {
        QueenFrom(sq, i, t);
      }
    }
  }

  /** `rook_lookup`: every square of the rook's rank and file, its own square included. */
  method RookLookup(pieceIndex: int) returns (result: BitBoard)
    requires 0 <= pieceIndex < 64
    ensures Squares(result) == RookSquares(pieceIndex)
  {
    result := SlideLookup(pieceIndex, RookMoves);
    RookTargets(pieceIndex);
  }

  /** `bishop_lookup`: every square of the bishop's diagonals, its own square included. */
  method BishopLookup(pieceIndex: int) returns (result: BitBoard)
    requires 0 <= pieceIndex < 64
    ensures Squares(result) == BishopSquares(pieceIndex)
  {
    result := SlideLookup(pieceIndex, BishopMoves);
    BishopTargets(pieceIndex);
  }

  /** `queen_lookup`: the rook's and the bishop's squares together. */
  method QueenLookup(pieceIndex: int) returns (result: BitBoard)
    requires 0 <= pieceIndex < 64
    ensures Squares(result) == RookSquares(pieceIndex) + BishopSquares(pieceIndex)
  {
    result := SlideLookup(pieceIndex, KingMoves);
    QueenTargets(pieceIndex);
  }

  /**
   * Boards whose squares are those of a rook entry and of a bishop entry
   * together are the bitwise or of the two: the queen entry is `rook | bishop`.
   */
  lemma QueenIsRookOrBishop(sq: int, queen: BitBoard, rook: BitBoard, bishop: BitBoard)
    requires 0 <= sq < 64
    requires Squares(queen) == RookSquares(sq) + BishopSquares(sq)
    requires Squares(rook) == RookSquares(sq) && Squares(bishop) == BishopSquares(sq)
    ensures queen == Or(rook, bishop)
  {
    SquaresInjective(queen, Or(rook, bishop));
  }

  /** Every rook, bishop and queen entry holds the slider's own square: the later directions restart at step 0. */
  lemma SliderHoldsOrigin(sq: int)
    requires 0 <= sq < 64
    ensures sq in SlideTargets(sq, RookMoves) && sq in SlideTargets(sq, BishopMoves)
    ensures sq in SlideTargets(sq, KingMoves)
  {
    RookTargets(sq);
    BishopTargets(sq);
    QueenTargets(sq);
  }

  // ---------------------------------------------------------------------
  // The 64-entry tables
  // ---------------------------------------------------------------------

  /** `generate_king`: entry `i` is the king's lookup from square `i`. */
  method GenerateKing() returns (table: array<BitBoard>)
    ensures table.Length == 64 && fresh(table)
    ensures forall i :: 0 <= i < 64 ==> Holds(table[i], KingSquares(i))
  {
    table := new BitBoard[64](_ => EMPTY);
    var i := 0;
    while i < 64
      invariant 0 <= i <= 64
      invariant forall j :: 0 <= j < i ==> Holds(table[j], KingSquares(j))
    {
      var entry := KingLookup(i);
      HoldsValue(entry, KingSquares(i));
      table[i] := entry;
      i := i + 1;
    }
  }

  /** `generate_queen`: entry `i` is the queen's lookup from square `i`. */
  method GenerateQueen() returns (table: array<BitBoard>)
    ensures table.Length == 64 && fresh(table)
    ensures forall i :: 0 <= i < 64 ==> Holds(table[i], RookSquares(i) + BishopSquares(i))
  {
    table := new BitBoard[64](_ => EMPTY);
    var i := 0;
    while i < 64
      invariant 0 <= i <= 64
      invariant forall j :: 0 <= j < i ==> Holds(table[j], RookSquares(j) + BishopSquares(j))
    {
      var entry := QueenLookup(i);
      HoldsValue(entry, RookSquares(i) + BishopSquares(i));
      table[i] := entry;
      i := i + 1;
    }
  }

  /** `generate_rook`: entry `i` is the rook's lookup from square `i`. */
  method GenerateRook() returns (table: array<BitBoard>)
    ensures table.Length == 64 && fresh(table)
    ensures forall i :: 0 <= i < 64 ==> Holds(table[i], RookSquares(i))
  {
    table := new BitBoard[64](_ => EMPTY);
    var i := 0;
    while i < 64
      invariant 0 <= i <= 64
      invariant forall j :: 0 <= j < i ==> Holds(table[j], RookSquares(j))
    {
      var entry := RookLookup(i);
      HoldsValue(entry, RookSquares(i));
      table[i] := entry;
      i := i + 1;
    }
  }

  /** `generate_bishop`: entry `i` is the bishop's lookup from square `i`. */
  method GenerateBishop() returns (table: array<BitBoard>)
    ensures table.Length == 64 && fresh(table)
    ensures forall i :: 0 <= i < 64 ==> Holds(table[i], BishopSquares(i))
  {
    table := new BitBoard[64](_ => EMPTY);
    var i := 0;
    while i < 64
      invariant 0 <= i <= 64
      invariant forall j :: 0 <= j < i ==> Holds(table[j], BishopSquares(j))
    {
      var entry := BishopLookup(i);
      HoldsValue(entry, BishopSquares(i));
      table[i] := entry;
      i := i + 1;
    }
  }

  /** Board `b` holds exactly the squares `s`. */
  ghost predicate Holds(b: BitBoard, s: set<int>)
  {
    HoldsLayer(b, s, 1)
  }

  /**
   * `Holds` behind a recursion of depth one, so that the table loops do not
   * unfold the square sets of every entry; `HoldsValue` states it.
   */
  ghost predicate HoldsLayer(b: BitBoard, s: set<int>, depth: nat)
  {
    if depth == 0 then Squares(b) == s else HoldsLayer(b, s, depth - 1)
  }

  lemma HoldsValue(b: BitBoard, s: set<int>)
    ensures Holds(b, s) <==> Squares(b) == s
  {
    assert HoldsLayer(b, s, 0) <==> Squares(b) == s;
  }

  /** `generate_knight`: entry `i` is the knight's lookup from square `i`. */
  method GenerateKnight() returns (table: array<BitBoard>)
    ensures table.Length == 64 && fresh(table)
    ensures forall i :: 0 <= i < 64 ==> Holds(table[i], KnightSquares(i))
  {
    table := new BitBoard[64](_ => EMPTY);
    var i := 0;
    while i < 64
      invariant 0 <= i <= 64
      invariant forall j :: 0 <= j < i ==> Holds(table[j], KnightSquares(j))
    {
      var entry := KnightLookup(i);
      HoldsValue(entry, KnightSquares(i));
      table[i] := entry;
      i := i + 1;
    }
  }

  /** `generate_white_pawn`: entry `i` is the white pawn's capture lookup from square `i`. */
  method GenerateWhitePawn() returns (table: array<BitBoard>)
    ensures table.Length == 64 && fresh(table)
    ensures forall i :: 0 <= i < 64 ==> Holds(table[i], WhitePawnSquares(i))
  {
    table := new BitBoard[64](_ => EMPTY);
    var i := 0;
    while i < 64
      invariant 0 <= i <= 64
      invariant forall j :: 0 <= j < i ==> Holds(table[j], WhitePawnSquares(j))
    {
      var entry := WhitePawnLookup(i);
      HoldsValue(entry, WhitePawnSquares(i));
      table[i] := entry;
      i := i + 1;
    }
  }

  /** `generate_black_pawn`: entry `i` is the black pawn's capture lookup from square `i`. */
  method GenerateBlackPawn() returns (table: array<BitBoard>)
    ensures table.Length == 64 && fresh(table)
    ensures forall i :: 0 <= i < 64 ==> Holds(table[i], BlackPawnSquares(i))
  {
    table := new BitBoard[64](_ => EMPTY);
    var i := 0;
    while i < 64
      invariant 0 <= i <= 64
      invariant forall j :: 0 <= j < i ==> Holds(table[j], BlackPawnSquares(j))
    {
      var entry := BlackPawnLookup(i);
      HoldsValue(entry, BlackPawnSquares(i));
      table[i] := entry;
      i := i + 1;
    }
  }
}
