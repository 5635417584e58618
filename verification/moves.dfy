/**
 * The "squares strictly between" table of src/moves.rs. The inner walk
 * steps from one square toward another one unit step at a time; the table
 * holds its result for every pair of squares.
 */
module Moves {
  import opened BitBoards
  import opened Lookup

  // ---------------------------------------------------------------------
  // Geometry of a segment
  // ---------------------------------------------------------------------

  /** `i8::signum`. */
  function Sign(x: int): int
  {
    if x > 0 then 1 else if x < 0 then -1 else 0
  }

  function Max(x: int, y: int): int { if x < y then y else x }

  /** Rank and file differences from `a` to `b`. */
  function DeltaRank(a: int, b: int): int { RankOf(b) - RankOf(a) }
  function DeltaFile(a: int, b: int): int { FileOf(b) - FileOf(a) }

  /** `a` and `b` share a rank, a file or a diagonal (a square is aligned with itself). */
  predicate Aligned(a: int, b: int)
  {
    DeltaRank(a, b) == 0 || DeltaFile(a, b) == 0 || Abs(DeltaRank(a, b)) == Abs(DeltaFile(a, b))
  }

  /** The number of unit steps from `a` to `b`: the larger of the two differences. */
  function Dist(a: int, b: int): nat
  {
    Max(Abs(DeltaRank(a, b)), Abs(DeltaFile(a, b)))
  }

  /** The square number `k` unit steps from `a` in the direction of `b`. */
  function StepSquare(a: int, b: int, k: int): int
  {
    Along(RankOf(a), Sign(DeltaRank(a, b)), k) * 8 + Along(FileOf(a), Sign(DeltaFile(a, b)), k)
  }

  /**
   * The squares strictly between `a` and `b`: for aligned squares, those
   * `k` unit steps from `a` toward `b` with `0 < k < Dist(a, b)`; none otherwise.
   */
  ghost function BetweenSquares(a: int, b: int): set<int>
  {
    if Aligned(a, b) then set k | 0 < k < Dist(a, b) :: StepSquare(a, b, k) else {}
  }

  /** The first `k - 1` squares of the walk from `a` toward `b`. */
  ghost function Walked(a: int, b: int, k: int): set<int>
  {
    set j | 0 < j < k :: StepSquare(a, b, j)
  }

  /** Each step of an aligned walk up to `b` is on the board, and it meets `b` at step `Dist(a, b)` only. */
  lemma StepOnBoard(a: int, b: int, k: int)
    requires 0 <= a < 64 && 0 <= b < 64 && Aligned(a, b) && 0 <= k <= Dist(a, b)
    ensures OnBoard(Along(RankOf(a), Sign(DeltaRank(a, b)), k), Along(FileOf(a), Sign(DeltaFile(a, b)), k))
    ensures 0 <= StepSquare(a, b, k) < 64
    ensures RankOf(StepSquare(a, b, k)) == Along(RankOf(a), Sign(DeltaRank(a, b)), k)
    ensures FileOf(StepSquare(a, b, k)) == Along(FileOf(a), Sign(DeltaFile(a, b)), k)
    ensures StepSquare(a, b, k) == b <==> k == Dist(a, b)
  {
    var r, f := Along(RankOf(a), Sign(DeltaRank(a, b)), k), Along(FileOf(a), Sign(DeltaFile(a, b)), k);
    assert SquareAt(r, f) == StepSquare(a, b, k);
    if StepSquare(a, b, k) == b {
      SameSquare(b, SquareAt(r, f));
    }
    if k == Dist(a, b) {
      SameSquare(b, SquareAt(r, f));
    }
  }

  lemma WalkedStep(a: int, b: int, k: int)
    requires 0 < k
    ensures Walked(a, b, k + 1) == Walked(a, b, k) + {StepSquare(a, b, k)}
  {
    forall t | t in Walked(a, b, k + 1) ensures t in Walked(a, b, k) + {StepSquare(a, b, k)} {
      var j :| 0 < j < k + 1 && t == StepSquare(a, b, j);
      if j < k {
        assert t in Walked(a, b, k);
      }
    }
    assert StepSquare(a, b, k) in Walked(a, b, k + 1);
  }

  /**
   * The result never holds an endpoint, holds only squares of the board,
   * and is empty for a square and itself and for neighbouring squares;
   * the walk takes at most 7 unit steps.
   */
  lemma BetweenEnds(a: int, b: int)
    requires 0 <= a < 64 && 0 <= b < 64
    ensures Dist(a, b) <= 7
    ensures a !in BetweenSquares(a, b) && b !in BetweenSquares(a, b)
    ensures forall t :: t in BetweenSquares(a, b) ==> 0 <= t < 64
    ensures Dist(a, b) <= 1 ==> BetweenSquares(a, b) == {}
  {
    if Aligned(a, b) {
      forall k | 0 < k < Dist(a, b)
        ensures 0 <= StepSquare(a, b, k) < 64
        ensures StepSquare(a, b, k) != a && StepSquare(a, b, k) != b
      {
        StepOnBoard(a, b, k);
      }
    }
  }

  /** The walk from `b` to `a` visits the same squares in the opposite order. */
  lemma StepReversed(a: int, b: int, k: int)
    requires 0 <= a < 64 && 0 <= b < 64 && Aligned(a, b) && 0 <= k <= Dist(a, b)
    ensures Aligned(b, a) && Dist(b, a) == Dist(a, b)
    ensures StepSquare(b, a, Dist(a, b) - k) == StepSquare(a, b, k)
  {
    StepOnBoard(a, b, Dist(a, b));
  }

  /** Every square between `a` and `b` is between `b` and `a`. */
  lemma BetweenReversed(a: int, b: int, t: int)
    requires 0 <= a < 64 && 0 <= b < 64 && t in BetweenSquares(a, b)
    ensures t in BetweenSquares(b, a)
  {
    var n := Dist(a, b);
    var k :| 0 < k < n && t == StepSquare(a, b, k);
    StepReversed(a, b, k);
    assert t == StepSquare(b, a, n - k);
  }

  /** `between(a, b) == between(b, a)`. */
  lemma BetweenSymmetric(a: int, b: int)
    requires 0 <= a < 64 && 0 <= b < 64
    ensures BetweenSquares(a, b) == BetweenSquares(b, a)
  {
    forall t ensures t in BetweenSquares(a, b) <==> t in BetweenSquares(b, a) {
      if t in BetweenSquares(a, b) {
        BetweenReversed(a, b, t);
      }
      if t in BetweenSquares(b, a) {
        BetweenReversed(b, a, t);
      }
    }
  }

  /**
   * A description of the squares between `a` and `b` that does not walk:
   * `t` is aligned with `a`, lies in the direction of `b` from `a`, and is
   * nearer to `a` than `b` is, without being `a`.
   */
  predicate OnSegment(a: int, b: int, t: int)
  {
    && Aligned(a, b) && Aligned(a, t)
    && Sign(DeltaRank(a, t)) == Sign(DeltaRank(a, b))
    && Sign(DeltaFile(a, t)) == Sign(DeltaFile(a, b))
    && 0 < Dist(a, t) < Dist(a, b)
  }

  /** A square is step `k` of the walk exactly when its rank and file are `k` unit steps from `a`'s. */
  lemma StepAt(a: int, b: int, t: int, k: int)
    requires 0 <= a < 64 && 0 <= b < 64 && 0 <= t < 64 && Aligned(a, b) && 0 <= k <= Dist(a, b)
    ensures t == StepSquare(a, b, k) <==>
      RankOf(t) == Along(RankOf(a), Sign(DeltaRank(a, b)), k) && FileOf(t) == Along(FileOf(a), Sign(DeltaFile(a, b)), k)
  {
    StepOnBoard(a, b, k);
    if RankOf(t) == Along(RankOf(a), Sign(DeltaRank(a, b)), k) && FileOf(t) == Along(FileOf(a), Sign(DeltaFile(a, b)), k) {
      SameSquare(t, StepSquare(a, b, k));
    }
  }

  /** Every square the walk collects lies on the segment. */
  lemma BetweenOnSegment(a: int, b: int, t: int)
    requires 0 <= a < 64 && 0 <= b < 64 && t in BetweenSquares(a, b)
    ensures OnSegment(a, b, t)
  {
    var k :| 0 < k < Dist(a, b) && t == StepSquare(a, b, k);
    StepOnBoard(a, b, k);
    SegmentOfStep(a, b, t, k);
  }

  /** The square `k` unit steps from `a` toward `b`, short of `b`, is on the segment. */
  lemma SegmentOfStep(a: int, b: int, t: int, k: int)
    requires Aligned(a, b) && 0 < k < Dist(a, b)
    requires RankOf(t) == Along(RankOf(a), Sign(DeltaRank(a, b)), k)
    requires FileOf(t) == Along(FileOf(a), Sign(DeltaFile(a, b)), k)
    ensures OnSegment(a, b, t)
  {
    var dr, df := DeltaRank(a, t), DeltaFile(a, t);
    assert dr == Along(0, Sign(DeltaRank(a, b)), k) && df == Along(0, Sign(DeltaFile(a, b)), k);
    assert Sign(dr) == Sign(DeltaRank(a, b)) && Sign(df) == Sign(DeltaFile(a, b));
    assert dr != 0 || df != 0;
    assert Dist(a, t) == k;
  }

  /** Every square on the segment is collected by the walk. */
  lemma SegmentBetween(a: int, b: int, t: int)
    requires 0 <= a < 64 && 0 <= b < 64 && 0 <= t < 64 && OnSegment(a, b, t)
    ensures t in BetweenSquares(a, b)
  {
    var k := Dist(a, t);
    StepAt(a, b, t, k);
    assert t == StepSquare(a, b, k);
  }

  /** Walking from `a` toward `b` yields exactly the squares on the segment between them. */
  lemma BetweenIff(a: int, b: int, t: int)
    requires 0 <= a < 64 && 0 <= b < 64 && 0 <= t < 64
    ensures t in BetweenSquares(a, b) <==> OnSegment(a, b, t)
  {
    if t in BetweenSquares(a, b) {
      BetweenOnSegment(a, b, t);
    }
    if OnSegment(a, b, t) {
      SegmentBetween(a, b, t);
    }
  }

  // ---------------------------------------------------------------------
  // The walk, the table and the exported lookup
  // ---------------------------------------------------------------------

  /** The walk's `square` after `k + 1` unit steps is one unit step from the one after `k`. */
  lemma OffsetStep(a: int, b: int, k: int)
    requires 0 <= a < 64 && 0 <= b < 64 && Aligned(a, b) && 0 <= k < Dist(a, b)
    ensures 0 <= RankOf(StepSquare(a, b, k)) + Sign(DeltaRank(a, b)) < 8
    ensures 0 <= FileOf(StepSquare(a, b, k)) + Sign(DeltaFile(a, b)) < 8
    ensures (RankOf(StepSquare(a, b, k)) + Sign(DeltaRank(a, b))) * 8
      + (FileOf(StepSquare(a, b, k)) + Sign(DeltaFile(a, b))) == StepSquare(a, b, k + 1)
  {
    StepOnBoard(a, b, k);
    StepOnBoard(a, b, k + 1);
  }

  /** The walk's first `offset`, from `a`, lands on step 1. */
  lemma WalkBegins(a: int, b: int)
    requires 0 <= a < 64 && 0 <= b < 64 && Aligned(a, b)
    ensures 0 <= RankOf(a) + Sign(DeltaRank(a, b)) < 8
    ensures 0 <= FileOf(a) + Sign(DeltaFile(a, b)) < 8
    ensures (RankOf(a) + Sign(DeltaRank(a, b))) * 8 + (FileOf(a) + Sign(DeltaFile(a, b))) == StepSquare(a, b, 1)
  {
    if a == b {
      StepOnBoard(a, b, 0);
      assert StepSquare(a, b, 1) == StepSquare(a, b, 0);
    } else {
      StepOnBoard(a, b, 1);
    }
  }

  /** One unit step moves the walk from square `k` to square `k + 1`, staying on the board. */
  lemma Advance(a: int, b: int, k: int, s: int, sr: int, sf: int)
    requires 0 <= a < 64 && 0 <= b < 64 && Aligned(a, b) && 0 <= k && (k == 0 || k < Dist(a, b))
    requires s == StepSquare(a, b, k) && sr == Sign(DeltaRank(a, b)) && sf == Sign(DeltaFile(a, b))
    ensures 0 <= s < 64 && 0 <= s / 8 + sr < 8 && 0 <= s % 8 + sf < 8
    ensures (s / 8 + sr) * 8 + (s % 8 + sf) == StepSquare(a, b, k + 1)
  {
    StepOnBoard(a, b, k);
    if k == 0 {
      WalkBegins(a, b);
    } else {
      OffsetStep(a, b, k);
    }
  }

  /** OR-ing in the walk's square `k` extends the collected squares by it. */
  lemma Collect(a: int, b: int, k: int, between: BitBoard)
    requires 0 <= a < 64 && 0 <= b < 64 && Aligned(a, b) && 0 < k <= Dist(a, b)
    requires Squares(between) == Walked(a, b, k)
    ensures Squares(Or(between, Single(StepSquare(a, b, k)))) == Walked(a, b, k + 1)
  {
    StepOnBoard(a, b, k);
    SingleSquares(StepSquare(a, b, k));
    WalkedStep(a, b, k);
  }

  /** The walk stops when its square is `to`: at step `Dist(a, b)`, or at once when `a == b`. */
  lemma WalkEnds(a: int, b: int, k: int, square: BitBoard, to: BitBoard)
    requires 0 <= a < 64 && 0 <= b < 64 && Aligned(a, b) && 1 <= k
    requires (a != b ==> k <= Dist(a, b)) && (a == b ==> k == 1)
    requires 0 <= StepSquare(a, b, k) < 64 && square == Single(StepSquare(a, b, k)) && Squares(to) == {b}
    ensures square == to ==> Walked(a, b, k) == BetweenSquares(a, b)
    ensures square != to ==> a != b && k < Dist(a, b)
  {
    SingleSquares(StepSquare(a, b, k));
    if square != to {
      if StepSquare(a, b, k) == b {
        SquaresInjective(square, to);
      }
    }
    if a != b {
      StepOnBoard(a, b, k);
    } else {
      assert StepSquare(a, b, k) == a;
      assert Walked(a, b, k) == {};
    }
  }

  /** The walk starts with nothing collected. */
  lemma WalkedEmpty(a: int, b: int)
    ensures Squares(EMPTY) == Walked(a, b, 1)
  {
    EmptyFullSquares();
    assert Walked(a, b, 1) == {};
  }

  /**
   * The walk's state before its `k`-th step: `square` is step `k` of the
   * walk from `a` toward `b`, and `between` holds the steps before it.
   * `WalkState` is compared with `true` so that the verifier carries it as
   * one fact rather than checking its conjuncts one by one at every use.
   */
  ghost predicate Walking(a: int, b: int, k: int, square: BitBoard, between: BitBoard)
  {
    WalkState(a, b, k, square, between) == true
  }

  ghost predicate WalkState(a: int, b: int, k: int, square: BitBoard, between: BitBoard)
  {
    && 0 <= a < 64 && 0 <= b < 64 && Aligned(a, b) && 1 <= k
    && (a != b ==> k <= Dist(a, b)) && (a == b ==> k == 1)
    && 0 <= StepSquare(a, b, k) < 64 && square == Single(StepSquare(a, b, k))
    && Squares(between) == Walked(a, b, k)
  }

  /** Squares sharing no line have nothing between them. */
  lemma Unaligned(a: int, b: int)
    requires !Aligned(a, b)
    ensures Squares(EMPTY) == BetweenSquares(a, b)
  {
    EmptyFullSquares();
  }

  /** What the walk reads from its two boards. */
  lemma WalkSetup(from: BitBoard, to: BitBoard)
    requires from != EMPTY && to != EMPTY && Squares(to) == {First(to)}
    ensures Rank(from) == RankOf(First(from)) && File(from) == FileOf(First(from))
    ensures Rank(to) - Rank(from) == DeltaRank(First(from), First(to))
    ensures File(to) - File(from) == DeltaFile(First(from), First(to))
  {}

  /** The first `offset`, from `from`, is step 1 of the walk, with nothing collected yet. */
  lemma WalkStart(from: BitBoard, b: int, sr: int, sf: int)
    requires from != EMPTY && 0 <= b < 64 && Aligned(First(from), b)
    requires sr == Sign(DeltaRank(First(from), b)) && sf == Sign(DeltaFile(First(from), b))
    ensures ShiftFits(Rank(from) + sr, File(from) + sf)
    ensures Walking(First(from), b, 1, Offset(from, sr, sf), EMPTY)
  {
    ghost var a := First(from);
    Advance(a, b, 0, a, sr, sf);
    OffsetFirst(from, a, sr, sf, StepSquare(a, b, 1));
    WalkedEmpty(a, b);
  }

  /** A square that is not `to` is collected, and the next `offset` is the walk's next step. */
  lemma WalkStep(a: int, b: int, k: int, square: BitBoard, between: BitBoard, to: BitBoard, sr: int, sf: int)
    requires Walking(a, b, k, square, between) && Squares(to) == {b} && square != to
    requires sr == Sign(DeltaRank(a, b)) && sf == Sign(DeltaFile(a, b))
    ensures k < Dist(a, b)
    ensures ShiftFits(Rank(square) + sr, File(square) + sf)
    ensures Walking(a, b, k + 1, Offset(square, sr, sf), Or(between, square))
  {
    WalkEnds(a, b, k, square, to);
    Collect(a, b, k, between);
    ghost var s := StepSquare(a, b, k);
    Advance(a, b, k, s, sr, sf);
    FirstSingle(s);
    OffsetFirst(square, s, sr, sf, StepSquare(a, b, k + 1));
  }

  /** When the walk's square is `to`, the collected squares are exactly those between. */
  lemma WalkDone(a: int, b: int, k: int, square: BitBoard, between: BitBoard, to: BitBoard)
    requires Walking(a, b, k, square, between) && Squares(to) == {b} && square == to
    ensures Squares(between) == BetweenSquares(a, b)
  {
    WalkEnds(a, b, k, square, to);
  }

  /**
   * The inner `between_rays`: from the lowest square of `from`, step toward
   * the single square `to` one unit step at a time, collecting each square
   * before `to`; squares sharing no line give `EMPTY`.
   */
  method BetweenWalk(from: BitBoard, to: BitBoard) returns (between: BitBoard)
    requires from != EMPTY && to != EMPTY && Squares(to) == {First(to)}
    ensures Squares(between) == BetweenSquares(First(from), First(to))
  {
    ghost var a, b := First(from), First(to);
    var dr := Rank(to) - Rank(from);
    var df := File(to) - File(from);
    WalkSetup(from, to);
    var orthogonal := dr == 0 || df == 0;
    var diagonal := Abs(dr) == Abs(df);
    if !(orthogonal || diagonal) {
      Unaligned(a, b);
      return EMPTY;
    }
    var stepRank, stepFile := Sign(dr), Sign(df);
    WalkStart(from, b, stepRank, stepFile);
    var square := Offset(from, stepRank, stepFile);
    between := EMPTY;
    var k := 1;
    while square != to
      invariant Walking(a, b, k, square, between)
      decreases Dist(a, b) + 1 - k
    {
      WalkStep(a, b, k, square, between, to, stepRank, stepFile);
      between := OrAssign(between, square);
      square := Offset(square, stepRank, stepFile);
      k := k + 1;
    }
    WalkDone(a, b, k, square, between, to);
  }

  /**
   * `b` holds exactly the squares between `f` and `t`. It goes through
   * `HoldsLayer`, a recursion of depth one that the solver does not unfold
   * on its own, so that the table's loops carry it as one fact per entry;
   * `HoldsValue` states the definition.
   */
  ghost predicate HoldsBetween(b: BitBoard, f: int, t: int)
  {
    HoldsLayer(b, f, t, 1)
  }

  ghost predicate HoldsLayer(b: BitBoard, f: int, t: int, depth: nat)
  {
    if depth == 0 then Squares(b) == BetweenSquares(f, t) else HoldsLayer(b, f, t, depth - 1)
  }

  lemma HoldsValue(b: BitBoard, f: int, t: int)
    ensures HoldsBetween(b, f, t) <==> Squares(b) == BetweenSquares(f, t)
  {
    assert HoldsLayer(b, f, t, 0) <==> Squares(b) == BetweenSquares(f, t);
  }

  /** `between_rays(BitBoard(1 << f), BitBoard(1 << t))`, as each entry of the table is built. */
  method SquareWalk(f: int, t: int) returns (between: BitBoard)
    requires 0 <= f < 64 && 0 <= t < 64
    ensures HoldsBetween(between, f, t)
  {
    FirstSingle(f);
    FirstSingle(t);
    SingleSquares(t);
    between := BetweenWalk(Single(f), Single(t));
    HoldsValue(between, f, t);
  }

  /**
   * The `TABLE` constant: `between_rays` of the single squares `from` and
   * `to`, for every pair, filled row by row.
   */
  method BetweenTable() returns (table: array2<BitBoard>)
    ensures fresh(table) && table.Length0 == 64 && table.Length1 == 64
    ensures forall f, t :: 0 <= f < 64 && 0 <= t < 64 ==> HoldsBetween(table[f, t], f, t)
  {
    table := new BitBoard[64, 64]((_, _) => EMPTY);
    var from := 0;
    var to := 0;
    while from < 64
      invariant 0 <= from <= 64 && to == 0
      invariant forall f, t :: 0 <= f < from && 0 <= t < 64 ==> HoldsBetween(table[f, t], f, t)
    {
      while to < 64
        invariant 0 <= to <= 64
        invariant forall f, t :: 0 <= f < from && 0 <= t < 64 ==> HoldsBetween(table[f, t], f, t)
        invariant forall t :: 0 <= t < to ==> HoldsBetween(table[from, t], from, t)
      {
        table[from, to] := SquareWalk(from, to);
        to := to + 1;
      }
      to := 0;
      from := from + 1;
    }
  }

  /**
   * `between_rays`: the squares strictly between the lowest squares of
   * `from` and `to`, read from the table (an empty board would index it
   * out of bounds).
   */
  method BetweenRays(from: BitBoard, to: BitBoard) returns (between: BitBoard)
    requires from != EMPTY && to != EMPTY
    ensures Squares(between) == BetweenSquares(First(from), First(to))
  {
    var table := BetweenTable();
    between := table[First(from), First(to)];
    HoldsValue(between, First(from), First(to));
  }
}
