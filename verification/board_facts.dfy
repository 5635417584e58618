/**
 * What the detector of src/board.rs computes, said in terms of the board's
 * geometry rather than of the walks and tables it uses: a slider gives
 * check when nothing stands on the segment to the king, pins when exactly
 * one piece does, the check mask is the union of those segments, and a pin
 * mask axis is the segment to the last pinner on it.
 */
module BoardFacts {
  import opened BitBoards
  import opened Lookup
  import opened Moves
  import opened Boards
  import Colors

  /** `t` is an occupied square other than one of `kings` on the segment from `a` to the king on `k`. */
  ghost predicate BlocksAt(k: int, kings: set<int>, occupied: set<int>, a: int, t: int)
  {
    t in occupied && t !in kings && OnSegment(a, k, t)
  }

  /** The blockers the detector counts are the pieces on the segment from `a` to the king. */
  lemma BlockersOnSegment(k: int, kings: set<int>, occupied: set<int>, a: int)
    requires 0 <= k < 64 && 0 <= a < 64 && occupied <= AllSquares
    ensures forall t :: t in BlockersAt(k, kings, occupied, a) <==> BlocksAt(k, kings, occupied, a, t)
  {
    BlockersValue(k, kings, occupied, a);
    forall t ensures t in BlockersAt(k, kings, occupied, a) <==> BlocksAt(k, kings, occupied, a, t) {
      if 0 <= t < 64 {
        BetweenIff(a, k, t);
      }
    }
  }

  /** An attacker has no blocker exactly when no occupied square is on its segment to the king. */
  lemma NoBlockerIff(k: int, kings: set<int>, occupied: set<int>, attackers: set<int>, a: int)
    requires 0 <= k < 64 && occupied <= AllSquares && attackers <= AllSquares
    ensures a in WithBlockers(k, kings, occupied, attackers, 0) <==>
      a in attackers && forall t :: !BlocksAt(k, kings, occupied, a, t)
  {
    if a in attackers {
      BlockersOnSegment(k, kings, occupied, a);
      var x := BlockersAt(k, kings, occupied, a);
      assert (forall y :: y !in x) ==> x == {};
      if x != {} {
        var t :| t in x;
        assert BlocksAt(k, kings, occupied, a, t);
      }
    }
  }

  /** `t` is the one and only square blocking the segment from `a` to the king on `k`. */
  ghost predicate OnlyBlocker(k: int, kings: set<int>, occupied: set<int>, a: int, t: int)
  {
    BlocksAt(k, kings, occupied, a, t) && forall u :: BlocksAt(k, kings, occupied, a, u) ==> u == t
  }

  /** An attacker has one blocker exactly when one occupied square, and no other, is on its segment to the king. */
  lemma OneBlockerIff(k: int, kings: set<int>, occupied: set<int>, attackers: set<int>, a: int)
    requires 0 <= k < 64 && occupied <= AllSquares && attackers <= AllSquares
    ensures a in WithBlockers(k, kings, occupied, attackers, 1) <==>
      a in attackers && exists t :: OnlyBlocker(k, kings, occupied, a, t)
  {
    if a in attackers {
      BlockersOnSegment(k, kings, occupied, a);
      var x := BlockersAt(k, kings, occupied, a);
      if |x| == 1 {
        var t := OneMember(x);
        assert OnlyBlocker(k, kings, occupied, a, t);
      }
      if exists t :: OnlyBlocker(k, kings, occupied, a, t) {
        var t :| OnlyBlocker(k, kings, occupied, a, t);
        SingleBlocker(k, kings, occupied, a, t);
      }
    }
  }

  /** The only blocker makes the blockers a set of one. */
  lemma SingleBlocker(k: int, kings: set<int>, occupied: set<int>, a: int, t: int)
    requires 0 <= k < 64 && 0 <= a < 64 && occupied <= AllSquares && OnlyBlocker(k, kings, occupied, a, t)
    ensures |BlockersAt(k, kings, occupied, a)| == 1
  {
    BlockersOnSegment(k, kings, occupied, a);
    var x := BlockersAt(k, kings, occupied, a);
    forall u ensures u in x <==> u == t {
      assert u in x <==> BlocksAt(k, kings, occupied, a, u);
    }
    assert x == {t};
  }

  /** The one element of a set of one. */
  lemma OneMember(x: set<int>) returns (t: int)
    requires |x| == 1
    ensures x == {t}
  {
    assert (forall y :: y !in x) ==> x == {};
    t :| t in x;
    var rest := x - {t};
    assert |rest| == 0;
  }

  /**
   * Among attackers on the king's lines, those with one blocker are on one
   * of its four axes and are not on the king's square, which has nothing
   * between it and itself.
   */
  lemma PinnersOnAxisAt(k: int, kings: set<int>, occupied: set<int>, attackers: set<int>)
    requires 0 <= k < 64 && attackers <= RookSquares(k) + BishopSquares(k)
    ensures forall p :: p in WithBlockers(k, kings, occupied, attackers, 1) ==> 0 <= p < 64 && p != k && OnAxis(k, p)
  {
    forall p | p in WithBlockers(k, kings, occupied, attackers, 1)
      ensures 0 <= p < 64 && p != k && OnAxis(k, p)
    {
      BlockersValue(k, kings, occupied, p);
      BetweenEnds(p, k);
      assert p == k ==> Dist(p, k) == 0;
      assert Abs(RankOf(p) - RankOf(k)) == Abs(FileOf(p) - FileOf(k)) ==>
        RankOf(k) - RankOf(p) == FileOf(k) - FileOf(p) || RankOf(k) - RankOf(p) == FileOf(p) - FileOf(k);
    }
  }

  /** No attacker has both no blocker and one blocker. */
  lemma CheckersNotPinners(k: int, kings: set<int>, occupied: set<int>, attackers: set<int>)
    ensures WithBlockers(k, kings, occupied, attackers, 0) * WithBlockers(k, kings, occupied, attackers, 1) == {}
    ensures WithBlockers(k, kings, occupied, attackers, 0) + WithBlockers(k, kings, occupied, attackers, 1) <= attackers
  {}

  /** The slider attackers are on the king's lines. */
  lemma AttackersOnLines(b: Board, c: Color)
    requires HasKing(b, c)
    ensures SliderAttackers(b, c) <= RookSquares(KingSquare(b, c)) + BishopSquares(KingSquare(b, c))
  {}

  /** The slider attackers are enemy rooks, bishops and queens. */
  lemma AttackersEnemySliders(b: Board, c: Color)
    requires HasKing(b, c)
    ensures SliderAttackers(b, c) <= Squares(Theirs(b, c)) * (Squares(b.pieces.rook) + Squares(b.pieces.bishop) + Squares(b.pieces.queen))
  {}

  /** The slider attackers are squares of the board. */
  lemma AttackersOnBoard(b: Board, c: Color)
    requires HasKing(b, c)
    ensures SliderAttackers(b, c) <= AllSquares
  {}

  /**
   * The pinners the first half of the detector returns meet what the pin
   * loop demands of them: each lies on one of the king's four lines and is
   * not the king's square, so the loop never reaches its panic.
   */
  lemma PinnersOnAxis(b: Board, c: Color)
    requires HasKing(b, c)
    ensures forall p :: p in Pinners(b, c) ==> 0 <= p < 64 && p != KingSquare(b, c) && OnAxis(KingSquare(b, c), p)
  {
    AttackersOnLines(b, c);
    PinnersOnAxisAt(KingSquare(b, c), Squares(OurKing(b, c)), Squares(Occupied(b)), SliderAttackers(b, c));
  }

  /** Pinners are enemy rooks, bishops or queens, and none of them also gives check. */
  lemma PinnersShape(b: Board, c: Color)
    requires HasKing(b, c)
    ensures Pinners(b, c) <= Squares(Theirs(b, c)) * (Squares(b.pieces.rook) + Squares(b.pieces.bishop) + Squares(b.pieces.queen))
    ensures SliderCheckers(b, c) * Pinners(b, c) == {}
  {
    AttackersEnemySliders(b, c);
    CheckersNotPinners(KingSquare(b, c), Squares(OurKing(b, c)), Squares(Occupied(b)), SliderAttackers(b, c));
  }

  /** Every checker is an enemy piece. */
  lemma CheckersEnemy(b: Board, c: Color)
    requires HasKing(b, c)
    ensures Checkers(b, c) <= Squares(Theirs(b, c))
  {
    AttackersEnemySliders(b, c);
    CheckersNotPinners(KingSquare(b, c), Squares(OurKing(b, c)), Squares(Occupied(b)), SliderAttackers(b, c));
  }

  /**
   * A piece is a knight checker exactly when it is an enemy piece a knight
   * on its square would attack the king from: any enemy piece there counts,
   * whatever its type, because the table is masked by colour only.
   */
  lemma KnightCheckerIff(b: Board, c: Color, a: int)
    requires HasKing(b, c)
    ensures a in KnightCheckers(b, c) <==> 0 <= a < 64 && a in Squares(Theirs(b, c)) && KingSquare(b, c) in KnightSquares(a)
  {
    if 0 <= a < 64 {
      KnightSymmetric(KingSquare(b, c), a);
    }
  }

  /** A pawn is a pawn checker exactly when it is an enemy pawn whose own capture squares hold the king. */
  lemma PawnCheckerIff(b: Board, c: Color, a: int)
    requires HasKing(b, c)
    ensures a in PawnCheckers(b, c) <==>
      0 <= a < 64 && a in Squares(b.pieces.pawn) * Squares(Theirs(b, c))
      && KingSquare(b, c) in PawnAttackSquares(Colors.Not(c), a)
  {
    if 0 <= a < 64 {
      PawnAttacksMirror(c, KingSquare(b, c), a);
    }
  }

  /**
   * A square is in the check mask exactly when it lies on the segment from
   * the king to a checker that is not a knight's jump away, and is not one
   * of the king's side's kings (a king a knight's jump away stays).
   */
  lemma CheckMaskIff(k: int, kings: set<int>, checkers: set<int>, t: int)
    requires 0 <= k < 64 && checkers <= AllSquares
    ensures t in CheckMask(k, kings, checkers) <==>
      0 <= t < 64 && (t !in kings || t in KnightSquares(k))
      && exists s :: s in checkers && s !in KnightSquares(k) && OnSegment(s, k, t)
  {
    if t in CheckMask(k, kings, checkers) {
      var s :| s in checkers - KnightSquares(k) && t in BetweenSquares(s, k);
      BetweenEnds(s, k);
      BetweenIff(s, k, t);
    }
    if 0 <= t < 64 && exists s :: s in checkers && s !in KnightSquares(k) && OnSegment(s, k, t) {
      var s :| s in checkers && s !in KnightSquares(k) && OnSegment(s, k, t);
      BetweenIff(s, k, t);
    }
  }

  /** The king's own square is never in its check mask, and checkers all a knight's jump away leave it empty. */
  lemma CheckMaskKing(k: int, kings: set<int>, checkers: set<int>)
    requires 0 <= k < 64 && k in kings
    ensures k !in CheckMask(k, kings, checkers)
    ensures checkers <= KnightSquares(k) ==> CheckMask(k, kings, checkers) == {}
  {
    assert k !in KnightSquares(k);
    assert checkers <= KnightSquares(k) ==> checkers - KnightSquares(k) == {};
  }

  /** A square of a ray comes from one of the sliders. */
  lemma RaySource(k: int, sliders: set<int>, t: int) returns (s: int)
    requires t in Rays(k, sliders)
    ensures s in sliders && t in BetweenSquares(s, k)
  {
    s :| s in sliders && t in BetweenSquares(s, k);
  }

  /** A square strictly between a square and the king is on a line with the king, so not a knight's jump away. */
  lemma BetweenNotKnight(s: int, k: int, t: int)
    requires 0 <= s < 64 && 0 <= k < 64 && t in BetweenSquares(s, k)
    ensures t !in KnightSquares(k)
  {
    BetweenEnds(s, k);
    BetweenSymmetric(s, k);
    BetweenIff(k, s, t);
  }

  /**
   * When every checker is occupied, and the checkers that are not sliders
   * with nothing in between are a knight's jump or one step away, the check
   * mask holds none of them: a mask square is on a line with the king, so
   * only our kings are taken out of it, and an occupied square other than
   * those between a slider and the king would block it.
   */
  lemma CheckMaskAvoidsAt(k: int, kings: set<int>, occupied: set<int>, sliders: set<int>, knights: set<int>, pawns: set<int>, checkers: set<int>)
    requires 0 <= k < 64 && sliders <= AllSquares && pawns <= AllSquares
    requires checkers == WithBlockers(k, kings, occupied, sliders, 0) + knights + pawns
    requires checkers <= occupied && knights <= KnightSquares(k)
    requires forall s :: s in pawns ==> Dist(s, k) <= 1
    ensures CheckMask(k, kings, checkers) * checkers == {}
  {
    forall t | t in CheckMask(k, kings, checkers) ensures t !in checkers {
      var s := RaySource(k, checkers - KnightSquares(k), t);
      BetweenEnds(s, k);
      BetweenNotKnight(s, k, t);
      assert t !in kings && t != s;
      if s in pawns {
        assert false;
      }
      assert s in WithBlockers(k, kings, occupied, sliders, 0);
      BlockersValue(k, kings, occupied, s);
      assert BlockersAt(k, kings, occupied, s) == {};
      assert t !in BetweenSquares(s, k) * occupied - (kings + {s});
    }
  }

  /** A pawn attacks only the squares next to it. */
  lemma PawnAdjacent(c: Color, a: int, k: int)
    requires 0 <= a < 64 && k in PawnAttackSquares(c, a)
    ensures 0 <= k < 64 && Dist(k, a) == 1 && Dist(a, k) == 1
  {}

  /** Enemy pawns giving check stand next to the king. */
  lemma PawnCheckersAdjacent(b: Board, c: Color)
    requires HasKing(b, c)
    ensures PawnCheckers(b, c) <= AllSquares
    ensures forall s :: s in PawnCheckers(b, c) ==> Dist(s, KingSquare(b, c)) <= 1
  {
    var k := KingSquare(b, c);
    forall s | s in PawnCheckers(b, c) ensures 0 <= s < 64 && Dist(s, k) <= 1 {
      PawnAdjacent(c, k, s);
    }
  }

  /**
   * The check mask the second half of the detector builds from the checkers
   * the first half returns holds none of those checkers.
   */
  lemma CheckMaskAvoidsCheckers(b: Board, c: Color)
    requires HasKing(b, c)
    ensures CheckMask(KingSquare(b, c), Squares(OurKing(b, c)), Checkers(b, c)) * Checkers(b, c) == {}
  {
    PawnCheckersAdjacent(b, c);
    AttackersOnBoard(b, c);
    CheckersEnemy(b, c);
    OccupiedBySides(b, Colors.Not(c));
    CheckMaskAvoidsAt(KingSquare(b, c), Squares(OurKing(b, c)), Squares(Occupied(b)), SliderAttackers(b, c),
      KnightCheckers(b, c), PawnCheckers(b, c), Checkers(b, c));
  }

  /** When no square holds both sides, every checker is an occupied square other than our kings. */
  lemma CheckersOccupied(b: Board, c: Color)
    requires HasKing(b, c) && Squares(b.pieces.white) * Squares(b.pieces.black) == {}
    ensures Checkers(b, c) <= Squares(Occupied(b)) - Squares(OurKing(b, c))
  {
    CheckersEnemy(b, c);
    Enemies(b, c);
  }

  /** The other side's pieces are occupied squares and, when no square holds both sides, none of this side's kings. */
  lemma Enemies(b: Board, c: Color)
    requires Squares(b.pieces.white) * Squares(b.pieces.black) == {}
    ensures Squares(Theirs(b, c)) <= Squares(Occupied(b)) - Squares(OurKing(b, c))
  {
    match c
    case White =>
    case Black =>
  }

  /** A square is on a pin line exactly when it is the pinner or on the segment to it, and is not one of ours. */
  lemma PinLineIff(k: int, p: int, ours: set<int>, t: int)
    requires 0 <= k < 64 && 0 <= p < 64 && 0 <= t < 64
    ensures t in PinLine(k, p, ours) <==> t !in ours && (t == p || OnSegment(k, p, t))
  {
    BetweenIff(k, p, t);
  }

  /**
   * The pinner the loop visits last on an axis, the highest on it, decides
   * that axis's mask; earlier pinners on the same axis leave no trace.
   */
  lemma LastPinnerWins(k: int, ours: set<int>, pinners: set<int>, p: int)
    requires 0 <= p < 64 && p in pinners && OnAxis(k, p)
    requires forall q :: q in pinners && OnAxis(k, q) && AxisOf(k, q) == AxisOf(k, p) ==> q <= p
    ensures AxisMask(k, ours, pinners, AxisOf(k, p)) == PinLine(k, p, ours)
  {
    var x := AxisOf(k, p);
    HighestMax(AxisPinners(k, pinners, x), 64);
    assert p in AxisPinners(k, pinners, x);
  }

  /**
   * An axis without a pinner keeps its empty mask, no mask holds one of our
   * pieces, and when no pinner stands on one of ours an axis is empty
   * exactly when no pinner is on it.
   */
  lemma AxisMaskEmpty(k: int, ours: set<int>, pinners: set<int>, x: Axis)
    requires pinners <= AllSquares
    ensures AxisMask(k, ours, pinners, x) * ours == {}
    ensures AxisPinners(k, pinners, x) == {} ==> AxisMask(k, ours, pinners, x) == {}
    ensures pinners * ours == {} ==> (AxisMask(k, ours, pinners, x) == {} <==> AxisPinners(k, pinners, x) == {})
  {
    var top := Highest(AxisPinners(k, pinners, x), 64);
    HighestMax(AxisPinners(k, pinners, x), 64);
    if top >= 0 {
      assert top in PinLine(k, top, ours) || top in ours;
    }
  }
}
