/**
 * The FEN record of the initial position, which `Board::default`
 * (src/board.rs) parses, and the facts about it that parsing needs.
 */
module StartPosition {
  import opened Text
  import opened Colors
  import opened Lookup
  import opened Placement

  /** The ranks of the initial position, eighth rank first. */
  const StartRanks: seq<string> := ["rnbqkbnr", "pppppppp", "8", "8", "8", "8", "PPPPPPPP", "RNBQKBNR"]

  /** The six fields of the record: placement, side, castling, en passant, the two clocks. */
  const StartFields: seq<string> := [Join(StartRanks, '/'), "w", "KQkq", "-", "0", "1"]

  /** `rnbqkbnr/pppppppp/8/8/8/8/PPPPPPPP/RNBQKBNR w KQkq - 0 1` */
  const StartFen: string := Join(StartFields, ' ')

  /** What follows the placement field. */
  const StartTail: string := [' '] + Join(StartFields[1..], ' ')

  lemma FieldsFree()
    ensures forall i :: 0 <= i < |StartRanks| ==> ' ' !in StartRanks[i] && '/' !in StartRanks[i]
    ensures forall i :: 1 <= i < |StartFields| ==> ' ' !in StartFields[i] && '/' !in StartFields[i]
  {}

  /** The record splits at spaces into its six fields. */
  lemma StartFenFields()
    ensures Split(StartFen, ' ') == StartFields
  {
    FieldsFree();
    JoinFree(StartRanks, '/', ' ');
    SplitJoin(StartFields, ' ');
  }

  /** The record splits at `/` into the eight ranks, the last running on into the other fields. */
  lemma StartFenSegments()
    ensures Split(StartFen, '/') == StartRanks[..7] + [StartRanks[7] + StartTail]
  {
    FieldsFree();
    SplitJoin(StartRanks, '/');
    JoinFree(StartFields[1..], ' ', '/');
    assert StartFen == Join(StartRanks, '/') + StartTail;
    SplitExtend(Join(StartRanks, '/'), '/', StartTail);
  }

  /** The first seven ranks parse where the placement puts them. */
  lemma RanksParse()
    ensures forall k :: 0 <= k < 7 ==> Placement.SegmentParses(StartRanks[k], Placement.SegmentBase(k), 0, 0)
  {
    Placement.LettersParse(StartRanks[0], Placement.SegmentBase(0), 0);
    Placement.LettersParse(StartRanks[1], Placement.SegmentBase(1), 0);
    Placement.SkipParses(StartRanks[2], Placement.SegmentBase(2));
    Placement.SkipParses(StartRanks[3], Placement.SegmentBase(3));
    Placement.SkipParses(StartRanks[4], Placement.SegmentBase(4));
    Placement.SkipParses(StartRanks[5], Placement.SegmentBase(5));
    Placement.LettersParse(StartRanks[6], Placement.SegmentBase(6), 0);
  }

  /** The last segment parses up to the space that ends the placement field. */
  lemma LastRankParses()
    ensures Placement.SegmentParses(StartRanks[7] + StartTail, Placement.SegmentBase(7), 0, 0)
  {
    var seg := StartRanks[7] + StartTail;
    assert seg[8] == ' ';
    assert forall i :: 0 <= i < 8 ==> seg[i] == StartRanks[7][i];
    Placement.LettersParse(seg, Placement.SegmentBase(7), 0);
  }

  /** The placement field parses. */
  lemma StartPlacementParses()
    ensures Placement.Parses(StartFen)
  {
    StartFenSegments();
    StartSegmentsParse(Split(StartFen, '/'));
  }

  /** The eight segments of the record each parse on their rank. */
  lemma StartSegmentsParse(segs: seq<string>)
    requires segs == StartRanks[..7] + [StartRanks[7] + StartTail]
    ensures |segs| <= 8 && Placement.SegmentsParse(segs)
  {
    RanksParse();
    LastRankParses();
    assert forall k :: 0 <= k < 7 ==> segs[k] == StartRanks[k];
  }

  // ---------------------------------------------------------------------
  // What the initial position places
  // ---------------------------------------------------------------------

  /** A placement field shaped like the initial position's: two full ranks, four empty ones, two full ones. */
  predicate OuterShape(segs: seq<string>, s8: string, s7: string, s2: string, s1: string)
  {
    segs == [s8, s7, "8", "8", "8", "8", s2, s1]
      && SegmentParses(s8, 56, 0, 0) && SegmentParses(s7, 48, 0, 0)
      && SegmentParses(s2, 8, 0, 0) && SegmentParses(s1, 0, 0, 0)
  }

  lemma OuterShapeParses(segs: seq<string>, s8: string, s7: string, s2: string, s1: string)
    requires OuterShape(segs, s8, s7, s2, s1)
    ensures Placement.SegmentsParse(segs)
    ensures forall k :: 2 <= k < 6 ==> SegmentPlacements(segs[k], SegmentBase(k), 0, 0) == []
  {
    EmptyRankPlacements(SegmentBase(2));
    EmptyRankPlacements(SegmentBase(3));
    EmptyRankPlacements(SegmentBase(4));
    EmptyRankPlacements(SegmentBase(5));
  }

  /** The two top segments place `a + b`, and the four empty ones add nothing. */
  lemma ChainTop(segs: seq<string>, s8: string, s7: string, s2: string, s1: string, a: seq<(int, char)>, b: seq<(int, char)>)
    requires OuterShape(segs, s8, s7, s2, s1)
    requires SegmentPlacements(s8, 56, 0, 0) == a && SegmentPlacements(s7, 48, 0, 0) == b
    ensures Placement.SegmentsParse(segs)
    ensures Placements(segs, 6) == a + b
  {
    OuterShapeParses(segs, s8, s7, s2, s1);
    var ab := a + b;
    assert [] + a == a && ab + [] == ab;
    PlacementsNext(segs, 0, [], a);
    PlacementsNext(segs, 1, a, b);
    PlacementsNext(segs, 2, ab, []);
    PlacementsNext(segs, 3, ab, []);
    PlacementsNext(segs, 4, ab, []);
    PlacementsNext(segs, 5, ab, []);
  }

  /** Segments of that shape placing `a`, `b`, `c` and `d` on their full ranks place `a + b + c + d`, in that order. */
  lemma ChainPlacements(segs: seq<string>, s8: string, s7: string, s2: string, s1: string,
                        a: seq<(int, char)>, b: seq<(int, char)>, c: seq<(int, char)>, d: seq<(int, char)>)
    requires OuterShape(segs, s8, s7, s2, s1)
    requires SegmentPlacements(s8, 56, 0, 0) == a && SegmentPlacements(s7, 48, 0, 0) == b
    requires SegmentPlacements(s2, 8, 0, 0) == c && SegmentPlacements(s1, 0, 0, 0) == d
    ensures Placement.SegmentsParse(segs)
    ensures Placements(segs, 8) == a + b + c + d
  {
    ChainTop(segs, s8, s7, s2, s1, a, b);
    PlacementsNext(segs, 6, a + b, c);
    PlacementsNext(segs, 7, a + b + c, d);
  }

  /** Four ranks of letters around four empty ranks, the last running on past a space, place the four full ranks. */
  lemma OuterRanksPlacements(segs: seq<string>, r8: string, r7: string, r2: string, r1: string, rest: string)
    requires RankLetters(r8) && RankLetters(r7) && RankLetters(r2) && RankLetters(r1)
    requires segs == [r8, r7, "8", "8", "8", "8", r2, r1 + ([' '] + rest)]
    ensures Placement.SegmentsParse(segs)
    ensures Placements(segs, 8) == FullRank(r8, 7) + FullRank(r7, 6) + FullRank(r2, 1) + FullRank(r1, 0)
  {
    RankPlacements(r8, 7);
    RankPlacements(r7, 6);
    RankPlacements(r2, 1);
    RankPlacements(r1, 0);
    SpaceEnds(r1, rest, 0, 0, 0);
    ChainPlacements(segs, r8, r7, r2, r1 + ([' '] + rest), FullRank(r8, 7), FullRank(r7, 6), FullRank(r2, 1), FullRank(r1, 0));
  }

  /** The four occupied ranks of the initial position, read as placements, eighth rank first. */
  function StartPlaced(): seq<(int, char)>
  {
    FullRank("rnbqkbnr", 7) + FullRank("pppppppp", 6) + FullRank("PPPPPPPP", 1) + FullRank("RNBQKBNR", 0)
  }

  lemma StartRankLetters()
    ensures RankLetters("rnbqkbnr") && RankLetters("pppppppp") && RankLetters("PPPPPPPP") && RankLetters("RNBQKBNR")
  {
  }

  /** A record whose placement field splits like the initial position's places its four full ranks. */
  lemma OuterPlacements(s: string)
    requires Split(s, '/') == StartRanks[..7] + [StartRanks[7] + StartTail]
    ensures Parses(s)
    ensures AllPlacements(s) == StartPlaced()
  {
    assert StartTail == [' '] + Join(StartFields[1..], ' ');
    StartRankLetters();
    OuterRanksPlacements(Split(s, '/'), "rnbqkbnr", "pppppppp", "PPPPPPPP", "RNBQKBNR", Join(StartFields[1..], ' '));
  }

  /** Reading the initial position places its four occupied ranks, eighth rank first. */
  lemma StartPlacements()
    ensures Parses(StartFen)
    ensures AllPlacements(StartFen) == StartPlaced()
  {
    StartFenSegments();
    OuterPlacements(StartFen);
  }

  /** The squares that `a + b + c + d` places are the union of those each part places. */
  lemma SquaresAppend4(a: seq<(int, char)>, b: seq<(int, char)>, c: seq<(int, char)>, d: seq<(int, char)>, u: PieceType, k: Color)
    ensures TypeSquares(a + b + c + d, u) == TypeSquares(a, u) + TypeSquares(b, u) + TypeSquares(c, u) + TypeSquares(d, u)
    ensures ColorSquares(a + b + c + d, k) == ColorSquares(a, k) + ColorSquares(b, k) + ColorSquares(c, k) + ColorSquares(d, k)
  {
    SquaresAppend(a, b, u, k);
    SquaresAppend(a + b, c, u, k);
    SquaresAppend(a + b + c, d, u, k);
  }

  /** The squares of ranks `lo` up to but not including `hi`, counted from 0. */
  ghost function RankSpan(lo: int, hi: int): set<int>
  {
    set sq | 0 <= sq < 64 && lo <= RankOf(sq) < hi
  }

  lemma SpanUnion(lo: int, mid: int, hi: int)
    requires 0 <= lo <= mid <= hi
    ensures RankSpan(lo, mid) + RankSpan(mid, hi) == RankSpan(lo, hi)
  {
  }

  /** A full rank of letters of one colour fills that colour's squares on it and none of the other's. */
  lemma RankColors(seg: string, r: int, c: Color)
    requires 0 <= r < 8 && RankLetters(seg)
    requires forall i :: 0 <= i < 8 ==> LetterColor(seg[i]) == c
    ensures ColorSquares(FullRank(seg, r), c) == RankSpan(r, r + 1)
    ensures ColorSquares(FullRank(seg, r), Colors.Not(c)) == {}
  {
    var rank := FullRank(seg, r);
    forall sq | sq in RankSpan(r, r + 1) ensures sq in ColorSquares(rank, c) {
      assert rank[sq - 8 * r] in rank;
    }
  }

  /** A full rank whose letter `j` alone has type `t` holds that type on square `8 * r + j` only. */
  lemma RankOneOfType(seg: string, r: int, t: PieceType, j: int)
    requires RankLetters(seg) && 0 <= j < 8
    requires LetterType(seg[j]) == t && forall i :: 0 <= i < 8 && i != j ==> LetterType(seg[i]) != t
    ensures TypeSquares(FullRank(seg, r), t) == {8 * r + j}
  {
    var rank := FullRank(seg, r);
    assert rank[j] in rank;
  }

  /** A full rank with no letter of type `t` holds none of that type. */
  lemma RankNoneOfType(seg: string, r: int, t: PieceType)
    requires RankLetters(seg)
    requires forall i :: 0 <= i < 8 ==> LetterType(seg[i]) != t
    ensures TypeSquares(FullRank(seg, r), t) == {}
  {
  }

  /** Outer ranks whose fifth letters alone name kings, around two ranks with none, hold kings on squares 4 and 60 only. */
  lemma KingsOf(r8: string, r7: string, r2: string, r1: string)
    requires RankLetters(r8) && RankLetters(r7) && RankLetters(r2) && RankLetters(r1)
    requires LetterType(r8[4]) == King && forall i :: 0 <= i < 8 && i != 4 ==> LetterType(r8[i]) != King
    requires LetterType(r1[4]) == King && forall i :: 0 <= i < 8 && i != 4 ==> LetterType(r1[i]) != King
    requires forall i :: 0 <= i < 8 ==> LetterType(r7[i]) != King && LetterType(r2[i]) != King
    ensures TypeSquares(FullRank(r8, 7) + FullRank(r7, 6) + FullRank(r2, 1) + FullRank(r1, 0), King) == {4, 60}
  {
    SquaresAppend4(FullRank(r8, 7), FullRank(r7, 6), FullRank(r2, 1), FullRank(r1, 0), King, White);
    RankOneOfType(r8, 7, King, 4);
    RankNoneOfType(r7, 6, King);
    RankNoneOfType(r2, 1, King);
    RankOneOfType(r1, 0, King, 4);
  }

  /** Black letters on the top two full ranks and white ones on the bottom two fill exactly those ranks with each side. */
  lemma SidesOf(r8: string, r7: string, r2: string, r1: string)
    requires RankLetters(r8) && RankLetters(r7) && RankLetters(r2) && RankLetters(r1)
    requires forall i :: 0 <= i < 8 ==> LetterColor(r8[i]) == Black && LetterColor(r7[i]) == Black
    requires forall i :: 0 <= i < 8 ==> LetterColor(r2[i]) == White && LetterColor(r1[i]) == White
    ensures ColorSquares(FullRank(r8, 7) + FullRank(r7, 6) + FullRank(r2, 1) + FullRank(r1, 0), White) == RankSpan(0, 2)
    ensures ColorSquares(FullRank(r8, 7) + FullRank(r7, 6) + FullRank(r2, 1) + FullRank(r1, 0), Black) == RankSpan(6, 8)
  {
    SquaresAppend4(FullRank(r8, 7), FullRank(r7, 6), FullRank(r2, 1), FullRank(r1, 0), King, White);
    SquaresAppend4(FullRank(r8, 7), FullRank(r7, 6), FullRank(r2, 1), FullRank(r1, 0), King, Black);
    RankColors(r8, 7, Black);
    RankColors(r7, 6, Black);
    RankColors(r2, 1, White);
    RankColors(r1, 0, White);
    SpanUnion(0, 1, 2);
    SpanUnion(6, 7, 8);
  }

  lemma StartKings()
    ensures TypeSquares(StartPlaced(), King) == {4, 60}
  {
    KingsOf("rnbqkbnr", "pppppppp", "PPPPPPPP", "RNBQKBNR");
  }

  lemma StartSides()
    ensures ColorSquares(StartPlaced(), White) == RankSpan(0, 2)
    ensures ColorSquares(StartPlaced(), Black) == RankSpan(6, 8)
  {
    SidesOf("rnbqkbnr", "pppppppp", "PPPPPPPP", "RNBQKBNR");
  }

  /** In the initial position the kings stand on e1 and e8, White fills ranks 1 and 2, Black ranks 7 and 8. */
  lemma StartSquares()
    ensures Parses(StartFen)
    ensures TypeSquares(AllPlacements(StartFen), King) == {4, 60}
    ensures ColorSquares(AllPlacements(StartFen), White) == RankSpan(0, 2)
    ensures ColorSquares(AllPlacements(StartFen), Black) == RankSpan(6, 8)
  {
    StartPlacements();
    StartKings();
    StartSides();
  }
}
