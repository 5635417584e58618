/**
 * The piece-placement field of a FEN record (src/pieces.rs): eight square
 * sets, one per piece type and one per colour, filled from the text split
 * at `/`, segment `k` describing board rank `7 - k`.
 */
module Placement {
  import opened BitBoards
  import opened Text
  import opened Colors

  datatype PieceType = King | Queen | Rook | Bishop | Knight | Pawn

  datatype Pieces = Pieces(
    king: BitBoard, queen: BitBoard, rook: BitBoard, bishop: BitBoard, knight: BitBoard, pawn: BitBoard,
    white: BitBoard, black: BitBoard)
  {
    /** The board of one piece type. */
    function OfType(pt: PieceType): BitBoard
    {
      match pt
      case King => king
      case Queen => queen
      case Rook => rook
      case Bishop => bishop
      case Knight => knight
      case Pawn => pawn
    }

    /** The board of one colour. */
    function OfColor(c: Color): BitBoard
    {
      match c
      case White => white
      case Black => black
    }
  }

  const NoPieces: Pieces := Pieces(EMPTY, EMPTY, EMPTY, EMPTY, EMPTY, EMPTY, EMPTY, EMPTY)

  // ---------------------------------------------------------------------
  // Letters
  // ---------------------------------------------------------------------

  predicate IsWhiteLetter(c: char) { c == 'K' || c == 'Q' || c == 'R' || c == 'B' || c == 'N' || c == 'P' }
  predicate IsBlackLetter(c: char) { c == 'k' || c == 'q' || c == 'r' || c == 'b' || c == 'n' || c == 'p' }
  predicate IsPieceLetter(c: char) { IsWhiteLetter(c) || IsBlackLetter(c) }

  /** The piece type a letter names, in either case. */
  function LetterType(c: char): PieceType
    requires IsPieceLetter(c)
  {
    if c == 'K' || c == 'k' then King
    else if c == 'Q' || c == 'q' then Queen
    else if c == 'R' || c == 'r' then Rook
    else if c == 'B' || c == 'b' then Bishop
    else if c == 'N' || c == 'n' then Knight
    else Pawn
  }

  /** The colour a letter names: upper case white, lower case black. */
  function LetterColor(c: char): Color
    requires IsPieceLetter(c)
  {
    if IsWhiteLetter(c) then White else Black
  }

  // ---------------------------------------------------------------------
  // What the parser places
  // ---------------------------------------------------------------------

  /** The segment is read without a panic: no skip character below `1`, no square past 63. */
  predicate SegmentParses(seg: string, base: int, sq: int, offset: int)
    requires 0 <= sq <= |seg|
    decreases |seg| - sq
  {
    if sq == |seg| || seg[sq] == ' ' then true
    else if IsPieceLetter(seg[sq]) then
      0 <= base + sq + offset < 64 && SegmentParses(seg, base, sq + 1, offset)
    else
      seg[sq] >= '1' && SegmentParses(seg, base, sq + 1, offset + (seg[sq] as int - '1' as int))
  }

  /** A segment of at most eight letters, ended by its end or a space, parses on any rank. */
  lemma {:induction false} LettersParse(seg: string, base: int, sq: int)
    requires 0 <= base <= 56 && 0 <= sq <= |seg| && sq <= 8
    requires forall i :: sq <= i < |seg| && i < 8 ==> IsPieceLetter(seg[i])
    requires |seg| <= 8 || seg[8] == ' '
    ensures SegmentParses(seg, base, sq, 0)
    decreases |seg| - sq
  {
    if sq < |seg| && seg[sq] != ' ' {
      LettersParse(seg, base, sq + 1);
    }
  }

  /** A segment that is one skip character parses on any rank. */
  lemma SkipParses(seg: string, base: int)
    requires |seg| == 1 && seg[0] >= '1' && !IsPieceLetter(seg[0]) && seg[0] != ' '
    ensures SegmentParses(seg, base, 0, 0)
  {
    assert SegmentParses(seg, base, 1, seg[0] as int - '1' as int);
  }

  /**
   * The (square, letter) pairs one segment places, reading from character
   * `sq` with the running `offset`: a letter lands on `base + sq + offset`,
   * a space ends the segment, and any other character `c` adds `c - '1'` to
   * the offset.
   */
  function SegmentPlacements(seg: string, base: int, sq: int, offset: int): (xs: seq<(int, char)>)
    requires 0 <= sq <= |seg| && SegmentParses(seg, base, sq, offset)
    ensures forall x :: x in xs ==> 0 <= x.0 < 64 && IsPieceLetter(x.1)
    decreases |seg| - sq
  {
    if sq == |seg| || seg[sq] == ' ' then []
    else if IsPieceLetter(seg[sq]) then [(base + sq + offset, seg[sq])] + SegmentPlacements(seg, base, sq + 1, offset)
    else SegmentPlacements(seg, base, sq + 1, offset + (seg[sq] as int - '1' as int))
  }

  /** The first square of the board rank that segment `k` describes. */
  function SegmentBase(k: int): int { (7 - k) * 8 }

  /** The placements of the first `n` segments, in reading order. */
  function Placements(segs: seq<string>, n: int): (xs: seq<(int, char)>)
    requires 0 <= n <= |segs| && forall k :: 0 <= k < n ==> SegmentParses(segs[k], SegmentBase(k), 0, 0)
    ensures forall x :: x in xs ==> 0 <= x.0 < 64 && IsPieceLetter(x.1)
  {
    if n == 0 then []
    else
      Placements(segs, n - 1) + SegmentPlacements(segs[n - 1], SegmentBase(n - 1), 0, 0)
  }

  /** Every segment reads without a panic. */
  predicate SegmentsParse(segs: seq<string>)
  {
    forall k :: 0 <= k < |segs| ==> SegmentParses(segs[k], SegmentBase(k), 0, 0)
  }

  /** `from_str` panics on a ninth segment (the assertion), on a skip below `1`, and on a square past 63. */
  predicate Parses(s: string)
  {
    |Split(s, '/')| <= 8 && SegmentsParse(Split(s, '/'))
  }

  /** Setting square `index` in the board of type `t` and the board of colour `c`; every other board is kept. */
  function Put(p: Pieces, index: int, t: PieceType, c: Color): Pieces
    requires 0 <= index < 64
  {
    var bit := New(index);
    var q := match t
      case King => p.(king := Or(p.king, bit))
      case Queen => p.(queen := Or(p.queen, bit))
      case Rook => p.(rook := Or(p.rook, bit))
      case Bishop => p.(bishop := Or(p.bishop, bit))
      case Knight => p.(knight := Or(p.knight, bit))
      case Pawn => p.(pawn := Or(p.pawn, bit));
    match c
    case White => q.(white := Or(q.white, bit))
    case Black => q.(black := Or(q.black, bit))
  }

  /** Placing a letter on a square: its bit goes into the board of its type and the board of its colour. */
  function Place(p: Pieces, x: (int, char)): Pieces
    requires 0 <= x.0 < 64 && IsPieceLetter(x.1)
  {
    PlaceLayer(p, x, 1)
  }

  /** `Place` behind one unfolding, so that the loop proofs see only `PlaceValue`. */
  function PlaceLayer(p: Pieces, x: (int, char), depth: nat): Pieces
    requires 0 <= x.0 < 64 && IsPieceLetter(x.1)
  {
    if depth == 0 then Put(p, x.0, LetterType(x.1), LetterColor(x.1)) else PlaceLayer(p, x, depth - 1)
  }

  lemma PlaceValue(p: Pieces, index: int, c: char)
    requires 0 <= index < 64 && IsPieceLetter(c)
    ensures Place(p, (index, c)) == Put(p, index, LetterType(c), LetterColor(c))
  {
    assert PlaceLayer(p, (index, c), 0) == Put(p, index, LetterType(c), LetterColor(c));
  }

  /** The type and colour of each of the twelve letters. */
  lemma Classify(c: char)
    ensures c == 'K' ==> IsPieceLetter(c) && LetterType(c) == King && LetterColor(c) == White
    ensures c == 'Q' ==> IsPieceLetter(c) && LetterType(c) == Queen && LetterColor(c) == White
    ensures c == 'R' ==> IsPieceLetter(c) && LetterType(c) == Rook && LetterColor(c) == White
    ensures c == 'B' ==> IsPieceLetter(c) && LetterType(c) == Bishop && LetterColor(c) == White
    ensures c == 'N' ==> IsPieceLetter(c) && LetterType(c) == Knight && LetterColor(c) == White
    ensures c == 'P' ==> IsPieceLetter(c) && LetterType(c) == Pawn && LetterColor(c) == White
    ensures c == 'k' ==> IsPieceLetter(c) && LetterType(c) == King && LetterColor(c) == Black
    ensures c == 'q' ==> IsPieceLetter(c) && LetterType(c) == Queen && LetterColor(c) == Black
    ensures c == 'r' ==> IsPieceLetter(c) && LetterType(c) == Rook && LetterColor(c) == Black
    ensures c == 'b' ==> IsPieceLetter(c) && LetterType(c) == Bishop && LetterColor(c) == Black
    ensures c == 'n' ==> IsPieceLetter(c) && LetterType(c) == Knight && LetterColor(c) == Black
    ensures c == 'p' ==> IsPieceLetter(c) && LetterType(c) == Pawn && LetterColor(c) == Black
  {}

  /** Placing a sequence of letters in order. */
  function PlaceAll(p: Pieces, xs: seq<(int, char)>): Pieces
    requires forall x :: x in xs ==> 0 <= x.0 < 64 && IsPieceLetter(x.1)
    decreases |xs|
  {
    if |xs| == 0 then p else PlaceAll(Place(p, xs[0]), xs[1..])
  }

  /** Placing `xs` and then `ys` is placing `xs + ys`. */
  lemma {:induction false} PlaceAllAppend(p: Pieces, xs: seq<(int, char)>, ys: seq<(int, char)>)
    requires forall x :: x in xs ==> 0 <= x.0 < 64 && IsPieceLetter(x.1)
    requires forall x :: x in ys ==> 0 <= x.0 < 64 && IsPieceLetter(x.1)
    ensures PlaceAll(p, xs + ys) == PlaceAll(PlaceAll(p, xs), ys)
    decreases |xs|
  {
    if |xs| > 0 {
      assert (xs + ys)[0] == xs[0] && (xs + ys)[1..] == xs[1..] + ys;
      PlaceAllAppend(Place(p, xs[0]), xs[1..], ys);
    } else {
      assert xs + ys == ys;
    }
  }

  /** Everything the record places, segment by segment. */
  function AllPlacements(s: string): (xs: seq<(int, char)>)
    requires Parses(s)
    ensures forall x :: x in xs ==> 0 <= x.0 < 64 && IsPieceLetter(x.1)
  {
    var segs := Split(s, '/');
    Placements(segs, |segs|)
  }

  /** Text after a space ends a segment: it is never read. */
  lemma {:induction false} SpaceEnds(seg: string, rest: string, base: int, sq: int, offset: int)
    requires 0 <= sq <= |seg| && SegmentParses(seg, base, sq, offset)
    ensures SegmentParses(seg + ([' '] + rest), base, sq, offset)
    ensures SegmentPlacements(seg + ([' '] + rest), base, sq, offset) == SegmentPlacements(seg, base, sq, offset)
    decreases |seg| - sq
  {
    var t := seg + ([' '] + rest);
    assert t[..|seg|] == seg;
    if sq < |seg| && seg[sq] != ' ' {
      assert t[sq] == seg[sq];
      if IsPieceLetter(seg[sq]) {
        SpaceEnds(seg, rest, base, sq + 1, offset);
      } else {
        SpaceEnds(seg, rest, base, sq + 1, offset + (seg[sq] as int - '1' as int));
      }
    } else {
      assert t[sq] == ' ';
    }
  }

  /** Eight characters, each naming a piece. */
  predicate RankLetters(seg: string)
  {
    |seg| == 8 && forall i :: 0 <= i < 8 ==> IsPieceLetter(seg[i])
  }

  /** A full rank: letter `i` of `seg` on square `8 * r + i`. */
  function FullRank(seg: string, r: int): (xs: seq<(int, char)>)
    requires |seg| == 8
    ensures |xs| == 8
  {
    seq(8, i requires 0 <= i < 8 => (8 * r + i, seg[i]))
  }

  /** A segment of eight piece letters places its letter `i` on square `base + i`. */
  lemma {:induction false} LettersPlacements(seg: string, base: int, sq: int)
    requires 0 <= base <= 56 && 0 <= sq <= 8 && RankLetters(seg)
    ensures SegmentParses(seg, base, sq, 0)
    ensures var xs := SegmentPlacements(seg, base, sq, 0);
      |xs| == 8 - sq && forall i :: 0 <= i < |xs| ==> xs[i] == (base + sq + i, seg[sq + i])
    decreases 8 - sq
  {
    LettersParse(seg, base, sq);
    if sq < 8 {
      LettersPlacements(seg, base, sq + 1);
      var ys := SegmentPlacements(seg, base, sq + 1, 0);
      assert SegmentPlacements(seg, base, sq, 0) == [(base + sq, seg[sq])] + ys;
    }
  }

  /** A segment of eight piece letters read on rank `r` places the full rank. */
  lemma RankPlacements(seg: string, r: int)
    requires 0 <= r < 8 && RankLetters(seg)
    ensures SegmentParses(seg, 8 * r, 0, 0) && SegmentPlacements(seg, 8 * r, 0, 0) == FullRank(seg, r)
  {
    LettersPlacements(seg, 8 * r, 0);
  }

  /** The segment `8` is one empty rank: it places nothing. */
  lemma EmptyRankPlacements(base: int)
    ensures SegmentParses("8", base, 0, 0) && SegmentPlacements("8", base, 0, 0) == []
  {
    assert SegmentParses("8", base, 1, 7);
  }

  /** Segment `n` adds its placements after those of the segments before it. */
  lemma PlacementsNext(segs: seq<string>, n: int, before: seq<(int, char)>, added: seq<(int, char)>)
    requires SegmentsParse(segs) && 0 <= n < |segs|
    requires Placements(segs, n) == before && SegmentPlacements(segs[n], SegmentBase(n), 0, 0) == added
    ensures Placements(segs, n + 1) == before + added
  {
  }

  // ---------------------------------------------------------------------
  // The parser loop, one character at a time
  // ---------------------------------------------------------------------

  /**
   * Reading segment `seg` at character `sq` with running `offset`, the boards
   * read so far are `acc`, and placing what the rest of the segment places
   * gives `target`.
   */
  ghost predicate Reading(acc: Pieces, seg: string, base: int, sq: int, offset: int, target: Pieces)
  {
    ReadState(acc, seg, base, sq, offset, target) == true
  }

  ghost predicate ReadState(acc: Pieces, seg: string, base: int, sq: int, offset: int, target: Pieces)
  {
    && 0 <= sq <= |seg| && SegmentParses(seg, base, sq, offset)
    && PlaceAll(acc, SegmentPlacements(seg, base, sq, offset)) == target
  }

  /** Before segment `n`: the boards hold what the first `n` segments place. */
  ghost predicate Loaded(acc: Pieces, segs: seq<string>, n: int)
  {
    LoadState(acc, segs, n) == true
  }

  ghost predicate LoadState(acc: Pieces, segs: seq<string>, n: int)
  {
    SegmentsParse(segs) && 0 <= n <= |segs| && acc == PlaceAll(NoPieces, Placements(segs, n))
  }

  lemma LoadStart(s: string)
    requires Parses(s)
    ensures Loaded(NoPieces, Split(s, '/'), 0)
  {}

  lemma LoadEnd(s: string, acc: Pieces, segs: seq<string>, n: int)
    requires Parses(s) && segs == Split(s, '/') && n == |segs| && Loaded(acc, segs, n)
    ensures acc == PlaceAll(NoPieces, AllPlacements(s))
  {}

  /** Starting segment `n`: the target is what the first `n + 1` segments place. */
  lemma ReadBegin(acc: Pieces, segs: seq<string>, n: int) returns (target: Pieces)
    requires Loaded(acc, segs, n) && n < |segs|
    ensures Reading(acc, segs[n], SegmentBase(n), 0, 0, target)
    ensures Loaded(target, segs, n + 1)
  {
    target := PlaceAll(NoPieces, Placements(segs, n + 1));
    PlaceAllAppend(NoPieces, Placements(segs, n), SegmentPlacements(segs[n], SegmentBase(n), 0, 0));
  }

  /** One character: a letter is placed on `index`, anything but a space moves the offset. */
  lemma ReadStep(acc: Pieces, seg: string, base: int, sq: int, offset: int, target: Pieces, index: int)
    requires Reading(acc, seg, base, sq, offset, target)
    requires sq < |seg| && index == base + sq + offset
    ensures IsPieceLetter(seg[sq]) ==>
      0 <= index < 64 && Reading(Place(acc, (index, seg[sq])), seg, base, sq + 1, offset, target)
    ensures seg[sq] != ' ' && !IsPieceLetter(seg[sq]) ==>
      seg[sq] >= '1' && Reading(acc, seg, base, sq + 1, offset + (seg[sq] as int - 49), target)
  {
    if IsPieceLetter(seg[sq]) {
      var xs := SegmentPlacements(seg, base, sq + 1, offset);
      assert SegmentPlacements(seg, base, sq, offset) == [(index, seg[sq])] + xs;
      assert ([(index, seg[sq])] + xs)[1..] == xs;
    }
  }

  /** The segment ends at its last character or at a space: the boards are the target. */
  lemma ReadEnd(acc: Pieces, seg: string, base: int, sq: int, offset: int, target: Pieces)
    requires Reading(acc, seg, base, sq, offset, target)
    requires sq == |seg| || seg[sq] == ' '
    ensures acc == target
  {}

  /**
   * The body of the character loop of `Pieces::from_str`: a letter sets its
   * square in its type's board and its colour's board, a space stops the
   * segment, and any other character `c` moves the offset by `c - '1'`.
   */
  method ReadSquare(acc: Pieces, square: char, index: int, offset: int) returns (next: Pieces, nextOffset: int, stop: bool)
    requires IsPieceLetter(square) ==> 0 <= index < 64
    ensures stop <==> square == ' '
    ensures stop ==> next == acc && nextOffset == offset
    ensures IsPieceLetter(square) ==> next == Place(acc, (index, square)) && nextOffset == offset
    ensures !IsPieceLetter(square) ==>
      next == acc && nextOffset == (if square == ' ' then offset else offset + (square as int - 49))
  {
    var king, queen, rook, bishop, knight, pawn := acc.king, acc.queen, acc.rook, acc.bishop, acc.knight, acc.pawn;
    var white, black := acc.white, acc.black;
    Classify(square);
    if IsPieceLetter(square) {
      PlaceValue(acc, index, square);
    }
    nextOffset, stop := offset, false;
    match square {
      case 'K' => king := OrAssign(king, New(index)); white := OrAssign(white, New(index));
      case 'Q' => queen := OrAssign(queen, New(index)); white := OrAssign(white, New(index));
      case 'R' => rook := OrAssign(rook, New(index)); white := OrAssign(white, New(index));
      case 'B' => bishop := OrAssign(bishop, New(index)); white := OrAssign(white, New(index));
      case 'N' => knight := OrAssign(knight, New(index)); white := OrAssign(white, New(index));
      case 'P' => pawn := OrAssign(pawn, New(index)); white := OrAssign(white, New(index));
      case 'k' => king := OrAssign(king, New(index)); black := OrAssign(black, New(index));
      case 'q' => queen := OrAssign(queen, New(index)); black := OrAssign(black, New(index));
      case 'r' => rook := OrAssign(rook, New(index)); black := OrAssign(black, New(index));
      case 'b' => bishop := OrAssign(bishop, New(index)); black := OrAssign(black, New(index));
      case 'n' => knight := OrAssign(knight, New(index)); black := OrAssign(black, New(index));
      case 'p' => pawn := OrAssign(pawn, New(index)); black := OrAssign(black, New(index));
      case ' ' => stop := true;
      case _ => nextOffset := offset + (square as int - 49);
    }
    next := Pieces(king, queen, rook, bishop, knight, pawn, white, black);
  }

  /**
   * The inner loop of `Pieces::from_str` over the characters of segment
   * `rank`, the `rankCount`-th: the offset starts at 0, and the loop stops at
   * the end of the segment or at a space.
   */
  method ReadRank(pieces: Pieces, parsed: seq<string>, rankCount: int) returns (next: Pieces)
    requires Loaded(pieces, parsed, rankCount) && rankCount < |parsed|
    ensures Loaded(next, parsed, rankCount + 1)
  {
    ghost var target := ReadBegin(pieces, parsed, rankCount);
    var rank := parsed[rankCount];
    ghost var base := SegmentBase(rankCount);
    next := pieces;
    var offset := 0;
    var sq := 0;
    while sq < |rank|
      invariant 0 <= sq <= |rank| && Reading(next, rank, base, sq, offset, target)
      decreases |rank| - sq
    {
      var square := rank[sq];
      var index := (7 - rankCount) * 8 + sq + offset;
      ReadStep(next, rank, base, sq, offset, target, index);
      var stop;
      next, offset, stop := ReadSquare(next, square, index, offset);
      if stop {
        break;
      }
      sq := sq + 1;
    }
    ReadEnd(next, rank, base, sq, offset, target);
  }

  /**
   * `Pieces::from_str`: every letter of every segment sets its square in
   * its type's board and its colour's board, in reading order.
   */
  method FromStr(s: string) returns (pieces: Pieces)
    requires Parses(s)
    ensures pieces == PlaceAll(NoPieces, AllPlacements(s))
  {
    pieces := NoPieces;
    var parsed := Split(s, '/');
    var rankCount := 0;
    LoadStart(s);
    while rankCount < |parsed|
      invariant 0 <= rankCount <= |parsed| && Loaded(pieces, parsed, rankCount)
    {
      pieces := ReadRank(pieces, parsed, rankCount);
      rankCount := rankCount + 1;
    }
    LoadEnd(s, pieces, parsed, rankCount);
  }

  // ---------------------------------------------------------------------
  // What the boards hold
  // ---------------------------------------------------------------------

  /** The squares on which `xs` places a letter of type `t`. */
  ghost function TypeSquares(xs: seq<(int, char)>, t: PieceType): set<int>
  {
    set x | x in xs && IsPieceLetter(x.1) && LetterType(x.1) == t :: x.0
  }

  /** The squares on which `xs` places a letter of colour `c`. */
  ghost function ColorSquares(xs: seq<(int, char)>, c: Color): set<int>
  {
    set x | x in xs && IsPieceLetter(x.1) && LetterColor(x.1) == c :: x.0
  }

  /** The squares on which `xs` places any letter. */
  ghost function PlacedSquares(xs: seq<(int, char)>): set<int>
  {
    set x | x in xs :: x.0
  }

  lemma PutType(p: Pieces, index: int, t: PieceType, c: Color, u: PieceType)
    requires 0 <= index < 64
    ensures Put(p, index, t, c).OfType(u) == if t == u then Or(p.OfType(u), New(index)) else p.OfType(u)
  {
    match u
    case King =>
    case Queen =>
    case Rook =>
    case Bishop =>
    case Knight =>
    case Pawn =>
  }

  lemma PutColor(p: Pieces, index: int, t: PieceType, c: Color, d: Color)
    requires 0 <= index < 64
    ensures Put(p, index, t, c).OfColor(d) == if c == d then Or(p.OfColor(d), New(index)) else p.OfColor(d)
  {
  }

  lemma PutSquares(p: Pieces, index: int, t: PieceType, c: Color, u: PieceType, d: Color)
    requires 0 <= index < 64
    ensures Squares(Put(p, index, t, c).OfType(u)) == Squares(p.OfType(u)) + (if t == u then {index} else {})
    ensures Squares(Put(p, index, t, c).OfColor(d)) == Squares(p.OfColor(d)) + (if c == d then {index} else {})
  {
    PutType(p, index, t, c, u);
    PutColor(p, index, t, c, d);
    var bit := New(index);
    if t == u {
      OrWith(p.OfType(u), bit, index);
    }
    if c == d {
      OrWith(p.OfColor(d), bit, index);
    }
  }

  lemma OrWith(a: BitBoard, bit: BitBoard, index: int)
    requires Squares(bit) == {index}
    ensures Squares(Or(a, bit)) == Squares(a) + {index}
  {
  }

  lemma SquaresCons(xs: seq<(int, char)>, u: PieceType, d: Color)
    requires |xs| > 0 && 0 <= xs[0].0 < 64 && IsPieceLetter(xs[0].1)
    ensures TypeSquares(xs, u) == TypeSquares(xs[1..], u) + (if LetterType(xs[0].1) == u then {xs[0].0} else {})
    ensures ColorSquares(xs, d) == ColorSquares(xs[1..], d) + (if LetterColor(xs[0].1) == d then {xs[0].0} else {})
  {
    assert xs == [xs[0]] + xs[1..];
    assert forall x :: x in xs <==> x == xs[0] || x in xs[1..];
  }

  /** The squares `xs + ys` places are those `xs` places and those `ys` places. */
  lemma SquaresAppend(xs: seq<(int, char)>, ys: seq<(int, char)>, u: PieceType, d: Color)
    ensures TypeSquares(xs + ys, u) == TypeSquares(xs, u) + TypeSquares(ys, u)
    ensures ColorSquares(xs + ys, d) == ColorSquares(xs, d) + ColorSquares(ys, d)
  {
    assert forall x :: x in xs + ys <==> x in xs || x in ys;
  }

  /**
   * Placing `xs` adds to the board of type `u` exactly the squares where `xs`
   * places a letter of that type, and to the board of colour `d` the squares
   * where it places a letter of that colour.
   */
  lemma {:induction false} PlaceAllSquares(p: Pieces, xs: seq<(int, char)>, u: PieceType, d: Color)
    requires forall x :: x in xs ==> 0 <= x.0 < 64 && IsPieceLetter(x.1)
    ensures Squares(PlaceAll(p, xs).OfType(u)) == Squares(p.OfType(u)) + TypeSquares(xs, u)
    ensures Squares(PlaceAll(p, xs).OfColor(d)) == Squares(p.OfColor(d)) + ColorSquares(xs, d)
    decreases |xs|
  {
    if |xs| == 0 {
      assert TypeSquares(xs, u) == {} && ColorSquares(xs, d) == {};
      assert PlaceAll(p, xs) == p;
    } else {
      var x := xs[0];
      assert x == (x.0, x.1);
      var q := Place(p, x);
      PlaceValue(p, x.0, x.1);
      PutSquares(p, x.0, LetterType(x.1), LetterColor(x.1), u, d);
      assert PlaceAll(p, xs) == PlaceAll(q, xs[1..]);
      PlaceAllSquares(q, xs[1..], u, d);
      SquaresCons(xs, u, d);
      UnionShuffle(Squares(p.OfType(u)), if LetterType(x.1) == u then {x.0} else {}, TypeSquares(xs[1..], u));
      UnionShuffle(Squares(p.OfColor(d)), if LetterColor(x.1) == d then {x.0} else {}, ColorSquares(xs[1..], d));
    }
  }

  lemma UnionShuffle(a: set<int>, b: set<int>, c: set<int>)
    ensures (a + b) + c == a + (c + b)
  {
  }


  /** On the boards `from_str` returns, each board holds exactly the squares where a letter of its type or colour stands. */
  lemma FromStrSquares(s: string, u: PieceType, d: Color)
    requires Parses(s)
    ensures Squares(PlaceAll(NoPieces, AllPlacements(s)).OfType(u)) == TypeSquares(AllPlacements(s), u)
    ensures Squares(PlaceAll(NoPieces, AllPlacements(s)).OfColor(d)) == ColorSquares(AllPlacements(s), d)
  {
    PlaceAllSquares(NoPieces, AllPlacements(s), u, d);
    EmptyFullSquares();
    assert NoPieces.OfType(u) == EMPTY && NoPieces.OfColor(d) == EMPTY;
  }

  /** Every placed letter has one of the six types and one of the two colours. */
  lemma PlacedCovered(xs: seq<(int, char)>)
    requires forall x :: x in xs ==> 0 <= x.0 < 64 && IsPieceLetter(x.1)
    ensures TypeSquares(xs, King) + TypeSquares(xs, Queen) + TypeSquares(xs, Rook) + TypeSquares(xs, Bishop)
      + TypeSquares(xs, Knight) + TypeSquares(xs, Pawn) == PlacedSquares(xs)
    ensures ColorSquares(xs, White) + ColorSquares(xs, Black) == PlacedSquares(xs)
  {
    forall i | i in PlacedSquares(xs)
      ensures i in TypeSquares(xs, King) + TypeSquares(xs, Queen) + TypeSquares(xs, Rook) + TypeSquares(xs, Bishop)
        + TypeSquares(xs, Knight) + TypeSquares(xs, Pawn)
      ensures i in ColorSquares(xs, White) + ColorSquares(xs, Black)
    {
      var x :| x in xs && x.0 == i;
      assert i in TypeSquares(xs, LetterType(x.1)) && i in ColorSquares(xs, LetterColor(x.1));
    }
  }

  /** No square carries two placements. */
  predicate DistinctSquares(xs: seq<(int, char)>)
  {
    forall i, j :: 0 <= i < |xs| && 0 <= j < |xs| && xs[i].0 == xs[j].0 ==> i == j
  }

  /**
   * When no square is placed twice, the two colour boards are disjoint and
   * so are the boards of two different types.
   */
  lemma DistinctDisjoint(xs: seq<(int, char)>, t1: PieceType, t2: PieceType)
    requires forall x :: x in xs ==> 0 <= x.0 < 64 && IsPieceLetter(x.1)
    requires DistinctSquares(xs)
    ensures ColorSquares(xs, White) * ColorSquares(xs, Black) == {}
    ensures t1 != t2 ==> TypeSquares(xs, t1) * TypeSquares(xs, t2) == {}
  {
  }



  // ---------------------------------------------------------------------
  // Where a letter lands
  // ---------------------------------------------------------------------

  /** The board cells a segment character covers: one for a letter, `c - '0'` for a skip count `c`. */
  function CellWidth(c: char): int
  {
    if IsPieceLetter(c) then 1 else c as int - '0' as int
  }

  /** The board cells the characters of `s` cover. */
  function Cells(s: string): int
  {
    if |s| == 0 then 0 else CellWidth(s[0]) + Cells(s[1..])
  }

  lemma CellsCons(s: string, i: int, j: int)
    requires 0 <= i < j <= |s|
    ensures Cells(s[i..j]) == CellWidth(s[i]) + Cells(s[i + 1..j])
  {
    assert s[i..j][0] == s[i] && s[i..j][1..] == s[i + 1..j];
  }

  /**
   * Every letter of a segment before its first space is placed, on the
   * square `base` plus the cells the characters before it cover.
   */
  lemma {:induction false} LetterPlaced(seg: string, base: int, sq: int, offset: int, j: int)
    requires 0 <= sq <= j < |seg| && SegmentParses(seg, base, sq, offset)
    requires forall k :: sq <= k < j ==> seg[k] != ' '
    requires IsPieceLetter(seg[j])
    ensures (base + sq + offset + Cells(seg[sq..j]), seg[j]) in SegmentPlacements(seg, base, sq, offset)
    decreases j - sq
  {
    if sq == j {
      assert seg[sq..j] == [];
    } else {
      CellsCons(seg, sq, j);
      var next := NextOffset(seg, sq, offset);
      PlacementsStep(seg, base, sq, offset);
      LetterPlaced(seg, base, sq + 1, next, j);
    }
  }

  /** The offset the character at `sq` leaves for the one after it. */
  function NextOffset(seg: string, sq: int, offset: int): int
    requires 0 <= sq < |seg|
  {
    if IsPieceLetter(seg[sq]) then offset else offset + (seg[sq] as int - '1' as int)
  }

  /** One character of a segment: the rest parses on, and its placements are kept. */
  lemma PlacementsStep(seg: string, base: int, sq: int, offset: int)
    requires 0 <= sq < |seg| && seg[sq] != ' ' && SegmentParses(seg, base, sq, offset)
    ensures NextOffset(seg, sq, offset) == offset + CellWidth(seg[sq]) - 1
    ensures SegmentParses(seg, base, sq + 1, NextOffset(seg, sq, offset))
    ensures forall x :: x in SegmentPlacements(seg, base, sq + 1, NextOffset(seg, sq, offset)) ==> x in SegmentPlacements(seg, base, sq, offset)
  {
  }

  /**
   * Conversely, every placement of a segment comes from a letter at some
   * position `j` before the first space, on the square `base` plus the cells
   * the characters before it cover.
   */
  lemma {:induction false} PlacedLetter(seg: string, base: int, sq: int, offset: int, x: (int, char)) returns (j: int)
    requires 0 <= sq <= |seg| && SegmentParses(seg, base, sq, offset)
    requires x in SegmentPlacements(seg, base, sq, offset)
    ensures sq <= j < |seg| && seg[j] == x.1 && IsPieceLetter(x.1)
    ensures x.0 == base + sq + offset + Cells(seg[sq..j])
    ensures forall k :: sq <= k < j ==> seg[k] != ' '
    decreases |seg| - sq
  {
    var c := seg[sq];
    if IsPieceLetter(c) && x == (base + sq + offset, c) {
      j := sq;
      assert seg[sq..j] == [];
    } else if IsPieceLetter(c) {
      assert x in SegmentPlacements(seg, base, sq + 1, offset);
      j := PlacedLetter(seg, base, sq + 1, offset, x);
      CellsCons(seg, sq, j);
    } else {
      j := PlacedLetter(seg, base, sq + 1, offset + (c as int - '1' as int), x);
      CellsCons(seg, sq, j);
    }
  }

  /** The squares of `xs` rise strictly. */
  predicate Ascending(xs: seq<(int, char)>)
  {
    forall i, k :: 0 <= i < k < |xs| ==> xs[i].0 < xs[k].0
  }

  /** Putting a placement in front of higher ones keeps the squares rising. */
  lemma ConsAscending(x: (int, char), rest: seq<(int, char)>)
    requires Ascending(rest) && forall y :: y in rest ==> y.0 > x.0
    ensures Ascending([x] + rest)
  {
    var xs := [x] + rest;
    forall i, k | 0 <= i < k < |xs| ensures xs[i].0 < xs[k].0 {
      assert xs[k] == rest[k - 1] && rest[k - 1] in rest;
      if i > 0 {
        assert xs[i] == rest[i - 1];
      }
    }
  }

  /** The squares a segment places rise strictly, from `base + sq + offset` on. */
  lemma {:induction false} SegmentAscending(seg: string, base: int, sq: int, offset: int)
    requires 0 <= sq <= |seg| && SegmentParses(seg, base, sq, offset)
    ensures forall x :: x in SegmentPlacements(seg, base, sq, offset) ==> x.0 >= base + sq + offset
    ensures Ascending(SegmentPlacements(seg, base, sq, offset))
    decreases |seg| - sq
  {
    if sq < |seg| && seg[sq] != ' ' {
      var c := seg[sq];
      if IsPieceLetter(c) {
        SegmentAscending(seg, base, sq + 1, offset);
        var rest := SegmentPlacements(seg, base, sq + 1, offset);
        assert SegmentPlacements(seg, base, sq, offset) == [(base + sq + offset, c)] + rest;
        ConsAscending((base + sq + offset, c), rest);
      } else {
        var next := offset + (c as int - '1' as int);
        SegmentAscending(seg, base, sq + 1, next);
        assert SegmentPlacements(seg, base, sq, offset) == SegmentPlacements(seg, base, sq + 1, next);
      }
    }
  }

  lemma {:induction false} SegmentInPlacements(segs: seq<string>, n: int, k: int, x: (int, char))
    requires 0 <= k < n <= |segs| && SegmentsParse(segs)
    requires x in SegmentPlacements(segs[k], SegmentBase(k), 0, 0)
    ensures x in Placements(segs, n)
    decreases n
  {
    if k < n - 1 {
      SegmentInPlacements(segs, n - 1, k, x);
    }
  }

  /**
   * The letter at position `j` of segment `k` of a record split at `/`,
   * before any space, ends up on the board of its type and the board of its
   * colour, on square `(7 - k) * 8` plus the cells the characters before it
   * cover. `AllPlacements(s)` is `Placements(segs, |segs|)` for the segments
   * `segs` of `s`.
   */
  lemma FromStrLetter(segs: seq<string>, k: int, j: int)
    requires SegmentsParse(segs) && 0 <= k < |segs|
    requires 0 <= j < |segs[k]| && IsPieceLetter(segs[k][j])
    requires forall i :: 0 <= i < j ==> segs[k][i] != ' '
    ensures HasLetterAt(PlaceAll(NoPieces, Placements(segs, |segs|)), SegmentBase(k) + Cells(segs[k][..j]), segs[k][j])
  {
    SegmentsLetter(segs, k, j);
    PlacedOnBoards(Placements(segs, |segs|), SegmentBase(k) + Cells(segs[k][..j]), segs[k][j]);
  }

  /** Square `square` holds the piece letter `c` names: it is on the board of its type and on the board of its colour. */
  ghost predicate HasLetterAt(p: Pieces, square: int, c: char)
    requires IsPieceLetter(c)
  {
    square in Squares(p.OfType(LetterType(c))) && square in Squares(p.OfColor(LetterColor(c)))
  }

  /** Placing `xs` on empty boards puts each letter of `xs` on the boards of its type and colour. */
  lemma PlacedOnBoards(xs: seq<(int, char)>, square: int, c: char)
    requires forall x :: x in xs ==> 0 <= x.0 < 64 && IsPieceLetter(x.1)
    requires (square, c) in xs && IsPieceLetter(c)
    ensures HasLetterAt(PlaceAll(NoPieces, xs), square, c)
  {
    PlaceAllSquares(NoPieces, xs, LetterType(c), LetterColor(c));
    EmptyFullSquares();
    assert NoPieces.OfType(LetterType(c)) == EMPTY && NoPieces.OfColor(LetterColor(c)) == EMPTY;
    PlacedIn(PlaceAll(NoPieces, xs), xs, square, c);
  }

  /** The letter at position `j` of segment `k`, before any space, is among the placements of all segments. */
  lemma SegmentsLetter(segs: seq<string>, k: int, j: int)
    requires SegmentsParse(segs) && 0 <= k < |segs|
    requires 0 <= j < |segs[k]| && IsPieceLetter(segs[k][j])
    requires forall i :: 0 <= i < j ==> segs[k][i] != ' '
    ensures (SegmentBase(k) + Cells(segs[k][..j]), segs[k][j]) in Placements(segs, |segs|)
  {
    var seg := segs[k];
    LetterPlaced(seg, SegmentBase(k), 0, 0, j);
    assert seg[0..j] == seg[..j];
    SegmentInPlacements(segs, |segs|, k, (SegmentBase(k) + Cells(seg[..j]), seg[j]));
  }

  /**
   * A letter placed on `square` is on the board of its type and the board
   * of its colour, when those boards hold what `xs` places.
   */
  lemma PlacedIn(p: Pieces, xs: seq<(int, char)>, square: int, c: char)
    requires (square, c) in xs && IsPieceLetter(c)
    requires Squares(p.OfType(LetterType(c))) == TypeSquares(xs, LetterType(c))
    requires Squares(p.OfColor(LetterColor(c))) == ColorSquares(xs, LetterColor(c))
    ensures square in Squares(p.OfType(LetterType(c))) && square in Squares(p.OfColor(LetterColor(c)))
  {
    var x := (square, c);
    assert x in xs && x.0 == square;
  }
}
