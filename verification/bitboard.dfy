/**
 * The 64-bit square set of src/bitboard.rs. Bit `rank * 8 + file` of the
 * word stands for that square; `Squares` gives the set a board denotes, and
 * every operation is specified by what it does to that set.
 */
module BitBoards {

  type BitBoard = bv64

  const EMPTY: BitBoard := 0
  const FULL: BitBoard := !0

  /** The 64 squares, numbered `rank * 8 + file`. */
  ghost const AllSquares: set<int> := set sq: int | 0 <= sq < 64

  // ---------------------------------------------------------------------
  // Square indices as shift amounts
  // ---------------------------------------------------------------------

  /**
   * Square `i` as a 7-bit shift amount. It is built by counting up, so the
   * solver never has to convert an unbounded integer to a bit-vector.
   */
  function CountUp(i: int): (k: bv7)
    requires 0 <= i < 64
    ensures k as int == i
  {
    if i == 0 then 0 else CountUp(i - 1) + 1
  }

  /**
   * The shift amount of square `i`. It goes through `IdxLayer`, a recursion
   * of depth one that the solver does not unfold on its own, so that code
   * using boards sees only the bound `k < 64`; `IdxValue` gives the value.
   */
  function Idx(i: int): (k: bv7)
    requires 0 <= i < 64
    ensures k < 64
  {
    IdxLayer(i, 1)
  }

  function IdxLayer(i: int, depth: nat): (k: bv7)
    requires 0 <= i < 64
    ensures k < 64
  {
    if depth == 0 then CountUp(i) else IdxLayer(i, depth - 1)
  }

  lemma IdxValue(i: int)
    requires 0 <= i < 64
    ensures Idx(i) == CountUp(i) && Idx(i) as int == i
  {
    assert IdxLayer(i, 0) == CountUp(i);
  }

  lemma IdxSucc(i: int)
    requires 0 <= i < 64
    ensures Idx(i) + 1 == if i < 63 then Idx(i + 1) else 64
  {
    IdxValue(i);
    if i < 63 {
      IdxValue(i + 1);
    }
  }

  lemma IdxInjective(i: int, j: int)
    requires 0 <= i < 64 && 0 <= j < 64
    ensures Idx(i) == Idx(j) <==> i == j
  {
    IdxValue(i);
    IdxValue(j);
  }

  /** Bit `k` of the word is set. */
  predicate RawBit(b: BitBoard, k: bv7)
    requires k < 64
  {
    (b >> k) & 1 == 1
  }

  /**
   * `RawBit` behind a recursion of depth one, so that lemmas combining bit
   * facts do not see the shift; `BitValue` states the definition.
   */
  predicate BitAt(b: BitBoard, k: bv7)
    requires k < 64
  {
    BitLayer(b, k, 1)
  }

  predicate BitLayer(b: BitBoard, k: bv7, depth: nat)
    requires k < 64
  {
    if depth == 0 then RawBit(b, k) else BitLayer(b, k, depth - 1)
  }

  lemma BitValue(b: BitBoard, k: bv7)
    requires k < 64
    ensures BitAt(b, k) == RawBit(b, k)
  {
    assert BitLayer(b, k, 0) == RawBit(b, k);
  }

  /**
   * Square `sq` belongs to board `b`: bit `sq` of the word is set. The
   * definition goes through `HasBits`, a recursion of depth one that the
   * verifier does not unfold on its own, so that reasoning about square sets
   * elsewhere stays clear of bit-vector terms; `HasBit` states it.
   */
  predicate Has(b: BitBoard, sq: int)
    requires 0 <= sq < 64
  {
    HasBits(b, sq, 1)
  }

  predicate HasBits(b: BitBoard, sq: int, depth: nat)
    requires 0 <= sq < 64
  {
    if depth == 0 then BitAt(b, Idx(sq)) else HasBits(b, sq, depth - 1)
  }

  lemma HasBit(b: BitBoard, sq: int)
    requires 0 <= sq < 64
    ensures Has(b, sq) == BitAt(b, Idx(sq))
  {
    assert HasBits(b, sq, 0) == BitAt(b, Idx(sq));
  }

  /**
   * The set of squares a board stands for. It is built square by square so
   * that set-level reasoning elsewhere does not unfold into bit operations;
   * `InSquares` gives its membership.
   */
  ghost function Squares(b: BitBoard): set<int>
  {
    SquaresFrom(b, 0)
  }

  /** The squares of `b` at or above `t`. */
  ghost function SquaresFrom(b: BitBoard, t: int): set<int>
    requires 0 <= t <= 64
    decreases 64 - t
  {
    if t == 64 then {} else SquaresFrom(b, t + 1) + (if Has(b, t) then {t} else {})
  }

  lemma {:induction false} InSquaresFrom(b: BitBoard, t: int, x: int)
    requires 0 <= t <= 64
    ensures x in SquaresFrom(b, t) <==> t <= x < 64 && Has(b, x)
    decreases 64 - t
  {
    if t < 64 {
      InSquaresFrom(b, t + 1, x);
    }
  }

  lemma InSquares(b: BitBoard, x: int)
    ensures x in Squares(b) <==> 0 <= x < 64 && Has(b, x)
  {
    InSquaresFrom(b, 0, x);
  }

  // ---------------------------------------------------------------------
  // One bit at a time, on bit-vector indices
  // ---------------------------------------------------------------------

  // Each fact is proved once on `RawBit`, where the solver compares
  // circuits, and then restated on `BitAt`.

  lemma NotRaw(a: BitBoard, k: bv7)
    requires k < 64
    ensures RawBit(!a, k) == !RawBit(a, k)
  {}

  lemma AndRaw(a: BitBoard, b: BitBoard, k: bv7)
    requires k < 64
    ensures RawBit(a & b, k) == (RawBit(a, k) && RawBit(b, k))
  {}

  lemma OrRaw(a: BitBoard, b: BitBoard, k: bv7)
    requires k < 64
    ensures RawBit(a | b, k) == (RawBit(a, k) || RawBit(b, k))
  {}

  lemma XorRaw(a: BitBoard, b: BitBoard, k: bv7)
    requires k < 64
    ensures RawBit(a ^ b, k) == (RawBit(a, k) != RawBit(b, k))
  {}

  lemma FullRaw(k: bv7)
    requires k < 64
    ensures RawBit(FULL, k) && !RawBit(EMPTY, k)
  {}

  lemma FullBitAt(k: bv7)
    requires k < 64
    ensures BitAt(FULL, k) && !BitAt(EMPTY, k)
  {
    BitValue(FULL, k);
    BitValue(EMPTY, k);
    FullRaw(k);
  }

  lemma NotBitAt(a: BitBoard, k: bv7)
    requires k < 64
    ensures BitAt(!a, k) == !BitAt(a, k)
  {
    BitValue(!a, k);
    BitValue(a, k);
    NotRaw(a, k);
  }

  lemma AndBitAt(a: BitBoard, b: BitBoard, k: bv7)
    requires k < 64
    ensures BitAt(a & b, k) == (BitAt(a, k) && BitAt(b, k))
  {
    BitValue(a & b, k);
    BitValue(a, k);
    BitValue(b, k);
    AndRaw(a, b, k);
  }

  lemma OrBitAt(a: BitBoard, b: BitBoard, k: bv7)
    requires k < 64
    ensures BitAt(a | b, k) == (BitAt(a, k) || BitAt(b, k))
  {
    BitValue(a | b, k);
    BitValue(a, k);
    BitValue(b, k);
    OrRaw(a, b, k);
  }

  lemma XorBitAt(a: BitBoard, b: BitBoard, k: bv7)
    requires k < 64
    ensures BitAt(a ^ b, k) == (BitAt(a, k) != BitAt(b, k))
  {
    BitValue(a ^ b, k);
    BitValue(a, k);
    BitValue(b, k);
    XorRaw(a, b, k);
  }

  /** The word with bit `k` alone. */
  function SingleAt(k: bv7): BitBoard
    requires k < 64
  {
    1 << k
  }

  lemma SingleRaw(k: bv7, j: bv7)
    requires k < 64 && j < 64
    ensures RawBit(SingleAt(k), j) == (k == j)
  {}

  lemma SingleBitAt(k: bv7, j: bv7)
    requires k < 64 && j < 64
    ensures BitAt(SingleAt(k), j) == (k == j)
  {
    BitValue(SingleAt(k), j);
    SingleRaw(k, j);
  }

  lemma MaskRaw(x: BitBoard, k: bv7)
    requires k < 64
    ensures (x & SingleAt(k) == 0) == !RawBit(x, k)
  {}

  lemma MaskBitAt(x: BitBoard, k: bv7)
    requires k < 64
    ensures (x & SingleAt(k) == 0) == !BitAt(x, k)
  {
    BitValue(x, k);
    MaskRaw(x, k);
  }

  /** The bits strictly below `k`. */
  function LowMaskAt(k: bv7): BitBoard
    requires k <= 64
  {
    if k == 64 then !0 else (1 << k) - 1
  }

  lemma LowMaskAtSucc(k: bv7)
    requires k < 64
    ensures LowMaskAt(k + 1) == LowMaskAt(k) | SingleAt(k)
  {}

  /** `x & (x - 1)` is `x` with the bits of `y` flipped. */
  predicate ClearsLowest(x: BitBoard, y: BitBoard)
  {
    x & (x - 1) == x ^ y
  }

  /** With no bit below `k` and bit `k` set, `x & (x - 1)` clears exactly bit `k`. */
  lemma ClearLowestAt(x: BitBoard, k: bv7)
    requires k < 64
    requires x & LowMaskAt(k) == 0 && BitAt(x, k)
    ensures ClearsLowest(x, SingleAt(k))
  {
    BitValue(x, k);
    ClearLowestRaw(x, k);
  }

  lemma ClearLowestRaw(x: BitBoard, k: bv7)
    requires k < 64
    ensures x & LowMaskAt(k) == 0 && RawBit(x, k) ==> ClearsLowest(x, SingleAt(k))
  {}

  // ---------------------------------------------------------------------
  // Lifted to square numbers and square sets
  // ---------------------------------------------------------------------

  lemma NotHas(a: BitBoard, sq: int)
    requires 0 <= sq < 64
    ensures Has(!a, sq) == !Has(a, sq)
  {
    HasBit(!a, sq);
    HasBit(a, sq);
    NotBitAt(a, Idx(sq));
  }

  lemma AndHas(a: BitBoard, b: BitBoard, sq: int)
    requires 0 <= sq < 64
    ensures Has(a & b, sq) == (Has(a, sq) && Has(b, sq))
  {
    HasBit(a & b, sq);
    HasBit(a, sq);
    HasBit(b, sq);
    AndBitAt(a, b, Idx(sq));
  }

  lemma OrHas(a: BitBoard, b: BitBoard, sq: int)
    requires 0 <= sq < 64
    ensures Has(a | b, sq) == (Has(a, sq) || Has(b, sq))
  {
    HasBit(a | b, sq);
    HasBit(a, sq);
    HasBit(b, sq);
    OrBitAt(a, b, Idx(sq));
  }

  lemma XorHas(a: BitBoard, b: BitBoard, sq: int)
    requires 0 <= sq < 64
    ensures Has(a ^ b, sq) == (Has(a, sq) != Has(b, sq))
  {
    HasBit(a ^ b, sq);
    HasBit(a, sq);
    HasBit(b, sq);
    XorBitAt(a, b, Idx(sq));
  }

  lemma FullHas(sq: int)
    requires 0 <= sq < 64
    ensures Has(FULL, sq) && !Has(EMPTY, sq)
  {
    HasBit(FULL, sq);
    HasBit(EMPTY, sq);
    FullBitAt(Idx(sq));
  }

  /** Membership in the board of a bitwise operation, square by square. */
  lemma NotIn(a: BitBoard, x: int)
    ensures x in Squares(!a) <==> x in AllSquares && x !in Squares(a)
  {
    InSquares(!a, x);
    InSquares(a, x);
    if 0 <= x < 64 {
      NotHas(a, x);
    }
  }

  lemma AndIn(a: BitBoard, b: BitBoard, x: int)
    ensures x in Squares(a & b) <==> x in Squares(a) && x in Squares(b)
  {
    InSquares(a & b, x);
    InSquares(a, x);
    InSquares(b, x);
    if 0 <= x < 64 {
      AndHas(a, b, x);
    }
  }

  lemma OrIn(a: BitBoard, b: BitBoard, x: int)
    ensures x in Squares(a | b) <==> x in Squares(a) || x in Squares(b)
  {
    InSquares(a | b, x);
    InSquares(a, x);
    InSquares(b, x);
    if 0 <= x < 64 {
      OrHas(a, b, x);
    }
  }

  lemma XorIn(a: BitBoard, b: BitBoard, x: int)
    ensures x in Squares(a ^ b) <==> ((x in Squares(a)) != (x in Squares(b)))
  {
    InSquares(a ^ b, x);
    InSquares(a, x);
    InSquares(b, x);
    if 0 <= x < 64 {
      XorHas(a, b, x);
    }
  }

  lemma NotSquares(a: BitBoard)
    ensures Squares(!a) == AllSquares - Squares(a)
  {
    forall x ensures x in Squares(!a) <==> x in AllSquares - Squares(a) {
      NotIn(a, x);
    }
  }

  lemma AndSquares(a: BitBoard, b: BitBoard)
    ensures Squares(a & b) == Squares(a) * Squares(b)
  {
    forall x ensures x in Squares(a & b) <==> x in Squares(a) * Squares(b) {
      AndIn(a, b, x);
    }
  }

  lemma OrSquares(a: BitBoard, b: BitBoard)
    ensures Squares(a | b) == Squares(a) + Squares(b)
  {
    forall x ensures x in Squares(a | b) <==> x in Squares(a) + Squares(b) {
      OrIn(a, b, x);
    }
  }

  lemma XorSquares(a: BitBoard, b: BitBoard)
    ensures Squares(a ^ b) == (Squares(a) - Squares(b)) + (Squares(b) - Squares(a))
  {
    forall x ensures x in Squares(a ^ b) <==> x in (Squares(a) - Squares(b)) + (Squares(b) - Squares(a)) {
      XorIn(a, b, x);
    }
  }

  /**
   * The word with bit `i` alone. Like `Idx` it goes through a recursion of
   * depth one, so that code using boards does not see the shift;
   * `SingleValue` states the definition.
   */
  function Single(i: int): BitBoard
    requires 0 <= i < 64
  {
    SingleLayer(i, 1)
  }

  function SingleLayer(i: int, depth: nat): BitBoard
    requires 0 <= i < 64
  {
    if depth == 0 then SingleAt(Idx(i)) else SingleLayer(i, depth - 1)
  }

  lemma SingleValue(i: int)
    requires 0 <= i < 64
    ensures Single(i) == SingleAt(Idx(i))
  {
    assert SingleLayer(i, 0) == SingleAt(Idx(i));
  }

  /** The mask of squares below `t`. */
  function LowMask(t: int): BitBoard
    requires 0 <= t <= 64
  {
    if t == 64 then !0 else LowMaskAt(Idx(t))
  }

  /** One more square under the mask: `LowMask(t + 1)` is the mask at `Idx(t) + 1`. */
  lemma LowMaskNext(t: int)
    requires 0 <= t < 64
    ensures LowMask(t + 1) == NextMaskAt(Idx(t))
  {
    IdxSucc(t);
  }

  /** The bits up to and including `k`. */
  function NextMaskAt(k: bv7): BitBoard
    requires k < 64
  {
    LowMaskAt(k + 1)
  }

  lemma LowMaskStepAt(x: BitBoard, k: bv7)
    requires k < 64
    requires x & LowMaskAt(k) == 0 && !BitAt(x, k)
    ensures x & NextMaskAt(k) == 0
  {
    LowMaskAtSucc(k);
    MaskBitAt(x, k);
  }

  lemma LowMaskStep(x: BitBoard, t: int)
    requires 0 <= t < 64
    requires x & LowMask(t) == 0 && !Has(x, t)
    ensures x & LowMask(t + 1) == 0
  {
    HasBit(x, t);
    LowMaskNext(t);
    LowMaskStepAt(x, Idx(t));
  }

  /** A board with no square below `t` has no bit under the mask of `t`. */
  lemma {:induction false} LowMaskClear(x: BitBoard, t: int)
    requires 0 <= t <= 64
    requires forall sq :: 0 <= sq < t ==> !Has(x, sq)
    ensures x & LowMask(t) == 0
  {
    if t > 0 {
      LowMaskClear(x, t - 1);
      LowMaskStep(x, t - 1);
    }
  }

  /** A board without squares is the empty word. */
  lemma NoSquaresIsEmpty(x: BitBoard)
    requires Squares(x) == {}
    ensures x == EMPTY
  {
    forall sq | 0 <= sq < 64 ensures !Has(x, sq) {
      InSquares(x, sq);
    }
    LowMaskClear(x, 64);
  }

  /** Two boards with the same squares are the same word. */
  lemma SquaresInjective(a: BitBoard, b: BitBoard)
    requires Squares(a) == Squares(b)
    ensures a == b
  {
    XorSquares(a, b);
    NoSquaresIsEmpty(a ^ b);
    assert a == (a ^ b) ^ b;
  }

  // ---------------------------------------------------------------------
  // The operators of src/bitboard.rs
  // ---------------------------------------------------------------------

  lemma EmptyFullSquares()
    ensures Squares(EMPTY) == {}
    ensures Squares(FULL) == AllSquares
    ensures FULL == Not(EMPTY)
  {
    forall x ensures x !in Squares(EMPTY) && (x in Squares(FULL) <==> x in AllSquares) {
      InSquares(EMPTY, x);
      InSquares(FULL, x);
      if 0 <= x < 64 {
        FullHas(x);
      }
    }
  }

  // ---------------------------------------------------------------------
  // The operators of the board type
  // ---------------------------------------------------------------------

  /** The word operations the board type wraps. */
  datatype WordOp = NotOp | AndOp | OrOp | XorOp | SubOp | ClearLowestOp

  /** Word operation `op` on `a` and `b`; `!` and `x & (x - 1)` ignore `b`. */
  function Machine(op: WordOp, a: BitBoard, b: BitBoard): BitBoard
  {
    match op
    case NotOp => !a
    case AndOp => a & b
    case OrOp => a | b
    case XorOp => a ^ b
    case SubOp => a - b
    case ClearLowestOp => a & (a - 1)
  }

  /**
   * `Machine` behind a recursion of depth one. The operators below return
   * `Apply(op, a, b, 1)`, which the solver does not unfold on its own, so
   * code that uses boards reasons with their square-set contracts and not
   * with word circuits; `ApplyValue` states the definition.
   */
  function Apply(op: WordOp, a: BitBoard, b: BitBoard, depth: nat): BitBoard
  {
    if depth == 0 then Machine(op, a, b) else Apply(op, a, b, depth - 1)
  }

  lemma ApplyValue(op: WordOp, a: BitBoard, b: BitBoard)
    ensures Apply(op, a, b, 1) == Machine(op, a, b)
  {
    assert Apply(op, a, b, 0) == Machine(op, a, b);
  }

  /** `!b`: the squares not in `a`. */
  function Not(a: BitBoard): (r: BitBoard)
    ensures Squares(r) == AllSquares - Squares(a)
  {
    ApplyValue(NotOp, a, EMPTY);
    NotSquares(a);
    Apply(NotOp, a, EMPTY, 1)
  }

  /** `a & b`: the squares in both. */
  function And(a: BitBoard, b: BitBoard): (r: BitBoard)
    ensures Squares(r) == Squares(a) * Squares(b)
  {
    ApplyValue(AndOp, a, b);
    AndSquares(a, b);
    Apply(AndOp, a, b, 1)
  }

  /** `a | b`: the squares in either. */
  function Or(a: BitBoard, b: BitBoard): (r: BitBoard)
    ensures Squares(r) == Squares(a) + Squares(b)
  {
    ApplyValue(OrOp, a, b);
    OrSquares(a, b);
    Apply(OrOp, a, b, 1)
  }

  /** `a ^ b`: the squares in exactly one of them. */
  function Xor(a: BitBoard, b: BitBoard): (r: BitBoard)
    ensures Squares(r) == (Squares(a) - Squares(b)) + (Squares(b) - Squares(a))
  {
    ApplyValue(XorOp, a, b);
    XorSquares(a, b);
    Apply(XorOp, a, b, 1)
  }

  /** `self &= rhs` overwrites `self` with `self & rhs`. */
  method AndAssign(self: BitBoard, rhs: BitBoard) returns (updated: BitBoard)
    ensures updated == And(self, rhs)
    ensures Squares(updated) == Squares(self) * Squares(rhs)
  {
    ApplyValue(AndOp, self, rhs);
    updated := self & rhs;
  }

  /** `self |= rhs` overwrites `self` with `self | rhs`. */
  method OrAssign(self: BitBoard, rhs: BitBoard) returns (updated: BitBoard)
    ensures updated == Or(self, rhs)
    ensures Squares(updated) == Squares(self) + Squares(rhs)
  {
    ApplyValue(OrOp, self, rhs);
    updated := self | rhs;
  }

  /** `self ^= rhs` overwrites `self` with `self ^ rhs`. */
  method XorAssign(self: BitBoard, rhs: BitBoard) returns (updated: BitBoard)
    ensures updated == Xor(self, rhs)
    ensures Squares(updated) == (Squares(self) - Squares(rhs)) + (Squares(rhs) - Squares(self))
  {
    ApplyValue(XorOp, self, rhs);
    updated := self ^ rhs;
  }

  /**
   * Wrapping subtraction on the word. Stating facts about `Minus` rather than
   * `-` lets the solver replace equal arguments by equal arguments without
   * reasoning about the subtraction circuit.
   */
  function Minus(a: BitBoard, b: BitBoard): BitBoard
  {
    a - b
  }

  lemma MinusUndoesAdd(b: BitBoard, c: BitBoard)
    ensures Minus(c + b, b) == c
  {}

  /** Adding words with no bit in common never carries. */
  lemma DisjointAdd(x: BitBoard, y: BitBoard)
    ensures x & y == 0 ==> x + y == x | y
  {}

  lemma SubsetSplit(a: BitBoard, b: BitBoard)
    ensures a & b == b ==> (a ^ b) & b == 0 && (a ^ b) | b == a
  {}

  lemma SubsetMinus(a: BitBoard, b: BitBoard)
    requires a & b == b
    ensures Minus(a, b) == a ^ b
  {
    SubsetSplit(a, b);
    DisjointAdd(a ^ b, b);
    MinusUndoesAdd(b, a ^ b);
  }

  /** Subtracting a word whose bits all lie in `a` clears exactly those bits. */
  lemma SubsetSubAt(a: BitBoard, b: BitBoard)
    requires a & b == b
    ensures a - b == a ^ b
  {
    SubsetMinus(a, b);
  }

  lemma SubsetAnd(a: BitBoard, b: BitBoard)
    ensures Squares(b) <= Squares(a) ==> a & b == b
  {
    if Squares(b) <= Squares(a) {
      AndSquares(a, b);
      SquaresInjective(a & b, b);
    }
  }

  /**
   * `a - b` on the underlying word; it underflows (a panic) unless `b <= a`.
   * When the squares of `b` lie among those of `a` it removes them.
   */
  function Sub(a: BitBoard, b: BitBoard): (r: BitBoard)
    requires b <= a
    ensures Squares(b) <= Squares(a) ==> Squares(r) == Squares(a) - Squares(b)
  {
    ApplyValue(SubOp, a, b);
    SubsetAnd(a, b);
    if a & b == b then
      SubsetSubAt(a, b);
      XorSquares(a, b);
      Apply(SubOp, a, b, 1)
    else
      Apply(SubOp, a, b, 1)
  }

  lemma SingleSquares(i: int)
    requires 0 <= i < 64
    ensures Squares(Single(i)) == {i}
  {
    SingleValue(i);
    forall x ensures x in Squares(Single(i)) <==> x == i {
      InSquares(Single(i), x);
      if 0 <= x < 64 {
        HasBit(Single(i), x);
        SingleBitAt(Idx(i), Idx(x));
        IdxInjective(i, x);
      }
    }
  }

  /** `new(i)`: the board holding square `i` alone; the shift overflows for `i >= 64`. */
  function New(i: int): (r: BitBoard)
    requires 0 <= i < 64
    ensures Squares(r) == {i}
  {
    SingleSquares(i);
    Single(i)
  }

  // ---------------------------------------------------------------------
  // first, count, rank, file
  // ---------------------------------------------------------------------

  /** The lowest square of `b` at or above `t`, or 64 if there is none. */
  function TrailingZerosFrom(b: BitBoard, t: int): (r: int)
    requires 0 <= t <= 64
    ensures t <= r <= 64
    ensures r < 64 ==> Has(b, r)
    ensures forall sq :: t <= sq < r ==> !Has(b, sq)
    decreases 64 - t
  {
    if t == 64 then 64
    else if Has(b, t) then t
    else TrailingZerosFrom(b, t + 1)
  }

  lemma FirstIsLowest(b: BitBoard, r: int)
    requires 0 <= r <= 64
    requires r < 64 ==> Has(b, r)
    requires forall sq :: 0 <= sq < r ==> !Has(b, sq)
    ensures r < 64 ==> r in Squares(b)
    ensures forall sq :: sq in Squares(b) ==> r <= sq
    ensures r == 64 ==> Squares(b) == {}
  {
    InSquares(b, r);
    forall sq | sq in Squares(b) ensures r <= sq < 64 {
      InSquares(b, sq);
    }
  }

  /** `first()`: the number of trailing zero bits, i.e. the lowest square, and 64 for `EMPTY`. */
  function First(b: BitBoard): (r: int)
    ensures 0 <= r <= 64
    ensures r == 64 <==> b == EMPTY
    ensures r < 64 ==> r in Squares(b) && forall sq :: sq in Squares(b) ==> r <= sq
    ensures forall sq :: 0 <= sq < r ==> !Has(b, sq)
  {
    var r := TrailingZerosFrom(b, 0);
    FirstIsLowest(b, r);
    if r == 64 then
      NoSquaresIsEmpty(b);
      r
    else
      FullHas(r);
      r
  }

  lemma SquaresFromStep(b: BitBoard, t: int)
    requires 0 <= t < 64
    ensures t !in SquaresFrom(b, t + 1)
    ensures SquaresFrom(b, t) == SquaresFrom(b, t + 1) + (if Has(b, t) then {t} else {})
  {
    InSquaresFrom(b, t + 1, t);
  }

  function CountFrom(b: BitBoard, t: int): (n: nat)
    requires 0 <= t <= 64
    ensures n == |SquaresFrom(b, t)|
    ensures n <= 64 - t
    decreases 64 - t
  {
    if t == 64 then
      assert SquaresFrom(b, t) == {};
      0
    else
      SquaresFromStep(b, t);
      CountFrom(b, t + 1) + (if Has(b, t) then 1 else 0)
  }

  /** `count()`: the number of set bits, i.e. of squares on the board. */
  function Count(b: BitBoard): (n: nat)
    ensures n == |Squares(b)|
    ensures n <= 64
  {
    CountFrom(b, 0)
  }

  /** `new(i)` has exactly one bit set, and it is the lowest. */
  lemma NewCount(i: int)
    requires 0 <= i < 64
    ensures Count(New(i)) == 1 && First(New(i)) == i
  {
    SingleSquares(i);
    FirstSingle(i);
  }

  /** `rank()`: the rank of the lowest square (trailing zeros shifted right by 3); 8 for `EMPTY`. */
  function Rank(b: BitBoard): (r: int)
    ensures 0 <= r <= 8
    ensures r == 8 <==> b == EMPTY
  {
    First(b) / 8
  }

  /** `file()`: the file of the lowest square (trailing zeros masked with 7); 0 for `EMPTY`. */
  function File(b: BitBoard): (f: int)
    ensures 0 <= f < 8
    ensures Rank(b) * 8 + f == First(b)
  {
    First(b) % 8
  }

  /** The shift amount `(rank << 3) | file` that `offset` forms. */
  function ShiftAmount(rank: int, file: int): bv7
    requires 0 <= rank < 8 && 0 <= file < 64
  {
    (Idx(rank) << 3) | Idx(file)
  }

  /** The rank is on the board, the file is not negative and `(rank << 3) | file` is a square. */
  predicate ShiftFits(rank: int, file: int)
  {
    0 <= rank < 8 && 0 <= file < 64 && ShiftAmount(rank, file) < 64
  }

  /** For a file on the board, the packed shift amount is the square number. */
  lemma ShiftAmountSquare(rank: int, file: int)
    requires 0 <= rank < 8 && 0 <= file < 8
    ensures ShiftAmount(rank, file) == Idx(rank * 8 + file)
  {
    IdxValue(rank);
    IdxValue(file);
    IdxValue(rank * 8 + file);
  }

  /**
   * `offset(r, f)`: the single square `r` ranks and `f` files away from the
   * lowest square of `b`. The shift overflows (a panic) unless the new rank is
   * 0..7, the new file is not negative, and `(rank << 3) | file` stays below 64.
   */
  function Offset(b: BitBoard, r: int, f: int): (o: BitBoard)
    requires ShiftFits(Rank(b) + r, File(b) + f)
    ensures File(b) + f < 8 ==> o == Single((Rank(b) + r) * 8 + (File(b) + f))
  {
    PackedSquare(Rank(b) + r, File(b) + f)
  }

  /** Every on-board (rank, file) pair packs to a shift amount below 64. */
  lemma BoardFits(rank: int, file: int)
    requires 0 <= rank < 8 && 0 <= file < 8
    ensures ShiftFits(rank, file)
  {
    ShiftAmountSquare(rank, file);
    IdxValue(rank * 8 + file);
  }

  /** An `offset` that lands on the board is the square of the new rank and file. */
  lemma OffsetOnBoard(b: BitBoard, r: int, f: int)
    requires 0 <= Rank(b) + r < 8 && 0 <= File(b) + f < 8
    ensures ShiftFits(Rank(b) + r, File(b) + f)
    ensures Offset(b, r, f) == Single((Rank(b) + r) * 8 + (File(b) + f))
  {
    BoardFits(Rank(b) + r, File(b) + f);
  }

  /** The lowest square of a one-square board is that square. */
  lemma FirstSingle(i: int)
    requires 0 <= i < 64
    ensures Single(i) != EMPTY && First(Single(i)) == i
  {
    SingleSquares(i);
    EmptyFullSquares();
    assert Single(i) != EMPTY;
  }

  /** `offset` of a non-empty board moves its lowest square, by a step that stays on the board. */
  lemma OffsetFirst(b: BitBoard, s: int, r: int, f: int, t: int)
    requires b != EMPTY && First(b) == s && 0 <= s / 8 + r < 8 && 0 <= s % 8 + f < 8
    requires t == (s / 8 + r) * 8 + (s % 8 + f)
    ensures ShiftFits(Rank(b) + r, File(b) + f)
    ensures Offset(b, r, f) == Single(t)
  {
    OffsetOnBoard(b, r, f);
  }

  /** The single square at the packed shift amount `(rank << 3) | file`. */
  function PackedSquare(rank: int, file: int): (o: BitBoard)
    requires ShiftFits(rank, file)
    ensures file < 8 ==> o == Single(rank * 8 + file)
  {
    OffsetSquare(rank, file);
    ShiftedValue(rank, file);
    Shifted(rank, file, 1)
  }

  /** The word `1 << ((rank << 3) | file)`, behind a recursion of depth one. */
  function Shifted(rank: int, file: int, depth: nat): BitBoard
    requires ShiftFits(rank, file)
  {
    if depth == 0 then SingleAt(ShiftAmount(rank, file)) else Shifted(rank, file, depth - 1)
  }

  lemma ShiftedValue(rank: int, file: int)
    requires ShiftFits(rank, file)
    ensures Shifted(rank, file, 1) == SingleAt(ShiftAmount(rank, file))
  {
    assert Shifted(rank, file, 0) == SingleAt(ShiftAmount(rank, file));
  }

  lemma OffsetSquare(rank: int, file: int)
    requires 0 <= rank < 8 && 0 <= file < 64
    ensures file < 8 ==> ShiftAmount(rank, file) == Idx(rank * 8 + file)
    ensures file < 8 ==> SingleAt(ShiftAmount(rank, file)) == Single(rank * 8 + file)
  {
    if file < 8 {
      ShiftAmountSquare(rank, file);
      SingleValue(rank * 8 + file);
    }
  }

  /** `x &= x - 1`: the board without its lowest square. */
  function PopLowest(x: BitBoard): (r: BitBoard)
    requires x != EMPTY
    ensures Squares(r) == Squares(x) - {First(x)}
  {
    PopLowestSquares(x);
    Apply(ClearLowestOp, x, EMPTY, 1)
  }

  /** Below the lowest square of a non-empty board no bit is set. */
  lemma BelowFirst(x: BitBoard)
    requires x != EMPTY
    ensures First(x) < 64
    ensures BitAt(x, Idx(First(x)))
    ensures x & LowMaskAt(Idx(First(x))) == 0
  {
    HasBit(x, First(x));
    LowMaskClear(x, First(x));
  }

  /** `x & (x - 1)` flips the lowest bit of `x`. */
  lemma PopLowestWord(x: BitBoard)
    requires x != EMPTY
    ensures Apply(ClearLowestOp, x, EMPTY, 1) == Xor(x, Single(First(x)))
  {
    BelowFirst(x);
    SingleValue(First(x));
    ClearLowestAt(x, Idx(First(x)));
    ApplyValue(ClearLowestOp, x, EMPTY);
    ApplyValue(XorOp, x, Single(First(x)));
  }

  /** Flipping a square of the board removes it. */
  lemma XorSingle(x: BitBoard, i: int)
    requires 0 <= i < 64 && i in Squares(x)
    ensures Squares(Xor(x, Single(i))) == Squares(x) - {i}
  {
    SingleSquares(i);
  }

  lemma PopLowestSquares(x: BitBoard)
    requires x != EMPTY
    ensures Squares(Apply(ClearLowestOp, x, EMPTY, 1)) == Squares(x) - {First(x)}
  {
    PopLowestWord(x);
    XorSingle(x, First(x));
  }
}
