/** The 64-bit arithmetic of the IR: a reference meaning for every foldable operation, the
    fold helpers of the optimizer, and exactly where the two agree. */
module Arithmetic {
  import opened Ir

  predicate Negative(v: Word) { v & 0x8000_0000_0000_0000 != 0 }

  function Bit(v: Word, i: Word): Word
    requires i < 64
  { (v >> i) & 1 }

  // ----- reference meaning -----

  function RotateLeft(a: Word, n: Word): Word
    requires n < 64
  { if n == 0 then a else (a << n) | (a >> (64 - n)) }

  function RotateRight(a: Word, n: Word): Word
    requires n < 64
  { if n == 0 then a else (a >> n) | (a << (64 - n)) }

  /** A right shift whose vacated bits are filled with the sign bit. */
  function ArithmeticShift(a: Word, n: Word): Word
    requires n < 64
  { if Negative(a) then (a >> n) | !(ALL_ONES >> n) else a >> n }

  /** The bytes of `v` in the opposite order. */
  function ByteReverse(v: Word): Word {
    ((v & 0xFF) << 56) | (((v >> 8) & 0xFF) << 48) | (((v >> 16) & 0xFF) << 40) | (((v >> 24) & 0xFF) << 32)
    | (((v >> 32) & 0xFF) << 24) | (((v >> 40) & 0xFF) << 16) | (((v >> 48) & 0xFF) << 8) | ((v >> 56) & 0xFF)
  }

  function Product(a: Word, b: Word): Word { a * b }
  function ShiftLeft(a: Word, n: Word): Word requires n < 64 { a << n }
  function ShiftRight(a: Word, n: Word): Word requires n < 64 { a >> n }

  /** What a two-operand instruction computes; shift amounts count modulo 64. */
  function Binary(op: Op, a: Word, b: Word): Word
    requires FoldableBinary(op)
  {
    match op
    case ADD => a + b
    case SUB => a - b
    case MUL => Product(a, b)
    case XOR => a ^ b
    case AND => a & b
    case OR => a | b
    case SHL => ShiftLeft(a, b & 63)
    case SHR => ShiftRight(a, b & 63)
    case SAR => ArithmeticShift(a, b & 63)
    case ROL => RotateLeft(a, b & 63)
    case ROR => RotateRight(a, b & 63)
  }

  function Unary(op: Op, a: Word): Word
    requires FoldableUnary(op)
  {
    match op
    case NOT => ALL_ONES - a
    case NEG => 0 - a
    case BSWAP => ByteReverse(a)
  }

  // ----- the reference means what its names say -----

  /** A left rotation by `n` moves bit `i` to bit `i + n`, ... */
  lemma RotateLeftMoves(a: Word, n: Word, i: Word)
    requires 1 <= n < 64 && i < 64
    ensures i + n < 64 ==> Bit((a << n) | (a >> (64 - n)), i + n) == Bit(a, i)
  {}

  /** ... and the top `n` bits to the bottom. */
  lemma RotateLeftWraps(a: Word, n: Word, i: Word)
    requires 1 <= n < 64 && i < 64
    ensures i + n >= 64 ==> Bit((a << n) | (a >> (64 - n)), i + n - 64) == Bit(a, i)
  {
    if n < 32 { WrapLow(a, n, i); } else if n < 48 { WrapMiddle(a, n, i); } else { WrapHigh(a, n, i); }
  }

  lemma WrapLow(a: Word, n: Word, i: Word)
    requires 1 <= n < 32 && i < 64
    ensures i + n >= 64 ==> Bit((a << n) | (a >> (64 - n)), i + n - 64) == Bit(a, i)
  {}

  lemma WrapMiddle(a: Word, n: Word, i: Word)
    requires 32 <= n < 48 && i < 64
    ensures i + n >= 64 ==> Bit((a << n) | (a >> (64 - n)), i + n - 64) == Bit(a, i)
  {}

  lemma WrapHigh(a: Word, n: Word, i: Word)
    requires 48 <= n < 64 && i < 64
    ensures i + n >= 64 ==> Bit((a << n) | (a >> (64 - n)), i + n - 64) == Bit(a, i)
  {}

  lemma RotationsMirror(a: Word, n: Word)
    requires 1 <= n < 64
    ensures RotateLeft(a, n) == RotateRight(a, 64 - n)
  {}

  // ----- the fold helpers -----

  /** What the host computes for a shift by 64, which C++ leaves undefined. Nothing is
      known about it: every theorem holds for every host. */
  datatype Host = Host(wideShl: Word -> Word, wideShr: Word -> Word)

  function HostShl(h: Host, v: Word, n: Word): Word { if n < 64 then v << n else h.wideShl(v) }
  function HostShr(h: Host, v: Word, n: Word): Word { if n < 64 then v >> n else h.wideShr(v) }

  function Rol64(h: Host, v: Word, amount: Word): Word {
    var n := amount & 63;
    HostShl(h, v, n) | HostShr(h, v, 64 - n)
  }

  function Ror64(h: Host, v: Word, amount: Word): Word {
    var n := amount & 63;
    HostShr(h, v, n) | HostShl(h, v, 64 - n)
  }

  function Sar64(h: Host, v: Word, amount: Word): Word {
    var n := amount & 63;
    if Negative(v) then HostShr(h, v, n) | HostShl(h, ALL_ONES, 64 - n) else HostShr(h, v, n)
  }

  function Bswap64(v: Word): Word {
    ((v & 0xFF) << 56) | ((v & 0xFF00) << 40) | ((v & 0xFF_0000) << 24) | ((v & 0xFF00_0000) << 8)
    | ((v >> 8) & 0xFF00_0000) | ((v >> 24) & 0xFF_0000) | ((v >> 40) & 0xFF00) | (v >> 56)
  }

  function FoldBinary(h: Host, op: Op, a: Word, b: Word): Option<Word> {
    match op
    case ADD => Some(a + b)
    case SUB => Some(a - b)
    case MUL => Some(Product(a, b))
    case XOR => Some(a ^ b)
    case AND => Some(a & b)
    case OR => Some(a | b)
    case SHL => Some(HostShl(h, a, b & 63))
    case SHR => Some(HostShr(h, a, b & 63))
    case SAR => Some(Sar64(h, a, b))
    case ROL => Some(Rol64(h, a, b))
    case ROR => Some(Ror64(h, a, b))
    case _ => None
  }

  function FoldUnary(op: Op, a: Word): Option<Word> {
    match op
    case NOT => Some(!a)
    case NEG => Some(0 - a)
    case BSWAP => Some(Bswap64(a))
    case _ => None
  }

  // ----- where the helpers agree with the reference -----

  /** The helpers never shift by 64, or that shift cannot show in the result. */
  predicate ShiftDefined(op: Op, a: Word, b: Word) {
    op in {SAR, ROL, ROR} ==> b & 63 != 0 || a == ALL_ONES || (op == SAR && !Negative(a))
  }

  lemma AmountInRange(b: Word)
    ensures b & 63 < 64
  {}

  lemma SignFill(n: Word)
    requires 1 <= n < 64
    ensures ALL_ONES << (64 - n) == !(ALL_ONES >> n)
  {}

  lemma FoldSar(h: Host, a: Word, b: Word)
    requires b & 63 != 0
    ensures Sar64(h, a, b) == ArithmeticShift(a, b & 63)
  {
    AmountInRange(b);
    SignFill(b & 63);
  }
  lemma FoldRol(h: Host, a: Word, b: Word)
    requires b & 63 != 0
    ensures Rol64(h, a, b) == RotateLeft(a, b & 63)
  {
    AmountInRange(b);
  }
  lemma FoldRor(h: Host, a: Word, b: Word)
    requires b & 63 != 0
    ensures Ror64(h, a, b) == RotateRight(a, b & 63)
  {
    AmountInRange(b);
  }

  lemma FoldNoShift(h: Host, op: Op, a: Word, b: Word)
    requires op in {SAR, ROL, ROR} && b & 63 == 0
    requires a == ALL_ONES || (op == SAR && !Negative(a))
    ensures FoldBinary(h, op, a, b) == Some(Binary(op, a, b))
  {
    if op == SAR && Negative(a) { OrAbsorbs(h.wideShl(ALL_ONES)); }
    if op == ROL { OrAbsorbs(h.wideShr(a)); }
    if op == ROR { OrAbsorbs(h.wideShl(a)); }
  }

  lemma OrAbsorbs(x: Word)
    ensures ALL_ONES | x == ALL_ONES
  {}

  lemma FoldDefined(h: Host, op: Op, a: Word, b: Word)
    requires FoldableBinary(op) && ShiftDefined(op, a, b)
    ensures FoldBinary(h, op, a, b) == Some(Binary(op, a, b))
  {
    if op in {SAR, ROL, ROR} {
      if b & 63 == 0 {
        FoldNoShift(h, op, a, b);
      } else {
        match op
        case SAR => FoldSar(h, a, b);
        case ROL => FoldRol(h, a, b);
        case ROR => FoldRor(h, a, b);
      }
    } else {
      AmountInRange(b);
    }
  }

  /** A host on which every over-wide shift yields all ones. */
  function OnesHost(): Host { Host(x => ALL_ONES, x => ALL_ONES) }

  lemma FoldUndefined(op: Op, a: Word, b: Word)
    requires FoldableBinary(op) && !ShiftDefined(op, a, b)
    ensures FoldBinary(OnesHost(), op, a, b) != Some(Binary(op, a, b))
  {
    assert b & 63 == 0;
    assert a | ALL_ONES == ALL_ONES;
  }

  /** Constant folding of two operands is right on every host exactly when `ShiftDefined`. */
  lemma FoldBinaryExact(op: Op, a: Word, b: Word)
    requires FoldableBinary(op)
    ensures (forall h: Host :: FoldBinary(h, op, a, b) == Some(Binary(op, a, b))) <==> ShiftDefined(op, a, b)
  {
    if ShiftDefined(op, a, b) {
      forall h: Host ensures FoldBinary(h, op, a, b) == Some(Binary(op, a, b)) {
        FoldDefined(h, op, a, b);
      }
    } else {
      FoldUndefined(op, a, b);
    }
  }

  lemma FoldUnaryExact(op: Op, a: Word)
    requires FoldableUnary(op)
    ensures FoldUnary(op, a) == Some(Unary(op, a))
  {
    if op == BSWAP { BswapReverses(a); }
  }

  lemma BswapReverses(a: Word)
    ensures Bswap64(a) == ByteReverse(a)
  {}

  // ----- the algebra behind instruction combination -----

  lemma RightIdentities(op: Op, a: Word)
    requires op in {ADD, SUB, XOR, OR, SHL, SHR, SAR, ROL, ROR}
    ensures Binary(op, a, 0) == a
  {
    AmountInRange(0);
    assert (0 as Word) & 63 == 0;
    assert ALL_ONES >> 0 == ALL_ONES;
  }

  lemma Annihilators(a: Word)
    ensures Binary(AND, a, 0) == 0 && Binary(MUL, a, 0) == 0
    ensures Binary(AND, a, ALL_ONES) == a && Binary(MUL, a, 1) == a
    ensures Binary(XOR, a, a) == 0 && Binary(SUB, a, a) == 0 && Binary(OR, a, a) == a
  {}

  lemma ByteReverseTwice(a: Word)
    ensures ByteReverse(ByteReverse(a)) == a
  {}

  lemma UnaryInvolutions(op: Op, a: Word)
    requires FoldableUnary(op)
    ensures Unary(op, Unary(op, a)) == a
  {
    match op
    case NOT => assert ALL_ONES - (ALL_ONES - a) == a;
    case NEG => assert 0 - (0 - a) == a;
    case BSWAP => ByteReverseTwice(a);
  }

  /** The mixed boolean-arithmetic pattern ((x & y) ^ y) | y, in every operand order. */
  lemma AndXorOr(x: Word, y: Word)
    ensures Binary(AND, x, y) == Binary(AND, y, x)
    ensures Binary(XOR, x, y) == Binary(XOR, y, x)
    ensures Binary(OR, x, y) == Binary(OR, y, x)
    ensures Binary(OR, Binary(XOR, Binary(AND, x, y), y), y) == y
  {}
}
