/**
 * What the integer bytecodes of the interpreter compute from their unboxed
 * operands: NegateInt, the binary arithmetic and bitwise bytecodes, the shifts
 * and the ordering comparisons. The handlers that pop, unbox and box around
 * these values are methods of the Interpreter class.
 */
module IntBytecodes {
  import opened Common
  import opened Int64

  /** The integer bytecodes that unbox their operands, named after their operator. */
  datatype IntOp =
    | NegateOp | AddOp | SubOp | MulOp | TruncDivOp | ModOp
    | BitAndOp | BitOrOp | BitXorOp | ShlOp | ShrOp
    | GtOp | LtOp | GeOp | LeOp

  /** The ordering comparisons CompareIntGt, CompareIntLt, CompareIntGe and CompareIntLe. */
  predicate IsComparison(op: IntOp) {
    op.GtOp? || op.LtOp? || op.GeOp? || op.LeOp?
  }

  /** The bytecodes that may throw IntegerDivisionByZeroException. */
  predicate IsDivision(op: IntOp) {
    op.TruncDivOp? || op.ModOp?
  }

  /** The bytecodes that throw an ArgumentError for a negative count. */
  predicate IsShift(op: IntOp) {
    op.ShlOp? || op.ShrOp?
  }

  /** A handler's value before boxing: an int64 for arithmetic, a bool for a comparison. */
  datatype IntValue = IntResult(value: int64) | BoolResult(b: bool)

  /**
   * The value an integer bytecode computes from its operands a and b (NegateInt
   * uses a alone), or the error it throws: a zero divisor for TruncDivInt and
   * ModInt, a negative count for ShlInt and ShrInt. Nothing else fails.
   */
  function EvalIntOp(op: IntOp, a: int64, b: int64): (r: Result<IntValue, IntError>)
    ensures r.Err? <==> (IsDivision(op) && b == 0) || (IsShift(op) && b < 0)
    ensures r.Err? ==> (r.error == DivisionByZero <==> IsDivision(op))
    ensures r.Ok? ==> (r.value.BoolResult? <==> IsComparison(op))
  {
    match op
    case NegateOp => Ok(IntResult(NegateInt(a)))
    case AddOp => Ok(IntResult(AddInt(a, b)))
    case SubOp => Ok(IntResult(SubInt(a, b)))
    case MulOp => Ok(IntResult(MulInt(a, b)))
    case TruncDivOp => var q :- TruncDivInt(a, b); Ok(IntResult(q))
    case ModOp => var m :- ModInt(a, b); Ok(IntResult(m))
    case BitAndOp => Ok(IntResult(BitwiseInt(And, a, b)))
    case BitOrOp => Ok(IntResult(BitwiseInt(Or, a, b)))
    case BitXorOp => Ok(IntResult(BitwiseInt(Xor, a, b)))
    case ShlOp => var s :- ShlInt(a, b); Ok(IntResult(s))
    case ShrOp => var s :- ShrInt(a, b); Ok(IntResult(s))
    case GtOp => Ok(BoolResult(a > b))
    case LtOp => Ok(BoolResult(a < b))
    case GeOp => Ok(BoolResult(a >= b))
    case LeOp => Ok(BoolResult(a <= b))
  }

  /** AddInt undoes SubInt and NegateInt undoes itself, wrap-around included. */
  lemma AddSubNegateInverse(a: int64, b: int64)
    ensures var d := EvalIntOp(SubOp, a, b).value.value;
      EvalIntOp(AddOp, d, b) == Ok(IntResult(a))
    ensures var n := EvalIntOp(NegateOp, a, 0).value.value;
      EvalIntOp(NegateOp, n, 0) == Ok(IntResult(a))
  {
    AddUndoesSub(a, b);
    NegateInvolutive(a);
  }

  /**
   * For a non-zero divisor ModInt answers the Euclidean remainder, in [0, |b|),
   * and TruncDivInt the truncated quotient wrapped to int64.
   */
  lemma DivisionResults(a: int64, b: int64)
    requires b != 0
    ensures EvalIntOp(ModOp, a, b) == Ok(IntResult(a % b)) && 0 <= a % b < Abs(b)
    ensures EvalIntOp(TruncDivOp, a, b) == Ok(IntResult(Wrap(CTruncDiv(a, b))))
  {
    ModIntIsEuclidean(a, b);
    TruncDivIsWrappedQuotient(a, b);
  }

  /** A right shift by Mint::kBits or more leaves only the sign; a left shift that loses nothing multiplies. */
  lemma ShiftResults(a: int64, b: int64)
    ensures b >= MintBits ==> EvalIntOp(ShrOp, a, b) == Ok(IntResult(if a < 0 then -1 else 0))
    ensures 0 <= b < 64 && IsInt64(a * Pow2(b)) ==> EvalIntOp(ShlOp, a, b) == Ok(IntResult(a * Pow2(b)))
  {
    if b >= MintBits {
      ShrLeavesSign(a, b);
    }
    if 0 <= b < 64 && IsInt64(a * Pow2(b)) {
      ShlExact(a, b);
    }
  }

  /** The bitwise bytecodes have the identities of their operators: a & -1, a | 0 are a, and a ^ a is 0. */
  lemma BitwiseResults(a: int64)
    ensures EvalIntOp(BitAndOp, a, -1) == Ok(IntResult(a))
    ensures EvalIntOp(BitOrOp, a, 0) == Ok(IntResult(a))
    ensures EvalIntOp(BitXorOp, a, a) == Ok(IntResult(0))
  {
    BitIdentities(a);
  }

  /**
   * Each bit of a bitwise bytecode's result, in the two's-complement word, is
   * the operator applied to the same bit of its operands.
   */
  lemma BitwiseBits(a: int64, b: int64, i: nat)
    requires i < BitsPerInt64
    ensures Bit(ToWord(EvalIntOp(BitAndOp, a, b).value.value), i) == BitOf(And, Bit(ToWord(a), i), Bit(ToWord(b), i))
    ensures Bit(ToWord(EvalIntOp(BitOrOp, a, b).value.value), i) == BitOf(Or, Bit(ToWord(a), i), Bit(ToWord(b), i))
    ensures Bit(ToWord(EvalIntOp(BitXorOp, a, b).value.value), i) == BitOf(Xor, Bit(ToWord(a), i), Bit(ToWord(b), i))
  {
    BitwiseIntBits(And, a, b, i);
    BitwiseIntBits(Or, a, b, i);
    BitwiseIntBits(Xor, a, b, i);
  }

  /** The four ordering comparisons agree: a > b is b < a, a >= b is not a < b, a <= b is not a > b. */
  lemma ComparisonsAgree(a: int64, b: int64)
    ensures EvalIntOp(GtOp, a, b) == EvalIntOp(LtOp, b, a)
    ensures EvalIntOp(GeOp, a, b) == Ok(BoolResult(!EvalIntOp(LtOp, a, b).value.b))
    ensures EvalIntOp(LeOp, a, b) == Ok(BoolResult(!EvalIntOp(GtOp, a, b).value.b))
  {
  }
}
