/**
 * The 64-bit integer semantics of the interpreter's integer bytecodes:
 * two's-complement wrap-around for +, -, * and negation, Dart's truncating
 * division and always-non-negative modulo, shifts with argument checks, the
 * bitwise operators, the Smi range that decides boxing, and the split of a
 * 64-bit word into the two 32-bit halves the bytecode loader reads.
 *
 * Integers are unbounded here; every result is brought back into the int64
 * range explicitly.
 */
module Int64 {
  import opened Common

  const TwoTo32: int := 0x1_0000_0000
  const TwoTo62: int := 0x4000_0000_0000_0000
  const TwoTo63: int := 0x8000_0000_0000_0000
  const TwoTo64: int := 0x1_0000_0000_0000_0000
  const MinInt64: int := -TwoTo63
  const MaxInt64: int := TwoTo63 - 1

  /** Mint::kBits: value bits of a boxed 64-bit integer, the sign bit excluded. */
  const MintBits: nat := 63
  /** The width of int64_t; a left shift by this much or more yields 0. */
  const BitsPerInt64: nat := 64

  predicate IsInt64(x: int) {
    MinInt64 <= x <= MaxInt64
  }

  type int64 = x: int | MinInt64 <= x <= MaxInt64

  predicate IsUInt64(x: int) {
    0 <= x < TwoTo64
  }

  /** The errors an integer bytecode can throw instead of producing a value. */
  datatype IntError = DivisionByZero | NegativeShiftCount

  // ---------------------------------------------------------------------
  // Wrap-around

  /** Reduces an exact result to the int64 it wraps to. */
  function Wrap(x: int): (r: int64)
    ensures (x - r) % TwoTo64 == 0
    ensures IsInt64(x) ==> r == x
  {
    var m := (x + TwoTo63) % TwoTo64;
    assert x + TwoTo63 == ((x + TwoTo63) / TwoTo64) * TwoTo64 + m;
    DivisibleByMultiple((x + TwoTo63) / TwoTo64);
    m - TwoTo63
  }

  lemma DivisibleByMultiple(k: int)
    ensures (k * TwoTo64) % TwoTo64 == 0
  {
  }

  /** Two int64 values that differ by a multiple of 2^64 are equal. */
  lemma {:induction false} CongruentInt64Equal(a: int64, b: int64, k: int)
    requires a - b == k * TwoTo64
    ensures a == b
  {
  }

  /** Wrap is the only int64 congruent to x modulo 2^64. */
  lemma WrapUnique(x: int, r: int64, k: int)
    requires x - r == k * TwoTo64
    ensures Wrap(x) == r
  {
    var w := Wrap(x);
    var j := (x - w) / TwoTo64;
    assert x - w == j * TwoTo64;
    assert w - r == (k - j) * TwoTo64;
    CongruentInt64Equal(w, r, k - j);
  }

  /** Wrapping commutes with adding a multiple of 2^64. */
  lemma WrapShift(x: int, k: int)
    ensures Wrap(x + k * TwoTo64) == Wrap(x)
  {
    var w := Wrap(x);
    var j := (x - w) / TwoTo64;
    assert x - w == j * TwoTo64;
    assert x + k * TwoTo64 - w == (j + k) * TwoTo64;
    WrapUnique(x + k * TwoTo64, w, j + k);
  }

  function AddInt(a: int64, b: int64): int64 {
    Wrap(a + b)
  }

  function SubInt(a: int64, b: int64): int64 {
    Wrap(a - b)
  }

  function MulInt(a: int64, b: int64): int64 {
    Wrap(a * b)
  }

  /** NEGATE_INT is implemented as a wrapping subtraction from zero. */
  function NegateInt(a: int64): int64 {
    SubInt(0, a)
  }

  /** Wrapping subtraction is undone by wrapping addition, for every pair of inputs. */
  lemma AddUndoesSub(a: int64, b: int64)
    ensures AddInt(SubInt(a, b), b) == a
  {
    var d := SubInt(a, b);
    var j := (a - b - d) / TwoTo64;
    assert a - b - d == j * TwoTo64;
    assert d + b - a == (-j) * TwoTo64;
    WrapUnique(d + b, a, -j);
  }

  /** Negation is an involution on int64, including at MinInt64. */
  lemma NegateInvolutive(a: int64)
    ensures NegateInt(NegateInt(a)) == a
  {
    var n := NegateInt(a);
    var j := (0 - a - n) / TwoTo64;
    assert 0 - a - n == j * TwoTo64;
    assert 0 - n - a == j * TwoTo64;
    WrapUnique(0 - n, a, j);
  }

  /** MinInt64 is its own negation: the one input where wrap-around shows. */
  lemma NegateMinInt()
    ensures NegateInt(MinInt64) == MinInt64
  {
    WrapUnique(0 - MinInt64, MinInt64, 1);
  }

  // ---------------------------------------------------------------------
  // Division and remainder

  function Abs(x: int): nat {
    if x < 0 then -x else x
  }

  /** C++ integer division: the exact quotient truncated toward zero. */
  function CTruncDiv(a: int, b: int): int
    requires b != 0
  {
    var q := Abs(a) / Abs(b);
    if (a < 0) == (b < 0) then q else -q
  }

  /** C++ `%`: the remainder left by CTruncDiv, carrying the sign of the dividend. */
  function CTruncRem(a: int, b: int): int
    requires b != 0
  {
    a - CTruncDiv(a, b) * b
  }

  /** Truncating division leaves a remainder smaller than the divisor with the dividend's sign. */
  lemma CTruncDivSpec(a: int, b: int)
    requires b != 0
    ensures var r := CTruncRem(a, b);
      Abs(r) < Abs(b) && (r == 0 || (r < 0 <==> a < 0))
  {
    var q := Abs(a) / Abs(b);
    var m := Abs(a) % Abs(b);
    assert Abs(a) == q * Abs(b) + m;
    if a >= 0 && b > 0 {
      assert CTruncRem(a, b) == m;
    } else if a >= 0 && b < 0 {
      assert CTruncDiv(a, b) * b == q * Abs(b);
      assert CTruncRem(a, b) == m;
    } else if a < 0 && b > 0 {
      assert CTruncDiv(a, b) * b == -(q * Abs(b));
      assert CTruncRem(a, b) == -m;
    } else {
      assert CTruncDiv(a, b) * b == -(q * Abs(b));
      assert CTruncRem(a, b) == -m;
    }
  }

  /** The truncated quotient never exceeds the dividend in magnitude. */
  lemma CTruncDivBound(a: int, b: int)
    requires b != 0
    ensures Abs(CTruncDiv(a, b)) <= Abs(a)
  {
    var q := Abs(a) / Abs(b);
    assert q * Abs(b) <= Abs(a);
    assert q <= q * Abs(b);
  }

  /** TRUNCDIV_INT: throws on a zero divisor, maps MinInt64 ~/ -1 to MinInt64. */
  function TruncDivInt(a: int64, b: int64): Result<int64, IntError> {
    if b == 0 then Err(DivisionByZero)
    else if a == MinInt64 && b == -1 then Ok(MinInt64)
    else
      CTruncDivBound(a, b);
      Ok(CTruncDiv(a, b))
  }

  /**
   * Every non-error result of TruncDivInt is the truncated quotient wrapped to
   * int64: the special case for MinInt64 ~/ -1 is exactly its wrap-around.
   */
  lemma {:induction false} TruncDivIsWrappedQuotient(a: int64, b: int64)
    requires b != 0
    ensures TruncDivInt(a, b) == Ok(Wrap(CTruncDiv(a, b)))
  {
    if a == MinInt64 && b == -1 {
      assert Abs(b) == 1 && Abs(a) == TwoTo63;
      assert CTruncDiv(a, b) == TwoTo63;
      WrapUnique(TwoTo63, MinInt64, 1);
    } else {
      CTruncDivBound(a, b);
    }
  }

  lemma DivMonotone(n: nat, d1: nat, d2: nat)
    requires 0 < d1 <= d2
    ensures n / d2 <= n / d1
  {
    var q1, q2 := n / d1, n / d2;
    assert q2 * d2 <= n;
    MulMonotone(d1, d2, q2);
    assert n < (q1 + 1) * d1;
    if q2 > q1 {
      MulMonotone(q1 + 1, q2, d1);
    }
  }

  /** MOD_INT: a C remainder moved into [0, |b|) by adding or subtracting b. */
  function ModInt(a: int64, b: int64): Result<int64, IntError> {
    if b == 0 then Err(DivisionByZero)
    else if a == MinInt64 && b == -1 then Ok(0)
    else
      var r := CTruncRem(a, b);
      CTruncDivSpec(a, b);
      if r < 0 then
        if b < 0 then Ok(r - b) else Ok(r + b)
      else Ok(r)
  }

  /**
   * The remainder is the mathematical (Euclidean) one, for every int64 pair with
   * a non-zero divisor: it lies in [0, |b|) and differs from a by a multiple of b.
   */
  lemma {:induction false} ModIntIsEuclidean(a: int64, b: int64)
    requires b != 0
    ensures ModInt(a, b) == Ok(a % b)
    ensures 0 <= a % b < Abs(b)
  {
    if a == MinInt64 && b == -1 {
      EuclideanRemUnique(a, b, -(a as int), 0);
    } else {
      CTruncDivSpec(a, b);
      var q := CTruncDiv(a, b);
      var r := CTruncRem(a, b);
      assert a == q * b + r;
      if r < 0 {
        if b < 0 {
          assert a == (q + 1) * b + (r - b);
          EuclideanRemUnique(a, b, q + 1, r - b);
        } else {
          assert a == (q - 1) * b + (r + b);
          EuclideanRemUnique(a, b, q - 1, r + b);
        }
      } else {
        EuclideanRemUnique(a, b, q, r);
      }
    }
  }

  /** A remainder in [0, |b|) is unique: it is Dafny's a % b. */
  lemma EuclideanRemUnique(a: int, b: int, q: int, r: int)
    requires b != 0 && 0 <= r < Abs(b) && a == q * b + r
    ensures r == a % b
  {
    var q0, r0 := a / b, a % b;
    assert a == q0 * b + r0;
    assert (q - q0) * b == r0 - r by {
      assert q * b - q0 * b == (q - q0) * b;
    }
    SmallMultipleIsZero(q - q0, b);
  }

  lemma MulMonotone(x: int, y: int, d: nat)
    requires x <= y
    ensures x * d <= y * d
  {
  }

  /** The only multiple of d strictly inside (-|d|, |d|) is zero. */
  lemma SmallMultipleIsZero(k: int, d: int)
    requires d != 0 && -(Abs(d) as int) < k * d < Abs(d)
    ensures k == 0
  {
    if k >= 1 {
      MulMonotone(1, k, Abs(d));
    } else if k <= -1 {
      MulMonotone(1, -k, Abs(d));
    }
  }

  // ---------------------------------------------------------------------
  // Shifts

  function Pow2(n: nat): (r: nat)
    ensures r >= 1
  {
    if n == 0 then 1 else 2 * Pow2(n - 1)
  }

  lemma {:induction false} Pow2Monotone(m: nat, n: nat)
    requires m <= n
    ensures Pow2(m) <= Pow2(n)
  {
    if m < n {
      Pow2Monotone(m, n - 1);
    }
  }

  lemma Pow2Of63()
    ensures Pow2(63) == TwoTo63
  {
    assert Pow2(32) == TwoTo32 by {
      assert Pow2(8) == 256;
      assert Pow2(16) == 65536;
    }
    assert Pow2(63) == Pow2(31) * Pow2(32) by { Pow2Add(31, 32); }
  }

  lemma {:induction false} Pow2Add(m: nat, n: nat)
    ensures Pow2(m + n) == Pow2(m) * Pow2(n)
  {
    if n > 0 {
      Pow2Add(m, n - 1);
      assert Pow2(m + n) == 2 * Pow2(m + n - 1);
    }
  }

  /**
   * Utils::ShiftLeftWithTruncation: the bits shifted past bit 63 are dropped and
   * a shift by 64 or more leaves nothing.
   */
  function ShiftLeftWithTruncation(a: int64, b: nat): int64 {
    if b >= BitsPerInt64 then 0 else Wrap(a * Pow2(b))
  }

  /** SHL_INT: a negative count throws; otherwise the truncating left shift. */
  function ShlInt(a: int64, b: int64): Result<int64, IntError> {
    if b < 0 then Err(NegativeShiftCount) else Ok(ShiftLeftWithTruncation(a, b))
  }

  /** When nothing is shifted out, the left shift is multiplication by 2^b. */
  lemma ShlExact(a: int64, b: int64)
    requires 0 <= b < 64 && IsInt64(a * Pow2(b))
    ensures ShlInt(a, b) == Ok(a * Pow2(b))
  {
  }

  /**
   * The arithmetic right shift of a by s: a / 2^s rounded toward negative
   * infinity, which never grows the magnitude of a.
   */
  function ArithmeticShiftRight(a: int64, s: nat): (r: int64)
    requires s <= MintBits
    ensures r * Pow2(s) <= a < (r + 1) * Pow2(s)
    ensures Abs(r) <= Abs(a)
  {
    var d := Pow2(s);
    FloorDivBounds(a, d);
    assert a == (a / d) * d + a % d;
    a / d
  }

  /** Floor division by a positive divisor moves a value toward zero, never past it. */
  lemma FloorDivBounds(a: int, d: int)
    requires d >= 1
    ensures a >= 0 ==> 0 <= a / d <= a
    ensures a < 0 ==> a <= a / d < 0
  {
    var q, m := a / d, a % d;
    assert a == q * d + m && 0 <= m < d;
    if q >= 1 {
      MulMonotone(1, d, q);
    } else if q <= -1 {
      MulMonotone(1, d, -q);
      if q + 1 <= a {
        NonPositiveScale(q + 1, d);
      }
    }
  }

  lemma NonPositiveScale(x: int, d: int)
    requires x <= 0 && d >= 1
    ensures x * d <= x
    ensures (x - 1) * d == x * d - d
  {
    MulMonotone(1, d, -x);
  }

  /** SHR_INT: a negative count throws; the count is clamped at Mint::kBits. */
  function ShrInt(a: int64, b: int64): Result<int64, IntError> {
    if b < 0 then Err(NegativeShiftCount) else Ok(ArithmeticShiftRight(a, Min(b, MintBits)))
  }

  /** Shifting right by 63 or more leaves only the sign: -1 for negatives, 0 otherwise. */
  lemma {:induction false} ShrLeavesSign(a: int64, b: int64)
    requires b >= MintBits
    ensures ShrInt(a, b) == Ok(if a < 0 then -1 else 0)
  {
    Pow2Of63();
    var q := a / TwoTo63;
    assert a == q * TwoTo63 + a % TwoTo63;

  }

  // ---------------------------------------------------------------------
  // Two's-complement words and bitwise operators

  /** The unsigned 64-bit word holding an int64 in two's complement. */
  function ToWord(a: int64): (w: nat)
    ensures IsUInt64(w)
  {
    if a < 0 then a + TwoTo64 else a
  }

  /** The int64 whose two's-complement word is w. */
  function FromWord(w: nat): int64
    requires IsUInt64(w)
  {
    if w >= TwoTo63 then w - TwoTo64 else w
  }

  lemma WordRoundTrip(a: int64, w: nat)
    requires IsUInt64(w)
    ensures FromWord(ToWord(a)) == a
    ensures ToWord(FromWord(w)) == w
  {
  }

  /** The three bitwise operators of the integer bytecodes. */
  datatype BitOp = And | Or | Xor

  function BitOf(op: BitOp, x: nat, y: nat): nat {
    match op
    case And => if x == 1 && y == 1 then 1 else 0
    case Or => if x == 1 || y == 1 then 1 else 0
    case Xor => if x != y then 1 else 0
  }

  /** The op applied to the n low bits of two words, bit by bit from the least significant. */
  function BitwiseWord(op: BitOp, x: nat, y: nat, n: nat): nat {
    if n == 0 then 0
    else BitOf(op, x % 2, y % 2) + 2 * BitwiseWord(op, x / 2, y / 2, n - 1)
  }

  /** The result of an n-bit operation fits in n bits. */
  lemma {:induction false} BitwiseWordBound(op: BitOp, x: nat, y: nat, n: nat)
    ensures BitwiseWord(op, x, y, n) < Pow2(n)
  {
    if n > 0 {
      BitwiseWordBound(op, x / 2, y / 2, n - 1);
    }
  }

  lemma Pow2Of64()
    ensures Pow2(64) == TwoTo64
  {
    Pow2Of63();
  }

  /** BIT_AND_INT, BIT_OR_INT, BIT_XOR_INT: the operator on the two's-complement words. */
  function BitwiseInt(op: BitOp, a: int64, b: int64): int64 {
    Pow2Of64();
    BitwiseWordBound(op, ToWord(a), ToWord(b), BitsPerInt64);
    FromWord(BitwiseWord(op, ToWord(a), ToWord(b), BitsPerInt64))
  }

  lemma {:induction false} AndAllOnes(x: nat, n: nat)
    requires x < Pow2(n)
    ensures BitwiseWord(And, x, Pow2(n) - 1, n) == x
  {
    if n > 0 {
      assert (Pow2(n) - 1) / 2 == Pow2(n - 1) - 1;
      AndAllOnes(x / 2, n - 1);
    }
  }

  lemma {:induction false} OrZero(x: nat, n: nat)
    requires x < Pow2(n)
    ensures BitwiseWord(Or, x, 0, n) == x
  {
    if n > 0 {
      OrZero(x / 2, n - 1);
    }
  }

  lemma {:induction false} XorSelf(x: nat, n: nat)
    ensures BitwiseWord(Xor, x, x, n) == 0
  {
    if n > 0 {
      XorSelf(x / 2, n - 1);
    }
  }

  /** Bit i of a word, counting from the least significant. */
  function Bit(x: nat, i: nat): (b: nat)
    ensures b < 2
  {
    (x / Pow2(i)) % 2
  }

  /** The quotient and remainder of x by d are the only ones with the remainder in [0, d). */
  lemma DivUnique(x: nat, d: nat, q: nat, m: nat)
    requires d > 0 && x == q * d + m && m < d
    ensures x / d == q
  {
    var q0, m0 := x / d, x % d;
    assert x == q0 * d + m0;
    assert (q - q0) * d == m0 - m by {
      assert q * d - q0 * d == (q - q0) * d;
    }
    SmallMultipleIsZero(q - q0, d);
  }

  /** Dividing by a then by b is dividing by a * b. */
  lemma DivDiv(x: nat, a: nat, b: nat)
    requires a > 0 && b > 0
    ensures x / (a * b) == (x / a) / b
  {
    var q, r := x / a, x % a;
    var q2, r2 := q / b, q % b;
    assert x == q * a + r;
    assert q == q2 * b + r2;
    assert x == q2 * (a * b) + (r2 * a + r) by {
      assert q * a == q2 * b * a + r2 * a;
    }
    assert r2 * a + r < a * b by {
      MulMonotone(r2, b - 1, a);
      assert (b - 1) * a == a * b - a;
    }
    DivUnique(x, a * b, q2, r2 * a + r);
  }

  /** Bit i of a word is bit i - 1 of its half. */
  lemma HalveBit(x: nat, i: nat)
    requires i > 0
    ensures Bit(x, i) == Bit(x / 2, i - 1)
  {
    DivDiv(x, 2, Pow2(i - 1));
  }

  /** Bit i of an n-bit operation's result is the operator applied to bit i of each operand. */
  lemma {:induction false} BitwiseWordBit(op: BitOp, x: nat, y: nat, n: nat, i: nat)
    requires i < n
    ensures Bit(BitwiseWord(op, x, y, n), i) == BitOf(op, Bit(x, i), Bit(y, i))
  {
    var w := BitwiseWord(op, x, y, n);
    var rest := BitwiseWord(op, x / 2, y / 2, n - 1);
    assert w == BitOf(op, x % 2, y % 2) + 2 * rest;
    if i == 0 {
      assert Bit(w, 0) == w % 2 && Bit(x, 0) == x % 2 && Bit(y, 0) == y % 2;
    } else {
      BitwiseWordBit(op, x / 2, y / 2, n - 1, i - 1);
      HalveBit(w, i);
      HalveBit(x, i);
      HalveBit(y, i);
      assert w / 2 == rest;
    }
  }

  /**
   * BIT_AND_INT, BIT_OR_INT and BIT_XOR_INT work bit by bit: each of the 64
   * bits of the result's two's-complement word is the operator applied to the
   * same bit of the operands' words.
   */
  lemma BitwiseIntBits(op: BitOp, a: int64, b: int64, i: nat)
    requires i < BitsPerInt64
    ensures Bit(ToWord(BitwiseInt(op, a, b)), i) == BitOf(op, Bit(ToWord(a), i), Bit(ToWord(b), i))
  {
    Pow2Of64();
    var w := BitwiseWord(op, ToWord(a), ToWord(b), BitsPerInt64);
    BitwiseWordBound(op, ToWord(a), ToWord(b), BitsPerInt64);
    WordRoundTrip(0, w);
    BitwiseWordBit(op, ToWord(a), ToWord(b), BitsPerInt64, i);
  }

  /** The identities of the bitwise operators hold of the int64 model. */
  lemma BitIdentities(a: int64)
    ensures BitwiseInt(And, a, -1) == a
    ensures BitwiseInt(Or, a, 0) == a
    ensures BitwiseInt(Xor, a, a) == 0
  {
    Pow2Of64();
    AndAllOnes(ToWord(a), 64);
    OrZero(ToWord(a), 64);
    XorSelf(ToWord(a), 64);
  }

  // ---------------------------------------------------------------------
  // The two 32-bit halves of a pool constant

  /** The 64-bit word a pool constant stores as a low and a high 32-bit half. */
  function CombineHalves(low: nat, high: nat): (w: nat)
    requires low < TwoTo32 && high < TwoTo32
    ensures IsUInt64(w)
    ensures w % TwoTo32 == low && w / TwoTo32 == high
  {
    high * TwoTo32 + low
  }

  /** The integer constant of a kInt pool entry: the combined word read as int64. */
  function Int64FromHalves(low: nat, high: nat): int64
    requires low < TwoTo32 && high < TwoTo32
  {
    FromWord(CombineHalves(low, high))
  }

  /** The halves an integer constant is written as. */
  function HalvesOf(v: int64): (nat, nat) {
    (ToWord(v) % TwoTo32, ToWord(v) / TwoTo32)
  }

  /** Every int64 survives the split into halves and the recombination. */
  lemma HalvesRoundTrip(v: int64)
    ensures HalvesOf(v).0 < TwoTo32 && HalvesOf(v).1 < TwoTo32
    ensures Int64FromHalves(HalvesOf(v).0, HalvesOf(v).1) == v
  {
    var w := ToWord(v);
    assert w == (w / TwoTo32) * TwoTo32 + w % TwoTo32;
  }

  /** And every pair of halves is the split of the integer it decodes to. */
  lemma HalvesDecodeRoundTrip(low: nat, high: nat)
    requires low < TwoTo32 && high < TwoTo32
    ensures HalvesOf(Int64FromHalves(low, high)) == (low, high)
  {
    WordRoundTrip(0, CombineHalves(low, high));
  }

  // ---------------------------------------------------------------------
  // Smi range

  /** Smi::IsValid on a 64-bit target: 62 value bits plus sign. */
  predicate IsSmiValue(v: int) {
    -TwoTo62 <= v < TwoTo62
  }
}
