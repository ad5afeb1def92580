/**
 * The object values the interpreter keeps on its stack: Smis (immediate small
 * integers), boxed 64-bit integers (Mints), boxed doubles, null, the two
 * booleans, arguments descriptors, other heap objects, and raw words such as a
 * saved pc or frame pointer. Heap objects carry the address that identifies them.
 */
module Objects {
  import opened Int64

  /** A named argument in an arguments descriptor: its name and its index among all arguments. */
  datatype NamedArg = NamedArg(name: Symbol, position: nat)

  /** Interned symbols are compared by identity; they are identified by an integer here. */
  type Symbol = int

  /**
   * An arguments descriptor: the number of type arguments, of arguments (type
   * arguments excluded), of positional arguments, and the named arguments.
   */
  datatype ArgDesc = ArgDesc(typeArgsLen: nat, count: nat, positionalCount: nat, named: seq<NamedArg>) {
    predicate Valid() {
      positionalCount <= count && |named| == count - positionalCount &&
      forall k :: 0 <= k < |named| ==> named[k].position < count
    }

    function NamedCount(): int {
      count - positionalCount
    }
  }

  datatype ClassId = SmiCid | MintCid | DoubleCid | NullCid | BoolCid | ArrayCid | OtherCid(n: nat)

  datatype Obj =
    | Null
    | Bool(b: bool)
    | Smi(value: int)
    | Mint(addr: nat, value: int)
    | Dbl(addr: nat, bits: nat)
    | ArgsDesc(addr: nat, desc: ArgDesc)
    | Ref(addr: nat, cid: ClassId)
    | Raw(word: int)
  {
    /** RawObject::IsHeapObject: Smis and raw words are not heap pointers. */
    predicate IsHeapObject() {
      !Smi? && !Raw?
    }
  }

  function ClassIdOf(o: Obj): ClassId {
    match o
    case Null => NullCid
    case Bool(_) => BoolCid
    case Smi(_) => SmiCid
    case Mint(_, _) => MintCid
    case Dbl(_, _) => DoubleCid
    case ArgsDesc(_, _) => ArrayCid
    case Ref(_, cid) => cid
    case Raw(_) => SmiCid
  }

  /** The number of a class id; the VM's own numbering is not part of this model, only its injectivity matters. */
  function ClassIdNumber(c: ClassId): nat {
    match c
    case SmiCid => 0
    case MintCid => 1
    case DoubleCid => 2
    case NullCid => 3
    case BoolCid => 4
    case ArrayCid => 5
    case OtherCid(n) => n + 6
  }

  /** InterpreterHelpers::GetClassIdAsSmi: non-heap values report the Smi class. */
  function ClassIdAsSmi(o: Obj): (r: Obj)
    ensures r.Smi? && r.value >= 0
    ensures !o.IsHeapObject() ==> r == Smi(ClassIdNumber(SmiCid))
  {
    Smi(ClassIdNumber(ClassIdOf(o)))
  }

  lemma ClassIdNumberInjective(c: ClassId, d: ClassId)
    ensures ClassIdNumber(c) == ClassIdNumber(d) ==> c == d
  {
  }

  /**
   * An object is well formed when its payload fits its class: Smis hold Smi-range
   * values, Mints hold the int64 values outside that range, doubles hold a 64-bit
   * pattern, and a plain reference does not claim one of the number classes.
   */
  predicate WellFormed(o: Obj) {
    match o
    case Smi(v) => IsSmiValue(v)
    case Mint(_, v) => IsInt64(v) && !IsSmiValue(v)
    case Dbl(_, bits) => IsUInt64(bits)
    case Ref(_, cid) => cid != SmiCid && cid != MintCid && cid != DoubleCid && cid != NullCid && cid != BoolCid
    case _ => true
  }

  /** An integer object: a Smi or a Mint. */
  predicate IsInteger(o: Obj) {
    (o.Smi? || o.Mint?) && WellFormed(o)
  }

  /** The int64 an integer object holds (UNBOX_INT64 on a non-null operand). */
  function UnboxInt64(o: Obj): int64
    requires IsInteger(o)
  {
    match o
    case Smi(v) => v
    case Mint(_, v) => v
  }

  /** BOX_INT64_RESULT: a Smi when the value fits, otherwise a Mint at the given fresh address. */
  function BoxInt64(v: int64, addr: nat): (o: Obj)
    ensures IsInteger(o) && UnboxInt64(o) == v
  {
    if IsSmiValue(v) then Smi(v) else Mint(addr, v)
  }

  /** Boxing is canonical for small values: a value is a Smi exactly when it fits the Smi range. */
  lemma BoxIsCanonical(v: int64, addr: nat)
    ensures BoxInt64(v, addr).Smi? <==> IsSmiValue(v)
  {
  }

  /**
   * Interpreter::IsStrictEqualWithNumberCheck: identical objects are equal; two
   * doubles are equal when their bit patterns are; two Mints when their values are.
   */
  function IsStrictEqualWithNumberCheck(lhs: Obj, rhs: Obj): bool {
    if lhs == rhs then true
    else if lhs.IsHeapObject() && rhs.IsHeapObject() && ClassIdOf(lhs) == ClassIdOf(rhs) then
      match ClassIdOf(lhs)
      case DoubleCid => lhs.Dbl? && rhs.Dbl? && lhs.bits == rhs.bits
      case MintCid => lhs.Mint? && rhs.Mint? && lhs.value == rhs.value
      case _ => false
    else false
  }

  /**
   * Strict equality on boxed integers is integer equality, whatever addresses the
   * boxes were given: boxing never yields a Mint for a value that fits a Smi.
   */
  lemma StrictEqualOnBoxedIntegers(a: int64, b: int64, addrA: nat, addrB: nat)
    ensures IsStrictEqualWithNumberCheck(BoxInt64(a, addrA), BoxInt64(b, addrB)) <==> a == b
  {
  }

  /** Strict equality on two doubles is equality of their bit patterns, so NaN equals itself. */
  lemma StrictEqualOnDoubles(x: Obj, y: Obj)
    requires x.Dbl? && y.Dbl?
    ensures IsStrictEqualWithNumberCheck(x, y) <==> x.bits == y.bits
  {
  }

  /** Objects of different kinds, or a number against a non-number, are never strictly equal unless identical. */
  lemma StrictEqualOnOthers(x: Obj, y: Obj)
    requires WellFormed(x) && WellFormed(y)
    requires !(x.Dbl? && y.Dbl?) && !(x.Mint? && y.Mint?)
    ensures IsStrictEqualWithNumberCheck(x, y) <==> x == y
  {
  }

  /**
   * Interpreter::CheckIndex: the index is a Smi (not a heap object) and its value
   * lies in [0, length). The source compares the tagged words; tagging a Smi
   * doubles it, which keeps the order, so the comparison is on values here.
   */
  function CheckIndex(index: Obj, length: int): (ok: bool)
    ensures ok ==> index.Smi? && 0 <= index.value < length
    ensures index.Smi? && 0 <= index.value < length ==> ok
  {
    !index.IsHeapObject() && !index.Raw? && 2 * index.value >= 0 && 2 * index.value < 2 * length
  }

  /**
   * COMPARE_INT_EQ: identical operands are equal; otherwise a Smi or null operand
   * makes them unequal, and two Mints compare their values.
   */
  function CompareIntEq(lhs: Obj, rhs: Obj): bool
    requires (lhs.Null? || IsInteger(lhs)) && (rhs.Null? || IsInteger(rhs))
  {
    if lhs == rhs then true
    else if !lhs.IsHeapObject() || !rhs.IsHeapObject() || lhs.Null? || rhs.Null? then false
    else UnboxInt64(lhs) == UnboxInt64(rhs)
  }

  /** On boxed integers COMPARE_INT_EQ is integer equality, whatever the boxes' addresses. */
  lemma CompareIntEqOnBoxedIntegers(a: int64, b: int64, addrA: nat, addrB: nat)
    ensures CompareIntEq(BoxInt64(a, addrA), BoxInt64(b, addrB)) <==> a == b
  {
  }

  /** null compares equal only to null. */
  lemma CompareIntEqNull(o: Obj)
    requires o.Null? || IsInteger(o)
    ensures CompareIntEq(Null, o) <==> o.Null?
  {
  }
}
