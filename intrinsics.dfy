/**
 * The interpreter's intrinsic table and the array intrinsics it installs. An
 * intrinsic either produces the call's result (and the call completes without
 * running the callee's bytecode) or declines, and the callee runs as usual.
 */
module Intrinsics {
  import opened Common
  import opened Objects

  /** The intrinsic ids Interpreter::InitOnce installs a handler for; each handler is named after its id. */
  datatype Intrinsic =
    | ObjectArraySetIndexed | ObjectArraySetIndexedUnchecked | ObjectArrayGetIndexed
    | GrowableArraySetIndexed | GrowableArraySetIndexedUnchecked | GrowableArrayGetIndexed
    | ObjectEquals | ObjectRuntimeType
    | DoubleGetIsNaN | DoubleGetIsInfinite | DoubleAdd | DoubleMul | DoubleSub | DoubleDiv
    | DoubleGreaterThan | DoubleGreaterEqualThan | DoubleLessThan | DoubleEqual | DoubleLessEqualThan
    | ClearAsyncThreadStackTrace | SetAsyncThreadStackTrace

  /**
   * The positions of the installed ids in the IntrinsicId enumeration, which is
   * generated from intrinsic lists outside this model: any injective placement
   * below the table size.
   */
  predicate ValidNumbering(idOf: Intrinsic -> nat, count: nat) {
    (forall h :: idOf(h) < count) &&
    (forall h1, h2 :: idOf(h1) == idOf(h2) ==> h1 == h2)
  }

  /** Interpreter::intrinsics_: one slot per intrinsic id, empty (NULL) or holding a handler. */
  class IntrinsicTable {
    var handlers: array<Option<Intrinsic>>

    /** The table before InitOnce: kIntrinsicCount empty slots. */
    constructor(count: nat)
      ensures fresh(handlers) && handlers.Length == count
    {
      handlers := new Option<Intrinsic>[count](_ => None);
    }

    /** Interpreter::IsSupportedIntrinsic: the id's slot holds a handler. */
    predicate IsSupportedIntrinsic(id: nat)
      requires id < handlers.Length
      reads this, handlers
    {
      handlers[id] != None
    }

    /** Every installed id's slot holds its handler, and every filled slot is the slot of its handler's id. */
    predicate Installed(idOf: Intrinsic -> nat, installed: seq<Intrinsic>)
      requires ValidNumbering(idOf, handlers.Length)
      reads this, handlers
    {
      (forall k :: 0 <= k < |installed| ==> handlers[idOf(installed[k])] == Some(installed[k])) &&
      (forall i :: 0 <= i < handlers.Length && handlers[i] != None ==> idOf(handlers[i].value) == i)
    }

    /** One assignment of InitOnce: puts the handler of h into the slot of h's id. */
    method Install(idOf: Intrinsic -> nat, h: Intrinsic, ghost installed: seq<Intrinsic>)
      requires ValidNumbering(idOf, handlers.Length) && Installed(idOf, installed)
      modifies handlers
      ensures Installed(idOf, installed + [h])
    {
      handlers[idOf(h)] := Some(h);
    }

    /** Interpreter::InitOnce: clears every slot, then installs the handlers named in the source. */
    method InitOnce(idOf: Intrinsic -> nat)
      requires ValidNumbering(idOf, handlers.Length)
      modifies handlers
      ensures forall h :: handlers[idOf(h)] == Some(h)
      ensures forall i :: 0 <= i < handlers.Length && handlers[i] != None ==> idOf(handlers[i].value) == i
    {
      var i := 0;
      while i < handlers.Length
        invariant 0 <= i <= handlers.Length
        invariant forall k :: 0 <= k < i ==> handlers[k] == None
      {
        handlers[i] := None;
        i := i + 1;
      }
      ghost var installed: seq<Intrinsic> := [];
      InstallArrayIntrinsics(idOf, installed);
      installed := installed + ArrayIntrinsics();
      InstallObjectIntrinsics(idOf, installed);
      installed := installed + ObjectIntrinsics();
      InstallDoubleArithmetic(idOf, installed);
      installed := installed + DoubleArithmeticIntrinsics();
      InstallDoubleComparisons(idOf, installed);
      installed := installed + DoubleComparisonIntrinsics();
      InstallStackTraceIntrinsics(idOf, installed);
      installed := installed + StackTraceIntrinsics();
      assert installed == InstallOrder();
      AllInstalled(idOf);
    }

    /** InitOnce, in source order: the array get/set intrinsics. */
    method InstallArrayIntrinsics(idOf: Intrinsic -> nat, ghost prior: seq<Intrinsic>)
      requires ValidNumbering(idOf, handlers.Length) && Installed(idOf, prior)
      modifies handlers
      ensures Installed(idOf, prior + ArrayIntrinsics())
    {
      ghost var installed := prior;
      Install(idOf, ObjectArraySetIndexed, installed);
      installed := installed + [ObjectArraySetIndexed];
      Install(idOf, ObjectArraySetIndexedUnchecked, installed);
      installed := installed + [ObjectArraySetIndexedUnchecked];
      Install(idOf, ObjectArrayGetIndexed, installed);
      installed := installed + [ObjectArrayGetIndexed];
      Install(idOf, GrowableArraySetIndexed, installed);
      installed := installed + [GrowableArraySetIndexed];
      Install(idOf, GrowableArraySetIndexedUnchecked, installed);
      installed := installed + [GrowableArraySetIndexedUnchecked];
      Install(idOf, GrowableArrayGetIndexed, installed);
      installed := installed + [GrowableArrayGetIndexed];
      assert installed == prior + ArrayIntrinsics();
    }

    /** InitOnce, in source order: the Object intrinsics, equality and the runtime type. */
    method InstallObjectIntrinsics(idOf: Intrinsic -> nat, ghost prior: seq<Intrinsic>)
      requires ValidNumbering(idOf, handlers.Length) && Installed(idOf, prior)
      modifies handlers
      ensures Installed(idOf, prior + ObjectIntrinsics())
    {
      ghost var installed := prior;
      Install(idOf, ObjectEquals, installed);
      installed := installed + [ObjectEquals];
      Install(idOf, ObjectRuntimeType, installed);
      installed := installed + [ObjectRuntimeType];
      assert installed == prior + ObjectIntrinsics();
    }

    /** InitOnce, in source order: the double tests and arithmetic. */
    method InstallDoubleArithmetic(idOf: Intrinsic -> nat, ghost prior: seq<Intrinsic>)
      requires ValidNumbering(idOf, handlers.Length) && Installed(idOf, prior)
      modifies handlers
      ensures Installed(idOf, prior + DoubleArithmeticIntrinsics())
    {
      ghost var installed := prior;
      Install(idOf, DoubleGetIsNaN, installed);
      installed := installed + [DoubleGetIsNaN];
      Install(idOf, DoubleGetIsInfinite, installed);
      installed := installed + [DoubleGetIsInfinite];
      Install(idOf, DoubleAdd, installed);
      installed := installed + [DoubleAdd];
      Install(idOf, DoubleMul, installed);
      installed := installed + [DoubleMul];
      Install(idOf, DoubleSub, installed);
      installed := installed + [DoubleSub];
      Install(idOf, DoubleDiv, installed);
      installed := installed + [DoubleDiv];
      assert installed == prior + DoubleArithmeticIntrinsics();
    }

    /** InitOnce, in source order: the double comparisons. */
    method InstallDoubleComparisons(idOf: Intrinsic -> nat, ghost prior: seq<Intrinsic>)
      requires ValidNumbering(idOf, handlers.Length) && Installed(idOf, prior)
      modifies handlers
      ensures Installed(idOf, prior + DoubleComparisonIntrinsics())
    {
      ghost var installed := prior;
      Install(idOf, DoubleGreaterThan, installed);
      installed := installed + [DoubleGreaterThan];
      Install(idOf, DoubleGreaterEqualThan, installed);
      installed := installed + [DoubleGreaterEqualThan];
      Install(idOf, DoubleLessThan, installed);
      installed := installed + [DoubleLessThan];
      Install(idOf, DoubleEqual, installed);
      installed := installed + [DoubleEqual];
      Install(idOf, DoubleLessEqualThan, installed);
      installed := installed + [DoubleLessEqualThan];
      assert installed == prior + DoubleComparisonIntrinsics();
    }

    /** InitOnce, in source order: the async stack-trace intrinsics. */
    method InstallStackTraceIntrinsics(idOf: Intrinsic -> nat, ghost prior: seq<Intrinsic>)
      requires ValidNumbering(idOf, handlers.Length) && Installed(idOf, prior)
      modifies handlers
      ensures Installed(idOf, prior + StackTraceIntrinsics())
    {
      ghost var installed := prior;
      Install(idOf, ClearAsyncThreadStackTrace, installed);
      installed := installed + [ClearAsyncThreadStackTrace];
      Install(idOf, SetAsyncThreadStackTrace, installed);
      installed := installed + [SetAsyncThreadStackTrace];
      assert installed == prior + StackTraceIntrinsics();
    }

    /** Once every id is installed, each id's slot holds its handler. */
    lemma AllInstalled(idOf: Intrinsic -> nat)
      requires ValidNumbering(idOf, handlers.Length) && Installed(idOf, InstallOrder())
      ensures forall h :: handlers[idOf(h)] == Some(h)
    {
      forall h
        ensures handlers[idOf(h)] == Some(h)
      {
        EveryIntrinsicListed(h);
      }
    }
  }

  function ArrayIntrinsics(): seq<Intrinsic> {
    [ObjectArraySetIndexed, ObjectArraySetIndexedUnchecked, ObjectArrayGetIndexed, GrowableArraySetIndexed, GrowableArraySetIndexedUnchecked, GrowableArrayGetIndexed]
  }

  function ObjectIntrinsics(): seq<Intrinsic> {
    [ObjectEquals, ObjectRuntimeType]
  }

  function DoubleArithmeticIntrinsics(): seq<Intrinsic> {
    [DoubleGetIsNaN, DoubleGetIsInfinite, DoubleAdd, DoubleMul, DoubleSub, DoubleDiv]
  }

  function DoubleComparisonIntrinsics(): seq<Intrinsic> {
    [DoubleGreaterThan, DoubleGreaterEqualThan, DoubleLessThan, DoubleEqual, DoubleLessEqualThan]
  }

  function StackTraceIntrinsics(): seq<Intrinsic> {
    [ClearAsyncThreadStackTrace, SetAsyncThreadStackTrace]
  }

  /** The ids InitOnce installs, in the order it installs them. */
  function InstallOrder(): seq<Intrinsic> {
    ArrayIntrinsics() + ObjectIntrinsics() + DoubleArithmeticIntrinsics() + DoubleComparisonIntrinsics() +
    StackTraceIntrinsics()
  }

  /** Every intrinsic id has a handler that InitOnce installs. */
  lemma EveryIntrinsicListed(h: Intrinsic)
    ensures h in InstallOrder()
  {
  }

  /** A growable array: its length (a Smi) and its backing array, whose capacity covers the length. */
  class GrowableObjectArray {
    var length: int
    var data: array<Obj>

    predicate Valid()
      reads this
    {
      0 <= length <= data.Length
    }

    constructor(data: array<Obj>, length: int)
      requires 0 <= length <= data.Length
      ensures Valid() && this.data == data && this.length == length
    {
      this.data := data;
      this.length := length;
    }
  }

  /** ObjectArrayGetIndexed: the element when the index is a Smi within the array; declines otherwise. */
  method ObjectArrayGetIndexedIntrinsic(arr: array<Obj>, index: Obj) returns (result: Option<Obj>)
    ensures result.Some? <==> index.Smi? && 0 <= index.value < arr.Length
    ensures result.Some? ==> result.value == arr[index.value]
  {
    if CheckIndex(index, arr.Length) {
      return Some(arr[index.value]);
    }
    return None;
  }

  /** ObjectArraySetIndexedUnchecked: stores the value when the index is a Smi within the array. */
  method ObjectArraySetIndexedUncheckedIntrinsic(arr: array<Obj>, index: Obj, value: Obj) returns (ok: bool)
    modifies arr
    ensures ok <==> index.Smi? && 0 <= index.value < arr.Length
    ensures ok ==> arr[..] == old(arr[..])[index.value := value]
    ensures !ok ==> arr[..] == old(arr[..])
  {
    ok := CheckIndex(index, arr.Length);
    if ok {
      arr[index.value] := value;
    }
  }

  /** ObjectArraySetIndexed: declines whenever the isolate checks types, else the unchecked store. */
  method ObjectArraySetIndexedIntrinsic(typeChecks: bool, arr: array<Obj>, index: Obj, value: Obj) returns (ok: bool)
    modifies arr
    ensures ok <==> !typeChecks && index.Smi? && 0 <= index.value < arr.Length
    ensures ok ==> arr[..] == old(arr[..])[index.value := value]
    ensures !ok ==> arr[..] == old(arr[..])
  {
    ok := false;
    if !typeChecks {
      ok := ObjectArraySetIndexedUncheckedIntrinsic(arr, index, value);
    }
  }

  /** GrowableArrayGetIndexed: bounds are the growable length, not the backing array's capacity. */
  method GrowableArrayGetIndexedIntrinsic(arr: GrowableObjectArray, index: Obj) returns (result: Option<Obj>)
    requires arr.Valid()
    ensures result.Some? <==> index.Smi? && 0 <= index.value < arr.length
    ensures result.Some? ==> result.value == arr.data[index.value]
  {
    if CheckIndex(index, arr.length) {
      return Some(arr.data[index.value]);
    }
    return None;
  }

  /** GrowableArraySetIndexedUnchecked: stores into the backing array when the index is below the length. */
  method GrowableArraySetIndexedUncheckedIntrinsic(arr: GrowableObjectArray, index: Obj, value: Obj) returns (ok: bool)
    requires arr.Valid()
    modifies arr.data
    ensures ok <==> index.Smi? && 0 <= index.value < arr.length
    ensures ok ==> arr.data[..] == old(arr.data[..])[index.value := value]
    ensures !ok ==> arr.data[..] == old(arr.data[..])
  {
    ok := CheckIndex(index, arr.length);
    if ok {
      arr.data[index.value] := value;
    }
  }

  /** GrowableArraySetIndexed: declines whenever the isolate checks types, else the unchecked store. */
  method GrowableArraySetIndexedIntrinsic(typeChecks: bool, arr: GrowableObjectArray, index: Obj, value: Obj)
    returns (ok: bool)
    requires arr.Valid()
    modifies arr.data
    ensures ok <==> !typeChecks && index.Smi? && 0 <= index.value < arr.length
    ensures ok ==> arr.data[..] == old(arr.data[..])[index.value := value]
    ensures !ok ==> arr.data[..] == old(arr.data[..])
  {
    ok := false;
    if !typeChecks {
      ok := GrowableArraySetIndexedUncheckedIntrinsic(arr, index, value);
    }
  }

  /** A store through the set intrinsic is read back by the get intrinsic at the same index. */
  method ObjectArraySetThenGet(arr: array<Obj>, index: Obj, value: Obj) returns (read: Option<Obj>)
    modifies arr
    ensures index.Smi? && 0 <= index.value < arr.Length ==> read == Some(value)
    ensures !(index.Smi? && 0 <= index.value < arr.Length) ==> read == None && arr[..] == old(arr[..])
  {
    var _ := ObjectArraySetIndexedUncheckedIntrinsic(arr, index, value);
    read := ObjectArrayGetIndexedIntrinsic(arr, index);
  }

  /** ObjectEquals: identity of the two arguments, as a Dart boolean. */
  function ObjectEqualsIntrinsic(receiver: Obj, other: Obj): (r: Obj)
    ensures r.Bool? && (r.b <==> receiver == other)
  {
    if receiver == other then Bool(true) else Bool(false)
  }
}
