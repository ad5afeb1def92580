/**
 * The instance fields the NativeCall bytecode reads and writes in place of a
 * call to a recognized native method, and which kinds it handles that way.
 */
module NativeCalls {
  import opened Common
  import opened Objects
  import opened NativeEntries

  /** The instance fields touched by NativeCall's inline cases, one per offset the source reads or writes. */
  datatype Field =
    | StringLength
    | GrowableArrayLengthField | GrowableArrayData
    | ArrayLength
    | TypedDataLengthField
    | MapIndex | MapData | MapHashMask | MapUsedData | MapDeletedKeys

  /** The field a getter case of NativeCall loads from the receiver on top of the stack. */
  function LoadedField(k: MethodKind): (f: Option<Field>)
    ensures f.Some? ==> InNativeEntryList(k)
  {
    match k
    case StringBaseLength => Some(StringLength)
    case GrowableArrayLength => Some(GrowableArrayLengthField)
    case ObjectArrayLength => Some(ArrayLength)
    case ImmutableArrayLength => Some(ArrayLength)
    case TypedDataLength => Some(TypedDataLengthField)
    case LinkedHashMapGetIndex => Some(MapIndex)
    case LinkedHashMapGetData => Some(MapData)
    case LinkedHashMapGetHashMask => Some(MapHashMask)
    case LinkedHashMapGetUsedData => Some(MapUsedData)
    case LinkedHashMapGetDeletedKeys => Some(MapDeletedKeys)
    case _ => None
  }

  /** The field a setter case of NativeCall stores into the instance below the top of the stack. */
  function StoredField(k: MethodKind): (f: Option<Field>)
    ensures f.Some? ==> InNativeEntryList(k)
  {
    match k
    case LinkedHashMapSetIndex => Some(MapIndex)
    case LinkedHashMapSetData => Some(MapData)
    case LinkedHashMapSetHashMask => Some(MapHashMask)
    case LinkedHashMapSetUsedData => Some(MapUsedData)
    case LinkedHashMapSetDeletedKeys => Some(MapDeletedKeys)
    case _ => None
  }

  /**
   * The case labels of NativeCall's switch: the kinds it handles without
   * calling the native function.
   */
  predicate HandledInline(k: MethodKind) {
    k == ObjectEquals || k == StringBaseIsEmpty || k == ClassIDgetID || k == GrowableArrayCapacity ||
    k == ListFactory || k == ObjectArrayAllocate || LoadedField(k).Some? || StoredField(k).Some?
  }

  /**
   * The two switches agree: NativeCall handles inline exactly the kinds the
   * loader's NativeEntry keeps, so every kind a loaded native entry can carry
   * either has its inline case or is kUnknown and goes to the native function.
   */
  lemma InlineCasesMatchEntryList(k: MethodKind)
    ensures HandledInline(k) <==> InNativeEntryList(k)
    ensures HandledInline(NormalizedKind(k)) <==> InNativeEntryList(k)
    ensures !HandledInline(NormalizedKind(k)) ==> NormalizedKind(k) == Unknown
  {
  }

  /** The instance fields of the heap, by object address: what the inline cases load and store. */
  class Heap {
    var slots: map<(nat, Field), Obj>

    constructor(slots: map<(nat, Field), Obj>)
      ensures this.slots == slots
    {
      this.slots := slots;
    }

    /** o is an instance with field f. */
    predicate HasField(o: Obj, f: Field)
      reads this
    {
      o.Ref? && (o.addr, f) in slots
    }

    /** The value of field f of o. */
    function Load(o: Obj, f: Field): Obj
      requires HasField(o, f)
      reads this
    {
      slots[(o.addr, f)]
    }
  }
}
