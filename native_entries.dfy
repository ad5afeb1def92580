/**
 * The native-entry data shared by the bytecode loader, which creates it for a
 * native method, and by the NativeCall bytecode, which reads and patches it.
 */
module NativeEntries {
  import opened Common

  /**
   * MethodRecognizer kinds as far as native calls are concerned: the kinds the
   * loader keeps, kUnknown, and every other recognized kind, told apart by a number.
   */
  datatype MethodKind =
    | ObjectEquals
    | StringBaseLength | StringBaseIsEmpty
    | GrowableArrayLength | ObjectArrayLength | ImmutableArrayLength | TypedDataLength
    | ClassIDgetID
    | GrowableArrayCapacity
    | ListFactory | ObjectArrayAllocate
    | LinkedHashMapGetIndex | LinkedHashMapSetIndex
    | LinkedHashMapGetData | LinkedHashMapSetData
    | LinkedHashMapGetHashMask | LinkedHashMapSetHashMask
    | LinkedHashMapGetUsedData | LinkedHashMapSetUsedData
    | LinkedHashMapGetDeletedKeys | LinkedHashMapSetDeletedKeys
    | Unknown
    | OtherRecognized(id: nat)

  /** The case labels of the loader's switch in NativeEntry: the kinds a native entry may record. */
  predicate InNativeEntryList(k: MethodKind) {
    !k.Unknown? && !k.OtherRecognized?
  }

  /** The loader's switch: a listed kind is kept, any other kind becomes kUnknown. */
  function NormalizedKind(k: MethodKind): (r: MethodKind)
    ensures InNativeEntryList(k) ==> r == k
    ensures !InNativeEntryList(k) ==> r == Unknown
  {
    match k
    case Unknown => Unknown
    case OtherRecognized(_) => Unknown
    case _ => k
  }

  /** Normalizing twice changes nothing, and every normalized kind is listed or kUnknown. */
  lemma NormalizedKindIdempotent(k: MethodKind)
    ensures NormalizedKind(NormalizedKind(k)) == NormalizedKind(k)
    ensures InNativeEntryList(NormalizedKind(k)) || NormalizedKind(k) == Unknown
  {
  }

  /** The call wrappers a native entry may use. */
  datatype Trampoline = BootstrapNativeCallWrapper | AutoScopeNativeCallWrapper | NoScopeNativeCallWrapper

  /** A native function: one the resolver found (told apart by a number), or NativeEntry::LinkNativeCall. */
  datatype NativeFunction = Resolved(id: nat) | LinkNativeCall

  /**
   * NativeArguments' argc tag: the argument count the NativeCall bytecode pops
   * and the remaining bits, whose encoding is not part of this model.
   */
  datatype ArgcTag = ArgcTag(numArguments: nat, flags: nat)

  /** NativeEntryData's payload: the kind, the trampoline and native function (NULL until linked), the argc tag. */
  datatype NativeEntryData = NativeEntryData(
    kind: MethodKind,
    trampoline: Option<Trampoline>,
    nativeFunction: Option<NativeFunction>,
    argcTag: ArgcTag)
}
