/**
 * The bytecode metadata loader: reads a function's bytecode metadata from the
 * kernel binary with one shared read cursor, fills the object pool slot by
 * slot, cuts out the bytecode, reads the exceptions table and the closures,
 * and classifies native methods.
 *
 * The kernel binary is a sequence of tokens, one per primitive read (a tag, a
 * byte, a 32-bit word, an unsigned number, a list length, a string or
 * canonical-name reference). What the collaborators (name translation, type
 * building, class and field lookup) make of a reference is not modelled: a
 * pool value records the reference it was built from. A pool value that
 * refers to other pool entries records their indices.
 */
module BytecodeReader {
  import opened Common
  import opened Int64
  import opened NativeEntries
  import opened NativeCalls

  /** The ways loading fails: a debug assertion or UNREACHABLE of the loader, or a read past the data. */
  datatype LoadError =
    | EndOfData
    | MalformedToken(token: nat)
    | UnknownTag(tag: nat)
    | BadReference(index: nat, slot: nat)
    | BadInvocationKind(kind: nat)
    | NotAnArgumentsDescriptor(index: nat)
    | TooManyCheckedArguments(count: nat)
    | Unimplemented
    | PoolOverflow(slot: nat)
    | UnclosedClosureScope(slot: nat)
    | NamedParameterCountMismatch
    | UnresolvedNative(name: nat)
    | NotAGenerativeConstructor
    | BadClosureIndex(index: nat)
    | NoHandledTypes(tryIndex: nat)
    | BadTypeIndex(index: nat)

  // ---------------------------------------------------------------------
  // Constant pool tags (ConstantPoolTag)

  const InvalidTag: nat := 0
  const NullTag: nat := 1
  const StringTag: nat := 2
  const IntTag: nat := 3
  const DoubleTag: nat := 4
  const BoolTag: nat := 5
  const ArgDescTag: nat := 6
  const ICDataTag: nat := 7
  const StaticICDataTag: nat := 8
  const StaticFieldTag: nat := 9
  const InstanceFieldTag: nat := 10
  const ClassTag: nat := 11
  const TypeArgumentsFieldTag: nat := 12
  const TearOffTag: nat := 13
  const TypeTag: nat := 14
  const TypeArgumentsTag: nat := 15
  const ListTag: nat := 16
  const InstanceTag: nat := 17
  const TypeArgumentsForInstanceAllocationTag: nat := 18
  const ClosureFunctionTag: nat := 19
  const EndClosureFunctionScopeTag: nat := 20
  const NativeEntryTag: nat := 21
  const SubtypeTestCacheTag: nat := 22
  const PartialTearOffInstantiationTag: nat := 23
  const EmptyTypeArgumentsTag: nat := 24
  const SymbolTag: nat := 25

  /** InvocationKind of a call-site entry. */
  datatype InvocationKind = Method | Getter | Setter

  /** The invocation kind a number encodes: 0, 1 and 2; other numbers encode none. */
  function InvocationKindOf(k: nat): (r: Option<InvocationKind>)
    ensures r.Some? <==> k <= 2
  {
    if k == 0 then Some(Method) else if k == 1 then Some(Getter) else if k == 2 then Some(Setter) else None
  }

  /** What a canonical-name reference of a static call names. */
  datatype TargetKind = Constructor | FieldTarget | GetterProcedure | OtherProcedure

  /**
   * An instance call's selector: the name reference read, whether it was read
   * as a method, getter or setter name, and whether it was renamed to its
   * dynamic invocation forwarder.
   */
  datatype Selector = Selector(name: nat, kind: InvocationKind, dynamicForwarder: bool)

  /** The value of a pool entry. References to other entries are their indices. */
  datatype PoolValue =
    | NullValue
    | StringValue(str: nat)
    | IntValue(i: int64)
    | DoubleValue(bits: nat)
    | BoolValue(b: bool)
    | ArgDescValue(numTypeArgs: nat, numArguments: nat, argNames: seq<nat>)
    | ICDataValue(selector: Selector, argDesc: nat, checkedArguments: nat)
    | StaticICDataValue(target: nat, kind: InvocationKind, argDesc: nat)
    | StaticFieldValue(field: nat)
    | FieldOffsetValue(field: nat)
    | InstanceFieldValue(field: nat)
    | ClassValue(cls: nat)
    | TypeArgumentsFieldOffsetValue(cls: nat)
    | TearOffValue(procedure: nat)
    | TypeValue(ty: nat)
    | TypeArgumentsValue(types: seq<nat>)
    | ListValue(elementType: nat, elements: seq<nat>)
    | InstanceValue(cls: nat, typeArgs: nat, fields: seq<(nat, nat)>)
    | InstantiationTypeArgumentsValue(cls: nat, types: seq<nat>)
    | ClosureFunctionValue(closure: ClosureSignature)
    | NativeEntryValue(data: NativeEntryData)
    | SubtypeTestCacheValue
    | PartialTearOffValue(tearOff: nat, typeArgs: nat)
    | EmptyTypeArgumentsValue
    | SymbolValue(library: Option<nat>, name: nat)

  /**
   * A closure function as the pool creates it: its name, its type parameters,
   * its fixed and optional parameter counts, and the names and types of its
   * declared parameters (the implicit closure parameter comes first and is not
   * listed), and its result type.
   */
  datatype ClosureSignature = ClosureSignature(
    name: nat,
    typeParameters: seq<nat>,
    numFixed: int,
    numOptional: int,
    optionalArePositional: bool,
    parameterNames: seq<nat>,
    parameterTypes: seq<nat>,
    resultType: nat)

  /** ObjectPool::EntryType and ObjectPool::Patchability. */
  datatype EntryType = TaggedObject | NativeEntryDataType
  datatype Patchability = Patchable | NotPatchable

  /** A pool slot: not yet written, or written with its type, patchability and value. */
  datatype Slot = Empty | Entry(entryType: EntryType, patchability: Patchability, value: PoolValue)

  /** The slot a kEndClosureFunctionScope entry leaves: a not-patchable null. */
  const EndOfScopeSlot: Slot := Entry(TaggedObject, NotPatchable, NullValue)

  /** The entry type of a slot holding v: native-entry data for a native entry, a tagged object otherwise. */
  function EntryTypeFor(v: PoolValue): EntryType {
    if v.NativeEntryValue? then NativeEntryDataType else TaggedObject
  }

  /** The constant pool tag whose entry produces v; a field's offset and the field itself both come from kInstanceField. */
  function TagOf(v: PoolValue): nat {
    match v
    case NullValue => NullTag
    case StringValue(_) => StringTag
    case IntValue(_) => IntTag
    case DoubleValue(_) => DoubleTag
    case BoolValue(_) => BoolTag
    case ArgDescValue(_, _, _) => ArgDescTag
    case ICDataValue(_, _, _) => ICDataTag
    case StaticICDataValue(_, _, _) => StaticICDataTag
    case StaticFieldValue(_) => StaticFieldTag
    case FieldOffsetValue(_) => InstanceFieldTag
    case InstanceFieldValue(_) => InstanceFieldTag
    case ClassValue(_) => ClassTag
    case TypeArgumentsFieldOffsetValue(_) => TypeArgumentsFieldTag
    case TearOffValue(_) => TearOffTag
    case TypeValue(_) => TypeTag
    case TypeArgumentsValue(_) => TypeArgumentsTag
    case ListValue(_, _) => ListTag
    case InstanceValue(_, _, _) => InstanceTag
    case InstantiationTypeArgumentsValue(_, _) => TypeArgumentsForInstanceAllocationTag
    case ClosureFunctionValue(_) => ClosureFunctionTag
    case NativeEntryValue(_) => NativeEntryTag
    case SubtypeTestCacheValue => SubtypeTestCacheTag
    case PartialTearOffValue(_, _) => PartialTearOffInstantiationTag
    case EmptyTypeArgumentsValue => EmptyTypeArgumentsTag
    case SymbolValue(_, _) => SymbolTag
  }

  /** Every pool entry v refers to lies strictly below slot i. */
  predicate RefsBelow(v: PoolValue, i: int) {
    match v
    case ICDataValue(_, argDesc, _) => argDesc < i
    case StaticICDataValue(_, _, argDesc) => argDesc < i
    case ListValue(_, elements) => forall e :: e in elements ==> e < i
    case InstanceValue(_, typeArgs, fields) => typeArgs < i && forall f :: f in fields ==> f.1 < i
    case PartialTearOffValue(tearOff, typeArgs) => tearOff < i && typeArgs < i
    case _ => true
  }

  /** The value a slot holds; a slot not yet written reads as null. */
  function ValueOf(slot: Slot): PoolValue {
    if slot.Entry? then slot.value else NullValue
  }

  // ---------------------------------------------------------------------
  // What the loader consults besides the kernel binary

  /**
   * The answers of the loader's collaborators and flags: method-token
   * recognition, the _simpleInstanceOf, == and call names, whether dynamic
   * invocation forwarders are emitted (strong-mode checks outside
   * precompiled mode), what a static call target is, which library reference
   * is the root, whether field guards are used, and for NativeEntry the
   * recognized kind of the function, FLAG_link_natives_lazily, whether the
   * library's resolver is the bootstrap one, the resolver's answer per
   * external name (the function and its auto-scope flag) and the argc tag.
   * pcToOffset is KernelBytecode::BytecodePcToOffset.
   */
  datatype Env = Env(
    isOperatorName: nat -> bool,
    simpleInstanceOfName: nat,
    equalOperatorName: nat,
    callName: nat,
    emitDynamicForwarders: bool,
    targetKind: nat -> TargetKind,
    isRootLibrary: nat -> bool,
    useFieldGuards: bool,
    functionKind: MethodKind,
    linkNativesLazily: bool,
    bootstrapResolver: bool,
    resolveNative: nat -> Option<(NativeFunction, bool)>,
    argcTag: ArgcTag,
    pcToOffset: (nat, bool) -> int)

  // ---------------------------------------------------------------------
  // Pure parts

  /** The flags word of a function's metadata: has exceptions table, has nullable fields, has closures. */
  function MetadataFlags(flags: nat): (bool, bool, bool) {
    (flags % 2 == 1, (flags / 2) % 2 == 1, (flags / 4) % 2 == 1)
  }

  /** Each flag is its own bit: the word built from three bits and any higher bits decodes to those bits. */
  lemma MetadataFlagsBits(e: bool, n: bool, c: bool, rest: nat)
    ensures MetadataFlags((if e then 1 else 0) + 2 * (if n then 1 else 0) + 4 * (if c then 1 else 0) + 8 * rest) == (e, n, c)
  {
    var w := (if e then 1 else 0) + 2 * (if n then 1 else 0) + 4 * (if c then 1 else 0) + 8 * rest;
    assert w / 2 == (if n then 1 else 0) + 2 * (if c then 1 else 0) + 4 * rest;
    assert w / 4 == (if c then 1 else 0) + 2 * rest;
  }

  /**
   * A kInt and a kDouble entry read from the same halves carry the same 64-bit
   * word: the integer is that word in two's complement, and the halves come
   * back from the integer.
   */
  lemma IntAndDoubleShareWord(low: nat, high: nat)
    requires low < TwoTo32 && high < TwoTo32
    ensures ToWord(Int64FromHalves(low, high)) == CombineHalves(low, high)
    ensures HalvesOf(Int64FromHalves(low, high)) == (low, high)
  {
    WordRoundTrip(0, CombineHalves(low, high));
    HalvesDecodeRoundTrip(low, high);
  }

  /**
   * The checked-argument count of an instance call's ICData: 1, except for a
   * method call of an operator or of _simpleInstanceOf, which checks as many
   * arguments as its descriptor passes, at most 2.
   */
  function CheckedArgumentCount(env: Env, kind: InvocationKind, name: nat, argDescIndex: nat, argDesc: PoolValue): (r: Result<nat, LoadError>)
    ensures !(kind == Method && (env.isOperatorName(name) || name == env.simpleInstanceOfName)) ==> r == Ok(1)
    ensures r.Ok? ==> r.value <= 2
    ensures r.Ok? && r.value != 1 ==> argDesc.ArgDescValue? && r.value == argDesc.numArguments
  {
    if kind == Method && (env.isOperatorName(name) || name == env.simpleInstanceOfName) then
      if !argDesc.ArgDescValue? then Err(NotAnArgumentsDescriptor(argDescIndex))
      else if argDesc.numArguments > 2 then Err(TooManyCheckedArguments(argDesc.numArguments))
      else Ok(argDesc.numArguments)
    else Ok(1)
  }

  /**
   * Whether an instance call is renamed to its dynamic invocation forwarder:
   * a dynamic call that is no getter, when forwarders are emitted, unless it
   * calls == or call.
   */
  predicate UsesDynamicForwarder(env: Env, kind: InvocationKind, isDynamic: bool, name: nat) {
    isDynamic && kind != Getter && env.emitDynamicForwarders &&
    !(kind == Method && (name == env.equalOperatorName || name == env.callName))
  }

  /** Getters, == and call are never renamed, and nothing is renamed when forwarders are off. */
  lemma ForwarderExclusions(env: Env, kind: InvocationKind, isDynamic: bool, name: nat)
    ensures kind == Getter ==> !UsesDynamicForwarder(env, kind, isDynamic, name)
    ensures kind == Method && (name == env.equalOperatorName || name == env.callName) ==> !UsesDynamicForwarder(env, kind, isDynamic, name)
    ensures !isDynamic || !env.emitDynamicForwarders ==> !UsesDynamicForwarder(env, kind, isDynamic, name)
  {
  }

  /**
   * NativeEntry: the native-entry data of an external function. A kind on the
   * NativeCall list is kept and needs no trampoline, function or argc tag; any
   * other kind becomes kUnknown, gets the argc tag and, unless natives are
   * linked lazily, the resolved function and the bootstrap, auto-scope or
   * no-scope trampoline, in that order of preference. A name the resolver does
   * not know is an error.
   */
  function NativeEntry(env: Env, externalName: nat): (r: Result<NativeEntryData, LoadError>)
    ensures r.Err? <==> NormalizedKind(env.functionKind) == Unknown && !env.linkNativesLazily && env.resolveNative(externalName).None?
    ensures r.Ok? ==> r.value.kind == NormalizedKind(env.functionKind)
    ensures r.Ok? && r.value.kind != Unknown ==> r.value == NativeEntryData(r.value.kind, None, None, ArgcTag(0, 0))
    ensures r.Ok? && r.value.kind == Unknown ==> r.value.argcTag == env.argcTag
    ensures r.Ok? ==> (r.value.trampoline.Some? <==> r.value.kind == Unknown && !env.linkNativesLazily)
    ensures r.Ok? && r.value.kind == Unknown && env.linkNativesLazily ==>
      r.value.trampoline.None? && r.value.nativeFunction.None?
    ensures r.Ok? && r.value.kind == Unknown && !env.linkNativesLazily ==>
      var (f, isAutoScope) := env.resolveNative(externalName).value;
      r.value.nativeFunction == Some(f) &&
      r.value.trampoline == Some(
        if env.bootstrapResolver then BootstrapNativeCallWrapper
        else if isAutoScope then AutoScopeNativeCallWrapper
        else NoScopeNativeCallWrapper)
  {
    var kind := NormalizedKind(env.functionKind);
    if kind != Unknown then
      Ok(NativeEntryData(kind, None, None, ArgcTag(0, 0)))
    else if env.linkNativesLazily then
      Ok(NativeEntryData(kind, None, None, env.argcTag))
    else
      match env.resolveNative(externalName)
      case None => Err(UnresolvedNative(externalName))
      case Some((f, isAutoScope)) =>
        var trampoline :=
          if env.bootstrapResolver then BootstrapNativeCallWrapper
          else if isAutoScope then AutoScopeNativeCallWrapper
          else NoScopeNativeCallWrapper;
        Ok(NativeEntryData(kind, Some(trampoline), Some(f), env.argcTag))
  }

  /**
   * What the loader records is what NativeCall can run: an entry's kind has an
   * inline case of NativeCall, or it is kUnknown and carries its resolved
   * function and trampoline unless natives are linked lazily.
   */
  lemma NativeEntryFeedsNativeCall(env: Env, externalName: nat)
    requires NativeEntry(env, externalName).Ok?
    ensures var d := NativeEntry(env, externalName).value;
      HandledInline(d.kind) != (d.kind == Unknown) &&
      (!HandledInline(d.kind) && !env.linkNativesLazily ==> d.trampoline.Some? && d.nativeFunction.Some?)
  {
    InlineCasesMatchEntryList(env.functionKind);
    NormalizedKindIdempotent(env.functionKind);
  }

  /** A kind NativeEntry keeps is exactly a kind with an inline case of NativeCall. */
  lemma NativeEntryKindIsInline(env: Env, externalName: nat)
    requires NativeEntry(env, externalName).Ok?
    ensures NativeEntry(env, externalName).value.kind != Unknown <==> InNativeEntryList(env.functionKind)
    ensures NativeEntry(env, externalName).value.kind != Unknown <==> HandledInline(env.functionKind)
  {
    InlineCasesMatchEntryList(env.functionKind);
  }

  // ---------------------------------------------------------------------
  // The exceptions table

  datatype DescriptorKind = OtherDescriptor

  /** A PC descriptor of a try region boundary: its kind, its PC offset and its try index (-1 after the region). */
  datatype PcDescriptor = PcDescriptor(kind: DescriptorKind, pcOffset: int, tryIndex: int)

  /** An exception handler record: its try index, the enclosing try index (-1 if none), where it starts, and its flags and types. */
  datatype Handler = Handler(
    tryIndex: nat,
    outerTryIndex: int,
    handlerPcOffset: int,
    isGenerated: bool,
    handlerTypes: seq<nat>,
    needsStackTrace: bool)

  /** The PC descriptors and exception handlers of a bytecode function. */
  datatype ExceptionTables = ExceptionTables(descriptors: seq<PcDescriptor>, handlers: seq<Handler>)

  /** The two descriptors of region k: its start with try index k, then its end with try index -1. */
  predicate RegionDescriptors(descriptors: seq<PcDescriptor>, k: nat) {
    2 * k + 1 < |descriptors| &&
    descriptors[2 * k].kind == OtherDescriptor && descriptors[2 * k].tryIndex == k &&
    descriptors[2 * k + 1].kind == OtherDescriptor && descriptors[2 * k + 1].tryIndex == -1
  }

  /**
   * The tables a read exceptions table yields: two descriptors and one handler
   * per try region, in region order; each handler knows its index, an
   * enclosing index of -1 or more, and at least one type, every type a slot of
   * the pool.
   */
  predicate TablesOk(t: ExceptionTables, poolLength: nat) {
    |t.descriptors| == 2 * |t.handlers| &&
    forall k: nat :: k < |t.handlers| ==>
      RegionDescriptors(t.descriptors, k) && t.handlers[k].tryIndex == k && t.handlers[k].outerTryIndex >= -1 &&
      |t.handlers[k].handlerTypes| > 0 && forall ty :: ty in t.handlers[k].handlerTypes ==> ty < poolLength
  }

  /** A function's bytecode: where its bytes start in the kernel binary, how many, its pool and its tables once read. */
  datatype Code = Code(start: nat, size: nat, pool: seq<Slot>, tables: Option<ExceptionTables>)

  /** Slot c of the pool holds a closure function whose loaded bytecode, with its tables, is in closures. */
  predicate ClosureLoaded(pool: seq<Slot>, closures: map<nat, Code>, c: nat) {
    c < |pool| && pool[c].Entry? && pool[c].value.ClosureFunctionValue? &&
    c in closures && closures[c].pool == pool && closures[c].tables.Some? && TablesOk(closures[c].tables.value, |pool|)
  }

  /** A function being loaded: whether it is a generative constructor, its bytecode, and its closures' bytecode by pool index. */
  class Function {
    const isGenerativeConstructor: bool
    var bytecode: Option<Code>
    var closureBytecode: map<nat, Code>

    constructor(isGenerativeConstructor: bool)
      ensures this.isGenerativeConstructor == isGenerativeConstructor
      ensures bytecode == None && closureBytecode == map[]
    {
      this.isGenerativeConstructor := isGenerativeConstructor;
      bytecode := None;
      closureBytecode := map[];
    }
  }

  // ---------------------------------------------------------------------
  // The metadata format: what reading from a position of the tokens yields

  /** What a read from a position yields: the value and the position after it. */
  datatype Parsed<+T> = Parsed(value: T, next: nat)

  /** A reader method's answer with its final cursor, in the form of a decoder's answer. */
  function Track<T>(r: Result<T, LoadError>, offset: nat): Result<Parsed<T>, LoadError> {
    match r
    case Ok(v) => Ok(Parsed(v, offset))
    case Err(e) => Err(e)
  }

  /** One token; reading past the data fails. */
  function TokenAt(ts: seq<nat>, at: nat): (r: Result<Parsed<nat>, LoadError>)
    ensures r.Ok? <==> at < |ts|
    ensures r.Ok? ==> r.value == Parsed(ts[at], at + 1)
    ensures r.Err? ==> r.error == EndOfData
  {
    if at < |ts| then Ok(Parsed(ts[at], at + 1)) else Err(EndOfData)
  }

  /** A token that must lie below bound: 256 for ReadByte, 2^32 for ReadUInt32. */
  function TokenBelowAt(ts: seq<nat>, at: nat, bound: nat): (r: Result<Parsed<nat>, LoadError>)
    ensures r.Ok? <==> at < |ts| && ts[at] < bound
    ensures r.Ok? ==> r.value == Parsed(ts[at], at + 1)
  {
    var t :- TokenAt(ts, at);
    if t.value >= bound then Err(MalformedToken(t.value)) else Ok(t)
  }

  /** count successive tokens. */
  function TokensAt(ts: seq<nat>, at: nat, count: nat): (r: Result<Parsed<seq<nat>>, LoadError>)
    ensures r.Ok? <==> count == 0 || at + count <= |ts|
    ensures r.Ok? ==> |r.value.value| == count && r.value.next == at + count
    ensures r.Ok? && count > 0 ==> r.value.value == ts[at..at + count]
  {
    if count == 0 then Ok(Parsed([], at))
    else if at + count <= |ts| then Ok(Parsed(ts[at..at + count], at + count))
    else Err(EndOfData)
  }

  /** A pool index read by the entry at slot i: it must lie strictly below i. */
  function IndexBelowAt(ts: seq<nat>, at: nat, i: nat): (r: Result<Parsed<nat>, LoadError>)
    ensures r.Ok? <==> at < |ts| && ts[at] < i
    ensures r.Ok? ==> r.value == Parsed(ts[at], at + 1)
    ensures r.Err? && at < |ts| ==> r.error == BadReference(ts[at], i)
  {
    var t :- TokenAt(ts, at);
    if t.value >= i then Err(BadReference(t.value, i)) else Ok(t)
  }

  /** left more pool indices below i, after the indices acc already read. */
  function IndicesFrom(ts: seq<nat>, at: nat, left: nat, i: nat, acc: seq<nat>): (r: Result<Parsed<seq<nat>>, LoadError>)
    ensures r.Ok? ==> |r.value.value| == |acc| + left && r.value.value[..|acc|] == acc
    ensures r.Ok? ==> forall k :: |acc| <= k < |r.value.value| ==> r.value.value[k] < i
    decreases left
  {
    if left == 0 then Ok(Parsed(acc, at))
    else
      var e :- IndexBelowAt(ts, at, i);
      var r := IndicesFrom(ts, e.next, left - 1, i, acc + [e.value]);
      assert r.Ok? ==> r.value.value[..|acc|] == (acc + [e.value])[..|acc|];
      r
  }

  /** The invocation kind of a flags value; 3 encodes none, which the loader asserts against. */
  function KindResult(k: nat): (r: Result<InvocationKind, LoadError>)
    ensures r.Ok? <==> k <= 2
    ensures r.Ok? ==> Some(r.value) == InvocationKindOf(k)
    ensures r.Err? ==> r.error == BadInvocationKind(k)
  {
    match InvocationKindOf(k)
    case Some(kind) => Ok(kind)
    case None => Err(BadInvocationKind(k))
  }

  /**
   * kInt and kDouble: the low 32-bit half, then the high half, combined into
   * one 64-bit word, read as a two's-complement int64 or kept as the bits of a
   * binary64 value.
   */
  function NumberAt(ts: seq<nat>, at: nat, isInt: bool): (r: Result<Parsed<PoolValue>, LoadError>)
    ensures r.Ok? ==>
      at + 2 <= |ts| && r.value.next == at + 2 &&
      var low, high := ts[at], ts[at + 1];
      low < TwoTo32 && high < TwoTo32 &&
      r.value.value == if isInt then IntValue(Int64FromHalves(low, high)) else DoubleValue(CombineHalves(low, high))
  {
    var low :- TokenBelowAt(ts, at, TwoTo32);
    var high :- TokenBelowAt(ts, low.next, TwoTo32);
    Ok(Parsed(
      if isInt then IntValue(Int64FromHalves(low.value, high.value)) else DoubleValue(CombineHalves(low.value, high.value)),
      high.next))
  }

  /** kArgDesc: the argument count, the type-argument count, then the argument names. */
  function ArgDescAt(ts: seq<nat>, at: nat): (r: Result<Parsed<PoolValue>, LoadError>)
    ensures r.Ok? ==>
      at + 3 <= |ts| && r.value.value.ArgDescValue? &&
      r.value.value.numArguments == ts[at] && r.value.value.numTypeArgs == ts[at + 1] &&
      |r.value.value.argNames| == ts[at + 2] && r.value.next == at + 3 + ts[at + 2]
  {
    var numArguments :- TokenAt(ts, at);
    var numTypeArgs :- TokenAt(ts, numArguments.next);
    var numArgNames :- TokenAt(ts, numTypeArgs.next);
    var names :- TokensAt(ts, numArgNames.next, numArgNames.value);
    Ok(Parsed(ArgDescValue(numTypeArgs.value, numArguments.value, names.value), names.next))
  }

  /**
   * kICData at slot i: the flags byte (invocation kind in the low two bits,
   * dynamic in bit 2), the name, and the index of its arguments descriptor
   * below i, which decides the checked-argument count; a dynamic call may be
   * renamed to its dynamic invocation forwarder.
   */
  function ICDataAt(ts: seq<nat>, env: Env, pool: seq<Slot>, i: nat, at: nat): (r: Result<Parsed<PoolValue>, LoadError>)
    requires i <= |pool|
  {
    var flags :- TokenBelowAt(ts, at, 256);
    var kind :- KindResult(flags.value % 4);
    var isDynamic := (flags.value / 4) % 2 == 1;
    var name :- TokenAt(ts, flags.next);
    var argDesc :- IndexBelowAt(ts, name.next, i);
    var checked :- CheckedArgumentCount(env, kind, name.value, argDesc.value, ValueOf(pool[argDesc.value]));
    var selector := Selector(name.value, kind, UsesDynamicForwarder(env, kind, isDynamic, name.value));
    Ok(Parsed(ICDataValue(selector, argDesc.value, checked), argDesc.next))
  }

  /**
   * What ICDataAt reads: flags whose kind is 3 are rejected; otherwise the
   * selector and the arguments-descriptor index come from the three tokens,
   * and the checked-argument count is what the descriptor decides.
   */
  lemma ICDataAtReads(ts: seq<nat>, env: Env, pool: seq<Slot>, i: nat, at: nat)
    requires i <= |pool|
    ensures at < |ts| && ts[at] < 256 && ts[at] % 4 == 3 ==> ICDataAt(ts, env, pool, i, at) == Err(BadInvocationKind(3))
    ensures var r := ICDataAt(ts, env, pool, i, at); r.Ok? ==>
      at + 3 <= |ts| && r.value.next == at + 3 && ts[at] < 256 && ts[at + 2] < i &&
      var v, kind, name := r.value.value, InvocationKindOf(ts[at] % 4), ts[at + 1];
      kind.Some? && v.ICDataValue? &&
      v == ICDataValue(Selector(name, kind.value, UsesDynamicForwarder(env, kind.value, (ts[at] / 4) % 2 == 1, name)),
                       ts[at + 2], v.checkedArguments) &&
      CheckedArgumentCount(env, kind.value, name, ts[at + 2], ValueOf(pool[ts[at + 2]])) == Ok(v.checkedArguments) &&
      v.checkedArguments <= 2
  {
  }

  /**
   * kStaticICData at slot i: the invocation kind, the target and the index of
   * its arguments descriptor below i. A method call of a field and a method
   * call of a getter are not implemented.
   */
  function StaticICDataAt(ts: seq<nat>, env: Env, i: nat, at: nat): (r: Result<Parsed<PoolValue>, LoadError>)
    ensures r.Ok? ==>
      at + 3 <= |ts| && r.value.next == at + 3 && ts[at] <= 2 && ts[at + 2] < i &&
      r.value.value == StaticICDataValue(ts[at + 1], InvocationKindOf(ts[at]).value, ts[at + 2])
    ensures r.Ok? && r.value.value.kind == Method ==>
      env.targetKind(r.value.value.target) != FieldTarget && env.targetKind(r.value.value.target) != GetterProcedure
  {
    var k :- TokenBelowAt(ts, at, 256);
    var target :- TokenAt(ts, k.next);
    var kind :- KindResult(k.value);
    if kind == Method && (env.targetKind(target.value) == FieldTarget || env.targetKind(target.value) == GetterProcedure) then
      Err(Unimplemented)
    else
      var argDesc :- IndexBelowAt(ts, target.next, i);
      Ok(Parsed(StaticICDataValue(target.value, kind, argDesc.value), argDesc.next))
  }

  /** kList at slot i: the element type, the length, then the element indices, each below i. */
  function ListAt(ts: seq<nat>, i: nat, at: nat): (r: Result<Parsed<PoolValue>, LoadError>)
    ensures r.Ok? ==>
      at + 2 <= |ts| && r.value.value.ListValue? && r.value.value.elementType == ts[at] &&
      |r.value.value.elements| == ts[at + 1] && RefsBelow(r.value.value, i)
  {
    var elementType :- TokenAt(ts, at);
    var length :- TokenAt(ts, elementType.next);
    var elements :- IndicesFrom(ts, length.next, length.value, i, []);
    assert forall e :: e in elements.value ==> e < i by {
      forall e | e in elements.value
        ensures e < i
      {
        var k :| 0 <= k < |elements.value| && elements.value[k] == e;
      }
    }
    Ok(Parsed(ListValue(elementType.value, elements.value), elements.next))
  }

  /** left more (field, value index below i) pairs of a kInstance entry, after the pairs acc already read. */
  function FieldsFrom(ts: seq<nat>, at: nat, left: nat, i: nat, acc: seq<(nat, nat)>)
    : (r: Result<Parsed<seq<(nat, nat)>>, LoadError>)
    ensures r.Ok? ==> |r.value.value| == |acc| + left && r.value.value[..|acc|] == acc
    ensures r.Ok? ==> forall k :: |acc| <= k < |r.value.value| ==> r.value.value[k].1 < i
    decreases left
  {
    if left == 0 then Ok(Parsed(acc, at))
    else
      var field :- TokenAt(ts, at);
      var value :- IndexBelowAt(ts, field.next, i);
      var r := FieldsFrom(ts, value.next, left - 1, i, acc + [(field.value, value.value)]);
      assert r.Ok? ==> r.value.value[..|acc|] == (acc + [(field.value, value.value)])[..|acc|];
      r
  }

  /** kInstance at slot i: the class, the type-arguments index below i, then the fields with their value indices. */
  function InstanceAt(ts: seq<nat>, i: nat, at: nat): (r: Result<Parsed<PoolValue>, LoadError>)
    ensures r.Ok? ==>
      at + 3 <= |ts| && r.value.value.InstanceValue? && r.value.value.cls == ts[at] &&
      r.value.value.typeArgs == ts[at + 1] && |r.value.value.fields| == ts[at + 2] && RefsBelow(r.value.value, i)
  {
    var cls :- TokenAt(ts, at);
    var typeArgs :- IndexBelowAt(ts, cls.next, i);
    var numFields :- TokenAt(ts, typeArgs.next);
    var fields :- FieldsFrom(ts, numFields.next, numFields.value, i, []);
    assert forall f :: f in fields.value ==> f.1 < i by {
      forall f | f in fields.value
        ensures f.1 < i
      {
        var k :| 0 <= k < |fields.value| && fields.value[k] == f;
      }
    }
    Ok(Parsed(InstanceValue(cls.value, typeArgs.value, fields.value), fields.next))
  }

  /** kSymbol: the library (none when it is the root library) and the name. */
  function SymbolAt(ts: seq<nat>, env: Env, at: nat): (r: Result<Parsed<PoolValue>, LoadError>)
    ensures r.Ok? <==> at + 2 <= |ts|
    ensures r.Ok? ==>
      r.value.next == at + 2 && r.value.value.SymbolValue? && r.value.value.name == ts[at + 1] &&
      (r.value.value.library.Some? <==> !env.isRootLibrary(ts[at])) &&
      (r.value.value.library.Some? ==> r.value.value.library.value == ts[at])
  {
    var lib :- TokenAt(ts, at);
    var name :- TokenAt(ts, lib.next);
    Ok(Parsed(SymbolValue(if env.isRootLibrary(lib.value) then None else Some(lib.value), name.value), name.next))
  }

  /** left more parameter declarations, each a name and a type, after those already read. */
  function ParametersFrom(ts: seq<nat>, at: nat, left: nat, names: seq<nat>, types: seq<nat>)
    : (r: Result<Parsed<(seq<nat>, seq<nat>)>, LoadError>)
    ensures r.Ok? ==> |r.value.value.0| == |names| + left && |r.value.value.1| == |types| + left
    decreases left
  {
    if left == 0 then Ok(Parsed((names, types), at))
    else
      var name :- TokenAt(ts, at);
      var ty :- TokenAt(ts, name.next);
      ParametersFrom(ts, ty.next, left - 1, names + [name.value], types + [ty.value])
  }

  /**
   * kClosureFunction: the name, the type parameters, the required and total
   * parameter counts, the positional parameters, the named parameters (whose
   * count must be total - positional) and the result type. The closure has one
   * extra fixed parameter; its optional parameters are the named ones when
   * there are any, the optional positional ones otherwise.
   */
  function ClosureFunctionAt(ts: seq<nat>, at: nat): (r: Result<Parsed<ClosureSignature>, LoadError>)
    ensures r.Ok? ==> at < |ts| && r.value.value.name == ts[at]
    ensures r.Ok? ==> var c := r.value.value;
      |c.parameterNames| == |c.parameterTypes| && c.numFixed >= 1 &&
      (c.optionalArePositional ==> c.numFixed + c.numOptional == 1 + |c.parameterNames|) &&
      (!c.optionalArePositional ==> 0 < c.numOptional <= |c.parameterNames|)
  {
    var name :- TokenAt(ts, at);
    var numTypeParameters :- TokenAt(ts, name.next);
    var typeParameters :- TokensAt(ts, numTypeParameters.next, numTypeParameters.value);
    var required :- TokenAt(ts, typeParameters.next);
    var total :- TokenAt(ts, required.next);
    var positional :- TokenAt(ts, total.next);
    var named: int := total.value as int - positional.value;
    var positionalParameters :- ParametersFrom(ts, positional.next, positional.value, [], []);
    var namedCheck :- TokenAt(ts, positionalParameters.next);
    if namedCheck.value != named then Err(NamedParameterCountMismatch)
    else
      var namedParameters :- ParametersFrom(ts, namedCheck.next, namedCheck.value, [], []);
      var resultType :- TokenAt(ts, namedParameters.next);
      var numOptional: int := if named > 0 then named else positional.value as int - required.value;
      Ok(Parsed(ClosureSignature(
        name.value, typeParameters.value, 1 + required.value, numOptional, !(named > 0),
        positionalParameters.value.0 + namedParameters.value.0, positionalParameters.value.1 + namedParameters.value.1,
        resultType.value), resultType.next))
  }

  /**
   * The counts of a closure's signature, by token position: after its name
   * and type parameters come the required, total and positional counts. The
   * receiver is fixed along with the required parameters; the optional ones
   * are the named ones if there are any, otherwise the positional ones that
   * are not required.
   */
  lemma ClosureFunctionAtReads(ts: seq<nat>, at: nat)
    requires ClosureFunctionAt(ts, at).Ok?
    ensures at + 1 < |ts| && at + 4 + ts[at + 1] < |ts|
    ensures var n := ts[at + 1]; var c := ClosureFunctionAt(ts, at).value.value;
      var named := ts[at + 3 + n] as int - ts[at + 4 + n];
      c.typeParameters == ts[at + 2..at + 2 + n] && c.numFixed == 1 + ts[at + 2 + n] &&
      c.optionalArePositional == (named <= 0) &&
      c.numOptional == (if named > 0 then named else ts[at + 4 + n] as int - ts[at + 2 + n])
  {
  }

  /**
   * The value of a pool entry whose tag fills exactly one slot, at slot i. It
   * refers only to slots below i, and it is never what only the two-slot,
   * closure and native-entry tags produce. kInvalid and unknown tags are
   * errors.
   */
  function EntryValueAt(ts: seq<nat>, env: Env, pool: seq<Slot>, tag: nat, i: nat, at: nat)
    : (r: Result<Parsed<PoolValue>, LoadError>)
    requires i <= |pool|
    requires tag != InstanceFieldTag && tag != ClosureFunctionTag && tag != EndClosureFunctionScopeTag && tag != NativeEntryTag
  {
    if tag == NullTag then Ok(Parsed(NullValue, at))
    else if tag == StringTag then
      var s :- TokenAt(ts, at); Ok(Parsed(StringValue(s.value), s.next))
    else if tag == IntTag || tag == DoubleTag then NumberAt(ts, at, tag == IntTag)
    else if tag == BoolTag then
      var b :- TokenAt(ts, at); Ok(Parsed(BoolValue(b.value == 1), b.next))
    else if tag == ArgDescTag then ArgDescAt(ts, at)
    else if tag == ICDataTag then ICDataAt(ts, env, pool, i, at)
    else if tag == StaticICDataTag then StaticICDataAt(ts, env, i, at)
    else if tag == StaticFieldTag then
      var f :- TokenAt(ts, at); Ok(Parsed(StaticFieldValue(f.value), f.next))
    else if tag == ClassTag then
      var c :- TokenAt(ts, at); Ok(Parsed(ClassValue(c.value), c.next))
    else if tag == TypeArgumentsFieldTag then
      var c :- TokenAt(ts, at); Ok(Parsed(TypeArgumentsFieldOffsetValue(c.value), c.next))
    else if tag == TearOffTag then
      var p :- TokenAt(ts, at); Ok(Parsed(TearOffValue(p.value), p.next))
    else if tag == TypeTag then
      var t :- TokenAt(ts, at); Ok(Parsed(TypeValue(t.value), t.next))
    else if tag == TypeArgumentsTag then
      var n :- TokenAt(ts, at);
      var types :- TokensAt(ts, n.next, n.value);
      Ok(Parsed(TypeArgumentsValue(types.value), types.next))
    else if tag == ListTag then ListAt(ts, i, at)
    else if tag == InstanceTag then InstanceAt(ts, i, at)
    else if tag == TypeArgumentsForInstanceAllocationTag then
      var c :- TokenAt(ts, at);
      var n :- TokenAt(ts, c.next);
      var types :- TokensAt(ts, n.next, n.value);
      Ok(Parsed(InstantiationTypeArgumentsValue(c.value, types.value), types.next))
    else if tag == SubtypeTestCacheTag then Ok(Parsed(SubtypeTestCacheValue, at))
    else if tag == PartialTearOffInstantiationTag then
      var tearOff :- IndexBelowAt(ts, at, i);
      var typeArgs :- IndexBelowAt(ts, tearOff.next, i);
      Ok(Parsed(PartialTearOffValue(tearOff.value, typeArgs.value), typeArgs.next))
    else if tag == EmptyTypeArgumentsTag then Ok(Parsed(EmptyTypeArgumentsValue, at))
    else if tag == SymbolTag then SymbolAt(ts, env, at)
    else Err(UnknownTag(tag))
  }

  /**
   * What EntryValueAt reads: a value of the kind its tag names, referring only
   * to slots below i; null for kNull without reading on; an error for kInvalid
   * and unknown tags.
   */
  lemma EntryValueAtReads(ts: seq<nat>, env: Env, pool: seq<Slot>, tag: nat, i: nat, at: nat)
    requires i <= |pool|
    requires tag != InstanceFieldTag && tag != ClosureFunctionTag && tag != EndClosureFunctionScopeTag && tag != NativeEntryTag
    ensures var r := EntryValueAt(ts, env, pool, tag, i, at); r.Ok? ==>
      TagOf(r.value.value) == tag && RefsBelow(r.value.value, i)
    ensures tag == InvalidTag || tag > SymbolTag ==> EntryValueAt(ts, env, pool, tag, i, at) == Err(UnknownTag(tag))
    ensures tag == NullTag ==> EntryValueAt(ts, env, pool, tag, i, at) == Ok(Parsed(NullValue, at))
    ensures var r := EntryValueAt(ts, env, pool, tag, i, at);
      (tag == StringTag || tag == BoolTag || tag == StaticFieldTag || tag == ClassTag || tag == TypeArgumentsFieldTag ||
       tag == TearOffTag || tag == TypeTag) ==>
        (r.Ok? <==> at < |ts|) && (r.Err? ==> r.error == EndOfData) &&
        (r.Ok? ==>
           r.value.next == at + 1 &&
           (tag == StringTag ==> r.value.value == StringValue(ts[at])) &&
           (tag == BoolTag ==> r.value.value == BoolValue(ts[at] == 1)) &&
           (tag == StaticFieldTag ==> r.value.value == StaticFieldValue(ts[at])) &&
           (tag == ClassTag ==> r.value.value == ClassValue(ts[at])) &&
           (tag == TypeArgumentsFieldTag ==> r.value.value == TypeArgumentsFieldOffsetValue(ts[at])) &&
           (tag == TearOffTag ==> r.value.value == TearOffValue(ts[at])) &&
           (tag == TypeTag ==> r.value.value == TypeValue(ts[at])))
    ensures var r := EntryValueAt(ts, env, pool, tag, i, at);
      (tag == IntTag || tag == DoubleTag) && r.Ok? ==>
        at + 2 <= |ts| && r.value.next == at + 2 && ts[at] < TwoTo32 && ts[at + 1] < TwoTo32 &&
        r.value.value == if tag == IntTag then IntValue(Int64FromHalves(ts[at], ts[at + 1])) else DoubleValue(CombineHalves(ts[at], ts[at + 1]))
  {
    if tag == ICDataTag {
      ICDataAtReads(ts, env, pool, i, at);
    }
  }

  /**
   * A pool entry at slot i that neither opens nor closes a closure scope: an
   * instance field fills slots i and i + 1 (its offset, then the field), a
   * native entry slot i with its native-entry data, any other entry slot i.
   * The answer is the pool and the next slot to fill.
   */
  function SlotsAt(ts: seq<nat>, env: Env, pool: seq<Slot>, tag: nat, i: nat, at: nat)
    : (r: Result<Parsed<(seq<Slot>, nat)>, LoadError>)
    requires i < |pool|
    requires tag != ClosureFunctionTag && tag != EndClosureFunctionScopeTag
    ensures r.Ok? ==> |r.value.value.0| == |pool| && i < r.value.value.1 <= |pool|
    ensures r.Ok? && tag != InstanceFieldTag ==> r.value.value.1 == i + 1
  {
    if tag == InstanceFieldTag then
      var field :- TokenAt(ts, at);
      if i + 1 >= |pool| then Err(PoolOverflow(i + 1))
      else
        var filled := pool[i := Entry(TaggedObject, NotPatchable, FieldOffsetValue(field.value))]
                          [i + 1 := Entry(TaggedObject, NotPatchable, InstanceFieldValue(field.value))];
        Ok(Parsed((filled, i + 2), field.next))
    else if tag == NativeEntryTag then
      var name :- TokenAt(ts, at);
      var data :- NativeEntry(env, name.value);
      Ok(Parsed((pool[i := Entry(NativeEntryDataType, NotPatchable, NativeEntryValue(data))], i + 1), name.next))
    else
      var v :- EntryValueAt(ts, env, pool, tag, i, at);
      Ok(Parsed((pool[i := Entry(TaggedObject, NotPatchable, v.value)], i + 1), v.next))
  }

  /** The result of filling the pool: the slots, the index of the last slot read, and the end of scope of each closure read. */
  datatype PoolFill = PoolFill(pool: seq<Slot>, last: int, scopes: map<nat, nat>)

  /**
   * ReadPoolEntries from slot i at position at: one tagged entry at a time
   * until the pool is full (last is then its last index) or a
   * kEndClosureFunctionScope entry ends the current closure's scope (last is
   * that entry's index, whose slot holds null). An instance field fills two
   * slots, its offset then the field. A closure fills its slot and then the
   * entries of its scope, read recursively, whose last slot must hold null;
   * reading resumes after it, and scopes records where the closure's scope
   * ended.
   */
  function PoolEntriesAt(ts: seq<nat>, env: Env, pool: seq<Slot>, i: nat, at: nat): (r: Result<Parsed<PoolFill>, LoadError>)
    requires i <= |pool|
    decreases |pool| - i, 3
    ensures r.Ok? ==> var f := r.value.value;
      |f.pool| == |pool| && i - 1 <= f.last < |pool| &&
      (i < |pool| ==> i <= f.last) && (i == |pool| ==> f.pool == pool)
  {
    if i == |pool| then Ok(Parsed(PoolFill(pool, |pool| - 1, map[]), at))
    else
      var tag :- TokenAt(ts, at);
      EntryAt(ts, env, pool, tag.value, i, tag.next)
  }

  /** PoolEntriesAt at slot i once the entry's tag is read: a kEndClosureFunctionScope entry ends the scope with null, a kClosureFunction entry opens one, and any other entry fills its slots. */
  function EntryAt(ts: seq<nat>, env: Env, pool: seq<Slot>, tag: nat, i: nat, at: nat): (r: Result<Parsed<PoolFill>, LoadError>)
    requires i < |pool|
    decreases |pool| - i, 2
    ensures r.Ok? ==> |r.value.value.pool| == |pool| && i <= r.value.value.last < |pool|
  {
    if tag == EndClosureFunctionScopeTag then Ok(Parsed(PoolFill(pool[i := EndOfScopeSlot], i, map[]), at))
    else if tag == ClosureFunctionTag then EntriesAfterScope(ts, env, pool, i, at)
    else EntriesAfterSlots(ts, env, pool, tag, i, at)
  }

  /** PoolEntriesAt at slot i for a kClosureFunction entry: the closure's scope, then the entries after the scope's end, with the scopes of both. */
  function EntriesAfterScope(ts: seq<nat>, env: Env, pool: seq<Slot>, i: nat, at: nat): (r: Result<Parsed<PoolFill>, LoadError>)
    requires i < |pool|
    decreases |pool| - i, 1
    ensures r.Ok? ==> |r.value.value.pool| == |pool| && i < r.value.value.last < |pool|
  {
    var scope :- ClosureScopeAt(ts, env, pool, i, at);
    var rest :- PoolEntriesAt(ts, env, scope.value.pool, scope.value.last + 1, scope.next);
    Ok(Parsed(rest.value.(scopes := scope.value.scopes + rest.value.scopes), rest.next))
  }

  /** PoolEntriesAt at slot i for an entry tagged tag that neither opens nor closes a scope: its slots, then the entries after them. */
  function EntriesAfterSlots(ts: seq<nat>, env: Env, pool: seq<Slot>, tag: nat, i: nat, at: nat): (r: Result<Parsed<PoolFill>, LoadError>)
    requires i < |pool|
    requires tag != ClosureFunctionTag && tag != EndClosureFunctionScopeTag
    decreases |pool| - i, 0
    ensures r.Ok? ==> |r.value.value.pool| == |pool| && i <= r.value.value.last < |pool|
  {
    var step :- SlotsAt(ts, env, pool, tag, i, at);
    PoolEntriesAt(ts, env, step.value.0, step.value.1, step.next)
  }

  /**
   * A kClosureFunction entry at slot i and its scope: the closure fills slot
   * i, the entries of its scope are read from slot i + 1, and the last slot
   * they read must hold null. last is that slot, and scopes records it as the
   * end of the closure's scope.
   */
  function ClosureScopeAt(ts: seq<nat>, env: Env, pool: seq<Slot>, i: nat, at: nat): (r: Result<Parsed<PoolFill>, LoadError>)
    requires i < |pool|
    decreases |pool| - i, 0
    ensures r.Ok? ==> |r.value.value.pool| == |pool| && i < r.value.value.last < |pool|
  {
    var closure :- ClosureFunctionAt(ts, at);
    var scoped := pool[i := Entry(TaggedObject, NotPatchable, ClosureFunctionValue(closure.value))];
    var inner :- PoolEntriesAt(ts, env, scoped, i + 1, closure.next);
    var j := inner.value.last;
    if ValueOf(inner.value.pool[j]) != NullValue then Err(UnclosedClosureScope(j))
    else Ok(Parsed(inner.value.(scopes := inner.value.scopes[i := j]), inner.next))
  }

  /** PoolEntriesAt at a slot holding a kClosureFunction entry reads the closure's scope and the entries after it. */
  lemma PoolEntriesAtClosure(ts: seq<nat>, env: Env, pool: seq<Slot>, i: nat, at: nat)
    requires i < |pool| && at < |ts| && ts[at] == ClosureFunctionTag
    ensures PoolEntriesAt(ts, env, pool, i, at) == EntriesAfterScope(ts, env, pool, i, at + 1)
  {
    assert TokenAt(ts, at) == Ok(Parsed(ts[at], at + 1));
  }

  /** PoolEntriesAt at a slot holding an entry that neither opens nor closes a scope reads its slots and the entries after them. */
  lemma PoolEntriesAtSlots(ts: seq<nat>, env: Env, pool: seq<Slot>, i: nat, at: nat)
    requires i < |pool| && at < |ts| && ts[at] != ClosureFunctionTag && ts[at] != EndClosureFunctionScopeTag
    ensures PoolEntriesAt(ts, env, pool, i, at) == EntriesAfterSlots(ts, env, pool, ts[at], i, at + 1)
  {
    assert TokenAt(ts, at) == Ok(Parsed(ts[at], at + 1));
  }

  /** When EntriesAfterScope succeeds, so did the closure's scope and the entries after it. */
  lemma EntriesAfterScopeOk(ts: seq<nat>, env: Env, pool: seq<Slot>, i: nat, at: nat)
    requires i < |pool| && EntriesAfterScope(ts, env, pool, i, at).Ok?
    ensures ClosureScopeAt(ts, env, pool, i, at).Ok?
    ensures var s := ClosureScopeAt(ts, env, pool, i, at).value;
      var rest := PoolEntriesAt(ts, env, s.value.pool, s.value.last + 1, s.next);
      rest.Ok? && EntriesAfterScope(ts, env, pool, i, at).value.value == rest.value.value.(scopes := s.value.scopes + rest.value.value.scopes)
  {
  }

  /** When EntriesAfterSlots succeeds, so did SlotsAt, and reading went on after its slots. */
  lemma EntriesAfterSlotsOk(ts: seq<nat>, env: Env, pool: seq<Slot>, tag: nat, i: nat, at: nat)
    requires i < |pool| && tag != ClosureFunctionTag && tag != EndClosureFunctionScopeTag
    requires EntriesAfterSlots(ts, env, pool, tag, i, at).Ok?
    ensures SlotsAt(ts, env, pool, tag, i, at).Ok?
    ensures var s := SlotsAt(ts, env, pool, tag, i, at).value;
      EntriesAfterSlots(ts, env, pool, tag, i, at) == PoolEntriesAt(ts, env, s.value.0, s.value.1, s.next)
  {
  }

  /** When PoolEntriesAt succeeds at a slot holding a kEndClosureFunctionScope entry, the scope ends there with null. */
  lemma PoolEntriesAtEndOk(ts: seq<nat>, env: Env, pool: seq<Slot>, i: nat, at: nat)
    requires i < |pool| && at < |ts| && ts[at] == EndClosureFunctionScopeTag
    ensures PoolEntriesAt(ts, env, pool, i, at) == Ok(Parsed(PoolFill(pool[i := EndOfScopeSlot], i, map[]), at + 1))
  {
  }

  /** A closure's scope at slot i, then the entries after the scope's end, without the scopes. */
  function ScopeThenUnscoped(ts: seq<nat>, env: Env, pool: seq<Slot>, i: nat, at: nat): Result<Parsed<(seq<Slot>, int)>, LoadError>
    requires i < |pool|
  {
    match ClosureScopeAt(ts, env, pool, i, at)
    case Err(e) => Err(e)
    case Ok(s) => Unscoped(PoolEntriesAt(ts, env, s.value.pool, s.value.last + 1, s.next))
  }

  /** PoolEntriesAt at a slot holding a kClosureFunction entry: its scope, then the entries after the scope's end, without the scopes. */
  lemma PoolEntriesAfterScope(ts: seq<nat>, env: Env, pool: seq<Slot>, i: nat, at: nat)
    requires i < |pool| && at < |ts| && ts[at] == ClosureFunctionTag
    ensures Unscoped(PoolEntriesAt(ts, env, pool, i, at)) == ScopeThenUnscoped(ts, env, pool, i, at + 1)
  {
    PoolEntriesAtClosure(ts, env, pool, i, at);
    EntriesAfterScopeUnscoped(ts, env, pool, i, at + 1);
  }

  /** EntriesAfterScope without the scopes: the closure's scope, then the entries after the scope's end. */
  lemma EntriesAfterScopeUnscoped(ts: seq<nat>, env: Env, pool: seq<Slot>, i: nat, at: nat)
    requires i < |pool|
    ensures Unscoped(EntriesAfterScope(ts, env, pool, i, at)) == ScopeThenUnscoped(ts, env, pool, i, at)
  {
    var scope := ClosureScopeAt(ts, env, pool, i, at);
    if scope.Ok? {
      var rest := PoolEntriesAt(ts, env, scope.value.value.pool, scope.value.value.last + 1, scope.value.next);
      assert EntriesAfterScope(ts, env, pool, i, at) ==
        if rest.Err? then Err(rest.error)
        else Ok(Parsed(rest.value.value.(scopes := scope.value.value.scopes + rest.value.value.scopes), rest.value.next));
    }
  }

  /** The slots of an entry tagged tag at slot i, then the entries after them, without the scopes. */
  function SlotsThenUnscoped(ts: seq<nat>, env: Env, pool: seq<Slot>, tag: nat, i: nat, at: nat): Result<Parsed<(seq<Slot>, int)>, LoadError>
    requires i < |pool| && tag != ClosureFunctionTag && tag != EndClosureFunctionScopeTag
  {
    match SlotsAt(ts, env, pool, tag, i, at)
    case Err(e) => Err(e)
    case Ok(s) => Unscoped(PoolEntriesAt(ts, env, s.value.0, s.value.1, s.next))
  }

  /** PoolEntriesAt at a slot holding an entry that neither opens nor closes a scope: its slots, then the entries after them, without the scopes. */
  lemma PoolEntriesAfterSlots(ts: seq<nat>, env: Env, pool: seq<Slot>, i: nat, at: nat)
    requires i < |pool| && at < |ts| && ts[at] != ClosureFunctionTag && ts[at] != EndClosureFunctionScopeTag
    ensures Unscoped(PoolEntriesAt(ts, env, pool, i, at)) == SlotsThenUnscoped(ts, env, pool, ts[at], i, at + 1)
  {
    PoolEntriesAtSlots(ts, env, pool, i, at);
  }

  /** How one iteration of ReadPoolEntries ends: the entry closed a closure's scope, or reading goes on at slot next. */
  datatype PoolStep = ScopeEnd | Continue(next: nat)

  /** What ReadPoolEntries answers and leaves in the pool, without the scopes it does not return. */
  function Unscoped(r: Result<Parsed<PoolFill>, LoadError>): Result<Parsed<(seq<Slot>, int)>, LoadError> {
    match r
    case Ok(p) => Ok(Parsed((p.value.pool, p.value.last), p.next))
    case Err(e) => Err(e)
  }

  /** What a pool-filling reader method answers, with the pool it leaves and its final cursor, in the form of a decoder's answer. */
  function Placed<T>(r: Result<T, LoadError>, pool: seq<Slot>, offset: nat): Result<Parsed<(seq<Slot>, T)>, LoadError> {
    match r
    case Ok(v) => Ok(Parsed((pool, v), offset))
    case Err(e) => Err(e)
  }

  /** A reader method that answers nothing but leaves value, with its final cursor, in the form of a decoder's answer. */
  function Done<T>(r: Result<(), LoadError>, value: T, offset: nat): Result<Parsed<T>, LoadError> {
    match r
    case Ok(_) => Ok(Parsed(value, offset))
    case Err(e) => Err(e)
  }

  /** ReadBytecode at position at: a length, then that many bytes, which are skipped unchecked. */
  function BytecodeAt(ts: seq<nat>, pool: seq<Slot>, at: nat): (r: Result<Parsed<Code>, LoadError>)
    ensures r.Ok? <==> at < |ts|
    ensures r.Ok? ==> r.value == Parsed(Code(at + 1, ts[at], pool, None), at + 1 + ts[at])
  {
    var size :- TokenAt(ts, at);
    Ok(Parsed(Code(size.next, size.value, pool, None), size.next + size.value))
  }

  /** A try region as the exceptions table describes it: its start and end descriptors and its handler. */
  datatype Region = Region(start: PcDescriptor, end: PcDescriptor, handler: Handler)

  /** left more handled types, each a pool index below poolLength, after the types acc already read. */
  function TypesFrom(ts: seq<nat>, at: nat, left: nat, poolLength: nat, acc: seq<nat>): (r: Result<Parsed<seq<nat>>, LoadError>)
    ensures r.Ok? <==> left == 0 || (at + left <= |ts| && forall k :: at <= k < at + left ==> ts[k] < poolLength)
    ensures r.Ok? && left == 0 ==> r.value == Parsed(acc, at)
    ensures r.Ok? && left > 0 ==> r.value == Parsed(acc + ts[at..at + left], at + left)
    decreases left
  {
    if left == 0 then Ok(Parsed(acc, at))
    else
      var t :- TokenAt(ts, at);
      if t.value >= poolLength then Err(BadTypeIndex(t.value))
      else
        var r := TypesFrom(ts, t.next, left - 1, poolLength, acc + [t.value]);
        assert at + left <= |ts| ==> acc + [t.value] + ts[at + 1..at + left] == acc + ts[at..at + left];
        assert left == 1 && at + 1 <= |ts| ==> acc + [t.value] == acc + ts[at..at + 1];
        r
  }

  /**
   * Try region tryIndex at position at: its enclosing try index plus one, its
   * start, end and handler PCs, its flags byte (bit 0 needs a stack trace, bit
   * 1 synthetic) and its handled types, at least one.
   */
  function RegionAt(ts: seq<nat>, env: Env, poolLength: nat, tryIndex: nat, at: nat): (r: Result<Parsed<Region>, LoadError>)
    ensures r.Ok? <==>
      at + 6 <= |ts| && ts[at + 4] < 256 && ts[at + 5] > 0 && at + 6 + ts[at + 5] <= |ts| &&
      forall k :: at + 6 <= k < at + 6 + ts[at + 5] ==> ts[k] < poolLength
    ensures at + 6 <= |ts| && ts[at + 4] < 256 && ts[at + 5] == 0 ==> r == Err(NoHandledTypes(tryIndex))
    ensures r.Ok? ==> var g, h := r.value.value, r.value.value.handler;
      r.value.next == at + 6 + ts[at + 5] &&
      g.start == PcDescriptor(OtherDescriptor, env.pcToOffset(ts[at + 1], true), tryIndex) &&
      g.end == PcDescriptor(OtherDescriptor, env.pcToOffset(ts[at + 2], true), -1) &&
      h.tryIndex == tryIndex && h.outerTryIndex == ts[at] as int - 1 &&
      h.handlerPcOffset == env.pcToOffset(ts[at + 3], false) &&
      h.needsStackTrace == (ts[at + 4] % 2 == 1) && h.isGenerated == ((ts[at + 4] / 2) % 2 == 1) &&
      h.handlerTypes == ts[at + 6..at + 6 + ts[at + 5]]
    ensures r.Ok? ==> var h := r.value.value.handler;
      h.outerTryIndex >= -1 && |h.handlerTypes| > 0 && forall ty :: ty in h.handlerTypes ==> ty < poolLength
  {
    var outerPlus1 :- TokenAt(ts, at);
    var startPc :- TokenAt(ts, outerPlus1.next);
    var endPc :- TokenAt(ts, startPc.next);
    var handlerPc :- TokenAt(ts, endPc.next);
    var flags :- TokenBelowAt(ts, handlerPc.next, 256);
    var typeCount :- TokenAt(ts, flags.next);
    if typeCount.value == 0 then Err(NoHandledTypes(tryIndex))
    else
      var types :- TypesFrom(ts, typeCount.next, typeCount.value, poolLength, []);
      var handler := Handler(tryIndex, outerPlus1.value as int - 1, env.pcToOffset(handlerPc.value, false),
                             (flags.value / 2) % 2 == 1, types.value, flags.value % 2 == 1);
      Ok(Parsed(Region(PcDescriptor(OtherDescriptor, env.pcToOffset(startPc.value, true), tryIndex),
                       PcDescriptor(OtherDescriptor, env.pcToOffset(endPc.value, true), -1), handler), types.next))
  }

  /** The tables t with one more region: its two descriptors and its handler. */
  function AddRegion(t: ExceptionTables, g: Region): ExceptionTables {
    ExceptionTables(t.descriptors + [g.start, g.end], t.handlers + [g.handler])
  }

  /** Regions tryIndex up to count, added to the tables acc of the regions before them. */
  function RegionsFrom(ts: seq<nat>, env: Env, poolLength: nat, count: nat, tryIndex: nat, at: nat, acc: ExceptionTables)
    : Result<Parsed<ExceptionTables>, LoadError>
    decreases count - tryIndex, 1
  {
    if tryIndex >= count then Ok(Parsed(acc, at)) else NextRegions(ts, env, poolLength, count, tryIndex, at, acc)
  }

  /** RegionsFrom with regions left to read: region tryIndex, then the regions after it. */
  function NextRegions(ts: seq<nat>, env: Env, poolLength: nat, count: nat, tryIndex: nat, at: nat, acc: ExceptionTables)
    : Result<Parsed<ExceptionTables>, LoadError>
    requires tryIndex < count
    decreases count - tryIndex, 0
  {
    var g :- RegionAt(ts, env, poolLength, tryIndex, at);
    RegionsFrom(ts, env, poolLength, count, tryIndex + 1, g.next, AddRegion(acc, g.value))
  }

  /** ReadExceptionsTable at position at: empty tables without a table or without try regions, the regions' tables otherwise. */
  function ExceptionsTableAt(ts: seq<nat>, env: Env, poolLength: nat, hasExceptionsTable: bool, at: nat)
    : (r: Result<Parsed<ExceptionTables>, LoadError>)
    ensures !hasExceptionsTable ==> r == Ok(Parsed(ExceptionTables([], []), at))
    ensures hasExceptionsTable && at < |ts| && ts[at] == 0 ==> r == Ok(Parsed(ExceptionTables([], []), at + 1))
  {
    if !hasExceptionsTable then Ok(Parsed(ExceptionTables([], []), at))
    else
      var count :- TokenAt(ts, at);
      if count.value == 0 then Ok(Parsed(ExceptionTables([], []), count.next))
      else RegionsFrom(ts, env, poolLength, count.value, 0, count.next, ExceptionTables([], []))
  }

  /** Each region read adds two descriptors and a handler that keep the tables well formed. */
  lemma {:induction false} RegionsFromKeepTables(ts: seq<nat>, env: Env, poolLength: nat, count: nat, tryIndex: nat, at: nat, acc: ExceptionTables)
    requires TablesOk(acc, poolLength) && |acc.handlers| == tryIndex <= count
    requires RegionsFrom(ts, env, poolLength, count, tryIndex, at, acc).Ok?
    ensures var t := RegionsFrom(ts, env, poolLength, count, tryIndex, at, acc).value.value;
      TablesOk(t, poolLength) && |t.handlers| == count && t.handlers[..tryIndex] == acc.handlers
    decreases count - tryIndex
  {
    if tryIndex < count {
      var g := RegionAt(ts, env, poolLength, tryIndex, at).value;
      AppendRegionKeepsTables(acc.descriptors, acc.handlers, g.value.start.pcOffset, g.value.end.pcOffset, g.value.handler, poolLength);
      RegionsFromKeepTables(ts, env, poolLength, count, tryIndex + 1, g.next, AddRegion(acc, g.value));
      var t := RegionsFrom(ts, env, poolLength, count, tryIndex, at, acc).value.value;
      assert t.handlers[..tryIndex] == (acc.handlers + [g.value.handler])[..tryIndex];
    }
  }

  /**
   * A table read has one handler per try region its count announces, two
   * descriptors per handler, and every handled type a slot of the pool.
   */
  lemma ExceptionsTableWellFormed(ts: seq<nat>, env: Env, poolLength: nat, hasExceptionsTable: bool, at: nat)
    requires ExceptionsTableAt(ts, env, poolLength, hasExceptionsTable, at).Ok?
    ensures var t := ExceptionsTableAt(ts, env, poolLength, hasExceptionsTable, at).value.value;
      TablesOk(t, poolLength) && (hasExceptionsTable ==> at < |ts| && |t.handlers| == ts[at])
  {
    if hasExceptionsTable && ts[at] > 0 {
      RegionsFromKeepTables(ts, env, poolLength, ts[at], 0, at + 1, ExceptionTables([], []));
    }
  }

  /** Entry k of the tables t, its handler and its two descriptors, is the region RegionAt reads for try index k at position p. */
  predicate RegionReadAt(ts: seq<nat>, env: Env, poolLength: nat, k: nat, p: nat, t: ExceptionTables)
    requires k < |t.handlers| && 2 * k + 1 < |t.descriptors|
  {
    var g := RegionAt(ts, env, poolLength, k, p);
    g.Ok? && t.handlers[k] == g.value.value.handler &&
    t.descriptors[2 * k] == g.value.value.start && t.descriptors[2 * k + 1] == g.value.value.end
  }

  /** Entry k of the tables t is the region read for try index k somewhere in the stream. */
  ghost predicate RegionRead(ts: seq<nat>, env: Env, poolLength: nat, k: nat, t: ExceptionTables) {
    k < |t.handlers| && 2 * k + 1 < |t.descriptors| && exists p: nat :: RegionReadAt(ts, env, poolLength, k, p, t)
  }

  /** Regions tryIndex up to count keep the entries of acc and add, at index k, the region read for try index k. */
  lemma {:induction false} RegionsFromReadEach(ts: seq<nat>, env: Env, poolLength: nat, count: nat, tryIndex: nat, at: nat, acc: ExceptionTables)
    requires |acc.handlers| == tryIndex <= count && |acc.descriptors| == 2 * tryIndex
    requires RegionsFrom(ts, env, poolLength, count, tryIndex, at, acc).Ok?
    ensures var t := RegionsFrom(ts, env, poolLength, count, tryIndex, at, acc).value.value;
      |t.handlers| == count && |t.descriptors| == 2 * count &&
      t.handlers[..tryIndex] == acc.handlers && t.descriptors[..2 * tryIndex] == acc.descriptors &&
      (forall k :: tryIndex <= k < count ==> RegionRead(ts, env, poolLength, k, t)) &&
      (tryIndex < count ==> RegionReadAt(ts, env, poolLength, tryIndex, at, t))
    decreases count - tryIndex
  {
    if tryIndex < count {
      var g := RegionAt(ts, env, poolLength, tryIndex, at).value;
      var next := AddRegion(acc, g.value);
      RegionsFromReadEach(ts, env, poolLength, count, tryIndex + 1, g.next, next);
      var t := RegionsFrom(ts, env, poolLength, count, tryIndex, at, acc).value.value;
      assert t == RegionsFrom(ts, env, poolLength, count, tryIndex + 1, g.next, next).value.value;
      assert t.handlers[..tryIndex] == next.handlers[..tryIndex] && t.handlers[tryIndex] == next.handlers[tryIndex] by {
        assert t.handlers[..tryIndex + 1][..tryIndex] == t.handlers[..tryIndex];
      }
      assert t.descriptors[..2 * tryIndex] == next.descriptors[..2 * tryIndex] by {
        assert t.descriptors[..2 * tryIndex + 2][..2 * tryIndex] == t.descriptors[..2 * tryIndex];
      }
      assert t.descriptors[2 * tryIndex] == next.descriptors[2 * tryIndex] && t.descriptors[2 * tryIndex + 1] == next.descriptors[2 * tryIndex + 1] by {
        assert t.descriptors[..2 * tryIndex + 2][2 * tryIndex] == t.descriptors[2 * tryIndex];
        assert t.descriptors[..2 * tryIndex + 2][2 * tryIndex + 1] == t.descriptors[2 * tryIndex + 1];
      }
      assert RegionReadAt(ts, env, poolLength, tryIndex, at, t);
    }
  }

  /**
   * Every entry of a table read is the region read for its try index: its
   * PCs, enclosing try index, flags and handled types as RegionAt decodes
   * them from the tokens. The first region starts right after the count.
   */
  lemma ExceptionsTableReadsRegions(ts: seq<nat>, env: Env, poolLength: nat, hasExceptionsTable: bool, at: nat)
    requires ExceptionsTableAt(ts, env, poolLength, hasExceptionsTable, at).Ok?
    ensures var t := ExceptionsTableAt(ts, env, poolLength, hasExceptionsTable, at).value.value;
      |t.descriptors| == 2 * |t.handlers| &&
      (forall k: nat :: k < |t.handlers| ==> RegionRead(ts, env, poolLength, k, t)) &&
      (|t.handlers| > 0 ==> RegionReadAt(ts, env, poolLength, 0, at + 1, t))
  {
    if hasExceptionsTable && ts[at] > 0 {
      RegionsFromReadEach(ts, env, poolLength, ts[at], 0, at + 1, ExceptionTables([], []));
    }
  }

  /** The nullable fields at position at: a count and the field references, kept only when field guards are used. */
  function NullableFieldsAt(ts: seq<nat>, env: Env, at: nat): (r: Result<Parsed<seq<nat>>, LoadError>)
    ensures r.Ok? <==> at < |ts| && (ts[at] == 0 || at + 1 + ts[at] <= |ts|)
    ensures r.Ok? ==> r.value.next == at + 1 + ts[at]
    ensures r.Ok? && !env.useFieldGuards ==> r.value.value == []
    ensures r.Ok? && env.useFieldGuards ==> r.value.value == ts[at + 1..at + 1 + ts[at]]
  {
    var numFields :- TokenAt(ts, at);
    var fields :- TokensAt(ts, numFields.next, numFields.value);
    Ok(Parsed(if env.useFieldGuards then fields.value else [], fields.next))
  }

  /** A closure's slot c in pool, as ReadClosures demands it: a written closure function. */
  predicate IsClosureSlot(pool: seq<Slot>, c: nat) {
    c < |pool| && pool[c].Entry? && pool[c].value.ClosureFunctionValue?
  }

  /** One closure: a pool index holding a closure function, its bytecode and its exceptions table, recorded in closures. */
  function ClosureAt(ts: seq<nat>, env: Env, pool: seq<Slot>, at: nat, closures: map<nat, Code>)
    : (r: Result<Parsed<map<nat, Code>>, LoadError>)
  {
    var index :- TokenAt(ts, at);
    if !IsClosureSlot(pool, index.value) then Err(BadClosureIndex(index.value))
    else
      var code :- BytecodeAt(ts, pool, index.next);
      var tables :- ExceptionsTableAt(ts, env, |pool|, true, code.next);
      Ok(Parsed(closures[index.value := code.value.(tables := Some(tables.value))], tables.next))
  }

  /** left more closures, each recorded in closures; every entry is either one of closures or a loaded closure. */
  function ClosuresFrom(ts: seq<nat>, env: Env, pool: seq<Slot>, at: nat, left: nat, closures: map<nat, Code>)
    : (r: Result<Parsed<map<nat, Code>>, LoadError>)
    decreases left, 1
  {
    if left == 0 then Ok(Parsed(closures, at)) else NextClosures(ts, env, pool, at, left, closures)
  }

  /** ClosuresFrom with left > 0: one closure, then the others after it. */
  function NextClosures(ts: seq<nat>, env: Env, pool: seq<Slot>, at: nat, left: nat, closures: map<nat, Code>)
    : (r: Result<Parsed<map<nat, Code>>, LoadError>)
    requires left > 0
    decreases left, 0
  {
    var one :- ClosureAt(ts, env, pool, at, closures);
    ClosuresFrom(ts, env, pool, one.next, left - 1, one.value)
  }

  /** ClosuresFrom with closures left to read: the first one, then the others after it. */
  lemma ClosuresFromNext(ts: seq<nat>, env: Env, pool: seq<Slot>, at: nat, left: nat, closures: map<nat, Code>)
    requires left > 0
    ensures ClosuresFrom(ts, env, pool, at, left, closures) ==
      match ClosureAt(ts, env, pool, at, closures)
      case Err(e) => Err(e)
      case Ok(one) => ClosuresFrom(ts, env, pool, one.next, left - 1, one.value)
  {
  }

  /** The closures at position at: their count, then the closures, added to closures. */
  function ClosuresAt(ts: seq<nat>, env: Env, pool: seq<Slot>, at: nat, closures: map<nat, Code>)
    : (r: Result<Parsed<map<nat, Code>>, LoadError>)
  {
    var count :- TokenAt(ts, at);
    ClosuresFrom(ts, env, pool, count.next, count.value, closures)
  }

  /** The closures read keep the ones recorded before, and every other entry is a loaded closure. */
  predicate ClosuresKept(pool: seq<Slot>, closures: map<nat, Code>, after: map<nat, Code>) {
    closures.Keys <= after.Keys &&
    forall c :: c in after ==> (c in closures && after[c] == closures[c]) || ClosureLoaded(pool, after, c)
  }

  /** Keeping the closures of a and then those of b keeps the closures of a. */
  lemma ClosuresKeptTransitive(pool: seq<Slot>, a: map<nat, Code>, b: map<nat, Code>, c: map<nat, Code>)
    requires ClosuresKept(pool, a, b) && ClosuresKept(pool, b, c)
    ensures ClosuresKept(pool, a, c)
  {
    forall k | k in c && !(k in a && c[k] == a[k])
      ensures ClosureLoaded(pool, c, k)
    {
      if k in b && c[k] == b[k] {
        assert ClosureLoaded(pool, b, k);
      }
    }
  }

  /** What ClosureAt records is a loaded closure at the pool index it read. */
  lemma ClosureAtLoads(ts: seq<nat>, env: Env, pool: seq<Slot>, at: nat, closures: map<nat, Code>)
    requires ClosureAt(ts, env, pool, at, closures).Ok?
    ensures ClosuresKept(pool, closures, ClosureAt(ts, env, pool, at, closures).value.value)
  {
    var code := BytecodeAt(ts, pool, at + 1).value;
    ExceptionsTableWellFormed(ts, env, |pool|, true, code.next);
  }

  /** What ClosuresFrom records is a loaded closure at each pool index it read. */
  lemma {:induction false} ClosuresFromLoads(ts: seq<nat>, env: Env, pool: seq<Slot>, at: nat, left: nat, closures: map<nat, Code>)
    requires ClosuresFrom(ts, env, pool, at, left, closures).Ok?
    ensures ClosuresKept(pool, closures, ClosuresFrom(ts, env, pool, at, left, closures).value.value)
    decreases left
  {
    if left > 0 {
      ClosuresFromNext(ts, env, pool, at, left, closures);
      var one := ClosureAt(ts, env, pool, at, closures).value;
      ClosuresFromLoads(ts, env, pool, one.next, left - 1, one.value);
      ClosureAtLoads(ts, env, pool, at, closures);
      ClosuresKeptTransitive(pool, closures, one.value, ClosuresFrom(ts, env, pool, one.next, left - 1, one.value).value.value);
    }
  }

  /** What ReadMetadata leaves: the function's bytecode with its tables, the recorded nullable fields and the closures' bytecode. */
  datatype Metadata = Metadata(code: Code, recorded: seq<nat>, closures: map<nat, Code>)

  /**
   * ReadMetadata of a payload at md: the flags word, the pool length and
   * entries, the bytecode, its exceptions table if the flags say so; then, if
   * the flags say so, the nullable fields (only a generative constructor may
   * have them) and the closures, added to closures.
   */
  function MetadataAt(ts: seq<nat>, env: Env, isGenerativeConstructor: bool, md: nat, closures: map<nat, Code>)
    : (r: Result<Metadata, LoadError>)
  {
    var flags :- TokenAt(ts, md);
    var objCount :- TokenAt(ts, flags.next);
    var fill :- PoolEntriesAt(ts, env, seq(objCount.value, _ => Empty), 0, objCount.next);
    MetadataAfterPool(ts, env, isGenerativeConstructor, MetadataFlags(flags.value), fill.value.pool, fill.next, closures)
  }

  /** The rest of a payload after its pool: the bytecode, then the tables, nullable fields and closures the flags has announce. */
  function MetadataAfterPool(ts: seq<nat>, env: Env, isGenerativeConstructor: bool, has: (bool, bool, bool), pool: seq<Slot>,
                             at: nat, closures: map<nat, Code>)
    : (r: Result<Metadata, LoadError>)
  {
    var code :- BytecodeAt(ts, pool, at);
    var tables :- ExceptionsTableAt(ts, env, |pool|, has.0, code.next);
    var nullable :-
      if !has.1 then Ok(Parsed([], tables.next))
      else if !isGenerativeConstructor then Err(NotAGenerativeConstructor)
      else NullableFieldsAt(ts, env, tables.next);
    var loaded :- if !has.2 then Ok(Parsed(closures, nullable.next)) else ClosuresAt(ts, env, pool, nullable.next, closures);
    Ok(Metadata(code.value.(tables := Some(tables.value)), nullable.value, loaded.value))
  }


  // ---------------------------------------------------------------------
  // The metadata helper

  /** BytecodeMetadataHelper with its kernel reader: the token sequence and the read cursor. */
  class BytecodeMetadataHelper {
    const tokens: seq<nat>
    const env: Env
    var offset: nat

    constructor(tokens: seq<nat>, env: Env)
      ensures this.tokens == tokens && this.env == env && offset == 0
    {
      this.tokens := tokens;
      this.env := env;
      offset := 0;
    }

    /** One primitive read: the token under the cursor, which then moves past it. */
    method ReadToken() returns (r: Result<nat, LoadError>)
      modifies this
      ensures Track(r, offset) == TokenAt(tokens, old(offset))
      ensures r.Err? ==> offset == old(offset)
    {
      if offset < |tokens| {
        r := Ok(tokens[offset]);
        offset := offset + 1;
      } else {
        r := Err(EndOfData);
      }
    }

    /** ReadByte: a token that must fit in 8 bits. */
    method ReadByte() returns (r: Result<nat, LoadError>)
      modifies this
      ensures Track(r, offset) == TokenBelowAt(tokens, old(offset), 256)
    {
      var t :- ReadToken();
      if t >= 256 {
        return Err(MalformedToken(t));
      }
      return Ok(t);
    }

    /** ReadUInt32: a token that must fit in 32 bits. */
    method ReadUInt32() returns (r: Result<nat, LoadError>)
      modifies this
      ensures Track(r, offset) == TokenBelowAt(tokens, old(offset), TwoTo32)
    {
      var t :- ReadToken();
      if t >= TwoTo32 {
        return Err(MalformedToken(t));
      }
      return Ok(t);
    }

    /** count successive tokens. */
    method ReadTokens(count: nat) returns (r: Result<seq<nat>, LoadError>)
      modifies this
      ensures Track(r, offset) == TokensAt(tokens, old(offset), count)
    {
      var items: seq<nat> := [];
      var j := 0;
      while j < count
        invariant 0 <= j <= count && offset == old(offset) + j && |items| == j
        invariant j > 0 ==> offset <= |tokens| && items == tokens[old(offset)..offset]
      {
        var t :- ReadToken();
        items := items + [t];
        j := j + 1;
      }
      return Ok(items);
    }

    /** A pool index read by an entry at slot i, which must lie strictly below i. */
    method ReadIndexBelow(i: nat) returns (r: Result<nat, LoadError>)
      modifies this
      ensures Track(r, offset) == IndexBelowAt(tokens, old(offset), i)
    {
      var index :- ReadToken();
      if index >= i {
        return Err(BadReference(index, i));
      }
      return Ok(index);
    }

    /** count successive pool indices, each of which must lie strictly below slot i. */
    method ReadIndicesBelow(count: nat, i: nat) returns (r: Result<seq<nat>, LoadError>)
      modifies this
      ensures Track(r, offset) == IndicesFrom(tokens, old(offset), count, i, [])
    {
      var items: seq<nat> := [];
      var j := 0;
      while j < count
        invariant 0 <= j <= count && |items| == j
        invariant IndicesFrom(tokens, offset, count - j, i, items) == IndicesFrom(tokens, old(offset), count, i, [])
      {
        var index :- ReadIndexBelow(i);
        items := items + [index];
        j := j + 1;
      }
      return Ok(items);
    }

    /** A kInt or kDouble entry: two 32-bit halves, low first, read as one 64-bit word. */
    method ReadNumber(isInt: bool) returns (r: Result<PoolValue, LoadError>)
      modifies this
      ensures Track(r, offset) == NumberAt(tokens, old(offset), isInt)
    {
      var low :- ReadUInt32();
      var high :- ReadUInt32();
      if isInt {
        return Ok(IntValue(Int64FromHalves(low, high)));
      }
      return Ok(DoubleValue(CombineHalves(low, high)));
    }

    /** A kArgDesc entry: the argument count, the type-argument count, then the argument names. */
    method ReadArgDesc() returns (r: Result<PoolValue, LoadError>)
      modifies this
      ensures Track(r, offset) == ArgDescAt(tokens, old(offset))
    {
      var numArguments :- ReadToken();
      var numTypeArgs :- ReadToken();
      var numArgNames :- ReadToken();
      var names :- ReadTokens(numArgNames);
      return Ok(ArgDescValue(numTypeArgs, numArguments, names));
    }

    /** A kICData entry at slot i: flags, name and arguments descriptor, as ICDataAt reads them. */
    method ReadICData(pool: array<Slot>, i: nat) returns (r: Result<PoolValue, LoadError>)
      requires i <= pool.Length
      modifies this
      ensures Track(r, offset) == ICDataAt(tokens, env, pool[..], i, old(offset))
    {
      var flags :- ReadByte();
      var kind :- KindResult(flags % 4);
      var isDynamic := (flags / 4) % 2 == 1;
      var name :- ReadToken();
      var argDesc :- ReadIndexBelow(i);
      var checked :- CheckedArgumentCount(env, kind, name, argDesc, ValueOf(pool[argDesc]));
      var selector := Selector(name, kind, UsesDynamicForwarder(env, kind, isDynamic, name));
      return Ok(ICDataValue(selector, argDesc, checked));
    }

    /** A kStaticICData entry at slot i: invocation kind, target and arguments descriptor. */
    method ReadStaticICData(i: nat) returns (r: Result<PoolValue, LoadError>)
      modifies this
      ensures Track(r, offset) == StaticICDataAt(tokens, env, i, old(offset))
    {
      var k :- ReadByte();
      var target :- ReadToken();
      var kind :- KindResult(k);
      if kind == Method && (env.targetKind(target) == FieldTarget || env.targetKind(target) == GetterProcedure) {
        return Err(Unimplemented);
      }
      var argDesc :- ReadIndexBelow(i);
      return Ok(StaticICDataValue(target, kind, argDesc));
    }

    /** A kList entry at slot i: the element type, then the element indices, each below i. */
    method ReadList(i: nat) returns (r: Result<PoolValue, LoadError>)
      modifies this
      ensures Track(r, offset) == ListAt(tokens, i, old(offset))
    {
      var elementType :- ReadToken();
      var length :- ReadToken();
      var elements :- ReadIndicesBelow(length, i);
      return Ok(ListValue(elementType, elements));
    }

    /** A kInstance entry at slot i: the class, the type-arguments index below i, then (field, value index below i) pairs. */
    method ReadInstance(i: nat) returns (r: Result<PoolValue, LoadError>)
      modifies this
      ensures Track(r, offset) == InstanceAt(tokens, i, old(offset))
    {
      var cls :- ReadToken();
      var typeArgs :- ReadIndexBelow(i);
      var numFields :- ReadToken();
      ghost var start := offset;
      var fields: seq<(nat, nat)> := [];
      var j := 0;
      while j < numFields
        invariant 0 <= j <= numFields && |fields| == j
        invariant FieldsFrom(tokens, offset, numFields - j, i, fields) == FieldsFrom(tokens, start, numFields, i, [])
      {
        var field :- ReadToken();
        var value :- ReadIndexBelow(i);
        fields := fields + [(field, value)];
        j := j + 1;
      }
      return Ok(InstanceValue(cls, typeArgs, fields));
    }

    /** A kSymbol entry: the library (none when it is the root) and the name. */
    method ReadSymbol() returns (r: Result<PoolValue, LoadError>)
      modifies this
      ensures Track(r, offset) == SymbolAt(tokens, env, old(offset))
    {
      var lib :- ReadToken();
      var name :- ReadToken();
      return Ok(SymbolValue(if env.isRootLibrary(lib) then None else Some(lib), name));
    }

    /** count parameter declarations, each a name and a type. */
    method ReadParameters(count: nat) returns (r: Result<(seq<nat>, seq<nat>), LoadError>)
      modifies this
      ensures Track(r, offset) == ParametersFrom(tokens, old(offset), count, [], [])
    {
      var names: seq<nat> := [];
      var types: seq<nat> := [];
      var j := 0;
      while j < count
        invariant 0 <= j <= count && |names| == j && |types| == j
        invariant ParametersFrom(tokens, offset, count - j, names, types) == ParametersFrom(tokens, old(offset), count, [], [])
      {
        var name :- ReadToken();
        var ty :- ReadToken();
        names, types := names + [name], types + [ty];
        j := j + 1;
      }
      return Ok((names, types));
    }

    /** A kClosureFunction entry, as ClosureFunctionAt reads it. */
    method ReadClosureFunction() returns (r: Result<ClosureSignature, LoadError>)
      modifies this
      ensures Track(r, offset) == ClosureFunctionAt(tokens, old(offset))
    {
      var name :- ReadToken();
      var numTypeParameters :- ReadToken();
      var typeParameters :- ReadTokens(numTypeParameters);
      var required :- ReadToken();
      var total :- ReadToken();
      var positional :- ReadToken();
      var named: int := total as int - positional;
      var positionalParameters :- ReadParameters(positional);
      var namedCheck :- ReadToken();
      if namedCheck != named {
        return Err(NamedParameterCountMismatch);
      }
      var namedParameters :- ReadParameters(namedCheck);
      var resultType :- ReadToken();
      var numOptional: int := if named > 0 then named else positional as int - required;
      var signature := ClosureSignature(
        name, typeParameters, 1 + required, numOptional, !(named > 0),
        positionalParameters.0 + namedParameters.0, positionalParameters.1 + namedParameters.1, resultType);
      return Ok(signature);
    }

    /** The value of a pool entry whose tag fills exactly one slot, at slot i, as EntryValueAt reads it. */
    method ReadEntryValue(pool: array<Slot>, tag: nat, i: nat) returns (r: Result<PoolValue, LoadError>)
      requires i <= pool.Length
      requires tag != InstanceFieldTag && tag != ClosureFunctionTag && tag != EndClosureFunctionScopeTag && tag != NativeEntryTag
      modifies this
      ensures Track(r, offset) == EntryValueAt(tokens, env, pool[..], tag, i, old(offset))
    {
      if tag == NullTag {
        return Ok(NullValue);
      } else if tag == StringTag {
        var s :- ReadToken();
        return Ok(StringValue(s));
      } else if tag == IntTag || tag == DoubleTag {
        r := ReadNumber(tag == IntTag);
      } else if tag == BoolTag {
        var b :- ReadToken();
        return Ok(BoolValue(b == 1));
      } else if tag == ArgDescTag {
        r := ReadArgDesc();
      } else if tag == ICDataTag {
        r := ReadICData(pool, i);
      } else if tag == StaticICDataTag {
        r := ReadStaticICData(i);
      } else if tag == StaticFieldTag {
        var f :- ReadToken();
        return Ok(StaticFieldValue(f));
      } else if tag == ClassTag {
        var c :- ReadToken();
        return Ok(ClassValue(c));
      } else if tag == TypeArgumentsFieldTag {
        var c :- ReadToken();
        return Ok(TypeArgumentsFieldOffsetValue(c));
      } else if tag == TearOffTag {
        var p :- ReadToken();
        return Ok(TearOffValue(p));
      } else if tag == TypeTag {
        var t :- ReadToken();
        return Ok(TypeValue(t));
      } else if tag == TypeArgumentsTag {
        var n :- ReadToken();
        var types :- ReadTokens(n);
        return Ok(TypeArgumentsValue(types));
      } else if tag == ListTag {
        r := ReadList(i);
      } else if tag == InstanceTag {
        r := ReadInstance(i);
      } else if tag == TypeArgumentsForInstanceAllocationTag {
        var c :- ReadToken();
        var n :- ReadToken();
        var types :- ReadTokens(n);
        return Ok(InstantiationTypeArgumentsValue(c, types));
      } else if tag == SubtypeTestCacheTag {
        return Ok(SubtypeTestCacheValue);
      } else if tag == PartialTearOffInstantiationTag {
        var tearOff :- ReadIndexBelow(i);
        var typeArgs :- ReadIndexBelow(i);
        return Ok(PartialTearOffValue(tearOff, typeArgs));
      } else if tag == EmptyTypeArgumentsTag {
        return Ok(EmptyTypeArgumentsValue);
      } else if tag == SymbolTag {
        r := ReadSymbol();
      } else {
        return Err(UnknownTag(tag));
      }
    }

    /**
     * A pool entry at slot i that neither opens nor closes a closure scope, as
     * SlotsAt reads it; the answer is the next slot to fill.
     */
    method ReadSlots(pool: array<Slot>, tag: nat, i: nat) returns (r: Result<nat, LoadError>)
      requires i < pool.Length
      requires tag != ClosureFunctionTag && tag != EndClosureFunctionScopeTag
      modifies this, pool
      ensures Placed(r, pool[..], offset) == SlotsAt(tokens, env, old(pool[..]), tag, i, old(offset))
    {
      if tag == InstanceFieldTag {
        var field :- ReadToken();
        if i + 1 >= pool.Length {
          return Err(PoolOverflow(i + 1));
        }
        pool[i] := Entry(TaggedObject, NotPatchable, FieldOffsetValue(field));
        pool[i + 1] := Entry(TaggedObject, NotPatchable, InstanceFieldValue(field));
        return Ok(i + 2);
      } else if tag == NativeEntryTag {
        var name :- ReadToken();
        var data :- NativeEntry(env, name);
        pool[i] := Entry(NativeEntryDataType, NotPatchable, NativeEntryValue(data));
        return Ok(i + 1);
      } else {
        var v :- ReadEntryValue(pool, tag, i);
        pool[i] := Entry(TaggedObject, NotPatchable, v);
        return Ok(i + 1);
      }
    }

    /**
     * A kClosureFunction entry at slot i and the entries of its scope, read
     * recursively, as ClosureScopeAt reads them; the answer is the slot that
     * closed the scope.
     */
    method ReadClosureScope(pool: array<Slot>, i: nat) returns (r: Result<int, LoadError>)
      requires i < pool.Length
      modifies this, pool
      decreases pool.Length - i, 0
      ensures Placed(r, pool[..], offset) == Unscoped(ClosureScopeAt(tokens, env, old(pool[..]), i, old(offset)))
    {
      var closure :- ReadClosureFunction();
      pool[i] := Entry(TaggedObject, NotPatchable, ClosureFunctionValue(closure));
      var j :- ReadPoolEntries(pool, i + 1);
      if ValueOf(pool[j]) != NullValue {
        return Err(UnclosedClosureScope(j));
      }
      return Ok(j);
    }

    /**
     * One iteration of ReadPoolEntries at slot i: a kEndClosureFunctionScope
     * entry ends the scope at i, a closure fills its slot and its scope, any
     * other entry its slots; reading goes on after them.
     */
    method ReadPoolEntry(pool: array<Slot>, i: nat) returns (r: Result<PoolStep, LoadError>)
      requires i < pool.Length
      modifies this, pool
      decreases pool.Length - i, 1
      ensures r.Ok? && r.value.Continue? ==> i < r.value.next <= pool.Length
      ensures Unscoped(PoolEntriesAt(tokens, env, old(pool[..]), i, old(offset))) ==
        match r
        case Err(e) => Err(e)
        case Ok(ScopeEnd) => Ok(Parsed((pool[..], i), offset))
        case Ok(Continue(next)) => Unscoped(PoolEntriesAt(tokens, env, pool[..], next, offset))
    {
      ghost var filled, at := pool[..], offset;
      var tag :- ReadToken();
      if tag == EndClosureFunctionScopeTag {
        pool[i] := EndOfScopeSlot;
        return Ok(ScopeEnd);
      }
      if tag == ClosureFunctionTag {
        PoolEntriesAfterScope(tokens, env, filled, i, at);
        ghost var scope := ClosureScopeAt(tokens, env, filled, i, at + 1);
        var j :- ReadClosureScope(pool, i);
        assert scope.Ok? && scope.value.value.pool == pool[..] && scope.value.value.last == j && scope.value.next == offset;
        return Ok(Continue(j + 1));
      }
      PoolEntriesAfterSlots(tokens, env, filled, i, at);
      ghost var step := SlotsAt(tokens, env, filled, tag, i, at + 1);
      var next :- ReadSlots(pool, tag, i);
      assert step.Ok? && step.value.value == (pool[..], next) && step.value.next == offset;
      return Ok(Continue(next));
    }

    /**
     * ReadPoolEntries: fills the pool from slot from on, as PoolEntriesAt
     * reads it, and answers the index of the last slot read.
     */
    method ReadPoolEntries(pool: array<Slot>, from: nat) returns (r: Result<int, LoadError>)
      requires from <= pool.Length
      modifies this, pool
      decreases pool.Length - from, 2
      ensures Placed(r, pool[..], offset) == Unscoped(PoolEntriesAt(tokens, env, old(pool[..]), from, old(offset)))
    {
      ghost var goal := Unscoped(PoolEntriesAt(tokens, env, pool[..], from, offset));
      var n := pool.Length;
      var i := from;
      while i < n
        invariant from <= i <= n
        invariant Unscoped(PoolEntriesAt(tokens, env, pool[..], i, offset)) == goal
        decreases n - i
      {
        var step :- ReadPoolEntry(pool, i);
        if step.ScopeEnd? {
          return Ok(i);
        }
        i := step.next;
      }
      return Ok(n - 1);
    }

    /**
     * ReadBytecode: a length, then that many bytes of bytecode, which the cursor
     * skips. The length is not checked against the data.
     */
    method ReadBytecode(pool: seq<Slot>) returns (r: Result<Code, LoadError>)
      modifies this
      ensures Track(r, offset) == BytecodeAt(tokens, pool, old(offset))
    {
      var size :- ReadToken();
      var start := offset;
      offset := start + size;
      return Ok(Code(start, size, pool, None));
    }

    /** The count handled types of a try region, each a pool index below poolLength, as TypesFrom reads them. */
    method ReadHandledTypes(poolLength: nat, count: nat) returns (r: Result<seq<nat>, LoadError>)
      modifies this
      ensures Track(r, offset) == TypesFrom(tokens, old(offset), count, poolLength, [])
    {
      ghost var start := offset;
      var types: seq<nat> := [];
      while |types| < count
        invariant |types| <= count
        invariant TypesFrom(tokens, offset, count - |types|, poolLength, types) == TypesFrom(tokens, start, count, poolLength, [])
      {
        var typeIndex :- ReadToken();
        if typeIndex >= poolLength {
          return Err(BadTypeIndex(typeIndex));
        }
        types := types + [typeIndex];
      }
      return Ok(types);
    }

    /** One try region of the exceptions table, as RegionAt reads it. */
    method ReadRegion(poolLength: nat, tryIndex: nat) returns (r: Result<Region, LoadError>)
      modifies this
      ensures Track(r, offset) == RegionAt(tokens, env, poolLength, tryIndex, old(offset))
    {
      var outerPlus1 :- ReadToken();
      var startPc :- ReadToken();
      var endPc :- ReadToken();
      var handlerPc :- ReadToken();
      var flags :- ReadByte();
      var typeCount :- ReadToken();
      if typeCount == 0 {
        return Err(NoHandledTypes(tryIndex));
      }
      var types :- ReadHandledTypes(poolLength, typeCount);
      var handler := Handler(tryIndex, outerPlus1 as int - 1, env.pcToOffset(handlerPc, false), (flags / 2) % 2 == 1, types, flags % 2 == 1);
      return Ok(Region(PcDescriptor(OtherDescriptor, env.pcToOffset(startPc, true), tryIndex),
                       PcDescriptor(OtherDescriptor, env.pcToOffset(endPc, true), -1), handler));
    }

    /**
     * ReadExceptionsTable: without a table, or with no try regions, empty
     * tables; otherwise each region in turn adds its start and end descriptors
     * and its handler.
     */
    method ReadExceptionsTable(poolLength: nat, hasExceptionsTable: bool) returns (r: Result<ExceptionTables, LoadError>)
      modifies this
      ensures Track(r, offset) == ExceptionsTableAt(tokens, env, poolLength, hasExceptionsTable, old(offset))
    {
      var tryBlockCount := 0;
      if hasExceptionsTable {
        tryBlockCount :- ReadToken();
      }
      if tryBlockCount == 0 {
        return Ok(ExceptionTables([], []));
      }
      ghost var start := offset;
      var tables := ExceptionTables([], []);
      var tryIndex: nat := 0;
      while tryIndex < tryBlockCount
        invariant tryIndex <= tryBlockCount && |tables.handlers| == tryIndex && TablesOk(tables, poolLength)
        invariant RegionsFrom(tokens, env, poolLength, tryBlockCount, tryIndex, offset, tables) ==
                  RegionsFrom(tokens, env, poolLength, tryBlockCount, 0, start, ExceptionTables([], []))
      {
        var region :- ReadRegion(poolLength, tryIndex);
        AppendRegionKeepsTables(tables.descriptors, tables.handlers, region.start.pcOffset, region.end.pcOffset, region.handler, poolLength);
        tables := AddRegion(tables, region);
        tryIndex := tryIndex + 1;
      }
      return Ok(tables);
    }

    /**
     * The fields of a generative constructor whose null initializations were
     * elided: their null stores are recorded when field guards are used, and
     * skipped otherwise.
     */
    method ReadNullableFields() returns (r: Result<seq<nat>, LoadError>)
      modifies this
      ensures Track(r, offset) == NullableFieldsAt(tokens, env, old(offset))
    {
      var numFields :- ReadToken();
      var fields :- ReadTokens(numFields);
      return Ok(if env.useFieldGuards then fields else []);
    }

    /** One closure, as ClosureAt reads it; its bytecode is recorded in the function's closures before its exceptions table is read. */
    method ReadClosure(fn: Function, pool: seq<Slot>) returns (r: Result<(), LoadError>)
      modifies this, fn
      ensures fn.bytecode == old(fn.bytecode)
      ensures Done(r, fn.closureBytecode, offset) == ClosureAt(tokens, env, pool, old(offset), old(fn.closureBytecode))
    {
      var closureIndex :- ReadToken();
      if !IsClosureSlot(pool, closureIndex) {
        return Err(BadClosureIndex(closureIndex));
      }
      var closureCode :- ReadBytecode(pool);
      fn.closureBytecode := fn.closureBytecode[closureIndex := closureCode];
      ghost var recorded := fn.closureBytecode;
      var closureTables :- ReadExceptionsTable(|pool|, true);
      assert fn.closureBytecode == recorded;
      fn.closureBytecode := fn.closureBytecode[closureIndex := closureCode.(tables := Some(closureTables))];
      assert fn.closureBytecode == old(fn.closureBytecode)[closureIndex := closureCode.(tables := Some(closureTables))];
      return Ok(());
    }

    /**
     * The closures of a function whose bytecode is code: each a pool index that
     * must hold a closure function, its bytecode and its exceptions table,
     * which is always present.
     */
    method ReadClosures(fn: Function, code: Code) returns (r: Result<(), LoadError>)
      modifies this, fn
      ensures fn.bytecode == old(fn.bytecode)
      ensures Done(r, fn.closureBytecode, offset) == ClosuresAt(tokens, env, code.pool, old(offset), old(fn.closureBytecode))
    {
      var numClosures :- ReadToken();
      r := ReadClosureList(fn, code.pool, numClosures);
    }

    /** count closures, as ClosuresFrom reads them. */
    method ReadClosureList(fn: Function, pool: seq<Slot>, count: nat) returns (r: Result<(), LoadError>)
      modifies this, fn
      ensures fn.bytecode == old(fn.bytecode)
      ensures Done(r, fn.closureBytecode, offset) == ClosuresFrom(tokens, env, pool, old(offset), count, old(fn.closureBytecode))
    {
      ghost var goal := ClosuresFrom(tokens, env, pool, offset, count, fn.closureBytecode);
      var left := count;
      while left > 0
        invariant fn.bytecode == old(fn.bytecode)
        invariant ClosuresFrom(tokens, env, pool, offset, left, fn.closureBytecode) == goal
      {
        var _ :- ReadNextClosure(fn, pool, left);
        left := left - 1;
      }
      return Ok(());
    }

    /** One closure of the left still to read: ClosuresFrom goes on after it. */
    method ReadNextClosure(fn: Function, pool: seq<Slot>, left: nat) returns (r: Result<(), LoadError>)
      requires left > 0
      modifies this, fn
      ensures fn.bytecode == old(fn.bytecode)
      ensures ClosuresFrom(tokens, env, pool, old(offset), left, old(fn.closureBytecode)) ==
        match r
        case Err(e) => Err(e)
        case Ok(_) => ClosuresFrom(tokens, env, pool, offset, left - 1, fn.closureBytecode)
    {
      ClosuresFromNext(tokens, env, pool, offset, left, fn.closureBytecode);
      r := ReadClosure(fn, pool);
    }

    /**
     * ReadMetadata: nothing without a metadata payload; otherwise the payload
     * as MetadataAt reads it, with the bytecode attached to the function and
     * the closures' bytecode added to the function's. The cursor is restored
     * afterwards. The answer lists the fields whose null stores were recorded.
     */
    method ReadMetadata(fn: Function, mdOffset: Option<nat>) returns (r: Result<seq<nat>, LoadError>)
      modifies this, fn
      ensures mdOffset.None? ==>
        r == Ok([]) && offset == old(offset) && fn.bytecode == old(fn.bytecode) && fn.closureBytecode == old(fn.closureBytecode)
      ensures mdOffset.Some? ==>
        var d := MetadataAt(tokens, env, fn.isGenerativeConstructor, mdOffset.value, old(fn.closureBytecode));
        (r.Ok? <==> d.Ok?) && (r.Err? ==> r.error == d.error) &&
        (r.Ok? ==> r.value == d.value.recorded && fn.bytecode == Some(d.value.code) &&
                   fn.closureBytecode == d.value.closures && offset == old(offset))
    {
      if mdOffset.None? {
        return Ok([]);
      }
      var saved := offset;
      offset := mdOffset.value;
      var flags :- ReadToken();
      var has := MetadataFlags(flags);
      var objCount :- ReadToken();
      var pool := new Slot[objCount](_ => Empty);
      assert pool[..] == seq(objCount, _ => Empty);
      var _ :- ReadPoolEntries(pool, 0);
      r := ReadCodeAndRest(fn, MetadataFlags(flags), pool[..]);
      if r.Ok? {
        offset := saved;
      }
    }

    /**
     * ReadMetadata after the pool, as MetadataAfterPool reads it: the bytecode,
     * attached to the function, its exceptions table if has says so, then the
     * nullable fields and the closures has announces.
     */
    method ReadCodeAndRest(fn: Function, has: (bool, bool, bool), pool: seq<Slot>) returns (r: Result<seq<nat>, LoadError>)
      modifies this, fn
      ensures var d := MetadataAfterPool(tokens, env, fn.isGenerativeConstructor, has, pool, old(offset), old(fn.closureBytecode));
        (r.Ok? <==> d.Ok?) && (r.Err? ==> r.error == d.error) &&
        (r.Ok? ==> r.value == d.value.recorded && fn.bytecode == Some(d.value.code) && fn.closureBytecode == d.value.closures)
    {
      var code :- ReadBytecode(pool);
      fn.bytecode := Some(code);
      var tables :- ReadExceptionsTable(|pool|, has.0);
      code := code.(tables := Some(tables));
      fn.bytecode := Some(code);

      var recorded: seq<nat> := [];
      if has.1 {
        if !fn.isGenerativeConstructor {
          return Err(NotAGenerativeConstructor);
        }
        recorded :- ReadNullableFields();
      }
      if has.2 {
        var _ :- ReadClosures(fn, code);
      }
      return Ok(recorded);
    }
  }

  /** Appending a region's two descriptors and its handler keeps the tables well formed. */
  lemma AppendRegionKeepsTables(descriptors: seq<PcDescriptor>, handlers: seq<Handler>, startPc: int, endPc: int, h: Handler, poolLength: nat)
    requires TablesOk(ExceptionTables(descriptors, handlers), poolLength)
    requires h.tryIndex == |handlers| && h.outerTryIndex >= -1 && |h.handlerTypes| > 0
    requires forall ty :: ty in h.handlerTypes ==> ty < poolLength
    ensures TablesOk(ExceptionTables(
      descriptors + [PcDescriptor(OtherDescriptor, startPc, h.tryIndex), PcDescriptor(OtherDescriptor, endPc, -1)],
      handlers + [h]), poolLength)
  {
    var d := descriptors + [PcDescriptor(OtherDescriptor, startPc, h.tryIndex), PcDescriptor(OtherDescriptor, endPc, -1)];
    forall k: nat | k < |handlers| + 1
      ensures RegionDescriptors(d, k)
    {
      if k < |handlers| {
        assert RegionDescriptors(descriptors, k);
      }
    }
  }

  /**
   * ReadFunctionBytecode for a function without bytecode: reads its metadata
   * from its kernel data and answers the error that stopped it, if any. Without
   * an error a function with metadata has the bytecode MetadataAt reads.
   */
  method ReadFunctionBytecode(kernelData: seq<nat>, env: Env, fn: Function, mdOffset: Option<nat>) returns (error: Option<LoadError>)
    requires fn.bytecode.None?
    modifies fn
    ensures mdOffset.None? ==> error.None? && fn.bytecode.None?
    ensures mdOffset.Some? ==>
      var d := MetadataAt(kernelData, env, fn.isGenerativeConstructor, mdOffset.value, old(fn.closureBytecode));
      (error.None? <==> d.Ok?) && (d.Err? ==> error == Some(d.error)) &&
      (d.Ok? ==> fn.bytecode == Some(d.value.code) && fn.closureBytecode == d.value.closures)
  {
    var helper := new BytecodeMetadataHelper(kernelData, env);
    var r := helper.ReadMetadata(fn, mdOffset);
    if r.Err? {
      return Some(r.error);
    }
    return None;
  }
}
