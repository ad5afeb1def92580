# Dart VM bytecode interpreter core, modelled in Dafny

This project models three parts of the Dart VM's bytecode execution path:

- **The bytecode metadata loader.** `BytecodeMetadataHelper` reads a function's bytecode metadata from the kernel binary:
  - the flags word;
  - the object pool, entry by entry, with its recursion into closure scopes;
  - the bytecode range;
  - the exceptions table, with its PC descriptors and handlers;
  - the nullable-fields list and the closures' own bytecode.

  `NativeEntry` builds the data a native method's `NativeCall` bytecode uses.
- **The interpreter.** `Interpreter` is modelled with:
  - its stack, registers and entry frames (`Call`, `ReturnTOS`);
  - the function-entry bytecodes (`Entry`, `EntryFixed`, `EntryOptional`, `CheckFunctionTypeArgs`);
  - the integer bytecodes, with 64-bit wrap-around, Dart's truncating division and non-negative modulo, and the shift argument checks;
  - the inline-cache lookup of `InstanceCall1`/`InstanceCall2`;
  - `NativeCall`;
  - the intrinsic table (`InitOnce`) and its array intrinsics;
  - `IsStrictEqualWithNumberCheck`.
- **The loop hierarchy of the optimizing compiler.** `LoopInfo` and `LoopHierarchy` link natural loops into a tree of outer, inner, next and prev links.

## Module layout

Each entry gives the file, then its module, then what it covers.

- `common.dfy` (`Common`): `Option`, `Result`.
- `int64.dfy` (`Int64`): the int64 arithmetic of the integer bytecodes. This covers wrap-around, C++ truncating division and remainder, the shifts, the bitwise operators on two's-complement words, and the two 32-bit halves of a pool constant.
- `int_bytecodes.dfy` (`IntBytecodes`): what each integer bytecode computes or throws.
- `objects.dfy` (`Objects`): stack values (Smi, Mint, Double, null, booleans, references, raw words), boxing and class ids. It also holds `IsStrictEqualWithNumberCheck`, `CheckIndex` and `CompareIntEq`.
- `inline_cache.dfy` (`InlineCache`): the ICData entry layout, the cache lookup loop and `IncrementICUsageCount`.
- `intrinsics.dfy` (`Intrinsics`): the intrinsic table and the array and `Object ==` intrinsics.
- `arg_binding.dfy` (`ArgBinding`): the named-argument walk of `EntryOptional`, as a function, with its properties.
- `native_entries.dfy` (`NativeEntries`): the recognized kinds a native entry may record, and the entry payload.
- `native_calls.dfy` (`NativeCalls`): the fields `NativeCall` loads and stores, and the kinds it handles inline.
- `interpreter.dfy` (`Interpreter`): the `Interpreter` class and the bytecode handlers.
- `loops.dfy` (`Loops`): the `LoopHierarchy` class.
- `bytecode_reader.dfy` (`BytecodeReader`): the metadata loader.
- `pool_layout.dfy` (`PoolLayout`): the layout the pool reading leaves (slots written, instance fields in two slots, closure scopes), and what a metadata payload gives under each flag.

## Constants

Each constant below is the same in the source and in the model:

- `kKBCDartFrameFixedSize` = 4 and `kKBCEntrySavedSlots` = 3.
- The entry-frame marker is `argc << 2 | 2`.
- A Smi has 62 value bits plus the sign bit, and `Mint::kBits` = 63.
- `ICData::TargetIndexFor(k)` = k and `ICData::CountIndexFor(k)` = k + 1.
- The stack underflow area is `0x80` bytes, which is 16 words.
- The pool tags follow the `ConstantPoolTag` enumeration, from `kInvalid` = 0 to `kSymbol` = 25.
- The metadata flags are bit 0 (exceptions table), bit 1 (nullable fields) and bit 2 (closures).

The model also makes these representation choices:

- Integers are unbounded, and every int64 result is wrapped explicitly (`Int64.Wrap`).
- The tagged-word comparisons of `CheckIndex` are done on values. Tagging doubles a Smi's value, which keeps the order.

## Model

| member | source | states |
|---|---|---|
| Int64.Wrap | runtime/vm/interpreter.cc:2711-2738 | the wrapped result is congruent to the exact one modulo 2^64 and equals it when it fits int64 |
| Int64.AddUndoesSub | runtime/vm/interpreter.cc:2711-2738 | wrapping addition undoes wrapping subtraction for every int64 pair |
| Int64.NegateInvolutive | runtime/vm/interpreter.cc:2702-2708 | NegateInt (wrapping 0 - a) applied twice gives a back, MinInt64 included |
| Int64.NegateMinInt | runtime/vm/interpreter.cc:2702-2708 | MinInt64 is its own negation under wrap-around |
| Int64.TruncDivIsWrappedQuotient | runtime/vm/interpreter.cc:2740-2756 | for a non-zero divisor TRUNCDIV_INT gives the truncated quotient wrapped to int64, so the MinInt64 ~/ -1 special case is exactly that wrap |
| Int64.ModIntIsEuclidean | runtime/vm/interpreter.cc:2758-2781 | MOD_INT's adjusted C remainder is the Euclidean remainder, in [0, abs(b)) |
| Int64.ShlExact | runtime/vm/interpreter.cc:2813-2825 | a left shift that loses no bits multiplies by 2^b |
| Int64.ArithmeticShiftRight | runtime/vm/interpreter.cc:2827-2839 | the right shift rounds toward minus infinity: r * 2^s <= a < (r + 1) * 2^s, so its magnitude never grows |
| Int64.ShrLeavesSign | runtime/vm/interpreter.cc:2827-2839 | a right shift by Mint::kBits or more leaves -1 for a negative operand and 0 otherwise |
| Int64.BitIdentities | runtime/vm/interpreter.cc:2784-2811 | a & -1 == a, a or 0 == a and a ^ a == 0 on two's-complement words (a consequence of BitwiseIntBits) |
| Int64.BitwiseIntBits | runtime/vm/interpreter.cc:2784-2811 | each bit of the two's-complement word of a & b, a or b and a ^ b is the operator applied to that bit of the operands' words |
| Int64.CombineHalves | runtime/vm/compiler/frontend/bytecode_reader.cc:215-221 | the combined word fits 64 bits and its low and high 32-bit halves are the two values read |
| Int64.HalvesRoundTrip | runtime/vm/compiler/frontend/bytecode_reader.cc:215-221 | every int64 survives the split into two halves and the kInt entry's recombination |
| Int64.HalvesDecodeRoundTrip | runtime/vm/compiler/frontend/bytecode_reader.cc:215-221 | every pair of 32-bit halves is the split of the integer it decodes to |
| IntBytecodes.EvalIntOp | runtime/vm/interpreter.cc:2702-2891 | an integer bytecode fails exactly on a zero divisor (division) or a negative count (shift), with the matching error, and a comparison yields a bool |
| IntBytecodes.AddSubNegateInverse | runtime/vm/interpreter.cc:2702-2738 | AddInt undoes SubInt and NegateInt is an involution |
| IntBytecodes.DivisionResults | runtime/vm/interpreter.cc:2740-2781 | ModInt gives the Euclidean remainder and TruncDivInt the wrapped truncated quotient |
| IntBytecodes.ShiftResults | runtime/vm/interpreter.cc:2813-2839 | ShrInt clamps to the sign, and ShlInt multiplies when nothing is lost |
| IntBytecodes.BitwiseResults | runtime/vm/interpreter.cc:2784-2811 | the bitwise bytecodes keep the identities of their operators |
| IntBytecodes.BitwiseBits | runtime/vm/interpreter.cc:2784-2811 | each bit of BIT_AND, BIT_OR and BIT_XOR's result word is the operator applied to the same bit of the operands' words |
| IntBytecodes.ComparisonsAgree | runtime/vm/interpreter.cc:2857-2891 | Gt is Lt with the operands swapped; Ge negates Lt and Le negates Gt |
| Objects.ClassIdAsSmi | runtime/vm/interpreter.cc:104-108 | the class id is a non-negative Smi, and a non-heap value reports the Smi class |
| Objects.BoxInt64 | runtime/vm/interpreter.cc:1394-1415 | boxing yields an integer object that unboxes to the value |
| Objects.BoxIsCanonical | runtime/vm/interpreter.cc:1394-1415 | a boxed value is a Smi exactly when it fits the Smi range |
| Objects.StrictEqualOnBoxedIntegers | runtime/vm/interpreter.cc:129-154 | strict equality of two boxed integers is integer equality, whatever the boxes' addresses |
| Objects.StrictEqualOnDoubles | runtime/vm/interpreter.cc:129-154 | strict equality of doubles compares bit patterns |
| Objects.StrictEqualOnOthers | runtime/vm/interpreter.cc:129-154 | objects that are not both doubles or both Mints are strictly equal only when identical |
| Objects.CheckIndex | runtime/vm/interpreter.cc:161-165 | true exactly when the index is a Smi in [0, length) |
| Objects.CompareIntEqOnBoxedIntegers | runtime/vm/interpreter.cc:2841-2855 | COMPARE_INT_EQ on boxed integers is integer equality |
| Objects.CompareIntEqNull | runtime/vm/interpreter.cc:2841-2855 | null compares equal only to null |
| InlineCache.FirstHit | runtime/vm/interpreter.cc:1129-1172 | the row found is the first at or after r whose class ids match; no earlier row matches |
| InlineCache.ScanCache | runtime/vm/interpreter.cc:1148-1157 | the lookup loop finds exactly FirstHit's row, at that row's entry offset |
| InlineCache.CountUpdateKeepsLookup | runtime/vm/interpreter.cc:119-127 | bumping a row's usage count leaves every later lookup with the same class ids unchanged |
| InlineCache.IncrementSmiCount | runtime/vm/interpreter.cc:119-127 | the count stays a Smi; it is one more than before below the largest Smi, and wraps to -2^62 at the largest Smi as the 64-bit raw add does |
| InlineCache.IncrementICUsageCount | runtime/vm/interpreter.cc:119-127 | only the row's count slot changes, and it receives the incremented count |
| Intrinsics.IntrinsicTable.InitOnce | runtime/vm/interpreter.cc:504-544 | after InitOnce every listed intrinsic's slot holds its handler, and every filled slot is its handler's slot |
| Intrinsics.IntrinsicTable.AllInstalled | runtime/vm/interpreter.cc:504-544 | once installed, IsSupportedIntrinsic holds for every id the table lists |
| Intrinsics.EveryIntrinsicListed | runtime/vm/interpreter.cc:504-544 | every intrinsic id of the model is in InitOnce's install order |
| Intrinsics.ObjectArrayGetIndexedIntrinsic | runtime/vm/interpreter.cc:206-217 | answers the element exactly when the index is a Smi within the array, else declines |
| Intrinsics.ObjectArraySetIndexedUncheckedIntrinsic | runtime/vm/interpreter.cc:192-204 | stores exactly when the index is within the array and changes only that element |
| Intrinsics.ObjectArraySetIndexedIntrinsic | runtime/vm/interpreter.cc:185-191 | declines whenever type checks are enabled, else the unchecked store |
| Intrinsics.GrowableArrayGetIndexedIntrinsic | runtime/vm/interpreter.cc:242-254 | bounds are the growable length, not the capacity |
| Intrinsics.GrowableArraySetIndexedUncheckedIntrinsic | runtime/vm/interpreter.cc:226-240 | stores into the backing array exactly when the index is below the length |
| Intrinsics.GrowableArraySetIndexedIntrinsic | runtime/vm/interpreter.cc:219-225 | declines whenever type checks are enabled, else the unchecked store |
| Intrinsics.ObjectArraySetThenGet | runtime/vm/interpreter.cc:185-217 | a value stored through the set intrinsic is read back by the get intrinsic |
| Intrinsics.ObjectEqualsIntrinsic | runtime/vm/interpreter.cc:276-280 | the result is a bool, true exactly when the two arguments are identical |
| ArgBinding.NamedWalk | runtime/vm/interpreter.cc:1775-1824 | one choice per parameter; a passed choice names an argument with the parameter's name; leftover arguments are counted |
| ArgBinding.WalkConsumesEachArgOnce | runtime/vm/interpreter.cc:1775-1824 | no passed argument is bound to two parameters |
| ArgBinding.WalkAcceptsKnownNames | runtime/vm/interpreter.cc:1775-1824 | with sorted names the walk consumes every argument exactly when every passed name is a parameter name |
| ArgBinding.WalkDefaultsUnpassed | runtime/vm/interpreter.cc:1775-1824 | when the walk accepts, a parameter takes its default exactly when its name was not passed |
| NativeEntries.NormalizedKind | runtime/vm/compiler/frontend/bytecode_reader.cc:711-735 | a listed kind is kept, any other kind becomes kUnknown |
| NativeEntries.NormalizedKindIdempotent | runtime/vm/compiler/frontend/bytecode_reader.cc:711-735 | normalizing is idempotent and yields a listed kind or kUnknown |
| NativeCalls.LoadedField | runtime/vm/interpreter.cc:2155-2280 | every kind NativeCall loads a field for is one the loader keeps |
| NativeCalls.StoredField | runtime/vm/interpreter.cc:2224-2289 | every kind NativeCall stores a field for is one the loader keeps |
| NativeCalls.InlineCasesMatchEntryList | runtime/vm/interpreter.cc:2146-2320 | NativeCall's switch handles inline exactly the kinds NativeEntry keeps, so any other loaded kind is kUnknown and calls the native |
| Interpreter.MarkerIsBitOne | runtime/vm/interpreter.h:63 | IsEntryFrameMarker tests bit 1 of the word |
| Interpreter.EntryMarkerRoundTrip | runtime/vm/interpreter.cc:1599-1710 | every entry marker is recognized and gives back its argument count; a word-aligned pc never is |
| Interpreter.EntryFrameSlots | runtime/vm/interpreter.cc:1665-1688 | the words ReturnTOS reads from an entry frame are the ones Call wrote |
| Interpreter.ArgumentsOf | runtime/vm/interpreter.cc:1663-1680 | Call copies |argc| arguments, argv[i] for a positive argc and argv[-i] for a negative one |
| Interpreter.ReversedArguments | runtime/vm/interpreter.cc:1663-1680 | a negative argc reads the same words as the positive count over the mirrored pointer, and the entry marker encodes the same count |
| Interpreter.Interpreter.constructor | runtime/vm/interpreter.cc:546-567 | the stack holds the specified words, the overflow buffer and the underflow area; the limit is base + specified size; fp_ is NULL |
| Interpreter.Interpreter.GetSp | runtime/vm/interpreter.h:81-83 | get_sp answers fp_ |
| Interpreter.Interpreter.HasFrame | runtime/vm/interpreter.h:58-60 | a frame is in the stack exactly when fp_ is set and the frame lies between the stack base and fp_ |
| Interpreter.Interpreter.Call | runtime/vm/interpreter.cc:1599-1710 | the entry frame holds the saved exit link, argdesc_ and pp_, then the arguments (read backwards from argv for a negative argc), then the first frame's fixed part; FP, SP, pp_, argdesc_ and pc are set |
| Interpreter.Interpreter.ReturnFromEntryFrame | runtime/vm/interpreter.cc:2326-2340 | a result pushed on the first frame above an entry frame leaves the interpreter, and fp_, pp_, argdesc_ and the exit frame become the words that entry frame saved |
| Interpreter.Interpreter.ReturnTOS | runtime/vm/interpreter.cc:2326-2371 | an entry marker pops the entry frame and restores fp_, pp_, argdesc_ and the exit frame; otherwise SP drops by the frame's fixed part and the argument count DecodeArgc gives for the call instruction before the caller pc, FP and pp_ become the caller's, and the result replaces the arguments |
| Interpreter.Interpreter.CallerArgc | runtime/vm/interpreter.cc:2361-2363 | the argument count popped for a Dart caller is DecodeArgc of the instruction before the caller pc, held in a uint8_t (below 256) |
| Interpreter.Interpreter.CallThenReturn | runtime/vm/interpreter.cc:1599-1710 | a call whose body returns leaves the interpreter with the result and restores pp_, argdesc_ and the exit frame |
| Interpreter.Interpreter.Entry | runtime/vm/interpreter.cc:1713-1723 | the locals are null and SP is on the last of them; nothing else changes |
| Interpreter.Interpreter.EntryFixed | runtime/vm/interpreter.cc:1726-1743 | noSuchMethod exactly when the argument count or positional count differs from numFixed; otherwise as Entry |
| Interpreter.Interpreter.CheckFunctionTypeArgs | runtime/vm/interpreter.cc:1912-1931 | noSuchMethod on a type-argument count mismatch; otherwise the type arguments or null land in the local |
| Interpreter.Interpreter.BindNamedParameters | runtime/vm/interpreter.cc:1775-1824 | the parameter registers receive the values the named walk chooses, and the walk's leftover count is answered |
| Interpreter.Interpreter.EntryOptional | runtime/vm/interpreter.cc:1746-1865 | noSuchMethod exactly when the positional count is out of range or a named argument is unknown or not allowed; otherwise the arguments are bound and pc skips the constants |
| Interpreter.Interpreter.NegateIntBytecode | runtime/vm/interpreter.cc:2702-2708 | the top slot receives the boxed wrapped negation, or the selector and a throw on null |
| Interpreter.Interpreter.BinaryIntBytecode | runtime/vm/interpreter.cc:2711-2891 | SP drops by one and the first operand's slot receives the boxed EvalIntOp result; null, zero-divisor and negative-shift operands throw |
| Interpreter.Interpreter.CompareIntEqBytecode | runtime/vm/interpreter.cc:2841-2855 | SP drops by one and the slot receives COMPARE_INT_EQ's bool |
| Interpreter.Interpreter.InstanceCall | runtime/vm/interpreter.cc:1129-1220 | on a hit the first matching row's target is stored and its count bumped unless optimized; on a miss the checked arguments and ICData go above the top |
| Interpreter.Interpreter.LookUpCache | runtime/vm/interpreter.cc:1149-1171 | for the checked arguments given: a hit in the first matching row stores its target at the call's top and bumps its count unless optimized; a miss leaves the cache alone and stores the arguments and the ICData above the top |
| Interpreter.Interpreter.TakeCacheHit | runtime/vm/interpreter.cc:1159-1167 | on a hit the row's target is stored at the call's top, and the row's count is incremented unless the caller is optimized; nothing else changes |
| Interpreter.Interpreter.NativeCall | runtime/vm/interpreter.cc:2146-2320 | a listed kind is handled inline and any other calls the native; an unlinked entry is patched to the bootstrap wrapper; only setter kinds touch the heap |
| Interpreter.Interpreter.AnswerInPlace | runtime/vm/interpreter.cc:2155-2289 | each kind answered in place replaces the top (or the two top words) by its result: identity, emptiness, class id, capacity, the loaded field; setters store and leave null; only setters touch the heap |
| Loops.LoopHierarchy.constructor | runtime/vm/compiler/backend/loops.cc:56-59 | builds the hierarchy: every loop is linked, with the highest id first and loop 0 last |
| Loops.LoopHierarchy.AddBlocks | runtime/vm/compiler/backend/loops.cc:23-25 | only loop l's blocks change, to their union with bs; a loop is in l afterwards exactly when it was before or bs holds its header |
| Loops.LoopHierarchy.NestingDepth | runtime/vm/compiler/backend/loops.cc:31-37 | the depth is the length of the outer chain, at least 1 |
| Loops.LoopHierarchy.DepthBound | runtime/vm/compiler/backend/loops.cc:31-37 | the nesting depth is bounded by the number of loop ids at and above the loop |
| Loops.LoopHierarchy.DepthOfRelatives | runtime/vm/compiler/backend/loops.cc:61-81 | in a linked hierarchy an inner loop is one deeper than its parent, and siblings are equally deep |
| Loops.LoopHierarchy.AddLoop | runtime/vm/compiler/backend/loops.cc:61-81 | the loop becomes last, as last's inner loop or as the next sibling of the first loop on last's outer chain whose outer loop contains it (or that has none); the links stay a well-formed tree in which the loops on last's outer chain have no next link, so neither write overwrites a link |
| Loops.LoopHierarchy.AddInnerLoop | runtime/vm/compiler/backend/loops.cc:65-70 | the loop becomes last's inner loop and last its outer loop; only those two links change, and the tree stays linked |
| Loops.LoopHierarchy.AddNextLoop | runtime/vm/compiler/backend/loops.cc:71-80 | the loop becomes the next sibling of the loop Climb stops at, taking its outer loop, with it as prev; only those three links change, and the tree stays linked |
| Loops.LoopHierarchy.LinkSibling | runtime/vm/compiler/backend/loops.cc:76-79 | the four writes of the sibling case: the new loop gets c's outer loop and c as prev, c gets it as next, and it becomes last; the tree stays linked |
| Loops.LoopHierarchy.LastIsOpen | runtime/vm/compiler/backend/loops.cc:61-81 | in a linked hierarchy last has no inner loop, and no loop on its outer chain has a next link, so the asserts of AddLoop hold |
| Loops.LoopHierarchy.ClimbOnChain | runtime/vm/compiler/backend/loops.cc:73-75 | the climb ends on last's outer chain, at the first loop whose outer loop contains the new loop or that has none |
| Loops.ChainOpenInner | runtime/vm/compiler/backend/loops.cc:65-70 | adding an inner loop to last keeps the loops on the new last's outer chain free of next links |
| Loops.ChainOpenSibling | runtime/vm/compiler/backend/loops.cc:71-80 | adding a next sibling keeps the loops on the new last's outer chain free of next links |
| Loops.LoopHierarchy.Build | runtime/vm/compiler/backend/loops.cc:83-89 | all loops are added, from the highest id down, and the hierarchy is linked |
| BytecodeReader.MetadataFlagsBits | runtime/vm/compiler/frontend/bytecode_reader.cc:63-70 | the exceptions-table, nullable-fields and closures flags are bits 0, 1 and 2 of the flags word, whatever the higher bits |
| BytecodeReader.IntAndDoubleShareWord | runtime/vm/compiler/frontend/bytecode_reader.cc:215-229 | the int64 a kInt entry decodes has the same 64-bit word a kDouble entry keeps, and splits back into the halves read |
| BytecodeReader.CheckedArgumentCount | runtime/vm/compiler/frontend/bytecode_reader.cc:271-290 | 1 unless a method call of an operator or simple instanceOf; then the descriptor's argument count, at most 2 |
| BytecodeReader.ForwarderExclusions | runtime/vm/compiler/frontend/bytecode_reader.cc:271-290 | a dynamic forwarder is never used for a getter, for a method call of == or call, or when the call is not dynamic or forwarders are not emitted |
| BytecodeReader.NativeEntry | runtime/vm/compiler/frontend/bytecode_reader.cc:704-762 | fails exactly when the kind is kUnknown, natives are linked eagerly and the name does not resolve; a listed kind is kept with no trampoline, function or argc tag; a kUnknown entry has the argc tag; linked lazily it has no function or trampoline, linked eagerly it has the resolved function and the bootstrap, else auto-scope, else no-scope trampoline |
| BytecodeReader.NativeEntryFeedsNativeCall | runtime/vm/compiler/frontend/bytecode_reader.cc:704-762 | every loaded entry is handled inline by NativeCall or is kUnknown, and an eagerly linked unknown entry has its trampoline and function |
| BytecodeReader.NativeEntryKindIsInline | runtime/vm/compiler/frontend/bytecode_reader.cc:711-735 | the kind of a loaded entry is handled inline exactly when it is listed |
| BytecodeReader.AppendRegionKeepsTables | runtime/vm/compiler/frontend/bytecode_reader.cc:653-700 | appending one try region's descriptors and handler keeps the tables well formed |
| BytecodeReader.BytecodeMetadataHelper.ReadNumber | runtime/vm/compiler/frontend/bytecode_reader.cc:215-229 | reads two 32-bit halves and yields the int64 they encode (kInt) or their 64-bit pattern (kDouble) |
| BytecodeReader.BytecodeMetadataHelper.ReadICData | runtime/vm/compiler/frontend/bytecode_reader.cc:251-299 | yields what ICDataAt reads: the selector from the name and flags (its kind, and a dynamic forwarder exactly as UsesDynamicForwarder decides), the descriptor index below the entry, and CheckedArgumentCount's count |
| BytecodeReader.ICDataAtReads | runtime/vm/compiler/frontend/bytecode_reader.cc:251-299 | kind 3 is rejected; otherwise the selector, the forwarder choice, the descriptor index (below i) and the checked-argument count are the ones the three tokens and the descriptor determine |
| BytecodeReader.BytecodeMetadataHelper.ReadStaticICData | runtime/vm/compiler/frontend/bytecode_reader.cc:300-344 | the descriptor reference is an earlier entry, and a method call of a field or getter target never loads (it is unimplemented) |
| BytecodeReader.BytecodeMetadataHelper.ReadClosureFunction | runtime/vm/compiler/frontend/bytecode_reader.cc:433-531 | yields what ClosureFunctionAt reads: names and types pair up, numFixed is 1 + required, numOptional is the named count if any else positional - required, and optional parameters are positional exactly when none is named |
| BytecodeReader.ClosureFunctionAtReads | runtime/vm/compiler/frontend/bytecode_reader.cc:433-531 | by token position: the type parameters are the tokens read, numFixed is 1 + required, numOptional is named or positional - required, optionalArePositional holds exactly when no parameter is named |
| BytecodeReader.BytecodeMetadataHelper.ReadEntryValue | runtime/vm/compiler/frontend/bytecode_reader.cc:205-615 | yields what EntryValueAt reads for a one-slot tag, as EntryValueAtReads details |
| BytecodeReader.EntryValueAtReads | runtime/vm/compiler/frontend/bytecode_reader.cc:205-615 | the value has the tag's type and refers only to earlier entries; kNull gives null; kString, kBool, kStaticField, kClass, kTypeArgumentsField, kTearOff and kType give the token read; kInt and kDouble the word of the two halves; kInvalid and unknown tags fail |
| BytecodeReader.BytecodeMetadataHelper.ReadPoolEntries | runtime/vm/compiler/frontend/bytecode_reader.cc:141-616 | fills the pool as PoolEntriesAt reads it from slot from, answering the last slot read |
| BytecodeReader.BytecodeMetadataHelper.ReadPoolEntry | runtime/vm/compiler/frontend/bytecode_reader.cc:196-616 | one iteration of the loop: an end-of-scope entry ends the reading at i, a closure fills its scope, any other entry its slots, and the rest is read as PoolEntriesAt reads it |
| BytecodeReader.BytecodeMetadataHelper.ReadSlots | runtime/vm/compiler/frontend/bytecode_reader.cc:205-616 | the slots of one entry that neither opens nor closes a scope, as SlotsAt reads them |
| BytecodeReader.BytecodeMetadataHelper.ReadClosureScope | runtime/vm/compiler/frontend/bytecode_reader.cc:433-543 | a closure entry and its scope, read recursively, as ClosureScopeAt reads them; the scope's last slot must hold null |
| PoolLayout.PoolEntriesLayOut | runtime/vm/compiler/frontend/bytecode_reader.cc:141-616 | every slot read is written, not patchable, of its value's entry type and refers only to earlier slots; an instance-field offset is followed by its field; each closure's scope ends at a null slot and is recorded; slots outside the read are untouched |
| PoolLayout.SlotsAtLaysOut | runtime/vm/compiler/frontend/bytecode_reader.cc:205-616 | the slots one entry writes are laid out, the instance field taking two adjacent slots |
| PoolLayout.ClosureScopeLaysOut | runtime/vm/compiler/frontend/bytecode_reader.cc:433-543 | a closure and its scope are laid out, and the closure's scope is recorded as ending at the null slot |
| PoolLayout.AfterScopeLaysOut | runtime/vm/compiler/frontend/bytecode_reader.cc:433-543 | after a closure's scope the reading goes on laying out the pool |
| PoolLayout.ScopeThenEntriesLayOut | runtime/vm/compiler/frontend/bytecode_reader.cc:433-543 | a laid-out scope followed by laid-out entries lays out the whole read, recording the scopes of both |
| PoolLayout.SlotsThenEntriesLayOut | runtime/vm/compiler/frontend/bytecode_reader.cc:205-616 | laid-out slots followed by laid-out entries lay out the whole read |
| BytecodeReader.BytecodeMetadataHelper.ReadBytecode | runtime/vm/compiler/frontend/bytecode_reader.cc:618-632 | the bytecode is the size-long range after the size token, and reading skips past it |
| BytecodeReader.BytecodeMetadataHelper.ReadExceptionsTable | runtime/vm/compiler/frontend/bytecode_reader.cc:634-702 | yields what ExceptionsTableAt reads: without the flag or with no try blocks empty tables, otherwise one region per try block |
| BytecodeReader.BytecodeMetadataHelper.ReadRegion | runtime/vm/compiler/frontend/bytecode_reader.cc:655-690 | one try region as RegionAt reads it |
| BytecodeReader.BytecodeMetadataHelper.ReadHandledTypes | runtime/vm/compiler/frontend/bytecode_reader.cc:670-679 | the handled types of a region, each a pool index, as TypesFrom reads them |
| BytecodeReader.RegionAt | runtime/vm/compiler/frontend/bytecode_reader.cc:655-690 | the start and end descriptors have the PC offsets of the start and end PCs; outerTryIndex is the token minus 1; the handler PC offset, needsStackTrace (flag bit 0), isGenerated (flag bit 1) and the handled types are the tokens read; at least one type, each below the pool length |
| BytecodeReader.ExceptionsTableWellFormed | runtime/vm/compiler/frontend/bytecode_reader.cc:634-702 | the tables have one handler per try block the count announces, two descriptors per handler, try index k at k, and well-formed handlers |
| BytecodeReader.RegionsFromReadEach | runtime/vm/compiler/frontend/bytecode_reader.cc:655-690 | reading regions keeps the entries before and puts at index k the region RegionAt reads for try index k |
| BytecodeReader.ExceptionsTableReadsRegions | runtime/vm/compiler/frontend/bytecode_reader.cc:634-702 | every entry k of the tables is the region read for try index k, the first one right after the count |
| BytecodeReader.BytecodeMetadataHelper.ReadNullableFields | runtime/vm/compiler/frontend/bytecode_reader.cc:98-116 | yields what NullableFieldsAt reads |
| BytecodeReader.NullableFieldsAt | runtime/vm/compiler/frontend/bytecode_reader.cc:98-116 | a count and that many field references; without field guards no field is recorded, with them exactly the fields read |
| BytecodeReader.BytecodeMetadataHelper.ReadClosures | runtime/vm/compiler/frontend/bytecode_reader.cc:118-138 | the function's own bytecode is untouched, and each closure read names a closure-function pool entry and gets bytecode over the same pool with well-formed exceptions tables |
| BytecodeReader.BytecodeMetadataHelper.ReadClosureList | runtime/vm/compiler/frontend/bytecode_reader.cc:118-138 | the count, then as many closures as ClosuresFrom reads |
| BytecodeReader.BytecodeMetadataHelper.ReadNextClosure | runtime/vm/compiler/frontend/bytecode_reader.cc:118-138 | one more closure of the list, as ClosureAt reads it |
| BytecodeReader.ClosuresFromLoads | runtime/vm/compiler/frontend/bytecode_reader.cc:118-138 | the closures read keep the ones recorded before, and each new one is a closure-function entry of the pool with bytecode over that pool and well-formed tables |
| BytecodeReader.BytecodeMetadataHelper.ReadMetadata | runtime/vm/compiler/frontend/bytecode_reader.cc:42-139 | without metadata nothing changes; otherwise it yields what MetadataAt reads, with the bytecode and the closures' bytecode attached to the function, and the offset restored on success |
| BytecodeReader.BytecodeMetadataHelper.ReadCodeAndRest | runtime/vm/compiler/frontend/bytecode_reader.cc:88-138 | the part after the pool, as MetadataAfterPool reads it |
| PoolLayout.MetadataAfterPoolFollowsFlags | runtime/vm/compiler/frontend/bytecode_reader.cc:63-138 | the tables are well formed and empty unless flag bit 0 is set; fields are recorded only with flag bit 1, and then only for a generative constructor; closures are added only with flag bit 2, and only loaded closures |
| PoolLayout.MetadataPoolLaidOut | runtime/vm/compiler/frontend/bytecode_reader.cc:63-85 | the pool has the length the second token announces and is laid out as PoolEntriesLayOut says |
| PoolLayout.MetadataFollowsFlags | runtime/vm/compiler/frontend/bytecode_reader.cc:42-139 | both: a laid-out pool of the announced length, and tables, nullable fields and closures that follow the flag bits |
| BytecodeReader.ReadFunctionBytecode | runtime/vm/compiler/frontend/bytecode_reader.cc:764-813 | without metadata there is no error and no bytecode; without an error the function has bytecode |

## Left out

- Interpreter.Interpreter.NegateIntBytecode: a Mint box is placed at the address passed in, so a failed `AllocateInt64Box` (a GC) is not modelled.
- Interpreter.Interpreter.BinaryIntBytecode: same as NegateIntBytecode; the selector stored before a throw is a parameter too.
- Interpreter.Interpreter.NativeCall: the runtime's result and the native function's result are parameters. The patched payload is returned rather than written back into the typed-data object.
- Interpreter.Interpreter.InstanceCall: the runtime call of `InlineCacheMiss` (interpreter.cc:1095-1127) is not modelled; only the words it is given are.
- Interpreter.Interpreter.Call: the `setjmp`/`longjmp` exception path and the invocation of compiled code are not modelled.
- `Double_*` intrinsics and `ObjectRuntimeType`: their float semantics are left out. Their slots are installed by `InitOnce` but have no handler body in the model.
- The GC write barriers of `StorePointer` are not modelled: stores are plain writes.
- Debug `ASSERT`s: in the loader, the conditions they check become `LoadError` results. `LoopHierarchy::AddLoop` asserts that last has no inner loop and that the loop the climb stops at has no next loop (loops.cc:69 and 78). These are not checked at run time in the model; they are proved from the hierarchy invariant (`LastIsOpen`).
- Interpreter.Interpreter.BindNamedParameters: parameter j's register is taken to be numFixed + j. The source decodes it from the A operand of each LoadConstant pair after the Entry instruction (interpreter.cc:1785-1786), and the bytecode generator numbers those registers so. The model does not decode the instruction words.
- Interpreter.Interpreter.EntryOptional: optional positional and named parameters go to registers numFixed + j, as for BindNamedParameters; the LoadConstant pairs' A operands are not decoded.
- Interpreter.Interpreter.ReturnTOS: the instruction words and `KernelBytecode::DecodeArgc` are parameters (`instructionAt`, `decodeArgc`), because the bytecode encoding (constants_kbc.h) is not part of this model. The model does apply the decoded count, held in a uint8_t, to the caller pc minus one.
- BytecodeReader.KindResult: an invocation kind above 2 (3 in a kICData flags byte, any larger byte in kStaticICData) is rejected with `BadInvocationKind`. The source casts it to `InvocationKind` unchecked and only its debug `ASSERT(kind == InvocationKind::method)` catches it (bytecode_reader.cc:261 and 312); like the other debug asserts, it becomes a load error here.
- Interpreter.Interpreter.Call: `argv` is a function from index to word; the memory it points into is not modelled.
- The loader's collaborators are values of an `Env` record, not calls. These are deopt-id allocation, `Canonicalize`, class, library and field lookups, name predicates, `ResolveNative`, and `BytecodePcToOffset`.
- BytecodeReader.BytecodeMetadataHelper.ReadNumber: a `kDouble` constant is kept as its 64-bit pattern. Floating-point value semantics are not modelled.
- BytecodeReader.BytecodeMetadataHelper.ReadClosureFunction: the kernel function node is read as a fixed token layout, and the parameters' initializer expressions are not modelled.
- BytecodeReader.BytecodeMetadataHelper.ReadNullableFields: the fields' `RecordStore` for field guards is a returned list of field indices.
- BytecodeReader.ReadFunctionBytecode: `HasBytecode` and the metadata-offset lookup are not modelled; the offset is a parameter.
- BytecodeReader.BytecodeMetadataHelper.ReadBytecode: like the source, it does not check that the code range lies inside the kernel data.
- The timeline events, the disassembler, tracing and `ToCString` are diagnostics and are not modelled.
- `virtual_memory_fuchsia.cc` and `flow_graph_compiler_x64.h` are not part of this model.
