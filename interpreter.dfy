/**
 * The bytecode interpreter's machine state and the handlers of its dispatch
 * loop that this model covers. The interpreter's stack grows upwards; stack
 * addresses are word indices into the stack array. The dispatch loop's pc, FP
 * and SP registers are the fields pc, frame and top.
 */
module Interpreter {
  import opened Common
  import opened Int64
  import opened Objects
  import opened ArgBinding
  import opened IntBytecodes
  import opened InlineCache
  import opened NativeEntries
  import opened NativeCalls

  /** Words below the stack base kept free for underflows: kInterpreterStackUnderflowSize (0x80 bytes) in words. */
  const UnderflowWords: nat := 0x80 / 8

  /** kKBCEntrySavedSlots: the exit link, the saved argdesc_ and the saved pp_. */
  const EntrySavedSlots: nat := 3
  /** kKBCDartFrameFixedSize: function, code, caller pc and caller FP below every frame. */
  const DartFrameFixedSize: nat := 4

  // Slots of an entry frame, from the entry fp_.
  const ExitLinkSlotFromEntryFp: nat := 0
  const SavedArgDescSlotFromEntryFp: nat := 1
  const SavedPpSlotFromEntryFp: nat := 2

  // Slots of a Dart frame, below its FP.
  const FunctionSlotFromFp: int := -4
  const PcMarkerSlotFromFp: int := -3
  const SavedCallerPcSlotFromFp: int := -2
  const SavedCallerFpSlotFromFp: int := -1

  /** The fake caller pc of an entry frame: the argument count shifted left by two, with bit 1 set. */
  function EntryMarker(argc: nat): nat {
    argc * 4 + 2
  }

  /** Interpreter::IsEntryFrameMarker: bit 1 of the pc word. */
  predicate IsEntryFrameMarker(pc: nat) {
    BitwiseWord(And, pc, 2, BitsPerInt64) != 0
  }

  lemma {:induction false} AndZero(x: nat, n: nat)
    ensures BitwiseWord(And, x, 0, n) == 0
  {
    if n > 0 {
      AndZero(x / 2, n - 1);
    }
  }

  /** The marker test reads bit 1 of the word. */
  lemma MarkerIsBitOne(pc: nat)
    ensures IsEntryFrameMarker(pc) <==> (pc / 2) % 2 == 1
  {
    AndZero(pc / 4, 62);
    assert BitwiseWord(And, pc / 2, 1, 63) == BitOf(And, (pc / 2) % 2, 1) + 2 * BitwiseWord(And, pc / 4, 0, 62);
  }

  /**
   * Every entry marker is recognized and gives back its argument count when
   * shifted right by two; a word-aligned return address is never taken for one.
   */
  lemma EntryMarkerRoundTrip(argc: nat, k: nat)
    ensures IsEntryFrameMarker(EntryMarker(argc)) && EntryMarker(argc) / 4 == argc
    ensures !IsEntryFrameMarker(4 * k)
  {
    MarkerIsBitOne(EntryMarker(argc));
    MarkerIsBitOne(4 * k);
  }

  /**
   * The arguments Call copies into the entry frame: argv[i] for i below argc,
   * or, when a negative argc says the arguments lie in reverse memory order,
   * argv[-i] for i below -argc. argv is indexed relative to the pointer passed.
   */
  function ArgumentsOf(argc: int, argv: int -> Obj): (args: seq<Obj>)
    ensures |args| == Abs(argc)
  {
    seq(Abs(argc), i => argv(if argc < 0 then -i else i))
  }

  /**
   * A negative argc copies the same words as the positive count over the
   * mirrored pointer, so the frame gets the arguments in ascending order
   * either way; the count encoded in the entry marker is the same.
   */
  lemma ReversedArguments(n: nat, argv: int -> Obj)
    ensures ArgumentsOf(-(n as int), argv) == ArgumentsOf(n, (i: int) => argv(-i))
    ensures |ArgumentsOf(-(n as int), argv)| == |ArgumentsOf(n, argv)| == n
    ensures var reversed, ascending := ArgumentsOf(-(n as int), argv), ArgumentsOf(n, argv);
      forall i :: 0 <= i < n ==> reversed[i] == argv(-i) && ascending[i] == argv(i)
  {
    if n > 0 {
      assert ArgumentsOf(-(n as int), argv) == ArgumentsOf(n, (i: int) => argv(-i));
    }
  }

  /** The words Call writes at the entry fp_: the saved state, the arguments, and the first frame's fixed part. */
  function EntryFrame(exitInfo: int, savedArgdesc: Obj, savedPp: Obj, args: seq<Obj>, callee: Obj, code: Obj, base: nat)
    : (s: seq<Obj>)
    ensures |s| == EntrySavedSlots + |args| + DartFrameFixedSize
  {
    [Raw(exitInfo), savedArgdesc, savedPp] + args + [callee, code, Raw(EntryMarker(|args|)), Raw(base)]
  }

  /** s with the words w written from index at on. */
  function Splice<T>(s: seq<T>, at: nat, w: seq<T>): (r: seq<T>)
    requires at + |w| <= |s|
    ensures |r| == |s|
  {
    s[..at] + w + s[at + |w|..]
  }

  /** Writing the word after a splice extends the splice by that word. */
  lemma SpliceExtend<T>(s: seq<T>, at: nat, w: seq<T>, v: T)
    requires at + |w| < |s|
    ensures Splice(s, at, w)[at + |w| := v] == Splice(s, at, w + [v])
  {
    assert Splice(s, at, w)[at + |w| := v] == s[..at] + (w + [v]) + s[at + |w| + 1..];
  }

  lemma SpliceAt<T>(s: seq<T>, at: nat, w: seq<T>, k: nat)
    requires at + |w| <= |s| && k < |w|
    ensures Splice(s, at, w)[at + k] == w[k]
  {
    assert Splice(s, at, w)[at + k] == (s[..at] + w)[at + k];
  }

  /** The words of an entry frame that ReturnTOS reads back. */
  lemma EntryFrameSlots(s: seq<Obj>, base: nat, exitInfo: int, savedArgdesc: Obj, savedPp: Obj, args: seq<Obj>,
                        callee: Obj, code: Obj)
    requires base + EntrySavedSlots + |args| + DartFrameFixedSize <= |s|
    ensures var t := Splice(s, base, EntryFrame(exitInfo, savedArgdesc, savedPp, args, callee, code, base));
      var f := base + EntrySavedSlots + |args| + DartFrameFixedSize;
      t[base] == Raw(exitInfo) && t[base + 1] == savedArgdesc && t[base + 2] == savedPp &&
      t[f - 2] == Raw(EntryMarker(|args|)) && t[f - 1] == Raw(base)
  {
    var layout := EntryFrame(exitInfo, savedArgdesc, savedPp, args, callee, code, base);
    var n := |args|;
    SpliceAt(s, base, layout, 0);
    SpliceAt(s, base, layout, 1);
    SpliceAt(s, base, layout, 2);
    SpliceAt(s, base, layout, n + 5);
    SpliceAt(s, base, layout, n + 6);
  }

  /** Writing the word before a splice extends the splice downwards by that word. */
  lemma SplicePrepend<T>(s: seq<T>, at: nat, w: seq<T>, v: T)
    requires at + 1 + |w| <= |s|
    ensures Splice(s, at + 1, w)[at := v] == Splice(s, at, [v] + w)
  {
    assert Splice(s, at + 1, w)[at := v] == s[..at] + ([v] + w) + s[at + 1 + |w|..];
  }

  /** A splice leaves the words below it alone. */
  lemma SpliceBelow<T>(s: seq<T>, at: nat, w: seq<T>, k: nat)
    requires at + |w| <= |s| && k < at
    ensures Splice(s, at, w)[k] == s[k]
  {
    assert Splice(s, at, w)[k] == s[..at][k];
  }

  lemma SpliceKeepsBelow<T>(s: seq<T>, at: nat, w: seq<T>, a: nat, b: nat)
    requires at + |w| <= |s| && a <= b <= at
    ensures Splice(s, at, w)[a..b] == s[a..b]
  {
    assert Splice(s, at, w)[..at] == s[..at];
  }

  /** Two adjacent splices are one splice of the two word sequences. */
  lemma SpliceTwice<T>(s: seq<T>, at: nat, w1: seq<T>, w2: seq<T>)
    requires at + |w1| + |w2| <= |s|
    ensures Splice(Splice(s, at, w1), at + |w1|, w2) == Splice(s, at, w1 + w2)
  {
    var t := Splice(s, at, w1);
    assert t[..at + |w1|] == s[..at] + w1;
    assert t[at + |w1| + |w2|..] == s[at + |w1| + |w2|..];
  }

  /** The stack s once the posCount words from first on were copied to the registers from fr on. */
  function CopyPositional(s: seq<Obj>, fr: nat, first: nat, posCount: nat): (r: seq<Obj>)
    requires first + posCount <= |s| && fr + posCount <= |s|
    ensures |r| == |s| && r[fr..fr + posCount] == s[first..first + posCount]
  {
    Splice(s, fr, s[first..first + posCount])
  }

  /**
   * s' is the stack s once EntryOptional has bound the arguments of the frame at
   * fr, whose d.count arguments start at first: the positional arguments copied
   * to the first registers, then either the named parameters bound by the named
   * walk or the optional positional parameters not passed set to their
   * defaults. ok tells whether the call proceeds rather than going to
   * noSuchMethod.
   */
  ghost predicate OptionalArgsBound(s: seq<Obj>, s': seq<Obj>, fr: nat, first: nat, d: ArgDesc, numFixed: nat,
                                    numOptPos: nat, paramNames: seq<Symbol>, defaults: seq<Obj>, ok: bool)
  {
    first + d.count <= fr && fr + numFixed + numOptPos + |paramNames| <= |s| &&
    numFixed <= d.positionalCount <= numFixed + numOptPos && (numOptPos == 0 || |paramNames| == 0) &&
    |defaults| == |paramNames| + numOptPos &&
    var copied := CopyPositional(s, fr, first, d.positionalCount);
    var args := s[first..first + d.count];
    if |paramNames| != 0 then
      var walk := NamedWalk(paramNames, Names(d.named));
      ChoicesFit(walk.0, args, d.named) &&
      s' == Splice(copied, fr + numFixed, NamedParamValues(walk.0, defaults, args, d.named)) &&
      (ok <==> walk.1 == 0)
    else
      (ok <==> d.count == d.positionalCount) &&
      s' == if ok then Splice(copied, fr + d.positionalCount, defaults[d.positionalCount - numFixed..]) else copied
  }

  /** n nulls: what the entry instructions store into fresh locals. */
  function Nulls(n: nat): (r: seq<Obj>)
    ensures |r| == n && forall k :: 0 <= k < n ==> r[k] == Null
  {
    seq(n, _ => Null)
  }

  /** The names of an arguments descriptor's named arguments, in its order. */
  function Names(named: seq<NamedArg>): (r: seq<Symbol>)
    ensures |r| == |named|
  {
    seq(|named|, k requires 0 <= k < |named| => named[k].name)
  }

  /** Every choice that takes a passed argument names one of the descriptor's entries, at a position among args. */
  predicate ChoicesFit(choices: seq<Choice>, args: seq<Obj>, named: seq<NamedArg>) {
    forall j :: 0 <= j < |choices| && choices[j].Passed? ==>
      choices[j].argIndex < |named| && named[choices[j].argIndex].position < |args|
  }

  /** The value a named parameter receives for its choice: the passed argument or its default. */
  function BoundValue(c: Choice, default: Obj, args: seq<Obj>, named: seq<NamedArg>): Obj
    requires c.Passed? ==> c.argIndex < |named| && named[c.argIndex].position < |args|
  {
    match c
    case Passed(a) => args[named[a].position]
    case Default => default
  }

  /** The values of the named parameters, one per choice. */
  function NamedParamValues(choices: seq<Choice>, defaults: seq<Obj>, args: seq<Obj>, named: seq<NamedArg>): (r: seq<Obj>)
    requires |choices| == |defaults| && ChoicesFit(choices, args, named)
    ensures |r| == |choices|
  {
    seq(|choices|, j requires 0 <= j < |choices| => BoundValue(choices[j], defaults[j], args, named))
  }

  lemma NamedParamValuesCons(c: Choice, choices: seq<Choice>, d: Obj, defaults: seq<Obj>, args: seq<Obj>, named: seq<NamedArg>)
    requires |choices| == |defaults| && ChoicesFit(choices, args, named)
    requires c.Passed? ==> c.argIndex < |named| && named[c.argIndex].position < |args|
    ensures ChoicesFit([c] + choices, args, named)
    ensures NamedParamValues([c] + choices, [d] + defaults, args, named) ==
      [BoundValue(c, d, args, named)] + NamedParamValues(choices, defaults, args, named)
  {
    var cs := [c] + choices;
    assert forall j :: 0 < j < |cs| ==> cs[j] == choices[j - 1];
    var r := NamedParamValues(cs, [d] + defaults, args, named);
    var t := [BoundValue(c, d, args, named)] + NamedParamValues(choices, defaults, args, named);
    forall j | 0 <= j < |r|
      ensures r[j] == t[j]
    {
      if j > 0 {
        assert ([d] + defaults)[j] == defaults[j - 1];
      }
    }
  }

  /** The walk has been unrolled down to parameter j and argument i; done holds the choices made so far. */
  ghost predicate WalkAt(ps: seq<Symbol>, names: seq<Symbol>, j: int, i: int, done: seq<Choice>) {
    -1 <= j < |ps| && -1 <= i < |names| &&
    NamedWalk(ps, names) == (NamedWalk(ps[..j + 1], names[..i + 1]).0 + done, NamedWalk(ps[..j + 1], names[..i + 1]).1)
  }

  lemma WalkAtStart(ps: seq<Symbol>, names: seq<Symbol>)
    ensures WalkAt(ps, names, |ps| - 1, |names| - 1, [])
  {
    assert ps[..|ps|] == ps && names[..|names|] == names;
    assert NamedWalk(ps, names).0 + [] == NamedWalk(ps, names).0;
  }

  lemma WalkAtStep(ps: seq<Symbol>, names: seq<Symbol>, j: int, i: int, done: seq<Choice>)
    requires WalkAt(ps, names, j, i, done) && j >= 0
    ensures var m := i >= 0 && ps[j] == names[i];
      WalkAt(ps, names, j - 1, if m then i - 1 else i, [if m then Passed(i) else Default] + done)
  {
    var p', a' := ps[..j + 1], names[..i + 1];
    assert p'[..j] == ps[..j] && p'[j] == ps[j];
    var m := i >= 0 && ps[j] == names[i];
    var inner := if m then NamedWalk(ps[..j], names[..i]) else NamedWalk(ps[..j], a');
    if m {
      assert a'[..i] == names[..i] && a'[i] == names[i];
    }
    var c := if m then Passed(i) else Default;
    assert NamedWalk(p', a') == (inner.0 + [c], inner.1);
    assert inner.0 + [c] + done == inner.0 + ([c] + done);
    if m {
      assert names[..i - 1 + 1] == names[..i];
    } else {
      assert names[..i + 1] == a';
    }
  }

  lemma WalkAtEnd(ps: seq<Symbol>, names: seq<Symbol>, i: int, done: seq<Choice>)
    requires WalkAt(ps, names, -1, i, done)
    ensures NamedWalk(ps, names) == (done, i + 1)
  {
    assert ps[..0] == [];
    assert NamedWalk([], names[..i + 1]) == ([], i + 1);
    assert [] + done == done;
  }

  /** The stack holds the values of the choices done in the registers above parameter j. */
  ghost predicate StackBound(s: seq<Obj>, s0: seq<Obj>, regBase: nat, j: int, done: seq<Choice>, defaults: seq<Obj>,
                             args: seq<Obj>, named: seq<NamedArg>) {
    -1 <= j && j + 1 + |done| == |defaults| && regBase + |defaults| <= |s0| && ChoicesFit(done, args, named) &&
    s == Splice(s0, regBase + j + 1, NamedParamValues(done, defaults[j + 1..], args, named))
  }

  lemma StackBoundBelow(s: seq<Obj>, s0: seq<Obj>, regBase: nat, j: int, done: seq<Choice>, defaults: seq<Obj>,
                        args: seq<Obj>, named: seq<NamedArg>, k: nat)
    requires StackBound(s, s0, regBase, j, done, defaults, args, named) && k < regBase
    ensures s[k] == s0[k]
  {
    SpliceBelow(s0, regBase + j + 1, NamedParamValues(done, defaults[j + 1..], args, named), k);
  }

  lemma StackBoundFinal(s: seq<Obj>, s0: seq<Obj>, regBase: nat, done: seq<Choice>, defaults: seq<Obj>,
                        args: seq<Obj>, named: seq<NamedArg>)
    requires StackBound(s, s0, regBase, -1, done, defaults, args, named)
    ensures |done| == |defaults| && ChoicesFit(done, args, named)
    ensures s == Splice(s0, regBase, NamedParamValues(done, defaults, args, named))
  {
    assert defaults[0..] == defaults;
  }

  lemma StackBoundStep(s: seq<Obj>, s0: seq<Obj>, regBase: nat, j: int, done: seq<Choice>, defaults: seq<Obj>,
                       args: seq<Obj>, named: seq<NamedArg>, c: Choice)
    requires StackBound(s, s0, regBase, j, done, defaults, args, named) && j >= 0
    requires c.Passed? ==> c.argIndex < |named| && named[c.argIndex].position < |args|
    ensures StackBound(s[regBase + j := BoundValue(c, defaults[j], args, named)], s0, regBase, j - 1, [c] + done,
      defaults, args, named)
  {
    var w := NamedParamValues(done, defaults[j + 1..], args, named);
    SplicePrepend(s0, regBase + j, w, BoundValue(c, defaults[j], args, named));
    assert defaults[j..] == [defaults[j]] + defaults[j + 1..];
    NamedParamValuesCons(c, done, defaults[j], defaults[j + 1..], args, named);
  }

  /**
   * Where a handler leaves the dispatch loop: dispatching the next bytecode, one
   * of the throws it jumps to, or a call it hands over to code outside the model.
   */
  datatype Outcome =
    | Dispatch
    | NoSuchMethod
    | NullError(selector: IntOp)
    | DivisionByZeroError
    | ArgumentError
    | InvokeTarget(target: Obj)
    | InlineCacheMiss(checkedArgs: seq<Obj>)
    | RuntimeCallMade
    | NativeCallMade

  /** What a ReturnTOS hands back: leaving the interpreter with a result, or resuming the Dart caller. */
  datatype ReturnOutcome = LeftInterpreter(result: Obj) | ResumedCaller

  class Interpreter {
    /** stack_: the words of the stack, the underflow area and the overflow buffer included. */
    var stack: array<Obj>
    /** stack_base_ and stack_limit_. */
    const stackBase: nat
    const stackLimit: nat
    /** fp_: the fp of the innermost entry frame, NULL before the first Call. */
    var fp: Option<nat>
    var pc: int
    var frame: int
    var top: int
    /** pp_ and argdesc_. */
    var pp: Obj
    var argdesc: Obj
    /** The thread's top_exit_frame_info, which Call saves and ReturnTOS restores. */
    var threadExitFrame: int

    predicate Valid()
      reads this
    {
      stackBase == UnderflowWords && stackBase <= stackLimit <= stack.Length &&
      (fp.Some? ==> stackBase <= fp.value)
    }

    /** Interpreter::Interpreter: a stack of the specified size plus the overflow buffer and the underflow area. */
    constructor(specifiedWords: nat, bufferWords: nat)
      ensures Valid() && fresh(stack)
      ensures stack.Length == specifiedWords + bufferWords + UnderflowWords
      ensures stackLimit == stackBase + specifiedWords
      ensures fp == None && pp == Null && argdesc == Null
    {
      stack := new Obj[specifiedWords + bufferWords + UnderflowWords](_ => Null);
      stackBase := UnderflowWords;
      stackLimit := UnderflowWords + specifiedWords;
      fp := None;
      pp := Null;
      argdesc := Null;
      pc, frame, top, threadExitFrame := 0, 0, 0, 0;
    }

    /** get_fp(): the address of fp_, 0 for NULL. */
    function GetFp(): nat
      reads this
    {
      match fp
      case None => 0
      case Some(a) => a
    }

    /** get_sp() deliberately answers fp_ as well. */
    function GetSp(): (r: nat)
      reads this
      ensures r == GetFp()
    {
      GetFp()
    }

    /**
     * HasFrame: the frame lies between the stack base and fp_. Before the first
     * Call (fp_ NULL) no frame is in the stack, the base being above address 0.
     */
    predicate HasFrame(f: nat): (r: bool)
      requires Valid()
      reads this
      ensures r <==> fp.Some? && stackBase <= f <= fp.value
    {
      f >= stackBase && f <= GetFp()
    }

    /** Writes the words from index at on, one by one. */
    method StoreWords(at: nat, words: seq<Obj>)
      requires at + |words| <= stack.Length
      modifies stack
      ensures stack[..] == Splice(old(stack[..]), at, words)
    {
      ghost var before := stack[..];
      var i := 0;
      while i < |words|
        invariant 0 <= i <= |words|
        invariant stack[..] == Splice(before, at, words[..i])
      {
        SpliceExtend(before, at, words[..i], words[i]);
        assert words[..i + 1] == words[..i] + [words[i]];
        stack[at + i] := words[i];
        i := i + 1;
      }
      assert words[..|words|] == words;
    }

    /** The stores of Call's entry-frame setup: the saved words, the arguments, the fixed part of the frame. */
    method WriteEntryFrame(base: nat, exitInfo: int, savedArgdesc: Obj, savedPp: Obj, args: seq<Obj>, callee: Obj, code: Obj)
      requires base + EntrySavedSlots + |args| + DartFrameFixedSize <= stack.Length
      modifies stack
      ensures stack[..] == Splice(old(stack[..]), base, EntryFrame(exitInfo, savedArgdesc, savedPp, args, callee, code, base))
    {
      ghost var before := stack[..];
      var n := |args|;
      var saved := [Raw(exitInfo), savedArgdesc, savedPp];
      var fixed := [callee, code, Raw(EntryMarker(n)), Raw(base)];
      StoreWords(base, saved);
      StoreWords(base + EntrySavedSlots, args);
      StoreWords(base + EntrySavedSlots + n, fixed);
      SpliceTwice(before, base, saved, args);
      SpliceTwice(before, base, saved + args, fixed);
    }

    /**
     * The entry-frame setup of Interpreter::Call. On first entry fp_ is set to
     * the stack base; the exit link, argdesc_ and pp_ are saved there, the
     * arguments copied above them, and the first Dart frame's fixed part written
     * with the entry marker as caller pc and fp_ as caller FP.
     */
    method Call(callee: Obj, code: Obj, entryPoint: int, codePool: Obj, newArgdesc: Obj, argc: int, argv: int -> Obj)
      requires Valid()
      requires (if fp.None? then stackBase else fp.value) + EntrySavedSlots + Abs(argc) + DartFrameFixedSize <= stack.Length
      modifies this, stack
      ensures Valid() && stack == old(stack) && fp == Some(if old(fp).None? then stackBase else old(fp).value)
      ensures stack[..] == Splice(old(stack[..]), fp.value,
        EntryFrame(old(threadExitFrame), old(argdesc), old(pp), ArgumentsOf(argc, argv), callee, code, fp.value))
      ensures frame == fp.value + EntrySavedSlots + Abs(argc) + DartFrameFixedSize && top == frame - 1
      ensures argdesc == newArgdesc && pp == codePool && pc == entryPoint && threadExitFrame == 0
      ensures HasFrame(fp.value)
      ensures frame - (DartFrameFixedSize + EntryMarker(Abs(argc)) / 4 + EntrySavedSlots) == fp.value
    {
      if fp.None? {
        fp := Some(stackBase);
      }
      var base := fp.value;
      var args := ArgumentsOf(argc, argv);
      var n := |args|;
      frame := base + EntrySavedSlots + n + DartFrameFixedSize;
      top := frame - 1;
      WriteEntryFrame(base, threadExitFrame, argdesc, pp, args, callee, code);
      threadExitFrame := 0;
      argdesc := newArgdesc;
      pc := entryPoint;
      pp := codePool;
    }

    /**
     * The count of arguments ReturnTOS pops for a Dart caller: DecodeArgc of the
     * call instruction just before the caller pc, held in a uint8_t.
     */
    function CallerArgc(instructionAt: int -> int, decodeArgc: int -> nat, callerPc: int): (argc: nat)
      ensures argc < 256
    {
      decodeArgc(instructionAt(callerPc - 1)) % 256
    }

    /** The caller pc saved in the frame at FP. */
    function SavedCallerPc(): int
      requires DartFrameFixedSize <= frame <= stack.Length && stack[frame + SavedCallerPcSlotFromFp].Raw?
      reads this, stack
    {
      stack[frame + SavedCallerPcSlotFromFp].word
    }

    /** The caller FP saved in the frame at FP. */
    function SavedCallerFp(): int
      requires DartFrameFixedSize <= frame <= stack.Length && stack[frame + SavedCallerFpSlotFromFp].Raw?
      reads this, stack
    {
      stack[frame + SavedCallerFpSlotFromFp].word
    }

    /**
     * The frame at FP can be returned from: its saved caller pc and FP are words;
     * an entry frame's saved words lie in the stack; a Dart caller's frame lies
     * in the stack below this one, with room for the arguments its call instruction
     * passed.
     */
    predicate CanReturn(instructionAt: int -> int, decodeArgc: int -> nat)
      reads this, stack
    {
      0 <= top < stack.Length &&
      DartFrameFixedSize <= frame <= stack.Length &&
      stack[frame + SavedCallerPcSlotFromFp].Raw? && stack[frame + SavedCallerFpSlotFromFp].Raw? &&
      SavedCallerPc() >= 0 &&
      var callerFp := SavedCallerFp();
      if IsEntryFrameMarker(SavedCallerPc()) then
        0 <= callerFp && callerFp + EntrySavedSlots <= stack.Length && stack[callerFp + ExitLinkSlotFromEntryFp].Raw?
      else
        frame >= DartFrameFixedSize + CallerArgc(instructionAt, decodeArgc, SavedCallerPc()) &&
        DartFrameFixedSize <= callerFp <= stack.Length
    }

    /**
     * ReturnTOS. The result is the top of stack. When the saved caller pc is an
     * entry marker the entry frame is popped: fp_ becomes the saved caller FP and
     * pp_, argdesc_ and the thread's exit frame are restored from the entry
     * frame's saved words, and the result leaves the interpreter. Otherwise SP
     * drops to the caller's arguments (as many as the call instruction before the
     * caller pc encodes), FP becomes the caller's, pp_ the caller code's pool,
     * and the result replaces the arguments.
     */
    method ReturnTOS(instructionAt: int -> int, decodeArgc: int -> nat, poolOf: Obj -> Obj) returns (outcome: ReturnOutcome)
      requires CanReturn(instructionAt, decodeArgc)
      modifies this, stack
      ensures stack == old(stack) && pc == old(SavedCallerPc())
      ensures IsEntryFrameMarker(old(SavedCallerPc())) ==>
        var callerFp := old(SavedCallerFp());
        stack[..] == old(stack[..]) &&
        outcome == LeftInterpreter(old(stack[top])) && fp == Some(callerFp) &&
        pp == stack[callerFp + SavedPpSlotFromEntryFp] && argdesc == stack[callerFp + SavedArgDescSlotFromEntryFp] &&
        threadExitFrame == stack[callerFp + ExitLinkSlotFromEntryFp].word &&
        frame == old(frame) && top == old(top)
      ensures !IsEntryFrameMarker(old(SavedCallerPc())) ==>
        outcome == ResumedCaller && top == old(frame) - (DartFrameFixedSize + CallerArgc(instructionAt, decodeArgc, pc)) &&
        frame == old(SavedCallerFp()) && pp == poolOf(old(stack[SavedCallerFp() + PcMarkerSlotFromFp])) &&
        stack[..] == old(stack[..])[top := old(stack[top])] &&
        fp == old(fp) && argdesc == old(argdesc) && threadExitFrame == old(threadExitFrame)
    {
      var result := stack[top];
      pc := SavedCallerPc();
      if IsEntryFrameMarker(pc) {
        var callerFp := SavedCallerFp();
        fp := Some(callerFp);
        pp := stack[callerFp + SavedPpSlotFromEntryFp];
        argdesc := stack[callerFp + SavedArgDescSlotFromEntryFp];
        threadExitFrame := stack[callerFp + ExitLinkSlotFromEntryFp].word;
        return LeftInterpreter(result);
      }
      var argc := CallerArgc(instructionAt, decodeArgc, pc);
      top := frame - (DartFrameFixedSize + argc);
      frame := SavedCallerFp();
      pp := poolOf(stack[frame + PcMarkerSlotFromFp]);
      stack[top] := result;
      return ResumedCaller;
    }

    /**
     * A call into the interpreter whose body leaves its result on top of the
     * stack and returns: the result leaves the interpreter and fp_, pp_, argdesc_
     * and the thread's exit frame are what they were before the call (fp_ being
     * the stack base after a first entry).
     */
    method CallThenReturn(callee: Obj, code: Obj, entryPoint: int, codePool: Obj, newArgdesc: Obj, argc: int,
                          argv: int -> Obj, result: Obj, instructionAt: int -> int, decodeArgc: int -> nat,
                          poolOf: Obj -> Obj)
      returns (outcome: ReturnOutcome)
      requires Valid()
      requires (if fp.None? then stackBase else fp.value) + EntrySavedSlots + Abs(argc) + DartFrameFixedSize < stack.Length
      modifies this, stack
      ensures outcome == LeftInterpreter(result)
      ensures fp == Some(if old(fp).None? then stackBase else old(fp).value)
      ensures pp == old(pp) && argdesc == old(argdesc) && threadExitFrame == old(threadExitFrame)
    {
      Call(callee, code, entryPoint, codePool, newArgdesc, argc, argv);
      var args := ArgumentsOf(argc, argv);
      EntryFrameSlots(old(stack[..]), fp.value, old(threadExitFrame), old(argdesc), old(pp), args, callee, code);
      var base := fp.value;
      assert stack[frame - 2] == Raw(EntryMarker(|args|)) && stack[frame - 1] == Raw(base);
      assert stack[base] == Raw(old(threadExitFrame)) && stack[base + 1] == old(argdesc) && stack[base + 2] == old(pp);
      outcome := ReturnFromEntryFrame(|args|, base, result, instructionAt, decodeArgc, poolOf);
    }

    /**
     * The body's result pushed on the first frame after an entry frame at base,
     * then ReturnTOS: the entry marker sends the result out of the interpreter,
     * and fp_, pp_, argdesc_ and the exit frame are the ones the entry frame saved.
     */
    method ReturnFromEntryFrame(argc: nat, base: nat, result: Obj, instructionAt: int -> int, decodeArgc: int -> nat,
                                poolOf: Obj -> Obj)
      returns (outcome: ReturnOutcome)
      requires DartFrameFixedSize <= frame < stack.Length && top == frame - 1
      requires stack[frame - 2] == Raw(EntryMarker(argc)) && stack[frame - 1] == Raw(base)
      requires base + EntrySavedSlots <= frame - DartFrameFixedSize && stack[base + ExitLinkSlotFromEntryFp].Raw?
      modifies this, stack
      ensures outcome == LeftInterpreter(result) && fp == Some(base)
      ensures pp == old(stack[base + SavedPpSlotFromEntryFp]) && argdesc == old(stack[base + SavedArgDescSlotFromEntryFp])
      ensures threadExitFrame == old(stack[base + ExitLinkSlotFromEntryFp]).word
    {
      ghost var before := stack[..];
      Push(result);
      assert forall i :: 0 <= i < frame ==> stack[i] == before[i];
      EntryMarkerRoundTrip(argc, 0);
      assert CanReturn(instructionAt, decodeArgc);
      outcome := ReturnTOS(instructionAt, decodeArgc, poolOf);
    }

    /** Pushes a word: what the body of a function does before it returns its result. */
    method Push(v: Obj)
      requires -1 <= top && top + 1 < stack.Length
      modifies this, stack
      ensures stack == old(stack) && top == old(top) + 1 && stack[..] == old(stack[..])[top := v]
      ensures frame == old(frame) && pc == old(pc) && fp == old(fp) && pp == old(pp) && argdesc == old(argdesc)
      ensures threadExitFrame == old(threadExitFrame)
    {
      top := top + 1;
      stack[top] := v;
    }

    /** argdesc_ holds a well-formed arguments descriptor, as it does whenever an entry instruction runs. */
    predicate HasArgDesc()
      reads this
    {
      argdesc.ArgsDesc? && argdesc.desc.Valid()
    }

    /** FrameArguments(FP, argc): where the argc arguments of the frame at FP start. */
    function FrameArguments(argc: nat): int
      reads this
    {
      frame - (DartFrameFixedSize + argc)
    }

    /** Entry: the locals are set to null and SP points at the last of them. */
    method Entry(numLocals: nat)
      requires 0 <= frame && frame + numLocals <= stack.Length
      modifies this, stack
      ensures stack == old(stack) && frame == old(frame) && pc == old(pc) && fp == old(fp) && pp == old(pp)
      ensures argdesc == old(argdesc) && threadExitFrame == old(threadExitFrame)
      ensures stack[..] == Splice(old(stack[..]), frame, Nulls(numLocals))
      ensures top == frame + numLocals - 1
    {
      StoreWords(frame, Nulls(numLocals));
      top := frame + numLocals - 1;
    }

    /**
     * EntryFixed: a call passing other than exactly numFixed arguments, all
     * positional, goes to the closure's noSuchMethod; otherwise as Entry.
     */
    method EntryFixed(numFixed: nat, numLocals: nat) returns (outcome: Outcome)
      requires HasArgDesc() && 0 <= frame && frame + numLocals <= stack.Length
      modifies this, stack
      ensures stack == old(stack) && frame == old(frame) && pc == old(pc) && fp == old(fp) && pp == old(pp)
      ensures argdesc == old(argdesc) && threadExitFrame == old(threadExitFrame)
      ensures outcome == NoSuchMethod <==> argdesc.desc.count != numFixed || argdesc.desc.positionalCount != numFixed
      ensures outcome == NoSuchMethod ==> stack[..] == old(stack[..]) && top == old(top)
      ensures outcome != NoSuchMethod ==>
        outcome == Dispatch && stack[..] == Splice(old(stack[..]), frame, Nulls(numLocals)) && top == frame + numLocals - 1
    {
      var argCount := argdesc.desc.count;
      var posCount := argdesc.desc.positionalCount;
      if argCount != numFixed || posCount != numFixed {
        return NoSuchMethod;
      }
      Entry(numLocals);
      return Dispatch;
    }

    /**
     * CheckFunctionTypeArgs: a call passing type arguments to a function
     * declaring a different number goes to noSuchMethod. Passed type arguments
     * (the word below the first argument) are copied to the given local; a
     * generic function called without them gets null there.
     */
    method CheckFunctionTypeArgs(declaredLen: nat, firstLocal: nat) returns (outcome: Outcome)
      requires HasArgDesc() && 0 <= frame && frame + firstLocal < stack.Length
      requires FrameArguments(argdesc.desc.count + 1) >= 0
      modifies stack
      ensures var len := argdesc.desc.typeArgsLen;
        (outcome == NoSuchMethod <==> len != declaredLen && len != 0) &&
        (outcome != NoSuchMethod ==> outcome == Dispatch) &&
        (outcome == NoSuchMethod || (len == 0 && declaredLen == 0) ==> stack[..] == old(stack[..])) &&
        (outcome == Dispatch && len > 0 ==>
          stack[..] == old(stack[..])[frame + firstLocal := old(stack[FrameArguments(argdesc.desc.count + 1)])]) &&
        (outcome == Dispatch && len == 0 && declaredLen > 0 ==> stack[..] == old(stack[..])[frame + firstLocal := Null])
    {
      var typeArgsLen := argdesc.desc.typeArgsLen;
      if typeArgsLen != declaredLen && typeArgsLen != 0 {
        return NoSuchMethod;
      }
      if typeArgsLen > 0 {
        var argCount := argdesc.desc.count;
        stack[frame + firstLocal] := stack[FrameArguments(argCount + 1)];
      } else if declaredLen > 0 {
        stack[frame + firstLocal] := Null;
      }
      return Dispatch;
    }

    /**
     * One step of the first loop of the named binding: parameter j takes
     * argument i when the names match (consuming it) and its default otherwise.
     */
    method BindNamedStep(first: nat, named: seq<NamedArg>, ps: seq<Symbol>, ghost names: seq<Symbol>, i: int, j: int,
                         ghost done: seq<Choice>, ghost s0: seq<Obj>, regBase: nat, defaults: seq<Obj>, ghost args: seq<Obj>)
      returns (i': int, ghost done': seq<Choice>)
      requires 0 <= j && 0 <= i && WalkAt(ps, names, j, i, done) && names == Names(named)
      requires StackBound(stack[..], s0, regBase, j, done, defaults, args, named) && |s0| == stack.Length
      requires first + |args| <= regBase && args == s0[first..first + |args|]
      requires forall k :: 0 <= k < |named| ==> named[k].position < |args|
      modifies stack
      ensures WalkAt(ps, names, j - 1, i', done')
      ensures StackBound(stack[..], s0, regBase, j - 1, done', defaults, args, named)
    {
      ghost var before := stack[..];
      var c;
      if ps[j] == named[i].name {
        StackBoundBelow(stack[..], s0, regBase, j, done, defaults, args, named, first + named[i].position);
        c := Passed(i);
        stack[regBase + j] := stack[first + named[i].position];
        i' := i - 1;
      } else {
        c := Default;
        stack[regBase + j] := defaults[j];
        i' := i;
      }
      WalkAtStep(ps, names, j, i, done);
      StackBoundStep(before, s0, regBase, j, done, defaults, args, named, c);
      done' := [c] + done;
    }

    /** The second loop of the named binding: once the arguments are used up, the remaining parameters take their defaults. */
    method BindRemainingDefaults(ghost ps: seq<Symbol>, ghost names: seq<Symbol>, i: int, j: int, ghost done: seq<Choice>,
                                 ghost s0: seq<Obj>, regBase: nat, defaults: seq<Obj>, ghost args: seq<Obj>,
                                 ghost named: seq<NamedArg>)
      returns (ghost done': seq<Choice>)
      requires i == -1 && WalkAt(ps, names, j, i, done)
      requires StackBound(stack[..], s0, regBase, j, done, defaults, args, named) && |s0| == stack.Length
      modifies stack
      ensures WalkAt(ps, names, -1, i, done')
      ensures StackBound(stack[..], s0, regBase, -1, done', defaults, args, named)
    {
      var k := j;
      done' := done;
      while k >= 0
        invariant WalkAt(ps, names, k, i, done')
        invariant StackBound(stack[..], s0, regBase, k, done', defaults, args, named)
      {
        ghost var before := stack[..];
        stack[regBase + k] := defaults[k];
        WalkAtStep(ps, names, k, i, done');
        StackBoundStep(before, s0, regBase, k, done', defaults, args, named, Default);
        done' := [Default] + done';
        k := k - 1;
      }
    }

    /**
     * The named-parameter loops of EntryOptional. Parameters (named ps, with the
     * given defaults, in registers from regBase on) and the descriptor's named
     * arguments are walked from the last: a parameter takes the passed argument
     * when the names match, its default otherwise. Answers the index of the
     * last argument left unconsumed, -1 when all were consumed.
     */
    method BindNamedParameters(first: nat, count: nat, named: seq<NamedArg>, ps: seq<Symbol>, defaults: seq<Obj>,
                               regBase: nat, ghost args: seq<Obj>)
      returns (i: int)
      requires |ps| == |defaults| && first + count <= regBase && regBase + |ps| <= stack.Length
      requires forall k :: 0 <= k < |named| ==> named[k].position < count
      requires stack[first..first + count] == args
      modifies stack
      ensures var walk := NamedWalk(ps, Names(named));
        ChoicesFit(walk.0, args, named) &&
        stack[..] == Splice(old(stack[..]), regBase, NamedParamValues(walk.0, defaults, args, named)) &&
        i == walk.1 - 1
    {
      ghost var s0 := stack[..];
      ghost var names := Names(named);
      ghost var done: seq<Choice> := [];
      i := |named| - 1;
      var j := |ps| - 1;
      WalkAtStart(ps, names);
      assert defaults[j + 1..] == [];
      while j >= 0 && i >= 0
        invariant WalkAt(ps, names, j, i, done)
        invariant StackBound(stack[..], s0, regBase, j, done, defaults, args, named)
      {
        i, done := BindNamedStep(first, named, ps, names, i, j, done, s0, regBase, defaults, args);
        j := j - 1;
      }
      if j >= 0 {
        done := BindRemainingDefaults(ps, names, i, j, done, s0, regBase, defaults, args, named);
      }
      WalkAtEnd(ps, names, i, done);
      StackBoundFinal(stack[..], s0, regBase, done, defaults, args, named);
    }

    /**
     * EntryOptional, for a function with numFixed required parameters and either
     * numOptPos optional positional or numOptNamed optional named ones (Dart
     * functions never declare both). A positional argument count outside
     * [numFixed, numFixed + numOptPos] goes to noSuchMethod. Otherwise the
     * positional arguments are copied to the frame's first registers. Named
     * parameters (paramNames with defaults, from the LoadConstant pairs after the
     * instruction) are bound by the named walk, and a passed name left over makes
     * the call a noSuchMethod. Optional positional parameters not passed take
     * their defaults, and named arguments passed to such a function make the call
     * a noSuchMethod. pc skips the LoadConstant instructions.
     */
    method EntryOptional(numFixed: nat, numOptPos: nat, numOptNamed: nat, paramNames: seq<Symbol>, defaults: seq<Obj>)
      returns (outcome: Outcome)
      requires HasArgDesc() && (numOptPos == 0 || numOptNamed == 0)
      requires |paramNames| == numOptNamed && |defaults| == numOptNamed + numOptPos
      requires FrameArguments(argdesc.desc.count) >= 0 && frame + numFixed + numOptPos + numOptNamed <= stack.Length
      modifies this, stack
      ensures stack == old(stack) && frame == old(frame) && fp == old(fp) && pp == old(pp) && argdesc == old(argdesc)
      ensures threadExitFrame == old(threadExitFrame)
      ensures outcome == Dispatch || outcome == NoSuchMethod
      ensures outcome == NoSuchMethod ==> pc == old(pc) && top == old(top)
      ensures var d := old(argdesc.desc);
        numFixed > d.positionalCount || d.positionalCount > numFixed + numOptPos ==>
          outcome == NoSuchMethod && stack[..] == old(stack[..])
      ensures var d := old(argdesc.desc);
        numFixed <= d.positionalCount <= numFixed + numOptPos ==>
          OptionalArgsBound(old(stack[..]), stack[..], old(frame), old(frame) - (DartFrameFixedSize + d.count), d, numFixed, numOptPos,
                            paramNames, defaults, outcome == Dispatch) &&
          (outcome == Dispatch ==>
            pc == old(pc) + (if numOptNamed != 0 then 2 * numOptNamed else numOptPos) &&
            top == old(frame) + numFixed + numOptPos + numOptNamed - 1)
    {
      var fr, d := frame, argdesc.desc;
      if numFixed > d.positionalCount || d.positionalCount > numFixed + numOptPos {
        return NoSuchMethod;
      }
      var first := fr - (DartFrameFixedSize + d.count);
      ghost var s0 := stack[..];
      var ok := BindOptionalArguments(fr, first, d, numFixed, numOptPos, paramNames, defaults);
      ghost var s1 := stack[..];
      assert OptionalArgsBound(s0, s1, fr, first, d, numFixed, numOptPos, paramNames, defaults, ok);
      if !ok {
        return NoSuchMethod;
      }
      pc := pc + if numOptNamed != 0 then 2 * numOptNamed else numOptPos;
      top := fr + numFixed + numOptPos + numOptNamed - 1;
      assert stack[..] == s1;
      return Dispatch;
    }

    /**
     * The stack work of EntryOptional: copies the positional arguments of the
     * frame at fr (whose arguments start at first) to its first registers, then
     * binds the named or the optional positional parameters. ok is false when
     * the call must go to noSuchMethod.
     */
    method BindOptionalArguments(fr: nat, first: nat, d: ArgDesc, numFixed: nat, numOptPos: nat,
                                 paramNames: seq<Symbol>, defaults: seq<Obj>)
      returns (ok: bool)
      requires d.Valid() && first + DartFrameFixedSize + d.count == fr
      requires numFixed <= d.positionalCount <= numFixed + numOptPos && (numOptPos == 0 || |paramNames| == 0)
      requires |defaults| == |paramNames| + numOptPos && fr + numFixed + numOptPos + |paramNames| <= stack.Length
      modifies stack
      ensures OptionalArgsBound(old(stack[..]), stack[..], fr, first, d, numFixed, numOptPos, paramNames, defaults, ok)
    {
      var posCount := d.positionalCount;
      ghost var s0 := stack[..];
      StoreWords(fr, stack[first..first + posCount]);
      assert stack[..] == CopyPositional(s0, fr, first, posCount);
      if |paramNames| != 0 {
        ok := BindNamedArguments(fr, first, d, numFixed, paramNames, defaults, s0);
      } else {
        ok := BindPositionalDefaults(fr, d, numFixed, defaults);
      }
    }

    /**
     * The positional branch of BindOptionalArguments: named arguments passed to
     * a function without named parameters make the call a noSuchMethod; the
     * optional positional parameters not passed take their defaults.
     */
    method BindPositionalDefaults(fr: nat, d: ArgDesc, numFixed: nat, defaults: seq<Obj>) returns (ok: bool)
      requires numFixed <= d.positionalCount <= numFixed + |defaults| && fr + numFixed + |defaults| <= stack.Length
      modifies stack
      ensures ok <==> d.count == d.positionalCount
      ensures stack[..] == if ok then Splice(old(stack[..]), fr + d.positionalCount, defaults[d.positionalCount - numFixed..])
        else old(stack[..])
    {
      if d.count != d.positionalCount {
        return false;
      }
      StoreWords(fr + d.positionalCount, defaults[d.positionalCount - numFixed..]);
      return true;
    }

    /** The named branch of BindOptionalArguments, once the positional arguments were copied over the stack s0. */
    method BindNamedArguments(fr: nat, first: nat, d: ArgDesc, numFixed: nat, paramNames: seq<Symbol>,
                              defaults: seq<Obj>, ghost s0: seq<Obj>)
      returns (ok: bool)
      requires d.Valid() && first + DartFrameFixedSize + d.count == fr && d.positionalCount == numFixed
      requires |defaults| == |paramNames| && fr + numFixed + |paramNames| <= |s0| == stack.Length
      requires stack[..] == CopyPositional(s0, fr, first, numFixed)
      modifies stack
      ensures var walk := NamedWalk(paramNames, Names(d.named));
        var args := s0[first..first + d.count];
        ChoicesFit(walk.0, args, d.named) &&
        stack[..] == Splice(old(stack[..]), fr + numFixed, NamedParamValues(walk.0, defaults, args, d.named)) &&
        (ok <==> walk.1 == 0)
    {
      ghost var args := s0[first..first + d.count];
      SpliceKeepsBelow(s0, fr, s0[first..first + numFixed], first, first + d.count);
      assert stack[first..first + d.count] == args;
      var i := BindNamedParameters(first, d.count, d.named, paramNames, defaults, fr + numFixed, args);
      ok := i == -1;
    }

    /** An operand of an integer bytecode: null or an integer, as the bytecode compiler guarantees. */
    predicate IntOperand(o: Obj) {
      o.Null? || IsInteger(o)
    }

    /**
     * NegateInt: the operand on top of the stack is replaced by its wrapping
     * negation, boxed. A null operand throws NoSuchMethodError for unary minus:
     * the handler stores the selector in the top slot before the throw.
     */
    method NegateIntBytecode(selectorOf: IntOp -> Obj, boxAddr: nat) returns (outcome: Outcome)
      requires 0 <= top < stack.Length && IntOperand(stack[top])
      modifies stack
      ensures var x := old(stack[top]);
        (x.Null? ==> outcome == NullError(NegateOp) && stack[..] == old(stack[..])[top := selectorOf(NegateOp)]) &&
        (!x.Null? ==>
          outcome == Dispatch &&
          stack[..] == old(stack[..])[top := BoxInt64(EvalIntOp(NegateOp, UnboxInt64(x), 0).value.value, boxAddr)])
    {
      var x := stack[top];
      if x.Null? {
        stack[top] := selectorOf(NegateOp);
        return NullError(NegateOp);
      }
      var r := EvalIntOp(NegateOp, UnboxInt64(x), 0);
      stack[top] := BoxInt64(r.value.value, boxAddr);
      return Dispatch;
    }

    /**
     * The binary integer bytecodes AddInt to CompareIntLe, CompareIntEq aside.
     * SP drops to the first operand, whose slot receives the result: the boxed
     * int64 (a Mint at boxAddr when it does not fit a Smi) or the bool. A null
     * operand stores op's selector there and throws; a zero divisor throws
     * IntegerDivisionByZeroException; a negative shift count is moved to the
     * top slot and an ArgumentError is thrown.
     */
    method BinaryIntBytecode(op: IntOp, selectorOf: IntOp -> Obj, boxAddr: nat) returns (outcome: Outcome)
      requires !op.NegateOp? && 1 <= top < stack.Length && IntOperand(stack[top - 1]) && IntOperand(stack[top])
      modifies this, stack
      ensures stack == old(stack) && top == old(top) - 1
      ensures frame == old(frame) && pc == old(pc) && fp == old(fp) && pp == old(pp) && argdesc == old(argdesc)
      ensures threadExitFrame == old(threadExitFrame)
      ensures var x, y := old(stack[top - 1]), old(stack[top]);
        x.Null? || y.Null? ==> outcome == NullError(op) && stack[..] == old(stack[..])[top := selectorOf(op)]
      ensures var x, y := old(stack[top - 1]), old(stack[top]);
        !x.Null? && !y.Null? ==>
          match EvalIntOp(op, UnboxInt64(x), UnboxInt64(y))
          case Ok(IntResult(v)) => outcome == Dispatch && stack[..] == old(stack[..])[top := BoxInt64(v, boxAddr)]
          case Ok(BoolResult(b)) => outcome == Dispatch && stack[..] == old(stack[..])[top := Bool(b)]
          case Err(DivisionByZero) => outcome == DivisionByZeroError && stack[..] == old(stack[..])
          case Err(NegativeShiftCount) => outcome == ArgumentError && stack[..] == old(stack[..])[top := y]
    {
      top := top - 1;
      var x, y := stack[top], stack[top + 1];
      if x.Null? || y.Null? {
        stack[top] := selectorOf(op);
        return NullError(op);
      }
      match EvalIntOp(op, UnboxInt64(x), UnboxInt64(y))
      case Ok(IntResult(v)) =>
        stack[top] := BoxInt64(v, boxAddr);
        outcome := Dispatch;
      case Ok(BoolResult(b)) =>
        stack[top] := Bool(b);
        outcome := Dispatch;
      case Err(DivisionByZero) =>
        outcome := DivisionByZeroError;
      case Err(NegativeShiftCount) =>
        stack[top] := y;
        outcome := ArgumentError;
    }

    /**
     * CompareIntEq: SP drops to the first operand, whose slot receives the
     * bool COMPARE_INT_EQ answers; null operands do not throw here.
     */
    method CompareIntEqBytecode()
      requires 1 <= top < stack.Length && IntOperand(stack[top - 1]) && IntOperand(stack[top])
      modifies this, stack
      ensures stack == old(stack) && top == old(top) - 1
      ensures frame == old(frame) && pc == old(pc) && fp == old(fp) && pp == old(pp) && argdesc == old(argdesc)
      ensures threadExitFrame == old(threadExitFrame)
      ensures stack[..] == old(stack[..])[top := Bool(CompareIntEq(old(stack[top - 1]), old(stack[top])))]
    {
      top := top - 1;
      stack[top] := Bool(CompareIntEq(stack[top], stack[top + 1]));
    }

    /** The receiver's index among a call's arguments: after the type arguments, when there are any. */
    function ReceiverIndex(argsDescriptor: Obj): nat
      requires argsDescriptor.ArgsDesc?
    {
      if argsDescriptor.desc.typeArgsLen > 0 then 1 else 0
    }

    /**
     * InstanceCall1 and InstanceCall2, for an ICData testing k = 1 or 2
     * arguments: the class ids of the k arguments from the receiver on are
     * looked up in the cache, and argdesc_ becomes the ICData's descriptor. On a
     * hit the row's target goes to the call's top slot and, unless the caller is
     * optimized, the row's usage count is bumped. On a miss the checked
     * arguments and the ICData are stored above the top slot for the miss
     * handler, whose runtime call is outside this model.
     */
    method InstanceCall(ic: ICData, callBase: nat, callTop: nat, optimized: bool, icObj: Obj) returns (outcome: Outcome)
      requires ic.entries != stack && (ic.numArgsTested == 1 || ic.numArgsTested == 2)
      requires ic.argsDescriptor.ArgsDesc? && RowsCounted(ic.entries[..], ic.numArgsTested)
      requires callBase + ReceiverIndex(ic.argsDescriptor) + ic.numArgsTested <= stack.Length
      requires callTop + 1 + ic.numArgsTested < stack.Length
      modifies this, stack, ic.entries
      ensures stack == old(stack) && argdesc == ic.argsDescriptor
      ensures frame == old(frame) && top == old(top) && pc == old(pc) && fp == old(fp) && pp == old(pp)
      ensures threadExitFrame == old(threadExitFrame)
      ensures var k := ic.numArgsTested;
        var from := callBase + ReceiverIndex(ic.argsDescriptor);
        var args := old(stack[from..from + k]);
        match FirstHit(old(ic.entries[..]), CidsOf(args), 0)
        case Some(row) =>
          var target := old(ic.entries[RowStart(row, k) + TargetIndexFor(k)]);
          var slot := RowStart(row, k) + CountIndexFor(k);
          outcome == InvokeTarget(target) && stack[..] == old(stack[..])[callTop := target] &&
          ic.entries[..] == if optimized then old(ic.entries[..])
            else old(ic.entries[..])[slot := Smi(IncrementSmiCount(old(ic.entries[slot]).value))]
        case None =>
          outcome == InlineCacheMiss(args) && ic.entries[..] == old(ic.entries[..]) &&
          stack[..] == Splice(old(stack[..]), callTop + 1, args + [icObj])
    {
      var from := callBase + ReceiverIndex(ic.argsDescriptor);
      outcome := LookUpCache(ic, stack[from..from + ic.numArgsTested], callTop, optimized, icObj);
      argdesc := ic.argsDescriptor;
    }

    /** InstanceCall's cache lookup for the checked arguments args, and what a hit or a miss stores. */
    method LookUpCache(ic: ICData, args: seq<Obj>, callTop: nat, optimized: bool, icObj: Obj) returns (outcome: Outcome)
      requires ic.entries != stack && |args| == ic.numArgsTested && (|args| == 1 || |args| == 2)
      requires RowsCounted(ic.entries[..], |args|) && callTop + 1 + |args| < stack.Length
      modifies stack, ic.entries
      ensures var k := |args|;
        match FirstHit(old(ic.entries[..]), CidsOf(args), 0)
        case Some(row) =>
          var target := old(ic.entries[RowStart(row, k) + TargetIndexFor(k)]);
          var slot := RowStart(row, k) + CountIndexFor(k);
          outcome == InvokeTarget(target) && stack[..] == old(stack[..])[callTop := target] &&
          ic.entries[..] == if optimized then old(ic.entries[..])
            else old(ic.entries[..])[slot := Smi(IncrementSmiCount(old(ic.entries[slot]).value))]
        case None =>
          outcome == InlineCacheMiss(args) && ic.entries[..] == old(ic.entries[..]) &&
          stack[..] == Splice(old(stack[..]), callTop + 1, args + [icObj])
    {
      var k := |args|;
      var found, row, i := ScanCache(ic.entries, CidsOf(args));
      assert i == RowStart(row, k);
      if found {
        assert Hits(ic.entries[..], row, CidsOf(args)) && HasCountSlot(ic.entries[..], i, k);
        var target := TakeCacheHit(ic, row, k, callTop, optimized);
        return InvokeTarget(target);
      }
      StoreWords(callTop + 1, args + [icObj]);
      return InlineCacheMiss(args);
    }

    /**
     * InstanceCall's hit in row row for k checked arguments: the row's target
     * is stored at callTop, and the row's usage count is incremented unless
     * the caller is optimized.
     */
    method TakeCacheHit(ic: ICData, row: nat, k: nat, callTop: nat, optimized: bool) returns (target: Obj)
      requires k == ic.numArgsTested && ic.entries != stack && callTop < stack.Length
      requires HasCountSlot(ic.entries[..], RowStart(row, k), k)
      modifies stack, ic.entries
      ensures target == old(ic.entries[RowStart(row, k) + TargetIndexFor(k)])
      ensures var slot := RowStart(row, k) + CountIndexFor(k);
        stack[..] == old(stack[..])[callTop := target] &&
        ic.entries[..] == if optimized then old(ic.entries[..])
          else old(ic.entries[..])[slot := Smi(IncrementSmiCount(old(ic.entries[slot]).value))]
    {
      var i := RowStart(row, k);
      target := ic.entries[i + TargetIndexFor(k)];
      stack[callTop] := target;
      if !optimized {
        IncrementICUsageCount(ic.entries, i, k);
      }
    }

    /**
     * What NativeCall's case for kind needs of the stack and the heap: its
     * operands on the stack (a getter's receiver holding the field it loads, a
     * setter's instance below the value), and room above the top for the words
     * it stores there. The default case needs the native's arguments below the
     * result slot it pushes.
     */
    predicate NativeCallReady(data: NativeEntryData, heap: Heap)
      reads this, stack, heap
    {
      var k := data.kind;
      0 <= top < stack.Length &&
      if k == ObjectEquals then 1 <= top
      else if k == StringBaseIsEmpty then heap.HasField(stack[top], StringLength)
      else if k == ClassIDgetID then true
      else if k == GrowableArrayCapacity then
        heap.HasField(stack[top], GrowableArrayData) && heap.HasField(heap.Load(stack[top], GrowableArrayData), ArrayLength)
      else if k == ListFactory || k == ObjectArrayAllocate then
        1 <= top && top + 2 < stack.Length && (k == ListFactory ==> argdesc.ArgsDesc?)
      else if LoadedField(k).Some? then heap.HasField(stack[top], LoadedField(k).value)
      else if StoredField(k).Some? then 1 <= top && stack[top - 1].Ref?
      else top + 1 < stack.Length && data.argcTag.numArguments <= top + 1
    }

    /**
     * The NativeCall bytecode. The kinds the loader recognized are handled in
     * place: identity comparison, field loads and stores, the class id, the
     * growable array's capacity, and list allocation through the runtime (whose
     * result is runtimeResult) or through the growable list factory. Any other
     * kind calls the native function through the entry's trampoline, after
     * linking an entry that has none to the bootstrap wrapper and LinkNativeCall;
     * the call's result nativeResult replaces the arguments. patched is the
     * entry's payload after the call.
     */
    method NativeCall(data: NativeEntryData, heap: Heap, growableListFactory: Obj, growableListDesc: Obj,
                      runtimeResult: Obj, nativeResult: Obj)
      returns (outcome: Outcome, patched: NativeEntryData)
      requires NativeCallReady(data, heap)
      modifies this, stack, heap
      ensures stack == old(stack) && frame == old(frame) && pc == old(pc) && fp == old(fp) && pp == old(pp)
      ensures threadExitFrame == old(threadExitFrame)
      ensures outcome == NativeCallMade <==> !InNativeEntryList(data.kind)
      ensures patched == if InNativeEntryList(data.kind) || data.trampoline.Some? then data
        else data.(trampoline := Some(BootstrapNativeCallWrapper), nativeFunction := Some(LinkNativeCall))
      ensures StoredField(data.kind).None? ==> heap.slots == old(heap.slots)
      ensures argdesc == if data.kind == ListFactory && old(argdesc).desc.positionalCount != 2 then growableListDesc
        else old(argdesc)
      ensures var t, k := old(top), data.kind;
        (k == ObjectEquals ==>
          outcome == Dispatch && top == t - 1 && stack[..] == old(stack[..])[t - 1 := Bool(old(stack[t - 1] == stack[t]))]) &&
        (k == StringBaseIsEmpty ==>
          outcome == Dispatch && top == t &&
          stack[..] == old(stack[..])[t := Bool(old(heap.Load(stack[t], StringLength)) == Smi(0))]) &&
        (k == ClassIDgetID ==>
          outcome == Dispatch && top == t && stack[..] == old(stack[..])[t := ClassIdAsSmi(old(stack[t]))]) &&
        (k == GrowableArrayCapacity ==>
          outcome == Dispatch && top == t &&
          stack[..] == old(stack[..])[t := old(heap.Load(heap.Load(stack[t], GrowableArrayData), ArrayLength))]) &&
        (LoadedField(k).Some? ==>
          outcome == Dispatch && top == t && stack[..] == old(stack[..])[t := old(heap.Load(stack[t], LoadedField(k).value))])
      ensures var t, k := old(top), data.kind;
        (k == ObjectArrayAllocate || (k == ListFactory && old(argdesc).desc.positionalCount == 2) ==>
          outcome == RuntimeCallMade && top == t - 1 &&
          stack[..] == old(stack[..])[t + 1 := old(stack[t])][t + 2 := old(stack[t - 1])][t - 1 := runtimeResult]) &&
        (k == ListFactory && old(argdesc).desc.positionalCount != 2 ==>
          outcome == InvokeTarget(growableListFactory) && top == t &&
          stack[..] == old(stack[..])[t := Smi(0)][t + 1 := growableListFactory])
      ensures var t, k := old(top), data.kind;
        StoredField(k).Some? ==>
          outcome == Dispatch && top == t - 1 && stack[..] == old(stack[..])[t - 1 := Null] &&
          heap.slots == old(heap.slots)[(old(stack[t - 1]).addr, StoredField(k).value) := old(stack[t])]
      ensures var t, n := old(top), data.argcTag.numArguments;
        !InNativeEntryList(data.kind) ==>
          top == t + 1 - n && stack[..] == old(stack[..])[t + 1 := nativeResult][t + 1 - n := nativeResult]
    {
      var k := data.kind;
      patched := data;
      outcome := Dispatch;
      if k == ObjectArrayAllocate || (k == ListFactory && argdesc.desc.positionalCount == 2) {
        AllocateArrayCall(runtimeResult);
        outcome := RuntimeCallMade;
      } else if k == ListFactory {
        stack[top] := Smi(0);
        stack[top + 1] := growableListFactory;
        argdesc := growableListDesc;
        outcome := InvokeTarget(growableListFactory);
      } else if HandledInline(k) {
        AnswerInPlace(data, heap);
      } else {
        if data.trampoline.None? {
          patched := data.(trampoline := Some(BootstrapNativeCallWrapper), nativeFunction := Some(LinkNativeCall));
        }
        CallNative(data.argcTag.numArguments, nativeResult);
        outcome := NativeCallMade;
      }
    }

    /**
     * NativeCall's cases answered in place without leaving the frame: the
     * identity comparison, the getters, the class id, the growable array's
     * capacity and the setters.
     */
    method AnswerInPlace(data: NativeEntryData, heap: Heap)
      requires NativeCallReady(data, heap)
      requires HandledInline(data.kind) && data.kind != ListFactory && data.kind != ObjectArrayAllocate
      modifies this, stack, heap
      ensures stack == old(stack) && frame == old(frame) && pc == old(pc) && fp == old(fp) && pp == old(pp)
      ensures argdesc == old(argdesc) && threadExitFrame == old(threadExitFrame)
      ensures StoredField(data.kind).None? ==> heap.slots == old(heap.slots)
      ensures var t, k := old(top), data.kind;
        (k == ObjectEquals ==> top == t - 1 && stack[..] == old(stack[..])[t - 1 := Bool(old(stack[t - 1] == stack[t]))]) &&
        (k == StringBaseIsEmpty ==>
          top == t && stack[..] == old(stack[..])[t := Bool(old(heap.Load(stack[t], StringLength)) == Smi(0))]) &&
        (k == ClassIDgetID ==> top == t && stack[..] == old(stack[..])[t := ClassIdAsSmi(old(stack[t]))]) &&
        (k == GrowableArrayCapacity ==>
          top == t && stack[..] == old(stack[..])[t := old(heap.Load(heap.Load(stack[t], GrowableArrayData), ArrayLength))]) &&
        (LoadedField(k).Some? ==> top == t && stack[..] == old(stack[..])[t := old(heap.Load(stack[t], LoadedField(k).value))])
      ensures var t, k := old(top), data.kind;
        StoredField(k).Some? ==>
          top == t - 1 && stack[..] == old(stack[..])[t - 1 := Null] &&
          heap.slots == old(heap.slots)[(old(stack[t - 1]).addr, StoredField(k).value) := old(stack[t])]
    {
      var k := data.kind;
      if k == ObjectEquals {
        stack[top - 1] := Bool(stack[top - 1] == stack[top]);
        top := top - 1;
      } else if k == StringBaseIsEmpty {
        stack[top] := Bool(heap.Load(stack[top], StringLength) == Smi(0));
      } else if k == ClassIDgetID {
        stack[top] := ClassIdAsSmi(stack[top]);
      } else if k == GrowableArrayCapacity {
        stack[top] := heap.Load(heap.Load(stack[top], GrowableArrayData), ArrayLength);
      } else if LoadedField(k).Some? {
        stack[top] := heap.Load(stack[top], LoadedField(k).value);
      } else {
        heap.slots := heap.slots[(stack[top - 1].addr, StoredField(k).value) := stack[top]];
        top := top - 1;
        stack[top] := Null;
      }
    }

    /**
     * The runtime array allocation of NativeCall's ListFactory and
     * ObjectArrayAllocate cases: the length and type arguments are copied above
     * the top, the runtime stores the new array (result) below them, and SP
     * drops to it.
     */
    method AllocateArrayCall(result: Obj)
      requires 1 <= top && top + 2 < stack.Length
      modifies this, stack
      ensures stack == old(stack) && frame == old(frame) && pc == old(pc) && fp == old(fp) && pp == old(pp)
      ensures argdesc == old(argdesc) && threadExitFrame == old(threadExitFrame) && top == old(top) - 1
      ensures stack[..] == old(stack[..])[top + 2 := old(stack[top])][top + 3 := old(stack[top - 1])][top := result]
    {
      stack[top + 1] := stack[top];
      stack[top + 2] := stack[top - 1];
      stack[top - 1] := result;
      top := top - 1;
    }

    /**
     * NativeCall's default case once the entry is linked: a null result slot is
     * pushed, the native function receives the numArguments words below it and
     * stores result in the slot, and the result replaces the first argument as
     * SP drops to it.
     */
    method CallNative(numArguments: nat, result: Obj)
      requires 0 <= top && top + 1 < stack.Length && numArguments <= top + 1
      modifies this, stack
      ensures stack == old(stack) && frame == old(frame) && pc == old(pc) && fp == old(fp) && pp == old(pp)
      ensures argdesc == old(argdesc) && threadExitFrame == old(threadExitFrame)
      ensures top == old(top) + 1 - numArguments
      ensures stack[..] == old(stack[..])[old(top) + 1 := result][old(top) + 1 - numArguments := result]
    {
      top := top + 1;
      stack[top] := Null;
      var returnSlot := top;
      stack[returnSlot] := result;
      stack[top - numArguments] := stack[returnSlot];
      top := top - numArguments;
    }
  }
}
