/**
 * The layout ReadPoolEntries leaves in the object pool. Every slot it reads
 * is written, not patchable, of the entry type of its value, and refers only
 * to earlier slots. An instance field takes two adjacent slots, its offset
 * then the field. Each closure's scope ends at a null slot, and every closure
 * read has its scope recorded.
 */
module PoolLayout {
  import opened Common
  import opened BytecodeReader

  /** Slot k is written, not patchable, of the entry type of its value, and refers only to earlier slots. */
  predicate SlotOk(slot: Slot, k: int) {
    slot.Entry? && slot.patchability == NotPatchable && slot.entryType == EntryTypeFor(slot.value) && RefsBelow(slot.value, k)
  }

  /**
   * Slot k, of the slots below upTo, is written as SlotOk says and holds no
   * half of an instance field entry whose other half is missing: an offset
   * is followed by its field, and a field follows its offset.
   */
  predicate SlotLaidOut(pool: seq<Slot>, k: nat, upTo: int)
    requires k < |pool|
  {
    SlotOk(pool[k], k) &&
    (ValueOf(pool[k]).FieldOffsetValue? ==>
      k + 1 < upTo && k + 1 < |pool| && ValueOf(pool[k + 1]) == InstanceFieldValue(ValueOf(pool[k]).field)) &&
    (ValueOf(pool[k]).InstanceFieldValue? ==>
      0 < k && ValueOf(pool[k - 1]) == FieldOffsetValue(ValueOf(pool[k]).field))
  }

  /** The slots below upTo are laid out as the loader writes them. */
  predicate LaidOut(pool: seq<Slot>, upTo: int) {
    forall k: nat :: k < upTo && k < |pool| ==> SlotLaidOut(pool, k, upTo)
  }

  /** No slot from lo up to, but not including, hi holds a closure. */
  predicate NoClosureIn(pool: seq<Slot>, lo: int, hi: int) {
    forall k: nat :: lo <= k < hi ==> !IsClosureSlot(pool, k)
  }

  /** The closure at slot c, between lo and hi, has its scope ended by the null slot e after it, no further than hi. */
  predicate ScopeEndsAt(pool: seq<Slot>, c: nat, e: nat, lo: int, hi: int) {
    lo <= c < e <= hi && e < |pool| && IsClosureSlot(pool, c) && pool[e] == EndOfScopeSlot
  }

  /**
   * scopes records, for each closure in slots lo to hi, the slot where its
   * scope ended; every closure in those slots is recorded.
   */
  predicate ScopesOk(pool: seq<Slot>, scopes: map<nat, nat>, lo: int, hi: int) {
    hi < |pool| &&
    (forall c :: c in scopes ==> ScopeEndsAt(pool, c, scopes[c], lo, hi)) &&
    (forall k: nat :: lo <= k <= hi && IsClosureSlot(pool, k) ==> k in scopes)
  }

  /** Writing slots i to next, each laid out, after a laid-out prefix keeps the pool laid out up to next. */
  lemma LaidOutExtend(pool: seq<Slot>, filled: seq<Slot>, i: nat, next: nat)
    requires |filled| == |pool| && i <= next <= |pool|
    requires LaidOut(pool, i) && filled[..i] == pool[..i]
    requires forall k: nat :: i <= k < next ==> SlotLaidOut(filled, k, next)
    ensures LaidOut(filled, next)
  {
    forall k: nat | k < next
      ensures SlotLaidOut(filled, k, next)
    {
      if k < i {
        assert filled[k] == filled[..i][k] == pool[..i][k] == pool[k];
        assert SlotLaidOut(pool, k, i);
        if ValueOf(pool[k]).FieldOffsetValue? {
          assert filled[k + 1] == filled[..i][k + 1] == pool[..i][k + 1];
        }
        if ValueOf(pool[k]).InstanceFieldValue? {
          assert filled[k - 1] == filled[..i][k - 1] == pool[..i][k - 1];
        }
      }
    }
  }

  /** A slot the loader writes with value v, of its entry type and not patchable, at slot k. */
  lemma WrittenSlotOk(v: PoolValue, k: int)
    requires RefsBelow(v, k)
    ensures SlotOk(Entry(EntryTypeFor(v), NotPatchable, v), k)
  {
  }

  /**
   * SlotsAt lays out the slots it writes (an instance field as an offset and
   * the field side by side), writes no closure, and leaves every other slot
   * as it was.
   */
  lemma SlotsAtLaysOut(ts: seq<nat>, env: Env, pool: seq<Slot>, tag: nat, i: nat, at: nat)
    requires i < |pool| && LaidOut(pool, i)
    requires tag != ClosureFunctionTag && tag != EndClosureFunctionScopeTag
    ensures var r := SlotsAt(ts, env, pool, tag, i, at); r.Ok? ==>
      var filled, next := r.value.value.0, r.value.value.1;
      LaidOut(filled, next) && NoClosureIn(filled, i, next) &&
      filled[..i] == pool[..i] && filled[next..] == pool[next..]
  {
    var r := SlotsAt(ts, env, pool, tag, i, at);
    if r.Ok? {
      var filled, next := r.value.value.0, r.value.value.1;
      if tag != InstanceFieldTag && tag != NativeEntryTag {
        EntryValueAtReads(ts, env, pool, tag, i, at);
      }
      assert filled[..i] == pool[..i];
      assert filled[next..] == pool[next..];
      LaidOutExtend(pool, filled, i, next);
    }
  }

  /** Scopes recorded in one pool stay recorded in a pool that agrees with it up to hi. */
  lemma ScopesTransfer(p: seq<Slot>, q: seq<Slot>, scopes: map<nat, nat>, lo: int, hi: int)
    requires -1 <= hi && ScopesOk(p, scopes, lo, hi) && |q| == |p| && q[..hi + 1] == p[..hi + 1]
    ensures ScopesOk(q, scopes, lo, hi)
  {
    forall k: nat | k <= hi
      ensures q[k] == p[k]
    {
      assert q[k] == q[..hi + 1][k];
    }
  }

  /** The scopes of slots lo to mid and of slots mid + 1 to hi together record the scopes of slots lo to hi. */
  lemma ScopesMerge(p: seq<Slot>, s1: map<nat, nat>, s2: map<nat, nat>, lo: int, mid: int, hi: int)
    requires lo <= mid + 1 && mid <= hi && ScopesOk(p, s1, lo, mid) && ScopesOk(p, s2, mid + 1, hi)
    ensures ScopesOk(p, s1 + s2, lo, hi)
  {
    var m := s1 + s2;
    forall c | c in m
      ensures ScopeEndsAt(p, c, m[c], lo, hi)
    {
      if c in s2 {
        assert m[c] == s2[c] && ScopeEndsAt(p, c, s2[c], mid + 1, hi);
      } else {
        assert m[c] == s1[c] && ScopeEndsAt(p, c, s1[c], lo, mid);
      }
    }
  }

  /** Slots lo to mid that hold no closure add no scope to those of slots mid to hi. */
  lemma ScopesSkip(p: seq<Slot>, scopes: map<nat, nat>, lo: int, mid: int, hi: int)
    requires lo <= mid && ScopesOk(p, scopes, mid, hi) && NoClosureIn(p, lo, mid)
    ensures ScopesOk(p, scopes, lo, hi)
  {
  }

  /** A closure at slot i whose scope, slots i + 1 to j, ends with null at j records its scope. */
  lemma ScopesClose(p: seq<Slot>, inner: map<nat, nat>, i: nat, j: nat)
    requires i < j && ScopesOk(p, inner, i + 1, j)
    requires IsClosureSlot(p, i) && p[j] == EndOfScopeSlot
    ensures ScopesOk(p, inner[i := j], i, j)
  {
  }

  /**
   * What reading the pool from slot i leaves in f: the slots it read laid
   * out, the slots below i and after the last slot read as they were, and the
   * scope of every closure it read recorded.
   */
  predicate FillOk(pool: seq<Slot>, i: nat, f: PoolFill) {
    |f.pool| == |pool| && i <= f.last + 1 && f.last < |pool| &&
    LaidOut(f.pool, f.last + 1) && f.pool[..i] == pool[..i] && f.pool[f.last + 1..] == pool[f.last + 1..] &&
    ScopesOk(f.pool, f.scopes, i, f.last)
  }

  /** A kEndClosureFunctionScope entry at slot i leaves null there and ends the reading. */
  lemma FillEndScope(pool: seq<Slot>, i: nat)
    requires i < |pool| && LaidOut(pool, i)
    ensures FillOk(pool, i, PoolFill(pool[i := EndOfScopeSlot], i, map[]))
  {
    var filled := pool[i := EndOfScopeSlot];
    WrittenSlotOk(NullValue, i);
    assert filled[..i] == pool[..i];
    LaidOutExtend(pool, filled, i, i + 1);
    assert filled[i + 1..] == pool[i + 1..];
  }

  /** A closure scope read from slot i, then the entries after it, together read the pool from slot i. */
  lemma FillAfterScope(pool: seq<Slot>, i: nat, s: PoolFill, rest: PoolFill)
    requires FillOk(pool, i, s) && i <= s.last && FillOk(s.pool, s.last + 1, rest)
    ensures FillOk(pool, i, rest.(scopes := s.scopes + rest.scopes))
  {
    assert rest.pool[..i] == rest.pool[..s.last + 1][..i] == s.pool[..s.last + 1][..i] == pool[..i];
    assert rest.pool[rest.last + 1..] == pool[rest.last + 1..] by {
      assert rest.pool[rest.last + 1..] == s.pool[s.last + 1..][rest.last - s.last..];
      assert pool[rest.last + 1..] == pool[s.last + 1..][rest.last - s.last..];
    }
    ScopesTransfer(s.pool, rest.pool, s.scopes, i, s.last);
    ScopesMerge(rest.pool, s.scopes, rest.scopes, i, s.last, rest.last);
  }

  /** Slots i to next written without a closure, then the entries after them, together read the pool from slot i. */
  lemma FillAfterSlots(pool: seq<Slot>, i: nat, filled: seq<Slot>, next: nat, rest: PoolFill)
    requires i < next <= |pool| && |filled| == |pool|
    requires NoClosureIn(filled, i, next) && filled[..i] == pool[..i] && filled[next..] == pool[next..]
    requires FillOk(filled, next, rest)
    ensures FillOk(pool, i, rest)
  {
    assert rest.pool[..i] == rest.pool[..next][..i] == filled[..next][..i] == pool[..i];
    assert rest.pool[rest.last + 1..] == pool[rest.last + 1..] by {
      assert rest.pool[rest.last + 1..] == filled[next..][rest.last + 1 - next..];
      assert pool[rest.last + 1..] == pool[next..][rest.last + 1 - next..];
    }
    assert NoClosureIn(rest.pool, i, next) by {
      forall k: nat | i <= k < next
        ensures !IsClosureSlot(rest.pool, k)
      {
        assert rest.pool[k] == rest.pool[..next][k] == filled[k];
        assert !IsClosureSlot(filled, k);
      }
    }
    ScopesSkip(rest.pool, rest.scopes, i, next, rest.last);
  }

  /**
   * The closure written at slot i, then its scope read from slot i + 1 and
   * ended at a null slot j after i, read the closure's scope from slot i.
   */
  lemma FillCloseScope(pool: seq<Slot>, i: nat, c: ClosureSignature, inner: PoolFill)
    requires i < |pool| && LaidOut(pool, i)
    requires FillOk(pool[i := Entry(TaggedObject, NotPatchable, ClosureFunctionValue(c))], i + 1, inner)
    requires i < inner.last && ValueOf(inner.pool[inner.last]) == NullValue
    ensures var f := inner.(scopes := inner.scopes[i := inner.last]);
      FillOk(pool, i, f) && IsClosureSlot(f.pool, i) && f.pool[f.last] == EndOfScopeSlot
  {
    var scoped := pool[i := Entry(TaggedObject, NotPatchable, ClosureFunctionValue(c))];
    WrittenSlotOk(ClosureFunctionValue(c), i);
    assert scoped[..i] == pool[..i];
    LaidOutExtend(pool, scoped, i, i + 1);
    assert inner.pool[i] == inner.pool[..i + 1][i] == scoped[..i + 1][i];
    assert inner.pool[..i] == inner.pool[..i + 1][..i] == scoped[..i + 1][..i] == pool[..i];
    assert inner.pool[inner.last + 1..] == pool[inner.last + 1..] by {
      assert scoped[inner.last + 1..] == pool[inner.last + 1..];
    }
    assert SlotLaidOut(inner.pool, inner.last, inner.last + 1);
    ScopesClose(inner.pool, inner.scopes, i, inner.last);
  }

  /**
   * ReadPoolEntries from slot i lays out every slot it reads, leaves the
   * slots below i and after the last slot read as they were, records the
   * scope of every closure it reads, and ends at the pool's last slot or at
   * a null slot.
   */
  lemma {:induction false} PoolEntriesLayOut(ts: seq<nat>, env: Env, pool: seq<Slot>, i: nat, at: nat)
    requires i <= |pool| && LaidOut(pool, i)
    decreases |pool| - i, 3
    ensures var r := PoolEntriesAt(ts, env, pool, i, at); r.Ok? ==>
      FillOk(pool, i, r.value.value) && (r.value.value.last == |pool| - 1 || r.value.value.pool[r.value.value.last] == EndOfScopeSlot)
  {
    var r := PoolEntriesAt(ts, env, pool, i, at);
    if r.Ok? && i == |pool| {
      assert pool[..i] == pool && pool[i..] == [];
    } else if r.Ok? {
      assert TokenAt(ts, at).Ok?;
      if ts[at] == EndClosureFunctionScopeTag {
        PoolEntriesAtEndOk(ts, env, pool, i, at);
        FillEndScope(pool, i);
      } else if ts[at] == ClosureFunctionTag {
        PoolEntriesAtClosure(ts, env, pool, i, at);
        AfterScopeLaysOut(ts, env, pool, i, at + 1);
      } else {
        PoolEntriesAtSlots(ts, env, pool, i, at);
        SlotsThenEntriesLayOut(ts, env, pool, ts[at], i, at + 1);
      }
    }
  }

  /** EntriesAfterScope lays out a closure's scope, then the entries after it. */
  lemma {:induction false} AfterScopeLaysOut(ts: seq<nat>, env: Env, pool: seq<Slot>, i: nat, at: nat)
    requires i < |pool| && LaidOut(pool, i)
    decreases |pool| - i, 2
    ensures var r := EntriesAfterScope(ts, env, pool, i, at); r.Ok? ==>
      FillOk(pool, i, r.value.value) && (r.value.value.last == |pool| - 1 || r.value.value.pool[r.value.value.last] == EndOfScopeSlot)
  {
    if EntriesAfterScope(ts, env, pool, i, at).Ok? {
      EntriesAfterScopeOk(ts, env, pool, i, at);
      var s := ClosureScopeAt(ts, env, pool, i, at).value;
      var rest := PoolEntriesAt(ts, env, s.value.pool, s.value.last + 1, s.next).value;
      ScopeThenEntriesLayOut(ts, env, pool, i, at, s, rest);
    }
  }

  /** A closure's scope s read from slot i, then the entries rest read after it, lay out the pool read from slot i. */
  lemma {:induction false} ScopeThenEntriesLayOut(ts: seq<nat>, env: Env, pool: seq<Slot>, i: nat, at: nat, s: Parsed<PoolFill>, rest: Parsed<PoolFill>)
    requires i < |pool| && LaidOut(pool, i)
    requires ClosureScopeAt(ts, env, pool, i, at) == Ok(s)
    requires s.value.last < |s.value.pool| && PoolEntriesAt(ts, env, s.value.pool, s.value.last + 1, s.next) == Ok(rest)
    decreases |pool| - i, 1
    ensures var f := rest.value.(scopes := s.value.scopes + rest.value.scopes);
      FillOk(pool, i, f) && (f.last == |pool| - 1 || f.pool[f.last] == EndOfScopeSlot)
  {
    ClosureScopeLaysOut(ts, env, pool, i, at, s);
    PoolEntriesLayOut(ts, env, s.value.pool, s.value.last + 1, s.next);
    FillAfterScope(pool, i, s.value, rest.value);
  }

  /** EntriesAfterSlots lays out the slots of one entry, then the entries after them. */
  lemma {:induction false} SlotsThenEntriesLayOut(ts: seq<nat>, env: Env, pool: seq<Slot>, tag: nat, i: nat, at: nat)
    requires i < |pool| && LaidOut(pool, i) && tag != ClosureFunctionTag && tag != EndClosureFunctionScopeTag
    decreases |pool| - i, 0
    ensures var r := EntriesAfterSlots(ts, env, pool, tag, i, at); r.Ok? ==>
      FillOk(pool, i, r.value.value) && (r.value.value.last == |pool| - 1 || r.value.value.pool[r.value.value.last] == EndOfScopeSlot)
  {
    if EntriesAfterSlots(ts, env, pool, tag, i, at).Ok? {
      EntriesAfterSlotsOk(ts, env, pool, tag, i, at);
      var step := SlotsAt(ts, env, pool, tag, i, at).value;
      SlotsAtLaysOut(ts, env, pool, tag, i, at);
      PoolEntriesLayOut(ts, env, step.value.0, step.value.1, step.next);
      var rest := PoolEntriesAt(ts, env, step.value.0, step.value.1, step.next).value;
      FillAfterSlots(pool, i, step.value.0, step.value.1, rest.value);
    }
  }

  /**
   * A closure scope from slot i writes the closure at i, reads and lays out
   * its scope, which ends at a null slot after i, records the scope, and
   * leaves every other slot as it was.
   */
  lemma {:induction false} ClosureScopeLaysOut(ts: seq<nat>, env: Env, pool: seq<Slot>, i: nat, at: nat, s: Parsed<PoolFill>)
    requires i < |pool| && LaidOut(pool, i) && ClosureScopeAt(ts, env, pool, i, at) == Ok(s)
    decreases |pool| - i, 0
    ensures var f := s.value;
      FillOk(pool, i, f) && i < f.last && IsClosureSlot(f.pool, i) &&
      f.pool[f.last] == EndOfScopeSlot && i in f.scopes && f.scopes[i] == f.last
  {
    var closure := ClosureFunctionAt(ts, at).value;
    var scoped := pool[i := Entry(TaggedObject, NotPatchable, ClosureFunctionValue(closure.value))];
    WrittenSlotOk(ClosureFunctionValue(closure.value), i);
    assert scoped[..i] == pool[..i];
    LaidOutExtend(pool, scoped, i, i + 1);
    PoolEntriesLayOut(ts, env, scoped, i + 1, closure.next);
    FillCloseScope(pool, i, closure.value, PoolEntriesAt(ts, env, scoped, i + 1, closure.next).value.value);
  }

  /**
   * What a metadata payload read gives after its pool, flag by flag: the
   * bytecode keeps that pool and always carries well-formed tables, empty
   * unless the first flag is set; nullable fields are recorded only when the
   * second flag is set, and only for a generative constructor; the closures
   * grow only when the third flag is set, and then by loaded closures alone.
   */
  lemma MetadataAfterPoolFollowsFlags(ts: seq<nat>, env: Env, isGenerativeConstructor: bool, has: (bool, bool, bool),
                                      pool: seq<Slot>, at: nat, closures: map<nat, Code>)
    requires MetadataAfterPool(ts, env, isGenerativeConstructor, has, pool, at, closures).Ok?
    ensures var m := MetadataAfterPool(ts, env, isGenerativeConstructor, has, pool, at, closures).value;
      m.code.pool == pool && m.code.tables.Some? && TablesOk(m.code.tables.value, |pool|) &&
      (!has.0 ==> m.code.tables == Some(ExceptionTables([], []))) &&
      (!has.1 ==> m.recorded == []) && (has.1 ==> isGenerativeConstructor) &&
      (!has.2 ==> m.closures == closures) && ClosuresKept(pool, closures, m.closures)
  {
    var code := BytecodeAt(ts, pool, at).value;
    ExceptionsTableWellFormed(ts, env, |pool|, has.0, code.next);
    var tables := ExceptionsTableAt(ts, env, |pool|, has.0, code.next).value;
    var nullable :=
      if !has.1 then Ok(Parsed([], tables.next))
      else if !isGenerativeConstructor then Err(NotAGenerativeConstructor)
      else NullableFieldsAt(ts, env, tables.next);
    assert nullable.Ok?;
    if has.2 {
      ClosuresFromLoads(ts, env, pool, nullable.value.next + 1, ts[nullable.value.next], closures);
    }
  }

  /**
   * A metadata payload read at md has a pool of the length its second token
   * announces, laid out as ReadPoolEntries leaves it, and what follows it
   * is read after that pool under the flags of its first token.
   */
  lemma MetadataPoolLaidOut(ts: seq<nat>, env: Env, isGenerativeConstructor: bool, md: nat, closures: map<nat, Code>)
    requires MetadataAt(ts, env, isGenerativeConstructor, md, closures).Ok?
    ensures md + 1 < |ts|
    ensures var empty := seq(ts[md + 1], _ => Empty); var fill := PoolEntriesAt(ts, env, empty, 0, md + 2);
      fill.Ok? && FillOk(empty, 0, fill.value.value) &&
      MetadataAt(ts, env, isGenerativeConstructor, md, closures) ==
        MetadataAfterPool(ts, env, isGenerativeConstructor, MetadataFlags(ts[md]), fill.value.value.pool, fill.value.next, closures)
  {
    var empty := seq(ts[md + 1], _ => Empty);
    assert LaidOut(empty, 0);
    PoolEntriesLayOut(ts, env, empty, 0, md + 2);
  }

  /** Both together: the payload's pool is laid out, and its tables, nullable fields and closures follow its flags. */
  lemma MetadataFollowsFlags(ts: seq<nat>, env: Env, isGenerativeConstructor: bool, md: nat, closures: map<nat, Code>)
    requires MetadataAt(ts, env, isGenerativeConstructor, md, closures).Ok?
    ensures md + 1 < |ts|
    ensures var m := MetadataAt(ts, env, isGenerativeConstructor, md, closures).value;
      var has := MetadataFlags(ts[md]); var empty := seq(ts[md + 1], _ => Empty);
      var fill := PoolEntriesAt(ts, env, empty, 0, md + 2);
      fill.Ok? && m.code.pool == fill.value.value.pool && FillOk(empty, 0, fill.value.value) &&
      m.code.tables.Some? && TablesOk(m.code.tables.value, ts[md + 1]) &&
      (!has.0 ==> m.code.tables == Some(ExceptionTables([], []))) &&
      (!has.1 ==> m.recorded == []) && (has.1 ==> isGenerativeConstructor) &&
      (!has.2 ==> m.closures == closures) && ClosuresKept(m.code.pool, closures, m.closures)
  {
    MetadataPoolLaidOut(ts, env, isGenerativeConstructor, md, closures);
    var empty := seq(ts[md + 1], _ => Empty);
    var fill := PoolEntriesAt(ts, env, empty, 0, md + 2).value;
    MetadataAfterPoolFollowsFlags(ts, env, isGenerativeConstructor, MetadataFlags(ts[md]), fill.value.pool, fill.next, closures);
  }
}
