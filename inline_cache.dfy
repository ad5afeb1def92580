/**
 * The inline caches of InstanceCall1 and InstanceCall2. An ICData's entries
 * array is a sequence of rows; a row for k checked arguments holds the k class
 * ids (as Smis), the target, and a usage count (a Smi). The last row is a
 * sentinel that the lookup never inspects.
 */
module InlineCache {
  import opened Common
  import opened Int64
  import opened Objects

  /** ICData::TargetIndexFor: the target follows the k class ids of a row. */
  function TargetIndexFor(k: nat): nat {
    k
  }

  /** ICData::CountIndexFor: the usage count follows the target. */
  function CountIndexFor(k: nat): nat {
    k + 1
  }

  function RowWidth(k: nat): nat {
    k + 2
  }

  /** The entry offset where row r starts. */
  function RowStart(r: nat, k: nat): nat {
    r * RowWidth(k)
  }

  lemma RowStartMonotone(r: nat, r2: nat, k: nat)
    requires r <= r2
    ensures RowStart(r, k) <= RowStart(r2, k)
    ensures r < r2 ==> RowStart(r, k) + RowWidth(k) <= RowStart(r2, k)
  {
    if r < r2 {
      assert (r + 1) * RowWidth(k) == r * RowWidth(k) + RowWidth(k);
      assert (r + 1) * RowWidth(k) <= r2 * RowWidth(k);
    }
  }

  /**
   * Row r is one the lookup loop visits (it starts before the sentinel row) and
   * its leading class-id slots hold exactly cids.
   */
  predicate Hits(entries: seq<Obj>, r: nat, cids: seq<Obj>) {
    var start := RowStart(r, |cids|);
    start < |entries| - RowWidth(|cids|) && entries[start..start + |cids|] == cids
  }

  /** The first row at or after row r that hits; None when no row from r on hits. */
  function FirstHit(entries: seq<Obj>, cids: seq<Obj>, r: nat): (hit: Option<nat>)
    ensures hit.Some? ==> r <= hit.value && Hits(entries, hit.value, cids)
    ensures forall r2 :: r <= r2 && (hit.None? || r2 < hit.value) ==> !Hits(entries, r2, cids)
    decreases |entries| - RowStart(r, |cids|)
  {
    var start := RowStart(r, |cids|);
    if start >= |entries| - RowWidth(|cids|) then
      assert forall r2 :: r <= r2 ==> !Hits(entries, r2, cids) by {
        forall r2 | r <= r2 {
          RowStartMonotone(r, r2, |cids|);
        }
      }
      None
    else if entries[start..start + |cids|] == cids then Some(r)
    else
      RowStartMonotone(r, r + 1, |cids|);
      FirstHit(entries, cids, r + 1)
  }

  /** Compares the leading class-id slots of the row at offset i with cids. */
  method RowEquals(entries: array<Obj>, i: nat, cids: seq<Obj>) returns (matches: bool)
    requires i + |cids| <= entries.Length
    ensures matches <==> entries[i..i + |cids|] == cids
  {
    matches := true;
    var c := 0;
    while c < |cids|
      invariant 0 <= c <= |cids|
      invariant matches <==> entries[i..i + c] == cids[..c]
    {
      assert entries[i..i + c + 1] == entries[i..i + c] + [entries[i + c]];
      assert cids[..c + 1] == cids[..c] + [cids[c]];
      matches := matches && entries[i + c] == cids[c];
      c := c + 1;
    }
  }

  /**
   * The lookup loop of InstanceCall1/InstanceCall2: walks the rows in order and
   * stops at the first whose class ids are cids; i is that row's entry offset.
   */
  method ScanCache(entries: array<Obj>, cids: seq<Obj>) returns (found: bool, row: nat, i: nat)
    ensures FirstHit(entries[..], cids, 0) == if found then Some(row) else None
    ensures i == RowStart(row, |cids|)
  {
    var w := RowWidth(|cids|);
    var length := entries.Length;
    row, i := 0, 0;
    found := false;
    while i < length - w
      invariant i == RowStart(row, |cids|)
      invariant FirstHit(entries[..], cids, 0) == FirstHit(entries[..], cids, row)
      decreases length - i
    {
      found := RowEquals(entries, i, cids);
      assert entries[i..i + |cids|] == entries[..][i..i + |cids|];
      if found {
        return;
      }
      RowStartMonotone(row, row + 1, |cids|);
      row, i := row + 1, i + w;
    }
  }

  /** The usage-count slot of a row lies outside the class-id slots of every row. */
  lemma CountSlotOutsideRows(r: nat, row: nat, k: nat)
    ensures RowStart(row, k) + CountIndexFor(k) < RowStart(r, k) ||
            RowStart(r, k) + k <= RowStart(row, k) + CountIndexFor(k)
  {
    if r < row {
      RowStartMonotone(r, row, k);
    } else if row < r {
      RowStartMonotone(row, r, k);
    }
  }

  /** Updating a row's usage count leaves every lookup with the same class ids where it was. */
  lemma {:induction false} CountUpdateKeepsLookup(entries: seq<Obj>, cids: seq<Obj>, r: nat, row: nat, v: Obj)
    requires RowStart(row, |cids|) + CountIndexFor(|cids|) < |entries|
    ensures FirstHit(entries[RowStart(row, |cids|) + CountIndexFor(|cids|) := v], cids, r) ==
            FirstHit(entries, cids, r)
    decreases |entries| - RowStart(r, |cids|)
  {
    var k := |cids|;
    var slot := RowStart(row, k) + CountIndexFor(k);
    var e2 := entries[slot := v];
    var start := RowStart(r, k);
    if start < |entries| - RowWidth(k) {
      CountSlotOutsideRows(r, row, k);
      assert e2[start..start + k] == entries[start..start + k];
      RowStartMonotone(r, r + 1, k);
      CountUpdateKeepsLookup(entries, cids, r + 1, row, v);
    }
  }

  /**
   * IncrementICUsageCount's arithmetic on the tagged count: adding the tagged 1
   * to the raw Smi word. The raw word is 64 bits wide, so the count wraps from the
   * largest Smi to the smallest.
   */
  function IncrementSmiCount(v: int): (r: int)
    requires IsSmiValue(v)
    ensures IsSmiValue(r)
    ensures v < TwoTo62 - 1 ==> r == v + 1
    ensures v == TwoTo62 - 1 ==> r == -TwoTo62
  {
    var raw := Wrap(2 * v + 2);
    assert v == TwoTo62 - 1 ==> raw == -TwoTo63 by {
      if v == TwoTo62 - 1 {
        WrapUnique(2 * v + 2, -TwoTo63, 1);
      }
    }
    raw / 2
  }

  /** An ICData: the entries array it updates in place, its argument count and its arguments descriptor. */
  class ICData {
    var entries: array<Obj>
    const numArgsTested: nat
    const argsDescriptor: Obj

    constructor(entries: array<Obj>, numArgsTested: nat, argsDescriptor: Obj)
      ensures this.entries == entries && this.numArgsTested == numArgsTested
      ensures this.argsDescriptor == argsDescriptor
    {
      this.entries := entries;
      this.numArgsTested := numArgsTested;
      this.argsDescriptor := argsDescriptor;
    }
  }

  /** The count slot of row `offset` for k tested arguments holds a Smi, as the ICData layout guarantees. */
  predicate HasCountSlot(entries: seq<Obj>, offset: nat, k: nat) {
    offset + CountIndexFor(k) < |entries| && entries[offset + CountIndexFor(k)].Smi? &&
    IsSmiValue(entries[offset + CountIndexFor(k)].value)
  }

  /** Every row the lookup can hit has a Smi usage count, as the ICData layout guarantees. */
  ghost predicate RowsCounted(entries: seq<Obj>, k: nat) {
    forall r: nat :: RowStart(r, k) < |entries| - RowWidth(k) ==> HasCountSlot(entries, RowStart(r, k), k)
  }

  /** The class ids (as Smis) the lookup compares a row with: one per checked argument. */
  function CidsOf(args: seq<Obj>): (cids: seq<Obj>)
    ensures |cids| == |args|
  {
    seq(|args|, j requires 0 <= j < |args| => ClassIdAsSmi(args[j]))
  }

  /** InterpreterHelpers::IncrementICUsageCount: bumps the row's count in place. */
  method IncrementICUsageCount(entries: array<Obj>, offset: nat, argsTested: nat)
    requires HasCountSlot(entries[..], offset, argsTested)
    modifies entries
    ensures entries[..] == old(entries[..])[offset + CountIndexFor(argsTested) :=
      Smi(IncrementSmiCount(old(entries[offset + CountIndexFor(argsTested)]).value))]
  {
    var slot := offset + CountIndexFor(argsTested);
    entries[slot] := Smi(IncrementSmiCount(entries[slot].value));
  }
}
