/**
 * The loop hierarchy of a flow graph. Each natural loop is known by its id,
 * the index of its header in the hierarchy's header array, and holds the set
 * of blocks in it (by block preorder number). The hierarchy threads the loops
 * into a tree with outer, inner, next and prev links, stored here as loop
 * ids in arrays, Nil standing for a null link.
 */
module Loops {
  /** A null link. */
  const Nil: int := -1

  /**
   * Loop l lies on the outer chain from loop x in the outer links o: it is x,
   * or it lies on the chain from x's outer loop (which always has a higher id).
   */
  ghost predicate OnChain(o: seq<int>, x: int, l: int)
    decreases |o| - x
  {
    0 <= x < |o| && (x == l || (x < o[x] && OnChain(o, o[x], l)))
  }

  /** The chain from x climbs: every loop on it has an id at least x's. */
  lemma {:induction false} ChainAbove(o: seq<int>, x: int, l: int)
    requires OnChain(o, x, l)
    ensures x <= l < |o|
    decreases |o| - x
  {
    if x != l {
      ChainAbove(o, o[x], l);
    }
  }

  /** Following the chain from a to b and then from b to l follows the chain from a to l. */
  lemma {:induction false} ChainTrans(o: seq<int>, a: int, b: int, l: int)
    requires OnChain(o, a, b) && OnChain(o, b, l)
    ensures OnChain(o, a, l)
    decreases |o| - a
  {
    if a != b {
      ChainTrans(o, o[a], b, l);
    }
  }

  /** No loop on the outer chain from x has a next link yet. */
  ghost predicate ChainOpen(o: seq<int>, nx: seq<int>, x: int) {
    forall l :: OnChain(o, x, l) && 0 <= l < |nx| ==> nx[l] == Nil
  }

  /** The first loop added, with no outer loop and no next link, has an open chain. */
  lemma ChainOpenFirst(o: seq<int>, nx: seq<int>, loop: int)
    requires 0 <= loop < |o| == |nx| && o[loop] == Nil && nx[loop] == Nil
    ensures ChainOpen(o, nx, loop)
  {
    forall l | OnChain(o, loop, l) && 0 <= l < |nx|
      ensures nx[l] == Nil
    {
    }
  }

  /** A loop without a next link made the inner loop of last has an open chain when last's was. */
  lemma ChainOpenInner(o: seq<int>, nx: seq<int>, last: int, loop: int)
    requires 0 <= loop < last && |o| == |nx| && loop < |nx| && nx[loop] == Nil && ChainOpen(o, nx, last)
    ensures ChainOpen(o[loop := last], nx, loop)
  {
    forall l | OnChain(o[loop := last], loop, l) && 0 <= l < |nx|
      ensures nx[l] == Nil
    {
      if l != loop {
        ChainUpdate(o, loop, last, last, l);
      }
    }
  }

  /**
   * A loop without a next link made the next sibling of c, a loop on last's
   * open chain, takes c's outer loop and has an open chain: c, whose next link
   * is now set, is no longer on it.
   */
  lemma ChainOpenSibling(o: seq<int>, nx: seq<int>, last: int, c: int, loop: int)
    requires 0 <= loop < c < |o| == |nx| && nx[loop] == Nil && ChainOpen(o, nx, last)
    requires OnChain(o, last, c) && (o[c] == Nil || c < o[c])
    ensures ChainOpen(o[loop := o[c]], nx[c := loop], loop)
  {
    ChainAbove(o, last, c);
    var o', nx' := o[loop := o[c]], nx[c := loop];
    forall m | OnChain(o', loop, m) && 0 <= m < |nx'|
      ensures nx'[m] == Nil
    {
      if m != loop {
        ChainUpdate(o, loop, o[c], o[c], m);
        ChainAbove(o, o[c], m);
        ChainTrans(o, c, o[c], m);
        ChainTrans(o, last, c, m);
      }
    }
  }

  /** Changing the outer link of a loop below x leaves the chain from x as it was. */
  lemma {:induction false} ChainUpdate(o: seq<int>, loop: int, v: int, x: int, l: int)
    requires 0 <= loop < x && loop < |o|
    ensures OnChain(o[loop := v], x, l) == OnChain(o, x, l)
    decreases |o| - x
  {
    if 0 <= x < |o| && x != l && x < o[x] {
      ChainUpdate(o, loop, v, o[x], l);
    }
  }

  class LoopHierarchy {
    /** The preorder number of each loop's header block. */
    const headerPre: seq<int>
    /** blocks_ of each loop. */
    const blocks: array<set<int>>
    /** The outer_, inner_, next_ and prev_ links of each loop. */
    const outer: array<int>
    const inner: array<int>
    const next: array<int>
    const prev: array<int>
    /** first_ and last_: the first loop added and the loop added last. */
    var first: int
    var last: int

    /** The arrays hold one entry per loop and are distinct. */
    predicate Shape() {
      var n := |headerPre|;
      blocks.Length == n && outer.Length == n && inner.Length == n && next.Length == n && prev.Length == n &&
      outer != inner && outer != next && outer != prev && inner != next && inner != prev && next != prev
    }

    /** Every loop from lowest on has an outer loop of a higher id, or none. */
    ghost predicate OuterAbove(lowest: int)
      requires Shape()
      reads outer
    {
      forall l :: 0 <= l < outer.Length && lowest <= l ==> outer[l] == Nil || l < outer[l] < outer.Length
    }

    /**
     * The hierarchy once the loops lowest to n - 1 were added (in decreasing id
     * order, as Build adds them): first is the first added and last the last
     * added; every outer loop contains the loop's header and has a higher id;
     * an inner loop's outer is its parent; a prev sibling has the same outer
     * loop; a next sibling's prev is the loop; links only name added loops, and
     * the loops not yet added have no links.
     */
    ghost predicate Linked(lowest: int)
      reads this, blocks, outer, inner, next, prev
    {
      var n := |headerPre|;
      Shape() && 0 <= lowest <= n &&
      (lowest == n ==> first == Nil && last == Nil) &&
      (lowest < n ==> first == n - 1 && last == lowest) &&
      OuterAbove(lowest) &&
      (forall l :: lowest <= l < n && outer[l] != Nil ==> IsIn(l, outer[l])) &&
      (forall l :: lowest <= l < n && inner[l] != Nil ==> lowest <= inner[l] < n && outer[inner[l]] == l) &&
      (forall l :: lowest <= l < n && prev[l] != Nil ==> l < prev[l] < n && outer[prev[l]] == outer[l]) &&
      (forall l :: lowest <= l < n && next[l] != Nil ==> lowest <= next[l] < l && prev[next[l]] == l) &&
      (forall l :: 0 <= l < lowest ==> outer[l] == Nil && inner[l] == Nil && next[l] == Nil && prev[l] == Nil) &&
      (lowest < n ==> ChainOpen(outer[..], next[..], last))
    }

    /**
     * In a linked hierarchy the loop added last has no inner loop yet, and no
     * loop on its outer chain has a next sibling yet: the links AddLoop sets
     * are still null.
     */
    lemma LastIsOpen(lowest: int, l: int)
      requires Linked(lowest) && lowest < |headerPre|
      ensures inner[last] == Nil
      ensures OnChain(outer[..], last, l) ==> 0 <= l < |headerPre| && next[l] == Nil
    {
      if OnChain(outer[..], last, l) {
        ChainAbove(outer[..], last, l);
      }
    }

    /**
     * The hierarchy over the given headers and block sets, built as
     * LoopHierarchy's constructor does: every loop is added and linked, the
     * highest id first and loop 0 last.
     */
    constructor(headerPre: seq<int>, loopBlocks: seq<set<int>>)
      requires |loopBlocks| == |headerPre|
      ensures this.headerPre == headerPre && blocks[..] == loopBlocks && Linked(0)
      ensures |headerPre| > 0 ==> first == |headerPre| - 1 && last == 0
      ensures fresh(blocks) && fresh(outer) && fresh(inner) && fresh(next) && fresh(prev)
    {
      var n := |headerPre|;
      this.headerPre := headerPre;
      blocks := new set<int>[n](i requires 0 <= i < n => loopBlocks[i]);
      outer := new int[n](_ => Nil);
      inner := new int[n](_ => Nil);
      next := new int[n](_ => Nil);
      prev := new int[n](_ => Nil);
      first, last := Nil, Nil;
      new;
      Build();
    }

    /** LoopInfo::IsIn: loop l is nested in other when other's blocks contain l's header. */
    predicate IsIn(l: int, other: int)
      requires Shape() && 0 <= l < |headerPre| && 0 <= other < |headerPre|
      reads blocks
    {
      headerPre[l] in blocks[other]
    }

    /**
     * LoopInfo::AddBlocks: merges bs into l's blocks. A loop is in l afterwards
     * exactly when it was before or bs holds its header.
     */
    method AddBlocks(l: int, bs: set<int>)
      requires Shape() && 0 <= l < |headerPre|
      modifies blocks
      ensures blocks[..] == old(blocks[..])[l := old(blocks[l]) + bs]
      ensures forall m :: 0 <= m < |headerPre| ==> (IsIn(m, l) <==> old(IsIn(m, l)) || headerPre[m] in bs)
    {
      blocks[l] := blocks[l] + bs;
    }

    /** The nesting depth of loop l: one more than its outer loop's, one for an outermost loop. */
    ghost function Depth(l: int, lowest: int): (d: nat)
      requires Shape() && OuterAbove(lowest) && 0 <= lowest <= l < |headerPre|
      reads outer
      decreases |headerPre| - l
    {
      if outer[l] == Nil then 1 else 1 + Depth(outer[l], lowest)
    }

    /** LoopInfo::NestingDepth: counts the loops on the outer chain, l included. */
    method NestingDepth(l: int, ghost lowest: int) returns (depth: int)
      requires Shape() && OuterAbove(lowest) && 0 <= lowest <= l < |headerPre|
      ensures depth == Depth(l, lowest) && depth >= 1
    {
      depth := 1;
      var o := outer[l];
      while o != Nil
        invariant o == Nil || l < o < |headerPre|
        invariant depth + (if o == Nil then 0 else Depth(o, lowest)) == Depth(l, lowest)
        decreases if o == Nil then 0 else |headerPre| - o
      {
        depth := depth + 1;
        o := outer[o];
      }
    }

    /** Depth is bounded by the number of ids at and above the loop, since outer ids increase. */
    lemma {:induction false} DepthBound(l: int, lowest: int)
      requires Shape() && OuterAbove(lowest) && 0 <= lowest <= l < |headerPre|
      ensures Depth(l, lowest) <= |headerPre| - l
      decreases |headerPre| - l
    {
      if outer[l] != Nil {
        DepthBound(outer[l], lowest);
      }
    }

    /** In a linked hierarchy an inner loop is one level deeper than its parent, and siblings are equally deep. */
    lemma DepthOfRelatives(l: int, lowest: int)
      requires Linked(lowest) && lowest <= l < |headerPre|
      ensures inner[l] != Nil ==> Depth(inner[l], lowest) == Depth(l, lowest) + 1
      ensures prev[l] != Nil ==> Depth(prev[l], lowest) == Depth(l, lowest)
    {
      if prev[l] != Nil {
        assert outer[prev[l]] == outer[l];
      }
    }

    /** The loop the climb of AddLoop stops at: up from l until the outer loop is null or contains loop. */
    ghost function Climb(loop: int, l: int, lowest: int): (c: int)
      requires Shape() && OuterAbove(lowest) && 0 <= lowest <= l < |headerPre| && 0 <= loop < |headerPre|
      reads outer, blocks
      ensures lowest <= l <= c < |headerPre|
      ensures outer[c] == Nil || IsIn(loop, outer[c])
      decreases |headerPre| - l
    {
      if outer[l] == Nil || IsIn(loop, outer[l]) then l else Climb(loop, outer[l], lowest)
    }

    /** The climb stops at a loop on the outer chain it started from. */
    lemma {:induction false} ClimbOnChain(loop: int, l: int, lowest: int)
      requires Shape() && OuterAbove(lowest) && 0 <= lowest <= l < |headerPre| && 0 <= loop < |headerPre|
      ensures OnChain(outer[..], l, Climb(loop, l, lowest))
      decreases |headerPre| - l
    {
      if outer[l] != Nil && !IsIn(loop, outer[l]) {
        ClimbOnChain(loop, outer[l], lowest);
      }
    }

    /**
     * LoopHierarchy::AddLoop for the loop whose id is one below every loop
     * added so far. The first loop becomes first and last. A loop in last
     * becomes last's inner loop. Otherwise last climbs its outer chain until its
     * outer loop is null or contains the loop; the loop takes that outer loop
     * and becomes the next sibling of the loop the climb stopped at. Either
     * way the loop becomes last, and the hierarchy stays linked.
     */
    method AddLoop(loop: int)
      requires Linked(loop + 1) && 0 <= loop
      modifies this, outer, inner, next, prev
      ensures Linked(loop) && last == loop
      ensures old(first) == Nil ==>
        outer[..] == old(outer[..]) && inner[..] == old(inner[..]) && next[..] == old(next[..]) &&
        prev[..] == old(prev[..])
      ensures old(first) != Nil && old(IsIn(loop, last)) ==>
        outer[..] == old(outer[..])[loop := old(last)] && inner[..] == old(inner[..])[old(last) := loop] &&
        next[..] == old(next[..]) && prev[..] == old(prev[..])
      ensures old(first) != Nil && !old(IsIn(loop, last)) ==>
        var c := old(Climb(loop, last, loop + 1));
        outer[..] == old(outer[..])[loop := old(outer[c])] && prev[..] == old(prev[..])[loop := c] &&
        next[..] == old(next[..])[c := loop] && inner[..] == old(inner[..])
    {
      if first == Nil {
        first, last := loop, loop;
        ChainOpenFirst(outer[..], next[..], loop);
      } else if IsIn(loop, last) {
        AddInnerLoop(loop);
      } else {
        AddNextLoop(loop);
      }
    }

    /**
     * The second case of AddLoop: a loop that last contains becomes last's inner
     * loop, last having none yet.
     */
    method AddInnerLoop(loop: int)
      requires Linked(loop + 1) && 0 <= loop && first != Nil && IsIn(loop, last)
      modifies this, outer, inner
      ensures Linked(loop) && last == loop && first == old(first)
      ensures outer[..] == old(outer[..])[loop := old(last)] && inner[..] == old(inner[..])[old(last) := loop]
    {
      LastIsOpen(loop + 1, last);
      assert inner[last] == Nil;
      ChainOpenInner(outer[..], next[..], last, loop);
      outer[loop] := last;
      inner[last] := loop;
      last := loop;
    }

    /**
     * The third case of AddLoop: last climbs its outer chain until its outer
     * loop is null or contains the loop; the loop takes that outer loop and
     * becomes the next sibling of the loop the climb stopped at, which has none
     * yet.
     */
    method AddNextLoop(loop: int)
      requires Linked(loop + 1) && 0 <= loop && first != Nil && !IsIn(loop, last)
      modifies this, outer, next, prev
      ensures Linked(loop) && last == loop && first == old(first)
      ensures var c := old(Climb(loop, last, loop + 1));
        outer[..] == old(outer[..])[loop := old(outer[c])] && prev[..] == old(prev[..])[loop := c] &&
        next[..] == old(next[..])[c := loop]
    {
      ghost var c := Climb(loop, last, loop + 1);
      ClimbOnChain(loop, last, loop + 1);
      var l := last;
      while outer[l] != Nil && !IsIn(loop, outer[l])
        invariant loop < l < |headerPre| && Climb(loop, l, loop + 1) == c
        decreases |headerPre| - l
      {
        l := outer[l];
      }
      LastIsOpen(loop + 1, l);
      assert next[l] == Nil;
      ChainOpenSibling(outer[..], next[..], last, l, loop);
      LinkSibling(loop, l);
    }

    /**
     * The writes of AddNextLoop: the loop takes c's outer loop and becomes c's
     * next sibling and last; the hierarchy stays linked.
     */
    method LinkSibling(loop: int, c: int)
      requires Linked(loop + 1) && 0 <= loop < c < |headerPre| && first != Nil
      requires next[c] == Nil && (outer[c] == Nil || IsIn(loop, outer[c]))
      requires ChainOpen(outer[..][loop := outer[c]], next[..][c := loop], loop)
      modifies this, outer, next, prev
      ensures Linked(loop) && last == loop && first == old(first)
      ensures outer[..] == old(outer[..])[loop := old(outer[c])] && prev[..] == old(prev[..])[loop := c]
      ensures next[..] == old(next[..])[c := loop]
    {
      ghost var o, nx := outer[..], next[..];
      outer[loop] := outer[c];
      prev[loop] := c;
      next[c] := loop;
      last := loop;
      assert outer[..] == o[loop := o[c]] && next[..] == nx[c := loop];
    }

    /**
     * LoopHierarchy::Build: adds the loops from the highest id down to 0, so
     * the loop with the highest id comes first and loop 0 last, and the whole
     * hierarchy is linked.
     */
    method Build()
      requires Linked(|headerPre|)
      modifies this, outer, inner, next, prev
      ensures Linked(0)
      ensures |headerPre| > 0 ==> first == |headerPre| - 1 && last == 0
    {
      var n := |headerPre|;
      var i := 0;
      while i < n
        invariant 0 <= i <= n && Linked(n - i)
      {
        AddLoop(n - 1 - i);
        i := i + 1;
      }
    }
  }
}
