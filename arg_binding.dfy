/**
 * How EntryOptional binds named arguments to named parameters. The parameters'
 * names (from the LoadConstant pairs after the instruction) and the passed
 * names (from the arguments descriptor) are walked together from the last to
 * the first: a parameter whose name equals the current argument's takes that
 * argument and consumes it; any other parameter takes its default. Passed
 * arguments left over when the parameters run out make the call a mismatch.
 */
module ArgBinding {
  import opened Objects

  /** What a named parameter receives: the passed argument with that index among the named ones, or its default. */
  datatype Choice = Passed(argIndex: nat) | Default

  /**
   * The walk over parameter names ps and passed names args, from the back. The
   * result gives one choice per parameter and the number of passed arguments
   * that were never consumed.
   */
  function NamedWalk(ps: seq<Symbol>, args: seq<Symbol>): (r: (seq<Choice>, nat))
    ensures |r.0| == |ps| && r.1 <= |args|
    ensures forall j :: 0 <= j < |ps| && r.0[j].Passed? ==>
      r.0[j].argIndex < |args| && args[r.0[j].argIndex] == ps[j]
    decreases |ps|
  {
    if |ps| == 0 then ([], |args|)
    else if |args| > 0 && ps[|ps| - 1] == args[|args| - 1] then
      var r := NamedWalk(ps[..|ps| - 1], args[..|args| - 1]);
      (r.0 + [Passed(|args| - 1)], r.1)
    else
      var r := NamedWalk(ps[..|ps| - 1], args);
      (r.0 + [Default], r.1)
  }

  /** Every argument consumed by the walk is the argument of exactly one parameter. */
  lemma {:induction false} WalkConsumesEachArgOnce(ps: seq<Symbol>, args: seq<Symbol>)
    ensures forall j1, j2 ::
      (0 <= j1 < j2 < |ps| && NamedWalk(ps, args).0[j1].Passed? && NamedWalk(ps, args).0[j2].Passed?) ==>
        NamedWalk(ps, args).0[j1].argIndex < NamedWalk(ps, args).0[j2].argIndex
    ensures forall j :: 0 <= j < |ps| && NamedWalk(ps, args).0[j].Passed? ==>
      NamedWalk(ps, args).0[j].argIndex >= NamedWalk(ps, args).1
    decreases |ps|
  {
    if |ps| > 0 {
      if |args| > 0 && ps[|ps| - 1] == args[|args| - 1] {
        WalkConsumesEachArgOnce(ps[..|ps| - 1], args[..|args| - 1]);
      } else {
        WalkConsumesEachArgOnce(ps[..|ps| - 1], args);
      }
    }
  }

  /** Names in strictly increasing order: how both lists are laid out by the compiler. */
  predicate Sorted(s: seq<Symbol>) {
    forall a, b :: 0 <= a < b < |s| ==> s[a] < s[b]
  }

  /** Every passed name is one of the parameter names. */
  predicate AllPassedNamesKnown(args: seq<Symbol>, ps: seq<Symbol>) {
    forall k :: 0 <= k < |args| ==> args[k] in ps
  }

  /** With both lists sorted, the walk consumes every argument exactly when every passed name is a parameter name. */
  lemma {:induction false} WalkAcceptsKnownNames(ps: seq<Symbol>, args: seq<Symbol>)
    requires Sorted(ps) && Sorted(args)
    ensures NamedWalk(ps, args).1 == 0 <==> AllPassedNamesKnown(args, ps)
    decreases |ps|
  {
    if |ps| == 0 {
      if |args| > 0 {
        assert args[0] !in ps;
      }
    } else {
      var n, m := |ps|, |args|;
      var ps', last := ps[..n - 1], ps[n - 1];
      assert ps == ps' + [last];
      if m > 0 && last == args[m - 1] {
        var args' := args[..m - 1];
        WalkAcceptsKnownNames(ps', args');
        MatchedLastKeepsKnown(ps, args);
      } else {
        WalkAcceptsKnownNames(ps', args);
        UnmatchedLastKeepsKnown(ps, args);
      }
    }
  }

  lemma MatchedLastKeepsKnown(ps: seq<Symbol>, args: seq<Symbol>)
    requires Sorted(ps) && Sorted(args) && |ps| > 0 && |args| > 0
    requires ps[|ps| - 1] == args[|args| - 1]
    ensures AllPassedNamesKnown(args, ps) <==> AllPassedNamesKnown(args[..|args| - 1], ps[..|ps| - 1])
  {
    var n, m := |ps|, |args|;
    var ps', args' := ps[..n - 1], args[..m - 1];
    assert ps == ps' + [ps[n - 1]];
    forall k | 0 <= k < m - 1
      ensures args'[k] in ps <==> args'[k] in ps'
    {
      assert args'[k] < args[m - 1];
    }
    assert args == args' + [args[m - 1]];
  }

  lemma UnmatchedLastKeepsKnown(ps: seq<Symbol>, args: seq<Symbol>)
    requires Sorted(ps) && Sorted(args) && |ps| > 0
    requires |args| == 0 || ps[|ps| - 1] != args[|args| - 1]
    ensures AllPassedNamesKnown(args, ps) <==> AllPassedNamesKnown(args, ps[..|ps| - 1])
  {
    var n, m := |ps|, |args|;
    var ps', last := ps[..n - 1], ps[n - 1];
    assert ps == ps' + [last];
    if m > 0 && args[m - 1] > last {
      assert args[m - 1] !in ps;
    } else {
      forall k | 0 <= k < m
        ensures args[k] != last
      {
        assert args[k] <= args[m - 1];
      }
    }
  }

  /** When the walk accepts sorted lists, a parameter takes its default exactly when its name was not passed. */
  lemma {:induction false} WalkDefaultsUnpassed(ps: seq<Symbol>, args: seq<Symbol>)
    requires Sorted(ps) && Sorted(args) && NamedWalk(ps, args).1 == 0
    ensures forall j :: 0 <= j < |ps| ==> (NamedWalk(ps, args).0[j].Default? <==> ps[j] !in args)
    decreases |ps|
  {
    if |ps| > 0 {
      var n, m := |ps|, |args|;
      if m > 0 && ps[n - 1] == args[m - 1] {
        WalkDefaultsUnpassed(ps[..n - 1], args[..m - 1]);
        MatchedLastDefaults(ps, args);
      } else {
        WalkAcceptsKnownNames(ps[..n - 1], args);
        WalkDefaultsUnpassed(ps[..n - 1], args);
        UnmatchedLastDefaults(ps, args);
      }
    }
  }

  /** The defaults of a walk whose last parameter takes the last argument are those of the walk without both. */
  lemma MatchedLastDefaults(ps: seq<Symbol>, args: seq<Symbol>)
    requires Sorted(ps) && Sorted(args) && |ps| > 0 && |args| > 0 && ps[|ps| - 1] == args[|args| - 1]
    requires var ps', args' := ps[..|ps| - 1], args[..|args| - 1];
      forall j :: 0 <= j < |ps'| ==> (NamedWalk(ps', args').0[j].Default? <==> ps'[j] !in args')
    ensures forall j :: 0 <= j < |ps| ==> (NamedWalk(ps, args).0[j].Default? <==> ps[j] !in args)
  {
    var n, m := |ps|, |args|;
    var ps', args', last := ps[..n - 1], args[..m - 1], ps[n - 1];
    var r := NamedWalk(ps, args);
    assert args == args' + [last];
    forall j | 0 <= j < n - 1
      ensures r.0[j].Default? <==> ps[j] !in args
    {
      assert ps[j] == ps'[j] && ps[j] < last;
    }
  }

  /**
   * The defaults of a walk whose last parameter takes its default are those of
   * the walk without it, plus that default, whose name no accepted argument
   * carries.
   */
  lemma UnmatchedLastDefaults(ps: seq<Symbol>, args: seq<Symbol>)
    requires Sorted(ps) && Sorted(args) && |ps| > 0 && (|args| == 0 || ps[|ps| - 1] != args[|args| - 1])
    requires AllPassedNamesKnown(args, ps[..|ps| - 1])
    requires var ps' := ps[..|ps| - 1];
      forall j :: 0 <= j < |ps'| ==> (NamedWalk(ps', args).0[j].Default? <==> ps'[j] !in args)
    ensures forall j :: 0 <= j < |ps| ==> (NamedWalk(ps, args).0[j].Default? <==> ps[j] !in args)
  {
    var n, m := |ps|, |args|;
    var ps', last := ps[..n - 1], ps[n - 1];
    var r := NamedWalk(ps, args);
    assert last !in args by {
      forall k | 0 <= k < m
        ensures args[k] != last
      {
        assert args[k] in ps';
        var t :| 0 <= t < n - 1 && ps'[t] == args[k];
        assert ps[t] < ps[n - 1];
      }
    }
    forall j | 0 <= j < n - 1
      ensures r.0[j].Default? <==> ps[j] !in args
    {
      assert ps[j] == ps'[j];
    }
  }
}
