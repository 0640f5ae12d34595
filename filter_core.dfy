/**
 * Composite filters, shared by the TypeScript package, the earlier
 * `src/filter.ts` and the Python port: the operand contributions inside an
 * `and`/`or` group, and the `not( … )` wrapper.
 *
 * An operand of `and`, `or` or `not` is read through its fragments only; it is
 * passed here as `Option<seq<string>>`, where `None` stands for an absent
 * (`undefined`, `null` or `None`) filter.
 */
module FilterCore {
  import opened Options
  import opened Fragments

  /** The rendering of an operand; an absent operand renders as nothing. */
  function Rendering(operand: Option<seq<string>>): string
  {
    if operand.Some? then Join(operand.value) else ""
  }

  /** An operand that is present and holds at least one fragment. */
  predicate Filled(operand: Option<seq<string>>)
  {
    operand.Some? && |operand.value| != 0
  }

  /**
   * addOpenrand: an absent or empty operand contributes nothing; any other
   * operand contributes its rendering, followed by the separator unless it is
   * flagged as the last one.
   */
  function AddOperand(operand: Option<seq<string>>, separator: string, isLast: bool): string
  {
    if Filled(operand) then
      Join(operand.value) + (if isLast then "" else separator)
    else ""
  }

  /** The last operand contributes exactly its rendering, whatever the separator. */
  lemma AddOperandLast(operand: Option<seq<string>>, separator: string)
    ensures AddOperand(operand, separator, true) == Rendering(operand)
  {
  }

  /** The text of `not(F)`: the operand's rendering between `not( ` and ` )`. */
  function NotFragment(operand: Option<seq<string>>): (r: string)
    ensures r == "not( " + Rendering(operand) + " )"
  {
    AddOperandLast(operand, "");
    "not( " + AddOperand(operand, "", true) + " )"
  }

  /** `not` of an absent or empty filter is the blank `not(  )`. */
  lemma NotOfEmpty(operand: Option<seq<string>>)
    requires !Filled(operand)
    ensures NotFragment(operand) == "not(  )"
  {
  }

  /**
   * The body of an `and`/`or` group after its first `k` operands: their
   * contributions in order, operand `i` being treated as last when `last[i]`
   * holds.
   */
  function GroupBodyUpTo(operands: seq<Option<seq<string>>>, last: seq<bool>, separator: string, k: nat): string
    requires |last| == |operands| && k <= |operands|
  {
    if k == 0 then ""
    else GroupBodyUpTo(operands, last, separator, k - 1) + AddOperand(operands[k - 1], separator, last[k - 1])
  }

  /** The body of an `and`/`or` group: the contributions of all its operands. */
  function GroupBody(operands: seq<Option<seq<string>>>, last: seq<bool>, separator: string): string
    requires |last| == |operands|
  {
    GroupBodyUpTo(operands, last, separator, |operands|)
  }

  /** The TypeScript rule: operand `i` is last when it sits at the last position. */
  function PositionalLast(n: nat): (last: seq<bool>)
    ensures |last| == n
    ensures forall i :: 0 <= i < n ==> (last[i] <==> i == n - 1)
  {
    seq(n, i requires 0 <= i < n => i == n - 1)
  }

  /** The opening of a group: the separator first when the receiver already holds fragments. */
  function GroupOpen(receiver: seq<string>, separator: string): (r: string)
    ensures |receiver| == 0 ==> r == "("
    ensures |receiver| != 0 ==> r == separator + "("
  {
    (if |receiver| != 0 then separator else "") + "("
  }

  /** The body after `k` operands depends on those operands and their flags only. */
  lemma {:induction false} GroupBodyUpToAgree(o1: seq<Option<seq<string>>>, l1: seq<bool>,
                                              o2: seq<Option<seq<string>>>, l2: seq<bool>, separator: string, k: nat)
    requires |l1| == |o1| && |l2| == |o2| && k <= |o1| && k <= |o2|
    requires forall i :: 0 <= i < k ==> o1[i] == o2[i] && l1[i] == l2[i]
    ensures GroupBodyUpTo(o1, l1, separator, k) == GroupBodyUpTo(o2, l2, separator, k)
  {
    if k > 0 {
      GroupBodyUpToAgree(o1, l1, o2, l2, separator, k - 1);
    }
  }

  /** The body of a prefix of the operands is the body after that many operands. */
  lemma PrefixBody(operands: seq<Option<seq<string>>>, last: seq<bool>, separator: string, k: nat)
    requires |last| == |operands| && k <= |operands|
    ensures GroupBody(operands[..k], last[..k], separator) == GroupBodyUpTo(operands, last, separator, k)
  {
    GroupBodyUpToAgree(operands[..k], last[..k], operands, last, separator, k);
  }

  /** The body of `a + b` after `|a| + j` operands is the body of `a` followed by the body of `b` after `j`. */
  lemma {:induction false} GroupBodyUpToConcat(a: seq<Option<seq<string>>>, la: seq<bool>,
                                               b: seq<Option<seq<string>>>, lb: seq<bool>, separator: string, j: nat)
    requires |la| == |a| && |lb| == |b| && j <= |b|
    ensures GroupBodyUpTo(a + b, la + lb, separator, |a| + j)
         == GroupBody(a, la, separator) + GroupBodyUpTo(b, lb, separator, j)
  {
    if j == 0 {
      assert GroupBodyUpTo(b, lb, separator, 0) == "";
      GroupBodyUpToAgree(a + b, la + lb, a, la, separator, |a|);
    } else {
      GroupBodyUpToConcat(a, la, b, lb, separator, j - 1);
      GroupBodyUpToConcatStep(a, la, b, lb, separator, j);
    }
  }

  /** One step of the induction above: operand `|a| + j - 1` of `a + b` is operand `j - 1` of `b`. */
  lemma GroupBodyUpToConcatStep(a: seq<Option<seq<string>>>, la: seq<bool>,
                                b: seq<Option<seq<string>>>, lb: seq<bool>, separator: string, j: nat)
    requires |la| == |a| && |lb| == |b| && 0 < j <= |b|
    requires GroupBodyUpTo(a + b, la + lb, separator, |a| + j - 1)
          == GroupBody(a, la, separator) + GroupBodyUpTo(b, lb, separator, j - 1)
    ensures GroupBodyUpTo(a + b, la + lb, separator, |a| + j)
         == GroupBody(a, la, separator) + GroupBodyUpTo(b, lb, separator, j)
  {
    var x, y := GroupBody(a, la, separator), GroupBodyUpTo(b, lb, separator, j - 1);
    var z := AddOperand(b[j - 1], separator, lb[j - 1]);
    assert GroupBodyUpTo(b, lb, separator, j) == y + z;
    assert GroupBodyUpTo(a + b, la + lb, separator, |a| + j) == (x + y) + z by {
      assert (a + b)[|a| + j - 1] == b[j - 1] && (la + lb)[|a| + j - 1] == lb[j - 1];
    }
    ConcatAssoc(x, y, z);
  }

  /** Group bodies are built operand by operand: the body of a concatenation is the concatenation of bodies. */
  lemma GroupBodyConcat(a: seq<Option<seq<string>>>, la: seq<bool>,
                        b: seq<Option<seq<string>>>, lb: seq<bool>, separator: string)
    requires |la| == |a| && |lb| == |b|
    ensures GroupBody(a + b, la + lb, separator) == GroupBody(a, la, separator) + GroupBody(b, lb, separator)
  {
    GroupBodyUpToConcat(a, la, b, lb, separator, |b|);
  }

  /** An absent or empty operand can be dropped from a group without changing its text. */
  lemma EmptyOperandIsSkipped(operands: seq<Option<seq<string>>>, last: seq<bool>, separator: string, i: nat)
    requires |last| == |operands| && i < |operands|
    requires !Filled(operands[i])
    ensures GroupBody(operands, last, separator)
         == GroupBody(operands[..i] + operands[i + 1..], last[..i] + last[i + 1..], separator)
  {
    var after, lAfter := operands[i + 1..], last[i + 1..];
    assert GroupBody(operands, last, separator)
        == GroupBody(operands[..i + 1], last[..i + 1], separator) + GroupBody(after, lAfter, separator) by {
      assert operands == operands[..i + 1] + after;
      assert last == last[..i + 1] + lAfter;
      GroupBodyConcat(operands[..i + 1], last[..i + 1], after, lAfter, separator);
    }
    assert GroupBody(operands[..i + 1], last[..i + 1], separator) == GroupBody(operands[..i], last[..i], separator) by {
      PrefixBody(operands, last, separator, i + 1);
      PrefixBody(operands, last, separator, i);
    }
    GroupBodyConcat(operands[..i], last[..i], after, lAfter, separator);
  }

  /** A group of only absent or empty operands has an empty body, so it renders as `()`. */
  lemma {:induction false} AllEmptyOperandsGiveEmptyBody(operands: seq<Option<seq<string>>>, last: seq<bool>, separator: string, k: nat)
    requires |last| == |operands| && k <= |operands|
    requires forall i :: 0 <= i < |operands| ==> !Filled(operands[i])
    ensures GroupBodyUpTo(operands, last, separator, k) == ""
  {
    if k > 0 {
      AllEmptyOperandsGiveEmptyBody(operands, last, separator, k - 1);
    }
  }

  /** The renderings of the operands, in order. */
  function Renderings(operands: seq<Option<seq<string>>>): (r: seq<string>)
    ensures |r| == |operands|
    ensures forall i :: 0 <= i < |operands| ==> r[i] == Rendering(operands[i])
  {
    seq(|operands|, i requires 0 <= i < |operands| => Rendering(operands[i]))
  }

  /**
   * With the positional rule, a group whose operands are all present and
   * non-empty is exactly their renderings joined by the separator: the
   * separator sits between neighbours and never after the last operand.
   */
  lemma FilledGroupIsJoin(operands: seq<Option<seq<string>>>, separator: string)
    requires forall i :: 0 <= i < |operands| ==> Filled(operands[i])
    ensures GroupBody(operands, PositionalLast(|operands|), separator) == JoinWith(Renderings(operands), separator)
  {
    var n := |operands|;
    if n > 0 {
      var last := PositionalLast(n);
      var rs := Renderings(operands);
      if n == 1 {
        assert GroupBody(operands, last, separator) == rs[0] by {
          assert GroupBodyUpTo(operands, last, separator, 0) == "";
          assert last[0] && Filled(operands[0]);
          assert AddOperand(operands[0], separator, last[0]) == rs[0];
        }
        assert rs == [rs[0]];
      } else {
        calc {
          GroupBody(operands, last, separator);
        ==
          GroupBodyUpTo(operands, last, separator, n - 1) + AddOperand(operands[n - 1], separator, last[n - 1]);
        == { assert last[n - 1] && Filled(operands[n - 1]);
             FilledPrefixEndsInSeparator(operands, last, rs, separator, n - 1); }
          JoinWith(rs[..n - 1], separator) + separator + rs[n - 1];
        == { assert rs == rs[..n - 1] + [rs[n - 1]];
             JoinWithSnoc(rs[..n - 1], rs[n - 1], separator); }
          JoinWith(rs, separator);
        }
      }
    }
  }

  /**
   * While no operand so far is last, the body of filled operands is their
   * renderings joined by the separator, followed by one more separator.
   */
  lemma {:induction false} FilledPrefixEndsInSeparator(operands: seq<Option<seq<string>>>, last: seq<bool>,
                                                      rs: seq<string>, separator: string, k: nat)
    requires |last| == |operands| && |rs| == |operands| && 0 < k <= |operands|
    requires forall i :: 0 <= i < k ==> Filled(operands[i]) && rs[i] == Join(operands[i].value)
    requires forall i :: 0 <= i < k ==> !last[i]
    ensures GroupBodyUpTo(operands, last, separator, k) == JoinWith(rs[..k], separator) + separator
  {
    if k == 1 {
      assert AddOperand(operands[0], separator, last[0]) == rs[0] + separator;
      assert rs[..k] == [rs[0]];
    } else {
      var before := JoinWith(rs[..k - 1], separator) + separator;
      assert GroupBodyUpTo(operands, last, separator, k) == before + (rs[k - 1] + separator) by {
        FilledPrefixEndsInSeparator(operands, last, rs, separator, k - 1);
        assert AddOperand(operands[k - 1], separator, last[k - 1]) == rs[k - 1] + separator;
      }
      assert JoinWith(rs[..k], separator) == before + rs[k - 1] by {
        assert rs[..k] == rs[..k - 1] + [rs[k - 1]];
        JoinWithSnoc(rs[..k - 1], rs[k - 1], separator);
      }
      ConcatAssoc(before, rs[k - 1], separator);
    }
  }

  /**
   * With the positional rule, an empty operand in the last position leaves
   * the separator of the operand before it in place: `and(A, empty)` has the
   * body `A and `.
   */
  lemma EmptyLastOperandLeavesSeparator(operands: seq<Option<seq<string>>>, separator: string)
    requires |operands| >= 2
    requires Filled(operands[|operands| - 2]) && !Filled(operands[|operands| - 1])
    ensures var n := |operands|;
      GroupBody(operands, PositionalLast(n), separator)
      == GroupBodyUpTo(operands, PositionalLast(n), separator, n - 2) + Rendering(operands[n - 2]) + separator
  {
    var n := |operands|;
    var last := PositionalLast(n);
    assert GroupBody(operands, last, separator) == GroupBodyUpTo(operands, last, separator, n - 1) by {
      assert AddOperand(operands[n - 1], separator, last[n - 1]) == "";
    }
    assert AddOperand(operands[n - 2], separator, last[n - 2]) == Rendering(operands[n - 2]) + separator by {
      assert !last[n - 2];
    }
  }

  /** The worked example: `and(hasAttribute("a"), <empty>)` has the body `@a and `. */
  lemma AndWithEmptyLastOperand()
    ensures GroupBody([Some(["@a"]), None], PositionalLast(2), " and ") == "@a and "
  {
    EmptyLastOperandLeavesSeparator([Some(["@a"]), None], " and ");
  }

  /** A fragment list produced by the builder: no fragment is blank. */
  predicate Built(sb: seq<string>)
  {
    forall i :: 0 <= i < |sb| ==> |sb[i]| != 0
  }

  /** Every present operand was produced by the builder. */
  predicate BuiltOperands(operands: seq<Option<seq<string>>>)
  {
    forall i :: 0 <= i < |operands| ==> operands[i].Some? ==> Built(operands[i].value)
  }

  /** The body only grows as operands are added. */
  lemma {:induction false} GroupBodyGrows(operands: seq<Option<seq<string>>>, last: seq<bool>, separator: string, k: nat)
    requires |last| == |operands| && k <= |operands|
    ensures |GroupBodyUpTo(operands, last, separator, k)| <= |GroupBody(operands, last, separator)|
    decreases |operands| - k
  {
    if k < |operands| {
      GroupBodyGrows(operands, last, separator, k + 1);
    }
  }

  /** A present, non-empty operand made by the builder contributes some text to the body. */
  lemma FilledOperandShows(operands: seq<Option<seq<string>>>, last: seq<bool>, separator: string, i: nat)
    requires |last| == |operands| && i < |operands|
    requires Filled(operands[i]) && Built(operands[i].value)
    ensures GroupBody(operands, last, separator) != ""
  {
    GroupBodyGrows(operands, last, separator, i + 1);
    assert |operands[i].value[0]| != 0;
    JoinBlank(operands[i].value);
  }

  /**
   * For operands made by the builder, a group body is empty exactly when no
   * operand is present and non-empty: `and()` of nothing but empty filters is
   * the only way to obtain `()`.
   */
  lemma EmptyBodyIff(operands: seq<Option<seq<string>>>, last: seq<bool>, separator: string)
    requires |last| == |operands| && BuiltOperands(operands)
    ensures GroupBody(operands, last, separator) == "" <==> forall i :: 0 <= i < |operands| ==> !Filled(operands[i])
  {
    if forall i :: 0 <= i < |operands| ==> !Filled(operands[i]) {
      AllEmptyOperandsGiveEmptyBody(operands, last, separator, |operands|);
    } else {
      var i :| 0 <= i < |operands| && Filled(operands[i]);
      FilledOperandShows(operands, last, separator, i);
    }
  }

  /** The two fragments an `and`/`or` call appends to its receiver: the opened group with its body, then `)`. */
  function GroupFragments(receiver: seq<string>, operands: seq<Option<seq<string>>>, separator: string): (r: seq<string>)
    ensures |r| == 2 && r[1] == ")"
  {
    [GroupOpen(receiver, separator) + GroupBody(operands, PositionalLast(|operands|), separator), ")"]
  }

  /**
   * What `and`/`or` adds to the text of the receiver: the separator when the
   * receiver is not empty, then the renderings of the operands joined by the
   * separator between parentheses, provided every operand is present and
   * non-empty.
   */
  lemma GroupRendering(receiver: seq<string>, operands: seq<Option<seq<string>>>, separator: string)
    requires forall i :: 0 <= i < |operands| ==> Filled(operands[i])
    ensures Join(receiver + GroupFragments(receiver, operands, separator))
         == Join(receiver) + GroupOpen(receiver, separator) + JoinWith(Renderings(operands), separator) + ")"
  {
    var open := GroupOpen(receiver, separator);
    var body := GroupBody(operands, PositionalLast(|operands|), separator);
    var g := GroupFragments(receiver, operands, separator);
    assert g == [open + body, ")"];
    assert Join(g) == open + body + ")" by {
      assert g[..1] == [g[0]];
    }
    assert Join(receiver + g) == Join(receiver) + Join(g) by {
      JoinConcat(receiver, g);
    }
    assert body == JoinWith(Renderings(operands), separator) by {
      FilledGroupIsJoin(operands, separator);
    }
  }

  /** Every builder operation keeps the fragments non-blank: `and`/`or` append two. */
  lemma GroupKeepsBuilt(receiver: seq<string>, operands: seq<Option<seq<string>>>, separator: string)
    requires Built(receiver)
    ensures Built(receiver + GroupFragments(receiver, operands, separator))
  {
    var g := GroupFragments(receiver, operands, separator);
    assert |g[0]| != 0 by {
      assert g[0] == GroupOpen(receiver, separator) + GroupBody(operands, PositionalLast(|operands|), separator);
    }
  }
}
