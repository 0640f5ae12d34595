/**
 * The filter builder of the Python port (`FilledFilter` and its subclass
 * `Filter` in `filter.py`).
 *
 * The primitive predicates append the same fragments as the TypeScript
 * builder. `and_condition`/`or_condition` differ in two ways: they append the
 * whole group, closing parenthesis included, as ONE fragment, and they treat
 * an operand as the last one when it is the same object as the last operand
 * (`filter == filters[-1]`, which for these classes is object identity),
 * rather than when it sits at the last position.
 */
module PyFilterBuilder {
  import opened Options
  import opened Fragments
  import opened Primitives
  import opened FilterCore

  /** The content of an operand: `None` for a missing filter. */
  function Content(f: Filter?): Option<seq<string>>
    reads f
  {
    if f == null then None else Some(f.sb)
  }

  /** The contents of a list of operands, in order. */
  function Contents(fs: seq<Filter?>): (r: seq<Option<seq<string>>>)
    reads fs
    ensures |r| == |fs|
    ensures forall i :: 0 <= i < |fs| ==> r[i] == Content(fs[i])
  {
    seq(|fs|, i requires 0 <= i < |fs| reads fs => Content(fs[i]))
  }

  /** The Python rule: operand `i` is treated as last when it is the very object passed last. */
  function IdentityLast(fs: seq<Filter?>): (last: seq<bool>)
    ensures |last| == |fs|
    ensures forall i :: 0 <= i < |fs| ==> (last[i] <==> fs[i] == fs[|fs| - 1])
  {
    seq(|fs|, i requires 0 <= i < |fs| => fs[i] == fs[|fs| - 1])
  }

  /** The single fragment an `and_condition`/`or_condition` call appends. */
  function GroupFragment(receiver: seq<string>, fs: seq<Filter?>, separator: string): string
    reads fs
  {
    GroupOpen(receiver, separator) + GroupBody(Contents(fs), IdentityLast(fs), separator) + ")"
  }

  class Filter {
    /** The fragments of the expression, in order. */
    var sb: seq<string>

    /** A filter seeded with the given fragments, or with none. */
    constructor (currentPath: Option<seq<string>>)
      ensures sb == if currentPath.Some? then currentPath.value else []
    {
      if currentPath.Some? {
        sb := currentPath.value;
      } else {
        sb := [];
      }
    }

    /** The expression: the fragments concatenated in order. */
    function ToString(): string
      reads this
    {
      Join(sb)
    }

    /** Whether the filter holds no fragment; a built filter is empty exactly when its text is. */
    function IsEmpty(): (b: bool)
      reads this
      ensures b ==> ToString() == ""
      ensures Built(sb) ==> (b <==> ToString() == "")
    {
      JoinBlank(sb);
      |sb| == 0
    }

    /** Forgets every fragment. */
    method Empty()
      modifies this
      ensures sb == []
    {
      sb := [];
    }

    /** A new filter with the fragment of the primitive appended. */
    method Add(p: Primitive) returns (r: Filter)
      ensures fresh(r)
      ensures r.sb == sb + [Fragment(p)]
    {
      r := new Filter(Some(sb + [Fragment(p)]));
    }

    /** A new filter with `not( F )` appended, `F` being the operand's text (blank when it is missing or empty). */
    method NotExpression(filter: Filter?) returns (r: Filter)
      ensures fresh(r)
      ensures r.sb == sb + [NotFragment(Content(filter))]
    {
      var operand := AddOperandOf(filter, "", true);
      r := new Filter(Some(sb + ["not( " + operand + " )"]));
    }

    /** A new filter with the operands combined by `and` appended as one fragment. */
    method AndCondition(filters: seq<Filter?>) returns (r: Filter)
      ensures fresh(r)
      ensures r.sb == sb + [GroupFragment(sb, filters, " and ")]
    {
      r := Condition(filters, " and ");
    }

    /** A new filter with the operands combined by `or` appended as one fragment. */
    method OrCondition(filters: seq<Filter?>) returns (r: Filter)
      ensures fresh(r)
      ensures r.sb == sb + [GroupFragment(sb, filters, " or ")]
    {
      r := Condition(filters, " or ");
    }

    /** The body shared by both: the operand contributions folded left to right. */
    method Condition(filters: seq<Filter?>, separator: string) returns (r: Filter)
      ensures fresh(r)
      ensures r.sb == sb + [GroupFragment(sb, filters, separator)]
    {
      var expression := "";
      if |sb| != 0 {
        expression := expression + separator;
      }
      expression := expression + "(";
      expression := expression + GroupBody(Contents(filters), IdentityLast(filters), separator);
      expression := expression + ")";
      assert expression == GroupFragment(sb, filters, separator);
      r := new Filter(Some(sb + [expression]));
    }
  }

  /** add_openrand on a filter object: its text, followed by the separator unless it is last. */
  method AddOperandOf(filter: Filter?, separator: string, isLast: bool) returns (suffix: string)
    ensures suffix == AddOperand(Content(filter), separator, isLast)
  {
    suffix := "";
    if filter != null && !filter.IsEmpty() {
      var expression := filter.ToString();
      suffix := expression;
      if !isLast {
        suffix := suffix + separator;
      }
    }
  }

  /**
   * When the last operand object appears nowhere else in the list, the
   * identity rule picks the same last operand as the positional rule; when it
   * appears earlier too, the two rules differ at that earlier position.
   */
  lemma IdentityLastIff(fs: seq<Filter?>)
    requires |fs| > 0
    ensures IdentityLast(fs) == PositionalLast(|fs|) <==> fs[|fs| - 1] !in fs[..|fs| - 1]
  {
    var n := |fs| - 1;
    if fs[n] in fs[..n] {
      var j :| 0 <= j < n && fs[..n][j] == fs[n];
      assert IdentityLast(fs)[j] != PositionalLast(|fs|)[j];
    } else {
      forall i | 0 <= i < |fs|
        ensures IdentityLast(fs)[i] == PositionalLast(|fs|)[i]
      {
        if i < n {
          assert fs[i] == fs[..n][i];
        }
      }
    }
  }

  /**
   * For distinct operand objects the Python group has the same text as the
   * TypeScript one: one fragment `G)` instead of the two fragments `G` and `)`.
   */
  lemma AgreesWithPositionalRule(receiver: seq<string>, fs: seq<Filter?>, separator: string)
    requires |fs| > 0 && fs[|fs| - 1] !in fs[..|fs| - 1]
    ensures Join(receiver + [GroupFragment(receiver, fs, separator)])
         == Join(receiver + GroupFragments(receiver, Contents(fs), separator))
  {
    IdentityLastIff(fs);
    var g := GroupFragments(receiver, Contents(fs), separator);
    JoinSnoc(receiver, GroupFragment(receiver, fs, separator));
    JoinConcat(receiver, g);
    assert Join(g) == g[0] + ")" by {
      assert g[..1] == [g[0]];
    }
  }

  /** In `[a, b, a]` the identity rule flags both copies of `a` as the last operand. */
  lemma RepeatedOperandIsLastTwice(a: Filter, b: Filter)
    requires a != b
    ensures IdentityLast([a, b, a]) == [true, false, true]
  {
  }

  /**
   * `and_condition(a, b, a)`: the first `a` is taken for the last operand, so
   * no separator follows it, and the body reads `AB and A` where the
   * positional rule gives `A and B and A`.
   */
  lemma RepeatedOperandLosesSeparator(a: string, b: string, separator: string)
    ensures GroupBody([Some([a]), Some([b]), Some([a])], [true, false, true], separator) == a + b + separator + a
    ensures GroupBody([Some([a]), Some([b]), Some([a])], PositionalLast(3), separator)
         == a + separator + b + separator + a
  {
    var ops := [Some([a]), Some([b]), Some([a])];
    assert Join([a]) == a && Join([b]) == b;
    assert GroupBody(ops, [true, false, true], separator) == a + b + separator + a by {
      var identity := [true, false, true];
      assert GroupBodyUpTo(ops, identity, separator, 1) == a by {
        assert GroupBodyUpTo(ops, identity, separator, 0) == "";
      }
      assert GroupBodyUpTo(ops, identity, separator, 2) == a + (b + separator);
    }
    var positional := PositionalLast(3);
    assert positional == [false, false, true];
    assert GroupBodyUpTo(ops, positional, separator, 1) == a + separator by {
      assert GroupBodyUpTo(ops, positional, separator, 0) == "";
    }
    assert GroupBodyUpTo(ops, positional, separator, 2) == a + separator + (b + separator);
  }

  /** The text of `and_condition(a, b, a)` on an empty filter, for `a` and `b` holding `@a` and `@b`. */
  lemma RepeatedOperandText(a: Filter, b: Filter)
    requires a != b && a.sb == ["@a"] && b.sb == ["@b"]
    ensures Join([GroupFragment([], [a, b, a], " and ")]) == "(@a@b and @a)"
  {
    var body := GroupBody(Contents([a, b, a]), IdentityLast([a, b, a]), " and ");
    assert body == "@a" + "@b" + " and " + "@a" by {
      assert Contents([a, b, a]) == [Some(["@a"]), Some(["@b"]), Some(["@a"])];
      RepeatedOperandIsLastTwice(a, b);
      RepeatedOperandLosesSeparator("@a", "@b", " and ");
    }
    var fragment := GroupFragment([], [a, b, a], " and ");
    assert fragment == "(" + body + ")";
    assert "(" + body + ")" == "(@a@b and @a)";
    assert Join([fragment]) == fragment;
  }

  /**
   * `and_condition(a, b, a)` with `a = hasAttribute("a")`, `b = hasAttribute("b")`,
   * under the identity rule for the last operand and with each operand's text
   * taken by `str(filter)`; the `filter.toString()` call of the source would
   * raise `AttributeError` on the first operand instead.
   */
  method RepeatedOperandExample() returns (text: string)
    ensures text == "(@a@b and @a)"
  {
    var filter := new Filter(None);
    var a := filter.Add(HasAttribute("a"));
    var b := filter.Add(HasAttribute("b"));
    var both := filter.AndCondition([a, b, a]);
    assert Fragment(HasAttribute("a")) == "@a" && Fragment(HasAttribute("b")) == "@b";
    assert a.sb == ["@a"] && b.sb == ["@b"];
    RepeatedOperandText(a, b);
    text := both.ToString();
  }
}
