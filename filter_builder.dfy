/**
 * The filter builder of the TypeScript package (`ValidExpressionFilter` and
 * its subclass `EmptyFilter`) and of the earlier `src/filter.ts`
 * (`FilledFilter` and its subclass `Filter`), whose method bodies are the same.
 *
 * A filter holds its expression as a list of fragments. Building never
 * changes a filter: every predicate method returns a new filter whose list is
 * the receiver's list with one fragment (or, for `and`/`or`, two) appended.
 * Only `empty()` changes a filter in place.
 */
module FilterBuilder {
  import opened Options
  import opened Fragments
  import opened Primitives
  import opened FilterCore

  /** The content of an operand as the helper reads it: `None` for a missing filter. */
  function Content(f: Filter?): Option<seq<string>>
    reads f
  {
    if f == null then None else Some(f.sb)
  }

  /** The contents of a list of operands, in order. */
  function Contents(fs: seq<Filter?>): (r: seq<Option<seq<string>>>)
    reads fs
    ensures |r| == |fs|
    ensures forall i :: 0 <= i < |fs| ==> r[i] == Content(fs[i])
  {
    seq(|fs|, i requires 0 <= i < |fs| reads fs => Content(fs[i]))
  }

  class Filter {
    /** The fragments of the expression, in order. */
    var sb: seq<string>

    /** A filter seeded with the given fragments, or with none. */
    constructor (currentPath: Option<seq<string>>)
      ensures sb == if currentPath.Some? then currentPath.value else []
    {
      if currentPath.Some? {
        sb := currentPath.value;
      } else {
        sb := [];
      }
    }

    /** The expression: the fragments concatenated in order. */
    function ToString(): string
      reads this
    {
      Join(sb)
    }

    /** Whether the filter holds no fragment; a built filter is empty exactly when its text is. */
    function IsEmpty(): (b: bool)
      reads this
      ensures b ==> ToString() == ""
      ensures Built(sb) ==> (b <==> ToString() == "")
    {
      JoinBlank(sb);
      |sb| == 0
    }

    /** Forgets every fragment. */
    method Empty()
      modifies this
      ensures sb == []
    {
      sb := [];
    }

    /** A new filter with the fragment of the primitive appended. */
    method Add(p: Primitive) returns (r: Filter)
      ensures fresh(r)
      ensures r.sb == sb + [Fragment(p)]
    {
      r := new Filter(Some(sb + [Fragment(p)]));
    }

    /** A new filter with `not( F )` appended, `F` being the operand's text (blank when it is missing or empty). */
    method Not(filter: Filter?) returns (r: Filter)
      ensures fresh(r)
      ensures r.sb == sb + [NotFragment(Content(filter))]
    {
      var operand := AddOperandOf(filter, "", true);
      r := new Filter(Some(sb + ["not( " + operand + " )"]));
    }

    /** A new filter with the operands combined by `and` appended. */
    method And(filters: seq<Filter?>) returns (r: Filter)
      ensures fresh(r)
      ensures r.sb == sb + GroupFragments(sb, Contents(filters), " and ")
    {
      r := Group(filters, " and ");
    }

    /** A new filter with the operands combined by `or` appended. */
    method Or(filters: seq<Filter?>) returns (r: Filter)
      ensures fresh(r)
      ensures r.sb == sb + GroupFragments(sb, Contents(filters), " or ")
    {
      r := Group(filters, " or ");
    }

    /** The body shared by `and` and `or`: the group opened, its operands, and `)`. */
    method Group(filters: seq<Filter?>, separator: string) returns (r: Filter)
      ensures fresh(r)
      ensures r.sb == sb + GroupFragments(sb, Contents(filters), separator)
    {
      var expression := "";
      if |sb| != 0 {
        expression := expression + separator;
      }
      expression := expression + "(";
      assert expression == GroupOpen(sb, separator);
      var body := GroupBodyOf(filters, separator);
      expression := expression + body;
      r := new Filter(Some(sb + [expression, ")"]));
    }
  }

  /** The operands' contributions, added one by one, the operand at the last position without separator. */
  method GroupBodyOf(filters: seq<Filter?>, separator: string) returns (body: string)
    ensures body == GroupBody(Contents(filters), PositionalLast(|filters|), separator)
  {
    body := "";
    ghost var operands := Contents(filters);
    ghost var last := PositionalLast(|filters|);
    for i := 0 to |filters|
      invariant body == GroupBodyUpTo(operands, last, separator, i)
    {
      assert operands[i] == Content(filters[i]) && (last[i] <==> i == |filters| - 1);
      var contribution := AddOperandOf(filters[i], separator, i == |filters| - 1);
      body := body + contribution;
    }
  }

  /** addOpenrand on a filter object: its text, followed by the separator unless it is last. */
  method AddOperandOf(filter: Filter?, separator: string, isLast: bool) returns (suffix: string)
    ensures suffix == AddOperand(Content(filter), separator, isLast)
  {
    suffix := "";
    if filter != null && !filter.IsEmpty() {
      var expression := filter.ToString();
      suffix := expression;
      if !isLast {
        suffix := suffix + separator;
      }
    }
  }

  /** The text of a group of two operands holding one fragment each. */
  lemma GroupOfTwo(receiver: seq<string>, left: string, right: string, separator: string)
    ensures Join(receiver + GroupFragments(receiver, [Some([left]), Some([right])], separator))
         == Join(receiver) + GroupOpen(receiver, separator) + (left + separator + right) + ")"
  {
    var operands := [Some([left]), Some([right])];
    assert Renderings(operands) == [left, right];
    assert JoinWith([left, right], separator) == left + separator + right by {
      assert [left, right][1..] == [right];
    }
    GroupRendering(receiver, operands, separator);
  }

  /** The text of a group of one operand holding one fragment. */
  lemma GroupOfOne(receiver: seq<string>, right: string, separator: string)
    ensures Join(receiver + GroupFragments(receiver, [Some([right])], separator))
         == Join(receiver) + GroupOpen(receiver, separator) + right + ")"
  {
    var operands := [Some([right])];
    assert Renderings(operands) == [right];
    GroupRendering(receiver, operands, separator);
  }

  /** The fragments of the numeric comparisons used below: numbers are written as plain numerals. */
  lemma ComparisonFragments()
    ensures Fragment(ValueGreaterThan(14)) == "text() >14"
    ensures Fragment(ValueNotEquals(Literals.Num(20))) == "text() !=20"
  {
    assert Literals.Decimal(14) == "14" && Literals.Decimal(20) == "20";
  }

  /** The text the chained `and` scenario below produces. */
  lemma ChainedAndText()
    ensures var left, right := Fragment(ValueGreaterThan(14)), Fragment(ValueNotEquals(Literals.Num(20)));
      Join([left] + GroupFragments([left], [Some([right])], " and ")) == "text() >14 and (text() !=20)"
  {
    var left, right := Fragment(ValueGreaterThan(14)), Fragment(ValueNotEquals(Literals.Num(20)));
    GroupOfOne([left], right, " and ");
    assert Join([left]) == left && GroupOpen([left], " and ") == " and (";
    ComparisonFragments();
    ChainedAndLiteral(left, right);
  }

  /** Solver aid: the chained group spelt out as one literal. */
  lemma ChainedAndLiteral(left: string, right: string)
    requires left == "text() >14" && right == "text() !=20"
    ensures left + " and (" + right + ")" == "text() >14 and (text() !=20)"
  {
  }

  /** `valueGreaterThan(14).and(valueNotEquals(20))`: the group follows the receiver's text after ` and `. */
  method ChainedAndExample() returns (text: string)
    ensures text == "text() >14 and (text() !=20)"
  {
    var filter := new Filter(None);
    var greater := filter.Add(ValueGreaterThan(14));
    var notEquals := filter.Add(ValueNotEquals(Literals.Num(20)));
    var both := greater.And([notEquals]);
    assert greater.sb == [Fragment(ValueGreaterThan(14))];
    assert Contents([notEquals]) == [Some([Fragment(ValueNotEquals(Literals.Num(20)))])];
    ChainedAndText();
    text := both.ToString();
  }

  /** The text the `and` scenario below produces. */
  lemma AndText()
    ensures Join(GroupFragments([], [Some([Fragment(HasAttribute("a"))]), Some([Fragment(HasAttribute("b"))])], " and "))
         == "(@a and @b)"
  {
    assert Fragment(HasAttribute("a")) == "@a" && Fragment(HasAttribute("b")) == "@b";
    GroupOfTwo([], "@a", "@b", " and ");
    assert [] + GroupFragments([], [Some(["@a"]), Some(["@b"])], " and ")
        == GroupFragments([], [Some(["@a"]), Some(["@b"])], " and ");
    assert Join([]) == "" && GroupOpen([], " and ") == "(";
    AndLiteral("@a", "@b");
  }

  /** Solver aid: the `and` group spelt out as one literal. */
  lemma AndLiteral(left: string, right: string)
    requires left == "@a" && right == "@b"
    ensures "" + "(" + (left + " and " + right) + ")" == "(@a and @b)"
  {
  }

  /** `and(hasAttribute("a"), hasAttribute("b"))` on an empty filter: the operands joined by ` and ` in parentheses. */
  method AndExample() returns (text: string)
    ensures text == "(@a and @b)"
  {
    var filter := new Filter(None);
    var first := filter.Add(HasAttribute("a"));
    var second := filter.Add(HasAttribute("b"));
    var both := filter.And([first, second]);
    assert first.sb == [Fragment(HasAttribute("a"))] && second.sb == [Fragment(HasAttribute("b"))];
    assert Contents([first, second]) == [Some(first.sb), Some(second.sb)];
    assert both.sb == GroupFragments([], Contents([first, second]), " and ");
    AndText();
    text := both.ToString();
  }

  /** `not(attributeEquals("class", "st"))`: the operand's text between `not( ` and ` )`. */
  method NotExample() returns (text: string)
    ensures text == "not( @class='st' )"
  {
    var filter := new Filter(None);
    var equals := filter.Add(AttributeEquals("class", Literals.Str("st")));
    var negated := filter.Not(equals);
    NotText();
    text := negated.ToString();
  }

  /** The text the `not` scenario above produces. */
  lemma NotText()
    ensures Join([NotFragment(Some([Fragment(AttributeEquals("class", Literals.Str("st")))]))]) == "not( @class='st' )"
  {
    var equals := Fragment(AttributeEquals("class", Literals.Str("st")));
    assert equals == "@" + "class" + "=" + Literals.Quote("st") by {
      assert Literals.Apostrophe !in "st";
    }
    assert Join([equals]) == equals;
    assert "not( " + equals + " )" == "not( @class='st' )";
  }

  /** A filter emptied in place reports itself empty and renders as nothing. */
  method EmptyExample() returns (before: bool, after: bool, text: string)
    ensures !before && after && text == ""
  {
    var filter := new Filter(None);
    var attribute := filter.Add(HasAttribute("Toto"));
    before := attribute.IsEmpty();
    attribute.Empty();
    after := attribute.IsEmpty();
    text := attribute.ToString();
  }
}
