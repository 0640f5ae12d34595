/**
 * The path builder of the TypeScript package (`XPathHelper` in
 * `src/xpath-helper.ts`).
 *
 * A helper holds its query as a list of fragments. Every step returns a new
 * helper whose list is the receiver's list with one fragment appended; only
 * `empty()` changes a helper in place. The local-path fragment `.` is built
 * on a throw-away helper and never reaches the receiver, so a fresh or
 * emptied helper renders as the empty string.
 */
module PathBuilder {
  import opened Options
  import opened Fragments
  import opened FilterCore
  import opened PathCore
  import FilterBuilder
  import Primitives

  class XPathHelper {
    /** The fragments of the query, in order. */
    var sb: seq<string>

    /** A helper seeded with the given fragments; without them, an empty helper. */
    constructor (currentPath: Option<seq<string>>)
      ensures sb == if currentPath.Some? then currentPath.value else []
      decreases if currentPath.Some? then 0 else 2
    {
      sb := if currentPath.Some? then currentPath.value else [];
      new;
      if currentPath.None? {
        var discarded := AppendLocalPath();
      }
    }

    /** Forgets every fragment; the local path is again built on a helper that is thrown away. */
    method Empty()
      modifies this
      ensures sb == []
    {
      sb := [];
      var discarded := AppendLocalPath();
    }

    /** The query: the fragments concatenated in order. */
    function ToString(): string
      reads this
    {
      Join(sb)
    }

    /** A new helper holding the receiver's fragments and `.`; the receiver is left as it is. */
    method AppendLocalPath() returns (r: XPathHelper)
      ensures fresh(r)
      ensures r.sb == sb + ["."]
      decreases 1
    {
      r := new XPathHelper(Some(sb + ["."]));
    }

    /** A new helper that selects the parent: `/..` is appended. */
    method GetParent() returns (r: XPathHelper)
      ensures fresh(r)
      ensures r.sb == sb + ["/.."]
      ensures r.ToString() == ToString() + "/.."
    {
      AppendKeepsRendering(sb, "/..");
      r := new XPathHelper(Some(sb + ["/.."]));
    }

    /** A new helper with the caller's XPath text appended verbatim. */
    method GetElementByXpath(xpath: string) returns (r: XPathHelper)
      ensures fresh(r)
      ensures r.sb == sb + [xpath]
      ensures r.ToString() == ToString() + xpath
    {
      AppendKeepsRendering(sb, xpath);
      r := new XPathHelper(Some(sb + [xpath]));
    }

    /** computeFilter: nothing for a missing or empty filter, otherwise its text in brackets. */
    function ComputeFilter(filter: FilterBuilder.Filter?): (suffix: string)
      reads filter
      ensures suffix == Predicate(FilterBuilder.Content(filter))
    {
      if filter != null && !filter.IsEmpty() then "[" + filter.ToString() + "]" else ""
    }

    /**
     * The axis-step methods (`getDescendant`, `getChildByTag`,
     * `getAncestorBySVGTag`, …): a new helper with the step fragment appended.
     */
    method Step(axis: Axis, test: NodeTest, filter: FilterBuilder.Filter?) returns (r: XPathHelper)
      ensures fresh(r)
      ensures r.sb == sb + [StepFragment(axis, test, FilterBuilder.Content(filter))]
      ensures r.ToString() == ToString() + StepFragment(axis, test, FilterBuilder.Content(filter))
    {
      var fragment := AxisPrefix(axis) + NodeTestText(test) + ComputeFilter(filter);
      AppendKeepsRendering(sb, fragment);
      r := new XPathHelper(Some(sb + [fragment]));
    }

    /** `getElement` is `getDescendant`. */
    method GetElement(filter: FilterBuilder.Filter?) returns (r: XPathHelper)
      ensures fresh(r)
      ensures r.sb == sb + [StepFragment(Descendant, AnyElement, FilterBuilder.Content(filter))]
    {
      r := Step(Descendant, AnyElement, filter);
    }

    /** `getElementByTag` is `getDescendantByTag`. */
    method GetElementByTag(tag: string, filter: FilterBuilder.Filter?) returns (r: XPathHelper)
      ensures fresh(r)
      ensures r.sb == sb + [StepFragment(Descendant, Tag(tag), FilterBuilder.Content(filter))]
    {
      r := Step(Descendant, Tag(tag), filter);
    }

    /** `getElementBySVGTag` is `getDescendantBySVGTag`. */
    method GetElementBySVGTag(svgTag: string, filter: FilterBuilder.Filter?) returns (r: XPathHelper)
      ensures fresh(r)
      ensures r.sb == sb + [StepFragment(Descendant, SvgTag(svgTag), FilterBuilder.Content(filter))]
    {
      r := Step(Descendant, SvgTag(svgTag), filter);
    }
  }

  /** A fresh helper's `getElementByTag("h1")` renders as `//h1`. */
  method TagExample() returns (text: string)
    ensures text == "//h1"
  {
    var helper := new XPathHelper(None);
    var h1 := helper.GetElementByTag("h1", null);
    assert h1.sb == [AxisPrefix(Descendant) + "h1" + ""];
    text := h1.ToString();
  }

  /** The text of `//body` filtered by `@x`. */
  lemma TagWithFilterText()
    ensures Join([StepFragment(Descendant, Tag("body"), Some(["@x"]))]) == "//body[@x]"
  {
    assert Predicate(Some(["@x"])) == "[@x]" by {
      assert Join(["@x"]) == "@x";
    }
    assert StepFragment(Descendant, Tag("body"), Some(["@x"])) == "//body[@x]";
  }

  /** A fresh helper's `getElementByTag("body", hasAttribute("x"))` renders as `//body[@x]`. */
  method TagWithFilterExample() returns (text: string)
    ensures text == "//body[@x]"
  {
    var filter := new FilterBuilder.Filter(None);
    var attribute := filter.Add(Primitives.HasAttribute("x"));
    assert attribute.sb == ["@x"] by {
      assert Primitives.Fragment(Primitives.HasAttribute("x")) == "@x";
    }
    var helper := new XPathHelper(None);
    var body := helper.GetElementByTag("body", attribute);
    TagWithFilterText();
    text := body.ToString();
  }

  /** A helper emptied in place renders as the empty string, whatever it held. */
  method EmptyExample() returns (before: string, after: string)
    ensures before == "//a/.." && after == ""
  {
    var helper := new XPathHelper(None);
    var anchor := helper.GetElementByTag("a", null);
    var parent := anchor.GetParent();
    before := parent.ToString();
    assert before == "//a" + "/..";
    parent.Empty();
    after := parent.ToString();
  }
}
