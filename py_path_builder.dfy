/**
 * The path builder of the Python port (`XPathHelper` in `xpath_helper.py`).
 *
 * It appends the same step fragments as the TypeScript helper and brackets a
 * filter the same way, but its filters are the Python filters. A helper made
 * without a path reads the class-level list, which is empty and which no
 * method ever mutates (every step builds `self.sb + [...]`), so it behaves as
 * a helper holding no fragment.
 */
module PyPathBuilder {
  import opened Options
  import opened Fragments
  import opened FilterCore
  import opened PathCore
  import PyFilterBuilder

  class XPathHelper {
    /** The fragments of the query, in order. */
    var sb: seq<string>

    /** A helper seeded with the given fragments; without them, a helper holding none. */
    constructor (currentPath: Option<seq<string>>)
      ensures sb == if currentPath.Some? then currentPath.value else []
      decreases if currentPath.Some? then 0 else 2
    {
      sb := if currentPath.Some? then currentPath.value else [];
      new;
      if currentPath.None? {
        var discarded := AppendLocalPath();
      }
    }

    /** Forgets every fragment; the local path is again built on a helper that is thrown away. */
    method Empty()
      modifies this
      ensures sb == []
    {
      sb := [];
      var discarded := AppendLocalPath();
    }

    /** `str(helper)`: the fragments concatenated in order. */
    function ToString(): string
      reads this
    {
      Join(sb)
    }

    /** A new helper holding the receiver's fragments and `.`. */
    method AppendLocalPath() returns (r: XPathHelper)
      ensures fresh(r)
      ensures r.sb == sb + ["."]
      decreases 1
    {
      r := new XPathHelper(Some(sb + ["."]));
    }

    /** A new helper that selects the parent: `/..` is appended. */
    method GetParent() returns (r: XPathHelper)
      ensures fresh(r)
      ensures r.sb == sb + ["/.."]
      ensures r.ToString() == ToString() + "/.."
    {
      AppendKeepsRendering(sb, "/..");
      r := new XPathHelper(Some(sb + ["/.."]));
    }

    /** A new helper with the caller's XPath text appended verbatim. */
    method GetElementByXpath(xpath: string) returns (r: XPathHelper)
      ensures fresh(r)
      ensures r.sb == sb + [xpath]
      ensures r.ToString() == ToString() + xpath
    {
      AppendKeepsRendering(sb, xpath);
      r := new XPathHelper(Some(sb + [xpath]));
    }

    /** `__compute_filter`: nothing for a missing or empty filter, otherwise its text in brackets. */
    function ComputeFilter(filter: PyFilterBuilder.Filter?): (suffix: string)
      reads filter
      ensures suffix == Predicate(PyFilterBuilder.Content(filter))
    {
      if filter != null && !filter.IsEmpty() then "[" + filter.ToString() + "]" else ""
    }

    /** The axis-step methods (`get_descendant`, `get_child_by_tag`, …): a new helper with the step fragment appended. */
    method Step(axis: Axis, test: NodeTest, filter: PyFilterBuilder.Filter?) returns (r: XPathHelper)
      ensures fresh(r)
      ensures r.sb == sb + [StepFragment(axis, test, PyFilterBuilder.Content(filter))]
      ensures r.ToString() == ToString() + StepFragment(axis, test, PyFilterBuilder.Content(filter))
    {
      var fragment := AxisPrefix(axis) + NodeTestText(test) + ComputeFilter(filter);
      AppendKeepsRendering(sb, fragment);
      r := new XPathHelper(Some(sb + [fragment]));
    }

    /** `get_element` is `get_descendant`. */
    method GetElement(filter: PyFilterBuilder.Filter?) returns (r: XPathHelper)
      ensures fresh(r)
      ensures r.sb == sb + [StepFragment(Descendant, AnyElement, PyFilterBuilder.Content(filter))]
    {
      r := Step(Descendant, AnyElement, filter);
    }

    /** `get_element_by_tag` is `get_descendant_by_tag`. */
    method GetElementByTag(tag: string, filter: PyFilterBuilder.Filter?) returns (r: XPathHelper)
      ensures fresh(r)
      ensures r.sb == sb + [StepFragment(Descendant, Tag(tag), PyFilterBuilder.Content(filter))]
    {
      r := Step(Descendant, Tag(tag), filter);
    }

    /** `get_element_by_svg_tag` is `get_descendant_by_svg_tag`. */
    method GetElementBySvgTag(svgTag: string, filter: PyFilterBuilder.Filter?) returns (r: XPathHelper)
      ensures fresh(r)
      ensures r.sb == sb + [StepFragment(Descendant, SvgTag(svgTag), PyFilterBuilder.Content(filter))]
    {
      r := Step(Descendant, SvgTag(svgTag), filter);
    }
  }

  /**
   * A step's text is the receiver's text followed by the step fragment, so a
   * chain of steps renders as the concatenation of its fragments.
   */
  lemma ChainRendersInOrder(sb: seq<string>, first: string, second: string)
    ensures Join(sb + [first] + [second]) == Join(sb) + first + second
  {
    AppendKeepsRendering(sb, first);
    AppendKeepsRendering(sb + [first], second);
  }

  /** The text of `//ul` followed by `/li`. */
  lemma ChildChainText()
    ensures Join([StepFragment(Descendant, Tag("ul"), None), StepFragment(Child, Tag("li"), None)]) == "//ul/li"
  {
    ChainRendersInOrder([], StepFragment(Descendant, Tag("ul"), None), StepFragment(Child, Tag("li"), None));
    assert [] + [StepFragment(Descendant, Tag("ul"), None)] + [StepFragment(Child, Tag("li"), None)]
        == [StepFragment(Descendant, Tag("ul"), None), StepFragment(Child, Tag("li"), None)];
    assert StepFragment(Descendant, Tag("ul"), None) == "//ul";
    assert StepFragment(Child, Tag("li"), None) == "/li";
  }

  /** `XPathHelper().get_element_by_tag("ul").get_child_by_tag("li")` renders as `//ul/li`. */
  method ChildChainExample() returns (text: string)
    ensures text == "//ul/li"
  {
    var helper := new XPathHelper(None);
    var list := helper.GetElementByTag("ul", null);
    var item := list.Step(Child, Tag("li"), null);
    ChildChainText();
    assert item.sb == [StepFragment(Descendant, Tag("ul"), None), StepFragment(Child, Tag("li"), None)];
    text := item.ToString();
  }
}
