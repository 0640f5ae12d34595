/**
 * The earlier path builder, `src/index.ts`, whose step methods take a filter
 * CALLBACK rather than a filter: the helper hands the callback a fresh, empty
 * filter and brackets the text of the filter it gets back, with a space on
 * each side (`[ e ]`), unless that text is blank.
 *
 * A callback is modelled by what it does to fragments: the fragments of the
 * filter it returns, as a function of the fragments of the filter it is
 * handed.
 */
module CallbackPathBuilder {
  import opened Options
  import opened Fragments
  import opened FilterCore
  import opened PathCore
  import FilterBuilder

  /** The filter callback of a step: absent, or a map from the fragments it is handed to the fragments it returns. */
  type Callback = Option<seq<string> -> seq<string>>

  /** The text of the filter the callback returns when handed an empty filter. */
  function CallbackText(callback: Callback): string
    requires callback.Some?
  {
    Join(callback.value([]))
  }

  /** What computeFilter appends: the callback's text between `[ ` and ` ]`, or nothing when there is no callback or its text is blank. */
  function SpacedPredicate(callback: Callback): string
  {
    if callback.Some? && CallbackText(callback) != "" then "[ " + CallbackText(callback) + " ]" else ""
  }

  /** The step fragment, every axis and node test written as in `PathCore`. */
  function CallbackStepFragment(axis: Axis, test: NodeTest, callback: Callback): string
  {
    AxisPrefix(axis) + NodeTestText(test) + SpacedPredicate(callback)
  }

  /**
   * The step prefix as written: `getDescendantBySVGTag` starts its fragment
   * with a single `/`; every other step uses its axis prefix.
   */
  function WrittenStepPrefix(axis: Axis, test: NodeTest): string
  {
    if axis == Descendant && test.SvgTag? then "/" else AxisPrefix(axis)
  }

  /** The step fragment as written. */
  function WrittenStepFragment(axis: Axis, test: NodeTest, callback: Callback): string
  {
    WrittenStepPrefix(axis, test) + NodeTestText(test) + SpacedPredicate(callback)
  }

  /**
   * As written, the SVG step on the descendant axis is the SVG step on the
   * child axis: it does not start with `//`, so it selects children only.
   */
  lemma WrittenSvgDescendantIsChildStep(svgTag: string, callback: Callback)
    ensures WrittenStepFragment(Descendant, SvgTag(svgTag), callback) == WrittenStepFragment(Child, SvgTag(svgTag), callback)
    ensures WrittenStepFragment(Descendant, SvgTag(svgTag), callback)[..2] == "/*"
  {
    assert AxisPrefix(Child) == "/";
  }

  // `new XPathHelper().getDescendantBySVGTag("svg")` as written renders as `/*[local-name() = 'svg']`.
  lemma WrittenSvgDescendantExample()
    ensures Join([WrittenStepFragment(Descendant, SvgTag("svg"), None)]) == "/*[local-name() = 'svg']"
  {
    var fragment := WrittenStepFragment(Descendant, SvgTag("svg"), None);
    assert fragment == "/" + NodeTestText(SvgTag("svg")) + "";
    assert Join([fragment]) == fragment;
    assert "/" + NodeTestText(SvgTag("svg")) + "" == "/*[local-name() = 'svg']";
  }

  /** Apart from that one step, the fragments as written are the corrected ones. */
  lemma WrittenElsewhereAgrees(axis: Axis, test: NodeTest, callback: Callback)
    ensures WrittenStepFragment(axis, test, callback) == CallbackStepFragment(axis, test, callback)
        <==> !(axis == Descendant && test.SvgTag?)
  {
    if axis == Descendant && test.SvgTag? {
      assert WrittenStepFragment(axis, test, callback)[..2] == "/*";
      assert CallbackStepFragment(axis, test, callback)[..2] == "//";
    }
  }

  /** Corrected, every descendant step starts with `//`, the SVG step included. */
  lemma CallbackDescendantStepStartsWithDoubleSlash(test: NodeTest, callback: Callback)
    ensures |CallbackStepFragment(Descendant, test, callback)| >= 2
    ensures CallbackStepFragment(Descendant, test, callback)[..2] == "//"
  {
    assert AxisPrefix(Descendant) == "//";
  }

  /**
   * For a callback that returns a filter built from predicate fragments, the
   * spaced predicate is suppressed exactly when the unspaced predicate of the
   * later helper is, and otherwise differs from it only by the two spaces.
   */
  lemma SpacedAgreesWithUnspaced(callback: Callback)
    requires callback.Some? && Built(callback.value([]))
    ensures SpacedPredicate(callback) == "" <==> Predicate(Some(callback.value([]))) == ""
    ensures SpacedPredicate(callback) != "" ==>
      SpacedPredicate(callback) == "[ " + Rendering(Some(callback.value([]))) + " ]" &&
      Predicate(Some(callback.value([]))) == "[" + Rendering(Some(callback.value([]))) + "]"
  {
    JoinBlank(callback.value([]));
    if |callback.value([])| != 0 {
      assert callback.value([])[0] != "";
    }
  }

  /** The two tests part on a filter whose only fragment is blank: the later helper writes `[]`, this one nothing. */
  lemma BlankFragmentParts()
    ensures SpacedPredicate(Some(_ => [""])) == ""
    ensures Predicate(Some([""])) == "[]"
  {
    assert Join([""]) == "";
  }

  class XPathHelper {
    /** The fragments of the query, in order. */
    var sb: seq<string>

    /** A helper seeded with the given fragments; without them, an empty helper. */
    constructor (currentPath: Option<seq<string>>)
      ensures sb == if currentPath.Some? then currentPath.value else []
      decreases if currentPath.Some? then 0 else 2
    {
      sb := if currentPath.Some? then currentPath.value else [];
      new;
      if currentPath.None? {
        var discarded := AppendLocalPath();
      }
    }

    /** Forgets every fragment; the local path is again built on a helper that is thrown away. */
    method Empty()
      modifies this
      ensures sb == []
    {
      sb := [];
      var discarded := AppendLocalPath();
    }

    /** The query: the fragments concatenated in order. */
    function ToString(): string
      reads this
    {
      Join(sb)
    }

    /** A new helper holding the receiver's fragments and `.`. */
    method AppendLocalPath() returns (r: XPathHelper)
      ensures fresh(r)
      ensures r.sb == sb + ["."]
      decreases 1
    {
      r := new XPathHelper(Some(sb + ["."]));
    }

    /** A new helper that selects the parent: `/..` is appended. */
    method GetParent() returns (r: XPathHelper)
      ensures fresh(r)
      ensures r.sb == sb + ["/.."]
      ensures r.ToString() == ToString() + "/.."
    {
      AppendKeepsRendering(sb, "/..");
      r := new XPathHelper(Some(sb + ["/.."]));
    }

    /** A new helper with the caller's XPath text appended verbatim. */
    method GetElementByXpath(xpath: string) returns (r: XPathHelper)
      ensures fresh(r)
      ensures r.sb == sb + [xpath]
      ensures r.ToString() == ToString() + xpath
    {
      AppendKeepsRendering(sb, xpath);
      r := new XPathHelper(Some(sb + [xpath]));
    }

    /** computeFilter: the callback is handed a fresh filter, and the text of the filter it returns is bracketed unless blank. */
    method ComputeFilter(callback: Callback) returns (suffix: string)
      ensures suffix == "" <==> callback.None? || CallbackText(callback) == ""
      ensures suffix != "" ==> suffix == "[ " + CallbackText(callback) + " ]"
    {
      suffix := "";
      if callback.Some? {
        var start := new FilterBuilder.Filter(None);
        var expression := Join(callback.value(start.sb));
        if expression != "" {
          suffix := "[ " + expression + " ]";
        }
      }
    }

    /**
     * The axis-step methods: a new helper with the step fragment appended as
     * written, `getDescendantBySVGTag` starting with a single `/`.
     */
    method Step(axis: Axis, test: NodeTest, callback: Callback) returns (r: XPathHelper)
      ensures fresh(r)
      ensures r.sb == sb + [WrittenStepFragment(axis, test, callback)]
      ensures r.ToString() == ToString() + WrittenStepFragment(axis, test, callback)
    {
      var suffix := ComputeFilter(callback);
      var fragment := WrittenStepPrefix(axis, test) + NodeTestText(test) + suffix;
      AppendKeepsRendering(sb, fragment);
      r := new XPathHelper(Some(sb + [fragment]));
    }

    /** `getElement` is `getDescendant`. */
    method GetElement(callback: Callback) returns (r: XPathHelper)
      ensures fresh(r)
      ensures r.sb == sb + [WrittenStepFragment(Descendant, AnyElement, callback)]
    {
      r := Step(Descendant, AnyElement, callback);
    }

    /** `getElementByTag` is `getDescendantByTag`. */
    method GetElementByTag(tag: string, callback: Callback) returns (r: XPathHelper)
      ensures fresh(r)
      ensures r.sb == sb + [WrittenStepFragment(Descendant, Tag(tag), callback)]
    {
      r := Step(Descendant, Tag(tag), callback);
    }

    /** `getElementBySVGTag` is `getDescendantBySVGTag`, single `/` included. */
    method GetElementBySVGTag(svgTag: string, callback: Callback) returns (r: XPathHelper)
      ensures fresh(r)
      ensures r.sb == sb + [WrittenStepFragment(Descendant, SvgTag(svgTag), callback)]
    {
      r := Step(Descendant, SvgTag(svgTag), callback);
    }
  }

  /** The text of `//p` filtered by a callback that adds `@x`. */
  lemma CallbackStepText()
    ensures Join([WrittenStepFragment(Descendant, Tag("p"), Some(f => f + ["@x"]))]) == "//p[ @x ]"
  {
    assert Join(["@x"]) == "@x";
    assert WrittenStepFragment(Descendant, Tag("p"), Some(f => f + ["@x"])) == "//p[ @x ]";
  }

  /** `new XPathHelper().getElementByTag("p", f => f.hasAttribute("x"))` renders as `//p[ @x ]`. */
  method CallbackExample() returns (text: string)
    ensures text == "//p[ @x ]"
  {
    var helper := new XPathHelper(None);
    var p := helper.GetElementByTag("p", Some(f => f + ["@x"]));
    CallbackStepText();
    text := p.ToString();
  }

  // `new XPathHelper().getElementBySVGTag("svg")` renders, as written, as `/*[local-name() = 'svg']`.
  method SvgExample() returns (text: string)
    ensures text == "/*[local-name() = 'svg']"
  {
    var helper := new XPathHelper(None);
    var svg := helper.GetElementBySVGTag("svg", None);
    assert svg.sb == [WrittenStepFragment(Descendant, SvgTag("svg"), None)];
    WrittenSvgDescendantExample();
    text := svg.ToString();
  }
}
