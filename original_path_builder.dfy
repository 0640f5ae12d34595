/**
 * The first path builder, `XPathBuilder` in `original.ts`, which has no
 * filter objects: every step method writes one fixed template, a node test
 * followed by its conditions, on one of four axes (descendant, ancestor,
 * following-sibling, preceding-sibling).
 *
 * A condition compares the element's text or an attribute with a string the
 * caller passes. The builder puts that string between apostrophes as it is
 * (`WrittenTemplateFragment`), so a string holding an apostrophe breaks the
 * literal. `TemplateFragment` writes it as an XPath string literal instead
 * (the escaping of `Literals.Escape`), and the lemmas below relate the two.
 */
module OriginalPathBuilder {
  import opened Options
  import opened Fragments
  import opened Literals
  import opened FilterCore
  import opened PathCore
  import Primitives

  /** One condition of a template. */
  datatype Condition =
    | TextEquals(text: string)                          // text() = 't'
    | TextContains(text: string)                        // text()[contains(., 't')]
    | InnerHtmlContains(text: string)                   // contains(., 't')
    | AttributeEquals(attribute: string, text: string)  // @a='t'
    | AttributeContains(attribute: string, text: string) // contains(@a, 't')

  /** The fixed text a condition writes before its string. */
  function Lead(c: Condition): string
  {
    match c
    case TextEquals(_) => "text() = "
    case TextContains(_) => "text()[contains(., "
    case InnerHtmlContains(_) => "contains(., "
    case AttributeEquals(a, _) => "@" + a + "="
    case AttributeContains(a, _) => "contains(@" + a + ", "
  }

  /** The fixed text a condition writes after its string. */
  function Trail(c: Condition): string
  {
    match c
    case TextEquals(_) => ""
    case TextContains(_) => ")]"
    case InnerHtmlContains(_) => ")"
    case AttributeEquals(_, _) => ""
    case AttributeContains(_, _) => ")"
  }

  /** The condition as written: the string between two apostrophes, unescaped. */
  function WrittenConditionText(c: Condition): string
  {
    Lead(c) + Quote(c.text) + Trail(c)
  }

  /** The condition with its string written as an XPath literal. */
  function ConditionText(c: Condition): string
  {
    Lead(c) + Escape(Str(c.text)) + Trail(c)
  }

  /** The fifteen step templates; each step method writes one of them on its axis. */
  datatype Template =
    | WithText(text: string)
    | WithTextContains(text: string)
    | WithInnerHtmlContains(text: string)
    | ByTagWithTextContains(tag: string, text: string)
    | ByTag(tag: string)
    | ByTagSvg(tag: string)
    | WithAttribute(attribute: string, value: string)
    | WithAttributeContains(attribute: string, value: string)
    | With1stAttributeContainsAnd2ndAttributeContains(attribute: string, value: string, attribute2: string, value2: string)
    | ByTagWithAttribute(tag: string, attribute: string, value: string)
    | ByTagWithAttributeSvg(tag: string, attribute: string, value: string)
    | ByTagWithAttributeContains(tag: string, attribute: string, value: string)
    | ByTagWithAttributeContainsAndWithTextEquals(tag: string, attribute: string, value: string, text: string)
    | ByTagWithAttributeContainsSvg(tag: string, attribute: string, value: string)
    | ByTagWithAttributeContainsAndWithTextContains(tag: string, attribute: string, value: string, text: string)

  /** The node test of a template: any element, a tag, or an SVG tag matched by local name. */
  function TemplateTest(t: Template): NodeTest
  {
    match t
    case ByTagWithTextContains(tag, _) => Tag(tag)
    case ByTag(tag) => Tag(tag)
    case ByTagSvg(tag) => SvgTag(tag)
    case ByTagWithAttribute(tag, _, _) => Tag(tag)
    case ByTagWithAttributeSvg(tag, _, _) => SvgTag(tag)
    case ByTagWithAttributeContains(tag, _, _) => Tag(tag)
    case ByTagWithAttributeContainsAndWithTextEquals(tag, _, _, _) => Tag(tag)
    case ByTagWithAttributeContainsSvg(tag, _, _) => SvgTag(tag)
    case ByTagWithAttributeContainsAndWithTextContains(tag, _, _, _) => Tag(tag)
    case _ => AnyElement
  }

  /** The conditions of a template, in the order it writes them. */
  function TemplateConditions(t: Template): (cs: seq<Condition>)
    ensures |cs| <= 2
  {
    match t
    case WithText(text) => [TextEquals(text)]
    case WithTextContains(text) => [TextContains(text)]
    case WithInnerHtmlContains(text) => [InnerHtmlContains(text)]
    case ByTagWithTextContains(_, text) => [TextContains(text)]
    case ByTag(_) => []
    case ByTagSvg(_) => []
    case WithAttribute(a, v) => [AttributeEquals(a, v)]
    case WithAttributeContains(a, v) => [AttributeContains(a, v)]
    case With1stAttributeContainsAnd2ndAttributeContains(a, v, a2, v2) => [AttributeContains(a, v), AttributeContains(a2, v2)]
    case ByTagWithAttribute(_, a, v) => [AttributeEquals(a, v)]
    case ByTagWithAttributeSvg(_, a, v) => [AttributeEquals(a, v)]
    case ByTagWithAttributeContains(_, a, v) => [AttributeContains(a, v)]
    case ByTagWithAttributeContainsAndWithTextEquals(_, a, v, text) => [AttributeContains(a, v), TextEquals(text)]
    case ByTagWithAttributeContainsSvg(_, a, v) => [AttributeContains(a, v)]
    case ByTagWithAttributeContainsAndWithTextContains(_, a, v, text) => [AttributeContains(a, v), TextContains(text)]
  }

  /** The step methods exist on four axes; the two-attribute template only on the descendant axis. */
  predicate Offers(axis: Axis, t: Template)
  {
    (axis == Descendant || axis == Ancestor || axis == FollowingSibling || axis == PrecedingSibling) &&
    (t.With1stAttributeContainsAnd2ndAttributeContains? ==> axis == Descendant)
  }

  /** The conditions' texts joined by ` and ` in one bracket, or nothing when there is no condition. */
  function Bracket(texts: seq<string>): string
  {
    if |texts| == 0 then "" else "[" + JoinWith(texts, " and ") + "]"
  }

  function ConditionTexts(cs: seq<Condition>): (r: seq<string>)
    ensures |r| == |cs|
    ensures forall i :: 0 <= i < |cs| ==> r[i] == ConditionText(cs[i])
  {
    seq(|cs|, i requires 0 <= i < |cs| => ConditionText(cs[i]))
  }

  function WrittenConditionTexts(cs: seq<Condition>): (r: seq<string>)
    ensures |r| == |cs|
    ensures forall i :: 0 <= i < |cs| ==> r[i] == WrittenConditionText(cs[i])
  {
    seq(|cs|, i requires 0 <= i < |cs| => WrittenConditionText(cs[i]))
  }

  /** The fragment a step method writes, as written. */
  function WrittenTemplateFragment(axis: Axis, t: Template): string
  {
    AxisPrefix(axis) + NodeTestText(TemplateTest(t)) + Bracket(WrittenConditionTexts(TemplateConditions(t)))
  }

  /** The fragment a step method writes, its strings escaped. */
  function TemplateFragment(axis: Axis, t: Template): string
  {
    AxisPrefix(axis) + NodeTestText(TemplateTest(t)) + Bracket(ConditionTexts(TemplateConditions(t)))
  }

  /**
   * As written, the string of a condition can be read back from between the
   * condition's fixed lead and trail exactly when it has no apostrophe; an
   * apostrophe ends the literal early.
   */
  lemma WrittenConditionReadsBackIff(c: Condition)
    ensures |Lead(c)| + |Trail(c)| <= |WrittenConditionText(c)|
    ensures EvalLiteral(WrittenConditionText(c)[|Lead(c)|..|WrittenConditionText(c)| - |Trail(c)|]) == Some(c.text)
        <==> Apostrophe !in c.text
  {
    Primitives.SliceBetween(Lead(c), Quote(c.text), Trail(c));
    RawQuoteRoundTripIff(c.text);
  }

  /** With the string escaped, it always reads back, whatever characters it holds. */
  lemma ConditionReadsBack(c: Condition)
    ensures |Lead(c)| + |Trail(c)| <= |ConditionText(c)|
    ensures EvalLiteral(ConditionText(c)[|Lead(c)|..|ConditionText(c)| - |Trail(c)|]) == Some(c.text)
  {
    Primitives.SliceBetween(Lead(c), Escape(Str(c.text)), Trail(c));
    EscapeRoundTrip(c.text);
  }

  /** `getElementWithText("it's")` as written: the literal `'it'` ends at the apostrophe of the text. */
  lemma WrittenApostropheExample()
    ensures WrittenTemplateFragment(Descendant, WithText("it's")) == "//*[text() = 'it's']"
    ensures EvalLiteral(Quote("it's")) == None
  {
    var condition := WrittenConditionText(TextEquals("it's"));
    assert WrittenTemplateFragment(Descendant, WithText("it's")) == "//" + "*" + ("[" + condition + "]") by {
      assert TemplateConditions(WithText("it's")) == [TextEquals("it's")];
      assert WrittenConditionTexts([TextEquals("it's")]) == [condition];
      BracketOfOne(condition);
    }
    assert "//" + "*" + ("[" + condition + "]") == "//*[text() = 'it's']" by {
      assert Quote("it's") == "'it's'";
    }
    RawQuoteBreaksOnApostrophe();
  }

  /** Where no string holds an apostrophe, the escaped template is the template as written. */
  lemma WrittenAgreesWithoutApostrophe(axis: Axis, t: Template)
    requires forall i :: 0 <= i < |TemplateConditions(t)| ==> Apostrophe !in TemplateConditions(t)[i].text
    ensures TemplateFragment(axis, t) == WrittenTemplateFragment(axis, t)
  {
    var cs := TemplateConditions(t);
    forall i | 0 <= i < |cs|
      ensures ConditionTexts(cs)[i] == WrittenConditionTexts(cs)[i]
    {
      EscapeShape(cs[i].text);
    }
    assert ConditionTexts(cs) == WrittenConditionTexts(cs);
  }

  /** The primitive of the later filter builder that writes the same text as a condition, where there is one. */
  function AsPrimitive(c: Condition): Option<Primitives.Primitive>
  {
    match c
    case TextEquals(text) => Some(Primitives.ValueEquals(Str(text)))
    case TextContains(text) => Some(Primitives.ValueContains(text))
    case InnerHtmlContains(_) => None
    case AttributeEquals(a, text) => Some(Primitives.AttributeEquals(a, Str(text)))
    case AttributeContains(a, text) => Some(Primitives.AttributeContains(a, text))
  }

  /** Escaped, a condition and its primitive write the same text, whatever the string holds. */
  lemma PrimitiveWritesCondition(c: Condition)
    requires AsPrimitive(c).Some?
    ensures Primitives.Fragment(AsPrimitive(c).value) == ConditionText(c)
  {
    Primitives.FragmentParts(AsPrimitive(c).value);
  }

  /**
   * Escaped, a one-condition template is the later helper's step with a
   * filter that holds the matching primitive: the later builders write the
   * corrected original templates.
   */
  lemma SingleConditionIsFilteredStep(axis: Axis, t: Template)
    requires |TemplateConditions(t)| == 1 && AsPrimitive(TemplateConditions(t)[0]).Some?
    ensures TemplateFragment(axis, t)
         == StepFragment(axis, TemplateTest(t), Some([Primitives.Fragment(AsPrimitive(TemplateConditions(t)[0]).value)]))
  {
    var c := TemplateConditions(t)[0];
    var f := Primitives.Fragment(AsPrimitive(c).value);
    PrimitiveWritesCondition(c);
    assert Join([f]) == f;
    assert Bracket(ConditionTexts(TemplateConditions(t))) == "[" + f + "]";
  }

  /** As written, a condition whose string has no apostrophe writes the same text as its primitive. */
  lemma WrittenPrimitiveWritesCondition(c: Condition)
    requires AsPrimitive(c).Some? && Apostrophe !in c.text
    ensures Primitives.Fragment(AsPrimitive(c).value) == WrittenConditionText(c)
  {
    PrimitiveWritesCondition(c);
    EscapeShape(c.text);
  }

  /**
   * As written, a one-condition template whose string has no apostrophe is the
   * later helper's step with the matching primitive; with an apostrophe only
   * the escaped template is (`SingleConditionIsFilteredStep`).
   */
  lemma WrittenSingleConditionIsFilteredStep(axis: Axis, t: Template)
    requires |TemplateConditions(t)| == 1 && AsPrimitive(TemplateConditions(t)[0]).Some?
    requires Apostrophe !in TemplateConditions(t)[0].text
    ensures WrittenTemplateFragment(axis, t)
         == StepFragment(axis, TemplateTest(t), Some([Primitives.Fragment(AsPrimitive(TemplateConditions(t)[0]).value)]))
  {
    SingleConditionIsFilteredStep(axis, t);
    WrittenAgreesWithoutApostrophe(axis, t);
  }

  /** A template without conditions is the later helper's step without a filter. */
  lemma BareTemplateIsUnfilteredStep(axis: Axis, t: Template)
    requires |TemplateConditions(t)| == 0
    ensures TemplateFragment(axis, t) == StepFragment(axis, TemplateTest(t), None)
  {
  }

  lemma BracketOfOne(text: string)
    ensures Bracket([text]) == "[" + text + "]"
  {
  }

  lemma BracketOfTwo(first: string, second: string)
    ensures Bracket([first, second]) == "[" + first + " and " + second + "]"
  {
    assert [first, second][1..] == [second];
  }

  /** The two conditions of a two-condition template share one bracket, joined by ` and `, escaped and as written. */
  lemma TwoConditionsShareBracket(cs: seq<Condition>)
    requires |cs| == 2
    ensures Bracket(ConditionTexts(cs)) == "[" + ConditionText(cs[0]) + " and " + ConditionText(cs[1]) + "]"
    ensures Bracket(WrittenConditionTexts(cs)) == "[" + WrittenConditionText(cs[0]) + " and " + WrittenConditionText(cs[1]) + "]"
  {
    assert ConditionTexts(cs) == [ConditionText(cs[0]), ConditionText(cs[1])];
    BracketOfTwo(ConditionText(cs[0]), ConditionText(cs[1]));
    assert WrittenConditionTexts(cs) == [WrittenConditionText(cs[0]), WrittenConditionText(cs[1])];
    BracketOfTwo(WrittenConditionText(cs[0]), WrittenConditionText(cs[1]));
  }

  /** The doc-comment example, as written: `getElementByTagWithTextContains("div", "div innerText")`. */
  lemma DocExampleText()
    ensures WrittenTemplateFragment(Descendant, ByTagWithTextContains("div", "div innerText"))
         == "//div[text()[contains(., 'div innerText')]]"
  {
    var t := ByTagWithTextContains("div", "div innerText");
    var condition := WrittenConditionText(TextContains("div innerText"));
    var bracket := Bracket(WrittenConditionTexts(TemplateConditions(t)));
    assert bracket == "[" + condition + "]" by {
      assert TemplateConditions(t) == [TextContains("div innerText")];
      assert WrittenConditionTexts([TextContains("div innerText")]) == [condition];
      BracketOfOne(condition);
    }
    assert WrittenTemplateFragment(Descendant, t) == "//" + "div" + bracket by {
      assert AxisPrefix(Descendant) == "//" && NodeTestText(TemplateTest(t)) == "div";
    }
    DocExampleCondition();
    DocExampleLiteral(condition);
  }

  /** The condition of the doc-comment example, as written. */
  lemma DocExampleCondition()
    ensures WrittenConditionText(TextContains("div innerText")) == "text()[contains(., 'div innerText')]"
  {
    var quoted := Quote("div innerText");
    assert quoted == "'div innerText'";
    assert "text()[contains(., " + quoted + ")]" == "text()[contains(., 'div innerText')]";
  }

  /** Solver aid: the step text spelt out as one literal. */
  lemma DocExampleLiteral(condition: string)
    requires condition == "text()[contains(., 'div innerText')]"
    ensures "//" + "div" + "[" + condition + "]" == "//div[text()[contains(., 'div innerText')]]"
  {
  }

  /** The doc-comment example has no apostrophe, so escaping it changes nothing. */
  lemma DocExampleNeedsNoEscape()
    ensures TemplateFragment(Descendant, ByTagWithTextContains("div", "div innerText"))
         == WrittenTemplateFragment(Descendant, ByTagWithTextContains("div", "div innerText"))
  {
    var text := "div innerText";
    assert Apostrophe !in text by {
      assert text == "div" + " inner" + "Text";
      assert Apostrophe !in "div" && Apostrophe !in " inner" && Apostrophe !in "Text";
    }
    assert TemplateConditions(ByTagWithTextContains("div", text)) == [TextContains(text)];
    WrittenAgreesWithoutApostrophe(Descendant, ByTagWithTextContains("div", text));
  }

  class XPathBuilder {
    /** The fragments of the query, in order. */
    var sb: seq<string>

    /** A builder seeded with the given fragments; without them, an empty builder. */
    constructor (currentPath: Option<seq<string>>)
      ensures sb == if currentPath.Some? then currentPath.value else []
      decreases if currentPath.Some? then 0 else 2
    {
      sb := if currentPath.Some? then currentPath.value else [];
      new;
      if currentPath.None? {
        var discarded := AppendLocalPath();
      }
    }

    /** Forgets every fragment; the local path is again built on a builder that is thrown away. */
    method Empty()
      modifies this
      ensures sb == []
    {
      sb := [];
      var discarded := AppendLocalPath();
    }

    /** The query: the fragments concatenated in order. */
    function ToString(): string
      reads this
    {
      Join(sb)
    }

    /** A new builder holding the receiver's fragments and `.`. */
    method AppendLocalPath() returns (r: XPathBuilder)
      ensures fresh(r)
      ensures r.sb == sb + ["."]
      decreases 1
    {
      r := new XPathBuilder(Some(sb + ["."]));
    }

    /** A new builder that selects the parent: `/..` is appended. */
    method GetParent() returns (r: XPathBuilder)
      ensures fresh(r)
      ensures r.sb == sb + ["/.."]
      ensures r.ToString() == ToString() + "/.."
    {
      AppendKeepsRendering(sb, "/..");
      r := new XPathBuilder(Some(sb + ["/.."]));
    }

    /** A new builder with the caller's XPath text appended verbatim. */
    method GetElementByXpath(xpath: string) returns (r: XPathBuilder)
      ensures fresh(r)
      ensures r.sb == sb + [xpath]
      ensures r.ToString() == ToString() + xpath
    {
      AppendKeepsRendering(sb, xpath);
      r := new XPathBuilder(Some(sb + [xpath]));
    }

    /**
     * The step methods (`getElementWithText`, `getAncestorByTagWithAttribute`,
     * …): a new builder with the template appended as written, the caller's
     * strings between apostrophes and unescaped.
     */
    method Step(axis: Axis, t: Template) returns (r: XPathBuilder)
      requires Offers(axis, t)
      ensures fresh(r)
      ensures r.sb == sb + [WrittenTemplateFragment(axis, t)]
      ensures r.ToString() == ToString() + WrittenTemplateFragment(axis, t)
    {
      var fragment := AxisPrefix(axis) + NodeTestText(TemplateTest(t)) + Bracket(WrittenConditionTexts(TemplateConditions(t)));
      AppendKeepsRendering(sb, fragment);
      r := new XPathBuilder(Some(sb + [fragment]));
    }
  }

  /**
   * The simple doc-comment example, built and read from the builder the step
   * returns: `//div[text()[contains(., 'div innerText')]]`.
   */
  method DocExample() returns (text: string)
    ensures text == "//div[text()[contains(., 'div innerText')]]"
  {
    var builder := new XPathBuilder(None);
    var div := builder.Step(Descendant, ByTagWithTextContains("div", "div innerText"));
    DocExampleText();
    assert div.sb == [] + [WrittenTemplateFragment(Descendant, ByTagWithTextContains("div", "div innerText"))];
    text := div.ToString();
  }

  /**
   * The doc-comment example as its text reads it: the step's result is
   * dropped and `xb` itself is rendered. Steps return a new builder and leave
   * the receiver as it is, so `xb` still renders as the empty string, while
   * the builder the step returned holds the documented text.
   */
  method DocExampleAsWritten() returns (text: string, returned: string)
    ensures text == ""
    ensures returned == "//div[text()[contains(., 'div innerText')]]"
  {
    var xb := new XPathBuilder(None);
    var dropped := xb.Step(Descendant, ByTagWithTextContains("div", "div innerText"));
    text := xb.ToString();
    DocExampleText();
    assert dropped.sb == [] + [WrittenTemplateFragment(Descendant, ByTagWithTextContains("div", "div innerText"))];
    returned := dropped.ToString();
  }

  /** The ancestor step of the chained doc-comment example, as written. */
  lemma AncestorExampleText()
    ensures WrittenTemplateFragment(Ancestor, ByTagWithAttribute("div", "class", "ancestor-div"))
         == "/ancestor::div[@class='ancestor-div']"
  {
    var t := ByTagWithAttribute("div", "class", "ancestor-div");
    var condition := WrittenConditionText(AttributeEquals("class", "ancestor-div"));
    var bracket := Bracket(WrittenConditionTexts(TemplateConditions(t)));
    assert bracket == "[" + condition + "]" by {
      assert TemplateConditions(t) == [AttributeEquals("class", "ancestor-div")];
      assert WrittenConditionTexts([AttributeEquals("class", "ancestor-div")]) == [condition];
      BracketOfOne(condition);
    }
    assert WrittenTemplateFragment(Ancestor, t) == "/ancestor::" + "div" + bracket by {
      assert AxisPrefix(Ancestor) == "/ancestor::" && NodeTestText(TemplateTest(t)) == "div";
    }
    assert condition == "@" + "class" + "=" + Quote("ancestor-div") + "";
    AncestorExampleLiteral(Quote("ancestor-div"), condition);
  }

  /** Solver aid: the ancestor step text spelt out as one literal. */
  lemma AncestorExampleLiteral(quoted: string, condition: string)
    requires quoted == "'ancestor-div'"
    requires condition == "@" + "class" + "=" + quoted + ""
    ensures "/ancestor::" + "div" + "[" + condition + "]" == "/ancestor::div[@class='ancestor-div']"
  {
  }

  /** Solver aid: the two step texts of the chained example, one after the other. */
  lemma ChainedExampleLiteral(first: string, second: string)
    requires first == "//div[text()[contains(., 'div innerText')]]"
    requires second == "/ancestor::div[@class='ancestor-div']"
    ensures "" + first + second == "//div[text()[contains(., 'div innerText')]]/ancestor::div[@class='ancestor-div']"
  {
  }

  /**
   * The chained doc-comment example, read from the builder the chain returns:
   * the step texts in call order, without the stray `);` of the comment.
   */
  method ChainedDocExample() returns (text: string)
    ensures text == "//div[text()[contains(., 'div innerText')]]/ancestor::div[@class='ancestor-div']"
  {
    var xb := new XPathBuilder(None);
    var div := xb.Step(Descendant, ByTagWithTextContains("div", "div innerText"));
    var ancestor := div.Step(Ancestor, ByTagWithAttribute("div", "class", "ancestor-div"));
    DocExampleText();
    AncestorExampleText();
    ChainedExampleLiteral(WrittenTemplateFragment(Descendant, ByTagWithTextContains("div", "div innerText")),
                          WrittenTemplateFragment(Ancestor, ByTagWithAttribute("div", "class", "ancestor-div")));
    text := ancestor.ToString();
  }
}
