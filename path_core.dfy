/**
 * The fragment an axis-step method appends to a path builder: an axis
 * prefix (sections 2.2 and 2.5 of the XPath 1.0 recommendation), a node
 * test, and an optional bracketed predicate built from a filter.
 */
module PathCore {
  import opened Options
  import opened Fragments
  import opened FilterCore

  /** The nine axes the path builders offer. */
  datatype Axis =
    | Descendant
    | DescendantOrSelf
    | Child
    | Ancestor
    | AncestorOrSelf
    | Following
    | FollowingSibling
    | Preceding
    | PrecedingSibling

  /** What a step selects on its axis: any element, elements with a tag, or SVG elements by local name. */
  datatype NodeTest = AnyElement | Tag(name: string) | SvgTag(name: string)

  /** The axis name, as section 2.2 of the XPath 1.0 recommendation spells it. */
  function AxisName(axis: Axis): string
  {
    match axis
    case Descendant => "descendant"
    case DescendantOrSelf => "descendant-or-self"
    case Child => "child"
    case Ancestor => "ancestor"
    case AncestorOrSelf => "ancestor-or-self"
    case Following => "following"
    case FollowingSibling => "following-sibling"
    case Preceding => "preceding"
    case PrecedingSibling => "preceding-sibling"
  }

  /** The text a step on the axis starts with. */
  function AxisPrefix(axis: Axis): string
  {
    match axis
    case Descendant => "//"
    case DescendantOrSelf => "/descendant-or-self::"
    case Child => "/"
    case Ancestor => "/ancestor::"
    case AncestorOrSelf => "/ancestor-or-self::"
    case Following => "/following::"
    case FollowingSibling => "/following-sibling::"
    case Preceding => "/preceding::"
    case PrecedingSibling => "/preceding-sibling::"
  }

  /**
   * Every prefix is a location step on its axis: the descendant axis uses the
   * abbreviation `//` and the child axis the abbreviation `/` (section 2.5 of
   * the XPath 1.0 recommendation); every other axis is spelt out in full.
   */
  lemma PrefixNamesAxis(axis: Axis)
    ensures axis == Descendant ==> AxisPrefix(axis) == "//"
    ensures axis == Child ==> AxisPrefix(axis) == "/"
    ensures axis != Descendant && axis != Child ==> AxisPrefix(axis) == "/" + AxisName(axis) + "::"
  {
    if axis == Following || axis == FollowingSibling || axis == Preceding || axis == PrecedingSibling {
      DocumentOrderPrefixes(axis);
    } else if axis != Descendant && axis != Child {
      NestingPrefixes(axis);
    }
  }

  lemma NestingPrefixes(axis: Axis)
    requires axis == DescendantOrSelf || axis == Ancestor || axis == AncestorOrSelf
    ensures AxisPrefix(axis) == "/" + AxisName(axis) + "::"
  {
    match axis
    case DescendantOrSelf => assert "/" + "descendant-or-self" + "::" == "/descendant-or-self::";
    case Ancestor => assert "/" + "ancestor" + "::" == "/ancestor::";
    case AncestorOrSelf => assert "/" + "ancestor-or-self" + "::" == "/ancestor-or-self::";
  }

  lemma DocumentOrderPrefixes(axis: Axis)
    requires axis == Following || axis == FollowingSibling || axis == Preceding || axis == PrecedingSibling
    ensures AxisPrefix(axis) == "/" + AxisName(axis) + "::"
  {
    match axis
    case Following => assert "/" + "following" + "::" == "/following::";
    case FollowingSibling => assert "/" + "following-sibling" + "::" == "/following-sibling::";
    case Preceding => assert "/" + "preceding" + "::" == "/preceding::";
    case PrecedingSibling => assert "/" + "preceding-sibling" + "::" == "/preceding-sibling::";
  }

  /** The node test text; an SVG tag is matched by local name, its name written between apostrophes. */
  function NodeTestText(test: NodeTest): string
  {
    match test
    case AnyElement => "*"
    case Tag(name) => name
    case SvgTag(name) => "*[local-name() = '" + name + "']"
  }

  /** computeFilter: nothing for an absent or empty filter, otherwise its rendering in brackets. */
  function Predicate(filter: Option<seq<string>>): string
  {
    if Filled(filter) then "[" + Join(filter.value) + "]" else ""
  }

  /** The predicate is suppressed exactly when the filter is absent or empty. */
  lemma PredicateSuppressedIff(filter: Option<seq<string>>)
    ensures Predicate(filter) == "" <==> !Filled(filter)
    ensures Filled(filter) ==> Predicate(filter) == "[" + Rendering(filter) + "]"
  {
  }

  /** The fragment one step appends. */
  function StepFragment(axis: Axis, test: NodeTest, filter: Option<seq<string>>): string
  {
    AxisPrefix(axis) + NodeTestText(test) + Predicate(filter)
  }

  /** A step on the descendant axis starts with `//`, whatever its node test and filter. */
  lemma DescendantStepStartsWithDoubleSlash(test: NodeTest, filter: Option<seq<string>>)
    ensures |StepFragment(Descendant, test, filter)| >= 2
    ensures StepFragment(Descendant, test, filter)[..2] == "//"
  {
  }

  /** Appending a fragment appends its text to the rendering, and the fragments before it are kept. */
  lemma AppendKeepsRendering(sb: seq<string>, fragment: string)
    ensures Join(sb + [fragment]) == Join(sb) + fragment
    ensures (sb + [fragment])[..|sb|] == sb
  {
    JoinSnoc(sb, fragment);
  }
}
