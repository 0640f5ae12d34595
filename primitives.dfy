/**
 * The primitive predicates of the filter builders, shared by the TypeScript
 * package, the earlier `src/filter.ts` and the Python port: each appends one
 * fragment built from fixed text and the caller's escaped value.
 */
module Primitives {
  import opened Options
  import opened Literals

  /** One primitive predicate method of the filter builder, with its arguments. */
  datatype Primitive =
    | HasAttribute(attribute: string)
    | AttributeContains(attribute: string, text: string)
    | AttributeEquals(attribute: string, value: Value)
    | AttributeNotEquals(attribute: string, value: Value)
    | AttributeLessThan(attribute: string, number: int)
    | AttributeLessThanOrEqualTo(attribute: string, number: int)
    | AttributeGreaterThan(attribute: string, number: int)
    | AttributeGreaterThanOrEqualTo(attribute: string, number: int)
    | ValueContains(text: string)
    | ValueEquals(value: Value)
    | ValueNotEquals(value: Value)
    | ValueLessThan(number: int)
    | ValueLessThanOrEqualTo(number: int)
    | ValueGreaterThan(number: int)
    | ValueGreaterThanOrEqualTo(number: int)
    | Get(index: int)
    | GetFirst
    | GetLast

  /** The single fragment each primitive appends. Strings are escaped, numbers are written as numerals. */
  function Fragment(p: Primitive): (r: string)
    ensures |r| > 0
  {
    match p
    case HasAttribute(a) => "@" + a
    case AttributeContains(a, t) => "contains(@" + a + ", " + Escape(Str(t)) + ")"
    case AttributeEquals(a, v) => "@" + a + "=" + Escape(v)
    case AttributeNotEquals(a, v) => "@" + a + "!=" + Escape(v)
    case AttributeLessThan(a, n) => "@" + a + "<" + Decimal(n)
    case AttributeLessThanOrEqualTo(a, n) => "@" + a + "<=" + Decimal(n)
    case AttributeGreaterThan(a, n) => "@" + a + ">" + Decimal(n)
    case AttributeGreaterThanOrEqualTo(a, n) => "@" + a + ">=" + Decimal(n)
    case ValueContains(t) => "text()[contains(., " + Escape(Str(t)) + ")]"
    case ValueEquals(v) => "text() = " + Escape(v)
    case ValueNotEquals(v) => "text() !=" + Escape(v)
    case ValueLessThan(n) => "text() <" + Decimal(n)
    case ValueLessThanOrEqualTo(n) => "text() <=" + Decimal(n)
    case ValueGreaterThan(n) => "text() >" + Decimal(n)
    case ValueGreaterThanOrEqualTo(n) => "text() >=" + Decimal(n)
    case Get(i) => Decimal(i)
    case GetFirst => "1"
    case GetLast => "last()"
  }

  /** The value the caller passed to a primitive, if it takes one (numbers included). */
  function Argument(p: Primitive): Option<Value>
  {
    match p
    case AttributeContains(_, t) => Some(Str(t))
    case AttributeEquals(_, v) => Some(v)
    case AttributeNotEquals(_, v) => Some(v)
    case AttributeLessThan(_, n) => Some(Num(n))
    case AttributeLessThanOrEqualTo(_, n) => Some(Num(n))
    case AttributeGreaterThan(_, n) => Some(Num(n))
    case AttributeGreaterThanOrEqualTo(_, n) => Some(Num(n))
    case ValueContains(t) => Some(Str(t))
    case ValueEquals(v) => Some(v)
    case ValueNotEquals(v) => Some(v)
    case ValueLessThan(n) => Some(Num(n))
    case ValueLessThanOrEqualTo(n) => Some(Num(n))
    case ValueGreaterThan(n) => Some(Num(n))
    case ValueGreaterThanOrEqualTo(n) => Some(Num(n))
    case Get(i) => Some(Num(i))
    case _ => None
  }

  /** The fixed text a primitive writes before its argument. */
  function Lead(p: Primitive): string
  {
    match p
    case AttributeContains(a, _) => "contains(@" + a + ", "
    case AttributeEquals(a, _) => "@" + a + "="
    case AttributeNotEquals(a, _) => "@" + a + "!="
    case AttributeLessThan(a, _) => "@" + a + "<"
    case AttributeLessThanOrEqualTo(a, _) => "@" + a + "<="
    case AttributeGreaterThan(a, _) => "@" + a + ">"
    case AttributeGreaterThanOrEqualTo(a, _) => "@" + a + ">="
    case ValueContains(_) => "text()[contains(., "
    case ValueEquals(_) => "text() = "
    case ValueNotEquals(_) => "text() !="
    case ValueLessThan(_) => "text() <"
    case ValueLessThanOrEqualTo(_) => "text() <="
    case ValueGreaterThan(_) => "text() >"
    case ValueGreaterThanOrEqualTo(_) => "text() >="
    case _ => ""
  }

  /** The fixed text a primitive writes after its argument. */
  function Trail(p: Primitive): string
  {
    match p
    case AttributeContains(_, _) => ")"
    case ValueContains(_) => ")]"
    case _ => ""
  }

  /** A primitive that takes a value writes the fixed lead, the escaped value, then the fixed trail. */
  lemma FragmentParts(p: Primitive)
    requires Argument(p).Some?
    ensures Fragment(p) == Lead(p) + Escape(Argument(p).value) + Trail(p)
  {
    match p
    case AttributeContains(_, _) =>
    case ValueContains(_) =>
    case HasAttribute(_) =>
    case GetFirst =>
    case GetLast =>
    case _ =>
      assert Fragment(p) == Lead(p) + Escape(Argument(p).value);
  }

  lemma SliceBetween(lead: string, text: string, trail: string)
    ensures (lead + text + trail)[|lead|..|lead + text + trail| - |trail|] == text
  {
  }

  /**
   * The argument can be recovered from the fragment: the text between the
   * fixed lead and trail reads back as the value the caller passed, so a
   * string is never cut short by an apostrophe and a number is a numeral.
   */
  lemma ArgumentReadsBack(p: Primitive)
    requires Argument(p).Some?
    ensures |Lead(p)| + |Trail(p)| <= |Fragment(p)|
    ensures ReadValue(Fragment(p)[|Lead(p)|..|Fragment(p)| - |Trail(p)|]) == Argument(p).value
  {
    FragmentParts(p);
    SliceBetween(Lead(p), Escape(Argument(p).value), Trail(p));
    ValueRoundTrip(Argument(p).value);
  }
}
