# xpath-helper, modelled in Dafny

xpath-helper builds XPath 1.0 query strings by chaining method calls. It does
not evaluate them. The repository holds four builders:

- the TypeScript package: a path builder `XPathHelper` and a filter builder
  `ValidExpressionFilter`/`EmptyFilter`;
- the earlier `src/index.ts`/`src/filter.ts`, whose steps take a filter
  *callback*;
- the Python port `xpath_helper.py`/`filter.py`;
- the first builder, `original.ts`, which writes fixed templates.

Every builder holds its query as a list of fragments. A step returns a new
builder, whose list is the receiver's list with the step's fragment appended.
`empty()` is the only method that changes a builder in place. The text of a
builder is its fragments concatenated in order.

The model has one module per concern:

| module | what it holds |
|---|---|
| `Fragments` | concatenation of fragment lists (`Join`) and joining with a separator (`JoinWith`) |
| `Literals` | `replaceApostrophes`: how a number or a string becomes an XPath literal or a `concat(...)` call. It also holds a small evaluator of such literals (section 3.7 of the XPath 1.0 recommendation, and `concat` in section 4.2) that the round trips are proved against. |
| `Primitives` | the fragment each primitive predicate writes (`hasAttribute`, `valueEquals`, `getFirst`, …) |
| `FilterCore` | the shared text of `not`, `and` and `or`, including the `addOpenrand` rule (an operand's text, then the separator unless it is the last operand) |
| `FilterBuilder` | the TypeScript filter classes, as a `class Filter` over a `seq<string>` field |
| `PyFilterBuilder` | the Python filter classes, whose `and`/`or` pick the last operand by object identity |
| `PathCore` | axis prefixes, node tests and the bracketed predicate of a step |
| `PathBuilder`, `CallbackPathBuilder`, `PyPathBuilder`, `OriginalPathBuilder` | the four path builders, each a class over a `seq<string>` field |

## Model

| member | source | states |
|---|---|---|
| Fragments.Join | javascript/xpath-helper/src/filter.ts:86-88 | The text of a one-fragment list is that fragment. |
| Fragments.JoinBlank | javascript/xpath-helper/src/filter.ts:103-105 | A fragment list renders as the empty string exactly when every fragment is blank. |
| Fragments.JoinConcat | javascript/xpath-helper/src/xpath-helper.ts:39-41 | The text of two fragment lists put together is the first text followed by the second. |
| Fragments.JoinWithEmptySeparator | python/xpath-helper/xpath_helper/filter.py:66-72 | Joining with the empty separator is plain concatenation. |
| Literals.Decimal | javascript/xpath-helper/src/filter.ts:368-370 | A number is written as a non-empty numeral that holds no apostrophe and no quotation mark. |
| Literals.DecimalRoundTrip | javascript/xpath-helper/src/filter.ts:368-370 | A written number parses back to the same integer, negative numbers included. |
| Literals.Split | javascript/xpath-helper/src/filter.ts:373 | Splitting on `'` gives at least one piece. No piece holds an apostrophe. There is exactly one piece exactly when the string has no apostrophe. |
| Literals.SplitJoin | javascript/xpath-helper/src/filter.ts:373 | Joining the pieces with `'` gives back the original string. |
| Literals.ConcatBodyStep | javascript/xpath-helper/src/filter.ts:376-379 | One more loop iteration appends `'piece'` and, except after the last piece, the `,"'",` separator. |
| Literals.ReplaceApostrophes | javascript/xpath-helper/src/filter.ts:367-390 | The loop writes exactly `Escape(input)`: a number as its numeral, a string without apostrophe between apostrophes, any other string as `concat('p1',"'",'p2',…)`. The `endsWith` trim branch is proved unreachable. |
| Literals.EscapeShape | javascript/xpath-helper/src/filter.ts:371-389 | A string without apostrophe is quoted as it is. A string with one becomes a `concat(` call over its quoted pieces. |
| Literals.ConcatExample | src/filter.ts:186-212 | `a'b` is written as `concat('a',"'",'b')`. |
| Literals.SplitExample | javascript/xpath-helper/src/filter.ts:373 | `a'b` splits into `a` and `b`. |
| Literals.EvalQuotedPieces | javascript/xpath-helper/src/filter.ts:374-386 | The arguments the loop writes evaluate to the pieces joined by `'`, with 2n-1 arguments for n pieces. |
| Literals.EscapeRoundTrip | javascript/xpath-helper/src/filter.ts:367-390 | Every escaped string evaluates, as an XPath literal or `concat` call, back to the original string, whatever characters it holds. |
| Literals.RawQuoteRoundTripIff | original.ts:54-56 | Putting a string between apostrophes unescaped reads back as that string exactly when it has no apostrophe. |
| Literals.RawQuoteBreaksOnApostrophe | original.ts:54-56 | `'it's'` is no literal. |
| Literals.DecimalIsNoLiteral | javascript/xpath-helper/src/filter.ts:368-370 | A written number is never read as a string literal, so numbers and strings cannot be confused. |
| Literals.ValueRoundTrip | javascript/xpath-helper/src/filter.ts:367-390 | Reading an escaped value gives back the value: a number as a number, a string as a string. |
| Primitives.Fragment | javascript/xpath-helper/src/filter.ts:138-330 | Every primitive predicate appends a non-empty fragment. |
| Primitives.FragmentParts | javascript/xpath-helper/src/filter.ts:138-330 | A primitive with a value argument writes its fixed lead, then the escaped argument, then its fixed trail. |
| Primitives.ArgumentReadsBack | javascript/xpath-helper/src/filter.ts:138-330 | The argument is recovered from between the lead and the trail of the written fragment. |
| FilterCore.AddOperandLast | javascript/xpath-helper/src/filter.ts:350-360 | The last operand contributes exactly its own text, without separator. |
| FilterCore.NotFragment | javascript/xpath-helper/src/filter.ts:338-340 | `not` appends `not( F )`, where F is the operand's text and is blank for a missing or empty operand. |
| FilterCore.NotOfEmpty | javascript/xpath-helper/src/filter.ts:338-340 | `not` of a missing or empty filter is `not(  )`. |
| FilterCore.PositionalLast | javascript/xpath-helper/src/filter.ts:55-58 | The operand at index `i` is treated as last exactly when `i` is the last index. |
| FilterCore.GroupOpen | javascript/xpath-helper/src/filter.ts:50-54 | A group opens with `(` on an empty filter, and with the separator and `(` otherwise. |
| FilterCore.GroupBodyConcat | javascript/xpath-helper/src/filter.ts:55-58 | The body of a concatenation of operand lists is the concatenation of their bodies. |
| FilterCore.EmptyOperandIsSkipped | javascript/xpath-helper/src/filter.ts:350-360 | A missing or empty operand contributes nothing: removing it leaves the body unchanged. |
| FilterCore.AllEmptyOperandsGiveEmptyBody | javascript/xpath-helper/src/filter.ts:49-60 | If every operand is missing or empty, the body is empty. |
| FilterCore.FilledGroupIsJoin | javascript/xpath-helper/src/filter.ts:55-58 | With every operand filled, the body is the operands' texts joined by the separator: the separator goes between operands and never after the last. |
| FilterCore.FilledPrefixEndsInSeparator | javascript/xpath-helper/src/filter.ts:55-58 | After k filled, non-last operands, the body so far is their texts joined by the separator, followed by one more separator. |
| FilterCore.EmptyLastOperandLeavesSeparator | javascript/xpath-helper/src/filter.ts:55-58 | When the last operand is empty and the one before it is filled, the body ends with a separator. |
| FilterCore.AndWithEmptyLastOperand | javascript/xpath-helper/src/filter.ts:49-60 | `and(hasAttribute("a"), <empty>)` has the body `@a and `. |
| FilterCore.GroupBodyGrows | javascript/xpath-helper/src/filter.ts:55-58 | The body built so far is never longer than the whole body. |
| FilterCore.FilledOperandShows | javascript/xpath-helper/src/filter.ts:350-360 | A body with a filled operand built from primitives is not empty. |
| FilterCore.EmptyBodyIff | javascript/xpath-helper/src/filter.ts:49-60 | For operands built from primitives, the body is empty exactly when every operand is missing or empty. |
| FilterCore.GroupFragments | javascript/xpath-helper/src/filter.ts:59 | `and`/`or` append two fragments, the second being `)`. |
| FilterCore.GroupRendering | javascript/xpath-helper/src/filter.ts:49-60 | With filled operands, the new text is the old text, the group opening, the operand texts joined by the separator, and `)`. |
| FilterCore.GroupKeepsBuilt | javascript/xpath-helper/src/filter.ts:49-60 | A filter whose fragments are all non-blank keeps that property after `and`/`or`. |
| FilterBuilder.Contents | javascript/xpath-helper/src/filter.ts:49 | The operand contents keep their order and their number. |
| FilterBuilder.Filter.constructor | javascript/xpath-helper/src/filter.ts:35-41 | A new filter holds the given fragments, or none when it is given none. |
| FilterBuilder.Filter.IsEmpty | javascript/xpath-helper/src/filter.ts:103-105 | An empty filter renders as the empty string. A filter built from primitives is empty exactly when its text is. |
| FilterBuilder.Filter.Empty | javascript/xpath-helper/src/filter.ts:94-96 | The filter is left with no fragment. |
| FilterBuilder.Filter.Add | javascript/xpath-helper/src/filter.ts:138-330 | A primitive returns a new filter: the receiver's fragments followed by the primitive's fragment. |
| FilterBuilder.Filter.Not | javascript/xpath-helper/src/filter.ts:338-340 | `not` returns a new filter: the receiver's fragments followed by `not( F )`. |
| FilterBuilder.Filter.And | javascript/xpath-helper/src/filter.ts:49-60 | `and` returns a new filter: the receiver's fragments, then the group joined by ` and `, then `)`. |
| FilterBuilder.Filter.Or | javascript/xpath-helper/src/filter.ts:68-79 | `or` returns a new filter: the receiver's fragments, then the group joined by ` or `, then `)`. |
| FilterBuilder.Filter.Group | javascript/xpath-helper/src/filter.ts:49-60 | The group opening (separator only on a non-empty receiver), then the operand body, then `)` as a separate fragment. |
| FilterBuilder.GroupBodyOf | javascript/xpath-helper/src/filter.ts:55-58 | The loop over the operands builds exactly the positional-rule body. |
| FilterBuilder.AddOperandOf | javascript/xpath-helper/src/filter.ts:350-360 | An operand filter contributes its text, followed by the separator unless it is last; a missing or empty one contributes nothing. |
| FilterBuilder.GroupOfTwo | javascript/xpath-helper/src/filter.ts:49-60 | A group of two one-fragment operands reads `(left SEP right)` after the receiver's text and opening. |
| FilterBuilder.GroupOfOne | javascript/xpath-helper/src/filter.ts:49-60 | A group of one operand reads `(right)`. |
| FilterBuilder.ComparisonFragments | javascript/xpath-helper/src/filter.ts:257-292 | `valueGreaterThan(14)` writes `text() >14` and `valueNotEquals(20)` writes `text() !=20`. |
| FilterBuilder.ChainedAndText | javascript/xpath-helper/test/filter.test.ts:136-139 | The text of `valueGreaterThan(14).and(valueNotEquals(20))`. |
| FilterBuilder.ChainedAndExample | javascript/xpath-helper/test/filter.test.ts:136-139 | Built, it reads `text() >14 and (text() !=20)`. |
| FilterBuilder.AndText | javascript/xpath-helper/src/filter.ts:49-60 | The text of `and(hasAttribute("a"), hasAttribute("b"))` on an empty filter. |
| FilterBuilder.AndExample | javascript/xpath-helper/src/filter.ts:49-60 | Built, it reads `(@a and @b)`. |
| FilterBuilder.NotText | javascript/xpath-helper/test/filter.test.ts:205-207 | The text of `not(attributeEquals("class", "st"))`. |
| FilterBuilder.NotExample | javascript/xpath-helper/test/filter.test.ts:205-207 | Built, it reads `not( @class='st' )`. |
| FilterBuilder.EmptyExample | javascript/xpath-helper/src/filter.ts:94-96 | A filter emptied in place renders as the empty string. |
| PyFilterBuilder.Contents | python/xpath-helper/xpath_helper/filter.py:30-46 | The operand contents keep their order and their number. |
| PyFilterBuilder.IdentityLast | python/xpath-helper/xpath_helper/filter.py:44 | The operand at index `i` is treated as last exactly when it is the same object as the last operand. |
| PyFilterBuilder.Filter.constructor | python/xpath-helper/xpath_helper/filter.py:21-28 | A new filter holds the given fragments, or none. |
| PyFilterBuilder.Filter.IsEmpty | python/xpath-helper/xpath_helper/filter.py:80-86 | An empty filter renders as the empty string. A filter built from primitives is empty exactly when its text is. |
| PyFilterBuilder.Filter.Empty | python/xpath-helper/xpath_helper/filter.py:75-78 | The filter is left with no fragment. |
| PyFilterBuilder.Filter.Add | python/xpath-helper/xpath_helper/filter.py:102-302 | A primitive returns a new filter: the receiver's fragments followed by the primitive's fragment. |
| PyFilterBuilder.Filter.NotExpression | python/xpath-helper/xpath_helper/filter.py:304-313 | `not_expression` appends `not( F )`. |
| PyFilterBuilder.Filter.AndCondition | python/xpath-helper/xpath_helper/filter.py:30-46 | `and_condition` appends the whole group, `)` included, as one fragment. Operands are joined by ` and ` under the identity rule. |
| PyFilterBuilder.Filter.OrCondition | python/xpath-helper/xpath_helper/filter.py:48-64 | `or_condition` does the same with ` or `. |
| PyFilterBuilder.Filter.Condition | python/xpath-helper/xpath_helper/filter.py:39-46 | The group opening, the body folded left to right, and `)`, as one fragment. |
| PyFilterBuilder.AddOperandOf | python/xpath-helper/xpath_helper/filter.py:317-334 | An operand's text, followed by the separator unless it is last; nothing for a missing or empty operand. |
| PyFilterBuilder.IdentityLastIff | python/xpath-helper/xpath_helper/filter.py:44 | The identity rule agrees with the positional rule exactly when the last operand object does not also appear earlier in the list. |
| PyFilterBuilder.AgreesWithPositionalRule | python/xpath-helper/xpath_helper/filter.py:30-46 | For distinct operand objects, the Python group renders exactly as the TypeScript group. |
| PyFilterBuilder.RepeatedOperandIsLastTwice | python/xpath-helper/xpath_helper/filter.py:44 | In `[a, b, a]`, both copies of `a` count as last. |
| PyFilterBuilder.RepeatedOperandLosesSeparator | python/xpath-helper/xpath_helper/filter.py:44 | Under the identity rule `[a, b, a]` gives `AB SEP A`; under the positional rule it gives `A SEP B SEP A`. |
| PyFilterBuilder.RepeatedOperandText | python/xpath-helper/xpath_helper/filter.py:30-46 | `and_condition(a, b, a)` on an empty filter renders as `(@a@b and @a)`, with filter.py:330 read as `str(filter)`. |
| PyFilterBuilder.RepeatedOperandExample | python/xpath-helper/xpath_helper/filter.py:30-46 | Built with real filter objects, with filter.py:330 read as `str(filter)`, it reads `(@a@b and @a)`. |
| PathCore.PrefixNamesAxis | javascript/xpath-helper/src/xpath-helper.ts:152-550 | Every step prefix is a location step on its axis: `//` for descendant, `/` for child, `/name::` for the other seven. |
| PathCore.PredicateSuppressedIff | javascript/xpath-helper/src/xpath-helper.ts:569-576 | The predicate is empty exactly when the filter is missing or empty; otherwise it is the filter's text between brackets. |
| PathCore.DescendantStepStartsWithDoubleSlash | javascript/xpath-helper/src/xpath-helper.ts:74-127 | Every descendant step starts with `//`, whatever its node test and filter. |
| PathCore.AppendKeepsRendering | javascript/xpath-helper/src/xpath-helper.ts:39-41 | Appending a fragment appends its text and keeps the earlier fragments. |
| PathBuilder.XPathHelper.constructor | javascript/xpath-helper/src/xpath-helper.ts:16-23 | A new helper holds the given fragments, or none. The local path is built on a throw-away helper. |
| PathBuilder.XPathHelper.Empty | javascript/xpath-helper/src/xpath-helper.ts:29-32 | The helper is left with no fragment. |
| PathBuilder.XPathHelper.AppendLocalPath | javascript/xpath-helper/src/xpath-helper.ts:558-560 | A new helper holding the receiver's fragments followed by `.`. |
| PathBuilder.XPathHelper.GetParent | javascript/xpath-helper/src/xpath-helper.ts:50-52 | The new helper's text is the receiver's text followed by `/..`. |
| PathBuilder.XPathHelper.GetElementByXpath | javascript/xpath-helper/src/xpath-helper.ts:60-62 | The new helper's text is the receiver's text followed by the caller's XPath, verbatim. |
| PathBuilder.XPathHelper.ComputeFilter | javascript/xpath-helper/src/xpath-helper.ts:569-576 | The suffix is the bracketed filter text, or nothing for a missing or empty filter. |
| PathBuilder.XPathHelper.Step | javascript/xpath-helper/src/xpath-helper.ts:152-550 | A step on any axis appends its axis prefix, node test and predicate as one fragment. |
| PathBuilder.XPathHelper.GetElement | javascript/xpath-helper/src/xpath-helper.ts:85-87 | `getElement` is the descendant step on any element. |
| PathBuilder.XPathHelper.GetElementByTag | javascript/xpath-helper/src/xpath-helper.ts:111-113 | `getElementByTag` is the descendant step on the tag. |
| PathBuilder.XPathHelper.GetElementBySVGTag | javascript/xpath-helper/src/xpath-helper.ts:137-139 | `getElementBySVGTag` is the descendant step on the SVG local name. |
| PathBuilder.TagExample | javascript/xpath-helper/src/xpath-helper.ts:96-101 | `getElementByTag("h1")` renders as `//h1`. |
| PathBuilder.TagWithFilterText | javascript/xpath-helper/src/xpath-helper.ts:569-576 | The text of `//body` filtered by `@x`. |
| PathBuilder.TagWithFilterExample | javascript/xpath-helper/src/xpath-helper.ts:569-576 | `getElementByTag("body", hasAttribute("x"))` renders as `//body[@x]`. |
| PathBuilder.EmptyExample | javascript/xpath-helper/test/xpath-helper.test.ts:31-39 | A helper reading `//a/..` renders as the empty string once emptied. |
| CallbackPathBuilder.WrittenSvgDescendantIsChildStep | src/index.ts:104-106 | As written, `getDescendantBySVGTag` produces the child-axis step: it starts with `/*`. |
| CallbackPathBuilder.WrittenSvgDescendantExample | src/index.ts:104-106 | As written, `getDescendantBySVGTag("svg")` renders as `/*[local-name() = 'svg']`. |
| CallbackPathBuilder.WrittenElsewhereAgrees | src/index.ts:63-402 | The written fragments equal the corrected ones exactly on the steps other than the SVG descendant step. |
| CallbackPathBuilder.CallbackDescendantStepStartsWithDoubleSlash | src/index.ts:63-117 | Corrected, every descendant step starts with `//`, the SVG step included. |
| CallbackPathBuilder.SpacedAgreesWithUnspaced | src/index.ts:416-423 | For a callback that returns a filter built from primitives, the spaced predicate `[ e ]` is suppressed exactly when the later helper's `[e]` is. Otherwise they differ only by the two spaces. |
| CallbackPathBuilder.BlankFragmentParts | src/index.ts:416-423 | The two rules part on a filter whose only fragment is blank: here nothing, in the later helper `[]`. |
| CallbackPathBuilder.XPathHelper.constructor | src/index.ts:10-17 | A new helper holds the given fragments, or none. |
| CallbackPathBuilder.XPathHelper.Empty | src/index.ts:22-25 | The helper is left with no fragment. |
| CallbackPathBuilder.XPathHelper.AppendLocalPath | src/index.ts:412-414 | A new helper holding the receiver's fragments followed by `.`. |
| CallbackPathBuilder.XPathHelper.GetParent | src/index.ts:41-43 | The new text is the old text followed by `/..`. |
| CallbackPathBuilder.XPathHelper.GetElementByXpath | src/index.ts:50-52 | The new text is the old text followed by the caller's XPath. |
| CallbackPathBuilder.XPathHelper.ComputeFilter | src/index.ts:416-423 | The callback is handed an empty filter. The suffix is empty exactly when there is no callback or its filter's text is blank; otherwise it is `[ text ]`. |
| CallbackPathBuilder.XPathHelper.Step | src/index.ts:63-402 | A step appends its axis prefix, node test and spaced predicate as one fragment, as written. `getDescendantBySVGTag` starts with a single `/`. |
| CallbackPathBuilder.XPathHelper.GetElement | src/index.ts:73-75 | `getElement` is the descendant step on any element, starting with `//`. |
| CallbackPathBuilder.XPathHelper.GetElementByTag | src/index.ts:94-96 | `getElementByTag` is the descendant step on the tag, starting with `//`. |
| CallbackPathBuilder.XPathHelper.GetElementBySVGTag | src/index.ts:115-117 | `getElementBySVGTag` is `getDescendantBySVGTag` as written, single `/` included. |
| CallbackPathBuilder.CallbackStepText | src/index.ts:416-423 | The written text of `//p` with a callback adding `@x`. |
| CallbackPathBuilder.CallbackExample | src/index.ts:94-96 | `getElementByTag("p", f => f.hasAttribute("x"))` renders as `//p[ @x ]`. |
| CallbackPathBuilder.SvgExample | src/index.ts:115-117 | Built, `getElementBySVGTag("svg")` reads `/*[local-name() = 'svg']`, as written. |
| PyPathBuilder.XPathHelper.constructor | python/xpath-helper/xpath_helper/xpath_helper.py:12-22 | A new helper holds the given fragments, or none. |
| PyPathBuilder.XPathHelper.Empty | python/xpath-helper/xpath_helper/xpath_helper.py:24-28 | The helper is left with no fragment. |
| PyPathBuilder.XPathHelper.AppendLocalPath | python/xpath-helper/xpath_helper/xpath_helper.py:493-499 | A new helper holding the receiver's fragments followed by `.`. |
| PyPathBuilder.XPathHelper.GetParent | python/xpath-helper/xpath_helper/xpath_helper.py:40-46 | The new text is the old text followed by `/..`. |
| PyPathBuilder.XPathHelper.GetElementByXpath | python/xpath-helper/xpath_helper/xpath_helper.py:48-57 | The new text is the old text followed by the caller's XPath. |
| PyPathBuilder.XPathHelper.ComputeFilter | python/xpath-helper/xpath_helper/xpath_helper.py:501-515 | The suffix is the bracketed filter text, or nothing for a missing or empty filter. |
| PyPathBuilder.XPathHelper.Step | python/xpath-helper/xpath_helper/xpath_helper.py:141-491 | A step appends its axis prefix, node test and predicate as one fragment. |
| PyPathBuilder.XPathHelper.GetElement | python/xpath-helper/xpath_helper/xpath_helper.py:74-84 | `get_element` is the descendant step on any element. |
| PyPathBuilder.XPathHelper.GetElementByTag | python/xpath-helper/xpath_helper/xpath_helper.py:98-109 | `get_element_by_tag` is the descendant step on the tag. |
| PyPathBuilder.XPathHelper.GetElementBySvgTag | python/xpath-helper/xpath_helper/xpath_helper.py:123-134 | `get_element_by_svg_tag` is the descendant step on the SVG local name. |
| PyPathBuilder.ChainRendersInOrder | python/xpath-helper/xpath_helper/xpath_helper.py:30-36 | Two chained steps render as the old text followed by both fragments, in call order. |
| PyPathBuilder.ChildChainText | python/xpath-helper/xpath_helper/xpath_helper.py:194-204 | The text of `//ul` followed by `/li`. |
| PyPathBuilder.ChildChainExample | python/xpath-helper/xpath_helper/xpath_helper.py:194-204 | `get_element_by_tag("ul").get_child_by_tag("li")` renders as `//ul/li`. |
| OriginalPathBuilder.TemplateConditions | original.ts:54-243 | A template writes at most two conditions. |
| OriginalPathBuilder.WrittenConditionReadsBackIff | original.ts:54-56 | As written, a condition's string reads back from the condition exactly when it has no apostrophe. |
| OriginalPathBuilder.ConditionReadsBack | original.ts:54-56 | Escaped, a condition's string always reads back. |
| OriginalPathBuilder.WrittenApostropheExample | original.ts:54-56 | As written, `getElementWithText("it's")` gives `//*[text() = 'it's']`, whose `'it's'` is no literal. |
| OriginalPathBuilder.WrittenAgreesWithoutApostrophe | original.ts:54-790 | Where no string holds an apostrophe, the escaped template is exactly the template as written. |
| OriginalPathBuilder.PrimitiveWritesCondition | original.ts:54-243 | Escaped, each condition with a matching primitive of the later filter builder writes the same text as that primitive, whatever the string holds. |
| OriginalPathBuilder.SingleConditionIsFilteredStep | original.ts:54-790 | Escaped, a one-condition template is the later helper's step filtered by that primitive. |
| OriginalPathBuilder.WrittenPrimitiveWritesCondition | original.ts:54-243 | As written, a condition writes the same text as its primitive when its string has no apostrophe. |
| OriginalPathBuilder.WrittenSingleConditionIsFilteredStep | original.ts:54-790 | As written, a one-condition template is the later helper's step filtered by that primitive when its string has no apostrophe. |
| OriginalPathBuilder.BareTemplateIsUnfilteredStep | original.ts:93-104 | A template without conditions is the later helper's unfiltered step. |
| OriginalPathBuilder.TwoConditionsShareBracket | original.ts:144-147 | A two-condition template writes both conditions in one bracket, joined by ` and `: as written, and with the strings escaped. |
| OriginalPathBuilder.DocExampleText | original.ts:15 | As written, `getElementByTagWithTextContains("div", "div innerText")` gives `//div[text()[contains(., 'div innerText')]]`. |
| OriginalPathBuilder.DocExampleCondition | original.ts:84-86 | As written, the condition of that example reads `text()[contains(., 'div innerText')]`. |
| OriginalPathBuilder.DocExampleNeedsNoEscape | original.ts:15 | The doc example has no apostrophe, so the escaped and the written templates are the same text. |
| OriginalPathBuilder.XPathBuilder.constructor | original.ts:30-37 | A new builder holds the given fragments, or none. |
| OriginalPathBuilder.XPathBuilder.Empty | original.ts:39-42 | The builder is left with no fragment. |
| OriginalPathBuilder.XPathBuilder.AppendLocalPath | original.ts:810-812 | A new builder holding the receiver's fragments followed by `.`. |
| OriginalPathBuilder.XPathBuilder.GetParent | original.ts:797-799 | The new text is the old text followed by `/..`. |
| OriginalPathBuilder.XPathBuilder.GetElementByXpath | original.ts:806-808 | The new text is the old text followed by the caller's XPath. |
| OriginalPathBuilder.XPathBuilder.Step | original.ts:54-790 | A step method that exists on its axis appends its template as written, with the strings unescaped, as one fragment. |
| OriginalPathBuilder.DocExample | original.ts:7-24 | Built and read from the builder the step returns, the simple example reads `//div[text()[contains(., 'div innerText')]]`. |
| OriginalPathBuilder.DocExampleAsWritten | original.ts:7-15 | As written, the example renders `xb`, which the step leaves unchanged, so it reads the empty string; the builder the step returns reads `//div[text()[contains(., 'div innerText')]]`. |
| OriginalPathBuilder.AncestorExampleText | original.ts:316-319 | As written, `getAncestorByTagWithAttribute("div", "class", "ancestor-div")` gives `/ancestor::div[@class='ancestor-div']`. |
| OriginalPathBuilder.ChainedDocExample | original.ts:17-25 | Read from the builder the chain returns, the chained example reads the two step texts in call order, `//div[text()[contains(., 'div innerText')]]/ancestor::div[@class='ancestor-div']`, without the comment's trailing `);`. |

## Left out

- XPath evaluation against a document is left out. The builders only produce text. The only evaluator here reads string literals and `concat` calls back, to state the escaping round trip.
- The primitive predicate methods are one `Add(p)` over a `Primitive` datatype. The axis-step methods are one `Step(axis, test, filter)` over an `Axis`/`NodeTest` pair. The `original.ts` step methods are one `Step(axis, template)` over the fifteen templates.
- Numbers are integers. A JavaScript or Python float argument, such as `valueEquals(1.5)`, and its decimal or exponent printing are not modelled.
- Tag names, SVG tag names and attribute names are inserted raw, as the source does. Names holding an apostrophe or a bracket are not escaped.
- The `.` local-path fragment is built on a helper that is thrown away, as the source does. Its own text is not modelled beyond that fragment.
- Array aliasing of the fragment list passed to a constructor is not modelled. Fragment lists are values, so a caller who mutates the array afterwards is not captured.
- The `Object.freeze` singletons `xh` and `filter` (javascript/xpath-helper/src/xpath-helper.ts:579-580) are left out. A frozen object only makes `empty()` on them fail, and JavaScript's freezing is not modelled.
- The split into `ValidExpressionFilter`/`EmptyFilter` and `FilledFilter`/`Filter` is left out, and each pair is one `Filter` class. In the source, the primitives and `not` are defined only on the empty-filter subclass and return the base class. See javascript/xpath-helper/src/filter.ts:114, 139 and 339, src/filter.ts:83, 98 and 170, and python/xpath-helper/xpath_helper/filter.py:92, 111 and 313. So a built filter offers no primitive and no `not`.
- FilterBuilder.Filter.Add, FilterBuilder.Filter.Not: the merged class offers these on every filter, so the model accepts chains such as `hasAttribute("a").hasAttribute("b")` and renders `@a@b`. The TypeScript source rejects such a chain at compile time.
- PyFilterBuilder.Filter.Add, PyFilterBuilder.Filter.NotExpression: likewise, the model accepts `Filter(None).has_attribute("a").has_attribute("b")`. The Python source raises `AttributeError`, because a `FilledFilter` has no `has_attribute` (nor `not_expression`).
- The Python class-level `sb = []` default is left out. A helper or filter built without a list gets a fresh empty one, as every method appends by building a new list and never mutates the shared one.
- The `src/index.ts` filter callback (`FilterClbck`) is a function on fragment lists. A callback that mutates the filter it is handed, or that returns a different object, is captured only through the fragments it returns.
- Several Python defects that raise at run time are modelled as the evidently intended behaviour:
  - `__str__` calls `self.sb.join("")` on a list (python/xpath-helper/xpath_helper/filter.py:72);
  - `replace_apostrophes` is called with two arguments (filter.py:123-230);
  - `endsWith`/`substring` are called on a str (filter.py:356-357);
  - `str + int` is used in the numeric comparisons and `get` (filter.py:161-285);
  - `.toString()` is called in `add_openrand` (filter.py:330).
- The import of `ValidExpressionFilter` in python/xpath-helper/xpath_helper/xpath_helper.py:2, a name `filter.py` does not define, is left out. The model's Python helper takes the Python `Filter` class.

## Findings

| source | as written | input that shows it | evidently intended | confidence | as-written member | corrected member |
|---|---|---|---|---|---|---|
| original.ts:54-56 (and every template, e.g. 116, 129) | the caller's string is put between apostrophes unescaped | `getElementWithText("it's")` gives `//*[text() = 'it's']`, which is no valid literal | an XPath literal that reads back as the string, as `replaceApostrophes` writes later | not executed | OriginalPathBuilder.WrittenConditionReadsBackIff | OriginalPathBuilder.ConditionReadsBack |
| python/xpath-helper/xpath_helper/filter.py:44 (and 62) | an operand counts as last when `filter == filters[-1]`, i.e. when it is the same object as the last operand | `and_condition(a, b, a)` with `a = has_attribute("a")`, `b = has_attribute("b")`: as written, the first non-empty operand already raises `AttributeError` at filter.py:330 (`filter.toString()`); once that call is read as `str(filter)`, as this model reads it (see "## Left out"), the group is `(@a@b and @a)` | the positional rule of the TypeScript builder: `(@a and @b and @a)` | not executed | PyFilterBuilder.RepeatedOperandLosesSeparator | FilterCore.FilledGroupIsJoin |
| original.ts:7-25 (and "returns this" at 52, 61, 70, …) | the comments say each step returns `this`, and both examples call steps on `xb`, drop the result, and render `xb`; but every step returns a new builder (e.g. line 55) and leaves `xb` as it is | the simple example renders `""`, not `//div[text()[contains(., 'div innerText')]]` | render the builder the call chain returns | not executed | OriginalPathBuilder.DocExampleAsWritten | OriginalPathBuilder.DocExample |
| src/index.ts:105 | `getDescendantBySVGTag` starts its fragment with a single `/` | `new XPathHelper().getDescendantBySVGTag("svg")` gives `/*[local-name() = 'svg']`, which selects children only | `//*[local-name() = 'svg']`, as every other descendant step and the later helper write | not executed | CallbackPathBuilder.WrittenSvgDescendantIsChildStep | CallbackPathBuilder.CallbackDescendantStepStartsWithDoubleSlash |
