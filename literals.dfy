/**
 * String literals inside filter expressions.
 *
 * The filter builders never put a caller's text straight into the query: a
 * string goes through `replaceApostrophes`, which writes an XPath 1.0 string
 * literal (section 3.7 of the XPath 1.0 recommendation: a run of characters
 * between two apostrophes or between two quotation marks). A literal cannot
 * hold its own delimiter, so a string containing `'` becomes a call of the
 * core function `concat` (section 4.2) whose arguments are the pieces between
 * the apostrophes, each single-quoted, alternating with the literal `"'"`.
 * Numbers are not quoted at all.
 *
 * `EvalLiteral` below is an independent reference: a small evaluator for the
 * literal and `concat(...)` forms, used to prove that the escaped text reads
 * back as the caller's string.
 */
module Literals {
  import opened Options
  import opened Fragments

  /** A value argument: the sources accept `string | number`. */
  datatype Value = Str(s: string) | Num(n: int)

  const Apostrophe: char := '\''
  const Quotation: char := '"'

  /** The argument `,"'",` placed between the pieces of a `concat(...)`. */
  const ConcatSeparator: string := ",\"'\","

  /* ---------------- numbers ---------------- */

  function DigitChar(d: nat): (c: char)
    requires d < 10
    ensures '0' <= c <= '9'
  {
    (48 + d) as char
  }

  /** Decimal digits of a natural number, most significant first. */
  function Digits(n: nat): (r: string)
    ensures |r| > 0
    ensures forall i :: 0 <= i < |r| ==> '0' <= r[i] <= '9'
    decreases n
  {
    if n < 10 then [DigitChar(n)] else Digits(n / 10) + [DigitChar(n % 10)]
  }

  /**
   * The text `"" + n` gives for an integer `n` (the sources' number-to-string
   * conversion, restricted to integers).
   */
  function Decimal(n: int): (r: string)
    ensures |r| > 0 && Apostrophe !in r && Quotation !in r
  {
    if n < 0 then "-" + Digits(-n) else Digits(n)
  }

  /** Value of a run of decimal digits; reference reading for `Decimal`. */
  function DigitsValue(s: string): int
  {
    if |s| == 0 then 0 else DigitsValue(s[..|s| - 1]) * 10 + (s[|s| - 1] as int - 48)
  }

  /** Reads an optionally signed decimal numeral. */
  function ParseDecimal(s: string): int
  {
    if |s| > 0 && s[0] == '-' then -DigitsValue(s[1..]) else DigitsValue(s)
  }

  lemma {:induction false} DigitsRoundTrip(n: nat)
    ensures DigitsValue(Digits(n)) == n
    decreases n
  {
    if n >= 10 {
      DigitsRoundTrip(n / 10);
      var d := Digits(n / 10) + [DigitChar(n % 10)];
      assert d[..|d| - 1] == Digits(n / 10);
    }
  }

  /** The numeral a number is rendered as reads back as that number. */
  lemma DecimalRoundTrip(n: int)
    ensures ParseDecimal(Decimal(n)) == n
  {
    if n < 0 {
      DigitsRoundTrip(-n);
      assert ("-" + Digits(-n))[1..] == Digits(-n);
    } else {
      DigitsRoundTrip(n);
    }
  }

  /* ---------------- splitting on apostrophes ---------------- */

  /** `s.split("'")`: the maximal apostrophe-free pieces of `s`, in order. */
  function Split(s: string): (pieces: seq<string>)
    ensures |pieces| >= 1
    ensures forall i :: 0 <= i < |pieces| ==> Apostrophe !in pieces[i]
    ensures |pieces| == 1 <==> Apostrophe !in s
    decreases |s|
  {
    if |s| == 0 then [""]
    else
      var rest := Split(s[1..]);
      assert s == [s[0]] + s[1..];
      if s[0] == Apostrophe then [""] + rest
      else [[s[0]] + rest[0]] + rest[1..]
  }

  /** Joining the pieces back with `'` gives the original string. */
  lemma {:induction false} SplitJoin(s: string)
    ensures JoinWith(Split(s), [Apostrophe]) == s
    decreases |s|
  {
    if |s| > 0 {
      var rest := Split(s[1..]);
      var sep := [Apostrophe];
      SplitJoin(s[1..]);
      assert s == [s[0]] + s[1..];
      if s[0] == Apostrophe {
        assert Split(s) == [""] + rest;
        JoinWithCons("", rest, sep);
      } else if |rest| == 1 {
        assert Split(s) == [[s[0]] + rest[0]];
      } else {
        assert Split(s) == [[s[0]] + rest[0]] + rest[1..];
        JoinWithCons([s[0]] + rest[0], rest[1..], sep);
        assert JoinWith(rest, sep) == rest[0] + sep + JoinWith(rest[1..], sep) by {
          assert rest == [rest[0]] + rest[1..];
          JoinWithCons(rest[0], rest[1..], sep);
        }
        ConcatAssoc([s[0]], rest[0], sep);
      }
    }
  }

  /* ---------------- escaping ---------------- */

  /** `'` + p + `'`: a single-quoted XPath literal. */
  function Quote(p: string): string
  {
    [Apostrophe] + p + [Apostrophe]
  }

  function QuoteAll(pieces: seq<string>): (r: seq<string>)
    ensures |r| == |pieces|
    ensures forall i :: 0 <= i < |pieces| ==> r[i] == Quote(pieces[i])
  {
    seq(|pieces|, i requires 0 <= i < |pieces| => Quote(pieces[i]))
  }

  /**
   * What `replaceApostrophes` yields, once the caller has concatenated it into
   * a fragment: numbers as numerals, apostrophe-free strings single-quoted,
   * other strings as a `concat` of their single-quoted pieces.
   */
  function Escape(v: Value): string
  {
    match v
    case Num(n) => Decimal(n)
    case Str(s) =>
      if Apostrophe in s then "concat(" + JoinWith(QuoteAll(Split(s)), ConcatSeparator) + ")"
      else Quote(s)
  }

  /** One more piece: the `concat` body grows by the separator (after the first piece) and that piece quoted. */
  lemma ConcatBodyStep(pieces: seq<string>, k: nat)
    requires k < |pieces|
    ensures JoinWith(QuoteAll(pieces[..k + 1]), ConcatSeparator)
         == JoinWith(QuoteAll(pieces[..k]), ConcatSeparator)
            + (if k == 0 then "" else ConcatSeparator) + Quote(pieces[k])
  {
    assert QuoteAll(pieces[..k + 1]) == QuoteAll(pieces[..k]) + [Quote(pieces[k])];
    if k > 0 {
      JoinWithSnoc(QuoteAll(pieces[..k]), Quote(pieces[k]), ConcatSeparator);
    } else {
      assert QuoteAll(pieces[..k + 1]) == [Quote(pieces[k])];
    }
  }

  /**
   * replaceApostrophes: the loop over the split pieces accumulates `output`,
   * with `prefix` empty before the first piece and `,"'",` afterwards. A
   * number is returned unchanged; the callers' `+` then renders it as
   * `Decimal(n)`, which is what is returned here.
   */
  method ReplaceApostrophes(input: Value) returns (output: string)
    ensures output == Escape(input)
  {
    if input.Num? {
      return Decimal(input.n);
    }
    var s := input.s;
    if Apostrophe in s {
      var prefix := "";
      var elements := Split(s);
      output := "concat(";
      for k := 0 to |elements|
        invariant prefix == if k == 0 then "" else ConcatSeparator
        invariant output == "concat(" + JoinWith(QuoteAll(elements[..k]), ConcatSeparator)
        invariant k > 0 ==> output[|output| - 1] == Apostrophe
      {
        ConcatBodyStep(elements, k);
        output := output + prefix + Quote(elements[k]);
        prefix := ConcatSeparator;
      }
      assert elements[..|elements|] == elements;
      // The truncation `output.substring(0, output.length - 2)` guarded by
      // `output.endsWith(",")` can never run: the last piece ends in `'`.
      if output[|output| - 1] == ',' {
        assert false;
      }
      output := output + ")";
    } else {
      output := Quote(s);
    }
  }

  /**
   * The shape of an escaped string: apostrophe-free strings are wrapped in
   * single quotes; any other string becomes `concat(` + its quoted pieces
   * joined by `,"'",` + `)`, where no piece holds an apostrophe and the pieces
   * joined by `'` give back the string.
   */
  lemma EscapeShape(s: string)
    ensures Apostrophe !in s ==> Escape(Str(s)) == Quote(s)
    ensures Apostrophe in s ==>
      var pieces := Split(s);
      && |pieces| >= 2
      && Escape(Str(s)) == "concat(" + JoinWith(QuoteAll(pieces), ConcatSeparator) + ")"
      && (forall i :: 0 <= i < |pieces| ==> Apostrophe !in pieces[i])
      && JoinWith(pieces, [Apostrophe]) == s
  {
    SplitJoin(s);
  }

  /** The worked example: `a'b` becomes `concat('a',"'",'b')`. */
  lemma ConcatExample()
    ensures Escape(Str("a'b")) == "concat('a',\"'\",'b')"
  {
    assert "a'b"[1] == Apostrophe;
    SplitExample();
    var arguments := JoinWith(QuoteAll(["a", "b"]), ConcatSeparator);
    assert arguments == "'a'" + ConcatSeparator + "'b'" by {
      assert Quote("a") == "'a'" && Quote("b") == "'b'";
      assert QuoteAll(["a", "b"]) == ["'a'", "'b'"];
      JoinWithCons("'a'", ["'b'"], ConcatSeparator);
    }
    ConcatExampleText(arguments);
  }

  /** `a'b` splits into `a` and `b`. */
  lemma SplitExample()
    ensures Split("a'b") == ["a", "b"]
  {
    assert "b"[1..] == "" && "'b"[1..] == "b" && "a'b"[1..] == "'b";
    assert Split("") == [""];
    assert "b"[0] == 'b' && ['b'] + "" == "b";
    assert Split("b") == [['b'] + Split("")[0]] + Split("")[1..];
    assert Split("b") == ["b"];
    assert Split("'b") == ["", "b"];
    assert "a'b"[0] == 'a' && ['a'] + "" == "a";
    assert Split("a'b") == [['a'] + Split("'b")[0]] + Split("'b")[1..];
  }

  /** Solver aid: the `concat` call of the example spelt out as one literal. */
  lemma ConcatExampleText(arguments: string)
    requires arguments == "'a'" + ConcatSeparator + "'b'"
    ensures "concat(" + arguments + ")" == "concat('a',\"'\",'b')"
  {
  }

  /* ---------------- reading literals back ---------------- */

  /** Splits `e` at its first `q`: the text before it and the text after it. */
  function Until(e: string, q: char): (r: Option<(string, string)>)
    ensures r.Some? ==> |r.value.1| < |e|
    decreases |e|
  {
    if |e| == 0 then None
    else if e[0] == q then Some(([], e[1..]))
    else
      match Until(e[1..], q)
      case None => None
      case Some((c, rest)) => Some(([e[0]] + c, rest))
  }

  /** `Until` finds the first `q`: nothing before it is a `q`, and the parts rebuild `e`. */
  lemma {:induction false} UntilSpec(e: string, q: char)
    ensures Until(e, q).None? <==> q !in e
    ensures Until(e, q).Some? ==>
      q !in Until(e, q).value.0 && e == Until(e, q).value.0 + [q] + Until(e, q).value.1
    decreases |e|
  {
    if |e| > 0 && e[0] != q {
      UntilSpec(e[1..], q);
      assert e == [e[0]] + e[1..];
    }
  }

  lemma FirstOccurrenceUnique(c: string, r1: string, p: string, r2: string, q: char)
    requires q !in c && q !in p
    requires c + [q] + r1 == p + [q] + r2
    ensures c == p && r1 == r2
  {
    var e := c + [q] + r1;
    assert forall i :: 0 <= i < |c| ==> e[i] != q;
    assert forall i :: 0 <= i < |p| ==> e[i] != q;
    assert e[|c|] == q && e[|p|] == q;
    assert c == e[..|c|] == p;
    assert r1 == e[|c| + 1..] == r2;
  }

  lemma UntilOf(p: string, q: char, rest: string)
    requires q !in p
    ensures Until(p + [q] + rest, q) == Some((p, rest))
  {
    var r := Until(p + [q] + rest, q);
    UntilSpec(p + [q] + rest, q);
    assert (p + [q] + rest)[|p|] == q;
    FirstOccurrenceUnique(r.value.0, r.value.1, p, rest, q);
  }

  /**
   * The arguments of a `concat(` call up to its closing parenthesis: each is
   * a literal in apostrophes or in quotation marks, separated by commas (no
   * white space). Yields the concatenated value and the argument count.
   */
  function EvalArgs(e: string): (r: Option<(string, nat)>)
    decreases |e|
  {
    if |e| == 0 || (e[0] != Apostrophe && e[0] != Quotation) then None
    else
      var first := Until(e[1..], e[0]);
      if first.None? then None
      else
        var v, rest := first.value.0, first.value.1;
        if |rest| == 1 && rest[0] == ')' then Some((v, 1))
        else if |rest| > 0 && rest[0] == ',' then
          var others := EvalArgs(rest[1..]);
          if others.None? then None else Some((v + others.value.0, others.value.1 + 1))
        else None
  }

  /**
   * The string value of an XPath literal or of a `concat(...)` call with at
   * least two literal arguments; None for any other text.
   */
  function EvalLiteral(e: string): (r: Option<string>)
  {
    if |e| > 0 && (e[0] == Apostrophe || e[0] == Quotation) then
      match Until(e[1..], e[0])
      case None => None
      case Some((v, rest)) => if |rest| == 0 then Some(v) else None
    else if |e| >= 7 && e[..7] == "concat(" then
      match EvalArgs(e[7..])
      case None => None
      case Some((v, n)) => if n >= 2 then Some(v) else None
    else None
  }

  /** Reading the literal `v`, delimited by `q`, at the head of the argument list. */
  lemma EvalArgsHead(q: char, v: string, rest: string)
    requires q == Apostrophe || q == Quotation
    requires q !in v
    ensures Until(([q] + v + [q] + rest)[1..], ([q] + v + [q] + rest)[0]) == Some((v, rest))
  {
    var e := [q] + v + [q] + rest;
    assert e[0] == q;
    assert e[1..] == v + [q] + rest;
    UntilOf(v, q, rest);
  }

  /** The last argument: a literal followed by the closing parenthesis. */
  lemma EvalArgsLast(q: char, v: string)
    requires q == Apostrophe || q == Quotation
    requires q !in v
    ensures EvalArgs([q] + v + [q] + ")") == Some((v, 1))
  {
    EvalArgsHead(q, v, ")");
  }

  /** A literal followed by a comma and further arguments. */
  lemma EvalArgsCons(q: char, v: string, more: string, w: string, n: nat)
    requires q == Apostrophe || q == Quotation
    requires q !in v
    requires EvalArgs(more) == Some((w, n))
    ensures EvalArgs([q] + v + [q] + ("," + more)) == Some((v + w, n + 1))
  {
    EvalArgsHead(q, v, "," + more);
    assert ("," + more)[1..] == more;
  }

  /** Solver aid: a quoted piece and the separator regrouped as the arguments `'p'`, `"'"`, then `tail`. */
  lemma PieceThenSeparatorText(p: string, tail: string)
    ensures Quote(p) + ConcatSeparator + tail
         == [Apostrophe] + p + [Apostrophe] + ("," + ([Quotation] + [Apostrophe] + [Quotation] + ("," + tail)))
  {
    assert ConcatSeparator == [',', Quotation, Apostrophe, Quotation, ','];
  }

  /** A quoted piece followed by the `,"'",` separator contributes the piece and an apostrophe. */
  lemma EvalPieceThenSeparator(p: string, tail: string, w: string, n: nat)
    requires Apostrophe !in p
    requires EvalArgs(tail) == Some((w, n))
    ensures EvalArgs(Quote(p) + ConcatSeparator + tail) == Some((p + [Apostrophe] + w, n + 2))
  {
    EvalArgsCons(Quotation, [Apostrophe], tail, w, n);
    var afterFirst := [Quotation] + [Apostrophe] + [Quotation] + ("," + tail);
    EvalArgsCons(Apostrophe, p, afterFirst, [Apostrophe] + w, n + 1);
    PieceThenSeparatorText(p, tail);
    assert p + ([Apostrophe] + w) == p + [Apostrophe] + w;
  }

  /** The `concat` arguments of two or more pieces: the first piece quoted, the separator, the rest. */
  lemma QuotedPiecesText(pieces: seq<string>)
    requires |pieces| > 1
    ensures JoinWith(QuoteAll(pieces), ConcatSeparator) + ")"
         == Quote(pieces[0]) + ConcatSeparator + (JoinWith(QuoteAll(pieces[1..]), ConcatSeparator) + ")")
  {
    assert QuoteAll(pieces)[1..] == QuoteAll(pieces[1..]);
  }

  /**
   * The `concat` arguments built from apostrophe-free pieces read back as the
   * pieces joined by apostrophes; there are 2n - 1 of them for n pieces.
   */
  lemma {:induction false} EvalQuotedPieces(pieces: seq<string>)
    requires |pieces| >= 1
    requires forall i :: 0 <= i < |pieces| ==> Apostrophe !in pieces[i]
    ensures EvalArgs(JoinWith(QuoteAll(pieces), ConcatSeparator) + ")")
         == Some((JoinWith(pieces, [Apostrophe]), 2 * |pieces| - 1))
  {
    if |pieces| == 1 {
      EvalArgsLast(Apostrophe, pieces[0]);
      assert JoinWith(QuoteAll(pieces), ConcatSeparator) + ")" == Quote(pieces[0]) + ")";
      assert EvalArgs(Quote(pieces[0]) + ")") == Some((pieces[0], 1));
    } else {
      var tail := JoinWith(QuoteAll(pieces[1..]), ConcatSeparator) + ")";
      var w := JoinWith(pieces[1..], [Apostrophe]);
      EvalQuotedPieces(pieces[1..]);
      EvalPieceThenSeparator(pieces[0], tail, w, 2 * |pieces[1..]| - 1);
      QuotedPiecesText(pieces);
      assert JoinWith(pieces, [Apostrophe]) == pieces[0] + [Apostrophe] + w;
    }
  }

  /** Escaping round-trips: the escaped literal evaluates to the string. */
  lemma EscapeRoundTrip(s: string)
    ensures EvalLiteral(Escape(Str(s))) == Some(s)
  {
    if Apostrophe in s {
      ConcatRoundTrip(s);
    } else {
      UntilOf(s, Apostrophe, "");
      assert Quote(s)[1..] == s + [Apostrophe] + "";
    }
  }

  /** A string with an apostrophe is escaped as a `concat` call that reads back as the string. */
  lemma ConcatRoundTrip(s: string)
    requires Apostrophe in s
    ensures EvalLiteral(Escape(Str(s))) == Some(s)
  {
    var pieces := Split(s);
    var body := JoinWith(QuoteAll(pieces), ConcatSeparator) + ")";
    assert Escape(Str(s)) == "concat(" + body;
    CallParts(body);
    assert EvalArgs(body) == Some((s, 2 * |pieces| - 1)) by {
      EvalQuotedPieces(pieces);
      SplitJoin(s);
    }
  }

  /** The text of a `concat` call starts with the seven characters `concat(`, followed by its arguments. */
  lemma CallParts(body: string)
    ensures |"concat(" + body| >= 7
    ensures ("concat(" + body)[..7] == "concat(" && ("concat(" + body)[7..] == body
  {
  }

  /**
   * Quoting without escaping is only sound for apostrophe-free text: a plain
   * `'` + s + `'` reads back as `s` exactly when `s` has no apostrophe.
   */
  lemma RawQuoteRoundTripIff(s: string)
    ensures EvalLiteral(Quote(s)) == Some(s) <==> Apostrophe !in s
  {
    var e := Quote(s);
    assert e[1..] == s + [Apostrophe];
    if Apostrophe in s {
      UntilSpec(e[1..], Apostrophe);
    } else {
      assert e[1..] == s + [Apostrophe] + "";
      UntilOf(s, Apostrophe, "");
    }
  }

  /** The concrete break: `it's` quoted raw is not a single literal. */
  lemma RawQuoteBreaksOnApostrophe()
    ensures EvalLiteral(Quote("it's")) == None
  {
    var e := Quote("it's");
    assert e[1..] == "it" + [Apostrophe] + "s'";
    UntilOf("it", Apostrophe, "s'");
  }

  /**
   * Reads a value written by `Escape` back: a literal or `concat(...)` gives
   * the string, anything else is read as a numeral.
   */
  function ReadValue(e: string): Value
  {
    match EvalLiteral(e)
    case Some(s) => Str(s)
    case None => Num(ParseDecimal(e))
  }

  /** A numeral is neither a quoted literal nor a `concat(...)` call. */
  lemma DecimalIsNoLiteral(n: int)
    ensures EvalLiteral(Decimal(n)) == None
  {
    var d := Decimal(n);
    if n >= 0 {
      assert '0' <= d[0] <= '9';
    }
    assert d[0] != 'c';
    if |d| >= 7 {
      assert d[..7][0] == d[0];
    }
  }

  /** Every value a filter method accepts survives escaping: strings and numbers read back unchanged. */
  lemma ValueRoundTrip(v: Value)
    ensures ReadValue(Escape(v)) == v
  {
    match v
    case Str(s) => EscapeRoundTrip(s);
    case Num(n) => DecimalIsNoLiteral(n); DecimalRoundTrip(n);
  }
}
