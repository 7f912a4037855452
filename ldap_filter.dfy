/**
 * The LDAP search-filter builders of AdInterface (filter_EQUALS, filter_AND,
 * filter_OR, filter_NOT). They produce the parenthesised prefix forms of
 * section 3 of RFC 4515 by plain text substitution, without escaping the
 * assertion value. A filter tree, a renderer through the builders and a parser
 * of the produced text pin down what the strings mean: the text of a filter
 * whose attribute names hold no '=' (and do not start with an operator
 * character) and whose values hold no ')' parses back to the same tree.
 */
module LdapFilter {
  datatype Option<T> = None | Some(value: T)

  /** filter_EQUALS: "(attribute=value)". */
  function FilterEquals(attribute: string, value: string): (f: string)
    ensures |f| == |attribute| + |value| + 3
  {
    "(" + attribute + "=" + value + ")"
  }

  /** filter_AND: "(&ab)". */
  function FilterAnd(a: string, b: string): (f: string)
    ensures |f| == |a| + |b| + 3
  {
    "(&" + a + b + ")"
  }

  /** filter_OR: "(|ab)". */
  function FilterOr(a: string, b: string): (f: string)
    ensures |f| == |a| + |b| + 3
  {
    "(|" + a + b + ")"
  }

  /** filter_NOT: "(!a)". */
  function FilterNot(a: string): (f: string)
    ensures |f| == |a| + 3
  {
    "(!" + a + ")"
  }

  /** The filters the builders can express. */
  datatype Filter =
    | Equality(attribute: string, value: string)
    | And(left: Filter, right: Filter)
    | Or(left: Filter, right: Filter)
    | Not(operand: Filter)

  /** The text the builders produce for a filter tree. */
  function Render(f: Filter): (s: string)
    ensures |s| >= 3 && s[0] == '(' && s[|s| - 1] == ')'
  {
    match f
    case Equality(a, v) => FilterEquals(a, v)
    case And(l, r) => FilterAnd(Render(l), Render(r))
    case Or(l, r) => FilterOr(Render(l), Render(r))
    case Not(g) => FilterNot(Render(g))
  }

  /** Texts the unescaped builders render unambiguously. */
  predicate Unambiguous(f: Filter)
  {
    match f
    case Equality(a, v) =>
      '=' !in a && ')' !in v && (|a| == 0 || (a[0] != '&' && a[0] != '|' && a[0] != '!'))
    case And(l, r) => Unambiguous(l) && Unambiguous(r)
    case Or(l, r) => Unambiguous(l) && Unambiguous(r)
    case Not(g) => Unambiguous(g)
  }

  /** Reads one filter from the front of s and returns it with the remaining text. */
  function Parse(s: string): (r: Option<(Filter, string)>)
    ensures r.Some? ==> |r.value.1| < |s|
    decreases |s|
  {
    if |s| < 2 || s[0] != '(' then None
    else if s[1] == '&' || s[1] == '|' then
      match Parse(s[2..])
      case None => None
      case Some((l, afterLeft)) =>
        match Parse(afterLeft)
        case None => None
        case Some((r, afterRight)) =>
          if |afterRight| > 0 && afterRight[0] == ')' then
            Some((if s[1] == '&' then And(l, r) else Or(l, r), afterRight[1..]))
          else None
    else if s[1] == '!' then
      match Parse(s[2..])
      case None => None
      case Some((g, afterOperand)) =>
        if |afterOperand| > 0 && afterOperand[0] == ')' then Some((Not(g), afterOperand[1..]))
        else None
    else ParseEquality(s)
  }

  /** An equality item "(attribute=value)": up to the first '=', then up to the next ')'. */
  function ParseEquality(s: string): (r: Option<(Filter, string)>)
    requires |s| >= 2 && s[0] == '('
    ensures r.Some? ==> |r.value.1| < |s|
  {
    match ReadUntil(s[1..], '=')
    case None => None
    case Some((attribute, afterEquals)) =>
      match ReadUntil(afterEquals, ')')
      case None => None
      case Some((value, rest)) => Some((Equality(attribute, value), rest))
  }

  /** The text before the first c, and the text after it. */
  function ReadUntil(s: string, c: char): (r: Option<(string, string)>)
    ensures r.None? <==> c !in s
    ensures r.Some? ==> s == r.value.0 + [c] + r.value.1 && c !in r.value.0
  {
    if |s| == 0 then None
    else if s[0] == c then Some(([], s[1..]))
    else
      match ReadUntil(s[1..], c)
      case None => None
      case Some((before, after)) => Some(([s[0]] + before, after))
  }

  /** The first c in "before + c + after" is the one after before. */
  lemma {:induction false} ReadUntilFirst(before: string, c: char, after: string)
    requires c !in before
    ensures ReadUntil(before + [c] + after, c) == Some((before, after))
  {
    if |before| > 0 {
      assert (before + [c] + after)[1..] == before[1..] + [c] + after;
      ReadUntilFirst(before[1..], c, after);
      assert [before[0]] + before[1..] == before;
    } else {
      assert before + [c] + after == [c] + after;
    }
  }

  /** The text of an equality item after its opening parenthesis. */
  lemma EqualityTail(a: string, v: string, rest: string)
    ensures |FilterEquals(a, v) + rest| >= 2 && (FilterEquals(a, v) + rest)[0] == '('
    ensures (FilterEquals(a, v) + rest)[1..] == a + ['='] + (v + [')'] + rest)
  {
  }

  /** An equality item whose value holds no ')' is read back whole. */
  lemma ParseEqualityItem(a: string, v: string, rest: string)
    requires '=' !in a && ')' !in v
    ensures ParseEquality(FilterEquals(a, v) + rest) == Some((Equality(a, v), rest))
  {
    EqualityTail(a, v, rest);
    ReadUntilFirst(a, '=', v + [')'] + rest);
    ReadUntilFirst(v, ')', rest);
  }

  /** An equality item whose value holds a ')' is cut at that ')'. */
  lemma ParseEqualityCut(a: string, v: string, rest: string)
    requires '=' !in a && ')' in v
    ensures ReadUntil(v, ')').Some?
    ensures ParseEquality(FilterEquals(a, v) + rest) ==
      Some((Equality(a, ReadUntil(v, ')').value.0), ReadUntil(v, ')').value.1 + ")" + rest))
  {
    EqualityTail(a, v, rest);
    ReadUntilFirst(a, '=', v + [')'] + rest);
    var cut := ReadUntil(v, ')').value;
    CutAgain(cut.0, cut.1, rest);
  }

  lemma CutAgain(before: string, after: string, rest: string)
    requires ')' !in before
    ensures ReadUntil(before + [')'] + after + [')'] + rest, ')') == Some((before, after + ")" + rest))
  {
    assert before + [')'] + after + [')'] + rest == before + [')'] + (after + ")" + rest);
    ReadUntilFirst(before, ')', after + ")" + rest);
  }

  /** Reading an and/or item whose operands parse and which closes with ')'. */
  lemma ParseCompositeAt(s: string, l: Filter, afterLeft: string, r: Filter, afterRight: string)
    requires |s| >= 2 && s[0] == '(' && (s[1] == '&' || s[1] == '|')
    requires Parse(s[2..]) == Some((l, afterLeft)) && Parse(afterLeft) == Some((r, afterRight))
    requires |afterRight| > 0 && afterRight[0] == ')'
    ensures Parse(s) == Some((if s[1] == '&' then And(l, r) else Or(l, r), afterRight[1..]))
  {
  }

  /** Reading a not item whose operand parses and which closes with ')'. */
  lemma ParseNotAt(s: string, g: Filter, afterOperand: string)
    requires |s| >= 2 && s[0] == '(' && s[1] == '!'
    requires Parse(s[2..]) == Some((g, afterOperand))
    requires |afterOperand| > 0 && afterOperand[0] == ')'
    ensures Parse(s) == Some((Not(g), afterOperand[1..]))
  {
  }

  /** A text whose second character is not an operator is read as an equality item. */
  lemma ParseIsEquality(a: string, v: string, rest: string)
    requires '=' !in a && (|a| == 0 || (a[0] != '&' && a[0] != '|' && a[0] != '!'))
    ensures Parse(FilterEquals(a, v) + rest) == ParseEquality(FilterEquals(a, v) + rest)
  {
    var s := FilterEquals(a, v) + rest;
    if |a| == 0 {
      assert s[1] == '=';
    } else {
      assert s[1] == a[0];
    }
  }

  /** Without escaping, a ')' inside a value ends the item early: the value is cut at it. */
  lemma UnescapedValueBreaksRoundTrip(a: string, v: string, rest: string)
    requires '=' !in a && (|a| == 0 || (a[0] != '&' && a[0] != '|' && a[0] != '!'))
    requires ')' in v
    ensures ReadUntil(v, ')').Some?
    ensures Parse(FilterEquals(a, v) + rest) ==
      Some((Equality(a, ReadUntil(v, ')').value.0), ReadUntil(v, ')').value.1 + ")" + rest))
    ensures Parse(FilterEquals(a, v) + rest) != Some((Equality(a, v), rest))
  {
    ParseIsEquality(a, v, rest);
    ParseEqualityCut(a, v, rest);
  }

  /** The rendered text of an unambiguous filter parses back to that filter, whatever follows it. */
  lemma {:induction false} ParseRender(f: Filter, rest: string)
    requires Unambiguous(f)
    ensures Parse(Render(f) + rest) == Some((f, rest))
  {
    match f
    case Equality(a, v) =>
      ParseIsEquality(a, v, rest);
      ParseEqualityItem(a, v, rest);
    case And(l, r) =>
      ParseRender(l, Render(r) + (")" + rest));
      ParseRender(r, ")" + rest);
      AndText(Render(l), Render(r), rest);
      ParseCompositeAt(Render(f) + rest, l, Render(r) + (")" + rest), r, ")" + rest);
    case Or(l, r) =>
      ParseRender(l, Render(r) + (")" + rest));
      ParseRender(r, ")" + rest);
      OrText(Render(l), Render(r), rest);
      ParseCompositeAt(Render(f) + rest, l, Render(r) + (")" + rest), r, ")" + rest);
    case Not(g) =>
      ParseRender(g, ")" + rest);
      NotText(Render(g), rest);
      ParseNotAt(Render(f) + rest, g, ")" + rest);
  }

  /** The layout of an and item followed by more text. */
  lemma AndText(a: string, b: string, rest: string)
    ensures |FilterAnd(a, b) + rest| >= 2 && (FilterAnd(a, b) + rest)[0] == '(' && (FilterAnd(a, b) + rest)[1] == '&'
    ensures (FilterAnd(a, b) + rest)[2..] == a + (b + (")" + rest))
  {
  }

  /** The layout of an or item followed by more text. */
  lemma OrText(a: string, b: string, rest: string)
    ensures |FilterOr(a, b) + rest| >= 2 && (FilterOr(a, b) + rest)[0] == '(' && (FilterOr(a, b) + rest)[1] == '|'
    ensures (FilterOr(a, b) + rest)[2..] == a + (b + (")" + rest))
  {
  }

  /** The layout of a not item followed by more text. */
  lemma NotText(a: string, rest: string)
    ensures |FilterNot(a) + rest| >= 2 && (FilterNot(a) + rest)[0] == '(' && (FilterNot(a) + rest)[1] == '!'
    ensures (FilterNot(a) + rest)[2..] == a + (")" + rest)
  {
  }

  /** Unambiguous filters with the same text are the same filter. */
  lemma RenderInjective(f: Filter, g: Filter)
    requires Unambiguous(f) && Unambiguous(g) && Render(f) == Render(g)
    ensures f == g
  {
    ParseRender(f, "");
    ParseRender(g, "");
    assert Render(f) + "" == Render(f);
    assert Render(g) + "" == Render(g);
  }
}
