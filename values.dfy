/**
 * The value extractor: trimStrings, parseKeys, parseValues, extractValues and
 * extractElement (parse.go:353-428, 479-488).
 */
module Values {
  import opened Wrappers
  import opened GoStrings
  import opened HclAst
  import opened TfDocs
  import opened Comments

  const EscapedQuote: string := "\\\""
  const Quote: string := "\""

  /** The patterns trimStrings strips, in the order it strips them. */
  const TrimPatterns: seq<string> := [EscapedQuote, Quote]

  /** For each pattern in turn: at most one leading copy, then at most one trailing copy, are removed. */
  function TrimEach(s: string, patterns: seq<string>): string {
    if |patterns| == 0 then s
    else
      var p := patterns[|patterns| - 1];
      TrimSuffix(TrimPrefix(TrimEach(s, patterns[..|patterns| - 1]), p), p)
  }

  /** What trimStrings returns. */
  function Unquoted(s: string): string {
    TrimEach(s, TrimPatterns)
  }

  /** The four independent steps of trimStrings. */
  lemma UnquotedSteps(s: string)
    ensures Unquoted(s) == TrimSuffix(TrimPrefix(TrimSuffix(TrimPrefix(s, EscapedQuote), EscapedQuote), Quote), Quote)
  {
    var ps := TrimPatterns;
    assert ps[..1] == [EscapedQuote] && ps[..1][..0] == [];
    assert TrimEach(s, ps[..1]) == TrimSuffix(TrimPrefix(s, EscapedQuote), EscapedQuote);
  }

  /** trimStrings keeps one contiguous piece of its input. */
  lemma UnquotedInfix(s: string)
    ensures exists i :: InfixAt(Unquoted(s), s, i)
  {
    UnquotedSteps(s);
    var s1 := TrimPrefix(s, EscapedQuote);
    var s2 := TrimSuffix(s1, EscapedQuote);
    var s3 := TrimPrefix(s2, Quote);
    var s4 := TrimSuffix(s3, Quote);
    var i1 := if HasPrefix(s, EscapedQuote) then 2 else 0;
    var i3 := if HasPrefix(s2, Quote) then 1 else 0;
    InfixTransitive(s2, s1, s, 0, i1);
    InfixTransitive(s3, s2, s, i3, i1);
    InfixTransitive(s4, s3, s, 0, i3 + i1);
    assert InfixAt(Unquoted(s), s, i3 + i1);
  }

  /** A token that neither starts nor ends with a quote, escaped or not, is returned unchanged. */
  lemma UnquotedPlain(s: string)
    requires !HasPrefix(s, Quote) && !HasSuffix(s, Quote) && !HasPrefix(s, EscapedQuote)
    ensures Unquoted(s) == s
  {
    UnquotedSteps(s);
  }

  /** The escaped-quote step leaves alone a token that starts with a plain quote and has no backslash before its last character. */
  lemma EscapedQuoteStepIdle(s: string)
    requires |s| >= 1 && s[0] == '"' && (|s| < 2 || s[|s| - 2] != '\\' || s[|s| - 1] != '"')
    ensures TrimSuffix(TrimPrefix(s, EscapedQuote), EscapedQuote) == s
  {
    assert !HasPrefix(s, EscapedQuote) by {
      if |s| >= 2 { assert s[..2][0] == '"'; }
    }
    assert !HasSuffix(s, EscapedQuote) by {
      if |s| >= 2 { assert s[|s| - 2..][0] == s[|s| - 2]; }
    }
  }

  /** The plain-quote step removes one quote at each end. */
  lemma QuoteStepPair(x: string)
    ensures TrimSuffix(TrimPrefix(Quote + x + Quote, Quote), Quote) == x
  {
    var s := Quote + x + Quote;
    assert s == Quote + (x + Quote);
    TrimPrefixOf(Quote, x + Quote);
    TrimSuffixOf(x, Quote);
  }

  /** A double-quoted token loses its quotes, unless its content ends with a backslash. */
  lemma UnquotedQuoted(x: string)
    requires !HasSuffix(x, "\\")
    ensures Unquoted(Quote + x + Quote) == x
  {
    var s := Quote + x + Quote;
    assert TrimSuffix(TrimPrefix(s, EscapedQuote), EscapedQuote) == s by {
      assert |x| > 0 ==> s[|s| - 2] == x[|x| - 1] && x[|x| - 1..] == [x[|x| - 1]];
      EscapedQuoteStepIdle(s);
    }
    QuoteStepPair(x);
    UnquotedSteps(s);
  }

  /** A token in escaped quotes loses them, unless its content itself starts or ends with a quote. */
  lemma UnquotedEscaped(x: string)
    requires !HasPrefix(x, Quote) && !HasSuffix(x, Quote)
    ensures Unquoted(EscapedQuote + x + EscapedQuote) == x
  {
    var s := EscapedQuote + x + EscapedQuote;
    var t := x + EscapedQuote;
    assert TrimPrefix(s, EscapedQuote) == t by {
      assert s == EscapedQuote + t;
      TrimPrefixOf(EscapedQuote, t);
    }
    TrimSuffixOf(x, EscapedQuote);
    assert TrimSuffix(TrimPrefix(x, Quote), Quote) == x;
    UnquotedSteps(s);
  }

  /** The strip is not matched in pairs: a quote on one side only is removed as well. */
  lemma UnquotedOneSided(x: string)
    requires !HasPrefix(x, Quote) && !HasSuffix(x, Quote) && !HasPrefix(x, EscapedQuote)
    ensures Unquoted(Quote + x) == x
  {
    var s := Quote + x;
    assert TrimSuffix(TrimPrefix(s, EscapedQuote), EscapedQuote) == s by {
      assert |s| < 2 || s[|s| - 1] != '"' by {
        if |x| > 0 {
          assert s[|s| - 1] == x[|x| - 1];
          assert x[|x| - 1..] == [x[|x| - 1]];
        }
      }
      EscapedQuoteStepIdle(s);
    }
    TrimPrefixOf(Quote, x);
    assert TrimSuffix(x, Quote) == x;
    UnquotedSteps(s);
  }

  /** TestTrimStrings: both a quoted and an escaped-quoted hello become hello. */
  lemma TrimStringsHello()
    ensures Unquoted("\"hello\"") == "hello"
    ensures Unquoted("\\\"hello\\\"") == "hello"
  {
    PlainEnds("hello");
    assert "\"hello\"" == Quote + "hello" + Quote;
    UnquotedQuoted("hello");
    assert "\\\"hello\\\"" == EscapedQuote + "hello" + EscapedQuote;
    UnquotedEscaped("hello");
  }

  /** A token whose first and last characters are neither a quote nor a backslash has no quote at either end. */
  lemma PlainEnds(x: string)
    requires |x| > 0 && x[0] != '"' && x[|x| - 1] != '"' && x[|x| - 1] != '\\'
    ensures !HasPrefix(x, Quote) && !HasSuffix(x, Quote) && !HasSuffix(x, "\\")
  {
    assert x[..1] == [x[0]] && x[|x| - 1..] == [x[|x| - 1]];
  }

  /** trimStrings: strips `\"` and then `"`, each at most once at each end (parse.go:479-488). */
  method TrimStrings(input: string) returns (result: string)
    ensures result == Unquoted(input)
  {
    var trimPatterns := TrimPatterns;
    result := input;
    for i := 0 to |trimPatterns|
      invariant result == TrimEach(input, trimPatterns[..i])
    {
      var pattern := trimPatterns[i];
      assert trimPatterns[..i + 1][..i] == trimPatterns[..i];
      result := TrimPrefix(result, pattern);
      result := TrimSuffix(result, pattern);
    }
    assert trimPatterns[..|trimPatterns|] == trimPatterns;
  }

  /** Each token unquoted. */
  function UnquotedAll(tokens: seq<string>): seq<string> {
    seq(|tokens|, k requires 0 <= k < |tokens| => Unquoted(tokens[k]))
  }

  /**
   * The key map of an item: its first raw token, not unquoted, mapped to the
   * remaining tokens unquoted.
   */
  function KeyMap(rawKeys: seq<string>): (m: map<string, seq<string>>)
    requires |rawKeys| >= 1
    ensures m.Keys == {rawKeys[0]}
    ensures |m[rawKeys[0]]| == |rawKeys| - 1
    ensures forall k :: 1 <= k < |rawKeys| ==> m[rawKeys[0]][k - 1] == Unquoted(rawKeys[k])
  {
    map[rawKeys[0] := UnquotedAll(rawKeys[1..])]
  }

  /** parseKeys (parse.go:392-404). */
  method ParseKeys(rawKeys: seq<string>) returns (result: map<string, seq<string>>)
    requires |rawKeys| >= 1
    ensures result == KeyMap(rawKeys)
  {
    var key := rawKeys[0];
    var values: seq<string> := [];
    for i := 1 to |rawKeys|
      invariant values == UnquotedAll(rawKeys[1..i])
    {
      var v := TrimStrings(rawKeys[i]);
      assert rawKeys[1..i + 1] == rawKeys[1..i] + [rawKeys[i]];
      values := values + [v];
    }
    assert rawKeys[1..|rawKeys|] == rawKeys[1..];
    result := map[key := values];
  }

  /** The unquoted texts of the literal elements of a list, in order; other elements are skipped. */
  function LiteralTexts(elements: seq<ListElement>): (r: seq<string>)
    ensures |r| <= |elements|
  {
    if |elements| == 0 then []
    else
      var rest := LiteralTexts(elements[..|elements| - 1]);
      match elements[|elements| - 1]
      case LiteralElement(text) => rest + [Unquoted(text)]
      case OtherElement => rest
  }

  /** A list of literals keeps every element, in order. */
  lemma {:induction false} LiteralTextsOfLiterals(elements: seq<ListElement>)
    requires forall k :: 0 <= k < |elements| ==> elements[k].LiteralElement?
    ensures |LiteralTexts(elements)| == |elements|
    ensures forall k :: 0 <= k < |elements| ==> LiteralTexts(elements)[k] == Unquoted(elements[k].text)
  {
    if |elements| > 0 {
      var front := elements[..|elements| - 1];
      LiteralTextsOfLiterals(front);
      var r := LiteralTexts(elements);
      assert r == LiteralTexts(front) + [Unquoted(elements[|elements| - 1].text)];
      forall k | 0 <= k < |elements| ensures r[k] == Unquoted(elements[k].text) {
        if k < |elements| - 1 {
          assert elements[k] == front[k];
        }
      }
    }
  }

  /** Elements that are not literals add nothing. */
  lemma {:induction false} LiteralTextsSkipOthers(elements: seq<ListElement>, others: seq<ListElement>)
    requires forall k :: 0 <= k < |others| ==> others[k].OtherElement?
    ensures LiteralTexts(elements + others) == LiteralTexts(elements)
  {
    if |others| > 0 {
      var all := elements + others;
      assert all[..|all| - 1] == elements + others[..|others| - 1];
      LiteralTextsSkipOthers(elements, others[..|others| - 1]);
    } else {
      assert elements + others == elements;
    }
  }

  /** One more element adds its unquoted text at the end if it is a literal, and nothing otherwise. */
  lemma LiteralTextsSnoc(elements: seq<ListElement>, last: ListElement)
    ensures LiteralTexts(elements + [last]) == LiteralTexts(elements) + (if last.LiteralElement? then [Unquoted(last.text)] else [])
  {
    var all := elements + [last];
    assert all[..|all| - 1] == elements && all[|all| - 1] == last;
  }

  /** The texts of two runs of elements are those of each run, in turn. */
  lemma {:induction false} LiteralTextsConcat(a: seq<ListElement>, b: seq<ListElement>)
    ensures LiteralTexts(a + b) == LiteralTexts(a) + LiteralTexts(b)
  {
    if |b| == 0 {
      assert a + b == a;
    } else {
      var front, last := b[..|b| - 1], b[|b| - 1];
      assert b == front + [last];
      assert a + b == (a + front) + [last];
      LiteralTextsConcat(a, front);
      LiteralTextsSnoc(a + front, last);
      LiteralTextsSnoc(front, last);
    }
  }

  /** An element that is not a literal adds nothing, wherever it stands in the list. */
  lemma LiteralTextsSkipOtherBetween(a: seq<ListElement>, b: seq<ListElement>)
    ensures LiteralTexts(a + [OtherElement] + b) == LiteralTexts(a + b)
  {
    LiteralTextsConcat(a + [OtherElement], b);
    LiteralTextsConcat(a, [OtherElement]);
    LiteralTextsConcat(a, b);
    assert LiteralTexts([OtherElement]) == [] by { assert [OtherElement][..0] == []; }
  }

  /** How parseValues renders an attribute value, if it renders it at all. */
  function Rendered(v: AttrValue): Option<string> {
    match v
    case LiteralValue(text) => Some(Unquoted(text))
    case ListValue(elements) => Some("[" + Join(LiteralTexts(elements), ", ") + "]")
    case OtherValue => None
  }

  /** An empty list renders as `[]`. */
  lemma RenderedEmptyList()
    ensures Rendered(ListValue([])) == Some("[]")
  {
    assert LiteralTexts([]) == [];
    assert "[" + "" + "]" == "[]";
  }

  /** A list of two literals renders as both texts, unquoted, between brackets and separated by `, `. */
  lemma RenderedPair(a: string, b: string)
    ensures Rendered(ListValue([LiteralElement(a), LiteralElement(b)])) == Some("[" + (Unquoted(a) + ", " + Unquoted(b)) + "]")
  {
    var es := [LiteralElement(a), LiteralElement(b)];
    var ua, ub := Unquoted(a), Unquoted(b);
    assert LiteralTexts(es) == [ua, ub] by {
      LiteralTextsOfLiterals(es);
    }
    JoinPair(ua, ub, ", ");
  }

  /** parseValues indexes the first key of every attribute it renders. */
  predicate AttributesKeyed(attributes: seq<Attribute>) {
    forall k :: 0 <= k < |attributes| && Rendered(attributes[k].value).Some? ==> |attributes[k].keys| >= 1
  }

  /** The attribute map after the given attributes, in order: a later attribute overwrites an earlier one of the same name. */
  function AttrMap(attributes: seq<Attribute>): map<string, string>
    requires AttributesKeyed(attributes)
  {
    if |attributes| == 0 then map[]
    else
      var front := attributes[..|attributes| - 1];
      assert AttributesKeyed(front) by {
        forall k | 0 <= k < |front| ensures front[k] == attributes[k] { }
      }
      var m := AttrMap(front);
      var a := attributes[|attributes| - 1];
      match Rendered(a.value)
      case None => m
      case Some(s) => m[Unquoted(a.keys[0]) := s]
  }

  /** Attribute k is rendered, under the (unquoted) name `name`. */
  predicate Defines(attributes: seq<Attribute>, k: int, name: string) {
    0 <= k < |attributes| && Rendered(attributes[k].value).Some?
    && |attributes[k].keys| >= 1 && Unquoted(attributes[k].keys[0]) == name
  }

  /** Attribute k is the last of the attributes that defines `name`. */
  predicate LastDefines(attributes: seq<Attribute>, k: int, name: string) {
    Defines(attributes, k, name) && forall j :: k < j < |attributes| ==> !Defines(attributes, j, name)
  }

  /** The attributes before the last one are keyed too, and define a name exactly where the whole run does. */
  lemma FrontDefines(attributes: seq<Attribute>, name: string)
    requires AttributesKeyed(attributes) && |attributes| > 0
    ensures AttributesKeyed(attributes[..|attributes| - 1])
    ensures forall k :: 0 <= k < |attributes| - 1 ==>
      (Defines(attributes[..|attributes| - 1], k, name) <==> Defines(attributes, k, name))
  {
    var front := attributes[..|attributes| - 1];
    forall k | 0 <= k < |front| ensures front[k] == attributes[k] { }
  }

  /** parseValues maps a name exactly when some rendered attribute has that name. */
  lemma {:induction false} AttrMapDomain(attributes: seq<Attribute>, name: string)
    requires AttributesKeyed(attributes)
    ensures name in AttrMap(attributes) <==> exists k :: Defines(attributes, k, name)
  {
    if |attributes| > 0 {
      var n := |attributes| - 1;
      var front := attributes[..n];
      FrontDefines(attributes, name);
      AttrMapDomain(front, name);
      if name in AttrMap(attributes) && !Defines(attributes, n, name) {
        var k :| Defines(front, k, name);
        assert Defines(attributes, k, name);
      }
      if name !in AttrMap(attributes) {
        forall k | 0 <= k < |attributes| ensures !Defines(attributes, k, name) {
          if k < n {
            assert !Defines(front, k, name);
          }
        }
      }
    }
  }

  /** A name parseValues maps is mapped to the rendering of the last attribute with that name. */
  lemma {:induction false} AttrMapLastWins(attributes: seq<Attribute>, name: string)
    requires AttributesKeyed(attributes)
    requires name in AttrMap(attributes)
    ensures exists k :: LastDefines(attributes, k, name) && AttrMap(attributes)[name] == Rendered(attributes[k].value).value
  {
    var n := |attributes| - 1;
    if Defines(attributes, n, name) {
      assert LastDefines(attributes, n, name);
    } else {
      var front := attributes[..n];
      FrontDefines(attributes, name);
      assert name in AttrMap(front) && AttrMap(attributes)[name] == AttrMap(front)[name];
      AttrMapLastWins(front, name);
      var k :| LastDefines(front, k, name) && AttrMap(front)[name] == Rendered(front[k].value).value;
      assert front[k] == attributes[k];
      assert LastDefines(attributes, k, name);
    }
  }

  /** parseValues (parse.go:406-428). */
  method ParseValues(attributes: seq<Attribute>) returns (result: map<string, string>)
    requires AttributesKeyed(attributes)
    ensures result == AttrMap(attributes)
  {
    result := map[];
    for i := 0 to |attributes|
      invariant AttributesKeyed(attributes[..i])
      invariant result == AttrMap(attributes[..i])
    {
      var item := attributes[i];
      assert attributes[..i + 1][..i] == attributes[..i];
      assert attributes[..i + 1][i] == item;
      match item.value {
        case LiteralValue(text) =>
          var key := TrimStrings(item.keys[0]);
          var val := TrimStrings(text);
          result := result[key := val];
        case ListValue(elements) =>
          var valueList: seq<string> := [];
          for j := 0 to |elements|
            invariant valueList == LiteralTexts(elements[..j])
          {
            assert elements[..j + 1][..j] == elements[..j];
            match elements[j] {
              case LiteralElement(t) =>
                var v := TrimStrings(t);
                valueList := valueList + [v];
              case OtherElement =>
            }
          }
          assert elements[..|elements|] == elements;
          var joinedList := Join(valueList, ", ");
          var key := TrimStrings(item.keys[0]);
          result := result[key := "[" + joinedList + "]"];
        case OtherValue =>
      }
    }
    assert attributes[..|attributes|] == attributes;
  }

  /** Every item whose body is an object has a first key, and so has each attribute parseValues renders. */
  predicate ItemKeyed(item: Item) {
    item.body.ObjectBody? ==> |item.keys| >= 1 && AttributesKeyed(item.body.attributes)
  }

  /** The Comment attached to an item: its leading group's, or the zero Comment. */
  function LeadComment(g: Option<CommentGroup>): Comment {
    match g
    case None => ZeroComment
    case Some(group) => CommentOfGroup(group)
  }

  /** The Value extractValues builds for one item. */
  function ItemValue(item: Item): Value
    requires ItemKeyed(item)
  {
    match item.body
    case ObjectBody(attributes) => Value(KeyMap(item.keys), AttrMap(attributes), LeadComment(item.leadComment))
    case OtherBody => EmptyValue
  }

  /** A Value has a keyword exactly when its item has an object body and that first raw key. */
  lemma ItemKeyword(item: Item, keyword: string)
    requires ItemKeyed(item)
    ensures keyword in ItemValue(item).key <==> item.body.ObjectBody? && item.keys[0] == keyword
  {
  }

  /** extractValues: one Value per top-level item, in order (parse.go:366-388). */
  method ExtractValues(items: seq<Item>) returns (values: seq<Value>)
    requires forall k :: 0 <= k < |items| ==> ItemKeyed(items[k])
    ensures |values| == |items|
    ensures forall k :: 0 <= k < |items| ==> values[k] == ItemValue(items[k])
  {
    values := [];
    for i := 0 to |items|
      invariant |values| == i
      invariant forall k :: 0 <= k < i ==> values[k] == ItemValue(items[k])
    {
      var item := items[i];
      var value := EmptyValue;
      match item.body {
        case ObjectBody(attributes) =>
          var val := ParseValues(attributes);
          var key := ParseKeys(item.keys);
          var comment, _ := ParseComment(item.leadComment);
          value := Value(key, val, comment);
        case OtherBody =>
      }
      values := values + [value];
    }
  }

  /** The Values that have the keyword, in their original order. */
  function Select(values: seq<Value>, keyword: string): (r: seq<Value>)
    ensures |r| <= |values|
    ensures forall k :: 0 <= k < |r| ==> keyword in r[k].key
  {
    if |values| == 0 then []
    else
      var rest := Select(values[..|values| - 1], keyword);
      var v := values[|values| - 1];
      if keyword in v.key then rest + [v] else rest
  }

  /** Exactly the Values that have the keyword are selected. */
  lemma {:induction false} SelectMembers(values: seq<Value>, keyword: string)
    ensures forall v :: v in Select(values, keyword) <==> v in values && keyword in v.key
  {
    if |values| > 0 {
      var front := values[..|values| - 1];
      SelectMembers(front, keyword);
      assert values == front + [values[|values| - 1]];
    }
  }

  /** Selecting from two runs of Values selects from each, keeping them in order. */
  lemma {:induction false} SelectConcat(a: seq<Value>, b: seq<Value>, keyword: string)
    ensures Select(a + b, keyword) == Select(a, keyword) + Select(b, keyword)
  {
    if |b| == 0 {
      assert a + b == a;
    } else {
      var ab := a + b;
      assert ab[..|ab| - 1] == a + b[..|b| - 1];
      SelectConcat(a, b[..|b| - 1], keyword);
    }
  }

  /** extractElement: the Values whose key map has the keyword, in order (parse.go:353-363). */
  method ExtractElement(values: seq<Value>, elementType: string) returns (result: seq<Value>)
    ensures result == Select(values, elementType)
  {
    result := [];
    for i := 0 to |values|
      invariant result == Select(values[..i], elementType)
    {
      var value := values[i];
      assert values[..i + 1][..i] == values[..i];
      if elementType in value.key {
        result := result + [value];
      }
    }
    assert values[..|values|] == values;
  }
}
