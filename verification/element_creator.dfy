/** createElement (src/element-creator.ts): a CSS-like selector such as
    `tag#id.c1.c2[a='v'][b]` becomes an element with that tag, id, class
    attribute and attributes.

    The four regular expressions the source matches against the selector are
    written out as scanners over the selector's suffixes: a global match tries
    each start position in turn and resumes after the end of each match. The
    element itself is a DOM node that the source fills in by successive
    setAttribute calls; it is modelled as a class with an ordered attribute
    list, and the serialiser `OuterHtml` stands in for `outerHTML`. */
module ElementCreator {
  import opened Wrappers
  import opened Js

  const OnlyOneIdMessage := "CreateElementException: only 1 ID is allowed"

  /** The name of the DOMException `document.createElement` raises for a
      name that is not a valid element name. */
  const InvalidCharacterError := "InvalidCharacterError"

  /** `[a-z0-9-]` under the `i` flag. */
  predicate IsNameChar(c: char) {
    IsAsciiLetter(c) || IsDigit(c) || c == '-'
  }

  /** `[a-z-]` under the `i` flag: the characters after the first one of an
      attribute name. */
  predicate IsAttrNameChar(c: char) {
    IsAsciiLetter(c) || c == '-'
  }

  predicate IsQuote(c: char) {
    c == '\'' || c == '"'
  }

  /** Whether `document.createElement` accepts a name made of IsNameChar
      characters: it must be non-empty and start with a letter, since a
      digit or a hyphen cannot begin an element name. */
  predicate IsElementName(name: string) {
    |name| > 0 && IsAsciiLetter(name[0])
  }

  /** The longest prefix of `s` made of IsNameChar characters. */
  function NameRun(s: string): (r: string)
    ensures r <= s
    ensures forall i :: 0 <= i < |r| ==> IsNameChar(r[i])
    ensures |r| == |s| || !IsNameChar(s[|r|])
  {
    if |s| > 0 && IsNameChar(s[0]) then [s[0]] + NameRun(s[1..]) else ""
  }

  /** The longest prefix of `s` made of IsAttrNameChar characters. */
  function AttrNameRun(s: string): (r: string)
    ensures r <= s
    ensures forall i :: 0 <= i < |r| ==> IsAttrNameChar(r[i])
    ensures |r| == |s| || !IsAttrNameChar(s[|r|])
  {
    if |s| > 0 && IsAttrNameChar(s[0]) then [s[0]] + AttrNameRun(s[1..]) else ""
  }

  /** A match of `/#([a-z]+[a-z0-9-]*)/i` (marker `#`) or of
      `/\.([a-z]+[a-z0-9-]*)/i` (marker `.`): the marker, a letter, then name
      characters. */
  predicate IsMarkedToken(t: string, marker: char) {
    && |t| >= 2 && t[0] == marker && IsAsciiLetter(t[1])
    && forall i :: 1 <= i < |t| ==> IsNameChar(t[i])
  }

  /** All matches, left to right, of the global expression for `marker`. The
      greedy `[a-z]+[a-z0-9-]*` takes the whole run of name characters after
      the marker. */
  function MarkedTokens(s: string, marker: char): (ts: seq<string>)
    ensures forall k :: 0 <= k < |ts| ==> IsMarkedToken(ts[k], marker)
  {
    if |s| < 2 then []
    else if s[0] == marker && IsAsciiLetter(s[1]) then
      var name := NameRun(s[1..]);
      [[marker] + name] + MarkedTokens(s[1 + |name|..], marker)
    else MarkedTokens(s[1..], marker)
  }

  /** A match of `/\[([a-z][a-z-]+)(=['|"]?([^\]]*)['|"]?)?\]/i`: an opening
      bracket, a name of at least two characters starting with a letter, then
      either the closing bracket or `=` and any text up to the first closing
      bracket. */
  predicate IsAttributeToken(t: string) {
    && |t| >= 4 && t[0] == '[' && t[|t| - 1] == ']'
    && IsAsciiLetter(t[1]) && IsAttrNameChar(t[2])
    && ']' !in t[1..|t| - 1]
  }

  /** All matches, left to right, of the attribute expression. */
  function AttributeTokens(s: string): (ts: seq<string>)
    ensures forall k :: 0 <= k < |ts| ==> IsAttributeToken(ts[k])
  {
    if |s| < 4 then []
    else if s[0] == '[' && IsAsciiLetter(s[1]) && IsAttrNameChar(s[2]) then
      var q := 2 + |AttrNameRun(s[2..])|;
      if q < |s| && s[q] == ']' then
        [s[..q + 1]] + AttributeTokens(s[q + 1..])
      else if q < |s| && s[q] == '=' then
        match FindChar(s, ']', q + 1)
        case Some(e) =>
          ValueTokenClosed(s, q, e);
          [s[..e + 1]] + AttributeTokens(s[e + 1..])
        case None => AttributeTokens(s[1..])
      else AttributeTokens(s[1..])
    else AttributeTokens(s[1..])
  }

  /** A bracket, a name and `=` followed by text up to the first closing
      bracket form one attribute token. */
  lemma ValueTokenClosed(s: string, q: nat, e: nat)
    requires |s| >= 4 && s[0] == '[' && IsAsciiLetter(s[1]) && IsAttrNameChar(s[2])
    requires q == 2 + |AttrNameRun(s[2..])| && q < |s| && s[q] == '='
    requires FindChar(s, ']', q + 1) == Some(e)
    ensures e < |s| && IsAttributeToken(s[..e + 1])
  {
    var run := AttrNameRun(s[2..]);
    forall j | 1 <= j < e ensures s[j] != ']' {
      if 2 <= j < q {
        assert s[j] == run[j - 2];
      }
    }
    assert s[..e + 1][1..e] == s[1..e];
  }

  /** `value.replace(/^['"](.*)['"]$/, "$1")`: one pair of surrounding quotes
      is dropped, provided the text between them has no line terminator
      (which `.` does not match). */
  function StripQuotes(v: string): (r: string)
    ensures r == v || (|v| >= 2 && r == v[1..|v| - 1])
  {
    if |v| >= 2 && IsQuote(v[0]) && IsQuote(v[|v| - 1])
       && forall i :: 1 <= i < |v| - 1 ==> !IsLineTerminator(v[i])
    then v[1..|v| - 1]
    else v
  }

  datatype Attr = Attr(name: string, value: string)

  /** Lines 24-29 for one token: drop the brackets, split at `=`, keep the
      first two pieces as label and value, strip one pair of quotes from a
      non-empty value, and use `""` for a missing or empty one. */
  function ParseAttribute(token: string): Attr
    requires |token| >= 2
  {
    var item := token[1..|token| - 1];
    var name := Before(item, '=');
    var value: Option<string> :=
      if |name| < |item| then Some(Before(item[|name| + 1..], '=')) else None;
    var stripped := if value.Some? && value.value != "" then Some(StripQuotes(value.value)) else value;
    Attr(name, if stripped.Some? && stripped.value != "" then stripped.value else "")
  }

  /** What the source reads off the selector before it touches the DOM. */
  datatype ElementSpec = ElementSpec(tag: string, id: Option<string>, classAttr: Option<string>, attrs: seq<Attr>)

  /** Lines 2-6 and the values computed at lines 8-29: the tag (or `div`),
      the single id, the class attribute, and the attribute pairs; a tag the
      document refuses (line 8) and then more than one id token (line 12)
      are errors. */
  function Parse(selector: string): Result<ElementSpec, Exception>
  {
    var run := NameRun(selector);
    var ids := MarkedTokens(selector, '#');
    var classes := MarkedTokens(selector, '.');
    var tokens := AttributeTokens(selector);
    var node := if run != "" then run else "div";
    if !IsElementName(node) then Failure(DomException(InvalidCharacterError))
    else if |ids| > 1 then Failure(Error(OnlyOneIdMessage))
    else
      Success(ElementSpec(
        node,
        if |ids| == 1 then Some(ReplaceFirst(ids[0], "#", "")) else None,
        if |classes| > 0 then Some(RemoveAll(Join(classes, " "), '.')) else None,
        ParseAttributes(tokens)))
  }

  function ParseAttributes(tokens: seq<string>): (attrs: seq<Attr>)
    requires forall k :: 0 <= k < |tokens| ==> |tokens[k]| >= 2
    ensures |attrs| == |tokens|
    ensures forall k :: 0 <= k < |tokens| ==> attrs[k] == ParseAttribute(tokens[k])
  {
    seq(|tokens|, k requires 0 <= k < |tokens| => ParseAttribute(tokens[k]))
  }

  // ------------------------------------------------------------ the element

  /** `getAttribute`: the value of the first attribute with that name. */
  function Lookup(attrs: seq<Attr>, name: string): Option<string>
  {
    if |attrs| == 0 then None
    else if attrs[0].name == name then Some(attrs[0].value)
    else Lookup(attrs[1..], name)
  }

  /** `setAttribute` on an ordered attribute list: an attribute already
      present keeps its place and takes the new value; a new one is
      appended. */
  function WithAttribute(attrs: seq<Attr>, name: string, value: string): (r: seq<Attr>)
    ensures Lookup(r, name) == Some(value)
    ensures forall n :: n != name ==> Lookup(r, n) == Lookup(attrs, n)
    ensures Lookup(attrs, name).None? ==> r == attrs + [Attr(name, value)]
    ensures Lookup(attrs, name).Some? ==> |r| == |attrs|
  {
    if |attrs| == 0 then [Attr(name, value)]
    else if attrs[0].name == name then [Attr(name, value)] + attrs[1..]
    else
      var r := [attrs[0]] + WithAttribute(attrs[1..], name, value);
      assert r[1..] == WithAttribute(attrs[1..], name, value);
      assert attrs == [attrs[0]] + attrs[1..];
      r
  }

  /** The attribute list after setting each pair in turn. */
  function SetEach(attrs: seq<Attr>, pairs: seq<Attr>): seq<Attr>
  {
    if |pairs| == 0 then attrs
    else
      var last := pairs[|pairs| - 1];
      WithAttribute(SetEach(attrs, pairs[..|pairs| - 1]), last.name, last.value)
  }

  /** The attributes of the element the source builds from `spec`: the id,
      then the class, then each attribute pair, all through setAttribute. */
  function Build(spec: ElementSpec): seq<Attr>
  {
    SetEach(IdAndClass(spec), spec.attrs)
  }

  /** The attributes after the id and the class are set. */
  function IdAndClass(spec: ElementSpec): seq<Attr>
  {
    var withId := if spec.id.Some? then WithAttribute([], "id", spec.id.value) else [];
    if spec.classAttr.Some? then WithAttribute(withId, "class", spec.classAttr.value) else withId
  }

  /** A DOM element: its tag and its attributes in document order. */
  class Element {
    const tagName: string
    var attributes: seq<Attr>

    constructor (tagName: string)
      ensures this.tagName == tagName && attributes == []
    {
      this.tagName := tagName;
      attributes := [];
    }

    method SetAttribute(name: string, value: string)
      modifies this
      ensures attributes == WithAttribute(old(attributes), name, value)
    {
      attributes := WithAttribute(attributes, name, value);
    }
  }

  /** createElement (lines 1-31): scan the selector, create the node (failing
      on a name the document refuses), set the id (failing on a second id),
      the class and each attribute in turn. */
  method CreateElement(querySelector: string) returns (r: Result<Element, Exception>)
    ensures r.Failure? <==> Parse(querySelector).Failure?
    ensures r.Failure? ==> r.error == Parse(querySelector).error
    ensures r.Success? ==>
      && fresh(r.value)
      && r.value.tagName == Parse(querySelector).value.tag
      && r.value.attributes == Build(Parse(querySelector).value)
  {
    var nodeType := NameRun(querySelector);
    var ids := MarkedTokens(querySelector, '#');
    var classes := MarkedTokens(querySelector, '.');
    var attributes := AttributeTokens(querySelector);
    var node := if nodeType != "" then nodeType else "div";

    if !IsElementName(node) {
      return Failure(DomException(InvalidCharacterError));
    }
    var element := new Element(node);

    if |ids| > 0 {
      if |ids| > 1 {
        return Failure(Error(OnlyOneIdMessage));
      }
      element.SetAttribute("id", ReplaceFirst(ids[0], "#", ""));
    }

    if |classes| > 0 {
      var attrClasses := RemoveAll(Join(classes, " "), '.');
      element.SetAttribute("class", attrClasses);
    }

    ghost var spec := Parse(querySelector).value;
    assert element.attributes == IdAndClass(spec);
    SetAttributes(element, attributes);
    return Success(element);
  }

  /** The `forEach` of lines 22-31: each token parsed and set in turn. */
  method SetAttributes(element: Element, tokens: seq<string>)
    requires forall k :: 0 <= k < |tokens| ==> |tokens[k]| >= 2
    modifies element
    ensures element.attributes == SetEach(old(element.attributes), ParseAttributes(tokens))
  {
    ghost var start := element.attributes;
    ghost var pairs := ParseAttributes(tokens);
    var i := 0;
    while i < |tokens|
      invariant 0 <= i <= |tokens|
      invariant element.attributes == SetEach(start, pairs[..i])
    {
      var item := ParseAttribute(tokens[i]);
      element.SetAttribute(item.name, item.value);
      assert pairs[..i + 1][..i] == pairs[..i];
      i := i + 1;
    }
    assert pairs[..i] == pairs;
  }

  // ---------------------------------------------------------- serialisation

  function AttributeText(attrs: seq<Attr>): string
  {
    if |attrs| == 0 then ""
    else
      var last := attrs[|attrs| - 1];
      AttributeText(attrs[..|attrs| - 1]) + " " + last.name + "=\"" + last.value + "\""
  }

  /** The markup of an element without children, `<tag a="v"></tag>`. */
  function OuterHtml(tag: string, attrs: seq<Attr>): string
  {
    "<" + tag + AttributeText(attrs) + "></" + tag + ">"
  }

  /** `createElement(selector).outerHTML`. */
  function CreateElementHtml(selector: string): Result<string, Exception>
  {
    var spec :- Parse(selector);
    Success(OuterHtml(spec.tag, Build(spec)))
  }
}

/** What createElement promises about the selector forms it accepts. */
module ElementCreatorFacts {
  import opened Wrappers
  import opened Js
  import opened ElementCreator

  /** `[a-z][a-z-]+` under the `i` flag: an attribute name the scanner accepts. */
  predicate IsAttrName(name: string) {
    |name| >= 2 && IsAsciiLetter(name[0]) && forall i :: 1 <= i < |name| ==> IsAttrNameChar(name[i])
  }

  /** The class names of the class tokens, without their dots. */
  function Names(tokens: seq<string>): (names: seq<string>)
    ensures |names| == |tokens|
    ensures forall k :: 0 <= k < |tokens| && |tokens[k]| > 0 ==> names[k] == tokens[k][1..]
  {
    seq(|tokens|, k requires 0 <= k < |tokens| => if |tokens[k]| > 0 then tokens[k][1..] else "")
  }

  /** The tag is the leading run of letters, digits and hyphens, or `div`
      when the selector does not start with one. */
  lemma ParsedTag(selector: string)
    ensures Parse(selector).Success? ==>
      var tag := Parse(selector).value.tag;
      if |selector| > 0 && IsNameChar(selector[0]) then
        && tag <= selector
        && (forall i :: 0 <= i < |tag| ==> IsNameChar(tag[i]))
        && (|tag| == |selector| || !IsNameChar(selector[|tag|]))
      else tag == "div"
  {
  }

  /** A selector that starts with a digit or a hyphen names no element. */
  predicate BadTagStart(selector: string) {
    |selector| > 0 && (IsDigit(selector[0]) || selector[0] == '-')
  }

  /** Parsing fails exactly when the leading name run starts with a digit or
      a hyphen, which the document refuses, or when there is more than one
      `#id` token; the refused name is reported first. */
  lemma ParseErrors(selector: string)
    ensures Parse(selector).Failure? <==>
      BadTagStart(selector) || |MarkedTokens(selector, '#')| > 1
    ensures Parse(selector).Failure? ==>
      Parse(selector).error == (if BadTagStart(selector) then DomException(InvalidCharacterError) else Error(OnlyOneIdMessage))
  {
  }

  /** With a tag the document accepts, more than one `#id` token is the one
      error, with its fixed message. */
  lemma OnlyOneId(selector: string)
    requires !BadTagStart(selector)
    ensures Parse(selector).Failure? <==> |MarkedTokens(selector, '#')| > 1
    ensures Parse(selector).Failure? ==> Parse(selector).error == Error(OnlyOneIdMessage)
  {
  }

  /** A single `#name` token sets the id to `name`, without the `#`. */
  lemma {:induction false} IdWithoutHash(selector: string)
    requires |MarkedTokens(selector, '#')| == 1
    ensures var t := MarkedTokens(selector, '#')[0];
      && (Parse(selector).Success? <==> !BadTagStart(selector))
      && (Parse(selector).Success? ==> Parse(selector).value.id == Some(t[1..]))
      && IsAsciiLetter(t[1])
      && forall i :: 1 <= i < |t| ==> IsNameChar(t[i])
  {
    var t := MarkedTokens(selector, '#')[0];
    assert OccursAt(t, "#", 0);
    assert IndexOf(t, "#") == Some(0);
    assert ReplaceFirst(t, "#", "") == t[1..];
  }

  /** The class attribute is the class names in order, joined by single
      spaces; there is none without class tokens. */
  lemma ClassAttribute(selector: string)
    ensures var classes := MarkedTokens(selector, '.');
      Parse(selector).Success? ==>
        Parse(selector).value.classAttr
          == if |classes| == 0 then None else Some(Join(Names(classes), " "))
  {
    var classes := MarkedTokens(selector, '.');
    if |classes| > 0 {
      JoinWithoutDots(classes);
    }
  }

  lemma {:induction false} JoinWithoutDots(tokens: seq<string>)
    requires forall k :: 0 <= k < |tokens| ==> IsMarkedToken(tokens[k], '.')
    ensures RemoveAll(Join(tokens, " "), '.') == Join(Names(tokens), " ")
  {
    if |tokens| > 0 {
      var t := tokens[0];
      assert t == "." + t[1..];
      assert '.' !in t[1..] by {
        forall i | 0 <= i < |t[1..]| ensures t[1..][i] != '.' {
          assert IsNameChar(t[i + 1]);
        }
      }
      RemoveAllConcat(".", t[1..], '.');
      RemoveAllAbsent(t[1..], '.');
      if |tokens| == 1 {
      } else {
        JoinWithoutDots(tokens[1..]);
        assert Names(tokens[1..]) == Names(tokens)[1..];
        RemoveAllConcat(t + " ", Join(tokens[1..], " "), '.');
        RemoveAllConcat(t, " ", '.');
        RemoveAllAbsent(" ", '.');
        assert Join(tokens, " ") == t + " " + Join(tokens[1..], " ");
      }
    }
  }

  predicate IsName(name: string) {
    |name| >= 1 && IsAsciiLetter(name[0]) && forall i :: 0 <= i < |name| ==> IsNameChar(name[i])
  }

  lemma {:induction false} NoMarkerNoTokens(s: string, marker: char)
    requires marker !in s
    ensures MarkedTokens(s, marker) == []
  {
    if |s| >= 2 {
      assert s[0] != marker;
      assert marker !in s[1..];
      NoMarkerNoTokens(s[1..], marker);
    }
  }

  lemma {:induction false} NameRunOf(x: string, y: string)
    requires forall i :: 0 <= i < |x| ==> IsNameChar(x[i])
    requires |y| == 0 || !IsNameChar(y[0])
    ensures NameRun(x + y) == x
  {
    if |x| == 0 {
      assert x + y == y;
    } else {
      assert (x + y)[1..] == x[1..] + y;
      NameRunOf(x[1..], y);
    }
  }

  lemma {:induction false} AttrNameRunOf(x: string, y: string)
    requires forall i :: 0 <= i < |x| ==> IsAttrNameChar(x[i])
    requires |y| > 0 && !IsAttrNameChar(y[0])
    ensures AttrNameRun(x + y) == x
  {
    if |x| == 0 {
      assert x + y == y;
    } else {
      assert (x + y)[1..] == x[1..] + y;
      AttrNameRunOf(x[1..], y);
    }
  }

  lemma {:induction false} BeforeOf(x: string, c: char, y: string)
    requires c !in x
    ensures Before(x + [c] + y, c) == x
  {
    if |x| == 0 {
      assert x + [c] + y == [c] + y;
    } else {
      assert (x + [c] + y)[1..] == x[1..] + [c] + y;
      assert c !in x[1..];
      BeforeOf(x[1..], c, y);
    }
  }

  lemma BeforeAbsent(s: string, c: char)
    requires c !in s
    ensures Before(s, c) == s
  {
  }

  /** Text without the marker contributes no token and hides none. */
  lemma {:induction false} MarkedTokensSkip(x: string, y: string, marker: char)
    requires marker !in x
    ensures MarkedTokens(x + y, marker) == MarkedTokens(y, marker)
  {
    if |x| > 0 {
      var s := x + y;
      assert s[0] == x[0] != marker;
      assert marker !in x[1..];
      if |s| >= 2 {
        assert s[1..] == x[1..] + y;
        MarkedTokensSkip(x[1..], y, marker);
      } else {
        assert |y| == 0;
      }
    } else {
      assert x + y == y;
    }
  }

  /** A marker followed by a name that the next character ends is one token. */
  lemma MarkedTokensAt(name: string, y: string, marker: char)
    requires IsName(name)
    requires |y| == 0 || !IsNameChar(y[0])
    ensures MarkedTokens([marker] + name + y, marker) == [[marker] + name] + MarkedTokens(y, marker)
  {
    var s := [marker] + name + y;
    assert s[1..] == name + y;
    NameRunOf(name, y);
    assert s[1 + |name|..] == y;
  }

  /** Text without `[` contributes no attribute token and hides none. */
  lemma {:induction false} AttributeTokensSkip(x: string, y: string)
    requires '[' !in x
    ensures AttributeTokens(x + y) == AttributeTokens(y)
  {
    if |x| > 0 {
      var s := x + y;
      assert s[0] == x[0] != '[';
      assert '[' !in x[1..];
      if |s| >= 4 {
        assert s[1..] == x[1..] + y;
        AttributeTokensSkip(x[1..], y);
      } else {
        assert |y| < 4;
      }
    } else {
      assert x + y == y;
    }
  }

  lemma NoEqualsInName(name: string)
    requires IsAttrName(name)
    ensures '=' !in name && ']' !in name && '[' !in name && '#' !in name && '.' !in name
  {
    forall i | 0 <= i < |name|
      ensures name[i] != '=' && name[i] != ']' && name[i] != '[' && name[i] != '#' && name[i] != '.'
    {
      if i > 0 { assert IsAttrNameChar(name[i]); }
    }
  }

  /** `[name]` is one attribute token. */
  lemma ValuelessToken(name: string, y: string)
    requires IsAttrName(name)
    ensures var t := "[" + name + "]";
      AttributeTokens(t + y) == [t] + AttributeTokens(y) && ParseAttribute(t) == Attr(name, "")
  {
    var t := "[" + name + "]";
    var s := t + y;
    assert s[2..] == name[1..] + ("]" + y);
    AttrNameRunOf(name[1..], "]" + y);
    assert s[..|name| + 2] == t;
    assert s[|name| + 2..] == y;
    assert t[1..|t| - 1] == name;
    NoEqualsInName(name);
    BeforeAbsent(name, '=');
  }

  /** `[name='v']` (or with double quotes) is one attribute token, parsed to
      the value `v`. */
  lemma QuotedToken(name: string, quote: char, v: string, y: string)
    requires IsAttrName(name) && IsQuote(quote)
    requires ']' !in v && '=' !in v
    requires forall i :: 0 <= i < |v| ==> !IsLineTerminator(v[i])
    ensures var t := "[" + name + "=" + [quote] + v + [quote] + "]";
      AttributeTokens(t + y) == [t] + AttributeTokens(y)
  {
    var quoted := [quote] + v + [quote];
    assert ']' !in quoted;
    ValueToken(name, quoted, y);
    assert "[" + name + "=" + [quote] + v + [quote] + "]" == "[" + name + "=" + quoted + "]";
  }

  /** `[name=rest]` with no `]` in `rest` is one attribute token, followed by
      the tokens of what comes after it. */
  lemma ValueToken(name: string, rest: string, y: string)
    requires IsAttrName(name) && ']' !in rest
    ensures var t := "[" + name + "=" + rest + "]";
      AttributeTokens(t + y) == [t] + AttributeTokens(y)
  {
    var t := "[" + name + "=" + rest + "]";
    var s := t + y;
    var q := |name| + 1;
    assert s[2..] == name[1..] + ("=" + rest + "]" + y);
    AttrNameRunOf(name[1..], "=" + rest + "]" + y);
    assert s[q] == '=';
    assert FindChar(s, ']', q + 1) == Some(|t| - 1) by {
      assert s[|t| - 1] == ']';
      forall j | q + 1 <= j < |t| - 1 ensures s[j] != ']' {
        assert s[j] == rest[j - q - 1];
      }
    }
    assert s[..|t|] == t;
    assert s[|t|..] == y;
  }


  lemma QuotedValue(name: string, quote: char, v: string)
    requires IsAttrName(name) && IsQuote(quote)
    requires ']' !in v && '=' !in v
    requires forall i :: 0 <= i < |v| ==> !IsLineTerminator(v[i])
    ensures ParseAttribute("[" + name + "=" + [quote] + v + [quote] + "]") == Attr(name, v)
  {
    var t := "[" + name + "=" + [quote] + v + [quote] + "]";
    var quoted := [quote] + v + [quote];
    NoEqualsInName(name);
    assert '=' !in quoted;
    SplitAtEquals(name, quoted, t);
    StripOneQuotePair(quote, v);
  }

  /** The token `[name=rest]`, with no `=` in either part, gives the label
      `name` and the value `rest` with one pair of quotes stripped. */
  lemma SplitAtEquals(name: string, rest: string, token: string)
    requires '=' !in name && '=' !in rest
    requires token == "[" + name + "=" + rest + "]"
    ensures ParseAttribute(token) ==
      Attr(name, if rest != "" && StripQuotes(rest) != "" then StripQuotes(rest) else "")
  {
    var item := token[1..|token| - 1];
    assert item == name + ['='] + rest;
    BeforeOf(name, '=', rest);
    assert item[|name| + 1..] == rest;
    BeforeAbsent(rest, '=');
  }

  lemma StripOneQuotePair(quote: char, v: string)
    requires IsQuote(quote)
    requires forall i :: 0 <= i < |v| ==> !IsLineTerminator(v[i])
    ensures StripQuotes([quote] + v + [quote]) == v
  {
    var quoted := [quote] + v + [quote];
    assert quoted[1..|quoted| - 1] == v;
    forall i | 1 <= i < |quoted| - 1 ensures !IsLineTerminator(quoted[i]) {
      assert quoted[i] == v[i - 1];
    }
  }

  /** `[name]` yields the attribute `name` with the empty value, and nothing
      else: tag `div`, no id, no class. */
  lemma ValuelessAttribute(name: string)
    requires IsAttrName(name)
    ensures Parse("[" + name + "]") == Success(ElementSpec("div", None, None, [Attr(name, "")]))
  {
    var s := "[" + name + "]";
    NoEqualsInName(name);
    assert '#' !in s && '.' !in s;
    NoMarkerNoTokens(s, '#');
    NoMarkerNoTokens(s, '.');
    assert NameRun(s) == "";
    ValuelessToken(name, "");
    assert s + "" == s;
    assert AttributeTokens(s) == [s];
    assert ParseAttributes([s]) == [Attr(name, "")];
  }

  /** `[name='v']` and `[name="v"]` yield the attribute `name` with value `v`,
      one pair of quotes stripped, when `v` holds no `]`, no `=` and no line
      terminator. */
  lemma QuotedAttribute(name: string, quote: char, v: string)
    requires IsAttrName(name) && IsQuote(quote)
    requires ']' !in v && '=' !in v
    requires forall i :: 0 <= i < |v| ==> !IsLineTerminator(v[i])
    ensures var s := "[" + name + "=" + [quote] + v + [quote] + "]";
      Parse(s).Success? ==> Parse(s).value.attrs == [Attr(name, v)]
  {
    var s := "[" + name + "=" + [quote] + v + [quote] + "]";
    QuotedToken(name, quote, v, "");
    assert s + "" == s;
    QuotedValue(name, quote, v);
    assert ParseAttributes([s]) == [Attr(name, v)];
  }

  /** The value of each attribute of the built element: a parsed attribute
      pair wins (the last one with that name), then the class or id. */
  lemma BuiltAttribute(spec: ElementSpec, name: string)
    ensures Lookup(Build(spec), name) ==
      match LastValue(spec.attrs, name)
      case Some(v) => Some(v)
      case None =>
        if name == "class" then spec.classAttr
        else if name == "id" then spec.id
        else None
  {
    SetEachLookup(IdAndClass(spec), spec.attrs, name);
  }

  /** The value of the last pair named `name`. */
  function LastValue(pairs: seq<Attr>, name: string): Option<string>
  {
    if |pairs| == 0 then None
    else if pairs[|pairs| - 1].name == name then Some(pairs[|pairs| - 1].value)
    else LastValue(pairs[..|pairs| - 1], name)
  }

  lemma {:induction false} SetEachLookup(attrs: seq<Attr>, pairs: seq<Attr>, name: string)
    ensures Lookup(SetEach(attrs, pairs), name) ==
      if LastValue(pairs, name).Some? then LastValue(pairs, name) else Lookup(attrs, name)
  {
    if |pairs| > 0 {
      SetEachLookup(attrs, pairs[..|pairs| - 1], name);
    }
  }

  /** The parts of a compound selector `tag#id.c1.c2[a='v'][b]` as the
      scanners and the document accept them. */
  predicate CompoundParts(tag: string, id: string, c1: string, c2: string, a: string, v: string, b: string) {
    && |tag| > 0 && IsAsciiLetter(tag[0]) && (forall i :: 0 <= i < |tag| ==> IsNameChar(tag[i]))
    && IsName(id) && IsName(c1) && IsName(c2)
    && IsAttrName(a) && IsAttrName(b)
    && ']' !in v && '=' !in v && '#' !in v && '.' !in v && '[' !in v
    && (forall i :: 0 <= i < |v| ==> !IsLineTerminator(v[i]))
  }

  function Compound(tag: string, id: string, c1: string, c2: string, a: string, v: string, b: string): string {
    tag + ("#" + id + ("." + c1 + ("." + c2 + ("[" + a + "='" + v + "']" + ("[" + b + "]")))))
  }

  lemma CompoundIds(tag: string, id: string, c1: string, c2: string, a: string, v: string, b: string)
    requires CompoundParts(tag, id, c1, c2, a, v, b)
    ensures MarkedTokens(Compound(tag, id, c1, c2, a, v, b), '#') == ["#" + id]
  {
    var attrs := "[" + a + "='" + v + "']" + ("[" + b + "]");
    var rest := "." + c1 + ("." + c2 + attrs);
    assert '#' !in tag;
    MarkedTokensSkip(tag, "#" + id + rest, '#');
    MarkedTokensAt(id, rest, '#');
    assert '#' !in rest by {
      MarkerNotInAttributes(a, v, b, '#');
    }
    NoMarkerNoTokens(rest, '#');
  }

  lemma CompoundClasses(tag: string, id: string, c1: string, c2: string, a: string, v: string, b: string)
    requires CompoundParts(tag, id, c1, c2, a, v, b)
    ensures MarkedTokens(Compound(tag, id, c1, c2, a, v, b), '.') == ["." + c1, "." + c2]
  {
    var attrs := "[" + a + "='" + v + "']" + ("[" + b + "]");
    var head := tag + "#" + id;
    var rest := "." + c1 + ("." + c2 + attrs);
    assert Compound(tag, id, c1, c2, a, v, b) == head + rest;
    assert '.' !in head by {
      DotNotInHead(tag, id);
    }
    MarkedTokensSkip(head, rest, '.');
    MarkedTokensAt(c1, "." + c2 + attrs, '.');
    MarkedTokensAt(c2, attrs, '.');
    assert '.' !in attrs by {
      MarkerNotInAttributes(a, v, b, '.');
    }
    NoMarkerNoTokens(attrs, '.');
  }

  lemma DotNotInHead(tag: string, id: string)
    requires forall i :: 0 <= i < |tag| ==> IsNameChar(tag[i])
    requires IsName(id)
    ensures '.' !in tag + "#" + id
  {
    forall i | 0 <= i < |tag + "#" + id| ensures (tag + "#" + id)[i] != '.' {
      if i < |tag| {
        assert (tag + "#" + id)[i] == tag[i];
      } else if i > |tag| {
        assert (tag + "#" + id)[i] == id[i - |tag| - 1];
      }
    }
  }

  /** Neither marker occurs in the two attribute tokens of a compound
      selector. */
  lemma MarkerNotInAttributes(a: string, v: string, b: string, marker: char)
    requires IsAttrName(a) && IsAttrName(b)
    requires marker == '.' || marker == '#'
    requires marker !in v
    ensures marker !in "[" + a + "='" + v + "']" + ("[" + b + "]")
  {
    assert marker !in a by {
      NotAttrNameChar(a, marker);
    }
    assert marker !in b by {
      NotAttrNameChar(b, marker);
    }
  }

  lemma NotAttrNameChar(name: string, c: char)
    requires IsAttrName(name) && !IsAsciiLetter(c) && !IsAttrNameChar(c)
    ensures c !in name
  {
  }

  lemma CompoundAttributeTokens(tag: string, id: string, c1: string, c2: string, a: string, v: string, b: string)
    requires CompoundParts(tag, id, c1, c2, a, v, b)
    ensures AttributeTokens(Compound(tag, id, c1, c2, a, v, b))
      == ["[" + a + "=" + ['\''] + v + ['\''] + "]", "[" + b + "]"]
  {
    var ta := "[" + a + "=" + ['\''] + v + ['\''] + "]";
    var tb := "[" + b + "]";
    var head := tag + "#" + id + "." + c1 + "." + c2;
    assert "[" + a + "='" + v + "']" == ta;
    assert Compound(tag, id, c1, c2, a, v, b) == head + (ta + tb);
    assert '[' !in head;
    AttributeTokensSkip(head, ta + tb);
    QuotedToken(a, '\'', v, tb);
    ValuelessToken(b, "");
    assert tb + "" == tb;
  }

  lemma CompoundAttributes(tag: string, id: string, c1: string, c2: string, a: string, v: string, b: string)
    requires CompoundParts(tag, id, c1, c2, a, v, b)
    ensures var ts := AttributeTokens(Compound(tag, id, c1, c2, a, v, b));
      ParseAttributes(ts) == [Attr(a, v), Attr(b, "")]
  {
    CompoundAttributeTokens(tag, id, c1, c2, a, v, b);
    QuotedValue(a, '\'', v);
    ValuelessToken(b, "");
  }

  /** A compound selector `tag#id.c1.c2[a='v'][b]` yields its tag, its id,
      both classes in order and both attributes. */
  lemma CompoundSelector(tag: string, id: string, c1: string, c2: string, a: string, v: string, b: string)
    requires CompoundParts(tag, id, c1, c2, a, v, b)
    ensures Parse(Compound(tag, id, c1, c2, a, v, b))
      == Success(ElementSpec(tag, Some(id), Some(c1 + " " + c2), [Attr(a, v), Attr(b, "")]))
  {
    var s := Compound(tag, id, c1, c2, a, v, b);
    NameRunOf(tag, "#" + id + ("." + c1 + ("." + c2 + ("[" + a + "='" + v + "']" + ("[" + b + "]")))));
    CompoundIds(tag, id, c1, c2, a, v, b);
    IdWithoutHash(s);
    CompoundClasses(tag, id, c1, c2, a, v, b);
    JoinWithoutDots(["." + c1, "." + c2]);
    assert Names(["." + c1, "." + c2]) == [c1, c2];
    CompoundAttributes(tag, id, c1, c2, a, v, b);
  }
}
