/** The test host (src/test-host.ts): a generated component whose template
    renders the subject's element with a property binding per input and an
    event binding per output, whose fields hold the inputs' initial values,
    and whose output handlers call every watch registered for the output. */
module TestHost {
  import opened Wrappers
  import opened Js
  import opened Reflection
  import opened ElementCreator
  import Selector
  import opened MockComponent

  /** A watch callback; only its identity matters. */
  type ActionId = nat

  /** OutputWatch (lines 8-11). */
  datatype OutputWatch = OutputWatch(name: string, action: ActionId)

  /** MockTypeAndSetup (lines 13-16): a setup callback registered for a
      component type. */
  datatype MockTypeAndSetup = MockTypeAndSetup(componentType: ComponentType, setup: SetupId)

  const TagJoint := "><"
  const XmlTagStart := "<?XML"
  const XmlTagEnd := "/>"
  const UndefinedSelectorMessage := "Cannot read properties of undefined (reading 'match')"

  // ---------------------------------------------------------- stripXmlTag

  /** The lazy `.+?\/>` tail of the expression, after its first character:
      the end of the first `/>` at or after `p` reached through characters
      other than line terminators. */
  function LazyClose(s: string, p: nat): (r: Option<nat>)
    ensures r.Some? ==> p + 2 <= r.value <= |s| && OccursAt(s, XmlTagEnd, r.value - 2)
    decreases |s| - p
  {
    if OccursAt(s, XmlTagEnd, p) then Some(p + 2)
    else if p < |s| && !IsLineTerminator(s[p]) then LazyClose(s, p + 1)
    else None
  }

  /** The end of a match of `/<\?XML.+?\/>/` starting at `i`, if any. */
  function XmlTagMatchAt(s: string, i: nat): (r: Option<nat>)
    ensures r.Some? ==> OccursAt(s, XmlTagStart, i) && i + 8 <= r.value <= |s|
  {
    if OccursAt(s, XmlTagStart, i) && i + 5 < |s| && !IsLineTerminator(s[i + 5]) then LazyClose(s, i + 6)
    else None
  }

  /** The leftmost match at or after `from`, as (start, end). */
  function FirstXmlTag(s: string, from: nat): (r: Option<(nat, nat)>)
    ensures r.Some? ==> from <= r.value.0 && XmlTagMatchAt(s, r.value.0) == Some(r.value.1)
    ensures r.Some? ==> forall i :: from <= i < r.value.0 ==> XmlTagMatchAt(s, i).None?
    ensures r.None? ==> forall i :: from <= i ==> XmlTagMatchAt(s, i).None?
    decreases |s| - from
  {
    if from >= |s| then None
    else
      match XmlTagMatchAt(s, from)
      case Some(e) => Some((from, e))
      case None => FirstXmlTag(s, from + 1)
  }

  /** stripXmlTag (lines 57-59): remove the first `<?XML…/>` tag. */
  function StripXmlTag(html: string): string
  {
    match FirstXmlTag(html, 0)
    case None => html
    case Some((i, j)) => html[..i] + html[j..]
  }

  /** A string without `<?XML` comes back unchanged. */
  lemma StripXmlTagAbsent(html: string)
    requires forall i :: !OccursAt(html, XmlTagStart, i)
    ensures StripXmlTag(html) == html
  {
  }

  /** Exactly the first XML tag is removed: with no `<` before it, a body of
      at least one character, no line terminator and no `/>` in the body,
      the tag goes and everything around it, later tags included, stays. */
  lemma StripXmlTagRemovesFirst(pre: string, body: string, post: string)
    requires '<' !in pre
    requires |body| > 0 && forall k :: 0 <= k < |body| ==> !IsLineTerminator(body[k])
    requires forall k :: !OccursAt(body, XmlTagEnd, k)
    ensures StripXmlTag(pre + XmlTagStart + body + XmlTagEnd + post) == pre + post
  {
    var t := XmlTagStart + body + XmlTagEnd;
    assert pre + XmlTagStart + body + XmlTagEnd + post == pre + t + post;
    XmlTagMatchAtBody(pre, body, post);
    StripFirstMatch(pre, t, post);
  }

  /** A match spanning exactly `t`, after a prefix without `<`, is the one
      removed. */
  lemma StripFirstMatch(pre: string, t: string, post: string)
    requires '<' !in pre
    requires XmlTagMatchAt(pre + t + post, |pre|) == Some(|pre| + |t|)
    ensures StripXmlTag(pre + t + post) == pre + post
  {
    var s := pre + t + post;
    assert forall j :: 0 <= j < |pre| ==> XmlTagMatchAt(s, j).None? by {
      assert s == pre + (t + post);
      NoXmlTagInPrefix(pre, t + post);
    }
    FirstXmlTagAt(s, |pre|, |pre| + |t|);
    assert s[..|pre|] == pre && s[|pre| + |t|..] == post;
  }

  /** The match at the start of `<?XML`, with a body as above, ends right
      after the first `/>`. */
  lemma XmlTagMatchAtBody(pre: string, body: string, post: string)
    requires |body| > 0 && forall k :: 0 <= k < |body| ==> !IsLineTerminator(body[k])
    requires forall k :: !OccursAt(body, XmlTagEnd, k)
    ensures XmlTagMatchAt(pre + XmlTagStart + body + XmlTagEnd + post, |pre|) == Some(|pre| + 5 + |body| + 2)
  {
    PiecesAt(pre, XmlTagStart, body, XmlTagEnd, post);
    XmlTagMatchAtParts(pre + XmlTagStart + body + XmlTagEnd + post, |pre|, body);
  }

  lemma XmlTagMatchAtParts(s: string, i: nat, body: string)
    requires |body| > 0 && forall k :: 0 <= k < |body| ==> !IsLineTerminator(body[k])
    requires forall k :: !OccursAt(body, XmlTagEnd, k)
    requires i + 5 + |body| + 2 <= |s|
    requires s[i..i + 5] == XmlTagStart && s[i + 5..i + 5 + |body|] == body
    requires s[i + 5 + |body|..i + 5 + |body| + 2] == XmlTagEnd
    ensures XmlTagMatchAt(s, i) == Some(i + 5 + |body| + 2)
  {
    var q := i + 5 + |body|;
    assert s[q] == s[q..q + 2][0] == '/';
    BodyScan(s, i + 5, body);
    LazyCloseThrough(s, i + 6, q);
  }

  /** Where each piece of a concatenation of five lies. */
  lemma PiecesAt(pre: string, a: string, body: string, c: string, post: string)
    ensures var s := pre + a + body + c + post;
      var i, j, k := |pre|, |pre| + |a|, |pre| + |a| + |body|;
      && |s| == k + |c| + |post|
      && s[i..j] == a && s[j..k] == body && s[k..k + |c|] == c
  {
  }

  /** Inside a body without `/>` or line terminators, followed by `/>`, no
      `/>` starts before the closing one. */
  lemma BodyScan(s: string, start: nat, body: string)
    requires |body| > 0 && forall k :: 0 <= k < |body| ==> !IsLineTerminator(body[k])
    requires forall k :: !OccursAt(body, XmlTagEnd, k)
    requires start + |body| + 2 <= |s| && s[start..start + |body|] == body
    requires s[start + |body|] == '/'
    ensures !IsLineTerminator(s[start])
    ensures forall k :: start + 1 <= k < start + |body| ==> !OccursAt(s, XmlTagEnd, k) && !IsLineTerminator(s[k])
  {
    var q := start + |body|;
    assert s[start] == body[0];
    forall k | start + 1 <= k < q ensures !OccursAt(s, XmlTagEnd, k) && !IsLineTerminator(s[k]) {
      var b := k - start;
      assert s[k] == body[b];
      if k + 1 < q {
        assert s[k + 1] == body[b + 1];
        assert !OccursAt(body, XmlTagEnd, b);
        assert body[b..b + 2] == [body[b], body[b + 1]];
        assert s[k..k + 2] == [s[k], s[k + 1]];
      } else {
        assert s[k..k + 2] == [s[k], s[k + 1]];
      }
    }
  }

  /** No match starts inside a prefix without `<`. */
  lemma NoXmlTagInPrefix(pre: string, rest: string)
    requires '<' !in pre
    ensures forall j :: 0 <= j < |pre| ==> XmlTagMatchAt(pre + rest, j).None?
  {
    forall j | 0 <= j < |pre| ensures XmlTagMatchAt(pre + rest, j).None? {
      assert (pre + rest)[j] == pre[j];
    }
  }

  /** A match at `i` with none before it is the first, and the one
      removed. */
  lemma FirstXmlTagAt(s: string, i: nat, e: nat)
    requires XmlTagMatchAt(s, i) == Some(e)
    requires forall j :: 0 <= j < i ==> XmlTagMatchAt(s, j).None?
    ensures FirstXmlTag(s, 0) == Some((i, e))
    ensures i <= e <= |s| && StripXmlTag(s) == s[..i] + s[e..]
  {
  }

  lemma {:induction false} LazyCloseThrough(s: string, p: nat, q: nat)
    requires p <= q && OccursAt(s, XmlTagEnd, q)
    requires forall k :: p <= k < q ==> !OccursAt(s, XmlTagEnd, k) && !IsLineTerminator(s[k])
    ensures LazyClose(s, p) == Some(q + 2)
    decreases q - p
  {
    if p < q {
      LazyCloseThrough(s, p + 1, q);
    }
  }

  // ---------------------------------------------------------- bindings

  /** The input pattern of line 66, `[n]="n"`. */
  function InputBinding(name: string): string
  {
    "[" + name + "]=\"" + name + "\""
  }

  /** The output pattern of line 67, `(o)="o($event)"`. */
  function OutputBinding(name: string): string
  {
    "(" + name + ")=\"" + name + "($event)\""
  }

  function InputBindings(names: seq<string>): (r: seq<string>)
    ensures |r| == |names| && forall i :: 0 <= i < |names| ==> r[i] == InputBinding(names[i])
  {
    seq(|names|, i requires 0 <= i < |names| => InputBinding(names[i]))
  }

  function OutputBindings(names: seq<string>): (r: seq<string>)
    ensures |r| == |names| && forall i :: 0 <= i < |names| ==> r[i] == OutputBinding(names[i])
  {
    seq(|names|, i requires 0 <= i < |names| => OutputBinding(names[i]))
  }

  /** addAttributes as written (lines 71-76): the attribute text goes to
      `String.prototype.replace` as a replacement string, so `$$`, `$&`,
      `` $` `` and `$'` in it are expanded. */
  function AddAttributes(tag: string, attributes: seq<string>): string
  {
    ReplaceFirst(tag, TagJoint, " " + Join(attributes, " ") + TagJoint)
  }

  /** addAttributes as evidently intended: the attribute text inserted
      verbatim, after a space, before the first `><`. */
  function InsertAttributes(tag: string, attributes: seq<string>): string
  {
    match IndexOf(tag, TagJoint)
    case None => tag
    case Some(i) => tag[..i] + " " + Join(attributes, " ") + tag[i..]
  }

  /** The first `><` of `x + "><" + y` is the one after `x` when `x` holds
      no `>`. */
  lemma FirstJoint(x: string, y: string)
    requires '>' !in x
    ensures IndexOf(x + TagJoint + y, TagJoint) == Some(|x|)
  {
    var s := x + TagJoint + y;
    assert s[|x|..|x| + 2] == TagJoint;
    assert OccursAt(s, TagJoint, |x|);
    forall j | 0 <= j < |x| ensures !OccursAt(s, TagJoint, j) {
      assert s[j] == x[j];
    }
  }

  /** InsertAttributes puts a space and the space-joined attributes right
      before the first `><` and keeps everything else; an empty list still
      inserts the space. */
  lemma InsertBeforeFirstJoint(x: string, y: string, attributes: seq<string>)
    requires '>' !in x
    ensures InsertAttributes(x + TagJoint + y, attributes) == x + " " + Join(attributes, " ") + TagJoint + y
    ensures InsertAttributes(x + TagJoint + y, []) == x + " " + TagJoint + y
  {
    FirstJoint(x, y);
    var s := x + TagJoint + y;
    assert s[..|x|] == x && s[|x|..] == TagJoint + y;
  }

  /** A string without `><` is left unchanged. */
  lemma InsertWithoutJoint(tag: string, attributes: seq<string>)
    requires forall i :: !OccursAt(tag, TagJoint, i)
    ensures InsertAttributes(tag, attributes) == tag
    ensures AddAttributes(tag, attributes) == tag
  {
  }

  /** As written and as intended agree whenever the attribute text has no
      expandable `$` pattern. */
  lemma AddAttributesAgrees(tag: string, attributes: seq<string>)
    requires LiteralReplacement(" " + Join(attributes, " ") + TagJoint)
    ensures AddAttributes(tag, attributes) == InsertAttributes(tag, attributes)
  {
    ReplaceFirstLiteral(tag, TagJoint, " " + Join(attributes, " ") + TagJoint);
    if IndexOf(tag, TagJoint).Some? {
      var i := IndexOf(tag, TagJoint).value;
      assert tag[i..] == TagJoint + tag[i + 2..];
    }
  }

  /** An input name ending in `$$`, on any element markup: as written the
      binding comes out with one `$` (`a$$` binds `[a$]="a$"`), so the
      template differs from the corrected one, which keeps the name. */
  lemma DollarPairCollapses(x: string, y: string, a: string)
    requires '>' !in x && '$' !in a
    ensures AddAttributes(x + TagJoint + y, InputBindings([a + "$$"])) == x + " " + InputBinding(a + "$") + TagJoint + y
    ensures InsertAttributes(x + TagJoint + y, InputBindings([a + "$$"])) == x + " " + InputBinding(a + "$$") + TagJoint + y
    ensures AddAttributes(x + TagJoint + y, InputBindings([a + "$$"])) != InsertAttributes(x + TagJoint + y, InputBindings([a + "$$"]))
  {
    var binding := InputBinding(a + "$$");
    var r := " " + binding + TagJoint;
    assert Join(InputBindings([a + "$$"]), " ") == binding by {
      assert InputBindings([a + "$$"]) == [binding];
    }
    assert ReplaceFirst(x + TagJoint + y, TagJoint, r) == x + " " + InputBinding(a + "$") + TagJoint + y by {
      ReplaceFirstAtJoint(x, y, r);
      DollarBindingSubstituted(a, x, y);
    }
    InsertBeforeFirstJoint(x, y, InputBindings([a + "$$"]));
    assert |InputBinding(a + "$")| < |binding|;
  }

  /** The binding text of a name ending in `$$`, as a replacement string,
      expands to the binding of the name with one `$` fewer. */
  lemma DollarBindingSubstituted(a: string, before: string, after: string)
    requires '$' !in a
    ensures Substitute(" " + InputBinding(a + "$$") + TagJoint, TagJoint, before, after) == " " + InputBinding(a + "$") + TagJoint
  {
    var p1, p2, p3 := " [" + a, "]=\"" + a, "\"><";
    assert " " + InputBinding(a + "$$") + TagJoint == p1 + "$$" + (p2 + "$$" + p3);
    SubstituteTwoPairs(p1, p2, p3, before, after);
    assert p1 + "$" + (p2 + "$" + p3) == " " + InputBinding(a + "$") + TagJoint;
  }

  /** replace on `x + "><" + y`, `x` without `>`, substitutes at the joint
      after `x`. */
  lemma ReplaceFirstAtJoint(x: string, y: string, r: string)
    requires '>' !in x
    ensures ReplaceFirst(x + TagJoint + y, TagJoint, r) == x + Substitute(r, TagJoint, x, y) + y
  {
    var s := x + TagJoint + y;
    FirstJoint(x, y);
    assert s[..|x|] == x && s[|x| + |TagJoint|..] == y;
  }

  /** Each of two `$$` in an otherwise `$`-free replacement becomes `$`. */
  lemma SubstituteTwoPairs(p1: string, p2: string, p3: string, before: string, after: string)
    requires '$' !in p1 && '$' !in p2 && '$' !in p3
    ensures Substitute(p1 + "$$" + (p2 + "$$" + p3), TagJoint, before, after) == p1 + "$" + (p2 + "$" + p3)
  {
    SubstituteStep(p1, p2 + "$$" + p3, before, after);
    SubstituteStep(p2, p3, before, after);
    SubstituteLiteral(p1, TagJoint, before, after);
    SubstituteLiteral(p2, TagJoint, before, after);
    SubstituteLiteral(p3, TagJoint, before, after);
  }

  /** Substitute over a literal prefix followed by `$$`. */
  lemma {:induction false} SubstituteStep(prefix: string, rest: string, before: string, after: string)
    requires '$' !in prefix
    ensures Substitute(prefix + "$$" + rest, TagJoint, before, after)
      == Substitute(prefix, TagJoint, before, after) + "$" + Substitute(rest, TagJoint, before, after)
  {
    if |prefix| == 0 {
      assert prefix + "$$" + rest == "$$" + rest;
      assert ("$$" + rest)[2..] == rest;
    } else {
      assert (prefix + "$$" + rest)[1..] == prefix[1..] + "$$" + rest;
      SubstituteStep(prefix[1..], rest, before, after);
    }
  }

  // ------------------------------------------------------- the template

  /** createComponentTag (lines 61-69): the subject's selector, its element
      as markup, the XML tag stripped, then the input bindings and the
      output bindings inserted. A missing selector reaches createElement as
      `undefined` and fails there. */
  function CreateComponentTag(component: ComponentType, inputs: seq<string>, outputs: seq<string>): Result<string, Exception>
  {
    var selector :- Selector.SelectorOf(component);
    if selector.None? then Failure(TypeError(UndefinedSelectorMessage))
    else
      var html :- CreateElementHtml(selector.value);
      Success(InsertAttributes(InsertAttributes(StripXmlTag(html), InputBindings(inputs)), OutputBindings(outputs)))
  }

  /** createComponentTag exactly as written: both insertions go through
      `replace` (AddAttributes), so `$` patterns in the bindings expand. */
  function CreateComponentTagAsWritten(component: ComponentType, inputs: seq<string>, outputs: seq<string>): Result<string, Exception>
  {
    var selector :- Selector.SelectorOf(component);
    if selector.None? then Failure(TypeError(UndefinedSelectorMessage))
    else
      var html :- CreateElementHtml(selector.value);
      Success(AddAttributes(AddAttributes(StripXmlTag(html), InputBindings(inputs)), OutputBindings(outputs)))
  }

  /** A binding of a name without `$` is a closed literal: an input binding
      has no `$` at all, and the one `$` of an output binding starts
      `$event`, which is no replacement pattern. */
  lemma BindingClosedLiteral(name: string)
    requires '$' !in name
    ensures ClosedLiteral(InputBinding(name)) && ClosedLiteral(OutputBinding(name))
  {
    var tail := "($event)\"";
    assert ClosedLiteral(tail) by {
      forall i | 0 <= i < |tail| && tail[i] == '$' ensures i + 1 < |tail| && tail[i + 1] !in "$&`'" {
        assert i == 1;
      }
    }
    ClosedLiteralConcat("(" + name + ")=\"" + name, tail);
    assert OutputBinding(name) == "(" + name + ")=\"" + name + tail;
  }

  /** The attribute text AddAttributes passes to `replace` is literal when
      every name it binds is free of `$`. */
  lemma BindingTextLiteral(names: seq<string>)
    requires forall i :: 0 <= i < |names| ==> '$' !in names[i]
    ensures LiteralReplacement(" " + Join(InputBindings(names), " ") + TagJoint)
    ensures LiteralReplacement(" " + Join(OutputBindings(names), " ") + TagJoint)
  {
    forall i | 0 <= i < |names| ensures ClosedLiteral(InputBinding(names[i])) && ClosedLiteral(OutputBinding(names[i])) {
      BindingClosedLiteral(names[i]);
    }
    ClosedLiteralJoin(InputBindings(names), " ");
    ClosedLiteralJoin(OutputBindings(names), " ");
    ClosedLiteralConcat(" ", Join(InputBindings(names), " "));
    ClosedLiteralConcat(" " + Join(InputBindings(names), " "), TagJoint);
    ClosedLiteralConcat(" ", Join(OutputBindings(names), " "));
    ClosedLiteralConcat(" " + Join(OutputBindings(names), " "), TagJoint);
  }

  /** The tag as written is the corrected tag whenever no input or output
      name holds a `$`: the two differ only on names with `$` patterns. */
  lemma ComponentTagAgrees(component: ComponentType, inputs: seq<string>, outputs: seq<string>)
    requires forall i :: 0 <= i < |inputs| ==> '$' !in inputs[i]
    requires forall i :: 0 <= i < |outputs| ==> '$' !in outputs[i]
    ensures CreateComponentTagAsWritten(component, inputs, outputs) == CreateComponentTag(component, inputs, outputs)
  {
    BindingTextLiteral(inputs);
    BindingTextLiteral(outputs);
    var selector := Selector.SelectorOf(component);
    if selector.Success? && selector.value.Some? {
      var html := CreateElementHtml(selector.value.value);
      if html.Success? {
        var tag := StripXmlTag(html.value);
        AddAttributesAgrees(tag, InputBindings(inputs));
        AddAttributesAgrees(InsertAttributes(tag, InputBindings(inputs)), OutputBindings(outputs));
      }
    }
  }

  /** The parsed tag is a run of name characters starting with a letter. */
  lemma TagIsName(selector: string)
    requires Parse(selector).Success?
    ensures var tag := Parse(selector).value.tag;
      |tag| > 0 && IsAsciiLetter(tag[0]) && forall i :: 0 <= i < |tag| ==> IsNameChar(tag[i])
  {
    var tag := Parse(selector).value.tag;
    if |selector| > 0 && IsNameChar(selector[0]) {
      assert tag == NameRun(selector);
    } else {
      assert tag == "div";
    }
  }

  /** The markup of an element whose tag is a name and whose attribute text
      holds neither `<` nor `>` contains no XML tag. */
  lemma NoXmlTagInMarkup(tag: string, text: string)
    requires |tag| > 0 && forall i :: 0 <= i < |tag| ==> IsNameChar(tag[i])
    requires '<' !in text && '>' !in text
    ensures forall i :: !OccursAt("<" + tag + text + "></" + tag + ">", XmlTagStart, i)
  {
    var s := "<" + tag + text + "></" + tag + ">";
    var a := 1 + |tag| + |text|;
    assert s[1..1 + |tag|] == tag;
    assert s[1 + |tag|..a] == text;
    assert s[a..a + 3] == "></";
    assert s[a + 3..|s| - 1] == tag;
    forall i | 0 <= i < |s| - 1 ensures s[i] != '<' || s[i + 1] != '?' {
      if i == 0 {
        assert s[1] == tag[0];
      } else if i < 1 + |tag| {
        assert s[i] == tag[i - 1];
      } else if i < a {
        assert s[i] == text[i - 1 - |tag|];
      } else if a + 2 < i < |s| - 1 {
        assert s[i] == tag[i - a - 3];
      }
    }
    forall i: nat ensures !OccursAt(s, XmlTagStart, i) {
      if i + 5 <= |s| {
        assert s[i..i + 5][0] == s[i] && s[i..i + 5][1] == s[i + 1];
      }
    }
  }

  /** No binding of a name without `>` holds a `>`. */
  lemma InputBindingsWithoutAngle(inputs: seq<string>)
    requires forall i :: 0 <= i < |inputs| ==> '>' !in inputs[i]
    ensures '>' !in Join(InputBindings(inputs), " ")
  {
    var bindings := InputBindings(inputs);
    forall i | 0 <= i < |inputs| ensures '>' !in bindings[i] {
      assert bindings[i] == "[" + inputs[i] + "]=\"" + inputs[i] + "\"";
    }
    JoinExcludes(bindings, " ", '>');
  }

  /** The markup `<tag text></tag>` once stripped and given the input and
      output bindings. */
  lemma MarkupTemplate(tag: string, text: string, inputs: seq<string>, outputs: seq<string>)
    requires |tag| > 0 && forall i :: 0 <= i < |tag| ==> IsNameChar(tag[i])
    requires '<' !in text && '>' !in text
    requires forall i :: 0 <= i < |inputs| ==> '>' !in inputs[i]
    ensures var html := "<" + tag + text + "></" + tag + ">";
      InsertAttributes(InsertAttributes(StripXmlTag(html), InputBindings(inputs)), OutputBindings(outputs))
        == "<" + tag + text
           + " " + Join(InputBindings(inputs), " ")
           + " " + Join(OutputBindings(outputs), " ")
           + "></" + tag + ">"
  {
    var html := "<" + tag + text + "></" + tag + ">";
    var x1, y := "<" + tag + text, "/" + tag + ">";
    var j1, j2 := Join(InputBindings(inputs), " "), Join(OutputBindings(outputs), " ");
    assert StripXmlTag(html) == x1 + TagJoint + y by {
      NoXmlTagInMarkup(tag, text);
      StripXmlTagAbsent(html);
      ClosingTagSplit(x1, tag);
    }
    OpeningWithoutAngle(tag, text);
    InsertBeforeFirstJoint(x1, y, InputBindings(inputs));
    InputBindingsWithoutAngle(inputs);
    InsertBeforeFirstJoint(x1 + " " + j1, y, OutputBindings(outputs));
    ClosingTagSplit(x1 + " " + j1 + " " + j2, tag);
  }

  lemma ClosingTagSplit(p: string, tag: string)
    ensures p + "></" + tag + ">" == p + TagJoint + ("/" + tag + ">")
  {
  }

  lemma OpeningWithoutAngle(tag: string, text: string)
    requires forall i :: 0 <= i < |tag| ==> IsNameChar(tag[i])
    requires '>' !in text
    ensures '>' !in "<" + tag + text
  {
    assert '>' !in tag by {
      forall i | 0 <= i < |tag| ensures tag[i] != '>' {
      }
    }
  }

  /** The template for a subject whose selector parses, and whose attribute
      text has no `<` or `>`, and for inputs without `>`: the subject's
      element with the input bindings, then the output bindings, after its
      attributes. */
  lemma ComponentTemplate(component: ComponentType, selector: string, inputs: seq<string>, outputs: seq<string>)
    requires Selector.SelectorOf(component) == Success(Some(selector))
    requires Parse(selector).Success?
    requires var text := AttributeText(Build(Parse(selector).value)); '<' !in text && '>' !in text
    requires forall i :: 0 <= i < |inputs| ==> '>' !in inputs[i]
    ensures var spec := Parse(selector).value;
      CreateComponentTag(component, inputs, outputs) == Success(
        "<" + spec.tag + AttributeText(Build(spec))
        + " " + Join(InputBindings(inputs), " ")
        + " " + Join(OutputBindings(outputs), " ")
        + "></" + spec.tag + ">")
  {
    var spec := Parse(selector).value;
    TagIsName(selector);
    MarkupTemplate(spec.tag, AttributeText(Build(spec)), inputs, outputs);
  }

  /** A subject whose selector is missing fails at createElement; failures
      of selectorOf and createElement pass through. */
  lemma ComponentTagErrors(component: ComponentType, inputs: seq<string>, outputs: seq<string>)
    ensures Selector.SelectorOf(component).Failure? ==>
      CreateComponentTag(component, inputs, outputs) == Failure(Selector.SelectorOf(component).error)
    ensures Selector.SelectorOf(component) == Success(None) ==>
      CreateComponentTag(component, inputs, outputs) == Failure(TypeError(UndefinedSelectorMessage))
    ensures (Selector.SelectorOf(component).Success? && Selector.SelectorOf(component).value.Some?
      && Parse(Selector.SelectorOf(component).value.value).Failure?) ==>
      CreateComponentTag(component, inputs, outputs) == Failure(Parse(Selector.SelectorOf(component).value.value).error)
  {
  }

  // --------------------------------------------------- the host component

  function WatchNames(watches: seq<OutputWatch>): (r: seq<string>)
    ensures |r| == |watches| && forall i :: 0 <= i < |watches| ==> r[i] == watches[i].name
  {
    seq(|watches|, i requires 0 <= i < |watches| => watches[i].name)
  }

  /** The generated TestHostComponent class: its template, and what its
      constructor receives. */
  datatype HostType = HostType(template: string, inputInitializations: MapEntries<JsValue>, outputWatches: seq<OutputWatch>)

  /** createTestHostComponent (lines 20-33): input names are the map's keys
      in insertion order, output names the watch names through `uniq`. */
  function CreateTestHostComponent(subject: ComponentType, inputInitializations: MapEntries<JsValue>, outputWatches: seq<OutputWatch>): Result<HostType, Exception>
  {
    var inputsNames := Keys(inputInitializations);
    var outputNames := Uniq(WatchNames(outputWatches));
    var template :- CreateComponentTag(subject, inputsNames, outputNames);
    Success(HostType(template, inputInitializations, outputWatches))
  }

  /** The host template binds each input name once, in insertion order,
      then each output name once, in order of first registration. */
  lemma HostTemplate(subject: ComponentType, selector: string, inputInitializations: MapEntries<JsValue>, outputWatches: seq<OutputWatch>)
    requires Selector.SelectorOf(subject) == Success(Some(selector))
    requires Parse(selector).Success?
    requires var text := AttributeText(Build(Parse(selector).value)); '<' !in text && '>' !in text
    requires forall i :: 0 <= i < |inputInitializations| ==> '>' !in inputInitializations[i].0
    ensures var spec, outputNames := Parse(selector).value, Uniq(WatchNames(outputWatches));
      && CreateTestHostComponent(subject, inputInitializations, outputWatches) == Success(HostType(
        "<" + spec.tag + AttributeText(Build(spec))
        + " " + Join(InputBindings(Keys(inputInitializations)), " ")
        + " " + Join(OutputBindings(outputNames), " ")
        + "></" + spec.tag + ">",
        inputInitializations, outputWatches))
      && Distinct(outputNames)
      && (forall i :: 0 <= i < |outputWatches| ==> outputWatches[i].name in outputNames)
      && (forall i :: 0 <= i < |outputNames| ==> outputNames[i] in WatchNames(outputWatches))
  {
    ComponentTemplate(subject, selector, Keys(inputInitializations), Uniq(WatchNames(outputWatches)));
    UniqSpec(WatchNames(outputWatches));
  }

  // ------------------------------------------------------ grouping watches

  /** The watches registered for `name`, in registration order. */
  function WatchesFor(watches: seq<OutputWatch>, name: string): seq<OutputWatch>
  {
    if |watches| == 0 then []
    else
      var prior := WatchesFor(watches[..|watches| - 1], name);
      if watches[|watches| - 1].name == name then prior + [watches[|watches| - 1]] else prior
  }

  /** The watches for `name` are watches of `watches` with that name, and
      every such watch is among them; a name nobody watches has none. */
  lemma {:induction false} WatchesForSpec(watches: seq<OutputWatch>, name: string)
    ensures var r := WatchesFor(watches, name);
      && (forall i :: 0 <= i < |r| ==> r[i].name == name && r[i] in watches)
      && (forall i :: 0 <= i < |watches| && watches[i].name == name ==> watches[i] in r)
      && ((forall i :: 0 <= i < |watches| ==> watches[i].name != name) ==> r == [])
  {
    if |watches| > 0 {
      var init := watches[..|watches| - 1];
      WatchesForSpec(init, name);
      assert forall i :: 0 <= i < |init| ==> watches[i] == init[i];
    }
  }

  /** lodash `groupBy(watches, "name")`: one group per name, in order of
      first appearance, each holding that name's watches in order. */
  function GroupBy(watches: seq<OutputWatch>): MapEntries<seq<OutputWatch>>
  {
    if |watches| == 0 then []
    else GroupInto(GroupBy(watches[..|watches| - 1]), watches[|watches| - 1])
  }

  /** One step of groupBy: `w` joins the end of its name's group, which is
      created at the end of the map if the name is new. */
  function GroupInto(groups: MapEntries<seq<OutputWatch>>, w: OutputWatch): (r: MapEntries<seq<OutputWatch>>)
    ensures Keys(r) == if w.name in Keys(groups) then Keys(groups) else Keys(groups) + [w.name]
    ensures forall name :: (Get(r, name) ==
      if name != w.name then Get(groups, name)
      else if Get(groups, name).Some? then Some(Get(groups, name).value + [w])
      else Some([w]))
  {
    var group := if Get(groups, w.name).Some? then Get(groups, w.name).value else [];
    assert Get(groups, w.name).None? ==> group + [w] == [w];
    Set(groups, w.name, group + [w])
  }

  /** The groups are keyed by the distinct watch names in first-appearance
      order, and the group of a name is exactly its watches in order. */
  lemma GroupBySpec(watches: seq<OutputWatch>)
    ensures Keys(GroupBy(watches)) == Uniq(WatchNames(watches))
    ensures Distinct(Keys(GroupBy(watches)))
    ensures forall name :: name in Keys(GroupBy(watches)) <==> name in WatchNames(watches)
    ensures forall name :: name in WatchNames(watches) ==> Get(GroupBy(watches), name) == Some(WatchesFor(watches, name))
  {
    GroupByKeys(watches);
    UniqSpec(WatchNames(watches));
    forall name | name in WatchNames(watches) ensures Get(GroupBy(watches), name) == Some(WatchesFor(watches, name)) {
      GroupByGet(watches, name);
    }
  }

  lemma {:induction false} GroupByKeys(watches: seq<OutputWatch>)
    ensures Keys(GroupBy(watches)) == Uniq(WatchNames(watches))
  {
    if |watches| > 0 {
      GroupByKeys(watches[..|watches| - 1]);
      GroupByKeysStep(watches);
    }
  }

  lemma GroupByKeysStep(watches: seq<OutputWatch>)
    requires |watches| > 0
    requires var init := watches[..|watches| - 1];
      Keys(GroupBy(init)) == Uniq(WatchNames(init))
    ensures Keys(GroupBy(watches)) == Uniq(WatchNames(watches))
  {
    WatchNamesPrefix(watches);
  }

  lemma {:induction false} GroupByGet(watches: seq<OutputWatch>, name: string)
    ensures name in WatchNames(watches) ==> Get(GroupBy(watches), name) == Some(WatchesFor(watches, name))
    ensures name !in WatchNames(watches) ==> Get(GroupBy(watches), name) == None
  {
    if |watches| > 0 {
      GroupByGet(watches[..|watches| - 1], name);
      GroupByGetStep(watches, name);
    }
  }

  lemma GroupByGetStep(watches: seq<OutputWatch>, name: string)
    requires |watches| > 0
    requires var init := watches[..|watches| - 1];
      && (name in WatchNames(init) ==> Get(GroupBy(init), name) == Some(WatchesFor(init, name)))
      && (name !in WatchNames(init) ==> Get(GroupBy(init), name) == None)
    ensures name in WatchNames(watches) ==> Get(GroupBy(watches), name) == Some(WatchesFor(watches, name))
    ensures name !in WatchNames(watches) ==> Get(GroupBy(watches), name) == None
  {
    GroupIntoGet(GroupBy(watches[..|watches| - 1]), watches, name);
  }

  /** Adding the last watch to the groups of the others gives the group of
      every name over all the watches. */
  lemma GroupIntoGet(groups: MapEntries<seq<OutputWatch>>, watches: seq<OutputWatch>, name: string)
    requires |watches| > 0
    requires var init := watches[..|watches| - 1];
      && (name in WatchNames(init) ==> Get(groups, name) == Some(WatchesFor(init, name)))
      && (name !in WatchNames(init) ==> Get(groups, name) == None)
    ensures var r := GroupInto(groups, watches[|watches| - 1]);
      && (name in WatchNames(watches) ==> Get(r, name) == Some(WatchesFor(watches, name)))
      && (name !in WatchNames(watches) ==> Get(r, name) == None)
  {
    var init, last := watches[..|watches| - 1], watches[|watches| - 1];
    assert name in WatchNames(watches) <==> name in WatchNames(init) || name == last.name by {
      WatchNamesPrefix(watches);
      assert WatchNames(watches) == WatchNames(init) + [last.name];
    }
    if name == last.name && name !in WatchNames(init) {
      assert WatchesFor(init, name) == [] by {
        forall i | 0 <= i < |init| ensures init[i].name != name {
          assert WatchNames(init)[i] == init[i].name;
        }
        WatchesForSpec(init, name);
      }
      assert WatchesFor(watches, name) == [last] by {
        assert [] + [last] == [last];
      }
    }
  }

  lemma WatchNamesPrefix(watches: seq<OutputWatch>)
    requires |watches| > 0
    ensures WatchNames(watches)[..|watches| - 1] == WatchNames(watches[..|watches| - 1])
  {
  }

  /** extractActions (lines 53-55). */
  function ExtractActions(watches: seq<OutputWatch>): (r: seq<ActionId>)
    ensures |r| == |watches| && forall i :: 0 <= i < |watches| ==> r[i] == watches[i].action
  {
    seq(|watches|, i requires 0 <= i < |watches| => watches[i].action)
  }

  /** The calls an invokeAll handler makes when called with `argument`. */
  function Invocations(actions: seq<ActionId>, argument: JsValue): (r: seq<(ActionId, JsValue)>)
    ensures |r| == |actions| && forall i :: 0 <= i < |actions| ==> r[i] == (actions[i], argument)
  {
    seq(|actions|, i requires 0 <= i < |actions| => (actions[i], argument))
  }

  /** The record of every watch call made so far. */
  class CallLog {
    var calls: seq<(ActionId, JsValue)>

    constructor()
      ensures calls == []
    {
      calls := [];
    }
  }

  /** invokeAll (lines 47-51): call each action with the argument, in order. */
  method InvokeAll(methods: seq<ActionId>, argument: JsValue, log: CallLog)
    modifies log
    ensures log.calls == old(log.calls) + Invocations(methods, argument)
  {
    for i := 0 to |methods|
      invariant log.calls == old(log.calls) + Invocations(methods[..i], argument)
    {
      log.calls := log.calls + [(methods[i], argument)];
    }
    assert methods[..|methods|] == methods;
  }

  /** A field of the host object: an input's value, or an output handler
      built by invokeAll over the given actions. */
  datatype HostField = Value(value: JsValue) | Handler(actions: seq<ActionId>)

  /** The fields of a new host: each input's initial value, unless an output
      of the same name takes the field; for each watched output, a handler
      invoking that output's watches; nothing else. */
  ghost predicate NewHostFields(host: HostType, fields: MapEntries<HostField>)
  {
    && (forall k :: k in Keys(host.inputInitializations) && k !in WatchNames(host.outputWatches) ==>
          Get(fields, k) == Some(Value(Get(host.inputInitializations, k).value)))
    && (forall k :: k in WatchNames(host.outputWatches) ==>
          Get(fields, k) == Some(Handler(ExtractActions(WatchesFor(host.outputWatches, k)))))
    && (forall k :: Get(fields, k).Some? ==> k in Keys(host.inputInitializations) || k in WatchNames(host.outputWatches))
  }

  /** An instance of the generated TestHostComponent. */
  class HostInstance {
    var fields: MapEntries<HostField>

    /** The constructor (lines 26-29). The initialisation map never repeats
        a key. */
    constructor(host: HostType)
      requires Distinct(Keys(host.inputInitializations))
      ensures NewHostFields(host, fields)
    {
      fields := [];
      new;
      AddInputProperties(host.inputInitializations);
      AddOutputWatches(host.outputWatches);
    }

    /** addInputProperties (lines 35-38): assign each entry's value to the
        field of the same name. */
    method AddInputProperties(inputInitializations: MapEntries<JsValue>)
      requires Distinct(Keys(inputInitializations))
      modifies this
      ensures forall k ::
        Get(fields, k) == (if k in Keys(inputInitializations) then Some(Value(Get(inputInitializations, k).value)) else old(Get(fields, k)))
    {
      var inputs := inputInitializations;
      for i := 0 to |inputs|
        invariant forall k ::
          Get(fields, k) == (if k in Keys(inputs[..i]) then Some(Value(Get(inputs[..i], k).value)) else old(Get(fields, k)))
      {
        var key, value := inputs[i].0, inputs[i].1;
        assert inputs[..i + 1] == inputs[..i] + [(key, value)];
        assert key !in Keys(inputs[..i]) by {
          assert Keys(inputs)[i] == key;
          forall j | 0 <= j < i ensures Keys(inputs[..i])[j] != key {
            assert Keys(inputs[..i])[j] == Keys(inputs)[j];
          }
        }
        forall k ensures Get(inputs[..i + 1], k) ==
          if k in Keys(inputs[..i]) then Get(inputs[..i], k) else if k == key then Some(value) else None
        {
          GetSnoc(inputs[..i], key, value, k);
        }
        KeysOfPrefix(inputs, i);
        fields := Set(fields, key, Value(value));
      }
      assert inputs[..|inputs|] == inputs;
    }

    /** addOutputWatches (lines 40-45): group the watches by name and
        assign to each name a handler invoking its group's actions. */
    method AddOutputWatches(outputWatches: seq<OutputWatch>)
      modifies this
      ensures forall k ::
        Get(fields, k) == (if k in WatchNames(outputWatches) then Some(Handler(ExtractActions(WatchesFor(outputWatches, k)))) else old(Get(fields, k)))
    {
      var groups := GroupBy(outputWatches);
      assert Distinct(Keys(groups)) by {
        GroupBySpec(outputWatches);
      }
      for i := 0 to |groups|
        invariant forall k ::
          Get(fields, k) == (if k in Keys(groups[..i]) then Some(Handler(ExtractActions(Get(groups, k).value))) else old(Get(fields, k)))
      {
        var name, watches := groups[i].0, groups[i].1;
        assert Get(groups, name) == Some(watches) by {
          GetEntry(groups, i);
        }
        assert Keys(groups[..i + 1]) == Keys(groups[..i]) + [name] by {
          KeysOfPrefix(groups, i);
        }
        fields := Set(fields, name, Handler(ExtractActions(watches)));
      }
      assert groups[..|groups|] == groups;
      GroupBySpec(outputWatches);
    }

    /** The subject emitting `event` on output `name`: the template's event
        binding calls the host's handler for `name`. */
    method Emit(name: string, event: JsValue, log: CallLog) returns (r: Outcome<Exception>)
      modifies log
      ensures Get(fields, name).Some? && Get(fields, name).value.Handler? ==>
        r.Pass? && log.calls == old(log.calls) + Invocations(Get(fields, name).value.actions, event)
      ensures !(Get(fields, name).Some? && Get(fields, name).value.Handler?) ==>
        r.Fail? && log.calls == old(log.calls)
    {
      var field := Get(fields, name);
      if field.Some? && field.value.Handler? {
        InvokeAll(field.value.actions, event, log);
        r := Pass;
      } else {
        r := Fail(TypeError("this[name] is not a function"));
      }
    }
  }

  /** On a new host, an emission on `name` calls each watch registered for
      `name` once, in registration order, with the event, and nothing else. */
  method EmitOnNewHost(host: HostType, name: string, event: JsValue, log: CallLog) returns (instance: HostInstance)
    requires Distinct(Keys(host.inputInitializations))
    requires name in WatchNames(host.outputWatches)
    modifies log
    ensures log.calls == old(log.calls) + Invocations(ExtractActions(WatchesFor(host.outputWatches, name)), event)
  {
    instance := new HostInstance(host);
    var _ := instance.Emit(name, event, log);
  }

  /** Each call of an emission comes from a watch for that name, and every
      watch for that name contributes a call. */
  lemma EmissionCallsExactlyTheWatchers(watches: seq<OutputWatch>, name: string, event: JsValue)
    ensures var calls := Invocations(ExtractActions(WatchesFor(watches, name)), event);
      && (forall i :: 0 <= i < |calls| ==>
            calls[i].1 == event && exists j :: 0 <= j < |watches| && watches[j].name == name && watches[j].action == calls[i].0)
      && (forall j :: 0 <= j < |watches| && watches[j].name == name ==> (watches[j].action, event) in calls)
  {
    var group := WatchesFor(watches, name);
    var calls := Invocations(ExtractActions(group), event);
    WatchesForSpec(watches, name);
    forall i | 0 <= i < |calls|
      ensures calls[i].1 == event && exists j :: 0 <= j < |watches| && watches[j].name == name && watches[j].action == calls[i].0
    {
      assert group[i] in watches;
    }
    forall j | 0 <= j < |watches| && watches[j].name == name ensures (watches[j].action, event) in calls {
      var k :| 0 <= k < |group| && group[k] == watches[j];
      assert calls[k] == (watches[j].action, event);
    }
  }
}
