/** Escaping of values and the flat `<name>value</name>` text made of them. */
module XmlTags {
  import opened Options
  import opened PyStrings

  /** `s.replace(c, r)` for a single character `c` */
  function ReplaceChar(s: string, c: char, r: string): string {
    if s == "" then "" else (if s[0] == c then r else [s[0]]) + ReplaceChar(s[1..], c, r)
  }

  /** `html.escape`: five replacements, the ampersand first. */
  function HtmlEscape(s: string): string {
    ReplaceChar(ReplaceChar(ReplaceChar(ReplaceChar(ReplaceChar(s,
      '&', "&amp;"), '<', "&lt;"), '>', "&gt;"), '"', "&quot;"), '\'', "&#x27;")
  }

  function CleanInput(val: string): string {
    ReplaceChar(HtmlEscape(val), '\0', "")
  }

  /** Decodes the five entities; any other ampersand stands for itself. */
  function Unescape(s: string): string {
    if s == "" then ""
    else if "&amp;" <= s then "&" + Unescape(s[5..])
    else if "&lt;" <= s then "<" + Unescape(s[4..])
    else if "&gt;" <= s then ">" + Unescape(s[4..])
    else if "&quot;" <= s then "\"" + Unescape(s[6..])
    else if "&#x27;" <= s then "'" + Unescape(s[6..])
    else [s[0]] + Unescape(s[1..])
  }

  function EscapedChar(c: char): string {
    if c == '&' then "&amp;"
    else if c == '<' then "&lt;"
    else if c == '>' then "&gt;"
    else if c == '"' then "&quot;"
    else if c == '\'' then "&#x27;"
    else if c == '\0' then ""
    else [c]
  }

  lemma {:induction false} ReplaceCharConcat(a: string, b: string, c: char, r: string)
    ensures ReplaceChar(a + b, c, r) == ReplaceChar(a, c, r) + ReplaceChar(b, c, r)
  {
    if a == "" {
      assert a + b == b;
    } else {
      assert (a + b)[1..] == a[1..] + b;
      ReplaceCharConcat(a[1..], b, c, r);
    }
  }

  lemma {:induction false} ReplaceCharAbsent(s: string, c: char, r: string)
    requires c !in s
    ensures ReplaceChar(s, c, r) == s
  {
    if s != "" {
      ReplaceCharAbsent(s[1..], c, r);
    }
  }

  /** One step of `ReplaceChar` on a text whose first character was already replaced by `x`. */
  lemma ReplaceCharStep(x: string, rest: string, c: char, r: string)
    requires c !in x
    ensures ReplaceChar(x + rest, c, r) == x + ReplaceChar(rest, c, r)
  {
    ReplaceCharConcat(x, rest, c, r);
    ReplaceCharAbsent(x, c, r);
  }

  lemma ReplaceCharHead(c: char, rest: string, r: string)
    ensures ReplaceChar([c] + rest, c, r) == r + ReplaceChar(rest, c, r)
  {
    assert ([c] + rest)[1..] == rest;
  }

  /** The order of the five replacements does not matter to the result: it is made character by character. */
  lemma CleanInputCons(c: char, rest: string)
    ensures CleanInput([c] + rest) == EscapedChar(c) + CleanInput(rest)
  {
    hide ReplaceChar;
    var s1 := ReplaceChar(rest, '&', "&amp;");
    var s2 := ReplaceChar(s1, '<', "&lt;");
    var s3 := ReplaceChar(s2, '>', "&gt;");
    var s4 := ReplaceChar(s3, '"', "&quot;");
    var s5 := ReplaceChar(s4, '\'', "&#x27;");
    var x1 := if c == '&' then "&amp;" else [c];
    var x2 := if c == '<' then "&lt;" else x1;
    var x3 := if c == '>' then "&gt;" else x2;
    var x4 := if c == '"' then "&quot;" else x3;
    var x5 := if c == '\'' then "&#x27;" else x4;
    if c == '&' { ReplaceCharHead(c, rest, "&amp;"); } else { ReplaceCharStep([c], rest, '&', "&amp;"); }
    if c == '<' { ReplaceCharHead(c, s1, "&lt;"); } else { ReplaceCharStep(x1, s1, '<', "&lt;"); }
    if c == '>' { ReplaceCharHead(c, s2, "&gt;"); } else { ReplaceCharStep(x2, s2, '>', "&gt;"); }
    if c == '"' { ReplaceCharHead(c, s3, "&quot;"); } else { ReplaceCharStep(x3, s3, '"', "&quot;"); }
    if c == '\'' { ReplaceCharHead(c, s4, "&#x27;"); } else { ReplaceCharStep(x4, s4, '\'', "&#x27;"); }
    if c == '\0' { ReplaceCharHead(c, s5, ""); } else { ReplaceCharStep(x5, s5, '\0', ""); }
  }

  lemma UnescapeChar(c: char, rest: string)
    ensures Unescape(EscapedChar(c) + rest) == (if c == '\0' then "" else [c]) + Unescape(rest)
  {
    var e := EscapedChar(c);
    var s := e + rest;
    if c == '\0' {
      assert s == rest;
    } else {
      assert s[0] == e[0];
      if c == '&' {
        assert "&amp;" <= s;
      } else if c == '<' {
        assert "&lt;" <= s && s[1] == 'l';
      } else if c == '>' {
        assert "&gt;" <= s && s[1] == 'g';
      } else if c == '"' {
        assert "&quot;" <= s && s[1] == 'q';
      } else if c == '\'' {
        assert "&#x27;" <= s && s[1] == '#';
      }
      assert s[|e|..] == rest;
    }
  }

  /** Escaping loses nothing but NUL characters. */
  lemma {:induction false} EscapeRoundTrip(v: string)
    ensures Unescape(CleanInput(v)) == ReplaceChar(v, '\0', "")
  {
    if v != "" {
      assert v == [v[0]] + v[1..];
      CleanInputCons(v[0], v[1..]);
      UnescapeChar(v[0], CleanInput(v[1..]));
      EscapeRoundTrip(v[1..]);
    }
  }

  /** No character with a meaning of its own in XML text or attributes survives escaping. */
  lemma {:induction false} EscapeRemovesMarkup(v: string)
    ensures forall c <- "<>\"'\0" :: c !in CleanInput(v)
  {
    if v != "" {
      assert v == [v[0]] + v[1..];
      CleanInputCons(v[0], v[1..]);
      EscapeRemovesMarkup(v[1..]);
    }
  }

  /** A piece of flat XML: `<head>` and the text up to the next tag. An end tag has a head `/name`. */
  datatype Token = Token(head: string, text: string) {
    predicate Valid() {
      '<' !in head && '>' !in head && '<' !in text
    }

    function Render(): string {
      "<" + head + ">" + text
    }
  }

  predicate ValidTokens(tokens: seq<Token>) {
    forall t <- tokens :: t.Valid()
  }

  function Render(tokens: seq<Token>): string {
    if tokens == [] then "" else tokens[0].Render() + Render(tokens[1..])
  }

  lemma {:induction false} RenderConcat(a: seq<Token>, b: seq<Token>)
    ensures Render(a + b) == Render(a) + Render(b)
  {
    if a == [] {
      assert a + b == b;
    } else {
      assert (a + b)[1..] == a[1..] + b;
      RenderConcat(a[1..], b);
    }
  }

  /** A reader for flat XML text. */
  function Tokenize(s: string): Option<seq<Token>>
    decreases |s|
  {
    if s == "" then Some([])
    else if s[0] != '<' then None
    else
      var g := IndexOf(s[1..], '>');
      if g + 1 == |s| then None
      else
        var rest := s[g + 2..];
        var t := IndexOf(rest, '<');
        match Tokenize(rest[t..])
        case None => None
        case Some(tokens) => Some([Token(s[1..][..g], rest[..t])] + tokens)
  }

  /** The reader's first step on a token followed by nothing or by another tag. */
  lemma TokenizeStep(t: Token, more: string)
    requires t.Valid() && (more == "" || more[0] == '<')
    ensures
      var s := t.Render() + more;
      s != "" && s[0] == '<' &&
      IndexOf(s[1..], '>') == |t.head| && |t.head| + 2 <= |s| &&
      IndexOf(s[|t.head| + 2..], '<') == |t.text| &&
      s[1..][..|t.head|] == t.head &&
      s[|t.head| + 2..] == t.text + more
  {
    var s := t.Render() + more;
    assert s[1..] == t.head + ['>'] + (t.text + more);
    IndexOfAppend(t.head, '>', t.text + more);
    assert s[|t.head| + 2..] == t.text + more;
    if more == "" {
      assert t.text + more == t.text;
      IndexOfAbsent(t.text, '<');
    } else {
      assert t.text + more == t.text + ['<'] + more[1..];
      IndexOfAppend(t.text, '<', more[1..]);
    }
  }

  lemma TokenizeCons(t: Token, more: string)
    requires t.Valid() && (more == "" || more[0] == '<')
    requires Tokenize(more).Some?
    ensures Tokenize(t.Render() + more) == Some([t] + Tokenize(more).value)
  {
    TokenizeStep(t, more);
    assert (t.text + more)[|t.text|..] == more;
    assert (t.text + more)[..|t.text|] == t.text;
  }

  lemma RenderParts(tokens: seq<Token>)
    ensures Render(tokens) == "" || Render(tokens)[0] == '<'
    ensures tokens != [] ==> Render(tokens) == tokens[0].Render() + Render(tokens[1..])
  {
  }

  lemma {:induction false} TokenizeRender(tokens: seq<Token>)
    requires ValidTokens(tokens)
    ensures Tokenize(Render(tokens)) == Some(tokens)
  {
    if tokens == [] {
      assert Tokenize("") == Some([]);
    } else {
      hide Tokenize, Render, Token.Render, Token.Valid;
      var t, rest := tokens[0], tokens[1..];
      assert tokens == [t] + rest && t in tokens && forall u <- rest :: u in tokens;
      RenderParts(tokens);
      RenderParts(rest);
      TokenizeRender(rest);
      TokenizeCons(t, Render(rest));
    }
  }

  /** The two tokens of an element, or none when it is absent. */
  function Element(name: string, value: Option<string>): seq<Token> {
    match value
    case None => []
    case Some(v) => [Token(name, v), Token("/" + name, "")]
  }

  function Lookup(tags: map<string, string>, name: string): Option<string> {
    if name in tags then Some(tags[name]) else None
  }

  function CleanOption(v: Option<string>): Option<string> {
    match v
    case None => None
    case Some(s) => Some(CleanInput(s))
  }

  /** The tokens of the named tags that have a value, in the order of `names`. */
  function TagTokens(tags: map<string, string>, names: seq<string>): seq<Token> {
    if names == [] then []
    else Element(names[0], CleanOption(Lookup(tags, names[0]))) + TagTokens(tags, names[1..])
  }

  /** A tag name, as `create_xml_tags` is called with: no markup, and not an end tag. */
  predicate ValidName(name: string) {
    '<' !in name && '>' !in name && (name == "" || name[0] != '/')
  }

  predicate ValidNames(names: seq<string>) {
    forall name <- names :: ValidName(name)
  }

  lemma {:induction false} TagTokensValid(tags: map<string, string>, names: seq<string>)
    requires ValidNames(names)
    ensures ValidTokens(TagTokens(tags, names))
  {
    if names != [] {
      if names[0] in tags {
        EscapeRemovesMarkup(tags[names[0]]);
        assert "<>\"'\0"[0] == '<';
        assert names[0] in names && ValidName(names[0]);
        assert '<' !in "/" + names[0] && '>' !in "/" + names[0];
      }
      TagTokensValid(tags, names[1..]);
    }
  }

  lemma {:induction false} TagTokensConcat(tags: map<string, string>, a: seq<string>, b: seq<string>)
    ensures TagTokens(tags, a + b) == TagTokens(tags, a) + TagTokens(tags, b)
  {
    if a == [] {
      assert a + b == b;
    } else {
      assert (a + b)[1..] == a[1..] + b;
      TagTokensConcat(tags, a[1..], b);
    }
  }

  function ElementText(name: string, value: Option<string>): string {
    match value
    case None => ""
    case Some(v) => "<" + name + ">" + v + "</" + name + ">"
  }

  lemma RenderElement(name: string, value: Option<string>)
    ensures Render(Element(name, value)) == ElementText(name, value)
  {
    if value.Some? {
      var open, close := Token(name, value.value), Token("/" + name, "");
      assert Element(name, value)[1..] == [close];
      assert Render([close]) == close.Render() == "</" + name + ">";
    }
  }

  lemma TagTokensExtend(tags: map<string, string>, names: seq<string>, name: string)
    ensures Render(TagTokens(tags, names + [name]))
         == Render(TagTokens(tags, names)) + ElementText(name, CleanOption(Lookup(tags, name)))
  {
    TagTokensConcat(tags, names, [name]);
    var e := Element(name, CleanOption(Lookup(tags, name)));
    assert TagTokens(tags, [name]) == e;
    RenderConcat(TagTokens(tags, names), e);
    RenderElement(name, CleanOption(Lookup(tags, name)));
  }

  /** The tags text: an element for each named tag that is present, in the order named. */
  method CreateXmlTags(tags: map<string, string>, names: seq<string>) returns (xml: string)
    ensures xml == Render(TagTokens(tags, names))
  {
    xml := "";
    for i := 0 to |names|
      invariant xml == Render(TagTokens(tags, names[..i]))
    {
      var name := names[i];
      assert names[..i + 1] == names[..i] + [name];
      TagTokensExtend(tags, names[..i], name);
      if name in tags {
        var sanitizedValue := CleanInput(tags[name]);
        xml := xml + ("<" + name + ">" + sanitizedValue + "</" + name + ">");
      }
    }
    assert names[..|names|] == names;
  }

  /** Reads a flat sequence of elements back into names and decoded values. */
  function ReadElements(tokens: seq<Token>): Option<seq<(string, string)>> {
    if tokens == [] then Some([])
    else if |tokens| == 1 || tokens[1] != Token("/" + tokens[0].head, "") then None
    else
      match ReadElements(tokens[2..])
      case None => None
      case Some(more) => Some([(tokens[0].head, Unescape(tokens[0].text))] + more)
  }

  function ReadXmlTags(xml: string): Option<seq<(string, string)>> {
    match Tokenize(xml)
    case None => None
    case Some(tokens) => ReadElements(tokens)
  }

  /** The named tags that are present, without NUL characters. */
  function PresentTags(tags: map<string, string>, names: seq<string>): seq<(string, string)> {
    if names == [] then []
    else (if names[0] in tags then [(names[0], ReplaceChar(tags[names[0]], '\0', ""))] else [])
         + PresentTags(tags, names[1..])
  }

  lemma {:induction false} ReadElementsOfTagTokens(tags: map<string, string>, names: seq<string>)
    ensures ReadElements(TagTokens(tags, names)) == Some(PresentTags(tags, names))
  {
    if names != [] {
      ReadElementsOfTagTokens(tags, names[1..]);
      if names[0] in tags {
        EscapeRoundTrip(tags[names[0]]);
        var tokens := TagTokens(tags, names);
        assert tokens[0] == Token(names[0], CleanInput(tags[names[0]]));
        assert tokens[1] == Token("/" + names[0], "");
        assert tokens[2..] == TagTokens(tags, names[1..]);
      } else {
        assert TagTokens(tags, names) == TagTokens(tags, names[1..]);
        assert PresentTags(tags, names) == PresentTags(tags, names[1..]);
      }
    }
  }

  /** Whatever the values are, a reader of the tags text recovers exactly the tags that were written. */
  lemma XmlTagsRoundTrip(tags: map<string, string>, names: seq<string>)
    requires ValidNames(names)
    ensures ReadXmlTags(Render(TagTokens(tags, names))) == Some(PresentTags(tags, names))
  {
    TagTokensValid(tags, names);
    TokenizeRender(TagTokens(tags, names));
    ReadElementsOfTagTokens(tags, names);
  }

  /** The decoded text after the first start tag of a name. */
  function TagText(tokens: seq<Token>, name: string): Option<string> {
    if tokens == [] then None
    else if tokens[0].head == name then Some(Unescape(tokens[0].text))
    else TagText(tokens[1..], name)
  }

  function ReadTag(xml: string, name: string): Option<string> {
    match Tokenize(xml)
    case None => None
    case Some(tokens) => TagText(tokens, name)
  }

  function WithoutNul(v: Option<string>): Option<string> {
    match v
    case None => None
    case Some(s) => Some(ReplaceChar(s, '\0', ""))
  }

  lemma {:induction false} TagTextSkip(a: seq<Token>, b: seq<Token>, name: string)
    requires forall t <- a :: t.head != name
    ensures TagText(a + b, name) == TagText(b, name)
  {
    if a == [] {
      assert a + b == b;
    } else {
      assert a[0] in a && (a + b)[1..] == a[1..] + b;
      TagTextSkip(a[1..], b, name);
    }
  }

  /** Among the tags written, a name is found with its value, if it has one. */
  lemma {:induction false} TagTextOf(tags: map<string, string>, names: seq<string>, rest: seq<Token>, name: string)
    requires ValidName(name)
    ensures TagText(TagTokens(tags, names) + rest, name)
         == if name in names && name in tags then WithoutNul(Lookup(tags, name)) else TagText(rest, name)
  {
    if names == [] {
      assert TagTokens(tags, names) + rest == rest;
    } else {
      var first := Element(names[0], CleanOption(Lookup(tags, names[0])));
      var more := TagTokens(tags, names[1..]) + rest;
      assert TagTokens(tags, names) + rest == first + more;
      assert name != "/" + names[0];
      TagTextOf(tags, names[1..], rest, name);
      if name == names[0] && name in tags {
        EscapeRoundTrip(tags[name]);
        assert (first + more)[0] == first[0];
      } else {
        TagTextSkip(first, more, name);
      }
    }
  }
}
