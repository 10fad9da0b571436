/** Building the AOTA manifest, and what masking does to it. */
module Publisher {
  import opened Options
  import opened PyStrings
  import opened SecurityMasker
  import opened XmlTags

  /** The tags of an AOTA manifest, in the order they are written. */
  const AOTA_NAMES: seq<string> :=
    ["cmd", "app", "fetch", "file", "version", "signature", "containerTag", "deviceReboot",
     "username", "password", "dockerRegistry", "dockerUsername", "dockerPassword"]

  const XML_HEAD := "?xml version=\"1.0\"" + " encoding=\"utf-8\"?"
  const AOTA_HEAD := "aota name=\"sample-rpm\""

  const AOTA_HEADER: string :=
    Begin(XML_HEAD) + ("<manifest>" + ("<type>ota" + ("</type>" + ("<ota>"
    + ("<header>" + ("<type>aota" + ("</type>" + ("<repo>remote" + ("</repo>" + ("</header>"
    + ("<type>" + Begin(AOTA_HEAD))))))))))))

  const AOTA_FOOTER: string := "</aota>" + ("</type>" + ("</ota>" + "</manifest>"))

  const HEADER_TOKENS: seq<Token> :=
    [Token(XML_HEAD, "")] + ([Token("manifest", "")] + ([Token("type", "ota")] + ([Token("/type", "")]
    + ([Token("ota", "")] + ([Token("header", "")] + ([Token("type", "aota")] + ([Token("/type", "")]
    + ([Token("repo", "remote")] + ([Token("/repo", "")] + ([Token("/header", "")]
    + ([Token("type", "")] + [Token(AOTA_HEAD, "")])))))))))))

  const FOOTER_TOKENS: seq<Token> :=
    [Token("/aota", "")] + ([Token("/type", "")] + ([Token("/ota", "")] + [Token("/manifest", "")]))

  function AotaManifest(arguments: map<string, string>): string {
    AOTA_HEADER + Render(TagTokens(arguments, AOTA_NAMES)) + AOTA_FOOTER
  }

  lemma RenderCons(t: Token, text: string, more: seq<Token>, rest: string)
    requires t.Render() == text && Render(more) == rest
    ensures Render([t] + more) == text + rest
  {
    assert ([t] + more)[1..] == more;
  }

  lemma RenderLast(t: Token)
    ensures Render([t]) == t.Render()
  {
  }

  lemma RenderEmpty(head: string)
    ensures Token(head, "").Render() == Begin(head)
  {
  }

  lemma HeaderTagTexts()
    ensures Token("type", "").Render() == "<type>" && Token("/type", "").Render() == "</type>"
    ensures Token("type", "aota").Render() == "<type>aota" && Token("type", "ota").Render() == "<type>ota"
    ensures Token("header", "").Render() == "<header>" && Token("/header", "").Render() == "</header>"
    ensures Token("repo", "remote").Render() == "<repo>remote" && Token("/repo", "").Render() == "</repo>"
    ensures Token("ota", "").Render() == "<ota>" && Token("manifest", "").Render() == "<manifest>"
  {
  }

  lemma HeaderText()
    ensures Render(HEADER_TOKENS) == AOTA_HEADER
  {
    hide Token.Render, Render, Begin;
    HeaderTagTexts();
    RenderEmpty(XML_HEAD);
    RenderEmpty(AOTA_HEAD);
    RenderLast(Token(AOTA_HEAD, ""));
    var t := [Token(AOTA_HEAD, "")];
    var s := Begin(AOTA_HEAD);
    RenderCons(Token("type", ""), "<type>", t, s);
    t, s := [Token("type", "")] + t, "<type>" + s;
    RenderCons(Token("/header", ""), "</header>", t, s);
    t, s := [Token("/header", "")] + t, "</header>" + s;
    RenderCons(Token("/repo", ""), "</repo>", t, s);
    t, s := [Token("/repo", "")] + t, "</repo>" + s;
    RenderCons(Token("repo", "remote"), "<repo>remote", t, s);
    t, s := [Token("repo", "remote")] + t, "<repo>remote" + s;
    RenderCons(Token("/type", ""), "</type>", t, s);
    t, s := [Token("/type", "")] + t, "</type>" + s;
    RenderCons(Token("type", "aota"), "<type>aota", t, s);
    t, s := [Token("type", "aota")] + t, "<type>aota" + s;
    RenderCons(Token("header", ""), "<header>", t, s);
    t, s := [Token("header", "")] + t, "<header>" + s;
    RenderCons(Token("ota", ""), "<ota>", t, s);
    t, s := [Token("ota", "")] + t, "<ota>" + s;
    RenderCons(Token("/type", ""), "</type>", t, s);
    t, s := [Token("/type", "")] + t, "</type>" + s;
    RenderCons(Token("type", "ota"), "<type>ota", t, s);
    t, s := [Token("type", "ota")] + t, "<type>ota" + s;
    RenderCons(Token("manifest", ""), "<manifest>", t, s);
    t, s := [Token("manifest", "")] + t, "<manifest>" + s;
    RenderCons(Token(XML_HEAD, ""), Begin(XML_HEAD), t, s);
  }

  lemma FooterText()
    ensures Render(FOOTER_TOKENS) == AOTA_FOOTER
  {
    RenderLast(Token("/manifest", ""));
    var t, s := [Token("/manifest", "")], "</manifest>";
    RenderCons(Token("/ota", ""), "</ota>", t, s);
    t, s := [Token("/ota", "")] + t, "</ota>" + s;
    RenderCons(Token("/type", ""), "</type>", t, s);
    t, s := [Token("/type", "")] + t, "</type>" + s;
    RenderCons(Token("/aota", ""), "</aota>", t, s);
  }

  /** Tags with the named values overwritten by the mask. */
  function MaskTags(tags: map<string, string>, names: set<string>): map<string, string> {
    map name | name in tags :: if name in names then MASK else tags[name]
  }

  lemma {:induction false} TagTokensNoField(tags: map<string, string>, names: seq<string>, other: string)
    requires ValidNames(names) && ValidName(other) && other !in names
    ensures ValidTokens(TagTokens(tags, names)) && NoField(TagTokens(tags, names), other)
  {
    TagTokensValid(tags, names);
    if names != [] {
      assert names[0] in names;
      var v := CleanOption(Lookup(tags, names[0]));
      assert FieldText(v) by { CleanOptionText(Lookup(tags, names[0])); }
      ElementSurroundings(names[0], v, other);
      TagTokensNoField(tags, names[1..], other);
    }
  }

  lemma CleanOptionText(v: Option<string>)
    ensures FieldText(CleanOption(v))
  {
    if v.Some? {
      EscapeRemovesMarkup(v.value);
      assert "<>\"'\0"[0] == '<' && "<>\"'\0"[1] == '>';
    }
  }

  lemma {:induction false} TagTokensUnmasked(tags: map<string, string>, names: seq<string>, masked: set<string>)
    requires forall name <- names :: name !in masked
    ensures TagTokens(MaskTags(tags, masked), names) == TagTokens(tags, names)
  {
    if names != [] {
      assert names[0] in names;
      TagTokensUnmasked(tags, names[1..], masked);
    }
  }

  lemma CleanMask()
    ensures CleanInput(MASK) == MASK
  {
    hide ReplaceChar;
    assert forall c <- MASK :: c == 'X';
    ReplaceCharAbsent(MASK, '&', "&amp;");
    ReplaceCharAbsent(MASK, '<', "&lt;");
    ReplaceCharAbsent(MASK, '>', "&gt;");
    ReplaceCharAbsent(MASK, '"', "&quot;");
    ReplaceCharAbsent(MASK, '\'', "&#x27;");
    ReplaceCharAbsent(MASK, '\0', "");
  }

  /** Tag names that are not those of a credential pair. */
  predicate Others(names: seq<string>, plain: string, docker: string) {
    ValidNames(names) && plain !in names && docker !in names
  }

  lemma OtherTags(tags: map<string, string>, names: seq<string>, plain: string, docker: string)
    requires Others(names, plain, docker) && ValidName(plain) && ValidName(docker)
    ensures Surroundings(TagTokens(tags, names), plain, docker)
    ensures TagTokens(MaskTags(tags, {plain, docker}), names) == TagTokens(tags, names)
  {
    TagTokensNoField(tags, names, plain);
    TagTokensNoField(tags, names, docker);
    TagTokensUnmasked(tags, names, {plain, docker});
  }

  /** Tag names in which the plain name of a pair stands before the docker name. */
  function NameOrder(x: seq<string>, plain: string, y: seq<string>, docker: string, z: seq<string>): seq<string> {
    x + ([plain] + (y + ([docker] + z)))
  }

  lemma TagTokensFirst(tags: map<string, string>, name: string, names: seq<string>)
    ensures TagTokens(tags, [name] + names) == Element(name, CleanOption(Lookup(tags, name))) + TagTokens(tags, names)
  {
    assert ([name] + names)[1..] == names;
  }

  lemma DocumentNested(a: seq<Token>, plain: string, pv: Option<string>, b: seq<Token>,
                       docker: string, dv: Option<string>, c: seq<Token>)
    ensures Document(a, plain, pv, b, docker, dv, c)
         == a + (Element(plain, pv) + (b + (Element(docker, dv) + c)))
  {
  }

  lemma TagTokensOrder(tags: map<string, string>, x: seq<string>, plain: string, y: seq<string>,
                       docker: string, z: seq<string>)
    ensures TagTokens(tags, NameOrder(x, plain, y, docker, z))
         == Document(TagTokens(tags, x), plain, CleanOption(Lookup(tags, plain)), TagTokens(tags, y),
                     docker, CleanOption(Lookup(tags, docker)), TagTokens(tags, z))
  {
    var tail := y + ([docker] + z);
    TagTokensConcat(tags, x, [plain] + tail);
    TagTokensFirst(tags, plain, tail);
    TagTokensConcat(tags, y, [docker] + z);
    TagTokensFirst(tags, docker, z);
    DocumentNested(TagTokens(tags, x), plain, CleanOption(Lookup(tags, plain)), TagTokens(tags, y),
                   docker, CleanOption(Lookup(tags, docker)), TagTokens(tags, z));
  }

  lemma DocumentWithin(header: seq<Token>, a: seq<Token>, plain: string, pv: Option<string>, b: seq<Token>,
                       docker: string, dv: Option<string>, c: seq<Token>, footer: seq<Token>)
    ensures header + Document(a, plain, pv, b, docker, dv, c) + footer
         == Document(header + a, plain, pv, b, docker, dv, c + footer)
  {
  }

  lemma SurroundingsAppend(x: seq<Token>, y: seq<Token>, plain: string, docker: string)
    requires Surroundings(x, plain, docker) && Surroundings(y, plain, docker)
    ensures Surroundings(x + y, plain, docker)
  {
  }

  lemma MaskedLookup(tags: map<string, string>, names: set<string>, name: string)
    requires name in names
    ensures CleanOption(Lookup(MaskTags(tags, names), name)) == MaskOption(CleanOption(Lookup(tags, name)))
  {
    CleanMask();
  }

  /**
   * Masking commutes with building the tags text, for every list of names in which the plain tag
   * stands before the docker tag.
   */
  lemma MaskFieldsOfTags(header: seq<Token>, tags: map<string, string>, x: seq<string>, plain: string,
                         y: seq<string>, docker: string, z: seq<string>, footer: seq<Token>)
    requires ValidName(plain) && ValidName(docker) && plain != docker
    requires Others(x, plain, docker) && Others(y, plain, docker) && Others(z, plain, docker)
    requires header != [] && Surroundings(header, plain, docker) && Surroundings(footer, plain, docker)
    ensures
      var names := NameOrder(x, plain, y, docker, z);
      MaskFields(Render(header + TagTokens(tags, names) + footer), docker, plain)
        == Render(header + TagTokens(MaskTags(tags, {plain, docker}), names) + footer)
  {
    var masked := MaskTags(tags, {plain, docker});
    var pv, dv := CleanOption(Lookup(tags, plain)), CleanOption(Lookup(tags, docker));
    var tx, ty, tz := TagTokens(tags, x), TagTokens(tags, y), TagTokens(tags, z);
    OtherTags(tags, x, plain, docker);
    OtherTags(tags, y, plain, docker);
    OtherTags(tags, z, plain, docker);
    CleanOptionText(Lookup(tags, plain));
    CleanOptionText(Lookup(tags, docker));
    MaskedLookup(tags, {plain, docker}, plain);
    MaskedLookup(tags, {plain, docker}, docker);
    TagTokensOrder(tags, x, plain, y, docker, z);
    TagTokensOrder(masked, x, plain, y, docker, z);
    DocumentWithin(header, tx, plain, pv, ty, docker, dv, tz, footer);
    DocumentWithin(header, tx, plain, MaskOption(pv), ty, docker, MaskOption(dv), tz, footer);
    SurroundingsAppend(header, tx, plain, docker);
    SurroundingsAppend(tz, footer, plain, docker);
    MaskFieldsDocument(header + tx, plain, pv, ty, docker, dv, tz + footer);
  }

  /** A manifest: the named tags between a fixed header and a fixed footer. */
  function Manifest(header: seq<Token>, arguments: map<string, string>, names: seq<string>, footer: seq<Token>): string {
    Render(header + TagTokens(arguments, names) + footer)
  }

  lemma AotaManifestTokens(arguments: map<string, string>)
    ensures AotaManifest(arguments) == Manifest(HEADER_TOKENS, arguments, AOTA_NAMES, FOOTER_TOKENS)
  {
    HeaderText();
    FooterText();
    RenderConcat(HEADER_TOKENS, TagTokens(arguments, AOTA_NAMES));
    RenderConcat(HEADER_TOKENS + TagTokens(arguments, AOTA_NAMES), FOOTER_TOKENS);
  }

  /** Tokens that belong to none of the four credential fields. */
  predicate Plain(tokens: seq<Token>) {
    Surroundings(tokens, "username", "dockerUsername") && Surroundings(tokens, "password", "dockerPassword")
  }

  lemma PlainCons(t: Token, more: seq<Token>)
    requires Plain([t]) && Plain(more)
    ensures Plain([t] + more)
  {
    SurroundingsAppend([t], more, "username", "dockerUsername");
    SurroundingsAppend([t], more, "password", "dockerPassword");
  }

  lemma PlainToken(t: Token)
    requires t.Valid()
    requires t.head != "username" && t.head != "password" && t.head != "dockerUsername" && t.head != "dockerPassword"
    requires t.head != "/username" && t.head != "/password"
    requires t.head != "/dockerUsername" && t.head != "/dockerPassword"
    ensures Plain([t])
  {
    assert "/" + "username" == "/username" && "/" + "password" == "/password";
    assert "/" + "dockerUsername" == "/dockerUsername" && "/" + "dockerPassword" == "/dockerPassword";
  }

  lemma HeaderTokensPlain()
    ensures Plain([Token("manifest", "")]) && Plain([Token("ota", "")])
    ensures Plain([Token("header", "")]) && Plain([Token("/header", "")])
  {
    PlainToken(Token("manifest", ""));
    PlainToken(Token("ota", ""));
    PlainToken(Token("header", ""));
    PlainToken(Token("/header", ""));
  }

  lemma XmlHeadPlain()
    ensures Plain([Token(XML_HEAD, "")])
  {
    assert |"?xml version=\"1.0\""| == 18;
    assert '<' !in "?xml version=\"1.0\"" && '>' !in "?xml version=\"1.0\"";
    assert '<' !in " encoding=\"utf-8\"?" && '>' !in " encoding=\"utf-8\"?";
    LongTokenPlain(Token(XML_HEAD, ""));
  }

  lemma LongTokenPlain(t: Token)
    requires t.Valid() && |t.head| > 15
    ensures Plain([t])
  {
    PlainToken(t);
  }

  lemma AotaHeadPlain()
    ensures Plain([Token(AOTA_HEAD, "")])
  {
    assert |AOTA_HEAD| == 22;
    assert '<' !in AOTA_HEAD && '>' !in AOTA_HEAD;
    LongTokenPlain(Token(AOTA_HEAD, ""));
  }

  lemma HeaderElementsPlain()
    ensures Plain([Token("type", "")]) && Plain([Token("type", "ota")]) && Plain([Token("type", "aota")])
    ensures Plain([Token("/type", "")]) && Plain([Token("repo", "remote")]) && Plain([Token("/repo", "")])
  {
    PlainToken(Token("type", ""));
    PlainToken(Token("type", "ota"));
    PlainToken(Token("type", "aota"));
    PlainToken(Token("/type", ""));
    PlainToken(Token("repo", "remote"));
    PlainToken(Token("/repo", ""));
  }

  lemma HeaderPlain()
    ensures Plain(HEADER_TOKENS)
  {
    XmlHeadPlain();
    AotaHeadPlain();
    HeaderTokensPlain();
    HeaderElementsPlain();
    var t := [Token(AOTA_HEAD, "")];
    PlainCons(Token("type", ""), t);
    t := [Token("type", "")] + t;
    PlainCons(Token("/header", ""), t);
    t := [Token("/header", "")] + t;
    PlainCons(Token("/repo", ""), t);
    t := [Token("/repo", "")] + t;
    PlainCons(Token("repo", "remote"), t);
    t := [Token("repo", "remote")] + t;
    PlainCons(Token("/type", ""), t);
    t := [Token("/type", "")] + t;
    PlainCons(Token("type", "aota"), t);
    t := [Token("type", "aota")] + t;
    PlainCons(Token("header", ""), t);
    t := [Token("header", "")] + t;
    PlainCons(Token("ota", ""), t);
    t := [Token("ota", "")] + t;
    PlainCons(Token("/type", ""), t);
    t := [Token("/type", "")] + t;
    PlainCons(Token("type", "ota"), t);
    t := [Token("type", "ota")] + t;
    PlainCons(Token("manifest", ""), t);
    t := [Token("manifest", "")] + t;
    PlainCons(Token(XML_HEAD, ""), t);
  }

  lemma FooterPlain()
    ensures Plain(FOOTER_TOKENS)
  {
    PlainToken(Token("/manifest", ""));
    PlainToken(Token("/ota", ""));
    PlainToken(Token("/type", ""));
    PlainToken(Token("/aota", ""));
    var t := [Token("/manifest", "")];
    PlainCons(Token("/ota", ""), t);
    t := [Token("/ota", "")] + t;
    PlainCons(Token("/type", ""), t);
    t := [Token("/type", "")] + t;
    PlainCons(Token("/aota", ""), t);
  }

  const COMMON_NAMES: seq<string> :=
    ["cmd", "app", "fetch", "file", "version", "signature", "containerTag", "deviceReboot"]

  lemma CommonNames()
    ensures Others(COMMON_NAMES, "username", "dockerUsername")
    ensures Others(COMMON_NAMES, "password", "dockerPassword")
  {
  }

  lemma PasswordOrder(x: seq<string>, y: seq<string>)
    requires x == COMMON_NAMES + ["username"] && y == ["dockerRegistry", "dockerUsername"]
    ensures AOTA_NAMES == NameOrder(x, "password", y, "dockerPassword", [])
    ensures Others(x, "password", "dockerPassword") && Others(y, "password", "dockerPassword")
  {
    CommonNames();
    assert Others(["username"], "password", "dockerPassword");
  }

  lemma UsernameOrder(x: seq<string>, y: seq<string>, z: seq<string>)
    requires x == COMMON_NAMES && y == ["password", "dockerRegistry"] && z == ["dockerPassword"]
    ensures AOTA_NAMES == NameOrder(x, "username", y, "dockerUsername", z)
    ensures Others(x, "username", "dockerUsername") && Others(y, "username", "dockerUsername")
    ensures Others(z, "username", "dockerUsername")
  {
    CommonNames();
  }

  lemma MaskPasswordCommutes(arguments: map<string, string>)
    ensures MaskPassword(Manifest(HEADER_TOKENS, arguments, AOTA_NAMES, FOOTER_TOKENS))
         == Manifest(HEADER_TOKENS, MaskTags(arguments, {"password", "dockerPassword"}), AOTA_NAMES, FOOTER_TOKENS)
  {
    hide MaskFields, MaskTags, TagTokens, Render, NameOrder;
    HeaderPlain();
    FooterPlain();
    var x, y := COMMON_NAMES + ["username"], ["dockerRegistry", "dockerUsername"];
    PasswordOrder(x, y);
    MaskFieldsOfTags(HEADER_TOKENS, arguments, x, "password", y, "dockerPassword", [], FOOTER_TOKENS);
  }

  lemma MaskUsernameCommutes(arguments: map<string, string>)
    ensures MaskUsername(Manifest(HEADER_TOKENS, arguments, AOTA_NAMES, FOOTER_TOKENS))
         == Manifest(HEADER_TOKENS, MaskTags(arguments, {"username", "dockerUsername"}), AOTA_NAMES, FOOTER_TOKENS)
  {
    hide MaskFields, MaskTags, TagTokens, Render, NameOrder;
    HeaderPlain();
    FooterPlain();
    var x, y, z := COMMON_NAMES, ["password", "dockerRegistry"], ["dockerPassword"];
    UsernameOrder(x, y, z);
    MaskFieldsOfTags(HEADER_TOKENS, arguments, x, "username", y, "dockerUsername", z, FOOTER_TOKENS);
  }

  const CREDENTIALS: set<string> := {"password", "dockerPassword"} + {"username", "dockerUsername"}

  /**
   * Masking an AOTA manifest gives the manifest of the masked arguments: the credentials are gone
   * and nothing else has changed, whatever characters the argument values contain.
   */
  lemma MaskingCommutes(arguments: map<string, string>)
    ensures MaskSecurityInfo(AotaManifest(arguments)) == AotaManifest(MaskTags(arguments, CREDENTIALS))
  {
    var first := MaskTags(arguments, {"password", "dockerPassword"});
    MaskPasswordCommutes(arguments);
    MaskUsernameCommutes(first);
    MaskTagsTwice(arguments, {"password", "dockerPassword"}, {"username", "dockerUsername"});
    AotaManifestTokens(arguments);
    AotaManifestTokens(MaskTags(arguments, CREDENTIALS));
  }

  lemma MaskTagsTwice(tags: map<string, string>, x: set<string>, y: set<string>)
    ensures MaskTags(MaskTags(tags, x), y) == MaskTags(tags, x + y)
  {
  }

  /** The keyword arguments of a request, which validation rewrites in place. */
  class Arguments {
    var entries: map<string, string>

    constructor (entries: map<string, string>)
      ensures this.entries == entries
    {
      this.entries := entries;
    }
  }

  /** A parameter and the values it may take. */
  datatype Choice = Choice(parameter: string, values: seq<string>)

  /** The first permitted value equal to `value` when case is ignored. */
  function Permitted(lower: string -> string, value: string, values: seq<string>): (r: Option<string>)
    ensures r.Some? ==> r.value in values && lower(r.value) == lower(value)
    ensures r.None? <==> forall v <- values :: lower(v) != lower(value)
  {
    if values == [] then None
    else if lower(value) == lower(values[0]) then Some(values[0])
    else Permitted(lower, value, values[1..])
  }

  predicate Acceptable(lower: string -> string, entries: map<string, string>, choice: Choice) {
    choice.parameter in entries && entries[choice.parameter] != ""
    && Permitted(lower, entries[choice.parameter], choice.values).Some?
  }

  predicate DistinctParameters(choices: seq<Choice>) {
    forall i, j | 0 <= i < j < |choices| :: choices[i].parameter != choices[j].parameter
  }

  /**
   * Checks each parameter against its permitted values and replaces it by the permitted spelling.
   * False: some value is not permitted. Every argument has been checked by then, and those that were
   * acceptable have been rewritten by then.
   */
  method SanitizeValues(lower: string -> string, arguments: Arguments, choices: seq<Choice>) returns (ok: bool)
    requires DistinctParameters(choices)
    modifies arguments
    ensures ok <==> forall c <- choices :: Acceptable(lower, old(arguments.entries), c)
    ensures arguments.entries.Keys == old(arguments.entries.Keys)
    ensures forall c <- choices | Acceptable(lower, old(arguments.entries), c) ::
      arguments.entries[c.parameter] == Permitted(lower, old(arguments.entries)[c.parameter], c.values).value
    ensures forall p <- arguments.entries |
      (forall c <- choices | Acceptable(lower, old(arguments.entries), c) :: c.parameter != p) ::
      arguments.entries[p] == old(arguments.entries)[p]
  {
    ok := true;
    ghost var before := arguments.entries;
    for i := 0 to |choices|
      invariant ok <==> forall c <- choices[..i] :: Acceptable(lower, before, c)
      invariant arguments.entries.Keys == before.Keys
      invariant forall c <- choices[..i] | Acceptable(lower, before, c) ::
        arguments.entries[c.parameter] == Permitted(lower, before[c.parameter], c.values).value
      invariant forall p <- before | (forall c <- choices[..i] | Acceptable(lower, before, c) :: c.parameter != p) ::
        arguments.entries[p] == before[p]
    {
      var c := choices[i];
      assert choices[..i + 1] == choices[..i] + [c];
      assert forall d :: d in choices[..i + 1] <==> d in choices[..i] || d == c;
      assert forall d <- choices[..i] :: d.parameter != c.parameter;
      assert c.parameter in before ==> arguments.entries[c.parameter] == before[c.parameter];
      if c.parameter !in arguments.entries || arguments.entries[c.parameter] == "" {
        ok := false;
      } else {
        var value := Permitted(lower, arguments.entries[c.parameter], c.values);
        if value.Some? {
          arguments.entries := arguments.entries[c.parameter := value.value];
        } else {
          ok := false;
        }
      }
    }
    assert choices[..|choices|] == choices;
  }

  const APP_CHOICE := Choice("app", ["docker", "compose", "application"])
  const CMD_CHOICE := Choice("cmd", ["down", "import", "list", "load", "pull", "remove", "stats", "up", "update"])

  /** `pop` a name and, if its value is not empty, store the value under another. */
  function Rename(entries: map<string, string>, name: string, name': string): map<string, string> {
    var rest := entries - {name};
    if name in entries && entries[name] != "" then rest[name' := entries[name]] else rest
  }

  /** The arguments in the permitted spelling of the two checked parameters. */
  function Canonical(lower: string -> string, entries: map<string, string>, c: Choice, d: Choice): map<string, string>
    requires Acceptable(lower, entries, c) && Acceptable(lower, entries, d)
  {
    entries[c.parameter := Permitted(lower, entries[c.parameter], c.values).value]
           [d.parameter := Permitted(lower, entries[d.parameter], d.values).value]
  }

  /** The arguments the manifest is built from. */
  function AotaArguments(lower: string -> string, kwargs: map<string, string>): map<string, string>
    requires Acceptable(lower, kwargs, APP_CHOICE) && Acceptable(lower, kwargs, CMD_CHOICE)
  {
    var checked := Canonical(lower, kwargs, APP_CHOICE, CMD_CHOICE);
    Rename(Rename(checked, "container_tag", "containerTag"), "device_reboot", "deviceReboot")
  }

  /** Validation of two parameters. */
  method SanitizePair(lower: string -> string, arguments: Arguments, c: Choice, d: Choice) returns (ok: bool)
    requires c.parameter != d.parameter
    modifies arguments
    ensures ok <==> Acceptable(lower, old(arguments.entries), c) && Acceptable(lower, old(arguments.entries), d)
    ensures ok ==> arguments.entries == Canonical(lower, old(arguments.entries), c, d)
  {
    var choices := [c, d];
    ok := SanitizeValues(lower, arguments, choices);
    assert forall e <- choices :: e == c || e == d;
    assert c in choices && d in choices;
  }

  method PopRename(arguments: Arguments, name: string, name': string)
    modifies arguments
    ensures arguments.entries == Rename(old(arguments.entries), name, name')
  {
    var value := Lookup(arguments.entries, name);
    arguments.entries := arguments.entries - {name};
    if value.Some? && value.value != "" {
      arguments.entries := arguments.entries[name' := value.value];
    }
  }

  /** A parameter that is given and not empty. */
  predicate Given(kwargs: map<string, string>, name: string) {
    name in kwargs && kwargs[name] != ""
  }

  /** How the tags of the frame begin, and no argument but `app`, which is shorter than the one that begins so. */
  predicate FrameHead(head: string) {
    head == AOTA_HEAD || (head != "" && head[0] in {'?', '/', 'm', 't', 'o', 'h', 'r'})
  }

  predicate Frame(tokens: seq<Token>) {
    forall t <- tokens :: FrameHead(t.head)
  }

  lemma FrameCons(t: Token, more: seq<Token>)
    requires FrameHead(t.head) && Frame(more)
    ensures Frame([t] + more)
  {
  }

  lemma HeaderFrame()
    ensures Frame(HEADER_TOKENS)
  {
    hide Frame, FrameHead;
    FrameHeads();
    var t := [Token(AOTA_HEAD, "")];
    FrameCons(Token("type", ""), t);
    t := [Token("type", "")] + t;
    FrameCons(Token("/header", ""), t);
    t := [Token("/header", "")] + t;
    FrameCons(Token("/repo", ""), t);
    t := [Token("/repo", "")] + t;
    FrameCons(Token("repo", "remote"), t);
    t := [Token("repo", "remote")] + t;
    FrameCons(Token("/type", ""), t);
    t := [Token("/type", "")] + t;
    FrameCons(Token("type", "aota"), t);
    t := [Token("type", "aota")] + t;
    FrameCons(Token("header", ""), t);
    t := [Token("header", "")] + t;
    FrameCons(Token("ota", ""), t);
    t := [Token("ota", "")] + t;
    FrameCons(Token("/type", ""), t);
    t := [Token("/type", "")] + t;
    FrameCons(Token("type", "ota"), t);
    t := [Token("type", "ota")] + t;
    FrameCons(Token("manifest", ""), t);
    t := [Token("manifest", "")] + t;
    FrameCons(Token(XML_HEAD, ""), t);
  }

  lemma FrameHeads()
    ensures FrameHead(XML_HEAD) && FrameHead("manifest") && FrameHead("type") && FrameHead("/type") && FrameHead("ota")
    ensures FrameHead("header") && FrameHead("repo") && FrameHead("/repo") && FrameHead("/header")
    ensures FrameHead("/aota") && FrameHead("/ota") && FrameHead("/manifest")
    ensures Frame([Token(AOTA_HEAD, "")])
  {
    assert XML_HEAD[0] == '?';
  }

  lemma FooterFrame()
    ensures Frame(FOOTER_TOKENS)
  {
    hide FrameHead;
    FrameHeads();
  }

  lemma NamesApart(names: seq<string>)
    requires names == COMMON_NAMES || names == ["username", "password", "dockerRegistry", "dockerUsername", "dockerPassword"]
    ensures forall name <- names :: !FrameHead(name)
  {
    assert |AOTA_HEAD| > 3 && AOTA_HEAD[0] == 'a';
  }

  /** No tag of the frame around the arguments is named like an argument. */
  lemma ArgumentApart(name: string)
    requires name in AOTA_NAMES
    ensures !FrameHead(name) && ValidName(name)
  {
    hide FrameHead;
    var rest := ["username", "password", "dockerRegistry", "dockerUsername", "dockerPassword"];
    NamesApart(COMMON_NAMES);
    NamesApart(rest);
    assert AOTA_NAMES == COMMON_NAMES + rest;
    UsernameOrder(COMMON_NAMES, ["password", "dockerRegistry"], ["dockerPassword"]);
  }

  /** A reader of the manifest finds every argument under its own name. */
  lemma ManifestRead(arguments: map<string, string>, name: string)
    requires name in AOTA_NAMES
    ensures ReadTag(AotaManifest(arguments), name) == WithoutNul(Lookup(arguments, name))
  {
    hide AotaManifest, TagTokens, Tokenize, Render, TagText, FrameHead, ValidTokens;
    var tags := TagTokens(arguments, AOTA_NAMES);
    AotaManifestTokens(arguments);
    ManifestValid(arguments);
    FrameApart(name);
    var tokens := HEADER_TOKENS + tags + FOOTER_TOKENS;
    TokenizeRender(tokens);
    assert tokens == HEADER_TOKENS + (tags + FOOTER_TOKENS);
    TagTextSkip(HEADER_TOKENS, tags + FOOTER_TOKENS, name);
    TagTextOf(arguments, AOTA_NAMES, FOOTER_TOKENS, name);
    assert FOOTER_TOKENS + [] == FOOTER_TOKENS;
    TagTextSkip(FOOTER_TOKENS, [], name);
    NoTagText(name);
  }

  lemma ManifestValid(arguments: map<string, string>)
    ensures ValidTokens(HEADER_TOKENS + TagTokens(arguments, AOTA_NAMES) + FOOTER_TOKENS)
  {
    hide TagTokens, FrameHead, NoField;
    ArgumentNames();
    TagTokensValid(arguments, AOTA_NAMES);
    HeaderPlain();
    FooterPlain();
  }

  lemma FrameApart(name: string)
    requires name in AOTA_NAMES
    ensures ValidName(name)
    ensures (forall t <- HEADER_TOKENS :: t.head != name) && forall t <- FOOTER_TOKENS :: t.head != name
  {
    hide FrameHead;
    ArgumentApart(name);
    HeaderFrame();
    FooterFrame();
  }

  lemma NoTagText(name: string)
    ensures TagText([], name) == None
  {
  }

  lemma ArgumentNames()
    ensures ValidNames(AOTA_NAMES)
  {
    hide FrameHead;
    forall name <- AOTA_NAMES
      ensures ValidName(name)
    {
      ArgumentApart(name);
    }
  }

  lemma RenameLookup(entries: map<string, string>, name: string, name': string, other: string)
    requires name != name'
    ensures Lookup(Rename(entries, name, name'), name') == Lookup(entries, if Given(entries, name) then name else name')
    ensures other != name && other != name' ==> Lookup(Rename(entries, name, name'), other) == Lookup(entries, other)
  {
  }

  /** The parameters that are passed on as they are */
  const PASSED_ON: seq<string> :=
    ["fetch", "file", "version", "signature", "username", "password", "dockerRegistry", "dockerUsername", "dockerPassword"]

  /** The letters by which the names that matter here differ. */
  predicate PassedOn(name: string) {
    name in AOTA_NAMES && name !in {"app", "cmd", "containerTag", "container_tag", "deviceReboot", "device_reboot"}
  }

  lemma PassedNames()
    ensures forall name <- PASSED_ON :: PassedOn(name)
  {
    assert forall name <- ["username", "password", "dockerRegistry", "dockerUsername", "dockerPassword"] :: PassedOn(name);
    assert forall name <- ["fetch", "file", "version", "signature"] :: PassedOn(name);
    assert PASSED_ON == ["fetch", "file", "version", "signature"]
                        + ["username", "password", "dockerRegistry", "dockerUsername", "dockerPassword"];
  }

  lemma OtherNames()
    ensures "app" in AOTA_NAMES && "cmd" in AOTA_NAMES && "containerTag" in AOTA_NAMES && "deviceReboot" in AOTA_NAMES
    ensures PassedApart("app") && PassedApart("cmd") && "app" != "cmd"
    ensures "container_tag" !in {"app", "cmd", "containerTag", "deviceReboot", "device_reboot"}
    ensures "containerTag" !in {"app", "cmd", "deviceReboot", "device_reboot"}
    ensures "device_reboot" !in {"app", "cmd", "deviceReboot"} && "deviceReboot" !in {"app", "cmd"}
  {
    assert COMMON_NAMES[0] == "cmd" && COMMON_NAMES[1] == "app" && COMMON_NAMES[6] == "containerTag" && COMMON_NAMES[7] == "deviceReboot";
    assert AOTA_NAMES[..8] == COMMON_NAMES;
    assert "container_tag"[9] == '_' && "containerTag"[9] == 'T' && "device_reboot"[6] == '_' && "deviceReboot"[6] == 'R';
  }

  predicate PassedApart(name: string) {
    name !in {"containerTag", "container_tag", "deviceReboot", "device_reboot"}
  }

  /** What becomes of the parameters of a request. */
  lemma ArgumentsOf(lower: string -> string, kwargs: map<string, string>)
    requires Acceptable(lower, kwargs, APP_CHOICE) && Acceptable(lower, kwargs, CMD_CHOICE)
    ensures
      var arguments := AotaArguments(lower, kwargs);
      && Lookup(arguments, "app") == Permitted(lower, kwargs["app"], APP_CHOICE.values)
      && Lookup(arguments, "cmd") == Permitted(lower, kwargs["cmd"], CMD_CHOICE.values)
      && Lookup(arguments, "containerTag") == Lookup(kwargs, if Given(kwargs, "container_tag") then "container_tag" else "containerTag")
      && Lookup(arguments, "deviceReboot") == Lookup(kwargs, if Given(kwargs, "device_reboot") then "device_reboot" else "deviceReboot")
  {
    hide Permitted, Rename;
    OtherNames();
    var checked := Canonical(lower, kwargs, APP_CHOICE, CMD_CHOICE);
    var renamed := Rename(checked, "container_tag", "containerTag");
    RenameLookup(checked, "container_tag", "containerTag", "app");
    RenameLookup(checked, "container_tag", "containerTag", "cmd");
    RenameLookup(checked, "container_tag", "containerTag", "deviceReboot");
    RenameLookup(checked, "container_tag", "containerTag", "device_reboot");
    RenameLookup(renamed, "device_reboot", "deviceReboot", "app");
    RenameLookup(renamed, "device_reboot", "deviceReboot", "cmd");
    RenameLookup(renamed, "device_reboot", "deviceReboot", "containerTag");
  }

  lemma PassedArgument(lower: string -> string, kwargs: map<string, string>, name: string)
    requires Acceptable(lower, kwargs, APP_CHOICE) && Acceptable(lower, kwargs, CMD_CHOICE) && PassedOn(name)
    ensures Lookup(AotaArguments(lower, kwargs), name) == Lookup(kwargs, name)
  {
    hide Permitted, Rename;
    OtherNames();
    var checked := Canonical(lower, kwargs, APP_CHOICE, CMD_CHOICE);
    RenameLookup(checked, "container_tag", "containerTag", name);
    RenameLookup(Rename(checked, "container_tag", "containerTag"), "device_reboot", "deviceReboot", name);
  }

  /** What the reader finds of the parameters of a request. */
  lemma ArgumentsRead(lower: string -> string, kwargs: map<string, string>)
    requires Acceptable(lower, kwargs, APP_CHOICE) && Acceptable(lower, kwargs, CMD_CHOICE)
    ensures
      var manifest := AotaManifest(AotaArguments(lower, kwargs));
      && ReadTag(manifest, "app") == WithoutNul(Permitted(lower, kwargs["app"], APP_CHOICE.values))
      && ReadTag(manifest, "cmd") == WithoutNul(Permitted(lower, kwargs["cmd"], CMD_CHOICE.values))
      && ReadTag(manifest, "containerTag")
         == WithoutNul(Lookup(kwargs, if Given(kwargs, "container_tag") then "container_tag" else "containerTag"))
      && ReadTag(manifest, "deviceReboot")
         == WithoutNul(Lookup(kwargs, if Given(kwargs, "device_reboot") then "device_reboot" else "deviceReboot"))
      && forall name <- PASSED_ON :: ReadTag(manifest, name) == WithoutNul(Lookup(kwargs, name))
  {
    hide AotaManifest, AotaArguments, ReadTag, Permitted, Lookup, WithoutNul, PassedOn;
    var arguments := AotaArguments(lower, kwargs);
    OtherNames();
    ArgumentsOf(lower, kwargs);
    ManifestRead(arguments, "app");
    ManifestRead(arguments, "cmd");
    ManifestRead(arguments, "containerTag");
    ManifestRead(arguments, "deviceReboot");
    PassedNames();
    forall name <- PASSED_ON
      ensures ReadTag(AotaManifest(arguments), name) == WithoutNul(Lookup(kwargs, name))
    {
      PassedRead(lower, kwargs, name);
    }
  }

  lemma PassedRead(lower: string -> string, kwargs: map<string, string>, name: string)
    requires Acceptable(lower, kwargs, APP_CHOICE) && Acceptable(lower, kwargs, CMD_CHOICE) && PassedOn(name)
    ensures ReadTag(AotaManifest(AotaArguments(lower, kwargs)), name) == WithoutNul(Lookup(kwargs, name))
  {
    hide AotaManifest, AotaArguments, ReadTag, Lookup, WithoutNul;
    ManifestRead(AotaArguments(lower, kwargs), name);
    PassedArgument(lower, kwargs, name);
  }

  class AotaPublisher {
    /** `str.lower`, whatever it does to characters outside ASCII */
    const lower: string -> string
    /** the manifests handed to the broker */
    var sent: seq<string>

    constructor (lower: string -> string)
      ensures this.lower == lower && sent == []
    {
      this.lower := lower;
      sent := [];
    }

    /** Sends the manifest, or raises ValueError (false) and sends nothing. */
    method PublishAota(kwargs: map<string, string>) returns (ok: bool)
      modifies this`sent
      ensures ok <==> Acceptable(lower, kwargs, APP_CHOICE) && Acceptable(lower, kwargs, CMD_CHOICE)
      ensures sent == if ok then old(sent) + [AotaManifest(AotaArguments(lower, kwargs))] else old(sent)
      ensures ok ==>
        var manifest := sent[|sent| - 1];
        && ReadTag(manifest, "app") == WithoutNul(Permitted(lower, kwargs["app"], ["docker", "compose", "application"]))
        && ReadTag(manifest, "cmd")
           == WithoutNul(Permitted(lower, kwargs["cmd"], ["down", "import", "list", "load", "pull", "remove", "stats", "up", "update"]))
        && ReadTag(manifest, "containerTag")
           == WithoutNul(Lookup(kwargs, if Given(kwargs, "container_tag") then "container_tag" else "containerTag"))
        && ReadTag(manifest, "deviceReboot")
           == WithoutNul(Lookup(kwargs, if Given(kwargs, "device_reboot") then "device_reboot" else "deviceReboot"))
        && forall name <- ["fetch", "file", "version", "signature", "username", "password", "dockerRegistry", "dockerUsername", "dockerPassword"] ::
             ReadTag(manifest, name) == WithoutNul(Lookup(kwargs, name))
    {
      var arguments := new Arguments(kwargs);
      ok := SanitizePair(lower, arguments, APP_CHOICE, CMD_CHOICE);
      if !ok {
        return;
      }
      PopRename(arguments, "container_tag", "containerTag");
      PopRename(arguments, "device_reboot", "deviceReboot");
      var tags := CreateXmlTags(arguments.entries, AOTA_NAMES);
      sent := sent + [AOTA_HEADER + tags + AOTA_FOOTER];
      ArgumentsRead(lower, kwargs);
    }
  }
}
