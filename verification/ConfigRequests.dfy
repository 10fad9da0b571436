/** What requests to the configuration agent achieve: changes by path, reading back, and loading a file. */
module ConfigRequests {
  import opened ConfigAgent
  import opened ConfigStore
  import opened ConfigText
  import opened ConfigTree
  import opened Options
  import opened PyStrings

  /** No tag holds a slash or a colon: neither is part of a name without a prefix (section 3 of Namespaces in XML 1.0). */
  predicate PlainTags(t: Tree) {
    '/' !in t.tag && ':' !in t.tag && forall c <- t.children :: PlainTags(c)
  }

  lemma {:induction false} SectionTag(t: Tree, n: nat, tag: string)
    requires PlainTags(t) && n <= |t.children| && LastParentIn(t, n, tag).Some?
    ensures '/' !in tag && ':' !in tag
    decreases t, n
  {
    var c := t.children[n - 1];
    assert c in t.children;
    if LastParentIn(c, |c.children|, tag).Some? {
      SectionTag(c, |c.children|, tag);
    } else if c.tag != tag {
      SectionTag(t, n - 1, tag);
    }
  }

  lemma {:induction false} NoSuchChild(children: seq<Tree>, path: seq<string>)
    requires path != [] && forall c <- children :: !Matches(path[0], c.tag)
    ensures FirstIn(children, path) == None
    decreases |children|
  {
    if children != [] {
      assert children[0] in children;
      NoSuchChild(children[1..], path);
    }
  }

  lemma SlashLater(tag: string, more: string)
    requires '/' !in tag
    ensures IndexOf(tag + [':'] + more, '/') > |tag|
  {
    IndexOfSkip(tag + [':'], more, '/');
  }

  /** A colon before the first slash is in the first step. */
  lemma ColonStep(path: string)
    requires ':' in path && '/' !in path[..IndexOf(path, ':')]
    ensures ':' in Steps(path)[0]
  {
    hide Split, IndexOf;
    var n := IndexOf(path, ':');
    ColonWithin(path);
    assert path == path[..n] + [':'] + path[n + 1..];
    SlashLater(path[..n], path[n + 1..]);
    SplitHead(path, '/');
    assert Split(path, '/')[0][n] == ':';
    assert Steps(path)[0] == Split(path, '/')[0];
  }

  lemma ColonWithin(path: string)
    requires ':' in path
    ensures IndexOf(path, ':') < |path|
  {
    var i :| 0 <= i < |path| && path[i] == ':';
    IndexOfLeast(path, ':', i);
  }

  /** A path that begins with a tag has no further steps, if it denotes anything. */
  lemma PathOfTag(root: Tree, path: string)
    requires PlainTags(root) && GetParent(root, Split1(path, ':')[0]).Done?
    ensures FindPath(root, path).Some? ==> '/' !in path && |FindPath(root, path).value| == 1
  {
    hide FirstIn, PlainTags, Split, LastParentIn;
    var tag := Split1(path, ':')[0];
    SectionTag(root, |root.children|, tag);
    if ':' in path {
      ColonWithin(path);
      ColonStep(path);
      PlainChildren(root);
      NoSuchChild(root.children, Steps(path));
    } else {
      IndexOfAbsent(path, ':');
      assert path[..|path|] == path;
      SplitFree(path, '/');
    }
  }

  lemma PlainChildren(t: Tree)
    requires PlainTags(t)
    ensures forall c <- t.children :: ':' !in c.tag
  {
  }

  function SetByPathRequest(path: string, value: string, valueString: Option<string>): Request {
    Request(Some("set_element"), Some(path), Some(value), valueString)
  }

  /** Where a request looks for its section: by its value string, or else by its path. */
  function NamedBy(path: string, valueString: Option<string>): string {
    Split1(if Given(valueString) then valueString.value else path, ':')[0]
  }

  /**
   * Setting by path and value, with or without a value string: the response is OK exactly when some
   * element carries the name looked for, an element is found by the path alone, and the schema accepts
   * the value. So without a value string no element inside a section can be set this way.
   */
  lemma SetByPath(lib: Library, xml: string, s: State, path: string, value: string, valueString: Option<string>)
    requires Lawful(lib) && Sound(lib, xml, s) && path != "" && value != ""
    ensures
      var p := FindPath(s.root, path);
      var (s', notices, reply) := Serve(lib, xml, s, SetByPathRequest(path, value, valueString));
      && (reply == ResponseOk <==>
            GetParent(s.root, NamedBy(path, valueString)).Done? && p.Some? && lib.accepts(SetText(s.root, p.value, value)))
      && Sound(lib, xml, s')
      && (reply == ResponseOk ==> s'.root == SetText(s.root, p.value, value) && notices == [(path, value)])
      && (reply != ResponseOk ==> s'.root == s.root && notices == [])
      && (reply == ResponseOk && PlainTags(s.root) && !Given(valueString) ==> '/' !in path && |p.value| == 1)
  {
    hide GetParent, UpdateText, Sound, Lawful, PlainTags, Split1;
    var header := GetParent(s.root, NamedBy(path, valueString));
    if header.Done? && FindPath(s.root, path).Some? {
      UpdateTextSound(lib, xml, s, FindPath(s.root, path).value, value);
      UpdateFailure(lib, xml, s, FindPath(s.root, path).value, value);
      if PlainTags(s.root) && !Given(valueString) {
        PathOfTag(s.root, path);
      }
    }
  }

  lemma UpdateFailure(lib: Library, xml: string, s: State, p: Position, value: string)
    requires ValidPosition(s.root, p)
    ensures UpdateText(lib, xml, s, p, value).1.Raised? ==> UpdateText(lib, xml, s, p, value).1.failure == ConfigurationException
  {
  }

  /**
   * Removing by path and value never removes anything and notifies no one, because the store drops the
   * value. The response is OK all the same exactly when the path leads to an element with a child.
   */
  lemma RemoveByPath(lib: Library, xml: string, s: State, path: string, value: string)
    requires path != "" && value != ""
    ensures
      var (s', notices, reply) := Serve(lib, xml, s, Request(Some("remove"), Some(path), Some(value), None));
      && s' == s && notices == []
      && (reply == ResponseOk <==> GetParent(s.root, Split1(path, ':')[0]).Done? && FindPath(s.root, path + "/").Some?)
      && reply != ResponseText("")
  {
    hide GetParent, FindPath;
    assert path + "/" + "" == path + "/";
    NothingAsked(s.root, path);
  }

  lemma NothingAsked(root: Tree, path: string)
    ensures RemoveRequest(root, path, "") == Raised(if FindPath(root, path + "/").Some? then IndexError else XmlException)
  {
    hide FindPath, TrimmedLines;
    assert path + "/" + "" == path + "/";
    SplitFree("", ',');
    assert Split1("", ':') == [""];
    assert [""][..0] == [];
    assert GetElements(root, path, [], false) == Done("");
    assert StripChars("", IsQuote) == "";
  }

  /** The requests for one element: by its tag as the path, or as the value string. */
  function GetByPath(name: string): Request {
    Request(Some("get_element"), Some(name), None, None)
  }

  function GetByItem(name: string): Request {
    Request(Some("get_element"), None, None, Some(name))
  }

  /** Reading one element of a section. */
  lemma GetAnswered(lib: Library, xml: string, s: State, header: string, name: string, p: Position)
    requires GetParent(s.root, name) == Done(header) && Holds(s.root, header, name, p) && name != ORCHESTRATOR
    ensures
      var text := At(s.root, p).text;
      && Serve(lib, xml, s, GetByPath(name)) == (s, [], ResponseText(header + "/" + name + ":" + text))
      && Serve(lib, xml, s, GetByItem(name)) == (s, [], ResponseText("{" + header + "/" + name + ":" + text + "},"))
  {
    hide GetParent, FindPath;
    PathOf(s.root, header, name);
    assert ':' !in name && ',' !in name && name != "" && header != "";
    IndexOfAbsent(name, ':');
    assert Split1(name, ':') == [name];
    SplitFree(name, ',');
    ItemOf(name, "");
    assert [name][..0] == [];
    assert GetElements(s.root, header, [], false) == Done("");
    var one := "{" + header + "/" + name + ":" + At(s.root, p).text + "},";
    assert "" + one == one;
  }

  /** With a path and a value string, the string decides about the section and the path is what is read in it. */
  lemma GetByBoth(lib: Library, xml: string, s: State, header: string, name: string, p: Position, valueString: string)
    requires valueString != "" && GetParent(s.root, NamedBy(name, Some(valueString))) == Done(header)
    requires Holds(s.root, header, name, p) && name != ORCHESTRATOR
    ensures Serve(lib, xml, s, Request(Some("get_element"), Some(name), None, Some(valueString)))
         == (s, [], ResponseText(header + "/" + name + ":" + At(s.root, p).text))
  {
    hide GetParent, FindPath, Split1;
    PathOf(s.root, header, name);
    assert name != "" && header != "";
  }

  /**
   * Setting an element of a section and reading it back: the value if the schema accepted it, and
   * otherwise the text from before.
   */
  lemma SetThenGet(lib: Library, xml: string, s: State, header: string, name: string, v: string, p: Position)
    requires Lawful(lib) && Sound(lib, xml, s)
    requires GetParent(s.root, name) == Done(header) && Holds(s.root, header, name, p) && name != ORCHESTRATOR && ',' !in v
    ensures
      var (s', _, reply) := Serve(lib, xml, s, ItemRequest(SetCommand, name + ":" + v));
      var text := if reply == ResponseOk then v else At(s.root, p).text;
      && (reply == ResponseOk <==> lib.accepts(SetText(s.root, p, v)))
      && Serve(lib, xml, s', GetByPath(name)) == (s', [], ResponseText(header + "/" + name + ":" + text))
      && Serve(lib, xml, s', GetByItem(name)) == (s', [], ResponseText("{" + header + "/" + name + ":" + text + "},"))
  {
    hide GetParent, UpdateText, Sound, Lawful, SetItems, Serve, Decode, Split, GetByPath, GetByItem, Execute;
    var item := name + ":" + v;
    ServeItem(lib, xml, s, SetCommand, item);
    ItemOf(name, v);
    SetItemOf(lib, xml, s, header, name, v, p);
    UpdateTextSound(lib, xml, s, p, v);
    ExecuteSet(lib, xml, s, header, name, v);
    var r := SetItems(lib, xml, s, header, Split(item, ','), false).1;
    assert Execute(lib, xml, s, SetCommand, item).2 == ResponseOk <==> r.Done?;
    assert r.Done? <==> lib.accepts(SetText(s.root, p, v));
    var s' := Serve(lib, xml, s, ItemRequest(SetCommand, item)).0;
    UpdateKeepsSections(lib, xml, s, p, v, name);
    FindUnaffected(s.root, p, v, At(s.root, p).name, [header, name]);
    SetAtElsewhere(s.root, p, v, At(s.root, p).name, p);
    GetAnswered(lib, xml, s', header, name, p);
  }

  lemma ExecuteSet(lib: Library, xml: string, s: State, header: string, name: string, v: string)
    requires GetParent(s.root, name) == Done(header) && PlainName(header) && PlainName(name) && name != ORCHESTRATOR
    ensures
      var (s', r) := SetItems(lib, xml, s, header, Split(name + ":" + v, ','), false);
      var (t, _, reply) := Execute(lib, xml, s, SetCommand, name + ":" + v);
      t == s' && (reply == ResponseOk <==> r.Done? || r.failure == IndexError)
  {
    hide SetItems, GetParent, Decode, Split, Split1;
    ItemOf(name, v);
    var item := name + ":" + v;
    assert Split1(item, ':')[0] == name && item != "";
    assert Apply(lib, xml, s, SetCommand, header, item) == SetItems(lib, xml, s, header, Split(item, ','), false);
  }

  /** An element of a section whose text the printing and splitting of requests leaves intact. */
  ghost predicate Lists(root: Tree, header: string, name: string, p: Position) {
    GetParent(root, name) == Done(header) && Holds(root, header, name, p) && Listable(At(root, p).text)
  }

  /** Nothing else in the tree is different. */
  ghost predicate OthersKept(root: Tree, root': Tree, p: Position) {
    && (forall q :: ValidPosition(root', q) <==> ValidPosition(root, q))
    && (forall q | ValidPosition(root, q) ::
          At(root', q).tag == At(root, q).tag && At(root', q).name == At(root, q).name
          && (q != p ==> At(root', q).text == At(root, q).text))
  }

  lemma SetTextKeeps(t: Tree, p: Position, text: string)
    requires ValidPosition(t, p)
    ensures OthersKept(t, SetText(t, p, text), p) && ValidPosition(SetText(t, p, text), p) && At(SetText(t, p, text), p).text == text
  {
    forall q
      ensures ValidPosition(SetText(t, p, text), q) <==> ValidPosition(t, q)
      ensures ValidPosition(t, q) ==>
        var r := At(SetText(t, p, text), q);
        r.tag == At(t, q).tag && r.name == At(t, q).name && r.text == (if p == q then text else At(t, q).text)
    {
      SetAtElsewhere(t, p, text, At(t, p).name, q);
    }
  }

  /** A list element keeps its place in its section, and its kind of text, when its text is replaced by one of that kind. */
  lemma ListsKept(lib: Library, xml: string, s: State, p: Position, text: string, header: string, name: string, q: Position)
    requires ValidPosition(s.root, p) && Lists(s.root, header, name, q) && Listable(text)
    ensures Lists(SetText(s.root, p, text), header, name, q)
  {
    hide GetParent;
    LastParentUnaffected(s.root, p, text, At(s.root, p).name, |s.root.children|, name);
    SameParent(s.root, p, text, name);
    FindUnaffected(s.root, p, text, At(s.root, p).name, [header, name]);
    SetAtElsewhere(s.root, p, text, At(s.root, p).name, q);
  }

  lemma SameParent(t: Tree, p: Position, text: string, tag: string)
    requires ValidPosition(t, p)
    ensures GetParent(SetText(t, p, text), tag) == GetParent(t, tag)
  {
    LastParentUnaffected(t, p, text, At(t, p).name, |t.children|, tag);
  }

  lemma {:induction false} LastTag(t: Tree, p: Position)
    requires ValidPosition(t, p) && p != []
    ensures |TagsTo(t, p)| == |p| && TagsTo(t, p)[|p| - 1] == At(t, p).tag
    decreases |p|
  {
    if |p| > 1 {
      LastTag(t.children[p[0]], p[1..]);
    }
  }

  /** Different names denote different elements, and one name the same. */
  lemma ListsDiffer(root: Tree, header: string, name: string, p: Position, header': string, name': string, p': Position)
    requires Lists(root, header, name, p) && Lists(root, header', name', p')
    ensures name == name' <==> p == p'
    ensures name == name' ==> header == header'
  {
    hide GetParent;
    FoundTag(root, header, name, p);
    FoundTag(root, header', name', p');
  }

  lemma FoundTag(root: Tree, header: string, name: string, p: Position)
    requires Holds(root, header, name, p)
    ensures At(root, p).tag == name
  {
    hide FirstIn;
    FirstInTags(root.children, [header, name]);
    LastTag(root, p);
    assert TagsTo(root, p) == [root.children[p[0]].tag] + TagsTo(root.children[p[0]], p[1..]);
    assert Matches([header, name][1], TagsTo(root, p)[1]);
    assert name[0] in name;
  }

  /** What the agents are told of one write: that write, exactly when the value has no semicolon. */
  lemma OneAnnounced(header: string, name: string, text: string)
    requires PlainName(header) && PlainName(name)
    ensures Decode(header + "/" + name + ":" + text + ";").0 == [(header + "/" + name, text)] <==> ';' !in text
  {
    hide DecodeParts, Split;
    var path := header + "/" + name;
    var w := (path, text);
    var announced := path + ":" + text + ";";
    assert ':' !in path && ';' !in path;
    SplitPartsFree(announced, ';');
    var parts := Split(announced, ';');
    DecodePartsPlain(parts[..|parts| - 1]);
    if ';' !in text {
      DecodeCons(path, text, "");
      SplitFree("", ';');
      assert announced + "" == announced;
      NothingDecoded();
    } else {
      assert !PlainWrite(w) && w in [w];
    }
  }

  lemma NothingDecoded()
    ensures DecodeParts([]) == ([], true)
  {
  }

  lemma AppendExecuted(lib: Library, xml: string, s: State, header: string, name: string, v: string)
    requires GetParent(s.root, name) == Done(header) && PlainName(header) && PlainName(name)
    ensures
      var (s', r) := Append(lib, xml, s, header, name + ":" + v);
      Execute(lib, xml, s, AppendCommand, name + ":" + v) == (s', if r.Done? then Decode(r.value).0 else [], ReplyTo(r))
  {
    hide Append, GetParent, Decode, Split, Split1;
    ItemOf(name, v);
    var item := name + ":" + v;
    assert Split1(item, ':')[0] == name && item != "";
  }

  lemma RemoveExecuted(lib: Library, xml: string, s: State, header: string, name: string, v: string)
    requires GetParent(s.root, name) == Done(header) && PlainName(header) && PlainName(name)
    ensures
      var (s', r) := Remove(lib, xml, s, header, name + ":" + v);
      Execute(lib, xml, s, RemoveCommand, name + ":" + v) == (s', if r.Done? then Decode(r.value).0 else [], ReplyTo(r))
  {
    hide Remove, GetParent, Decode, Split, Split1;
    ItemOf(name, v);
    var item := name + ":" + v;
    assert Split1(item, ':')[0] == name && item != "";
  }

  /**
   * A request to append to an element of a section. The response is OK exactly when the schema accepts
   * the text with the value on a line of its own; then that text is in the tree and in the file, lists
   * the old entries and the value's, and is what is announced, if it holds no semicolon. Otherwise
   * nothing changes and nothing is announced.
   */
  lemma AppendServed(lib: Library, xml: string, s: State, header: string, name: string, v: string, p: Position)
    requires Lawful(lib) && Sound(lib, xml, s) && Lists(s.root, header, name, p) && ',' !in v
    ensures
      var (s', notices, reply) := Serve(lib, xml, s, ItemRequest(AppendCommand, name + ":" + v));
      var text' := At(s.root, p).text + "\n\t    " + v + "\n\t";
      && (reply == ResponseOk <==> lib.accepts(SetText(s.root, p, text')))
      && Sound(lib, xml, s')
      && (if reply == ResponseOk then
            && s'.root == SetText(s.root, p, text')
            && ValidPosition(s'.root, p) && At(s'.root, p).text == text' && OthersKept(s.root, s'.root, p)
            && Entries(text') == Entries(At(s.root, p).text) + Entries(v)
            && (notices == [(header + "/" + name, text')] <==> ';' !in text')
          else s'.root == s.root && notices == [])
  {
    hide GetParent, Append, Serve, Execute, Sound, Lawful, Entries, Decode, Split, OthersKept;
    var text := At(s.root, p).text;
    ServeItem(lib, xml, s, AppendCommand, name + ":" + v);
    AppendExecuted(lib, xml, s, header, name, v);
    RStripListable(text);
    AppendActs(lib, xml, s, header, name, v, p);
    var text' := AppendedText(text, v);
    assert Execute(lib, xml, s, AppendCommand, name + ":" + v).2 == ResponseOk
      <==> Append(lib, xml, s, header, name + ":" + v).1.Done?;
    SetTextKeeps(s.root, p, text');
    OneAnnounced(header, name, text');
  }

  /**
   * A request to remove a value from such an element. The response is OK exactly when the value is
   * listed (the empty one: is among the trimmed lines) and the schema accepts the rewritten text; then
   * its first occurrence, and nothing else, is missing from the entries. Otherwise nothing changes.
   */
  lemma RemoveServed(lib: Library, xml: string, s: State, header: string, name: string, v: string, p: Position)
    requires Lawful(lib) && Sound(lib, xml, s) && Lists(s.root, header, name, p) && ',' !in v
    ensures
      var (s', notices, reply) := Serve(lib, xml, s, ItemRequest(RemoveCommand, name + ":" + v));
      var before, text' := Entries(At(s.root, p).text), RemovedText(At(s.root, p).text, v);
      && (reply == ResponseOk <==>
            && (if v == "" then v in TrimmedLines(At(s.root, p).text) else v in before)
            && lib.accepts(SetText(s.root, p, text')))
      && Sound(lib, xml, s')
      && (if reply == ResponseOk then
            && s'.root == SetText(s.root, p, text')
            && ValidPosition(s'.root, p) && At(s'.root, p).text == text' && OthersKept(s.root, s'.root, p)
            && (v in before ==> exists i :: 0 <= i < |before| && before[i] == v && v !in before[..i]
                                            && Entries(text') == before[..i] + before[i + 1..])
            && (v !in before ==> Entries(text') == before)
            && (notices == [(header + "/" + name, text')] <==> ';' !in text')
          else s'.root == s.root && notices == [])
  {
    hide GetParent, Remove, Serve, Execute, Sound, Lawful, Entries, Decode, Split, OthersKept, RemovedText, RemoveFirst, TrimmedLines;
    var text := At(s.root, p).text;
    ServeItem(lib, xml, s, RemoveCommand, name + ":" + v);
    RemoveExecuted(lib, xml, s, header, name, v);
    RStripListable(text);
    RemoveActs(lib, xml, s, header, name, v, p);
    var i := RemoveFirstIs(Entries(text), v);
    var text' := RemovedText(text, v);
    assert Execute(lib, xml, s, RemoveCommand, name + ":" + v).2 == ResponseOk
      <==> Remove(lib, xml, s, header, name + ":" + v).1.Done?;
    SetTextKeeps(s.root, p, text');
    OneAnnounced(header, name, text');
  }

  /** The element and the value of one part of a value string. */
  function ItemName(item: string): string {
    Split1(item, ':')[0]
  }

  function ItemValue(item: string): string {
    var pair := Split1(item, ':');
    if |pair| < 2 then "" else pair[1]
  }

  /** The value that the last part for a name carries, if there is one. */
  function LastValue(items: seq<string>, name: string, text: string): string {
    if items == [] then text
    else if ItemName(items[|items| - 1]) == name then ItemValue(items[|items| - 1])
    else LastValue(items[..|items| - 1], name, text)
  }

  /** Setting one element, when it is carried out, changes that element. */
  lemma SetOneWrites(lib: Library, xml: string, s: State, header: string, item: string, name: string, p: Position)
    requires Lawful(lib) && Sound(lib, xml, s) && SetOne(lib, xml, s, header, item, false).1.Done?
    requires PlainName(ItemName(item)) && Holds(s.root, header, name, p)
    ensures
      var s' := SetOne(lib, xml, s, header, item, false).0;
      && Sound(lib, xml, s') && Holds(s'.root, header, name, p) && ValidPosition(s'.root, p)
      && At(s'.root, p).text == if ItemName(item) == name then ItemValue(item) else At(s.root, p).text
  {
    hide Sound, Lawful, UpdateText, Split1, FirstIn;
    var name0, v := ItemName(item), ItemValue(item);
    PathOf(s.root, header, name0);
    var q := FindPath(s.root, header + "/" + name0).value;
    UpdateTextSound(lib, xml, s, q, v);
    FindUnaffected(s.root, q, v, At(s.root, q).name, [header, name]);
    SetAtElsewhere(s.root, q, v, At(s.root, q).name, p);
    FoundTag(s.root, header, name, p);
    FoundTag(s.root, header, name0, q);
    assert SetOne(lib, xml, s, header, item, false).0 == UpdateText(lib, xml, s, q, v).0;
    assert name0 == name <==> q == p;
  }

  /** A set that is carried out gives every element of the section the last value named for it, and no other. */
  lemma {:induction false} SetItemsWrite(lib: Library, xml: string, s: State, header: string, items: seq<string>, name: string, p: Position)
    requires Lawful(lib) && Sound(lib, xml, s) && SetItems(lib, xml, s, header, items, false).1.Done?
    requires (forall item <- items :: PlainName(ItemName(item))) && Holds(s.root, header, name, p)
    ensures
      var s' := SetItems(lib, xml, s, header, items, false).0;
      && Sound(lib, xml, s') && Holds(s'.root, header, name, p) && ValidPosition(s'.root, p)
      && At(s'.root, p).text == LastValue(items, name, At(s.root, p).text)
  {
    hide Sound, Lawful, SetOne, ItemName, ItemValue, FirstIn, PlainName;
    if items != [] {
      var n := |items| - 1;
      SetItemsWrite(lib, xml, s, header, items[..n], name, p);
      assert items[n] in items;
      SetOneWrites(lib, xml, SetItems(lib, xml, s, header, items[..n], false).0, header, items[n], name, p);
    }
  }

  /**
   * A set request for texts that is carried out: every element of its section has the last value that
   * a part names for it, and all others have the text from before.
   */
  lemma SetServed(lib: Library, xml: string, s: State, item: string, name: string, p: Position)
    requires Lawful(lib) && Sound(lib, xml, s) && SetsTexts(s, item) && WellFormed(item)
    requires forall part <- Split(item, ',') :: PlainName(ItemName(part))
    requires Holds(s.root, GetParent(s.root, ItemName(item)).value, name, p)
    ensures
      var (s', _, reply) := Serve(lib, xml, s, ItemRequest(SetCommand, item));
      reply == ResponseOk ==>
        && Sound(lib, xml, s') && ValidPosition(s'.root, p)
        && At(s'.root, p).text == LastValue(Split(item, ','), name, At(s.root, p).text)
  {
    hide Sound, Lawful, SetItems, GetParent, Split, PlainName, Decode, LastValue, Serve;
    ServeItem(lib, xml, s, SetCommand, item);
    var header := GetParent(s.root, ItemName(item)).value;
    IndexErrorExactly(lib, xml, s, header, Split(item, ','), false);
    NoneStops(lib, xml, s, header, Split(item, ','));
    if SetItems(lib, xml, s, header, Split(item, ','), false).1.Done? {
      SetItemsWrite(lib, xml, s, header, Split(item, ','), name, p);
    }
  }

  lemma NoneStops(lib: Library, xml: string, s: State, header: string, items: seq<string>)
    requires forall part <- items :: ':' in part
    ensures !StopsWithoutValue(lib, xml, s, header, items, false)
  {
    hide SetItems;
  }

  /**
   * Setting the orchestrator sets its attribute instead of its text. The response is OK exactly when the
   * schema accepts it; a rejected value stays in the attribute, and the old one is put into the text.
   */
  lemma SetOrchestrator(lib: Library, xml: string, s: State, header: string, v: string, p: Position)
    requires Lawful(lib) && Sound(lib, xml, s) && ',' !in v && PlainName(header)
    requires GetParent(s.root, "orchestrator") == Done(header) && FindPath(s.root, "orchestrator") == Some(p)
    ensures
      var (s', notices, reply) := Serve(lib, xml, s, ItemRequest(SetCommand, "orchestrator:" + v));
      && (reply == ResponseOk <==> lib.accepts(SetName(s.root, p, v)))
      && (if reply == ResponseOk then
            s'.root == SetName(s.root, p, v) && Sound(lib, xml, s')
            && (notices == [(header + "/orchestrator", v)] <==> ';' !in v)
          else s'.root == SetAt(s.root, p, NameText(At(s.root, p).name), Some(v)) && notices == [])
  {
    hide Sound, Lawful, GetParent, FindPath, Decode, UpdateName, Serve, Split, Split1, SetName, PlainName, SetItems, StripChars;
    var item := "orchestrator" + ":" + v;
    assert item == "orchestrator:" + v;
    ServeItem(lib, xml, s, SetCommand, item);
    OrchestratorPlain();
    ItemOf("orchestrator", v);
    assert Split1(item, ':')[0] == "orchestrator" && item != "";
    AttributeItem(lib, xml, s, header, v, p);
    if lib.accepts(SetName(s.root, p, v)) {
      UpdateNameAccepted(lib, xml, s, p, v);
    } else {
      UpdateNameRejected(lib, xml, s, p, v);
    }
    OneAnnounced(header, "orchestrator", v);
    assert header + "/" + "orchestrator" == header + "/orchestrator";
  }

  lemma OrchestratorPlain()
    ensures PlainName("orchestrator") && !PlainName("")
  {
  }

  lemma AttributeItem(lib: Library, xml: string, s: State, header: string, v: string, p: Position)
    requires FindPath(s.root, "orchestrator") == Some(p)
    requires Split("orchestrator" + ":" + v, ',') == ["orchestrator" + ":" + v]
    requires Split1("orchestrator" + ":" + v, ':') == ["orchestrator", v]
    ensures
      var (s', r) := SetItems(lib, xml, s, header, Split("orchestrator" + ":" + v, ','), true);
      var (t, q) := UpdateName(lib, xml, s, p, v);
      s' == t && r == if q.Raised? then Raised(q.failure) else Done(header + "/" + "orchestrator" + ":" + v + ";")
  {
    hide FindPath, UpdateName, Split, Split1;
    var item := "orchestrator" + ":" + v;
    assert [item][..0] == [];
    assert SetItems(lib, xml, s, header, [], true) == (s, Done(""));
    var notice := header + "/" + "orchestrator" + ":" + v + ";";
    assert "" + notice == notice;
  }

  /** Reading the orchestrator reads its attribute. */
  lemma GetOrchestrator(lib: Library, xml: string, s: State, header: string, p: Position)
    requires PlainName(header)
    requires GetParent(s.root, "orchestrator") == Done(header) && FindPath(s.root, "orchestrator") == Some(p)
    ensures
      var name := At(s.root, p).name;
      Serve(lib, xml, s, GetByPath("orchestrator"))
      == (s, [], ResponseText(header + "/orchestrator:" + if name.Some? then name.value else "None"))
  {
    hide GetParent, FindPath, GetAttributeValue, Split1, Read, CommandNamed;
    var value := if At(s.root, p).name.Some? then At(s.root, p).name.value else "None";
    HeaderAlone("orchestrator");
    ReadAttribute(s.root, header, p);
    AttributeText(header, value);
  }

  lemma ReadAttribute(root: Tree, header: string, p: Position)
    requires PlainName(header) && FindPath(root, "orchestrator") == Some(p)
    ensures Read(root, header, GetByPath("orchestrator"))
         == Done(header + "/" + "orchestrator" + ":" + if At(root, p).name.Some? then At(root, p).name.value else "None")
  {
    hide FindPath, GetAttributeValue;
    AttributeOf(root, header, p);
  }

  lemma AttributeText(header: string, value: string)
    ensures header + "/" + "orchestrator" + ":" + value == header + "/orchestrator:" + value
  {
  }

  lemma AttributeOf(root: Tree, header: string, p: Position)
    requires PlainName(header) && FindPath(root, "orchestrator") == Some(p)
    ensures GetAttributeValue(root, header + "/" + "orchestrator") == Done(if At(root, p).name.Some? then At(root, p).name.value else "None")
  {
    hide FindPath, Split;
    assert '/' !in header && header + "/" + "orchestrator" == header + ['/'] + "orchestrator";
    SplitCons(header, '/', "orchestrator");
    SplitFree("orchestrator", '/');
    assert [header] + ["orchestrator"] == [header, "orchestrator"];
  }

  /**
   * An append by path and value takes the path for the section and the value for the item. What it does
   * to the element is the same, but the request itself is what is announced.
   */
  lemma AppendByPath(lib: Library, xml: string, s: State, header: string, name: string, v: string, p: Position)
    requires Lawful(lib) && Sound(lib, xml, s) && Holds(s.root, header, name, p) && Listable(At(s.root, p).text) && ',' !in v
    requires GetParent(s.root, header).Done?
    ensures
      var q := Request(Some("append"), Some(header), Some(name + ":" + v), None);
      var (s', notices, reply) := Serve(lib, xml, s, q);
      var text' := At(s.root, p).text + "\n\t    " + v + "\n\t";
      && (reply == ResponseOk <==> lib.accepts(SetText(s.root, p, text')))
      && Sound(lib, xml, s')
      && (if reply == ResponseOk then s'.root == SetText(s.root, p, text') && notices == [(header, name + ":" + v)]
          else s'.root == s.root && notices == [])
  {
    hide GetParent, Append, Sound, Lawful, Entries, Split1;
    assert ':' !in header;
    IndexOfAbsent(header, ':');
    HeaderAlone(header);
    RStripListable(At(s.root, p).text);
    AppendActs(lib, xml, s, header, name, v, p);
    var q := Request(Some("append"), Some(header), Some(name + ":" + v), None);
    assert Given(q.path) && Given(q.value);
    assert CommandNamed("append") == Some(AppendCommand);
    var r := Append(lib, xml, s, header, name + ":" + v);
    assert Serve(lib, xml, s, q) == (r.0, if r.1.Done? then [(header, name + ":" + v)] else [], ReplyTo(r.1));
    assert ReplyTo(r.1) == ResponseOk <==> r.1.Done?;
  }

  lemma HeaderAlone(header: string)
    requires ':' !in header
    ensures Split1(header, ':') == [header]
  {
    IndexOfAbsent(header, ':');
  }

  predicate DistinctKeys(values: seq<(string, string)>) {
    forall i, j | 0 <= i < j < |values| :: values[i].0 != values[j].0
  }

  /** A dictionary with a value put in. */
  lemma {:induction false} PutHolds(values: seq<(string, string)>, tag: string, text: string)
    requires DistinctKeys(values)
    ensures DistinctKeys(Put(values, tag, text))
    ensures forall w :: w in Put(values, tag, text) <==> w == (tag, text) || (w in values && w.0 != tag)
  {
    if values != [] {
      var first, rest := values[0], values[1..];
      assert values == [first] + rest;
      assert forall w <- rest :: w.0 != first.0;
      if first.0 != tag {
        PutHolds(rest, tag, text);
        var r := Put(rest, tag, text);
        forall j | 0 <= j < |r|
          ensures r[j].0 != first.0
        {
          assert r[j] in r;
        }
      }
    }
  }

  /** The last child with its tag. */
  predicate IsLastChild(children: seq<Tree>, k: nat) {
    k < |children| && forall j | k < j < |children| :: children[j].tag != children[k].tag
  }

  /** The dictionary of children holds, for each tag, the text of the last child with it. */
  lemma {:induction false} ChildValuesHold(children: seq<Tree>)
    ensures DistinctKeys(ChildValues(children))
    ensures forall w :: w in ChildValues(children) <==>
      exists k: nat | k < |children| :: IsLastChild(children, k) && w == (children[k].tag, children[k].text)
  {
    if children != [] {
      var n := |children| - 1;
      var before := children[..n];
      ChildValuesHold(before);
      PutHolds(ChildValues(before), children[n].tag, children[n].text);
      assert IsLastChild(children, n);
      assert forall k: nat | k < n :: before[k] == children[k];
      assert forall k: nat | k < n :: IsLastChild(children, k) <==> IsLastChild(before, k) && children[k].tag != children[n].tag;
    }
  }

  /** A notification that says what the last child with its tag holds, in the section of an agent. */
  ghost predicate Says(root: Tree, agent: string, w: (string, string)) {
    FindPath(root, agent).Some?
    && var children := At(root, FindPath(root, agent).value).children;
       exists k: nat | k < |children| :: IsLastChild(children, k) && w == (agent + "/" + children[k].tag, children[k].text)
  }

  lemma AgentValuesSay(root: Tree, agent: string)
    ensures forall w :: w in AgentValues(root, agent) <==> Says(root, agent, w)
  {
    hide FindPath, ChildValues, IsLastChild;
    if FindPath(root, agent).Some? {
      var children := At(root, FindPath(root, agent).value).children;
      var values := ChildValues(children);
      ChildValuesHold(children);
      forall w
        ensures w in AgentValues(root, agent) <==> Says(root, agent, w)
      {
        UnderHolds(agent, values, w);
        if w in Under(agent, values) {
          var v :| v in values && w == (agent + "/" + v.0, v.1);
        }
        if Says(root, agent, w) {
          var k: nat :| k < |children| && IsLastChild(children, k) && w == (agent + "/" + children[k].tag, children[k].text);
          assert (children[k].tag, children[k].text) in values;
        }
      }
    }
  }

  lemma UnderHolds(agent: string, values: seq<(string, string)>, w: (string, string))
    ensures w in Under(agent, values) <==> exists v <- values :: w == (agent + "/" + v.0, v.1)
  {
    var under := Under(agent, values);
    if w in under {
      var i :| 0 <= i < |under| && under[i] == w;
      assert values[i] in values;
    }
    if exists v <- values :: w == (agent + "/" + v.0, v.1) {
      var v :| v in values && w == (agent + "/" + v.0, v.1);
      var i :| 0 <= i < |values| && values[i] == v;
      assert under[i] == w;
    }
  }

  /** The sections before the first that is missing. */
  function Present(root: Tree, agents: seq<string>): (n: nat)
    ensures n <= |agents|
  {
    if agents == [] || FindPath(root, agents[0]).None? then 0 else 1 + Present(root, agents[1..])
  }

  lemma {:induction false} PresentFirst(root: Tree, agents: seq<string>)
    ensures
      var n := Present(root, agents);
      && (n < |agents| ==> FindPath(root, agents[n]).None?)
      && forall agent <- agents[..n] :: FindPath(root, agent).Some?
  {
    hide FindPath;
    if agents != [] && FindPath(root, agents[0]).Some? {
      PresentFirst(root, agents[1..]);
      assert agents[..Present(root, agents)] == [agents[0]] + agents[1..][..Present(root, agents[1..])];
    }
  }

  /** What is announced are the last values of the sections before the first that is missing. */
  lemma {:induction false} InitialValuesSay(root: Tree, agents: seq<string>)
    ensures InitialValues(root, agents).1 <==> Present(root, agents) == |agents|
    ensures forall w :: w in InitialValues(root, agents).0 <==> exists i | 0 <= i < Present(root, agents) :: Says(root, agents[i], w)
  {
    hide FindPath, Says, AgentValues;
    if agents != [] && FindPath(root, agents[0]).Some? {
      var rest := agents[1..];
      InitialValuesSay(root, rest);
      AgentValuesSay(root, agents[0]);
      forall w
        ensures w in InitialValues(root, agents).0 <==> exists i | 0 <= i < Present(root, agents) :: Says(root, agents[i], w)
      {
        if w in InitialValues(root, rest).0 {
          var i :| 0 <= i < Present(root, rest) && Says(root, rest[i], w);
          assert agents[i + 1] == rest[i];
        }
        if i :| 0 <= i < Present(root, agents) && Says(root, agents[i], w) {
          assert i > 0 ==> rest[i - 1] == agents[i];
        }
      }
    }
  }

  /**
   * A load request with a path. The response is OK exactly when the new file is valid and has all the
   * agents' sections; a valid file without one of them is taken over all the same. The notifications
   * are exactly the last values of the new tree's sections before the first that is missing.
   */
  lemma LoadAnswered(lib: Library, xml: string, s: State, newFile: string)
    requires Sound(lib, xml, s)
    ensures
      var loaded := Validate(lib, s.files, newFile);
      var (s', notices, reply) := Serve(lib, xml, s, Request(Some("load"), Some(newFile), None, None));
      && reply in {ResponseOk, ResponseFailed}
      && (reply == ResponseOk <==> loaded.Some? && forall agent <- AGENTS :: FindPath(loaded.value, agent).Some?)
      && (if loaded.Some? then s'.root == loaded.value && s' == Load(lib, xml, s, newFile).0 else s' == s)
      && (forall w :: w in notices <==> loaded.Some? && exists i | 0 <= i < Present(loaded.value, AGENTS) :: Says(loaded.value, AGENTS[i], w))
  {
    hide InitialValues, Present, Says, FindPath;
    var loaded := Validate(lib, s.files, newFile);
    LoadSound(lib, xml, s, newFile);
    if loaded.Some? {
      var agents := AGENTS;
      InitialValuesSay(loaded.value, agents);
      PresentFirst(loaded.value, agents);
      assert agents[..|agents|] == agents;
      assert Present(loaded.value, agents) < |agents| ==> agents[Present(loaded.value, agents)] in agents;
    }
  }
}
