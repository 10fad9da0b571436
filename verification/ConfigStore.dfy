/** The key/value store: an element tree and the file it is kept in. */
module ConfigStore {
  import opened ConfigText
  import opened ConfigTree
  import opened Options
  import opened PyStrings

  datatype Failure = XmlException | ConfigurationException | IndexError | KeyError

  datatype Outcome<+T> = Done(value: T) | Raised(failure: Failure) {
    predicate IsFailure() { Raised? }

    function PropagateFailure<U>(): Outcome<U>
      requires Raised?
    {
      Raised(failure)
    }

    function Extract(): T
      requires Done?
    {
      value
    }
  }

  /** The XML libraries: writing a tree as text, reading it back, and checking it against the schema. */
  datatype Library = Library(serialize: Tree -> string, parse: string -> Option<Tree>, accepts: Tree -> bool)

  /** A written tree reads back as itself. */
  predicate ReadsBack(lib: Library, t: Tree) {
    lib.parse(lib.serialize(t)) == Some(t)
  }

  /** The schema accepts the tree, or what is read back for it. */
  predicate Acceptable(lib: Library, t: Tree) {
    lib.accepts(t) || var r := lib.parse(lib.serialize(t)); r.Some? && lib.accepts(r.value)
  }

  /** What is asked of the libraries: the trees that can pass the validation read back as themselves. */
  ghost predicate Lawful(lib: Library) {
    forall t | Acceptable(lib, t) :: ReadsBack(lib, t)
  }

  /** The tree in memory and the files on disk. */
  datatype State = State(root: Tree, files: map<string, string>)

  /** The tree a file holds, if the file exists, can be read and conforms to the schema. */
  function Validate(lib: Library, files: map<string, string>, file: string): Option<Tree> {
    if file !in files then None
    else
      match lib.parse(files[file])
      case None => None
      case Some(t) => if lib.accepts(t) then Some(t) else None
  }

  /** The file holds the tree in memory, and it is valid. */
  predicate Sound(lib: Library, xml: string, s: State) {
    Validate(lib, s.files, xml) == Some(s.root)
  }

  function Written(lib: Library, xml: string, root: Tree, files: map<string, string>): State {
    State(root, files[xml := lib.serialize(root)])
  }

  /** Overwrites a text, writes the file and validates it; on failure the old text is put back. */
  function UpdateText(lib: Library, xml: string, s: State, p: Position, value: string): (State, Outcome<()>)
    requires ValidPosition(s.root, p)
  {
    var s1 := Written(lib, xml, SetText(s.root, p, value), s.files);
    if Validate(lib, s1.files, xml).Some? then (s1, Done(()))
    else
      SetAtElsewhere(s.root, p, value, At(s.root, p).name, p);
      (Written(lib, xml, SetText(s1.root, p, At(s.root, p).text), s1.files), Raised(ConfigurationException))
  }

  function NameText(name: Option<string>): string {
    match name
    case None => ""
    case Some(n) => n
  }

  /** The same for the attribute, except that on failure the old attribute value is put into the text. */
  function UpdateName(lib: Library, xml: string, s: State, p: Position, value: string): (State, Outcome<()>)
    requires ValidPosition(s.root, p)
  {
    var s1 := Written(lib, xml, SetName(s.root, p, value), s.files);
    if Validate(lib, s1.files, xml).Some? then (s1, Done(()))
    else
      SetAtElsewhere(s.root, p, At(s.root, p).text, Some(value), p);
      (Written(lib, xml, SetText(s1.root, p, NameText(At(s.root, p).name)), s1.files), Raised(ConfigurationException))
  }

  lemma WrittenChecked(lib: Library, xml: string, root: Tree, files: map<string, string>)
    requires Lawful(lib)
    ensures Validate(lib, Written(lib, xml, root, files).files, xml) == if lib.accepts(root) then Some(root) else None
  {
    assert Acceptable(lib, root) ==> ReadsBack(lib, root);
  }

  /**
   * Without that law: a text update keeps the store sound exactly when the new tree is rejected or
   * reads back as itself. A text with a carriage return, which XML turns into a line feed, does not.
   */
  lemma UpdateTextReadsBack(lib: Library, xml: string, s: State, p: Position, value: string)
    requires Sound(lib, xml, s) && ReadsBack(lib, s.root) && ValidPosition(s.root, p)
    ensures
      var (s', r) := UpdateText(lib, xml, s, p, value);
      Sound(lib, xml, s') <==> (r.Done? ==> ReadsBack(lib, SetText(s.root, p, value)))
  {
    SetAtElsewhere(s.root, p, value, At(s.root, p).name, p);
    SetAtTwice(s.root, p, value, At(s.root, p).name);
  }

  /** A text update keeps the store sound; it is accepted or leaves the tree as it was. */
  lemma UpdateTextSound(lib: Library, xml: string, s: State, p: Position, value: string)
    requires Lawful(lib) && Sound(lib, xml, s) && ValidPosition(s.root, p)
    ensures
      var (s', r) := UpdateText(lib, xml, s, p, value);
      && Sound(lib, xml, s')
      && s'.files.Keys == s.files.Keys && s'.files - {xml} == s.files - {xml}
      && (r.Done? <==> lib.accepts(SetText(s.root, p, value)))
      && s'.root == (if r.Done? then SetText(s.root, p, value) else s.root)
      && s'.files[xml] == lib.serialize(s'.root)
  {
    SetAtElsewhere(s.root, p, value, At(s.root, p).name, p);
    SetAtTwice(s.root, p, value, At(s.root, p).name);
    WrittenChecked(lib, xml, s.root, s.files);
    WrittenChecked(lib, xml, SetText(s.root, p, value), s.files);
  }

  /**
   * A rejected attribute update is never undone: the new value stays, the old one is in the text.
   * The file is written from that tree, but the store stays sound exactly when the schema accepts that tree.
   */
  lemma UpdateNameRejected(lib: Library, xml: string, s: State, p: Position, value: string)
    requires Lawful(lib) && Sound(lib, xml, s) && ValidPosition(s.root, p)
    requires !lib.accepts(SetName(s.root, p, value))
    ensures
      var (s', r) := UpdateName(lib, xml, s, p, value);
      && r == Raised(ConfigurationException)
      && s'.root == SetAt(s.root, p, NameText(At(s.root, p).name), Some(value))
      && s'.root != s.root
      && s'.files[xml] == lib.serialize(s'.root)
      && (Sound(lib, xml, s') <==> lib.accepts(s'.root))
  {
    var e := At(s.root, p);
    WrittenChecked(lib, xml, SetName(s.root, p, value), s.files);
    WrittenChecked(lib, xml, SetAt(s.root, p, NameText(e.name), Some(value)), s.files);
    SetAtElsewhere(s.root, p, e.text, Some(value), p);
    SetAtOver(s.root, p, e.text, Some(value), NameText(e.name), Some(value));
    SetAtElsewhere(s.root, p, NameText(e.name), Some(value), p);
    if e.name == Some(value) {
      SetAtSame(s.root, p);
    }
  }

  lemma {:induction false} SetAtOver(t: Tree, p: Position, text: string, name: Option<string>,
                                     text': string, name': Option<string>)
    requires ValidPosition(t, p)
    ensures ValidPosition(SetAt(t, p, text, name), p)
    ensures SetAt(SetAt(t, p, text, name), p, text', name') == SetAt(t, p, text', name')
    decreases |p|
  {
    if p != [] {
      SetAtOver(t.children[p[0]], p[1..], text, name, text', name');
      var c := SetAt(t.children[p[0]], p[1..], text, name);
      var c' := SetAt(t.children[p[0]], p[1..], text', name');
      assert t.children[p[0] := c][p[0] := c'] == t.children[p[0] := c'];
    }
  }

  lemma {:induction false} SetAtSame(t: Tree, p: Position)
    requires ValidPosition(t, p)
    ensures SetAt(t, p, At(t, p).text, At(t, p).name) == t
    decreases |p|
  {
    if p != [] {
      SetAtSame(t.children[p[0]], p[1..]);
      assert t.children[p[0] := t.children[p[0]]] == t.children;
    }
  }

  /** An accepted attribute update, like a text update, changes that one value. */
  lemma UpdateNameAccepted(lib: Library, xml: string, s: State, p: Position, value: string)
    requires Lawful(lib) && Sound(lib, xml, s) && ValidPosition(s.root, p)
    requires lib.accepts(SetName(s.root, p, value))
    ensures
      var (s', r) := UpdateName(lib, xml, s, p, value);
      r.Done? && Sound(lib, xml, s') && s'.root == SetName(s.root, p, value)
  {
    WrittenChecked(lib, xml, SetName(s.root, p, value), s.files);
  }

  /** The steps of an expression; a slash at the end stands for any child. */
  function Steps(xpath: string): (steps: seq<string>)
    ensures steps != []
  {
    var tags := Split(xpath, '/');
    if |tags| > 1 && tags[|tags| - 1] == "" then tags[..|tags| - 1] + ["*"] else tags
  }

  /** `findall` on an expression of steps separated by slashes. */
  function FindPath(t: Tree, xpath: string): (r: Option<Position>)
    ensures r.Some? ==> ValidPosition(t, r.value)
  {
    ConfigTree.Find(t, Steps(xpath))
  }

  function SetElementValue(lib: Library, xml: string, s: State, xpath: string, value: string): (State, Outcome<()>) {
    match FindPath(s.root, xpath)
    case None => (s, Raised(XmlException))
    case Some(p) => UpdateText(lib, xml, s, p, value)
  }

  function SetElementAttribute(lib: Library, xml: string, s: State, tag: string, value: string): (State, Outcome<()>) {
    match FindPath(s.root, tag)
    case None => (s, Raised(XmlException))
    case Some(p) => UpdateName(lib, xml, s, p, value)
  }

  /** One `element:value` item of a value string, and the notification it contributes. */
  function SetOne(lib: Library, xml: string, s: State, xpath: string, item: string, isAttribute: bool): (State, Outcome<string>) {
    var pair := Split1(item, ':');
    if |pair| < 2 then (s, Raised(IndexError))
    else
      var (s1, r) := if isAttribute then SetElementAttribute(lib, xml, s, pair[0], pair[1])
                     else SetElementValue(lib, xml, s, xpath + "/" + pair[0], pair[1]);
      if r.Raised? then (s1, Raised(r.failure))
      else (s1, Done(xpath + "/" + pair[0] + ":" + pair[1] + ";"))
  }

  /** The items one after the other, up to the first that fails. */
  function SetItems(lib: Library, xml: string, s: State, xpath: string, items: seq<string>, isAttribute: bool): (State, Outcome<string>) {
    if items == [] then (s, Done(""))
    else
      var (s1, r1) := SetItems(lib, xml, s, xpath, items[..|items| - 1], isAttribute);
      if r1.Raised? then (s1, r1)
      else
        var (s2, r2) := SetOne(lib, xml, s1, xpath, items[|items| - 1], isAttribute);
        (s2, if r2.Raised? then r2 else Done(r1.value + r2.value))
  }

  lemma SetOneSound(lib: Library, xml: string, s: State, xpath: string, item: string)
    requires Lawful(lib) && Sound(lib, xml, s)
    ensures
      var (s', r) := SetOne(lib, xml, s, xpath, item, false);
      Sound(lib, xml, s') && (r.Raised? ==> s'.root == s.root) && s'.files - {xml} == s.files - {xml}
  {
    var pair := Split1(item, ':');
    if |pair| == 2 {
      var p := FindPath(s.root, xpath + "/" + pair[0]);
      if p.Some? {
        UpdateTextSound(lib, xml, s, p.value, pair[1]);
      }
    }
  }

  /**
   * Setting several elements keeps the store sound, and one that fails leaves the tree with exactly
   * the items before it applied.
   */
  lemma {:induction false} SetItemsSound(lib: Library, xml: string, s: State, xpath: string, items: seq<string>) returns (k: nat)
    requires Lawful(lib) && Sound(lib, xml, s)
    ensures
      var (s', r) := SetItems(lib, xml, s, xpath, items, false);
      && Sound(lib, xml, s') && s'.files - {xml} == s.files - {xml}
      && (r.Done? ==> k == |items|)
      && (r.Raised? ==>
            k < |items| &&
            var (t, q) := SetItems(lib, xml, s, xpath, items[..k], false);
            && q.Done? && s'.root == t.root
            && SetOne(lib, xml, t, xpath, items[k], false).1 == r)
  {
    hide SetOne, Sound, Lawful;
    if items == [] {
      k := 0;
    } else {
      var n := |items| - 1;
      k := SetItemsSound(lib, xml, s, xpath, items[..n]);
      var (s1, r1) := SetItems(lib, xml, s, xpath, items[..n], false);
      if r1.Raised? {
        assert items[..n][..k] == items[..k];
      } else {
        SetOneSound(lib, xml, s1, xpath, items[n]);
        var (s2, r2) := SetOne(lib, xml, s1, xpath, items[n], false);
        k := if r2.Raised? then n else n + 1;
      }
    }
  }

  function GetValue(root: Tree, path: string): Outcome<string> {
    match FindPath(root, path)
    case None => Raised(XmlException)
    case Some(p) => Done(At(root, p).text)
  }

  function GetAttributeValue(root: Tree, path: string): Outcome<string> {
    var tags := Split(path, '/');
    match FindPath(root, tags[|tags| - 1])
    case None => Raised(IndexError)
    case Some(p) => Done(match At(root, p).name case None => "None" case Some(n) => n)
  }

  predicate IsQuote(c: char) { c == '\'' }
  predicate IsOpen(c: char) { c == '{' }
  predicate IsClose(c: char) { c == '}' }
  predicate IsCloseOrComma(c: char) { c == '}' || c == ',' }

  /** The printed form of one requested element. */
  function GetOne(root: Tree, path: string, element: string, isAttribute: bool): Outcome<string> {
    var name := StripChars(Split1(element, ':')[0], IsQuote);
    var value :- if isAttribute then GetAttributeValue(root, path + "/" + name) else GetValue(root, path + "/" + name);
    Done("{" + path + "/" + name + ":" + value + "},")
  }

  function GetElements(root: Tree, path: string, elements: seq<string>, isAttribute: bool): Outcome<string> {
    if elements == [] then Done("")
    else
      var before :- GetElements(root, path, elements[..|elements| - 1], isAttribute);
      var last :- GetOne(root, path, elements[|elements| - 1], isAttribute);
      Done(before + last)
  }

  /** The printed elements up to the first colon, and without the punctuation around them. */
  function HeaderPath(printed: string): string {
    Split1(StripChars(StripChars(printed, IsOpen), IsClose), ':')[0]
  }

  function Body(printed: string): string {
    StripChars(StripChars(printed, IsOpen), IsCloseOrComma)
  }

  /** The header and the value string that `append` passes on, cut out of the printed element. */
  function AppendRequest(root: Tree, path: string, valueString: string): Outcome<(string, string)> {
    var printed :- GetElements(root, path, Split(valueString, ','), false);
    var header := Split1(HeaderPath(printed), '/')[0];
    var body := Split1(Body(printed), '/');
    var value := Split1(valueString, ':');
    if |body| < 2 || |value| < 2 then Raised(IndexError)
    else Done((header, body[1] + SEPARATOR + value[1] + TERMINATOR))
  }

  /** The same for `remove`, which fails when the value is not listed. */
  function RemoveRequest(root: Tree, path: string, valueString: string): Outcome<(string, string)> {
    var printed :- GetElements(root, path, Split(valueString, ','), false);
    var names := Split1(HeaderPath(printed), '/');
    var values := Split1(Body(printed), ':');
    var value := Split1(valueString, ':');
    if |names| < 2 || |values| < 2 || |value| < 2 then Raised(IndexError)
    else if values[1] == "" then Raised(ConfigurationException)
    else
      var lines := TrimmedLines(values[1]);
      if value[1] !in lines then Raised(ConfigurationException)
      else Done((names[0], names[1] + ":" + (SEPARATOR + Join(RemoveFirst(lines, value[1])) + TERMINATOR)))
  }

  /** Carries out a request that `append` or `remove` has cut out. */
  function SetRequested(lib: Library, xml: string, s: State, request: Outcome<(string, string)>): (State, Outcome<string>) {
    match request
    case Raised(failure) => (s, Raised(failure))
    case Done((header, valueString)) => SetItems(lib, xml, s, header, Split(valueString, ','), false)
  }

  function Append(lib: Library, xml: string, s: State, path: string, valueString: string): (State, Outcome<string>) {
    SetRequested(lib, xml, s, AppendRequest(s.root, path, valueString))
  }

  function Remove(lib: Library, xml: string, s: State, path: string, valueString: string): (State, Outcome<string>) {
    SetRequested(lib, xml, s, RemoveRequest(s.root, path, valueString))
  }

  /** A new file takes the place of the old one, which is kept as the backup. */
  function Load(lib: Library, xml: string, s: State, newFile: string): (State, Outcome<()>) {
    match Validate(lib, s.files, newFile)
    case None => (s, Raised(XmlException))
    case Some(root) =>
      if xml !in s.files then (State(root, s.files), Raised(XmlException))
      else
        var files := s.files[xml + "_bak" := s.files[xml]];
        (State(root, files[xml := files[newFile]]), Done(()))
  }

  /**
   * Loading keeps the store sound, keeps the previous file in the backup, and changes nothing when
   * the new file is not valid. A new file that is the backup itself is overwritten before it is read.
   */
  lemma LoadSound(lib: Library, xml: string, s: State, newFile: string)
    requires Sound(lib, xml, s)
    ensures
      var (s', r) := Load(lib, xml, s, newFile);
      && (r.Done? <==> Validate(lib, s.files, newFile).Some?)
      && (r.Raised? ==> s' == s)
      && (r.Done? ==>
            && s'.files == s.files[xml + "_bak" := s.files[xml]][xml := if newFile == xml + "_bak" then s.files[xml] else s.files[newFile]]
            && Validate(lib, s.files, newFile) == Some(s'.root)
            && (Sound(lib, xml, s') <==> newFile != xml + "_bak" || s'.root == s.root))
  {
    assert |xml + "_bak"| != |xml|;
  }

  /** A name that the printing and splitting of requests leaves intact. */
  predicate PlainName(name: string) {
    name != "" && forall c <- name :: c != '*' && c != '{' && c != '}' && c != ':' && c != '/' && c != ',' && c != '\'' && c != ';'
  }

  lemma LStripNone(s: string, drop: char -> bool)
    requires s == "" || !drop(s[0])
    ensures LStrip(s, drop) == s
  {
  }

  /** Stripping from the right stops at the last character that is kept. */
  lemma {:induction false} RStripKeeps(x: string, c: char, y: string, drop: char -> bool)
    requires !drop(c)
    ensures RStrip(x + [c] + y, drop) == x + [c] + RStrip(y, drop)
  {
    var s := x + [c] + y;
    if y == "" {
      assert s == x + [c];
    } else {
      assert s[|s| - 1] == y[|y| - 1];
      assert s[..|s| - 1] == x + [c] + y[..|y| - 1];
      if drop(y[|y| - 1]) {
        RStripKeeps(x, c, y[..|y| - 1], drop);
      }
    }
  }

  lemma {:induction false} RStripAll(x: string, y: string, drop: char -> bool)
    requires forall c <- y :: drop(c)
    ensures RStrip(x + y, drop) == RStrip(x, drop)
  {
    if y == "" {
      assert x + y == x;
    } else {
      assert (x + y)[..|x + y| - 1] == x + y[..|y| - 1];
      RStripAll(x, y[..|y| - 1], drop);
    }
  }

  /** What the store prints for one element. */
  function Printed(path: string, name: string, text: string): string {
    "{" + path + "/" + name + ":" + text + "},"
  }

  /** Cutting the printed element apart again. */
  lemma CutPrinted(path: string, name: string, text: string)
    requires PlainName(path) && PlainName(name)
    ensures
      var bare := StripChars(Printed(path, name, text), IsOpen);
      && bare == path + "/" + name + ":" + text + "},"
      && StripChars(bare, IsClose) == bare
      && StripChars(bare, IsCloseOrComma) == path + "/" + name + ":" + RStrip(text, IsCloseOrComma)
  {
    var inner := path + "/" + name + ":" + text + "},";
    var printed := Printed(path, name, text);
    assert printed == ['{'] + inner;
    assert printed[1..] == inner;
    assert inner[0] == path[0] && path[0] in path;
    LStripNone(inner, IsOpen);
    LStripNone(inner, IsClose);
    LStripNone(inner, IsCloseOrComma);
    assert inner[|inner| - 1] == ',';
    var x := path + "/" + name;
    assert inner == x + [':'] + (text + "},");
    RStripKeeps(x, ':', text + "},", IsCloseOrComma);
    RStripAll(text, "},", IsCloseOrComma);
  }

  /** The stored text of an element of a section, and the item that names one. */
  predicate Holds(root: Tree, path: string, name: string, p: Position) {
    PlainName(path) && PlainName(name) && ConfigTree.Find(root, [path, name]) == Some(p)
  }

  lemma PathOf(root: Tree, path: string, name: string)
    requires PlainName(path) && PlainName(name)
    ensures FindPath(root, path + "/" + name) == ConfigTree.Find(root, [path, name])
  {
    assert '/' !in path && '/' !in name;
    assert path + "/" + name == path + ['/'] + name;
    SplitCons(path, '/', name);
    SplitFree(name, '/');
    assert [path] + [name] == [path, name];
  }

  lemma ItemOf(name: string, v: string)
    requires PlainName(name)
    ensures Split1(name + ":" + v, ':') == [name, v]
    ensures StripChars(name, IsQuote) == name
    ensures ',' !in v ==> Split(name + ":" + v, ',') == [name + ":" + v]
  {
    assert ':' !in name && ',' !in name;
    assert name[0] in name && name[|name| - 1] in name;
    assert name + ":" + v == name + [':'] + v;
    Split1At(name, ':', v);
    if ',' !in v {
      SplitFree(name + ":" + v, ',');
    }
  }

  lemma PrintedElement(root: Tree, path: string, name: string, v: string, p: Position)
    requires Holds(root, path, name, p) && ',' !in v
    ensures GetElements(root, path, Split(name + ":" + v, ','), false) == Done(Printed(path, name, At(root, p).text))
  {
    ItemOf(name, v);
    PathOf(root, path, name);
    var item := name + ":" + v;
    assert [item][..0] == [];
    assert GetElements(root, path, [], false) == Done("");
    var printed := Printed(path, name, At(root, p).text);
    assert GetOne(root, path, item, false) == Done(printed);
    assert "" + printed == printed;
  }

  /** Both requests take the section name back out of the printed element. */
  lemma HeaderOf(path: string, name: string, text: string)
    requires PlainName(path) && PlainName(name)
    ensures HeaderPath(Printed(path, name, text)) == path + "/" + name
    ensures Split1(path + "/" + name, '/') == [path, name]
  {
    CutPrinted(path, name, text);
    assert ':' !in path + "/" + name && '/' !in path;
    assert path + "/" + name + ":" + text + "}," == (path + "/" + name) + [':'] + (text + "},");
    Split1At(path + "/" + name, ':', text + "},");
    assert path + "/" + name == path + ['/'] + name;
    Split1At(path, '/', name);
  }

  /** The text `append` writes. */
  function AppendedText(text: string, v: string): string {
    RStrip(text, IsCloseOrComma) + SEPARATOR + v + TERMINATOR
  }

  lemma CutAtSlash(path: string, rest: string)
    requires PlainName(path)
    ensures Split1(path + "/" + rest, '/') == [path, rest]
  {
    assert '/' !in path;
    Split1At(path, '/', rest);
    assert path + "/" + rest == path + ['/'] + rest;
  }

  lemma CutAtColon(names: string, rest: string)
    requires ':' !in names
    ensures Split1(names + ":" + rest, ':') == [names, rest]
  {
    Split1At(names, ':', rest);
    assert names + ":" + rest == names + [':'] + rest;
  }

  /** What both requests take for the element and its stored text: closing braces and commas at the end are lost. */
  lemma BodyOf(path: string, name: string, text: string)
    requires PlainName(path) && PlainName(name)
    ensures
      var kept := RStrip(text, IsCloseOrComma);
      && Split1(Body(Printed(path, name, text)), '/') == [path, name + ":" + kept]
      && Split1(Body(Printed(path, name, text)), ':') == [path + "/" + name, kept]
  {
    hide Split1, RStrip, StripChars, Printed;
    CutPrinted(path, name, text);
    var kept := RStrip(text, IsCloseOrComma);
    CutAtSlash(path, name + ":" + kept);
    assert path + "/" + (name + ":" + kept) == path + "/" + name + ":" + kept;
    assert ':' !in path + "/" + name;
    CutAtColon(path + "/" + name, kept);
  }

  lemma AppendRequestOf(root: Tree, path: string, name: string, v: string, p: Position)
    requires Holds(root, path, name, p) && ',' !in v
    ensures AppendRequest(root, path, name + ":" + v)
         == Done((path, name + ":" + AppendedText(At(root, p).text, v)))
  {
    hide HeaderPath, Body, Split1, Printed, GetElements, Split;
    var text := At(root, p).text;
    PrintedElement(root, path, name, v, p);
    HeaderOf(path, name, text);
    BodyOf(path, name, text);
    ItemOf(name, v);
    var kept := RStrip(text, IsCloseOrComma);
    assert name + ":" + kept + SEPARATOR + v + TERMINATOR == name + ":" + (kept + SEPARATOR + v + TERMINATOR);
  }

  /** Setting a single item without commas is one text update. */
  lemma SetItemOf(lib: Library, xml: string, s: State, path: string, name: string, value: string, p: Position)
    requires Holds(s.root, path, name, p) && ',' !in value
    ensures
      var (s', r) := SetItems(lib, xml, s, path, Split(name + ":" + value, ','), false);
      var (t, q) := UpdateText(lib, xml, s, p, value);
      && s' == t
      && (r.Done? <==> q.Done?)
      && (r.Done? ==> r.value == path + "/" + name + ":" + value + ";")
      && (r.Raised? ==> r.failure == ConfigurationException)
  {
    ItemOf(name, value);
    PathOf(s.root, path, name);
    var item := name + ":" + value;
    assert [item][..0] == [];
    assert SetItems(lib, xml, s, path, [], false) == (s, Done(""));
    var notice := path + "/" + name + ":" + value + ";";
    assert "" + notice == notice;
  }

  /**
   * What `append` does to a text without commas but at its end: the schema decides whether it is accepted, nothing
   * else changes, and the new text lists the entries of the old one, less any closing braces and
   * commas at its end, and then those of the value.
   */
  lemma AppendActs(lib: Library, xml: string, s: State, path: string, name: string, v: string, p: Position)
    requires Lawful(lib) && Sound(lib, xml, s)
    requires Holds(s.root, path, name, p) && ',' !in v && ',' !in RStrip(At(s.root, p).text, IsCloseOrComma)
    ensures
      var text := At(s.root, p).text;
      var text' := AppendedText(text, v);
      var (s', r) := Append(lib, xml, s, path, name + ":" + v);
      && Sound(lib, xml, s')
      && (r.Done? <==> lib.accepts(SetText(s.root, p, text')))
      && (r.Raised? ==> r.failure == ConfigurationException)
      && s'.root == (if r.Done? then SetText(s.root, p, text') else s.root)
      && (r.Done? ==> r.value == path + "/" + name + ":" + text' + ";")
      && Entries(text') == Entries(RStrip(text, IsCloseOrComma)) + Entries(v)
  {
    hide Entries;
    var text := At(s.root, p).text;
    AppendRequestOf(s.root, path, name, v, p);
    assert ',' !in AppendedText(text, v);
    SetItemOf(lib, xml, s, path, name, AppendedText(text, v), p);
    UpdateTextSound(lib, xml, s, p, AppendedText(text, v));
    EntriesAppended(RStrip(text, IsCloseOrComma), v);
  }

  lemma {:induction false} RStripFree(s: string, drop: char -> bool, c: char)
    requires c !in s
    ensures c !in RStrip(s, drop)
  {
    if s != "" && drop(s[|s| - 1]) {
      RStripFree(s[..|s| - 1], drop, c);
    }
  }

  lemma SetOneTexts(lib: Library, xml: string, s: State, xpath: string, item: string, p: Position)
    requires ',' !in item && ValidPosition(s.root, p) && SetOne(lib, xml, s, xpath, item, false).1.Done?
    ensures
      var root := SetOne(lib, xml, s, xpath, item, false).0.root;
      ValidPosition(root, p) && (At(root, p).text == At(s.root, p).text || ',' !in At(root, p).text)
  {
    var pair := Split1(item, ':');
    var q := FindPath(s.root, xpath + "/" + pair[0]).value;
    SetAtElsewhere(s.root, q, pair[1], At(s.root, q).name, p);
  }

  /** Items without commas put no comma into any text. */
  lemma {:induction false} SetItemsTexts(lib: Library, xml: string, s: State, xpath: string, items: seq<string>, p: Position)
    requires forall item <- items :: ',' !in item
    requires ValidPosition(s.root, p) && SetItems(lib, xml, s, xpath, items, false).1.Done?
    ensures
      var root := SetItems(lib, xml, s, xpath, items, false).0.root;
      ValidPosition(root, p) && (At(root, p).text == At(s.root, p).text || ',' !in At(root, p).text)
  {
    if items != [] {
      var n := |items| - 1;
      SetItemsTexts(lib, xml, s, xpath, items[..n], p);
      assert items[n] in items;
      SetOneTexts(lib, xml, SetItems(lib, xml, s, xpath, items[..n], false).0, xpath, items[n], p);
    }
  }

  /** A text that is unchanged, or has no comma, does not list what a comma was part of. */
  lemma CommaIsLost(text': string, text: string, v: string)
    requires ',' in text || ',' in v
    requires Entries(v) != []
    requires text' == text || ',' !in text'
    ensures Entries(text') != Entries(text) + Entries(v)
  {
    hide Entries;
    SolidMember(text, ',');
    SolidMember(v, ',');
    SolidMember(text', ',');
    SolidIfListed(v);
    if Entries(text') == Entries(text) + Entries(v) {
      SameEntriesSolid(text', text, v);
    }
  }

  lemma {:induction false} RStripShorter(s: string, drop: char -> bool)
    requires forall c | drop(c) :: !IsSpace(c)
    ensures |Solid(RStrip(s, drop))| <= |Solid(s)|
    ensures s != "" && drop(s[|s| - 1]) ==> |Solid(RStrip(s, drop))| < |Solid(s)|
  {
    if s != "" && drop(s[|s| - 1]) {
      RStripShorter(s[..|s| - 1], drop);
      assert s == s[..|s| - 1] + [s[|s| - 1]];
      SolidConcat(s[..|s| - 1], [s[|s| - 1]]);
    }
  }

  lemma EndIsLost(text: string, v: string)
    requires text != "" && IsCloseOrComma(text[|text| - 1])
    ensures Entries(RStrip(text, IsCloseOrComma)) + Entries(v) != Entries(text) + Entries(v)
  {
    hide Entries;
    RStripShorter(text, IsCloseOrComma);
    if Entries(RStrip(text, IsCloseOrComma)) == Entries(text) {
      SolidEntries(RStrip(text, IsCloseOrComma));
      SolidEntries(text);
    }
    assert forall a, b, c: seq<string> | a + c == b + c :: a == b by { CancelSuffix(); }
  }

  lemma CancelSuffix()
    ensures forall a, b, c: seq<string> | a + c == b + c :: a == b
  {
    forall a, b, c: seq<string> | a + c == b + c
      ensures a == b
    {
      assert |a| == |b|;
      assert a == (a + c)[..|a|] && b == (b + c)[..|b|];
    }
  }

  /** A stored text that the printing and splitting of requests leaves intact. */
  predicate Listable(text: string) {
    ',' !in text && (text == "" || text[|text| - 1] != '}')
  }

  lemma RStripListable(text: string)
    requires Listable(text)
    ensures RStrip(text, IsCloseOrComma) == text
  {
    assert text != "" ==> text[|text| - 1] in text;
  }

  /**
   * A successful `append` adds the value's entries to the stored ones exactly when neither holds a
   * comma and the stored text does not end in a closing brace.
   */
  lemma AppendExact(lib: Library, xml: string, s: State, path: string, name: string, v: string, p: Position)
    requires Lawful(lib) && Sound(lib, xml, s)
    requires Holds(s.root, path, name, p) && Entries(v) != []
    requires Append(lib, xml, s, path, name + ":" + v).1.Done?
    ensures
      var text := At(s.root, p).text;
      var root := Append(lib, xml, s, path, name + ":" + v).0.root;
      && ValidPosition(root, p)
      && (Entries(At(root, p).text) == Entries(text) + Entries(v) <==> Listable(text) && ',' !in v)
  {
    hide Entries, AppendRequest, SetItems;
    var text := At(s.root, p).text;
    var (header, valueString) := AppendRequest(s.root, path, name + ":" + v).value;
    SplitPartsFree(valueString, ',');
    SetItemsTexts(lib, xml, s, header, Split(valueString, ','), p);
    var root := Append(lib, xml, s, path, name + ":" + v).0.root;
    if ',' in text || ',' in v {
      CommaIsLost(At(root, p).text, text, v);
    } else {
      RStripFree(text, IsCloseOrComma, ',');
      AppendActs(lib, xml, s, path, name, v, p);
      SetAtElsewhere(s.root, p, AppendedText(text, v), At(s.root, p).name, p);
      if Listable(text) {
        RStripListable(text);
      } else {
        EndIsLost(text, v);
      }
    }
  }

  /** The first part of a value string names the element and its text up to the first comma. */
  lemma FirstItem(name: string, value: string)
    requires PlainName(name)
    ensures
      var items := Split(name + ":" + value, ',');
      var first := value[..IndexOf(value, ',')];
      items[0] == name + ":" + first && ',' !in first && (',' !in value <==> |items| == 1)
  {
    hide Split, IndexOf;
    var named := name + ":";
    assert ',' !in named && ',' !in value[..IndexOf(value, ',')];
    IndexOfSkip(named, value, ',');
    SplitHead(named + value, ',');
    assert (named + value)[..|named| + IndexOf(value, ',')] == named + value[..IndexOf(value, ',')];
  }

  /** Once the element's own part is written, its text has no comma, whatever parts follow. */
  lemma {:induction false} StaysFree(lib: Library, xml: string, s: State, path: string, name: string, value: string, p: Position, k: nat)
    requires Holds(s.root, path, name, p)
    requires var items := Split(name + ":" + value, ','); 1 <= k <= |items| && SetItems(lib, xml, s, path, items[..k], false).1.Done?
    ensures
      var items := Split(name + ":" + value, ',');
      var root := SetItems(lib, xml, s, path, items[..k], false).0.root;
      && ValidPosition(root, p) && ',' !in At(root, p).text
      && SetItems(lib, xml, s, path, items[..1], false).1.Done?
      && UpdateText(lib, xml, s, p, value[..IndexOf(value, ',')]).1.Done?
  {
    hide UpdateText, Split1, FindPath;
    var items := Split(name + ":" + value, ',');
    var first := value[..IndexOf(value, ',')];
    FirstItem(name, value);
    if k == 1 {
      FirstPart(lib, xml, s, path, name, first, p);
      assert items[..1] == [items[0]];
      SetItemsOne(lib, xml, s, path, items[0]);
    } else {
      assert items[..k][..k - 1] == items[..k - 1];
      StaysFree(lib, xml, s, path, name, value, p, k - 1);
      SplitPartsFree(name + ":" + value, ',');
      assert items[k - 1] in items;
      SetOneTexts(lib, xml, SetItems(lib, xml, s, path, items[..k - 1], false).0, path, items[k - 1], p);
    }
  }

  lemma SetItemsOne(lib: Library, xml: string, s: State, xpath: string, item: string)
    ensures
      var (s', r) := SetItems(lib, xml, s, xpath, [item], false);
      var (t, q) := SetOne(lib, xml, s, xpath, item, false);
      s' == t && (r.Done? <==> q.Done?)
  {
    assert [item][..0] == [];
    assert SetItems(lib, xml, s, xpath, [], false) == (s, Done(""));
  }

  lemma FirstPart(lib: Library, xml: string, s: State, path: string, name: string, first: string, p: Position)
    requires Holds(s.root, path, name, p) && ',' !in first
    ensures
      var (t, q) := UpdateText(lib, xml, s, p, first);
      var (s', r) := SetOne(lib, xml, s, path, name + ":" + first, false);
      && s' == t && (r.Done? <==> q.Done?)
      && (q.Done? ==> ValidPosition(t.root, p) && At(t.root, p).text == first)
  {
    ItemOf(name, first);
    PathOf(s.root, path, name);
    SetAtElsewhere(s.root, p, first, At(s.root, p).name, p);
  }

  /**
   * When `append` of a value without commas fails it has left the tree alone exactly when the stored text, less closing braces
   * and commas at its end, has no comma, or the schema refuses what comes before the first comma:
   * otherwise that part is what is left of the text.
   */
  lemma AppendOfPlainFails(lib: Library, xml: string, s: State, path: string, name: string, v: string, p: Position)
    requires Lawful(lib) && Sound(lib, xml, s)
    requires Holds(s.root, path, name, p) && ',' !in v
    requires Append(lib, xml, s, path, name + ":" + v).1.Raised?
    ensures
      var kept := RStrip(At(s.root, p).text, IsCloseOrComma);
      Append(lib, xml, s, path, name + ":" + v).0.root == s.root
      <==> ',' !in kept || !lib.accepts(SetText(s.root, p, kept[..IndexOf(kept, ',')]))
  {
    hide Append, SetItems, Split, RStrip, AppendedText, AppendRequest, Sound, Lawful, Entries;
    var text := At(s.root, p).text;
    if ',' !in RStrip(text, IsCloseOrComma) {
      AppendActs(lib, xml, s, path, name, v, p);
    } else {
      AppendRequestOf(s.root, path, name, v, p);
      AppendedFirst(text, v);
      AppendIs(lib, xml, s, path, name, v, AppendedText(text, v));
      RequestFails(lib, xml, s, path, name, AppendedText(text, v), p);
    }
  }

  /** The new text begins like the old one, up to the first comma. */
  lemma AppendedFirst(text: string, v: string)
    requires ',' in RStrip(text, IsCloseOrComma)
    ensures
      var kept := RStrip(text, IsCloseOrComma);
      ',' in text && AppendedText(text, v)[..IndexOf(AppendedText(text, v), ',')] == kept[..IndexOf(kept, ',')]
  {
    var kept := RStrip(text, IsCloseOrComma);
    RStripMember(text, IsCloseOrComma, ',');
    CommaFirst(kept, SEPARATOR + v + TERMINATOR);
    assert AppendedText(text, v) == kept + (SEPARATOR + v + TERMINATOR);
  }

  lemma AppendIs(lib: Library, xml: string, s: State, path: string, name: string, v: string, value: string)
    requires AppendRequest(s.root, path, name + ":" + v) == Done((path, name + ":" + value))
    ensures Append(lib, xml, s, path, name + ":" + v) == SetItems(lib, xml, s, path, Split(name + ":" + value, ','), false)
  {
  }

  /** A failing request that rewrites a text with a comma leaves the tree alone exactly when its first part is refused. */
  lemma RequestFails(lib: Library, xml: string, s: State, path: string, name: string, value: string, p: Position)
    requires Lawful(lib) && Sound(lib, xml, s) && Holds(s.root, path, name, p) && ',' in At(s.root, p).text
    requires SetItems(lib, xml, s, path, Split(name + ":" + value, ','), false).1.Raised?
    ensures SetItems(lib, xml, s, path, Split(name + ":" + value, ','), false).0.root == s.root
       <==> !lib.accepts(SetText(s.root, p, value[..IndexOf(value, ',')]))
  {
    hide SetItems, UpdateText, Sound, Lawful, Split;
    var items := Split(name + ":" + value, ',');
    var first := value[..IndexOf(value, ',')];
    FirstItem(name, value);
    FirstPart(lib, xml, s, path, name, first, p);
    UpdateTextSound(lib, xml, s, p, first);
    var k := SetItemsSound(lib, xml, s, path, items);
    assert items[..0] == [];
    NoItems(lib, xml, s, path);
    if k > 0 {
      StaysFree(lib, xml, s, path, name, value, p, k);
    }
  }

  lemma NoItems(lib: Library, xml: string, s: State, xpath: string)
    ensures SetItems(lib, xml, s, xpath, [], false) == (s, Done(""))
  {
  }

  lemma CommaFirst(kept: string, more: string)
    requires ',' in kept
    ensures IndexOf(kept + more, ',') == IndexOf(kept, ',') < |kept|
    ensures (kept + more)[..IndexOf(kept, ',')] == kept[..IndexOf(kept, ',')]
  {
    var n := IndexOf(kept, ',');
    assert n < |kept| by {
      var i :| 0 <= i < |kept| && kept[i] == ',';
      IndexOfLeast(kept, ',', i);
    }
    assert kept + more == kept[..n] + [','] + (kept[n + 1..] + more);
    IndexOfAppend(kept[..n], ',', kept[n + 1..] + more);
  }

  lemma {:induction false} RStripMember(s: string, drop: char -> bool, c: char)
    requires c in RStrip(s, drop)
    ensures c in s
  {
    if s != "" && drop(s[|s| - 1]) {
      RStripMember(s[..|s| - 1], drop, c);
    }
  }

  lemma RemoveRequestOf(root: Tree, path: string, name: string, v: string, p: Position)
    requires Holds(root, path, name, p) && ',' !in v
    ensures
      var kept := RStrip(At(root, p).text, IsCloseOrComma);
      RemoveRequest(root, path, name + ":" + v) ==
        if kept == "" || v !in TrimmedLines(kept) then Raised(ConfigurationException)
        else Done((path, name + ":" + (SEPARATOR + Join(RemoveFirst(TrimmedLines(kept), v)) + TERMINATOR)))
  {
    hide HeaderPath, Body, Split1, Printed, GetElements, Split, TrimmedLines, Join, RemoveFirst;
    PrintedElement(root, path, name, v, p);
    HeaderOf(path, name, At(root, p).text);
    BodyOf(path, name, At(root, p).text);
    ItemOf(name, v);
  }

  /** The text `remove` writes. */
  function RemovedText(text: string, v: string): string {
    SEPARATOR + Join(RemoveFirst(TrimmedLines(text), v)) + TERMINATOR
  }

  /** Rewriting the lines of a text without commas makes no comma. */
  lemma {:induction false} JoinFree(lines: seq<string>, c: char)
    requires forall line <- lines :: c !in line
    requires c !in SEPARATOR
    ensures c !in Join(lines)
  {
    if lines != [] {
      assert lines[0] in lines;
      JoinFree(lines[1..], c);
    }
  }

  lemma {:induction false} MapFree(lines: seq<string>, c: char)
    requires forall line <- lines :: c !in line
    ensures forall line <- Map(lines) :: c !in line
  {
    if lines != [] {
      assert lines[0] in lines;
      StripFree(lines[0], c);
      MapFree(lines[1..], c);
    }
  }

  lemma {:induction false} LStripFree(s: string, drop: char -> bool, c: char)
    requires c !in s
    ensures c !in LStrip(s, drop)
  {
    if s != "" && drop(s[0]) {
      LStripFree(s[1..], drop, c);
    }
  }

  lemma StripFree(s: string, c: char)
    requires c !in s
    ensures c !in Strip(s)
  {
    LStripFree(s, IsSpace, c);
    RStripFree(LStrip(s, IsSpace), IsSpace, c);
  }

  lemma {:induction false} SplitLinesFree(s: string, c: char)
    requires c !in s
    ensures forall line <- SplitLines(s) :: c !in line
    decreases |s|
  {
    if s != "" {
      var n := FirstBreak(s);
      if n < |s| && s[n] == '\r' && n + 1 < |s| && s[n + 1] == '\n' {
        SplitLinesFree(s[n + 2..], c);
      } else if n < |s| {
        SplitLinesFree(s[n + 1..], c);
      }
    }
  }

  lemma RemovedTextFree(text: string, v: string, c: char)
    requires c !in text && c !in SEPARATOR && c !in TERMINATOR
    ensures c !in RemovedText(text, v)
  {
    hide Join;
    StripFree(text, c);
    SplitLinesFree(Strip(text), c);
    MapFree(SplitLines(Strip(text)), c);
    RemoveFirstMembers(TrimmedLines(text), v);
    JoinFree(RemoveFirst(TrimmedLines(text), v), c);
  }

  /**
   * What `remove` does: it fails without effect when the value is not among the lines of the text less
   * closing braces and commas at its end. Otherwise, if what is left of the text has no comma, the
   * schema decides, and the new text lists the entries of the old one, less that end, without the first
   * occurrence of the value. The empty value only takes out a blank line.
   */
  lemma RemoveActs(lib: Library, xml: string, s: State, path: string, name: string, v: string, p: Position)
    requires Lawful(lib) && Sound(lib, xml, s)
    requires Holds(s.root, path, name, p) && ',' !in v
    ensures
      var kept := RStrip(At(s.root, p).text, IsCloseOrComma);
      var (s', r) := Remove(lib, xml, s, path, name + ":" + v);
      if (if v == "" then v !in TrimmedLines(kept) else v !in Entries(kept)) then s' == s && r == Raised(ConfigurationException)
      else
        && Entries(RemovedText(kept, v)) == RemoveFirst(Entries(kept), v)
        && (',' !in kept ==>
              && Sound(lib, xml, s')
              && (r.Done? <==> lib.accepts(SetText(s.root, p, RemovedText(kept, v))))
              && (r.Raised? ==> r.failure == ConfigurationException)
              && s'.root == (if r.Done? then SetText(s.root, p, RemovedText(kept, v)) else s.root)
              && (r.Done? ==> r.value == path + "/" + name + ":" + RemovedText(kept, v) + ";"))
  {
    hide Entries, RemoveRequest, SetItems, TrimmedLines, Join, RemoveFirst, RStrip;
    var kept := RStrip(At(s.root, p).text, IsCloseOrComma);
    RemoveRequestOf(s.root, path, name, v, p);
    EntriesRemoved(kept, v);
    if kept == "" {
      EntriesOfLine("");
      NoLines();
      NoTrimmedLines();
    } else if v in TrimmedLines(kept) && ',' !in kept {
      RemovedTextFree(kept, v, ',');
      SetItemOf(lib, xml, s, path, name, RemovedText(kept, v), p);
      UpdateTextSound(lib, xml, s, p, RemovedText(kept, v));
    }
  }

  lemma NoTrimmedLines()
    ensures TrimmedLines("") == []
  {
  }

  lemma {:induction false} RemoveFirstJoined(lines: seq<string>, v: string, c: char)
    ensures v in lines ==> |Solid(Joined(RemoveFirst(lines, v)))| == |Solid(Joined(lines))| - |Solid(v)|
    ensures v !in lines ==> RemoveFirst(lines, v) == lines
    ensures c !in v && c in Joined(lines) ==> c in Joined(RemoveFirst(lines, v))
  {
    if lines != [] {
      var rest := lines[1..];
      assert lines == [lines[0]] + rest;
      RemoveFirstCons(lines[0], rest, v);
      RemoveFirstJoined(rest, v, c);
      SolidConcat(lines[0], Joined(rest));
      if lines[0] != v {
        var r := RemoveFirst(lines, v);
        assert r[0] == lines[0] && r[1..] == RemoveFirst(rest, v);
        SolidConcat(lines[0], Joined(r[1..]));
      }
    }
  }

  /** The store after a successful `remove`, whatever the text: its element has a text without commas. */
  lemma RemovedFree(lib: Library, xml: string, s: State, path: string, name: string, v: string, p: Position)
    requires Holds(s.root, path, name, p) && ',' !in v
    requires Remove(lib, xml, s, path, name + ":" + v).1.Done?
    ensures
      var root := Remove(lib, xml, s, path, name + ":" + v).0.root;
      ValidPosition(root, p) && ',' !in At(root, p).text
  {
    hide SetItems, TrimmedLines, Join, RemoveFirst, Split, RStrip, RemoveRequest;
    var kept := RStrip(At(s.root, p).text, IsCloseOrComma);
    RemoveRequestOf(s.root, path, name, v, p);
    var value := RemovedText(kept, v);
    var items := Split(name + ":" + value, ',');
    assert items[..|items|] == items;
    StaysFree(lib, xml, s, path, name, value, p, |items|);
  }

  /**
   * A successful `remove` takes the first occurrence of the value from the stored entries exactly when
   * the stored text has no comma and does not end in a closing brace.
   */
  lemma RemoveExact(lib: Library, xml: string, s: State, path: string, name: string, v: string, p: Position)
    requires Lawful(lib) && Sound(lib, xml, s)
    requires Holds(s.root, path, name, p) && ',' !in v
    requires Remove(lib, xml, s, path, name + ":" + v).1.Done?
    ensures
      var text := At(s.root, p).text;
      var root := Remove(lib, xml, s, path, name + ":" + v).0.root;
      ValidPosition(root, p) && (Entries(At(root, p).text) == RemoveFirst(Entries(text), v) <==> Listable(text))
  {
    hide Entries, Remove, RemovedText, RemoveFirst, Joined, Solid, RStrip, Sound, Lawful;
    var text := At(s.root, p).text;
    var kept := RStrip(text, IsCloseOrComma);
    RemovedFree(lib, xml, s, path, name, v, p);
    RemoveActs(lib, xml, s, path, name, v, p);
    var root := Remove(lib, xml, s, path, name + ":" + v).0.root;
    SetAtElsewhere(s.root, p, RemovedText(kept, v), At(s.root, p).name, p);
    if Listable(text) {
      RStripListable(text);
    } else {
      RemoveLoses(text, v, At(root, p).text);
    }
  }

  /** Where a text has a comma or an end that is dropped, something else than the value is lost. */
  lemma RemoveLoses(text: string, v: string, text': string)
    requires !Listable(text) && ',' !in v && ',' !in text'
    requires var kept := RStrip(text, IsCloseOrComma);
             (v == "" || v in Entries(kept)) && (',' !in kept ==> Entries(text') == RemoveFirst(Entries(kept), v))
    ensures Entries(text') != RemoveFirst(Entries(text), v)
  {
    hide Entries, RemoveFirst, Joined, Solid, RStrip;
    var kept := RStrip(text, IsCloseOrComma);
    SolidEntries(text);
    SolidEntries(text');
    SolidEntries(kept);
    RemoveFirstJoined(Entries(text), v, ',');
    RemoveFirstJoined(Entries(kept), v, ',');
    SolidEmpty(v);
    if ',' in kept {
      RStripMember(text, IsCloseOrComma, ',');
      SolidMember(text, ',');
      SolidMember(text', ',');
      SolidMember(Joined(Entries(text)), ',');
      SolidMember(Joined(Entries(text')), ',');
    } else {
      RStripShorter(text, IsCloseOrComma);
      EndDropped(text);
    }
  }

  lemma EndDropped(text: string)
    requires !Listable(text) && ',' !in RStrip(text, IsCloseOrComma)
    ensures text != "" && IsCloseOrComma(text[|text| - 1])
  {
  }

  /** The store after a successful `append` to a listable text. */
  lemma AppendedStore(lib: Library, xml: string, s: State, path: string, name: string, v: string, p: Position)
    requires Lawful(lib) && Sound(lib, xml, s)
    requires Holds(s.root, path, name, p) && ',' !in v && Listable(At(s.root, p).text)
    requires Append(lib, xml, s, path, name + ":" + v).1.Done?
    ensures
      var s1 := Append(lib, xml, s, path, name + ":" + v).0;
      && Sound(lib, xml, s1) && Holds(s1.root, path, name, p) && ValidPosition(s1.root, p)
      && Listable(At(s1.root, p).text)
      && Entries(At(s1.root, p).text) == Entries(At(s.root, p).text) + Entries(v)
  {
    hide Entries, Append;
    var text := At(s.root, p).text;
    var text' := AppendedText(text, v);
    AppendActs(lib, xml, s, path, name, v, p);
    RStripListable(text);
    FindUnaffected(s.root, p, text', At(s.root, p).name, [path, name]);
    SetAtElsewhere(s.root, p, text', At(s.root, p).name, p);
    assert text'[|text'| - 1] == TERMINATOR[1];
  }

  /** The store after a successful `remove` from a listable text. */
  lemma RemovedStore(lib: Library, xml: string, s: State, path: string, name: string, v: string, p: Position)
    requires Lawful(lib) && Sound(lib, xml, s)
    requires Holds(s.root, path, name, p) && ',' !in v && v != "" && Listable(At(s.root, p).text)
    ensures
      var (s1, r) := Remove(lib, xml, s, path, name + ":" + v);
      r.Done? ==>
        ValidPosition(s1.root, p)
        && Entries(At(s1.root, p).text) == RemoveFirst(Entries(At(s.root, p).text), v)
  {
    hide Entries, Remove, RemovedText;
    RemoveActs(lib, xml, s, path, name, v, p);
    RStripListable(At(s.root, p).text);
    SetAtElsewhere(s.root, p, RemovedText(At(s.root, p).text, v), At(s.root, p).name, p);
  }

  /**
   * Removing a value that was just appended, and was not there before: it never fails for want of the
   * value, and unless the schema refuses the text it writes, the entries are those from before.
   */
  lemma AppendThenRemove(lib: Library, xml: string, s: State, path: string, name: string, v: string, p: Position)
    requires Lawful(lib) && Sound(lib, xml, s)
    requires Holds(s.root, path, name, p) && ',' !in v && v != "" && Entries(v) == [v]
    requires Listable(At(s.root, p).text) && v !in Entries(At(s.root, p).text)
    ensures
      var (s1, r1) := Append(lib, xml, s, path, name + ":" + v);
      var (s2, r2) := Remove(lib, xml, s1, path, name + ":" + v);
      r1.Done? ==>
        && ValidPosition(s1.root, p) && ValidPosition(s2.root, p)
        && (r2.Done? <==> lib.accepts(SetText(s1.root, p, RemovedText(At(s1.root, p).text, v))))
        && (r2.Done? ==> Entries(At(s2.root, p).text) == Entries(At(s.root, p).text))
        && (r2.Raised? ==> s2.root == s1.root)
  {
    hide Entries, Append, Remove, RemovedText;
    var (s1, r1) := Append(lib, xml, s, path, name + ":" + v);
    if r1.Done? {
      AppendedStore(lib, xml, s, path, name, v, p);
      RemoveActs(lib, xml, s1, path, name, v, p);
      RStripListable(At(s1.root, p).text);
      RemovedStore(lib, xml, s1, path, name, v, p);
      RemoveFirstAppended(Entries(At(s.root, p).text), v);
    }
  }

  /** What an item writes: a path and a value. */
  function WriteOf(xpath: string, item: string): (string, string) {
    var pair := Split1(item, ':');
    (xpath + "/" + pair[0], if |pair| == 2 then pair[1] else "")
  }

  function Writes(xpath: string, items: seq<string>): seq<(string, string)> {
    seq(|items|, i requires 0 <= i < |items| => WriteOf(xpath, items[i]))
  }

  /** The text that announces writes: `path:value;` for each. */
  function Encode(writes: seq<(string, string)>): string {
    if writes == [] then "" else writes[0].0 + ":" + writes[0].1 + ";" + Encode(writes[1..])
  }

  lemma {:induction false} EncodeConcat(a: seq<(string, string)>, b: seq<(string, string)>)
    ensures Encode(a + b) == Encode(a) + Encode(b)
  {
    if a == [] {
      assert a + b == b;
    } else {
      assert (a + b)[1..] == a[1..] + b;
      EncodeConcat(a[1..], b);
    }
  }

  lemma SetOneAnnounces(lib: Library, xml: string, s: State, xpath: string, item: string, isAttribute: bool)
    requires SetOne(lib, xml, s, xpath, item, isAttribute).1.Done?
    ensures SetOne(lib, xml, s, xpath, item, isAttribute).1.value == Encode([WriteOf(xpath, item)])
  {
    var w := WriteOf(xpath, item);
    var notice := w.0 + ":" + w.1 + ";";
    assert [w][1..] == [];
    assert notice + "" == notice;
  }

  lemma NoAnnouncement(xpath: string)
    ensures Encode(Writes(xpath, [])) == ""
  {
  }

  /** A successful request announces exactly its own writes, in order. */
  lemma {:induction false} SetItemsAnnounce(lib: Library, xml: string, s: State, xpath: string, items: seq<string>, isAttribute: bool)
    requires SetItems(lib, xml, s, xpath, items, isAttribute).1.Done?
    ensures SetItems(lib, xml, s, xpath, items, isAttribute).1.value == Encode(Writes(xpath, items))
  {
    hide SetOne, WriteOf, Encode;
    if items == [] {
      NoAnnouncement(xpath);
    } else {
      var n := |items| - 1;
      SetItemsAnnounce(lib, xml, s, xpath, items[..n], isAttribute);
      var w := WriteOf(xpath, items[n]);
      SetOneAnnounces(lib, xml, SetItems(lib, xml, s, xpath, items[..n], isAttribute).0, xpath, items[n], isAttribute);
      assert Writes(xpath, items) == Writes(xpath, items[..n]) + [w];
      EncodeConcat(Writes(xpath, items[..n]), [w]);
    }
  }

  /** What the broker reads out of the parts of an announcement; it stops at a part without a colon. */
  function DecodeParts(parts: seq<string>): (seq<(string, string)>, bool) {
    if parts == [] then ([], true)
    else
      var pair := Split1(parts[0], ':');
      if |pair| < 2 then ([], false)
      else
        var (rest, ok) := DecodeParts(parts[1..]);
        ([(pair[0], pair[1])] + rest, ok)
  }

  function Decode(paths: string): (seq<(string, string)>, bool) {
    var parts := Split(paths, ';');
    DecodeParts(parts[..|parts| - 1])
  }

  predicate PlainWrite(w: (string, string)) {
    ':' !in w.0 && ';' !in w.0 && ';' !in w.1
  }

  lemma {:induction false} DecodePartsPlain(parts: seq<string>)
    requires forall part <- parts :: ';' !in part
    ensures forall w <- DecodeParts(parts).0 :: PlainWrite(w)
  {
    if parts != [] {
      assert parts[0] in parts;
      DecodePartsPlain(parts[1..]);
    }
  }

  lemma DecodePartsCons(path: string, value: string, more: seq<string>)
    requires ':' !in path
    ensures DecodeParts([path + ":" + value] + more) == ([(path, value)] + DecodeParts(more).0, DecodeParts(more).1)
  {
    hide Split1;
    CutAtColon(path, value);
    var parts := [path + ":" + value] + more;
    assert parts[1..] == more;
  }

  lemma DecodeCons(path: string, value: string, rest: string)
    requires PlainWrite((path, value))
    ensures Decode(path + ":" + value + ";" + rest) == ([(path, value)] + Decode(rest).0, Decode(rest).1)
  {
    hide DecodeParts, Split;
    var x := path + ":" + value;
    assert ';' !in x;
    assert x + ";" + rest == x + [';'] + rest;
    SplitCons(x, ';', rest);
    var more := Split(rest, ';');
    assert ([x] + more)[..|more|] == [x] + more[..|more| - 1];
    DecodePartsCons(path, value, more[..|more| - 1]);
  }

  /**
   * The broker reads back the announced writes exactly when no path or value holds a semicolon and
   * no path a colon.
   */
  lemma {:induction false} DecodeEncode(writes: seq<(string, string)>)
    ensures Decode(Encode(writes)) == (writes, true) <==> forall w <- writes :: PlainWrite(w)
  {
    var parts := Split(Encode(writes), ';');
    SplitPartsFree(Encode(writes), ';');
    DecodePartsPlain(parts[..|parts| - 1]);
    if forall w <- writes :: PlainWrite(w) {
      DecodeEncodePlain(writes);
    }
  }

  lemma {:induction false} DecodeEncodePlain(writes: seq<(string, string)>)
    requires forall w <- writes :: PlainWrite(w)
    ensures Decode(Encode(writes)) == (writes, true)
  {
    if writes == [] {
      SplitFree("", ';');
    } else {
      var w := writes[0];
      assert w in writes;
      DecodeEncodePlain(writes[1..]);
      DecodeCons(w.0, w.1, Encode(writes[1..]));
      assert writes == [w] + writes[1..];
      assert (w.0, w.1) == w;
    }
  }

  /** What can be asked of the store, apart from the orchestrator attribute. */
  datatype Operation =
    | SetOperation(xpath: string, valueString: string)
    | AppendOperation(path: string, valueString: string)
    | RemoveOperation(path: string, valueString: string)
    | LoadOperation(newFile: string)

  function Operate(lib: Library, xml: string, s: State, op: Operation): State {
    match op
    case SetOperation(xpath, valueString) => SetItems(lib, xml, s, xpath, Split(valueString, ','), false).0
    case AppendOperation(path, valueString) => Append(lib, xml, s, path, valueString).0
    case RemoveOperation(path, valueString) => Remove(lib, xml, s, path, valueString).0
    case LoadOperation(newFile) => Load(lib, xml, s, newFile).0
  }

  function OperateAll(lib: Library, xml: string, s: State, ops: seq<Operation>): State {
    if ops == [] then s else Operate(lib, xml, OperateAll(lib, xml, s, ops[..|ops| - 1]), ops[|ops| - 1])
  }

  /**
   * Over every run of text updates, appends, removals and loads, the file always holds the tree in
   * memory and is valid, as long as no load reads the store's own backup file.
   */
  lemma {:induction false} RunSound(lib: Library, xml: string, s: State, ops: seq<Operation>)
    requires Lawful(lib) && Sound(lib, xml, s)
    requires forall op <- ops | op.LoadOperation? :: op.newFile != xml + "_bak"
    ensures Sound(lib, xml, OperateAll(lib, xml, s, ops))
  {
    hide Sound, Lawful, SetItems, AppendRequest, RemoveRequest, Load;
    if ops != [] {
      var n := |ops| - 1;
      RunSound(lib, xml, s, ops[..n]);
      var t := OperateAll(lib, xml, s, ops[..n]);
      assert ops[n] in ops;
      match ops[n]
      case SetOperation(xpath, valueString) =>
        var k := SetItemsSound(lib, xml, t, xpath, Split(valueString, ','));
      case AppendOperation(path, valueString) =>
        RequestSound(lib, xml, t, AppendRequest(t.root, path, valueString));
      case RemoveOperation(path, valueString) =>
        RequestSound(lib, xml, t, RemoveRequest(t.root, path, valueString));
      case LoadOperation(newFile) =>
        LoadSound(lib, xml, t, newFile);
    }
  }

  lemma RequestSound(lib: Library, xml: string, s: State, request: Outcome<(string, string)>)
    requires Lawful(lib) && Sound(lib, xml, s)
    ensures Sound(lib, xml, SetRequested(lib, xml, s, request).0)
  {
    hide Sound, Lawful, SetItems;
    if request.Done? {
      var k := SetItemsSound(lib, xml, s, request.value.0, Split(request.value.1, ','));
    }
  }
}
