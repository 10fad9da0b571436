/** The configuration agent around the store: its requests, and what it answers and announces. */
module ConfigAgent {
  import opened ConfigStore
  import opened ConfigText
  import opened ConfigTree
  import opened Options
  import opened PyStrings

  class XmlKeyValueStore {
    const lib: Library
    /** the name of the configuration file */
    const xml: string

    var root: Tree
    var files: map<string, string>

    /** File and tree agree, and both are valid. */
    ghost predicate Valid()
      reads this
    {
      Lawful(lib) && Sound(lib, xml, Now())
    }

    function Now(): State
      reads this
    {
      State(root, files)
    }

    constructor (lib: Library, xml: string, files: map<string, string>)
      requires Lawful(lib) && Validate(lib, files, xml).Some?
      ensures Valid() && this.lib == lib && this.xml == xml && this.files == files
    {
      this.lib, this.xml, this.files := lib, xml, files;
      root := Validate(lib, files, xml).value;
    }

    method WriteToFile()
      modifies this`files
      ensures files == old(files)[xml := lib.serialize(root)]
    {
      files := files[xml := lib.serialize(root)];
    }

    /** Overwrites one value in the tree and in the file, and puts a text back if validation fails. */
    method UpdateFile(p: Position, value: string, isAttribute: bool) returns (r: Outcome<()>)
      requires ValidPosition(root, p)
      modifies this`root, this`files
      ensures !isAttribute ==> (Now(), r) == UpdateText(lib, xml, old(Now()), p, value)
      ensures isAttribute ==> (Now(), r) == UpdateName(lib, xml, old(Now()), p, value)
    {
      var oldValue: string;
      SetAtElsewhere(root, p, value, At(root, p).name, p);
      SetAtElsewhere(root, p, At(root, p).text, Some(value), p);
      if isAttribute {
        oldValue := NameText(At(root, p).name);
        root := SetName(root, p, value);
      } else {
        oldValue := At(root, p).text;
        root := SetText(root, p, value);
      }
      WriteToFile();
      if Validate(lib, files, xml).Some? {
        return Done(());
      }
      root := SetText(root, p, oldValue);
      WriteToFile();
      return Raised(ConfigurationException);
    }

    /** One item of a value string. */
    method SetItem(xpath: string, item: string, isAttribute: bool) returns (r: Outcome<string>)
      modifies this`root, this`files
      ensures (Now(), r) == SetOne(lib, xml, old(Now()), xpath, item, isAttribute)
    {
      var pair := Split1(item, ':');
      if |pair| < 2 {
        return Raised(IndexError);
      }
      var p := FindPath(root, if isAttribute then pair[0] else xpath + "/" + pair[0]);
      if p.None? {
        return Raised(XmlException);
      }
      var updated := UpdateFile(p.value, pair[1], isAttribute);
      if updated.Raised? {
        return Raised(updated.failure);
      }
      return Done(xpath + "/" + pair[0] + ":" + pair[1] + ";");
    }

    /** The items of a value string in turn; the first failure ends the request. */
    method SetElement(xpath: string, valueString: string, isAttribute: bool) returns (r: Outcome<string>)
      modifies this`root, this`files
      ensures (Now(), r) == SetItems(lib, xml, old(Now()), xpath, Split(valueString, ','), isAttribute)
    {
      hide SetOne, Split;
      var values := Split(valueString, ',');
      ghost var before := Now();
      var paths := "";
      for i := 0 to |values|
        invariant SetItems(lib, xml, before, xpath, values[..i], isAttribute) == (Now(), Done(paths))
      {
        var one := SetItem(xpath, values[i], isAttribute);
        assert values[..i + 1][..i] == values[..i];
        if one.Raised? {
          SetItemsStop(lib, xml, before, xpath, values, i, isAttribute);
          return one;
        }
        paths := paths + one.value;
      }
      assert values[..|values|] == values;
      return Done(paths);
    }

    /** Prints the requested elements. */
    method GetElement(path: string, elementString: string, isAttribute: bool) returns (r: Outcome<string>)
      ensures r == GetElements(root, path, Split(elementString, ','), isAttribute)
    {
      var elements := Split(elementString, ',');
      var results := "";
      for i := 0 to |elements|
        invariant GetElements(root, path, elements[..i], isAttribute) == Done(results)
      {
        var one := GetOne(root, path, elements[i], isAttribute);
        assert elements[..i + 1][..i] == elements[..i];
        if one.Raised? {
          GetElementsStop(root, path, elements, i, isAttribute);
          return one;
        }
        results := results + one.value;
      }
      assert elements[..|elements|] == elements;
      return Done(results);
    }

    method AppendValue(path: string, valueString: string) returns (r: Outcome<string>)
      modifies this`root, this`files
      ensures (Now(), r) == Append(lib, xml, old(Now()), path, valueString)
    {
      var request := AppendRequest(root, path, valueString);
      if request.Raised? {
        return Raised(request.failure);
      }
      r := SetElement(request.value.0, request.value.1, false);
    }

    method RemoveValue(path: string, valueString: string) returns (r: Outcome<string>)
      modifies this`root, this`files
      ensures (Now(), r) == Remove(lib, xml, old(Now()), path, valueString)
    {
      var request := RemoveRequest(root, path, valueString);
      if request.Raised? {
        return Raised(request.failure);
      }
      r := SetElement(request.value.0, request.value.1, false);
    }

    /** A new file is taken over before the old one is copied, which raises if it is gone. */
    method LoadFile(newFile: string) returns (r: Outcome<()>)
      modifies this`root, this`files
      ensures (Now(), r) == Load(lib, xml, old(Now()), newFile)
    {
      var loaded := Validate(lib, files, newFile);
      if loaded.None? {
        return Raised(XmlException);
      }
      root := loaded.value;
      if xml !in files {
        return Raised(XmlException);
      }
      files := files[xml + "_bak" := files[xml]];
      files := files[xml := files[newFile]];
      return Done(());
    }

    /** The children of the element a path leads to, as a dictionary from tags to texts. */
    method GetChildren(xpath: string) returns (r: Outcome<seq<(string, string)>>)
      ensures r == match FindPath(root, xpath)
                   case None => Raised(XmlException)
                   case Some(p) => Done(ChildValues(At(root, p).children))
    {
      var p := FindPath(root, xpath);
      if p.None? {
        return Raised(XmlException);
      }
      var elements := At(root, p.value).children;
      var children := [];
      for i := 0 to |elements|
        invariant children == ChildValues(elements[..i])
      {
        assert elements[..i + 1][..i] == elements[..i];
        children := Put(children, elements[i].tag, elements[i].text);
      }
      assert elements[..|elements|] == elements;
      return Done(children);
    }
  }

  /** `values[tag] = text`, in a dictionary that keeps the order of first insertion. */
  function Put(values: seq<(string, string)>, tag: string, text: string): seq<(string, string)> {
    if values == [] then [(tag, text)]
    else if values[0].0 == tag then [(tag, text)] + values[1..]
    else [values[0]] + Put(values[1..], tag, text)
  }

  function ChildValues(children: seq<Tree>): seq<(string, string)> {
    if children == [] then []
    else
      var n := |children| - 1;
      Put(ChildValues(children[..n]), children[n].tag, children[n].text)
  }

  /** Once an item has failed the rest of the request is not looked at. */
  lemma {:induction false} SetItemsStop(lib: Library, xml: string, s: State, xpath: string, items: seq<string>, k: nat, isAttribute: bool)
    requires k < |items| && SetItems(lib, xml, s, xpath, items[..k + 1], isAttribute).1.Raised?
    ensures SetItems(lib, xml, s, xpath, items, isAttribute) == SetItems(lib, xml, s, xpath, items[..k + 1], isAttribute)
  {
    hide SetOne;
    if k + 1 == |items| {
      assert items[..k + 1] == items;
    } else {
      var n := |items| - 1;
      assert items[..n][..k + 1] == items[..k + 1];
      SetItemsStop(lib, xml, s, xpath, items[..n], k, isAttribute);
    }
  }

  lemma {:induction false} GetElementsStop(root: Tree, path: string, elements: seq<string>, k: nat, isAttribute: bool)
    requires k < |elements| && GetElements(root, path, elements[..k + 1], isAttribute).Raised?
    ensures GetElements(root, path, elements, isAttribute) == GetElements(root, path, elements[..k + 1], isAttribute)
  {
    hide GetOne;
    if k + 1 == |elements| {
      assert elements[..k + 1] == elements;
    } else {
      var n := |elements| - 1;
      assert elements[..n][..k + 1] == elements[..k + 1];
      GetElementsStop(root, path, elements[..n], k, isAttribute);
    }
  }

  datatype Command = SetCommand | AppendCommand | RemoveCommand

  /** A message of the command channel: what it gives of the command, a path, a value and a value string. */
  datatype Request = Request(cmd: Option<string>, path: Option<string>, value: Option<string>, valueString: Option<string>)

  /** The response published for a request: a value that was read, success, or a failure. */
  datatype Reply = ResponseText(text: string) | ResponseOk | ResponseFailed

  const ORCHESTRATOR := "orchestrator"

  /** `get_parent`: the section of the last element with that tag; the root has none (KeyError). */
  function GetParent(root: Tree, tag: string): Outcome<string> {
    if root.tag == tag then Raised(KeyError)
    else
      match LastParent(root, tag)
      case None => Raised(XmlException)
      case Some(header) => Done(header)
  }

  /** What a request does to the store once its section is known. */
  function Apply(lib: Library, xml: string, s: State, command: Command, header: string, item: string): (State, Outcome<string>) {
    match command
    case SetCommand => SetItems(lib, xml, s, header, Split(item, ','), Split1(item, ':')[0] == ORCHESTRATOR)
    case AppendCommand => Append(lib, xml, s, header, item)
    case RemoveCommand => Remove(lib, xml, s, header, item)
  }

  /** The failures `_execute` answers; an IndexError passes through it, after the answer OK has gone out. */
  function ReplyTo<T>(r: Outcome<T>): Reply {
    if r.Raised? && r.failure != IndexError then ResponseFailed else ResponseOk
  }

  /** The effect of one request with a value string: the store, the notifications, and the response. */
  function Execute(lib: Library, xml: string, s: State, command: Command, item: string): (State, seq<(string, string)>, Reply) {
    if item == "" then (s, [], ResponseFailed)
    else
      var header := GetParent(s.root, Split1(item, ':')[0]);
      if header.Raised? then (s, [], ResponseFailed)
      else if header.value == "" then (s, [], ResponseFailed)
      else
        var (s', r) := Apply(lib, xml, s, command, header.value, item);
        (s', if r.Done? then Decode(r.value).0 else [], ReplyTo(r))
  }

  predicate Given(field: Option<string>) {
    field.Some? && field.value != ""
  }

  /** The commands that change elements. */
  function CommandNamed(cmd: string): Option<Command> {
    if cmd == "set_element" then Some(SetCommand)
    else if cmd == "append" then Some(AppendCommand)
    else if cmd == "remove" then Some(RemoveCommand)
    else None
  }

  /** What is read for a request, once its section is known. */
  function Read(root: Tree, header: string, q: Request): Outcome<string> {
    if header != "" && Given(q.path) then
      var full := header + "/" + q.path.value;
      var value :- if q.path.value == ORCHESTRATOR then GetAttributeValue(root, full) else GetValue(root, full);
      Done(full + ":" + value)
    else if header != "" && Given(q.valueString) then
      GetElements(root, header, Split(q.valueString.value, ','), Split1(q.valueString.value, ':')[0] == ORCHESTRATOR)
    else Raised(ConfigurationException)
  }

  /** A change by path and value. The section does not enter into it, and `remove` drops the value. */
  function ApplyPath(lib: Library, xml: string, s: State, command: Command, path: string, value: string): (State, Outcome<string>) {
    match command
    case SetCommand =>
      var (s', r) := SetElementValue(lib, xml, s, path, value);
      (s', if r.Raised? then Raised(r.failure) else Done(value))
    case AppendCommand => Append(lib, xml, s, path, value)
    case RemoveCommand => Remove(lib, xml, s, path, "")
  }

  /** A change, once the section is known: the store, the notifications, and the response. */
  function Change(lib: Library, xml: string, s: State, command: Command, header: string, q: Request): (State, seq<(string, string)>, Reply) {
    if Given(q.path) && Given(q.value) then
      var (s', r) := ApplyPath(lib, xml, s, command, q.path.value, q.value.value);
      (s', if r.Done? then [(q.path.value, q.value.value)] else [], ReplyTo(r))
    else if header != "" && Given(q.valueString) then
      var (s', r) := Apply(lib, xml, s, command, header, q.valueString.value);
      (s', if r.Done? then Decode(r.value).0 else [], ReplyTo(r))
    else (s, [], ResponseFailed)
  }

  /** The sections whose values are announced when a file is loaded */
  const AGENTS := ["diagnostic", "telemetry", "dispatcher", "sota", "all"]

  function Under(agent: string, values: seq<(string, string)>): seq<(string, string)> {
    seq(|values|, i requires 0 <= i < |values| => (agent + "/" + values[i].0, values[i].1))
  }

  /** What is announced of a section. */
  function AgentValues(root: Tree, agent: string): seq<(string, string)> {
    match FindPath(root, agent)
    case None => []
    case Some(p) => Under(agent, ChildValues(At(root, p).children))
  }

  /** What is announced of the sections, up to the first that is missing, and whether none is. */
  function InitialValues(root: Tree, agents: seq<string>): (seq<(string, string)>, bool) {
    if agents == [] then ([], true)
    else if FindPath(root, agents[0]).None? then ([], false)
    else
      var (rest, ok) := InitialValues(root, agents[1..]);
      (AgentValues(root, agents[0]) + rest, ok)
  }

  lemma InitialValuesNext(root: Tree, agents: seq<string>, i: nat)
    requires i < |agents|
    ensures InitialValues(root, agents[i..]) ==
      if FindPath(root, agents[i]).None? then ([], false)
      else (AgentValues(root, agents[i]) + InitialValues(root, agents[i + 1..]).0, InitialValues(root, agents[i + 1..]).1)
    ensures FindPath(root, agents[i]).None? ==> AgentValues(root, agents[i]) == []
  {
    assert agents[i..][1..] == agents[i + 1..];
  }

  lemma InitialValuesNone(root: Tree, agents: seq<string>)
    requires agents == []
    ensures InitialValues(root, agents) == ([], true)
  {
  }

  lemma ConcatAssociates<T>(a: seq<T>, b: seq<T>, c: seq<T>)
    ensures a + (b + c) == a + b + c
  {
  }

  /** Without a path the load raises a TypeError, which is not answered as a failure either. */
  function LoadRequest(lib: Library, xml: string, s: State, path: Option<string>): (State, seq<(string, string)>, Reply) {
    match path
    case None => (s, [], ResponseOk)
    case Some(newFile) =>
      var (s', r) := Load(lib, xml, s, newFile);
      if r.Raised? then (s', [], ResponseFailed)
      else
        var (notices, ok) := InitialValues(s'.root, AGENTS);
        (s', notices, if ok then ResponseOk else ResponseFailed)
  }

  /** Any request: the store, the notifications, and the response. */
  function Serve(lib: Library, xml: string, s: State, q: Request): (State, seq<(string, string)>, Reply) {
    if q.cmd == Some("load") then LoadRequest(lib, xml, s, q.path)
    else if q.cmd.None? || (q.cmd.value != "get_element" && CommandNamed(q.cmd.value).None?) then (s, [], ResponseFailed)
    else
      var named := if Given(q.valueString) then q.valueString else q.path;
      if named.None? then (s, [], ResponseFailed)
      else
        var header := GetParent(s.root, Split1(named.value, ':')[0]);
        if header.Raised? then (s, [], ResponseFailed)
        else if q.cmd.value == "get_element" then
          var r := Read(s.root, header.value, q);
          (s, [], if r.Done? then ResponseText(r.value) else ReplyTo(r))
        else Change(lib, xml, s, CommandNamed(q.cmd.value).value, header.value, q)
  }

  /** A request that carries nothing but a value string, as the dispatcher sends them. */
  function ItemRequest(command: Command, item: string): Request {
    Request(Some(match command case SetCommand => "set_element" case AppendCommand => "append" case RemoveCommand => "remove"),
            None, None, Some(item))
  }

  lemma ServeItem(lib: Library, xml: string, s: State, command: Command, item: string)
    ensures Serve(lib, xml, s, ItemRequest(command, item)) == Execute(lib, xml, s, command, item)
  {
    hide Apply, Decode, GetParent, Split1;
  }

  class Broker {
    const store: XmlKeyValueStore
    /** the values published on the update channel, oldest first */
    var published: seq<(string, string)>

    constructor (store: XmlKeyValueStore)
      ensures this.store == store && published == []
    {
      this.store, published := store, [];
    }

    /** Publishes the announced values; a part without a colon ends it with an IndexError (false). */
    method PublishNewValues(paths: string) returns (ok: bool)
      modifies this`published
      ensures published == old(published) + Decode(paths).0 && ok == Decode(paths).1
    {
      var pathList := Split(paths, ';');
      var parts := pathList[..|pathList| - 1];
      var i := 0;
      while i < |parts|
        invariant i <= |parts|
        invariant published + DecodeParts(parts[i..]).0 == old(published) + DecodeParts(parts).0
        invariant DecodeParts(parts[i..]).1 == DecodeParts(parts).1
      {
        var pair := Split1(parts[i], ':');
        assert parts[i..][1..] == parts[i + 1..];
        if |pair| < 2 {
          return false;
        }
        assert published + ([(pair[0], pair[1])] + DecodeParts(parts[i + 1..]).0)
            == published + [(pair[0], pair[1])] + DecodeParts(parts[i + 1..]).0;
        published := published + [(pair[0], pair[1])];
        i := i + 1;
      }
      return true;
    }

    method PublishAgentValues(agent: string) returns (ok: bool)
      modifies this`published
      ensures ok == FindPath(store.root, agent).Some?
      ensures published == old(published) + AgentValues(store.root, agent)
    {
      var children := store.GetChildren(agent);
      if children.Raised? {
        return false;
      }
      var values := children.value;
      for i := 0 to |values|
        invariant published == old(published) + Under(agent, values)[..i]
      {
        published := published + [(agent + "/" + values[i].0, values[i].1)];
      }
      return true;
    }

    /** The values of the agents' sections; a missing section ends it with an XmlException (false). */
    method PublishInitialValues(agents: seq<string>) returns (ok: bool)
      modifies this`published
      ensures published == old(published) + InitialValues(store.root, agents).0 && ok == InitialValues(store.root, agents).1
    {
      hide *;
      for i := 0 to |agents|
        invariant published + InitialValues(store.root, agents[i..]).0 == old(published) + InitialValues(store.root, agents).0
        invariant InitialValues(store.root, agents[i..]).1 == InitialValues(store.root, agents).1
      {
        InitialValuesNext(store.root, agents, i);
        ConcatAssociates(published, AgentValues(store.root, agents[i]), InitialValues(store.root, agents[i + 1..]).0);
        var found := PublishAgentValues(agents[i]);
        if !found {
          return false;
        }
      }
      InitialValuesNone(store.root, agents[|agents|..]);
      return true;
    }

    method ReadElement(header: string, q: Request) returns (r: Outcome<string>)
      ensures r == Read(store.root, header, q)
    {
      if header != "" && Given(q.path) {
        var full := header + "/" + q.path.value;
        var value := if q.path.value == ORCHESTRATOR then GetAttributeValue(store.root, full) else GetValue(store.root, full);
        if value.Raised? {
          return value;
        }
        return Done(full + ":" + value.value);
      }
      if header != "" && Given(q.valueString) {
        var tag := Split1(q.valueString.value, ':')[0];
        r := store.GetElement(header, q.valueString.value, tag == ORCHESTRATOR);
        return;
      }
      return Raised(ConfigurationException);
    }

    method ChangeByPath(command: Command, path: string, value: string) returns (r: Outcome<string>)
      modifies store`root, store`files
      ensures (store.Now(), r) == ApplyPath(store.lib, store.xml, old(store.Now()), command, path, value)
    {
      match command {
        case SetCommand =>
          var p := FindPath(store.root, path);
          if p.None? {
            return Raised(XmlException);
          }
          var updated := store.UpdateFile(p.value, value, false);
          return if updated.Raised? then Raised(updated.failure) else Done(value);
        case AppendCommand =>
          r := store.AppendValue(path, value);
        case RemoveCommand =>
          r := store.RemoveValue(path, "");
      }
    }

    method ChangeByItems(command: Command, header: string, item: string) returns (r: Outcome<string>)
      modifies store`root, store`files
      ensures (store.Now(), r) == Apply(store.lib, store.xml, old(store.Now()), command, header, item)
    {
      match command {
        case SetCommand =>
          var tag := Split1(item, ':')[0];
          r := store.SetElement(header, item, tag == ORCHESTRATOR);
        case AppendCommand =>
          r := store.AppendValue(header, item);
        case RemoveCommand =>
          r := store.RemoveValue(header, item);
      }
    }

    method ChangeElement(command: Command, header: string, q: Request) returns (reply: Reply)
      modifies this`published, store`root, store`files
      ensures
        var (s, notices, r) := Change(store.lib, store.xml, old(store.Now()), command, header, q);
        store.Now() == s && published == old(published) + notices && reply == r
    {
      hide Apply, ApplyPath, Decode;
      var r: Outcome<string>;
      if Given(q.path) && Given(q.value) {
        r := ChangeByPath(command, q.path.value, q.value.value);
        if r.Done? {
          published := published + [(q.path.value, q.value.value)];
        }
        return ReplyTo(r);
      }
      if header == "" || !Given(q.valueString) {
        return ResponseFailed;
      }
      r := ChangeByItems(command, header, q.valueString.value);
      if r.Done? {
        var ok := PublishNewValues(r.value);
      }
      return ReplyTo(r);
    }

    method LoadAndPublish(path: Option<string>) returns (reply: Reply)
      modifies this`published, store`root, store`files
      ensures
        var (s, notices, r) := LoadRequest(store.lib, store.xml, old(store.Now()), path);
        store.Now() == s && published == old(published) + notices && reply == r
    {
      hide InitialValues, Load;
      if path.None? {
        return ResponseOk;
      }
      var loaded := store.LoadFile(path.value);
      if loaded.Raised? {
        return ResponseFailed;
      }
      var ok := PublishInitialValues(AGENTS);
      return if ok then ResponseOk else ResponseFailed;
    }

    /** One request of the command channel. */
    method ExecuteRequest(q: Request) returns (reply: Reply)
      modifies this`published, store`root, store`files
      ensures
        var (s, notices, r) := Serve(store.lib, store.xml, old(store.Now()), q);
        store.Now() == s && published == old(published) + notices && reply == r
    {
      hide Read, Change, LoadRequest, GetParent;
      if q.cmd == Some("load") {
        reply := LoadAndPublish(q.path);
        return;
      }
      if q.cmd.None? || (q.cmd.value != "get_element" && CommandNamed(q.cmd.value).None?) {
        return ResponseFailed;
      }
      var named := if Given(q.valueString) then q.valueString else q.path;
      if named.None? {
        return ResponseFailed;
      }
      var header := GetParent(store.root, Split1(named.value, ':')[0]);
      if header.Raised? {
        return ResponseFailed;
      }
      if q.cmd.value == "get_element" {
        var r := ReadElement(header.value, q);
        return if r.Done? then ResponseText(r.value) else ReplyTo(r);
      }
      reply := ChangeElement(CommandNamed(q.cmd.value).value, header.value, q);
    }
  }

  /** An item whose comma-separated parts all name an element. */
  predicate WellFormed(item: string) {
    forall part <- Split(item, ',') :: ':' in part
  }

  /** A set request for texts, not for the orchestrator attribute, whose section has a plain name. */
  predicate SetsTexts(s: State, item: string) {
    item != "" && Split1(item, ':')[0] != ORCHESTRATOR
    && var header := GetParent(s.root, Split1(item, ':')[0]); header.Done? && PlainName(header.value)
  }

  /** A part without a colon is reached: it has no value, and every part before it is written. */
  ghost predicate StopsWithoutValue(lib: Library, xml: string, s: State, xpath: string, items: seq<string>, isAttribute: bool) {
    exists k | 0 <= k < |items| :: ':' !in items[k] && SetItems(lib, xml, s, xpath, items[..k], isAttribute).1.Done?
  }

  lemma SplitColon(item: string)
    ensures |Split1(item, ':')| == 2 <==> ':' in item
  {
    var n := IndexOf(item, ':');
    assert item == item[..n] + item[n..];
  }

  /** A part without a colon stops the request if one before does, or everything before is written and the last has none. */
  lemma StopsAtLast(lib: Library, xml: string, s: State, xpath: string, items: seq<string>, item: string, isAttribute: bool)
    ensures StopsWithoutValue(lib, xml, s, xpath, items + [item], isAttribute)
       <==> StopsWithoutValue(lib, xml, s, xpath, items, isAttribute)
            || (':' !in item && SetItems(lib, xml, s, xpath, items, isAttribute).1.Done?)
  {
    hide SetItems;
    var n, all := |items|, items + [item];
    assert all[..n] == items && all[n] == item;
    assert forall k | 0 <= k < n :: all[k] == items[k] && all[..k] == items[..k];
    if StopsWithoutValue(lib, xml, s, xpath, items, isAttribute) {
      var k :| 0 <= k < n && ':' !in items[k] && SetItems(lib, xml, s, xpath, items[..k], isAttribute).1.Done?;
      assert ':' !in all[k] && SetItems(lib, xml, s, xpath, all[..k], isAttribute).1.Done?;
    }
  }

  /** An IndexError comes from such a part and from nothing else. */
  lemma {:induction false} IndexErrorExactly(lib: Library, xml: string, s: State, xpath: string, items: seq<string>, isAttribute: bool)
    ensures SetItems(lib, xml, s, xpath, items, isAttribute).1 == Raised(IndexError)
       <==> StopsWithoutValue(lib, xml, s, xpath, items, isAttribute)
    ensures SetItems(lib, xml, s, xpath, items, isAttribute).1.Done? ==> forall item <- items :: ':' in item
  {
    hide SetOne, Split1, StopsWithoutValue;
    if items == [] {
      NothingStops(lib, xml, s, xpath, isAttribute);
    } else {
      var n := |items| - 1;
      IndexErrorExactly(lib, xml, s, xpath, items[..n], isAttribute);
      assert items == items[..n] + [items[n]];
      StopsAtLast(lib, xml, s, xpath, items[..n], items[n], isAttribute);
      SplitColon(items[n]);
      UpdateFailures(lib, xml, SetItems(lib, xml, s, xpath, items[..n], isAttribute).0, xpath, items[n], isAttribute);
    }
  }

  lemma NothingStops(lib: Library, xml: string, s: State, xpath: string, isAttribute: bool)
    ensures !StopsWithoutValue(lib, xml, s, xpath, [], isAttribute)
  {
  }

  lemma UpdateFailures(lib: Library, xml: string, s: State, xpath: string, item: string, isAttribute: bool)
    ensures SetOne(lib, xml, s, xpath, item, isAttribute).1 == Raised(IndexError) <==> |Split1(item, ':')| < 2
  {
  }

  /** A character that is not dropped survives stripping. */
  lemma {:induction false} LStripSurvives(s: string, drop: char -> bool, c: char)
    requires c in s && !drop(c)
    ensures c in LStrip(s, drop)
  {
    if drop(s[0]) {
      assert s == [s[0]] + s[1..];
      LStripSurvives(s[1..], drop, c);
    }
  }

  lemma {:induction false} RStripSurvives(s: string, drop: char -> bool, c: char)
    requires c in s && !drop(c)
    ensures c in RStrip(s, drop)
  {
    var n := |s| - 1;
    if drop(s[n]) {
      assert s == s[..n] + [s[n]];
      RStripSurvives(s[..n], drop, c);
    }
  }

  lemma StripSurvives(s: string, drop: char -> bool, c: char)
    requires c in s && !drop(c)
    ensures c in StripChars(s, drop)
  {
    LStripSurvives(s, drop, c);
    RStripSurvives(LStrip(s, drop), drop, c);
  }

  /** The printed elements begin with the first, and so with the section. */
  lemma {:induction false} PrintedBegins(root: Tree, path: string, elements: seq<string>)
    requires elements != [] && GetElements(root, path, elements, false).Done?
    ensures "{" + path + "/" <= GetElements(root, path, elements, false).value
    ensures ':' in GetElements(root, path, elements, false).value
  {
    hide FindPath, StripChars, Split1;
    var n := |elements| - 1;
    assert elements[..n] + [elements[n]] == elements;
    if n > 0 {
      PrintedBegins(root, path, elements[..n]);
      var before := GetElements(root, path, elements[..n], false).value;
      assert before <= GetElements(root, path, elements, false).value;
    } else {
      var printed := GetElements(root, path, elements, false).value;
      assert GetElements(root, path, elements[..0], false) == Done("");
      var name := StripChars(Split1(elements[0], ':')[0], IsQuote);
      var head := "{" + path + "/" + name;
      assert head + ":" <= printed && printed[|head|] == ':';
    }
  }

  /** A request to append or remove is cut short by a missing value exactly when the item has no colon. */
  lemma RequestIndexError(root: Tree, path: string, item: string)
    requires ':' !in path
    ensures AppendRequest(root, path, item) == Raised(IndexError)
       <==> ':' !in item && GetElements(root, path, Split(item, ','), false).Done?
    ensures RemoveRequest(root, path, item) == Raised(IndexError)
       <==> ':' !in item && GetElements(root, path, Split(item, ','), false).Done?
  {
    hide GetElements, Split, TrimmedLines, Join, RemoveFirst, StripChars;
    var elements := Split(item, ',');
    var printed := GetElements(root, path, elements, false);
    SplitColon(item);
    if printed.Done? {
      PrintedBegins(root, path, elements);
      RequestParts(path, printed.value);
    } else {
      GetFailures(root, path, elements);
    }
  }

  lemma {:induction false} GetFailures(root: Tree, path: string, elements: seq<string>)
    ensures GetElements(root, path, elements, false) != Raised(IndexError)
  {
    hide FindPath, StripChars, Split1;
    if elements != [] {
      GetFailures(root, path, elements[..|elements| - 1]);
    }
  }

  lemma RequestParts(path: string, printed: string)
    requires ':' !in path && "{" + path + "/" <= printed && ':' in printed
    ensures |Split1(Body(printed), '/')| == 2 && |Split1(Body(printed), ':')| == 2
    ensures |Split1(HeaderPath(printed), '/')| == 2
  {
    var head := "{" + path + "/";
    assert head[|head| - 1] == '/' && printed[|head| - 1] == '/';
    var bare := StripChars(printed, IsOpen);
    StripSurvives(printed, IsOpen, '/');
    StripSurvives(printed, IsOpen, ':');
    StripSurvives(bare, IsCloseOrComma, '/');
    StripSurvives(bare, IsCloseOrComma, ':');
    SplitColon(Body(printed));
    SplitSlash(Body(printed));
    HeaderSlash(path, printed);
    SplitSlash(HeaderPath(printed));
  }

  lemma SplitSlash(item: string)
    ensures |Split1(item, '/')| == 2 <==> '/' in item
  {
    var n := IndexOf(item, '/');
    assert item == item[..n] + item[n..];
  }

  /** Up to the first colon there is a slash. */
  ghost predicate SlashFirst(s: string) {
    '/' in s && forall i | 0 <= i < IndexOf(s, '/') :: s[i] != ':'
  }

  lemma {:induction false} LStripSlash(s: string, drop: char -> bool)
    requires SlashFirst(s) && !drop('/')
    ensures SlashFirst(LStrip(s, drop))
  {
    if drop(s[0]) {
      var n := IndexOf(s, '/');
      assert s[1..] == s[1..n] + [s[n]] + s[n + 1..];
      IndexOfAppend(s[1..n], '/', s[n + 1..]);
      LStripSlash(s[1..], drop);
    }
  }

  lemma RStripSlash(s: string, drop: char -> bool)
    requires SlashFirst(s) && !drop('/')
    ensures SlashFirst(RStrip(s, drop))
  {
    RStripSurvives(s, drop, '/');
    var n := IndexOf(s, '/');
    var r := RStrip(s, drop);
    RStripPrefix(s, drop);
    var m := IndexOf(r, '/');
    assert m < |r| && r[m] == s[m];
    IndexOfLeast(s, '/', m);
    IndexOfLeast(r, '/', n);
  }

  lemma {:induction false} RStripPrefix(s: string, drop: char -> bool)
    ensures RStrip(s, drop) <= s
  {
    if s != "" && drop(s[|s| - 1]) {
      RStripPrefix(s[..|s| - 1], drop);
    }
  }

  lemma HeaderSlash(path: string, printed: string)
    requires ':' !in path && "{" + path + "/" <= printed
    ensures '/' in HeaderPath(printed)
  {
    var head := "{" + path + "/";
    var n := IndexOf(printed, '/');
    assert head[|head| - 1] == '/' && printed[|head| - 1] == '/';
    IndexOfLeast(printed, '/', |head| - 1);
    forall i | 0 <= i < n
      ensures printed[i] != ':'
    {
      assert printed[i] == head[i] && head[0] == '{';
      if i > 0 {
        assert head[i] == path[i - 1];
      }
    }
    assert SlashFirst(printed);
    var bare := StripChars(printed, IsOpen);
    LStripSlash(printed, IsOpen);
    RStripSlash(LStrip(printed, IsOpen), IsOpen);
    LStripSlash(bare, IsClose);
    RStripSlash(LStrip(bare, IsClose), IsClose);
    var t := StripChars(bare, IsClose);
    var m, k := IndexOf(t, ':'), IndexOf(t, '/');
    assert Split1(t, ':')[0] == t[..m];
    assert k < m ==> t[..m][k] == '/';
  }

  /** What makes a request stop short and still be answered OK. */
  ghost predicate MissesValue(lib: Library, xml: string, s: State, command: Command, header: string, item: string) {
    match command
    case SetCommand => StopsWithoutValue(lib, xml, s, header, Split(item, ','), Split1(item, ':')[0] == ORCHESTRATOR)
    case AppendCommand => RequestMisses(lib, xml, s, header, item, AppendRequest(s.root, header, item))
    case RemoveCommand => RequestMisses(lib, xml, s, header, item, RemoveRequest(s.root, header, item))
  }

  ghost predicate RequestMisses(lib: Library, xml: string, s: State, header: string, item: string, request: Outcome<(string, string)>) {
    || (':' !in item && GetElements(s.root, header, Split(item, ','), false).Done?)
    || (request.Done? && StopsWithoutValue(lib, xml, s, request.value.0, Split(request.value.1, ','), false))
  }

  lemma ApplyIndexError(lib: Library, xml: string, s: State, command: Command, header: string, item: string)
    requires ':' !in header
    ensures Apply(lib, xml, s, command, header, item).1 == Raised(IndexError) <==> MissesValue(lib, xml, s, command, header, item)
  {
    hide SetItems, StopsWithoutValue, AppendRequest, RemoveRequest, GetElements, Split;
    match command
    case SetCommand =>
      IndexErrorExactly(lib, xml, s, header, Split(item, ','), Split1(item, ':')[0] == ORCHESTRATOR);
    case AppendCommand =>
      RequestIndexError(s.root, header, item);
      var request := AppendRequest(s.root, header, item);
      if request.Done? {
        IndexErrorExactly(lib, xml, s, request.value.0, Split(request.value.1, ','), false);
        RequestHasColon(s.root, header, item);
      }
    case RemoveCommand =>
      RequestIndexError(s.root, header, item);
      var request := RemoveRequest(s.root, header, item);
      if request.Done? {
        IndexErrorExactly(lib, xml, s, request.value.0, Split(request.value.1, ','), false);
        RequestHasColon(s.root, header, item);
      }
  }

  lemma RequestHasColon(root: Tree, path: string, item: string)
    ensures AppendRequest(root, path, item).Done? || RemoveRequest(root, path, item).Done? ==> ':' in item
  {
    hide GetElements, Split, TrimmedLines, Join, RemoveFirst, StripChars;
    SplitColon(item);
  }

  /**
   * The answer OK, exactly: the section is found, and the request is carried out or stops at a missing
   * value. In the second case nothing is announced.
   */
  lemma AnsweredOk(lib: Library, xml: string, s: State, command: Command, item: string)
    requires var header := GetParent(s.root, Split1(item, ':')[0]); header.Done? ==> ':' !in header.value
    ensures
      var header := GetParent(s.root, Split1(item, ':')[0]);
      var (s', notices, reply) := Execute(lib, xml, s, command, item);
      && (reply == ResponseOk <==>
            && item != "" && header.Done? && header.value != ""
            && (Apply(lib, xml, s, command, header.value, item).1.Done? || MissesValue(lib, xml, s, command, header.value, item)))
      && (reply == ResponseOk && !Apply(lib, xml, s, command, header.value, item).1.Done? ==> notices == [])
  {
    hide Apply, MissesValue, GetParent, Decode;
    var header := GetParent(s.root, Split1(item, ':')[0]);
    if header.Done? {
      ApplyIndexError(lib, xml, s, command, header.value, item);
    }
  }

  /**
   * A set request for texts. The response is OK exactly when every part has been written or a part
   * without a value is reached; the notifications are exactly the writes, in order, in the first case
   * and none otherwise, provided no path or value holds a semicolon. Whenever not every part has been
   * written, the parts before the one that stopped it have been.
   */
  lemma SetRequestAnswered(lib: Library, xml: string, s: State, item: string)
    requires Lawful(lib) && Sound(lib, xml, s)
    requires SetsTexts(s, item) && ';' !in item
    ensures
      var header := GetParent(s.root, Split1(item, ':')[0]).value;
      var items := Split(item, ',');
      var (s', notices, reply) := Execute(lib, xml, s, SetCommand, item);
      var written := SetItems(lib, xml, s, header, items, false).1.Done?;
      && Sound(lib, xml, s')
      && (reply == ResponseOk <==> written || StopsWithoutValue(lib, xml, s, header, items, false))
      && (written ==> WellFormed(item))
      && notices == (if written then Writes(header, items) else [])
      && (!written ==> exists k | 0 <= k < |items| ::
            SetItems(lib, xml, s, header, items[..k], false).1.Done?
            && s'.root == SetItems(lib, xml, s, header, items[..k], false).0.root)
  {
    hide SetItems, Decode, StopsWithoutValue;
    var header := GetParent(s.root, Split1(item, ':')[0]).value;
    var items := Split(item, ',');
    IndexErrorExactly(lib, xml, s, header, items, false);
    var k := SetItemsSound(lib, xml, s, header, items);
    if SetItems(lib, xml, s, header, items, false).1.Done? {
      SetItemsAnnounce(lib, xml, s, header, items, false);
      WritesPlain(header, item);
      DecodeEncode(Writes(header, items));
    }
  }

  lemma WritesPlain(header: string, item: string)
    requires PlainName(header) && ';' !in item
    ensures forall w <- Writes(header, Split(item, ',')) :: PlainWrite(w)
  {
    SplitPartsSubset(item, ',', ';');
    forall i | 0 <= i < |Split(item, ',')|
      ensures PlainWrite(WriteOf(header, Split(item, ',')[i]))
    {
      var part := Split(item, ',')[i];
      assert part in Split(item, ',');
      var n := IndexOf(part, ':');
      assert ':' !in part[..n] && ';' !in part[..n];
      assert n == |part| ==> part[..n] == part;
    }
  }

  lemma {:induction false} SplitPartsSubset(s: string, c: char, d: char)
    requires d !in s
    ensures forall part <- Split(s, c) :: d !in part
    decreases |s|
  {
    var n := IndexOf(s, c);
    if n < |s| {
      SplitPartsSubset(s[n + 1..], c, d);
    }
  }

  lemma UpdateKeepsSections(lib: Library, xml: string, s: State, p: Position, value: string, tag: string)
    requires ValidPosition(s.root, p)
    ensures GetParent(UpdateText(lib, xml, s, p, value).0.root, tag) == GetParent(s.root, tag)
  {
    var root := SetText(s.root, p, value);
    LastParentUnaffected(s.root, p, value, At(s.root, p).name, |s.root.children|, tag);
    SetAtElsewhere(s.root, p, value, At(s.root, p).name, p);
    LastParentUnaffected(root, p, At(s.root, p).text, At(root, p).name, |root.children|, tag);
  }

  /** Setting texts moves no element to another section. */
  lemma {:induction false} SetItemsKeepSections(lib: Library, xml: string, s: State, xpath: string, items: seq<string>, tag: string)
    ensures GetParent(SetItems(lib, xml, s, xpath, items, false).0.root, tag) == GetParent(s.root, tag)
  {
    hide GetParent, UpdateText, FindPath;
    if items != [] {
      var n := |items| - 1;
      SetItemsKeepSections(lib, xml, s, xpath, items[..n], tag);
      var s1 := SetItems(lib, xml, s, xpath, items[..n], false).0;
      var pair := Split1(items[n], ':');
      if |pair| == 2 {
        var p := FindPath(s1.root, xpath + "/" + pair[0]);
        if p.Some? {
          UpdateKeepsSections(lib, xml, s1, p.value, pair[1], tag);
        }
      }
    }
  }
}
