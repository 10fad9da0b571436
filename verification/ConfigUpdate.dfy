/** The dispatcher operation that sends configuration requests to the agent, item by item. */
module ConfigUpdate {
  import opened ConfigAgent
  import opened ConfigRequests
  import opened ConfigStore
  import opened ConfigText
  import opened ConfigTree
  import opened Options
  import opened PyStrings

  /** The elements the dispatcher lets `append` and `remove` act on */
  const APPEND_REMOVE_PATHS: set<string> := {"sotaSW", "trustedRepositories"}

  datatype UpdateResult = UpdateOk | UpdateFailed | UpdateRaises

  /** Requests one after the other: the store, everything published, and whether all were answered OK. */
  function RunItems(lib: Library, xml: string, command: Command, s: State, items: seq<string>): (State, seq<(string, string)>, bool) {
    if items == [] then (s, [], true)
    else
      var n := |items| - 1;
      var (s1, notices1, ok1) := RunItems(lib, xml, command, s, items[..n]);
      var (s2, notices2, reply) := Execute(lib, xml, s1, command, items[n]);
      (s2, notices1 + notices2, ok1 && reply == ResponseOk)
  }

  lemma RunItemsNext(lib: Library, xml: string, command: Command, s: State, items: seq<string>, n: nat)
    requires n < |items|
    ensures
      var (s1, notices1, ok1) := RunItems(lib, xml, command, s, items[..n]);
      var (s2, notices2, reply) := Execute(lib, xml, s1, command, items[n]);
      RunItems(lib, xml, command, s, items[..n + 1]) == (s2, notices1 + notices2, ok1 && reply == ResponseOk)
  {
    hide Execute;
    assert items[..n + 1][..n] == items[..n];
  }

  /** The agent's store and what it has published, after some of the items. */
  ghost predicate Ran(broker: Broker, command: Command, s: State, published: seq<(string, string)>, items: seq<string>, ok: bool)
    reads broker, broker.store
  {
    var (s', notices, ok') := RunItems(broker.store.lib, broker.store.xml, command, s, items);
    broker.store.Now() == s' && broker.published == published + notices && ok == ok'
  }

  /** Sends one item, after others that were all answered OK. */
  method SendItem(broker: Broker, command: Command, items: seq<string>, n: nat, ghost s: State, ghost published: seq<(string, string)>)
    returns (ok: bool)
    requires n < |items| && Ran(broker, command, s, published, items[..n], true)
    modifies broker`published, broker.store`root, broker.store`files
    ensures Ran(broker, command, s, published, items[..n + 1], ok)
  {
    hide Execute, RunItems, Serve;
    RunItemsNext(broker.store.lib, broker.store.xml, command, s, items, n);
    ServeItem(broker.store.lib, broker.store.xml, broker.store.Now(), command, items[n]);
    var reply := broker.ExecuteRequest(ItemRequest(command, items[n]));
    ok := reply == ResponseOk;
  }

  /** The text of an element after requests to append to it or to remove from it. */
  function TextAfter(command: Command, text: string, items: seq<string>, name: string): string {
    if items == [] then text
    else
      var n := |items| - 1;
      var before := TextAfter(command, text, items[..n], name);
      if ItemName(items[n]) != name then before
      else if command == AppendCommand then before + "\n\t    " + ItemValue(items[n]) + "\n\t"
      else RemovedText(before, ItemValue(items[n]))
  }

  /** The entries it lists then. */
  function EntriesAfter(command: Command, entries: seq<string>, items: seq<string>, name: string): seq<string> {
    if items == [] then entries
    else
      var n := |items| - 1;
      var before := EntriesAfter(command, entries, items[..n], name);
      if ItemName(items[n]) != name then before
      else if command == AppendCommand then before + Entries(ItemValue(items[n]))
      else RemoveFirst(before, ItemValue(items[n]))
  }

  lemma {:induction false} TextLists(command: Command, text: string, items: seq<string>, name: string)
    ensures Entries(TextAfter(command, text, items, name)) == EntriesAfter(command, Entries(text), items, name)
  {
    hide Entries, RemoveFirst, ItemName, ItemValue, Join, TrimmedLines;
    if items != [] {
      var n := |items| - 1;
      TextLists(command, text, items[..n], name);
      var before := TextAfter(command, text, items[..n], name);
      EntriesAppended(before, ItemValue(items[n]));
      EntriesRemoved(before, ItemValue(items[n]));
    }
  }

  /** A request for one list element, whose value holds no comma. */
  ghost predicate ListItem(root: Tree, item: string) {
    ':' in item && ',' !in item && exists header, p :: Lists(root, header, ItemName(item), p)
  }

  lemma ItemParts(item: string)
    requires ':' in item && ',' !in item
    ensures item == ItemName(item) + ":" + ItemValue(item) && ',' !in ItemValue(item)
  {
    SplitColon(item);
    var n := IndexOf(item, ':');
    assert item == item[..n] + [item[n]] + item[n + 1..];
  }

  lemma ListableAfter(text: string, v: string)
    requires Listable(text) && ',' !in v
    ensures Listable(text + "\n\t    " + v + "\n\t") && Listable(RemovedText(text, v))
  {
    RemovedTextFree(text, v, ',');
    var removed := RemovedText(text, v);
    assert removed[|removed| - 1] == TERMINATOR[1];
  }

  lemma TextAfterOne(command: Command, text: string, item: string, name: string)
    ensures TextAfter(command, text, [item], name) ==
      if ItemName(item) != name then text
      else if command == AppendCommand then text + "\n\t    " + ItemValue(item) + "\n\t"
      else RemovedText(text, ItemValue(item))
  {
    hide RemovedText, ItemName, ItemValue;
    assert [item][..0] == [];
    assert TextAfter(command, text, [], name) == text;
  }

  /** What one such request does to the text of the element it names. */
  lemma OwnStep(lib: Library, xml: string, s: State, command: Command, item: string, header: string, p: Position)
    requires Lawful(lib) && Sound(lib, xml, s) && command != SetCommand && ':' in item && ',' !in item
    requires Lists(s.root, header, ItemName(item), p)
    ensures
      var (s', notices, reply) := Execute(lib, xml, s, command, item);
      var text' := TextAfter(command, At(s.root, p).text, [item], ItemName(item));
      && Sound(lib, xml, s') && Listable(text')
      && s'.root == (if reply == ResponseOk then SetText(s.root, p, text') else s.root)
      && (if reply == ResponseOk then notices == [(header + "/" + ItemName(item), text')] <==> ';' !in text' else notices == [])
  {
    hide GetParent, Serve, Execute, Sound, Lawful, Entries, RemovedText, ItemName, ItemValue, TextAfter, OthersKept, Listable, TrimmedLines;
    var name, v := ItemName(item), ItemValue(item);
    ItemParts(item);
    ServeItem(lib, xml, s, command, item);
    ListableOf(s.root, header, name, p);
    ListableAfter(At(s.root, p).text, v);
    TextAfterOne(command, At(s.root, p).text, item, name);
    if command == AppendCommand {
      AppendServed(lib, xml, s, header, name, v, p);
    } else {
      RemoveServed(lib, xml, s, header, name, v, p);
    }
  }

  lemma ListableOf(root: Tree, header: string, name: string, p: Position)
    requires Lists(root, header, name, p)
    ensures ValidPosition(root, p) && Listable(At(root, p).text)
  {
  }

  /** One such request: what becomes of any list element. */
  lemma ListStep(lib: Library, xml: string, s: State, command: Command, item: string, header: string, name: string, q: Position)
    requires Lawful(lib) && Sound(lib, xml, s) && command != SetCommand && ListItem(s.root, item) && Lists(s.root, header, name, q)
    ensures
      var (s', _, reply) := Execute(lib, xml, s, command, item);
      var text := At(s.root, q).text;
      && Sound(lib, xml, s') && Lists(s'.root, header, name, q) && ValidPosition(s'.root, q)
      && At(s'.root, q).text == if reply == ResponseOk then TextAfter(command, text, [item], name) else text
  {
    hide GetParent, Execute, Sound, Lawful, ItemName, TextAfter, Listable, Lists, RemovedText, ItemValue;
    var header0, p :| Lists(s.root, header0, ItemName(item), p);
    ListableOf(s.root, header0, ItemName(item), p);
    ListableOf(s.root, header, name, q);
    OwnStep(lib, xml, s, command, item, header0, p);
    ListsDiffer(s.root, header, name, q, header0, ItemName(item), p);
    TextAfterOne(command, At(s.root, q).text, item, name);
    var text' := TextAfter(command, At(s.root, p).text, [item], ItemName(item));
    ListsKept(lib, xml, s, p, text', header, name, q);
    SetAtElsewhere(s.root, p, text', At(s.root, p).name, q);
  }

  lemma {:induction false} TextAfterNext(command: Command, text: string, items: seq<string>, item: string, name: string)
    ensures TextAfter(command, text, items + [item], name) == TextAfter(command, TextAfter(command, text, items, name), [item], name)
  {
    hide ItemName, ItemValue, RemovedText;
    assert (items + [item])[..|items|] == items;
    TextAfterOne(command, TextAfter(command, text, items, name), item, name);
  }

  /** Such requests one after the other, all answered OK: what becomes of any list element, and that the requests stay such. */
  lemma {:induction false} ListRun(lib: Library, xml: string, s: State, command: Command, items: seq<string>, header: string, name: string, q: Position)
    requires Lawful(lib) && Sound(lib, xml, s) && command != SetCommand && RunItems(lib, xml, command, s, items).2
    requires (forall item <- items :: ListItem(s.root, item)) && Lists(s.root, header, name, q)
    ensures
      var s' := RunItems(lib, xml, command, s, items).0;
      && Sound(lib, xml, s') && Lists(s'.root, header, name, q) && ValidPosition(s'.root, q)
      && At(s'.root, q).text == TextAfter(command, At(s.root, q).text, items, name)
    decreases |items|, 0
  {
    hide GetParent, Execute, Sound, Lawful, ItemName, TextAfter, Listable, Lists, ListItem;
    ListableOf(s.root, header, name, q);
    if items == [] {
      NoItemsText(command, At(s.root, q).text, name);
    } else {
      var n := |items| - 1;
      ListRun(lib, xml, s, command, items[..n], header, name, q);
      assert items[n] in items;
      ItemsStay(lib, xml, s, command, items[..n], items[n]);
      var s1 := RunItems(lib, xml, command, s, items[..n]).0;
      ListStep(lib, xml, s1, command, items[n], header, name, q);
      assert items == items[..n] + [items[n]];
      TextAfterNext(command, At(s.root, q).text, items[..n], items[n], name);
    }
  }

  lemma NoItemsText(command: Command, text: string, name: string)
    ensures TextAfter(command, text, [], name) == text
  {
  }

  lemma {:induction false} ItemsStay(lib: Library, xml: string, s: State, command: Command, items: seq<string>, item: string)
    requires Lawful(lib) && Sound(lib, xml, s) && command != SetCommand && RunItems(lib, xml, command, s, items).2
    requires (forall item <- items :: ListItem(s.root, item)) && ListItem(s.root, item)
    ensures ListItem(RunItems(lib, xml, command, s, items).0.root, item)
    decreases |items|, 1
  {
    hide GetParent, Execute, Sound, Lawful, ItemName, TextAfter, Listable, Lists, RunItems;
    var header, p :| Lists(s.root, header, ItemName(item), p);
    ListRun(lib, xml, s, command, items, header, ItemName(item), p);
  }

  /** What is announced of such requests: each time the new text of the element. */
  function Told(command: Command, root: Tree, items: seq<string>): seq<(string, string)> {
    if items == [] then []
    else
      var name := ItemName(items[|items| - 1]);
      Told(command, root, items[..|items| - 1])
      + match GetParent(root, name)
        case Raised(_) => []
        case Done(header) =>
          match FindPath(root, header + "/" + name)
          case None => []
          case Some(p) => [(header + "/" + name, TextAfter(command, At(root, p).text, items, name))]
  }

  /** The texts of the list elements that an item names hold no semicolon. */
  ghost predicate NoSemicolon(root: Tree, item: string) {
    ';' !in item && forall header, p | Lists(root, header, ItemName(item), p) :: ';' !in At(root, p).text
  }

  lemma {:induction false} TextAfterFree(command: Command, text: string, items: seq<string>, name: string)
    requires ';' !in text && forall item <- items :: ';' !in item
    ensures ';' !in TextAfter(command, text, items, name)
  {
    hide RemovedText;
    if items != [] {
      var n := |items| - 1;
      TextAfterFree(command, text, items[..n], name);
      assert items[n] in items;
      RemovedTextFree(TextAfter(command, text, items[..n], name), ItemValue(items[n]), ';');
    }
  }

  lemma ToldLast(command: Command, root: Tree, items: seq<string>, item: string, header: string, p: Position)
    requires Lists(root, header, ItemName(item), p)
    ensures ValidPosition(root, p)
    ensures Told(command, root, items + [item])
         == Told(command, root, items) + [(header + "/" + ItemName(item), TextAfter(command, At(root, p).text, items + [item], ItemName(item)))]
  {
    hide GetParent, ItemName, TextAfter, FirstIn;
    assert (items + [item])[..|items|] == items;
    PathOf(root, header, ItemName(item));
  }

  /** Requests that are all answered OK announce exactly that. */
  lemma {:induction false} ToldRun(lib: Library, xml: string, s: State, command: Command, items: seq<string>)
    requires Lawful(lib) && Sound(lib, xml, s) && command != SetCommand && RunItems(lib, xml, command, s, items).2
    requires forall item <- items :: ListItem(s.root, item) && NoSemicolon(s.root, item)
    ensures RunItems(lib, xml, command, s, items).1 == Told(command, s.root, items)
  {
    hide GetParent, Execute, Sound, Lawful, ItemName, TextAfter, Listable, Lists, ListItem;
    if items != [] {
      var n := |items| - 1;
      var item := items[n];
      assert item in items && items == items[..n] + [item];
      ToldRun(lib, xml, s, command, items[..n]);
      var s1 := RunItems(lib, xml, command, s, items[..n]).0;
      ItemLists(s.root, item);
      var header, p :| Lists(s.root, header, ItemName(item), p);
      ListableOf(s.root, header, ItemName(item), p);
      ListRun(lib, xml, s, command, items[..n], header, ItemName(item), p);
      OwnStep(lib, xml, s1, command, item, header, p);
      TextAfterNext(command, At(s.root, p).text, items[..n], item, ItemName(item));
      TextAfterFree(command, At(s.root, p).text, items, ItemName(item));
      ToldLast(command, s.root, items[..n], item, header, p);
    }
  }

  lemma ItemLists(root: Tree, item: string)
    requires ListItem(root, item)
    ensures ':' in item && ',' !in item && exists header, p :: Lists(root, header, ItemName(item), p)
  {
  }

  /** What accepted requests to append or to remove have done: to every list element, and to the agents. */
  ghost predicate Listed(command: Command, s: State, published: seq<(string, string)>, items: seq<string>, root': Tree, published': seq<(string, string)>) {
    && (forall header, name, p | Lists(s.root, header, name, p) ::
          ValidPosition(root', p)
          && Entries(At(root', p).text) == EntriesAfter(command, Entries(At(s.root, p).text), items, name))
    && ((forall item <- items :: NoSemicolon(s.root, item)) ==> published' == published + Told(command, s.root, items))
  }

  lemma RunListed(lib: Library, xml: string, s: State, command: Command, items: seq<string>, published: seq<(string, string)>)
    requires Lawful(lib) && Sound(lib, xml, s) && command != SetCommand && RunItems(lib, xml, command, s, items).2
    requires forall item <- items :: ListItem(s.root, item)
    ensures
      var (s', notices, _) := RunItems(lib, xml, command, s, items);
      Sound(lib, xml, s') && Listed(command, s, published, items, s'.root, published + notices)
  {
    hide Sound, Lawful, Lists, ListItem, RunItems, Entries, EntriesAfter, NoSemicolon, Told;
    var s' := RunItems(lib, xml, command, s, items).0;
    RunSoundly(lib, xml, s, command, items);
    forall header, name, p | Lists(s.root, header, name, p)
      ensures ValidPosition(s.root, p) && ValidPosition(s'.root, p)
      ensures Entries(At(s'.root, p).text) == EntriesAfter(command, Entries(At(s.root, p).text), items, name)
    {
      ListableOf(s.root, header, name, p);
      ListRun(lib, xml, s, command, items, header, name, p);
      TextLists(command, At(s.root, p).text, items, name);
    }
    if forall item <- items :: NoSemicolon(s.root, item) {
      ToldRun(lib, xml, s, command, items);
    }
  }

  lemma RunSoundly(lib: Library, xml: string, s: State, command: Command, items: seq<string>)
    requires Lawful(lib) && Sound(lib, xml, s) && command != SetCommand && RunItems(lib, xml, command, s, items).2
    requires forall item <- items :: ListItem(s.root, item)
    ensures Sound(lib, xml, RunItems(lib, xml, command, s, items).0)
  {
    hide Sound, Lawful, Lists, ItemName, Execute;
    if items != [] {
      ItemLists(s.root, items[0]);
      var header, p :| Lists(s.root, header, ItemName(items[0]), p);
      ListRun(lib, xml, s, command, items, header, ItemName(items[0]), p);
    }
  }

  /** The update, wherever it ended: a refused request has done nothing. */
  lemma RanListed(broker: Broker, command: Command, s: State, published: seq<(string, string)>, items: seq<string>, sent: nat, refused: bool)
    requires command != SetCommand && sent <= |items| && Ran(broker, command, s, published, items[..sent], !refused)
    requires refused ==> sent > 0 && RunItems(broker.store.lib, broker.store.xml, command, s, items[..sent - 1]).2
    ensures
      Lawful(broker.store.lib) && Sound(broker.store.lib, broker.store.xml, s) && (forall item <- items :: ListItem(s.root, item)) ==>
        Sound(broker.store.lib, broker.store.xml, broker.store.Now())
        && Listed(command, s, published, items[..if refused then sent - 1 else sent], broker.store.root, broker.published)
  {
    hide Sound, Lawful, ListItem, RunItems, Listed, Execute;
    var lib, xml := broker.store.lib, broker.store.xml;
    if Lawful(lib) && Sound(lib, xml, s) && forall item <- items :: ListItem(s.root, item) {
      if refused {
        var accepted, item := items[..sent - 1], items[sent - 1];
        assert item in items && items[..sent] == accepted + [item];
        RunListed(lib, xml, s, command, accepted, published);
        RunItemsNext(lib, xml, command, s, items, sent - 1);
        ItemsStay(lib, xml, s, command, accepted, item);
        RefusedStep(lib, xml, RunItems(lib, xml, command, s, accepted).0, command, item);
        assert RunItems(lib, xml, command, s, accepted).1 + [] == RunItems(lib, xml, command, s, accepted).1;
      } else {
        RunListed(lib, xml, s, command, items[..sent], published);
      }
    }
  }

  lemma RefusedStep(lib: Library, xml: string, s: State, command: Command, item: string)
    requires Lawful(lib) && Sound(lib, xml, s) && command != SetCommand && ListItem(s.root, item)
    ensures
      var (s', notices, reply) := Execute(lib, xml, s, command, item);
      reply != ResponseOk ==> Sound(lib, xml, s') && s'.root == s.root && notices == []
  {
    hide Sound, Lawful, Execute, Lists, ItemName, TextAfter;
    ItemLists(s.root, item);
    var header, p :| Lists(s.root, header, ItemName(item), p);
    ListableOf(s.root, header, ItemName(item), p);
    OwnStep(lib, xml, s, command, item, header, p);
  }

  /**
   * The dispatcher's update: the items of the value object, split at semicolons, are sent one by one
   * until one is refused. OK means that every item was sent and answered OK; otherwise exactly the
   * items before the refused one, and that one if it was sent, have taken effect.
   */
  method UpdateConfigItems(broker: Broker, command: Command, valueObject: Option<string>) returns (r: UpdateResult, sent: nat)
    modifies broker`published, broker.store`root, broker.store`files
    ensures valueObject.None? || valueObject.value == "" ==>
      r == UpdateRaises && sent == 0
      && broker.store.Now() == old(broker.store.Now()) && broker.published == old(broker.published)
    ensures valueObject.Some? && valueObject.value != "" ==>
      var items := Split(Strip(valueObject.value), ';');
      && sent <= |items|
      && var refused := r == UpdateFailed && sent > 0
                     && !RunItems(broker.store.lib, broker.store.xml, command, old(broker.store.Now()), items[..sent]).2;
      && Ran(broker, command, old(broker.store.Now()), old(broker.published), items[..sent], !refused)
      && (refused ==> RunItems(broker.store.lib, broker.store.xml, command, old(broker.store.Now()), items[..sent - 1]).2)
      && (r == UpdateOk ==> sent == |items|)
      && (r == UpdateRaises ==> sent < |items| && '"' in items[sent])
      && (r == UpdateFailed && !refused ==>
            sent < |items| && command != SetCommand && Split(items[sent], ':')[0] !in APPEND_REMOVE_PATHS)
      && (command != SetCommand && Lawful(broker.store.lib)
          && Sound(broker.store.lib, broker.store.xml, old(broker.store.Now()))
          && (forall item <- items :: ListItem(old(broker.store.root), item)) ==>
            Sound(broker.store.lib, broker.store.xml, broker.store.Now())
            && Listed(command, old(broker.store.Now()), old(broker.published), items[..if refused then sent - 1 else sent],
                      broker.store.root, broker.published))
      && (r == UpdateOk && command == SetCommand && Lawful(broker.store.lib)
          && Sound(broker.store.lib, broker.store.xml, old(broker.store.Now()))
          && (forall item <- items :: SetsTexts(old(broker.store.Now()), item)) ==>
            Sound(broker.store.lib, broker.store.xml, broker.store.Now())
            && broker.published == old(broker.published) + Announced(old(broker.store.Now()).root, items))
  {
    hide RunItems, Split, Strip, SetsTexts, Sound, Lawful, Announced, Listed, ListItem;
    sent := 0;
    if valueObject.None? || valueObject.value == "" {
      return UpdateRaises, 0;
    }
    var valueList := Split(Strip(valueObject.value), ';');
    ghost var s, published := broker.store.Now(), broker.published;
    NothingRan(broker, command);
    assert valueList[..0] == [];
    while sent < |valueList|
      invariant sent <= |valueList|
      invariant Ran(broker, command, s, published, valueList[..sent], true)
    {
      var item := valueList[sent];
      if '"' in item {
        if command != SetCommand {
          RanListed(broker, command, s, published, valueList, sent, false);
        }
        return UpdateRaises, sent;
      }
      if command != SetCommand && Split(item, ':')[0] !in APPEND_REMOVE_PATHS {
        if command != SetCommand {
          RanListed(broker, command, s, published, valueList, sent, false);
        }
        return UpdateFailed, sent;
      }
      var ok := SendItem(broker, command, valueList, sent, s, published);
      sent := sent + 1;
      if !ok {
        if command != SetCommand {
          RanListed(broker, command, s, published, valueList, sent, true);
        }
        return UpdateFailed, sent;
      }
    }
    assert valueList[..sent] == valueList;
    RanAnnounced(broker, command, s, published, valueObject.value);
    if command != SetCommand {
      RanListed(broker, command, s, published, valueList, sent, false);
    }
    return UpdateOk, sent;
  }

  /** The items of a value object hold no semicolon, so the agents are notified of what the items announce. */
  lemma RanAnnounced(broker: Broker, command: Command, s: State, published: seq<(string, string)>, value: string)
    requires Ran(broker, command, s, published, Split(Strip(value), ';'), true)
    ensures command == SetCommand && Lawful(broker.store.lib) && Sound(broker.store.lib, broker.store.xml, s)
            && (forall item <- Split(Strip(value), ';') :: SetsTexts(s, item)) ==>
              Sound(broker.store.lib, broker.store.xml, broker.store.Now())
              && broker.published == published + Announced(s.root, Split(Strip(value), ';'))
  {
    hide RunItems, SetsTexts, Sound, Lawful, Announced;
    SplitPartsFree(Strip(value), ';');
    if command == SetCommand && Lawful(broker.store.lib) && Sound(broker.store.lib, broker.store.xml, s)
       && forall item <- Split(Strip(value), ';') :: SetsTexts(s, item) {
      SetCommandAnnounced(broker.store.lib, broker.store.xml, s, Split(Strip(value), ';'));
    }
  }

  lemma NothingRan(broker: Broker, command: Command)
    ensures Ran(broker, command, broker.store.Now(), broker.published, [], true)
  {
  }

  /** Everything a list of set requests announces when all are answered OK: the writes of the well-formed ones, in order. */
  function Announced(root: Tree, items: seq<string>): seq<(string, string)> {
    if items == [] then []
    else
      var n := |items| - 1;
      var header := GetParent(root, Split1(items[n], ':')[0]);
      Announced(root, items[..n])
      + (if header.Done? && WellFormed(items[n]) then Writes(header.value, Split(items[n], ',')) else [])
  }

  lemma ExecuteKeepsSections(lib: Library, xml: string, s: State, item: string, tag: string)
    requires SetsTexts(s, item)
    ensures GetParent(Execute(lib, xml, s, SetCommand, item).0.root, tag) == GetParent(s.root, tag)
  {
    hide SetItems, GetParent, Decode;
    SetItemsKeepSections(lib, xml, s, GetParent(s.root, Split1(item, ':')[0]).value, Split(item, ','), tag);
  }

  /**
   * When all items of a set command are answered OK, what the agents are notified of is exactly what
   * the well-formed items write, in order, and the file is still valid.
   */
  lemma {:induction false} SetCommandAnnounced(lib: Library, xml: string, s: State, items: seq<string>)
    requires Lawful(lib) && Sound(lib, xml, s)
    requires forall item <- items :: SetsTexts(s, item) && ';' !in item
    requires RunItems(lib, xml, SetCommand, s, items).2
    ensures
      var (s', notices, _) := RunItems(lib, xml, SetCommand, s, items);
      && Sound(lib, xml, s')
      && notices == Announced(s.root, items)
      && (forall tag :: GetParent(s'.root, tag) == GetParent(s.root, tag))
  {
    hide GetParent, Execute, Sound, Lawful, Writes, WellFormed, StopsWithoutValue, SetItems;
    if items != [] {
      var n := |items| - 1;
      SetCommandAnnounced(lib, xml, s, items[..n]);
      var s1 := RunItems(lib, xml, SetCommand, s, items[..n]).0;
      assert items[n] in items;
      assert GetParent(s1.root, Split1(items[n], ':')[0]) == GetParent(s.root, Split1(items[n], ':')[0]);
      SetRequestAnswered(lib, xml, s1, items[n]);
      StopsIllFormed(lib, xml, s1, GetParent(s1.root, Split1(items[n], ':')[0]).value, items[n]);
      forall tag
        ensures GetParent(Execute(lib, xml, s1, SetCommand, items[n]).0.root, tag) == GetParent(s.root, tag)
      {
        ExecuteKeepsSections(lib, xml, s1, items[n], tag);
      }
    }
  }

  lemma StopsIllFormed(lib: Library, xml: string, s: State, header: string, item: string)
    ensures StopsWithoutValue(lib, xml, s, header, Split(item, ','), false) ==> !WellFormed(item)
  {
    hide SetItems;
    var items := Split(item, ',');
    if StopsWithoutValue(lib, xml, s, header, items, false) {
      var k :| 0 <= k < |items| && ':' !in items[k];
      assert items[k] in items;
    }
  }
}
