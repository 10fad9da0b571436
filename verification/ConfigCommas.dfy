/** Appending and removing a value that holds a comma: the request is taken apart at commas, and never succeeds. */
module ConfigCommas {
  import opened ConfigStore
  import opened ConfigText
  import opened ConfigTree
  import opened Options
  import opened PyStrings

  /** No element is named with a leading brace, which is no character of a name (section 2.3 of XML 1.0). */
  predicate Named(t: Tree) {
    (t.tag == "" || t.tag[0] != '{') && forall c <- t.children :: Named(c)
  }

  lemma {:induction false} BraceNotFound(children: seq<Tree>, path: seq<string>, k: nat)
    requires forall c <- children :: Named(c)
    requires k < |path| && path[k] != "" && path[k][0] == '{'
    ensures FirstIn(children, path) == None
    decreases |path|, |children|
  {
    if children != [] {
      assert children[0] in children;
      if k > 0 {
        BraceNotFound(children[0].children, path[1..], k - 1);
      }
      BraceNotFound(children[1..], path, k);
    }
  }

  /** An item that begins with a brace names no element. */
  lemma BraceFails(lib: Library, xml: string, s: State, path: string, item: string)
    requires Named(s.root) && PlainName(path) && item != "" && item[0] == '{'
    ensures FindPath(s.root, path + "/" + item) == None
    ensures SetOne(lib, xml, s, path, item, false).1.Raised?
  {
    BraceNoElement(s.root, path, item);
    var pair := Split1(item, ':');
    if |pair| == 2 {
      assert pair[0][0] == item[0];
      BraceNoElement(s.root, path, pair[0]);
    }
  }

  lemma BraceNoElement(root: Tree, path: string, name: string)
    requires Named(root) && PlainName(path) && name != "" && name[0] == '{'
    ensures FindPath(root, path + "/" + name) == None
  {
    hide Named, Split, FirstIn;
    assert '/' !in path;
    assert path + "/" + name == path + ['/'] + name;
    SplitCons(path, '/', name);
    SplitHead(name, '/');
    var tags, steps := Split(path + "/" + name, '/'), Steps(path + "/" + name);
    assert IndexOf(name, '/') > 0;
    assert tags[1] == name[..IndexOf(name, '/')];
    assert steps[1] == tags[1];
    BelowNamed(root);
    BraceNotFound(root.children, steps, 1);
  }

  lemma BelowNamed(t: Tree)
    requires Named(t)
    ensures forall c <- t.children :: Named(c)
  {
  }

  lemma {:induction false} SetAtNamed(t: Tree, p: Position, text: string, name: Option<string>)
    requires ValidPosition(t, p) && Named(t)
    ensures Named(SetAt(t, p, text, name))
    decreases |p|
  {
    if p != [] {
      assert t.children[p[0]] in t.children;
      SetAtNamed(t.children[p[0]], p[1..], text, name);
    }
  }

  lemma {:induction false} SetItemsNamed(lib: Library, xml: string, s: State, xpath: string, items: seq<string>)
    requires Named(s.root)
    ensures Named(SetItems(lib, xml, s, xpath, items, false).0.root)
  {
    hide Named, FindPath;
    if items != [] {
      var n := |items| - 1;
      SetItemsNamed(lib, xml, s, xpath, items[..n]);
      var t := SetItems(lib, xml, s, xpath, items[..n], false).0;
      var pair := Split1(items[n], ':');
      if |pair| == 2 && FindPath(t.root, xpath + "/" + pair[0]).Some? {
        var p := FindPath(t.root, xpath + "/" + pair[0]).value;
        SetAtNamed(t.root, p, pair[1], At(t.root, p).name);
        SetAtElsewhere(t.root, p, pair[1], At(t.root, p).name, p);
        SetAtNamed(SetText(t.root, p, pair[1]), p, At(t.root, p).text, At(t.root, p).name);
      }
    }
  }

  /** A list of items that holds one beginning with a brace fails. */
  lemma {:induction false} BraceStops(lib: Library, xml: string, s: State, path: string, items: seq<string>, k: nat)
    requires Named(s.root) && PlainName(path)
    requires k < |items| && items[k] != "" && items[k][0] == '{'
    ensures SetItems(lib, xml, s, path, items, false).1.Raised?
  {
    hide Named, SetOne;
    var n := |items| - 1;
    if k < n {
      BraceStops(lib, xml, s, path, items[..n], k);
    } else {
      SetItemsNamed(lib, xml, s, path, items[..n]);
      BraceFails(lib, xml, SetItems(lib, xml, s, path, items[..n], false).0, path, items[n]);
    }
  }

  /** The parts of a value string around a comma that a brace follows. */
  lemma BracePart(name: string, w: string, tail: string) returns (k: nat)
    ensures
      var items := Split(name + ":" + (w + ",{" + tail), ',');
      && k < |items| && items[k] != "" && items[k][0] == '{'
      && (',' !in name && ',' !in w ==> k == 1)
  {
    hide Split;
    var x := name + ":" + w;
    assert name + ":" + (w + ",{" + tail) == x + [','] + ("{" + tail);
    SplitConcat(x, ',', "{" + tail);
    SplitHead(x, ',');
    SplitHead("{" + tail, ',');
    assert IndexOf("{" + tail, ',') > 0;
    k := |Split(x, ',')|;
    assert Split(name + ":" + (w + ",{" + tail), ',')[k] == Split("{" + tail, ',')[0];
  }

  /**
   * A request whose text has such a comma fails, and leaves the tree alone exactly when the schema
   * refuses what comes before the first comma.
   */
  lemma BraceRequest(lib: Library, xml: string, s: State, path: string, name: string, w: string, tail: string, p: Position)
    requires Lawful(lib) && Sound(lib, xml, s) && Holds(s.root, path, name, p) && Named(s.root)
    requires ',' !in At(s.root, p).text ==> ',' !in w && w != At(s.root, p).text
    ensures
      var value := w + ",{" + tail;
      var (s', r) := SetItems(lib, xml, s, path, Split(name + ":" + value, ','), false);
      r.Raised? && (s'.root == s.root <==> !lib.accepts(SetText(s.root, p, value[..IndexOf(value, ',')])))
  {
    hide SetItems, SetOne, UpdateText, Sound, Lawful, Split, Named;
    var value := w + ",{" + tail;
    var items := Split(name + ":" + value, ',');
    var b := BracePart(name, w, tail);
    BraceStops(lib, xml, s, path, items, b);
    if ',' in At(s.root, p).text {
      RequestFails(lib, xml, s, path, name, value, p);
    } else {
      assert ',' !in name;
      assert value == w + [','] + ("{" + tail);
      IndexOfAppend(w, ',', "{" + tail);
      assert value[..|w|] == w;
      FirstItem(name, value);
      FirstPart(lib, xml, s, path, name, w, p);
      UpdateTextSound(lib, xml, s, p, w);
      SetAtElsewhere(s.root, p, w, At(s.root, p).name, p);
      var k := SetItemsSound(lib, xml, s, path, items);
      if k > 1 {
        BraceStops(lib, xml, s, path, items[..k], 1);
      } else if k == 0 {
        assert items[..0] == [];
        NoItems(lib, xml, s, path);
      } else {
        assert items[..1] == [items[0]];
        SetItemsOne(lib, xml, s, path, items[0]);
      }
    }
  }

  /** The parts of a value after its first comma all name elements of the section. */
  predicate NamesElements(root: Tree, path: string, v: string) {
    forall part <- Split(v, ',')[1..] :: FindPath(root, path + "/" + ElementOf(part)).Some?
  }

  /** The element that a requested item names. */
  function ElementOf(item: string): string {
    StripChars(Split1(item, ':')[0], IsQuote)
  }

  /** What is printed after the first of several elements. */
  lemma {:induction false} PrintedMore(root: Tree, path: string, items: seq<string>, one: string) returns (tail: string)
    requires items != [] && GetOne(root, path, items[0], false) == Done(one)
    ensures GetElements(root, path, items, false).Done? <==> forall item <- items[1..] :: FindPath(root, path + "/" + ElementOf(item)).Some?
    ensures GetElements(root, path, items, false).Done? && |items| > 1 ==>
      GetElements(root, path, items, false).value == one + "{" + tail && tail != "" && tail[|tail| - 1] == ','
  {
    hide FindPath, ElementOf, GetOne;
    var n := |items| - 1;
    tail := "";
    if n == 0 {
      assert items[..0] == [] && "" + one == one;
    } else {
      var before := PrintedMore(root, path, items[..n], one);
      assert items[1..] == items[..n][1..] + [items[n]];
      OneMore(root, path, items[n]);
      var last := GetOne(root, path, items[n], false);
      if GetElements(root, path, items[..n], false).Done? && last.Done? {
        tail := if n == 1 then last.value[1..] else before + last.value;
        assert last.value == "{" + last.value[1..];
        if n == 1 {
          assert items[..1] == [items[0]];
          assert items[..1][..0] == [] && "" + one == one;
        }
      }
    }
  }

  lemma OneMore(root: Tree, path: string, item: string)
    ensures
      var r := GetOne(root, path, item, false);
      && (r.Done? <==> FindPath(root, path + "/" + ElementOf(item)).Some?)
      && (r.Done? ==> |r.value| > 1 && r.value[0] == '{' && r.value[|r.value| - 1] == ',')
  {
  }

  lemma PrintedRegroup(names: string, text: string, tail: string)
    ensures names + ":" + text + "}," + ['{'] + tail == names + ":" + (text + "},{" + tail)
  {
  }

  lemma StripMore(x: string, tail: string)
    requires x != "" && !IsOpen(x[0]) && !IsCloseOrComma(x[0])
    requires tail != "" && tail[|tail| - 1] == ','
    ensures
      var inner := x + ['{'] + tail;
      && StripChars(['{'] + inner, IsOpen) == inner
      && StripChars(inner, IsClose) == inner
      && StripChars(inner, IsCloseOrComma) == x + ['{'] + RStrip(tail, IsCloseOrComma)
  {
    var inner := x + ['{'] + tail;
    assert (['{'] + inner)[1..] == inner;
    assert inner[0] == x[0];
    assert inner[|inner| - 1] == ',';
    LStripNone(inner, IsOpen);
    LStripNone(inner, IsClose);
    LStripNone(inner, IsCloseOrComma);
    RStripKeeps(x, '{', tail, IsCloseOrComma);
  }

  lemma StrippedMore(path: string, name: string, text: string, tail: string)
    requires PlainName(path) && tail != "" && tail[|tail| - 1] == ','
    ensures
      var printed := Printed(path, name, text) + "{" + tail;
      var names := path + "/" + name;
      && StripChars(StripChars(printed, IsOpen), IsClose) == names + ":" + (text + "},{" + tail)
      && Body(printed) == names + ":" + (text + "},{" + RStrip(tail, IsCloseOrComma))
  {
    hide RStrip, LStrip, StripChars;
    var names := path + "/" + name;
    var x := names + ":" + text + "},";
    assert x[0] == path[0] && path[0] in path;
    StripMore(x, tail);
    PrintedIs(path, name, text, tail);
    PrintedRegroup(names, text, tail);
    PrintedRegroup(names, text, RStrip(tail, IsCloseOrComma));
  }

  /** Cutting several printed elements apart: everything after the first slash or colon is taken for the first one's text. */
  lemma CutMore(path: string, name: string, text: string, tail: string)
    requires PlainName(path) && PlainName(name) && tail != "" && tail[|tail| - 1] == ','
    ensures
      var printed := Printed(path, name, text) + "{" + tail;
      var kept := text + "},{" + RStrip(tail, IsCloseOrComma);
      && HeaderPath(printed) == path + "/" + name
      && Split1(Body(printed), '/') == [path, name + ":" + kept]
      && Split1(Body(printed), ':') == [path + "/" + name, kept]
  {
    hide Split1, RStrip, LStrip, StripChars, Body, Printed;
    var names := path + "/" + name;
    var kept := text + "},{" + RStrip(tail, IsCloseOrComma);
    StrippedMore(path, name, text, tail);
    assert ':' !in names;
    CutAtColon(names, text + "},{" + tail);
    CutAtColon(names, kept);
    CutAtSlash(path, name + ":" + kept);
    NamesRegroup(path, name, kept);
  }

  lemma PrintedIs(path: string, name: string, text: string, tail: string)
    ensures Printed(path, name, text) + "{" + tail == ['{'] + (path + "/" + name + ":" + text + "}," + ['{'] + tail)
  {
  }

  lemma NamesRegroup(path: string, name: string, kept: string)
    ensures path + "/" + (name + ":" + kept) == path + "/" + name + ":" + kept
  {
  }

  /** The printed elements of a request whose value holds a comma. */
  lemma RequestPrinted(root: Tree, path: string, name: string, v: string, p: Position) returns (tail: string)
    requires Holds(root, path, name, p) && ',' in v
    ensures
      var printed := GetElements(root, path, Split(name + ":" + v, ','), false);
      && (printed.Done? <==> NamesElements(root, path, v))
      && (printed.Done? ==> printed.value == Printed(path, name, At(root, p).text) + "{" + tail && tail != "" && tail[|tail| - 1] == ',')
  {
    hide Split, ElementOf, FindPath, Printed;
    var n := IndexOf(v, ',');
    SplitHead(v, ',');
    IndexOfWithin(v, ',');
    var first, more := v[..n], v[n + 1..];
    assert v == first + [','] + more;
    assert ',' !in name + ":" + first;
    assert name + ":" + v == (name + ":" + first) + [','] + more;
    SplitCons(name + ":" + first, ',', more);
    SplitCons(first, ',', more);
    var items := Split(name + ":" + v, ',');
    assert items[1..] == Split(v, ',')[1..];
    OneOf(root, path, name, first, p);
    tail := PrintedMore(root, path, items, Printed(path, name, At(root, p).text));
  }

  lemma IndexOfWithin(s: string, c: char)
    requires c in s
    ensures IndexOf(s, c) < |s|
  {
    var i :| 0 <= i < |s| && s[i] == c;
    IndexOfLeast(s, c, i);
  }

  lemma OneOf(root: Tree, path: string, name: string, v: string, p: Position)
    requires Holds(root, path, name, p)
    ensures GetOne(root, path, name + ":" + v, false) == Done(Printed(path, name, At(root, p).text))
  {
    ItemOf(name, v);
    PathOf(root, path, name);
  }

  lemma AppendRequestMore(root: Tree, path: string, name: string, v: string, p: Position) returns (tail: string)
    requires Holds(root, path, name, p) && ',' in v
    ensures
      var request := AppendRequest(root, path, name + ":" + v);
      && (request.Done? <==> NamesElements(root, path, v))
      && (request.Done? ==> request.value == (path, name + ":" + (At(root, p).text + "}" + ",{" + tail)))
  {
    hide Split, Split1, GetElements, Printed, HeaderPath, Body, NamesElements;
    var more := RequestPrinted(root, path, name, v, p);
    var text := At(root, p).text;
    tail := RStrip(more, IsCloseOrComma) + SEPARATOR + v + TERMINATOR;
    ItemOf(name, v);
    if NamesElements(root, path, v) {
      CutMore(path, name, text, more);
      HeaderOf(path, name, text);
      AppendRegroup(name, text, RStrip(more, IsCloseOrComma), v);
    }
  }

  lemma AppendRegroup(name: string, text: string, kept: string, v: string)
    ensures name + ":" + (text + "},{" + kept) + SEPARATOR + v + TERMINATOR
         == name + ":" + (text + "}" + ",{" + (kept + SEPARATOR + v + TERMINATOR))
  {
  }

  /**
   * Appending a value that holds a comma never succeeds. It leaves the tree alone exactly when a part
   * after the first comma names no element of the section, or the schema refuses the stored text with
   * a closing brace, cut at its first comma: otherwise that is what is left of the text.
   */
  lemma AppendOfComma(lib: Library, xml: string, s: State, path: string, name: string, v: string, p: Position)
    requires Lawful(lib) && Sound(lib, xml, s)
    requires Holds(s.root, path, name, p) && Named(s.root) && ',' in v
    ensures
      var closed := At(s.root, p).text + "},";
      var (s', r) := Append(lib, xml, s, path, name + ":" + v);
      && r.Raised?
      && (s'.root == s.root
          <==> !NamesElements(s.root, path, v) || !lib.accepts(SetText(s.root, p, closed[..IndexOf(closed, ',')])))
  {
    hide Sound, Lawful, SetItems, Split, Named, NamesElements, AppendRequest;
    var tail := AppendRequestMore(s.root, path, name, v, p);
    if NamesElements(s.root, path, v) {
      var text := At(s.root, p).text;
      BraceRequest(lib, xml, s, path, name, text + "}", tail, p);
      CommaFirst(text + "},", "{" + tail);
      assert text + "}," + ("{" + tail) == text + "}" + ",{" + tail;
    }
  }

  /**
   * When `append` fails it has left the tree alone exactly when the schema refuses what is written
   * first, or nothing is: for a value with a comma as stated there, otherwise if the stored text, less
   * closing braces and commas at its end, has no comma.
   */
  lemma AppendFails(lib: Library, xml: string, s: State, path: string, name: string, v: string, p: Position)
    requires Lawful(lib) && Sound(lib, xml, s)
    requires Holds(s.root, path, name, p) && (',' in v ==> Named(s.root))
    requires Append(lib, xml, s, path, name + ":" + v).1.Raised?
    ensures
      var text := At(s.root, p).text;
      var kept, closed := RStrip(text, IsCloseOrComma), text + "},";
      Append(lib, xml, s, path, name + ":" + v).0.root == s.root
      <==>
      if ',' in v then !NamesElements(s.root, path, v) || !lib.accepts(SetText(s.root, p, closed[..IndexOf(closed, ',')]))
      else ',' !in kept || !lib.accepts(SetText(s.root, p, kept[..IndexOf(kept, ',')]))
  {
    hide Append, Sound, Lawful, Named, NamesElements;
    if ',' in v {
      AppendOfComma(lib, xml, s, path, name, v, p);
    } else {
      AppendOfPlainFails(lib, xml, s, path, name, v, p);
    }
  }

  lemma {:induction false} LStripKeeps(x: string, c: char, y: string, drop: char -> bool)
    requires !drop(c)
    ensures LStrip(x + [c] + y, drop) == LStrip(x, drop) + [c] + y
  {
    var s := x + [c] + y;
    if x == "" {
      assert s == [c] + y;
    } else {
      assert s[0] == x[0] && s[1..] == x[1..] + [c] + y;
      LStripKeeps(x[1..], c, y, drop);
    }
  }

  /** Trimming leaves a comma followed by a brace where it is. */
  lemma StripBrace(x: string, y: string)
    ensures Strip(x + ",{" + y) == LStrip(x, IsSpace) + ",{" + RStrip(y, IsSpace)
  {
    hide LStrip, RStrip;
    assert x + ",{" + y == x + [','] + ("{" + y);
    LStripKeeps(x, ',', "{" + y, IsSpace);
    var x' := LStrip(x, IsSpace);
    assert x' + [','] + ("{" + y) == (x' + ",") + ['{'] + y;
    RStripKeeps(x' + ",", '{', y, IsSpace);
  }

  lemma SolidBreak(x: string, w: string, y: string)
    requires Blank(w)
    ensures Solid(x + w + y) == Solid(x) + Solid(y)
  {
    SolidEmpty(w);
    SolidConcat(x + w, y);
    SolidConcat(x, w);
  }

  predicate CommaFree(lines: seq<string>) {
    forall line <- lines :: ',' !in line
  }

  /** The lines of a text: those before the one with the comma and the brace, that one, and the rest. */
  lemma {:induction false} LinesAround(x: string, y: string) returns (a: seq<string>, l: string, m: string, b: seq<string>)
    ensures SplitLines(x + ",{" + y) == a + [l + ",{" + m] + b
    ensures Solid(Joined(a) + l) == Solid(x)
    ensures ',' !in x ==> ',' !in l && CommaFree(a)
    decreases |x|
  {
    hide SplitLines, Solid, Joined, CommaFree, IsBreak;
    var n := FirstBreak(x);
    if n == |x| {
      assert x[..n] == x;
      LastBefore(x, y);
      a, l, m, b := [], x, y[..FirstBreak(y)], SplitLines(x + ",{" + y)[1..];
      assert SplitLines(x + ",{" + y) == [] + [x + ",{" + m] + b;
      NoneBefore(l);
    } else {
      var first, c, x', w := BreakParts(x);
      var more := AfterBreak(c, x');
      FirstLine(first, c, x', y);
      var a';
      a', l, m, b := LinesAround(more, y);
      a := [first] + a';
      OneBefore(first, a', l + ",{" + m, b);
      SolidBreak(first, w, more);
      SolidMore(first, a', l);
      assert ',' !in x ==> ',' !in first && ',' !in more;
    }
  }

  lemma NoneBefore(l: string)
    ensures Joined([]) + l == l && CommaFree([])
  {
  }

  lemma OneBefore(first: string, a: seq<string>, line: string, b: seq<string>)
    ensures [first] + (a + [line] + b) == [first] + a + [line] + b
    ensures ',' !in first && CommaFree(a) ==> CommaFree([first] + a)
  {
  }

  lemma SolidMore(first: string, a: seq<string>, l: string)
    ensures Solid(Joined([first] + a) + l) == Solid(first) + Solid(Joined(a) + l)
  {
    hide Solid, Joined;
    JoinedConcat([first], a);
    JoinedOne(first);
    assert first + Joined(a) + l == first + (Joined(a) + l);
    SolidConcat(first, Joined(a) + l);
  }

  /** What is left of a text after the line break that `c` begins. */
  function AfterBreak(c: char, z: string): string {
    if c == '\r' && z != "" && z[0] == '\n' then z[1..] else z
  }

  /** The first line of a text and what comes after it. */
  lemma SplitFirst(u: string, c: char, z: string)
    requires NoBreak(u) && IsBreak(c)
    ensures SplitLines(u + [c] + z) == [u] + SplitLines(AfterBreak(c, z))
  {
    hide FirstBreak, IsBreak, NoBreak;
    var s := u + [c] + z;
    assert s == u + ([c] + z);
    FirstBreakAppend(u, [c] + z);
    BreakFirst(c, z);
    var n := |u|;
    assert s[..n] == u && s[n] == c && s[n + 1..] == z;
    if c == '\r' && z != "" && z[0] == '\n' {
      assert s[n + 2..] == z[1..];
    }
  }

  /** What follows a text with a line break does not change its first line. */
  lemma FirstLine(u: string, c: char, x: string, y: string)
    requires NoBreak(u) && IsBreak(c)
    ensures SplitLines(u + [c] + x + ",{" + y) == [u] + SplitLines(AfterBreak(c, x) + ",{" + y)
  {
    hide SplitLines, IsBreak, NoBreak;
    FirstRegroup(u, c, x, y);
    SplitFirst(u, c, x + ",{" + y);
    AfterRegroup(c, x, y);
  }

  lemma FirstRegroup(u: string, c: char, x: string, y: string)
    ensures u + [c] + x + ",{" + y == u + [c] + (x + ",{" + y)
  {
  }

  lemma AfterRegroup(c: char, x: string, y: string)
    ensures AfterBreak(c, x + ",{" + y) == AfterBreak(c, x) + ",{" + y
  {
    var s := x + ",{" + y;
    if x == "" {
      assert s[0] == ',';
    } else {
      assert s[0] == x[0];
      assert s[1..] == x[1..] + ",{" + y;
    }
  }

  lemma BreakParts(s: string) returns (u: string, c: char, x: string, w: string)
    requires FirstBreak(s) < |s|
    ensures s == u + [c] + x && s == u + w + AfterBreak(c, x)
    ensures NoBreak(u) && IsBreak(c) && Blank(w)
  {
    hide FirstBreak;
    var n := FirstBreak(s);
    u, c, x := s[..n], s[n], s[n + 1..];
    w := if c == '\r' && x != "" && x[0] == '\n' then [c] + [x[0]] else [c];
  }

  lemma BreakFirst(c: char, z: string)
    requires IsBreak(c)
    ensures FirstBreak([c] + z) == 0
  {
  }

  lemma LastBefore(x: string, y: string)
    requires NoBreak(x)
    ensures
      var lines := SplitLines(x + ",{" + y);
      lines != [] && lines[0] == x + ",{" + y[..FirstBreak(y)]
  {
    var s := x + ",{" + y;
    assert s == (x + ",{") + y;
    FirstBreakAppend(x + ",{", y);
    var n := FirstBreak(s);
    assert s[..n] == x + ",{" + y[..FirstBreak(y)];
  }

  lemma JoinedNone()
    ensures Joined([]) == ""
  {
  }

  lemma JoinedOne(line: string)
    ensures Joined([line]) == line
  {
  }

  lemma {:induction false} MapAround(a: seq<string>, line: string, b: seq<string>)
    ensures Map(a + [line] + b) == Map(a) + [Strip(line)] + Map(b)
  {
    hide Strip;
    if a == [] {
      assert a + [line] + b == [line] + b;
      assert ([line] + b)[1..] == b;
    } else {
      assert (a + [line] + b)[1..] == a[1..] + [line] + b;
      MapAround(a[1..], line, b);
    }
  }

  lemma {:induction false} MapSolid(lines: seq<string>)
    ensures Solid(Joined(Map(lines))) == Solid(Joined(lines))
  {
    hide Solid, Strip;
    if lines != [] {
      MapSolid(lines[1..]);
      SolidConcat(lines[0], Joined(lines[1..]));
      SolidConcat(Strip(lines[0]), Joined(Map(lines[1..])));
      assert Map(lines)[1..] == Map(lines[1..]);
      SolidStrip(lines[0]);
    }
  }

  lemma SolidStrip(s: string)
    ensures Solid(Strip(s)) == Solid(s)
  {
    SolidLStrip(s);
    SolidRStrip(LStrip(s, IsSpace));
  }

  lemma {:induction false} RemoveFirstAround(a: seq<string>, line: string, b: seq<string>, v: string)
    returns (a': seq<string>, b': seq<string>)
    requires v != line
    ensures RemoveFirst(a + [line] + b, v) == a' + [line] + b'
    ensures v !in a ==> a' == a
  {
    if a == [] {
      a', b' := [], RemoveFirst(b, v);
      assert a + [line] + b == [line] + b;
      assert ([line] + b)[1..] == b;
      assert [] + [line] + b' == [line] + b';
    } else {
      assert (a + [line] + b)[1..] == a[1..] + [line] + b;
      if a[0] == v {
        a', b' := a[1..], b;
      } else {
        a', b' := RemoveFirstAround(a[1..], line, b, v);
        assert [a[0]] + (a' + [line] + b') == ([a[0]] + a') + [line] + b';
        a' := [a[0]] + a';
        assert a == [a[0]] + a[1..];
      }
    }
  }

  lemma {:induction false} JoinAround(a: seq<string>, line: string, b: seq<string>) returns (w: string, rest: string)
    ensures Join(a + [line] + b) == w + line + rest
    ensures Solid(w) == Solid(Joined(a))
    ensures (forall line <- a :: ',' !in line) ==> ',' !in w
  {
    hide Solid;
    var lines := a + [line] + b;
    if a == [] {
      assert lines == [line] + b && lines[1..] == b;
      w, rest := "", if b == [] then "" else SEPARATOR + Join(b);
    } else {
      assert lines[1..] == a[1..] + [line] + b;
      var w';
      w', rest := JoinAround(a[1..], line, b);
      w := a[0] + SEPARATOR + w';
      assert a[0] + SEPARATOR + (w' + line + rest) == w + line + rest;
      SolidBreak(a[0], SEPARATOR, w');
      SolidConcat(a[0], Joined(a[1..]));
      assert a[0] in a;
    }
  }

  /** Where the text that `remove` writes still has the comma and the brace. */
  lemma RemovedMore(text: string, tail: string, v: string) returns (w: string, rest: string)
    requires !Contains(v, ",{")
    ensures RemovedText(text + "},{" + tail, v) == w + ",{" + rest
    ensures ',' !in text && ',' in v ==> ',' !in w && w != text
  {
    hide SplitLines, Map, Strip, LStrip, RStrip, Solid, Joined, RemoveFirst, Join;
    var x := LStrip(text + "}", IsSpace);
    assert text + "},{" + tail == (text + "}") + ",{" + tail;
    StripBrace(text + "}", tail);
    var a, l, m, b := LinesAround(x, RStrip(tail, IsSpace));
    MapAround(a, l + ",{" + m, b);
    StripBrace(l, m);
    var lead, line := LStrip(l, IsSpace), Strip(l + ",{" + m);
    HoldsBrace(lead, RStrip(m, IsSpace));
    var a', b' := RemoveFirstAround(Map(a), line, Map(b), v);
    var w', rest' := JoinAround(a', line, b');
    w := SEPARATOR + w' + lead;
    rest := RStrip(m, IsSpace) + rest' + TERMINATOR;
    RemovedRegroup(w', lead, RStrip(m, IsSpace), rest');
    if ',' !in text && ',' in v {
      LStripFree(text + "}", IsSpace, ',');
      MapFree(a, ',');
      LStripFree(l, IsSpace, ',');
      MapSolid(a);
      SolidLStrip(l);
      SolidLStrip(text + "}");
      SolidConcat(Joined(a), l);
      SolidConcat(text, "}");
      SolidBreak("", SEPARATOR, w' + lead);
      SolidConcat(w', lead);
      assert w == "" + SEPARATOR + (w' + lead);
      SolidEmpty("");
      SolidEmpty("}");
      assert '}' in "}" && !IsSpace('}');
      assert Solid(w) == Solid(text) + Solid("}") && Solid("}") != "";
    }
  }

  lemma HoldsBrace(x: string, y: string)
    ensures Contains(x + ",{" + y, ",{")
  {
    assert MatchesAt(x + ",{" + y, ",{", |x|);
  }

  lemma RemovedRegroup(w: string, lead: string, m: string, rest: string)
    ensures SEPARATOR + (w + (lead + ",{" + m) + rest) + TERMINATOR
         == SEPARATOR + w + lead + ",{" + (m + rest + TERMINATOR)
  {
  }

  /** A value whose parts name elements has no part that begins with a brace. */
  lemma NamedNoBrace(root: Tree, path: string, v: string)
    requires Named(root) && PlainName(path) && NamesElements(root, path, v)
    ensures !Contains(v, ",{")
  {
    hide Named, Split, FindPath;
    forall k | MatchesAt(v, ",{", k)
      ensures false
    {
      var x, y := v[..k], v[k + 2..];
      assert v[k..k + 2] == ",{";
      assert v == x + [','] + ("{" + y);
      SplitConcat(x, ',', "{" + y);
      SplitHead("{" + y, ',');
      assert IndexOf("{" + y, ',') > 0;
      var i := |Split(x, ',')|;
      var part := Split(v, ',')[i];
      assert Split(v, ',')[1..][i - 1] == part;
      BraceElement(part);
      BraceNoElement(root, path, ElementOf(part));
    }
  }

  lemma BraceElement(item: string)
    requires item != "" && item[0] == '{'
    ensures ElementOf(item) != "" && ElementOf(item)[0] == '{'
  {
    var name := Split1(item, ':')[0];
    assert name != "" && name[0] == '{';
    LStripNone(name, IsQuote);
    assert name == "" + ['{'] + name[1..];
    RStripKeeps("", '{', name[1..], IsQuote);
  }

  lemma RemoveRequestMore(root: Tree, path: string, name: string, v: string, p: Position) returns (tail: string)
    requires Holds(root, path, name, p) && ',' in v
    ensures
      var request := RemoveRequest(root, path, name + ":" + v);
      request.Done? ==>
        && NamesElements(root, path, v)
        && request.value == (path, name + ":" + RemovedText(At(root, p).text + "},{" + tail, v))
  {
    hide Split, Split1, GetElements, Printed, HeaderPath, Body, NamesElements, TrimmedLines, Join, RemoveFirst;
    var more := RequestPrinted(root, path, name, v, p);
    tail := RStrip(more, IsCloseOrComma);
    ItemOf(name, v);
    if NamesElements(root, path, v) {
      CutMore(path, name, At(root, p).text, more);
      HeaderOf(path, name, At(root, p).text);
    }
  }

  /**
   * Removing a value that holds a comma never succeeds. It leaves the tree alone exactly when the
   * request is refused before anything is written, or the schema refuses what it writes first.
   */
  lemma RemoveOfComma(lib: Library, xml: string, s: State, path: string, name: string, v: string, p: Position)
    requires Lawful(lib) && Sound(lib, xml, s)
    requires Holds(s.root, path, name, p) && Named(s.root) && ',' in v
    ensures
      var request := RemoveRequest(s.root, path, name + ":" + v);
      var (s', r) := Remove(lib, xml, s, path, name + ":" + v);
      && r.Raised?
      && (request.Done? ==> request.value.0 == path && name + ":" <= request.value.1)
      && (s'.root == s.root <==>
            request.Raised?
            || var value := request.value.1[|name| + 1..]; !lib.accepts(SetText(s.root, p, value[..IndexOf(value, ',')])))
  {
    hide Sound, Lawful, SetItems, Split, Named, NamesElements, RemoveRequest, RemovedText;
    var tail := RemoveRequestMore(s.root, path, name, v, p);
    var request := RemoveRequest(s.root, path, name + ":" + v);
    if request.Done? {
      NamedNoBrace(s.root, path, v);
      var w, rest := RemovedMore(At(s.root, p).text, tail, v);
      BraceRequest(lib, xml, s, path, name, w, rest, p);
      assert request.value.1[|name| + 1..] == w + ",{" + rest;
    }
  }
}
