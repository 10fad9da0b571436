/** The element tree of a configuration file: looking elements up and overwriting their text. */
module ConfigTree {
  import opened Options

  /** An element: tag, text (none is the empty text), the value of its `name` attribute, and children. */
  datatype Tree = Node(tag: string, text: string, name: Option<string>, children: seq<Tree>)

  /** The way down to an element, by child numbers. */
  type Position = seq<nat>

  predicate ValidPosition(t: Tree, p: Position)
    decreases |p|
  {
    p == [] || (p[0] < |t.children| && ValidPosition(t.children[p[0]], p[1..]))
  }

  function At(t: Tree, p: Position): Tree
    requires ValidPosition(t, p)
    decreases |p|
  {
    if p == [] then t else At(t.children[p[0]], p[1..])
  }

  /** The tags passed on the way down. */
  function TagsTo(t: Tree, p: Position): seq<string>
    requires ValidPosition(t, p)
    decreases |p|
  {
    if p == [] then [] else [t.children[p[0]].tag] + TagsTo(t.children[p[0]], p[1..])
  }

  /** A step of a path: the tag of an element, or a star for any. */
  predicate Matches(step: string, tag: string) {
    step == "*" || step == tag
  }

  /** The first element, in document order, that a path of steps leads to. */
  function FirstIn(children: seq<Tree>, path: seq<string>): (r: Option<Position>)
    requires path != []
    ensures r.Some? ==> |r.value| == |path| && r.value[0] < |children|
    ensures r.Some? ==> ValidPosition(children[r.value[0]], r.value[1..])
    decreases |path|, |children|
  {
    if children == [] then None
    else
      var here := if !Matches(path[0], children[0].tag) then None
                  else if |path| == 1 then Some([])
                  else FirstIn(children[0].children, path[1..]);
      if here.Some? then Some([0] + here.value)
      else
        match FirstIn(children[1..], path)
        case None => None
        case Some(p) => Some([p[0] + 1] + p[1..])
  }

  /** `findall(path)[0]`, if there is one */
  function Find(t: Tree, path: seq<string>): (r: Option<Position>)
    requires path != []
    ensures r.Some? ==> ValidPosition(t, r.value)
  {
    FirstIn(t.children, path)
  }

  function SetAt(t: Tree, p: Position, text: string, name: Option<string>): (r: Tree)
    requires ValidPosition(t, p)
    ensures r.tag == t.tag && |r.children| == |t.children|
    decreases |p|
  {
    if p == [] then t.(text := text, name := name)
    else t.(children := t.children[p[0] := SetAt(t.children[p[0]], p[1..], text, name)])
  }

  function SetText(t: Tree, p: Position, text: string): Tree
    requires ValidPosition(t, p)
  {
    SetAt(t, p, text, At(t, p).name)
  }

  function SetName(t: Tree, p: Position, name: string): Tree
    requires ValidPosition(t, p)
  {
    SetAt(t, p, At(t, p).text, Some(name))
  }

  /** Overwriting an element changes its own text and attribute and nothing else. */
  lemma {:induction false} SetAtElsewhere(t: Tree, p: Position, text: string, name: Option<string>, q: Position)
    requires ValidPosition(t, p)
    ensures ValidPosition(SetAt(t, p, text, name), q) <==> ValidPosition(t, q)
    ensures ValidPosition(t, q) ==>
      var r := At(SetAt(t, p, text, name), q);
      && r.tag == At(t, q).tag
      && r.text == (if p == q then text else At(t, q).text)
      && r.name == (if p == q then name else At(t, q).name)
    decreases |q|
  {
    if q != [] && p != [] {
      if p[0] == q[0] {
        SetAtElsewhere(t.children[p[0]], p[1..], text, name, q[1..]);
        assert p == [p[0]] + p[1..] && q == [q[0]] + q[1..];
      }
    }
  }

  /** Writing back what was there before undoes an overwrite. */
  lemma {:induction false} SetAtTwice(t: Tree, p: Position, text: string, name: Option<string>)
    requires ValidPosition(t, p)
    ensures
      var r := SetAt(t, p, text, name);
      ValidPosition(r, p) && SetAt(r, p, At(t, p).text, At(t, p).name) == t
    decreases |p|
  {
    if p != [] {
      SetAtTwice(t.children[p[0]], p[1..], text, name);
      var r := SetAt(t, p, text, name);
      assert r.children[p[0] := t.children[p[0]]] == t.children;
    }
  }

  lemma {:induction false} FirstInUnaffected(c: seq<Tree>, k: nat, p: Position, text: string, name: Option<string>,
                                             path: seq<string>)
    requires path != [] && k < |c| && ValidPosition(c[k], p)
    ensures FirstIn(c[k := SetAt(c[k], p, text, name)], path) == FirstIn(c, path)
    decreases |path|, |c|
  {
    var c' := c[k := SetAt(c[k], p, text, name)];
    if k == 0 {
      assert c'[1..] == c[1..];
      if |path| > 1 && p != [] {
        FirstInUnaffected(c[0].children, p[0], p[1..], text, name, path[1..]);
      }
    } else {
      assert c'[1..] == c[1..][k - 1 := SetAt(c[1..][k - 1], p, text, name)];
      FirstInUnaffected(c[1..], k - 1, p, text, name, path);
    }
  }

  /** Overwriting texts never changes which element a path denotes. */
  lemma FindUnaffected(t: Tree, p: Position, text: string, name: Option<string>, path: seq<string>)
    requires ValidPosition(t, p) && path != []
    ensures Find(SetAt(t, p, text, name), path) == Find(t, path)
  {
    if p != [] {
      FirstInUnaffected(t.children, p[0], p[1..], text, name, path);
    }
  }

  predicate LeadsTo(path: seq<string>, tags: seq<string>) {
    |path| == |tags| && forall i | 0 <= i < |path| :: Matches(path[i], tags[i])
  }

  /** The element found is one the path leads to. */
  lemma {:induction false} FirstInTags(c: seq<Tree>, path: seq<string>)
    requires path != [] && FirstIn(c, path).Some?
    ensures
      var p := FirstIn(c, path).value;
      LeadsTo(path, [c[p[0]].tag] + TagsTo(c[p[0]], p[1..]))
    decreases |path|, |c|
  {
    var here := if !Matches(path[0], c[0].tag) then None
                else if |path| == 1 then Some([])
                else FirstIn(c[0].children, path[1..]);
    if here.Some? {
      assert ([0] + here.value)[1..] == here.value;
      if |path| > 1 {
        FirstInTags(c[0].children, path[1..]);
        assert here.value == [here.value[0]] + here.value[1..];
      }
      assert path == [path[0]] + path[1..];
    } else {
      FirstInTags(c[1..], path);
      var p := FirstIn(c[1..], path).value;
      assert ([p[0] + 1] + p[1..])[1..] == p[1..];
    }
  }

  /** The parent's tag of the last element, in document order, that carries a tag, if it is below `t`. */
  function LastParent(t: Tree, tag: string): Option<string> {
    LastParentIn(t, |t.children|, tag)
  }

  function LastParentIn(t: Tree, n: nat, tag: string): Option<string>
    requires n <= |t.children|
    decreases t, n
  {
    if n == 0 then None
    else
      var c := t.children[n - 1];
      var below := LastParentIn(c, |c.children|, tag);
      if below.Some? then below
      else if c.tag == tag then Some(t.tag)
      else LastParentIn(t, n - 1, tag)
  }

  /** Overwriting texts never changes the section an element belongs to. */
  lemma {:induction false} LastParentUnaffected(t: Tree, p: Position, text: string, name: Option<string>, n: nat, tag: string)
    requires ValidPosition(t, p) && n <= |t.children|
    ensures LastParentIn(SetAt(t, p, text, name), n, tag) == LastParentIn(t, n, tag)
    decreases t, n
  {
    if n > 0 {
      var c := t.children[n - 1];
      LastParentUnaffected(t, p, text, name, n - 1, tag);
      if p != [] && p[0] == n - 1 {
        LastParentUnaffected(c, p[1..], text, name, |c.children|, tag);
      }
    }
  }

  /** Document order: an element comes before its descendants, and they before what follows it. */
  predicate NoLater(p: Position, q: Position)
    decreases |p|
  {
    p == [] || (q != [] && (p[0] < q[0] || (p[0] == q[0] && NoLater(p[1..], q[1..]))))
  }

  lemma {:induction false} FirstInFirst(c: seq<Tree>, path: seq<string>, q: Position)
    requires path != [] && q != [] && q[0] < |c| && ValidPosition(c[q[0]], q[1..])
    requires LeadsTo(path, [c[q[0]].tag] + TagsTo(c[q[0]], q[1..]))
    ensures FirstIn(c, path).Some? && NoLater(FirstIn(c, path).value, q)
    decreases |path|, |c|
  {
    var tags := [c[q[0]].tag] + TagsTo(c[q[0]], q[1..]);
    assert Matches(path[0], tags[0]);
    if q[0] == 0 {
      if |path| > 1 {
        var rest := TagsTo(c[0], q[1..]);
        assert tags[1..] == rest;
        assert forall i | 0 <= i < |path| - 1 :: Matches(path[1..][i], rest[i]) by {
          assert forall i | 0 <= i < |path| - 1 :: path[1..][i] == path[i + 1] && rest[i] == tags[i + 1];
        }
        assert q[1..] != [];
        FirstInFirst(c[0].children, path[1..], q[1..]);
        var p := FirstIn(c[0].children, path[1..]).value;
        assert ([0] + p)[1..] == p;
      } else {
        assert [0] + [] == [0];
      }
    } else {
      var later := [q[0] - 1] + q[1..];
      assert later[1..] == q[1..] && c[1..][later[0]] == c[q[0]];
      FirstInFirst(c[1..], path, later);
      var p := FirstIn(c[1..], path).value;
      assert ([p[0] + 1] + p[1..])[1..] == p[1..];
    }
  }

  /** The element found is the first that the path leads to, and one is found whenever there is one. */
  lemma FindFirst(t: Tree, path: seq<string>)
    requires path != []
    ensures Find(t, path).Some? ==> LeadsTo(path, TagsTo(t, Find(t, path).value))
    ensures forall q | ValidPosition(t, q) && LeadsTo(path, TagsTo(t, q)) :: Find(t, path).Some? && NoLater(Find(t, path).value, q)
  {
    if Find(t, path).Some? {
      FirstInTags(t.children, path);
    }
    forall q | ValidPosition(t, q) && LeadsTo(path, TagsTo(t, q))
      ensures Find(t, path).Some? && NoLater(Find(t, path).value, q)
    {
      assert q != [];
      FirstInFirst(t.children, path, q);
    }
  }

  /** An element with a tag, below `t`, and the tag of its parent. */
  predicate Carries(t: Tree, q: Position, tag: string) {
    q != [] && ValidPosition(t, q) && At(t, q).tag == tag
  }

  function ParentTag(t: Tree, q: Position): string
    requires q != [] && ValidPosition(t, q)
    decreases |q|
  {
    if |q| == 1 then t.tag else ParentTag(t.children[q[0]], q[1..])
  }

  /** The last element that carries a tag, among the first `n` children and below, decides. */
  lemma {:induction false} LastParentInLast(t: Tree, n: nat, tag: string) returns (p: Position)
    requires n <= |t.children|
    ensures LastParentIn(t, n, tag).Some? ==>
      Carries(t, p, tag) && p[0] < n && LastParentIn(t, n, tag).value == ParentTag(t, p)
    ensures forall q | Carries(t, q, tag) && q[0] < n :: LastParentIn(t, n, tag).Some? && NoLater(q, p)
    decreases t, n
  {
    p := [];
    if n > 0 {
      var c := t.children[n - 1];
      var below := LastParentInLast(c, |c.children|, tag);
      if LastParentIn(c, |c.children|, tag).Some? {
        p := [n - 1] + below;
        assert p[1..] == below;
      } else if c.tag == tag {
        p := [n - 1];
        assert p[1..] == [];
      } else {
        p := LastParentInLast(t, n - 1, tag);
      }
      forall q | Carries(t, q, tag) && q[0] < n
        ensures LastParentIn(t, n, tag).Some? && NoLater(q, p)
      {
        if q[0] == n - 1 {
          var rest := q[1..];
          assert At(t, q) == At(c, rest);
          if |q| > 1 {
            assert Carries(c, rest, tag);
            assert NoLater(rest, below);
          } else {
            assert rest == [] && c.tag == tag;
            assert NoLater(rest, p[1..]);
          }
          assert p[0] == n - 1 && NoLater(rest, p[1..]);
        } else if p[0] == n - 1 {
          assert NoLater(q, p);
        }
      }
    }
  }

  /** The section of an element is the parent's tag of the last one that carries the tag, in document order. */
  lemma LastParentLast(t: Tree, tag: string) returns (p: Position)
    ensures LastParent(t, tag).Some? ==> Carries(t, p, tag) && LastParent(t, tag).value == ParentTag(t, p)
    ensures forall q | Carries(t, q, tag) :: LastParent(t, tag).Some? && NoLater(q, p)
  {
    p := LastParentInLast(t, |t.children|, tag);
  }
}
