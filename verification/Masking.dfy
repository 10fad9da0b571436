/** Replacing the credentials in a finished text, by the offsets of their tags. */
module SecurityMasker {
  import opened Options
  import opened PyStrings
  import opened XmlTags

  const MASK := "XXXXX"

  function Begin(name: string): string { "<" + name + ">" }

  function End(name: string): string { "</" + name + ">" }

  /** Overwrites a field of `text` with the mask, at the offsets its tags have in `base`. */
  function EditField(base: string, text: string, name: string): string {
    var begin := Find(base, Begin(name));
    var end := Find(base, End(name));
    if begin > 0 then SliceTo(text, begin + |Begin(name)|) + MASK + SliceFrom(text, end) else text
  }

  /**
   * Masks a docker field and the plain field of the same kind. All four offsets are taken in
   * `payload`, before either edit, and the second edit is made in the result of the first.
   */
  function MaskFields(payload: string, docker: string, plain: string): string {
    EditField(payload, EditField(payload, payload, docker), plain)
  }

  function MaskPassword(payload: string): string {
    MaskFields(payload, "dockerPassword", "password")
  }

  function MaskUsername(payload: string): string {
    MaskFields(payload, "dockerUsername", "username")
  }

  function MaskSecurityInfo(payload: string): string {
    MaskUsername(MaskPassword(payload))
  }

  predicate NoHead(tokens: seq<Token>, head: string) {
    forall t <- tokens :: t.head != head
  }

  /** In flat text a tag is found only where a token of that head begins. */
  lemma TagMatch(t: Token, more: string, head: string, k: int)
    requires t.Valid() && (more == "" || more[0] == '<')
    requires '<' !in head && '>' !in head
    ensures MatchesAt(t.Render() + more, Begin(head), k)
       <==> (k == 0 && t.head == head) || (|t.Render()| <= k && MatchesAt(more, Begin(head), k - |t.Render()|))
  {
    var x, p := t.Render(), Begin(head);
    var s := x + more;
    if |x| <= k {
      if k + |p| <= |s| {
        assert s[k..k + |p|] == more[k - |x|..k - |x| + |p|];
      }
    } else if 0 < k && k + |p| <= |s| {
      assert s[k] == x[k] != '<';
      assert s[k..k + |p|][0] == s[k] && p[0] == '<';
    } else if k == 0 {
      TagMatchAtStart(t, more, head);
    }
  }

  lemma SameHead(h: string, x: string, h': string, x': string)
    requires '>' !in h && '>' !in h' && h + ['>'] + x == h' + ['>'] + x'
    ensures h == h'
  {
    IndexOfAppend(h, '>', x);
    IndexOfAppend(h', '>', x');
    assert h == (h + ['>'] + x)[..|h|];
    assert h' == (h' + ['>'] + x')[..|h'|];
  }

  lemma TagMatchAtStart(t: Token, more: string, head: string)
    requires t.Valid() && '<' !in head && '>' !in head
    ensures MatchesAt(t.Render() + more, Begin(head), 0) <==> t.head == head
  {
    var s, p := t.Render() + more, Begin(head);
    if MatchesAt(s, p, 0) {
      assert s == p + s[|p|..];
      assert s[1..] == head + ['>'] + s[|p|..];
      assert s[1..] == t.head + ['>'] + (t.text + more);
      SameHead(t.head, t.text + more, head, s[|p|..]);
    }
    if t.head == head {
      assert s[..|p|] == p;
    }
  }

  lemma RenderStart(tokens: seq<Token>)
    ensures Render(tokens) == "" || Render(tokens)[0] == '<'
  {
  }

  lemma {:induction false} NoTagBefore(a: seq<Token>, b: seq<Token>, head: string, k: int)
    requires ValidTokens(a) && NoHead(a, head) && '<' !in head && '>' !in head
    requires k < |Render(a)|
    ensures !MatchesAt(Render(a + b), Begin(head), k)
  {
    if a != [] {
      assert a[0] in a && a[0].Valid();
      assert (a + b)[1..] == a[1..] + b;
      RenderStart(a[1..] + b);
      TagMatch(a[0], Render(a[1..] + b), head, k);
      NoTagBefore(a[1..], b, head, k - |a[0].Render()|);
    }
  }

  lemma FindToken(a: seq<Token>, t: Token, b: seq<Token>)
    requires ValidTokens(a) && NoHead(a, t.head) && t.Valid()
    ensures Find(Render(a + [t] + b), Begin(t.head)) == |Render(a)|
  {
    var s := Render(a + [t] + b);
    assert a + [t] + b == a + ([t] + b);
    RenderConcat(a, [t] + b);
    assert ([t] + b)[1..] == b;
    var start := |Render(a)|;
    assert s[start..start + |Begin(t.head)|] == Begin(t.head);
    assert MatchesAt(s, Begin(t.head), start);
    forall k | k < start
      ensures !MatchesAt(s, Begin(t.head), k)
    {
      NoTagBefore(a, [t] + b, t.head, k);
    }
  }

  lemma FindAbsent(a: seq<Token>, head: string)
    requires ValidTokens(a) && NoHead(a, head) && '<' !in head && '>' !in head
    ensures Find(Render(a), Begin(head)) == -1
  {
    var r := Find(Render(a), Begin(head));
    if r != -1 {
      assert a + [] == a;
      NoTagBefore(a, [], head, r);
    }
  }

  predicate NoField(tokens: seq<Token>, name: string) {
    NoHead(tokens, name) && NoHead(tokens, "/" + name)
  }

  lemma FindFieldEnd(a: seq<Token>, name: string, v: string, b: seq<Token>)
    requires ValidTokens(a) && NoField(a, name) && ValidName(name) && '<' !in v
    ensures Find(Render((a + [Token(name, v)]) + [Token("/" + name, "")] + b), End(name))
         == |Render(a)| + |Begin(name)| + |v|
  {
    var open, close := Token(name, v), Token("/" + name, "");
    assert close.head[0] == '/' && open.head != close.head;
    FindToken(a + [open], close, b);
    RenderConcat(a, [open]);
    assert Render([open]) == open.Render();
    assert Begin(close.head) == End(name);
  }

  /** Where the two tags of a field are found. */
  lemma FindField(a: seq<Token>, name: string, v: string, b: seq<Token>)
    requires ValidTokens(a) && NoField(a, name) && ValidName(name) && '<' !in v
    ensures
      var s := Render(a + Element(name, Some(v)) + b);
      Find(s, Begin(name)) == |Render(a)| &&
      Find(s, End(name)) == |Render(a)| + |Begin(name)| + |v|
  {
    var open, close := Token(name, v), Token("/" + name, "");
    var tokens := a + Element(name, Some(v)) + b;
    FindToken(a, open, [close] + b);
    FindFieldEnd(a, name, v, b);
    assert tokens == a + [open] + ([close] + b);
    assert tokens == (a + [open]) + [close] + b;
  }

  lemma FindNoField(a: seq<Token>, name: string)
    requires ValidTokens(a) && NoField(a, name) && ValidName(name)
    ensures Find(Render(a), Begin(name)) == Find(Render(a), End(name)) == -1
  {
    FindAbsent(a, name);
    FindAbsent(a, "/" + name);
    assert Begin("/" + name) == End(name);
  }

  /** An edit at the right offsets replaces the text of the field and nothing else. */
  lemma EditPresent(base: string, text: string, x: string, name: string, v: string, y: string)
    requires Find(base, Begin(name)) == |x| > 0
    requires Find(base, End(name)) == |x| + |Begin(name)| + |v|
    requires text == x + (Begin(name) + v + y)
    ensures EditField(base, text, name) == x + (Begin(name) + MASK + y)
  {
    var tag := Begin(name);
    assert text == (x + tag) + (v + y);
    SliceAtBoundary(x + tag, v + y);
    assert text == (x + tag + v) + y;
    SliceAtBoundary(x + tag + v, y);
    assert (x + tag) + MASK + y == x + (tag + MASK + y);
  }

  lemma RenderAround(a: seq<Token>, name: string, v: Option<string>, b: seq<Token>)
    ensures Render(a + Element(name, v) + b) == Render(a) + (ElementText(name, v) + Render(b))
  {
    assert a + Element(name, v) + b == a + (Element(name, v) + b);
    RenderConcat(a, Element(name, v) + b);
    RenderConcat(Element(name, v), b);
    RenderElement(name, v);
  }

  function MaskOption(v: Option<string>): Option<string> {
    match v
    case None => None
    case Some(_) => Some(MASK)
  }

  predicate FieldText(v: Option<string>) {
    v.Some? ==> '<' !in v.value && '>' !in v.value
  }

  lemma RenderAroundPresent(a: seq<Token>, name: string, v: string, b: seq<Token>)
    ensures Render(a + Element(name, Some(v)) + b) == Render(a) + (Begin(name) + v + (End(name) + Render(b)))
  {
    RenderAround(a, name, Some(v), b);
    assert ElementText(name, Some(v)) + Render(b) == Begin(name) + v + (End(name) + Render(b));
  }

  lemma RenderNotEmpty(a: seq<Token>)
    requires a != []
    ensures |Render(a)| > 0
  {
    assert |a[0].Render()| > 0;
  }

  lemma EditPresentTokens(a: seq<Token>, name: string, v: string, b: seq<Token>, b': seq<Token>)
    requires a != [] && ValidTokens(a) && NoField(a, name)
    requires ValidName(name) && '<' !in v
    ensures EditField(Render(a + Element(name, Some(v)) + b), Render(a + Element(name, Some(v)) + b'), name)
         == Render(a + Element(name, Some(MASK)) + b')
  {
    FindField(a, name, v, b);
    RenderNotEmpty(a);
    RenderAroundPresent(a, name, v, b');
    RenderAroundPresent(a, name, MASK, b');
    EditPresent(Render(a + Element(name, Some(v)) + b), Render(a + Element(name, Some(v)) + b'),
                Render(a), name, v, End(name) + Render(b'));
  }

  /** Masking one field of a text whose field has not moved since its offsets were taken. */
  lemma EditTokens(a: seq<Token>, name: string, v: Option<string>, b: seq<Token>, b': seq<Token>)
    requires a != [] && ValidTokens(a) && ValidTokens(b) && NoField(a, name) && NoField(b, name)
    requires ValidName(name) && FieldText(v)
    ensures EditField(Render(a + Element(name, v) + b), Render(a + Element(name, v) + b'), name)
         == Render(a + Element(name, MaskOption(v)) + b')
  {
    if v.None? {
      assert a + Element(name, v) + b == a + b;
      FindNoField(a + b, name);
    } else {
      EditPresentTokens(a, name, v.value, b, b');
    }
  }

  /** A document with a plain field, later a docker field, and three parts around them. */
  function Document(a: seq<Token>, plain: string, pv: Option<string>, b: seq<Token>,
                    docker: string, dv: Option<string>, c: seq<Token>): seq<Token>
  {
    a + Element(plain, pv) + b + Element(docker, dv) + c
  }

  predicate Surroundings(tokens: seq<Token>, plain: string, docker: string) {
    ValidTokens(tokens) && NoField(tokens, plain) && NoField(tokens, docker)
  }

  lemma ElementSurroundings(name: string, v: Option<string>, other: string)
    requires ValidName(name) && ValidName(other) && name != other && FieldText(v)
    ensures ValidTokens(Element(name, v)) && NoField(Element(name, v), other)
  {
    assert ("/" + name)[1..] == name && ("/" + other)[1..] == other;
    assert '<' !in "/" + name && '>' !in "/" + name;
  }

  lemma DocumentParts(a: seq<Token>, plain: string, pv: Option<string>, b: seq<Token>,
                      docker: string, dv: Option<string>, c: seq<Token>)
    ensures Document(a, plain, pv, b, docker, dv, c)
         == a + Element(plain, pv) + (b + Element(docker, dv) + c)
  {
  }

  lemma SurroundingsConcat(x: seq<Token>, y: seq<Token>, z: seq<Token>, name: string)
    requires ValidTokens(x) && ValidTokens(y) && ValidTokens(z)
    requires NoField(x, name) && NoField(y, name) && NoField(z, name)
    ensures ValidTokens(x + y + z) && NoField(x + y + z, name)
  {
  }

  /**
   * Both edits together mask exactly the two fields, although the second uses offsets taken
   * before the first: the plain field comes first, so the docker edit does not move it.
   */
  lemma MaskFieldsDocument(a: seq<Token>, plain: string, pv: Option<string>, b: seq<Token>,
                           docker: string, dv: Option<string>, c: seq<Token>)
    requires ValidName(plain) && ValidName(docker) && plain != docker
    requires Surroundings(a, plain, docker) && Surroundings(b, plain, docker) && Surroundings(c, plain, docker)
    requires a != [] && FieldText(pv) && FieldText(dv)
    ensures MaskFields(Render(Document(a, plain, pv, b, docker, dv, c)), docker, plain)
         == Render(Document(a, plain, MaskOption(pv), b, docker, MaskOption(dv), c))
  {
    ElementSurroundings(plain, pv, docker);
    ElementSurroundings(docker, dv, plain);
    var before := a + Element(plain, pv) + b;
    SurroundingsConcat(a, Element(plain, pv), b, docker);
    EditTokens(before, docker, dv, c, c);
    var after, after' := b + Element(docker, dv) + c, b + Element(docker, MaskOption(dv)) + c;
    SurroundingsConcat(b, Element(docker, dv), c, plain);
    EditTokens(a, plain, pv, after, after');
    DocumentParts(a, plain, pv, b, docker, dv, c);
    DocumentParts(a, plain, pv, b, docker, MaskOption(dv), c);
    DocumentParts(a, plain, MaskOption(pv), b, docker, MaskOption(dv), c);
  }

  /** The first edit, when the docker field comes first. */
  lemma FirstEditDockerFirst(a: seq<Token>, docker: string, v: string, b: seq<Token>,
                             plain: string, w: string, c: seq<Token>)
    requires ValidName(plain) && ValidName(docker) && plain != docker
    requires Surroundings(a, plain, docker) && Surroundings(b, plain, docker) && Surroundings(c, plain, docker)
    requires a != [] && FieldText(Some(v)) && FieldText(Some(w))
    ensures
      var s := Render(Document(a, docker, Some(v), b, plain, Some(w), c));
      EditField(s, s, docker) == Render(Document(a, docker, Some(MASK), b, plain, Some(w), c))
  {
    var after := b + Element(plain, Some(w)) + c;
    ElementSurroundings(plain, Some(w), docker);
    SurroundingsConcat(b, Element(plain, Some(w)), c, docker);
    DocumentParts(a, docker, Some(v), b, plain, Some(w), c);
    DocumentParts(a, docker, Some(MASK), b, plain, Some(w), c);
    EditTokens(a, docker, Some(v), after, after);
  }

  /** A second edit by `n` characters off its field: `x` ends with the begin tag, `y` begins with the end tag. */
  function ShiftedEdit(x: string, w: string, y: string, n: int): string {
    SliceTo(x + (w + y), |x| + n) + MASK + SliceFrom(x + (w + y), |x| + n + |w|)
  }

  predicate AroundField(x: string, w: string, y: string) {
    x != "" && x[|x| - 1] == '>' && y != "" && y[0] == '<' && '<' !in w
  }

  /** Too far to the left, the mask overwrites the end of the begin tag. */
  lemma ShiftedLeft(x: string, w: string, y: string, n: int)
    requires AroundField(x, w, y) && -|MASK| <= n < 0 < |x| + n
    ensures ShiftedEdit(x, w, y, n) != x + (MASK + y)
  {
    var s := x + (w + y);
    assert SliceTo(s, |x| + n) == x[..|x| + n];
    assert ShiftedEdit(x, w, y, n)[|x| - 1] == MASK[-n - 1] == 'X';
    assert (x + (MASK + y))[|x| - 1] == '>';
  }

  /** A little too far to the right, a part of the value stays. */
  lemma ShiftedInto(x: string, w: string, y: string, n: nat)
    requires AroundField(x, w, y) && 0 < n <= |w|
    ensures ShiftedEdit(x, w, y, n) != x + (MASK + y)
  {
    var s, k := x + (w + y), |x| + |MASK|;
    assert SliceTo(s, |x| + n) == x + w[..n];
    var r := ShiftedEdit(x, w, y, n);
    assert r == x + (w[..n] + (MASK + SliceFrom(s, |x| + n + |w|)));
    assert r[k] == if n > 5 then w[5] else MASK[5 - n];
    assert (x + (MASK + y))[k] == y[0];
  }

  /** Further to the right the whole value stays, with some of the following text, before the mask. */
  lemma BeyondText(x: string, w: string, y: string, n: nat)
    requires |w| < n
    ensures
      var j, i := if n - |w| > |y| then |y| else n - |w|, if n > |y| then |y| else n;
      ShiftedEdit(x, w, y, n) == x + (w + (y[..j] + (MASK + y[i..])))
  {
    var s := x + (w + y);
    var j, i := if n - |w| > |y| then |y| else n - |w|, if n > |y| then |y| else n;
    assert SliceTo(s, |x| + n) == x + (w + y[..j]);
    assert SliceFrom(s, |x| + n + |w|) == y[i..];
  }

  /** That is right only if the value is the mask already. */
  lemma BeyondNeedsMask(x: string, w: string, y: string, rest: string)
    requires AroundField(x, w, y) && rest != "" && rest[0] == '<'
    ensures x + (w + rest) == x + (MASK + y) <==> w == MASK && rest == y
  {
    var r, c := w + rest, MASK + y;
    assert (x + r)[|x|..] == r && (x + c)[|x|..] == c;
    if |w| < |MASK| {
      assert c[|w|] == 'X' && r[|w|] == '<';
    } else if |w| > |MASK| {
      assert r[|MASK|] == w[|MASK|] && c[|MASK|] == '<';
    } else {
      assert r[..|w|] == w && c[..|w|] == MASK;
      assert r[|w|..] == rest && c[|w|..] == y;
    }
  }

  lemma CopyHit(y: string, j: nat, i: nat)
    requires j <= i <= |y|
    ensures y[..j] + (MASK + y[i..]) == y <==> y[j..i] == MASK
  {
    var t := y[..j] + (MASK + y[i..]);
    assert y == y[..j] + (y[j..i] + y[i..]);
    if t == y {
      assert |t| == j + |MASK| + |y| - i;
      assert t[j..i] == MASK;
    }
  }

  /** And then another copy of the mask must be hit. */
  lemma ShiftedBeyond(x: string, w: string, y: string, n: nat)
    requires AroundField(x, w, y) && |w| < n
    ensures ShiftedEdit(x, w, y, n) == x + (MASK + y) <==> HitsMask(w, y, n)
  {
    hide ShiftedEdit;
    var j, i := if n - |w| > |y| then |y| else n - |w|, if n > |y| then |y| else n;
    var rest := y[..j] + (MASK + y[i..]);
    BeyondText(x, w, y, n);
    assert j > 0 && rest[0] == y[0];
    BeyondNeedsMask(x, w, y, rest);
    CopyHit(y, j, i);
  }

  /** The value is the mask, and `n` characters on, the following text ends with a copy of it. */
  predicate HitsMask(w: string, y: string, n: int) {
    w == MASK && |MASK| < n <= |y| && y[n - |MASK|..n] == MASK
  }

  lemma ShiftedExactly(x: string, w: string, y: string, n: int)
    requires AroundField(x, w, y) && -|MASK| <= n && 0 < |x| + n
    ensures ShiftedEdit(x, w, y, n) == x + (MASK + y) <==> n == 0 || HitsMask(w, y, n)
  {
    hide ShiftedEdit;
    if n < 0 {
      ShiftedLeft(x, w, y, n);
    } else if n == 0 {
      ShiftedNot(x, w, y);
    } else if n <= |w| {
      ShiftedInto(x, w, y, n);
    } else {
      ShiftedBeyond(x, w, y, n);
    }
  }

  lemma ShiftedNot(x: string, w: string, y: string)
    ensures ShiftedEdit(x, w, y, 0) == x + (MASK + y)
  {
    SliceAtBoundary(x, w + y);
    assert x + (w + y) == (x + w) + y;
    SliceAtBoundary(x + w, y);
  }

  lemma RenderPlainField(a: seq<Token>, name: string, v: string, b: seq<Token>)
    ensures Render(a + Element(name, Some(v)) + b)
         == (Render(a) + Begin(name)) + (v + (End(name) + Render(b)))
  {
    RenderAroundPresent(a, name, v, b);
  }

  /**
   * The order is needed: with the docker field first, the plain field moves between taking the offsets
   * and the second edit unless the docker value is as long as the mask. Otherwise the result is right
   * only where the plain value happens to be the mask and the edit hits another copy of the mask.
   */
  lemma DockerFirstExactly(a: seq<Token>, docker: string, v: string, b: seq<Token>,
                           plain: string, w: string, c: seq<Token>)
    requires ValidName(plain) && ValidName(docker) && plain != docker
    requires Surroundings(a, plain, docker) && Surroundings(b, plain, docker) && Surroundings(c, plain, docker)
    requires a != [] && FieldText(Some(v)) && FieldText(Some(w))
    ensures MaskFields(Render(Document(a, docker, Some(v), b, plain, Some(w), c)), docker, plain)
         == Render(Document(a, docker, Some(MASK), b, plain, Some(MASK), c))
       <==> |v| == |MASK| || HitsMask(w, End(plain) + Render(c), |v| - |MASK|)
  {
    hide Render, ShiftedEdit, Find, HitsMask;
    var n := |v| - |MASK|;
    var base := Render(Document(a, docker, Some(v), b, plain, Some(w), c));
    var before := a + Element(docker, Some(MASK)) + b;
    var x, y := Render(before) + Begin(plain), End(plain) + Render(c);
    FirstEditDockerFirst(a, docker, v, b, plain, w, c);
    PlainOffsets(a, docker, v, b, plain, w, c);
    RenderPlainField(before, plain, w, c);
    RenderPlainField(before, plain, MASK, c);
    assert EditField(base, x + (w + y), plain) == ShiftedEdit(x, w, y, n) by { hide *; ShiftedIs(base, x, plain, w, y, n); }
    ShiftedExactly(x, w, y, n);
  }

  lemma ShiftedIs(base: string, x: string, name: string, w: string, y: string, n: int)
    requires 0 < Find(base, Begin(name)) && Find(base, Begin(name)) + |Begin(name)| == |x| + n
    requires Find(base, End(name)) == |x| + n + |w|
    ensures EditField(base, x + (w + y), name) == ShiftedEdit(x, w, y, n)
  {
  }

  lemma PlainOffsets(a: seq<Token>, docker: string, v: string, b: seq<Token>,
                     plain: string, w: string, c: seq<Token>)
    requires ValidName(plain) && ValidName(docker) && plain != docker
    requires Surroundings(a, plain, docker) && Surroundings(b, plain, docker) && a != []
    requires FieldText(Some(v)) && FieldText(Some(w))
    ensures
      var base := Render(Document(a, docker, Some(v), b, plain, Some(w), c));
      var n := |Render(a + Element(docker, Some(MASK)) + b)| + |v| - |MASK|;
      && 0 < n == Find(base, Begin(plain))
      && Find(base, End(plain)) == n + |Begin(plain)| + |w|
  {
    ElementSurroundings(docker, Some(v), plain);
    SurroundingsConcat(a, Element(docker, Some(v)), b, plain);
    FindField(a + Element(docker, Some(v)) + b, plain, w, c);
    RenderAroundPresent(a, docker, v, b);
    RenderAroundPresent(a, docker, MASK, b);
    RenderNotEmpty(a);
  }
}
