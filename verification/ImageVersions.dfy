/** Version numbers as text, the way Go's strconv writes and reads them. */
module VersionText {
  import opened Options
  import opened PyStrings

  const MAX_INT := 0x7fff_ffff_ffff_ffff
  const MIN_INT := -0x8000_0000_0000_0000

  function Digit(d: nat): char
    requires d < 10
  {
    "0123456789"[d]
  }

  function DigitValue(c: char): Option<nat> {
    if '0' <= c <= '9' then Some((c as int - '0' as int) as nat) else None
  }

  function Digits(n: nat): string {
    if n < 10 then [Digit(n)] else Digits(n / 10) + [Digit(n % 10)]
  }

  /** `strconv.Itoa` */
  function Itoa(n: int): string {
    if n < 0 then "-" + Digits(-n) else Digits(n)
  }

  function ParseDigits(s: string): Option<nat> {
    if s == "" then None
    else
      match DigitValue(s[|s| - 1])
      case None => None
      case Some(d) =>
        if |s| == 1 then Some(d)
        else
          match ParseDigits(s[..|s| - 1])
          case None => None
          case Some(n) => Some(10 * n + d)
  }

  /** `strconv.Atoi`: an optional sign and decimal digits, within 64 bits */
  function Atoi(s: string): Option<int> {
    var (sign, digits) := if s != "" && s[0] == '-' then (-1, s[1..])
                          else if s != "" && s[0] == '+' then (1, s[1..])
                          else (1, s);
    match ParseDigits(digits)
    case None => None
    case Some(n) => if MIN_INT <= sign * n <= MAX_INT then Some(sign * n) else None
  }

  lemma DigitRoundTrip(d: nat)
    requires d < 10
    ensures DigitValue(Digit(d)) == Some(d)
  {
  }

  lemma {:induction false} DigitsRoundTrip(n: nat)
    ensures ParseDigits(Digits(n)) == Some(n)
    ensures Digits(n) != "" && forall c <- Digits(n) :: '0' <= c <= '9'
  {
    if n < 10 {
      DigitRoundTrip(n);
    } else {
      DigitsRoundTrip(n / 10);
      DigitRoundTrip(n % 10);
      var s := Digits(n);
      assert s[..|s| - 1] == Digits(n / 10);
    }
  }

  /** Reading a version number back gives the number that was written. */
  lemma ItoaRoundTrip(n: int)
    requires MIN_INT <= n <= MAX_INT
    ensures Atoi(Itoa(n)) == Some(n)
  {
    hide Digits, ParseDigits;
    if n < 0 {
      DigitsRoundTrip(-n);
      assert Itoa(n)[1..] == Digits(-n);
    } else {
      DigitsRoundTrip(n);
      assert Digits(n)[0] in Digits(n);
    }
  }
}

/** Image tags and the daemon's images and containers. */
module Docker {
  import opened Options
  import opened PyStrings
  import opened VersionText

  /** An image and its tags, in the order the daemon lists them. */
  datatype Image = Image(id: nat, source: Source, tags: seq<string>)

  /** Where the contents of an image come from: a registry, or the container that was committed. */
  datatype Source = Pulled | CommittedFrom(container: nat)

  /** A container: the image name it was created from, when, and whether it runs. */
  datatype Container = Container(id: nat, image: string, created: int, running: bool)

  /** `GetImageTag`: version 0 is `latest`; version -1 is documented as no tag but is written out like the rest. */
  function ImageTag(name: string, version: int): string {
    name + (if version == 0 then ":latest" else ":" + Itoa(version))
  }

  /** `GetImageTagSuccessor`, on 64-bit integers */
  function SuccessorTag(name: string, version: int): string {
    name + ":" + Itoa(if version == MAX_INT then MIN_INT else version + 1)
  }

  /** No version gives the bare name, not even -1, whose tag is documented to be that. */
  lemma NeverBare(name: string, version: int)
    ensures ImageTag(name, version) != name
    ensures version == -1 ==> ImageTag(name, version) == name + ":-1"
  {
  }

  /** The version part of a tag of an image name. */
  predicate OfName(tag: string, name: string) {
    |name| < |tag| && tag[..|name|] == name && tag[|name|] == ':' && ':' !in tag[|name| + 1..]
  }

  /** The version `findLatestImage` reads: what follows the last colon, if it is a number. */
  function VersionOf(tag: string): Option<int> {
    var parts := Split(tag, ':');
    Atoi(parts[|parts| - 1])
  }

  lemma {:induction false} SplitLast(x: string, c: char, y: string)
    requires c !in y
    ensures
      var parts := Split(x + [c] + y, c);
      parts[|parts| - 1] == y
    decreases |x|
  {
    var n := IndexOf(x, c);
    if n == |x| {
      assert x[..n] == x;
      SplitCons(x, c, y);
      SplitFree(y, c);
    } else {
      var a, b := x[..n], x[n + 1..];
      assert x == a + [c] + b;
      assert x + [c] + y == a + [c] + (b + [c] + y);
      SplitCons(a, c, b + [c] + y);
      SplitLast(b, c, y);
    }
  }

  lemma VersionOfTag(name: string, x: string)
    requires ':' !in x
    ensures VersionOf(name + ":" + x) == Atoi(x)
    ensures OfName(name + ":" + x, name)
  {
    var tag := name + ":" + x;
    assert tag == name + [':'] + x;
    SplitLast(name, ':', x);
    assert tag[|name| + 1..] == x;
  }

  lemma LatestIsNoNumber()
    ensures Atoi("latest") == None
  {
    assert ParseDigits("latest") == None;
  }

  lemma ImageTagVersion(name: string, version: int)
    requires MIN_INT <= version <= MAX_INT
    ensures OfName(ImageTag(name, version), name)
    ensures VersionOf(ImageTag(name, version)) == if version == 0 then None else Some(version)
  {
    hide Split, Atoi, Itoa, Digits;
    if version == 0 {
      LatestIsNoNumber();
      assert ":latest" == ":" + "latest";
      assert name + ":latest" == name + ":" + "latest";
      VersionOfTag(name, "latest");
    } else {
      ItoaRoundTrip(version);
      ItoaNoColon(version);
      assert name + (":" + Itoa(version)) == name + ":" + Itoa(version);
      VersionOfTag(name, Itoa(version));
    }
  }

  lemma ItoaNoColon(n: int)
    ensures ':' !in Itoa(n)
  {
    hide Digits, ParseDigits;
    DigitsRoundTrip(if n < 0 then -n else n);
  }

  lemma ItoaInjective(v: int, w: int)
    requires Itoa(v) == Itoa(w)
    ensures v == w
  {
    hide Digits, ParseDigits;
    DigitsRoundTrip(if v < 0 then -v else v);
    DigitsRoundTrip(if w < 0 then -w else w);
    assert v >= 0 ==> Itoa(v)[0] in Digits(v);
    assert w >= 0 ==> Itoa(w)[0] in Digits(w);
    assert v < 0 ==> Itoa(v)[1..] == Digits(-v);
    assert w < 0 ==> Itoa(w)[1..] == Digits(-w);
  }

  lemma ItoaIsNotLatest(v: int)
    ensures ":latest" != ":" + Itoa(v)
  {
    hide Digits, ParseDigits;
    DigitsRoundTrip(if v < 0 then -v else v);
    assert v >= 0 ==> Itoa(v)[0] in Digits(v);
    assert ":latest"[1] == 'l' && (":" + Itoa(v))[1] == Itoa(v)[0];
  }

  /** Different versions have different tags. */
  lemma ImageTagInjective(name: string, v: int, w: int)
    requires ImageTag(name, v) == ImageTag(name, w)
    ensures v == w
  {
    hide Itoa;
    var x := if v == 0 then ":latest" else ":" + Itoa(v);
    var y := if w == 0 then ":latest" else ":" + Itoa(w);
    assert x == (name + x)[|name|..] && y == (name + y)[|name|..];
    ItoaIsNotLatest(v);
    ItoaIsNotLatest(w);
    if v != 0 && w != 0 {
      assert Itoa(v) == x[1..] && Itoa(w) == y[1..];
      ItoaInjective(v, w);
    }
  }

  function TagsOf(images: seq<Image>): set<string> {
    set i, tag | 0 <= i < |images| && tag in images[i].tags :: tag
  }

  function Without(tags: seq<string>, tag: string): seq<string> {
    if tags == [] then []
    else (if tags[0] == tag then [] else [tags[0]]) + Without(tags[1..], tag)
  }

  /** Removing a tag; an image that loses its last tag is gone. */
  function Untag(images: seq<Image>, tag: string): seq<Image> {
    if images == [] then []
    else
      var tags := Without(images[0].tags, tag);
      (if tags == [] then [] else [images[0].(tags := tags)]) + Untag(images[1..], tag)
  }

  /** The tags of an image that belong to a name. */
  function TagsNamed(tags: seq<string>, name: string): seq<string> {
    if tags == [] then []
    else (if OfName(tags[0], name) then [tags[0]] else []) + TagsNamed(tags[1..], name)
  }

  /** `ImageList` with a reference filter: the images of a name, each with its tags of that name. */
  function Listed(images: seq<Image>, name: string): seq<Image> {
    if images == [] then []
    else
      var tags := TagsNamed(images[0].tags, name);
      (if tags == [] then [] else [images[0].(tags := tags)]) + Listed(images[1..], name)
  }

  lemma {:induction false} WithoutMembers(tags: seq<string>, tag: string)
    ensures forall t :: t in Without(tags, tag) <==> t in tags && t != tag
    ensures tag !in tags ==> Without(tags, tag) == tags
  {
    if tags != [] {
      WithoutMembers(tags[1..], tag);
      assert tags == [tags[0]] + tags[1..];
    }
  }

  lemma TagsOfCons(image: Image, images: seq<Image>)
    ensures TagsOf([image] + images) == (set t | t in image.tags) + TagsOf(images)
  {
    var all := [image] + images;
    forall t
      ensures t in TagsOf(all) <==> t in image.tags || t in TagsOf(images)
    {
      if t in image.tags {
        assert t in all[0].tags;
      }
      if t in TagsOf(images) {
        var i :| 0 <= i < |images| && t in images[i].tags;
        assert t in all[i + 1].tags;
      }
      if t in TagsOf(all) {
        var i :| 0 <= i < |all| && t in all[i].tags;
        assert i > 0 ==> t in images[i - 1].tags;
      }
    }
  }

  /** Untagging removes that tag and no other. */
  lemma {:induction false} UntagTags(images: seq<Image>, tag: string)
    ensures TagsOf(Untag(images, tag)) == TagsOf(images) - {tag}
  {
    hide TagsOf, Without;
    if images == [] {
      assert TagsOf([]) == {} by { NoTags(); }
    } else {
      var first, rest := images[0], images[1..];
      assert images == [first] + rest;
      UntagTags(rest, tag);
      var tags := Without(first.tags, tag);
      WithoutMembers(first.tags, tag);
      TagsOfCons(first, rest);
      TagsOfCons(first.(tags := tags), Untag(rest, tag));
      if tags == [] {
        assert [] + Untag(rest, tag) == Untag(rest, tag);
      }
    }
  }

  lemma NoTags()
    ensures TagsOf([]) == {}
  {
  }

  predicate AllTagged(images: seq<Image>) {
    forall image <- images :: image.tags != []
  }

  /** Removing a tag that no image has changes nothing. */
  lemma {:induction false} UntagAbsent(images: seq<Image>, tag: string)
    requires AllTagged(images) && tag !in TagsOf(images)
    ensures Untag(images, tag) == images
  {
    hide TagsOf, Without;
    if images != [] {
      var first, rest := images[0], images[1..];
      assert images == [first] + rest;
      assert first in images && forall image <- rest :: image in images;
      TagsOfCons(first, rest);
      WithoutMembers(first.tags, tag);
      UntagAbsent(rest, tag);
      assert first.(tags := first.tags) == first;
    }
  }

  lemma {:induction false} UntagConcat(a: seq<Image>, b: seq<Image>, tag: string)
    ensures Untag(a + b, tag) == Untag(a, tag) + Untag(b, tag)
  {
    if a == [] {
      assert a + b == b;
    } else {
      assert (a + b)[1..] == a[1..] + b;
      UntagConcat(a[1..], b, tag);
    }
  }

  /** Committing an image under a tag: any other image loses the tag. */
  function Commit(images: seq<Image>, id: nat, source: Source, tag: string): seq<Image> {
    Untag(images, tag) + [Image(id, source, [tag])]
  }

  lemma {:induction false} TagsOfConcat(a: seq<Image>, b: seq<Image>)
    ensures TagsOf(a + b) == TagsOf(a) + TagsOf(b)
  {
    hide TagsOf;
    if a == [] {
      NoTags();
      assert a + b == b;
    } else {
      assert a + b == [a[0]] + (a[1..] + b);
      assert a == [a[0]] + a[1..];
      TagsOfConcat(a[1..], b);
      TagsOfCons(a[0], a[1..] + b);
      TagsOfCons(a[0], a[1..]);
    }
  }

  lemma CommitTags(images: seq<Image>, id: nat, source: Source, tag: string)
    ensures TagsOf(Commit(images, id, source, tag)) == TagsOf(images) + {tag}
  {
    hide TagsOf, Untag;
    UntagTags(images, tag);
    TagsOfConcat(Untag(images, tag), [Image(id, source, [tag])]);
    NoTags();
    TagsOfCons(Image(id, source, [tag]), []);
    assert [Image(id, source, [tag])] + [] == [Image(id, source, [tag])];
  }

  /** The image that carries a freshly committed tag is the new one. */
  lemma CommitSource(images: seq<Image>, id: nat, source: Source, tag: string)
    ensures Image(id, source, [tag]) in Commit(images, id, source, tag)
    ensures forall image <- Commit(images, id, source, tag) | tag in image.tags :: image == Image(id, source, [tag])
  {
    hide TagsOf, Untag;
    UntagTags(images, tag);
    var left := Untag(images, tag);
    forall image <- left | tag in image.tags
      ensures false
    {
      TaggedIn(left, image, tag);
    }
    assert Commit(images, id, source, tag)[|left|] == Image(id, source, [tag]);
  }

  lemma TaggedIn(images: seq<Image>, image: Image, tag: string)
    requires image in images && tag in image.tags
    ensures tag in TagsOf(images)
  {
  }

  /** Whatever carries another tag then carried it before, and comes from where it came from. */
  lemma {:induction false} UntagSources(images: seq<Image>, tag: string, t: string)
    requires t != tag
    ensures forall image <- Untag(images, tag) | t in image.tags :: exists x <- images :: t in x.tags && x.source == image.source
  {
    if images != [] {
      var first, rest := images[0], images[1..];
      assert images == [first] + rest;
      UntagSources(rest, tag, t);
      WithoutMembers(first.tags, tag);
      forall image <- Untag(images, tag) | t in image.tags
        ensures exists x <- images :: t in x.tags && x.source == image.source
      {
        if image in Untag(rest, tag) {
          var x :| x in rest && t in x.tags && x.source == image.source;
          assert x in images;
        } else {
          assert image == first.(tags := Without(first.tags, tag));
          assert first in images;
        }
      }
    }
  }

  /** Removing a freshly committed tag gives back the images there were before. */
  lemma UntagCommit(images: seq<Image>, id: nat, source: Source, tag: string)
    requires AllTagged(images) && tag !in TagsOf(images)
    ensures Untag(Commit(images, id, source, tag), tag) == images
  {
    UntagAbsent(images, tag);
    UntagConcat(images, [Image(id, source, [tag])], tag);
    assert Without([tag], tag) == [];
    assert Untag([Image(id, source, [tag])], tag) == [];
  }

  lemma {:induction false} UntagTagged(images: seq<Image>, tag: string)
    ensures AllTagged(Untag(images, tag))
  {
    if images != [] {
      UntagTagged(images[1..], tag);
    }
  }

  /** No tag belongs to two images. */
  predicate Unique(images: seq<Image>) {
    images == []
    || ((forall tag <- images[0].tags :: tag !in TagsOf(images[1..])) && Unique(images[1..]))
  }

  lemma {:induction false} UntagUnique(images: seq<Image>, tag: string)
    requires Unique(images)
    ensures Unique(Untag(images, tag))
  {
    hide TagsOf, Without;
    if images != [] {
      UntagUnique(images[1..], tag);
      UntagTags(images[1..], tag);
      WithoutMembers(images[0].tags, tag);
      var tags := Without(images[0].tags, tag);
      if tags != [] {
        var image := images[0].(tags := tags);
        assert Untag(images, tag)[1..] == Untag(images[1..], tag);
      } else {
        assert Untag(images, tag) == Untag(images[1..], tag);
      }
    }
  }

  lemma {:induction false} UniqueAppend(images: seq<Image>, image: Image)
    requires Unique(images) && forall tag <- image.tags :: tag !in TagsOf(images)
    ensures Unique(images + [image])
  {
    hide TagsOf;
    if images == [] {
      NoTags();
      assert images + [image] == [image];
    } else {
      assert images == [images[0]] + images[1..];
      TagsOfCons(images[0], images[1..]);
      UniqueAppend(images[1..], image);
      TagsOfConcat(images[1..], [image]);
      TagsOfCons(image, []);
      NoTags();
      assert [image] + [] == [image];
      assert (images + [image])[1..] == images[1..] + [image];
    }
  }

  lemma CommitKeeps(images: seq<Image>, id: nat, source: Source, tag: string)
    requires Unique(images)
    ensures Unique(Commit(images, id, source, tag)) && AllTagged(Commit(images, id, source, tag))
  {
    hide TagsOf, Untag;
    UntagUnique(images, tag);
    UntagTagged(images, tag);
    UntagTags(images, tag);
    UniqueAppend(Untag(images, tag), Image(id, source, [tag]));
  }

  lemma ListedCons(image: Image, images: seq<Image>, name: string)
    ensures Listed([image] + images, name)
         == (if TagsNamed(image.tags, name) == [] then [] else [image.(tags := TagsNamed(image.tags, name))])
            + Listed(images, name)
  {
    assert ([image] + images)[1..] == images;
  }

  lemma UntagCons(image: Image, images: seq<Image>, tag: string)
    ensures Untag([image] + images, tag)
         == (if Without(image.tags, tag) == [] then [] else [image.(tags := Without(image.tags, tag))])
            + Untag(images, tag)
  {
    assert ([image] + images)[1..] == images;
  }

  /** Removing one tag takes at most one image off the list of a name. */
  lemma {:induction false} UntagCount(images: seq<Image>, tag: string, name: string)
    requires Unique(images) && AllTagged(images)
    ensures |Listed(Untag(images, tag), name)| >= |Listed(images, name)| - 1
  {
    hide TagsOf, Without, TagsNamed, Listed, Untag;
    if images == [] {
      UntagTagged([], tag);
      NoneListed(tag, name);
    } else {
      var first, rest := images[0], images[1..];
      assert images == [first] + rest;
      assert first in images && forall image <- rest :: image in images;
      WithoutMembers(first.tags, tag);
      var tags := Without(first.tags, tag);
      UntagCons(first, rest, tag);
      ListedCons(first, rest, name);
      ListedCons(first.(tags := tags), Untag(rest, tag), name);
      if tag in first.tags {
        UntagAbsent(rest, tag);
        assert [] + rest == rest;
      } else {
        UntagCount(rest, tag, name);
        assert first.(tags := tags) == first;
      }
    }
  }

  lemma NoneListed(tag: string, name: string)
    ensures Listed(Untag([], tag), name) == [] && Listed([], name) == []
  {
  }

  /** The highest version among the first tags listed, or 0. */
  function LatestOf(listed: seq<Image>): int
    requires AllTagged(listed)
  {
    if listed == [] then 0
    else
      var n := |listed| - 1;
      assert listed[n] in listed;
      var before := LatestOf(listed[..n]);
      match VersionOf(listed[n].tags[0])
      case None => before
      case Some(v) => if v > before then v else before
  }

  lemma {:induction false} ListedTagged(images: seq<Image>, name: string)
    ensures AllTagged(Listed(images, name))
  {
    if images != [] {
      ListedTagged(images[1..], name);
    }
  }

  /** The latest version is that of some listed first tag, unless it is 0, and no listed first tag has a higher one. */
  lemma {:induction false} LatestIsHighest(listed: seq<Image>)
    requires AllTagged(listed)
    ensures LatestOf(listed) >= 0
    ensures forall image <- listed :: VersionOf(image.tags[0]).Some? ==> VersionOf(image.tags[0]).value <= LatestOf(listed)
    ensures LatestOf(listed) == 0 || exists image <- listed :: VersionOf(image.tags[0]) == Some(LatestOf(listed))
  {
    hide VersionOf;
    if listed != [] {
      var n := |listed| - 1;
      assert listed == listed[..n] + [listed[n]];
      assert listed[n] in listed;
      LatestIsHighest(listed[..n]);
    }
  }

  lemma ImageTagOfName(name: string, version: int)
    ensures OfName(ImageTag(name, version), name)
  {
    hide Itoa;
    if version == 0 {
      assert ":latest" == ":" + "latest";
      assert name + ":latest" == name + ":" + "latest";
      VersionOfTag(name, "latest");
    } else {
      ItoaNoColon(version);
      assert name + (":" + Itoa(version)) == name + ":" + Itoa(version);
      VersionOfTag(name, Itoa(version));
    }
  }

  lemma {:induction false} TagsNamedMembers(tags: seq<string>, name: string)
    ensures forall t :: t in TagsNamed(tags, name) <==> t in tags && OfName(t, name)
  {
    if tags != [] {
      TagsNamedMembers(tags[1..], name);
      assert tags == [tags[0]] + tags[1..];
    }
  }

  /** The list of a name shows exactly the tags of that name. */
  lemma {:induction false} ListedTags(images: seq<Image>, name: string)
    ensures forall t :: t in TagsOf(Listed(images, name)) <==> t in TagsOf(images) && OfName(t, name)
  {
    hide TagsOf, TagsNamed, Listed, OfName;
    if images == [] {
      NoTags();
      NoneListed("", name);
    } else {
      var first, rest := images[0], images[1..];
      assert images == [first] + rest;
      ListedTags(rest, name);
      TagsNamedMembers(first.tags, name);
      var tags := TagsNamed(first.tags, name);
      ListedCons(first, rest, name);
      TagsOfCons(first, rest);
      if tags == [] {
        assert [] + Listed(rest, name) == Listed(rest, name);
        assert forall t :: t in tags <==> t in first.tags && OfName(t, name);
      } else {
        TagsOfCons(first.(tags := tags), Listed(rest, name));
      }
    }
  }

  lemma {:induction false} ListedUnique(images: seq<Image>, name: string)
    requires Unique(images)
    ensures Unique(Listed(images, name))
  {
    hide TagsOf, TagsNamed, OfName;
    if images != [] {
      ListedUnique(images[1..], name);
      ListedTags(images[1..], name);
      TagsNamedMembers(images[0].tags, name);
      var tags := TagsNamed(images[0].tags, name);
      if tags == [] {
        assert Listed(images, name) == Listed(images[1..], name);
      } else {
        assert Listed(images, name)[1..] == Listed(images[1..], name);
      }
    }
  }

  /** The listed images and their first tags, which the latest version is read from. */
  predicate FirstTag(listed: seq<Image>, tag: string) {
    exists image <- listed :: image.tags != [] && image.tags[0] == tag
  }

  lemma TagsNamedCons(t: string, tags: seq<string>, name: string)
    ensures TagsNamed([t] + tags, name) == (if OfName(t, name) then [t] else []) + TagsNamed(tags, name)
  {
    assert ([t] + tags)[1..] == tags;
  }

  lemma {:induction false} NamedWithout(tags: seq<string>, tag: string, name: string)
    requires TagsNamed(Without(tags, tag), name) != []
    requires TagsNamed(tags, name) != [] ==> TagsNamed(tags, name)[0] != tag
    ensures TagsNamed(tags, name) != [] && TagsNamed(Without(tags, tag), name)[0] == TagsNamed(tags, name)[0]
  {
    hide OfName, TagsNamed;
    if tags == [] {
      EmptyNamed(name);
    } else {
      var t, rest := tags[0], tags[1..];
      assert tags == [t] + rest;
      TagsNamedCons(t, rest, name);
      TagsNamedCons(t, Without(rest, tag), name);
      if OfName(t, name) {
        assert t != tag;
        assert Without(tags, tag) == [t] + Without(rest, tag);
      } else {
        assert [] + TagsNamed(rest, name) == TagsNamed(rest, name);
        assert [] + TagsNamed(Without(rest, tag), name) == TagsNamed(Without(rest, tag), name);
        assert [] + Without(rest, tag) == Without(rest, tag);
        NamedWithout(rest, tag, name);
      }
    }
  }

  lemma FirstTagCons(image: Image, listed: seq<Image>, tag: string)
    ensures FirstTag([image] + listed, tag) <==> (image.tags != [] && image.tags[0] == tag) || FirstTag(listed, tag)
  {
    var all := [image] + listed;
    assert image in all;
    assert forall x :: x in all <==> x == image || x in listed;
  }

  /** Removing a tag that is nowhere the first does not bring any other tag to the front. */
  lemma {:induction false} UntagFirst(images: seq<Image>, tag: string, name: string)
    requires !FirstTag(Listed(images, name), tag)
    ensures forall t :: FirstTag(Listed(Untag(images, tag), name), t) ==> FirstTag(Listed(images, name), t)
  {
    hide TagsNamed, Without, Listed, Untag, FirstTag;
    if images == [] {
      NoneListed(tag, name);
    } else {
      var first, rest := images[0], images[1..];
      assert images == [first] + rest;
      var tags, named := Without(first.tags, tag), TagsNamed(first.tags, name);
      ListedCons(first, rest, name);
      UntagCons(first, rest, tag);
      ListedCons(first.(tags := tags), Untag(rest, tag), name);
      assert [] + Listed(rest, name) == Listed(rest, name);
      FirstTagCons(first.(tags := named), Listed(rest, name), tag);
      UntagFirst(rest, tag, name);
      assert [] + Untag(rest, tag) == Untag(rest, tag);
      assert [] + Listed(Untag(rest, tag), name) == Listed(Untag(rest, tag), name);
      EmptyNamed(name);
      var named' := TagsNamed(tags, name);
      if named' != [] {
        NamedWithout(first.tags, tag, name);
      }
      forall t
        ensures FirstTag(Listed(Untag(images, tag), name), t) ==> FirstTag(Listed(images, name), t)
      {
        FirstTagCons(first.(tags := named), Listed(rest, name), t);
        FirstTagCons(first.(tags := named'), Listed(Untag(rest, tag), name), t);
      }
    }
  }

  lemma EmptyNamed(name: string)
    ensures TagsNamed([], name) == []
  {
  }

  lemma {:induction false} ListedConcat(a: seq<Image>, b: seq<Image>, name: string)
    ensures Listed(a + b, name) == Listed(a, name) + Listed(b, name)
  {
    hide TagsNamed;
    if a == [] {
      assert a + b == b;
    } else {
      assert (a + b)[1..] == a[1..] + b;
      ListedConcat(a[1..], b, name);
    }
  }
}
