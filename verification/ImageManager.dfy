/** Snapshot, rollback and pruning of image versions, over a daemon whose calls may fail. */
module ImageManager {
  import opened Docker
  import opened Options
  import opened PyStrings
  import opened VersionText

  /** Containers have distinct ids, and ids from `nextId` on are unused. */
  predicate ValidContainers(containers: seq<Container>, nextId: nat) {
    && (forall c <- containers :: c.id < nextId)
    && (forall i, j | 0 <= i < j < |containers| :: containers[i].id != containers[j].id)
  }

  function SetRunning(containers: seq<Container>, id: nat, running: bool): (r: seq<Container>)
    ensures |r| == |containers|
    ensures forall i | 0 <= i < |r| ::
      r[i] == if containers[i].id == id then containers[i].(running := running) else containers[i]
  {
    if containers == [] then []
    else
      [if containers[0].id == id then containers[0].(running := running) else containers[0]]
      + SetRunning(containers[1..], id, running)
  }

  function RemoveId(containers: seq<Container>, id: nat): (r: seq<Container>)
    ensures forall c :: c in r <==> c in containers && c.id != id
    ensures |r| <= |containers|
  {
    if containers == [] then []
    else
      assert containers == [containers[0]] + containers[1..];
      (if containers[0].id == id then [] else [containers[0]]) + RemoveId(containers[1..], id)
  }

  lemma {:induction false} RemoveIdValid(containers: seq<Container>, id: nat, nextId: nat)
    requires ValidContainers(containers, nextId)
    ensures ValidContainers(RemoveId(containers, id), nextId)
  {
    if containers != [] {
      var rest := containers[1..];
      assert forall c <- rest :: c in containers;
      RemoveIdValid(rest, id, nextId);
      var r := RemoveId(rest, id);
      forall i | 0 <= i < |r|
        ensures r[i].id != containers[0].id
      {
        assert r[i] in r && r[i] in rest;
      }
    }
  }

  /** A container of an image name that none of that name was created after. */
  predicate IsLatest(containers: seq<Container>, image: string, c: Container) {
    c in containers && c.image == image
    && forall d <- containers | d.image == image :: d.created <= c.created
  }

  predicate HasContainer(containers: seq<Container>, image: string) {
    exists c <- containers :: c.image == image
  }

  /** Containers of the same image name were created at different times. */
  predicate DistinctTimes(containers: seq<Container>) {
    forall c, d | c in containers && d in containers && c.image == d.image && c.created == d.created :: c.id == d.id
  }

  /** The containers of an image name, in the order they are kept. */
  function OfImage(containers: seq<Container>, image: string): (r: seq<Container>)
    ensures forall c :: c in r <==> c in containers && c.image == image
  {
    if containers == [] then []
    else
      assert containers == [containers[0]] + containers[1..];
      (if containers[0].image == image then [containers[0]] else []) + OfImage(containers[1..], image)
  }

  /** Only containers of the given image names may have changed. */
  ghost predicate Untouched(containers: seq<Container>, containers': seq<Container>, images: set<string>) {
    forall image | image !in images :: OfImage(containers', image) == OfImage(containers, image)
  }

  /** One container of an image name is gone. */
  ghost predicate OneFewer(containers: seq<Container>, containers': seq<Container>, image: string) {
    |OfImage(containers', image)| == |OfImage(containers, image)| - 1
  }

  lemma {:induction false} SetRunningOf(containers: seq<Container>, id: nat, running: bool, image: string)
    ensures |OfImage(SetRunning(containers, id, running), image)| == |OfImage(containers, image)|
    ensures (forall c <- containers | c.image == image :: c.id != id) ==>
      OfImage(SetRunning(containers, id, running), image) == OfImage(containers, image)
  {
    hide OfImage;
    if containers == [] {
      assert SetRunning(containers, id, running) == containers;
    } else {
      var first, rest := containers[0], containers[1..];
      assert containers == [first] + rest;
      var first' := if first.id == id then first.(running := running) else first;
      assert SetRunning(containers, id, running) == [first'] + SetRunning(rest, id, running);
      SetRunningOf(rest, id, running, image);
      OfImageFirst(first, rest, image);
      OfImageFirst(first', SetRunning(rest, id, running), image);
    }
  }

  lemma OfImageFirst(c: Container, rest: seq<Container>, image: string)
    ensures OfImage([c] + rest, image) == (if c.image == image then [c] else []) + OfImage(rest, image)
  {
    assert ([c] + rest)[1..] == rest;
  }

  lemma {:induction false} RemoveIdOf(containers: seq<Container>, id: nat, image: string)
    requires forall c <- containers | c.image == image :: c.id != id
    ensures OfImage(RemoveId(containers, id), image) == OfImage(containers, image)
  {
    if containers != [] {
      assert containers[0] in containers && forall c <- containers[1..] :: c in containers;
      RemoveIdOf(containers[1..], id, image);
      if containers[0].id != id {
        assert RemoveId(containers, id)[1..] == RemoveId(containers[1..], id);
      } else {
        assert RemoveId(containers, id) == RemoveId(containers[1..], id);
      }
    }
  }

  lemma {:induction false} RemoveIdOne(containers: seq<Container>, nextId: nat, c: Container)
    requires ValidContainers(containers, nextId) && c in containers
    ensures OneFewer(containers, RemoveId(containers, c.id), c.image)
  {
    var rest := containers[1..];
    assert forall x <- rest :: x in containers;
    if containers[0].id == c.id {
      SameId(containers, nextId, c, containers[0]);
      forall x <- rest
        ensures x.id != c.id
      {
        var i :| 0 <= i < |rest| && rest[i] == x;
        assert containers[i + 1] == x;
      }
      RemoveIdOf(rest, c.id, c.image);
      assert RemoveId(containers, c.id) == RemoveId(rest, c.id);
    } else {
      RemoveIdOne(rest, nextId, c);
      assert RemoveId(containers, c.id)[1..] == RemoveId(rest, c.id);
    }
  }

  lemma {:induction false} LatestExists(containers: seq<Container>, image: string)
    requires HasContainer(containers, image)
    ensures exists c :: IsLatest(containers, image, c)
  {
    var n := |containers| - 1;
    var rest, last := containers[..n], containers[n];
    assert containers == rest + [last];
    if HasContainer(rest, image) {
      LatestExists(rest, image);
      var c :| IsLatest(rest, image, c);
      if last.image == image && last.created > c.created {
        assert IsLatest(containers, image, last);
      } else {
        assert IsLatest(containers, image, c);
      }
    } else {
      assert IsLatest(containers, image, last);
    }
  }

  class Daemon {
    /** whether the n-th call ends in an error of the daemon */
    const fails: nat -> bool
    /** whether an image that is pulled with the n-th call arrives before the wait for it ends */
    const arrives: nat -> bool
    var calls: nat

    var images: seq<Image>
    var containers: seq<Container>
    var nextId: nat

    ghost predicate Valid()
      reads this
    {
      AllTagged(images) && Unique(images) && ValidContainers(containers, nextId)
    }

    constructor (fails: nat -> bool, arrives: nat -> bool)
      ensures Valid() && this.fails == fails && this.arrives == arrives && images == [] && containers == []
    {
      this.fails, this.arrives := fails, arrives;
      calls, images, containers, nextId := 0, [], [], 0;
    }

    method Call() returns (ok: bool)
      modifies this`calls
      ensures !ok ==> exists n :: fails(n)
    {
      ok := !fails(calls);
      calls := calls + 1;
    }

    /** The images of a name; the containers (the code selects them by image name itself). */
    method ImageList(name: string) returns (ok: bool, listed: seq<Image>)
      modifies this`calls
      ensures !ok ==> exists n :: fails(n)
      ensures ok ==> listed == Listed(images, name)
    {
      ok := Call();
      listed := if ok then Listed(images, name) else [];
    }

    method ContainerList() returns (ok: bool, listed: seq<Container>)
      modifies this`calls
      ensures !ok ==> exists n :: fails(n)
      ensures ok ==> listed == containers
    {
      ok := Call();
      listed := if ok then containers else [];
    }

    method ContainerSetRunning(id: nat, running: bool) returns (ok: bool)
      requires Valid()
      modifies this`calls, this`containers
      ensures Valid()
      ensures !ok ==> containers == old(containers) && exists n :: fails(n)
      ensures ok ==> containers == SetRunning(old(containers), id, running)
    {
      ok := Call();
      if ok {
        containers := SetRunning(containers, id, running);
      }
    }

    /** A running container is removed only by force. */
    method ContainerRemove(id: nat, force: bool) returns (ok: bool)
      requires Valid()
      modifies this`calls, this`containers
      ensures Valid()
      ensures !ok ==> containers == old(containers)
      ensures !ok ==> (exists n :: fails(n)) || exists c <- containers :: c.id == id && c.running
      ensures ok ==> containers == RemoveId(old(containers), id)
    {
      ok := Call();
      if ok && !force && exists c <- containers :: c.id == id && c.running {
        ok := false;
      }
      if ok {
        RemoveIdValid(containers, id, nextId);
        containers := RemoveId(containers, id);
      }
    }

    method ImageRemove(tag: string) returns (ok: bool)
      requires Valid()
      modifies this`calls, this`images
      ensures Valid()
      ensures !ok ==> images == old(images)
      ensures !ok ==> (exists n :: fails(n)) || tag !in TagsOf(images)
      ensures ok ==> images == Untag(old(images), tag)
    {
      ok := Call();
      if ok && tag !in TagsOf(images) {
        ok := false;
      }
      if ok {
        UntagUnique(images, tag);
        UntagTagged(images, tag);
        images := Untag(images, tag);
      }
    }

    method AddImage(source: Source, tag: string)
      requires Valid()
      modifies this`images, this`nextId
      ensures Valid() && images == Commit(old(images), old(nextId), source, tag)
    {
      CommitKeeps(images, nextId, source, tag);
      images := Commit(images, nextId, source, tag);
      nextId := nextId + 1;
    }

    /** Commits a container, if it is there, to a new image. */
    method ContainerCommit(id: nat, tag: string) returns (ok: bool)
      requires Valid()
      modifies this`calls, this`images, this`nextId
      ensures Valid()
      ensures !ok ==> images == old(images)
      ensures !ok ==> (exists n :: fails(n)) || forall c <- containers :: c.id != id
      ensures ok ==> exists image :: images == Commit(old(images), image, CommittedFrom(id), tag)
    {
      ok := Call();
      if ok && forall c <- containers :: c.id != id {
        ok := false;
      }
      if ok {
        AddImage(CommittedFrom(id), tag);
      }
    }

    /** Pulls an image; it arrives while the program waits for it, or not at all. */
    method ImagePull(tag: string) returns (ok: bool)
      requires Valid()
      modifies this`calls, this`images, this`nextId
      ensures Valid()
      ensures !ok ==> images == old(images)
      ensures ok ==> images == old(images) || exists image :: images == Commit(old(images), image, Pulled, tag)
    {
      var arrived := arrives(calls);
      ok := Call();
      if ok && arrived {
        AddImage(Pulled, tag);
      }
    }

    /** Creates a container of an image, not running, at a time given by the system. */
    method ContainerCreate(tag: string, now: int) returns (ok: bool, id: nat)
      requires Valid()
      modifies this`calls, this`containers, this`nextId
      ensures Valid()
      ensures !ok ==> containers == old(containers)
      ensures !ok ==> (exists n :: fails(n)) || tag !in TagsOf(images)
      ensures ok ==> containers == old(containers) + [Container(id, tag, now, false)]
      ensures ok ==> id == old(nextId) && tag in TagsOf(images)
    {
      id := nextId;
      ok := Call();
      ok := ok && tag in TagsOf(images);
      if ok {
        containers := containers + [Container(id, tag, now, false)];
        nextId := nextId + 1;
      }
    }

    /** Whether a container runs. */
    method ContainerInspect(id: nat) returns (ok: bool, running: bool)
      modifies this`calls
      ensures !ok ==> exists n :: fails(n)
      ensures running ==> exists c <- containers :: c.id == id && c.running
      ensures ok && (exists c <- containers :: c.id == id && c.running) ==> running
    {
      ok := Call();
      running := ok && exists c <- containers :: c.id == id && c.running;
    }
  }

  /**
   * The most recently created container of an image name: the matching containers are collected and
   * the last in order of creation is taken, any one of them if several are the last.
   */
  method FindContainer(d: Daemon, image: string) returns (ok: bool, found: bool, c: Container)
    modifies d`calls
    ensures !ok ==> !found && exists n :: d.fails(n)
    ensures ok ==> (found <==> HasContainer(d.containers, image))
    ensures found ==> IsLatest(d.containers, image, c)
  {
    found, c := false, Container(0, image, 0, false);
    var listed: seq<Container>;
    ok, listed := d.ContainerList();
    if !ok {
      return;
    }
    var matching := [];
    for i := 0 to |listed|
      invariant forall x :: x in matching <==> x in listed[..i] && x.image == image
    {
      assert listed[..i + 1] == listed[..i] + [listed[i]];
      if listed[i].image == image {
        matching := matching + [listed[i]];
      }
    }
    assert listed[..|listed|] == listed;
    if |matching| == 0 {
      return;
    }
    assert matching[0] in listed;
    found := true;
    LatestExists(listed, image);
    ghost var latest :| IsLatest(listed, image, latest);
    assert latest in matching && forall x <- matching :: x.created <= latest.created;
    c :| c in matching && forall x <- matching :: x.created <= c.created;
  }

  /** Stops the most recent container of an image name. */
  method Stop(d: Daemon, image: string) returns (ok: bool)
    requires d.Valid()
    modifies d`calls, d`containers
    ensures d.Valid()
    ensures !ok ==> d.containers == old(d.containers)
    ensures !ok ==> (exists n :: d.fails(n)) || !HasContainer(d.containers, image)
    ensures ok ==> exists c :: IsLatest(old(d.containers), image, c) && d.containers == SetRunning(old(d.containers), c.id, false)
  {
    var found, c;
    ok, found, c := FindContainer(d, image);
    if !ok {
      return;
    }
    if !found {
      return false;
    }
    ok := d.ContainerSetRunning(c.id, false);
  }

  /** Removes one container; the state is looked up first to warn about a running one. */
  method RemoveContainer(d: Daemon, id: nat, force: bool) returns (ok: bool)
    requires d.Valid()
    modifies d`calls, d`containers
    ensures d.Valid()
    ensures !ok ==> d.containers == old(d.containers)
    ensures !ok ==> (exists n :: d.fails(n)) || exists c <- d.containers :: c.id == id && c.running
    ensures ok ==> d.containers == RemoveId(old(d.containers), id)
  {
    if !force {
      ok := d.Call();
      if !ok {
        return;
      }
    }
    ok := d.ContainerRemove(id, force);
  }

  method RemoveLatestContainerFromImage(d: Daemon, image: string, force: bool) returns (ok: bool)
    requires d.Valid()
    modifies d`calls, d`containers
    ensures d.Valid()
    ensures !ok ==> d.containers == old(d.containers)
    ensures !ok ==> (exists n :: d.fails(n)) || !HasContainer(d.containers, image)
                    || exists c :: IsLatest(d.containers, image, c) && exists x <- d.containers :: x.id == c.id && x.running
    ensures ok ==> exists c :: IsLatest(old(d.containers), image, c) && d.containers == RemoveId(old(d.containers), c.id)
  {
    var found, c;
    ok, found, c := FindContainer(d, image);
    if !ok {
      return;
    }
    if !found {
      return false;
    }
    ok := RemoveContainer(d, c.id, force);
  }

  /** The highest version number among the first tags of the images, at least 0. */
  method FindLatestImage(listed: seq<Image>) returns (latest: int)
    requires AllTagged(listed)
    ensures latest == LatestOf(listed)
  {
    hide VersionOf;
    latest := 0;
    for i := 0 to |listed|
      invariant latest == LatestOf(listed[..i])
    {
      assert listed[i] in listed;
      assert listed[..i + 1][..i] == listed[..i];
      var version := VersionOf(listed[i].tags[0]);
      if version.Some? && version.value > latest {
        latest := version.value;
      }
    }
    assert listed[..|listed|] == listed;
  }

  /** The latest version of an image name; an error if there is no image of that name. */
  method GetLatestImageVersionNumber(d: Daemon, name: string) returns (ok: bool, latest: int)
    modifies d`calls
    ensures !ok ==> (exists n :: d.fails(n)) || Listed(d.images, name) == []
    ensures ok ==> Listed(d.images, name) != [] && AllTagged(Listed(d.images, name)) && latest == LatestOf(Listed(d.images, name))
  {
    latest := 0;
    var listed;
    ok, listed := d.ImageList(name);
    if !ok {
      return;
    }
    if |listed| == 0 {
      return false, 0;
    }
    ListedTagged(d.images, name);
    latest := FindLatestImage(listed);
  }

  lemma SetRunningTimes(containers: seq<Container>, id: nat, running: bool)
    requires DistinctTimes(containers)
    ensures DistinctTimes(SetRunning(containers, id, running))
  {
    hide SetRunning;
    var r := SetRunning(containers, id, running);
    forall c, d | c in r && d in r && c.image == d.image && c.created == d.created
      ensures c.id == d.id
    {
      var i :| 0 <= i < |r| && r[i] == c;
      var j :| 0 <= j < |r| && r[j] == d;
      assert containers[i] in containers && containers[j] in containers;
    }
  }

  lemma SetRunningHas(containers: seq<Container>, id: nat, running: bool, image: string)
    ensures HasContainer(containers, image) <==> HasContainer(SetRunning(containers, id, running), image)
  {
    hide SetRunning;
    var r := SetRunning(containers, id, running);
    if HasContainer(containers, image) {
      var i :| 0 <= i < |containers| && containers[i].image == image;
      assert r[i] in r && r[i].image == image;
    }
    if HasContainer(r, image) {
      var i :| 0 <= i < |r| && r[i].image == image;
      assert containers[i] in containers && containers[i].image == image;
    }
  }

  lemma SetRunningUntouched(containers: seq<Container>, nextId: nat, c: Container, running: bool)
    requires ValidContainers(containers, nextId) && c in containers
    ensures Untouched(containers, SetRunning(containers, c.id, running), {c.image})
  {
    forall image | image != c.image
      ensures OfImage(SetRunning(containers, c.id, running), image) == OfImage(containers, image)
    {
      forall x <- containers | x.image == image
        ensures x.id != c.id
      {
        if x.id == c.id {
          SameId(containers, nextId, c, x);
        }
      }
      SetRunningOf(containers, c.id, running, image);
    }
  }

  /** A container stopped as the latest of its image is the one found as the latest again. */
  lemma StoppedLatest(containers: seq<Container>, nextId: nat, image: string, c: Container, c': Container, x: Container)
    requires ValidContainers(containers, nextId) && DistinctTimes(containers) && IsLatest(containers, image, c)
    requires IsLatest(SetRunning(containers, c.id, false), image, c')
    requires x in SetRunning(containers, c.id, false) && x.id == c'.id
    ensures !x.running
  {
    var r := SetRunning(containers, c.id, false);
    var i :| 0 <= i < |r| && r[i] == c';
    var k :| 0 <= k < |containers| && containers[k] == c;
    assert r[k] in r && r[k].image == image;
    assert containers[i] in containers && containers[i].image == image;
    assert c'.created == c.created;
    var j :| 0 <= j < |r| && r[j] == x;
    assert containers[j].id == containers[i].id == c.id;
  }

  lemma SameId(containers: seq<Container>, nextId: nat, c: Container, x: Container)
    requires ValidContainers(containers, nextId) && c in containers && x in containers && c.id == x.id
    ensures c == x
  {
    var i :| 0 <= i < |containers| && containers[i] == x;
    var k :| 0 <= k < |containers| && containers[k] == c;
  }

  lemma RemoveIdUntouched(containers: seq<Container>, nextId: nat, c: Container)
    requires ValidContainers(containers, nextId) && c in containers
    ensures Untouched(containers, RemoveId(containers, c.id), {c.image})
    ensures DistinctTimes(containers) ==> DistinctTimes(RemoveId(containers, c.id))
  {
    forall image | image != c.image
      ensures OfImage(RemoveId(containers, c.id), image) == OfImage(containers, image)
    {
      forall x <- containers | x.image == image
        ensures x.id != c.id
      {
        if x.id == c.id {
          SameId(containers, nextId, c, x);
        }
      }
      RemoveIdOf(containers, c.id, image);
    }
  }

  /** No call to the daemon ends in an error. */
  ghost predicate Quiet(d: Daemon) {
    forall n :: !d.fails(n)
  }

  /** The containers after the latest of an image name was stopped. */
  ghost predicate StoppedOne(before: seq<Container>, after: seq<Container>, image: string, c: Container) {
    IsLatest(before, image, c) && after == SetRunning(before, c.id, false)
  }

  lemma StoppedOneKeeps(before: seq<Container>, after: seq<Container>, nextId: nat, image: string, c: Container)
    requires ValidContainers(before, nextId) && StoppedOne(before, after, image, c)
    ensures Untouched(before, after, {image})
    ensures DistinctTimes(before) ==> DistinctTimes(after)
    ensures HasContainer(after, image) <==> HasContainer(before, image)
    ensures |OfImage(after, image)| == |OfImage(before, image)|
  {
    hide SetRunning, HasContainer, OfImage;
    SetRunningOf(before, c.id, false, image);
    SetRunningUntouched(before, nextId, c, false);
    SetRunningHas(before, c.id, false, image);
    if DistinctTimes(before) {
      SetRunningTimes(before, c.id, false);
    }
  }

  lemma LatestNotRunning(before: seq<Container>, after: seq<Container>, nextId: nat, image: string, c: Container)
    requires ValidContainers(before, nextId) && DistinctTimes(before) && StoppedOne(before, after, image, c)
    ensures !exists c', x :: IsLatest(after, image, c') && x in after && x.id == c'.id && x.running
  {
    forall c', x | IsLatest(after, image, c') && x in after && x.id == c'.id
      ensures !x.running
    {
      StoppedLatest(before, nextId, image, c, c', x);
    }
  }

  /** Removes the latest container of a version, not by force. */
  method RemoveStopped(d: Daemon, tag: string) returns (ok: bool)
    requires d.Valid()
    modifies d`calls, d`containers
    ensures d.Valid()
    ensures Untouched(old(d.containers), d.containers, {tag})
    ensures DistinctTimes(old(d.containers)) ==> DistinctTimes(d.containers)
    ensures (Quiet(d) && HasContainer(old(d.containers), tag)
             && !exists c, x :: IsLatest(old(d.containers), tag, c) && x in old(d.containers) && x.id == c.id && x.running) ==> ok
    ensures !ok ==> d.containers == old(d.containers)
    ensures ok ==> OneFewer(old(d.containers), d.containers, tag)
    ensures ok ==> exists c :: IsLatest(old(d.containers), tag, c) && d.containers == RemoveId(old(d.containers), c.id)
  {
    hide TagsOf, Unique, AllTagged, OfImage;
    ghost var before := d.containers;
    ok := RemoveLatestContainerFromImage(d, tag, false);
    if ok {
      ghost var removed :| IsLatest(before, tag, removed) && d.containers == RemoveId(before, removed.id);
      RemoveIdUntouched(before, d.nextId, removed);
      RemoveIdOne(before, d.nextId, removed);
    } else {
      assert Untouched(before, d.containers, {tag});
    }
  }

  /** Stops the latest container of a version and removes it. */
  method DeleteContainer(d: Daemon, tag: string) returns (ok: bool)
    requires d.Valid()
    modifies d`calls, d`containers
    ensures d.Valid()
    ensures Untouched(old(d.containers), d.containers, {tag})
    ensures DistinctTimes(old(d.containers)) ==> DistinctTimes(d.containers)
    ensures Quiet(d) && DistinctTimes(old(d.containers)) && HasContainer(old(d.containers), tag) ==> ok
    ensures ok ==> OneFewer(old(d.containers), d.containers, tag)
    ensures !ok ==> |OfImage(d.containers, tag)| == |OfImage(old(d.containers), tag)|
  {
    hide TagsOf, Unique, AllTagged, SetRunning, IsLatest, DistinctTimes, HasContainer, OfImage;
    ghost var before := d.containers;
    ok := Stop(d, tag);
    if !ok {
      return;
    }
    ghost var stopped :| IsLatest(before, tag, stopped) && d.containers == SetRunning(before, stopped.id, false);
    StoppedOneKeeps(before, d.containers, d.nextId, tag, stopped);
    if DistinctTimes(before) {
      LatestNotRunning(before, d.containers, d.nextId, tag, stopped);
    }
    ok := RemoveStopped(d, tag);
  }

  /** Removes a version: its latest container, then its image. */
  method DeleteVersion(d: Daemon, tag: string) returns (ok: bool)
    requires d.Valid()
    modifies d`calls, d`containers, d`images
    ensures d.Valid()
    ensures d.images == if ok then Untag(old(d.images), tag) else old(d.images)
    ensures Untouched(old(d.containers), d.containers, {tag})
    ensures DistinctTimes(old(d.containers)) ==> DistinctTimes(d.containers)
    ensures (Quiet(d) && DistinctTimes(old(d.containers)) && HasContainer(old(d.containers), tag)
             && tag in TagsOf(old(d.images))) ==> ok
    ensures ok ==> OneFewer(old(d.containers), d.containers, tag)
  {
    hide TagsOf, Untag, Unique, AllTagged, ValidContainers, DistinctTimes, OneFewer;
    ok := DeleteContainer(d, tag);
    if ok {
      ok := d.ImageRemove(tag);
    }
  }

  /** The tags of the versions above `lo` up to `hi`. */
  ghost function Window(name: string, lo: int, hi: int): set<string> {
    set v | lo < v <= hi :: ImageTag(name, v)
  }

  lemma WindowDown(name: string, lo: int, hi: int)
    requires lo <= hi
    ensures Window(name, lo - 1, hi) == Window(name, lo, hi) + {ImageTag(name, lo)}
  {
    hide ImageTag;
    forall t
      ensures t in Window(name, lo - 1, hi) <==> t in Window(name, lo, hi) || t == ImageTag(name, lo)
    {
    }
  }

  /** How far a pruning has got: only tags and containers of versions in the window may have changed. */
  ghost predicate Pruned(images0: seq<Image>, containers0: seq<Container>, images: seq<Image>, containers: seq<Container>,
                         name: string, lo: int, hi: int) {
    && TagsOf(images) <= TagsOf(images0) <= TagsOf(images) + Window(name, lo, hi)
    && Untouched(containers0, containers, Window(name, lo, hi))
    && |Listed(images, name)| >= |Listed(images0, name)| - (hi - lo)
    && (DistinctTimes(containers0) ==> DistinctTimes(containers))
  }

  lemma PrunedNothing(images: seq<Image>, containers: seq<Container>, name: string, hi: int)
    ensures Pruned(images, containers, images, containers, name, hi, hi)
  {
  }

  lemma PrunedSkip(images0: seq<Image>, containers0: seq<Container>, images: seq<Image>, containers: seq<Container>,
                   name: string, lo: int, hi: int)
    requires lo <= hi && Pruned(images0, containers0, images, containers, name, lo, hi)
    ensures Pruned(images0, containers0, images, containers, name, lo - 1, hi)
  {
    hide TagsOf, Listed, DistinctTimes, Window;
    WindowDown(name, lo, hi);
  }

  lemma PrunedOne(images0: seq<Image>, containers0: seq<Container>, images: seq<Image>, containers: seq<Container>,
                  images': seq<Image>, containers': seq<Container>, name: string, lo: int, hi: int)
    requires lo <= hi && Pruned(images0, containers0, images, containers, name, lo, hi)
    requires Unique(images) && AllTagged(images)
    requires images' == images || images' == Untag(images, ImageTag(name, lo))
    requires Untouched(containers, containers', {ImageTag(name, lo)})
    requires DistinctTimes(containers) ==> DistinctTimes(containers')
    ensures Pruned(images0, containers0, images', containers', name, lo - 1, hi)
  {
    hide TagsOf, Listed, DistinctTimes, Window, Untag, Unique, AllTagged, ImageTag;
    WindowDown(name, lo, hi);
    UntagTags(images, ImageTag(name, lo));
    UntagCount(images, ImageTag(name, lo), name);
  }

  /** Every version in the window that had an image has lost one container. */
  ghost predicate Discarded(images0: seq<Image>, containers0: seq<Container>, containers: seq<Container>, name: string, lo: int, hi: int) {
    forall v | lo < v <= hi ::
      var tag := ImageTag(name, v);
      |OfImage(containers, tag)| == |OfImage(containers0, tag)| - (if tag in TagsOf(images0) then 1 else 0)
  }

  lemma DiscardedOne(images0: seq<Image>, containers0: seq<Container>, containers: seq<Container>, containers': seq<Container>,
                     name: string, lo: int, hi: int)
    requires Untouched(containers0, containers, Window(name, lo, hi)) && Discarded(images0, containers0, containers, name, lo, hi)
    requires Untouched(containers, containers', {ImageTag(name, lo)})
    requires if ImageTag(name, lo) in TagsOf(images0) then OneFewer(containers, containers', ImageTag(name, lo)) else containers' == containers
    ensures Discarded(images0, containers0, containers', name, lo - 1, hi)
  {
    hide ImageTag, OfImage, TagsOf, Window;
    NotInWindow(name, lo, hi);
    forall v | lo < v <= hi
      ensures ImageTag(name, v) != ImageTag(name, lo)
    {
      if ImageTag(name, v) == ImageTag(name, lo) {
        ImageTagInjective(name, v, lo);
      }
    }
    assert OfImage(containers, ImageTag(name, lo)) == OfImage(containers0, ImageTag(name, lo));
  }

  /** A container for every version in the window that has an image. */
  ghost predicate Served(images: seq<Image>, containers: seq<Container>, name: string, lo: int, hi: int) {
    forall v | lo < v <= hi && ImageTag(name, v) in TagsOf(images) :: HasContainer(containers, ImageTag(name, v))
  }

  predicate Tagged(listed: seq<Image>, tag: string) {
    exists image <- listed :: tag in image.tags
  }

  lemma TaggedIsListed(images: seq<Image>, name: string, version: int)
    ensures Tagged(Listed(images, name), ImageTag(name, version)) <==> ImageTag(name, version) in TagsOf(images)
  {
    hide Listed, OfName, ImageTag;
    var listed, tag := Listed(images, name), ImageTag(name, version);
    ListedTags(images, name);
    ImageTagOfName(name, version);
    if Tagged(listed, tag) {
      var image :| image in listed && tag in image.tags;
      var i :| 0 <= i < |listed| && listed[i] == image;
      assert tag in TagsOf(listed);
    }
    if tag in TagsOf(listed) {
      var i :| 0 <= i < |listed| && tag in listed[i].tags;
      assert listed[i] in listed;
    }
  }

  lemma NotInWindow(name: string, lo: int, hi: int)
    ensures ImageTag(name, lo) !in Window(name, lo, hi)
  {
    hide ImageTag;
    forall v | lo < v <= hi
      ensures ImageTag(name, v) != ImageTag(name, lo)
    {
      if ImageTag(name, v) == ImageTag(name, lo) {
        ImageTagInjective(name, v, lo);
      }
    }
  }

  lemma UntouchedHas(containers: seq<Container>, containers': seq<Container>, images: set<string>, image: string)
    requires Untouched(containers, containers', images) && image !in images
    ensures HasContainer(containers, image) <==> HasContainer(containers', image)
  {
    assert OfImage(containers', image) == OfImage(containers, image);
    if HasContainer(containers, image) {
      var c :| c in containers && c.image == image;
      assert c in OfImage(containers', image);
    }
    if HasContainer(containers', image) {
      var c :| c in containers' && c.image == image;
      assert c in OfImage(containers, image);
    }
  }

  lemma {:induction false} PrunedWider(images0: seq<Image>, containers0: seq<Container>, images: seq<Image>, containers: seq<Container>,
                    name: string, lo': int, lo: int, hi: int)
    requires lo' <= lo <= hi && Pruned(images0, containers0, images, containers, name, lo, hi)
    ensures Pruned(images0, containers0, images, containers, name, lo', hi)
    decreases lo - lo'
  {
    hide Pruned;
    if lo' < lo {
      PrunedSkip(images0, containers0, images, containers, name, lo, hi);
      PrunedWider(images0, containers0, images, containers, name, lo', lo - 1, hi);
    }
  }

  /** One turn of the pruning loop: the version is removed if the list showed it. */
  method PruneVersion(d: Daemon, listed: seq<Image>, name: string, version: int,
                      ghost images0: seq<Image>, ghost containers0: seq<Container>, ghost hi: int)
    returns (ok: bool)
    requires d.Valid() && version <= hi && listed == Listed(images0, name)
    requires Pruned(images0, containers0, d.images, d.containers, name, version, hi)
    requires TagsOf(d.images) == TagsOf(images0) - Window(name, version, hi)
    requires Discarded(images0, containers0, d.containers, name, version, hi)
    modifies d`calls, d`containers, d`images
    ensures d.Valid()
    ensures Pruned(images0, containers0, d.images, d.containers, name, version - 1, hi)
    ensures ok ==> TagsOf(d.images) == TagsOf(images0) - Window(name, version - 1, hi)
    ensures ok ==> Discarded(images0, containers0, d.containers, name, version - 1, hi)
    ensures (Quiet(d) && DistinctTimes(containers0)
             && (ImageTag(name, version) in TagsOf(images0) ==> HasContainer(containers0, ImageTag(name, version)))) ==> ok
  {
    hide TagsOf, Listed, DistinctTimes, Window, Untag, Unique, AllTagged, ImageTag, HasContainer, Tagged, ValidContainers, Untouched, Discarded, OneFewer;
    ghost var images, containers := d.images, d.containers;
    var imageTag := ImageTag(name, version);
    TaggedIsListed(images0, name, version);
    WindowDown(name, version, hi);
    NotInWindow(name, version, hi);
    UntouchedHas(containers0, containers, Window(name, version, hi), imageTag);
    UntagTags(images, imageTag);
    if Tagged(listed, imageTag) {
      ok := DeleteVersion(d, imageTag);
      PrunedOne(images0, containers0, images, containers, d.images, d.containers, name, version, hi);
      if ok {
        DiscardedOne(images0, containers0, containers, d.containers, name, version, hi);
      }
    } else {
      ok := true;
      UntouchedSame(containers, {imageTag});
      DiscardedOne(images0, containers0, containers, containers, name, version, hi);
      PrunedSkip(images0, containers0, images, containers, name, version, hi);
    }
  }

  /** How many images of a name there are too many. */
  function Excess(n: nat, keep: nat): nat {
    if n > keep then n - keep else 0
  }

  /**
   * Keeps the `keep` most recent images of a name: the versions from the highest minus `keep`
   * downwards are looked for, as many as there are images too many, and removed where found.
   *
   * Whatever fails, no tag above the highest version minus `keep` is lost, no container of another
   * image is touched, and at least `keep` images remain, or all if there were fewer. If the daemon
   * does not fail and every version looked for has a container, exactly the tags of those versions
   * are removed.
   */
  method ImageDeleteOld(d: Daemon, keep: nat, name: string) returns (ok: bool)
    requires d.Valid()
    modifies d`calls, d`containers, d`images
    ensures d.Valid()
    ensures Listed(old(d.images), name) == [] ==> !ok && d.images == old(d.images) && d.containers == old(d.containers)
    ensures Listed(old(d.images), name) != [] ==>
      && AllTagged(Listed(old(d.images), name))
      && var hi := LatestOf(Listed(old(d.images), name)) - keep;
         var lo := hi - Excess(|Listed(old(d.images), name)|, keep);
      && Pruned(old(d.images), old(d.containers), d.images, d.containers, name, lo, hi)
      && (ok ==> TagsOf(d.images) == TagsOf(old(d.images)) - Window(name, lo, hi))
      && (ok ==> Discarded(old(d.images), old(d.containers), d.containers, name, lo, hi))
      && (Quiet(d) && DistinctTimes(old(d.containers)) && Served(old(d.images), old(d.containers), name, lo, hi) ==> ok)
  {
    hide TagsOf, Listed, DistinctTimes, Window, Untag, Unique, ImageTag, Untouched, HasContainer, LatestOf, Pruned, ValidContainers, AllTagged, OfImage;
    ghost var images0, containers0 := d.images, d.containers;
    ListedTagged(d.images, name);
    ghost var hi := LatestOf(Listed(images0, name)) - keep;
    ghost var lo := hi - Excess(|Listed(images0, name)|, keep);
    PrunedNothing(images0, containers0, name, hi);
    PrunedWider(images0, containers0, images0, containers0, name, lo, hi, hi);
    var highest;
    ok, highest := GetLatestImageVersionNumber(d, name);
    if !ok {
      return;
    }
    var images;
    ok, images := d.ImageList(name);
    if !ok {
      return;
    }
    var numToRemove := |images| - keep;
    var ver := highest - keep;
    var count := 0;
    EmptyWindow(name, hi);
    assert TagsOf(d.images) == TagsOf(images0) - Window(name, hi, hi);
    while count < numToRemove
      invariant 0 <= count <= Excess(|images|, keep) && ver == hi - count
      invariant d.Valid()
      invariant Pruned(images0, containers0, d.images, d.containers, name, ver, hi)
      invariant TagsOf(d.images) == TagsOf(images0) - Window(name, ver, hi)
      invariant Discarded(images0, containers0, d.containers, name, ver, hi)
    {
      ok := PruneVersion(d, images, name, ver, images0, containers0, hi);
      if !ok {
        PrunedWider(images0, containers0, d.images, d.containers, name, lo, ver - 1, hi);
        return;
      }
      ver := ver - 1;
      count := count + 1;
    }
  }

  lemma EmptyWindow(name: string, hi: int)
    ensures Window(name, hi, hi) == {}
  {
  }

  /** A tag written for a version number from 1 on. */
  predicate IsVersionTag(tag: string, name: string) {
    VersionOf(tag).Some? && 1 <= VersionOf(tag).value <= MAX_INT && tag == ImageTag(name, VersionOf(tag).value)
  }

  function Versions(tags: set<string>, name: string): set<int> {
    set tag | tag in tags && IsVersionTag(tag, name) :: VersionOf(tag).value
  }

  lemma VersionsMember(tags: set<string>, name: string, v: int)
    ensures v in Versions(tags, name) <==> 1 <= v <= MAX_INT && ImageTag(name, v) in tags
  {
    hide VersionOf, ImageTag;
    if 1 <= v <= MAX_INT && ImageTag(name, v) in tags {
      ImageTagVersion(name, v);
      assert IsVersionTag(ImageTag(name, v), name);
    }
  }

  /** Images of a name that each carry one tag, of a version from 1 on. */
  predicate Plain(listed: seq<Image>, name: string) {
    forall image <- listed :: |image.tags| == 1 && IsVersionTag(image.tags[0], name)
  }

  /** The numbers above `lo` up to `hi`. */
  function Numbers(lo: int, hi: int): (r: set<int>)
    ensures forall v :: v in r <==> lo < v <= hi
    decreases hi - lo
  {
    if lo >= hi then {} else Numbers(lo, hi - 1) + {hi}
  }

  lemma {:induction false} NumbersCount(lo: int, hi: int)
    requires lo <= hi
    ensures |Numbers(lo, hi)| == hi - lo
    decreases hi - lo
  {
    if lo < hi {
      NumbersCount(lo, hi - 1);
    }
  }

  /** There are as many versions as images, and the latest version is the highest of them. */
  lemma {:induction false} PlainVersions(listed: seq<Image>, name: string)
    requires Plain(listed, name) && Unique(listed)
    ensures |Versions(TagsOf(listed), name)| == |listed|
  {
    hide TagsOf, VersionOf, ImageTag;
    if listed == [] {
      NoTags();
    } else {
      var first, rest := listed[0], listed[1..];
      assert listed == [first] + rest && first in listed && forall image <- rest :: image in listed;
      PlainVersions(rest, name);
      TagsOfCons(first, rest);
      var tag := first.tags[0];
      assert tag in first.tags && forall t <- first.tags :: t == tag;
      var v := VersionOf(tag).value;
      VersionsMember(TagsOf(rest), name, v);
      forall w
        ensures w in Versions(TagsOf(listed), name) <==> w in Versions(TagsOf(rest), name) || w == v
      {
        VersionsMember(TagsOf(listed), name, w);
        VersionsMember(TagsOf(rest), name, w);
        VersionsMember(TagsOf(listed), name, v);
        if ImageTag(name, w) == tag {
          ImageTagInjective(name, w, v);
        }
      }
      assert Versions(TagsOf(listed), name) == Versions(TagsOf(rest), name) + {v};
    }
  }

  lemma PlainLatest(listed: seq<Image>, name: string)
    requires Plain(listed, name) && AllTagged(listed) && listed != []
    ensures LatestOf(listed) in Versions(TagsOf(listed), name)
    ensures forall v <- Versions(TagsOf(listed), name) :: v <= LatestOf(listed)
  {
    hide VersionOf, ImageTag, LatestOf;
    LatestIsHighest(listed);
    assert listed[0] in listed;
    var image :| image in listed && VersionOf(image.tags[0]) == Some(LatestOf(listed));
    var i :| 0 <= i < |listed| && listed[i] == image;
    assert image.tags[0] in listed[i].tags && image.tags[0] in TagsOf(listed);
    forall v | v in Versions(TagsOf(listed), name)
      ensures v <= LatestOf(listed)
    {
      var tag :| tag in TagsOf(listed) && IsVersionTag(tag, name) && VersionOf(tag).value == v;
      var j :| 0 <= j < |listed| && tag in listed[j].tags;
      assert listed[j] in listed;
    }
  }

  /** `kept` are the `keep` highest of the versions. */
  predicate Newest(kept: set<int>, versions: set<int>, keep: nat) {
    kept <= versions && |kept| == keep && forall a, b | a in kept && b in versions - kept :: b < a
  }

  lemma ConsecutiveKeepsNewest(versions: set<int>, highest: int, keep: nat)
    requires 1 <= keep < |versions| && versions == Numbers(highest - |versions|, highest)
    ensures Newest(versions - Numbers(highest - |versions|, highest - keep), versions, keep)
  {
    hide Numbers;
    var n := |versions|;
    NumbersCount(highest - keep, highest);
    assert versions - Numbers(highest - n, highest - keep) == Numbers(highest - keep, highest);
  }

  lemma NewestAreConsecutive(versions: set<int>, highest: int, keep: nat)
    requires forall v <- versions :: v <= highest
    requires 1 <= keep < |versions|
    requires Newest(versions - Numbers(highest - |versions|, highest - keep), versions, keep)
    ensures versions == Numbers(highest - |versions|, highest)
  {
    hide Numbers;
    var n := |versions|;
    var gone, rest := Numbers(highest - n, highest - keep), Numbers(highest - keep, highest);
    var kept := versions - gone;
    NumbersCount(highest - n, highest - keep);
    NumbersCount(highest - keep, highest);
    var removed := versions - kept;
    assert removed <= gone;
    assert versions == kept + removed;
    SubsetEqual(removed, gone);
    assert highest - keep in removed;
    SubsetEqual(kept, rest);
    assert versions == gone + rest;
  }

  /**
   * Taking away the versions from `highest - keep` down to `highest - n + 1` leaves the `keep` newest
   * of `n` versions exactly when the versions are consecutive.
   */
  lemma KeepsNewest(versions: set<int>, highest: int, keep: nat)
    requires forall v <- versions :: v <= highest
    requires 1 <= keep < |versions|
    ensures Newest(versions - Numbers(highest - |versions|, highest - keep), versions, keep)
       <==> versions == Numbers(highest - |versions|, highest)
  {
    hide Numbers, Newest;
    if versions == Numbers(highest - |versions|, highest) {
      ConsecutiveKeepsNewest(versions, highest, keep);
    }
    if Newest(versions - Numbers(highest - |versions|, highest - keep), versions, keep) {
      NewestAreConsecutive(versions, highest, keep);
    }
  }

  lemma SubsetEqual(a: set<int>, b: set<int>)
    requires a <= b && |a| == |b|
    ensures a == b
  {
    assert b == a + (b - a);
  }

  lemma VersionsListed(images: seq<Image>, name: string)
    ensures Versions(TagsOf(Listed(images, name)), name) == Versions(TagsOf(images), name)
  {
    hide TagsOf, Listed, ImageTag, VersionOf, Versions, OfName;
    forall v
      ensures v in Versions(TagsOf(Listed(images, name)), name) <==> v in Versions(TagsOf(images), name)
    {
      VersionsMember(TagsOf(Listed(images, name)), name, v);
      VersionsMember(TagsOf(images), name, v);
      ListedTags(images, name);
      ImageTagOfName(name, v);
    }
  }

  lemma VersionsPruned(tags: set<string>, name: string, lo: int, hi: int)
    ensures Versions(tags - Window(name, lo, hi), name) == Versions(tags, name) - Numbers(lo, hi)
  {
    hide ImageTag, VersionOf, Versions, Numbers;
    forall v
      ensures v in Versions(tags - Window(name, lo, hi), name) <==> v in Versions(tags, name) && v !in Numbers(lo, hi)
    {
      VersionsMember(tags - Window(name, lo, hi), name, v);
      VersionsMember(tags, name, v);
      if ImageTag(name, v) in Window(name, lo, hi) {
        var w :| lo < w <= hi && ImageTag(name, w) == ImageTag(name, v);
        ImageTagInjective(name, v, w);
      }
    }
  }

  /** Which versions can be taken away so that the `keep` newest remain. */
  lemma TakingAwayKeepsNewest(versions: set<int>, lo: int, hi: int, keep: nat)
    ensures
      var removed := versions * Numbers(lo, hi);
      Newest(versions - Numbers(lo, hi), versions, keep)
      <==> |versions| - |removed| == keep && (removed == {} || forall v <- versions :: lo < v)
  {
    hide Numbers;
    var window := Numbers(lo, hi);
    var removed, kept := versions * window, versions - window;
    assert versions == kept + removed;
    assert versions - kept == removed;
    if Newest(kept, versions, keep) && removed != {} {
      var b :| b in removed;
      forall v <- versions
        ensures lo < v
      {
        if v in kept {
          assert b in versions - kept && b < v && lo < b;
        }
      }
    }
  }

  /**
   * When pruning succeeds, the `keep` newest versions remain exactly when that many are outside the
   * window of numbers that are looked for, and none is below the window, or none is in it.
   */
  lemma PruningKeepsNewest(images0: seq<Image>, images: seq<Image>, name: string, keep: nat)
    requires AllTagged(Listed(images0, name))
    requires
      var hi := LatestOf(Listed(images0, name)) - keep;
      TagsOf(images) == TagsOf(images0) - Window(name, hi - Excess(|Listed(images0, name)|, keep), hi)
    ensures
      var hi := LatestOf(Listed(images0, name)) - keep;
      var lo := hi - Excess(|Listed(images0, name)|, keep);
      var before, after := Versions(TagsOf(images0), name), Versions(TagsOf(images), name);
      Newest(after, before, keep)
      <==> |before| - |before * Numbers(lo, hi)| == keep && (before * Numbers(lo, hi) == {} || forall v <- before :: lo < v)
  {
    hide TagsOf, Listed, ImageTag, VersionOf, LatestOf, AllTagged, Versions, Numbers, Newest, Window;
    var hi := LatestOf(Listed(images0, name)) - keep;
    var lo := hi - Excess(|Listed(images0, name)|, keep);
    VersionsPruned(TagsOf(images0), name, lo, hi);
    TakingAwayKeepsNewest(Versions(TagsOf(images0), name), lo, hi, keep);
  }

  /** The tag `latest` stands for number 0, and so a pruning that reaches 0 removes it like a version. */
  lemma LatestTagInWindow(name: string, lo: int, hi: int)
    ensures name + ":latest" in Window(name, lo, hi) <==> lo < 0 <= hi
  {
    assert ImageTag(name, 0) == name + ":latest";
    hide ImageTag;
    if name + ":latest" in Window(name, lo, hi) {
      var v :| lo < v <= hi && ImageTag(name, v) == ImageTag(name, 0);
      ImageTagInjective(name, v, 0);
    }
  }

  /**
   * On images with one version tag each that means: the versions were consecutive. With a gap it
   * removes too few, or a newer version than one it keeps.
   */
  lemma OneVersionEachKeepsNewest(images0: seq<Image>, images: seq<Image>, name: string, keep: nat)
    requires Unique(images0)
    requires Plain(Listed(images0, name), name) && AllTagged(Listed(images0, name)) && 1 <= keep < |Listed(images0, name)|
    requires
      var hi := LatestOf(Listed(images0, name)) - keep;
      TagsOf(images) == TagsOf(images0) - Window(name, hi - Excess(|Listed(images0, name)|, keep), hi)
    ensures
      var highest := LatestOf(Listed(images0, name));
      var before, after := Versions(TagsOf(images0), name), Versions(TagsOf(images), name);
      Newest(after, before, keep) <==> before == Numbers(highest - |Listed(images0, name)|, highest)
  {
    hide TagsOf, Listed, ImageTag, VersionOf, LatestOf, Unique, Plain, AllTagged, Versions, Numbers, Newest, Window;
    var listed := Listed(images0, name);
    var highest := LatestOf(listed);
    ListedUnique(images0, name);
    PlainVersions(listed, name);
    PlainLatest(listed, name);
    VersionsListed(images0, name);
    VersionsPruned(TagsOf(images0), name, highest - |listed|, highest - keep);
    KeepsNewest(Versions(TagsOf(images0), name), highest, keep);
  }

  /** `verifyNumImagesKeptWithinLimits` */
  function KeepWithinLimits(keep: int): (r: nat)
    ensures 1 <= r <= 4
    ensures 1 <= keep <= 4 ==> r == keep
  {
    if keep > 4 then 4 else if keep < 1 then 1 else keep
  }

  /** With the configured number within its limits, the newest version always survives a pruning. */
  lemma NewestSurvives(images0: seq<Image>, containers0: seq<Container>, images: seq<Image>, containers: seq<Container>,
                       name: string, keep: int, lo: int, version: int)
    requires AllTagged(Listed(images0, name))
    requires Pruned(images0, containers0, images, containers, name, lo, LatestOf(Listed(images0, name)) - KeepWithinLimits(keep))
    requires version >= LatestOf(Listed(images0, name)) && ImageTag(name, version) in TagsOf(images0)
    ensures ImageTag(name, version) in TagsOf(images)
  {
    hide TagsOf, Listed, ImageTag, LatestOf, Untouched, DistinctTimes;
    var hi := LatestOf(Listed(images0, name)) - KeepWithinLimits(keep);
    if ImageTag(name, version) in Window(name, lo, hi) {
      var w :| lo < w <= hi && ImageTag(name, w) == ImageTag(name, version);
      ImageTagInjective(name, version, w);
    }
  }

  lemma LatestBounds(listed: seq<Image>, tag: string)
    requires AllTagged(listed) && FirstTag(listed, tag) && VersionOf(tag).Some?
    ensures VersionOf(tag).value <= LatestOf(listed)
  {
    hide VersionOf, LatestOf;
    LatestIsHighest(listed);
  }

  /** Committing the successor of the latest version makes the successor the latest version. */
  lemma CommitLatest(images: seq<Image>, id: nat, source: Source, name: string)
    requires AllTagged(Listed(images, name)) && LatestOf(Listed(images, name)) < MAX_INT
    ensures
      var images' := Commit(images, id, source, SuccessorTag(name, LatestOf(Listed(images, name))));
      AllTagged(Listed(images', name))
      && LatestOf(Listed(images', name)) == LatestOf(Listed(images, name)) + 1
  {
    hide VersionOf, LatestOf, Listed, Untag, FirstTag, ImageTag, OfName, Itoa;
    var listed := Listed(images, name);
    var v := LatestOf(listed);
    LatestIsHighest(listed);
    var tag := SuccessorTag(name, v);
    SuccessorIsNext(name, v);
    ImageTagVersion(name, v + 1);
    var images' := Commit(images, id, source, tag);
    var listed' := Listed(images', name);
    ListedTagged(images', name);
    if FirstTag(listed, tag) {
      LatestBounds(listed, tag);
    }
    UntagFirst(images, tag, name);
    CommittedFirst(images, id, source, tag, name);
    LatestBounds(listed', tag);
    LatestIsHighest(listed');
    var image :| image in listed' && VersionOf(image.tags[0]) == Some(LatestOf(listed'));
    FirstTagOf(listed', image);
    if image.tags[0] != tag {
      LatestBounds(listed, image.tags[0]);
    }
  }

  lemma FirstTagOf(listed: seq<Image>, image: Image)
    requires image in listed && AllTagged(listed)
    ensures FirstTag(listed, image.tags[0])
  {
  }

  lemma SuccessorIsNext(name: string, v: int)
    requires 0 <= v < MAX_INT
    ensures SuccessorTag(name, v) == ImageTag(name, v + 1)
  {
    hide Itoa;
    assert name + ":" + Itoa(v + 1) == name + (":" + Itoa(v + 1));
  }

  /** After a commit the first tags listed are those from before and the new one. */
  lemma CommittedFirst(images: seq<Image>, id: nat, source: Source, tag: string, name: string)
    requires OfName(tag, name)
    requires forall t :: FirstTag(Listed(Untag(images, tag), name), t) ==> FirstTag(Listed(images, name), t)
    ensures
      var listed' := Listed(Commit(images, id, source, tag), name);
      FirstTag(listed', tag) && forall t :: FirstTag(listed', t) ==> t == tag || FirstTag(Listed(images, name), t)
  {
    hide Listed, Untag, OfName;
    var image := Image(id, source, [tag]);
    ListedConcat(Untag(images, tag), [image], name);
    ListedOne(image, tag, name);
    var before := Listed(Untag(images, tag), name);
    var listed' := before + [image];
    assert image in listed';
    forall t | FirstTag(listed', t)
      ensures t == tag || FirstTag(Listed(images, name), t)
    {
      var x :| x in listed' && x.tags != [] && x.tags[0] == t;
      if x in before {
        assert FirstTag(before, t);
      }
    }
  }

  lemma ListedOne(image: Image, tag: string, name: string)
    requires image.tags == [tag] && OfName(tag, name)
    ensures Listed([image], name) == [image]
  {
    hide OfName;
    assert [tag][1..] == [];
    EmptyNamed(name);
    assert TagsNamed([tag], name) == [tag];
    assert [image][1..] == [];
    assert Listed([], name) == [];
    assert image.(tags := [tag]) == image;
  }

  /** Pulling a version that is not there does not change which version is the latest. */
  lemma PullLatest(images: seq<Image>, id: nat, source: Source, name: string)
    requires AllTagged(images) && AllTagged(Listed(images, name)) && LatestOf(Listed(images, name)) <= MAX_INT
    requires ImageTag(name, LatestOf(Listed(images, name))) !in TagsOf(images)
    ensures
      var images' := Commit(images, id, source, ImageTag(name, LatestOf(Listed(images, name))));
      AllTagged(Listed(images', name)) && LatestOf(Listed(images', name)) == LatestOf(Listed(images, name))
  {
    hide VersionOf, Listed, Untag, ImageTag, OfName, TagsOf;
    var listed := Listed(images, name);
    var v := LatestOf(listed);
    var tag := ImageTag(name, v);
    LatestIsHighest(listed);
    ImageTagVersion(name, v);
    UntagAbsent(images, tag);
    var image := Image(id, source, [tag]);
    ListedConcat(images, [image], name);
    ListedOne(image, tag, name);
    var listed' := listed + [image];
    assert listed'[..|listed|] == listed;
  }

  lemma {:induction false} SetRunningAppended(containers: seq<Container>, c: Container, running: bool)
    requires forall x <- containers :: x.id != c.id
    ensures SetRunning(containers + [c], c.id, running) == containers + [c.(running := running)]
  {
    if containers == [] {
      assert [c][1..] == [];
    } else {
      assert containers[0] in containers && forall x <- containers[1..] :: x in containers;
      assert (containers + [c])[1..] == containers[1..] + [c];
      SetRunningAppended(containers[1..], c, running);
    }
  }

  /** Starting a container that runs changes nothing. */
  lemma StartedAlready(containers: seq<Container>, nextId: nat, id: nat)
    requires ValidContainers(containers, nextId) && exists x <- containers :: x.id == id && x.running
    ensures SetRunning(containers, id, true) == containers
  {
    hide SetRunning;
    var x :| x in containers && x.id == id && x.running;
    forall i | 0 <= i < |containers| && containers[i].id == id
      ensures containers[i].running
    {
      SameId(containers, nextId, x, containers[i]);
    }
  }

  lemma StartedRuns(containers: seq<Container>, id: nat)
    requires exists x <- containers :: x.id == id
    ensures exists x <- SetRunning(containers, id, true) :: x.id == id && x.running
  {
    hide SetRunning;
    var i :| 0 <= i < |containers| && containers[i].id == id;
    var r := SetRunning(containers, id, true);
    assert r[i] in r;
  }

  lemma CreatedLast(before: seq<Container>, containers: seq<Container>, nextId: nat, id: nat, tag: string, now: int)
    requires ValidContainers(containers, nextId) && containers == before + [Container(id, tag, now, false)]
    ensures SetRunning(containers, id, true) == before + [Container(id, tag, now, true)]
    ensures exists c <- containers :: c.id == id
  {
    hide SetRunning;
    forall x <- before
      ensures x.id != id
    {
      var i :| 0 <= i < |before| && before[i] == x;
      assert containers[i] == x && containers[|before|].id == id;
    }
    assert containers[|before|] in containers;
    SetRunningAppended(before, Container(id, tag, now, false), true);
  }

  /**
   * Starts the latest container of an image, or a new one if there is none. An error of starting it is
   * overlooked, but it must then be found running: after a success it runs, and nothing else changed.
   */
  method Start(d: Daemon, tag: string, now: int) returns (ok: bool)
    requires d.Valid()
    modifies d`calls, d`containers, d`nextId
    ensures d.Valid()
    ensures ok && HasContainer(old(d.containers), tag) ==>
      exists c :: IsLatest(old(d.containers), tag, c) && d.containers == SetRunning(old(d.containers), c.id, true)
    ensures ok && !HasContainer(old(d.containers), tag) ==>
      exists id :: d.containers == old(d.containers) + [Container(id, tag, now, true)]
    ensures
      || d.containers == old(d.containers)
      || (HasContainer(old(d.containers), tag)
          && exists c :: IsLatest(old(d.containers), tag, c) && d.containers == SetRunning(old(d.containers), c.id, true))
      || (!HasContainer(old(d.containers), tag)
          && exists id, running :: d.containers == old(d.containers) + [Container(id, tag, now, running)])
    ensures Quiet(d) && (HasContainer(old(d.containers), tag) || tag in TagsOf(d.images)) ==> ok
  {
    hide TagsOf, Unique, HasContainer, SetRunning, ValidContainers;
    ghost var before := d.containers;
    var found, c;
    ok, found, c := FindContainer(d, tag);
    if !ok {
      return;
    }
    var id := c.id;
    if !found {
      ok, id := d.ContainerCreate(tag, now);
      if !ok {
        return;
      }
      CreatedLast(before, d.containers, d.nextId, id, tag, now);
    }
    ghost var listed := d.containers;
    StartedRuns(listed, id);
    var started := d.ContainerSetRunning(id, true);
    var running;
    ok, running := d.ContainerInspect(id);
    if running && !started {
      StartedAlready(listed, d.nextId, id);
    }
    ok := ok && running;
  }

  /** Pulls an image, and then starts its latest container, or a new one. */
  method Pull(d: Daemon, tag: string, now: int) returns (ok: bool)
    requires d.Valid()
    modifies d`calls, d`images, d`containers, d`nextId
    ensures d.Valid()
    ensures d.images == old(d.images) || exists image :: d.images == Commit(old(d.images), image, Pulled, tag)
    ensures ok && HasContainer(old(d.containers), tag) ==>
      exists c :: IsLatest(old(d.containers), tag, c) && d.containers == SetRunning(old(d.containers), c.id, true)
    ensures ok && !HasContainer(old(d.containers), tag) ==>
      exists id :: d.containers == old(d.containers) + [Container(id, tag, now, true)]
    ensures
      || d.containers == old(d.containers)
      || (HasContainer(old(d.containers), tag)
          && exists c :: IsLatest(old(d.containers), tag, c) && d.containers == SetRunning(old(d.containers), c.id, true))
      || (!HasContainer(old(d.containers), tag)
          && exists id, running :: d.containers == old(d.containers) + [Container(id, tag, now, running)])
  {
    hide TagsOf, Unique, HasContainer, Commit, SetRunning, ValidContainers, IsLatest;
    ok := d.ImagePull(tag);
    if ok {
      ok := Start(d, tag, now);
    }
  }

  /**
   * The container the instance runs in: the latest one, or a new one. When the image is missing it is
   * pulled, which leaves a running container behind, and yet another one is created.
   */
  method Instantiate(d: Daemon, name: string, version: int, now: int) returns (ok: bool, id: nat)
    requires d.Valid()
    modifies d`calls, d`images, d`containers, d`nextId
    ensures d.Valid()
    ensures old(d.containers) <= d.containers
    ensures forall c <- d.containers[|old(d.containers)|..] :: c.image == ImageTag(name, version)
    ensures HasContainer(old(d.containers), ImageTag(name, version)) ==> d.containers == old(d.containers) && d.images == old(d.images)
    ensures d.images == old(d.images)
            || (ImageTag(name, version) !in TagsOf(old(d.images))
                && exists image :: d.images == Commit(old(d.images), image, Pulled, ImageTag(name, version)))
    ensures ok ==> exists c <- d.containers :: c.id == id && c.image == ImageTag(name, version)
    ensures ok && HasContainer(old(d.containers), ImageTag(name, version)) ==>
      exists c :: IsLatest(d.containers, ImageTag(name, version), c) && c.id == id
    ensures ok && !HasContainer(old(d.containers), ImageTag(name, version)) ==>
      d.containers != [] && d.containers[|d.containers| - 1].id == id
      && |d.containers| == |old(d.containers)| + if ImageTag(name, version) in TagsOf(old(d.images)) then 1 else 2
    ensures Quiet(d) && (HasContainer(old(d.containers), ImageTag(name, version)) || ImageTag(name, version) in TagsOf(old(d.images))) ==> ok
  {
    hide ImageTag, TagsOf, Commit, Unique, HasContainer, ValidContainers;
    ghost var before := d.containers;
    var tag := ImageTag(name, version);
    var found, c;
    ok, found, c := FindContainer(d, tag);
    id := c.id;
    if !ok || found {
      return;
    }
    ok := d.Call();
    if !ok {
      return;
    }
    if tag !in TagsOf(d.images) {
      ok := Pull(d, tag, now);
      if !ok {
        return;
      }
    }
    ok, id := d.ContainerCreate(tag, now);
    assert ok ==> d.containers[|d.containers| - 1] in d.containers;
  }

  /** The images a snapshot starts from: those there were, or with the missing version pulled. */
  ghost predicate Prepared(images: seq<Image>, images': seq<Image>, tag: string) {
    images' == images
    || (tag !in TagsOf(images) && exists image :: images' == Commit(images, image, Pulled, tag))
  }

  /** The container a snapshot commits: a latest one there was, or else the one created last. */
  ghost predicate Origin(before: seq<Container>, after: seq<Container>, tag: string, container: nat) {
    if HasContainer(before, tag) then exists c :: IsLatest(before, tag, c) && c.id == container
    else |before| < |after| && after[|after| - 1].id == container && after[|after| - 1].image == tag
  }

  /** The images after a snapshot of a container, which `served` says was there before. */
  ghost predicate Snapshotted(images: seq<Image>, images': seq<Image>, name: string, version: int, served: bool, container: nat, ok: bool) {
    exists prepared ::
      && Prepared(images, prepared, ImageTag(name, version))
      && (served ==> prepared == images)
      && (!ok ==> images' == prepared)
      && (ok ==> exists image :: images' == Commit(prepared, image, CommittedFrom(container), SuccessorTag(name, version)))
  }

  /**
   * Commits the instance's latest container as the next version. If there was a container, nothing
   * but the new image is added; otherwise one is created first, and that one is committed.
   */
  method Snapshot(d: Daemon, name: string, version: int, now: int) returns (ok: bool)
    requires d.Valid()
    modifies d`calls, d`images, d`containers, d`nextId
    ensures d.Valid()
    ensures old(d.containers) <= d.containers
    ensures HasContainer(old(d.containers), ImageTag(name, version)) ==> d.containers == old(d.containers)
    ensures exists container: nat ::
      && Snapshotted(old(d.images), d.images, name, version, HasContainer(old(d.containers), ImageTag(name, version)), container, ok)
      && (ok ==>
            && Origin(old(d.containers), d.containers, ImageTag(name, version), container)
            && (exists image <- d.images :: SuccessorTag(name, version) in image.tags)
            && forall image <- d.images | SuccessorTag(name, version) in image.tags :: image.source == CommittedFrom(container))
    ensures Quiet(d) && (HasContainer(old(d.containers), ImageTag(name, version)) || ImageTag(name, version) in TagsOf(old(d.images))) ==> ok
  {
    hide ImageTag, SuccessorTag, TagsOf, Commit, Unique, HasContainer, ValidContainers;
    var tag := ImageTag(name, version);
    var found, c;
    ok, found, c := FindContainer(d, tag);
    assert Prepared(d.images, d.images, tag);
    if !ok {
      assert Snapshotted(d.images, d.images, name, version, HasContainer(d.containers, tag), 0, false);
      return;
    }
    var id := c.id;
    if !found {
      ok, id := Instantiate(d, name, version, now);
      assert Prepared(old(d.images), d.images, tag);
      if !ok {
        assert Snapshotted(old(d.images), d.images, name, version, false, 0, false);
        return;
      }
    }
    ghost var prepared := d.images;
    ok := d.ContainerCommit(id, SuccessorTag(name, version));
    if ok {
      ghost var image :| d.images == Commit(prepared, image, CommittedFrom(id), SuccessorTag(name, version));
      CommitSource(prepared, image, CommittedFrom(id), SuccessorTag(name, version));
      assert Image(image, CommittedFrom(id), [SuccessorTag(name, version)]) in d.images;
    }
    assert Snapshotted(old(d.images), d.images, name, version, HasContainer(old(d.containers), tag), id, ok);
  }

  lemma PreparedLatest(images: seq<Image>, images': seq<Image>, name: string)
    requires AllTagged(images) && AllTagged(Listed(images, name)) && LatestOf(Listed(images, name)) <= MAX_INT
    requires Prepared(images, images', ImageTag(name, LatestOf(Listed(images, name))))
    ensures AllTagged(Listed(images', name)) && LatestOf(Listed(images', name)) == LatestOf(Listed(images, name))
    ensures TagsOf(images) <= TagsOf(images')
  {
    hide ImageTag, Listed, LatestOf, TagsOf, Commit;
    if images' != images {
      var image :| images' == Commit(images, image, Pulled, ImageTag(name, LatestOf(Listed(images, name))));
      PullLatest(images, image, Pulled, name);
      CommitTags(images, image, Pulled, ImageTag(name, LatestOf(Listed(images, name))));
    }
  }

  /** A snapshot of the latest version makes its successor the latest and keeps every tag. */
  lemma SnapshottedLatest(images: seq<Image>, images': seq<Image>, name: string, served: bool, container: nat)
    requires AllTagged(images) && AllTagged(Listed(images, name)) && LatestOf(Listed(images, name)) < MAX_INT
    requires Snapshotted(images, images', name, LatestOf(Listed(images, name)), served, container, true)
    ensures AllTagged(Listed(images', name)) && Listed(images', name) != []
    ensures LatestOf(Listed(images', name)) == LatestOf(Listed(images, name)) + 1
    ensures TagsOf(images) + {ImageTag(name, LatestOf(Listed(images, name)) + 1)} <= TagsOf(images')
  {
    hide ImageTag, Listed, LatestOf, TagsOf, Commit, SuccessorTag, Prepared;
    var v := LatestOf(Listed(images, name));
    LatestIsHighest(Listed(images, name));
    var prepared :| Prepared(images, prepared, ImageTag(name, v))
                    && exists image :: images' == Commit(prepared, image, CommittedFrom(container), SuccessorTag(name, v));
    PreparedLatest(images, prepared, name);
    var image :| images' == Commit(prepared, image, CommittedFrom(container), SuccessorTag(name, v));
    CommitLatest(prepared, image, CommittedFrom(container), name);
    CommitTags(prepared, image, CommittedFrom(container), SuccessorTag(name, v));
    SuccessorIsNext(name, v);
    LatestOfNone();
  }

  lemma LatestOfNone()
    ensures LatestOf([]) == 0
  {
  }

  /** The tags of `k` versions after `v` */
  ghost predicate HasVersions(images: seq<Image>, name: string, v: int, k: nat) {
    forall w | v < w <= v + k :: ImageTag(name, w) in TagsOf(images)
  }

  /** Each of these versions was committed from a container of the version before it. */
  ghost predicate Lineage(images: seq<Image>, containers: seq<Container>, name: string, v: int, k: nat) {
    forall w, image | v < w <= v + k && image in images && ImageTag(name, w) in image.tags ::
      CommittedFromName(containers, image.source, ImageTag(name, w - 1))
  }

  predicate CommittedFromName(containers: seq<Container>, source: Source, name: string) {
    exists c <- containers :: c.image == name && source == CommittedFrom(c.id)
  }

  /** Pulling the latest version and committing its successor keep the lineage and add to it. */
  lemma LineageGrows(images: seq<Image>, prepared: seq<Image>, images': seq<Image>, before: seq<Container>, after: seq<Container>,
                     name: string, v: int, k: nat, id: nat, source: Source)
    requires 0 <= v && v + k < MAX_INT && before <= after && Lineage(images, before, name, v, k) && HasVersions(images, name, v, k)
    requires Prepared(images, prepared, ImageTag(name, v + k))
    requires images' == Commit(prepared, id, source, SuccessorTag(name, v + k))
    requires CommittedFromName(after, source, ImageTag(name, v + k))
    ensures Lineage(images', after, name, v, k + 1)
  {
    hide ImageTag, TagsOf, Untag, SuccessorTag;
    SuccessorIsNext(name, v + k);
    LineagePrepared(images, prepared, before, after, name, v, k);
    CommitSource(prepared, id, source, SuccessorTag(name, v + k));
    forall w, image | v < w <= v + k && image in images' && ImageTag(name, w) in image.tags
      ensures CommittedFromName(after, image.source, ImageTag(name, w - 1))
    {
      if ImageTag(name, w) == ImageTag(name, v + k + 1) {
        ImageTagInjective(name, w, v + k + 1);
      }
      UntagSources(prepared, SuccessorTag(name, v + k), ImageTag(name, w));
      NotCommitted(prepared, id, source, SuccessorTag(name, v + k), image, ImageTag(name, w));
    }
  }

  lemma SnapshotLineage(images: seq<Image>, images': seq<Image>, before: seq<Container>, after: seq<Container>,
                        name: string, v: int, k: nat, served: bool, container: nat)
    requires 0 <= v && v + k < MAX_INT && before <= after && Lineage(images, before, name, v, k) && HasVersions(images, name, v, k)
    requires Snapshotted(images, images', name, v + k, served, container, true)
    requires Origin(before, after, ImageTag(name, v + k), container)
    ensures Lineage(images', after, name, v, k + 1)
  {
    hide ImageTag, TagsOf, Untag, SuccessorTag, Commit, Prepared, Lineage, HasVersions, HasContainer;
    var next := SuccessorTag(name, v + k);
    var prepared :| Prepared(images, prepared, ImageTag(name, v + k))
                    && exists image :: images' == Commit(prepared, image, CommittedFrom(container), next);
    var image :| images' == Commit(prepared, image, CommittedFrom(container), next);
    assert CommittedFromName(after, CommittedFrom(container), ImageTag(name, v + k)) by {
      if HasContainer(before, ImageTag(name, v + k)) {
        var c :| IsLatest(before, ImageTag(name, v + k), c) && c.id == container;
        assert c in after;
      } else {
        assert after[|after| - 1] in after;
      }
    }
    LineageGrows(images, prepared, images', before, after, name, v, k, image, CommittedFrom(container));
  }

  lemma NoLineage(images: seq<Image>, containers: seq<Container>, name: string, v: int)
    ensures Lineage(images, containers, name, v, 0)
  {
  }

  lemma FailedLineage(images: seq<Image>, images': seq<Image>, before: seq<Container>, after: seq<Container>,
                      name: string, v: int, k: nat, served: bool, container: nat)
    requires before <= after && Lineage(images, before, name, v, k) && HasVersions(images, name, v, k)
    requires Snapshotted(images, images', name, v + k, served, container, false)
    ensures Lineage(images', after, name, v, k)
  {
    hide ImageTag, TagsOf, Untag, Commit, Prepared, Lineage, HasVersions;
    LineagePrepared(images, images', before, after, name, v, k);
  }

  lemma NotCommitted(images: seq<Image>, id: nat, source: Source, tag: string, image: Image, t: string)
    requires image in Commit(images, id, source, tag) && t in image.tags && t != tag
    ensures image in Untag(images, tag)
  {
  }

  lemma LineagePrepared(images: seq<Image>, prepared: seq<Image>, before: seq<Container>, after: seq<Container>, name: string, v: int, k: nat)
    requires before <= after && Lineage(images, before, name, v, k) && HasVersions(images, name, v, k)
    requires Prepared(images, prepared, ImageTag(name, v + k))
    ensures Lineage(prepared, after, name, v, k)
  {
    hide ImageTag, TagsOf, Untag;
    if k > 0 {
      assert ImageTag(name, v + k) in TagsOf(images);
      forall w, image | v < w <= v + k && image in images && ImageTag(name, w) in image.tags
        ensures CommittedFromName(after, image.source, ImageTag(name, w - 1))
      {
        assert CommittedFromName(before, image.source, ImageTag(name, w - 1));
        var c :| c in before && c.image == ImageTag(name, w - 1) && image.source == CommittedFrom(c.id);
        assert c in after;
      }
    }
  }

  /**
   * Repeated automatic snapshots: from latest version `v`, the ones that succeed create `v + 1`,
   * `v + 2` and so on, each in turn the latest and committed from a container of the version before
   * it, and no tag that was there is lost.
   */
  method AutoSnapshots(d: Daemon, name: string, times: seq<int>) returns (ok: bool, done: nat)
    requires d.Valid() && AllTagged(Listed(d.images, name))
    requires LatestOf(Listed(d.images, name)) + |times| <= MAX_INT
    modifies d`calls, d`images, d`containers, d`nextId
    ensures d.Valid() && done <= |times| && (ok <==> done == |times|)
    ensures AllTagged(Listed(d.images, name))
    ensures LatestOf(Listed(d.images, name)) == LatestOf(Listed(old(d.images), name)) + done
    ensures TagsOf(old(d.images)) <= TagsOf(d.images)
    ensures HasVersions(d.images, name, LatestOf(Listed(old(d.images), name)), done)
    ensures Lineage(d.images, d.containers, name, LatestOf(Listed(old(d.images), name)), done)
  {
    hide Listed, LatestOf, ImageTag, TagsOf, HasContainer, Unique, ValidContainers, Snapshotted, Lineage, Origin;
    done := 0;
    ghost var v := LatestOf(Listed(d.images, name));
    LatestIsHighest(Listed(d.images, name));
    NoLineage(d.images, d.containers, name, v);
    while done < |times|
      invariant d.Valid() && done <= |times| && AllTagged(Listed(d.images, name))
      invariant LatestOf(Listed(d.images, name)) == v + done
      invariant TagsOf(old(d.images)) <= TagsOf(d.images)
      invariant HasVersions(d.images, name, v, done)
      invariant Lineage(d.images, d.containers, name, v, done)
    {
      ghost var images, containers := d.images, d.containers;
      var latest;
      ok, latest := GetLatestImageVersionNumber(d, name);
      if !ok {
        return;
      }
      ghost var served := HasContainer(d.containers, ImageTag(name, latest));
      ok := Snapshot(d, name, latest, times[done]);
      if !ok {
        ghost var none: nat :| Snapshotted(images, d.images, name, latest, served, none, false);
        FailedSnapshot(images, d.images, name, served, none);
        FailedLineage(images, d.images, containers, d.containers, name, v, done, served, none);
        return;
      }
      ghost var container: nat :|
        && Snapshotted(images, d.images, name, latest, served, container, true)
        && Origin(containers, d.containers, ImageTag(name, latest), container)
        && forall image <- d.images | SuccessorTag(name, latest) in image.tags :: image.source == CommittedFrom(container);
      SnapshottedLatest(images, d.images, name, served, container);
      SnapshotLineage(images, d.images, containers, d.containers, name, v, done, served, container);
      done := done + 1;
    }
    ok := true;
  }

  lemma FailedSnapshot(images: seq<Image>, images': seq<Image>, name: string, served: bool, container: nat)
    requires AllTagged(images) && AllTagged(Listed(images, name)) && LatestOf(Listed(images, name)) <= MAX_INT
    requires Snapshotted(images, images', name, LatestOf(Listed(images, name)), served, container, false)
    ensures AllTagged(Listed(images', name)) && LatestOf(Listed(images', name)) == LatestOf(Listed(images, name))
    ensures TagsOf(images) <= TagsOf(images')
  {
    hide ImageTag, Listed, LatestOf, TagsOf, Commit, Prepared;
    PreparedLatest(images, images', name);
  }

  lemma UntouchedTwice(a: seq<Container>, b: seq<Container>, c: seq<Container>, images: set<string>)
    requires Untouched(a, b, images) && Untouched(b, c, images)
    ensures Untouched(a, c, images)
  {
  }

  /** Removes a container of an image name by its id. */
  method RemoveNamed(d: Daemon, id: nat, image: string) returns (ok: bool)
    requires d.Valid() && exists c :: c in d.containers && c.id == id && c.image == image
    modifies d`calls, d`containers
    ensures d.Valid()
    ensures Untouched(old(d.containers), d.containers, {image})
    ensures if ok then OneFewer(old(d.containers), d.containers, image) else d.containers == old(d.containers)
    ensures !ok ==> (exists n :: d.fails(n)) || exists c <- d.containers :: c.id == id && c.running
    ensures ok ==> forall c <- d.containers :: c.id != id
  {
    hide TagsOf, Unique, AllTagged, DistinctTimes;
    ghost var before := d.containers;
    ghost var c :| c in before && c.id == id && c.image == image;
    ok := RemoveContainer(d, id, false);
    if ok {
      RemoveIdUntouched(before, d.nextId, c);
      RemoveIdOne(before, d.nextId, c);
    }
  }

  /** Stops and removes the latest container of a version, if there is one. */
  method RemoveVersionContainer(d: Daemon, tag: string) returns (ok: bool)
    requires d.Valid()
    modifies d`calls, d`containers
    ensures d.Valid()
    ensures Untouched(old(d.containers), d.containers, {tag})
    ensures ok && !HasContainer(old(d.containers), tag) ==> d.containers == old(d.containers)
    ensures ok && HasContainer(old(d.containers), tag) ==>
      OneFewer(old(d.containers), d.containers, tag)
      && exists c :: IsLatest(old(d.containers), tag, c) && forall x <- d.containers :: x.id != c.id
    ensures Quiet(d) && (DistinctTimes(old(d.containers)) || !HasContainer(old(d.containers), tag)) ==> ok
  {
    hide TagsOf, Unique, AllTagged, SetRunning, DistinctTimes, HasContainer, ValidContainers, Untouched, OfImage;
    UntouchedSame(d.containers, {tag});
    var found, c;
    ok, found, c := FindContainer(d, tag);
    if !ok || !found {
      return;
    }
    ghost var before := d.containers;
    ok := Stop(d, tag);
    if !ok {
      return;
    }
    ghost var stopped :| IsLatest(before, tag, stopped) && d.containers == SetRunning(before, stopped.id, false);
    StoppedOneKeeps(before, d.containers, d.nextId, tag, stopped);
    StoppedHas(before, d.containers, d.nextId, stopped, c);
    ghost var between := d.containers;
    if DistinctTimes(before) {
      StoppedIs(before, between, tag, stopped, c);
    }
    ok := RemoveNamed(d, c.id, tag);
    UntouchedTwice(before, between, d.containers, {tag});
  }

  /** With distinct times the latest container is the one that was stopped. */
  lemma StoppedIs(before: seq<Container>, after: seq<Container>, image: string, stopped: Container, c: Container)
    requires DistinctTimes(before) && IsLatest(before, image, stopped) && IsLatest(before, image, c)
    requires after == SetRunning(before, stopped.id, false)
    ensures !exists x <- after :: x.id == c.id && x.running
  {
    hide SetRunning;
    forall i | 0 <= i < |after| && after[i].id == c.id
      ensures !after[i].running
    {
    }
  }

  lemma UntouchedSame(containers: seq<Container>, images: set<string>)
    ensures Untouched(containers, containers, images)
  {
  }

  /** A container keeps its id and image when it or another is stopped. */
  lemma StoppedHas(before: seq<Container>, after: seq<Container>, nextId: nat, stopped: Container, c: Container)
    requires ValidContainers(before, nextId) && c in before && after == SetRunning(before, stopped.id, false)
    ensures exists c' :: c' in after && c'.id == c.id && c'.image == c.image
  {
    hide SetRunning;
    var i :| 0 <= i < |before| && before[i] == c;
    assert after[i] in after;
  }

  /**
   * Rolls a version back to an older one. Without a container of the older version nothing changes.
   * On every exit, the containers of other images are as they were, the images lose at most the
   * version rolled back, and they lose it only when the older version's latest container runs.
   */
  method Rollback(d: Daemon, name: string, version: int, old_version: int) returns (ok: bool)
    requires d.Valid() && version != old_version
    modifies d`calls, d`containers, d`images
    ensures d.Valid()
    ensures !HasContainer(old(d.containers), ImageTag(name, old_version)) ==>
      !ok && d.containers == old(d.containers) && d.images == old(d.images)
    ensures d.images == if ok then Untag(old(d.images), ImageTag(name, version)) else old(d.images)
    ensures Untouched(old(d.containers), d.containers, {ImageTag(name, version), ImageTag(name, old_version)})
    ensures ok ==> exists c, between ::
      && IsLatest(old(d.containers), ImageTag(name, old_version), c)
      && Untouched(old(d.containers), between, {ImageTag(name, version)})
      && (if HasContainer(old(d.containers), ImageTag(name, version)) then OneFewer(old(d.containers), between, ImageTag(name, version))
          else between == old(d.containers))
      && d.containers == SetRunning(between, c.id, true)
    ensures
      (Quiet(d) && HasContainer(old(d.containers), ImageTag(name, old_version)) && ImageTag(name, version) in TagsOf(old(d.images))
       && (DistinctTimes(old(d.containers)) || !HasContainer(old(d.containers), ImageTag(name, version))))
      ==> ok
  {
    hide TagsOf, Unique, AllTagged, SetRunning, DistinctTimes, ImageTag, Untag, HasContainer, OneFewer;
    var tag, oldTag := ImageTag(name, version), ImageTag(name, old_version);
    if tag == oldTag {
      ImageTagInjective(name, version, old_version);
    }
    ghost var before := d.containers;
    var found, c;
    ok, found, c := FindContainer(d, oldTag);
    if !ok || !found {
      return false;
    }
    ok := RemoveVersionContainer(d, tag);
    if !ok {
      return;
    }
    ghost var between := d.containers;
    ok := d.ContainerSetRunning(c.id, true);
    if !ok {
      return;
    }
    assert c in OfImage(before, oldTag) && OfImage(between, oldTag) == OfImage(before, oldTag);
    SetRunningUntouched(between, d.nextId, c, true);
    ok := d.ImageRemove(tag);
  }

  /**
   * A snapshot of a version that has a container, followed by a rollback, restores the images and
   * leaves the version's latest container running.
   */
  method SnapshotThenRollback(d: Daemon, name: string, version: int, now: int) returns (ok: bool)
    requires d.Valid() && 0 <= version < MAX_INT
    requires HasContainer(d.containers, ImageTag(name, version))
    requires !HasContainer(d.containers, ImageTag(name, version + 1)) && ImageTag(name, version + 1) !in TagsOf(d.images)
    modifies d`calls, d`images, d`containers, d`nextId
    ensures d.Valid()
    ensures ok ==> d.images == old(d.images)
    ensures ok ==> exists c :: IsLatest(old(d.containers), ImageTag(name, version), c)
                               && d.containers == SetRunning(old(d.containers), c.id, true)
    ensures Quiet(d) ==> ok
  {
    hide TagsOf, Unique, SetRunning, DistinctTimes, ImageTag, Untag, Commit, HasContainer, ValidContainers, Untouched, SuccessorTag, IsLatest;
    ghost var images := d.images;
    SuccessorIsNext(name, version);
    ok := Snapshot(d, name, version, now);
    if !ok {
      return;
    }
    ghost var container: nat :| Snapshotted(images, d.images, name, version, true, container, true);
    ghost var image :| d.images == Commit(images, image, CommittedFrom(container), ImageTag(name, version + 1));
    UntagCommit(images, image, CommittedFrom(container), ImageTag(name, version + 1));
    CommitTags(images, image, CommittedFrom(container), ImageTag(name, version + 1));
    ok := Rollback(d, name, version + 1, version);
  }
}
