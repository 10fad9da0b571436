/** Publishing the software bill of materials in chunks. */
module SoftwareBom {

  const SWBOM_BYTES_SIZE := 2500

  datatype Key = QueryResult | SoftwareBomKey | QueryEndResult

  /** One published message: the key, the number in its `swbom_package_list_` name, and the packages. */
  datatype Message<T> = Chunk(key: Key, number: nat, packages: seq<T>) | NoPackages(key: Key)

  /** `math.ceil(a / b)` for positive numbers */
  function CeilDiv(a: int, b: int): int
    requires 0 < b
  {
    (a + b - 1) / b
  }

  /** The ceiling is the least integer whose multiple reaches `a`. */
  lemma CeilDivLeast(a: int, b: int)
    requires 0 < b
    ensures (CeilDiv(a, b) - 1) * b < a <= CeilDiv(a, b) * b
  {
    var q := CeilDiv(a, b);
    assert q * b <= a + b - 1 < q * b + b;
    assert (q - 1) * b == q * b - b;
  }

  /** `q` is the least whole number of pieces of size `b` that reach `a`. */
  predicate LeastReaching(q: int, a: int, b: int) {
    (q - 1) * b < a <= q * b
  }

  /** How many packages go in one message; `size` is `sys.getsizeof` of the list of `n`. */
  function ChunkSize(n: nat, size: nat): int
    requires n > 0
  {
    if size > SWBOM_BYTES_SIZE then
      var average := CeilDiv(size, n);
      if average > 0 then CeilDiv(SWBOM_BYTES_SIZE, average) else 0
    else n
  }

  /** A chunk is never empty, never longer than the list, and the last that stays within the limit. */
  lemma ChunkSizeBounds(n: nat, size: nat)
    requires n > 0
    ensures 1 <= ChunkSize(n, size) <= n
    ensures size <= SWBOM_BYTES_SIZE ==> ChunkSize(n, size) == n
    ensures size > SWBOM_BYTES_SIZE ==>
      var average := CeilDiv(size, n);
      average > 0 && (ChunkSize(n, size) - 1) * average < SWBOM_BYTES_SIZE <= ChunkSize(n, size) * average
  {
    if size > SWBOM_BYTES_SIZE {
      var average := CeilDiv(size, n);
      CeilDivLeast(size, n);
      Cancel(0, average, n);
      CeilDivLeast(SWBOM_BYTES_SIZE, average);
      var c := ChunkSize(n, size);
      assert (c - 1) * average < SWBOM_BYTES_SIZE < size <= average * n;
      Cancel(c - 1, n, average);
      assert c * average > 0;
      Cancel(0, c, average);
    }
  }

  lemma Cancel(x: int, y: int, z: int)
    requires 0 < z && x * z < y * z
    ensures x < y
  {
  }

  /** The packages of the messages, in the order sent. */
  function Packages<T>(messages: seq<Message<T>>): seq<T> {
    if messages == [] then []
    else (if messages[0].Chunk? then messages[0].packages else []) + Packages(messages[1..])
  }

  function OrdinaryKey(queryRequest: bool): Key {
    if queryRequest then QueryResult else SoftwareBomKey
  }

  /** The key of the chunk at list position `i`. */
  function ChunkKey(n: nat, c: nat, i: nat, queryRequest: bool): Key
    requires c > 0
  {
    if (i == 0 && n == c) || i == n / c * c then QueryEndResult else OrdinaryKey(queryRequest)
  }

  /** At a chunk's start, the test for the last chunk is a test for a short one. */
  lemma LastChunkTest(n: nat, c: nat, i: nat)
    requires 0 < c && i % c == 0 && i < n
    ensures i == n / c * c <==> n - i < c
    ensures n - i <= c ==> n % c == if n - i == c then 0 else n - i
    ensures (i + c) % c == 0
  {
    var q, k := n / c, i / c;
    assert i == k * c;
    assert q * c <= n < q * c + c;
    if n - i < c {
      Cancel(k - 1, q, c);
      Cancel(q - 1, k, c);
    }
    if n - i == c {
      Remainder(n, k + 1, 0, c);
    } else if n - i < c {
      Remainder(n, k, n - i, c);
    }
    Remainder(i + c, k + 1, 0, c);
  }

  lemma Remainder(x: int, q: int, r: int, c: int)
    requires 0 <= r < c && x == q * c + r
    ensures x % c == r
  {
    var d := q - x / c;
    assert d * c == q * c - x / c * c;
    assert -c < d * c < c;
    if d > 0 {
      Cancel(d - 1, 0, c);
    } else if d < 0 {
      Cancel(0, d + 1, c);
    }
  }

  function Least(a: int, b: int): int {
    if a <= b then a else b
  }

  /** The messages for the part of the list from position `i` on. */
  function Chunks<T>(packages: seq<T>, c: nat, i: nat, number: nat, queryRequest: bool): seq<Message<T>>
    requires 0 < c
    decreases |packages| - i
  {
    if i >= |packages| then []
    else
      [Chunk(ChunkKey(|packages|, c, i, queryRequest), number, packages[i..Least(i + c, |packages|)])]
      + Chunks(packages, c, i + c, number + 1, queryRequest)
  }

  /** What the messages from position `i` on hold, how large they are, and which has the end marker. */
  ghost predicate Described<T>(sent: seq<Message<T>>, packages: seq<T>, c: nat, i: nat, number: nat, queryRequest: bool)
    requires 0 < c && i <= |packages|
  {
    var n := |packages|;
    && Packages(sent) == packages[i..]
    && (i < n ==> sent != [])
    && (forall j | 0 <= j < |sent| :: sent[j].Chunk? && sent[j].number == number + j)
    && (forall j | 0 <= j < |sent| - 1 :: |sent[j].packages| == c && sent[j].key == OrdinaryKey(queryRequest))
    && (sent != [] ==>
          var last := sent[|sent| - 1];
          && |last.packages| == (if n % c == 0 then c else n % c)
          && last.key == if n == c || n % c != 0 then QueryEndResult else OrdinaryKey(queryRequest))
  }

  lemma DescribedLast<T>(m: Message<T>, packages: seq<T>, c: nat, i: nat, number: nat, queryRequest: bool)
    requires 0 < c <= |packages| && i % c == 0 && i < |packages| <= i + c
    requires m == Chunk(ChunkKey(|packages|, c, i, queryRequest), number, packages[i..])
    ensures Described([m], packages, c, i, number, queryRequest)
  {
    LastChunkTest(|packages|, c, i);
    assert [m][1..] == [];
    assert Packages([m]) == m.packages;
  }

  lemma DescribedCons<T>(m: Message<T>, rest: seq<Message<T>>, packages: seq<T>, c: nat, i: nat, number: nat,
                         queryRequest: bool)
    requires 0 < c && i % c == 0 && i + c < |packages|
    requires m == Chunk(ChunkKey(|packages|, c, i, queryRequest), number, packages[i..i + c])
    requires Described(rest, packages, c, i + c, number + 1, queryRequest)
    ensures Described([m] + rest, packages, c, i, number, queryRequest)
  {
    LastChunkTest(|packages|, c, i);
    var sent := [m] + rest;
    assert sent[1..] == rest;
    assert packages[i..i + c] + packages[i + c..] == packages[i..];
    assert forall j | 1 <= j < |sent| :: sent[j] == rest[j - 1];
  }

  lemma {:induction false} ChunksDescribed<T>(packages: seq<T>, c: nat, i: nat, number: nat, queryRequest: bool)
    requires 0 < c <= |packages| && i % c == 0 && i < |packages|
    ensures Described(Chunks(packages, c, i, number, queryRequest), packages, c, i, number, queryRequest)
    decreases |packages| - i
  {
    hide Described, ChunkKey;
    var n := |packages|;
    var m := Chunk(ChunkKey(n, c, i, queryRequest), number, packages[i..Least(i + c, n)]);
    if i + c < n {
      LastChunkTest(n, c, i);
      ChunksDescribed(packages, c, i + c, number + 1, queryRequest);
      DescribedCons(m, Chunks(packages, c, i + c, number + 1, queryRequest), packages, c, i, number, queryRequest);
    } else {
      DescribedLast(m, packages, c, i, number, queryRequest);
      assert Chunks(packages, c, i + c, number + 1, queryRequest) == [];
      assert Chunks(packages, c, i, number, queryRequest) == [m] + [] == [m];
    }
  }

  /** The number of messages is fixed by the other facts; it is the number of chunks that fit. */
  lemma {:induction false} ChunksCount<T>(packages: seq<T>, c: nat, i: nat, number: nat, queryRequest: bool)
    requires 0 < c && i <= |packages|
    ensures (|Chunks(packages, c, i, number, queryRequest)| - 1) * c < |packages| - i
         <= |Chunks(packages, c, i, number, queryRequest)| * c
    decreases |packages| - i
  {
    if i + c <= |packages| {
      ChunksCount(packages, c, i + c, number + 1, queryRequest);
      var rest := Chunks(packages, c, i + c, number + 1, queryRequest);
      if i < |packages| {
        assert (|rest| + 1) * c == |rest| * c + c;
        assert |rest| * c == (|rest| - 1) * c + c;
      }
    }
  }

  /** The loop over the list in steps of `c`. */
  method PublishChunks<T>(packages: seq<T>, c: nat, queryRequest: bool) returns (sent: seq<Message<T>>)
    requires 0 < c
    ensures sent == Chunks(packages, c, 0, 1, queryRequest)
  {
    hide ChunkKey;
    var n := |packages|;
    sent := [];
    ghost var all := Chunks(packages, c, 0, 1, queryRequest);
    var i := 0;
    var number := 0;
    while i < n
      invariant 0 <= i && 0 <= number
      invariant sent + Chunks(packages, c, i, number + 1, queryRequest) == all
      decreases n - i
    {
      number := number + 1;
      var chunk := Chunk(ChunkKey(n, c, i, queryRequest), number, packages[i..Least(i + c, n)]);
      ghost var rest := Chunks(packages, c, i + c, number + 1, queryRequest);
      assert sent + ([chunk] + rest) == (sent + [chunk]) + rest;
      sent := sent + [chunk];
      i := i + c;
    }
    assert sent == all;
  }

  /**
   * Publishes `packages`. A list within the limit is one message, which carries the end marker. A longer
   * one is cut into chunks of `c` packages, the least number that reaches 2500 bytes at the least whole
   * average that covers the list. The end marker is on the last chunk, and only there, when the list is
   * a single chunk or is not a multiple of the chunk size; otherwise no chunk carries it.
   */
  method PublishSoftwareBom<T>(packages: seq<T>, size: nat, queryRequest: bool) returns (sent: seq<Message<T>>)
    ensures packages == [] ==> sent == [NoPackages(if queryRequest then QueryEndResult else SoftwareBomKey)]
    ensures packages != [] && size <= 2500 ==> sent == [Chunk(QueryEndResult, 1, packages)]
    ensures packages != [] && size > 2500 ==> exists average: nat, c: nat ::
      && LeastReaching(average, size, |packages|) && LeastReaching(c, 2500, average)
      && 1 <= c <= |packages|
      && Described(sent, packages, c, 0, 1, queryRequest)
      && LeastReaching(|sent|, |packages|, c)
  {
    if packages == [] {
      return [NoPackages(if queryRequest then QueryEndResult else SoftwareBomKey)];
    }
    hide ChunkSize, Described, Chunks;
    ghost var n := |packages|;
    var c := ChunkSize(|packages|, size);
    ChunkSizeBounds(n, size);
    sent := PublishChunks(packages, c, queryRequest);
    ChunksDescribed(packages, c, 0, 1, queryRequest);
    ChunksCount(packages, c, 0, 1, queryRequest);
    if size <= 2500 {
      WithinLimit(packages, size, queryRequest);
    } else {
      CeilDivLeast(size, n);
      assert LeastReaching(CeilDiv(size, n), size, n) && LeastReaching(c, 2500, CeilDiv(size, n));
    }
  }

  lemma WithinLimit<T>(packages: seq<T>, size: nat, queryRequest: bool)
    requires packages != [] && size <= 2500
    ensures
      ChunkSize(|packages|, size) == |packages|
      && Chunks(packages, |packages|, 0, 1, queryRequest) == [Chunk(QueryEndResult, 1, packages)]
  {
    assert packages[0..|packages|] == packages;
    assert Chunks(packages, |packages|, |packages|, 2, queryRequest) == [];
  }

  /** A reader that waits for the end marker sees it exactly for these lists. */
  lemma EndMarkerPresent<T>(packages: seq<T>, size: nat, queryRequest: bool)
    requires packages != []
    ensures 0 < ChunkSize(|packages|, size)
    ensures
      var n, c := |packages|, ChunkSize(|packages|, size);
      (exists m <- Chunks(packages, c, 0, 1, queryRequest) :: m.key == QueryEndResult) <==> n == c || n % c != 0
  {
    ChunkSizeBounds(|packages|, size);
    var c := ChunkSize(|packages|, size);
    ChunksDescribed(packages, c, 0, 1, queryRequest);
    var sent := Chunks(packages, c, 0, 1, queryRequest);
    assert sent[|sent| - 1] in sent;
  }

  /** The documented end marker is missing for some lists: 556 packages in a list of 4504 bytes. */
  lemma EndMarkerCanBeMissing<T>(packages: seq<T>, queryRequest: bool)
    requires |packages| == 556
    ensures ChunkSize(556, 4504) == 278
    ensures forall m <- Chunks(packages, 278, 0, 1, queryRequest) :: m.key != QueryEndResult
  {
    EndMarkerPresent(packages, 4504, queryRequest);
  }
}
