/** When telemetry is collected and published: time is accumulated and divided by subtraction. */
module TelemetryTiming {

  /** The whole intervals contained in an accumulated time. */
  function Intervals(time: real, interval: real): int
    requires 0.0 < interval
  {
    (time / interval).Floor
  }

  lemma DivideBack(x: real, y: real)
    requires y != 0.0
    ensures x / y * y == x
  {
  }

  /** Taking one interval away takes away one whole interval. */
  lemma SubtractInterval(time: real, interval: real)
    requires 0.0 < interval <= time
    ensures Intervals(time, interval) == Intervals(time - interval, interval) + 1
    ensures Intervals(time - interval, interval) >= 0
  {
    assert (time - interval) / interval == time / interval - 1.0 by {
      DivideBack(time, interval);
      assert (time / interval - 1.0) * interval == time - interval;
      UniqueQuotient(time / interval - 1.0, time - interval, interval);
    }
  }

  lemma UniqueQuotient(q: real, x: real, y: real)
    requires y != 0.0 && q * y == x
    ensures x / y == q
  {
  }

  lemma ProperFraction(q: real, x: real, y: real)
    requires q * y == x && 0.0 <= x < y
    ensures 0.0 <= q < 1.0
  {
  }

  /** `n` intervals, by addition */
  ghost function Multiple(n: nat, interval: real): real {
    if n == 0 then 0.0 else interval + Multiple(n - 1, interval)
  }

  lemma {:induction false} MultipleIsProduct(n: nat, interval: real)
    ensures Multiple(n, interval) == n as real * interval
  {
    if n > 0 {
      MultipleIsProduct(n - 1, interval);
      assert n as real * interval == (n - 1) as real * interval + interval;
    }
  }

  /** The number of ticks and the remainder are those of the division of the time by the interval. */
  lemma IntervalsUnique(time: real, interval: real, fired: nat, rest: real)
    requires 0.0 < interval && 0.0 <= rest < interval
    requires time == Multiple(fired, interval) + rest
    ensures fired == Intervals(time, interval)
  {
    MultipleIsProduct(fired, interval);
    UniqueQuotient(rest / interval, rest, interval);
    assert time / interval == fired as real + rest / interval by {
      DivideBack(rest, interval);
      assert (fired as real + rest / interval) * interval == time;
      UniqueQuotient(fired as real + rest / interval, time, interval);
    }
    DivideBack(rest, interval);
    ProperFraction(rest / interval, rest, interval);
  }

  /** One of the two subtraction loops: how often the interval goes into the time, and what is left. */
  method Drain(slept: real, interval: real) returns (rest: real, fired: nat)
    requires 0.0 <= slept && 0.0 < interval
    ensures 0.0 <= rest < interval
    ensures slept == Multiple(fired, interval) + rest
  {
    rest, fired := slept, 0;
    while rest >= interval
      invariant 0.0 <= rest
      invariant slept == Multiple(fired, interval) + rest
      decreases Intervals(rest, interval)
    {
      SubtractInterval(rest, interval);
      rest := rest - interval;
      fired := fired + 1;
    }
  }

  ghost function Sum(s: seq<real>): real {
    if s == [] then 0.0 else Sum(s[..|s| - 1]) + s[|s| - 1]
  }

  function Times(n: nat, interval: real): seq<real> {
    seq(n, i => interval)
  }

  lemma {:induction false} SumTimes(s: seq<real>, n: nat, interval: real)
    ensures Sum(s + Times(n, interval)) == Sum(s) + Multiple(n, interval)
  {
    var t := s + Times(n, interval);
    if n == 0 {
      assert t == s;
    } else {
      assert t[..|t| - 1] == s + Times(n - 1, interval);
      SumTimes(s, n - 1, interval);
    }
  }

  /** No time is lost or counted twice: what was slept is what fired plus what is left. */
  ghost predicate Balanced(slept: real, ticks: seq<real>, rest: real) {
    0.0 <= rest && slept == Sum(ticks) + rest
  }

  /** Sleeping and then draining keeps the balance. */
  method SleepAndDrain(slept: real, ghost total: real, ghost ticks: seq<real>, toSleep: real, interval: real)
    returns (rest: real, fired: nat)
    requires Balanced(total, ticks, slept) && 0.0 <= toSleep && 0.0 < interval
    ensures Balanced(total + toSleep, ticks + Times(fired, interval), rest)
    ensures rest < interval
    ensures slept + toSleep == Multiple(fired, interval) + rest
  {
    rest, fired := Drain(slept + toSleep, interval);
    SumTimes(ticks, fired, interval);
  }

  class TelemetryTimer {
    var publishSlept: real
    var collectSlept: real
    var collectTime: real
    var publishTime: real
    var collectCounter: nat
    var publishCounter: nat

    /** all the time slept so far, and the interval in force at each tick that ever fired */
    ghost var slept: real
    ghost var collectTicks: seq<real>
    ghost var publishTicks: seq<real>

    ghost predicate Valid()
      reads this
    {
      && 0.0 < collectTime && 0.0 < publishTime
      && Balanced(slept, collectTicks, collectSlept)
      && Balanced(slept, publishTicks, publishSlept)
    }

    constructor (collectTime: real, publishTime: real)
      requires 0.0 < collectTime && 0.0 < publishTime
      ensures Valid()
      ensures this.collectTime == collectTime && this.publishTime == publishTime
      ensures collectSlept == publishSlept == slept == 0.0
      ensures collectCounter == publishCounter == 0
      ensures collectTicks == publishTicks == []
    {
      publishSlept, collectSlept, slept := 0.0, 0.0, 0.0;
      this.collectTime, this.publishTime := collectTime, publishTime;
      collectCounter, publishCounter := 0, 0;
      collectTicks, publishTicks := [], [];
    }

    method SetCollectTime(collectTime: real)
      requires Valid() && 0.0 < collectTime
      modifies this`collectTime
      ensures Valid() && this.collectTime == collectTime
    {
      this.collectTime := collectTime;
    }

    method SetPublishTime(publishTime: real)
      requires Valid() && 0.0 < publishTime
      modifies this`publishTime
      ensures Valid() && this.publishTime == publishTime
    {
      this.publishTime := publishTime;
    }

    /**
     * The rest of a wait after the intervals were read under the lock. The configuration thread may
     * have changed the fields since, so the arguments need not be the intervals now in force.
     */
    method SleepAndCount(collectTime: real, publishTime: real, maxSleepTime: real)
      requires Valid() && 0.0 < collectTime && 0.0 < publishTime
      modifies this`publishSlept, this`collectSlept, this`collectCounter, this`publishCounter,
               this`slept, this`collectTicks, this`publishTicks
      ensures Valid()
      ensures slept - old(slept) == if 0.0 < maxSleepTime < collectTime then maxSleepTime else collectTime
      ensures collectSlept < collectTime && publishSlept < publishTime
      ensures old(collectCounter) <= collectCounter && old(publishCounter) <= publishCounter
      ensures collectTicks == old(collectTicks) + Times(collectCounter - old(collectCounter), collectTime)
      ensures publishTicks == old(publishTicks) + Times(publishCounter - old(publishCounter), publishTime)
      ensures old(collectSlept) + (slept - old(slept))
           == Multiple(collectCounter - old(collectCounter), collectTime) + collectSlept
    {
      var toSleep := if maxSleepTime > 0.0 && maxSleepTime < collectTime then maxSleepTime else collectTime;
      ghost var total := slept;
      slept := slept + toSleep;

      var fired: nat;
      publishSlept, fired := SleepAndDrain(publishSlept, total, publishTicks, toSleep, publishTime);
      publishCounter := publishCounter + fired;
      publishTicks := publishTicks + Times(fired, publishTime);

      collectSlept, fired := SleepAndDrain(collectSlept, total, collectTicks, toSleep, collectTime);
      collectCounter := collectCounter + fired;
      collectTicks := collectTicks + Times(fired, collectTime);
    }

    method TimeToPublish() returns (now: bool)
      requires Valid()
      modifies this`publishCounter
      ensures Valid() && now == (old(publishCounter) > 0)
      ensures publishCounter == if now then old(publishCounter) - 1 else 0
    {
      now := publishCounter > 0;
      if now {
        publishCounter := publishCounter - 1;
      }
    }

    method TimeToCollect() returns (now: bool)
      requires Valid()
      modifies this`collectCounter
      ensures Valid() && now == (old(collectCounter) > 0)
      ensures collectCounter == if now then old(collectCounter) - 1 else 0
    {
      now := collectCounter > 0;
      if now {
        collectCounter := collectCounter - 1;
      }
    }
  }
}

/** The bounded cache of collected telemetry, and the loop that feeds and drains it. */
module TelemetryPolling {
  import opened Options
  import opened TelemetryTiming

  /** The last `maxCacheSize` items; a negative size is a ValueError. A slice `[-0:]` is the whole list. */
  function TrimCache<T>(input: seq<T>, maxCacheSize: int): Option<seq<T>> {
    if maxCacheSize < 0 then None
    else if |input| <= maxCacheSize then Some(input)
    else if maxCacheSize == 0 then Some(input)
    else Some(input[|input| - maxCacheSize..])
  }

  /**
   * Trimming keeps a suffix. It keeps the promised size exactly when the size is positive or there
   * was nothing to trim: size 0 keeps everything.
   */
  lemma TrimCacheBound<T>(input: seq<T>, maxCacheSize: nat)
    ensures
      var r := TrimCache(input, maxCacheSize);
      && r.Some?
      && |r.value| <= |input| && r.value == input[|input| - |r.value|..]
      && (|r.value| == (if |input| <= maxCacheSize then |input| else maxCacheSize) <==> maxCacheSize > 0 || input == [])
  {
  }

  /** A run of consecutive collected bundles that was published together: positions lo up to hi. */
  datatype Span = Span(lo: nat, hi: nat)

  /** Spans in order, without overlap, all below `bound`. */
  ghost predicate Ordered(spans: seq<Span>, bound: nat) {
    && (forall i | 0 <= i < |spans| :: spans[i].lo <= spans[i].hi <= bound)
    && (forall i, j | 0 <= i < j < |spans| :: spans[i].hi <= spans[j].lo)
  }

  ghost function Range(span: Span): seq<nat> {
    seq(if span.lo <= span.hi then span.hi - span.lo else 0, i requires 0 <= i => span.lo + i)
  }

  /** The collected positions in the order they were published. */
  ghost function Positions(spans: seq<Span>): seq<nat> {
    if spans == [] then [] else Positions(spans[..|spans| - 1]) + Range(spans[|spans| - 1])
  }

  ghost function Select<T>(all: seq<T>, positions: seq<nat>): seq<T>
    requires forall p <- positions :: p < |all|
  {
    seq(|positions|, i requires 0 <= i < |positions| =>
      assert positions[i] in positions; all[positions[i]])
  }

  lemma {:induction false} PositionsBelow(spans: seq<Span>, bound: nat)
    requires Ordered(spans, bound)
    ensures forall p <- Positions(spans) :: p < bound
  {
    if spans != [] {
      PositionsBelow(spans[..|spans| - 1], bound);
    }
  }

  /** No position is published twice, and publication follows the order of collection. */
  lemma {:induction false} PositionsIncrease(spans: seq<Span>, bound: nat)
    requires Ordered(spans, bound)
    ensures forall i, j | 0 <= i < j < |Positions(spans)| :: Positions(spans)[i] < Positions(spans)[j]
  {
    if spans != [] {
      var before, last := spans[..|spans| - 1], spans[|spans| - 1];
      assert Ordered(before, last.lo);
      PositionsIncrease(before, last.lo);
      PositionsBelow(before, last.lo);
      var p, r := Positions(before), Range(last);
      assert Positions(spans) == p + r;
      forall i, j | 0 <= i < j < |p + r|
        ensures (p + r)[i] < (p + r)[j]
      {
        if i < |p| <= j {
          assert p[i] in p;
        }
      }
    }
  }

  lemma SelectGrows<T>(all: seq<T>, more: seq<T>, positions: seq<nat>)
    requires forall p <- positions :: p < |all|
    ensures forall p <- positions :: p < |all + more|
    ensures Select(all + more, positions) == Select(all, positions)
  {
    forall i | 0 <= i < |positions|
      ensures positions[i] in positions && (all + more)[positions[i]] == all[positions[i]]
    {
    }
  }

  /** Publishing everything from `lo` on, after spans that end by `lo`. */
  lemma PublishSpan<T>(all: seq<T>, spans: seq<Span>, lo: nat)
    requires lo <= |all| && Ordered(spans, lo)
    ensures
      var more := spans + [Span(lo, |all|)];
      && Ordered(more, |all|)
      && (forall p <- Positions(spans) :: p < |all|) && (forall p <- Positions(more) :: p < |all|)
      && Select(all, Positions(more)) == Select(all, Positions(spans)) + all[lo..]
  {
    var more := spans + [Span(lo, |all|)];
    PositionsBelow(spans, lo);
    assert more[..|more| - 1] == spans;
    assert Positions(more) == Positions(spans) + Range(Span(lo, |all|));
    PositionsBelow(more, |all|);
  }

  lemma {:induction false} MultipleAtLeast(n: nat, interval: real, least: real)
    requires least <= interval
    ensures Multiple(n, interval) >= Multiple(n, least)
  {
    if n > 0 {
      MultipleAtLeast(n - 1, interval, least);
    }
  }

  /** How many ticks a wait of a second can add, from any remainder the limits allow. */
  lemma FewTicks(rest: real, interval: real, fired: nat, left: real)
    requires rest < 120.0 && 30.0 <= interval && 0.0 <= left
    requires rest + 1.0 == Multiple(fired, interval) + left
    ensures fired <= 4
  {
    MultipleAtLeast(fired, interval, 30.0);
    MultipleIsProduct(fired, 30.0);
  }

  /** A value sent by the configuration agent for one of its paths. */
  datatype ConfigMessage = ConfigMessage(path: ConfigPath, value: string)

  datatype ConfigPath =
    | CollectionIntervalSeconds | PublishIntervalSeconds | MaxCacheSize
    | ContainerHealthIntervalSeconds | EnableSoftwareBom | SoftwareBomIntervalHours | OtherPath

  /** Where the configuration thread can run within one pass of the telemetry loop. */
  datatype Interference = Interference(
    beforeTrim: seq<ConfigMessage>,
    beforeWait: seq<ConfigMessage>,
    duringWait: seq<ConfigMessage>,
    afterWait: seq<ConfigMessage>)
  {
    /** Everything the configuration thread handles during the pass. */
    function All(): seq<ConfigMessage> {
      beforeTrim + beforeWait + duringWait + afterWait
    }
  }

  /** Everything it handles during some passes. */
  function Handled(others: seq<Interference>): seq<ConfigMessage> {
    if others == [] then [] else Handled(others[..|others| - 1]) + others[|others| - 1].All()
  }

  /** What happened in one pass: the cache size used, the ticks of both kinds, and the longest list. */
  datatype PassReport = PassReport(cacheSize: int, collectedNow: nat, peak: nat, fired: nat, health: bool, bom: bool)

  function Least(a: int, b: int): int {
    if a <= b then a else b
  }

  /** How many bundles are cached after some passes that began with `cached`. */
  function Kept(cached: nat, reports: seq<PassReport>): nat {
    if reports == [] then cached
    else
      var last := reports[|reports| - 1];
      if last.fired > 0 then 0 else last.peak
  }

  /** How many bundles did not fit into the cache at the beginning of the passes. */
  function Dropped(cached: nat, reports: seq<PassReport>): int {
    if reports == [] then 0
    else
      var n := |reports| - 1;
      var before := Kept(cached, reports[..n]);
      Dropped(cached, reports[..n]) + before - Least(before, reports[n].cacheSize)
  }

  function Collected(reports: seq<PassReport>): nat {
    if reports == [] then 0 else Collected(reports[..|reports| - 1]) + reports[|reports| - 1].collectedNow
  }

  function Fired(reports: seq<PassReport>): nat {
    if reports == [] then 0 else Fired(reports[..|reports| - 1]) + reports[|reports| - 1].fired
  }

  /** The list of each pass holds what the cache kept and what was collected. */
  predicate Fed(cached: nat, reports: seq<PassReport>) {
    forall i | 0 <= i < |reports| ::
      reports[i].peak == Least(Kept(cached, reports[..i]), reports[i].cacheSize) + reports[i].collectedNow
  }

  /** The value, if the text is an integer within the bounds. */
  function Between(parseInt: string -> Option<int>, value: string, lower: int, upper: int): (r: Option<int>)
    ensures r.Some? <==> parseInt(value).Some? && lower <= parseInt(value).value <= upper
    ensures r.Some? ==> lower <= r.value <= upper
  {
    match parseInt(value)
    case None => None
    case Some(n) => if n < lower || n > upper then None else Some(n)
  }

  /** What configuration messages can change, with the two countdowns that they restart. */
  datatype Settings = Settings(collectTime: real, publishTime: real, maxCacheSize: int, healthInterval: int, healthTemp: int,
                               enableSwbom: bool, swbomInterval: int, swbomTimer: int)

  class Poller<Bundle> {
    /** Python's `int()` on a string, and the n-th telemetry bundle read from the system */
    const parseInt: string -> Option<int>
    const dynamicTelemetry: nat -> Bundle
    const timer: TelemetryTimer

    var maxCacheSize: int
    var containerHealthInterval: int
    var containerHealthTemp: int
    var enableSwbom: bool
    var swbomInterval: int
    var swbomTimer: int

    /** the cached bundles and, in order, the bundles published so far */
    var telemetryBundles: seq<Bundle>
    var published: seq<Bundle>
    /** how many bundles have been read from the system */
    var readings: nat

    /** everything collected so far, the published spans of it, and how many bundles were trimmed */
    ghost var collected: seq<Bundle>
    ghost var spans: seq<Span>
    ghost var trimmed: nat

    /** The accepted configuration limits, and what they imply for the time left over in the timer. */
    ghost predicate WithinLimits()
      reads this`maxCacheSize, this`containerHealthInterval, this`containerHealthTemp,
            this`swbomInterval, this`swbomTimer, timer
    {
      && timer.Valid()
      && 30.0 <= timer.collectTime <= 120.0 && timer.collectSlept < 120.0
      && 120.0 <= timer.publishTime <= 480.0 && timer.publishSlept < 480.0
      && 50 <= maxCacheSize <= 200
      && 300 <= containerHealthInterval <= 1800 && 0 <= containerHealthTemp <= containerHealthInterval
      && 3600 <= swbomInterval <= 168 * 3600 && 0 <= swbomTimer <= swbomInterval
    }

    /** Every bundle collected is published once, cached, or trimmed. */
    ghost predicate Conserved()
      reads this`telemetryBundles, this`published, this`readings, this`collected, this`spans, this`trimmed
    {
      && |telemetryBundles| <= |collected|
      && telemetryBundles == collected[|collected| - |telemetryBundles|..]
      && Ordered(spans, |collected| - |telemetryBundles|)
      && (forall p <- Positions(spans) :: p < |collected|)
      && published == Select(collected, Positions(spans))
      && |collected| == |published| + |telemetryBundles| + trimmed
      && readings == |collected|
      && (forall i | 0 <= i < |collected| :: collected[i] == dynamicTelemetry(i))
    }

    ghost predicate Valid()
      reads this, timer
    {
      WithinLimits() && Conserved()
    }

    constructor (parseInt: string -> Option<int>, dynamicTelemetry: nat -> Bundle)
      ensures Valid() && fresh(timer)
      ensures this.parseInt == parseInt && this.dynamicTelemetry == dynamicTelemetry
      ensures timer.collectCounter == timer.publishCounter == 0
      ensures collected == [] && published == [] && telemetryBundles == []
      ensures Now() == Settings(60.0, 300.0, 100, 600, 600, false, 86400, 86400)
    {
      this.parseInt, this.dynamicTelemetry := parseInt, dynamicTelemetry;
      timer := new TelemetryTimer(60.0, 300.0);
      maxCacheSize := 100;
      containerHealthInterval, containerHealthTemp := 600, 600;
      enableSwbom, swbomInterval, swbomTimer := false, 86400, 86400;
      telemetryBundles, published, readings := [], [], 0;
      collected, spans, trimmed := [], [], 0;
    }

    /** Whether a message for this path carries an integer within the limits of the path. */
    predicate Accepts(message: ConfigMessage, path: ConfigPath) {
      var value := parseInt(message.value);
      message.path == path && value.Some? &&
      match path
      case CollectionIntervalSeconds => 30 <= value.value <= 120
      case PublishIntervalSeconds => 120 <= value.value <= 480
      case MaxCacheSize => 50 <= value.value <= 200
      case ContainerHealthIntervalSeconds => 300 <= value.value <= 1800
      case SoftwareBomIntervalHours => 1 <= value.value <= 168
      case _ => false
    }

    function Value(message: ConfigMessage): int
      requires parseInt(message.value).Some?
    {
      parseInt(message.value).value
    }

    /** The bundles read from the system from one position up to another. */
    function Read(from: int, to: int): seq<Bundle> {
      if 0 <= from <= to then seq(to - from, i requires 0 <= i < to - from => dynamicTelemetry(from + i)) else []
    }

    /** What passes publish that begin with `from` bundles read: the whole list whenever a tick fires. */
    function Sent(from: nat, reports: seq<PassReport>): seq<Bundle> {
      if reports == [] then []
      else
        var n := |reports| - 1;
        var end := from + Collected(reports);
        Sent(from, reports[..n]) + if reports[n].fired > 0 then Read(end - reports[n].peak, end) else []
    }

    lemma CacheIsRead()
      requires Conserved()
      ensures telemetryBundles == Read(readings - |telemetryBundles|, readings)
    {
    }

    /** One configuration message: taken over when it is within the limits, ignored otherwise. */
    method SetConfigurationValue(message: ConfigMessage)
      requires WithinLimits()
      modifies this`maxCacheSize, this`containerHealthInterval, this`containerHealthTemp, this`enableSwbom,
               this`swbomInterval, this`swbomTimer, timer`collectTime, timer`publishTime
      ensures WithinLimits()
      ensures timer.collectTime == (if Accepts(message, CollectionIntervalSeconds) then Value(message) as real else old(timer.collectTime))
      ensures timer.publishTime == (if Accepts(message, PublishIntervalSeconds) then Value(message) as real else old(timer.publishTime))
      ensures maxCacheSize == (if Accepts(message, MaxCacheSize) then Value(message) else old(maxCacheSize))
      ensures containerHealthInterval
           == (if Accepts(message, ContainerHealthIntervalSeconds) then Value(message) else old(containerHealthInterval))
      ensures containerHealthTemp
           == (if Accepts(message, ContainerHealthIntervalSeconds) then containerHealthInterval else old(containerHealthTemp))
      ensures enableSwbom == (if message.path == EnableSoftwareBom then message.value == "true" else old(enableSwbom))
      ensures swbomInterval == (if Accepts(message, SoftwareBomIntervalHours) then Value(message) * 3600 else old(swbomInterval))
      ensures swbomTimer == (if Accepts(message, SoftwareBomIntervalHours) then swbomInterval else old(swbomTimer))
    {
      match message.path
      case CollectionIntervalSeconds =>
        var value := Between(parseInt, message.value, 30, 120);
        if value.Some? {
          timer.SetCollectTime(value.value as real);
        }
      case PublishIntervalSeconds =>
        var value := Between(parseInt, message.value, 120, 480);
        if value.Some? {
          timer.SetPublishTime(value.value as real);
        }
      case MaxCacheSize =>
        var value := Between(parseInt, message.value, 50, 200);
        if value.Some? {
          maxCacheSize := value.value;
        }
      case ContainerHealthIntervalSeconds =>
        var value := Between(parseInt, message.value, 300, 1800);
        if value.Some? {
          containerHealthInterval := value.value;
          containerHealthTemp := containerHealthInterval;
        }
      case EnableSoftwareBom =>
        enableSwbom := message.value == "true";
      case SoftwareBomIntervalHours =>
        var value := Between(parseInt, message.value, 1, 168);
        if value.Some? {
          swbomInterval := value.value * 60 * 60;
          swbomTimer := swbomInterval;
        }
      case OtherPath =>
    }

    /** The value the last message within the limits of a path carries, if there is one. */
    function LastAccepted(messages: seq<ConfigMessage>, path: ConfigPath): Option<int> {
      if messages == [] then None
      else
        var n := |messages| - 1;
        if Accepts(messages[n], path) then Some(Value(messages[n])) else LastAccepted(messages[..n], path)
    }

    lemma {:induction false} LastAcceptedConcat(a: seq<ConfigMessage>, b: seq<ConfigMessage>, path: ConfigPath)
      ensures LastAccepted(a + b, path) == if LastAccepted(b, path).Some? then LastAccepted(b, path) else LastAccepted(a, path)
    {
      if b == [] {
        assert a + b == a;
      } else {
        var n := |b| - 1;
        LastAcceptedConcat(a, b[..n], path);
        assert (a + b)[..|a| + n] == a + b[..n];
      }
    }

    /** The interval in force after some messages. */
    function IntervalAfter(messages: seq<ConfigMessage>, path: ConfigPath, interval: real): real {
      var last := LastAccepted(messages, path);
      if last.Some? then last.value as real else interval
    }

    /** Whether the software BOM is enabled after some messages. */
    function EnabledAfter(messages: seq<ConfigMessage>, enabled: bool): bool {
      if messages == [] then enabled
      else
        var n := |messages| - 1;
        if messages[n].path == EnableSoftwareBom then messages[n].value == "true" else EnabledAfter(messages[..n], enabled)
    }

    lemma {:induction false} EnabledAfterConcat(a: seq<ConfigMessage>, b: seq<ConfigMessage>, enabled: bool)
      ensures EnabledAfter(a + b, enabled) == EnabledAfter(b, EnabledAfter(a, enabled))
    {
      if b == [] {
        assert a + b == a;
      } else {
        var n := |b| - 1;
        EnabledAfterConcat(a, b[..n], enabled);
        assert (a + b)[..|a| + n] == a + b[..n];
      }
    }

    /** The seconds until the next software BOM, or the interval between two, after some messages. */
    function SecondsAfter(messages: seq<ConfigMessage>, seconds: int): int {
      var last := LastAccepted(messages, SoftwareBomIntervalHours);
      if last.Some? then last.value * 60 * 60 else seconds
    }

    function Now(): Settings
      reads this, timer
    {
      Settings(timer.collectTime, timer.publishTime, maxCacheSize, containerHealthInterval, containerHealthTemp,
               enableSwbom, swbomInterval, swbomTimer)
    }

    function After(messages: seq<ConfigMessage>, s: Settings): Settings {
      Settings(
        IntervalAfter(messages, CollectionIntervalSeconds, s.collectTime),
        IntervalAfter(messages, PublishIntervalSeconds, s.publishTime),
        LastAccepted(messages, MaxCacheSize).GetOr(s.maxCacheSize),
        LastAccepted(messages, ContainerHealthIntervalSeconds).GetOr(s.healthInterval),
        LastAccepted(messages, ContainerHealthIntervalSeconds).GetOr(s.healthTemp),
        EnabledAfter(messages, s.enableSwbom),
        SecondsAfter(messages, s.swbomInterval),
        SecondsAfter(messages, s.swbomTimer))
    }

    lemma AfterConcat(a: seq<ConfigMessage>, b: seq<ConfigMessage>, s: Settings)
      ensures After(a + b, s) == After(b, After(a, s))
    {
      hide LastAccepted, EnabledAfter;
      LastAcceptedConcat(a, b, CollectionIntervalSeconds);
      LastAcceptedConcat(a, b, PublishIntervalSeconds);
      LastAcceptedConcat(a, b, MaxCacheSize);
      LastAcceptedConcat(a, b, ContainerHealthIntervalSeconds);
      LastAcceptedConcat(a, b, SoftwareBomIntervalHours);
      EnabledAfterConcat(a, b, s.enableSwbom);
    }

    /** The configuration thread handles messages: for each setting the last acceptable one counts. */
    method Configure(messages: seq<ConfigMessage>)
      requires WithinLimits()
      modifies this`maxCacheSize, this`containerHealthInterval, this`containerHealthTemp, this`enableSwbom,
               this`swbomInterval, this`swbomTimer, timer`collectTime, timer`publishTime
      ensures WithinLimits()
      ensures timer.collectTime == IntervalAfter(messages, CollectionIntervalSeconds, old(timer.collectTime))
      ensures timer.publishTime == IntervalAfter(messages, PublishIntervalSeconds, old(timer.publishTime))
      ensures maxCacheSize == LastAccepted(messages, MaxCacheSize).GetOr(old(maxCacheSize))
      ensures containerHealthInterval == LastAccepted(messages, ContainerHealthIntervalSeconds).GetOr(old(containerHealthInterval))
      ensures containerHealthTemp == LastAccepted(messages, ContainerHealthIntervalSeconds).GetOr(old(containerHealthTemp))
      ensures enableSwbom == EnabledAfter(messages, old(enableSwbom))
      ensures swbomInterval == SecondsAfter(messages, old(swbomInterval)) && swbomTimer == SecondsAfter(messages, old(swbomTimer))
      ensures Now() == After(messages, old(Now()))
    {
      for i := 0 to |messages|
        invariant WithinLimits()
        invariant timer.collectTime == IntervalAfter(messages[..i], CollectionIntervalSeconds, old(timer.collectTime))
        invariant timer.publishTime == IntervalAfter(messages[..i], PublishIntervalSeconds, old(timer.publishTime))
        invariant maxCacheSize == LastAccepted(messages[..i], MaxCacheSize).GetOr(old(maxCacheSize))
        invariant containerHealthInterval
               == LastAccepted(messages[..i], ContainerHealthIntervalSeconds).GetOr(old(containerHealthInterval))
        invariant containerHealthTemp == LastAccepted(messages[..i], ContainerHealthIntervalSeconds).GetOr(old(containerHealthTemp))
        invariant enableSwbom == EnabledAfter(messages[..i], old(enableSwbom))
        invariant swbomInterval == SecondsAfter(messages[..i], old(swbomInterval))
        invariant swbomTimer == SecondsAfter(messages[..i], old(swbomTimer))
      {
        assert messages[..i + 1][..i] == messages[..i];
        SetConfigurationValue(messages[i]);
      }
      assert messages[..|messages|] == messages;
    }

    method Trim()
      requires Conserved() && maxCacheSize > 0
      modifies this`telemetryBundles, this`trimmed
      ensures Conserved()
      ensures |telemetryBundles| == Least(old(|telemetryBundles|), maxCacheSize)
      ensures trimmed == old(trimmed) + old(|telemetryBundles|) - |telemetryBundles|
    {
      hide Positions, Select;
      var kept := TrimCache(telemetryBundles, maxCacheSize).value;
      trimmed := trimmed + |telemetryBundles| - |kept|;
      telemetryBundles := kept;
    }

    method CollectOne()
      requires Conserved()
      modifies this`telemetryBundles, this`collected, this`readings
      ensures Conserved()
      ensures |telemetryBundles| == old(|telemetryBundles|) + 1
      ensures readings == old(readings) + 1 && |collected| == old(|collected|) + 1 && old(collected) <= collected
    {
      var bundle := dynamicTelemetry(readings);
      readings := readings + 1;
      SelectGrows(collected, [bundle], Positions(spans));
      telemetryBundles := telemetryBundles + [bundle];
      collected := collected + [bundle];
    }

    method Publish(bundles: seq<Bundle>)
      modifies this`published
      ensures published == old(published) + bundles
    {
      for i := 0 to |bundles|
        invariant published == old(published) + bundles[..i]
      {
        published := published + [bundles[i]];
      }
    }

    /** Publishes the whole cache in order and empties it. */
    method PublishAll()
      requires Conserved()
      modifies this`telemetryBundles, this`published, this`spans
      ensures Conserved()
      ensures telemetryBundles == [] && published == old(published) + old(telemetryBundles)
    {
      ghost var lo := |collected| - |telemetryBundles|;
      PublishSpan(collected, spans, lo);
      Publish(telemetryBundles);
      spans := spans + [Span(lo, |collected|)];
      telemetryBundles := [];
    }

    /** Collects one bundle for every tick that is due. */
    method CollectDue()
      requires Valid()
      modifies this`telemetryBundles, this`collected, this`readings, timer`collectCounter
      ensures Valid() && timer.collectCounter == 0
      ensures |telemetryBundles| == old(|telemetryBundles|) + old(timer.collectCounter)
      ensures readings == old(readings) + old(timer.collectCounter) && old(collected) <= collected
    {
      var now := timer.TimeToCollect();
      while now
        invariant Valid()
        invariant |telemetryBundles| + timer.collectCounter + (if now then 1 else 0)
               == old(|telemetryBundles|) + old(timer.collectCounter)
        invariant readings - |telemetryBundles| == old(readings) - old(|telemetryBundles|)
        invariant old(collected) <= collected
        invariant !now ==> timer.collectCounter == 0
        decreases timer.collectCounter + (if now then 1 else 0)
      {
        CollectOne();
        now := timer.TimeToCollect();
      }
    }

    /** Publishes the cache at every publication tick that is due; only the first finds anything. */
    method PublishDue()
      requires Valid()
      modifies this`telemetryBundles, this`published, this`spans, timer`publishCounter
      ensures Valid() && timer.publishCounter == 0
      ensures old(timer.publishCounter) == 0 ==> telemetryBundles == old(telemetryBundles) && published == old(published)
      ensures old(timer.publishCounter) > 0 ==> telemetryBundles == [] && published == old(published) + old(telemetryBundles)
    {
      var now := timer.TimeToPublish();
      ghost var any := now;
      while now
        invariant Valid()
        invariant any == (old(timer.publishCounter) > 0) && (now ==> any)
        invariant (telemetryBundles == old(telemetryBundles) && published == old(published))
               || (telemetryBundles == [] && published == old(published) + old(telemetryBundles))
        invariant any && !now ==> telemetryBundles == [] && published == old(published) + old(telemetryBundles)
        invariant !any ==> telemetryBundles == old(telemetryBundles) && published == old(published)
        invariant !now ==> timer.publishCounter == 0
        decreases timer.publishCounter + (if now then 1 else 0)
      {
        PublishAll();
        now := timer.TimeToPublish();
      }
    }

    /** The two countdowns at the end of a pass; their work is published elsewhere. */
    method CountDown(withDocker: bool) returns (health: bool, bom: bool)
      requires WithinLimits()
      modifies this`containerHealthTemp, this`swbomTimer
      ensures WithinLimits()
      ensures health == (withDocker && old(containerHealthTemp) == 0)
      ensures bom == (enableSwbom && old(swbomTimer) == 0)
      ensures containerHealthTemp
           == if health then containerHealthInterval else old(containerHealthTemp) - if withDocker then 1 else 0
      ensures swbomTimer == if bom then swbomInterval else old(swbomTimer) - if enableSwbom then 1 else 0
    {
      health, bom := false, false;
      if withDocker {
        if containerHealthTemp <= 0 {
          health := true;
          containerHealthTemp := containerHealthInterval;
        } else {
          containerHealthTemp := containerHealthTemp - 1;
        }
      }
      if enableSwbom {
        if swbomTimer <= 0 {
          bom := true;
          swbomTimer := swbomInterval;
        } else {
          swbomTimer := swbomTimer - 1;
        }
      }
    }

    /**
     * The wait of one pass: the intervals are read once, and changes made while sleeping count from
     * the next pass on. From any remainder below the longest interval, at most four ticks fall due.
     */
    method WaitCollect(before: seq<ConfigMessage>, during: seq<ConfigMessage>)
      requires WithinLimits() && timer.collectCounter == timer.publishCounter == 0
      modifies this`maxCacheSize, this`containerHealthInterval, this`containerHealthTemp, this`enableSwbom,
               this`swbomInterval, this`swbomTimer, timer
      ensures WithinLimits() && Now() == After(before + during, old(Now()))
      ensures timer.collectCounter <= 4
      ensures timer.slept == old(timer.slept) + 1.0
      ensures
        var read := After(before, old(Now()));
        && timer.collectTicks == old(timer.collectTicks) + Times(timer.collectCounter, read.collectTime)
        && timer.publishTicks == old(timer.publishTicks) + Times(timer.publishCounter, read.publishTime)
        && timer.collectSlept < read.collectTime && timer.publishSlept < read.publishTime
    {
      hide After;
      AfterConcat(before, during, Now());
      Configure(before);
      var collectTime, publishTime := timer.collectTime, timer.publishTime;
      Configure(during);
      ghost var rest, slept := timer.collectSlept, timer.slept;
      timer.SleepAndCount(collectTime, publishTime, 1.0);
      assert timer.slept - slept == 1.0;
      FewTicks(rest, collectTime, timer.collectCounter, timer.collectSlept);
    }

    /** The first half of a pass: the cache is trimmed, and fed with what falls due during the wait. */
    method CollectPhase(other: Interference) returns (report: PassReport)
      requires Valid() && timer.collectCounter == timer.publishCounter == 0
      modifies this, timer
      ensures Valid() && timer.collectCounter == 0 && report.fired == timer.publishCounter
      ensures Now() == After(other.beforeTrim + other.beforeWait + other.duringWait, old(Now()))
      ensures report.cacheSize == After(other.beforeTrim, old(Now())).maxCacheSize && 50 <= report.cacheSize <= 200
      ensures timer.slept == old(timer.slept) + 1.0
      ensures
        var read := After(other.beforeTrim + other.beforeWait, old(Now()));
        && timer.collectTicks == old(timer.collectTicks) + Times(report.collectedNow, read.collectTime)
        && timer.publishTicks == old(timer.publishTicks) + Times(report.fired, read.publishTime)
        && timer.collectSlept < read.collectTime && timer.publishSlept < read.publishTime
      ensures report.collectedNow <= 4 && readings == old(readings) + report.collectedNow
      ensures |telemetryBundles| == report.peak == Least(old(|telemetryBundles|), report.cacheSize) + report.collectedNow
      ensures trimmed == old(trimmed) + old(|telemetryBundles|) - Least(old(|telemetryBundles|), report.cacheSize)
      ensures published == old(published) && old(collected) <= collected
    {
      hide Conserved, After, Accepts, LastAccepted, IntervalAfter, SecondsAfter, EnabledAfter, Times, Multiple, Balanced, TelemetryTimer.Valid;
      AfterConcat(other.beforeTrim, other.beforeWait, Now());
      AfterConcat(other.beforeTrim, other.beforeWait + other.duringWait, Now());
      assert other.beforeTrim + other.beforeWait + other.duringWait == other.beforeTrim + (other.beforeWait + other.duringWait);
      Configure(other.beforeTrim);
      var cacheSize := maxCacheSize;
      Trim();
      WaitCollect(other.beforeWait, other.duringWait);
      var due := timer.collectCounter;
      CollectDue();
      report := PassReport(cacheSize, due, |telemetryBundles|, timer.publishCounter, false, false);
    }

    /**
     * One pass of the telemetry loop, with the configuration thread running wherever it can. What does
     * not fit into the cache is dropped first; a publication tick publishes everything that is left then
     * and everything collected since, and without one nothing is published.
     */
    method LoopPass(other: Interference, withDocker: bool) returns (report: PassReport)
      requires Valid() && timer.collectCounter == timer.publishCounter == 0
      modifies this, timer
      ensures Valid() && timer.collectCounter == timer.publishCounter == 0
      ensures report.cacheSize == After(other.beforeTrim, old(Now())).maxCacheSize && 50 <= report.cacheSize <= 200
      ensures timer.slept == old(timer.slept) + 1.0
      ensures
        var read := After(other.beforeTrim + other.beforeWait, old(Now()));
        && timer.collectTicks == old(timer.collectTicks) + Times(report.collectedNow, read.collectTime)
        && timer.publishTicks == old(timer.publishTicks) + Times(report.fired, read.publishTime)
        && timer.collectSlept < read.collectTime && timer.publishSlept < read.publishTime
      ensures report.collectedNow <= 4 && readings == old(readings) + report.collectedNow
      ensures report.peak == Least(old(|telemetryBundles|), report.cacheSize) + report.collectedNow
      ensures trimmed == old(trimmed) + old(|telemetryBundles|) - Least(old(|telemetryBundles|), report.cacheSize)
      ensures report.fired > 0 ==> telemetryBundles == [] && published == old(published) + Read(readings - report.peak, readings)
      ensures report.fired == 0 ==> telemetryBundles == Read(readings - report.peak, readings) && published == old(published)
      ensures |telemetryBundles| == if report.fired > 0 then 0 else report.peak
      ensures
        var after := After(other.All(), old(Now()));
        && report.health == (withDocker && after.healthTemp == 0)
        && report.bom == (after.enableSwbom && after.swbomTimer == 0)
        && Now() == after.(
             healthTemp := if report.health then after.healthInterval else if withDocker then after.healthTemp - 1 else after.healthTemp,
             swbomTimer := if report.bom then after.swbomInterval else if after.enableSwbom then after.swbomTimer - 1 else after.swbomTimer)
    {
      hide Conserved, After, Accepts, LastAccepted, IntervalAfter, SecondsAfter, EnabledAfter, Read, Times, Multiple, Balanced,
        TelemetryTimer.Valid;
      AfterConcat(other.beforeTrim + other.beforeWait + other.duringWait, other.afterWait, Now());
      report := CollectPhase(other);
      CacheIsRead();
      Configure(other.afterWait);
      PublishDue();
      var health, bom := CountDown(withDocker);
      report := report.(health := health, bom := bom);
    }

    /**
     * The telemetry loop, for any number of passes and any interference. Bundles are dropped only where
     * a pass finds more than its cache size; everything else is published in order, each list as a whole
     * when a publication tick fires, or still cached. No list exceeds that size by more than four.
     */
    method LoopTelemetry(others: seq<Interference>, withDocker: bool) returns (reports: seq<PassReport>)
      requires Valid() && timer.collectCounter == timer.publishCounter == 0
      modifies this, timer
      ensures Valid()
      ensures |reports| == |others|
      ensures forall r <- reports :: r.collectedNow <= 4 && r.peak <= r.cacheSize + 4 && r.cacheSize <= 200
      ensures forall i | 0 <= i < |others| ::
        reports[i].cacheSize == After(Handled(others[..i]) + others[i].beforeTrim, old(Now())).maxCacheSize
      ensures Fed(old(|telemetryBundles|), reports)
      ensures published == old(published) + Sent(old(readings), reports)
      ensures |telemetryBundles| == Kept(old(|telemetryBundles|), reports)
      ensures trimmed == old(trimmed) + Dropped(old(|telemetryBundles|), reports)
      ensures readings == old(readings) + Collected(reports)
      ensures timer.slept == old(timer.slept) + |others| as real
      ensures Collected(reports) == |timer.collectTicks| - |old(timer.collectTicks)|
      ensures Fired(reports) == |timer.publishTicks| - |old(timer.publishTicks)|
    {
      hide Conserved, WithinLimits, After, Read, Handled, Times, Kept, Dropped, Collected, Fired, Sent, Fed;
      reports := [];
      NothingReported(|telemetryBundles|, readings);
      NothingHandled(Now());
      for i := 0 to |others|
        invariant Valid() && timer.collectCounter == timer.publishCounter == 0
        invariant |reports| == i
        invariant forall r <- reports :: r.collectedNow <= 4 && r.peak <= r.cacheSize + 4 && r.cacheSize <= 200
        invariant maxCacheSize == After(Handled(others[..i]), old(Now())).maxCacheSize
        invariant forall k | 0 <= k < i ::
          reports[k].cacheSize == After(Handled(others[..k]) + others[k].beforeTrim, old(Now())).maxCacheSize
        invariant Fed(old(|telemetryBundles|), reports)
        invariant published == old(published) + Sent(old(readings), reports)
        invariant |telemetryBundles| == Kept(old(|telemetryBundles|), reports)
        invariant trimmed == old(trimmed) + Dropped(old(|telemetryBundles|), reports)
        invariant readings == old(readings) + Collected(reports)
        invariant timer.slept == old(timer.slept) + i as real
        invariant Collected(reports) == |timer.collectTicks| - |old(timer.collectTicks)|
        invariant Fired(reports) == |timer.publishTicks| - |old(timer.publishTicks)|
      {
        HandledNext(others, i, old(Now()), Now());
        var report := LoopPass(others[i], withDocker);
        TimesLength();
        FedAdded(old(|telemetryBundles|), reports, report);
        ReportAdded(old(|telemetryBundles|), old(readings), reports, report);
        reports := reports + [report];
      }
    }

    lemma TimesLength()
      ensures forall n: nat, interval :: |Times(n, interval)| == n
    {
    }

    lemma NothingReported(cached: nat, from: nat)
      ensures Fed(cached, []) && Sent(from, []) == [] && Kept(cached, []) == cached
      ensures Dropped(cached, []) == Collected([]) == Fired([]) == 0
    {
    }

    lemma ReportAdded(cached: nat, from: nat, reports: seq<PassReport>, report: PassReport)
      ensures
        var more := reports + [report];
        var end := from + Collected(more);
        && Collected(more) == Collected(reports) + report.collectedNow && Fired(more) == Fired(reports) + report.fired
        && Kept(cached, more) == (if report.fired > 0 then 0 else report.peak)
        && Dropped(cached, more) == Dropped(cached, reports) + Kept(cached, reports) - Least(Kept(cached, reports), report.cacheSize)
        && Sent(from, more) == Sent(from, reports) + (if report.fired > 0 then Read(end - report.peak, end) else [])
    {
      hide Read, Least;
      var n, more := |reports|, reports + [report];
      assert more[..n] == reports && more[n] == report;
    }

    lemma FedAdded(cached: nat, reports: seq<PassReport>, report: PassReport)
      ensures Fed(cached, reports + [report]) <==>
              Fed(cached, reports) && report.peak == Least(Kept(cached, reports), report.cacheSize) + report.collectedNow
    {
      hide Kept, Least;
      var n, more := |reports|, reports + [report];
      assert more[..n] == reports && more[n] == report;
      assert forall k | 0 <= k < n :: more[k] == reports[k] && more[..k] == reports[..k];
    }

    lemma NothingHandled(s: Settings)
      ensures After(Handled([]), s).maxCacheSize == s.maxCacheSize
    {
    }

    /** The cache size in force in the next pass and after it. */
    lemma HandledNext(others: seq<Interference>, i: nat, first: Settings, now: Settings)
      requires i < |others| && now.maxCacheSize == After(Handled(others[..i]), first).maxCacheSize
      ensures After(others[i].beforeTrim, now).maxCacheSize == After(Handled(others[..i]) + others[i].beforeTrim, first).maxCacheSize
      ensures After(others[i].All(), now).maxCacheSize == After(Handled(others[..i + 1]), first).maxCacheSize
    {
      hide LastAccepted, EnabledAfter;
      assert others[..i + 1][..i] == others[..i];
      AfterConcat(Handled(others[..i]), others[i].beforeTrim, first);
      AfterConcat(Handled(others[..i]), others[i].All(), first);
    }
  }
}
