/**
 * The per-key token-bucket limiter and its cleanup loop, in exact arithmetic: a
 * bucket holds units, a request costs `cost` of them, and `rate` of them come
 * back per nanosecond.
 */
module RateLimit {
  import opened Prelude

  datatype Config = Config(rate: nat, cost: nat, burst: nat, stale: nat) {
    function Capacity(): nat { burst * cost }

    predicate Valid() { cost >= 1 && burst >= 1 }

    /** A bucket idle for longer than the stale timeout is full again. */
    predicate RefillsWhileStale() { Capacity() <= rate * (stale + 1) }
  }

  datatype Bucket = Bucket(level: int, last: int)

  datatype Visitor = Visitor(bucket: Bucket, lastSeen: int)

  datatype Event = Request(key: string, now: int) | Cleanup(now: int)

  /** `n` requests a minute with a burst of `n`, evicted after three minutes: the source's three limiters. */
  function PerMinute(n: nat): Config {
    Config(n, 60_000_000_000, n, 180_000_000_000)
  }

  const PUBLIC := PerMinute(10)
  const AUTHENTICATED := PerMinute(60)
  const WEBHOOK := PerMinute(120)

  // ----- One bucket -----

  function Full(c: Config): Bucket { Bucket(c.Capacity(), 0) }

  function Min(a: int, b: int): int { if a < b then a else b }

  /** Units in the bucket at `now`; a clock that went backwards refills nothing. */
  function LevelAt(c: Config, b: Bucket, now: int): int {
    var elapsed := if now < b.last then 0 else now - b.last;
    Min(c.Capacity(), b.level + c.rate * elapsed)
  }

  /** A denied request leaves the bucket as it was. */
  function Take(c: Config, b: Bucket, now: int): (Bucket, bool) {
    if LevelAt(c, b, now) >= c.cost then (Bucket(LevelAt(c, b, now) - c.cost, now), true) else (b, false)
  }

  // ----- All visitors -----

  function BucketOf(c: Config, visitors: map<string, Visitor>, key: string): Bucket {
    if key in visitors then visitors[key].bucket else Full(c)
  }

  function Admit(c: Config, visitors: map<string, Visitor>, key: string, now: int): (map<string, Visitor>, bool) {
    var (bucket, ok) := Take(c, BucketOf(c, visitors, key), now);
    (visitors[key := Visitor(bucket, now)], ok)
  }

  function Evict(c: Config, visitors: map<string, Visitor>, now: int): map<string, Visitor> {
    map k | k in visitors && now - visitors[k].lastSeen <= c.stale :: visitors[k]
  }

  function Requests(events: seq<Event>): nat
    decreases |events|
  {
    if events == [] then 0 else (if events[0].Request? then 1 else 0) + Requests(events[1..])
  }

  /** The answers to the requests of a trace; with `evicting` false, cleanups do nothing. */
  function Answers(
    c: Config, visitors: map<string, Visitor>, events: seq<Event>, evicting: bool): (answers: seq<bool>)
    ensures |answers| == Requests(events)
    decreases |events|
  {
    if events == [] then []
    else
      match events[0]
      case Cleanup(now) => Answers(c, if evicting then Evict(c, visitors, now) else visitors, events[1..], evicting)
      case Request(key, now) =>
        var (after, ok) := Admit(c, visitors, key, now);
        [ok] + Answers(c, after, events[1..], evicting)
  }

  /** The clock never runs backwards. */
  ghost predicate Monotone(events: seq<Event>, from: int)
    decreases |events|
  {
    events == [] || (from <= events[0].now && Monotone(events[1..], events[0].now))
  }

  /** The limiter as the middleware holds it. */
  class RateLimiter {
    const config: Config
    var visitors: map<string, Visitor>

    constructor (config: Config)
      ensures this.config == config && visitors == map[]
    {
      this.config := config;
      visitors := map[];
    }

    /** get(key) and Allow() as one step. */
    method Allow(key: string, now: int) returns (ok: bool)
      modifies this
      ensures (visitors, ok) == Admit(config, old(visitors), key, now)
      ensures key in visitors && visitors[key].lastSeen == now && visitors - {key} == old(visitors) - {key}
      ensures !ok && key in old(visitors) ==> visitors[key].bucket == old(visitors)[key].bucket
    {
      if key !in visitors {
        visitors := visitors[key := Visitor(Full(config), now)];
      }
      var bucket := visitors[key].bucket;
      visitors := visitors[key := Visitor(bucket, now)];
      assert visitors == old(visitors)[key := Visitor(bucket, now)];
      var level := LevelAt(config, bucket, now);
      ok := level >= config.cost;
      if ok {
        visitors := visitors[key := Visitor(Bucket(level - config.cost, now), now)];
        assert visitors == old(visitors)[key := Visitor(Bucket(level - config.cost, now), now)];
      }
    }

    /** One pass of the cleanup loop, over the keys in whatever order they come. */
    method CleanUp(now: int)
      modifies this
      ensures visitors == Evict(config, old(visitors), now)
      ensures forall k :: k in visitors <==> k in old(visitors) && now - old(visitors)[k].lastSeen <= config.stale
      ensures forall k :: k in visitors ==> visitors[k] == old(visitors)[k]
    {
      var rest := visitors.Keys;
      while rest != {}
        invariant rest <= old(visitors).Keys
        invariant forall k :: k in visitors <==>
                                k in old(visitors) && (k in rest || now - old(visitors)[k].lastSeen <= config.stale)
        invariant forall k :: k in visitors ==> visitors[k] == old(visitors)[k]
        decreases |rest|
      {
        var key :| key in rest;
        if now - visitors[key].lastSeen > config.stale {
          visitors := visitors - {key};
        }
        rest := rest - {key};
      }
    }
  }

  // ----- Arithmetic -----

  lemma Scaled(rate: nat, a: int, b: int)
    requires a <= b
    ensures rate * a <= rate * b
  {
  }

  lemma Summed(rate: nat, a: int, b: int)
    ensures rate * (a + b) == rate * a + rate * b
  {
  }

  // ----- Forgetting a full bucket is invisible -----

  /**
   * `kept` never evicts, `evicting` does: they agree on every visitor still
   * there, and every forgotten bucket has filled up again by `now`.
   */
  ghost predicate Simulates(c: Config, kept: map<string, Visitor>, evicting: map<string, Visitor>, now: int) {
    && (forall k :: k in evicting ==> k in kept && evicting[k] == kept[k])
    && (forall k :: k in kept ==> kept[k].bucket.last <= kept[k].lastSeen <= now && 0 <= kept[k].bucket.level)
    && (forall k :: k in kept && k !in evicting ==>
                      c.Capacity() <= kept[k].bucket.level + c.rate * (now - kept[k].bucket.last))
  }

  lemma FullStaysFull(c: Config, b: Bucket, now: int, later: int)
    requires b.last <= now <= later && c.Capacity() <= b.level + c.rate * (now - b.last)
    ensures c.Capacity() <= b.level + c.rate * (later - b.last)
    ensures LevelAt(c, b, later) == c.Capacity()
  {
    Scaled(c.rate, now - b.last, later - b.last);
  }

  lemma FullBucketAt(c: Config, now: int)
    ensures LevelAt(c, Full(c), now) == c.Capacity()
  {
    Scaled(c.rate, 0, if now < 0 then 0 else now);
  }

  lemma TimePasses(c: Config, kept: map<string, Visitor>, evicting: map<string, Visitor>, now: int, later: int)
    requires Simulates(c, kept, evicting, now) && now <= later
    ensures Simulates(c, kept, evicting, later)
  {
    forall k | k in kept && k !in evicting
      ensures c.Capacity() <= kept[k].bucket.level + c.rate * (later - kept[k].bucket.last)
    {
      FullStaysFull(c, kept[k].bucket, now, later);
    }
  }

  lemma AdmitSimulates(c: Config, kept: map<string, Visitor>, evicting: map<string, Visitor>, key: string, now: int)
    requires c.Valid() && Simulates(c, kept, evicting, now) && 0 <= now
    ensures Admit(c, kept, key, now).1 == Admit(c, evicting, key, now).1
    ensures Simulates(c, Admit(c, kept, key, now).0, Admit(c, evicting, key, now).0, now)
  {
    if key in evicting {
    } else {
      FullBucketAt(c, now);
      if key in kept {
        FullStaysFull(c, kept[key].bucket, now, now);
      }
      Scaled(c.cost, 1, c.burst);
      assert Take(c, BucketOf(c, kept, key), now) == Take(c, Full(c), now);
    }
  }

  lemma EvictSimulates(c: Config, kept: map<string, Visitor>, evicting: map<string, Visitor>, now: int)
    requires c.RefillsWhileStale() && Simulates(c, kept, evicting, now)
    ensures Simulates(c, kept, Evict(c, evicting, now), now)
  {
    forall k | k in kept && k in evicting && k !in Evict(c, evicting, now)
      ensures c.Capacity() <= kept[k].bucket.level + c.rate * (now - kept[k].bucket.last)
    {
      Scaled(c.rate, c.stale + 1, now - kept[k].bucket.last);
    }
  }

  lemma {:induction false} AnswersSimulate(
    c: Config, kept: map<string, Visitor>, evicting: map<string, Visitor>, events: seq<Event>, now: int)
    requires c.Valid() && c.RefillsWhileStale() && Simulates(c, kept, evicting, now)
    requires 0 <= now && Monotone(events, now)
    ensures Answers(c, kept, events, false) == Answers(c, evicting, events, true)
    decreases |events|
  {
    if events != [] {
      TimePasses(c, kept, evicting, now, events[0].now);
      match events[0]
      case Cleanup(at) =>
        EvictSimulates(c, kept, evicting, at);
        AnswersSimulate(c, kept, Evict(c, evicting, at), events[1..], at);
      case Request(key, at) =>
        AdmitSimulates(c, kept, evicting, key, at);
        AnswersSimulate(c, Admit(c, kept, key, at).0, Admit(c, evicting, key, at).0, events[1..], at);
    }
  }

  // ----- Keys do not disturb each other -----

  /** One bucket's answers to requests at the given instants. */
  function KeyRun(c: Config, b: Bucket, times: seq<int>): (answers: seq<bool>)
    ensures |answers| == |times|
    decreases |times|
  {
    if times == [] then []
    else
      var (after, ok) := Take(c, b, times[0]);
      [ok] + KeyRun(c, after, times[1..])
  }

  function BucketAfter(c: Config, b: Bucket, times: seq<int>): Bucket
    decreases |times|
  {
    if times == [] then b else BucketAfter(c, Take(c, b, times[0]).0, times[1..])
  }

  function TimesOf(events: seq<Event>, key: string): seq<int>
    decreases |events|
  {
    if events == [] then []
    else if events[0].Request? && events[0].key == key then [events[0].now] + TimesOf(events[1..], key)
    else TimesOf(events[1..], key)
  }

  /** Of the answers to a trace, those given to `key`. */
  function AnswersTo(events: seq<Event>, answers: seq<bool>, key: string): (own: seq<bool>)
    requires |answers| == Requests(events)
    ensures |own| == |TimesOf(events, key)|
    decreases |events|
  {
    if events == [] then []
    else if events[0].Cleanup? then AnswersTo(events[1..], answers, key)
    else (if events[0].key == key then [answers[0]] else []) + AnswersTo(events[1..], answers[1..], key)
  }

  lemma {:induction false} KeysAreSeparate(c: Config, visitors: map<string, Visitor>, events: seq<Event>, key: string)
    ensures var answers := Answers(c, visitors, events, false);
            AnswersTo(events, answers, key) == KeyRun(c, BucketOf(c, visitors, key), TimesOf(events, key))
    decreases |events|
  {
    if events != [] {
      match events[0]
      case Cleanup(now) => KeysAreSeparate(c, visitors, events[1..], key);
      case Request(k, now) =>
        var (after, ok) := Admit(c, visitors, k, now);
        KeysAreSeparate(c, after, events[1..], key);
        var answers := Answers(c, visitors, events, false);
        assert answers[1..] == Answers(c, after, events[1..], false);
        if k == key {
          assert TimesOf(events, key) == [now] + TimesOf(events[1..], key);
          assert TimesOf(events, key)[1..] == TimesOf(events[1..], key);
        }
    }
  }

  /** Never evicting is the specification: for any trace, evicting gives the very same answers. */
  lemma EvictionIsInvisible(c: Config, events: seq<Event>)
    requires c.Valid() && c.RefillsWhileStale() && Monotone(events, 0)
    ensures Answers(c, map[], events, true) == Answers(c, map[], events, false)
  {
    AnswersSimulate(c, map[], map[], events, 0);
  }

  lemma SourceLimitersRefillInTime()
    ensures forall c :: c in {PUBLIC, AUTHENTICATED, WEBHOOK} ==> c.Valid() && c.RefillsWhileStale()
  {
    assert PUBLIC.RefillsWhileStale() && AUTHENTICATED.RefillsWhileStale() && WEBHOOK.RefillsWhileStale();
  }

  /** What a key is answered depends on its own requests alone, evictions and other keys included. */
  lemma OtherKeysNeverMatter(c: Config, events: seq<Event>, key: string)
    requires c.Valid() && c.RefillsWhileStale() && Monotone(events, 0)
    ensures var answers := Answers(c, map[], events, true);
            AnswersTo(events, answers, key) == KeyRun(c, Full(c), TimesOf(events, key))
  {
    EvictionIsInvisible(c, events);
    KeysAreSeparate(c, map[], events, key);
  }

  // ----- Bounded throughput -----

  function Allowed(answers: seq<bool>): nat
    decreases |answers|
  {
    if answers == [] then 0 else (if answers[0] then 1 else 0) + Allowed(answers[1..])
  }

  ghost predicate Ascending(times: seq<int>, from: int) {
    && (forall i :: 0 <= i < |times| ==> from <= times[i])
    && (forall i, j :: 0 <= i <= j < |times| ==> times[i] <= times[j])
  }

  lemma {:induction false} TimesAscend(events: seq<Event>, key: string, from: int)
    requires Monotone(events, from)
    ensures Ascending(TimesOf(events, key), from)
    decreases |events|
  {
    if events != [] {
      TimesAscend(events[1..], key, events[0].now);
    }
  }

  lemma {:induction false} KeyRunSplits(c: Config, b: Bucket, first: seq<int>, second: seq<int>)
    ensures KeyRun(c, b, first + second) == KeyRun(c, b, first) + KeyRun(c, BucketAfter(c, b, first), second)
    decreases |first|
  {
    if first == [] {
      assert first + second == second;
    } else {
      assert (first + second)[1..] == first[1..] + second;
      KeyRunSplits(c, Take(c, b, first[0]).0, first[1..], second);
    }
  }

  /** Between `from` and `until` a bucket gives out no more than it held plus what it was refilled. */
  lemma {:induction false} BucketBound(c: Config, b: Bucket, times: seq<int>, from: int, until: int)
    requires Ascending(times, from) && from <= until && forall i :: 0 <= i < |times| ==> times[i] <= until
    requires b.last <= from && 0 <= LevelAt(c, b, from)
    ensures c.cost * Allowed(KeyRun(c, b, times)) <= LevelAt(c, b, from) + c.rate * (until - from)
    decreases |times|
  {
    if times == [] {
      Scaled(c.rate, 0, until - from);
    } else {
      var t := times[0];
      var (after, ok) := Take(c, b, t);
      RefillBetween(c, b, from, t);
      assert LevelAt(c, after, t) == LevelAt(c, b, t) - if ok then c.cost else 0;
      BucketBound(c, after, times[1..], t, until);
      Summed(c.rate, t - from, until - t);
      var rest := KeyRun(c, after, times[1..]);
      AllowedCons(ok, rest);
      Summed(c.cost, Allowed(rest), 1);
    }
  }

  lemma RefillBetween(c: Config, b: Bucket, from: int, t: int)
    requires b.last <= from <= t
    ensures LevelAt(c, b, from) <= LevelAt(c, b, t) <= LevelAt(c, b, from) + c.rate * (t - from)
  {
    Scaled(c.rate, from - b.last, t - b.last);
    Summed(c.rate, from - b.last, t - from);
    Scaled(c.rate, 0, t - from);
  }

  lemma {:induction false} BucketStaysSane(c: Config, b: Bucket, times: seq<int>, from: int)
    requires Ascending(times, from) && b.last <= from && 0 <= b.level
    ensures var after := BucketAfter(c, b, times);
            0 <= after.level && after.last <= if times == [] then from else times[|times| - 1]
    decreases |times|
  {
    if times != [] {
      var after := Take(c, b, times[0]).0;
      BucketStaysSane(c, after, times[1..], times[0]);
    }
  }

  lemma SliceOfRun(c: Config, b: Bucket, times: seq<int>, i: nat, j: nat)
    requires i <= j <= |times|
    ensures KeyRun(c, b, times)[i..j] == KeyRun(c, BucketAfter(c, b, times[..i]), times[i..j])
  {
    var before, window, later := times[..i], times[i..j], times[j..];
    assert times == before + (window + later);
    KeyRunSplits(c, b, before, window + later);
    KeyRunSplits(c, BucketAfter(c, b, before), window, later);
  }

  lemma KeyWindow(c: Config, times: seq<int>, i: nat, j: nat)
    requires Ascending(times, 0) && i < j <= |times|
    ensures c.cost * Allowed(KeyRun(c, Full(c), times)[i..j]) <= c.burst * c.cost + c.rate * (times[j - 1] - times[i])
  {
    SliceOfRun(c, Full(c), times, i, j);
    var b := BucketAfter(c, Full(c), times[..i]);
    Scaled(c.cost, 0, c.burst);
    BucketStaysSane(c, Full(c), times[..i], 0);
    WindowOfBucket(c, b, times[i..j]);
  }

  lemma WindowOfBucket(c: Config, b: Bucket, window: seq<int>)
    requires window != [] && Ascending(window, window[0]) && 0 <= b.level && b.last <= window[0]
    ensures c.cost * Allowed(KeyRun(c, b, window)) <= c.Capacity() + c.rate * (window[|window| - 1] - window[0])
  {
    Scaled(c.rate, 0, window[0] - b.last);
    Scaled(c.cost, 0, c.burst);
    BucketBound(c, b, window, window[0], window[|window| - 1]);
  }

  /**
   * In any window of a key's requests spanning at most `T`, the limiter allows at
   * most burst + rate * T, whatever was evicted and re-created on the way.
   */
  lemma WindowBound(c: Config, events: seq<Event>, key: string, i: nat, j: nat, T: nat)
    requires c.Valid() && c.RefillsWhileStale() && Monotone(events, 0)
    requires i < j <= |TimesOf(events, key)| && TimesOf(events, key)[j - 1] - TimesOf(events, key)[i] <= T
    ensures var answers := Answers(c, map[], events, true);
            c.cost * Allowed(AnswersTo(events, answers, key)[i..j]) <= c.burst * c.cost + c.rate * T
  {
    var times := TimesOf(events, key);
    OtherKeysNeverMatter(c, events, key);
    TimesAscend(events, key, 0);
    KeyWindow(c, times, i, j);
    Scaled(c.rate, times[j - 1] - times[i], T);
  }

  // ----- The refill condition is exact -----

  ghost predicate EvictionInvisible(c: Config) {
    forall events | Monotone(events, 0) :: Answers(c, map[], events, true) == Answers(c, map[], events, false)
  }

  function Instants(n: nat, now: int): seq<int> { seq(n, _ => now) }

  lemma TakeOneOf(c: Config, b: Bucket, n: nat, now: int)
    requires c.Valid() && b.last <= now && n >= 1 && n * c.cost <= LevelAt(c, b, now)
    ensures var after := Bucket(LevelAt(c, b, now) - c.cost, now);
            && Take(c, b, now) == (after, true)
            && LevelAt(c, after, now) == LevelAt(c, b, now) - c.cost
            && (n - 1) * c.cost <= LevelAt(c, after, now)
  {
    Summed(c.cost, n - 1, 1);
    Scaled(c.cost, 0, n - 1);
  }

  /** `n` simultaneous requests that a bucket can serve are all allowed, and cost it that much. */
  lemma {:induction false} ServedAtOnce(c: Config, b: Bucket, n: nat, now: int)
    requires c.Valid() && b.last <= now && n * c.cost <= LevelAt(c, b, now)
    ensures Allowed(KeyRun(c, b, Instants(n, now))) == n
    ensures n >= 1 ==> BucketAfter(c, b, Instants(n, now)) == Bucket(LevelAt(c, b, now) - n * c.cost, now)
    decreases n
  {
    if n >= 1 {
      var times, after := Instants(n, now), Take(c, b, now).0;
      assert times[1..] == Instants(n - 1, now);
      TakeOneOf(c, b, n, now);
      ServedAtOnce(c, after, n - 1, now);
      Summed(c.cost, n - 1, 1);
      AllowedCons(true, KeyRun(c, after, times[1..]));
      assert n == 1 ==> BucketAfter(c, after, Instants(0, now)) == after;
    }
  }

  lemma AllowedCons(ok: bool, rest: seq<bool>)
    ensures Allowed([ok] + rest) == (if ok then 1 else 0) + Allowed(rest)
  {
    assert ([ok] + rest)[1..] == rest;
  }

  function VisitorsAfter(
    c: Config, visitors: map<string, Visitor>, events: seq<Event>, evicting: bool): map<string, Visitor>
    decreases |events|
  {
    if events == [] then visitors
    else
      match events[0]
      case Cleanup(now) =>
        VisitorsAfter(c, if evicting then Evict(c, visitors, now) else visitors, events[1..], evicting)
      case Request(key, now) => VisitorsAfter(c, Admit(c, visitors, key, now).0, events[1..], evicting)
  }

  lemma {:induction false} AnswersSplit(
    c: Config, visitors: map<string, Visitor>, first: seq<Event>, second: seq<Event>, evicting: bool)
    ensures Answers(c, visitors, first + second, evicting)
         == Answers(c, visitors, first, evicting)
          + Answers(c, VisitorsAfter(c, visitors, first, evicting), second, evicting)
    decreases |first|
  {
    if first == [] {
      assert first + second == second;
    } else {
      assert (first + second)[1..] == first[1..] + second;
      match first[0]
      case Cleanup(now) =>
        AnswersSplit(c, if evicting then Evict(c, visitors, now) else visitors, first[1..], second, evicting);
      case Request(key, now) => AnswersSplit(c, Admit(c, visitors, key, now).0, first[1..], second, evicting);
    }
  }

  function Repeat(n: nat, now: int): seq<Event> { seq(n, _ => Request("", now)) }

  lemma {:induction false} RepeatedRequests(c: Config, visitors: map<string, Visitor>, n: nat, now: int, evicting: bool)
    ensures var b := BucketOf(c, visitors, "");
            && Answers(c, visitors, Repeat(n, now), evicting) == KeyRun(c, b, Instants(n, now))
            && (n >= 1 ==>
                  VisitorsAfter(c, visitors, Repeat(n, now), evicting)
                  == visitors["" := Visitor(BucketAfter(c, b, Instants(n, now)), now)])
    decreases n
  {
    if n >= 1 {
      assert Repeat(n, now)[1..] == Repeat(n - 1, now);
      assert Instants(n, now)[1..] == Instants(n - 1, now);
      RepeatedRequests(c, Admit(c, visitors, "", now).0, n - 1, now, evicting);
    }
  }

  lemma {:induction false} RepeatIsMonotone(n: nat, now: int, rest: seq<Event>, from: int)
    requires from <= now && Monotone(rest, now)
    ensures Monotone(Repeat(n, now) + rest, from)
    decreases n
  {
    if n == 0 {
      assert Repeat(0, now) + rest == rest;
    } else {
      assert (Repeat(n, now) + rest)[1..] == Repeat(n - 1, now) + rest;
      RepeatIsMonotone(n - 1, now, rest, now);
    }
  }

  /** Drain a bucket, let it be evicted at the first possible instant, drain it again. */
  function Witness(c: Config): seq<Event> {
    Repeat(c.burst, 0) + ([Cleanup(c.stale + 1)] + Repeat(c.burst, c.stale + 1))
  }

  lemma WitnessAnswers(c: Config, evicting: bool)
    requires c.Valid()
    ensures Answers(c, map[], Witness(c), evicting)
         == KeyRun(c, Full(c), Instants(c.burst, 0))
          + KeyRun(c, if evicting then Full(c) else Bucket(0, 0), Instants(c.burst, c.stale + 1))
  {
    var second := [Cleanup(c.stale + 1)] + Repeat(c.burst, c.stale + 1);
    AnswersSplit(c, map[], Repeat(c.burst, 0), second, evicting);
    RepeatedRequests(c, map[], c.burst, 0, evicting);
    FullBucketAt(c, 0);
    ServedAtOnce(c, Full(c), c.burst, 0);
    var visitors := map["" := Visitor(Bucket(0, 0), 0)];
    assert VisitorsAfter(c, map[], Repeat(c.burst, 0), evicting) == visitors;
    assert second[1..] == Repeat(c.burst, c.stale + 1);
    var after := if evicting then Evict(c, visitors, c.stale + 1) else visitors;
    assert evicting ==> after == map[];
    RepeatedRequests(c, after, c.burst, c.stale + 1, evicting);
  }

  lemma WitnessIsMonotone(c: Config)
    ensures Monotone(Witness(c), 0)
  {
    var again := c.stale + 1;
    RepeatIsMonotone(c.burst, again, [], again);
    assert Repeat(c.burst, again) + [] == Repeat(c.burst, again);
    assert ([Cleanup(again)] + Repeat(c.burst, again))[1..] == Repeat(c.burst, again);
    RepeatIsMonotone(c.burst, 0, [Cleanup(again)] + Repeat(c.burst, again), 0);
  }

  /** A drained bucket that is not yet full again cannot serve a whole burst; a new one can. */
  lemma SlowRefillShows(c: Config)
    requires c.Valid() && !c.RefillsWhileStale()
    ensures KeyRun(c, Full(c), Instants(c.burst, c.stale + 1))
            != KeyRun(c, Bucket(0, 0), Instants(c.burst, c.stale + 1))
  {
    var times := Instants(c.burst, c.stale + 1);
    FullBucketAt(c, c.stale + 1);
    ServedAtOnce(c, Full(c), c.burst, c.stale + 1);
    Scaled(c.rate, 0, c.stale + 1);
    BucketBound(c, Bucket(0, 0), times, c.stale + 1, c.stale + 1);
    assert c.cost * Allowed(KeyRun(c, Bucket(0, 0), times)) < c.cost * c.burst;
  }

  /** Eviction is invisible on every trace exactly when an idle bucket refills before it can be evicted. */
  lemma InvisibleExactly(c: Config)
    requires c.Valid()
    ensures EvictionInvisible(c) <==> c.RefillsWhileStale()
  {
    if c.RefillsWhileStale() {
      forall events | Monotone(events, 0) ensures Answers(c, map[], events, true) == Answers(c, map[], events, false) {
        EvictionIsInvisible(c, events);
      }
    } else {
      WitnessAnswers(c, true);
      WitnessAnswers(c, false);
      SlowRefillShows(c);
      WitnessIsMonotone(c);
      var head := KeyRun(c, Full(c), Instants(c.burst, 0));
      var evicted := KeyRun(c, Full(c), Instants(c.burst, c.stale + 1));
      var kept := KeyRun(c, Bucket(0, 0), Instants(c.burst, c.stale + 1));
      assert (head + evicted)[|head|..] == evicted && (head + kept)[|head|..] == kept;
    }
  }
}
