/**
 * Exactly which requests a limiter allows: it denies none it need not, a denied
 * request leaves no trace, and what that means for the three limiters in figures.
 */
module RateAdmission {
  import opened Prelude
  import opened RateLimit

  // ----- Exactly which requests are allowed -----

  lemma {:induction false} AllowedSnoc(answers: seq<bool>, ok: bool)
    ensures Allowed(answers + [ok]) == Allowed(answers) + (if ok then 1 else 0)
    decreases |answers|
  {
    if answers == [] {
      assert [] + [ok] == [ok] && [ok][1..] == [];
    } else {
      assert (answers + [ok])[1..] == answers[1..] + [ok];
      AllowedSnoc(answers[1..], ok);
    }
  }

  /** One more answer at the end of a window. */
  lemma AllowedUpTo(answers: seq<bool>, i: nat, j: nat)
    requires i <= j < |answers|
    ensures Allowed(answers[i..j + 1]) == Allowed(answers[i..j]) + (if answers[j] then 1 else 0)
  {
    assert answers[i..j + 1] == answers[i..j] + [answers[j]];
    AllowedSnoc(answers[i..j], answers[j]);
  }

  /** The level a request leaves, at any later instant. */
  lemma LevelAfterTake(c: Config, b: Bucket, t: int, u: int)
    requires c.Valid() && b.last <= t <= u
    ensures var (after, ok) := Take(c, b, t);
            LevelAt(c, after, u)
            == Min(c.Capacity(), LevelAt(c, b, t) - (if ok then c.cost else 0) + c.rate * (u - t))
  {
    Scaled(c.cost, 1, c.burst);
    Summed(c.rate, t - b.last, u - t);
    Scaled(c.rate, 0, u - t);
  }

  /** What a window that began at request `i` has left for request `j`. */
  function Room(c: Config, times: seq<int>, answers: seq<bool>, i: nat, j: nat): int
    requires i <= j < |times| && |answers| == |times|
  {
    c.burst * c.cost + c.rate * (times[j] - times[i]) - c.cost * Allowed(answers[i..j])
  }

  lemma RoomGrows(c: Config, times: seq<int>, answers: seq<bool>, i: nat, j: nat)
    requires i <= j && j + 1 < |times| && |answers| == |times|
    ensures Room(c, times, answers, i, j + 1)
         == Room(c, times, answers, i, j) - (if answers[j] then c.cost else 0) + c.rate * (times[j + 1] - times[j])
  {
    AllowedUpTo(answers, i, j);
    Summed(c.rate, times[j] - times[i], times[j + 1] - times[j]);
    Summed(c.cost, Allowed(answers[i..j]), if answers[j] then 1 else 0);
  }

  ghost predicate LeastRoom(c: Config, times: seq<int>, answers: seq<bool>, j: nat, level: int)
    requires j < |times| && |answers| == |times|
  {
    && (forall i | 0 <= i <= j :: level <= Room(c, times, answers, i, j))
    && (exists i | 0 <= i <= j :: level == Room(c, times, answers, i, j))
  }

  lemma AnswerAt(c: Config, b: Bucket, times: seq<int>, j: nat)
    requires j < |times|
    ensures KeyRun(c, b, times)[j] == Take(c, BucketAfter(c, b, times[..j]), times[j]).1
  {
    SliceOfRun(c, b, times, j, j + 1);
    assert times[j..j + 1] == [times[j]];
    assert KeyRun(c, b, times)[j] == KeyRun(c, b, times)[j..j + 1][0];
  }

  lemma {:induction false} BucketAfterSnoc(c: Config, b: Bucket, times: seq<int>, t: int)
    ensures BucketAfter(c, b, times + [t]) == Take(c, BucketAfter(c, b, times), t).0
    decreases |times|
  {
    if times == [] {
      assert [] + [t] == [t] && [t][1..] == [];
    } else {
      assert (times + [t])[1..] == times[1..] + [t];
      BucketAfterSnoc(c, Take(c, b, times[0]).0, times[1..], t);
    }
  }

  /** A bucket that started full holds, when request `j` comes, the least room any window up to then has left. */
  lemma {:induction false} LevelIsLeastRoom(c: Config, times: seq<int>, j: nat)
    requires c.Valid() && Ascending(times, 0) && j < |times|
    ensures var b := BucketAfter(c, Full(c), times[..j]);
            b.last <= times[j] && LeastRoom(c, times, KeyRun(c, Full(c), times), j, LevelAt(c, b, times[j]))
    decreases j
  {
    var answers := KeyRun(c, Full(c), times);
    if j == 0 {
      FullBucketAt(c, times[0]);
      assert Room(c, times, answers, 0, 0) == c.Capacity() by { assert answers[0..0] == []; }
    } else {
      var i := j - 1;
      var b := BucketAfter(c, Full(c), times[..i]);
      LevelIsLeastRoom(c, times, i);
      AnswerAt(c, Full(c), times, i);
      assert times[..j] == times[..i] + [times[i]];
      BucketAfterSnoc(c, Full(c), times[..i], times[i]);
      LevelAfterTake(c, b, times[i], times[j]);
      LeastRoomGrows(c, times, answers, i, LevelAt(c, b, times[i]));
    }
  }

  lemma LeastRoomGrows(c: Config, times: seq<int>, answers: seq<bool>, j: nat, level: int)
    requires j + 1 < |times| && |answers| == |times| && LeastRoom(c, times, answers, j, level)
    ensures var more := level - (if answers[j] then c.cost else 0) + c.rate * (times[j + 1] - times[j]);
            LeastRoom(c, times, answers, j + 1, Min(c.Capacity(), more))
  {
    var more := level - (if answers[j] then c.cost else 0) + c.rate * (times[j + 1] - times[j]);
    assert Room(c, times, answers, j + 1, j + 1) == c.Capacity() by { assert answers[j + 1..j + 1] == []; }
    forall i | 0 <= i <= j
      ensures Room(c, times, answers, i, j + 1) == Room(c, times, answers, i, j) + more - level
    {
      RoomGrows(c, times, answers, i, j);
    }
    var least :| 0 <= least <= j && level == Room(c, times, answers, least, j);
    assert Room(c, times, answers, least, j + 1) == more;
    var next, m := Min(c.Capacity(), more), j + 1;
    forall i | 0 <= i <= m ensures next <= Room(c, times, answers, i, m) {
      if i <= j { assert level <= Room(c, times, answers, i, j); }
    }
    assert next == Room(c, times, answers, if more < c.Capacity() then least else j + 1, j + 1);
  }

  /** One more request at `j` keeps the window that began at request `i` within burst + rate * T. */
  ghost predicate Fits(c: Config, times: seq<int>, answers: seq<bool>, i: nat, j: nat)
    requires i <= j < |times| && |answers| == |times|
  {
    c.cost * (Allowed(answers[i..j]) + 1) <= c.burst * c.cost + c.rate * (times[j] - times[i])
  }

  lemma FitsIfRoom(c: Config, times: seq<int>, answers: seq<bool>, i: nat, j: nat)
    requires i <= j < |times| && |answers| == |times|
    ensures Fits(c, times, answers, i, j) <==> c.cost <= Room(c, times, answers, i, j)
  {
    Summed(c.cost, Allowed(answers[i..j]), 1);
  }

  /** For one key: allowed exactly if no window of its requests would exceed burst + rate * T by it. */
  lemma KeyAllowsExactly(c: Config, times: seq<int>, j: nat)
    requires c.Valid() && Ascending(times, 0) && j < |times|
    ensures var answers := KeyRun(c, Full(c), times);
            answers[j] <==> forall i | 0 <= i <= j :: Fits(c, times, answers, i, j)
  {
    var answers := KeyRun(c, Full(c), times);
    LevelIsLeastRoom(c, times, j);
    AnswerAt(c, Full(c), times, j);
    LevelDecides(c, times, answers, j, LevelAt(c, BucketAfter(c, Full(c), times[..j]), times[j]));
  }

  lemma LevelDecides(c: Config, times: seq<int>, answers: seq<bool>, j: nat, level: int)
    requires j < |times| && |answers| == |times| && LeastRoom(c, times, answers, j, level)
    ensures c.cost <= level <==> forall i | 0 <= i <= j :: Fits(c, times, answers, i, j)
  {
    forall i | 0 <= i <= j ensures Fits(c, times, answers, i, j) <==> c.cost <= Room(c, times, answers, i, j) {
      FitsIfRoom(c, times, answers, i, j);
    }
    var least :| 0 <= least <= j && level == Room(c, times, answers, least, j);
    assert Fits(c, times, answers, least, j) <==> c.cost <= level;
  }

  /**
   * The limiter denies no request it need not: of the requests of a key in any
   * trace, evictions and other keys included, one is allowed exactly if every
   * window that ends with it stays within burst + rate * T.
   */
  lemma RequestAllowedExactly(c: Config, events: seq<Event>, key: string, j: nat)
    requires c.Valid() && c.RefillsWhileStale() && Monotone(events, 0) && j < |TimesOf(events, key)|
    ensures var times, answers := TimesOf(events, key), AnswersTo(events, Answers(c, map[], events, true), key);
            answers[j] <==> forall i | 0 <= i <= j :: Fits(c, times, answers, i, j)
  {
    OtherKeysNeverMatter(c, events, key);
    TimesAscend(events, key, 0);
    KeyAllowsExactly(c, TimesOf(events, key), j);
  }

  lemma {:induction false} LastAllowed(answers: seq<bool>, i: nat, j: nat) returns (l: nat)
    requires i <= j <= |answers| && Allowed(answers[i..j]) > 0
    ensures i <= l < j && answers[l] && Allowed(answers[i..j]) == Allowed(answers[i..l]) + 1
    decreases j
  {
    assert i < j;
    AllowedUpTo(answers, i, j - 1);
    l := j - 1;
    if !answers[j - 1] { l := LastAllowed(answers, i, j - 1); }
  }

  /** Every window before an allowed request fits one more after the wait. */
  lemma FitsAfterWait(c: Config, times: seq<int>, answers: seq<bool>, i: nat, l: nat, j: nat, wait: nat)
    requires i <= l < j < |times| && |answers| == |times| && Fits(c, times, answers, i, l)
    requires Allowed(answers[i..j]) == Allowed(answers[i..l]) + 1
    requires c.cost <= c.rate * wait && wait <= times[j] - times[l]
    ensures Fits(c, times, answers, i, j)
  {
    Summed(c.rate, times[l] - times[i], times[j] - times[l]);
    Scaled(c.rate, wait, times[j] - times[l]);
    Summed(c.cost, Allowed(answers[i..j]), 1);
  }

  lemma FitsWhenIdle(c: Config, times: seq<int>, answers: seq<bool>, i: nat, j: nat)
    requires c.Valid() && i <= j < |times| && |answers| == |times| && times[i] <= times[j]
    requires Allowed(answers[i..j]) == 0
    ensures Fits(c, times, answers, i, j)
  {
    Scaled(c.rate, 0, times[j] - times[i]);
    Scaled(c.cost, 1, c.burst);
  }

  lemma KeyWaitIsRewarded(c: Config, times: seq<int>, j: nat, wait: nat)
    requires c.Valid() && Ascending(times, 0) && j < |times| && c.cost <= c.rate * wait
    requires forall i :: 0 <= i < j && KeyRun(c, Full(c), times)[i] ==> wait <= times[j] - times[i]
    ensures KeyRun(c, Full(c), times)[j]
  {
    var answers := KeyRun(c, Full(c), times);
    forall i | 0 <= i <= j ensures Fits(c, times, answers, i, j) {
      if Allowed(answers[i..j]) > 0 {
        var l := LastAllowed(answers, i, j);
        KeyAllowsExactly(c, times, l);
        assert Fits(c, times, answers, i, l);
        FitsAfterWait(c, times, answers, i, l, j, wait);
      } else {
        FitsWhenIdle(c, times, answers, i, j);
      }
    }
    KeyAllowsExactly(c, times, j);
  }

  /** Whoever waits for one token since their last allowed request is allowed, whatever was denied meanwhile. */
  lemma WaitIsRewarded(c: Config, events: seq<Event>, key: string, j: nat, wait: nat)
    requires c.Valid() && c.RefillsWhileStale() && Monotone(events, 0) && j < |TimesOf(events, key)|
    requires c.cost <= c.rate * wait
    requires forall i :: 0 <= i < j && AnswersTo(events, Answers(c, map[], events, true), key)[i] ==>
                           wait <= TimesOf(events, key)[j] - TimesOf(events, key)[i]
    ensures AnswersTo(events, Answers(c, map[], events, true), key)[j]
  {
    OtherKeysNeverMatter(c, events, key);
    TimesAscend(events, key, 0);
    KeyWaitIsRewarded(c, TimesOf(events, key), j, wait);
  }

  // ----- A denied request leaves no trace -----

  lemma {:induction false} SameBucketsAnswer(
    c: Config, one: map<string, Visitor>, other: map<string, Visitor>, events: seq<Event>)
    requires forall k :: BucketOf(c, one, k) == BucketOf(c, other, k)
    ensures Answers(c, one, events, false) == Answers(c, other, events, false)
    decreases |events|
  {
    if events != [] {
      match events[0]
      case Cleanup(now) => SameBucketsAnswer(c, one, other, events[1..]);
      case Request(key, now) =>
        var a, b := Admit(c, one, key, now).0, Admit(c, other, key, now).0;
        forall k ensures BucketOf(c, a, k) == BucketOf(c, b, k) {
          assert k != key ==> BucketOf(c, a, k) == BucketOf(c, one, k) && BucketOf(c, b, k) == BucketOf(c, other, k);
        }
        SameBucketsAnswer(c, a, b, events[1..]);
    }
  }

  lemma {:induction false} MonotoneWithout(before: seq<Event>, e: Event, after: seq<Event>, from: int)
    requires Monotone(before + [e] + after, from)
    ensures Monotone(before + after, from)
    decreases |before|
  {
    if before == [] {
      assert before + [e] + after == [e] + after && before + after == after && ([e] + after)[1..] == after;
    } else {
      assert (before + [e] + after)[1..] == before[1..] + [e] + after;
      assert (before + after)[1..] == before[1..] + after;
      MonotoneWithout(before[1..], e, after, before[0].now);
    }
  }

  lemma DenialAnswers(c: Config, visitors: map<string, Visitor>, key: string, now: int, after: seq<Event>)
    requires !Admit(c, visitors, key, now).1
    ensures Answers(c, visitors, [Request(key, now)] + after, false) == [false] + Answers(c, visitors, after, false)
  {
    var denied := Admit(c, visitors, key, now).0;
    assert ([Request(key, now)] + after)[1..] == after;
    forall k ensures BucketOf(c, denied, k) == BucketOf(c, visitors, k) {
    }
    SameBucketsAnswer(c, denied, visitors, after);
  }

  /** The request is denied if it comes after those. */
  ghost predicate DeniedAfter(c: Config, before: seq<Event>, key: string, now: int) {
    exists head :: Answers(c, map[], before + [Request(key, now)], true) == head + [false]
  }

  lemma DeniedIsDenied(c: Config, before: seq<Event>, key: string, now: int)
    requires c.Valid() && c.RefillsWhileStale() && Monotone(before + [Request(key, now)], 0)
    requires DeniedAfter(c, before, key, now)
    ensures !Admit(c, VisitorsAfter(c, map[], before, false), key, now).1
  {
    var e, visitors := Request(key, now), VisitorsAfter(c, map[], before, false);
    EvictionIsInvisible(c, before + [e]);
    AnswersSplit(c, map[], before, [e], false);
    var head, answers := Answers(c, map[], before, false), Answers(c, visitors, [e], false);
    assert answers == [Admit(c, visitors, key, now).1] by { assert [e][1..] == []; }
    var most :| Answers(c, map[], before + [e], true) == most + [false];
    assert (head + answers)[|head|] == (most + [false])[|most|];
  }

  lemma AnswersWithDenied(c: Config, before: seq<Event>, key: string, now: int, after: seq<Event>)
    requires !Admit(c, VisitorsAfter(c, map[], before, false), key, now).1
    ensures Answers(c, map[], before + [Request(key, now)] + after, false)
         == Answers(c, map[], before, false) + [false]
          + Answers(c, VisitorsAfter(c, map[], before, false), after, false)
  {
    var e, visitors := Request(key, now), VisitorsAfter(c, map[], before, false);
    var head, tail := Answers(c, map[], before, false), Answers(c, visitors, after, false);
    assert before + [e] + after == before + ([e] + after);
    AnswersSplit(c, map[], before, [e] + after, false);
    DenialAnswers(c, visitors, key, now, after);
    assert head + ([false] + tail) == head + [false] + tail;
  }

  /** Deleting a denied request from any trace changes no other answer, for any key. */
  lemma DenialLeavesNoTrace(c: Config, before: seq<Event>, key: string, now: int, after: seq<Event>)
    returns (head: seq<bool>, tail: seq<bool>)
    requires c.Valid() && c.RefillsWhileStale() && Monotone(before + [Request(key, now)] + after, 0)
    requires DeniedAfter(c, before, key, now)
    ensures |head| == Requests(before)
    ensures Answers(c, map[], before + after, true) == head + tail
    ensures Answers(c, map[], before + [Request(key, now)] + after, true) == head + [false] + tail
  {
    var e, visitors := Request(key, now), VisitorsAfter(c, map[], before, false);
    head, tail := Answers(c, map[], before, false), Answers(c, visitors, after, false);
    MonotoneWithout(before, e, after, 0);
    EvictionIsInvisible(c, before + after);
    AnswersSplit(c, map[], before, after, false);
    MonotonePrefix(before + [e], after, 0);
    DeniedIsDenied(c, before, key, now);
    EvictionIsInvisible(c, before + [e] + after);
    AnswersWithDenied(c, before, key, now, after);
  }

  lemma {:induction false} MonotonePrefix(first: seq<Event>, second: seq<Event>, from: int)
    requires Monotone(first + second, from)
    ensures Monotone(first, from)
    decreases |first|
  {
    if first != [] {
      assert (first + second)[1..] == first[1..] + second;
      MonotonePrefix(first[1..], second, first[0].now);
    }
  }

  // ----- The three limiters in figures -----

  /** A cleanup forgets the visitors unseen for more than three minutes, and no other. */
  lemma SourceEviction(c: Config, visitors: map<string, Visitor>, now: int, key: string)
    requires c in {PUBLIC, AUTHENTICATED, WEBHOOK}
    ensures key in Evict(c, visitors, now) <==> key in visitors && now - visitors[key].lastSeen <= 180_000_000_000
    ensures key in Evict(c, visitors, now) ==> Evict(c, visitors, now)[key] == visitors[key]
  {
  }

  /** In any minute of a key: at most 20 requests at the public, 120 at the authenticated, 240 at the webhook routes. */
  lemma MinuteBounds(events: seq<Event>, key: string, i: nat, j: nat)
    requires Monotone(events, 0) && i < j <= |TimesOf(events, key)|
    requires TimesOf(events, key)[j - 1] - TimesOf(events, key)[i] <= 60_000_000_000
    ensures Allowed(AnswersTo(events, Answers(PUBLIC, map[], events, true), key)[i..j]) <= 20
    ensures Allowed(AnswersTo(events, Answers(AUTHENTICATED, map[], events, true), key)[i..j]) <= 120
    ensures Allowed(AnswersTo(events, Answers(WEBHOOK, map[], events, true), key)[i..j]) <= 240
  {
    SourceLimitersRefillInTime();
    WindowBound(PUBLIC, events, key, i, j, 60_000_000_000);
    WindowBound(AUTHENTICATED, events, key, i, j, 60_000_000_000);
    WindowBound(WEBHOOK, events, key, i, j, 60_000_000_000);
  }

  /** The first requests of a key: ten at once at the public, 60 at the authenticated, 120 at the webhook routes. */
  lemma FirstRequestsAreAllowed(c: Config, events: seq<Event>, key: string, j: nat)
    requires c in {PUBLIC, AUTHENTICATED, WEBHOOK} && Monotone(events, 0) && j < |TimesOf(events, key)|
    requires j < if c == PUBLIC then 10 else if c == AUTHENTICATED then 60 else 120
    ensures AnswersTo(events, Answers(c, map[], events, true), key)[j]
  {
    SourceLimitersRefillInTime();
    RequestAllowedExactly(c, events, key, j);
    var times, answers := TimesOf(events, key), AnswersTo(events, Answers(c, map[], events, true), key);
    TimesAscend(events, key, 0);
    forall i | 0 <= i <= j ensures Fits(c, times, answers, i, j) {
      FitsBurst(c, times, answers, i, j);
    }
  }

  lemma FitsBurst(c: Config, times: seq<int>, answers: seq<bool>, i: nat, j: nat)
    requires i <= j < |times| && |answers| == |times| && times[i] <= times[j] && j < c.burst
    ensures Fits(c, times, answers, i, j)
  {
    AllowedAtMost(answers[i..j]);
    Scaled(c.cost, Allowed(answers[i..j]) + 1, c.burst);
    Scaled(c.rate, 0, times[j] - times[i]);
  }

  lemma {:induction false} AllowedAtMost(answers: seq<bool>)
    ensures Allowed(answers) <= |answers|
    decreases |answers|
  {
    if answers != [] { AllowedAtMost(answers[1..]); }
  }

  /** Six seconds, one, or half a second after the last allowed request of a key, the next one is allowed. */
  lemma SourceWaitIsRewarded(c: Config, events: seq<Event>, key: string, j: nat)
    requires c in {PUBLIC, AUTHENTICATED, WEBHOOK} && Monotone(events, 0) && j < |TimesOf(events, key)|
    requires var wait :=
               if c == PUBLIC then 6_000_000_000 else if c == AUTHENTICATED then 1_000_000_000 else 500_000_000;
             forall i :: 0 <= i < j && AnswersTo(events, Answers(c, map[], events, true), key)[i] ==>
                           wait <= TimesOf(events, key)[j] - TimesOf(events, key)[i]
    ensures AnswersTo(events, Answers(c, map[], events, true), key)[j]
  {
    SourceLimitersRefillInTime();
    var wait := if c == PUBLIC then 6_000_000_000 else if c == AUTHENTICATED then 1_000_000_000 else 500_000_000;
    WaitIsRewarded(c, events, key, j, wait);
  }
}
