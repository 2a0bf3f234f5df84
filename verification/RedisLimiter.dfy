/** The Redis limiter: one sorted set per key, whose members are their own scores. */
module RedisLimiter {
  import opened AdmissionSpec
  import opened Limiter
  import opened LimiterRuns

  /** A sorted set and the time at which its key expires. Redis has no empty sorted sets. */
  datatype ZSet = ZSet(scores: set<int>, deadline: int)

  type ZSets = map<string, ZSet>

  /** What the key holds at `now`: nothing once it has expired. */
  function Scores(zsets: ZSets, key: string, now: int): set<int> {
    if key in zsets && now < zsets[key].deadline then zsets[key].scores else {}
  }

  function Later(scores: set<int>, cutoff: int): set<int> {
    set x | x in scores && x > cutoff
  }

  function Put(zsets: ZSets, key: string, scores: set<int>, deadline: int): ZSets {
    if scores == {} then zsets - {key} else zsets[key := ZSet(scores, deadline)]
  }

  function RedisAllow(zsets: ZSets, key: string, limit: int, window: int, now: int): (ZSets, bool) {
    var added := Later(Scores(zsets, key, now), now - window) + {now};
    if |added| > limit then (Put(zsets, key, added - {now}, now + 2 * window), false)
    else (Put(zsets, key, added, now + 2 * window), true)
  }

  class RedisClient {
    var zsets: ZSets

    constructor ()
      ensures zsets == map[]
    {
      zsets := map[];
    }

    /** Four pipelined commands, then the undo of the second when the count is too high. */
    method Allow(key: string, limit: int, window: int, now: int) returns (allowed: bool)
      modifies this
      ensures (zsets, allowed) == RedisAllow(old(zsets), key, limit, window, now)
    {
      var scores := Later(Scores(zsets, key, now), now - window);
      scores := scores + {now};
      var count := |scores|;
      zsets := zsets[key := ZSet(scores, now + 2 * window)];
      if count > limit {
        PutTwice(old(zsets), key, scores, scores - {now}, now + 2 * window);
        zsets := Put(zsets, key, scores - {now}, now + 2 * window);
        return false;
      }
      return true;
    }
  }

  lemma PutTwice(zsets: ZSets, key: string, first: set<int>, second: set<int>, deadline: int)
    ensures Put(zsets[key := ZSet(first, deadline)], key, second, deadline) == Put(zsets, key, second, deadline)
  {
    assert zsets[key := ZSet(first, deadline)] - {key} == zsets - {key};
  }

  datatype RedisOutcome = RedisOutcome(zsets: ZSets, decisions: seq<bool>)

  /** The latest request of a key, or the start of the run if there was none. */
  function LastOf(events: seq<Event>, key: string, start: int): int {
    if events == [] then start
    else
      var last := events[|events| - 1];
      if last.Request? && last.key == key then last.now else LastOf(events[..|events| - 1], key, start)
  }

  /** A run of requests whose times do not go back behind `start` or one another. */
  ghost predicate InOrder(events: seq<Event>, start: int) {
    events == [] ||
    (var before, last := events[..|events| - 1], events[|events| - 1];
     InOrder(before, start) && last.Request? && LastTime(before, start) <= last.now)
  }

  function RunRedis(events: seq<Event>, limit: int, window: int): (r: RedisOutcome)
    ensures |r.decisions| == |events|
  {
    if events == [] then RedisOutcome(map[], [])
    else
      var before := RunRedis(events[..|events| - 1], limit, window);
      match events[|events| - 1]
      case Request(key, now) =>
        var (zsets, allowed) := RedisAllow(before.zsets, key, limit, window, now);
        RedisOutcome(zsets, before.decisions + [allowed])
      case Clean(_) => RedisOutcome(before.zsets, before.decisions + [false])
  }

  ghost predicate Distinct(times: seq<int>) {
    forall i, j :: 0 <= i < j < |times| ==> times[i] != times[j]
  }

  function Elements(times: seq<int>): set<int> {
    set x | x in times
  }

  lemma ElementsAppend(times: seq<int>, x: int)
    ensures Elements(times + [x]) == Elements(times) + {x}
    ensures x in Elements(times) <==> x in times
  {
  }

  lemma DistinctAppend(times: seq<int>, x: int)
    ensures Distinct(times + [x]) <==> Distinct(times) && x !in times
  {
    var all := times + [x];
    if Distinct(all) {
      assert forall i :: 0 <= i < |times| ==> all[i] == times[i] && all[i] != all[|times|];
    }
  }

  lemma OneMoreElement(scores: set<int>, x: int)
    ensures |scores + {x}| == |scores| + if x in scores then 0 else 1
  {
    assert x in scores ==> scores + {x} == scores;
  }

  /** A set holds as many scores as the sequence has entries exactly if none is repeated. */
  lemma {:induction false} ElementsSize(times: seq<int>)
    ensures |Elements(times)| <= |times|
    ensures |Elements(times)| == |times| <==> Distinct(times)
  {
    if times != [] {
      var front, last := times[..|times| - 1], times[|times| - 1];
      ElementsSize(front);
      assert times == front + [last];
      hide Elements, Distinct;
      ElementsAppend(front, last);
      DistinctAppend(front, last);
      OneMoreElement(Elements(front), last);
    } else {
      assert Elements([]) == {};
    }
  }

  ghost predicate UpToLast(times: seq<int>, last: int) {
    forall x :: x in Elements(times) ==> x <= last
  }

  lemma LaterAppend(scores: set<int>, x: int, cutoff: int)
    ensures Later(scores + {x}, cutoff) == if x > cutoff then Later(scores, cutoff) + {x} else Later(scores, cutoff)
  {
  }

  lemma {:induction false} AfterElements(times: seq<int>, cutoff: int)
    ensures Elements(After(times, cutoff)) == Later(Elements(times), cutoff)
    ensures |After(times, cutoff)| <= |times|
  {
    if times != [] {
      var front, last := times[..|times| - 1], times[|times| - 1];
      AfterElements(front, cutoff);
      assert times == front + [last];
      hide Elements, Later, After;
      AfterAppend(front, last, cutoff);
      ElementsAppend(front, last);
      ElementsAppend(After(front, cutoff), last);
      LaterAppend(Elements(front), last, cutoff);
    } else {
      assert Later(Elements([]), cutoff) == {} == Elements([]);
    }
  }

  lemma {:induction false} AfterDistinct(times: seq<int>, cutoff: int)
    requires Distinct(times)
    ensures Distinct(After(times, cutoff))
  {
    if times != [] {
      var front, last := times[..|times| - 1], times[|times| - 1];
      assert times == front + [last];
      DistinctAppend(front, last);
      AfterElements(front, cutoff);
      ElementsAppend(After(front, cutoff), last);
      ElementsAppend(front, last);
      assert last !in Later(Elements(front), cutoff);
      hide Elements, Distinct, Later, After;
      AfterDistinct(front, cutoff);
      AfterAppend(front, last, cutoff);
      DistinctAppend(After(front, cutoff), last);
    }
  }

  /** No more entries than a full window holds. */
  predicate Fits(entries: seq<int>, limit: int) {
    entries == [] || |entries| <= limit
  }

  /** Between requests of a key: the sorted set holds the times in the memory window, none
      of them later than `last`, the latest request of the key. */
  ghost predicate Same(entries: seq<int>, zsets: ZSets, key: string, last: int, limit: int, window: int) {
    && UpToLast(entries, last) && Fits(entries, limit)
    && (if key in zsets then zsets[key] == ZSet(Elements(entries), last + 2 * window) else entries == [])
  }

  /** At the next request, expired or not, both have the same live entries. */
  lemma LiveEntriesAgree(entries: seq<int>, zsets: ZSets, key: string, last: int, limit: int, window: int, now: int)
    requires Same(entries, zsets, key, last, limit, window) && window > 0 && last <= now
    ensures var valid := After(entries, now - window);
            && Elements(valid) == Later(Scores(zsets, key, now), now - window)
            && UpToLast(valid, last) && Fits(valid, limit)
  {
    hide After, Elements;
    AfterElements(entries, now - window);
    if key !in zsets {
      assert After([], now - window) == [] && Elements([]) == {} by { NoElements(now - window); }
    }
  }

  lemma NoElements(cutoff: int)
    ensures After([], cutoff) == [] && Elements([]) == {}
  {
  }

  /** The window is full, and it holds a time twice or the time of the request itself. A
      sorted set that counts each score once has room where the window has none. */
  ghost predicate Misled(valid: seq<int>, limit: int, now: int) {
    |valid| >= limit && (!Distinct(valid) || now in valid)
  }

  /** One request: the two decide alike exactly when the window does not mislead. */
  lemma DecisionsAgreeIff(windows: Windows, zsets: ZSets, key: string, last: int, limit: int, window: int, now: int)
    requires Same(Entries(windows, key), zsets, key, last, limit, window) && window > 0 && last <= now
    ensures MemAllow(windows, key, limit, window, now).1 == RedisAllow(zsets, key, limit, window, now).1
            <==> !Misled(After(Entries(windows, key), now - window), limit, now)
  {
    hide Elements, Later, UpToLast, After, Scores, Distinct;
    var valid := After(Entries(windows, key), now - window);
    LiveEntriesAgree(Entries(windows, key), zsets, key, last, limit, window, now);
    ElementsSize(valid);
    ElementsAppend(valid, now);
    OneMoreElement(Elements(valid), now);
    assert valid == [] ==> Distinct(valid) by { EmptyDistinct(); }
  }

  lemma EmptyDistinct()
    ensures Distinct([])
  {
  }

  lemma TakeBack(scores: set<int>, x: int)
    requires x !in scores
    ensures scores + {x} - {x} == scores
  {
  }

  lemma UpToNow(times: seq<int>, last: int, now: int)
    requires UpToLast(times, last) && last <= now
    ensures UpToLast(times, now) && UpToLast(times + [now], now)
  {
    ElementsAppend(times, now);
  }

  /** Then they also hold the same afterwards. */
  lemma AllowKeepsSame(windows: Windows, zsets: ZSets, key: string, last: int, limit: int, window: int, now: int)
    requires Same(Entries(windows, key), zsets, key, last, limit, window) && window > 0 && last <= now
    requires !Misled(After(Entries(windows, key), now - window), limit, now)
    ensures Same(Entries(MemAllow(windows, key, limit, window, now).0, key),
                 RedisAllow(zsets, key, limit, window, now).0, key, now, limit, window)
  {
    DecisionsAgreeIff(windows, zsets, key, last, limit, window, now);
    hide Elements, Later, UpToLast, After, Scores, Distinct;
    var valid := After(Entries(windows, key), now - window);
    LiveEntriesAgree(Entries(windows, key), zsets, key, last, limit, window, now);
    UpToNow(valid, last, now);
    ElementsAppend(valid, now);
    if |valid| >= limit {
      TakeBack(Elements(valid), now);
      assert Elements(valid) == {} ==> valid == [] by { NoneIsEmpty(valid); }
    }
  }

  lemma NoneIsEmpty(times: seq<int>)
    ensures Elements(times) == {} ==> times == []
  {
    assert times != [] ==> times[0] in Elements(times);
  }

  lemma OtherKeysKeep(windows: Windows, zsets: ZSets, key: string, limit: int, window: int, now: int, other: string)
    requires other != key
    ensures Entries(MemAllow(windows, key, limit, window, now).0, other) == Entries(windows, other)
    ensures var z := RedisAllow(zsets, key, limit, window, now).0;
            (other in z <==> other in zsets) && (other in z ==> z[other] == zsets[other])
  {
  }

  lemma {:induction false} LastOfBound(events: seq<Event>, key: string, start: int)
    requires InOrder(events, start)
    ensures LastOf(events, key, start) <= LastTime(events, start)
  {
    if events != [] {
      LastOfBound(events[..|events| - 1], key, start);
    }
  }

  // ----- Runs -----

  /** What the window of the next request's key still holds when the request comes. */
  function LiveWindow(events: seq<Event>, limit: int, window: int, e: Event): seq<int>
    requires e.Request?
  {
    After(Entries(RunMem(events, limit, window).windows, e.key), e.now - window)
  }

  /** No request meets a full window that holds a time twice or its own time. */
  ghost predicate NeverMisled(events: seq<Event>, limit: int, window: int) {
    events == [] ||
    (var before, last := events[..|events| - 1], events[|events| - 1];
     && NeverMisled(before, limit, window)
     && (last.Request? ==> !Misled(LiveWindow(before, limit, window, last), limit, last.now)))
  }

  /** What the last request of a run does to both limiters. */
  lemma RunFront(events: seq<Event>, limit: int, window: int)
    requires events != [] && events[|events| - 1].Request?
    ensures var before, last := events[..|events| - 1], events[|events| - 1];
            var mem, redis := RunMem(before, limit, window), RunRedis(before, limit, window);
            var (windows, allowed) := MemAllow(mem.windows, last.key, limit, window, last.now);
            var (zsets, redisAllowed) := RedisAllow(redis.zsets, last.key, limit, window, last.now);
            && RunMem(events, limit, window) == LimiterRuns.Outcome(windows, mem.decisions + [allowed])
            && RunRedis(events, limit, window) == RedisOutcome(zsets, redis.decisions + [redisAllowed])
            && LiveWindow(before, limit, window, last) == After(Entries(mem.windows, last.key), last.now - window)
  {
    hide MemAllow, RedisAllow, After;
  }

  lemma OrderFront(events: seq<Event>, key: string, start: int)
    requires InOrder(events, start) && events != []
    ensures var before, last := events[..|events| - 1], events[|events| - 1];
            && InOrder(before, start) && last.Request? && LastOf(before, last.key, start) <= last.now
            && LastOf(events, last.key, start) == last.now
            && (key != last.key ==> LastOf(events, key, start) == LastOf(before, key, start))
  {
    LastOfBound(events[..|events| - 1], events[|events| - 1].key, start);
  }

  lemma MisledFront(events: seq<Event>, limit: int, window: int)
    requires events != [] && events[|events| - 1].Request?
    ensures var before, last := events[..|events| - 1], events[|events| - 1];
            NeverMisled(events, limit, window)
            <==> NeverMisled(before, limit, window)
                 && !Misled(LiveWindow(before, limit, window, last), limit, last.now)
  {
  }

  /** Before the first request. */
  lemma NoRequests(limit: int, window: int, key: string, start: int)
    ensures RunRedis([], limit, window).decisions == RunMem([], limit, window).decisions == []
    ensures Same(Entries(RunMem([], limit, window).windows, key), RunRedis([], limit, window).zsets, key,
                 LastOf([], key, start), limit, window)
    ensures NeverMisled([], limit, window) && Distinct(Entries(RunMem([], limit, window).windows, key))
  {
    NoElements(0);
  }

  lemma {:induction false} RunsAgree(events: seq<Event>, limit: int, window: int, key: string, start: int)
    requires InOrder(events, start) && window > 0 && NeverMisled(events, limit, window)
    ensures RunRedis(events, limit, window).decisions == RunMem(events, limit, window).decisions
    ensures Same(Entries(RunMem(events, limit, window).windows, key), RunRedis(events, limit, window).zsets, key,
                 LastOf(events, key, start), limit, window)
  {
    hide RedisAllow, MemAllow, Same, Misled, After, RunMem, RunRedis, InOrder, NeverMisled, LastOf, LiveWindow, Entries;
    if events == [] {
      NoRequests(limit, window, key, start);
    } else {
      var before, last := events[..|events| - 1], events[|events| - 1];
      OrderFront(events, key, start);
      MisledFront(events, limit, window);
      RunFront(events, limit, window);
      RunsAgree(before, limit, window, key, start);
      RunsAgree(before, limit, window, last.key, start);
      var windows, zsets := RunMem(before, limit, window).windows, RunRedis(before, limit, window).zsets;
      var since := LastOf(before, last.key, start);
      DecisionsAgreeIff(windows, zsets, last.key, since, limit, window, last.now);
      AllowKeepsSame(windows, zsets, last.key, since, limit, window, last.now);
      if last.key != key {
        OtherKeysKeep(windows, zsets, last.key, limit, window, last.now, key);
        OtherKeySame(Entries(windows, key), zsets, RedisAllow(zsets, last.key, limit, window, last.now).0, key,
                     LastOf(before, key, start), limit, window);
      }
    }
  }

  lemma OtherKeySame(entries: seq<int>, zsets: ZSets, after: ZSets, key: string, last: int, limit: int, window: int)
    requires Same(entries, zsets, key, last, limit, window)
    requires (key in after <==> key in zsets) && (key in after ==> after[key] == zsets[key])
    ensures Same(entries, after, key, last, limit, window)
  {
  }

  lemma SplitDecisions(a: seq<bool>, b: seq<bool>, x: bool, y: bool)
    requires |a| == |b|
    ensures a + [x] == b + [y] <==> a == b && x == y
  {
    assert (a + [x])[..|a|] == a && (b + [y])[..|b|] == b;
    assert (a + [x])[|a|] == x && (b + [y])[|b|] == y;
  }

  /** Over any run of requests in the order of time, shared scores or not, the two limiters
      make the same decisions exactly when no request meets a full window that holds a time
      twice or its own time. */
  lemma {:induction false} RunsAgreeIff(events: seq<Event>, limit: int, window: int, start: int)
    requires InOrder(events, start) && window > 0
    ensures RunRedis(events, limit, window).decisions == RunMem(events, limit, window).decisions
            <==> NeverMisled(events, limit, window)
  {
    hide RedisAllow, MemAllow, Same, Misled, After, RunMem, RunRedis, InOrder, NeverMisled, LastOf, LiveWindow, Entries;
    if events == [] {
      NoRequests(limit, window, "", start);
    } else {
      var before, last := events[..|events| - 1], events[|events| - 1];
      OrderFront(events, "", start);
      MisledFront(events, limit, window);
      RunFront(events, limit, window);
      RunsAgreeIff(before, limit, window, start);
      var mem, redis := RunMem(before, limit, window), RunRedis(before, limit, window);
      SplitDecisions(redis.decisions, mem.decisions, RedisAllow(redis.zsets, last.key, limit, window, last.now).1,
                     MemAllow(mem.windows, last.key, limit, window, last.now).1);
      if NeverMisled(before, limit, window) {
        RunsAgree(before, limit, window, last.key, start);
        DecisionsAgreeIff(mem.windows, redis.zsets, last.key, LastOf(before, last.key, start), limit, window, last.now);
      }
    }
  }

  /** As long as that holds, both also have the same live entries at any later time; the
      expiry of a key never shows. */
  lemma RedisDecidesLikeMemory(events: seq<Event>, limit: int, window: int, key: string, start: int, now: int)
    requires InOrder(events, start) && window > 0 && NeverMisled(events, limit, window)
    requires LastTime(events, start) <= now
    ensures RunRedis(events, limit, window).decisions == RunMem(events, limit, window).decisions
    ensures Later(Scores(RunRedis(events, limit, window).zsets, key, now), now - window)
            == Elements(After(Entries(RunMem(events, limit, window).windows, key), now - window))
  {
    RunsAgree(events, limit, window, key, start);
    LastOfBound(events, key, start);
    LiveEntriesAgree(Entries(RunMem(events, limit, window).windows, key), RunRedis(events, limit, window).zsets, key,
                     LastOf(events, key, start), limit, window, now);
  }

  // ----- Entries, counted with their repetitions -----

  /** No request comes at a time at which an earlier one of its key was admitted. */
  ghost predicate NeverRepeats(events: seq<Event>, limit: int, window: int) {
    events == [] ||
    (var before, last := events[..|events| - 1], events[|events| - 1];
     && NeverRepeats(before, limit, window)
     && (last.Request? ==> last.now !in LiveWindow(before, limit, window, last)))
  }

  /** The scores stored under a key, expired or not. */
  function Stored(zsets: ZSets, key: string): set<int> {
    if key in zsets then zsets[key].scores else {}
  }

  /** After every request the decisions were the same, and the sorted set of its key holds as
      many scores as the window has entries. */
  ghost predicate CountsAgree(events: seq<Event>, limit: int, window: int) {
    events == [] ||
    (var before, last := events[..|events| - 1], events[|events| - 1];
     var mem, redis := RunMem(events, limit, window), RunRedis(events, limit, window);
     && CountsAgree(before, limit, window)
     && mem.decisions == redis.decisions
     && (last.Request? ==> |Entries(mem.windows, last.key)| == |Stored(redis.zsets, last.key)|))
  }

  lemma SameStored(entries: seq<int>, zsets: ZSets, key: string, last: int, limit: int, window: int)
    requires Same(entries, zsets, key, last, limit, window)
    ensures Stored(zsets, key) == Elements(entries)
  {
  }

  lemma RepeatsFront(events: seq<Event>, limit: int, window: int)
    requires events != [] && events[|events| - 1].Request?
    ensures var before, last := events[..|events| - 1], events[|events| - 1];
            NeverRepeats(events, limit, window)
            <==> NeverRepeats(before, limit, window) && last.now !in LiveWindow(before, limit, window, last)
  {
  }

  lemma AllowKeepsDistinct(windows: Windows, key: string, limit: int, window: int, now: int, other: string)
    requires Distinct(Entries(windows, key)) && now !in After(Entries(windows, key), now - window)
    requires Distinct(Entries(windows, other))
    ensures Distinct(Entries(MemAllow(windows, key, limit, window, now).0, other))
    ensures !Misled(After(Entries(windows, key), now - window), limit, now)
  {
    hide After, Distinct;
    AfterDistinct(Entries(windows, key), now - window);
    DistinctAppend(After(Entries(windows, key), now - window), now);
  }

  lemma {:induction false} NeverRepeatsIsDistinct(events: seq<Event>, limit: int, window: int, key: string, start: int)
    requires InOrder(events, start) && NeverRepeats(events, limit, window)
    ensures NeverMisled(events, limit, window) && Distinct(Entries(RunMem(events, limit, window).windows, key))
  {
    hide MemAllow, RedisAllow, Misled, Distinct, After, RunMem, RunRedis, InOrder, NeverMisled, NeverRepeats, LastOf,
         LiveWindow, Entries;
    if events != [] {
      var before, last := events[..|events| - 1], events[|events| - 1];
      OrderFront(events, key, start);
      RepeatsFront(events, limit, window);
      MisledFront(events, limit, window);
      RunFront(events, limit, window);
      NeverRepeatsIsDistinct(before, limit, window, key, start);
      NeverRepeatsIsDistinct(before, limit, window, last.key, start);
      AllowKeepsDistinct(RunMem(before, limit, window).windows, last.key, limit, window, last.now, key);
    } else {
      NoRequests(limit, window, key, start);
    }
  }

  /** One request that repeats an admitted time: either the decisions differ, or the window
      gets an entry more than the sorted set. */
  lemma RepeatShows(windows: Windows, zsets: ZSets, key: string, last: int, limit: int, window: int, now: int)
    requires Same(Entries(windows, key), zsets, key, last, limit, window) && window > 0 && last <= now
    requires now in After(Entries(windows, key), now - window)
    ensures var (w, allowed) := MemAllow(windows, key, limit, window, now);
            var (z, redisAllowed) := RedisAllow(zsets, key, limit, window, now);
            allowed == redisAllowed ==> |Entries(w, key)| != |Stored(z, key)|
  {
    DecisionsAgreeIff(windows, zsets, key, last, limit, window, now);
    var valid := After(Entries(windows, key), now - window);
    if !Misled(valid, limit, now) {
      AllowKeepsSame(windows, zsets, key, last, limit, window, now);
      hide After, Elements, Distinct, Same, RedisAllow;
      SameStored(valid + [now], RedisAllow(zsets, key, limit, window, now).0, key, now, limit, window);
      ElementsSize(valid + [now]);
      DistinctAppend(valid, now);
    }
  }

  /** The two limiters decide alike and count alike after every request exactly when no request
      comes at the time of an admitted one; sharing a time with a refused one does no harm. */
  lemma {:induction false} CountsAgreeIff(events: seq<Event>, limit: int, window: int, start: int)
    requires InOrder(events, start) && window > 0
    ensures CountsAgree(events, limit, window) <==> NeverRepeats(events, limit, window)
  {
    hide RedisAllow, MemAllow, Misled, After, Same, Distinct, Elements, Stored, RunMem, RunRedis, InOrder, NeverMisled,
         NeverRepeats, LastOf, LiveWindow, Entries;
    if events == [] {
      NothingRepeats(limit, window);
    } else {
      var before, last := events[..|events| - 1], events[|events| - 1];
      OrderFront(events, "", start);
      RepeatsFront(events, limit, window);
      CountsAgreeIff(before, limit, window, start);
      if NeverRepeats(events, limit, window) {
        NoRepeatCounts(events, limit, window, last.key, start);
      } else if NeverRepeats(before, limit, window) {
        RepeatIsSeen(events, limit, window, start);
      }
    }
  }

  lemma NothingRepeats(limit: int, window: int)
    ensures CountsAgree([], limit, window) && NeverRepeats([], limit, window)
  {
  }

  lemma NoRepeatCounts(events: seq<Event>, limit: int, window: int, key: string, start: int)
    requires InOrder(events, start) && window > 0 && NeverRepeats(events, limit, window)
    ensures RunMem(events, limit, window).decisions == RunRedis(events, limit, window).decisions
    ensures |Entries(RunMem(events, limit, window).windows, key)|
            == |Stored(RunRedis(events, limit, window).zsets, key)|
  {
    hide Same, Distinct, Elements, Stored, RunMem, RunRedis, InOrder, NeverMisled, NeverRepeats, LastOf, Entries;
    NeverRepeatsIsDistinct(events, limit, window, key, start);
    RunsAgree(events, limit, window, key, start);
    var entries := Entries(RunMem(events, limit, window).windows, key);
    SameStored(entries, RunRedis(events, limit, window).zsets, key, LastOf(events, key, start), limit, window);
    ElementsSize(entries);
  }

  lemma RepeatIsSeen(events: seq<Event>, limit: int, window: int, start: int)
    requires InOrder(events, start) && window > 0 && events != [] && events[|events| - 1].Request?
    requires var before, last := events[..|events| - 1], events[|events| - 1];
             NeverRepeats(before, limit, window) && last.now in LiveWindow(before, limit, window, last)
    ensures !CountsAgree(events, limit, window)
  {
    hide RedisAllow, MemAllow, Misled, After, Same, Stored, RunMem, RunRedis, InOrder, NeverMisled, NeverRepeats,
         LastOf,
         LiveWindow, Entries;
    var before, last := events[..|events| - 1], events[|events| - 1];
    OrderFront(events, "", start);
    RunFront(events, limit, window);
    NeverRepeatsIsDistinct(before, limit, window, last.key, start);
    RunsAgree(before, limit, window, last.key, start);
    var mem, redis := RunMem(before, limit, window), RunRedis(before, limit, window);
    RepeatShows(mem.windows, redis.zsets, last.key, LastOf(before, last.key, start), limit, window, last.now);
    SplitDecisions(mem.decisions, redis.decisions, MemAllow(mem.windows, last.key, limit, window, last.now).1,
                   RedisAllow(redis.zsets, last.key, limit, window, last.now).1);
  }

  /** Two requests that share a score are one member: where one request is the limit, the
      memory limiter refuses the second and Redis admits it. */
  lemma SharedScoreSlipsThrough(key: string, now: int, window: int)
    requires window > 0
    ensures var (w1, a1) := MemAllow(map[], key, 1, window, now);
            var (z1, b1) := RedisAllow(map[], key, 1, window, now);
            a1 && b1 && !MemAllow(w1, key, 1, window, now).1 && RedisAllow(z1, key, 1, window, now).1
  {
    AfterAppend([], now, now - window);
    assert [] + [now] == [now];
    assert Later({}, now - window) + {now} == {now};
    assert Later({now}, now - window) + {now} == {now};
  }
}
