/** Sliding-window admission over the full history of what was admitted. */
module AdmissionSpec {

  /** The times that lie after `cutoff`, in order. */
  function After(times: seq<int>, cutoff: int): seq<int> {
    if times == [] then []
    else
      var last := times[|times| - 1];
      After(times[..|times| - 1], cutoff) + if last > cutoff then [last] else []
  }

  lemma AfterAppend(times: seq<int>, t: int, cutoff: int)
    ensures After(times + [t], cutoff) == if t > cutoff then After(times, cutoff) + [t] else After(times, cutoff)
  {
    assert (times + [t])[..|times|] == times;
    assert After(times, cutoff) + [] == After(times, cutoff);
  }

  /** Dropping what is before an earlier cutoff loses nothing for a later one. */
  lemma {:induction false} AfterTwice(times: seq<int>, early: int, late: int)
    requires early <= late
    ensures After(After(times, early), late) == After(times, late)
  {
    if times != [] {
      var before := times[..|times| - 1];
      var last := times[|times| - 1];
      AfterTwice(before, early, late);
      assert times == before + [last];
      AfterAppend(before, last, early);
      AfterAppend(before, last, late);
      AfterAppend(After(before, early), last, late);
    }
  }

  /** How many of the times lie in the half-open window that ends at `t`. */
  function InWindow(times: seq<int>, t: int, window: int): nat {
    if times == [] then 0
    else
      var last := times[|times| - 1];
      InWindow(times[..|times| - 1], t, window) + if t - window < last <= t then 1 else 0
  }

  /** No window holds more than `limit` admissions. */
  ghost predicate WithinLimit(times: seq<int>, limit: int, window: int) {
    forall t :: InWindow(times, t, window) <= limit
  }

  ghost predicate Sorted(times: seq<int>) {
    forall i, j :: 0 <= i < j < |times| ==> times[i] <= times[j]
  }

  ghost predicate UpTo(times: seq<int>, t: int) {
    forall i :: 0 <= i < |times| ==> times[i] <= t
  }

  lemma InWindowAppend(times: seq<int>, x: int, t: int, window: int)
    ensures InWindow(times + [x], t, window) == InWindow(times, t, window) + if t - window < x <= t then 1 else 0
  {
    assert (times + [x])[..|times|] == times;
  }

  /** A window that ends no earlier than the last time counts what lies after its start. */
  lemma {:induction false} WindowIsAfter(times: seq<int>, t: int, window: int)
    requires UpTo(times, t)
    ensures InWindow(times, t, window) == |After(times, t - window)|
  {
    if times != [] {
      WindowIsAfter(times[..|times| - 1], t, window);
    }
  }

  lemma {:induction false} AfterShrinks(times: seq<int>, early: int, late: int)
    requires early <= late
    ensures |After(times, late)| <= |After(times, early)|
  {
    if times != [] {
      AfterShrinks(times[..|times| - 1], early, late);
    }
  }

  /** In a sorted history, what lies after a cutoff is its tail. */
  lemma {:induction false} AfterIsTail(times: seq<int>, cutoff: int)
    requires Sorted(times)
    ensures |After(times, cutoff)| <= |times|
    ensures forall i :: 0 <= i < |times| ==> (times[i] > cutoff <==> i >= |times| - |After(times, cutoff)|)
  {
    if times != [] {
      AfterIsTail(times[..|times| - 1], cutoff);
    }
  }

  /** Admitting at `now` is right exactly when fewer than `limit` earlier admissions lie in
      the window that ends there. */
  lemma AdmitIff(times: seq<int>, now: int, limit: int, window: int)
    requires WithinLimit(times, limit, window) && UpTo(times, now)
    requires window > 0
    ensures WithinLimit(times + [now], limit, window) <==> |After(times, now - window)| < limit
  {
    WindowIsAfter(times, now, window);
    InWindowAppend(times, now, now, window);
    if |After(times, now - window)| < limit {
      forall t ensures InWindow(times + [now], t, window) <= limit {
        InWindowAppend(times, now, t, window);
        if t >= now {
          WindowIsAfter(times, t, window);
          AfterShrinks(times, now - window, t - window);
        }
      }
    }
  }
}

/** The in-memory limiter. */
module Limiter {
  import opened AdmissionSpec

  type Windows = map<string, seq<int>>

  const MINUTE := 60 * 1_000_000_000
  const SECOND := 1_000_000_000

  function Entries(windows: Windows, key: string): seq<int> {
    if key in windows then windows[key] else []
  }

  function MemAllow(windows: Windows, key: string, limit: int, window: int, now: int): (Windows, bool) {
    var valid := After(Entries(windows, key), now - window);
    if |valid| >= limit then (windows[key := valid], false)
    else (windows[key := valid + [now]], true)
  }

  function CleanMap(windows: Windows, now: int, maxAge: int): Windows {
    map key | key in windows && After(windows[key], now - maxAge) != [] :: After(windows[key], now - maxAge)
  }

  /** Filters a slice into its own backing array: kept entries are written over the front of
      the array that is still being read, and what lies behind them stays. */
  method KeepAfter(entries: array<int>, cutoff: int) returns (kept: nat)
    modifies entries
    ensures kept <= entries.Length
    ensures entries[..kept] == After(old(entries[..]), cutoff)
    ensures entries[kept..] == old(entries[..])[kept..]
  {
    ghost var was := entries[..];
    hide After;
    kept := 0;
    NoneAfter(was, cutoff);
    for i := 0 to entries.Length
      invariant kept <= i
      invariant forall j :: kept <= j < entries.Length ==> entries[j] == was[j]
      invariant entries[..kept] == After(was[..i], cutoff)
    {
      var t := entries[i];
      assert was[..i + 1] == was[..i] + [t];
      AfterAppend(was[..i], t, cutoff);
      if t > cutoff {
        entries[kept] := t;
        assert entries[..kept + 1] == After(was[..i], cutoff) + [t];
        kept := kept + 1;
      }
    }
    assert was[..entries.Length] == was;
  }

  lemma NoneAfter(times: seq<int>, cutoff: int)
    ensures After(times[..0], cutoff) == []
  {
  }

  /** The entries of one window, filtered in a backing array of their own. */
  method Filter(entries: seq<int>, cutoff: int) returns (valid: seq<int>)
    ensures valid == After(entries, cutoff)
  {
    var slice := new int[|entries|](i requires 0 <= i < |entries| => entries[i]);
    assert slice[..] == entries;
    var kept := KeepAfter(slice, cutoff);
    valid := slice[..kept];
  }

  /** Decides one request and updates the key's window in the map that it is given. */
  method AllowIn(windows: Windows, key: string, limit: int, window: int, now: int) returns (updated: Windows,
                 allowed: bool)
    ensures (updated, allowed) == MemAllow(windows, key, limit, window, now)
  {
    var valid := Filter(Entries(windows, key), now - window);
    if |valid| >= limit {
      return windows[key := valid], false;
    }
    return windows[key := valid + [now]], true;
  }

  /** Times are in nanoseconds: connections are counted over a minute, messages over a second. */
  class Limiter {
    const connPerMin: int
    const msgPerSec: int
    var connWindows: Windows
    var msgWindows: Windows

    constructor (connPerMin: int, msgPerSec: int)
      ensures this.connPerMin == connPerMin && this.msgPerSec == msgPerSec
      ensures connWindows == map[] && msgWindows == map[]
    {
      this.connPerMin, this.msgPerSec := connPerMin, msgPerSec;
      connWindows, msgWindows := map[], map[];
    }

    method AllowConnection(ip: string, now: int) returns (allowed: bool)
      modifies this`connWindows
      ensures connPerMin <= 0 ==> allowed && connWindows == old(connWindows)
      ensures connPerMin > 0 ==>
                (connWindows, allowed) == MemAllow(old(connWindows), ip, connPerMin, 60_000_000_000, now)
    {
      if connPerMin <= 0 {
        return true;
      }
      connWindows, allowed := AllowIn(connWindows, ip, connPerMin, MINUTE, now);
    }

    method AllowMessage(id: string, now: int) returns (allowed: bool)
      modifies this`msgWindows
      ensures msgPerSec <= 0 ==> allowed && msgWindows == old(msgWindows)
      ensures msgPerSec > 0 ==> (msgWindows, allowed) == MemAllow(old(msgWindows), id, msgPerSec, 1_000_000_000, now)
    {
      if msgPerSec <= 0 {
        return true;
      }
      msgWindows, allowed := AllowIn(msgWindows, id, msgPerSec, SECOND, now);
    }

    method Cleanup(now: int)
      modifies this
      ensures connWindows == CleanMap(old(connWindows), now, 120_000_000_000)
      ensures msgWindows == CleanMap(old(msgWindows), now, 2_000_000_000)
    {
      connWindows := Clean(connWindows, now, 2 * MINUTE);
      msgWindows := Clean(msgWindows, now, 2 * SECOND);
    }
  }

  /** One pass over the keys, in any order; keys with nothing left are deleted. */
  method Clean(windows: Windows, now: int, maxAge: int) returns (cleaned: Windows)
    ensures cleaned == CleanMap(windows, now, maxAge)
  {
    cleaned := windows;
    var todo := windows.Keys;
    while todo != {}
      invariant todo <= windows.Keys
      invariant forall key :: key in todo ==> key in cleaned && cleaned[key] == windows[key]
      invariant forall key :: key !in todo ==>
        (key in cleaned <==> key in windows && After(windows[key], now - maxAge) != [])
        && (key in cleaned ==> cleaned[key] == After(windows[key], now - maxAge))
    {
      var key :| key in todo;
      var valid := Filter(cleaned[key], now - maxAge);
      if |valid| == 0 {
        cleaned := cleaned - {key};
      } else {
        cleaned := cleaned[key := valid];
      }
      todo := todo - {key};
    }
  }
}

/** Whole runs of the in-memory limiter. */
module LimiterRuns {
  import opened AdmissionSpec
  import opened Limiter

  datatype Event = Request(key: string, now: int) | Clean(now: int) {
    /** The key that a request is for; any key will do for a cleaning pass. */
    function Key(otherwise: string): string {
      if Request? then key else otherwise
    }
  }

  /** `decisions` has an entry for every event; a cleaning pass admits nothing. */
  datatype Outcome = Outcome(windows: Windows, decisions: seq<bool>)

  function MemStep(windows: Windows, e: Event, limit: int, window: int): (Windows, bool) {
    match e
    case Request(key, now) => MemAllow(windows, key, limit, window, now)
    case Clean(now) => (CleanMap(windows, now, 2 * window), false)
  }

  function RunMem(events: seq<Event>, limit: int, window: int): (r: Outcome)
    ensures |r.decisions| == |events|
  {
    if events == [] then Outcome(map[], [])
    else
      var before := RunMem(events[..|events| - 1], limit, window);
      var (windows, allowed) := MemStep(before.windows, events[|events| - 1], limit, window);
      Outcome(windows, before.decisions + [allowed])
  }

  /** When `key` was admitted, under any decisions. */
  function Admitted(events: seq<Event>, decisions: seq<bool>, key: string): seq<int>
    requires |events| == |decisions|
  {
    if events == [] then []
    else
      var last := events[|events| - 1];
      Admitted(events[..|events| - 1], decisions[..|events| - 1], key)
      + if decisions[|events| - 1] && last.Request? && last.key == key then [last.now] else []
  }

  /** The decision that the full history calls for. */
  predicate Calls(events: seq<Event>, decisions: seq<bool>, e: Event, limit: int, window: int)
    requires |events| == |decisions|
  {
    e.Request? && |After(Admitted(events, decisions, e.key), e.now - window)| < limit
  }

  /** Those decisions for a whole run. Nothing is ever forgotten. */
  function Ideal(events: seq<Event>, limit: int, window: int): (r: seq<bool>)
    ensures |r| == |events|
  {
    if events == [] then []
    else
      var before := events[..|events| - 1];
      var decisions := Ideal(before, limit, window);
      decisions + [Calls(before, decisions, events[|events| - 1], limit, window)]
  }

  ghost predicate Timely(events: seq<Event>) {
    forall i, j :: 0 <= i < j < |events| ==> events[i].now <= events[j].now
  }

  lemma AdmittedAppend(events: seq<Event>, decisions: seq<bool>, e: Event, d: bool, key: string)
    requires |events| == |decisions|
    ensures Admitted(events + [e], decisions + [d], key) ==
            if d && e.Request? && e.key == key then Admitted(events, decisions, key) + [e.now]
            else Admitted(events, decisions, key)
  {
    assert (events + [e])[..|events|] == events && (decisions + [d])[..|events|] == decisions;
    assert Admitted(events, decisions, key) + [] == Admitted(events, decisions, key);
  }

  lemma AdmittedLast(events: seq<Event>, decisions: seq<bool>, key: string)
    requires |events| == |decisions| && events != []
    ensures var n := |events| - 1;
            var earlier := Admitted(events[..n], decisions[..n], key);
            Admitted(events, decisions, key)
            == if decisions[n] && events[n].Request? && events[n].key == key then earlier + [events[n].now] else earlier
  {
    var n := |events| - 1;
    assert events == events[..n] + [events[n]] && decisions == decisions[..n] + [decisions[n]];
    hide Admitted;
    AdmittedAppend(events[..n], decisions[..n], events[n], decisions[n], key);
  }

  lemma {:induction false} AdmittedTimes(events: seq<Event>, decisions: seq<bool>, key: string, t: int)
    requires |events| == |decisions| && Timely(events)
    requires events != [] ==> events[|events| - 1].now <= t
    ensures Sorted(Admitted(events, decisions, key)) && UpTo(Admitted(events, decisions, key), t)
  {
    hide Sorted, UpTo, Timely, Admitted;
    if events == [] {
      EmptySorted(t);
      EmptyAdmitted(key);
    } else {
      var n := |events| - 1;
      TimelyFront(events);
      AdmittedTimes(events[..n], decisions[..n], key, events[n].now);
      AdmittedLast(events, decisions, key);
      SortedAppend(Admitted(events[..n], decisions[..n], key), events[n].now, t);
    }
  }

  lemma EmptySorted(t: int)
    ensures Sorted([]) && UpTo([], t)
  {
  }

  lemma SortedAppend(times: seq<int>, x: int, t: int)
    requires Sorted(times) && UpTo(times, x) && x <= t
    ensures Sorted(times + [x]) && UpTo(times + [x], t) && UpTo(times, t)
  {
  }

  /** The window of a key and its history say the same from `from` on. */
  ghost predicate Agree(entries: seq<int>, history: seq<int>, from: int) {
    forall cutoff :: cutoff >= from ==> After(entries, cutoff) == After(history, cutoff)
  }

  lemma FilterKeepsAgreement(entries: seq<int>, history: seq<int>, from: int, cutoff: int, next: int)
    requires Agree(entries, history, from) && next >= from && next >= cutoff
    ensures Agree(After(entries, cutoff), history, next)
  {
    forall c | c >= next ensures After(After(entries, cutoff), c) == After(history, c) {
      AfterTwice(entries, cutoff, c);
    }
  }

  lemma AppendKeepsAgreement(entries: seq<int>, history: seq<int>, from: int, now: int)
    requires Agree(entries, history, from)
    ensures Agree(entries + [now], history + [now], from)
  {
    forall c | c >= from ensures After(entries + [now], c) == After(history + [now], c) {
      AfterAppend(entries, now, c);
      AfterAppend(history, now, c);
    }
  }

  lemma EntriesAfterClean(windows: Windows, now: int, maxAge: int, key: string)
    ensures Entries(CleanMap(windows, now, maxAge), key) == After(Entries(windows, key), now - maxAge)
  {
  }

  /** What one event does to the window of `key` and to its history. */
  lemma StepAgrees(windows: Windows, history: seq<int>, e: Event, limit: int, window: int, key: string, from: int)
    requires Agree(Entries(windows, key), history, from) && e.now - window >= from && window > 0
    ensures var (after, allowed) := MemStep(windows, e, limit, window);
            Agree(Entries(after, key),
                  if allowed && e.Request? && e.key == key then history + [e.now] else history,
                  e.now - window)
  {
    hide After, Agree, CleanMap;
    match e
    case Request(k, now) =>
      if k == key {
        FilterKeepsAgreement(Entries(windows, key), history, from, now - window, now - window);
        AppendKeepsAgreement(After(Entries(windows, key), now - window), history, now - window, now);
      } else {
        AgreeLater(Entries(windows, key), history, from, now - window);
      }
    case Clean(now) =>
      EntriesAfterClean(windows, now, 2 * window, key);
      FilterKeepsAgreement(Entries(windows, key), history, from, now - 2 * window, now - window);
  }

  /** After the last event, or from any time if there was none. */
  function LastTime(events: seq<Event>, otherwise: int): int {
    if events == [] then otherwise else events[|events| - 1].now
  }

  /** However cleaning passes are interleaved, each decision is the one that the full
      history calls for, and each window still agrees with the history. */
  lemma {:induction false} MemIsIdeal(events: seq<Event>, limit: int, window: int, key: string, now: int)
    requires Timely(events) && window > 0 && now >= LastTime(events, now)
    ensures RunMem(events, limit, window).decisions == Ideal(events, limit, window)
    ensures Agree(Entries(RunMem(events, limit, window).windows, key),
                  Admitted(events, Ideal(events, limit, window), key), now - window)
  {
    hide MemStep, Agree, After, Entries, Timely, Admitted, RunMem, Ideal, Calls;
    if events == [] {
      NothingIsIdeal(limit, window, key, now);
    } else {
      var before, last := events[..|events| - 1], events[|events| - 1];
      TimelyFront(events);
      MemIsIdeal(before, limit, window, key, last.now);
      MemIsIdeal(before, limit, window, last.Key(key), last.now);
      LastIsIdeal(events, limit, window, key);
      AgreeLater(Entries(RunMem(events, limit, window).windows, key),
                 Admitted(events, Ideal(events, limit, window), key), last.now - window, now - window);
    }
  }

  lemma NothingIsIdeal(limit: int, window: int, key: string, now: int)
    ensures RunMem([], limit, window).decisions == Ideal([], limit, window)
    ensures Agree(Entries(RunMem([], limit, window).windows, key),
                  Admitted([], Ideal([], limit, window), key), now - window)
  {
    EmptyAgrees(key, now - window);
    EmptyAdmitted(key);
  }

  /** What the last event adds to the run and to the decisions that the history calls for. */
  lemma LastOfRun(events: seq<Event>, limit: int, window: int)
    requires events != []
    ensures var before, last := events[..|events| - 1], events[|events| - 1];
            var mem, ideal := RunMem(before, limit, window), Ideal(before, limit, window);
            && RunMem(events, limit, window).windows == MemStep(mem.windows, last, limit, window).0
            && RunMem(events, limit, window).decisions == mem.decisions + [MemStep(mem.windows, last, limit, window).1]
            && Ideal(events, limit, window) == ideal + [Calls(before, ideal, last, limit, window)]
  {
    hide MemStep, Calls;
  }

  lemma LastIsIdeal(events: seq<Event>, limit: int, window: int, key: string)
    requires events != [] && window > 0
    requires var before, last := events[..|events| - 1], events[|events| - 1];
             var mem, ideal := RunMem(before, limit, window), Ideal(before, limit, window);
             && mem.decisions == ideal
             && Agree(Entries(mem.windows, key), Admitted(before, ideal, key), last.now - window)
             && Agree(Entries(mem.windows, last.Key(key)), Admitted(before, ideal, last.Key(key)), last.now - window)
    ensures var last := events[|events| - 1];
            && RunMem(events, limit, window).decisions == Ideal(events, limit, window)
            && Agree(Entries(RunMem(events, limit, window).windows, key),
                     Admitted(events, Ideal(events, limit, window), key), last.now - window)
  {
    hide MemStep, Agree, After, Entries, Admitted, RunMem, Ideal, Calls;
    var before, last := events[..|events| - 1], events[|events| - 1];
    var mem, ideal := RunMem(before, limit, window), Ideal(before, limit, window);
    LastOfRun(events, limit, window);
    StepCalls(mem.windows, before, ideal, last, limit, window, key);
    StepAgrees(mem.windows, Admitted(before, ideal, key), last, limit, window, key, last.now - window);
    assert ideal == Ideal(events, limit, window)[..|events| - 1];
    AdmittedLast(events, Ideal(events, limit, window), key);
  }

  /** The decision of one step is the one that the history calls for. */
  lemma StepCalls(windows: Windows, events: seq<Event>, decisions: seq<bool>, e: Event, limit: int, window: int,
                  key: string)
    requires |events| == |decisions|
    requires Agree(Entries(windows, e.Key(key)), Admitted(events, decisions, e.Key(key)), e.now - window)
    ensures MemStep(windows, e, limit, window).1 == Calls(events, decisions, e, limit, window)
    ensures MemStep(windows, e, limit, window).1 ==> e.Request?
  {
    hide Agree, After, Entries, Admitted, MemStep;
    StepDecides(windows, Admitted(events, decisions, e.Key(key)), e, limit, window, e.now - window);
  }

  lemma EmptyAdmitted(key: string)
    ensures Admitted([], [], key) == []
  {
  }

  lemma TimelyFront(events: seq<Event>)
    requires Timely(events) && events != []
    ensures var before, now := events[..|events| - 1], events[|events| - 1].now;
            Timely(before) && LastTime(before, now) <= now
  {
  }

  lemma TimelyAppend(events: seq<Event>, e: Event)
    requires Timely(events) && LastTime(events, e.now) <= e.now
    ensures Timely(events + [e])
  {
  }

  lemma EmptyAgrees(key: string, from: int)
    ensures Agree(Entries(map[], key), [], from)
  {
  }

  lemma AgreeLater(entries: seq<int>, history: seq<int>, from: int, later: int)
    requires Agree(entries, history, from) && later >= from
    ensures Agree(entries, history, later)
  {
  }

  /** The decision of one step depends on the history alone. */
  lemma StepDecides(windows: Windows, history: seq<int>, e: Event, limit: int, window: int, from: int)
    requires e.Request? ==> Agree(Entries(windows, e.key), history, from) && e.now - window >= from
    ensures MemStep(windows, e, limit, window).1 <==> e.Request? && |After(history, e.now - window)| < limit
  {
  }

  // ----- What the decisions amount to -----

  /** The limiter's admissions of one key. */
  function MemAdmitted(events: seq<Event>, limit: int, window: int, key: string): seq<int> {
    Admitted(events, RunMem(events, limit, window).decisions, key)
  }

  predicate LastAdmitted(events: seq<Event>, limit: int, window: int)
    requires events != []
  {
    RunMem(events, limit, window).decisions[|events| - 1]
  }

  lemma MemAdmittedAppend(events: seq<Event>, e: Event, limit: int, window: int, key: string)
    ensures MemAdmitted(events + [e], limit, window, key) ==
            if LastAdmitted(events + [e], limit, window) && e.Request? && e.key == key
            then MemAdmitted(events, limit, window, key) + [e.now]
            else MemAdmitted(events, limit, window, key)
  {
    var all := events + [e];
    assert all[..|events|] == events;
    AdmittedAppend(events, RunMem(events, limit, window).decisions, e, LastAdmitted(all, limit, window), key);
  }

  /** A request is admitted exactly when fewer than `limit` earlier admissions of its key lie
      in the window before it, counted in the full history. */
  lemma AdmitsIffRoom(events: seq<Event>, e: Event, limit: int, window: int)
    requires Timely(events + [e]) && window > 0 && e.Request?
    ensures LastAdmitted(events + [e], limit, window)
            <==> |After(MemAdmitted(events, limit, window, e.key), e.now - window)| < limit
  {
    hide After, RunMem, Ideal, Admitted;
    var all := events + [e];
    assert all[..|all| - 1] == events;
    TimelyFront(all);
    hide Timely;
    MemIsIdeal(events, limit, window, e.key, LastTime(events, e.now));
    MemIsIdeal(all, limit, window, e.key, e.now);
    LastOfRun(all, limit, window);
  }

  /** No window of any length-`window` span ever holds more than `limit` admissions of a key. */
  lemma {:induction false} NeverOverLimit(events: seq<Event>, limit: int, window: int, key: string)
    requires Timely(events) && window > 0 && limit >= 0
    ensures WithinLimit(MemAdmitted(events, limit, window, key), limit, window)
  {
    hide Sorted, UpTo, After, RunMem, Timely, LastAdmitted;
    if events != [] {
      var before, last := events[..|events| - 1], events[|events| - 1];
      TimelyFront(events);
      NeverOverLimit(before, limit, window, key);
      assert events == before + [last];
      MemAdmittedAppend(before, last, limit, window, key);
      if last.Request? && last.key == key {
        AdmitsIffRoom(before, last, limit, window);
        AdmittedTimes(before, RunMem(before, limit, window).decisions, key, last.now);
        AdmitIff(MemAdmitted(before, limit, window, key), last.now, limit, window);
      }
    }
  }

  function WithoutCleans(events: seq<Event>): seq<Event> {
    if events == [] then []
    else
      var last := events[|events| - 1];
      WithoutCleans(events[..|events| - 1]) + if last.Request? then [last] else []
  }

  lemma {:induction false} WithoutCleansTimely(events: seq<Event>, t: int)
    requires Timely(events) && LastTime(events, t) <= t
    ensures Timely(WithoutCleans(events)) && LastTime(WithoutCleans(events), t) <= t
  {
    if events != [] {
      WithoutCleansTimely(events[..|events| - 1], events[|events| - 1].now);
    }
  }

  /** Cleaning passes, wherever they fall, change no later decision. */
  lemma {:induction false} CleaningIsInvisible(events: seq<Event>, limit: int, window: int, key: string)
    requires Timely(events) && window > 0
    ensures MemAdmitted(events, limit, window, key) == MemAdmitted(WithoutCleans(events), limit, window, key)
  {
    hide After, RunMem, Timely, LastAdmitted;
    if events != [] {
      var before, last := events[..|events| - 1], events[|events| - 1];
      var bare := WithoutCleans(before);
      TimelyFront(events);
      CleaningIsInvisible(before, limit, window, key);
      assert events == before + [last];
      MemAdmittedAppend(before, last, limit, window, key);
      if last.Request? {
        CleaningIsInvisible(before, limit, window, last.key);
        WithoutCleansTimely(before, last.now);
        TimelyAppend(bare, last);
        AdmitsIffRoom(before, last, limit, window);
        AdmitsIffRoom(bare, last, limit, window);
        assert (bare + [last])[..|bare|] == bare;
        MemAdmittedAppend(bare, last, limit, window, key);
      } else {
        assert WithoutCleans(events) == bare;
      }
    }
  }

  // ----- Nobody does better -----

  /** `fast` is never behind `slow`: at least as many admissions, each no later. */
  ghost predicate Ahead(fast: seq<int>, slow: seq<int>) {
    |slow| <= |fast| && forall i :: 0 <= i < |slow| ==> fast[i] <= slow[i]
  }

  lemma AheadTail(fast: seq<int>, slow: seq<int>, cutoff: int)
    requires Ahead(fast, slow) && |fast| == |slow| && Sorted(fast) && Sorted(slow)
    ensures |After(fast, cutoff)| <= |After(slow, cutoff)|
  {
    AfterIsTail(fast, cutoff);
    AfterIsTail(slow, cutoff);
    if |After(fast, cutoff)| > 0 {
      var i := |fast| - |After(fast, cutoff)|;
      assert cutoff < fast[i] <= slow[i];
    }
  }

  /** A policy that keeps within the limit cannot admit where the limiter, not behind it,
      refuses and would fall behind. */
  lemma RefusalIsForced(fast: seq<int>, slow: seq<int>, now: int, limit: nat, window: int)
    requires Ahead(fast, slow) && Sorted(fast) && Sorted(slow) && UpTo(slow, now) && UpTo(fast, now) && window > 0
    requires |After(fast, now - window)| >= limit
    requires WithinLimit(slow + [now], limit, window)
    ensures |slow| < |fast|
  {
    var cutoff := now - window;
    InWindowAppend(slow, now, now, window);
    WindowIsAfter(slow, now, window);
    assert InWindow(slow + [now], now, window) <= limit;
    if |slow| == |fast| {
      AheadTail(fast, slow, cutoff);
    }
  }

  lemma WithinLimitPrefix(times: seq<int>, x: int, limit: int, window: int)
    requires WithinLimit(times + [x], limit, window)
    ensures WithinLimit(times, limit, window)
  {
    forall t ensures InWindow(times, t, window) <= limit {
      InWindowAppend(times, x, t, window);
      assert InWindow(times + [x], t, window) <= limit;
    }
  }

  lemma EmptyAhead()
    ensures Ahead([], [])
  {
  }

  lemma AheadStep(fast: seq<int>, slow: seq<int>, now: int, admits: bool, policyAdmits: bool)
    requires Ahead(fast, slow) && UpTo(fast, now)
    requires policyAdmits && !admits ==> |slow| < |fast|
    ensures Ahead(if admits then fast + [now] else fast, if policyAdmits then slow + [now] else slow)
  {
  }

  lemma GreedyStep(before: seq<Event>, policy: seq<bool>, e: Event, p: bool, limit: nat, window: int, key: string)
    requires Timely(before + [e]) && Timely(before) && LastTime(before, e.now) <= e.now && window > 0
    requires |policy| == |before|
    requires WithinLimit(Admitted(before + [e], policy + [p], key), limit, window)
    requires Ahead(MemAdmitted(before, limit, window, key), Admitted(before, policy, key))
    ensures Ahead(MemAdmitted(before + [e], limit, window, key), Admitted(before + [e], policy + [p], key))
  {
    hide WithinLimit, Sorted, UpTo, After, Ahead, RunMem, Timely, LastAdmitted, Admitted;
    var fast, slow := MemAdmitted(before, limit, window, key), Admitted(before, policy, key);
    AdmittedAppend(before, policy, e, p, key);
    MemAdmittedAppend(before, e, limit, window, key);
    if e.Request? && e.key == key {
      AdmitsIffRoom(before, e, limit, window);
      AdmittedTimes(before, policy, key, e.now);
      AdmittedTimes(before, RunMem(before, limit, window).decisions, key, e.now);
      if p && |After(fast, e.now - window)| >= limit {
        RefusalIsForced(fast, slow, e.now, limit, window);
      }
      AheadStep(fast, slow, e.now, LastAdmitted(before + [e], limit, window), p);
    }
  }

  lemma WithinLimitBefore(before: seq<Event>, policy: seq<bool>, e: Event, p: bool, limit: nat, window: int,
                          key: string)
    requires |policy| == |before| && WithinLimit(Admitted(before + [e], policy + [p], key), limit, window)
    ensures WithinLimit(Admitted(before, policy, key), limit, window)
  {
    hide WithinLimit, Admitted;
    AdmittedAppend(before, policy, e, p, key);
    if p && e.Request? && e.key == key {
      WithinLimitPrefix(Admitted(before, policy, key), e.now, limit, window);
    }
  }

  /** The limiter is never behind any policy that keeps within the limit. */
  lemma {:induction false} GreedyStaysAhead(events: seq<Event>, policy: seq<bool>, limit: nat, window: int, key: string)
    requires Timely(events) && window > 0 && |policy| == |events|
    requires WithinLimit(Admitted(events, policy, key), limit, window)
    ensures Ahead(MemAdmitted(events, limit, window, key), Admitted(events, policy, key))
  {
    if events == [] {
      EmptyAhead();
    } else {
      hide WithinLimit, Ahead, MemAdmitted, Timely, Admitted;
      var n := |events| - 1;
      assert events == events[..n] + [events[n]] && policy == policy[..n] + [policy[n]];
      TimelyFront(events);
      WithinLimitBefore(events[..n], policy[..n], events[n], policy[n], limit, window, key);
      GreedyStaysAhead(events[..n], policy[..n], limit, window, key);
      GreedyStep(events[..n], policy[..n], events[n], policy[n], limit, window, key);
    }
  }

  /** No admission policy that keeps at most `limit` admissions of a key in every window
      admits more of its requests than the limiter does. */
  lemma GreedyIsOptimal(events: seq<Event>, policy: seq<bool>, limit: nat, window: int, key: string)
    requires Timely(events) && window > 0 && |policy| == |events|
    requires WithinLimit(Admitted(events, policy, key), limit, window)
    ensures |Admitted(events, policy, key)| <= |MemAdmitted(events, limit, window, key)|
    ensures WithinLimit(MemAdmitted(events, limit, window, key), limit, window)
  {
    GreedyStaysAhead(events, policy, limit, window, key);
    NeverOverLimit(events, limit, window, key);
  }
}
