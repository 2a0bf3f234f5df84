/** Concurrent calls of `writeToConn`, interleaved at each of their atomic actions. */
module Backpressure {
  import opened Basics

  /** The largest count with which a write still goes ahead. */
  const MAX_PENDING_WRITES := 100

  /** Where a call is: counted but not yet compared, writing, giving up, or returned. */
  datatype Phase = Counted | Writing | Dropping | Returned(dropped: bool)

  /** `pending` is what the call's own increment of the target's counter returned. */
  datatype Call = Call(target: string, pending: int, phase: Phase)

  datatype State = State(counters: map<string, int>, calls: map<nat, Call>)

  const IDLE := State(map[], map[])

  datatype Step =
    | Enter(call: nat, target: string)
    | Check(call: nat)
    | Leave(call: nat)

  function Counter(s: State, target: string): int {
    if target in s.counters then s.counters[target] else 0
  }

  /** The order of one call's own actions; the calls may interleave in any way. */
  predicate Enabled(s: State, e: Step) {
    match e
    case Enter(c, _) => c !in s.calls
    case Check(c) => c in s.calls && s.calls[c].phase.Counted?
    case Leave(c) => c in s.calls && (s.calls[c].phase.Writing? || s.calls[c].phase.Dropping?)
  }

  function Apply(s: State, e: Step): State
    requires Enabled(s, e)
  {
    match e
    case Enter(c, target) =>
      var pending := Counter(s, target) + 1;
      State(s.counters[target := pending], s.calls[c := Call(target, pending, Counted)])
    case Check(c) =>
      var phase := if s.calls[c].pending > MAX_PENDING_WRITES then Dropping else Writing;
      s.(calls := s.calls[c := s.calls[c].(phase := phase)])
    case Leave(c) =>
      var call := s.calls[c];
      State(s.counters[call.target := Counter(s, call.target) - 1],
            s.calls[c := call.(phase := Returned(call.phase.Dropping?))])
  }

  ghost predicate Legal(steps: seq<Step>)
    decreases |steps|, 0
  {
    steps == [] ||
    (var before := steps[..|steps| - 1];
     Legal(before) && Enabled(Run(before), steps[|steps| - 1]))
  }

  ghost function Run(steps: seq<Step>): State
    requires Legal(steps)
    decreases |steps|, 1
  {
    if steps == [] then IDLE else Apply(Run(steps[..|steps| - 1]), steps[|steps| - 1])
  }

  /** The calls on `target` that have been counted and have not returned. */
  ghost function InFlight(s: State, target: string): set<nat> {
    set c | c in s.calls && s.calls[c].target == target && !s.calls[c].phase.Returned?
  }

  /** The calls on `target` that write, or are about to. */
  ghost function Admitted(s: State, target: string): set<nat> {
    set c | c in InFlight(s, target) && s.calls[c].pending <= MAX_PENDING_WRITES
  }

  /** The calls on `target` that are past the check and write. */
  ghost function Writers(s: State, target: string): set<nat> {
    set c | c in InFlight(s, target) && s.calls[c].phase.Writing?
  }

  ghost predicate PhaseOk(call: Call) {
    match call.phase
    case Counted => true
    case Writing => call.pending <= MAX_PENDING_WRITES
    case Dropping => call.pending > MAX_PENDING_WRITES
    case Returned(dropped) => dropped <==> call.pending > MAX_PENDING_WRITES
  }

  /** The counter of a target is the number of its calls in flight, of which no more are let
      through than the limit. */
  ghost predicate TargetOk(s: State, t: string) {
    Counter(s, t) == |InFlight(s, t)| && |Admitted(s, t)| <= MAX_PENDING_WRITES
  }

  ghost predicate Inv(s: State) {
    && (forall t :: TargetOk(s, t))
    && (forall c :: c in s.calls ==> PhaseOk(s.calls[c]))
  }

  /** What each step does to the two sets of a target. */
  lemma StepSets(s: State, e: Step, t: string)
    requires Enabled(s, e)
    ensures var after := Apply(s, e);
            match e
            case Enter(c, target) =>
              if t == target then
                && c !in InFlight(s, t) && InFlight(after, t) == InFlight(s, t) + {c}
                && Admitted(after, t) == Admitted(s, t) + if Counter(s, t) < MAX_PENDING_WRITES then {c} else {}
              else InFlight(after, t) == InFlight(s, t) && Admitted(after, t) == Admitted(s, t)
            case Check(c) => InFlight(after, t) == InFlight(s, t) && Admitted(after, t) == Admitted(s, t)
            case Leave(c) =>
              && InFlight(after, t) == InFlight(s, t) - {c} && Admitted(after, t) == Admitted(s, t) - {c}
              && (c in InFlight(s, t) <==> s.calls[c].target == t)
  {
  }

  lemma AdmittedInFlight(s: State, t: string)
    ensures |Admitted(s, t)| <= |InFlight(s, t)|
    ensures |Writers(s, t)| <= |InFlight(s, t)|
  {
    SubsetSize(Admitted(s, t), InFlight(s, t));
    SubsetSize(Writers(s, t), InFlight(s, t));
  }

  lemma StepCounter(s: State, e: Step, t: string)
    requires Enabled(s, e)
    ensures Counter(Apply(s, e), t) == Counter(s, t) + match e
                                                       case Enter(_, target) => if t == target then 1 else 0
                                                       case Check(_) => 0
                                                       case Leave(c) => if t == s.calls[c].target then -1 else 0
  {
  }

  lemma StepKeepsTarget(s: State, e: Step, t: string)
    requires Enabled(s, e) && TargetOk(s, t)
    ensures TargetOk(Apply(s, e), t)
  {
    StepSets(s, e, t);
    StepCounter(s, e, t);
    hide InFlight, Admitted, Apply, Counter;
    AdmittedInFlight(s, t);
    if e.Leave? {
      SubsetSize(Admitted(Apply(s, e), t), Admitted(s, t));
    }
  }

  lemma StepKeepsPhases(s: State, e: Step)
    requires Enabled(s, e) && forall c :: c in s.calls ==> PhaseOk(s.calls[c])
    ensures forall c :: c in Apply(s, e).calls ==> PhaseOk(Apply(s, e).calls[c])
  {
  }

  lemma StepKeepsInv(s: State, e: Step)
    requires Inv(s) && Enabled(s, e)
    ensures Inv(Apply(s, e))
  {
    hide Apply, PhaseOk, Enabled, TargetOk;
    StepKeepsPhases(s, e);
    forall t ensures TargetOk(Apply(s, e), t) {
      StepKeepsTarget(s, e, t);
    }
  }

  lemma {:induction false} RunKeepsInv(steps: seq<Step>)
    requires Legal(steps)
    ensures Inv(Run(steps))
  {
    if steps != [] {
      RunKeepsInv(steps[..|steps| - 1]);
      StepKeepsInv(Run(steps[..|steps| - 1]), steps[|steps| - 1]);
    } else {
      forall t ensures TargetOk(IDLE, t) {
        assert Admitted(IDLE, t) == {} && InFlight(IDLE, t) == {};
      }
    }
  }

  /** Under any interleaving, the counter of a target is the number of its calls in flight,
      and at most a hundred of them ever write. */
  lemma CounterIsInFlight(steps: seq<Step>, target: string)
    requires Legal(steps)
    ensures Counter(Run(steps), target) == |InFlight(Run(steps), target)|
    ensures |Writers(Run(steps), target)| <= 100
  {
    RunKeepsInv(steps);
    var s := Run(steps);
    assert TargetOk(s, target) && forall c :: c in s.calls ==> PhaseOk(s.calls[c]);
    SubsetSize(Writers(s, target), Admitted(s, target));
  }

  /** Once every call has returned, every counter is back at zero. */
  lemma DrainsToZero(steps: seq<Step>, target: string)
    requires Legal(steps)
    requires forall c :: c in Run(steps).calls ==> Run(steps).calls[c].phase.Returned?
    ensures Counter(Run(steps), target) == 0
  {
    RunKeepsInv(steps);
    assert TargetOk(Run(steps), target) && InFlight(Run(steps), target) == {};
  }

  // ----- Which frames are dropped -----

  /** The call has compared its count and gave up, whether or not it has returned since. */
  predicate Dropped(call: Call) {
    call.phase.Dropping? || (call.phase.Returned? && call.phase.dropped)
  }

  lemma LegalPrefix(steps: seq<Step>, n: nat)
    requires Legal(steps) && n <= |steps|
    ensures Legal(steps[..n])
  {
    if n < |steps| {
      assert steps[..|steps| - 1][..n] == steps[..n];
      LegalPrefix(steps[..|steps| - 1], n);
    } else {
      assert steps[..n] == steps;
    }
  }

  /** A call keeps its target and the count that it was given. */
  lemma {:induction false} RunKeepsCall(steps: seq<Step>, n: nat, c: nat)
    requires Legal(steps) && n <= |steps| && Legal(steps[..n]) && c in Run(steps[..n]).calls
    ensures c in Run(steps).calls
    ensures Run(steps).calls[c].(phase := Counted) == Run(steps[..n]).calls[c].(phase := Counted)
  {
    if n < |steps| {
      var before := steps[..|steps| - 1];
      assert before[..n] == steps[..n];
      RunKeepsCall(before, n, c);
    } else {
      assert steps[..n] == steps;
    }
  }

  /** A call that has compared its count drops its frame exactly when at least a hundred
      other calls on the same target were in flight at the moment it was counted. */
  lemma DropsIffCrowded(steps: seq<Step>, i: nat, c: nat, target: string)
    requires Legal(steps) && i < |steps| && steps[i] == Enter(c, target) && Legal(steps[..i])
    ensures c in Run(steps).calls
    ensures var call := Run(steps).calls[c];
            && call.target == target
            && (!call.phase.Counted? ==>
                  (Dropped(call) <==> |InFlight(Run(steps[..i]), target)| >= 100))
  {
    LegalPrefix(steps, i + 1);
    assert steps[..i + 1][..i] == steps[..i];
    RunKeepsInv(steps[..i]);
    RunKeepsInv(steps);
    RunKeepsCall(steps, i + 1, c);
    assert TargetOk(Run(steps[..i]), target);
    assert PhaseOk(Run(steps).calls[c]);
  }

  // ----- The counter counts the calls that give up, too -----

  /** `n` calls, all counted and none compared yet. */
  function Crowd(n: nat, target: string): (steps: seq<Step>)
    ensures |steps| == n
  {
    if n == 0 then [] else Crowd(n - 1, target) + [Enter(n - 1, target)]
  }

  /** The calls 0 to n - 1 are counted, in this order, and nothing else is going on. */
  ghost predicate Gathered(s: State, n: nat, target: string) {
    && Counter(s, target) == n
    && (forall c: nat :: c in s.calls <==> c < n)
    && (forall c :: c in s.calls ==> s.calls[c] == Call(target, c + 1, Counted))
  }

  lemma OneMoreGathers(s: State, n: nat, target: string)
    requires Gathered(s, n, target)
    ensures Enabled(s, Enter(n, target)) && Gathered(Apply(s, Enter(n, target)), n + 1, target)
  {
  }

  lemma {:induction false} CrowdGathers(n: nat, target: string)
    ensures Legal(Crowd(n, target)) && Gathered(Run(Crowd(n, target)), n, target)
  {
    hide Gathered, Legal, Run, Apply, Enabled;
    if n == 0 {
      NobodyGathers(target);
    } else {
      CrowdGathers(n - 1, target);
      OneMoreGathers(Run(Crowd(n - 1, target)), n - 1, target);
      Then(Crowd(n - 1, target), Enter(n - 1, target));
    }
  }

  lemma NobodyGathers(target: string)
    ensures Legal([]) && Gathered(Run([]), 0, target)
  {
  }

  lemma Then(steps: seq<Step>, e: Step)
    requires Legal(steps) && Enabled(Run(steps), e)
    ensures Legal(steps + [e]) && Run(steps + [e]) == Apply(Run(steps), e)
  {
    assert (steps + [e])[..|steps|] == steps;
  }

  /** A frame can be dropped while fewer than a hundred writes are under way: a call that is
      giving up still occupies a place until it returns. */
  lemma DroppedWithRoom(target: string) returns (steps: seq<Step>, c: nat)
    ensures Legal(steps) && steps != [] && steps[|steps| - 1] == Check(c) && c in Run(steps).calls
    ensures Run(steps).calls[c].target == target && Dropped(Run(steps).calls[c])
    ensures |Admitted(Run(steps), target)| < 100
  {
    var n := MAX_PENDING_WRITES;
    CrowdGathers(n + 1, target);
    var s1 := Crowd(n + 1, target);
    Then(s1, Check(0));
    var s2 := s1 + [Check(0)];
    Then(s2, Leave(0));
    var s3 := s2 + [Leave(0)];
    Then(s3, Enter(n + 1, target));
    var s4 := s3 + [Enter(n + 1, target)];
    c := n + 1;
    Then(s4, Check(c));
    steps := s4 + [Check(c)];
    RunKeepsInv(s2);
    assert TargetOk(Run(s2), target);
    StepSets(Run(s2), Leave(0), target);
    StepSets(Run(s3), Enter(c, target), target);
    StepSets(Run(s4), Check(c), target);
    assert 0 in Admitted(Run(s2), target);
    assert Admitted(Run(steps), target) == Admitted(Run(s2), target) - {0};
  }
}
