/** Usernames as the protocol accepts them. */
module Protocol {

  predicate IsAlnum(c: char) {
    'a' <= c <= 'z' || '0' <= c <= '9'
  }

  /** Three to thirty-two characters: letters, digits and inner hyphens. */
  predicate IsValidUsername(u: string) {
    && 3 <= |u| <= 32
    && IsAlnum(u[0]) && IsAlnum(u[|u| - 1])
    && forall i :: 0 < i < |u| - 1 ==> IsAlnum(u[i]) || u[i] == '-'
  }
}

/** The table that says which install owns a username. */
module Registry {
  import opened Protocol

  predicate MayRegister(table: map<string, string>, username: string, install: string) {
    username in table ==> table[username] == install
  }

  /** One row per username; each method runs under one lock. */
  class Registry {
    var table: map<string, string>

    constructor ()
      ensures table == map[]
    {
      table := map[];
    }

    method CanRegister(username: string, install: string) returns (ok: bool)
      ensures ok <==> IsValidUsername(username) && MayRegister(table, username, install)
    {
      if !IsValidUsername(username) {
        return false;
      }
      if username !in table {
        return true;
      }
      return table[username] == install;
    }

    /** Takes a free username, or confirms one that is already the caller's. */
    method Register(username: string, install: string) returns (ok: bool)
      modifies this
      ensures ok <==> IsValidUsername(username) && MayRegister(old(table), username, install)
      ensures table == if ok then old(table)[username := install] else old(table)
    {
      if !IsValidUsername(username) {
        return false;
      }
      if username in table {
        if table[username] != install {
          return false;
        }
        return true;
      }
      table := table[username := install];
      return true;
    }

    method IsRegistered(username: string) returns (ok: bool)
      ensures ok <==> username in table
    {
      ok := username in table;
    }

    method Delete(username: string) returns (ok: bool)
      modifies this
      ensures ok <==> username in old(table)
      ensures table == old(table) - {username}
    {
      ok := username in table;
      table := table - {username};
    }
  }
}

/** Registrations that interleave. Checking, taking the username and becoming the waiting
    server are three separate critical sections of each call; between any two of them, waiting
    servers may leave or be paired. */
module RegistryRuns {
  import opened Protocol
  import opened Registry

  datatype Phase = Begun | Checked | Owner | Waiting | Refused

  datatype Call = Call(username: string, install: string, phase: Phase)

  /** `evictions` pairs a call whose server was dropped with the call that took its place. */
  datatype State = State(
    table: map<string, string>,
    calls: map<string, Call>,
    waiting: map<string, string>,
    evictions: seq<(string, string)>)

  const INITIAL := State(map[], map[], map[], [])

  datatype Step =
    | Begin(id: string, username: string, install: string)
    | Check(id: string)
    | Take(id: string)
    | Publish(id: string)
    | Delete(username: string)
    | Vacate(username: string)   // the waiting server leaves, or a client pairs with it

  predicate Enabled(s: State, step: Step) {
    match step
    case Begin(id, _, _) => id !in s.calls
    case Check(id) => id in s.calls && s.calls[id].phase == Begun
    case Take(id) => id in s.calls && s.calls[id].phase == Checked
    case Publish(id) => id in s.calls && s.calls[id].phase == Owner
    case Delete(_) => true
    case Vacate(_) => true
  }

  function Apply(s: State, step: Step): State
    requires Enabled(s, step)
  {
    match step
    case Begin(id, username, install) => s.(calls := s.calls[id := Call(username, install, Begun)])
    case Check(id) =>
      var call := s.calls[id];
      var ok := IsValidUsername(call.username) && MayRegister(s.table, call.username, call.install);
      s.(calls := s.calls[id := call.(phase := if ok then Checked else Refused)])
    case Take(id) =>
      var call := s.calls[id];
      if MayRegister(s.table, call.username, call.install) then
        s.(table := s.table[call.username := call.install], calls := s.calls[id := call.(phase := Owner)])
      else
        s.(calls := s.calls[id := call.(phase := Refused)])
    case Publish(id) =>
      var call := s.calls[id];
      s.(waiting := s.waiting[call.username := id],
         calls := s.calls[id := call.(phase := Waiting)],
         evictions := if call.username in s.waiting then s.evictions + [(s.waiting[call.username], id)]
                       else s.evictions)
    case Delete(username) => s.(table := s.table - {username})
    case Vacate(username) => s.(waiting := s.waiting - {username})
  }

  ghost predicate Reaches(steps: seq<Step>, s: State)
    decreases |steps|
  {
    if steps == [] then s == INITIAL
    else
      var last := steps[|steps| - 1];
      exists before: State ::
        Reaches(steps[..|steps| - 1], before) && Enabled(before, last) && s == Apply(before, last)
  }

  predicate Holds(c: Call) {
    c.phase == Owner || c.phase == Waiting
  }

  /** Whoever was let in for `u` is the owner that the table names. */
  ghost predicate OwnersAgree(s: State, u: string) {
    forall id :: id in s.calls && Holds(s.calls[id]) && s.calls[id].username == u ==>
      u in s.table && s.table[u] == s.calls[id].install
  }

  /** Each eviction replaced a server of `u` by one of the same install. */
  ghost predicate EvictionsAgree(s: State, u: string) {
    forall e :: e in s.evictions ==>
      && e.0 in s.calls && e.1 in s.calls && Holds(s.calls[e.0]) && Holds(s.calls[e.1])
      && s.calls[e.0].username == s.calls[e.1].username
      && (s.calls[e.1].username == u ==> s.calls[e.0].install == s.calls[e.1].install)
  }

  ghost predicate WaitingHolds(s: State) {
    forall v :: v in s.waiting ==>
      s.waiting[v] in s.calls && s.calls[s.waiting[v]].username == v && Holds(s.calls[s.waiting[v]])
  }

  /** A call that was let in stays in, under its username and install. */
  lemma HolderStays(s: State, step: Step, id: string)
    requires Enabled(s, step) && id in s.calls && Holds(s.calls[id])
    ensures var t := Apply(s, step);
            && id in t.calls && Holds(t.calls[id])
            && t.calls[id].username == s.calls[id].username && t.calls[id].install == s.calls[id].install
  {
  }

  lemma StepKeepsAgreement(s: State, step: Step, u: string)
    requires Enabled(s, step) && step != Delete(u) && OwnersAgree(s, u)
    ensures OwnersAgree(Apply(s, step), u)
  {
  }

  lemma StepKeepsWaiting(s: State, step: Step)
    requires Enabled(s, step) && WaitingHolds(s)
    ensures WaitingHolds(Apply(s, step))
  {
  }

  /** The eviction, if any, that a step adds. */
  lemma NewEviction(s: State, step: Step, e: (string, string))
    requires Enabled(s, step) && e in Apply(s, step).evictions && e !in s.evictions
    ensures step.Publish? && e.1 == step.id && e.1 in s.calls && s.calls[e.1].phase == Owner
    ensures s.calls[e.1].username in s.waiting && s.waiting[s.calls[e.1].username] == e.0
  {
  }

  lemma StepKeepsEvictions(s: State, step: Step, u: string)
    requires Enabled(s, step) && OwnersAgree(s, u) && EvictionsAgree(s, u) && WaitingHolds(s)
    ensures EvictionsAgree(Apply(s, step), u)
  {
    var t := Apply(s, step);
    forall e | e in t.evictions
      ensures e.0 in t.calls && e.1 in t.calls && Holds(t.calls[e.0]) && Holds(t.calls[e.1])
      ensures t.calls[e.0].username == t.calls[e.1].username
      ensures t.calls[e.1].username == u ==> t.calls[e.0].install == t.calls[e.1].install
    {
      if e !in s.evictions {
        NewEviction(s, step, e);
      }
      hide Apply;
      HolderStays(s, step, e.0);
      HolderStays(s, step, e.1);
    }
  }

  lemma StepKeepsOwners(s: State, step: Step, u: string)
    requires Enabled(s, step) && step != Delete(u)
    requires OwnersAgree(s, u) && EvictionsAgree(s, u) && WaitingHolds(s)
    ensures var t := Apply(s, step); OwnersAgree(t, u) && EvictionsAgree(t, u) && WaitingHolds(t)
  {
    hide Apply, OwnersAgree, EvictionsAgree, WaitingHolds;
    StepKeepsAgreement(s, step, u);
    StepKeepsEvictions(s, step, u);
    StepKeepsWaiting(s, step);
  }

  lemma {:induction false} RunKeepsOwners(steps: seq<Step>, s: State, u: string)
    requires Reaches(steps, s) && Delete(u) !in steps
    ensures OwnersAgree(s, u) && EvictionsAgree(s, u) && WaitingHolds(s)
    decreases |steps|
  {
    if steps != [] {
      var last := steps[|steps| - 1];
      var before: State :| Reaches(steps[..|steps| - 1], before) && Enabled(before, last) && s == Apply(before, last);
      RunKeepsOwners(steps[..|steps| - 1], before, u);
      StepKeepsOwners(before, last, u);
    }
  }

  /** However calls interleave, all that succeed for a username that is never deleted carry
      one install ID, and so do a server and the one that evicts it. */
  lemma SingleInstall(steps: seq<Step>, s: State, u: string)
    requires Reaches(steps, s) && Delete(u) !in steps
    ensures forall a, b ::
      a in s.calls && b in s.calls && Holds(s.calls[a]) && Holds(s.calls[b])
      && s.calls[a].username == s.calls[b].username == u
      ==> s.calls[a].install == s.calls[b].install
    ensures forall e ::
      e in s.evictions && e.1 in s.calls && s.calls[e.1].username == u
      ==> e.0 in s.calls && s.calls[e.0].install == s.calls[e.1].install
  {
    RunKeepsOwners(steps, s, u);
  }

  /** Passing the check is no promise: of two calls with different installs that both
      passed, the one that takes the name second is refused. */
  lemma SecondTakerRefused(s: State, a: string, b: string)
    requires a != b && Enabled(s, Take(a)) && Enabled(s, Take(b))
    requires s.calls[a].username == s.calls[b].username && s.calls[a].install != s.calls[b].install
    requires MayRegister(s.table, s.calls[a].username, s.calls[a].install)
    ensures var t := Apply(s, Take(a));
            t.calls[a].phase == Owner && Enabled(t, Take(b)) && Apply(t, Take(b)).calls[b].phase == Refused
  {
  }
}
