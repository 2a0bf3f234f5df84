/** The two stores side by side, over whole runs, with and without expiry. */
module StoreRuns {
  import opened Basics
  import Mem = StoreSpec
  import Redis = RedisSpec

  /** The operations of the `Store` interface, and time passing. */
  datatype Op =
    | SetWaiting(username: string, id: string)
    | GetWaiting(username: string)
    | RemoveWaiting(username: string, id: string)
    | CreatePair(server: string, client: string, username: string)
    | GetPeer(id: string)
    | RemovePair(id: string)
    | IsPaired(id: string)
    | IsWaiting(username: string)
    | Stats
    | GetWaitingUsernames
    | Elapse(time: nat)

  /** What the caller sees; the order of listed names is left open, as in Go and Redis. */
  datatype Answer =
    | Done
    | Evicted(id: string)
    | Found(found: Option<string>)
    | Truth(holds: bool)
    | Counts(waiting: nat, pairs: nat)
    | Names(names: set<string>)

  function Read(m: map<string, string>, key: string): Option<string> {
    if key in m then Some(m[key]) else None
  }

  /** The in-memory store has no notion of time. */
  function MemStep(s: Mem.Store, op: Op): (Mem.Store, Answer) {
    match op
    case SetWaiting(username, id) => var (t, evicted) := Mem.SetWaiting(s, username, id); (t, Evicted(evicted))
    case GetWaiting(username) => (s, Found(Read(s.waiting, username)))
    case RemoveWaiting(username, id) => var (t, removed) := Mem.RemoveWaiting(s, username, id); (t, Truth(removed))
    case CreatePair(server, client, username) => (Mem.CreatePair(s, server, client, username), Done)
    case GetPeer(id) => (s, Found(Read(s.peers, id)))
    case RemovePair(id) => var (t, found) := Mem.RemovePair(s, id); (t, Found(found))
    case IsPaired(id) => (s, Truth(id in s.peers))
    case IsWaiting(username) => (s, Truth(username in s.waiting))
    case Stats => (s, Counts(|s.waiting|, |s.peers| / 2))
    case GetWaitingUsernames => (s, Names(s.waiting.Keys))
    case Elapse(_) => (s, Done)
  }

  function RedisStep(v: Redis.View, op: Op): (Redis.View, Answer) {
    match op
    case SetWaiting(username, id) => var (w, evicted) := Redis.SetWaiting(v, username, id); (w, Evicted(evicted))
    case GetWaiting(username) => var (w, found) := Redis.GetWaiting(v, username); (w, Found(found))
    case RemoveWaiting(username, id) => var (w, removed) := Redis.RemoveWaiting(v, username, id); (w, Truth(removed))
    case CreatePair(server, client, username) => (Redis.CreatePair(v, server, client, username), Done)
    case GetPeer(id) => var (w, found) := Redis.GetPeer(v, id); (w, Found(found))
    case RemovePair(id) => var (w, found) := Redis.RemovePair(v, id); (w, Found(found))
    case IsPaired(id) => (v, Truth(id in v.peers))
    case IsWaiting(username) => (v, Truth(username in v.waiting))
    case Stats => (v, Counts(|v.waitingIndex|, |v.pairedIndex| / 2))
    case GetWaitingUsernames => (v, Names(v.waitingIndex))
    case Elapse(time) => (Redis.Advance(v, time), Done)
  }

  datatype Outcome<S> = Outcome(state: S, answers: seq<Answer>)

  function RunMem(ops: seq<Op>): (r: Outcome<Mem.Store>)
    ensures |r.answers| == |ops|
  {
    if ops == [] then Outcome(Mem.EMPTY_STORE, [])
    else
      var before := RunMem(ops[..|ops| - 1]);
      var (s, answer) := MemStep(before.state, ops[|ops| - 1]);
      Outcome(s, before.answers + [answer])
  }

  function RunRedisFrom(v: Redis.View, ops: seq<Op>): (r: Outcome<Redis.View>)
    ensures |r.answers| == |ops|
  {
    if ops == [] then Outcome(v, [])
    else
      var before := RunRedisFrom(v, ops[..|ops| - 1]);
      var (w, answer) := RedisStep(before.state, ops[|ops| - 1]);
      Outcome(w, before.answers + [answer])
  }

  function RunRedis(ops: seq<Op>): Outcome<Redis.View> {
    RunRedisFrom(Redis.EMPTY_VIEW, ops)
  }

  // ----- Simulation -----

  function Values(m: map<string, Redis.Timed>): (r: map<string, string>)
    ensures r.Keys == m.Keys
  {
    map key | key in m :: m[key].value
  }

  /** The live part of the Redis store, without deadlines and indexes. */
  function Live(v: Redis.View): Mem.Store {
    Mem.Store(Values(v.waiting), Values(v.peers))
  }

  ghost predicate IndexesExact(v: Redis.View) {
    v.waitingIndex == v.waiting.Keys && v.pairedIndex == v.peers.Keys
  }

  /** Time that passes without a live key reaching its deadline. */
  ghost predicate ExpiresNothing(v: Redis.View, op: Op) {
    op.Elapse? ==>
      && (forall u :: u in v.waiting ==> v.now + op.time < v.waiting[u].deadline)
      && (forall id :: id in v.peers ==> v.now + op.time < v.peers[id].deadline)
  }

  /** Where the two stores answer differently although they hold the same: removing a waiting
      entry that is not there under the empty connection ID, and removing a pair whose peer
      is the empty connection ID. */
  predicate Differs(s: Mem.Store, op: Op) {
    || (op.RemoveWaiting? && op.id == "" && op.username !in s.waiting)
    || (op.RemovePair? && op.id in s.peers && s.peers[op.id] == "")
  }

  lemma ValuesUpdate(m: map<string, Redis.Timed>, key: string, value: string, deadline: int)
    ensures Values(m[key := Redis.Timed(value, deadline)]) == Values(m)[key := value]
    ensures Values(Redis.Refresh(m, key, deadline)) == Values(m)
    ensures Values(Without(m, key)) == Without(Values(m), key)
    ensures Redis.Value(m, key) == Read(Values(m), key)
  {
  }

  /** Every operation does to the live part of the Redis store what it does to memory. */
  lemma LiveStep(v: Redis.View, op: Op)
    requires !op.Elapse?
    ensures Live(RedisStep(v, op).0) == MemStep(Live(v), op).0
  {
    hide Values;
    match op
    case SetWaiting(username, id) => ValuesUpdate(v.waiting, username, id, v.now + Redis.TTL);
    case GetWaiting(username) => ValuesUpdate(v.waiting, username, "", v.now + Redis.TTL);
    case RemoveWaiting(username, id) => RemoveWaitingLive(v, username, id);
    case CreatePair(server, client, username) => CreatePairLive(v, server, client, username);
    case GetPeer(id) => GetPeerLive(v, id);
    case RemovePair(id) => RemovePairLive(v, id);
    case _ =>
  }

  lemma CreatePairLive(v: Redis.View, server: string, client: string, username: string)
    ensures Live(Redis.CreatePair(v, server, client, username)) == Mem.CreatePair(Live(v), server, client, username)
  {
    hide Values;
    ValuesUpdate(v.waiting, username, "", 0);
    ValuesUpdate(v.peers, server, client, v.now + Redis.TTL);
    ValuesUpdate(v.peers[server := Redis.Timed(client, v.now + Redis.TTL)], client, server, v.now + Redis.TTL);
  }

  lemma GetPeerLive(v: Redis.View, id: string)
    ensures Live(Redis.GetPeer(v, id).0) == Live(v)
  {
    hide Values, Redis.Refresh;
    if id in v.peers {
      ValuesUpdate(v.peers, id, "", v.now + Redis.TTL);
      ValuesUpdate(Redis.Refresh(v.peers, id, v.now + Redis.TTL), v.peers[id].value, "", v.now + Redis.TTL);
    }
  }

  lemma RemovePairLive(v: Redis.View, id: string)
    ensures Live(Redis.RemovePair(v, id).0) == Mem.RemovePair(Live(v), id).0
  {
    hide Values;
    if id in v.peers {
      ValuesUpdate(v.peers, id, "", 0);
      ValuesUpdate(Without(v.peers, id), v.peers[id].value, "", 0);
    }
  }

  lemma RemoveWaitingLive(v: Redis.View, username: string, id: string)
    ensures Live(Redis.RemoveWaiting(v, username, id).0) == Mem.RemoveWaiting(Live(v), username, id).0
    ensures Redis.RemoveWaiting(v, username, id).1
            <==> Mem.RemoveWaiting(Live(v), username, id).1 && !Differs(Live(v), RemoveWaiting(username, id))
  {
    ValuesUpdate(v.waiting, username, id, 0);
    if username !in v.waiting {
      assert Without(Values(v.waiting), username) == Values(v.waiting);
    }
  }

  /** Two stores that hold the same answer the same, except where `Differs` says so. */
  lemma AnswersAgreeIff(v: Redis.View, op: Op)
    requires !op.Elapse? && (op.Stats? || op.GetWaitingUsernames? ==> IndexesExact(v))
    ensures RedisStep(v, op).1 == MemStep(Live(v), op).1 <==> !Differs(Live(v), op)
  {
    match op
    case RemoveWaiting(username, id) => RemoveWaitingLive(v, username, id);
    case Stats =>
      SameSize(v.waiting);
      SameSize(v.peers);
    case _ =>
  }

  lemma SameSize(m: map<string, Redis.Timed>)
    ensures |Values(m)| == |m| && |m.Keys| == |m|
  {
    assert |Values(m)| == |Values(m).Keys|;
    assert |m| == |m.Keys|;
  }

  lemma StepKeepsIndexesExact(v: Redis.View, op: Op)
    requires IndexesExact(v) && ExpiresNothing(v, op)
    ensures IndexesExact(RedisStep(v, op).0)
  {
  }

  lemma NothingExpired(v: Redis.View, op: Op)
    requires op.Elapse? && ExpiresNothing(v, op)
    ensures RedisStep(v, op).0.waiting == v.waiting && RedisStep(v, op).0.peers == v.peers
  {
  }

  /** A run in which no live key reaches its deadline. */
  ghost predicate NoExpiry(ops: seq<Op>) {
    ops == [] ||
    (var before := ops[..|ops| - 1];
     NoExpiry(before) && ExpiresNothing(RunRedis(before).state, ops[|ops| - 1]))
  }

  /** Without expiry, the two stores hold the same after any run, whatever the IDs are, and
      the index sets name exactly the live keys. */
  lemma {:induction false} StoresHoldTheSame(ops: seq<Op>)
    requires NoExpiry(ops)
    ensures Live(RunRedis(ops).state) == RunMem(ops).state
    ensures IndexesExact(RunRedis(ops).state)
  {
    if ops != [] {
      hide MemStep, RedisStep, IndexesExact, ExpiresNothing, Live;
      var before, op := ops[..|ops| - 1], ops[|ops| - 1];
      StoresHoldTheSame(before);
      var v := RunRedis(before).state;
      StepKeepsIndexesExact(v, op);
      if op.Elapse? {
        ElapseAgrees(v, op);
      } else {
        LiveStep(v, op);
      }
    } else {
      assert Live(Redis.EMPTY_VIEW) == Mem.EMPTY_STORE;
    }
  }

  lemma ElapseAgrees(v: Redis.View, op: Op)
    requires op.Elapse? && ExpiresNothing(v, op)
    ensures Live(RedisStep(v, op).0) == MemStep(Live(v), op).0
    ensures RedisStep(v, op).1 == MemStep(Live(v), op).1
  {
    NothingExpired(v, op);
  }

  /** The next answer after such a run is the same exactly when `Differs` does not apply. */
  lemma NextAnswerAgreesIff(ops: seq<Op>, op: Op)
    requires NoExpiry(ops) && !op.Elapse?
    ensures RedisStep(RunRedis(ops).state, op).1 == MemStep(RunMem(ops).state, op).1
            <==> !Differs(RunMem(ops).state, op)
  {
    StoresHoldTheSame(ops);
    AnswersAgreeIff(RunRedis(ops).state, op);
  }

  /** Connection IDs are never empty. */
  predicate Named(op: Op) {
    match op
    case SetWaiting(_, id) => id != ""
    case RemoveWaiting(_, id) => id != ""
    case CreatePair(server, client, _) => server != "" && client != ""
    case _ => true
  }

  ghost predicate NoEmptyPeer(s: Mem.Store) {
    forall id :: id in s.peers ==> s.peers[id] != ""
  }

  lemma {:induction false} RunKeepsNoEmptyPeer(ops: seq<Op>)
    requires forall op :: op in ops ==> Named(op)
    ensures NoEmptyPeer(RunMem(ops).state)
  {
    if ops != [] {
      RunKeepsNoEmptyPeer(ops[..|ops| - 1]);
      assert Named(ops[|ops| - 1]);
    }
  }

  /** With non-empty connection IDs and no expiry, a caller cannot tell the stores apart. */
  lemma {:induction false} StoresAnswerTheSame(ops: seq<Op>)
    requires NoExpiry(ops) && forall op :: op in ops ==> Named(op)
    ensures RunRedis(ops).answers == RunMem(ops).answers
  {
    if ops != [] {
      var before, op := ops[..|ops| - 1], ops[|ops| - 1];
      hide MemStep, RedisStep, IndexesExact, ExpiresNothing, Live;
      StoresAnswerTheSame(before);
      StoresHoldTheSame(before);
      if op.Elapse? {
        ElapseAgrees(RunRedis(before).state, op);
      } else {
        RunKeepsNoEmptyPeer(before);
        assert Named(op);
        NextAnswerAgreesIff(before, op);
      }
    }
  }
}
