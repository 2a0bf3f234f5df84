/** What holds of the Redis store when keys do expire. */
module StoreExpiry {
  import opened Basics
  import opened Redis = RedisSpec
  import opened StoreRuns

  // ----- Deadlines of pairs, and the index sets -----

  /** Both halves of a pair are there, name each other and expire at the same time. */
  ghost predicate PairsOk(v: View) {
    forall a :: a in v.peers ==>
      var b := v.peers[a].value;
      b != a && b in v.peers && v.peers[b] == Timed(a, v.peers[a].deadline)
  }

  ghost predicate IndexesCover(v: View) {
    v.waiting.Keys <= v.waitingIndex && v.peers.Keys <= v.pairedIndex
  }

  /** Pairs are made of two distinct connections that have no pair. */
  ghost predicate PairsFresh(v: View, op: Op) {
    op.CreatePair? ==> op.server != op.client && op.server !in v.peers && op.client !in v.peers
  }

  ghost predicate Legal(v: View, ops: seq<Op>) {
    ops == [] ||
    (var before := ops[..|ops| - 1];
     Legal(v, before) && PairsFresh(RunRedisFrom(v, before).state, ops[|ops| - 1]))
  }

  lemma CreatePairKeepsPairs(v: View, server: string, client: string, username: string)
    requires PairsOk(v) && PairsFresh(v, CreatePair(server, client, username))
    ensures PairsOk(Redis.CreatePair(v, server, client, username))
  {
  }

  lemma GetPeerKeepsPairs(v: View, id: string)
    requires PairsOk(v)
    ensures PairsOk(Redis.GetPeer(v, id).0)
  {
  }

  lemma RemovePairKeepsPairs(v: View, id: string)
    requires PairsOk(v)
    ensures PairsOk(Redis.RemovePair(v, id).0)
  {
  }

  lemma AdvanceKeepsPairs(v: View, time: nat)
    requires PairsOk(v)
    ensures PairsOk(Advance(v, time))
  {
  }

  lemma StepKeepsPairs(v: View, op: Op)
    requires PairsOk(v) && PairsFresh(v, op)
    ensures PairsOk(RedisStep(v, op).0)
  {
    match op
    case CreatePair(server, client, username) => CreatePairKeepsPairs(v, server, client, username);
    case GetPeer(id) => GetPeerKeepsPairs(v, id);
    case RemovePair(id) => RemovePairKeepsPairs(v, id);
    case Elapse(time) => AdvanceKeepsPairs(v, time);
    case _ =>
  }

  lemma {:induction false} RunKeepsPairs(v: View, ops: seq<Op>)
    requires PairsOk(v) && Legal(v, ops)
    ensures PairsOk(RunRedisFrom(v, ops).state)
  {
    if ops != [] {
      hide PairsOk, RedisStep, PairsFresh;
      var before := ops[..|ops| - 1];
      RunKeepsPairs(v, before);
      StepKeepsPairs(RunRedisFrom(v, before).state, ops[|ops| - 1]);
    }
  }

  /** However long passes between operations, the two halves of a pair carry one deadline, so
      that neither outlives the other. */
  lemma PairsExpireTogether(ops: seq<Op>, a: string)
    requires Legal(EMPTY_VIEW, ops) && a in RunRedis(ops).state.peers
    ensures var peers := RunRedis(ops).state.peers;
            var b := peers[a].value;
            && a != b && b in peers
            && peers[b] == Timed(a, peers[a].deadline)
  {
    RunKeepsPairs(EMPTY_VIEW, ops);
  }

  lemma StepKeepsCover(v: View, op: Op)
    requires IndexesCover(v)
    ensures IndexesCover(RedisStep(v, op).0)
  {
  }

  /** The index sets always name every live key. */
  lemma {:induction false} RunKeepsCover(v: View, ops: seq<Op>)
    requires IndexesCover(v)
    ensures IndexesCover(RunRedisFrom(v, ops).state)
  {
    if ops != [] {
      hide RedisStep, IndexesCover;
      RunKeepsCover(v, ops[..|ops| - 1]);
      StepKeepsCover(RunRedisFrom(v, ops[..|ops| - 1]).state, ops[|ops| - 1]);
    }
  }

  // ----- The counts in `Stats` -----

  /** `Stats` never counts too few, and it counts the waiting servers right exactly when no
      indexed username has expired. */
  lemma StatsNeverTooFew(ops: seq<Op>)
    ensures var v := RunRedis(ops).state;
            var counts := RedisStep(v, Stats).1;
            && |v.waiting| <= counts.waiting && |v.peers| / 2 <= counts.pairs
            && (counts.waiting == |v.waiting| <==> forall u :: u in v.waitingIndex ==> u in v.waiting)
  {
    RunKeepsCover(EMPTY_VIEW, ops);
    var v := RunRedis(ops).state;
    SubsetSize(v.waiting.Keys, v.waitingIndex);
    SubsetSize(v.peers.Keys, v.pairedIndex);
    SameSize(v.waiting);
    SameSize(v.peers);
  }

  /** Time passing leaves the indexes exact exactly when it expires nothing. */
  lemma ElapseKeepsExactIff(v: View, time: nat)
    requires IndexesExact(v)
    ensures IndexesExact(Advance(v, time)) <==> ExpiresNothing(v, Elapse(time))
  {
    var after := Advance(v, time);
    if IndexesExact(after) {
      forall u | u in v.waiting ensures v.now + time < v.waiting[u].deadline {
        assert u in after.waiting;
      }
      forall id | id in v.peers ensures v.now + time < v.peers[id].deadline {
        assert id in after.peers;
      }
    }
  }

  lemma UnpairOne(v: View, a: string) returns (rest: View)
    requires PairsOk(v) && a in v.peers
    ensures PairsOk(rest) && |v.peers| == |rest.peers| + 2
  {
    var b := v.peers[a].value;
    rest := v.(peers := Without(Without(v.peers, a), b));
    assert |v.peers.Keys| == |v.peers.Keys - {a}| + 1;
    assert |v.peers.Keys - {a}| == |v.peers.Keys - {a} - {b}| + 1;
    assert rest.peers.Keys == v.peers.Keys - {a} - {b};
    SameSize(v.peers);
    SameSize(rest.peers);
  }

  /** Every live peer has a live other half. */
  lemma {:induction false} PeersAreEven(v: View)
    requires PairsOk(v)
    ensures |v.peers| % 2 == 0
    decreases |v.peers|
  {
    hide PairsOk;
    if v.peers != map[] {
      var a :| a in v.peers;
      var rest := UnpairOne(v, a);
      PeersAreEven(rest);
    }
  }

  lemma LiveAfter(v: View, time: nat)
    ensures Advance(v, time).waiting.Keys <= v.waiting.Keys && Advance(v, time).peers.Keys <= v.peers.Keys
    ensures Advance(v, time).waiting.Keys == v.waiting.Keys && Advance(v, time).peers.Keys == v.peers.Keys
            <==> ExpiresNothing(v, Elapse(time))
  {
    var after := Advance(v, time);
    if after.waiting.Keys == v.waiting.Keys && after.peers.Keys == v.peers.Keys {
      assert forall u :: u in v.waiting ==> u in after.waiting.Keys;
      assert forall id :: id in v.peers ==> id in after.peers.Keys;
    }
  }

  /** While the index sets are exact, `Stats` is right after some time has passed exactly when
      no waiting entry and no pair has reached its deadline. */
  lemma StatsExactIff(v: View, time: nat)
    requires IndexesExact(v) && PairsOk(v)
    ensures var after := Advance(v, time);
            RedisStep(after, Stats).1 == Counts(|after.waiting|, |after.peers| / 2)
            <==> ExpiresNothing(v, Elapse(time))
  {
    hide Advance, ExpiresNothing, PairsOk;
    var after := Advance(v, time);
    AdvanceKeepsPairs(v, time);
    PeersAreEven(v);
    PeersAreEven(after);
    LiveAfter(v, time);
    AdvanceKeepsIndexes(v, time);
    SubsetSize(after.waiting.Keys, v.waiting.Keys);
    SubsetSize(after.peers.Keys, v.peers.Keys);
    SameSize(v.waiting);
    SameSize(v.peers);
    SameSize(after.waiting);
    SameSize(after.peers);
  }

  /** The same at the end of any run from the empty store in which nothing has expired yet. */
  lemma StatsExactAfterRun(ops: seq<Op>, time: nat)
    requires NoExpiry(ops) && Legal(EMPTY_VIEW, ops)
    ensures var after := RunRedis(ops + [Elapse(time)]).state;
            RedisStep(after, Stats).1 == Counts(|after.waiting|, |after.peers| / 2)
            <==> NoExpiry(ops + [Elapse(time)])
  {
    hide PairsOk, IndexesExact, Advance, ExpiresNothing, NoExpiry, Legal, RunRedis, RedisStep;
    StoresHoldTheSame(ops);
    PairsOverRun(ops);
    StatsExactIff(RunRedis(ops).state, time);
    ElapseLast(ops, time);
  }

  lemma PairsOverRun(ops: seq<Op>)
    requires Legal(EMPTY_VIEW, ops)
    ensures PairsOk(RunRedis(ops).state)
  {
    RunKeepsPairs(EMPTY_VIEW, ops);
  }

  lemma ElapseLast(ops: seq<Op>, time: nat)
    ensures RunRedis(ops + [Elapse(time)]).state == Advance(RunRedis(ops).state, time)
    ensures NoExpiry(ops + [Elapse(time)]) <==> NoExpiry(ops) && ExpiresNothing(RunRedis(ops).state, Elapse(time))
  {
    hide ExpiresNothing;
    assert (ops + [Elapse(time)])[..|ops|] == ops;
  }

  lemma AdvanceKeepsIndexes(v: View, time: nat)
    ensures Advance(v, time).waitingIndex == v.waitingIndex && Advance(v, time).pairedIndex == v.pairedIndex
  {
  }

  // Over any run: which names and connections are indexed although they have expired.

  /** Whether a username has lapsed after an operation, given whether it had before: its waiting
      entry expires, and then nobody is set waiting, removed or paired under it. */
  predicate LapsedAfter(v: View, op: Op, u: string, before: bool) {
    match op
    case SetWaiting(username, _) => username != u && before
    case CreatePair(_, _, username) => username != u && before
    case RemoveWaiting(username, id) => !(username == u && u in v.waiting && v.waiting[u].value == id) && before
    case Elapse(time) => before || (u in v.waiting && v.waiting[u].deadline <= v.now + time)
    case _ => before
  }

  predicate Lapsed(ops: seq<Op>, u: string) {
    ops != [] &&
    (var n := |ops| - 1;
     LapsedAfter(RunRedis(ops[..n]).state, ops[n], u, Lapsed(ops[..n], u)))
  }

  /** The same for a connection: its peer entry expires, and then it is not paired, nor is a pair
      removed that names it. */
  predicate PeerLapsedAfter(v: View, op: Op, c: string, before: bool) {
    match op
    case CreatePair(server, client, _) => c != server && c != client && before
    case RemovePair(id) => !(id in v.peers && (c == id || c == v.peers[id].value)) && before
    case Elapse(time) => before || (c in v.peers && v.peers[c].deadline <= v.now + time)
    case _ => before
  }

  predicate PeerLapsed(ops: seq<Op>, c: string) {
    ops != [] &&
    (var n := |ops| - 1;
     PeerLapsedAfter(RunRedis(ops[..n]).state, ops[n], c, PeerLapsed(ops[..n], c)))
  }

  /** The index names what waits and what has lapsed, and nothing is both. */
  ghost predicate WaitingIndexed(v: View, u: string, lapsed: bool) {
    (u in v.waitingIndex <==> u in v.waiting || lapsed) && !(u in v.waiting && lapsed)
  }

  ghost predicate PairedIndexed(v: View, c: string, lapsed: bool) {
    (c in v.pairedIndex <==> c in v.peers || lapsed) && !(c in v.peers && lapsed)
  }

  lemma StepIndexes(v: View, op: Op, name: string, lapsed: bool)
    ensures WaitingIndexed(v, name, lapsed) ==>
              WaitingIndexed(RedisStep(v, op).0, name, LapsedAfter(v, op, name, lapsed))
    ensures PairedIndexed(v, name, lapsed) ==>
              PairedIndexed(RedisStep(v, op).0, name, PeerLapsedAfter(v, op, name, lapsed))
  {
  }

  lemma {:induction false} IndexHolds(ops: seq<Op>, name: string)
    ensures WaitingIndexed(RunRedis(ops).state, name, Lapsed(ops, name))
    ensures PairedIndexed(RunRedis(ops).state, name, PeerLapsed(ops, name))
  {
    if ops != [] {
      hide WaitingIndexed, PairedIndexed, LapsedAfter, PeerLapsedAfter, RedisStep;
      var n := |ops| - 1;
      IndexHolds(ops[..n], name);
      StepIndexes(RunRedis(ops[..n]).state, ops[n], name, Lapsed(ops[..n], name));
      StepIndexes(RunRedis(ops[..n]).state, ops[n], name, PeerLapsed(ops[..n], name));
    }
  }

  /** All names that have lapsed. */
  ghost function LapsedNames(ops: seq<Op>): set<string> {
    set u | u in RunRedis(ops).state.waitingIndex && Lapsed(ops, u)
  }

  ghost function LapsedPeers(ops: seq<Op>): set<string> {
    set c | c in RunRedis(ops).state.pairedIndex && PeerLapsed(ops, c)
  }

  lemma LapsedAreIndexed(ops: seq<Op>, name: string)
    ensures name in LapsedNames(ops) <==> Lapsed(ops, name)
    ensures name in LapsedPeers(ops) <==> PeerLapsed(ops, name)
  {
    IndexHolds(ops, name);
  }

  lemma IndexesSplit(ops: seq<Op>)
    ensures var v := RunRedis(ops).state;
            && v.waitingIndex == v.waiting.Keys + LapsedNames(ops) && v.waiting.Keys !! LapsedNames(ops)
            && v.pairedIndex == v.peers.Keys + LapsedPeers(ops) && v.peers.Keys !! LapsedPeers(ops)
  {
    var v := RunRedis(ops).state;
    hide RunRedis;
    forall name
      ensures name in v.waitingIndex <==> name in v.waiting.Keys || name in LapsedNames(ops)
      ensures name in v.waiting.Keys ==> name !in LapsedNames(ops)
      ensures name in v.pairedIndex <==> name in v.peers.Keys || name in LapsedPeers(ops)
      ensures name in v.peers.Keys ==> name !in LapsedPeers(ops)
    {
      IndexHolds(ops, name);
      LapsedAreIndexed(ops, name);
    }
  }

  lemma IndexSizes(ops: seq<Op>)
    ensures var v := RunRedis(ops).state;
            && |v.waitingIndex| == |v.waiting| + |LapsedNames(ops)|
            && |v.pairedIndex| == |v.peers| + |LapsedPeers(ops)|
  {
    var v := RunRedis(ops).state;
    IndexesSplit(ops);
    hide RunRedis, LapsedNames, LapsedPeers;
    SameSize(v.waiting);
    SameSize(v.peers);
  }

  lemma EvenHalves(a: nat, b: nat)
    requires a % 2 == 0 && a <= b
    ensures b / 2 == a / 2 <==> b <= a + 1
  {
  }

  /** Over any run, the waiting count is too high by the usernames that have lapsed; made of
      fresh pairs, the pair count is right exactly when at most one connection has lapsed. */
  lemma StatsRightIff(ops: seq<Op>)
    requires Legal(EMPTY_VIEW, ops)
    ensures var v := RunRedis(ops).state;
            var counts := RedisStep(v, Stats).1;
            && counts.waiting == |v.waiting| + |LapsedNames(ops)|
            && (counts.waiting == |v.waiting| <==> LapsedNames(ops) == {})
            && (counts.pairs == |v.peers| / 2 <==> |LapsedPeers(ops)| <= 1)
  {
    hide LapsedNames, LapsedPeers, RunRedis, PairsOk, Legal;
    var v := RunRedis(ops).state;
    PairsOverRun(ops);
    PeersAreEven(v);
    IndexSizes(ops);
    EvenHalves(|v.peers|, |v.pairedIndex|);
  }

  lemma Then(ops: seq<Op>, op: Op)
    ensures RunRedis(ops + [op]).state == RedisStep(RunRedis(ops).state, op).0
  {
    assert (ops + [op])[..|ops|] == ops;
  }

  /** Removing what has expired finds nothing, and leaves the index sets as they are. */
  lemma RemovesNothing(v: View, op: Op)
    requires v.waiting == map[] && v.peers == map[] && (op.RemovePair? || op.RemoveWaiting?)
    ensures RedisStep(v, op).0 == v
  {
  }

  lemma PairAndServer(a: string, b: string, c: string, paired: string, alone: string)
    requires a != b && paired != alone
    ensures var v := RedisStep(RedisStep(EMPTY_VIEW, CreatePair(a, b, paired)).0, SetWaiting(alone, c)).0;
            && v.waitingIndex == {alone} && v.pairedIndex == {a, b}
            && Advance(v, TTL).waiting == map[] && Advance(v, TTL).peers == map[]
  {
  }

  /** After a pair and a waiting server have expired, closing all three connections does not
      take them out of the index sets: `Stats` keeps counting what is gone. */
  lemma StatsKeepsCountingTheExpired(a: string, b: string, c: string, paired: string, alone: string)
    requires a != b && paired != alone
    ensures var ops := [CreatePair(a, b, paired)] + [SetWaiting(alone, c)] + [Elapse(TTL)]
                       + [RemovePair(a)] + [RemovePair(b)] + [RemoveWaiting(alone, c)];
            var v := RunRedis(ops).state;
            v.waiting == map[] && v.peers == map[] && RedisStep(v, Stats).1 == Counts(1, 1)
  {
    hide RunRedis;
    var ops1 := [CreatePair(a, b, paired)];
    var ops2 := ops1 + [SetWaiting(alone, c)];
    var ops3 := ops2 + [Elapse(TTL)];
    var ops4 := ops3 + [RemovePair(a)];
    var ops5 := ops4 + [RemovePair(b)];
    FirstOp(CreatePair(a, b, paired));
    Then(ops1, SetWaiting(alone, c));
    Then(ops2, Elapse(TTL));
    Then(ops3, RemovePair(a));
    Then(ops4, RemovePair(b));
    Then(ops5, RemoveWaiting(alone, c));
    PairAndServer(a, b, c, paired, alone);
    var v := RunRedis(ops3).state;
    assert v == Advance(RunRedis(ops2).state, TTL);
    hide RedisStep;
    RemovesNothing(v, RemovePair(a));
    RemovesNothing(v, RemovePair(b));
    RemovesNothing(v, RemoveWaiting(alone, c));
    OneOfEach(v, a, b, alone);
  }

  lemma FirstOp(op: Op)
    ensures RunRedis([op]).state == RedisStep(EMPTY_VIEW, op).0
  {
    Then([], op);
    assert [] + [op] == [op];
  }

  lemma OneOfEach(v: View, a: string, b: string, alone: string)
    requires a != b && v.waitingIndex == {alone} && v.pairedIndex == {a, b}
    ensures RedisStep(v, Stats).1 == Counts(1, 1)
  {
  }

  // ----- Keeping alive -----

  /** What is kept alive: a pair, or the server waiting under a username. */
  datatype Subject = Pair(a: string, b: string) | Server(username: string, id: string)

  /** The operations that renew the subject's deadline. */
  predicate Touches(x: Subject, op: Op) {
    match x
    case Pair(a, b) => op.GetPeer? && (op.id == a || op.id == b)
    case Server(username, _) => op.GetWaiting? && op.username == username
  }

  /** The operations that end the subject or start another in its place. */
  predicate Replaces(x: Subject, op: Op) {
    match x
    case Pair(a, b) =>
      || (op.CreatePair? && (op.server == a || op.server == b || op.client == a || op.client == b))
      || (op.RemovePair? && (op.id == a || op.id == b))
    case Server(username, id) =>
      || (op.SetWaiting? && op.username == username)
      || (op.CreatePair? && op.username == username)
      || (op.RemoveWaiting? && op.username == username && op.id == id)
  }

  /** How long ago the subject was last touched, counted from the start if it never was. */
  function Idle(ops: seq<Op>, x: Subject): nat {
    if ops == [] then 0
    else
      var op := ops[|ops| - 1];
      if Touches(x, op) then 0
      else Idle(ops[..|ops| - 1], x) + if op.Elapse? then op.time else 0
  }

  /** Never a whole time-to-live without a touch. */
  predicate KeptAlive(ops: seq<Op>, x: Subject) {
    ops == [] || (KeptAlive(ops[..|ops| - 1], x) && (ops[|ops| - 1].Elapse? ==> Idle(ops, x) < TTL))
  }

  /** The subject is there and expires at the given time. */
  ghost predicate Alive(v: View, x: Subject, deadline: int) {
    match x
    case Pair(a, b) =>
      && a in v.peers && b in v.peers
      && v.peers[a] == Timed(b, deadline) && v.peers[b] == Timed(a, deadline)
    case Server(username, id) => username in v.waiting && v.waiting[username] == Timed(id, deadline)
  }

  ghost predicate Gone(v: View, x: Subject) {
    match x
    case Pair(a, b) => a !in v.peers && b !in v.peers
    case Server(username, _) => username !in v.waiting
  }

  /** One operation on a subject that is there. */
  lemma StepAlive(v: View, op: Op, x: Subject, deadline: int)
    requires Alive(v, x, deadline) && !Replaces(x, op) && (x.Pair? ==> PairsOk(v) && PairsFresh(v, op))
    ensures var after := RedisStep(v, op).0;
            if op.Elapse? && deadline <= v.now + op.time then Gone(after, x)
            else Alive(after, x, if Touches(x, op) then v.now + TTL else deadline)
  {
    match op
    case GetPeer(id) => assert x.Pair? && id in v.peers ==> v.peers[id].value in v.peers;
    case RemovePair(id) => assert x.Pair? && id in v.peers ==> v.peers[id].value in v.peers;
    case _ =>
  }

  lemma StepGone(v: View, op: Op, x: Subject)
    requires Gone(v, x) && !Replaces(x, op)
    ensures Gone(RedisStep(v, op).0, x)
  {
  }

  lemma StepTime(v: View, op: Op)
    ensures RedisStep(v, op).0.now == v.now + if op.Elapse? then op.time else 0
  {
  }

  ghost predicate Undisturbed(ops: seq<Op>, x: Subject) {
    ops == [] || (Undisturbed(ops[..|ops| - 1], x) && !Replaces(x, ops[|ops| - 1]))
  }

  /** The subject is as old as its last touch, or gone if it was once left alone for too long. */
  ghost predicate AsKept(v: View, ops: seq<Op>, x: Subject) {
    if KeptAlive(ops, x) then Alive(v, x, v.now - Idle(ops, x) + TTL) else Gone(v, x)
  }

  lemma StepAsKept(v: View, ops: seq<Op>, x: Subject)
    requires ops != [] && AsKept(v, ops[..|ops| - 1], x)
    requires !Replaces(x, ops[|ops| - 1]) && (x.Pair? ==> PairsOk(v) && PairsFresh(v, ops[|ops| - 1]))
    ensures AsKept(RedisStep(v, ops[|ops| - 1]).0, ops, x)
  {
    hide PairsOk, RedisStep, PairsFresh, Alive, Gone, Replaces, Touches;
    var before, op := ops[..|ops| - 1], ops[|ops| - 1];
    StepTime(v, op);
    if KeptAlive(before, x) {
      TouchTakesNoTime(x, op);
      StepAlive(v, op, x, v.now - Idle(before, x) + TTL);
    } else {
      StepGone(v, op, x);
    }
  }

  lemma {:induction false} AliveIffTouched(v: View, ops: seq<Op>, x: Subject)
    requires Alive(v, x, v.now + TTL) && Undisturbed(ops, x) && (x.Pair? ==> PairsOk(v) && Legal(v, ops))
    ensures AsKept(RunRedisFrom(v, ops).state, ops, x)
  {
    if ops != [] {
      hide PairsOk, RedisStep, PairsFresh, Alive, Gone, Replaces, Touches, AsKept;
      var before := ops[..|ops| - 1];
      AliveIffTouched(v, before, x);
      if x.Pair? {
        RunKeepsPairs(v, before);
      }
      StepAsKept(RunRedisFrom(v, before).state, ops, x);
    }
  }

  lemma TouchTakesNoTime(x: Subject, op: Op)
    ensures Touches(x, op) ==> !op.Elapse?
  {
  }

  /** A pair survives exactly as long as one of its sides asks for its peer within every
      time-to-live. */
  lemma PairLivesIffUsed(v: View, server: string, client: string, username: string, ops: seq<Op>)
    requires PairsOk(v) && PairsFresh(v, CreatePair(server, client, username))
    requires Legal(Redis.CreatePair(v, server, client, username), ops)
    requires Undisturbed(ops, Pair(server, client))
    ensures var after := RunRedisFrom(Redis.CreatePair(v, server, client, username), ops).state;
            && (server in after.peers <==> KeptAlive(ops, Pair(server, client)))
            && (client in after.peers <==> KeptAlive(ops, Pair(server, client)))
  {
    CreatePairKeepsPairs(v, server, client, username);
    AliveIffTouched(Redis.CreatePair(v, server, client, username), ops, Pair(server, client));
  }

  /** A waiting server stays reachable exactly as long as some client asks for it within
      every time-to-live; nothing that the server does keeps it there. */
  lemma ServerWaitsIffAsked(v: View, username: string, id: string, ops: seq<Op>)
    requires Undisturbed(ops, Server(username, id))
    ensures username in RunRedisFrom(Redis.SetWaiting(v, username, id).0, ops).state.waiting
            <==> KeptAlive(ops, Server(username, id))
  {
    AliveIffTouched(Redis.SetWaiting(v, username, id).0, ops, Server(username, id));
  }
}
