/** How long a pair and a waiting server last over Redis, in terms of the relay's own steps. */
module RelayKeepAlive {
  import opened Basics
  import opened FrameCodec
  import opened RelayInvariant
  import opened RelayMachine
  import opened RelayRuns
  import opened Uuid
  import Expiry = StoreExpiry
  import On = RelayOnRedis
  import Redis = RedisSpec
  import Spec = StoreSpec
  import Stores = StoreRuns

  /** In milliseconds. */
  const FIVE_MINUTES := 5 * 60 * 1000

  /** What renews a pair, a frame of either side within the rate limit, or a waiting server, a client
      that asks for its username. */
  predicate Renews(x: Expiry.Subject, h: On.Happening) {
    h.Takes? &&
    match x
    case Pair(a, b) => h.step.Sends? && h.step.permitted && h.step.c in {a, b}
    case Server(u, _) => h.step.Connects? && h.step.username == u
  }

  /** The time since the last renewal, or since the start if there was none. */
  function Since(hs: seq<On.Happening>, x: Expiry.Subject): nat {
    if hs == [] then 0
    else
      var last := hs[|hs| - 1];
      if Renews(x, last) then 0
      else Since(hs[..|hs| - 1], x) + if last.Passes? then last.time else 0
  }

  /** Five minutes never pass without a renewal. */
  predicate Renewed(hs: seq<On.Happening>, x: Expiry.Subject) {
    hs == [] ||
    (Renewed(hs[..|hs| - 1], x) && (hs[|hs| - 1].Passes? ==> Since(hs, x) < FIVE_MINUTES))
  }

  /** The subject expires at the given time, or has expired. */
  ghost predicate Stands(v: Redis.View, x: Expiry.Subject, deadline: Option<int>) {
    match deadline
    case Some(d) => Expiry.Alive(v, x, d)
    case None => Expiry.Gone(v, x)
  }

  function Later(v: Redis.View, deadline: Option<int>, renewed: bool): Option<int> {
    if deadline.Some? && renewed then Some(v.now + Redis.TTL) else deadline
  }

  // ----- Calls on the store -----

  lemma CallStands(v: Redis.View, op: Stores.Op, x: Expiry.Subject, deadline: Option<int>)
    requires Stands(v, x, deadline) && !op.Elapse? && !Expiry.Replaces(x, op)
    requires x.Pair? ==> Expiry.PairsOk(v) && Expiry.PairsFresh(v, op)
    ensures var w := Stores.RedisStep(v, op).0;
            Stands(w, x, Later(v, deadline, Expiry.Touches(x, op))) && w.now == v.now
    ensures x.Pair? ==> Expiry.PairsOk(Stores.RedisStep(v, op).0)
  {
    hide Expiry.Alive, Expiry.Gone, Expiry.PairsOk, Stores.RedisStep, Expiry.Replaces, Expiry.PairsFresh;
    Expiry.StepTime(v, op);
    if x.Pair? {
      Expiry.StepKeepsPairs(v, op);
    }
    match deadline
    case Some(d) => Expiry.StepAlive(v, op, x, d);
    case None => Expiry.StepGone(v, op, x);
  }

  lemma TimeStands(v: Redis.View, time: nat, x: Expiry.Subject, deadline: Option<int>)
    requires Stands(v, x, deadline) && (x.Pair? ==> Expiry.PairsOk(v))
    ensures Stands(Redis.Advance(v, time), x,
                   if deadline.Some? && deadline.value <= v.now + time then None else deadline)
  {
    hide Expiry.Alive, Expiry.Gone, Expiry.PairsOk;
    match deadline
    case Some(d) => Expiry.StepAlive(v, Stores.Elapse(time), x, d);
    case None => Expiry.StepGone(v, Stores.Elapse(time), x);
  }

  // ----- Steps, for a pair -----

  /** The two have been paired in legacy mode and do not wait. */
  ghost predicate Paired(o: On.OnRedis, a: string, b: string) {
    && (forall c :: c in {a, b} ==>
          c in o.relay.info && o.relay.info[c].username != "" && !On.RoutesByGroup(o.relay.info[c]))
    && (forall u :: u in o.view.waiting ==> o.view.waiting[u].value !in {a, b})
  }

  /** What a client's request asks of the store, when its username has a server. */
  lemma ConnectCalls(o: On.OnRedis, c: string, username: string, newId: string)
    requires On.InTouch(o) && username in o.view.waiting
    ensures var w, server := Redis.GetWaiting(o.view, username).0, o.view.waiting[username].value;
            && Redis.GetWaiting(o.view, username).1 == Some(server) && w.peers == o.view.peers
            && On.Connect(o.relay, o.view, c, username, newId).view in
                 {o.view, w, Redis.RemoveWaiting(w, username, server).0, Redis.CreatePair(w, server, c, username)}
  {
    hide Redis.RemoveWaiting, Redis.CreatePair;
  }

  lemma ConnectFindsNobody(o: On.OnRedis, c: string, username: string, newId: string)
    requires username !in o.view.waiting
    ensures On.Connect(o.relay, o.view, c, username, newId).view == o.view
  {
  }

  lemma NewcomerIsNeither(o: On.OnRedis, c: string, username: string, a: string, b: string)
    requires On.AllWell(o) && Idle(o.relay, c) && Paired(o, a, b) && username in o.view.waiting
    ensures var server := o.view.waiting[username].value;
            && server !in {a, b, c} && c !in {a, b} && server !in o.view.peers && c !in o.view.peers
  {
    ServerHasNoPeer(o, username);
    RolelessIsUnplaced(o.relay, c);
  }

  lemma CallsOfConnect(v: Redis.View, server: string, c: string, username: string, a: string, b: string,
                       deadline: Option<int>)
    requires Expiry.PairsOk(v) && Stands(v, Expiry.Pair(a, b), deadline)
    requires server !in {a, b, c} && c !in {a, b} && server !in v.peers && c !in v.peers
    ensures var w := Redis.GetWaiting(v, username).0;
            && Stands(w, Expiry.Pair(a, b), deadline) && w.now == v.now
            && (var w1 := Redis.RemoveWaiting(w, username, server).0;
                Stands(w1, Expiry.Pair(a, b), deadline) && w1.now == v.now)
            && (var w2 := Redis.CreatePair(w, server, c, username);
                Stands(w2, Expiry.Pair(a, b), deadline) && w2.now == v.now)
  {
    var x, w := Expiry.Pair(a, b), Redis.GetWaiting(v, username).0;
    assert w.peers == v.peers;
    hide Stands, Expiry.PairsOk, Redis.GetWaiting, Redis.RemoveWaiting, Redis.CreatePair;
    CallStands(v, Stores.GetWaiting(username), x, deadline);
    CallStands(w, Stores.RemoveWaiting(username, server), x, deadline);
    CallStands(w, Stores.CreatePair(server, c, username), x, deadline);
  }

  lemma ConnectStands(o: On.OnRedis, c: string, username: string, newId: string, a: string, b: string,
                      deadline: Option<int>)
    requires On.AllWell(o) && Idle(o.relay, c) && Paired(o, a, b) && Stands(o.view, Expiry.Pair(a, b), deadline)
    ensures var w := On.Connect(o.relay, o.view, c, username, newId).view;
            Stands(w, Expiry.Pair(a, b), deadline) && w.now == o.view.now
  {
    WellPairs(o);
    if username in o.view.waiting {
      NewcomerIsNeither(o, c, username, a, b);
      ConnectCalls(o, c, username, newId);
      hide Stands, On.AllWell, Paired, On.Connect, Idle, Expiry.PairsOk, Redis.GetWaiting, Redis.RemoveWaiting,
           Redis.CreatePair;
      CallsOfConnect(o.view, o.view.waiting[username].value, c, username, a, b, deadline);
    } else {
      ConnectFindsNobody(o, c, username, newId);
    }
  }

  lemma ServerHasNoPeer(o: On.OnRedis, username: string)
    requires On.AllWell(o) && username in o.view.waiting
    ensures o.view.waiting[username].value !in o.view.peers
    ensures o.view.waiting[username].value in o.relay.conns
    ensures InfoOf(o.relay, o.view.waiting[username].value).username != ""
  {
    assert WaitingOk(o.relay, username);
    assert o.relay.store.waiting[username] == o.view.waiting[username].value;
  }

  lemma SendStands(o: On.OnRedis, step: Step, a: string, b: string, deadline: Option<int>)
    requires step.Sends? && Expiry.PairsOk(o.view) && Paired(o, a, b) && Stands(o.view, Expiry.Pair(a, b), deadline)
    ensures var w := On.Take(o, step).view;
            && Stands(w, Expiry.Pair(a, b), Later(o.view, deadline, Renews(Expiry.Pair(a, b), On.Takes(step))))
            && w.now == o.view.now
  {
    CallStands(o.view, Stores.GetPeer(step.c), Expiry.Pair(a, b), deadline);
    assert step.c in {a, b} ==> !On.RoutesByGroup(InfoOf(o.relay, step.c));
    hide Redis.GetPeer, Stands, Paired, Targets, Wire, Expiry.PairsOk;
  }

  lemma CloseStands(o: On.OnRedis, c: string, a: string, b: string, deadline: Option<int>)
    requires c !in {a, b} && Expiry.PairsOk(o.view) && Stands(o.view, Expiry.Pair(a, b), deadline)
    ensures var w := On.Close(o.relay, o.view, c).view; Stands(w, Expiry.Pair(a, b), deadline) && w.now == o.view.now
  {
    CallStands(o.view, Stores.RemoveWaiting(InfoOf(o.relay, c).username, c), Expiry.Pair(a, b), deadline);
    CallStands(o.view, Stores.RemovePair(c), Expiry.Pair(a, b), deadline);
    hide Redis.RemoveWaiting, Redis.RemovePair, Stands, Expiry.PairsOk;
  }

  lemma RegisterStands(o: On.OnRedis, step: Step, a: string, b: string, deadline: Option<int>)
    requires step.Registers? && Expiry.PairsOk(o.view) && Stands(o.view, Expiry.Pair(a, b), deadline)
    ensures var w := On.Take(o, step).view; Stands(w, Expiry.Pair(a, b), deadline) && w.now == o.view.now
  {
    CallStands(o.view, Stores.SetWaiting(step.username, step.c), Expiry.Pair(a, b), deadline);
    hide Redis.SetWaiting, Stands, Expiry.PairsOk;
  }

  lemma TakeStands(o: On.OnRedis, step: Step, a: string, b: string, deadline: Option<int>)
    requires On.AllWell(o) && Legal(o.relay, step) && step !in {Closes(a), Closes(b)}
    requires Paired(o, a, b) && Stands(o.view, Expiry.Pair(a, b), deadline)
    ensures var w := On.Take(o, step).view;
            && Stands(w, Expiry.Pair(a, b), Later(o.view, deadline, Renews(Expiry.Pair(a, b), On.Takes(step))))
            && w.now == o.view.now
  {
    WellPairs(o);
    hide Stands, On.AllWell, Paired, On.Connect, On.Close, Expiry.PairsOk, IsCanonical, UnusedClientId;
    match step
    case Opens(_) =>
    case Registers(_, _, _, _) => RegisterStands(o, step, a, b, deadline);
    case Connects(c, username, newId) => ConnectStands(o, c, username, newId, a, b, deadline);
    case Sends(_, _, _, _, _) => SendStands(o, step, a, b, deadline);
    case Closes(c) => CloseStands(o, c, a, b, deadline);
  }

  /** Who waits afterwards, waited before or registers. */
  ghost predicate SameWaiting(v: Redis.View, w: Redis.View, newcomer: Option<string>) {
    forall u :: u in w.waiting ==>
      || (u in v.waiting && v.waiting[u].value == w.waiting[u].value)
      || newcomer == Some(w.waiting[u].value)
  }

  lemma ConnectWaiting(o: On.OnRedis, c: string, username: string, newId: string)
    ensures SameWaiting(o.view, On.Connect(o.relay, o.view, c, username, newId).view, None)
  {
  }

  lemma CloseWaiting(o: On.OnRedis, c: string)
    ensures SameWaiting(o.view, On.Close(o.relay, o.view, c).view, None)
  {
  }

  lemma WaitingAfter(o: On.OnRedis, step: Step)
    ensures SameWaiting(o.view, On.Take(o, step).view, if step.Registers? then Some(step.c) else None)
  {
    hide On.Connect, On.Close, Targets, Wire;
    match step
    case Connects(c, username, newId) => ConnectWaiting(o, c, username, newId);
    case Closes(c) => CloseWaiting(o, c);
    case _ =>
  }

  lemma PairedRoles(o: On.OnRedis, p: On.OnRedis, newcomer: Option<string>, a: string, b: string)
    requires Paired(o, a, b) && SameWaiting(o.view, p.view, newcomer)
    requires newcomer.Some? ==> newcomer.value !in {a, b}
    requires forall c :: c in {a, b} ==> c in p.relay.info && p.relay.info[c] == o.relay.info[c]
    ensures Paired(p, a, b)
  {
  }

  lemma TakePaired(o: On.OnRedis, step: Step, a: string, b: string)
    requires On.AllWell(o) && Legal(o.relay, step) && Paired(o, a, b)
    ensures Paired(On.Take(o, step), a, b)
  {
    On.NextKeepsWell(o, On.Takes(step));
    assert step.Registers? ==> step.c !in {a, b};
    assert forall c :: c in {a, b} ==> c in o.relay.info && o.relay.info[c].username != "";
    hide On.Take, Apply, On.AllWell, Legal, Paired, SameWaiting;
    StepKeepsInfo(o.relay, step, a);
    StepKeepsInfo(o.relay, step, b);
    WaitingAfter(o, step);
    PairedRoles(o, On.Take(o, step), if step.Registers? then Some(step.c) else None, a, b);
  }

  lemma WaitPaired(o: On.OnRedis, time: nat, a: string, b: string)
    requires Paired(o, a, b)
    ensures Paired(On.Wait(o, time), a, b)
  {
  }

  // ----- Steps, for a waiting server -----

  /** The step ends the wait of `d`, or lets another server wait in its place: it closes `d`, registers
      the username again, or, in legacy mode, connects a client. */
  ghost predicate EndsWait(o: On.OnRedis, u: string, d: string, h: On.Happening) {
    h.Takes? &&
    match h.step
    case Closes(c) => c == d
    case Registers(c, username, install, multi) =>
      username == u && Register(o.relay, c, username, install, multi).1 == Registered
    case Connects(_, username, _) => username == u && !InfoOf(o.relay, d).multiClient
    case _ => false
  }

  lemma ServerFound(o: On.OnRedis, c: string, u: string, newId: string, d: string, deadline: Option<int>)
    requires On.AllWell(o) && u in o.relay.registry && Stands(o.view, Expiry.Server(u, d), deadline)
    requires InfoOf(o.relay, d).multiClient
    ensures On.Connect(o.relay, o.view, c, u, newId).view == Redis.GetWaiting(o.view, u).0
  {
    if u in o.view.waiting {
      ServerHasNoPeer(o, u);
    }
    hide On.AllWell;
  }

  lemma AskStands(o: On.OnRedis, c: string, username: string, newId: string, u: string, d: string,
                  deadline: Option<int>)
    requires On.AllWell(o) && u in o.relay.registry && Stands(o.view, Expiry.Server(u, d), deadline)
    requires username == u ==> InfoOf(o.relay, d).multiClient
    ensures var w := On.Connect(o.relay, o.view, c, username, newId).view;
            Stands(w, Expiry.Server(u, d), Later(o.view, deadline, username == u)) && w.now == o.view.now
  {
    var x, v := Expiry.Server(u, d), o.view;
    WellInTouch(o);
    if username == u {
      ServerFound(o, c, u, newId, d, deadline);
      hide Stands, On.AllWell, On.Connect, Redis.GetWaiting;
      CallStands(v, Stores.GetWaiting(u), x, deadline);
    } else if username in v.waiting {
      ConnectCalls(o, c, username, newId);
      hide Stands, On.AllWell, On.Connect, Redis.GetWaiting, Redis.RemoveWaiting, Redis.CreatePair;
      CallStands(v, Stores.GetWaiting(username), x, deadline);
      var w, server := Redis.GetWaiting(v, username).0, v.waiting[username].value;
      CallStands(w, Stores.RemoveWaiting(username, server), x, deadline);
      CallStands(w, Stores.CreatePair(server, c, username), x, deadline);
    } else {
      ConnectFindsNobody(o, c, username, newId);
    }
  }

  lemma WellInTouch(o: On.OnRedis)
    requires On.AllWell(o)
    ensures On.InTouch(o)
  {
  }

  lemma RegisterServerStands(o: On.OnRedis, step: Step, u: string, d: string, deadline: Option<int>)
    requires step.Registers? && !EndsWait(o, u, d, On.Takes(step)) && Stands(o.view, Expiry.Server(u, d), deadline)
    ensures var w := On.Take(o, step).view; Stands(w, Expiry.Server(u, d), deadline) && w.now == o.view.now
  {
    if step.username != u {
      CallStands(o.view, Stores.SetWaiting(step.username, step.c), Expiry.Server(u, d), deadline);
    }
    hide Redis.SetWaiting, Stands;
  }

  lemma SendServerStands(o: On.OnRedis, step: Step, u: string, d: string, deadline: Option<int>)
    requires step.Sends? && Stands(o.view, Expiry.Server(u, d), deadline)
    ensures var w := On.Take(o, step).view; Stands(w, Expiry.Server(u, d), deadline) && w.now == o.view.now
  {
    CallStands(o.view, Stores.GetPeer(step.c), Expiry.Server(u, d), deadline);
    hide Redis.GetPeer, Stands, Targets, Wire;
  }

  lemma CloseServerStands(o: On.OnRedis, c: string, u: string, d: string, deadline: Option<int>)
    requires c != d && Stands(o.view, Expiry.Server(u, d), deadline)
    ensures var w := On.Close(o.relay, o.view, c).view; Stands(w, Expiry.Server(u, d), deadline) && w.now == o.view.now
  {
    CallStands(o.view, Stores.RemoveWaiting(InfoOf(o.relay, c).username, c), Expiry.Server(u, d), deadline);
    CallStands(o.view, Stores.RemovePair(c), Expiry.Server(u, d), deadline);
    hide Redis.RemoveWaiting, Redis.RemovePair, Stands;
  }

  lemma TakeServerStands(o: On.OnRedis, step: Step, u: string, d: string, deadline: Option<int>)
    requires On.AllWell(o) && !EndsWait(o, u, d, On.Takes(step))
    requires u in o.relay.registry && Stands(o.view, Expiry.Server(u, d), deadline)
    ensures var w := On.Take(o, step).view;
            && Stands(w, Expiry.Server(u, d), Later(o.view, deadline, Renews(Expiry.Server(u, d), On.Takes(step))))
            && w.now == o.view.now
  {
    hide Stands, On.AllWell, On.Connect, On.Close, Register;
    match step
    case Opens(_) =>
    case Registers(_, _, _, _) => RegisterServerStands(o, step, u, d, deadline);
    case Connects(c, username, newId) => AskStands(o, c, username, newId, u, d, deadline);
    case Sends(_, _, _, _, _) => SendServerStands(o, step, u, d, deadline);
    case Closes(c) => CloseServerStands(o, c, u, d, deadline);
  }

  // ----- Runs -----

  function DeadlineOf(v: Redis.View, hs: seq<On.Happening>, x: Expiry.Subject): Option<int> {
    if Renewed(hs, x) then Some(v.now - Since(hs, x) + FIVE_MINUTES) else None
  }

  lemma NextDeadline(v: Redis.View, hs: seq<On.Happening>, h: On.Happening, x: Expiry.Subject)
    ensures var w := v.(now := v.now + if h.Passes? then h.time else 0);
            var before := DeadlineOf(v, hs, x);
            DeadlineOf(w, hs + [h], x) ==
            if h.Passes? then (if before.Some? && before.value <= v.now + h.time then None else before)
            else Later(v, before, Renews(x, h))
  {
    assert (hs + [h])[..|hs|] == hs;
  }

  lemma SplitLast<T>(hs: seq<T>, n: nat)
    requires n < |hs|
    ensures hs[..|hs| - 1][n..] + [hs[|hs| - 1]] == hs[n..] && hs[..|hs| - 1][..n] == hs[..n]
  {
  }

  lemma RunFront(hs: seq<On.Happening>)
    requires On.LegalOn(hs) && hs != []
    ensures var before, last := hs[..|hs| - 1], hs[|hs| - 1];
            && On.LegalOn(before) && (last.Takes? ==> Legal(On.RunOn(before).relay, last.step))
            && On.RunOn(hs) == On.Next(On.RunOn(before), last)
  {
    hide On.Next, Legal;
  }

  lemma {:induction false} PairAfter(hs: seq<On.Happening>, n: nat, a: string, b: string)
    requires On.LegalOn(hs) && n <= |hs|
    requires Paired(On.RunOn(hs[..n]), a, b)
    requires Expiry.Alive(On.RunOn(hs[..n]).view, Expiry.Pair(a, b), On.RunOn(hs[..n]).view.now + FIVE_MINUTES)
    requires On.Takes(Closes(a)) !in hs[n..] && On.Takes(Closes(b)) !in hs[n..]
    ensures Paired(On.RunOn(hs), a, b)
    ensures Stands(On.RunOn(hs).view, Expiry.Pair(a, b), DeadlineOf(On.RunOn(hs).view, hs[n..], Expiry.Pair(a, b)))
  {
    hide Paired, Stands, DeadlineOf, On.Next, On.AllWell, Legal, Expiry.Alive, On.RunOn, On.LegalOn;
    if n == |hs| {
      assert hs[..n] == hs && hs[n..] == [];
      StandsAtFirst(On.RunOn(hs).view, Expiry.Pair(a, b));
    } else {
      var before, last := hs[..|hs| - 1], hs[|hs| - 1];
      SplitLast(hs, n);
      RunFront(hs);
      PairAfter(before, n, a, b);
      On.RunOnIsSound(before);
      PairNext(On.RunOn(before), before[n..], last, a, b);
    }
  }

  lemma StandsAtFirst(v: Redis.View, x: Expiry.Subject)
    requires Expiry.Alive(v, x, v.now + FIVE_MINUTES)
    ensures Stands(v, x, DeadlineOf(v, [], x))
  {
  }

  lemma PairNext(o: On.OnRedis, hs: seq<On.Happening>, h: On.Happening, a: string, b: string)
    requires On.AllWell(o) && (h.Takes? ==> Legal(o.relay, h.step)) && h !in {On.Takes(Closes(a)), On.Takes(Closes(b))}
    requires Paired(o, a, b) && Stands(o.view, Expiry.Pair(a, b), DeadlineOf(o.view, hs, Expiry.Pair(a, b)))
    ensures Paired(On.Next(o, h), a, b)
    ensures Stands(On.Next(o, h).view, Expiry.Pair(a, b), DeadlineOf(On.Next(o, h).view, hs + [h], Expiry.Pair(a, b)))
  {
    var x := Expiry.Pair(a, b);
    NextDeadline(o.view, hs, h, x);
    DeadlineByTime(o.view.(now := o.view.now + if h.Passes? then h.time else 0), On.Next(o, h).view, hs + [h], x);
    WellPairs(o);
    hide Paired, Stands, DeadlineOf, On.Take, Redis.Advance, On.AllWell, Legal, Expiry.PairsOk, Renews;
    match h
    case Takes(step) =>
      TakeStands(o, step, a, b, DeadlineOf(o.view, hs, x));
      TakePaired(o, step, a, b);
    case Passes(time) =>
      TimeStands(o.view, time, x, DeadlineOf(o.view, hs, x));
      WaitPaired(o, time, a, b);
  }

  lemma WellPairs(o: On.OnRedis)
    requires On.AllWell(o)
    ensures Expiry.PairsOk(o.view)
  {
  }

  /** Only the time matters. */
  lemma DeadlineByTime(v: Redis.View, w: Redis.View, hs: seq<On.Happening>, x: Expiry.Subject)
    ensures v.now == w.now ==> DeadlineOf(v, hs, x) == DeadlineOf(w, hs, x)
  {
  }

  /** A legacy pair lasts exactly as long as one of its sides sends a frame within the rate limit in
      every five minutes. */
  lemma PairLivesIffSent(hs: seq<On.Happening>, n: nat, a: string, b: string)
    requires On.LegalOn(hs) && 0 < n <= |hs|
    requires a !in On.RunOn(hs[..n - 1]).relay.store.peers
    requires var peers := On.RunOn(hs[..n]).relay.store.peers; a in peers && peers[a] == b
    requires On.Takes(Closes(a)) !in hs[n..] && On.Takes(Closes(b)) !in hs[n..]
    ensures var peers := On.RunOn(hs).relay.store.peers;
            && (a in peers <==> Renewed(hs[n..], Expiry.Pair(a, b)))
            && (b in peers <==> Renewed(hs[n..], Expiry.Pair(a, b)))
            && (a in peers ==> peers[a] == b && peers[b] == a)
  {
    hide On.Next, On.AllWell, Legal, Stands, Paired, Expiry.Alive, DeadlineOf;
    assert hs[..n][..n - 1] == hs[..n - 1];
    LegalPrefix(hs, n);
    On.RunOnIsSound(hs[..n - 1]);
    On.RunOnIsSound(hs[..n]);
    On.RunOnIsSound(hs);
    FreshPair(On.RunOn(hs[..n - 1]), hs[n - 1], a, b);
    PairAfter(hs, n, a, b);
    StandsInStore(On.RunOn(hs), a, b, DeadlineOf(On.RunOn(hs).view, hs[n..], Expiry.Pair(a, b)));
    DeadlineIffRenewed(On.RunOn(hs).view, hs[n..], Expiry.Pair(a, b));
  }

  lemma DeadlineIffRenewed(v: Redis.View, hs: seq<On.Happening>, x: Expiry.Subject)
    ensures DeadlineOf(v, hs, x).Some? <==> Renewed(hs, x)
  {
  }

  lemma {:induction false} LegalPrefix(hs: seq<On.Happening>, n: nat)
    requires On.LegalOn(hs) && n <= |hs|
    ensures On.LegalOn(hs[..n])
  {
    if n == |hs| {
      assert hs[..n] == hs;
    } else {
      assert hs[..|hs| - 1][..n] == hs[..n];
      LegalPrefix(hs[..|hs| - 1], n);
    }
  }

  lemma StandsInStore(o: On.OnRedis, a: string, b: string, deadline: Option<int>)
    requires On.AllWell(o) && Stands(o.view, Expiry.Pair(a, b), deadline)
    ensures var peers := o.relay.store.peers;
            && (a in peers <==> deadline.Some?) && (b in peers <==> deadline.Some?)
            && (deadline.Some? ==> peers[a] == b && peers[b] == a)
  {
  }

  /** A pair that was not there before the step has five minutes. */
  lemma FreshPair(o: On.OnRedis, h: On.Happening, a: string, b: string)
    requires On.AllWell(o) && (h.Takes? ==> Legal(o.relay, h.step)) && a !in o.relay.store.peers
    requires var p := On.Next(o, h); a in p.relay.store.peers && p.relay.store.peers[a] == b
    ensures var p := On.Next(o, h);
            && Paired(p, a, b)
            && Expiry.Alive(p.view, Expiry.Pair(a, b), p.view.now + FIVE_MINUTES)
  {
    On.NextKeepsWell(o, h);
    hide On.Next, Paired, Legal, On.AllWell, Expiry.Alive;
    PairedPeople(On.Next(o, h), a, b);
    WellPeers(o, a);
    WellPeers(On.Next(o, h), a);
    PairsAfter(o, h, a);
  }

  lemma PairedPeople(o: On.OnRedis, a: string, b: string)
    requires On.AllWell(o) && a in o.relay.store.peers && o.relay.store.peers[a] == b
    ensures Paired(o, a, b)
  {
    assert PeerOk(o.relay, a) && PeerOk(o.relay, b);
    forall u | u in o.view.waiting ensures o.view.waiting[u].value !in {a, b} {
      ServerHasNoPeer(o, u);
    }
  }

  lemma NoNewPairs(o: On.OnRedis, h: On.Happening)
    requires h.Takes? ==> !h.step.Connects?
    ensures On.Next(o, h).view.peers.Keys <= o.view.peers.Keys
  {
  }

  /** Only a client that gets through makes a pair, and gives both halves five minutes. */
  lemma CreatedPair(v: Redis.View, server: string, client: string, username: string, a: string)
    requires server != client && a !in v.peers
    ensures var w := Redis.CreatePair(v, server, client, username);
            a in w.peers ==> Expiry.Alive(w, Expiry.Pair(a, w.peers[a].value), w.now + FIVE_MINUTES)
  {
  }

  lemma NewPair(o: On.OnRedis, c: string, username: string, newId: string, a: string)
    requires On.AllWell(o) && Idle(o.relay, c) && a !in o.view.peers
    ensures var w := On.Connect(o.relay, o.view, c, username, newId).view;
            a in w.peers ==> Expiry.Alive(w, Expiry.Pair(a, w.peers[a].value), w.now + FIVE_MINUTES)
  {
    WellInTouch(o);
    if username in o.view.waiting {
      ServerHasNoPeer(o, username);
      ConnectCalls(o, c, username, newId);
      var w, server := Redis.GetWaiting(o.view, username).0, o.view.waiting[username].value;
      assert Redis.RemoveWaiting(w, username, server).0.peers == w.peers;
      hide On.AllWell, On.Connect, Redis.GetWaiting, Redis.RemoveWaiting, Redis.CreatePair, Expiry.Alive;
      CreatedPair(w, server, c, username, a);
    } else {
      ConnectFindsNobody(o, c, username, newId);
    }
  }

  lemma PairsAfter(o: On.OnRedis, h: On.Happening, a: string)
    requires On.AllWell(o) && (h.Takes? ==> Legal(o.relay, h.step)) && a !in o.view.peers
    ensures var p := On.Next(o, h);
            a in p.view.peers ==> Expiry.Alive(p.view, Expiry.Pair(a, p.view.peers[a].value), p.view.now + FIVE_MINUTES)
  {
    hide Expiry.Alive, On.AllWell, On.Connect, IsCanonical, UnusedClientId;
    if h.Takes? && h.step.Connects? {
      NewPair(o, h.step.c, h.step.username, h.step.newId, a);
    } else {
      NoNewPairs(o, h);
    }
  }

  lemma WellPeers(o: On.OnRedis, a: string)
    requires On.AllWell(o)
    ensures a in o.relay.store.peers <==> a in o.view.peers
    ensures a in o.view.peers ==> o.relay.store.peers[a] == o.view.peers[a].value
  {
  }

  // ----- Runs, for a waiting server -----

  /** Nothing after the first `n` happenings ends the wait. */
  ghost predicate Undisturbed(hs: seq<On.Happening>, n: nat, u: string, d: string) {
    |hs| <= n ||
    (Undisturbed(hs[..|hs| - 1], n, u, d) && !EndsWait(On.RunOn(hs[..|hs| - 1]), u, d, hs[|hs| - 1]))
  }

  lemma ServerNext(o: On.OnRedis, hs: seq<On.Happening>, h: On.Happening, u: string, d: string)
    requires On.AllWell(o) && (h.Takes? ==> Legal(o.relay, h.step)) && !EndsWait(o, u, d, h)
    requires u in o.relay.registry
    requires Stands(o.view, Expiry.Server(u, d), DeadlineOf(o.view, hs, Expiry.Server(u, d)))
    ensures u in On.Next(o, h).relay.registry
    ensures Stands(On.Next(o, h).view, Expiry.Server(u, d),
                   DeadlineOf(On.Next(o, h).view, hs + [h], Expiry.Server(u, d)))
  {
    var x := Expiry.Server(u, d);
    NextDeadline(o.view, hs, h, x);
    DeadlineByTime(o.view.(now := o.view.now + if h.Passes? then h.time else 0), On.Next(o, h).view, hs + [h], x);
    On.NextKeepsWell(o, h);
    hide Stands, DeadlineOf, On.Take, Redis.Advance, On.AllWell, Legal, EndsWait;
    match h
    case Takes(step) =>
      TakeServerStands(o, step, u, d, DeadlineOf(o.view, hs, x));
      StepKeepsOwner(o.relay, step, u);
    case Passes(time) => TimeStands(o.view, time, x, DeadlineOf(o.view, hs, x));
  }

  lemma {:induction false} ServerAfter(hs: seq<On.Happening>, n: nat, u: string, d: string)
    requires On.LegalOn(hs) && n <= |hs| && u in On.RunOn(hs[..n]).relay.registry && Undisturbed(hs, n, u, d)
    requires Expiry.Alive(On.RunOn(hs[..n]).view, Expiry.Server(u, d), On.RunOn(hs[..n]).view.now + FIVE_MINUTES)
    ensures u in On.RunOn(hs).relay.registry
    ensures Stands(On.RunOn(hs).view, Expiry.Server(u, d), DeadlineOf(On.RunOn(hs).view, hs[n..], Expiry.Server(u, d)))
  {
    hide Stands, DeadlineOf, On.Next, On.AllWell, Legal, Expiry.Alive, EndsWait, On.RunOn, On.LegalOn, Undisturbed;
    if n == |hs| {
      assert hs[..n] == hs && hs[n..] == [];
      StandsAtFirst(On.RunOn(hs).view, Expiry.Server(u, d));
    } else {
      var before, last := hs[..|hs| - 1], hs[|hs| - 1];
      SplitLast(hs, n);
      RunFront(hs);
      UndisturbedFront(hs, n, u, d);
      ServerAfter(before, n, u, d);
      On.RunOnIsSound(before);
      ServerNext(On.RunOn(before), before[n..], last, u, d);
    }
  }

  lemma UndisturbedFront(hs: seq<On.Happening>, n: nat, u: string, d: string)
    requires Undisturbed(hs, n, u, d) && n < |hs|
    ensures Undisturbed(hs[..|hs| - 1], n, u, d) && !EndsWait(On.RunOn(hs[..|hs| - 1]), u, d, hs[|hs| - 1])
  {
    hide EndsWait, On.RunOn;
  }

  /** A server that has registered waits, until it is closed, replaced or paired, exactly as long as a
      client asks for its username in every five minutes. */
  lemma ServerWaitsIffAskedFor(hs: seq<On.Happening>, n: nat, u: string, d: string)
    requires On.LegalOn(hs) && 0 < n <= |hs| && Undisturbed(hs, n, u, d)
    requires hs[n - 1].Takes? && hs[n - 1].step.Registers? && hs[n - 1].step.c == d && hs[n - 1].step.username == u
    requires Succeeds(On.RunOn(hs[..n - 1]).relay, hs[n - 1].step)
    ensures u in On.RunOn(hs).relay.store.waiting <==> Renewed(hs[n..], Expiry.Server(u, d))
    ensures u in On.RunOn(hs).relay.store.waiting ==> On.RunOn(hs).relay.store.waiting[u] == d
  {
    hide On.Next, On.AllWell, Legal, Stands, Expiry.Alive, DeadlineOf, Undisturbed, Succeeds;
    assert hs[..n][..n - 1] == hs[..n - 1];
    FreshServer(On.RunOn(hs[..n - 1]), hs[n - 1].step);
    ServerAfter(hs, n, u, d);
    On.RunOnIsSound(hs);
    ServerInStore(On.RunOn(hs), u, d, DeadlineOf(On.RunOn(hs).view, hs[n..], Expiry.Server(u, d)));
    DeadlineIffRenewed(On.RunOn(hs).view, hs[n..], Expiry.Server(u, d));
  }

  lemma FreshServer(o: On.OnRedis, step: Step)
    requires step.Registers? && Succeeds(o.relay, step)
    ensures var p := On.Next(o, On.Takes(step));
            && step.username in p.relay.registry
            && Expiry.Alive(p.view, Expiry.Server(step.username, step.c), p.view.now + FIVE_MINUTES)
  {
  }

  lemma ServerInStore(o: On.OnRedis, u: string, d: string, deadline: Option<int>)
    requires On.AllWell(o) && Stands(o.view, Expiry.Server(u, d), deadline)
    ensures u in o.relay.store.waiting <==> deadline.Some?
    ensures deadline.Some? ==> o.relay.store.waiting[u] == d
  {
  }
}
