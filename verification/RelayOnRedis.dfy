/** The relay with the Redis store behind it: the same steps, with the answers that Redis gives. */
module RelayOnRedis {
  import opened Basics
  import opened FrameCodec
  import opened HandlerSpec
  import opened Protocol
  import opened Registry
  import opened RelayAnswers
  import opened RelayDelivery
  import opened RelayInvariant
  import opened RelayMachine
  import opened RelayRoutes
  import opened RelayRuns
  import opened RelayTheorems
  import opened Uuid
  import Expiry = StoreExpiry
  import Redis = RedisSpec
  import Spec = StoreSpec
  import Stores = StoreRuns

  /** The relay's own tables, and the keys in Redis. `relay.store` is their live part. */
  datatype OnRedis = OnRedis(relay: Relay, view: Redis.View)

  const NOTHING := OnRedis(INITIAL, Redis.EMPTY_VIEW)

  /** The relay reads its routing state from what is alive in Redis. */
  function Backed(s: Relay, v: Redis.View): OnRedis {
    OnRedis(s.(store := Stores.Live(v)), v)
  }

  ghost predicate InTouch(o: OnRedis) {
    o.relay.store == Stores.Live(o.view)
  }

  // ----- The steps, with every call that they make on the store -----

  function Register(s: Relay, v: Redis.View, c: string, username: string, install: string, multi: bool): OnRedis {
    if !IsValidUsername(username) || !MayRegister(s.registry, username, install) then OnRedis(s, v)
    else
      var (w, evicted) := Redis.SetWaiting(v, username, c);
      var conns := s.conns + {c};
      Backed(s.(registry := s.registry[username := install],
              conns := if evicted != "" then conns - {evicted} else conns,
              info := s.info[c := InfoOf(s, c).(username := username, isServer := true, multiClient := multi)]),
           w)
  }

  function Connect(s: Relay, v: Redis.View, c: string, username: string, newId: string): OnRedis {
    if username !in s.registry then OnRedis(s, v)
    else
      var (w, found) := Redis.GetWaiting(v, username);
      match found
      case None => Backed(s, w)
      case Some(server) =>
        if server !in s.conns then Backed(s, Redis.RemoveWaiting(w, username, server).0)
        else if InfoOf(s, server).multiClient then Backed(JoinGroup(s, c, username, server, newId), w)
        else
          Backed(s.(conns := s.conns + {c},
                  info := s.info[c := InfoOf(s, c).(username := username, isServer := false, clientId := "")]),
               Redis.CreatePair(w, server, c, username))
  }

  /** The sender routes by groups, not by pairs. */
  predicate RoutesByGroup(i: ConnInfo) {
    i.clientId != "" || (i.multiClient && i.username != "")
  }

  function Forward(s: Relay, v: Redis.View, c: string, msgType: MessageType, data: seq<byte>, permitted: bool,
                   slow: set<string>): OnRedis
  {
    var s1 := s.(sent := s.sent + [Sent(c, msgType, data)]);
    if !permitted then OnRedis(s1, v)
    else
      var (wireType, wireData) := Wire(InfoOf(s, c), msgType, data);
      var msg := Msg.Frame(c, wireType, wireData);
      if RoutesByGroup(InfoOf(s, c)) then
        OnRedis(s1.(log := s.log + [Event(Targets(s, c, msgType, data) - slow, msg)]), v)
      else
        var (w, found) := Redis.GetPeer(v, c);
        var targets := if found.Some? && found.value in s.conns then {found.value} else {};
        Backed(s1.(log := s.log + [Event(targets - slow, msg)]), w)
  }

  function Close(s: Relay, v: Redis.View, c: string): OnRedis {
    var i := InfoOf(s, c);
    var s1 := s.(closed := s.closed + {c});
    if i.clientId != "" && i.username in s.groups then Backed(LeaveGroup(s1, c, i), v)
    else if i.multiClient && i.username != "" && i.username in s.groups then
      Backed(Dissolve(s1, c, i), Redis.RemoveWaiting(v, i.username, c).0)
    else if i.username != "" && Redis.RemoveWaiting(v, i.username, c).1 then
      Backed(s1.(conns := s.conns - {c}), Redis.RemoveWaiting(v, i.username, c).0)
    else
      var (w, found) := Redis.RemovePair(v, c);
      Backed(s1.(conns := if found.Some? then s.conns - {c} - {found.value} else s.conns - {c}), w)
  }

  function Take(o: OnRedis, step: Step): OnRedis {
    match step
    case Opens(c) => OnRedis(Open(o.relay, c), o.view)
    case Registers(c, username, install, multi) => Register(o.relay, o.view, c, username, install, multi)
    case Connects(c, username, newId) => Connect(o.relay, o.view, c, username, newId)
    case Sends(c, msgType, data, permitted, slow) => Forward(o.relay, o.view, c, msgType, data, permitted, slow)
    case Closes(c) => Close(o.relay, o.view, c)
  }

  /** Time passes, and Redis forgets. */
  function Wait(o: OnRedis, time: nat): OnRedis {
    Backed(o.relay, Redis.Advance(o.view, time))
  }

  // ----- One step -----

  /** No connection in the store has the empty ID. */
  ghost predicate StoreNamed(store: Spec.Store) {
    && (forall u :: u in store.waiting ==> store.waiting[u] != "")
    && (forall id :: id in store.peers ==> store.peers[id] != "")
  }

  lemma SetWaitingOn(v: Redis.View, username: string, id: string)
    ensures var (w, evicted) := Redis.SetWaiting(v, username, id);
            (Stores.Live(w), evicted) == Spec.SetWaiting(Stores.Live(v), username, id)
  {
    Stores.LiveStep(v, Stores.SetWaiting(username, id));
    Stores.AnswersAgreeIff(v, Stores.SetWaiting(username, id));
  }

  lemma GetWaitingOn(v: Redis.View, username: string)
    ensures var (w, found) := Redis.GetWaiting(v, username);
            Stores.Live(w) == Stores.Live(v) && found == Stores.Read(Stores.Live(v).waiting, username)
  {
    Stores.LiveStep(v, Stores.GetWaiting(username));
    Stores.AnswersAgreeIff(v, Stores.GetWaiting(username));
  }

  lemma RemoveWaitingOn(v: Redis.View, username: string, id: string)
    requires id != ""
    ensures var (w, removed) := Redis.RemoveWaiting(v, username, id);
            (Stores.Live(w), removed) == Spec.RemoveWaiting(Stores.Live(v), username, id)
  {
    Stores.LiveStep(v, Stores.RemoveWaiting(username, id));
    Stores.AnswersAgreeIff(v, Stores.RemoveWaiting(username, id));
  }

  lemma CreatePairOn(v: Redis.View, server: string, client: string, username: string)
    ensures Stores.Live(Redis.CreatePair(v, server, client, username))
            == Spec.CreatePair(Stores.Live(v), server, client, username)
  {
    Stores.LiveStep(v, Stores.CreatePair(server, client, username));
  }

  lemma GetPeerOn(v: Redis.View, id: string)
    ensures var (w, found) := Redis.GetPeer(v, id);
            Stores.Live(w) == Stores.Live(v) && found == Stores.Read(Stores.Live(v).peers, id)
  {
    Stores.LiveStep(v, Stores.GetPeer(id));
    Stores.AnswersAgreeIff(v, Stores.GetPeer(id));
  }

  lemma RemovePairOn(v: Redis.View, id: string)
    requires StoreNamed(Stores.Live(v))
    ensures var (w, found) := Redis.RemovePair(v, id);
            (Stores.Live(w), found) == Spec.RemovePair(Stores.Live(v), id)
  {
    Stores.LiveStep(v, Stores.RemovePair(id));
    Stores.AnswersAgreeIff(v, Stores.RemovePair(id));
  }

  lemma RegisterSame(o: OnRedis, c: string, username: string, install: string, multi: bool)
    requires InTouch(o)
    ensures Register(o.relay, o.view, c, username, install, multi).relay
            == RelayMachine.Register(o.relay, c, username, install, multi).0
  {
    hide Stores.Live, Redis.SetWaiting, Spec.SetWaiting;
    SetWaitingOn(o.view, username, c);
  }

  lemma ConnectSame(o: OnRedis, c: string, username: string, newId: string)
    requires InTouch(o) && StoreNamed(o.relay.store)
    ensures Connect(o.relay, o.view, c, username, newId).relay == RelayMachine.Connect(o.relay, c, username, newId).0
  {
    hide Stores.Live, Redis.GetWaiting, Redis.RemoveWaiting, Redis.CreatePair, Spec.RemoveWaiting, Spec.CreatePair;
    GetWaitingOn(o.view, username);
    var (w, found) := Redis.GetWaiting(o.view, username);
    if found.Some? {
      RemoveWaitingOn(w, username, found.value);
      CreatePairOn(w, found.value, c, username);
    }
  }

  lemma ForwardSame(o: OnRedis, c: string, msgType: MessageType, data: seq<byte>, permitted: bool, slow: set<string>)
    requires InTouch(o)
    ensures Forward(o.relay, o.view, c, msgType, data, permitted, slow).relay
            == RelayMachine.Forward(o.relay, c, msgType, data, permitted, slow)
  {
    hide Stores.Live, Redis.GetPeer, Wire, TargetHeader;
    GetPeerOn(o.view, c);
  }

  lemma CloseSame(o: OnRedis, c: string)
    requires InTouch(o) && StoreNamed(o.relay.store) && c != ""
    ensures Close(o.relay, o.view, c).relay == RelayMachine.Close(o.relay, c).0
  {
    hide Stores.Live, Redis.RemoveWaiting, Redis.RemovePair, Spec.RemoveWaiting;
    RemoveWaitingOn(o.view, InfoOf(o.relay, c).username, c);
    RemovePairOn(o.view, c);
  }

  /** Over Redis, whatever has expired before, each step does to the relay what it does over
      memory with the same live entries. */
  lemma TakeIsApply(o: OnRedis, step: Step)
    requires InTouch(o) && StoreNamed(o.relay.store) && step.c != ""
    ensures Take(o, step).relay == Apply(o.relay, step) && InTouch(Take(o, step))
  {
    hide Register, Connect, Forward, Close, Stores.Live, StoreNamed, RelayMachine.Register, RelayMachine.Connect,
         RelayMachine.Forward, RelayMachine.Close;
    TakeInTouch(o, step);
    match step
    case Opens(_) =>
    case Registers(c, username, install, multi) => RegisterSame(o, c, username, install, multi);
    case Connects(c, username, newId) => ConnectSame(o, c, username, newId);
    case Sends(c, msgType, data, permitted, slow) => ForwardSame(o, c, msgType, data, permitted, slow);
    case Closes(c) => CloseSame(o, c);
  }

  lemma TakeInTouch(o: OnRedis, step: Step)
    requires InTouch(o)
    ensures InTouch(Take(o, step))
  {
    hide Stores.Live, Redis.SetWaiting, Redis.GetWaiting, Redis.RemoveWaiting, Redis.CreatePair, Redis.GetPeer,
         Redis.RemovePair, Wire, Targets;
  }

  // ----- What expiry does -----

  lemma LegalNamed(s: Relay, step: Step)
    requires Sound(s) && Legal(s, step)
    ensures step.c != ""
  {
    assert step.c in s.info ==> InfoOk(s, step.c);
  }

  lemma SoundNamed(s: Relay)
    requires Sound(s)
    ensures StoreNamed(s.store)
  {
    forall u | u in s.store.waiting ensures s.store.waiting[u] != "" {
      assert WaitingOk(s, u) && InfoOk(s, s.store.waiting[u]);
    }
    forall id | id in s.store.peers ensures s.store.peers[id] != "" {
      assert PeerOk(s, id) && PeerOk(s, s.store.peers[id]) && InfoOk(s, s.store.peers[id]);
    }
  }

  lemma LiveLater(v: Redis.View, time: nat)
    requires Expiry.PairsOk(v)
    ensures var s, t := Stores.Live(v), Stores.Live(Redis.Advance(v, time));
            && (forall u :: u in t.waiting ==> u in s.waiting && t.waiting[u] == s.waiting[u])
            && (forall id :: id in t.peers ==> id in s.peers && t.peers[id] == s.peers[id] && s.peers[id] in t.peers)
  {
  }

  /** Expiry leaves the tables sound: what they still say is so. */
  lemma WaitKeepsSound(o: OnRedis, time: nat)
    requires InTouch(o) && Sound(o.relay) && Expiry.PairsOk(o.view)
    ensures Sound(Wait(o, time).relay) && InTouch(Wait(o, time)) && Expiry.PairsOk(Wait(o, time).view)
  {
    LiveLater(o.view, time);
    Expiry.AdvanceKeepsPairs(o.view, time);
    hide Stores.Live, Redis.Advance;
    StoreShrinks(o.relay, Stores.Live(Redis.Advance(o.view, time)));
  }

  lemma StoreShrinks(s: Relay, store: Spec.Store)
    requires Sound(s)
    requires forall u :: u in store.waiting ==> u in s.store.waiting && store.waiting[u] == s.store.waiting[u]
    requires forall id :: id in store.peers ==>
               id in s.store.peers && store.peers[id] == s.store.peers[id] && s.store.peers[id] in store.peers
    ensures Sound(s.(store := store))
  {
    var t := s.(store := store);
    forall d | d in t.info ensures InfoOk(t, d) { assert InfoOk(s, d); }
    forall u | u in store.waiting ensures WaitingOk(t, u) { assert WaitingOk(s, u); }
    forall id | id in store.peers ensures PeerOk(t, id) { assert PeerOk(s, id); }
    forall u | u in t.groups ensures GroupOk(t, u) { GroupFrame(s, t, u); }
  }

  lemma WaitingServerLosesRole(s: Relay, store: Spec.Store, u: string)
    requires Inv(s) && u in s.store.waiting && u !in store.waiting && store.peers.Keys <= s.store.peers.Keys
    ensures !AllHaveRole(s.(store := store))
  {
    var c := s.store.waiting[u];
    assert WaitingOk(s, u);
    assert !HasRole(s.(store := store), c);
  }

  lemma PeerLosesRole(s: Relay, store: Spec.Store, id: string)
    requires Inv(s) && id in s.store.peers && id !in store.peers
    requires forall u :: u in store.waiting ==> u in s.store.waiting && store.waiting[u] == s.store.waiting[u]
    ensures !AllHaveRole(s.(store := store))
  {
    assert PeerOk(s, id);
    assert forall u :: u in s.store.waiting ==> WaitingOk(s, u);
    assert !HasRole(s.(store := store), id);
  }

  lemma SomethingExpired(v: Redis.View, time: nat)
    requires !Stores.ExpiresNothing(v, Stores.Elapse(time))
    ensures var s, t := Stores.Live(v), Stores.Live(Redis.Advance(v, time));
            (exists u :: u in s.waiting && u !in t.waiting) || (exists id :: id in s.peers && id !in t.peers)
  {
    var s, t := Stores.Live(v), Stores.Live(Redis.Advance(v, time));
    if u :| u in v.waiting && v.waiting[u].deadline <= v.now + time {
      assert u in s.waiting && u !in t.waiting;
    } else {
      var id :| id in v.peers && v.peers[id].deadline <= v.now + time;
      assert id in s.peers && id !in t.peers;
    }
  }

  lemma ExpiryBreaks(o: OnRedis, time: nat)
    requires InTouch(o) && Inv(o.relay) && Expiry.PairsOk(o.view)
    requires !Stores.ExpiresNothing(o.view, Stores.Elapse(time))
    ensures !AllHaveRole(Wait(o, time).relay)
  {
    var store := Stores.Live(Redis.Advance(o.view, time));
    LiveLater(o.view, time);
    SomethingExpired(o.view, time);
    hide Stores.ExpiresNothing, Redis.Advance, Inv, AllHaveRole, Stores.Live;
    if u :| u in o.relay.store.waiting && u !in store.waiting {
      WaitingServerLosesRole(o.relay, store, u);
    } else {
      var id :| id in o.relay.store.peers && id !in store.peers;
      PeerLosesRole(o.relay, store, id);
    }
  }

  lemma QuietWait(o: OnRedis, time: nat)
    requires InTouch(o) && Stores.ExpiresNothing(o.view, Stores.Elapse(time))
    ensures Wait(o, time).relay == o.relay
  {
    Stores.NothingExpired(o.view, Stores.Elapse(time));
  }

  /** Where the guarantees about the tables end: time that passes keeps every held connection in
      its role exactly when no waiting entry and no pair reaches its deadline. */
  lemma ExpiryBreaksIff(o: OnRedis, time: nat)
    requires InTouch(o) && Inv(o.relay) && Expiry.PairsOk(o.view)
    ensures Inv(Wait(o, time).relay) <==> Stores.ExpiresNothing(o.view, Stores.Elapse(time))
    ensures AllHaveRole(Wait(o, time).relay) <==> Stores.ExpiresNothing(o.view, Stores.Elapse(time))
  {
    hide Stores.ExpiresNothing, Wait, Sound, Stores.Live;
    if Stores.ExpiresNothing(o.view, Stores.Elapse(time)) {
      QuietWait(o, time);
    } else {
      ExpiryBreaks(o, time);
    }
  }

  // ----- Runs -----

  datatype Happening = Takes(step: Step) | Passes(time: nat)

  function Next(o: OnRedis, h: Happening): OnRedis {
    match h
    case Takes(step) => Take(o, step)
    case Passes(time) => Wait(o, time)
  }

  function RunOn(hs: seq<Happening>): OnRedis {
    if hs == [] then NOTHING else Next(RunOn(hs[..|hs| - 1]), hs[|hs| - 1])
  }

  /** The steps of a run, without the time that passes between them. */
  function StepsIn(hs: seq<Happening>): seq<Step> {
    if hs == [] then []
    else
      var last := hs[|hs| - 1];
      StepsIn(hs[..|hs| - 1]) + if last.Takes? then [last.step] else []
  }

  ghost predicate LegalOn(hs: seq<Happening>) {
    hs == [] ||
    (var before, last := hs[..|hs| - 1], hs[|hs| - 1];
     LegalOn(before) && (last.Takes? ==> Legal(RunOn(before).relay, last.step)))
  }

  /** No key reaches its deadline. */
  ghost predicate Quiet(hs: seq<Happening>) {
    hs == [] ||
    (var before, last := hs[..|hs| - 1], hs[|hs| - 1];
     Quiet(before) && (last.Passes? ==> Stores.ExpiresNothing(RunOn(before).view, Stores.Elapse(last.time))))
  }

  ghost predicate AllWell(o: OnRedis) {
    InTouch(o) && Sound(o.relay) && Expiry.PairsOk(o.view)
  }

  lemma ConnectKeepsPairs(o: OnRedis, c: string, username: string, newId: string)
    requires AllWell(o) && Idle(o.relay, c)
    ensures Expiry.PairsOk(Connect(o.relay, o.view, c, username, newId).view)
  {
    var v := o.view;
    RolelessIsUnplaced(o.relay, c);
    if username in o.relay.registry && username in v.waiting {
      var (w, found) := Redis.GetWaiting(v, username);
      assert WaitingOk(o.relay, username);
      assert Stores.Live(v).waiting[username] == v.waiting[username].value;
      assert w.peers == v.peers && Expiry.PairsOk(w);
      Expiry.CreatePairKeepsPairs(w, found.value, c, username);
    }
  }

  lemma OtherPairsStay(v: Redis.View, username: string, id: string)
    ensures Redis.SetWaiting(v, username, id).0.peers == v.peers
    ensures Redis.RemoveWaiting(v, username, id).0.peers == v.peers
  {
  }

  lemma SamePairsOk(v: Redis.View, w: Redis.View)
    requires Expiry.PairsOk(v) && w.peers == v.peers
    ensures Expiry.PairsOk(w)
  {
  }

  lemma TakeKeepsPairs(o: OnRedis, step: Step)
    requires AllWell(o) && Legal(o.relay, step)
    ensures Expiry.PairsOk(Take(o, step).view)
  {
    match step
    case Opens(_) =>
    case Registers(c, username, install, multi) =>
      OtherPairsStay(o.view, username, c);
      SamePairsOk(o.view, Register(o.relay, o.view, c, username, install, multi).view);
    case Connects(c, username, newId) => ConnectKeepsPairs(o, c, username, newId);
    case Sends(c, _, _, _, _) =>
      Expiry.GetPeerKeepsPairs(o.view, c);
      hide Redis.GetPeer, Expiry.PairsOk;
    case Closes(c) => CloseKeepsPairs(o, c);
  }

  lemma CloseKeepsPairs(o: OnRedis, c: string)
    requires Expiry.PairsOk(o.view)
    ensures Expiry.PairsOk(Close(o.relay, o.view, c).view)
  {
    Expiry.RemovePairKeepsPairs(o.view, c);
    var username := InfoOf(o.relay, c).username;
    OtherPairsStay(o.view, username, c);
    SamePairsOk(o.view, Redis.RemoveWaiting(o.view, username, c).0);
    hide Redis.RemovePair, Redis.RemoveWaiting, Expiry.PairsOk;
  }

  lemma NextKeepsWell(o: OnRedis, h: Happening)
    requires AllWell(o) && (h.Takes? ==> Legal(o.relay, h.step))
    ensures AllWell(Next(o, h))
    ensures h.Takes? ==> Next(o, h).relay == Apply(o.relay, h.step)
  {
    hide Sound, Take, Wait, Apply, Legal, StoreNamed, Expiry.PairsOk, InTouch;
    match h
    case Takes(step) =>
      SoundNamed(o.relay);
      LegalNamed(o.relay, step);
      TakeIsApply(o, step);
      TakeKeepsPairs(o, step);
      StepIsSound(o.relay, step);
    case Passes(time) => WaitKeepsSound(o, time);
  }

  lemma StepIsSound(s: Relay, step: Step)
    requires Sound(s) && Legal(s, step)
    ensures Sound(Apply(s, step))
  {
    StepKeepsSound(s, step);
  }

  lemma NothingIsWell()
    ensures AllWell(NOTHING)
  {
  }

  /** Whatever expires: in every state of every run over Redis the tables are sound, and the next
      step does what it would do over memory. */
  lemma {:induction false} RunOnIsSound(hs: seq<Happening>)
    requires LegalOn(hs)
    ensures AllWell(RunOn(hs)) && Sound(RunOn(hs).relay)
  {
    hide Sound, Next, Legal, AllWell;
    if hs == [] {
      NothingIsWell();
    } else {
      RunOnIsSound(hs[..|hs| - 1]);
      NextKeepsWell(RunOn(hs[..|hs| - 1]), hs[|hs| - 1]);
    }
    WellIsSound(RunOn(hs));
  }

  lemma WellIsSound(o: OnRedis)
    requires AllWell(o)
    ensures Sound(o.relay)
  {
  }

  /** As long as no key reaches its deadline, a run over Redis is, step by step, the run over
      memory: all that is proved of legal runs carries over. */
  lemma {:induction false} QuietRunIsInMemory(hs: seq<Happening>)
    requires LegalOn(hs) && Quiet(hs)
    ensures LegalRun(INITIAL, StepsIn(hs)) && RunOn(hs).relay == Run(INITIAL, StepsIn(hs))
    ensures Inv(RunOn(hs).relay)
  {
    if hs == [] {
      ReachableInv([]);
    } else {
      hide Inv, Next, Legal, AllWell, Apply, Stores.ExpiresNothing;
      var before, last := hs[..|hs| - 1], hs[|hs| - 1];
      QuietRunIsInMemory(before);
      RunOnIsSound(before);
      NextIsInMemory(RunOn(before), last);
      if last.Takes? {
        assert (StepsIn(before) + [last.step])[..|StepsIn(before)|] == StepsIn(before);
      } else {
        assert StepsIn(before) + [] == StepsIn(before);
      }
      ReachableInv(StepsIn(hs));
    }
  }

  lemma NextIsInMemory(o: OnRedis, h: Happening)
    requires AllWell(o) && (h.Takes? ==> Legal(o.relay, h.step))
    requires h.Passes? ==> Stores.ExpiresNothing(o.view, Stores.Elapse(h.time))
    ensures Next(o, h).relay == if h.Takes? then Apply(o.relay, h.step) else o.relay
  {
    if h.Takes? {
      NextKeepsWell(o, h);
    } else {
      QuietWait(o, h.time);
    }
  }

  lemma {:induction false} QuietRunIsLegal(hs: seq<Happening>)
    requires Quiet(hs) && LegalRun(INITIAL, StepsIn(hs))
    ensures LegalOn(hs)
  {
    if hs != [] {
      hide Inv, Next, Legal, Apply, Stores.ExpiresNothing;
      var before, last := hs[..|hs| - 1], hs[|hs| - 1];
      if last.Takes? {
        assert (StepsIn(before) + [last.step])[..|StepsIn(before)|] == StepsIn(before);
      } else {
        assert StepsIn(before) + [] == StepsIn(before);
      }
      QuietRunIsLegal(before);
      QuietRunIsInMemory(before);
    }
  }

  /** The handlers over Redis: with time passing anywhere between their steps, and no key reaching
      its deadline, they leave the relay as they do over memory. */
  lemma HandlersInMemory(cfg: Config, events: seq<Arrival>, hs: seq<Happening>)
    requires ExpectedRun(cfg, events) && Quiet(hs) && StepsIn(hs) == Served(cfg, events)
    ensures LegalOn(hs) && RunOn(hs).relay == RelayAt(cfg, events)
  {
    hide Inv, Quiet, LegalOn, LegalRun, ExpectedRun, Served, StateAfter, RunOn, StepsIn, Run;
    HandlersRunLegally(cfg, events);
    QuietRunIsLegal(hs);
    QuietRunIsInMemory(hs);
  }

  // ----- The index sets -----

  lemma CallKeepsIndexes(v: Redis.View, op: Stores.Op)
    requires Stores.IndexesExact(v) && !op.Elapse?
    ensures Stores.IndexesExact(Stores.RedisStep(v, op).0)
  {
    Stores.StepKeepsIndexesExact(v, op);
  }

  lemma TakeKeepsIndexes(o: OnRedis, step: Step)
    requires Stores.IndexesExact(o.view)
    ensures Stores.IndexesExact(Take(o, step).view)
  {
    match step
    case Opens(_) =>
    case Registers(c, username, install, multi) => CallKeepsIndexes(o.view, Stores.SetWaiting(username, c));
    case Connects(c, username, newId) => ConnectKeepsIndexes(o, c, username, newId);
    case Sends(c, _, _, _, _) =>
      CallKeepsIndexes(o.view, Stores.GetPeer(c));
      hide Redis.GetPeer, Stores.IndexesExact;
    case Closes(c) =>
      CallKeepsIndexes(o.view, Stores.RemoveWaiting(InfoOf(o.relay, c).username, c));
      CallKeepsIndexes(o.view, Stores.RemovePair(c));
      hide Redis.RemovePair, Redis.RemoveWaiting, Stores.IndexesExact;
  }

  lemma ConnectKeepsIndexes(o: OnRedis, c: string, username: string, newId: string)
    requires Stores.IndexesExact(o.view)
    ensures Stores.IndexesExact(Connect(o.relay, o.view, c, username, newId).view)
  {
    var (w, found) := Redis.GetWaiting(o.view, username);
    CallKeepsIndexes(o.view, Stores.GetWaiting(username));
    hide Redis.GetWaiting, Redis.RemoveWaiting, Redis.CreatePair, Stores.IndexesExact;
    if found.Some? {
      CallKeepsIndexes(w, Stores.RemoveWaiting(username, found.value));
      CallKeepsIndexes(w, Stores.CreatePair(found.value, c, username));
    }
  }

  lemma WaitKeepsIndexes(o: OnRedis, time: nat)
    requires Stores.IndexesExact(o.view) && Stores.ExpiresNothing(o.view, Stores.Elapse(time))
    ensures Stores.IndexesExact(Wait(o, time).view)
  {
    Stores.StepKeepsIndexesExact(o.view, Stores.Elapse(time));
  }

  lemma {:induction false} QuietRunKeepsIndexes(hs: seq<Happening>)
    requires Quiet(hs)
    ensures Stores.IndexesExact(RunOn(hs).view)
  {
    hide Take, Wait, Stores.ExpiresNothing, Stores.IndexesExact;
    if hs == [] {
      NothingIsIndexed();
    } else {
      var before, last := hs[..|hs| - 1], hs[|hs| - 1];
      QuietRunKeepsIndexes(before);
      match last
      case Takes(step) => TakeKeepsIndexes(RunOn(before), step);
      case Passes(time) => WaitKeepsIndexes(RunOn(before), time);
    }
  }

  lemma NothingIsIndexed()
    ensures Stores.IndexesExact(NOTHING.view)
  {
  }

  lemma LiveSizes(o: OnRedis)
    requires InTouch(o) && Stores.IndexesExact(o.view)
    ensures |o.view.waitingIndex| == |o.relay.store.waiting| && |o.view.pairedIndex| == |o.relay.store.peers|
  {
    Stores.SameSize(o.view.waiting);
    Stores.SameSize(o.view.peers);
  }

  /** As long as no key reaches its deadline, over Redis too the tables add up, and the pair
      count, which Redis takes from its index set, is the number of connected clients. */
  lemma QuietTablesAddUp(hs: seq<Happening>)
    requires LegalOn(hs) && Quiet(hs)
    ensures var (s, v) := (RunOn(hs).relay, RunOn(hs).view);
            && s.conns == s.store.waiting.Values + s.store.peers.Keys + Members(s.groups)
            && s.store.waiting.Values !! s.store.peers.Keys
            && s.store.waiting.Values + s.store.peers.Keys !! Members(s.groups)
            && |s.conns| == |v.waitingIndex| + |v.pairedIndex| + TotalClients(s.groups)
            && |v.pairedIndex| / 2 + TotalClients(s.groups) == |ConnectedClients(s)|
  {
    hide Inv, Sound, Members, ConnectedClients, RunOn, LegalOn, Quiet, AllWell, Stores.IndexesExact;
    QuietRunIsInMemory(hs);
    QuietRunKeepsIndexes(hs);
    RunOnIsSound(hs);
    WellIsInTouch(RunOn(hs));
    LiveSizes(RunOn(hs));
    Partition(RunOn(hs).relay);
    ConnCount(RunOn(hs).relay);
    PairCountIsClientCount(RunOn(hs).relay);
  }

  lemma WellIsInTouch(o: OnRedis)
    requires AllWell(o)
    ensures InTouch(o)
  {
  }

  // ----- Delivery, whatever expires -----

  /** No step of the client writes to a server that is not its host. */
  ghost predicate NeverStraysOn(hs: seq<Happening>, c: string, h: string) {
    hs == [] ||
    (var before, last := hs[..|hs| - 1], hs[|hs| - 1];
     NeverStraysOn(before, c, h) && (last.Takes? ==> !Strays(RunOn(before).relay, last.step, c, h)))
  }

  /** What is proved of the log, step by step. */
  ghost predicate Delivers(s: Relay, t: string, c: string) {
    LogOk(s) && InOrder(s, t, c) && StreamOk(s, c)
  }

  lemma StepDelivers(s: Relay, step: Step, t: string, c: string)
    requires Sound(s) && Legal(s, step) && Delivers(s, t, c)
    ensures Delivers(Apply(s, step), t, c)
  {
    hide Sound, Legal, Apply, LogOk, InOrder, StreamOk;
    StepKeepsLog(s, step);
    if step.Sends? {
      SendKeepsOrder(s, step, t, c);
    } else {
      OtherStepKeepsOrder(s, step, t, c);
    }
    StepKeepsStream(s, step, c);
  }

  lemma NothingDelivers(t: string, c: string)
    ensures Delivers(NOTHING.relay, t, c)
  {
  }

  /** Time that passes changes nothing but the store. */
  lemma WaitDelivers(o: OnRedis, time: nat, t: string, c: string)
    requires Delivers(o.relay, t, c)
    ensures Delivers(Wait(o, time).relay, t, c)
  {
    var s, later := o.relay, Wait(o, time).relay;
    forall e | e in later.log ensures EventOk(later, e) { assert EventOk(s, e); }
  }

  lemma {:induction false} RunOnDelivers(hs: seq<Happening>, t: string, c: string)
    requires LegalOn(hs)
    ensures Delivers(RunOn(hs).relay, t, c)
  {
    hide Sound, Legal, Apply, Delivers, AllWell, Take, Wait;
    if hs == [] {
      NothingDelivers(t, c);
    } else {
      var before, last := hs[..|hs| - 1], hs[|hs| - 1];
      RunOnIsSound(before);
      RunOnDelivers(before, t, c);
      NextKeepsWell(RunOn(before), last);
      match last
      case Takes(step) => StepDelivers(RunOn(before).relay, step, t, c);
      case Passes(time) => WaitDelivers(RunOn(before), time, t, c);
    }
  }

  lemma DeliversLogOk(s: Relay, t: string, c: string)
    requires Delivers(s, t, c)
    ensures LogOk(s) && InOrder(s, t, c) && StreamOk(s, c)
  {
  }

  lemma WaitSameLog(o: OnRedis, time: nat)
    ensures Wait(o, time).relay.log == o.relay.log && Wait(o, time).relay.info == o.relay.info
  {
  }

  lemma {:induction false} OnlyToIffOn(hs: seq<Happening>, c: string, h: string)
    requires LegalOn(hs) && JoinsOnly(RunOn(hs).relay.log, c, h)
    requires InfoOf(RunOn(hs).relay, c).username == "" || InfoOf(RunOn(hs).relay, c).clientId != ""
    ensures OnlyTo(RunOn(hs).relay.log, c, h) <==> NeverStraysOn(hs, c, h)
  {
    hide Sound, LogOk, Apply, OnlyTo, JoinsOnly, Legal, Strays, Delivers, AllWell, Take, Wait;
    if hs == [] {
      assert OnlyTo([], c, h) by { NothingOnlyTo(c, h); }
    } else {
      var before, last := hs[..|hs| - 1], hs[|hs| - 1];
      RunOnIsSound(before);
      RunOnIsSound(hs);
      RunOnDelivers(before, c, c);
      RunOnDelivers(hs, c, c);
      DeliversLogOk(RunOn(before).relay, c, c);
      DeliversLogOk(RunOn(hs).relay, c, c);
      NextKeepsWell(RunOn(before), last);
      match last {
        case Takes(step) => StepOnlyTo(RunOn(before).relay, step, c, h);
        case Passes(time) => WaitSameLog(RunOn(before), time);
      }
      OnlyToIffOn(before, c, h);
    }
  }

  lemma NothingOnlyTo(c: string, h: string)
    ensures OnlyTo([], c, h) && OnlyTo(NOTHING.relay.log, c, h)
  {
  }

  lemma {:induction false} ClientHasHostOn(hs: seq<Happening>, c: string) returns (h: string)
    requires LegalOn(hs) && InfoOf(RunOn(hs).relay, c).clientId != ""
    ensures Hosts(RunOn(hs).relay.log, c, h)
  {
    assert hs != [];
    hide Sound, Legal, Apply, Hosts, AllWell, Take, Wait;
    var before, last := hs[..|hs| - 1], hs[|hs| - 1];
    RunOnIsSound(before);
    NextKeepsWell(RunOn(before), last);
    match last
    case Takes(step) =>
      if InfoOf(RunOn(before).relay, c).clientId != "" {
        h := ClientHasHostOn(before, c);
        StepKeepsHosts(RunOn(before).relay, step, c, h);
      } else {
        h := StepHosts(RunOn(before).relay, step, c);
      }
    case Passes(time) =>
      WaitSameLog(RunOn(before), time);
      h := ClientHasHostOn(before, c);
  }

  /** Over Redis, whatever expires when: nothing crosses usernames, senders' frames stay in order,
      and every group client has a host that sees the whole of its stream, and nobody else
      anything of it, exactly as long as no step of the client strays. */
  lemma DeliveryIsSoundOnRedis(hs: seq<Happening>, t: string, c: string) returns (h: string)
    requires LegalOn(hs)
    ensures var s := RunOn(hs).relay;
            var straight := NeverStraysOn(hs, c, h);
            && (forall e :: e in s.log && t in e.targets ==>
                  InfoOf(s, t).username == InfoOf(s, e.msg.cause).username != "")
            && Subsequence(Received(s.log, t, c), SentBy(s.sent, c, InfoOf(s, c)))
            && (InfoOf(s, c).clientId != "" ==>
                  && Hosts(s.log, c, h)
                  && ((forall d :: StreamAt(s.log, d, c) != Broken) <==> straight)
                  && (straight ==>
                        && (StreamAt(s.log, h, c) == Live || (StreamAt(s.log, h, c) == Over && c in s.closed))
                        && (forall d :: d != h ==> StreamAt(s.log, d, c) == Silent)))
  {
    hide Sound, AllWell, Delivers, EventOk, RunOn, LegalOn, OnlyTo, Hosts, JoinsOnly, StreamAt, StreamOf, NeverStraysOn;
    var s := RunOn(hs).relay;
    RunOnDelivers(hs, t, c);
    DeliversLogOk(s, t, c);
    LogIsolates(s, t);
    h := "";
    if InfoOf(s, c).clientId != "" {
      h := ClientHasHostOn(hs, c);
      NoticesReachSomebody(s, c);
      OneHost(s.log, c, h);
      OnlyToIffOn(hs, c, h);
      StreamsFromLog(s.log, c, h);
    }
  }

  lemma LogIsolates(s: Relay, t: string)
    requires LogOk(s)
    ensures forall e :: e in s.log && t in e.targets ==> InfoOf(s, t).username == InfoOf(s, e.msg.cause).username != ""
  {
    forall e | e in s.log && t in e.targets ensures InfoOf(s, t).username == InfoOf(s, e.msg.cause).username != "" {
      assert EventOk(s, e);
    }
  }

  lemma {:induction false} RunOnKeepsCanonical(hs: seq<Happening>)
    requires LegalOn(hs)
    ensures CanonicalIds(RunOn(hs).relay)
  {
    hide Sound, Legal, Apply, AllWell, Take, Wait, CanonicalIds;
    if hs == [] {
      NobodyIsCanonical();
    } else {
      var before, last := hs[..|hs| - 1], hs[|hs| - 1];
      RunOnIsSound(before);
      RunOnKeepsCanonical(before);
      NextKeepsWell(RunOn(before), last);
      match last
      case Takes(step) => StepKeepsCanonical(RunOn(before).relay, step);
      case Passes(time) => WaitKeepsCanonical(RunOn(before), time);
    }
  }

  lemma WaitKeepsCanonical(o: OnRedis, time: nat)
    requires CanonicalIds(o.relay)
    ensures CanonicalIds(Wait(o, time).relay)
  {
    hide IsCanonical;
  }

  /** Over Redis, whatever expires when: what a connection receives from a sender is, in order, some of
      the frames that were read from the sender, each rendered as it should be. */
  lemma ReceivedAsReadOnRedis(hs: seq<Happening>, t: string, c: string)
    requires LegalOn(hs)
    ensures ReadInOrder(RunOn(hs).relay, t, c)
  {
    hide Sound, AllWell, Delivers, RunOn, LegalOn, CanonicalIds, ReadInOrder, InOrder;
    RunOnIsSound(hs);
    RunOnDelivers(hs, t, c);
    DeliversLogOk(RunOn(hs).relay, t, c);
    RunOnKeepsCanonical(hs);
    OrderIsAsRead(RunOn(hs).relay, t, c);
  }
}
