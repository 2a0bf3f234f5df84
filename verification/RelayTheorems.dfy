/** The main results, for every run of the handlers from an empty relay. */
module RelayTheorems {
  import opened Basics
  import opened FrameCodec
  import opened HandlerSpec
  import opened RelayAnswers
  import opened RelayDelivery
  import opened RelayInvariant
  import opened RelayMachine
  import opened RelayRoutes
  import opened RelayRuns
  import opened Uuid

  /** The relay as a run of the handlers leaves it. */
  function RelayAt(cfg: Config, events: seq<Arrival>): Relay {
    StateAfter(cfg, events).relay
  }

  /** No connection leaks and none is in two roles: what is held is what waits, what is paired
      and what is in a group; and the reported pairs are the connected clients. */
  lemma TablesAddUp(cfg: Config, events: seq<Arrival>)
    requires ExpectedRun(cfg, events)
    ensures var s := RelayAt(cfg, events);
            && s.conns == s.store.waiting.Values + s.store.peers.Keys + Members(s.groups)
            && s.store.waiting.Values !! s.store.peers.Keys
            && s.store.waiting.Values + s.store.peers.Keys !! Members(s.groups)
            && |s.conns| == |s.store.waiting| + |s.store.peers| + TotalClients(s.groups)
            && |s.store.peers| / 2 + TotalClients(s.groups) == |ConnectedClients(s)|
  {
    hide Inv, Members, ConnectedClients;
    HandlersRunLegally(cfg, events);
    var s := RelayAt(cfg, events);
    Partition(s);
    ConnCount(s);
    PairCountIsClientCount(s);
  }

  // ----- Routing -----

  /** A frame whose check found a pair is forwarded, whatever has happened since. */
  lemma CheckedReadForwards(cfg: Config, events: seq<Arrival>, c: string, r: Read, newId: string, permitted: bool,
                            slow: set<string>)
    requires r.Frame? && PhaseOf(StateAfter(cfg, events), c) == Checked(r, true)
    ensures RelayAt(cfg, events + [Acts(c, newId, permitted, slow)])
            == Forward(RelayAt(cfg, events), c, r.msgType, r.data, permitted, slow)
  {
    hide Forward, Identity;
    assert (events + [Acts(c, newId, permitted, slow)])[..|events|] == events;
  }

  lemma CheckedHasRole(cfg: Config, events: seq<Arrival>, c: string)
    requires ExpectedRun(cfg, events) && PhaseOf(StateAfter(cfg, events), c).Checked?
    requires PhaseOf(StateAfter(cfg, events), c).paired
    ensures var s := RelayAt(cfg, events); c in s.info && s.info[c].username != "" && c !in s.closed
  {
    hide Inv, Served;
    HandlersRunLegally(cfg, events);
    assert PhaseOk(StateAfter(cfg, events), c);
  }

  /** A frame whose check found a pair is never taken for a handshake, changes no role, and goes
      to the sender's own username only. It is lost for want of a route exactly when the pair
      or the group has gone since the check; a group client's only when its username has no
      group any more. A server's frame with a target header goes to the client that it names. */
  lemma CheckedReadIsRouted(cfg: Config, events: seq<Arrival>, c: string, r: Read, newId: string, slow: set<string>)
    requires ExpectedRun(cfg, events) && r.Frame? && PhaseOf(StateAfter(cfg, events), c) == Checked(r, true)
    ensures var s := RelayAt(cfg, events);
            var t := RelayAt(cfg, events + [Acts(c, newId, true, slow)]);
            var targets := Targets(s, c, r.msgType, r.data);
            var (wireType, wireData) := Wire(InfoOf(s, c), r.msgType, r.data);
            && t.log == s.log + [Event(targets - slow, Msg.Frame(c, wireType, wireData))]
            && t.info == s.info
            && (forall d :: d in targets ==> InfoOf(s, d).username == InfoOf(s, c).username)
            && (!InfoOf(s, c).isServer || TargetHeader(r.msgType, r.data) == None ==>
                  (targets == {} <==>
                    if InfoOf(s, c).clientId != "" then InfoOf(s, c).username !in s.groups else !IsPaired(s, c)))
  {
    hide Inv, Sound, IsPaired, Targets, Wire, TargetHeader, StateAfter, ExpectedRun;
    var s := RelayAt(cfg, events);
    HandlersRunLegally(cfg, events);
    CheckedHasRole(cfg, events, c);
    CheckedReadForwards(cfg, events, c, r, newId, true, slow);
    InvIsSound(s);
    TargetsShareUsername(s, c, r.msgType, r.data);
    if !(s.info[c].isServer && TargetHeader(r.msgType, r.data).Some?) {
      RouteLostIff(s, c, r.msgType, r.data);
    }
  }

  /** What a check has found can be stale: a connection that was not paired when it was checked
      and has a peer when it acts is registered all the same, and then waits and has a peer. */
  lemma StaleCheckRegisters(cfg: Config, events: seq<Arrival>, c: string, r: Read, who: Claims, newId: string,
                            slow: set<string>)
    requires PhaseOf(StateAfter(cfg, events), c) == Checked(r, false) && c in RelayAt(cfg, events).store.peers
    requires r.Frame? && r.msgType == Text && r.parsed.Some? && r.parsed.value.ServerRegister?
    requires Identity(cfg, r.parsed.value, r.claims, r.bearer) == Some(who)
    requires Register(RelayAt(cfg, events), c, who.username, who.install, r.parsed.value.multi).1 == Registered
    ensures var t := RelayAt(cfg, events + [Acts(c, newId, true, slow)]);
            && c in t.store.peers && who.username in t.store.waiting && t.store.waiting[who.username] == c
            && !Inv(t)
  {
    hide Identity;
    assert (events + [Acts(c, newId, true, slow)])[..|events|] == events;
    var t := RelayAt(cfg, events + [Acts(c, newId, true, slow)]);
    assert !WaitingOk(t, who.username);
  }

  lemma {:induction false} ServedFrom(cfg: Config, events: seq<Arrival>, n: nat) returns (more: seq<Step>)
    requires n <= |events|
    ensures Served(cfg, events) == Served(cfg, events[..n]) + more
  {
    hide React, StateAfter;
    if n == |events| {
      assert events[..n] == events;
      more := [];
    } else {
      var before := events[..|events| - 1];
      var some := ServedFrom(cfg, before, n);
      var last := AsSteps(React(cfg, StateAfter(cfg, before), events[|events| - 1]).0);
      assert before[..n] == events[..n];
      Associate(Served(cfg, events[..n]), some, last);
      more := some + last;
    }
  }

  lemma Associate<T>(a: seq<T>, b: seq<T>, c: seq<T>)
    ensures a + b + c == a + (b + c)
  {
  }

  lemma {:induction false} ExpectedPrefix(cfg: Config, events: seq<Arrival>, n: nat)
    requires ExpectedRun(cfg, events) && n <= |events|
    ensures ExpectedRun(cfg, events[..n])
  {
    hide Expected, StateAfter;
    if n == |events| {
      assert events[..n] == events;
    } else {
      assert events[..|events| - 1][..n] == events[..n];
      ExpectedPrefix(cfg, events[..|events| - 1], n);
    }
  }

  /** The relay steps between two points of a run of the handlers. */
  lemma Between(cfg: Config, events: seq<Arrival>, n: nat) returns (more: seq<Step>)
    requires ExpectedRun(cfg, events) && n <= |events|
    ensures Served(cfg, events) == Served(cfg, events[..n]) + more
    ensures LegalRun(INITIAL, Served(cfg, events[..n])) && LegalRun(RelayAt(cfg, events[..n]), more)
    ensures RelayAt(cfg, events[..n]) == Run(INITIAL, Served(cfg, events[..n]))
    ensures Inv(RelayAt(cfg, events[..n])) && Inv(RelayAt(cfg, events))
    ensures RelayAt(cfg, events) == Run(RelayAt(cfg, events[..n]), more)
  {
    hide Inv, Served, StateAfter, ExpectedRun, LegalRun, Run;
    more := ServedFrom(cfg, events, n);
    ExpectedPrefix(cfg, events, n);
    HandlersRunLegally(cfg, events[..n]);
    HandlersRunLegally(cfg, events);
    RunAppend(INITIAL, Served(cfg, events[..n]), more);
  }

  lemma LegacyRoute(s: Relay, c: string, msgType: MessageType, data: seq<byte>)
    requires Inv(s) && c in s.info && s.info[c].clientId == "" && !s.info[c].multiClient
    ensures Targets(s, c, msgType, data) == if c in s.store.peers then {s.store.peers[c]} else {}
  {
    assert c in s.store.peers ==> PeerOk(s, c) && PeerOk(s, s.store.peers[c]);
  }

  lemma LegacyRole(s: Relay, c: string)
    requires Inv(s) && c in s.store.peers
    ensures c in s.info && s.info[c].username != "" && s.info[c].clientId == "" && !s.info[c].multiClient
    ensures s.store.peers[c] in s.info && c !in s.closed && s.store.peers[c] !in s.closed
  {
    assert PeerOk(s, c) && PeerOk(s, s.store.peers[c]);
  }

  lemma OpenIsNotClosed(steps: seq<Step>, c: string)
    requires c !in Run(INITIAL, steps).closed
    ensures Closes(c) !in steps
  {
    if Closes(c) in steps {
      StaysClosed(INITIAL, steps, c);
    }
  }

  /** Once a legacy pair has been made, and until `c` itself is closed, every frame of `c` goes
      to its peer exactly as long as the peer has not been closed, and nowhere after that. */
  lemma LegacyRouteLastsIff(cfg: Config, events: seq<Arrival>, n: nat, c: string, p: string, msgType: MessageType,
                            data: seq<byte>)
    requires ExpectedRun(cfg, events) && n <= |events| && c !in RelayAt(cfg, events).closed
    requires c in RelayAt(cfg, events[..n]).store.peers && RelayAt(cfg, events[..n]).store.peers[c] == p
    ensures Targets(RelayAt(cfg, events), c, msgType, data) == if Closes(p) in Served(cfg, events) then {} else {p}
  {
    hide Inv, Targets, StateAfter, ExpectedRun, LegalRun, Served, Run;
    var more := Between(cfg, events, n);
    var s, t := RelayAt(cfg, events[..n]), RelayAt(cfg, events);
    HandlersRunLegally(cfg, events);
    OpenIsNotClosed(Served(cfg, events), c);
    LegacyRole(s, c);
    OpenIsNotClosed(Served(cfg, events[..n]), p);
    RunKeepsInfo(s, more, c);
    PairLastsIff(s, more, c, p);
    LegacyRoute(t, c, msgType, data);
  }

  // ----- Delivery -----

  /** Whatever is read on whichever connection, nothing crosses usernames and senders' frames
      stay in order. Every group client has a host `h`, the server that was told that it joined;
      with any number of servers and takeovers, no connection sees a message of the client out of
      place exactly when none of the client's steps strays, and then `h` sees joined, frames and
      at most one left, which comes with the client's close, and everybody else nothing. */
  lemma DeliveryIsSound(cfg: Config, events: seq<Arrival>, t: string, c: string) returns (h: string)
    requires ExpectedRun(cfg, events)
    ensures var s := RelayAt(cfg, events);
            var straight := NeverStrays(INITIAL, Served(cfg, events), c, h);
            && (forall e :: e in s.log && t in e.targets ==>
                  InfoOf(s, t).username == InfoOf(s, e.msg.cause).username != "")
            && Subsequence(Received(s.log, t, c), SentBy(s.sent, c, InfoOf(s, c)))
            && (InfoOf(s, c).clientId != "" ==>
                  && Hosts(s.log, c, h)
                  && ((forall d :: StreamAt(s.log, d, c) != Broken) <==> straight)
                  && (straight ==>
                        && (StreamAt(s.log, h, c) == Live || (StreamAt(s.log, h, c) == Over && c in s.closed))
                        && (forall d :: d != h ==> StreamAt(s.log, d, c) == Silent)))
  {
    var steps, s := Served(cfg, events), RelayAt(cfg, events);
    HandlersRunLegally(cfg, events);
    hide Inv, EventOk, Run, Served, ExpectedRun, NeverStrays, StreamAt, StreamOf, Hosts;
    forall e | e in s.log && t in e.targets ensures InfoOf(s, t).username == InfoOf(s, e.msg.cause).username != "" {
      UsernameIsolation(steps, e, t);
    }
    OrderedDelivery(steps, t, c);
    h := "";
    if InfoOf(s, c).clientId != "" {
      h := ClientHasHost(steps, c);
      StreamsWholeIff(steps, c, h);
    }
  }

  /** And what it receives from a sender is, in order, some of the frames that were read from the sender,
      each rendered as it should be. */
  lemma FramesComeAsRead(cfg: Config, events: seq<Arrival>, t: string, c: string)
    requires ExpectedRun(cfg, events)
    ensures ReadInOrder(RelayAt(cfg, events), t, c)
  {
    hide Inv, Served, StateAfter, ExpectedRun, LegalRun, Run, ReadInOrder;
    HandlersRunLegally(cfg, events);
    ReceivedAsRead(Served(cfg, events), t, c);
  }

  /** A frame whose check found a pair is written, if the rate limit permits it, once and as it was read. */
  lemma CheckedReadIsWrittenAsRead(cfg: Config, events: seq<Arrival>, c: string, r: Read, newId: string,
                                   permitted: bool, slow: set<string>)
    requires ExpectedRun(cfg, events) && r.Frame? && PhaseOf(StateAfter(cfg, events), c) == Checked(r, true)
    ensures var s := RelayAt(cfg, events);
            var t := RelayAt(cfg, events + [Acts(c, newId, permitted, slow)]);
            if permitted then
              && |t.log| == |s.log| + 1 && t.log[..|s.log|] == s.log
              && var msg := t.log[|s.log|].msg;
                 && msg.Frame? && msg.cause == c
                 && Renders(InfoOf(s, c), Sent(c, r.msgType, r.data), (msg.msgType, msg.data))
            else t.log == s.log
  {
    hide Inv, Sound, Served, StateAfter, ExpectedRun, LegalRun, Run, CanonicalIds, Renders, Forward;
    HandlersRunLegally(cfg, events);
    InvIsSound(RelayAt(cfg, events));
    NobodyIsCanonical();
    RunKeepsCanonical(INITIAL, Served(cfg, events));
    CheckedReadForwards(cfg, events, c, r, newId, permitted, slow);
    FrameIsWrittenAsRead(RelayAt(cfg, events), c, r.msgType, r.data, permitted, slow);
  }

  /** End to end: at some point a group client's frame went out to its server in wrapped form.
      If, after anything else, a multi-client server of the username is read sending those
      bytes, they are written to that client alone, as it first sent them, while it is in the
      group, and to nobody once it is not. */
  lemma EchoComesBack(cfg: Config, events: seq<Arrival>, n: nat, c: string, msgType: MessageType, data: seq<byte>,
                      server: string, r: Read, newId: string, slow: set<string>)
    requires ExpectedRun(cfg, events) && n <= |events| && r.Frame?
    requires var s := RelayAt(cfg, events[..n]);
             && InGroup(s, c) && server in s.info && s.info[server] == ConnInfo(InfoOf(s, c).username, true, true, "")
             && (r.msgType, r.data) == Wire(InfoOf(s, c), msgType, data)
    requires PhaseOf(StateAfter(cfg, events), server) == Checked(r, true)
    ensures var t := RelayAt(cfg, events);
            RelayAt(cfg, events + [Acts(server, newId, true, slow)]).log
            == t.log + [Event((if InGroup(t, c) then {c} else {}) - slow, Msg.Frame(server, msgType, data))]
  {
    hide Inv, IsPaired, Targets, Wire, InGroup, IsCanonical, ExpectedRun, Run, LegalRun, Served, StateAfter;
    var more := Between(cfg, events, n);
    RunKeepsCanonical(INITIAL, Served(cfg, events[..n]));
    MemberIsKnown(RelayAt(cfg, events[..n]), c);
    Echo(RelayAt(cfg, events[..n]), c, msgType, data, more, server);
    CheckedReadForwards(cfg, events, server, r, newId, true, slow);
  }

  lemma MemberIsKnown(s: Relay, c: string)
    requires InGroup(s, c)
    ensures c in s.info
  {
  }
}
