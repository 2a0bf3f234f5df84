/** Where the relay's guarantees end: a second handshake on one connection, and a
    takeover while the old server's group is still there. */
module RelayLimits {
  import opened Basics
  import opened FrameCodec
  import opened Protocol
  import opened Registry
  import opened RelayDelivery
  import opened RelayInvariant
  import opened RelayMachine
  import opened Uuid

  // ----- A second handshake -----

  /** A connection whose handshake is done. The handler only keeps it from another one when its
      check finds it paired, and what it finds may have changed by the time the handshake acts:
      the connection may wait, be paired after all, or have lost its place. */
  ghost predicate MayShakeAgain(s: Relay, c: string) {
    Inv(s) && Active(s, c)
  }

  lemma SameNameTables(s: Relay, c: string, install: string, multi: bool)
    requires AllWaitingOk(s) && AllPeersOk(s) && AllHaveRole(s) && Waits(s, c) && c in s.conns && c != ""
    ensures var t := Admit(s, c, InfoOf(s, c).username, install, multi);
            AllWaitingOk(t) && AllPeersOk(t) && AllHaveRole(t)
  {
    var u0 := InfoOf(s, c).username;
    var t := Admit(s, c, u0, install, multi);
    assert WaitingOk(s, u0);
    assert t.conns == s.conns && t.store.waiting == s.store.waiting;
    forall u | u in t.store.waiting ensures WaitingOk(t, u) { assert WaitingOk(s, u); }
    forall d | d in t.store.peers ensures PeerOk(t, d) { assert PeerOk(s, d); }
    forall d | d in t.conns ensures HasRole(t, d) { assert HasRole(s, d); }
  }

  lemma SameNameGroups(s: Relay, c: string, install: string, multi: bool)
    requires AllGroupsOk(s) && InfoOf(s, c).clientId == "" && (HeadsGroup(s, c) ==> multi)
    requires var u := InfoOf(s, c).username; u in s.store.waiting && s.store.waiting[u] == c && c in s.conns
    ensures AllGroupsOk(Admit(s, c, InfoOf(s, c).username, install, multi))
  {
    var t := Admit(s, c, InfoOf(s, c).username, install, multi);
    forall u | u in t.groups ensures GroupOk(t, u) {
      assert GroupOk(s, u);
      forall d | d in s.groups[u].clients.Values ensures d in t.conns && InfoOf(t, d) == InfoOf(s, d) {
        MembersBelong(s, u, d);
      }
      GroupFrame(s, t, u);
    }
  }

  lemma SameNameKeeps(s: Relay, c: string, install: string, multi: bool)
    requires MayShakeAgain(s, c) && Waits(s, c) && (HeadsGroup(s, c) ==> multi)
    ensures Inv(Admit(s, c, s.info[c].username, install, multi))
  {
    var u := s.info[c].username;
    var t := Admit(s, c, u, install, multi);
    assert WaitingOk(s, u) && InfoOk(s, c);
    IdsFrame(s, t, c);
    UniqueFrame(s, t, c);
    SameNameTables(s, c, install, multi);
    SameNameGroups(s, c, install, multi);
  }

  /** After such a registration, `c` has a role that does not fit what it already is. */
  lemma RegistersWrongly(s: Relay, c: string, username: string, install: string, multi: bool)
    requires MayShakeAgain(s, c) && username != ""
    requires || s.info[c].clientId != "" || c in s.store.peers
             || (Waits(s, c) && username != s.info[c].username)
             || (HeadsGroup(s, c) && !(username == s.info[c].username && multi))
    ensures !Inv(Admit(s, c, username, install, multi))
  {
    var u := s.info[c].username;
    var t := Admit(s, c, username, install, multi);
    if s.info[c].clientId != "" {
      assert !InfoOk(t, c);
    } else if c in s.store.peers {
      assert t.store.waiting[username] == c && !WaitingOk(t, username);
    } else if Waits(s, c) && username != u {
      assert t.store.waiting[u] == c && !WaitingOk(t, u);
    } else {
      assert t.groups[u].server == c && !GroupOk(t, u);
    }
  }

  /** A second handshake that registers, whatever the connection is by then, keeps the tables in
      order exactly when the connection has not been a group client, has no peer, repeats its
      username if it waits, and registers as what it is if it heads a group. */
  lemma ReregisterIff(s: Relay, c: string, username: string, install: string, multi: bool)
    requires MayShakeAgain(s, c) && Register(s, c, username, install, multi).1 == Registered
    ensures Inv(Register(s, c, username, install, multi).0) <==>
            && s.info[c].clientId == "" && c !in s.store.peers
            && (Waits(s, c) ==> username == s.info[c].username)
            && (HeadsGroup(s, c) ==> username == s.info[c].username && multi)
  {
    var u := s.info[c].username;
    assert username != "" && InfoOk(s, c);
    if s.info[c].clientId != "" || c in s.store.peers || (Waits(s, c) && username != u)
       || (HeadsGroup(s, c) && !(username == u && multi)) {
      RegistersWrongly(s, c, username, install, multi);
    } else if Waits(s, c) {
      SameNameKeeps(s, c, install, multi);
    } else {
      RolelessIsUnlisted(s, c);
      RegisterUnlisted(s, c, username, install, multi);
    }
  }

  lemma EntryOutlives(s: Relay, c: string, u: string, username: string, install: string, multi: bool)
    requires u in s.store.waiting && s.store.waiting[u] == c && username != u && c != "" && username != ""
    requires InfoOf(s, c).clientId == "" && c !in s.store.peers && Lookup(s.store.waiting, username) != c
    requires username !in s.groups || !multi
    ensures var t := Close(Admit(s, c, username, install, multi), c).0;
            && u in t.store.waiting && t.store.waiting[u] == c && c !in t.conns
            && t.registry == s.registry[username := install]
  {
  }

  lemma GroupedEntryOutlives(s: Relay, c: string, u: string, username: string, install: string)
    requires u in s.store.waiting && s.store.waiting[u] == c && username != u && c != "" && username != ""
    requires InfoOf(s, c).clientId == "" && username in s.groups
    ensures var t := Close(Admit(s, c, username, install, true), c).0;
            && u in t.store.waiting && t.store.waiting[u] == c && c !in t.conns
            && t.registry == s.registry[username := install]
  {
  }

  lemma AsksForGone(t: Relay, c: string, u: string, client: string, newId: string)
    requires u in t.registry && u in t.store.waiting && t.store.waiting[u] == c && c !in t.conns
    ensures Connect(t, client, u, newId).1 == ServerOffline
    ensures u !in Connect(t, client, u, newId).0.store.waiting
  {
  }

  /** Under another username, the first entry outlives the connection; the next client
      that asks for it is told that the server is offline, and the entry goes. */
  lemma OrphanedEntry(s: Relay, c: string, username: string, install: string, multi: bool, client: string,
                      newId: string)
    requires MayShakeAgain(s, c) && Waits(s, c) && username != s.info[c].username
    requires Register(s, c, username, install, multi).1 == Registered && s.info[c].username in s.registry
    ensures var u := s.info[c].username;
            var t := Close(Register(s, c, username, install, multi).0, c).0;
            && u in t.store.waiting && t.store.waiting[u] == c && c !in t.conns
            && Connect(t, client, u, newId).1 == ServerOffline
            && u !in Connect(t, client, u, newId).0.store.waiting
  {
    var u := s.info[c].username;
    assert WaitingOk(s, u) && InfoOk(s, c);
    assert username in s.store.waiting ==> WaitingOk(s, username);
    assert username != "";
    hide Inv, Close, Connect, Admit;
    if username in s.groups && multi {
      GroupedEntryOutlives(s, c, u, username, install);
    } else {
      EntryOutlives(s, c, u, username, install, multi);
    }
    AsksForGone(Close(Register(s, c, username, install, multi).0, c).0, c, u, client, newId);
  }

  lemma WaitingGetsThrough(s: Relay, c: string, username: string, newId: string)
    requires Inv(s) && c in s.info && Waits(s, c) && newId != ""
    requires Connect(s, c, username, newId).1 == Connected
    ensures !Inv(Connect(s, c, username, newId).0)
  {
    var u := s.info[c].username;
    var t := Connect(s, c, username, newId).0;
    assert WaitingOk(s, u) && WaitingOk(s, username);
    assert !InfoOf(t, c).isServer;
    if c in t.store.peers && t.store.peers[c] == c {
      assert !PeerOk(t, c);
    } else {
      assert u in t.store.waiting && t.store.waiting[u] == c && !WaitingOk(t, u);
    }
  }

  lemma MultiClientGetsThrough(s: Relay, c: string, username: string, newId: string)
    requires Inv(s) && c in s.info && s.info[c].multiClient
    requires Connect(s, c, username, newId).1 == Connected
    ensures !Inv(Connect(s, c, username, newId).0)
  {
    var t := Connect(s, c, username, newId).0;
    assert InfoOf(t, c).multiClient && !InfoOf(t, c).isServer && !InfoOk(t, c);
  }

  lemma PeerGetsThrough(s: Relay, c: string, username: string, newId: string)
    requires Inv(s) && c in s.store.peers && newId != ""
    requires Connect(s, c, username, newId).1 == Connected
    ensures !Inv(Connect(s, c, username, newId).0)
  {
    var p := s.store.peers[c];
    var t := Connect(s, c, username, newId).0;
    assert PeerOk(s, c) && PeerOk(s, p) && WaitingOk(s, username);
    if t.store.peers == s.store.peers {
      assert !PeerOk(t, c);
    } else {
      assert t.store.peers[p] == c && t.store.peers[c] != p && !PeerOk(t, p);
    }
  }

  /** The entry of a group client stays where it is, while its client ID changes. */
  lemma EntryStays(s: Relay, c: string, username: string, newId: string, u: string, k: string)
    requires u in s.groups && k in s.groups[u].clients && s.groups[u].clients[k] == c && newId != k && k != ""
    requires Connect(s, c, username, newId).1 == Connected
    ensures var t := Connect(s, c, username, newId).0;
            && u in t.groups && k in t.groups[u].clients && t.groups[u].clients[k] == c
            && InfoOf(t, c).clientId != k
  {
  }

  lemma MemberGetsThrough(s: Relay, c: string, username: string, newId: string)
    requires Inv(s) && c in s.info && InGroup(s, c) && UnusedClientId(s, newId)
    requires Connect(s, c, username, newId).1 == Connected
    ensures !Inv(Connect(s, c, username, newId).0)
  {
    var u, k := s.info[c].username, s.info[c].clientId;
    EntryStays(s, c, username, newId, u, k);
    hide Connect;
    var t := Connect(s, c, username, newId).0;
    assert !MemberOk(t, u, k, t.groups[u].clients[k]);
    assert !GroupOk(t, u);
  }

  lemma RefusedConnect(s: Relay, c: string, username: string, newId: string)
    requires Inv(s) && Connect(s, c, username, newId).1 != Connected
    ensures Connect(s, c, username, newId).0 == s
  {
    assert username in s.store.waiting ==> WaitingOk(s, username);
  }

  /** A second handshake that asks for a server, whatever the connection is by then, keeps the
      tables in order exactly when it is refused, or the connection neither waits nor has a
      peer, is in no group and has not been a multi-client server. */
  lemma ReconnectIff(s: Relay, c: string, username: string, newId: string)
    requires MayShakeAgain(s, c) && IsCanonical(newId) && UnusedClientId(s, newId)
    ensures var (t, status) := Connect(s, c, username, newId);
            Inv(t) <==>
            || status != Connected
            || (!Waits(s, c) && !s.info[c].multiClient && c !in s.store.peers && !InGroup(s, c))
  {
    assert newId != "";
    hide IsCanonical, Connect, UnusedClientId;
    if Connect(s, c, username, newId).1 != Connected {
      RefusedConnect(s, c, username, newId);
    } else if Waits(s, c) {
      WaitingGetsThrough(s, c, username, newId);
    } else if s.info[c].multiClient {
      MultiClientGetsThrough(s, c, username, newId);
    } else if c in s.store.peers {
      PeerGetsThrough(s, c, username, newId);
    } else if InGroup(s, c) {
      MemberGetsThrough(s, c, username, newId);
    } else {
      RolelessIsUnlisted(s, c);
      HeadIsMultiClient(s, c);
      ConnectUnplaced(s, c, username, newId);
    }
  }

  /** A legacy server that connects to its own username is its own peer: every frame that it
      sends comes back to it. */
  lemma OwnPeer(s: Relay, c: string, newId: string, msgType: MessageType, data: seq<byte>)
    requires Inv(s) && c in s.info && Waits(s, c) && !s.info[c].multiClient
    requires s.info[c].username in s.registry
    ensures var (t, status) := Connect(s, c, s.info[c].username, newId);
            status == Connected && IsPaired(t, c) && Targets(t, c, msgType, data) == {c}
  {
    assert WaitingOk(s, s.info[c].username);
  }

  // ----- A takeover -----

  /** A registration that takes a username over leaves the old group as it was. */
  lemma TakeoverKeepsOldGroup(s: Relay, c: string, username: string, install: string, multi: bool)
    requires Inv(s) && Idle(s, c) && username in s.groups
    requires Register(s, c, username, install, multi).1 == Registered
    ensures var t := Register(s, c, username, install, multi).0;
            && t.groups == s.groups && t.store.waiting[username] == c
            && t.groups[username].server != c
  {
    RolelessIsUnplaced(s, c);
  }

  lemma RunStep(s: Relay, steps: seq<Step>, step: Step)
    ensures Run(s, steps + [step]) == Apply(Run(s, steps), step)
    ensures LegalRun(s, steps) && Legal(Run(s, steps), step) ==> LegalRun(s, steps + [step])
  {
    assert (steps + [step])[..|steps|] == steps;
  }

  lemma Extend(steps: seq<Step>, step: Step) returns (longer: seq<Step>, s: Relay)
    requires LegalRun(INITIAL, steps) && Legal(Run(INITIAL, steps), step)
    ensures longer == steps + [step] && LegalRun(INITIAL, longer)
    ensures s == Apply(Run(INITIAL, steps), step) == Run(INITIAL, longer)
  {
    RunStep(INITIAL, steps, step);
    longer := steps + [step];
    s := Run(INITIAL, longer);
  }

  /** A multi-client server with one client, and nothing else. */
  ghost predicate OneGroup(s: Relay, u: string, s1: string, c1: string, k1: string) {
    && s.store.waiting == map[u := s1] && s.conns == {s1, c1} && s.closed == {}
    && s.registry == map[u := "install"] && s.groups == map[u := Group(s1, map[k1 := c1])]
    && s.info == map[s1 := ConnInfo(u, true, true, ""), c1 := ConnInfo(u, false, false, k1)]
    && s.log == [Event({s1}, Joined(c1, k1))]
  }

  // Another server registers.
  lemma AnotherServer(steps: seq<Step>, s: Relay, u: string, server: string) returns (longer: seq<Step>, t: Relay)
    requires LegalRun(INITIAL, steps) && s == Run(INITIAL, steps)
    requires IsValidUsername(u) && MayRegister(s.registry, u, "install")
    requires server != "" && server !in s.info && server !in s.closed
    ensures LegalRun(INITIAL, longer) && t == Run(INITIAL, longer)
    ensures longer == steps + [Opens(server), Registers(server, u, "install", true)]
    ensures t == Admit(Open(s, server), server, u, "install", true)
  {
    hide IsValidUsername, MayRegister;
    longer, t := Extend(steps, Opens(server));
    longer, t := Extend(longer, Registers(server, u, "install", true));
  }

  lemma FirstClient(u: string, s1: string, c1: string, k1: string)
    requires u != "" && k1 != "" && s1 != "" && c1 != "" && s1 != c1 && IsCanonical(k1)
    ensures var s := Admit(Open(INITIAL, s1), s1, u, "install", true);
            && Legal(s, Opens(c1)) && Legal(Open(s, c1), Connects(c1, u, k1))
            && OneGroup(Connect(Open(s, c1), c1, u, k1).0, u, s1, c1, k1)
  {
    hide IsCanonical;
  }

  // A multi-client server registers and gets its first client.
  lemma FirstServer(u: string, s1: string, c1: string, k1: string) returns (steps: seq<Step>, s: Relay)
    requires IsValidUsername(u) && IsCanonical(k1) && s1 != "" && c1 != "" && s1 != c1
    ensures LegalRun(INITIAL, steps) && s == Run(INITIAL, steps) && OneGroup(s, u, s1, c1, k1)
    ensures steps == [Opens(s1), Registers(s1, u, "install", true), Opens(c1), Connects(c1, u, k1)]
  {
    assert u != "" && k1 != "";
    NothingYetRun();
    hide IsCanonical, IsValidUsername, Run, LegalRun, Legal, Admit, Open, Connect, OneGroup;
    FirstClient(u, s1, c1, k1);
    steps, s := AnotherServer([], INITIAL, u, s1);
    steps, s := Extend(steps, Opens(c1));
    steps, s := Extend(steps, Connects(c1, u, k1));
  }

  lemma NothingYetRun()
    ensures LegalRun(INITIAL, []) && Run(INITIAL, []) == INITIAL
  {
  }

  // Another server takes the username over; the old group stays.
  lemma SecondServer(u: string, s1: string, s2: string, c1: string, k1: string) returns (steps: seq<Step>, s: Relay)
    requires IsValidUsername(u) && IsCanonical(k1)
    requires s1 != "" && s2 != "" && c1 != "" && s1 != s2 && s1 != c1 && s2 != c1
    ensures LegalRun(INITIAL, steps) && s == Run(INITIAL, steps) && TakenOver(s, u, s1, s2, c1, k1)
  {
    hide IsCanonical, IsValidUsername, Run, LegalRun, Admit, Open, MayRegister, OneGroup, TakenOver;
    steps, s := FirstServer(u, s1, c1, k1);
    ServerTakesOver(s, u, s1, s2, c1, k1);
    steps, s := AnotherServer(steps, s, u, s2);
  }

  /** The group is still the first server's, and the second one waits. */
  ghost predicate TakenOver(s: Relay, u: string, s1: string, s2: string, c1: string, k1: string) {
    && s.store.waiting == map[u := s2] && s2 in s.conns && u in s.registry && u in s.groups && s.groups[u].server == s1
    && s.info.Keys == {s1, c1, s2} && s.closed == {} && |s.log| == 1
    && s.info[s1].clientId == "" && s.info[s2] == ConnInfo(u, true, true, "") && s.info[c1].clientId == k1
  }

  lemma ServerTakesOver(s: Relay, u: string, s1: string, s2: string, c1: string, k1: string)
    requires OneGroup(s, u, s1, c1, k1) && s1 != s2 && s2 != c1 && s1 != c1
    ensures MayRegister(s.registry, u, "install") && s2 !in s.info && s2 !in s.closed
    ensures TakenOver(Admit(Open(s, s2), s2, u, "install", true), u, s1, s2, c1, k1)
  {
  }

  /** The username's waiting server is a multi-client one, and the client is new. */
  ghost predicate MayGetClient(s: Relay, u: string, server: string, c: string, k: string) {
    && u != "" && u in s.registry && s.store.waiting == map[u := server] && server in s.conns
    && server in s.info && s.info[server] == ConnInfo(u, true, true, "")
    && c != "" && c !in s.info && c !in s.closed && IsCanonical(k) && k != "" && UnusedClientId(s, k)
  }

  ghost predicate GotClient(s: Relay, t: Relay, u: string, server: string, c: string, k: string) {
    && t.log == s.log + [Event({server}, Joined(c, k))] && t.closed == s.closed
    && t.info == s.info[c := ConnInfo(u, false, false, k)]
    && u in t.groups && t.groups[u].server == if u in s.groups then s.groups[u].server else server
  }

  // A client joins.
  lemma GetsClient(steps: seq<Step>, s: Relay, u: string, server: string, c: string, k: string)
    returns (longer: seq<Step>, t: Relay)
    requires LegalRun(INITIAL, steps) && s == Run(INITIAL, steps) && MayGetClient(s, u, server, c, k)
    ensures LegalRun(INITIAL, longer) && t == Run(INITIAL, longer) && GotClient(s, t, u, server, c, k)
    ensures longer == steps + [Opens(c), Connects(c, u, k)]
  {
    hide IsCanonical, LegalRun, Run;
    longer, t := Extend(steps, Opens(c));
    longer, t := Extend(longer, Connects(c, u, k));
  }

  // Its frame goes to the server of its group.
  lemma SendsToOldServer(steps: seq<Step>, s: Relay, u: string, server: string, c: string, k: string)
    returns (longer: seq<Step>)
    requires LegalRun(INITIAL, steps) && s == Run(INITIAL, steps)
    requires c in s.info && s.info[c] == ConnInfo(u, false, false, k) && u != "" && k != "" && c !in s.closed
    requires u in s.groups && s.groups[u].server == server
    ensures LegalRun(INITIAL, longer)
    ensures Run(INITIAL, longer).log == s.log + [Event({server}, Frame(c, Binary, Wrap(k, Text, [])))]
  {
    hide Wrap, ParseHeader;
    var t: Relay;
    longer, t := Extend(steps, Sends(c, Text, [], true, {}));
    assert {server} - {} == {server};
  }

  /** The takeover shows in runs of nine steps: the second client's joined notice goes to
      the new server, its frame to the old one. */
  lemma TakeoverSplitsStream(u: string, s1: string, s2: string, c1: string, c2: string, k1: string, k2: string)
    returns (steps: seq<Step>)
    requires IsValidUsername(u) && IsCanonical(k1) && IsCanonical(k2) && k1 != k2
    requires s1 != "" && s2 != "" && c1 != "" && c2 != ""
    requires s1 != s2 && s1 != c1 && s1 != c2 && s2 != c1 && s2 != c2 && c1 != c2
    ensures LegalRun(INITIAL, steps)
    ensures var log := Run(INITIAL, steps).log;
            |log| == 3 && log[1] == Event({s2}, Joined(c2, k2)) && log[2].targets == {s1}
            && log[2].msg.Frame? && log[2].msg.cause == c2
  {
    assert k2 != "" && u != "";
    hide IsCanonical, IsValidUsername, Run, LegalRun;
    var s: Relay;
    steps, s := SecondServer(u, s1, s2, c1, k1);
    steps, s := GetsClient(steps, s, u, s2, c2, k2);
    steps := SendsToOldServer(steps, s, u, s1, c2, k2);
  }

  // ----- A reconnect -----

  /** The first server and its group are gone; `log` is all that was written. */
  ghost predicate GroupGone(s: Relay, u: string, s1: string, c1: string, k1: string) {
    && s.store.waiting == map[] && s.groups == map[] && s.closed == {s1} && s.registry == map[u := "install"]
    && s.info == map[s1 := ConnInfo(u, true, true, ""), c1 := ConnInfo(u, false, false, k1)]
    && s.log == [Event({s1}, Joined(c1, k1))]
  }

  /** Another server waits under the username. */
  ghost predicate ServedAgain(s: Relay, u: string, s1: string, s2: string, c1: string, k1: string) {
    && s.store.waiting == map[u := s2] && s2 in s.conns && u in s.registry && s.groups == map[] && s.closed == {s1}
    && s.info.Keys == {s1, c1, s2} && s.info[s1].clientId == "" && s.info[s2] == ConnInfo(u, true, true, "")
    && s.info[c1] == ConnInfo(u, false, false, k1) && s.log == [Event({s1}, Joined(c1, k1))]
  }

  lemma ServerLeaves(s: Relay, u: string, s1: string, c1: string, k1: string)
    requires u != "" && s1 != c1 && OneGroup(s, u, s1, c1, k1)
    ensures GroupGone(Apply(s, Closes(s1)), u, s1, c1, k1) && Legal(s, Closes(s1))
  {
  }

  lemma ServerReturns(s: Relay, u: string, s1: string, s2: string, c1: string, k1: string)
    requires GroupGone(s, u, s1, c1, k1) && s1 != s2 && s2 != c1 && s1 != c1
    ensures MayRegister(s.registry, u, "install") && s2 !in s.info && s2 !in s.closed
    ensures ServedAgain(Admit(Open(s, s2), s2, u, "install", true), u, s1, s2, c1, k1)
  {
  }

  // The first server leaves, its group with it, and another one registers.
  lemma NextServer(u: string, s1: string, s2: string, c1: string, k1: string) returns (steps: seq<Step>, s: Relay)
    requires IsValidUsername(u) && IsCanonical(k1)
    requires s1 != "" && s2 != "" && c1 != "" && s1 != s2 && s1 != c1 && s2 != c1
    ensures LegalRun(INITIAL, steps) && s == Run(INITIAL, steps) && ServedAgain(s, u, s1, s2, c1, k1)
    ensures steps == [Opens(s1), Registers(s1, u, "install", true), Opens(c1), Connects(c1, u, k1),
                      Closes(s1), Opens(s2), Registers(s2, u, "install", true)]
  {
    assert u != "";
    hide IsCanonical, IsValidUsername, Run, LegalRun, Legal, Apply, Admit, Open, MayRegister, OneGroup, GroupGone,
         ServedAgain;
    steps, s := FirstServer(u, s1, c1, k1);
    ServerLeaves(s, u, s1, c1, k1);
    steps, s := Extend(steps, Closes(s1));
    ServerReturns(s, u, s1, s2, c1, k1);
    steps, s := AnotherServer(steps, s, u, s2);
  }

  /** It has a client of its own, while the first client's connection is still open. */
  ghost predicate Stranded(s: Relay, u: string, s1: string, s2: string, c1: string, c2: string, k1: string,
                           k2: string) {
    && s.log == [Event({s1}, Joined(c1, k1)), Event({s2}, Joined(c2, k2))]
    && c1 in s.info && s.info[c1] == ConnInfo(u, false, false, k1) && c1 !in s.closed
    && u in s.groups && s.groups[u].server == s2
  }

  lemma NextClient(u: string, s1: string, s2: string, c1: string, c2: string, k1: string, k2: string)
    returns (steps: seq<Step>, s: Relay)
    requires IsValidUsername(u) && IsCanonical(k1) && IsCanonical(k2) && k1 != k2
    requires s1 != "" && s2 != "" && c1 != "" && c2 != ""
    requires s1 != s2 && s1 != c1 && s1 != c2 && s2 != c1 && s2 != c2 && c1 != c2
    ensures LegalRun(INITIAL, steps) && s == Run(INITIAL, steps) && Stranded(s, u, s1, s2, c1, c2, k1, k2)
    ensures steps == [Opens(s1), Registers(s1, u, "install", true), Opens(c1), Connects(c1, u, k1),
                      Closes(s1), Opens(s2), Registers(s2, u, "install", true),
                      Opens(c2), Connects(c2, u, k2)]
  {
    assert k2 != "" && u != "";
    hide IsCanonical, IsValidUsername, Run, LegalRun, ServedAgain, MayGetClient, GotClient, Stranded;
    var before: Relay;
    steps, before := NextServer(u, s1, s2, c1, k1);
    ServedMayGetClient(before, u, s1, s2, c1, c2, k1, k2);
    steps, s := GetsClient(steps, before, u, s2, c2, k2);
    ClientStrandsOther(before, s, u, s1, s2, c1, c2, k1, k2);
  }

  lemma ServedMayGetClient(s: Relay, u: string, s1: string, s2: string, c1: string, c2: string, k1: string, k2: string)
    requires ServedAgain(s, u, s1, s2, c1, k1) && u != "" && c2 !in {"", s1, s2, c1} && s1 != s2 && s1 != c1 && s2 != c1
    requires IsCanonical(k2) && k2 !in {"", k1}
    ensures MayGetClient(s, u, s2, c2, k2)
  {
    hide IsCanonical;
  }

  lemma ClientStrandsOther(s: Relay, t: Relay, u: string, s1: string, s2: string, c1: string, c2: string, k1: string,
                           k2: string)
    requires ServedAgain(s, u, s1, s2, c1, k1) && GotClient(s, t, u, s2, c2, k2)
    requires s1 != c1 && c2 !in {s1, s2, c1}
    ensures Stranded(t, u, s1, s2, c1, c2, k1, k2)
  {
  }

  // A client of a group that is gone closes while its username has a new one.
  lemma ClosesLate(steps: seq<Step>, s: Relay, u: string, server: string, c: string, k: string)
    returns (longer: seq<Step>)
    requires LegalRun(INITIAL, steps) && s == Run(INITIAL, steps)
    requires c in s.info && s.info[c] == ConnInfo(u, false, false, k) && k != "" && c !in s.closed
    requires u in s.groups && s.groups[u].server == server
    ensures LegalRun(INITIAL, longer) && longer == steps + [Closes(c)]
    ensures Run(INITIAL, longer).log == s.log + [Event({server}, Left(c, k))]
  {
    var t: Relay;
    longer, t := Extend(steps, Closes(c));
  }

  /** No takeover is needed for a stream to go astray. A server leaves and its group with it;
      another one registers and gets a client of its own; only then is the first client's
      connection closed. Its left notice goes to a server that was never told of it. */
  lemma LateGoodbye(u: string, s1: string, s2: string, c1: string, c2: string, k1: string, k2: string)
    returns (steps: seq<Step>)
    requires IsValidUsername(u) && IsCanonical(k1) && IsCanonical(k2) && k1 != k2
    requires s1 != "" && s2 != "" && c1 != "" && c2 != ""
    requires s1 != s2 && s1 != c1 && s1 != c2 && s2 != c1 && s2 != c2 && c1 != c2
    ensures LegalRun(INITIAL, steps)
    ensures steps == [Opens(s1), Registers(s1, u, "install", true), Opens(c1), Connects(c1, u, k1),
                      Closes(s1), Opens(s2), Registers(s2, u, "install", true),
                      Opens(c2), Connects(c2, u, k2), Closes(c1)]
    ensures var log := Run(INITIAL, steps).log;
            && log == [Event({s1}, Joined(c1, k1)), Event({s2}, Joined(c2, k2)), Event({s2}, Left(c1, k1))]
            && StreamAt(log, s2, c1) == Broken
  {
    assert k1 != "";
    hide IsCanonical, IsValidUsername, Run, LegalRun, StreamAt;
    var s: Relay;
    steps, s := NextClient(u, s1, s2, c1, c2, k1, k2);
    steps := ClosesLate(steps, s, u, s2, c1, k1);
    GoodbyeIsBroken(s1, s2, c1, c2, k1, k2);
  }

  lemma OneMore(log: seq<Event>, e: Event, t: string, c: string)
    ensures StreamAt(log + [e], t, c) ==
            if e.msg.cause == c && t in e.targets then Advance(StreamAt(log, t, c), e.msg) else StreamAt(log, t, c)
  {
    assert (log + [e])[..|log|] == log;
  }

  lemma GoodbyeIsBroken(s1: string, s2: string, c1: string, c2: string, k1: string, k2: string)
    requires s1 != s2 && c1 != c2
    ensures StreamAt([Event({s1}, Joined(c1, k1)), Event({s2}, Joined(c2, k2)), Event({s2}, Left(c1, k1))], s2, c1)
            == Broken
  {
    var first, second, third := Event({s1}, Joined(c1, k1)), Event({s2}, Joined(c2, k2)), Event({s2}, Left(c1, k1));
    OneMore([], first, s2, c1);
    assert [] + [first] == [first];
    OneMore([first], second, s2, c1);
    OneMore([first, second], third, s2, c1);
    assert [first, second] + [third] == [first, second, third];
  }
}
