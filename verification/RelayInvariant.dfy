/** What every step of the relay keeps. */
module RelayInvariant {
  import opened Basics
  import opened FrameCodec
  import opened RelayMachine
  import opened Uuid
  import Spec = StoreSpec

  // ----- Roles -----

  /** A waiting server waits under its own username and has no peer. */
  ghost predicate WaitingOk(s: Relay, u: string)
    requires u in s.store.waiting
  {
    var c := s.store.waiting[u];
    var i := InfoOf(s, c);
    c in s.conns && c !in s.store.peers && i.username == u && u != "" && i.isServer && i.clientId == ""
  }

  /** Peers come in twos: a server and a client of one username, neither multi-client. */
  ghost predicate PeerOk(s: Relay, c: string)
    requires c in s.store.peers
  {
    var p := s.store.peers[c];
    var i, j := InfoOf(s, c), InfoOf(s, p);
    && p in s.store.peers && s.store.peers[p] == c && c in s.conns
    && i.username == j.username && i.username != "" && i.isServer != j.isServer
    && !i.multiClient && i.clientId == ""
  }

  /** A group has members; its server is a multi-client server of that username
      whose handler still runs. */
  ghost predicate GroupOk(s: Relay, u: string)
    requires u in s.groups
  {
    var g := s.groups[u];
    && u != "" && g.clients != map[]
    && g.server !in s.closed && InfoOf(s, g.server) == ConnInfo(u, true, true, "")
    && forall k :: k in g.clients ==> MemberOk(s, u, k, g.clients[k])
  }

  /** A member is stored under its own client ID in its own username's group. */
  ghost predicate MemberOk(s: Relay, u: string, k: string, c: string) {
    k != "" && c in s.conns && InfoOf(s, c) == ConnInfo(u, false, false, k)
  }

  ghost predicate InGroup(s: Relay, c: string) {
    var i := InfoOf(s, c);
    && i.clientId != "" && i.username in s.groups
    && i.clientId in s.groups[i.username].clients && s.groups[i.username].clients[i.clientId] == c
  }

  ghost predicate Waits(s: Relay, c: string) {
    var u := InfoOf(s, c).username;
    u in s.store.waiting && s.store.waiting[u] == c
  }

  ghost predicate HasRole(s: Relay, c: string) {
    Waits(s, c) || c in s.store.peers || InGroup(s, c)
  }

  /** A connection without a username has no other field set; client IDs belong to clients. */
  ghost predicate InfoOk(s: Relay, c: string)
    requires c in s.info
  {
    var i := s.info[c];
    && c != ""
    && (i.username == "" ==> i == NO_ROLE)
    && (i.clientId != "" ==> !i.isServer && !i.multiClient)
    && (i.multiClient ==> i.isServer)
  }

  ghost predicate IdsOk(s: Relay) {
    && s.conns <= s.info.Keys && s.closed <= s.info.Keys && s.conns !! s.closed
    && "" !in s.registry
    && (forall c :: c in s.info ==> InfoOk(s, c))
    && (forall c :: c in s.conns ==> InfoOf(s, c).username != "")
  }

  /** No two connections have had the same client ID. */
  ghost predicate UniqueClientIds(s: Relay) {
    forall c, d :: c in s.info && d in s.info && s.info[c].clientId == s.info[d].clientId != "" ==> c == d
  }

  ghost predicate AllWaitingOk(s: Relay) { forall u :: u in s.store.waiting ==> WaitingOk(s, u) }
  ghost predicate AllPeersOk(s: Relay) { forall c :: c in s.store.peers ==> PeerOk(s, c) }
  ghost predicate AllGroupsOk(s: Relay) { forall u :: u in s.groups ==> GroupOk(s, u) }
  ghost predicate AllHaveRole(s: Relay) { forall c :: c in s.conns ==> HasRole(s, c) }

  /** Whatever the tables say is so. */
  ghost predicate Sound(s: Relay) {
    IdsOk(s) && UniqueClientIds(s) && AllWaitingOk(s) && AllPeersOk(s) && AllGroupsOk(s)
  }

  /** And they say it of every connection that is held. This is what a store that forgets
      takes away. */
  ghost predicate Inv(s: Relay) {
    Sound(s) && AllHaveRole(s)
  }

  /** The step keeps the tables sound, and complete if they were. */
  ghost predicate Keeps(s: Relay, t: Relay) {
    Sound(t) && (AllHaveRole(s) ==> AllHaveRole(t))
  }

  // ----- Frames: what a step that spares a role leaves of it -----

  /** A connection that is not held, has no peer, does not wait and is in no group. */
  ghost predicate Unlisted(s: Relay, c: string) {
    && c !in s.conns && c !in s.store.peers
    && (forall u :: u in s.store.waiting ==> s.store.waiting[u] != c)
    && (forall u :: u in s.groups ==> c !in s.groups[u].clients.Values)
  }

  /** A connection that no table mentions. */
  ghost predicate Unplaced(s: Relay, c: string) {
    Unlisted(s, c) && forall u :: u in s.groups ==> s.groups[u].server != c
  }

  /** Opened, still served, and in no table. */
  ghost predicate Loose(s: Relay, c: string) {
    c in s.info && c !in s.closed && Unplaced(s, c)
  }

  /** The server of the group of its username, which it may be without waiting. */
  ghost predicate HeadsGroup(s: Relay, c: string) {
    var u := InfoOf(s, c).username;
    u in s.groups && s.groups[u].server == c
  }

  lemma RolelessIsUnplaced(s: Relay, c: string)
    requires Sound(s) && InfoOf(s, c).username == ""
    ensures Unplaced(s, c)
  {
    forall u | u in s.store.waiting ensures s.store.waiting[u] != c { assert WaitingOk(s, u); }
    forall u | u in s.groups ensures s.groups[u].server != c && c !in s.groups[u].clients.Values {
      assert GroupOk(s, u);
      assert forall k :: k in s.groups[u].clients ==> MemberOk(s, u, k, s.groups[u].clients[k]);
    }
    assert c in s.store.peers ==> PeerOk(s, c);
  }

  /** A connection without a role in the tables is in none of them, except that it may still
      be the server of a group. */
  lemma RolelessIsUnlisted(s: Relay, c: string)
    requires Inv(s) && c in s.info && !Waits(s, c) && c !in s.store.peers && !InGroup(s, c)
    ensures Unlisted(s, c) && (!HeadsGroup(s, c) ==> Unplaced(s, c))
  {
    forall u | u in s.store.waiting ensures s.store.waiting[u] != c { assert WaitingOk(s, u); }
    forall u | u in s.groups
      ensures c !in s.groups[u].clients.Values && (s.groups[u].server == c ==> u == InfoOf(s, c).username)
    {
      assert GroupOk(s, u);
      assert forall k :: k in s.groups[u].clients ==> MemberOk(s, u, k, s.groups[u].clients[k]);
    }
    assert c in s.conns ==> HasRole(s, c);
  }

  lemma HeadIsMultiClient(s: Relay, c: string)
    requires Sound(s)
    ensures HeadsGroup(s, c) ==> InfoOf(s, c) == ConnInfo(InfoOf(s, c).username, true, true, "")
  {
    assert HeadsGroup(s, c) ==> GroupOk(s, InfoOf(s, c).username);
  }

  /** `t` differs from `s`, as far as people go, only in what it says of `c`. */
  ghost predicate SameInfoBut(s: Relay, t: Relay, c: string) {
    forall d :: d != c ==> InfoOf(t, d) == InfoOf(s, d)
  }

  lemma IdsFrame(s: Relay, t: Relay, c: string)
    requires IdsOk(s) && SameInfoBut(s, t, c) && c != ""
    requires t.info.Keys == s.info.Keys + {c} && c !in t.closed
    requires t.conns <= s.conns + {c} && t.closed == s.closed && "" !in t.registry
    requires InfoOk(t, c) && (c in t.conns ==> t.info[c].username != "")
    ensures IdsOk(t)
  {
    forall d | d in t.info ensures InfoOk(t, d) {
      if d != c { assert InfoOk(s, d) && InfoOf(t, d) == InfoOf(s, d); }
    }
  }

  lemma UniqueFrame(s: Relay, t: Relay, c: string)
    requires UniqueClientIds(s) && SameInfoBut(s, t, c)
    requires t.info.Keys == s.info.Keys + {c}
    requires t.info[c].clientId == "" || UnusedClientId(s, t.info[c].clientId)
    ensures UniqueClientIds(t)
  {
    forall d, e | d in t.info && e in t.info && t.info[d].clientId == t.info[e].clientId != ""
      ensures d == e
    {
      assert d != c ==> InfoOf(t, d) == InfoOf(s, d);
      assert e != c ==> InfoOf(t, e) == InfoOf(s, e);
    }
  }

  lemma PeersFrame(s: Relay, t: Relay, c: string)
    requires AllPeersOk(s) && Unlisted(s, c) && SameInfoBut(s, t, c)
    requires t.store.peers == s.store.peers
    requires forall d :: d in s.store.peers ==> d in t.conns
    ensures AllPeersOk(t)
  {
    forall d | d in t.store.peers ensures PeerOk(t, d) { assert PeerOk(s, d); }
  }

  /** Groups that a step does not touch stay in order if it spares their people. */
  lemma GroupFrame(s: Relay, t: Relay, u: string)
    requires u in s.groups && u in t.groups && t.groups[u] == s.groups[u] && GroupOk(s, u)
    requires s.groups[u].server !in t.closed && InfoOf(t, s.groups[u].server) == InfoOf(s, s.groups[u].server)
    requires forall c :: c in s.groups[u].clients.Values ==> c in t.conns && InfoOf(t, c) == InfoOf(s, c)
    ensures GroupOk(t, u)
  {
    forall k | k in s.groups[u].clients ensures MemberOk(t, u, k, s.groups[u].clients[k]) {
      assert MemberOk(s, u, k, s.groups[u].clients[k]);
    }
  }

  // ----- Open -----

  lemma OpenKeeps(s: Relay, c: string)
    requires Sound(s) && Legal(s, Opens(c))
    ensures Keeps(s, Open(s, c))
  {
    var t := Open(s, c);
    RolelessIsUnplaced(s, c);
    IdsFrame(s, t, c);
    UniqueFrame(s, t, c);
    forall u | u in t.store.waiting ensures WaitingOk(t, u) { assert WaitingOk(s, u); }
    assert AllPeersOk(t) by {
      forall d | d in s.store.peers ensures d in t.conns { assert PeerOk(s, d); }
      PeersFrame(s, t, c);
    }
    forall u | u in t.groups ensures GroupOk(t, u) { GroupFrame(s, t, u); }
    if AllHaveRole(s) {
      forall d | d in t.conns ensures HasRole(t, d) { assert HasRole(s, d); }
    }
  }

  // ----- Register -----

  lemma AdmitWaiting(s: Relay, c: string, username: string, install: string, multi: bool)
    requires AllWaitingOk(s) && Unlisted(s, c) && InfoOf(s, c).clientId == "" && username != ""
    ensures AllWaitingOk(Admit(s, c, username, install, multi))
  {
    var t := Admit(s, c, username, install, multi);
    assert username in s.store.waiting ==> WaitingOk(s, username);
    forall u | u in t.store.waiting ensures WaitingOk(t, u) {
      if u != username { assert WaitingOk(s, u); }
    }
  }

  lemma AdmitPeers(s: Relay, c: string, username: string, install: string, multi: bool)
    requires AllWaitingOk(s) && AllPeersOk(s) && Unlisted(s, c)
    ensures AllPeersOk(Admit(s, c, username, install, multi))
  {
    var t := Admit(s, c, username, install, multi);
    forall d | d in s.store.peers ensures d in t.conns {
      assert PeerOk(s, d);
      assert username in s.store.waiting ==> WaitingOk(s, username);
    }
    PeersFrame(s, t, c);
  }

  lemma AdmitSparesGroup(s: Relay, c: string, username: string, install: string, multi: bool, u: string)
    requires AllWaitingOk(s) && AllGroupsOk(s) && Unlisted(s, c) && u in s.groups
    requires s.groups[u].server == c ==> u == username && multi
    ensures GroupOk(Admit(s, c, username, install, multi), u)
  {
    var t := Admit(s, c, username, install, multi);
    assert GroupOk(s, u);
    assert username in s.store.waiting ==> WaitingOk(s, username);
    forall d | d in s.groups[u].clients.Values ensures d in t.conns && InfoOf(t, d) == InfoOf(s, d) {
      var k :| k in s.groups[u].clients && s.groups[u].clients[k] == d;
      assert MemberOk(s, u, k, d);
    }
    GroupFrame(s, t, u);
  }

  lemma AdmitGroups(s: Relay, c: string, username: string, install: string, multi: bool)
    requires AllWaitingOk(s) && AllGroupsOk(s) && Unlisted(s, c)
    requires forall u :: u in s.groups && s.groups[u].server == c ==> u == username && multi
    ensures AllGroupsOk(Admit(s, c, username, install, multi))
  {
    hide GroupOk;
    forall u | u in Admit(s, c, username, install, multi).groups
      ensures GroupOk(Admit(s, c, username, install, multi), u)
    {
      AdmitSparesGroup(s, c, username, install, multi, u);
    }
  }

  lemma AdmitRoles(s: Relay, c: string, username: string, install: string, multi: bool)
    requires AllHaveRole(s) && AllWaitingOk(s) && Unlisted(s, c) && "" !in s.conns
    ensures AllHaveRole(Admit(s, c, username, install, multi))
  {
    var t := Admit(s, c, username, install, multi);
    assert username in s.store.waiting ==> WaitingOk(s, username);
    forall d | d in t.conns ensures HasRole(t, d) {
      if d != c { assert HasRole(s, d); }
    }
  }

  /** Registering keeps the invariant for any connection outside the tables, unless it has been
      a group client; if it still heads a group, it has to register as that group's server. */
  lemma RegisterUnlisted(s: Relay, c: string, username: string, install: string, multi: bool)
    requires Sound(s) && c in s.info && c !in s.closed && Unlisted(s, c) && s.info[c].clientId == ""
    requires forall u :: u in s.groups && s.groups[u].server == c ==> u == username && multi
    ensures Keeps(s, Register(s, c, username, install, multi).0)
  {
    if Register(s, c, username, install, multi).1 == Registered {
      var t := Admit(s, c, username, install, multi);
      assert InfoOk(s, c);
      IdsFrame(s, t, c);
      UniqueFrame(s, t, c);
      AdmitWaiting(s, c, username, install, multi);
      AdmitPeers(s, c, username, install, multi);
      AdmitGroups(s, c, username, install, multi);
      if AllHaveRole(s) { AdmitRoles(s, c, username, install, multi); }
    }
  }

  lemma RegisterKeeps(s: Relay, c: string, username: string, install: string, multi: bool)
    requires Sound(s) && Idle(s, c)
    ensures Keeps(s, Register(s, c, username, install, multi).0)
  {
    RolelessIsUnplaced(s, c);
    RegisterUnlisted(s, c, username, install, multi);
  }

  // ----- Connect to a multi-client server -----

  lemma JoinTables(s: Relay, c: string, username: string, server: string, newId: string)
    requires AllWaitingOk(s) && AllPeersOk(s) && Unplaced(s, c)
    ensures var t := JoinGroup(s, c, username, server, newId); AllWaitingOk(t) && AllPeersOk(t)
  {
    var t := JoinGroup(s, c, username, server, newId);
    forall u | u in t.store.waiting ensures WaitingOk(t, u) { assert WaitingOk(s, u); }
    forall d | d in s.store.peers ensures d in t.conns { assert PeerOk(s, d); }
    PeersFrame(s, t, c);
  }

  lemma JoinGroups(s: Relay, c: string, username: string, server: string, newId: string)
    requires AllGroupsOk(s) && Unplaced(s, c) && !InfoOf(s, c).multiClient && newId != "" && username != ""
    requires server != c && server !in s.closed && InfoOf(s, server) == ConnInfo(username, true, true, "")
    ensures AllGroupsOk(JoinGroup(s, c, username, server, newId))
  {
    var t := JoinGroup(s, c, username, server, newId);
    forall u | u in t.groups ensures GroupOk(t, u) {
      assert u in s.groups ==> GroupOk(s, u);
      forall k | k in t.groups[u].clients ensures MemberOk(t, u, k, t.groups[u].clients[k]) {
        if u != username || k != newId { assert MemberOk(s, u, k, s.groups[u].clients[k]); }
      }
      assert u == username ==> newId in t.groups[u].clients;
    }
  }

  lemma JoinRoles(s: Relay, c: string, username: string, server: string, newId: string)
    requires AllHaveRole(s) && c !in s.conns && newId != "" && UnusedClientId(s, newId)
    ensures AllHaveRole(JoinGroup(s, c, username, server, newId))
  {
    var t := JoinGroup(s, c, username, server, newId);
    forall d | d in t.conns ensures HasRole(t, d) {
      if d == c {
        assert InGroup(t, c);
      } else {
        assert HasRole(s, d);
        assert InfoOf(t, d) == InfoOf(s, d) && InfoOf(s, d).clientId != newId;
      }
    }
  }

  lemma JoinGroupKeeps(s: Relay, c: string, username: string, newId: string)
    requires Sound(s) && Loose(s, c) && !s.info[c].multiClient && newId != "" && UnusedClientId(s, newId)
    requires username in s.store.waiting && InfoOf(s, s.store.waiting[username]).multiClient
    ensures Keeps(s, JoinGroup(s, c, username, s.store.waiting[username], newId))
  {
    var server := s.store.waiting[username];
    var t := JoinGroup(s, c, username, server, newId);
    assert WaitingOk(s, username) && InfoOk(s, c);
    IdsFrame(s, t, c);
    UniqueFrame(s, t, c);
    JoinTables(s, c, username, server, newId);
    JoinGroups(s, c, username, server, newId);
    if AllHaveRole(s) { JoinRoles(s, c, username, server, newId); }
  }

  // ----- Connect to a legacy server -----

  lemma PairTables(s: Relay, t: Relay, c: string, username: string, server: string)
    requires AllWaitingOk(s) && AllPeersOk(s) && Unplaced(s, c) && SameInfoBut(s, t, c)
    requires username in s.store.waiting && server == s.store.waiting[username] && !InfoOf(s, server).multiClient
    requires InfoOf(t, c) == ConnInfo(username, false, false, "")
    requires t.conns == s.conns + {c} && t.store == Spec.CreatePair(s.store, server, c, username)
    ensures AllWaitingOk(t) && AllPeersOk(t)
  {
    assert WaitingOk(s, username);
    forall u | u in t.store.waiting ensures WaitingOk(t, u) { assert WaitingOk(s, u); }
    forall d | d in t.store.peers ensures PeerOk(t, d) {
      if d in s.store.peers { assert PeerOk(s, d); }
    }
  }

  lemma PairGroups(s: Relay, t: Relay, c: string)
    requires AllGroupsOk(s) && Unplaced(s, c) && SameInfoBut(s, t, c)
    requires t.groups == s.groups && t.conns == s.conns + {c} && t.closed == s.closed
    ensures AllGroupsOk(t)
  {
    forall u | u in t.groups ensures GroupOk(t, u) {
      assert GroupOk(s, u);
      forall d | d in s.groups[u].clients.Values ensures d in t.conns && InfoOf(t, d) == InfoOf(s, d) {
        var k :| k in s.groups[u].clients && s.groups[u].clients[k] == d;
        assert MemberOk(s, u, k, d);
      }
      GroupFrame(s, t, u);
    }
  }

  lemma PairRoles(s: Relay, t: Relay, c: string, username: string)
    requires AllHaveRole(s) && SameInfoBut(s, t, c) && username in s.store.waiting && t.groups == s.groups
    requires t.conns == s.conns + {c} && t.store == Spec.CreatePair(s.store, s.store.waiting[username], c, username)
    ensures AllHaveRole(t)
  {
    forall d | d in t.conns ensures HasRole(t, d) {
      if d != c {
        assert HasRole(s, d) && InfoOf(t, d) == InfoOf(s, d);
      }
    }
  }

  lemma PairKeeps(s: Relay, c: string, username: string, newId: string)
    requires Sound(s) && Loose(s, c) && !s.info[c].multiClient && username in s.registry
    requires username in s.store.waiting && !InfoOf(s, s.store.waiting[username]).multiClient
    ensures Keeps(s, Connect(s, c, username, newId).0)
  {
    var t := Connect(s, c, username, newId).0;
    var server := s.store.waiting[username];
    assert WaitingOk(s, username) && InfoOk(s, c);
    hide AllWaitingOk, AllPeersOk, AllGroupsOk, AllHaveRole, UniqueClientIds;
    IdsFrame(s, t, c);
    UniqueFrame(s, t, c);
    PairTables(s, t, c, username, server);
    PairGroups(s, t, c);
    if AllHaveRole(s) { PairRoles(s, t, c, username); }
  }

  /** Connecting keeps the invariant for any connection outside the tables, unless it has
      been a multi-client server. */
  lemma ConnectUnplaced(s: Relay, c: string, username: string, newId: string)
    requires Sound(s) && Loose(s, c) && !s.info[c].multiClient && newId != "" && UnusedClientId(s, newId)
    ensures Keeps(s, Connect(s, c, username, newId).0)
  {
    if username in s.registry && username in s.store.waiting {
      assert WaitingOk(s, username);
      if InfoOf(s, s.store.waiting[username]).multiClient {
        JoinGroupKeeps(s, c, username, newId);
      } else {
        PairKeeps(s, c, username, newId);
      }
    }
  }

  lemma ConnectKeeps(s: Relay, c: string, username: string, newId: string)
    requires Sound(s) && Idle(s, c) && newId != "" && UnusedClientId(s, newId)
    ensures Keeps(s, Connect(s, c, username, newId).0)
  {
    RolelessIsUnplaced(s, c);
    ConnectUnplaced(s, c, username, newId);
  }

  // ----- Forward -----

  lemma ForwardKeeps(s: Relay, t: Relay)
    requires Sound(s) && t == s.(sent := t.sent, log := t.log)
    ensures Keeps(s, t)
  {
    assert IdsOk(t) by { forall d | d in t.info ensures InfoOk(t, d) { assert InfoOk(s, d); } }
    assert AllGroupsOk(t) by { forall u | u in t.groups ensures GroupOk(t, u) { GroupFrame(s, t, u); } }
    ForwardTables(s, t);
  }

  lemma ForwardTables(s: Relay, t: Relay)
    requires AllWaitingOk(s) && AllPeersOk(s) && t == s.(sent := t.sent, log := t.log)
    ensures AllWaitingOk(t) && AllPeersOk(t) && (AllHaveRole(s) ==> AllHaveRole(t))
  {
    forall u | u in t.store.waiting ensures WaitingOk(t, u) { assert WaitingOk(s, u); }
    forall d | d in t.store.peers ensures PeerOk(t, d) { assert PeerOk(s, d); }
    forall d | d in t.conns && HasRole(s, d) ensures HasRole(t, d) { }
  }

  // ----- Close -----

  /** A close takes connections away and nothing else from the people. */
  ghost predicate Removes(s: Relay, t: Relay, c: string) {
    t.info == s.info && t.registry == s.registry && t.conns <= s.conns - {c} && t.closed == s.closed + {c}
  }

  lemma RemovesKeepsIds(s: Relay, t: Relay, c: string)
    requires IdsOk(s) && UniqueClientIds(s) && c in s.info && Removes(s, t, c)
    ensures IdsOk(t) && UniqueClientIds(t)
  {
    forall d | d in t.info ensures InfoOk(t, d) { assert InfoOk(s, d); }
  }

  /** Waiting servers and peers are not in the way of a step that takes others away. */
  lemma TablesFrame(s: Relay, t: Relay, gone: set<string>)
    requires AllWaitingOk(s) && AllPeersOk(s) && t.info == s.info && t.conns == s.conns - gone
    requires t.store.peers == s.store.peers
    requires forall u :: u in t.store.waiting ==>
               u in s.store.waiting && t.store.waiting[u] == s.store.waiting[u] && t.store.waiting[u] !in gone
    requires forall d :: d in gone ==> d !in s.store.peers
    ensures AllWaitingOk(t) && AllPeersOk(t)
  {
    forall u | u in t.store.waiting ensures WaitingOk(t, u) { assert WaitingOk(s, u); }
    forall d | d in t.store.peers ensures PeerOk(t, d) { assert PeerOk(s, d); }
  }

  lemma MembersBelong(s: Relay, u: string, c: string)
    requires AllGroupsOk(s) && u in s.groups && c in s.groups[u].clients.Values
    ensures c in s.conns && InGroup(s, c)
    ensures InfoOf(s, c).username == u && InfoOf(s, c).clientId != "" && !InfoOf(s, c).isServer
  {
    assert GroupOk(s, u);
    var k :| k in s.groups[u].clients && s.groups[u].clients[k] == c;
    assert MemberOk(s, u, k, c);
  }

  lemma ClientsHaveNoTable(s: Relay, c: string)
    requires AllWaitingOk(s) && AllPeersOk(s) && InfoOf(s, c).clientId != ""
    ensures c !in s.store.peers
    ensures forall u :: u in s.store.waiting ==> s.store.waiting[u] != c
  {
    assert c in s.store.peers ==> PeerOk(s, c);
    forall u | u in s.store.waiting ensures s.store.waiting[u] != c { assert WaitingOk(s, u); }
  }

  // A member leaves: its group loses it, and goes when it was the last.

  /** A member other than the one that leaves stays a member. */
  lemma MemberStays(s: Relay, c: string, i: ConnInfo, u: string, k: string)
    requires i == InfoOf(s, c) && i.username in s.groups && u in s.groups && k in s.groups[u].clients
    requires MemberOk(s, u, k, s.groups[u].clients[k]) && (u != i.username || k != i.clientId)
    ensures MemberOk(LeaveGroup(s.(closed := s.closed + {c}), c, i), u, k, s.groups[u].clients[k])
  {
  }

  lemma LeaveOneGroup(s: Relay, c: string, i: ConnInfo, u: string)
    requires i == InfoOf(s, c) && i.username in s.groups && !i.isServer && u in s.groups && GroupOk(s, u)
    ensures var t := LeaveGroup(s.(closed := s.closed + {c}), c, i); u in t.groups ==> GroupOk(t, u)
  {
    hide MemberOk;
    var t := LeaveGroup(s.(closed := s.closed + {c}), c, i);
    if u in t.groups {
      forall k | k in t.groups[u].clients ensures MemberOk(t, u, k, t.groups[u].clients[k]) {
        MemberStays(s, c, i, u, k);
      }
    }
  }

  lemma LeaveGroups(s: Relay, c: string, i: ConnInfo)
    requires AllGroupsOk(s) && i == InfoOf(s, c) && i.username in s.groups && !i.isServer
    ensures AllGroupsOk(LeaveGroup(s.(closed := s.closed + {c}), c, i))
  {
    hide GroupOk;
    var t := LeaveGroup(s.(closed := s.closed + {c}), c, i);
    forall u | u in t.groups ensures GroupOk(t, u) {
      LeaveOneGroup(s, c, i, u);
    }
  }

  lemma LeaveRoles(s: Relay, c: string, i: ConnInfo)
    requires AllHaveRole(s) && UniqueClientIds(s) && s.conns <= s.info.Keys
    requires c in s.info && i == s.info[c] && i.clientId != "" && i.username in s.groups
    ensures AllHaveRole(LeaveGroup(s.(closed := s.closed + {c}), c, i))
  {
    var t := LeaveGroup(s.(closed := s.closed + {c}), c, i);
    forall d | d in t.conns ensures HasRole(t, d) {
      assert HasRole(s, d);
      var j := s.info[d];
      assert InfoOf(t, d) == InfoOf(s, d) == j;
      if InGroup(s, d) {
        assert j.clientId != i.clientId;
        assert j.username == i.username ==> j.clientId in Without(s.groups[i.username].clients, i.clientId);
        assert InGroup(t, d);
      }
    }
  }

  lemma LeaveTables(s: Relay, c: string, i: ConnInfo)
    requires AllWaitingOk(s) && AllPeersOk(s)
    requires i == InfoOf(s, c) && i.clientId != "" && i.username in s.groups
    ensures var t := LeaveGroup(s.(closed := s.closed + {c}), c, i); AllWaitingOk(t) && AllPeersOk(t)
  {
    ClientsHaveNoTable(s, c);
    TablesFrame(s, LeaveGroup(s.(closed := s.closed + {c}), c, i), {c});
  }

  lemma LeaveGroupKeeps(s: Relay, c: string)
    requires Sound(s) && c in s.info && s.info[c].clientId != "" && s.info[c].username in s.groups
    ensures Keeps(s, Close(s, c).0)
  {
    var t := LeaveGroup(s.(closed := s.closed + {c}), c, s.info[c]);
    assert InfoOk(s, c);
    RemovesKeepsIds(s, t, c);
    LeaveTables(s, c, s.info[c]);
    LeaveGroups(s, c, s.info[c]);
    if AllHaveRole(s) { LeaveRoles(s, c, s.info[c]); }
  }

  // A multi-client server leaves: its username's group goes, with all its members.
  lemma DissolveTables(s: Relay, c: string, i: ConnInfo)
    requires AllWaitingOk(s) && AllPeersOk(s) && AllGroupsOk(s)
    requires i == InfoOf(s, c) && i.multiClient && i.username in s.groups
    ensures var t := Dissolve(s.(closed := s.closed + {c}), c, i); AllWaitingOk(t) && AllPeersOk(t)
  {
    var t := Dissolve(s.(closed := s.closed + {c}), c, i);
    var gone := s.groups[i.username].clients.Values + {c};
    forall d | d in gone
      ensures d !in s.store.peers
      ensures forall u :: u in s.store.waiting && s.store.waiting[u] == d ==> d == c && u == i.username
    {
      if d in s.groups[i.username].clients.Values {
        MembersBelong(s, i.username, d);
        ClientsHaveNoTable(s, d);
      } else {
        assert d in s.store.peers ==> PeerOk(s, d);
        assert forall u :: u in s.store.waiting ==> WaitingOk(s, u);
      }
    }
    assert t.conns == s.conns - gone;
    TablesFrame(s, t, gone);
  }

  lemma DissolveSparesGroup(s: Relay, c: string, i: ConnInfo, u: string)
    requires AllGroupsOk(s) && i == InfoOf(s, c) && i.multiClient && i.isServer && i.username in s.groups
    requires u in s.groups && u != i.username
    ensures var t := Dissolve(s.(closed := s.closed + {c}), c, i); u in t.groups && GroupOk(t, u)
  {
    var t := Dissolve(s.(closed := s.closed + {c}), c, i);
    assert GroupOk(s, u);
    forall d | d in s.groups[u].clients.Values ensures d in t.conns {
      MembersBelong(s, u, d);
      if d in s.groups[i.username].clients.Values { MembersBelong(s, i.username, d); }
    }
    GroupFrame(s, t, u);
  }

  lemma DissolveGroups(s: Relay, c: string, i: ConnInfo)
    requires AllGroupsOk(s) && i == InfoOf(s, c) && i.multiClient && i.isServer && i.username in s.groups
    ensures AllGroupsOk(Dissolve(s.(closed := s.closed + {c}), c, i))
  {
    hide GroupOk;
    var t := Dissolve(s.(closed := s.closed + {c}), c, i);
    forall u | u in t.groups ensures GroupOk(t, u) {
      DissolveSparesGroup(s, c, i, u);
    }
  }

  lemma DissolveRoles(s: Relay, c: string, i: ConnInfo)
    requires AllHaveRole(s) && i == InfoOf(s, c) && i.username in s.groups
    ensures AllHaveRole(Dissolve(s.(closed := s.closed + {c}), c, i))
  {
    var t := Dissolve(s.(closed := s.closed + {c}), c, i);
    forall d | d in t.conns ensures HasRole(t, d) {
      assert HasRole(s, d) && InfoOf(t, d) == InfoOf(s, d);
    }
  }

  lemma DissolveKeeps(s: Relay, c: string)
    requires Sound(s) && c in s.info && s.info[c].clientId == "" && s.info[c].multiClient
    requires s.info[c].username in s.groups
    ensures Keeps(s, Close(s, c).0)
  {
    var t := Dissolve(s.(closed := s.closed + {c}), c, s.info[c]);
    assert InfoOk(s, c);
    RemovesKeepsIds(s, t, c);
    DissolveTables(s, c, s.info[c]);
    DissolveGroups(s, c, s.info[c]);
    if AllHaveRole(s) { DissolveRoles(s, c, s.info[c]); }
  }

  // Any other connection leaves: the waiting place or the pair that it held goes.
  lemma PlainCloseGroups(s: Relay, t: Relay, c: string)
    requires AllGroupsOk(s) && AllPeersOk(s)
    requires InfoOf(s, c).username !in s.groups || (InfoOf(s, c).clientId == "" && !InfoOf(s, c).multiClient)
    requires t.info == s.info && t.groups == s.groups && t.closed == s.closed + {c}
    requires t.conns == s.conns - {c} || (c in s.store.peers && t.conns == s.conns - {c} - {s.store.peers[c]})
    ensures AllGroupsOk(t)
  {
    forall u | u in t.groups ensures GroupOk(t, u) {
      assert GroupOk(s, u);
      forall d | d in s.groups[u].clients.Values ensures d in t.conns {
        MembersBelong(s, u, d);
        assert c in s.store.peers ==> PeerOk(s, c) && PeerOk(s, s.store.peers[c]);
      }
      GroupFrame(s, t, u);
    }
  }

  lemma StopWaiting(s: Relay, t: Relay, c: string)
    requires AllWaitingOk(s) && AllPeersOk(s) && Waits(s, c)
    requires t.info == s.info && t.groups == s.groups && t.conns == s.conns - {c}
    requires t.store == s.store.(waiting := Without(s.store.waiting, InfoOf(s, c).username))
    ensures AllWaitingOk(t) && AllPeersOk(t) && (AllHaveRole(s) ==> AllHaveRole(t))
  {
    assert WaitingOk(s, InfoOf(s, c).username);
    forall u | u in t.store.waiting ensures t.store.waiting[u] != c { assert WaitingOk(s, u); }
    TablesFrame(s, t, {c});
    forall d | d in t.conns && HasRole(s, d) ensures HasRole(t, d) { }
  }

  lemma BreakPair(s: Relay, t: Relay, c: string)
    requires AllWaitingOk(s) && AllPeersOk(s) && c in s.store.peers
    requires t.info == s.info && t.groups == s.groups && t.conns == s.conns - {c} - {s.store.peers[c]}
    requires t.store == Spec.RemovePair(s.store, c).0
    ensures AllWaitingOk(t) && AllPeersOk(t) && (AllHaveRole(s) ==> AllHaveRole(t))
  {
    assert PeerOk(s, c) && PeerOk(s, s.store.peers[c]);
    forall u | u in t.store.waiting ensures WaitingOk(t, u) { assert WaitingOk(s, u); }
    forall d | d in t.store.peers ensures PeerOk(t, d) { assert PeerOk(s, d); }
    forall d | d in t.conns && HasRole(s, d) ensures HasRole(t, d) { }
  }

  lemma NothingToBreak(s: Relay, t: Relay, c: string)
    requires AllWaitingOk(s) && AllPeersOk(s) && AllGroupsOk(s)
    requires c !in s.store.peers && !Waits(s, c)
    requires t.info == s.info && t.groups == s.groups && t.conns == s.conns - {c} && t.store == s.store
    ensures AllWaitingOk(t) && AllPeersOk(t) && (AllHaveRole(s) ==> AllHaveRole(t))
  {
    forall u | u in t.store.waiting ensures t.store.waiting[u] != c { assert WaitingOk(s, u); }
    TablesFrame(s, t, {c});
    forall d | d in t.conns && HasRole(s, d) ensures HasRole(t, d) { }
  }

  lemma PlainCloseKeeps(s: Relay, c: string)
    requires Sound(s) && c in s.info
    requires s.info[c].username !in s.groups || (s.info[c].clientId == "" && !s.info[c].multiClient)
    ensures Keeps(s, Close(s, c).0)
  {
    var t := Close(s, c).0;
    assert InfoOk(s, c);
    assert Waits(s, c) ==> WaitingOk(s, s.info[c].username);
    hide AllWaitingOk, AllPeersOk, AllGroupsOk, AllHaveRole, UniqueClientIds;
    RemovesKeepsIds(s, t, c);
    PlainCloseGroups(s, t, c);
    if Waits(s, c) {
      StopWaiting(s, t, c);
    } else if c in s.store.peers {
      BreakPair(s, t, c);
    } else {
      NothingToBreak(s, t, c);
    }
  }

  lemma CloseKeeps(s: Relay, c: string)
    requires Sound(s) && c in s.info
    ensures Keeps(s, Close(s, c).0)
  {
    if s.info[c].username in s.groups && s.info[c].clientId != "" {
      LeaveGroupKeeps(s, c);
    } else if s.info[c].username in s.groups && s.info[c].multiClient {
      DissolveKeeps(s, c);
    } else {
      PlainCloseKeeps(s, c);
    }
  }

  // ----- Runs -----

  lemma StepKeepsSound(s: Relay, step: Step)
    requires Sound(s) && Legal(s, step)
    ensures Keeps(s, Apply(s, step))
  {
    hide Sound, AllHaveRole, Keeps, IsCanonical, UnusedClientId, Close, Register, Connect, Forward;
    match step
    case Opens(c) => OpenKeeps(s, c);
    case Registers(c, username, install, multi) => RegisterKeeps(s, c, username, install, multi);
    case Connects(c, username, newId) =>
      CanonicalIsNotEmpty(newId);
      ConnectKeeps(s, c, username, newId);
    case Sends(c, msgType, data, permitted, slow) =>
      SendsOnlyLogs(s, c, msgType, data, permitted, slow);
      ForwardKeeps(s, Apply(s, step));
    case Closes(c) => CloseKeeps(s, c);
  }

  lemma CanonicalIsNotEmpty(id: string)
    requires IsCanonical(id)
    ensures id != ""
  {
  }

  lemma SendsOnlyLogs(s: Relay, c: string, msgType: MessageType, data: seq<byte>, permitted: bool, slow: set<string>)
    ensures var t := Forward(s, c, msgType, data, permitted, slow); t == s.(sent := t.sent, log := t.log)
  {
  }

  lemma StepKeeps(s: Relay, step: Step)
    requires Inv(s) && Legal(s, step)
    ensures Inv(Apply(s, step))
  {
    StepKeepsSound(s, step);
  }

  /** Every state of every legal run keeps the invariant. */
  lemma {:induction false} RunKeeps(s: Relay, steps: seq<Step>)
    requires Inv(s) && LegalRun(s, steps)
    ensures Inv(Run(s, steps))
  {
    if steps != [] {
      var before := steps[..|steps| - 1];
      RunKeeps(s, before);
      StepKeeps(Run(s, before), steps[|steps| - 1]);
    }
  }

  lemma InvIsSound(s: Relay)
    requires Inv(s)
    ensures Sound(s)
  {
  }

  lemma ReachableInv(steps: seq<Step>)
    requires LegalRun(INITIAL, steps)
    ensures Inv(Run(INITIAL, steps)) && Sound(Run(INITIAL, steps))
  {
    RunKeeps(INITIAL, steps);
  }
}
