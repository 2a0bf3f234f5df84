/** What the relay's tables say together: who is held, who is counted, who can be reached. */
module RelayRoutes {
  import opened Basics
  import opened FrameCodec
  import opened RelayInvariant
  import opened RelayMachine
  import opened Uuid

  // ----- Every held connection has exactly one role -----

  function Members(groups: map<string, Group>): set<string> {
    set u, k | u in groups && k in groups[u].clients :: groups[u].clients[k]
  }

  lemma MembersAreGroupClients(s: Relay, c: string)
    requires AllGroupsOk(s)
    ensures c in Members(s.groups) <==> InGroup(s, c)
    ensures c in Members(s.groups) ==> c in s.conns && InfoOf(s, c).clientId != "" && !InfoOf(s, c).isServer
  {
    if c in Members(s.groups) {
      var u, k :| u in s.groups && k in s.groups[u].clients && s.groups[u].clients[k] == c;
      assert c in s.groups[u].clients.Values;
      MembersBelong(s, u, c);
    }
  }

  /** The held connections are the waiting servers, the paired ones and the group
      clients, and no connection is two of these. */
  lemma Partition(s: Relay)
    requires Inv(s)
    ensures s.conns == s.store.waiting.Values + s.store.peers.Keys + Members(s.groups)
    ensures s.store.waiting.Values !! s.store.peers.Keys
    ensures s.store.waiting.Values !! Members(s.groups)
    ensures s.store.peers.Keys !! Members(s.groups)
  {
    forall c
      ensures c in s.conns <==> c in s.store.waiting.Values || c in s.store.peers.Keys || c in Members(s.groups)
      ensures c in s.store.waiting.Values ==> c !in s.store.peers && c !in Members(s.groups)
      ensures c in s.store.peers ==> c !in Members(s.groups)
    {
      MembersAreGroupClients(s, c);
      assert c in s.conns ==> HasRole(s, c);
      assert forall u :: u in s.store.waiting ==> WaitingOk(s, u);
      assert c in s.store.peers ==> PeerOk(s, c);
    }
  }

  /** The sum of the sizes of all groups. */
  ghost function TotalClients(groups: map<string, Group>): nat {
    if groups == map[] then 0
    else
      var u :| u in groups;
      |groups[u].clients| + TotalClients(groups - {u})
  }

  /** No client is stored twice. */
  ghost predicate DistinctMembers(groups: map<string, Group>) {
    forall u, v, k, l ::
      u in groups && v in groups && k in groups[u].clients && l in groups[v].clients
      && groups[u].clients[k] == groups[v].clients[l]
      ==> u == v && k == l
  }

  lemma MembersSplit(groups: map<string, Group>, u: string)
    requires u in groups
    ensures Members(groups) == groups[u].clients.Values + Members(groups - {u})
  {
    var clients := groups[u].clients;
    forall c ensures c in Members(groups) <==> c in clients.Values + Members(groups - {u}) {
      if c in Members(groups) {
        var v, k :| v in groups && k in groups[v].clients && groups[v].clients[k] == c;
        assert v != u ==> v in groups - {u};
      }
      if c in clients.Values {
        var k :| k in clients && clients[k] == c;
        assert groups[u].clients[k] == c;
      } else if c in Members(groups - {u}) {
        var v, k :| v in groups - {u} && k in (groups - {u})[v].clients && (groups - {u})[v].clients[k] == c;
        assert groups[v].clients[k] == c;
      }
    }
  }

  lemma MembersDisjoint(groups: map<string, Group>, u: string)
    requires DistinctMembers(groups) && u in groups
    ensures groups[u].clients.Values !! Members(groups - {u})
    ensures Injective(groups[u].clients) && DistinctMembers(groups - {u})
  {
    var clients := groups[u].clients;
    forall c | c in clients.Values ensures c !in Members(groups - {u}) {
      var k :| k in clients && clients[k] == c;
      forall v, l | v in groups - {u} && l in groups[v].clients ensures groups[v].clients[l] != c {
        assert groups[u].clients[k] == c;
      }
    }
  }

  lemma MembersWithout(groups: map<string, Group>, u: string)
    requires DistinctMembers(groups) && u in groups
    ensures |Members(groups)| == |groups[u].clients| + |Members(groups - {u})|
    ensures DistinctMembers(groups - {u})
  {
    MembersSplit(groups, u);
    MembersDisjoint(groups, u);
    InjectiveSize(groups[u].clients);
  }

  lemma {:induction false} CountMembers(groups: map<string, Group>)
    requires DistinctMembers(groups)
    ensures |Members(groups)| == TotalClients(groups)
    decreases |groups|
  {
    if groups == map[] {
      assert Members(groups) == {};
    } else {
      var u :| u in groups && TotalClients(groups) == |groups[u].clients| + TotalClients(groups - {u});
      MembersWithout(groups, u);
      assert |groups - {u}| < |groups| by { assert (groups - {u}).Keys == groups.Keys - {u}; }
      CountMembers(groups - {u});
    }
  }

  lemma InvDistinct(s: Relay)
    requires Inv(s)
    ensures DistinctMembers(s.groups)
  {
    forall u, v, k, l | u in s.groups && v in s.groups && k in s.groups[u].clients && l in s.groups[v].clients
                        && s.groups[u].clients[k] == s.groups[v].clients[l]
      ensures u == v && k == l
    {
      assert GroupOk(s, u) && GroupOk(s, v);
      assert MemberOk(s, u, k, s.groups[u].clients[k]) && MemberOk(s, v, l, s.groups[v].clients[l]);
    }
  }

  lemma WaitingCount(s: Relay)
    requires Inv(s)
    ensures |s.store.waiting.Values| == |s.store.waiting|
  {
    var waiting := s.store.waiting;
    assert forall u :: u in waiting ==> WaitingOk(s, u);
    InjectiveSize(waiting);
  }

  /** Held connections add up: nothing is lost and nothing is counted twice. */
  lemma ConnCount(s: Relay)
    requires Inv(s)
    ensures |s.conns| == |s.store.waiting| + |s.store.peers| + TotalClients(s.groups)
  {
    Partition(s);
    WaitingCount(s);
    InvDistinct(s);
    CountMembers(s.groups);
    assert |s.store.waiting.Values + s.store.peers.Keys| == |s.store.waiting.Values| + |s.store.peers.Keys|;
  }

  // ----- Counting pairs and clients -----

  function ConnectedClients(s: Relay): set<string> {
    set c | c in s.conns && !InfoOf(s, c).isServer
  }

  lemma PeerHalves(s: Relay, clients: set<string>, servers: set<string>)
    requires AllPeersOk(s)
    requires clients == set c | c in s.store.peers && !InfoOf(s, c).isServer
    requires servers == set c | c in s.store.peers && InfoOf(s, c).isServer
    ensures |clients| == |servers|
  {
    var peerOf := map c | c in clients :: s.store.peers[c];
    assert forall c :: c in s.store.peers ==> PeerOk(s, c);
    assert Injective(peerOf);
    assert peerOf.Values == servers by {
      forall c | c in servers ensures c in peerOf.Values { assert peerOf[s.store.peers[c]] == c; }
    }
    InjectiveSize(peerOf);
    assert peerOf.Keys == clients;
  }

  /** `peers` is made of disjoint pairs, so its size is even: half servers, half clients. */
  lemma PeersAreEven(s: Relay)
    requires AllPeersOk(s)
    ensures var clients := set c | c in s.store.peers && !InfoOf(s, c).isServer;
            |s.store.peers| == 2 * |clients|
    ensures forall c :: c in s.store.peers ==>
              s.store.peers[c] != c && s.store.peers[c] in s.store.peers && s.store.peers[s.store.peers[c]] == c
  {
    var clients := set c | c in s.store.peers && !InfoOf(s, c).isServer;
    var servers := set c | c in s.store.peers && InfoOf(s, c).isServer;
    PeerHalves(s, clients, servers);
    assert s.store.peers.Keys == clients + servers;
    assert |clients + servers| == |clients| + |servers|;
    forall c | c in s.store.peers
      ensures s.store.peers[c] != c && s.store.peers[c] in s.store.peers && s.store.peers[s.store.peers[c]] == c
    {
      assert PeerOk(s, c);
    }
  }

  lemma ClientsByMode(s: Relay)
    requires Inv(s)
    ensures ConnectedClients(s) == (set c | c in s.store.peers && !InfoOf(s, c).isServer) + Members(s.groups)
  {
    forall c
      ensures c in ConnectedClients(s) <==> (c in s.store.peers && !InfoOf(s, c).isServer) || c in Members(s.groups)
    {
      MembersAreGroupClients(s, c);
      assert c in s.conns ==> HasRole(s, c);
      assert Waits(s, c) ==> WaitingOk(s, InfoOf(s, c).username);
      assert c in s.store.peers ==> PeerOk(s, c);
    }
  }

  /** The pair count reported by the relay is the number of clients connected in either mode. */
  lemma PairCountIsClientCount(s: Relay)
    requires Inv(s)
    ensures |s.store.peers| / 2 + TotalClients(s.groups) == |ConnectedClients(s)|
  {
    PeersAreEven(s);
    Partition(s);
    InvDistinct(s);
    CountMembers(s.groups);
    var paired := set c | c in s.store.peers && !InfoOf(s, c).isServer;
    ClientsByMode(s);
    assert |paired + Members(s.groups)| == |paired| + |Members(s.groups)|;
  }

  // ----- Paired means routable -----

  /** Where a frame of a paired connection goes. */
  lemma PairedMeansRoutable(s: Relay, c: string, msgType: MessageType, data: seq<byte>)
    requires Inv(s) && IsPaired(s, c)
    ensures var i := InfoOf(s, c); var targets := Targets(s, c, msgType, data);
            if i.clientId != "" then
              i.username in s.groups && targets == {s.groups[i.username].server}
            else if i.multiClient then
              && i.username in s.groups && s.groups[i.username].clients.Values != {}
              && (TargetHeader(msgType, data).None? ==> targets == s.groups[i.username].clients.Values)
              && (TargetHeader(msgType, data).Some? ==>
                    targets == set d | d in s.groups[i.username].clients.Values
                                       && InfoOf(s, d).clientId == TargetHeader(msgType, data).value.clientId)
            else
              c in s.store.peers && targets == {s.store.peers[c]} && s.store.peers[c] in s.conns
  {
    var i := InfoOf(s, c);
    assert c in s.info ==> InfoOk(s, c);
    assert c in s.store.peers ==> PeerOk(s, c) && PeerOk(s, s.store.peers[c]);
    if i.clientId == "" && i.multiClient {
      GroupTargets(s, i.username, msgType, data);
    }
  }

  lemma GroupTargets(s: Relay, u: string, msgType: MessageType, data: seq<byte>)
    requires AllGroupsOk(s) && u in s.groups
    ensures s.groups[u].clients.Values != {}
    ensures TargetHeader(msgType, data).Some? ==>
              var k := TargetHeader(msgType, data).value.clientId;
              var clients := s.groups[u].clients;
              (if k in clients then {clients[k]} else {}) == set d | d in clients.Values && InfoOf(s, d).clientId == k
  {
    var clients := s.groups[u].clients;
    assert GroupOk(s, u);
    assert forall k :: k in clients ==> MemberOk(s, u, k, clients[k]);
    var k0 :| k0 in clients;
    assert clients[k0] in clients.Values;
    if TargetHeader(msgType, data).Some? {
      var k := TargetHeader(msgType, data).value.clientId;
      assert k in clients ==> clients[k] in clients.Values;
    }
  }

  /** A held connection is paired exactly when its plain text frames have somewhere to go. */
  lemma RoutableIffPaired(s: Relay, c: string, data: seq<byte>)
    requires Inv(s) && c in s.conns
    ensures IsPaired(s, c) <==> Targets(s, c, Text, data) != {}
  {
    assert HasRole(s, c) && InfoOk(s, c);
    if IsPaired(s, c) {
      PairedMeansRoutable(s, c, Text, data);
    } else {
      assert InfoOf(s, c).username in s.groups ==> GroupOk(s, InfoOf(s, c).username);
    }
  }

  /** A frame without a target header has nowhere to go exactly when the pair or the group of its
      sender is gone; for a group client, when its username has no group at all. */
  lemma RouteLostIff(s: Relay, c: string, msgType: MessageType, data: seq<byte>)
    requires Inv(s) && c in s.info && s.info[c].username != ""
    requires s.info[c].isServer ==> TargetHeader(msgType, data) == None
    ensures Targets(s, c, msgType, data) == {} <==>
            if s.info[c].clientId != "" then s.info[c].username !in s.groups else !IsPaired(s, c)
  {
    var i := s.info[c];
    assert InfoOk(s, c);
    assert c in s.store.peers ==> PeerOk(s, c) && PeerOk(s, s.store.peers[c]);
    if i.clientId == "" && i.multiClient && i.username in s.groups {
      GroupTargets(s, i.username, msgType, data);
    }
  }

  /** Whoever receives a frame has the sender's username. */
  lemma TargetsShareUsername(s: Relay, c: string, msgType: MessageType, data: seq<byte>)
    requires Sound(s)
    ensures forall d :: d in Targets(s, c, msgType, data) ==>
              d != c && d in s.info && s.info[d].username == InfoOf(s, c).username != ""
  {
    var i := InfoOf(s, c);
    assert c in s.info ==> InfoOk(s, c);
    forall d | d in Targets(s, c, msgType, data)
      ensures d != c && d in s.info && s.info[d].username == i.username != ""
    {
      if i.clientId != "" {
        assert GroupOk(s, i.username);
      } else if i.multiClient && i.username != "" {
        assert d in s.groups[i.username].clients.Values;
        MembersBelong(s, i.username, d);
      } else {
        assert PeerOk(s, c);
      }
    }
  }
}
