/** The manager as the program has it: objects whose fields the methods update in place.
    Every method is proved to take the step of the relay state machine that it stands for. */
module Manager {
  import opened Basics
  import opened FrameCodec
  import opened MemStore
  import opened Protocol
  import opened Registry
  import opened RelayInvariant
  import opened RelayMachine
  import opened RelayRoutes
  import opened ReplayBuffer
  import opened Uuid
  import Spec = StoreSpec
  import Writes = Backpressure


  class Conn {
    const id: string
    var username: string
    var isServer: bool
    var multiClient: bool
    var clientId: string
    var pendingWrites: int
    var notices: nat            // backpressure notices sent to this connection
    ghost var inbox: seq<Msg>   // writes attempted on its socket

    constructor (id: string)
      ensures this.id == id && Info() == NO_ROLE && pendingWrites == 0 && inbox == []
    {
      this.id := id;
      username, isServer, multiClient, clientId := "", false, false, "";
      pendingWrites, notices, inbox := 0, 0, [];
    }

    ghost function Info(): ConnInfo
      reads this`username, this`isServer, this`multiClient, this`clientId
    {
      ConnInfo(username, isServer, multiClient, clientId)
    }

    /** The fields agree with what the state machine says of this connection. */
    ghost predicate Matches(info: map<string, ConnInfo>)
      reads this`username, this`isServer, this`multiClient, this`clientId
    {
      id in info && Info() == info[id]
    }

    /** So many writes are under way that the next one is dropped. */
    ghost predicate Slow()
      reads this`pendingWrites
    {
      pendingWrites >= Writes.MAX_PENDING_WRITES
    }

    method SendControl(msg: Msg)
      modifies this`inbox
      ensures inbox == old(inbox) + [msg]
    {
      inbox := inbox + [msg];
    }
  }

  datatype MultiClientGroup = MultiClientGroup(serverConn: Conn, clients: map<string, Conn>)

  // ----- How the references that the manager keeps stand for IDs -----

  ghost predicate IdsMatch(known: set<Conn>, byId: map<string, Conn>) {
    forall c :: c in known ==> c.id in byId && byId[c.id] == c
  }

  ghost predicate SameKeys(byId: map<string, Conn>, info: map<string, ConnInfo>) {
    forall id :: id in byId <==> id in info
  }

  ghost predicate PeopleMatch(known: set<Conn>, info: map<string, ConnInfo>)
    reads known`username, known`isServer, known`multiClient, known`clientId
  {
    forall c :: c in known ==> c.Matches(info)
  }

  ghost predicate ConnsRefine(known: set<Conn>, conns: map<string, Conn>, held: set<string>) {
    conns.Keys == held && forall id :: id in conns ==> conns[id] in known && conns[id].id == id
  }

  ghost predicate GroupRefines(known: set<Conn>, g: MultiClientGroup, h: Group) {
    && g.serverConn in known && g.serverConn.id == h.server
    && g.clients.Keys == h.clients.Keys
    && forall k :: k in g.clients ==> g.clients[k] in known && g.clients[k].id == h.clients[k]
  }

  ghost predicate GroupsRefine(known: set<Conn>, multiGroups: map<string, MultiClientGroup>, groups: map<string,
                               Group>) {
    && multiGroups.Keys == groups.Keys
    && forall u :: u in multiGroups ==> GroupRefines(known, multiGroups[u], groups[u])
  }

  lemma InfoOfKnown(known: set<Conn>, m: Relay, c: Conn)
    requires PeopleMatch(known, m.info) && c in known
    ensures InfoOf(m, c.id) == c.Info() && c.id in m.info
  {
  }

  lemma ConnOfHeld(known: set<Conn>, conns: map<string, Conn>, held: set<string>, id: string)
    requires ConnsRefine(known, conns, held)
    ensures id in conns <==> id in held
    ensures id in conns ==> conns[id] in known && conns[id].id == id
  {
  }

  lemma ConnAdded(known: set<Conn>, conns: map<string, Conn>, held: set<string>, c: Conn)
    requires ConnsRefine(known, conns, held) && c in known
    ensures ConnsRefine(known, conns[c.id := c], held + {c.id})
  {
  }

  lemma ConnDropped(known: set<Conn>, conns: map<string, Conn>, held: set<string>, id: string)
    requires ConnsRefine(known, conns, held)
    ensures ConnsRefine(known, conns - {id}, held - {id})
  {
  }

  lemma GroupOfName(known: set<Conn>, multiGroups: map<string, MultiClientGroup>, groups: map<string, Group>, u: string)
    requires GroupsRefine(known, multiGroups, groups)
    ensures u in multiGroups <==> u in groups
    ensures u in groups ==> GroupRefines(known, multiGroups[u], groups[u])
  {
  }

  lemma GroupSet(known: set<Conn>, multiGroups: map<string, MultiClientGroup>, groups: map<string, Group>, u: string,
                 g: MultiClientGroup, h: Group)
    requires GroupsRefine(known, multiGroups, groups) && GroupRefines(known, g, h)
    ensures GroupsRefine(known, multiGroups[u := g], groups[u := h])
  {
  }

  lemma GroupDropped(known: set<Conn>, multiGroups: map<string, MultiClientGroup>, groups: map<string, Group>,
                     u: string)
    requires GroupsRefine(known, multiGroups, groups)
    ensures GroupsRefine(known, multiGroups - {u}, Without(groups, u))
  {
  }

  /** One more connection, without a role. */
  lemma NewcomerMatches(known: set<Conn>, byId: map<string, Conn>, info: map<string, ConnInfo>, c: Conn)
    requires IdsMatch(known, byId) && SameKeys(byId, info) && PeopleMatch(known, info)
    requires c.id !in info && c.Info() == NO_ROLE
    ensures IdsMatch(known + {c}, byId[c.id := c]) && SameKeys(byId[c.id := c], info[c.id := NO_ROLE])
    ensures PeopleMatch(known + {c}, info[c.id := NO_ROLE])
  {
  }

  lemma MoreKnown(known: set<Conn>, conns: map<string, Conn>, held: set<string>,
                  multiGroups: map<string, MultiClientGroup>, groups: map<string, Group>, c: Conn)
    requires ConnsRefine(known, conns, held) && GroupsRefine(known, multiGroups, groups)
    ensures ConnsRefine(known + {c}, conns, held) && GroupsRefine(known + {c}, multiGroups, groups)
  {
    forall u | u in multiGroups ensures GroupRefines(known + {c}, multiGroups[u], groups[u]) {
      assert GroupRefines(known, multiGroups[u], groups[u]);
    }
  }

  lemma NewGroup(known: set<Conn>, server: Conn)
    requires server in known
    ensures GroupRefines(known, MultiClientGroup(server, map[]), Group(server.id, map[]))
  {
  }

  lemma MemberSet(known: set<Conn>, g: MultiClientGroup, h: Group, k: string, c: Conn)
    requires GroupRefines(known, g, h) && c in known
    ensures GroupRefines(known, g.(clients := g.clients[k := c]), Group(h.server, h.clients[k := c.id]))
  {
  }

  lemma MemberDropped(known: set<Conn>, g: MultiClientGroup, h: Group, k: string)
    requires GroupRefines(known, g, h)
    ensures GroupRefines(known, g.(clients := g.clients - {k}), Group(h.server, Without(h.clients, k)))
    ensures g.clients - {k} == map[] <==> Without(h.clients, k) == map[]
  {
    assert (g.clients - {k}).Keys == Without(h.clients, k).Keys;
  }

  lemma EachMatches(known: set<Conn>, info: map<string, ConnInfo>)
    requires PeopleMatch(known, info)
    ensures forall c :: c in known ==> c.Matches(info)
  {
  }

  /** One connection's role changes; the others keep theirs. */
  lemma RoleAssigned(known: set<Conn>, byId: map<string, Conn>, info: map<string, ConnInfo>, c: Conn)
    requires c in known && IdsMatch(known, byId) && SameKeys(byId, info)
    requires forall d :: d in known && d != c ==> d.Matches(info)
    requires c.id in info
    ensures var after := info[c.id := c.Info()]; SameKeys(byId, after) && PeopleMatch(known, after)
  {
  }

  lemma UniqueId(known: set<Conn>, byId: map<string, Conn>, t: Conn)
    requires IdsMatch(known, byId) && t in known
    ensures forall c :: c in known && c.id == t.id ==> c == t
  {
  }

  /** The connections that have too many writes under way to get another. */
  ghost function SlowOnes(known: set<Conn>): set<string>
    reads known`pendingWrites
  {
    set c | c in known && c.Slow() :: c.id
  }

  lemma SlowById(known: set<Conn>, byId: map<string, Conn>, c: Conn)
    requires IdsMatch(known, byId) && c in known
    ensures c.id in SlowOnes(known) <==> c.Slow()
  {
  }

  /** In a sound state no connection is in a group under two client IDs. */
  lemma MembersDiffer(known: set<Conn>, m: Relay, u: string, g: MultiClientGroup)
    requires AllGroupsOk(m) && u in m.groups && GroupRefines(known, g, m.groups[u])
    ensures Injective(g.clients)
    ensures forall k :: k in g.clients ==> g.clients[k].id in m.groups[u].clients.Values
    ensures forall id :: id in m.groups[u].clients.Values ==> exists k :: k in g.clients && g.clients[k].id == id
  {
    assert GroupOk(m, u);
    forall k, l | k in g.clients && l in g.clients && g.clients[k] == g.clients[l] ensures k == l {
      assert MemberOk(m, u, k, m.groups[u].clients[k]) && MemberOk(m, u, l, m.groups[u].clients[l]);
    }
    forall id | id in m.groups[u].clients.Values ensures exists k :: k in g.clients && g.clients[k].id == id {
      var k :| k in m.groups[u].clients && m.groups[u].clients[k] == id;
      assert k in g.clients;
    }
  }

  lemma OnlyKey(clients: map<string, Conn>, k: string)
    requires Injective(clients) && k in clients
    ensures forall l :: l in clients && clients[l] == clients[k] ==> l == k
  {
  }

  lemma HasId(known: set<Conn>, byId: map<string, Conn>, clients: map<string, Conn>, ids: set<string>, c: Conn)
    requires IdsMatch(known, byId) && c in known
    requires forall k :: k in clients ==> clients[k] in known && clients[k].id in ids
    requires forall id :: id in ids ==> exists k :: k in clients && clients[k].id == id
    ensures c in clients.Values <==> c.id in ids
  {
    if c.id in ids {
      var k :| k in clients && clients[k].id == c.id;
      assert clients[k] == c;
    }
  }

  lemma SameSize(known: set<Conn>, g: MultiClientGroup, h: Group)
    requires GroupRefines(known, g, h)
    ensures |g.clients| == |h.clients|
  {
    assert |g.clients.Keys| == |h.clients.Keys|;
  }

  lemma SameNames(known: set<Conn>, multiGroups: map<string, MultiClientGroup>, groups: map<string, Group>)
    requires GroupsRefine(known, multiGroups, groups)
    ensures multiGroups.Keys == groups.Keys
  {
  }

  lemma NoMembers(groups: map<string, Group>)
    requires groups.Keys == {}
    ensures Members(groups) == {}
  {
  }

  lemma MemberIds(known: set<Conn>, g: MultiClientGroup, h: Group)
    requires GroupRefines(known, g, h)
    ensures h.clients.Values == set c | c in g.clients.Values :: c.id
  {
    forall id | id in h.clients.Values ensures exists c :: c in g.clients.Values && c.id == id {
      var k :| k in h.clients && h.clients[k] == id;
      assert g.clients[k] in g.clients.Values && g.clients[k].id == id;
    }
    forall c | c in g.clients.Values ensures c.id in h.clients.Values {
      var k :| k in g.clients && g.clients[k] == c;
      assert h.clients[k] in h.clients.Values;
    }
  }

  /** What a connection has been written once `added` is written too. */
  ghost function Grown(inbox: seq<Msg>, id: string, added: Event): seq<Msg> {
    if id in added.targets then inbox + [added.msg] else inbox
  }

  /** The sockets got what the log gained. */
  twostate predicate Delivered(known: set<Conn>, before: seq<Event>, after: seq<Event>)
    reads known
  {
    if after == before then Silent(known) else |after| > 0 && Wrote(known, after[|after| - 1])
  }

  /** Every socket got `e` if `e` is for it, and nothing else. */
  twostate predicate Wrote(known: set<Conn>, e: Event)
    reads known
  {
    forall c :: c in known ==> c.inbox == Grown(old(c.inbox), c.id, e)
  }

  /** Nothing was written to any socket. */
  twostate predicate Silent(known: set<Conn>)
    reads known
  {
    forall c :: c in known ==> unchanged(c`inbox)
  }

  /** Exactly the connection that a registration takes out of the tables is told so. */
  lemma ToldIsDropped(known: set<Conn>, conns: map<string, Conn>, m: Relay, username: string, install: string,
                      multi: bool, conn: Conn, evicted: Conn?)
    requires Inv(m) && ConnsRefine(known, conns, m.conns)
    requires Manager.Evicts(m.store.waiting, conns, username, conn, evicted)
    ensures Manager.Told(evicted) == m.conns - Admit(m, conn.id, username, install, multi).conns
  {
    if username in m.store.waiting {
      assert WaitingOk(m, username) && InfoOk(m, m.store.waiting[username]);
    }
  }

  // The four ways a close can go, as the manager's branches have them.

  lemma CloseLeaves(m: Relay, c: string)
    requires InfoOf(m, c).clientId != "" && InfoOf(m, c).username in m.groups
    ensures Close(m, c) == (LeaveGroup(m.(closed := m.closed + {c}), c, InfoOf(m, c)), false)
    ensures Manager.ClosedWith(m, c) == {}
  {
  }

  lemma CloseDissolves(m: Relay, c: string)
    requires var i := InfoOf(m, c); i.clientId == "" && i.multiClient && i.username != "" && i.username in m.groups
    ensures Close(m, c) == (Dissolve(m.(closed := m.closed + {c}), c, InfoOf(m, c)), true)
    ensures Manager.ClosedWith(m, c) == m.groups[InfoOf(m, c).username].clients.Values
  {
  }

  /** The connection is in no group, neither as a client nor as a server. */
  ghost predicate Ungrouped(m: Relay, c: string) {
    var i := InfoOf(m, c);
    i.username in m.groups ==> i.clientId == "" && (i.multiClient ==> i.username == "")
  }

  lemma CloseStopsWaiting(m: Relay, c: string)
    requires Ungrouped(m, c) && InfoOf(m, c).username != "" && Spec.RemoveWaiting(m.store, InfoOf(m, c).username, c).1
    ensures Close(m, c) == (m.(closed := m.closed + {c}, conns := m.conns - {c},
                               store := Spec.RemoveWaiting(m.store, InfoOf(m, c).username, c).0), false)
    ensures Manager.ClosedWith(m, c) == {}
  {
  }

  lemma CloseUnpairs(m: Relay, c: string)
    requires Ungrouped(m, c)
    requires InfoOf(m, c).username == "" || !Spec.RemoveWaiting(m.store, InfoOf(m, c).username, c).1
    ensures var (unpaired, peer) := Spec.RemovePair(m.store, c);
            && Close(m, c) == (m.(closed := m.closed + {c}, store := unpaired,
                                  conns := if peer.Some? then m.conns - {c} - {peer.value} else m.conns - {c}),
                               peer.Some?)
            && Manager.ClosedWith(m, c) == if peer.Some? && peer.value in m.conns - {c} then {peer.value} else {}
  {
  }

  class Manager {
    const store: MemStore
    const registry: Registry
    const buffer: Buffer?
    var conns: map<string, Conn>
    var multiGroups: map<string, MultiClientGroup>
    ghost var known: set<Conn>          // every connection opened so far
    ghost var byId: map<string, Conn>   // the same, by ID
    ghost var model: Relay

    /** The fields stand for the state of the relay. */
    ghost predicate Valid()
      reads this, store, registry, known
    {
      && store.State() == model.store && registry.table == model.registry
      && IdsMatch(known, byId) && SameKeys(byId, model.info) && PeopleMatch(known, model.info)
      && ConnsRefine(known, conns, model.conns) && GroupsRefine(known, multiGroups, model.groups)
    }

    constructor (buffer: Buffer?)
      ensures Valid() && fresh(store) && fresh(registry) && this.buffer == buffer
      ensures model == INITIAL
    {
      store := new MemStore();
      registry := new Registry();
      this.buffer := buffer;
      conns, multiGroups := map[], map[];
      known, byId, model := {}, map[], INITIAL;
    }

    method NewConn(id: string) returns (conn: Conn)
      requires Valid() && id !in model.info
      modifies this`known, this`byId, this`model
      ensures Valid() && fresh(conn) && conn.id == id && conn.inbox == []
      ensures known == old(known) + {conn} && model == Open(old(model), id)
    {
      hide PeopleMatch, IdsMatch, SameKeys, ConnsRefine, GroupsRefine;
      conn := new Conn(id);
      NewcomerMatches(known, byId, model.info, conn);
      MoreKnown(known, conns, model.conns, multiGroups, model.groups, conn);
      known := known + {conn};
      byId := byId[id := conn];
      model := Open(model, id);
    }

    // ----- Handshakes, with the fields that the handler assigns on success -----

    /** Which connection is told that it has been replaced. */
    static ghost predicate Evicts(waiting: map<string, string>, conns: map<string, Conn>, username: string,
                                  conn: Conn, evicted: Conn?) {
      if username in waiting && waiting[username] !in {"", conn.id} && waiting[username] in conns
      then evicted == conns[waiting[username]]
      else evicted == null
    }

    /** The connection, if any, that is told that it has been replaced. */
    static ghost function Told(evicted: Conn?): set<string> {
      if evicted == null then {} else {evicted.id}
    }

    method RegisterServer(conn: Conn, username: string, install: string, multi: bool)
      returns (result: RegistrationResult, evicted: Conn?)
      requires Valid() && conn in known
      modifies this`conns, this`model, store, registry, conn
      ensures Valid() && Silent(known)
      ensures (model, result) == Register(old(model), conn.id, username, install, multi)
      ensures evicted != null ==> result == Registered
      ensures result == Registered ==> Evicts(old(store.waiting), old(conns), username, conn, evicted)
      ensures old(Inv(model)) ==> Told(evicted) == old(model).conns - model.conns
    {
      hide IsValidUsername, PeopleMatch, IdsMatch, SameKeys, ConnsRefine, GroupsRefine, Evicts, Inv;
      ghost var held, m := conns, model;
      if !IsValidUsername(username) {
        return InvalidUsername, null;
      }
      var can := registry.CanRegister(username, install);
      if !can {
        return UsernameTaken, null;
      }
      result, evicted := Registered, null;
      var took := registry.Register(username, install);
      if !took {
        return UsernameTaken, null;
      }
      evicted := BecomeServer(conn, username, install, multi);
      if Inv(m) {
        ToldIsDropped(known, held, m, username, install, multi, conn, evicted);
      }
    }

    // The registry has agreed: the connection takes the waiting place and its role.
    method BecomeServer(conn: Conn, username: string, install: string, multi: bool) returns (evicted: Conn?)
      requires conn in known && store.State() == model.store
      requires IdsMatch(known, byId) && SameKeys(byId, model.info) && PeopleMatch(known, model.info)
      requires ConnsRefine(known, conns, model.conns)
      modifies this`conns, this`model, store, conn
      ensures SameKeys(byId, model.info) && PeopleMatch(known, model.info)
      ensures ConnsRefine(known, conns, model.conns) && store.State() == model.store
      ensures Silent(known) && model == Admit(old(model), conn.id, username, install, multi)
      ensures Evicts(old(store.waiting), old(conns), username, conn, evicted)
    {
      hide PeopleMatch, IdsMatch, SameKeys, ConnsRefine, Evicts;
      InfoOfKnown(known, model, conn);
      EachMatches(known, model.info);
      ConnAdded(known, conns, model.conns, conn);
      ConnDropped(known, conns[conn.id := conn], model.conns + {conn.id},
                  Spec.SetWaiting(model.store, username, conn.id).1);
      evicted := TakeOver(conn, username);
      conn.username, conn.isServer, conn.multiClient := username, true, multi;
      RoleAssigned(known, byId, model.info, conn);
      model := Admit(model, conn.id, username, install, multi);
    }

    // The locked section: the newcomer is held, whoever waited is dropped.
    method TakeOver(conn: Conn, username: string) returns (evicted: Conn?)
      modifies this`conns, store
      ensures var (after, id) := Spec.SetWaiting(old(store.State()), username, conn.id);
              && store.State() == after
              && conns == (if id != "" then old(conns)[conn.id := conn] - {id} else old(conns)[conn.id := conn])
      ensures Evicts(old(store.waiting), old(conns), username, conn, evicted)
    {
      conns := conns[conn.id := conn];
      var evictedId := store.SetWaiting(username, conn.id);
      evicted := if evictedId != "" && evictedId in conns then conns[evictedId] else null;
      conns := if evictedId != "" then conns - {evictedId} else conns;
    }

    method ConnectClient(conn: Conn, username: string, newId: string) returns (status: ConnectStatus)
      requires Valid() && conn in known
      modifies this`conns, this`multiGroups, this`model, store, conn, known`inbox
      ensures Valid() && (model, status) == Connect(old(model), conn.id, username, newId)
      ensures Delivered(known, old(model.log), model.log)
    {
      hide PeopleMatch, IdsMatch, SameKeys, ConnsRefine, GroupsRefine, GroupRefines;
      var registered := registry.IsRegistered(username);
      if !registered {
        return UnknownUsername;
      }
      var serverConnId, ok := store.GetWaiting(username);
      if !ok {
        return ServerOffline;
      }
      ConnOfHeld(known, conns, model.conns, serverConnId);
      if serverConnId !in conns {
        var _ := store.RemoveWaiting(username, serverConnId);
        model := model.(store := store.State());
        return ServerOffline;
      }
      var serverConn := conns[serverConnId];
      InfoOfKnown(known, model, serverConn);
      if serverConn.multiClient {
        Join(conn, username, serverConn, newId);
        assert |model.log| == |old(model.log)| + 1;
      } else {
        Pair(conn, username, serverConnId);
      }
      status := Connected;
    }

    // Multi-client mode: the server stays in waiting and the client joins its group.
    method Join(conn: Conn, username: string, serverConn: Conn, newId: string)
      requires conn in known && serverConn in known
      requires IdsMatch(known, byId) && SameKeys(byId, model.info) && PeopleMatch(known, model.info)
      requires ConnsRefine(known, conns, model.conns) && GroupsRefine(known, multiGroups, model.groups)
      modifies this`conns, this`multiGroups, this`model, conn, serverConn`inbox
      ensures SameKeys(byId, model.info) && PeopleMatch(known, model.info)
      ensures ConnsRefine(known, conns, model.conns) && GroupsRefine(known, multiGroups, model.groups)
      ensures model == JoinGroup(old(model), conn.id, username, serverConn.id, newId)
      ensures Wrote(known, Event({serverConn.id}, Joined(conn.id, newId)))
    {
      hide PeopleMatch, IdsMatch, SameKeys, ConnsRefine, GroupsRefine;
      InfoOfKnown(known, model, conn);
      EachMatches(known, model.info);
      UniqueId(known, byId, serverConn);
      conn.clientId, conn.username, conn.isServer := newId, username, false;
      EnterGroup(conn, username, serverConn, newId);
      serverConn.SendControl(Joined(conn.id, newId));
      RoleAssigned(known, byId, model.info, conn);
      model := JoinGroup(model, conn.id, username, serverConn.id, newId);
    }

    /** The group that a client of `username` finds, or founds. */
    static ghost function GroupAt(m: Relay, username: string, server: string): Group {
      if username in m.groups then m.groups[username] else Group(server, map[])
    }

    // The locked section: the client is held, and stored in the group.
    method EnterGroup(conn: Conn, username: string, serverConn: Conn, newId: string)
      requires conn in known && serverConn in known
      requires ConnsRefine(known, conns, model.conns) && GroupsRefine(known, multiGroups, model.groups)
      modifies this`conns, this`multiGroups
      ensures ConnsRefine(known, conns, model.conns + {conn.id})
      ensures var h := GroupAt(model, username, serverConn.id);
              GroupsRefine(known, multiGroups, model.groups[username := Group(h.server, h.clients[newId := conn.id])])
    {
      hide ConnsRefine, GroupsRefine, GroupRefines;
      GroupOfName(known, multiGroups, model.groups, username);
      NewGroup(known, serverConn);
      ConnAdded(known, conns, model.conns, conn);
      var group := if username in multiGroups then multiGroups[username] else MultiClientGroup(serverConn, map[]);
      ghost var h := GroupAt(model, username, serverConn.id);
      MemberSet(known, group, h, newId, conn);
      group := group.(clients := group.clients[newId := conn]);
      GroupSet(known, multiGroups, model.groups, username, group, Group(h.server, h.clients[newId := conn.id]));
      multiGroups := multiGroups[username := group];
      conns := conns[conn.id := conn];
    }

    // Legacy mode: server and client become a pair.
    method Pair(conn: Conn, username: string, serverConnId: string)
      requires conn in known && store.State() == model.store
      requires IdsMatch(known, byId) && SameKeys(byId, model.info) && PeopleMatch(known, model.info)
      requires ConnsRefine(known, conns, model.conns)
      modifies this`conns, this`model, store, conn
      ensures SameKeys(byId, model.info) && PeopleMatch(known, model.info)
      ensures ConnsRefine(known, conns, model.conns) && store.State() == model.store && Silent(known)
      ensures model == old(model).(
                conns := old(model).conns + {conn.id},
                store := Spec.CreatePair(old(model).store, serverConnId, conn.id, username),
                info := old(model).info[conn.id :=
                  InfoOf(old(model), conn.id).(username := username, isServer := false, clientId := "")])
    {
      hide PeopleMatch, IdsMatch, SameKeys, ConnsRefine;
      InfoOfKnown(known, model, conn);
      EachMatches(known, model.info);
      ConnAdded(known, conns, model.conns, conn);
      conns := conns[conn.id := conn];
      store.CreatePair(serverConnId, conn.id, username);
      conn.username, conn.isServer, conn.clientId := username, false, "";
      RoleAssigned(known, byId, model.info, conn);
      model := model.(conns := model.conns + {conn.id}, store := store.State(),
                      info := model.info[conn.id := conn.Info()]);
    }

    // ----- Forwarding -----

    /** Writes one frame, or drops it and tells the sender when the target has too many
        writes under way. The count comes back to what it was. */
    static method WriteToConn(target: Conn, sender: Conn, msgType: MessageType, data: seq<byte>)
      modifies target`pendingWrites, target`inbox, sender`notices
      ensures target.pendingWrites == old(target.pendingWrites)
      ensures target.inbox == old(target.inbox) + if old(target.Slow()) then [] else [Frame(sender.id, msgType, data)]
      ensures sender.notices == old(sender.notices) + if old(target.Slow()) then 1 else 0
      ensures old(target.Slow()) <==> old(target.pendingWrites) >= 100
    {
      target.pendingWrites := target.pendingWrites + 1;
      var pending := target.pendingWrites;
      if pending > Writes.MAX_PENDING_WRITES {
        sender.notices := sender.notices + 1;
      } else {
        target.inbox := target.inbox + [Frame(sender.id, msgType, data)];
      }
      target.pendingWrites := target.pendingWrites - 1;
    }

    /** `WriteToConn`, in terms of all sockets. */
    method WriteToOne(target: Conn, sender: Conn, msgType: MessageType, data: seq<byte>)
      requires target in known && sender in known && IdsMatch(known, byId)
      modifies target`pendingWrites, target`inbox, sender`notices
      ensures forall c :: c in known ==> c.pendingWrites == old(c.pendingWrites)
      ensures Wrote(known, Event({target.id} - old(SlowOnes(known)), Frame(sender.id, msgType, data)))
    {
      hide IdsMatch;
      UniqueId(known, byId, target);
      SlowById(known, byId, target);
      WriteToConn(target, sender, msgType, data);
    }

    method ForwardFromClient(client: Conn, msgType: MessageType, data: array<byte>)
      requires Valid() && client in known && client.clientId != ""
      modifies known`pendingWrites, known`inbox, known`notices
      ensures forall c :: c in known ==> c.pendingWrites == old(c.pendingWrites)
      ensures Wrote(known, Event(Targets(model, client.id, msgType, data[..]) - old(SlowOnes(known)),
                                 Frame(client.id, Binary, Wrap(client.clientId, msgType, data[..]))))
    {
      hide PeopleMatch, IdsMatch, SameKeys, ConnsRefine, GroupsRefine, Wrap;
      InfoOfKnown(known, model, client);
      GroupOfName(known, multiGroups, model.groups, client.username);
      if client.username !in multiGroups {
        return;
      }
      var server := multiGroups[client.username].serverConn;
      var wrapped := WrapMultiClientFrame(client.clientId, msgType, data);
      WriteToOne(server, client, Binary, wrapped[..]);
    }

    method ForwardFromServer(server: Conn, msgType: MessageType, data: array<byte>)
      requires Valid() && AllGroupsOk(model) && server in known
      requires server.clientId == "" && server.multiClient && server.username != ""
      modifies known`pendingWrites, known`inbox, known`notices
      ensures forall c :: c in known ==> c.pendingWrites == old(c.pendingWrites)
      ensures var (wireType, wireData) := Wire(server.Info(), msgType, data[..]);
              Wrote(known, Event(Targets(model, server.id, msgType, data[..]) - old(SlowOnes(known)),
                                 Frame(server.id, wireType, wireData)))
    {
      hide PeopleMatch, IdsMatch, SameKeys, ConnsRefine, GroupsRefine, AllGroupsOk, ParseHeader;
      InfoOfKnown(known, model, server);
      GroupOfName(known, multiGroups, model.groups, server.username);
      if msgType == Binary {
        var clientId, origType, payload, ok := ParseMultiClientHeader(data);
        if ok {
          if server.username !in multiGroups {
            return;
          }
          var clients := multiGroups[server.username].clients;
          if clientId in clients {
            WriteToOne(clients[clientId], server, origType, payload);
          }
          return;
        }
      }
      if server.username !in multiGroups {
        return;
      }
      MembersDiffer(known, model, server.username, multiGroups[server.username]);
      Broadcast(multiGroups[server.username].clients, model.groups[server.username].clients.Values,
                server, msgType, data[..]);
    }

    /** Writes a frame to each of some clients, in whatever order the map yields them. */
    method WriteEach(clients: map<string, Conn>, server: Conn, msgType: MessageType, data: seq<byte>)
      requires server in known && Injective(clients) && clients.Values <= known
      modifies known`pendingWrites, known`inbox, known`notices
      ensures forall c :: c in known ==> c.pendingWrites == old(c.pendingWrites)
      ensures forall c :: c in known ==>
        c.inbox == if c in clients.Values && !old(c.Slow()) then old(c.inbox) + [Frame(server.id, msgType, data)]
                   else old(c.inbox)
    {
      hide Injective;
      var todo := clients.Keys;
      ghost var done: set<Conn> := {};
      while todo != {}
        invariant todo <= clients.Keys && done <= clients.Values
        invariant forall c :: c in known ==> c.pendingWrites == old(c.pendingWrites)
        invariant forall c :: c in known ==>
          c.inbox == if c in done && !old(c.Slow()) then old(c.inbox) + [Frame(server.id, msgType, data)]
                     else old(c.inbox)
        invariant forall k :: k in clients ==> (clients[k] in done <==> k !in todo)
      {
        var k :| k in todo;
        OnlyKey(clients, k);
        todo := todo - {k};
        WriteToConn(clients[k], server, msgType, data);
        done := done + {clients[k]};
      }
      assert clients.Values <= done;
    }

    /** The same in terms of all sockets, for clients that have the given IDs. */
    method Broadcast(clients: map<string, Conn>, ghost ids: set<string>, server: Conn, msgType: MessageType,
                     data: seq<byte>)
      requires IdsMatch(known, byId) && server in known && Injective(clients)
      requires forall k :: k in clients ==> clients[k] in known && clients[k].id in ids
      requires forall id :: id in ids ==> exists k :: k in clients && clients[k].id == id
      modifies known`pendingWrites, known`inbox, known`notices
      ensures forall c :: c in known ==> c.pendingWrites == old(c.pendingWrites)
      ensures Wrote(known, Event(ids - old(SlowOnes(known)), Frame(server.id, msgType, data)))
    {
      hide IdsMatch, SlowOnes, Injective;
      forall c | c in known ensures c.id in SlowOnes(known) <==> c.Slow() { SlowById(known, byId, c); }
      forall c | c in known ensures c in clients.Values <==> c.id in ids { HasId(known, byId, clients, ids, c); }
      WriteEach(clients, server, msgType, data);
    }

    /** A frame between a legacy pair, which is also kept for replay. */
    static ghost predicate LegacyRoute(m: Relay, c: string) {
      var i := InfoOf(m, c);
      && i.clientId == "" && !(i.multiClient && i.username != "")
      && c in m.store.peers && m.store.peers[c] in m.conns
    }

    /** The replay lists once a frame from `c` has been forwarded. */
    static ghost function Replay(m: Relay, c: string, msgType: MessageType, data: seq<byte>, lists: map<string,
                                 seq<Stored>>, maxSize: int)
      : map<string, seq<Stored>>
    {
      var i := InfoOf(m, c);
      var frame := BufferedFrame(if i.isServer then "s2c" else "c2s", msgType, data);
      if LegacyRoute(m, c) then SetList(lists, i.username, Pushed(ListOf(lists, i.username), maxSize, frame)) else lists
    }

    method ForwardLegacy(sender: Conn, msgType: MessageType, data: seq<byte>)
      requires Valid() && sender in known && sender.clientId == "" && !(sender.multiClient && sender.username != "")
      modifies known`pendingWrites, known`inbox, known`notices, if buffer == null then {} else {buffer}
      ensures forall c :: c in known ==> c.pendingWrites == old(c.pendingWrites)
      ensures Wrote(known, Event(Targets(model, sender.id, msgType, data) - old(SlowOnes(known)),
                                 Frame(sender.id, msgType, data)))
      ensures buffer != null ==>
                buffer.lists == Replay(model, sender.id, msgType, data, old(buffer.lists), buffer.maxSize)
    {
      hide PeopleMatch, IdsMatch, SameKeys, ConnsRefine, GroupsRefine, SetList, Pushed;
      InfoOfKnown(known, model, sender);
      var peerId, ok := store.GetPeer(sender.id);
      if !ok {
        return;
      }
      ConnOfHeld(known, conns, model.conns, peerId);
      if peerId !in conns {
        return;
      }
      var target := conns[peerId];
      WriteToOne(target, sender, msgType, data);
      var direction := "c2s";
      if sender.isServer {
        direction := "s2c";
      }
      if buffer != null {
        buffer.Push(sender.username, BufferedFrame(direction, msgType, data));
      }
    }

    // The three ways a frame can go.
    method Dispatch(sender: Conn, msgType: MessageType, data: array<byte>)
      requires Valid() && AllGroupsOk(model) && sender in known
      modifies known`pendingWrites, known`inbox, known`notices, if buffer == null then {} else {buffer}
      ensures forall c :: c in known ==> c.pendingWrites == old(c.pendingWrites)
      ensures var (wireType, wireData) := Wire(sender.Info(), msgType, data[..]);
              Wrote(known, Event(Targets(model, sender.id, msgType, data[..]) - old(SlowOnes(known)),
                                 Frame(sender.id, wireType, wireData)))
      ensures buffer != null ==>
                buffer.lists == Replay(model, sender.id, msgType, data[..], old(buffer.lists), buffer.maxSize)
    {
      hide PeopleMatch, IdsMatch, SameKeys, ConnsRefine, GroupsRefine, SetList, Pushed, AllGroupsOk, Targets, Wrap,
           ParseHeader, SlowOnes;
      InfoOfKnown(known, model, sender);
      if sender.clientId != "" {
        ForwardFromClient(sender, msgType, data);
      } else if sender.multiClient && sender.username != "" {
        ForwardFromServer(sender, msgType, data);
      } else {
        ForwardLegacy(sender, msgType, data[..]);
      }
    }

    /** Passes a frame on. `permitted` is the rate limiter's verdict for the sender. */
    method Forward(sender: Conn, msgType: MessageType, data: array<byte>, permitted: bool)
      requires Valid() && AllGroupsOk(model) && sender in known
      modifies this`model, known`pendingWrites, known`inbox, known`notices, if buffer == null then {} else {buffer}
      ensures Valid() && forall c :: c in known ==> c.pendingWrites == old(c.pendingWrites)
      ensures model == RelayMachine.Forward(old(model), sender.id, msgType, data[..], permitted, old(SlowOnes(known)))
      ensures Delivered(known, old(model.log), model.log)
      ensures buffer != null && permitted ==>
                buffer.lists == Replay(old(model), sender.id, msgType, data[..], old(buffer.lists), buffer.maxSize)
      ensures buffer != null && !permitted ==> buffer.lists == old(buffer.lists)
    {
      hide PeopleMatch, IdsMatch, SameKeys, ConnsRefine, GroupsRefine, Replay, AllGroupsOk, Targets, Wire, SlowOnes;
      InfoOfKnown(known, model, sender);
      ghost var after := RelayMachine.Forward(model, sender.id, msgType, data[..], permitted, SlowOnes(known));
      if permitted {
        Dispatch(sender, msgType, data);
        assert |after.log| == |model.log| + 1;
      }
      model := after;
    }

    // ----- Closing -----

    /** The connections whose sockets are closed because `c` went. */
    static ghost function ClosedWith(m: Relay, c: string): set<string> {
      var i := InfoOf(m, c);
      if i.clientId != "" && i.username in m.groups then {}
      else if i.multiClient && i.username != "" && i.username in m.groups then m.groups[i.username].clients.Values
      else if i.username != "" && Lookup(m.store.waiting, i.username) == c then {}
      else if c in m.store.peers && m.store.peers[c] in m.conns - {c} then {m.store.peers[c]}
      else {}
    }

    static ghost function IdsOf(conns: set<Conn>): set<string> {
      set c | c in conns :: c.id
    }

    /** Ends a connection. `broke` says whether a pair or a group was broken; the sockets of
        `closing` are closed in turn. */
    method HandleClose(conn: Conn) returns (broke: bool, closing: set<Conn>)
      requires Valid() && conn in known
      modifies this`conns, this`multiGroups, this`model, store, known`inbox
      ensures Valid() && (model, broke) == Close(old(model), conn.id)
      ensures Delivered(known, old(model.log), model.log)
      ensures IdsOf(closing) == ClosedWith(old(model), conn.id) && closing <= known
    {
      hide PeopleMatch, IdsMatch, SameKeys, ConnsRefine, GroupsRefine, GroupRefines, Close, ClosedWith;
      InfoOfKnown(known, model, conn);
      EachMatches(known, model.info);
      GroupOfName(known, multiGroups, model.groups, conn.username);
      broke, closing := false, {};
      if conn.clientId != "" && conn.username in multiGroups {
        CloseLeaves(model, conn.id);
        Leave(conn, multiGroups[conn.username]);
        assert |model.log| == |old(model.log)| + 1;
        return;
      }
      if conn.multiClient && conn.username != "" && conn.username in multiGroups {
        CloseDissolves(model, conn.id);
        closing := Disband(conn, multiGroups[conn.username]);
        broke := true;
        return;
      }
      broke, closing := CloseUngrouped(conn);
    }

    // A close outside the groups: a waiting server, a legacy pair, or nothing.
    method CloseUngrouped(conn: Conn) returns (broke: bool, closing: set<Conn>)
      requires conn in known && store.State() == model.store && ConnsRefine(known, conns, model.conns)
      requires InfoOf(model, conn.id) == conn.Info() && Ungrouped(model, conn.id)
      modifies this`conns, this`model, store
      ensures ConnsRefine(known, conns, model.conns) && store.State() == model.store
      ensures (model, broke) == Close(old(model), conn.id)
      ensures model == old(model).(store := model.store, conns := model.conns, closed := model.closed)
      ensures IdsOf(closing) == ClosedWith(old(model), conn.id) && closing <= known
    {
      hide ConnsRefine, Close, ClosedWith;
      if conn.username != "" {
        var waited := store.RemoveWaiting(conn.username, conn.id);
        if waited {
          CloseStopsWaiting(model, conn.id);
          ConnDropped(known, conns, model.conns, conn.id);
          conns := conns - {conn.id};
          model := Close(model, conn.id).0;
          return false, {};
        }
      }
      CloseUnpairs(model, conn.id);
      broke, closing := Unpair(conn);
    }

    // The rest of a close: a legacy pair, or nothing.
    method Unpair(conn: Conn) returns (broke: bool, closing: set<Conn>)
      requires conn in known && store.State() == model.store && ConnsRefine(known, conns, model.conns)
      modifies this`conns, this`model, store
      ensures ConnsRefine(known, conns, model.conns) && store.State() == model.store
      ensures var (unpaired, peer) := Spec.RemovePair(old(model).store, conn.id);
              && broke == peer.Some?
              && model == old(model).(
                   store := unpaired,
                   closed := old(model).closed + {conn.id},
                   conns := if peer.Some? then old(model).conns - {conn.id} - {peer.value}
                            else old(model).conns - {conn.id})
              && IdsOf(closing) ==
                 if peer.Some? && peer.value in old(model).conns - {conn.id} then {peer.value} else {}
      ensures closing <= known
    {
      hide ConnsRefine;
      ConnDropped(known, conns, model.conns, conn.id);
      var peerId, wasPaired := store.RemovePair(conn.id);
      conns := conns - {conn.id};
      ConnOfHeld(known, conns, model.conns - {conn.id}, peerId);
      ConnDropped(known, conns, model.conns - {conn.id}, peerId);
      closing := {};
      if wasPaired {
        if peerId in conns {
          closing := {conns[peerId]};
        }
        conns := conns - {peerId};
      }
      broke := wasPaired;
      model := model.(
        store := store.State(),
        closed := model.closed + {conn.id},
        conns := if broke then model.conns - {conn.id} - {peerId} else model.conns - {conn.id});
    }

    // A multi-client client leaves; its server is told.
    method Leave(conn: Conn, group: MultiClientGroup)
      requires conn in known && conn.username in model.groups && GroupRefines(known, group, model.groups[conn.username])
      requires group.serverConn in known && IdsMatch(known, byId) && PeopleMatch(known, model.info)
      requires ConnsRefine(known, conns, model.conns) && GroupsRefine(known, multiGroups, model.groups)
      modifies this`conns, this`multiGroups, this`model, group.serverConn`inbox
      ensures ConnsRefine(known, conns, model.conns) && GroupsRefine(known, multiGroups, model.groups)
      ensures model == LeaveGroup(old(model).(closed := old(model).closed + {conn.id}), conn.id, conn.Info())
      ensures Wrote(known, Event({old(model).groups[conn.username].server}, Left(conn.id, conn.clientId)))
    {
      hide PeopleMatch, IdsMatch, ConnsRefine, GroupsRefine;
      var u := conn.username;
      ghost var h := model.groups[u];
      UniqueId(known, byId, group.serverConn);
      MemberDropped(known, group, h, conn.clientId);
      ConnDropped(known, conns, model.conns, conn.id);
      GroupDropped(known, multiGroups, model.groups, u);
      var rest := group.(clients := group.clients - {conn.clientId});
      GroupSet(known, multiGroups, model.groups, u, rest, Group(h.server, Without(h.clients, conn.clientId)));
      conns := conns - {conn.id};
      multiGroups := if rest.clients == map[] then multiGroups - {u} else multiGroups[u := rest];
      group.serverConn.SendControl(Left(conn.id, conn.clientId));
      model := LeaveGroup(model.(closed := model.closed + {conn.id}), conn.id, conn.Info());
    }

    // Takes the members of a group out of `conns`, one by one.
    method DropMembers(clients: map<string, Conn>, ghost held: set<string>) returns (dropped: set<Conn>)
      requires ConnsRefine(known, conns, held)
      modifies this`conns
      ensures ConnsRefine(known, conns, held - IdsOf(clients.Values)) && dropped == clients.Values
    {
      hide ConnsRefine;
      var todo := clients.Keys;
      dropped := {};
      assert held - IdsOf(dropped) == held;
      while todo != {}
        invariant todo <= clients.Keys
        invariant ConnsRefine(known, conns, held - IdsOf(dropped))
        invariant forall k :: k in clients && k !in todo ==> clients[k] in dropped
        invariant dropped <= clients.Values
      {
        var k :| k in todo;
        todo := todo - {k};
        ConnDropped(known, conns, held - IdsOf(dropped), clients[k].id);
        assert held - IdsOf(dropped) - {clients[k].id} == held - IdsOf(dropped + {clients[k]});
        conns := conns - {clients[k].id};
        dropped := dropped + {clients[k]};
      }
      assert dropped == clients.Values;
    }

    // A multi-client server leaves; so do all members of the group.
    method Disband(conn: Conn, group: MultiClientGroup) returns (clients: set<Conn>)
      requires conn in known && conn.username in model.groups && GroupRefines(known, group, model.groups[conn.username])
      requires store.State() == model.store
      requires ConnsRefine(known, conns, model.conns) && GroupsRefine(known, multiGroups, model.groups)
      modifies this`conns, this`multiGroups, this`model, store
      ensures ConnsRefine(known, conns, model.conns) && GroupsRefine(known, multiGroups, model.groups)
      ensures store.State() == model.store
      ensures model == Dissolve(old(model).(closed := old(model).closed + {conn.id}), conn.id, conn.Info())
      ensures IdsOf(clients) == old(model).groups[conn.username].clients.Values && clients <= known
    {
      assert group.clients.Values <= known;
      hide ConnsRefine, GroupsRefine, GroupRefines;
      ghost var ids := model.groups[conn.username].clients.Values;
      MemberIds(known, group, model.groups[conn.username]);
      clients := DropMembers(group.clients, model.conns);
      GroupDropped(known, multiGroups, model.groups, conn.username);
      multiGroups := multiGroups - {conn.username};
      var _ := store.RemoveWaiting(conn.username, conn.id);
      ConnDropped(known, conns, model.conns - ids, conn.id);
      conns := conns - {conn.id};
      model := Dissolve(model.(closed := model.closed + {conn.id}), conn.id, conn.Info());
    }

    // ----- Queries -----

    method IsPaired(conn: Conn) returns (paired: bool)
      requires Valid() && conn in known
      ensures paired == RelayMachine.IsPaired(model, conn.id)
    {
      hide PeopleMatch, IdsMatch, SameKeys, ConnsRefine, GroupsRefine;
      InfoOfKnown(known, model, conn);
      GroupOfName(known, multiGroups, model.groups, conn.username);
      if conn.multiClient && conn.username != "" {
        if conn.username in multiGroups && |multiGroups[conn.username].clients| > 0 {
          return true;
        }
      }
      if conn.clientId != "" {
        if conn.username in multiGroups && conn.clientId in multiGroups[conn.username].clients {
          return true;
        }
      }
      paired := store.IsPaired(conn.id);
    }

    /** Pairs and group clients together: the number of connected clients. */
    method GetPairCount() returns (count: nat)
      requires Valid()
      requires Inv(model)
      ensures count == |ConnectedClients(model)|
    {
      hide PeopleMatch, IdsMatch, SameKeys, ConnsRefine, GroupsRefine, Inv, ConnectedClients, Members, DistinctMembers;
      var multiPairs := 0;
      var todo := multiGroups.Keys;
      ghost var left := model.groups;
      InvDistinct(model);
      SameNames(known, multiGroups, model.groups);
      while todo != {}
        invariant left.Keys == todo <= multiGroups.Keys
        invariant forall u :: u in left ==> u in model.groups && left[u] == model.groups[u]
        invariant DistinctMembers(left)
        invariant multiPairs + |Members(left)| == |Members(model.groups)|
        decreases todo
      {
        var u :| u in todo;
        GroupOfName(known, multiGroups, model.groups, u);
        SameSize(known, multiGroups[u], model.groups[u]);
        MembersWithout(left, u);
        multiPairs := multiPairs + |multiGroups[u].clients|;
        left := left - {u};
        todo := todo - {u};
      }
      NoMembers(left);
      var _, storePairs := store.Stats();
      PairCountIsClientCount(model);
      CountMembers(model.groups);
      count := storePairs + multiPairs;
    }
  }
}
