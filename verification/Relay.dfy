/** The relay as a state machine: its tables and what each step does to them.
    A connection is named by its ID. */
module RelayMachine {
  import opened Basics
  import opened FrameCodec
  import opened Protocol
  import opened Registry
  import opened Uuid
  import Spec = StoreSpec

  /** The fields of a connection that a handshake assigns. */
  datatype ConnInfo = ConnInfo(username: string, isServer: bool, multiClient: bool, clientId: string)

  /** A connection that has not completed a handshake. */
  const NO_ROLE := ConnInfo("", false, false, "")

  datatype Group = Group(server: string, clients: map<string, string>)

  /** What the relay writes to a connection, with the connection that caused it. */
  datatype Msg =
    | Joined(cause: string, clientId: string)
    | Left(cause: string, clientId: string)
    | Frame(cause: string, msgType: MessageType, data: seq<byte>)

  /** One message and the connections it was written to. */
  datatype Event = Event(targets: set<string>, msg: Msg)

  datatype Sent = Sent(sender: string, msgType: MessageType, data: seq<byte>)

  datatype Relay = Relay(
    store: Spec.Store,
    conns: set<string>,
    groups: map<string, Group>,
    registry: map<string, string>,
    info: map<string, ConnInfo>,   // every connection opened so far
    closed: set<string>,           // those whose handler has ended
    sent: seq<Sent>,               // frames read from connections, oldest first
    log: seq<Event>)               // messages written to connections, oldest first

  const INITIAL := Relay(Spec.EMPTY_STORE, {}, map[], map[], map[], {}, [], [])

  function InfoOf(s: Relay, c: string): ConnInfo {
    if c in s.info then s.info[c] else NO_ROLE
  }

  datatype RegistrationResult = Registered | UsernameTaken | InvalidUsername
  datatype ConnectStatus = Connected | UnknownUsername | ServerOffline

  // A new connection gets a fresh ID and no role.
  function Open(s: Relay, c: string): Relay {
    s.(info := s.info[c := NO_ROLE])
  }

  // Registration, with the role that the handler then assigns.
  function Register(s: Relay, c: string, username: string, install: string, multi: bool): (Relay, RegistrationResult) {
    if !IsValidUsername(username) then (s, InvalidUsername)
    else if !MayRegister(s.registry, username, install) then (s, UsernameTaken)
    else (Admit(s, c, username, install, multi), Registered)
  }

  // The newcomer becomes the waiting server; whoever waited before is dropped.
  function Admit(s: Relay, c: string, username: string, install: string, multi: bool): Relay {
    var (store, evicted) := Spec.SetWaiting(s.store, username, c);
    var conns := s.conns + {c};
    s.(registry := s.registry[username := install],
       store := store,
       conns := if evicted != "" then conns - {evicted} else conns,
       info := s.info[c := InfoOf(s, c).(username := username, isServer := true, multiClient := multi)])
  }

  // A client asks for a username; `newId` is the client ID generated in multi-client mode.
  function Connect(s: Relay, c: string, username: string, newId: string): (Relay, ConnectStatus) {
    if username !in s.registry then (s, UnknownUsername)
    else if username !in s.store.waiting then (s, ServerOffline)
    else
      var server := s.store.waiting[username];
      if server !in s.conns then
        (s.(store := Spec.RemoveWaiting(s.store, username, server).0), ServerOffline)
      else if InfoOf(s, server).multiClient then (JoinGroup(s, c, username, server, newId), Connected)
      else
        (s.(conns := s.conns + {c},
            store := Spec.CreatePair(s.store, server, c, username),
            info := s.info[c := InfoOf(s, c).(username := username, isServer := false, clientId := "")]),
         Connected)
  }

  function JoinGroup(s: Relay, c: string, username: string, server: string, newId: string): Relay {
    var group := if username in s.groups then s.groups[username] else Group(server, map[]);
    s.(groups := s.groups[username := Group(group.server, group.clients[newId := c])],
       conns := s.conns + {c},
       info := s.info[c := InfoOf(s, c).(username := username, isServer := false, clientId := newId)],
       log := s.log + [Event({server}, Joined(c, newId))])
  }

  /** The header that makes a server's frame a targeted one. */
  function TargetHeader(msgType: MessageType, data: seq<byte>): Option<Parsed> {
    if msgType == Binary then ParseHeader(data) else None
  }

  /** The connections that a frame is forwarded to. */
  function Targets(s: Relay, c: string, msgType: MessageType, data: seq<byte>): set<string> {
    var i := InfoOf(s, c);
    if i.clientId != "" then
      if i.username in s.groups then {s.groups[i.username].server} else {}
    else if i.multiClient && i.username != "" then
      if i.username !in s.groups then {}
      else
        var clients := s.groups[i.username].clients;
        match TargetHeader(msgType, data)
        case Some(h) => if h.clientId in clients then {clients[h.clientId]} else {}
        case None => clients.Values
    else if c in s.store.peers && s.store.peers[c] in s.conns then {s.store.peers[c]}
    else {}
  }

  /** The form in which a sender's frame is forwarded. */
  function Wire(i: ConnInfo, msgType: MessageType, data: seq<byte>): (MessageType, seq<byte>) {
    if i.clientId != "" then (Binary, Wrap(i.clientId, msgType, data))
    else if i.multiClient && i.username != "" then
      match TargetHeader(msgType, data)
      case Some(h) => (h.msgType, h.payload)
      case None => (msgType, data)
    else (msgType, data)
  }

  // A frame arrives. `permitted` is the rate limiter's verdict; targets in `slow` have
  // too many writes pending and get nothing.
  function Forward(s: Relay, c: string, msgType: MessageType, data: seq<byte>, permitted: bool,
                   slow: set<string>): Relay {
    var s1 := s.(sent := s.sent + [Sent(c, msgType, data)]);
    if !permitted then s1
    else
      var (wireType, wireData) := Wire(InfoOf(s, c), msgType, data);
      s1.(log := s.log + [Event(Targets(s, c, msgType, data) - slow, Frame(c, wireType, wireData))])
  }

  predicate IsPaired(s: Relay, c: string) {
    var i := InfoOf(s, c);
    || (i.multiClient && i.username != "" && i.username in s.groups && s.groups[i.username].clients != map[])
    || (i.clientId != "" && i.username in s.groups && i.clientId in s.groups[i.username].clients)
    || c in s.store.peers
  }

  // The handler of a connection ends. The result says whether a pair or a group was broken.
  function Close(s: Relay, c: string): (Relay, bool) {
    var i := InfoOf(s, c);
    var s1 := s.(closed := s.closed + {c});
    if i.clientId != "" && i.username in s.groups then (LeaveGroup(s1, c, i), false)
    else if i.multiClient && i.username != "" && i.username in s.groups then (Dissolve(s1, c, i), true)
    else
      var (store, waited) := Spec.RemoveWaiting(s.store, i.username, c);
      if i.username != "" && waited then (s1.(store := store, conns := s.conns - {c}), false)
      else
        var (unpaired, peer) := Spec.RemovePair(s.store, c);
        match peer
        case Some(p) => (s1.(store := unpaired, conns := s.conns - {c} - {p}), true)
        case None => (s1.(conns := s.conns - {c}), false)
  }

  function LeaveGroup(s: Relay, c: string, i: ConnInfo): Relay
    requires i.username in s.groups
  {
    var group := s.groups[i.username];
    var rest := Without(group.clients, i.clientId);
    s.(groups := if rest == map[] then Without(s.groups, i.username)
                 else s.groups[i.username := Group(group.server, rest)],
       conns := s.conns - {c},
       log := s.log + [Event({group.server}, Left(c, i.clientId))])
  }

  function Dissolve(s: Relay, c: string, i: ConnInfo): Relay
    requires i.username in s.groups
  {
    s.(groups := Without(s.groups, i.username),
       conns := s.conns - s.groups[i.username].clients.Values - {c},
       store := Spec.RemoveWaiting(s.store, i.username, c).0)
  }

  // ----- Runs -----

  datatype Step =
    | Opens(c: string)
    | Registers(c: string, username: string, install: string, multi: bool)
    | Connects(c: string, username: string, newId: string)
    | Sends(c: string, msgType: MessageType, data: seq<byte>, permitted: bool, slow: set<string>)
    | Closes(c: string)

  function Apply(s: Relay, step: Step): Relay {
    match step
    case Opens(c) => Open(s, c)
    case Registers(c, username, install, multi) => Register(s, c, username, install, multi).0
    case Connects(c, username, newId) => Connect(s, c, username, newId).0
    case Sends(c, msgType, data, permitted, slow) => Forward(s, c, msgType, data, permitted, slow)
    case Closes(c) => Close(s, c).0
  }

  /** Opened, still served, and without a completed handshake. */
  predicate Idle(s: Relay, c: string) {
    c in s.info && s.info[c] == NO_ROLE && c !in s.closed
  }

  /** Opened, still served, and with a completed handshake. */
  predicate Active(s: Relay, c: string) {
    c in s.info && s.info[c].username != "" && c !in s.closed
  }

  /** A client ID that no connection has had. */
  predicate UnusedClientId(s: Relay, k: string) {
    forall c :: c in s.info ==> s.info[c].clientId != k
  }

  /** What the environment guarantees: IDs are fresh, a connection completes one
      handshake at most, and nothing follows its close. */
  ghost predicate Legal(s: Relay, step: Step) {
    match step
    case Opens(c) => c != "" && c !in s.info
    case Registers(c, _, _, _) => Idle(s, c)
    case Connects(c, _, newId) => Idle(s, c) && IsCanonical(newId) && UnusedClientId(s, newId)
    case Sends(c, _, _, _, _) => Active(s, c)
    case Closes(c) => c in s.info && c !in s.closed
  }

  function Run(s: Relay, steps: seq<Step>): Relay {
    if steps == [] then s else Apply(Run(s, steps[..|steps| - 1]), steps[|steps| - 1])
  }

  ghost predicate LegalRun(s: Relay, steps: seq<Step>) {
    steps == [] ||
    (LegalRun(s, steps[..|steps| - 1]) && Legal(Run(s, steps[..|steps| - 1]), steps[|steps| - 1]))
  }
}
