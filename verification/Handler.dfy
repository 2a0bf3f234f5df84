/** The read loop of one connection, as steps of the relay. */
module HandlerSpec {
  import opened Basics
  import opened FrameCodec
  import opened RelayInvariant
  import opened RelayMachine
  import opened RelayRuns
  import opened Uuid

  /** Empty strings switch a check off. */
  datatype Config = Config(serverAuthToken: string, jwtSecret: string)

  /** Whom a valid token was issued to. */
  datatype Claims = Claims(username: string, install: string)

  /** The JSON messages that open a connection. */
  datatype Message =
    | ServerRegister(username: string, install: string, authToken: string, jwt: string, multi: bool)
    | ClientConnect(username: string)

  /** One read from a socket, with the message that its bytes parse to, what that message's
      token proves, and the bearer token that the connection was opened with. */
  datatype Read =
    | Failed
    | Frame(msgType: MessageType, data: seq<byte>, parsed: Option<Message>, claims: Option<Claims>, bearer: string)

  /** As whom a registration may go ahead, if at all. */
  function Identity(cfg: Config, m: Message, claims: Option<Claims>, bearer: string): Option<Claims>
    requires m.ServerRegister?
  {
    if cfg.jwtSecret != "" && m.jwt != "" && claims.Some? then claims
    else if cfg.serverAuthToken != "" && m.authToken != cfg.serverAuthToken && bearer != cfg.serverAuthToken then None
    else Some(Claims(m.username, m.install))
  }

  /** Where the loop of a connection stands: before a read; after it, with what the check for
      a pair has said; on its way out; or returned, its connection closed. */
  datatype Phase = Reading | Checked(r: Read, paired: bool) | Leaving | Returned

  /** The relay, and the loops of all connections. */
  datatype Handlers = Handlers(relay: Relay, phases: map<string, Phase>)

  const NOBODY := Handlers(INITIAL, map[])

  /** What can happen next: a connection is accepted; a loop reads and checks; a loop acts on
      what it has checked, or closes. A loop may be overtaken by others in between. */
  datatype Arrival =
    | Accepts(c: string)
    | Reads(c: string, r: Read)
    | Acts(c: string, newId: string, permitted: bool, slow: set<string>)

  function PhaseOf(h: Handlers, c: string): Phase {
    if c in h.phases then h.phases[c] else Returned
  }

  /** The relay step, if any, that a loop takes from where it stands, and where it goes. */
  function Proceed(cfg: Config, s: Relay, c: string, phase: Phase, newId: string, permitted: bool, slow: set<string>)
    : (Option<Step>, Phase)
  {
    match phase
    case Reading => (None, Reading)
    case Returned => (None, Returned)
    case Leaving => (Some(Closes(c)), Returned)
    case Checked(r, paired) =>
      if r.Failed? then (None, Leaving)
      else if paired then (Some(Sends(c, r.msgType, r.data, permitted, slow)), Reading)
      else if r.msgType != Text || r.parsed == None then (None, Reading)
      else Handshake(cfg, s, c, r.parsed.value, r.claims, r.bearer, newId)
  }

  /** A handshake that fails sends the loop on its way out. */
  function Handshake(cfg: Config, s: Relay, c: string, m: Message, claims: Option<Claims>, bearer: string,
                     newId: string)
    : (Option<Step>, Phase)
  {
    match m
    case ServerRegister(_, _, _, _, multi) =>
      (match Identity(cfg, m, claims, bearer)
       case None => (None, Leaving)
       case Some(who) =>
         (Some(Registers(c, who.username, who.install, multi)),
          if Register(s, c, who.username, who.install, multi).1 == Registered then Reading else Leaving))
    case ClientConnect(username) =>
      (Some(Connects(c, username, newId)), if Connect(s, c, username, newId).1 == Connected then Reading else Leaving)
  }

  function React(cfg: Config, h: Handlers, e: Arrival): (Option<Step>, Phase) {
    match e
    case Accepts(c) => (Some(Opens(c)), Reading)
    case Reads(c, r) => (None, if r.Failed? then Leaving else Checked(r, IsPaired(h.relay, c)))
    case Acts(c, newId, permitted, slow) => Proceed(cfg, h.relay, c, PhaseOf(h, c), newId, permitted, slow)
  }

  function After(cfg: Config, h: Handlers, e: Arrival): Handlers {
    var (step, phase) := React(cfg, h, e);
    Handlers(if step == None then h.relay else Apply(h.relay, step.value), h.phases[e.c := phase])
  }

  // ----- Runs of all handlers, interleaved -----

  function StateAfter(cfg: Config, events: seq<Arrival>): Handlers {
    if events == [] then NOBODY
    else After(cfg, StateAfter(cfg, events[..|events| - 1]), events[|events| - 1])
  }

  function AsSteps(step: Option<Step>): seq<Step> {
    if step == None then [] else [step.value]
  }

  /** All relay steps of a run of handlers. */
  function Served(cfg: Config, events: seq<Arrival>): seq<Step> {
    if events == [] then []
    else
      var before := events[..|events| - 1];
      Served(cfg, before) + AsSteps(React(cfg, StateAfter(cfg, before), events[|events| - 1]).0)
  }

  predicate IsHandshake(step: Step) {
    step.Registers? || step.Connects?
  }

  /** What the handlers rely on: fresh IDs, and no handshake on a connection that has completed
      one. The loop itself rules that out once the connection is paired, but not before. */
  ghost predicate Expected(cfg: Config, h: Handlers, e: Arrival) {
    match e
    case Accepts(c) => c != "" && c !in h.relay.info
    case Reads(c, _) => PhaseOf(h, c) == Reading
    case Acts(c, newId, _, _) =>
      && (PhaseOf(h, c).Checked? || PhaseOf(h, c) == Leaving)
      && var step := React(cfg, h, e).0;
         step.Some? && IsHandshake(step.value) ==>
           c in h.relay.info && h.relay.info[c] == NO_ROLE && IsCanonical(newId) && UnusedClientId(h.relay, newId)
  }

  ghost predicate ExpectedRun(cfg: Config, events: seq<Arrival>) {
    events == [] ||
    (var before := events[..|events| - 1];
     ExpectedRun(cfg, before) && Expected(cfg, StateAfter(cfg, before), events[|events| - 1]))
  }

  /** The loops and the relay agree on who has been accepted and who has been closed; a
      connection that was found paired has a role. */
  ghost predicate PhaseOk(h: Handlers, c: string) {
    && (c in h.phases <==> c in h.relay.info)
    && (c in h.relay.info ==> (c in h.relay.closed <==> h.phases[c] == Returned))
    && (PhaseOf(h, c).Checked? ==> PhaseOf(h, c).r.Frame? && (PhaseOf(h, c).paired ==> h.relay.info[c].username != ""))
  }

  ghost predicate PhasesOk(h: Handlers) {
    forall c :: PhaseOk(h, c)
  }

  lemma PairedIsActive(s: Relay, c: string)
    requires Inv(s) && IsPaired(s, c) && c in s.info
    ensures s.info[c].username != ""
  {
    assert InfoOk(s, c);
    assert c in s.store.peers ==> PeerOk(s, c);
  }

  /** Whatever a loop does from where it stands is legal. */
  lemma ReactIsLegal(cfg: Config, h: Handlers, e: Arrival)
    requires PhaseOk(h, e.c) && Expected(cfg, h, e)
    ensures var step := React(cfg, h, e).0; step.Some? ==> step.value.c == e.c && Legal(h.relay, step.value)
  {
    hide IsPaired, Register, Connect, IsCanonical, UnusedClientId, Identity;
  }

  lemma ConnectPeople(s: Relay, c: string, username: string, newId: string)
    requires c in s.info
    ensures var t := Connect(s, c, username, newId).0; t.info.Keys == s.info.Keys && t.closed == s.closed
  {
  }

  lemma RegisterPeople(s: Relay, c: string, username: string, install: string, multi: bool)
    requires c in s.info
    ensures var t := Register(s, c, username, install, multi).0; t.info.Keys == s.info.Keys && t.closed == s.closed
  {
  }

  lemma ClosePeople(s: Relay, c: string)
    ensures Close(s, c).0.info == s.info && Close(s, c).0.closed == s.closed + {c}
  {
  }

  /** Who is there and who has been closed, after a step. */
  lemma StepPeople(s: Relay, step: Step)
    requires step.Opens? || step.c in s.info
    ensures var t := Apply(s, step);
            && t.info.Keys == s.info.Keys + {step.c}
            && t.closed == if step.Closes? then s.closed + {step.c} else s.closed
  {
    hide Register, Connect, Close;
    match step
    case Registers(c, username, install, multi) => RegisterPeople(s, c, username, install, multi);
    case Connects(c, username, newId) => ConnectPeople(s, c, username, newId);
    case Closes(c) => ClosePeople(s, c);
    case _ =>
  }

  lemma LegalIsOpen(s: Relay, step: Step)
    requires Legal(s, step)
    ensures step.Opens? || step.c in s.info
  {
  }

  /** A loop stands where it stood while others move. */
  lemma OtherPhase(cfg: Config, h: Handlers, e: Arrival, c: string)
    requires PhaseOk(h, c) && PhaseOk(h, e.c) && Expected(cfg, h, e) && c != e.c
    ensures PhaseOk(After(cfg, h, e), c)
  {
    ReactIsLegal(cfg, h, e);
    RelayAfter(cfg, h, e);
    hide After, React, Expected, Legal, Apply;
    var step := React(cfg, h, e).0;
    if step.Some? {
      LegalIsOpen(h.relay, step.value);
      StepPeople(h.relay, step.value);
      if c in h.relay.info && h.relay.info[c].username != "" {
        StepKeepsInfo(h.relay, step.value, c);
      }
    }
  }

  lemma OwnPhase(cfg: Config, h: Handlers, e: Arrival)
    requires Inv(h.relay) && PhaseOk(h, e.c) && Expected(cfg, h, e)
    ensures PhaseOk(After(cfg, h, e), e.c)
  {
    assert h.relay.closed <= h.relay.info.Keys;
    if e.Reads? && IsPaired(h.relay, e.c) {
      PairedIsActive(h.relay, e.c);
    }
    ReactIsLegal(cfg, h, e);
    RelayAfter(cfg, h, e);
    hide After, Inv, IsPaired, Register, Connect, IsCanonical, UnusedClientId, Identity, Legal, Apply;
    if React(cfg, h, e).0.Some? {
      LegalIsOpen(h.relay, React(cfg, h, e).0.value);
      StepPeople(h.relay, React(cfg, h, e).0.value);
    }
  }

  lemma AfterKeeps(cfg: Config, h: Handlers, e: Arrival)
    requires Inv(h.relay) && PhasesOk(h) && Expected(cfg, h, e)
    ensures PhasesOk(After(cfg, h, e)) && Inv(After(cfg, h, e).relay)
  {
    hide Inv, After, React, Expected, PhaseOk;
    forall c ensures PhaseOk(After(cfg, h, e), c) {
      if c == e.c {
        OwnPhase(cfg, h, e);
      } else {
        OtherPhase(cfg, h, e, c);
      }
    }
    ReactIsLegal(cfg, h, e);
    RelayAfter(cfg, h, e);
    if React(cfg, h, e).0.Some? {
      StepKeeps(h.relay, React(cfg, h, e).0.value);
    }
  }

  lemma RelayAfter(cfg: Config, h: Handlers, e: Arrival)
    ensures var step := React(cfg, h, e).0;
            && After(cfg, h, e).relay == (if step == None then h.relay else Apply(h.relay, step.value))
            && After(cfg, h, e).phases == h.phases[e.c := React(cfg, h, e).1]
  {
  }

  lemma Extends(steps: seq<Step>, step: Option<Step>)
    requires LegalRun(INITIAL, steps) && (step.Some? ==> Legal(Run(INITIAL, steps), step.value))
    ensures var s := Run(INITIAL, steps);
            && LegalRun(INITIAL, steps + AsSteps(step))
            && Run(INITIAL, steps + AsSteps(step)) == if step == None then s else Apply(s, step.value)
  {
    hide Apply, Legal;
    if step == None {
      assert steps + AsSteps(step) == steps;
    } else {
      assert (steps + AsSteps(step))[..|steps|] == steps;
    }
  }

  /** Whatever is read on whichever connection, and wherever other loops get in between a read,
      its check and what follows, the handlers only ever take legal steps: every guarantee
      of legal runs holds of the program as it is driven. */
  lemma {:induction false} HandlersRunLegally(cfg: Config, events: seq<Arrival>)
    requires ExpectedRun(cfg, events)
    ensures LegalRun(INITIAL, Served(cfg, events)) && StateAfter(cfg, events).relay == Run(INITIAL, Served(cfg, events))
    ensures Inv(StateAfter(cfg, events).relay) && PhasesOk(StateAfter(cfg, events))
  {
    hide Inv, React, Expected, Legal, Apply, After, PhaseOk;
    if events == [] {
      ReachableInv([]);
      NobodyIsOk();
    } else {
      var before, e := events[..|events| - 1], events[|events| - 1];
      HandlersRunLegally(cfg, before);
      var h := StateAfter(cfg, before);
      ReactIsLegal(cfg, h, e);
      RelayAfter(cfg, h, e);
      AfterKeeps(cfg, h, e);
      Extends(Served(cfg, before), React(cfg, h, e).0);
    }
  }

  lemma NobodyIsOk()
    ensures PhasesOk(NOBODY)
  {
  }

  // ----- What a loop does with what it has read -----

  /** What a checked read asks for. */
  ghost predicate AsksToServe(phase: Phase) {
    phase.Checked? && !phase.paired && phase.r.Frame? && phase.r.msgType == Text
    && phase.r.parsed.Some? && phase.r.parsed.value.ServerRegister?
  }

  ghost predicate AsksToConnect(phase: Phase) {
    phase.Checked? && !phase.paired && phase.r.Frame? && phase.r.msgType == Text
    && phase.r.parsed.Some? && phase.r.parsed.value.ClientConnect?
  }

  /** Under some name, for some install, the read entitles its connection to serve. */
  ghost predicate EntitlesSomehow(cfg: Config, r: Read) {
    exists username, install :: Entitles(cfg, r, username, install)
  }

  /** The read came with a token that is valid. */
  ghost predicate HasToken(cfg: Config, r: Read)
    requires r.Frame? && r.parsed.Some? && r.parsed.value.ServerRegister?
  {
    cfg.jwtSecret != "" && r.parsed.value.jwt != "" && r.claims.Some?
  }

  lemma IdentityIff(cfg: Config, r: Read)
    requires r.Frame? && r.msgType == Text && r.parsed.Some? && r.parsed.value.ServerRegister?
    ensures Identity(cfg, r.parsed.value, r.claims, r.bearer).Some? <==> EntitlesSomehow(cfg, r)
  {
    var m := r.parsed.value;
    if HasToken(cfg, r) {
      assert Entitles(cfg, r, r.claims.value.username, r.claims.value.install);
    } else if cfg.serverAuthToken in {"", m.authToken, r.bearer} {
      assert Entitles(cfg, r, m.username, m.install);
    }
  }

  /** A registration that was read is tried exactly when the read entitles its connection to serve,
      under the names in its token if it has a valid one and under its own otherwise; without that,
      the loop leaves. */
  lemma RegistrationTriedIff(cfg: Config, s: Relay, c: string, phase: Phase, newId: string, permitted: bool,
                             slow: set<string>)
    requires AsksToServe(phase)
    ensures var (step, next) := Proceed(cfg, s, c, phase, newId, permitted, slow);
            var m := phase.r.parsed.value;
            && (step.Some? <==> EntitlesSomehow(cfg, phase.r))
            && (step == None ==> next == Leaving)
            && (step.Some? && HasToken(cfg, phase.r) ==>
                  step.value == Registers(c, phase.r.claims.value.username, phase.r.claims.value.install, m.multi))
            && (step.Some? && !HasToken(cfg, phase.r) ==> step.value == Registers(c, m.username, m.install, m.multi))
  {
    hide Register, EntitlesSomehow;
    IdentityIff(cfg, phase.r);
  }

  /** A request for a server is always tried; nothing else that is read on an unpaired connection is
      acted on. A frame of a paired one is passed on, whatever it says. */
  lemma OtherReads(cfg: Config, s: Relay, c: string, phase: Phase, newId: string, permitted: bool, slow: set<string>)
    requires phase.Checked? && phase.r.Frame? && !AsksToServe(phase)
    ensures var (step, next) := Proceed(cfg, s, c, phase, newId, permitted, slow);
            if phase.paired then
              step == Some(Sends(c, phase.r.msgType, phase.r.data, permitted, slow)) && next == Reading
            else if AsksToConnect(phase) then step == Some(Connects(c, phase.r.parsed.value.username, newId))
            else step == None && next == Reading
  {
    hide Connect;
  }

  /** A loop goes on after a handshake exactly when the connection has got a role by it. */
  lemma KeptIffRole(cfg: Config, s: Relay, c: string, phase: Phase, newId: string, permitted: bool, slow: set<string>)
    requires Sound(s) && c in s.info && s.info[c] == NO_ROLE && (AsksToServe(phase) || AsksToConnect(phase))
    ensures var (step, next) := Proceed(cfg, s, c, phase, newId, permitted, slow);
            var t := if step == None then s else Apply(s, step.value);
            && next in {Reading, Leaving}
            && (next == Reading <==> InfoOf(t, c).username != "")
  {
    var step := Proceed(cfg, s, c, phase, newId, permitted, slow).0;
    if step.Some? {
      RoleIffLetIn(s, step.value, c);
    }
  }

  lemma RoleIffLetIn(s: Relay, step: Step, c: string)
    requires Sound(s) && c in s.info && s.info[c] == NO_ROLE && IsHandshake(step) && step.c == c
    ensures step.Registers? ==>
              (InfoOf(Apply(s, step), c).username != "" <==>
               Register(s, c, step.username, step.install, step.multi).1 == Registered)
    ensures step.Connects? ==>
              (InfoOf(Apply(s, step), c).username != "" <==> Connect(s, c, step.username, step.newId).1 == Connected)
  {
    assert step.username in s.store.waiting ==> WaitingOk(s, step.username);
  }

  /** A read that fails ends the loop, and a loop that ends closes its connection, once. */
  lemma FailedReadCloses(cfg: Config, h: Handlers, c: string, newId: string, permitted: bool, slow: set<string>)
    ensures var gone := After(cfg, h, Reads(c, Failed));
            var closed := After(cfg, gone, Acts(c, newId, permitted, slow));
            && gone.relay == h.relay
            && closed.relay == Close(h.relay, c).0 && closed.phases == h.phases[c := Returned]
  {
    hide Close;
  }

  // ----- Who becomes a server -----

  /** The read entitles its connection to serve a username: it carries a valid token issued for
      it, or a shared token that matches, or no shared token is in use. */
  ghost predicate Entitles(cfg: Config, r: Read, username: string, install: string) {
    && r.Frame? && r.msgType == Text && r.parsed.Some? && r.parsed.value.ServerRegister?
    && var m := r.parsed.value;
       || (cfg.jwtSecret != "" && m.jwt != "" && r.claims == Some(Claims(username, install)))
       || (m.username == username && m.install == install && cfg.serverAuthToken in {"", m.authToken, r.bearer})
  }

  /** A connection only becomes a server, or a server under another name, when its loop acts on
      a read that entitles it, and then as the install that owns the name. */
  lemma StepEntitles(cfg: Config, h: Handlers, e: Arrival, c: string)
    requires PhaseOk(h, e.c) && Expected(cfg, h, e)
    ensures var t := After(cfg, h, e).relay;
            InfoOf(t, c).isServer && InfoOf(t, c) != InfoOf(h.relay, c) ==>
              && e.Acts? && e.c == c && PhaseOf(h, c).Checked? && InfoOf(t, c).username in t.registry
              && Entitles(cfg, PhaseOf(h, c).r, InfoOf(t, c).username, t.registry[InfoOf(t, c).username])
  {
    ReactIsLegal(cfg, h, e);
    var step := React(cfg, h, e).0;
    hide IsPaired, IsCanonical, UnusedClientId, Legal;
    if step.Some? {
      StepRole(h.relay, step.value, c);
    }
  }

  /** Only a registration makes a server. */
  lemma StepRole(s: Relay, step: Step, c: string)
    ensures var t := Apply(s, step);
            InfoOf(t, c).isServer && InfoOf(t, c) != InfoOf(s, c) ==>
              && step.Registers? && step.c == c && InfoOf(t, c).username == step.username
              && step.username in t.registry && t.registry[step.username] == step.install
  {
  }

  lemma ChecksWhatItReads(cfg: Config, h: Handlers, e: Arrival, c: string)
    requires PhaseOf(After(cfg, h, e), c).Checked?
    ensures e == Reads(c, PhaseOf(After(cfg, h, e), c).r) || PhaseOf(h, c) == PhaseOf(After(cfg, h, e), c)
  {
    hide Apply, IsPaired, Register, Connect, Identity;
  }

  lemma AtFirst(cfg: Config)
    ensures StateAfter(cfg, []) == NOBODY && forall c :: !PhaseOf(NOBODY, c).Checked?
  {
  }

  lemma LastEvent(cfg: Config, events: seq<Arrival>)
    requires events != []
    ensures StateAfter(cfg, events) == After(cfg, StateAfter(cfg, events[..|events| - 1]), events[|events| - 1])
    ensures events == events[..|events| - 1] + [events[|events| - 1]]
  {
    hide After;
  }

  /** What a loop has checked, it has read. */
  lemma {:induction false} CheckedWasRead(cfg: Config, events: seq<Arrival>, c: string)
    ensures PhaseOf(StateAfter(cfg, events), c).Checked? ==> Reads(c, PhaseOf(StateAfter(cfg, events), c).r) in events
  {
    hide StateAfter, After, PhaseOf;
    if events == [] {
      AtFirst(cfg);
    } else {
      var before, e := events[..|events| - 1], events[|events| - 1];
      LastEvent(cfg, events);
      CheckedWasRead(cfg, before, c);
      if PhaseOf(StateAfter(cfg, events), c).Checked? {
        ChecksWhatItReads(cfg, StateAfter(cfg, before), e, c);
      }
    }
  }

  /** `c` has read what entitles it to serve `username`, as the install that owns it. */
  ghost predicate Entitled(cfg: Config, events: seq<Arrival>, registry: map<string, string>, c: string,
                           username: string) {
    && username in registry
    && exists r :: Reads(c, r) in events && Entitles(cfg, r, username, registry[username])
  }

  lemma EntitledLater(cfg: Config, events: seq<Arrival>, e: Arrival, r: map<string, string>, s: map<string, string>,
                      c: string, username: string)
    requires Entitled(cfg, events, r, c, username) && username in s && s[username] == r[username]
    ensures Entitled(cfg, events + [e], s, c, username)
  {
    hide Entitles;
    var read :| Reads(c, read) in events && Entitles(cfg, read, username, r[username]);
    assert Reads(c, read) in events + [e];
  }

  lemma AfterKeepsOwner(cfg: Config, h: Handlers, e: Arrival, username: string)
    requires username in h.relay.registry
    ensures var t := After(cfg, h, e).relay;
            username in t.registry && t.registry[username] == h.relay.registry[username]
  {
    hide React;
    RelayAfter(cfg, h, e);
    if React(cfg, h, e).0.Some? {
      StepKeepsOwner(h.relay, React(cfg, h, e).0.value, username);
    }
  }

  /** Nobody serves a username, at any time of any run, without having read a registration
      that entitles it, made in the name of the install that owns the username. */
  lemma {:induction false} ServersAreEntitled(cfg: Config, events: seq<Arrival>, c: string)
    requires ExpectedRun(cfg, events) && InfoOf(StateAfter(cfg, events).relay, c).isServer
    ensures var t := StateAfter(cfg, events).relay; Entitled(cfg, events, t.registry, c, InfoOf(t, c).username)
  {
    hide React, Expected, Entitles, Inv, Apply, After, PhaseOk;
    assert events != [];
    var before, e := events[..|events| - 1], events[|events| - 1];
    var h, t := StateAfter(cfg, before), StateAfter(cfg, events).relay;
    assert events == before + [e];
    HandlersRunLegally(cfg, before);
    if InfoOf(t, c) == InfoOf(h.relay, c) {
      ServersAreEntitled(cfg, before, c);
      AfterKeepsOwner(cfg, h, e, InfoOf(t, c).username);
      EntitledLater(cfg, before, e, h.relay.registry, t.registry, c, InfoOf(t, c).username);
    } else {
      StepEntitles(cfg, h, e, c);
      CheckedWasRead(cfg, before, c);
      assert Reads(c, PhaseOf(h, c).r) in events;
    }
  }
}

/** The handler as the program has it: one object for each call of `ServeWS`. */
module Handler {
  import opened Basics
  import opened FrameCodec
  import opened HandlerSpec
  import opened Manager
  import opened RelayInvariant
  import opened RelayMachine
  import opened ReplayBuffer
  import opened Uuid

  /** What the handler itself writes back to the connection. */
  datatype Reply =
    | Nothing
    | Unauthorized
    | ServerRegistered(multi: bool)
    | ServerRejected(result: RegistrationResult)
    | ClientConnected(clientId: string)
    | ClientError(status: ConnectStatus)

  ghost function Taken(s: Relay, step: Option<Step>): Relay {
    if step == None then s else RelayMachine.Apply(s, step.value)
  }

  class Session {
    const manager: Manager
    const cfg: Config
    const conn: Conn
    const bearer: string
    var phase: Phase

    constructor (manager: Manager, cfg: Config, conn: Conn, bearer: string)
      ensures this.manager == manager && this.cfg == cfg && this.conn == conn && this.bearer == bearer
      ensures phase == Reading
    {
      this.manager, this.cfg, this.conn, this.bearer := manager, cfg, conn, bearer;
      phase := Reading;
    }

    /** A read that failed ends the loop. */
    method ReadFailed()
      modifies this`phase
      ensures phase == Leaving
    {
      phase := Leaving;
    }

    /** A read, and the check whether the connection is paired by now. */
    method Receive(msgType: MessageType, data: seq<byte>, parsed: Option<Message>, claims: Option<Claims>)
      requires manager.Valid() && conn in manager.known
      modifies this`phase
      ensures phase == Checked(Read.Frame(msgType, data, parsed, claims, bearer),
                               RelayMachine.IsPaired(manager.model, conn.id))
    {
      var paired := manager.IsPaired(conn);
      phase := Checked(Read.Frame(msgType, data, parsed, claims, bearer), paired);
    }

    /** The deferred close. */
    method Finish()
      requires manager.Valid() && conn in manager.known
      modifies this`phase, manager, manager.store, manager.known
      ensures manager.Valid() && manager.known == old(manager.known)
      ensures manager.model == Close(old(manager.model), conn.id).0 && phase == Returned
    {
      hide Close;
      var _, _ := manager.HandleClose(conn);
      phase := Returned;
    }

    /** A frame of a connection that was found paired goes to the manager. */
    method Pass(msgType: MessageType, frame: seq<byte>, permitted: bool)
      requires manager.Valid() && AllGroupsOk(manager.model) && conn in manager.known
      modifies this`phase, manager, manager.known, if manager.buffer == null then {} else {manager.buffer}
      ensures manager.Valid() && manager.known == old(manager.known) && phase == Reading
      ensures manager.model == RelayMachine.Forward(old(manager.model), conn.id, msgType, frame, permitted,
                                                    old(SlowOnes(manager.known)))
    {
      hide AllGroupsOk, RelayMachine.Forward, SlowOnes, Manager.Replay, Delivered,
           PeopleMatch, IdsMatch, SameKeys, ConnsRefine, GroupsRefine;
      var data := new byte[|frame|](i requires 0 <= i < |frame| => frame[i]);
      assert data[..] == frame;
      manager.Forward(conn, msgType, data, permitted);
      phase := Reading;
    }

    /** What the loop does with what it has read and checked, or its deferred close. */
    method Act(newId: string, permitted: bool) returns (reply: Reply, replayed: seq<BufferedFrame>)
      requires manager.Valid() && AllGroupsOk(manager.model) && conn in manager.known
      requires phase == Leaving || (phase.Checked? && phase.r.Frame?)
      modifies this`phase, manager, manager.store, manager.registry, manager.known,
               if manager.buffer == null then {} else {manager.buffer}
      ensures manager.Valid() && manager.known == old(manager.known)
      ensures var (step, next) := Proceed(cfg, old(manager.model), conn.id, old(phase), newId, permitted,
                                          old(SlowOnes(manager.known)));
              manager.model == Taken(old(manager.model), step) && phase == next
      ensures reply == Unauthorized <==> old(AsksToServe(phase)) && !old(EntitlesSomehow(cfg, phase.r))
    {
      hide AllGroupsOk, RelayMachine.Forward, Register, Connect, Close, SlowOnes, Identity,
           PeopleMatch, IdsMatch, SameKeys, ConnsRefine, GroupsRefine;
      reply, replayed := Nothing, [];
      if AsksToServe(phase) {
        IdentityIff(cfg, phase.r);
      }
      hide EntitlesSomehow;
      if phase == Leaving {
        Finish();
        return;
      }
      var r := phase.r;
      if phase.paired {
        Pass(r.msgType, r.data, permitted);
        return;
      }
      if r.msgType != Text || r.parsed == None {
        phase := Reading;
        return;
      }
      match r.parsed.value
      case ServerRegister(_, _, _, _, _) =>
        reply := HandleRegister(r.parsed.value, r.claims, r.bearer);
      case ClientConnect(username) =>
        reply, replayed := HandleConnect(username, newId);
    }

    method HandleRegister(m: Message, claims: Option<Claims>, bearer: string) returns (reply: Reply)
      requires manager.Valid() && conn in manager.known && m.ServerRegister?
      modifies this`phase, manager, manager.store, manager.registry, manager.known
      ensures manager.Valid() && manager.known == old(manager.known)
      ensures var (step, next) := Handshake(cfg, old(manager.model), conn.id, m, claims, bearer, "");
              manager.model == Taken(old(manager.model), step) && phase == next
      ensures var who := Identity(cfg, m, claims, bearer);
              reply == if who == None then Unauthorized
                       else
                         var result := Register(old(manager.model),
                                                  conn.id, who.value.username, who.value.install, m.multi).1;
                         if result == Registered then ServerRegistered(m.multi) else ServerRejected(result)
    {
      hide Register, PeopleMatch, IdsMatch, SameKeys, ConnsRefine, GroupsRefine, Silent, Manager.Evicts;
      var username, install := m.username, m.install;
      var jwtAuthenticated := false;
      if cfg.jwtSecret != "" && m.jwt != "" {
        if claims.Some? {
          username, install := claims.value.username, claims.value.install;
          jwtAuthenticated := true;
        }
      }
      if !jwtAuthenticated && cfg.serverAuthToken != "" && m.authToken != cfg.serverAuthToken
         && bearer != cfg.serverAuthToken {
        phase := Leaving;
        return Unauthorized;
      }
      var result, _ := manager.RegisterServer(conn, username, install, m.multi);
      if result == Registered {
        phase := Reading;
        return ServerRegistered(m.multi);
      }
      phase := Leaving;
      return ServerRejected(result);
    }

    /** A client that gets through is given what was kept for it, once. */
    method HandleConnect(username: string, newId: string) returns (reply: Reply, replayed: seq<BufferedFrame>)
      requires manager.Valid() && conn in manager.known
      modifies this`phase, manager, manager.store, manager.known,
               if manager.buffer == null then {} else {manager.buffer}
      ensures manager.Valid() && manager.known == old(manager.known)
      ensures var (after, status) := Connect(old(manager.model), conn.id, username, newId);
              && manager.model == after && phase == (if status == Connected then Reading else Leaving)
              && reply == if status == Connected then ClientConnected(InfoOf(after, conn.id).clientId)
                          else ClientError(status)
      ensures manager.buffer != null ==>
                && replayed == (if phase == Reading then Decoded(ListOf(old(manager.buffer.lists), username)) else [])
                && manager.buffer.lists == if replayed != [] then old(manager.buffer.lists) - {username}
                                           else old(manager.buffer.lists)
      ensures manager.buffer == null ==> replayed == []
    {
      hide Connect, Delivered, PeopleMatch, IdsMatch, SameKeys, ConnsRefine, GroupsRefine;
      replayed := [];
      var status := manager.ConnectClient(conn, username, newId);
      if status != Connected {
        phase := Leaving;
        return ClientError(status), replayed;
      }
      phase := Reading;
      InfoOfKnown(manager.known, manager.model, conn);
      reply := ClientConnected(conn.clientId);
      if manager.buffer != null {
        replayed := manager.buffer.GetFrames(username);
        if |replayed| > 0 {
          manager.buffer.Clear(username);
        }
      }
    }
  }
}
