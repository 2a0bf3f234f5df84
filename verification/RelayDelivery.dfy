/** What connections are sent over whole runs: by whom, in which order, and where to. */
module RelayDelivery {
  import opened Basics
  import opened FrameCodec
  import opened RelayInvariant
  import opened RelayMachine
  import opened RelayRoutes
  import opened RelayRuns
  import opened Uuid

  // ----- Who is written to -----

  /** A message goes to connections of its cause's username; what a group client
      causes goes to multi-client servers only, and notices go to exactly one. */
  ghost predicate EventOk(s: Relay, e: Event) {
    var c := e.msg.cause;
    && c in s.info && s.info[c].username != ""
    && (forall t :: t in e.targets ==>
          && t in s.info && s.info[t].username == s.info[c].username
          && (s.info[c].clientId != "" ==> s.info[t].isServer && s.info[t].multiClient))
    && (!e.msg.Frame? ==> s.info[c].clientId == e.msg.clientId != "" && e.targets != {})
  }

  ghost predicate LogOk(s: Relay) {
    && (forall e :: e in s.log ==> EventOk(s, e))
    && (forall f :: f in s.sent ==> f.sender in s.info && s.info[f.sender].username != "")
  }

  lemma EventStaysOk(s: Relay, step: Step, e: Event)
    requires Legal(s, step) && EventOk(s, e)
    ensures EventOk(Apply(s, step), e)
  {
    StepKeepsInfo(s, step, e.msg.cause);
    forall t | t in e.targets
      ensures t in Apply(s, step).info && Apply(s, step).info[t] == s.info[t]
    {
      StepKeepsInfo(s, step, t);
    }
  }

  /** The event, if any, that a step adds to the log. */
  lemma StepLog(s: Relay, step: Step) returns (added: seq<Event>)
    requires Sound(s) && Legal(s, step)
    ensures Apply(s, step).log == s.log + added && |added| <= 1
    ensures added != [] ==>
              && added[0].msg.cause == step.c
              && EventOk(Apply(s, step), added[0])
              && (step.Connects? || step.Sends? || step.Closes?)
              && (added[0].msg.Joined? <==> step.Connects?) && (added[0].msg.Left? <==> step.Closes?)
              && (added[0].msg.Frame? <==> step.Sends?)
    ensures step.Connects? && InfoOf(Apply(s, step), step.c).clientId != "" ==> added != []
  {
    added := [];
    match step
    case Opens(c) =>
    case Registers(c, username, install, multi) =>
    case Connects(c, username, newId) => added := ConnectLog(s, c, username, newId);
    case Sends(c, msgType, data, permitted, slow) => added := SendLog(s, c, msgType, data, permitted, slow);
    case Closes(c) => added := CloseLog(s, c);
  }

  lemma ConnectLog(s: Relay, c: string, username: string, newId: string) returns (added: seq<Event>)
    requires Sound(s) && Legal(s, Connects(c, username, newId))
    ensures var t := Connect(s, c, username, newId).0;
            && t.log == s.log + added && |added| <= 1
            && (added != [] ==> added[0].msg.cause == c && added[0].msg.Joined? && EventOk(t, added[0]))
            && (InfoOf(t, c).clientId != "" ==> added != [])
  {
    hide IsCanonical, UnusedClientId;
    added := [];
    RolelessIsUnplaced(s, c);
    assert newId != "" by { CanonicalIsNotEmpty(newId); }
    if username in s.registry && username in s.store.waiting {
      assert WaitingOk(s, username);
      if InfoOf(s, s.store.waiting[username]).multiClient {
        added := [Event({s.store.waiting[username]}, Joined(c, newId))];
      }
    }
  }

  lemma SendLog(s: Relay, c: string, msgType: MessageType, data: seq<byte>, permitted: bool, slow: set<string>)
    returns (added: seq<Event>)
    requires Sound(s) && Active(s, c)
    ensures var t := Forward(s, c, msgType, data, permitted, slow);
            && t.log == s.log + added && |added| <= 1
            && (added != [] ==> added[0].msg.cause == c && added[0].msg.Frame? && EventOk(t, added[0]))
  {
    added := [];
    if permitted {
      var (wireType, wireData) := Wire(InfoOf(s, c), msgType, data);
      added := [Event(Targets(s, c, msgType, data) - slow, Frame(c, wireType, wireData))];
      TargetsShareUsername(s, c, msgType, data);
      if InfoOf(s, c).clientId != "" { GroupTarget(s, c, msgType, data); }
      hide Targets, Wire;
    }
  }

  lemma GroupTarget(s: Relay, c: string, msgType: MessageType, data: seq<byte>)
    requires Sound(s) && InfoOf(s, c).clientId != ""
    ensures forall t :: t in Targets(s, c, msgType, data) ==> InfoOf(s, t).isServer && InfoOf(s, t).multiClient
  {
    assert InfoOf(s, c).username in s.groups ==> GroupOk(s, InfoOf(s, c).username);
  }

  lemma CloseLog(s: Relay, c: string) returns (added: seq<Event>)
    requires Sound(s) && Legal(s, Closes(c))
    ensures var t := Close(s, c).0;
            && t.log == s.log + added && |added| <= 1
            && (added != [] ==> added[0].msg.cause == c && added[0].msg.Left? && EventOk(t, added[0]))
  {
    added := [];
    var i := s.info[c];
    assert InfoOk(s, c);
    if i.clientId != "" && i.username in s.groups {
      added := [Event({s.groups[i.username].server}, Left(c, i.clientId))];
      assert GroupOk(s, i.username);
    }
  }

  lemma StepKeepsSenders(s: Relay, step: Step, f: Sent)
    requires Legal(s, step) && f in Apply(s, step).sent
    requires forall g :: g in s.sent ==> g.sender in s.info && s.info[g.sender].username != ""
    ensures f.sender in Apply(s, step).info && Apply(s, step).info[f.sender].username != ""
  {
    if f in s.sent { StepKeepsInfo(s, step, f.sender); }
  }

  lemma StepKeepsLog(s: Relay, step: Step)
    requires Sound(s) && Legal(s, step) && LogOk(s)
    ensures LogOk(Apply(s, step))
  {
    hide Apply, Inv, Legal, EventOk;
    var t := Apply(s, step);
    var added := StepLog(s, step);
    forall e | e in t.log ensures EventOk(t, e) {
      if e in s.log { EventStaysOk(s, step, e); }
    }
    forall f | f in t.sent ensures f.sender in t.info && t.info[f.sender].username != "" {
      StepKeepsSenders(s, step, f);
    }
  }

  lemma {:induction false} RunKeepsLog(steps: seq<Step>)
    requires LegalRun(INITIAL, steps)
    ensures LogOk(Run(INITIAL, steps))
  {
    if steps != [] {
      var before := steps[..|steps| - 1];
      RunKeepsLog(before);
      ReachableInv(before);
      StepKeepsLog(Run(INITIAL, before), steps[|steps| - 1]);
    }
  }

  /** Usernames are isolated: over a whole run, nothing that one connection causes is
      ever written to a connection of another username. */
  lemma UsernameIsolation(steps: seq<Step>, e: Event, t: string)
    requires LegalRun(INITIAL, steps) && e in Run(INITIAL, steps).log && t in e.targets
    ensures var info := Run(INITIAL, steps).info;
            e.msg.cause in info && t in info && info[t].username == info[e.msg.cause].username != ""
  {
    RunKeepsLog(steps);
    assert EventOk(Run(INITIAL, steps), e);
  }

  // ----- In which order -----

  /** The frames of `c` written to `t`, oldest first. */
  function Received(log: seq<Event>, t: string, c: string): seq<(MessageType, seq<byte>)> {
    if log == [] then []
    else
      var e := log[|log| - 1];
      Received(log[..|log| - 1], t, c)
      + if t in e.targets && e.msg.Frame? && e.msg.cause == c then [(e.msg.msgType, e.msg.data)] else []
  }

  /** The frames that `c` sent, in the form in which the relay passes them on, oldest first. */
  function SentBy(sent: seq<Sent>, c: string, i: ConnInfo): seq<(MessageType, seq<byte>)> {
    if sent == [] then []
    else
      var f := sent[|sent| - 1];
      SentBy(sent[..|sent| - 1], c, i) + if f.sender == c then [Wire(i, f.msgType, f.data)] else []
  }

  lemma {:induction false} NothingReceived(log: seq<Event>, t: string, c: string)
    requires forall e :: e in log ==> e.msg.cause != c
    ensures Received(log, t, c) == []
  {
    if log != [] {
      NothingReceived(log[..|log| - 1], t, c);
    }
  }

  lemma ReceivedAfter(log: seq<Event>, e: Event, t: string, c: string)
    ensures Received(log + [e], t, c) ==
            if t in e.targets && e.msg.Frame? && e.msg.cause == c
            then Received(log, t, c) + [(e.msg.msgType, e.msg.data)]
            else Received(log, t, c)
  {
    assert (log + [e])[..|log|] == log;
    assert Received(log, t, c) + [] == Received(log, t, c);
  }

  lemma SentAfter(sent: seq<Sent>, f: Sent, c: string, i: ConnInfo)
    ensures SentBy(sent + [f], c, i) ==
            if f.sender == c then SentBy(sent, c, i) + [Wire(i, f.msgType, f.data)] else SentBy(sent, c, i)
  {
    assert (sent + [f])[..|sent|] == sent;
    assert SentBy(sent, c, i) + [] == SentBy(sent, c, i);
  }

  lemma NoEventsBy(s: Relay, c: string)
    requires LogOk(s) && InfoOf(s, c).username == ""
    ensures forall e :: e in s.log ==> e.msg.cause != c
  {
    forall e | e in s.log ensures e.msg.cause != c { assert EventOk(s, e); }
  }

  ghost predicate InOrder(s: Relay, t: string, c: string) {
    Subsequence(Received(s.log, t, c), SentBy(s.sent, c, InfoOf(s, c)))
  }

  lemma SendKeepsOrder(s: Relay, step: Step, t: string, c: string)
    requires step.Sends? && Legal(s, step) && InOrder(s, t, c)
    ensures InOrder(Apply(s, step), t, c)
  {
    var after := Apply(s, step);
    var i := InfoOf(s, c);
    var wire := Wire(i, step.msgType, step.data);
    var sent := SentBy(s.sent, c, i);
    var received := Received(s.log, t, c);
    SentAfter(s.sent, Sent(step.c, step.msgType, step.data), c, i);
    if step.permitted {
      ReceivedAfter(s.log, after.log[|s.log|], t, c);
      assert after.log == s.log + [after.log[|s.log|]];
    }
    if step.c == c {
      SubsequenceSkip(received, sent, wire);
      SubsequenceTake(received, sent, wire);
      assert Received(after.log, t, c) in {received, received + [wire]};
    } else {
      assert SentBy(after.sent, c, i) == sent && Received(after.log, t, c) == received;
    }
  }

  lemma OrderFrame(s: Relay, after: Relay, added: seq<Event>, t: string, c: string)
    requires LogOk(s) && InOrder(s, t, c)
    requires after.sent == s.sent && after.log == s.log + added
    requires |added| <= 1 && (added != [] ==> !added[0].msg.Frame?)
    requires InfoOf(s, c).username == "" || InfoOf(after, c) == InfoOf(s, c)
    ensures InOrder(after, t, c)
  {
    if added != [] {
      ReceivedAfter(s.log, added[0], t, c);
      assert added == [added[0]];
    } else {
      assert after.log == s.log;
    }
    if InfoOf(s, c).username == "" {
      NoEventsBy(s, c);
      NothingReceived(s.log, t, c);
    }
  }

  lemma OtherStepKeepsOrder(s: Relay, step: Step, t: string, c: string)
    requires Sound(s) && LogOk(s) && Legal(s, step) && !step.Sends? && InOrder(s, t, c)
    ensures InOrder(Apply(s, step), t, c)
  {
    hide Sound, Apply, LogOk, InOrder, EventOk;
    var added := StepLog(s, step);
    assert added != [] ==> !added[0].msg.Frame?;
    SentStays(s, step);
    if InfoOf(s, c).username != "" {
      hide Legal;
      StepKeepsInfo(s, step, c);
    }
    OrderFrame(s, Apply(s, step), added, t, c);
  }

  lemma SentStays(s: Relay, step: Step)
    requires !step.Sends?
    ensures Apply(s, step).sent == s.sent
  {
  }

  /** What a connection receives from a sender is, in order, some of what that sender sent. */
  lemma {:induction false} OrderedDelivery(steps: seq<Step>, t: string, c: string)
    requires LegalRun(INITIAL, steps)
    ensures InOrder(Run(INITIAL, steps), t, c)
  {
    if steps != [] {
      var before := steps[..|steps| - 1];
      OrderedDelivery(before, t, c);
      if steps[|steps| - 1].Sends? {
        SendKeepsOrder(Run(INITIAL, before), steps[|steps| - 1], t, c);
      } else {
        ReachableInv(before);
        RunKeepsLog(before);
        OtherStepKeepsOrder(Run(INITIAL, before), steps[|steps| - 1], t, c);
      }
    }
  }

  // ----- The stream of a group client -----

  /** How far the messages that a client causes have come: a joined notice, its
      frames, and one left notice at the end. */
  datatype Stream = Silent | Live | Over | Broken

  function Advance(st: Stream, msg: Msg): Stream {
    match (st, msg)
    case (Silent, Joined(_, _)) => Live
    case (Live, Frame(_, _, _)) => Live
    case (Live, Left(_, _)) => Over
    case (_, _) => Broken
  }

  function StreamOf(log: seq<Event>, c: string): Stream {
    if log == [] then Silent
    else
      var e := log[|log| - 1];
      var st := StreamOf(log[..|log| - 1], c);
      if e.msg.cause == c then Advance(st, e.msg) else st
  }

  /** The same, seen by one receiver. */
  function StreamAt(log: seq<Event>, t: string, c: string): Stream {
    if log == [] then Silent
    else
      var e := log[|log| - 1];
      var st := StreamAt(log[..|log| - 1], t, c);
      if e.msg.cause == c && t in e.targets then Advance(st, e.msg) else st
  }

  lemma {:induction false} SilentStream(log: seq<Event>, c: string)
    requires forall e :: e in log ==> e.msg.cause != c
    ensures StreamOf(log, c) == Silent
  {
    if log != [] {
      SilentStream(log[..|log| - 1], c);
    }
  }

  ghost predicate StreamOk(s: Relay, c: string) {
    InfoOf(s, c).clientId != "" ==>
      StreamOf(s.log, c) == Live || (StreamOf(s.log, c) == Over && c in s.closed)
  }

  lemma StreamAfter(log: seq<Event>, e: Event, c: string)
    ensures StreamOf(log + [e], c)
            == if e.msg.cause == c then Advance(StreamOf(log, c), e.msg) else StreamOf(log, c)
  {
    assert (log + [e])[..|log|] == log;
  }

  /** What a step means for the stream of `c`. */
  lemma StreamFrame(s: Relay, after: Relay, added: seq<Event>, c: string)
    requires LogOk(s) && StreamOk(s, c)
    requires after.log == s.log + added && |added| <= 1 && s.closed <= after.closed
    requires added != [] && added[0].msg.cause == c ==>
               c !in s.closed && (added[0].msg.Left? ==> c in after.closed)
    requires if InfoOf(s, c).username != ""
             then InfoOf(after, c) == InfoOf(s, c) && (added != [] && added[0].msg.cause == c ==> !added[0].msg.Joined?)
             else InfoOf(after, c).clientId != "" ==> added != [] && added[0].msg.Joined? && added[0].msg.cause == c
    requires InfoOf(s, c).username == "" ==> InfoOf(s, c).clientId == ""
    ensures StreamOk(after, c)
  {
    if added != [] {
      StreamAfter(s.log, added[0], c);
      assert added == [added[0]];
    } else {
      assert after.log == s.log;
    }
    if InfoOf(s, c).username == "" {
      NoEventsBy(s, c);
      SilentStream(s.log, c);
    }
  }

  lemma StepKeepsStream(s: Relay, step: Step, c: string)
    requires Sound(s) && LogOk(s) && Legal(s, step) && StreamOk(s, c)
    ensures StreamOk(Apply(s, step), c)
  {
    var added := StepLog(s, step);
    StepKeepsClosed(s, step);
    assert c in s.info ==> InfoOk(s, c);
    if InfoOf(s, c).username != "" {
      StepKeepsInfo(s, step, c);
    } else if InfoOf(Apply(s, step), c).clientId != "" {
      StepGivesClientId(s, step, c);
    }
    StreamFrame(s, Apply(s, step), added, c);
  }

  lemma StepGivesClientId(s: Relay, step: Step, c: string)
    requires Legal(s, step) && InfoOf(s, c).clientId == "" && InfoOf(Apply(s, step), c).clientId != ""
    ensures step.Connects? && step.c == c
  {
  }

  /** Over a whole run, a group client's messages are its joined notice, then its frames,
      then at most one left notice, after which it is silent. */
  lemma {:induction false} ClientStream(steps: seq<Step>, c: string)
    requires LegalRun(INITIAL, steps)
    ensures StreamOk(Run(INITIAL, steps), c)
  {
    if steps != [] {
      var before := steps[..|steps| - 1];
      ClientStream(before, c);
      ReachableInv(before);
      RunKeepsLog(before);
      StepKeepsStream(Run(INITIAL, before), steps[|steps| - 1], c);
    }
  }

  lemma {:induction false} StreamSeen(log: seq<Event>, t: string, c: string)
    requires forall e :: e in log && e.msg.cause == c ==> e.targets <= {t} && (!e.msg.Frame? ==> e.targets == {t})
    requires StreamOf(log, c) != Broken
    ensures StreamAt(log, t, c) == StreamOf(log, c)
  {
    if log != [] {
      StreamSeen(log[..|log| - 1], t, c);
    }
  }

  /** A username that one server ever registered: that server sees the whole stream of
      every client of its group, whatever frames were dropped. */
  lemma SingleServerStream(steps: seq<Step>, server: string, c: string)
    requires LegalRun(INITIAL, steps)
    requires var s := Run(INITIAL, steps);
             && c in s.info && s.info[c].clientId != ""
             && (forall d :: d in s.info && s.info[d].isServer && s.info[d].username == s.info[c].username
                  ==> d == server)
    ensures var s := Run(INITIAL, steps);
            && StreamAt(s.log, server, c) == StreamOf(s.log, c)
            && StreamAt(s.log, server, c) in {Live, Over}
            && (StreamAt(s.log, server, c) == Over ==> c in s.closed)
  {
    var s := Run(INITIAL, steps);
    RunKeepsLog(steps);
    ClientStream(steps, c);
    forall e | e in s.log && e.msg.cause == c
      ensures e.targets <= {server} && (!e.msg.Frame? ==> e.targets == {server})
    {
      assert EventOk(s, e);
    }
    StreamSeen(s.log, server, c);
  }

  // ----- The streams of a group client, receiver by receiver -----

  /** `h` was told that `c` joined. */
  ghost predicate Hosts(log: seq<Event>, c: string, h: string) {
    exists e :: e in log && e.msg.Joined? && e.msg.cause == c && e.targets == {h}
  }

  /** Nobody else was. */
  ghost predicate JoinsOnly(log: seq<Event>, c: string, h: string) {
    forall e :: e in log && e.msg.Joined? && e.msg.cause == c ==> e.targets == {h}
  }

  /** Nothing that `c` caused was written to any connection but `h`. */
  ghost predicate OnlyTo(log: seq<Event>, c: string, h: string) {
    forall e :: e in log && e.msg.cause == c ==> e.targets <= {h}
  }

  lemma {:induction false} SilentMeansNothing(log: seq<Event>, c: string)
    requires StreamOf(log, c) == Silent
    ensures forall e :: e in log ==> e.msg.cause != c
  {
    if log != [] {
      SilentMeansNothing(log[..|log| - 1], c);
      assert log == log[..|log| - 1] + [log[|log| - 1]];
    }
  }

  /** A client that is not announced twice has one host. */
  lemma {:induction false} OneHost(log: seq<Event>, c: string, h: string)
    requires StreamOf(log, c) != Broken && Hosts(log, c, h)
    ensures JoinsOnly(log, c, h)
  {
    var before, last := log[..|log| - 1], log[|log| - 1];
    assert log == before + [last];
    if last.msg.cause == c && last.msg.Joined? {
      SilentMeansNothing(before, c);
    } else {
      OneHost(before, c, h);
    }
  }

  /** To a connection that was never told of `c`, whatever `c` causes is out of place. */
  lemma {:induction false} UninvitedStream(log: seq<Event>, t: string, c: string)
    requires forall e :: e in log && e.msg.Joined? && e.msg.cause == c ==> t !in e.targets
    ensures StreamAt(log, t, c) ==
            if exists e :: e in log && e.msg.cause == c && t in e.targets then Broken else Silent
  {
    if log != [] {
      var before, last := log[..|log| - 1], log[|log| - 1];
      assert log == before + [last];
      UninvitedStream(before, t, c);
    }
  }

  /** What any connection sees of a client's stream: its host sees all of it and the others
      nothing, exactly as long as nothing goes astray; what goes astray is out of place
      where it arrives. */
  lemma StreamsFromLog(log: seq<Event>, c: string, h: string)
    requires StreamOf(log, c) != Broken && Hosts(log, c, h)
    requires forall e :: e in log && e.msg.cause == c && !e.msg.Frame? ==> e.targets != {}
    ensures (forall t :: StreamAt(log, t, c) != Broken) <==> OnlyTo(log, c, h)
    ensures OnlyTo(log, c, h) ==> StreamAt(log, h, c) == StreamOf(log, c)
    ensures forall t :: t != h ==> StreamAt(log, t, c) in {Silent, Broken}
  {
    OneHost(log, c, h);
    hide StreamAt, StreamOf;
    forall t | t != h
      ensures StreamAt(log, t, c) ==
              if exists e :: e in log && e.msg.cause == c && t in e.targets then Broken else Silent
    {
      UninvitedStream(log, t, c);
    }
    if OnlyTo(log, c, h) {
      forall e | e in log && e.msg.cause == c && !e.msg.Frame? ensures e.targets == {h} {
        var t :| t in e.targets;
      }
      StreamSeen(log, h, c);
    } else {
      var e :| e in log && e.msg.cause == c && !(e.targets <= {h});
      var t :| t in e.targets && t != h;
      assert StreamAt(log, t, c) == Broken;
    }
  }

  /** The step writes for the group client `c` to a server that is not its host: its username
      has a group, that group belongs to another server, and `c` leaves, or sends a frame
      that is not held back. */
  predicate Strays(s: Relay, step: Step, c: string, h: string) {
    var i := InfoOf(s, c);
    && step.c == c && i.clientId != "" && i.username in s.groups && s.groups[i.username].server != h
    && (step.Closes? || (step.Sends? && step.permitted && s.groups[i.username].server !in step.slow))
  }

  ghost predicate NeverStrays(s: Relay, steps: seq<Step>, c: string, h: string) {
    steps == [] ||
    (var before := steps[..|steps| - 1];
     NeverStrays(s, before, c, h) && !Strays(Run(s, before), steps[|steps| - 1], c, h))
  }

  lemma LogGrows(log: seq<Event>, added: seq<Event>, c: string, h: string)
    requires |added| <= 1
    ensures OnlyTo(log + added, c, h) <==>
            OnlyTo(log, c, h) && (added != [] && added[0].msg.cause == c ==> added[0].targets <= {h})
    ensures JoinsOnly(log + added, c, h) ==> JoinsOnly(log, c, h)
    ensures JoinsOnly(log + added, c, h) && added != [] && added[0].msg.Joined? && added[0].msg.cause == c ==>
              added[0].targets == {h}
  {
    assert added != [] ==> added[0] in log + added;
  }

  lemma OneLessSlow(t: string, slow: set<string>, h: string)
    ensures {t} - slow <= {h} <==> t in slow || t == h
  {
    assert t !in slow ==> t in {t} - slow;
  }

  /** What a group client's own step writes. */
  lemma OwnStep(s: Relay, step: Step, c: string, h: string) returns (added: seq<Event>)
    requires Legal(s, step) && step.c == c && InfoOf(s, c).clientId != "" && InfoOk(s, c)
    ensures Apply(s, step).log == s.log + added && |added| <= 1
    ensures added != [] ==> added[0].msg.cause == c
    ensures (added != [] ==> added[0].targets <= {h}) <==> !Strays(s, step, c, h)
  {
    hide Wire, TargetHeader, IsCanonical, UnusedClientId;
    added := [];
    var u := InfoOf(s, c).username;
    if step.Sends? && step.permitted {
      var (wireType, wireData) := Wire(InfoOf(s, c), step.msgType, step.data);
      added := [Event(Targets(s, c, step.msgType, step.data) - step.slow, Frame(c, wireType, wireData))];
      if u in s.groups {
        OneLessSlow(s.groups[u].server, step.slow, h);
      }
    } else if step.Closes? && u in s.groups {
      added := [Event({s.groups[u].server}, Left(c, InfoOf(s, c).clientId))];
    }
  }

  lemma StepStrays(s: Relay, step: Step, c: string, h: string)
    requires Sound(s) && Legal(s, step) && JoinsOnly(Apply(s, step).log, c, h)
    requires InfoOf(Apply(s, step), c).clientId != ""
    ensures OnlyTo(Apply(s, step).log, c, h) <==> OnlyTo(s.log, c, h) && !Strays(s, step, c, h)
  {
    assert c in s.info ==> InfoOk(s, c);
    hide Sound, InfoOk, Apply, OnlyTo, JoinsOnly;
    var added: seq<Event>;
    if step.c == c && InfoOf(s, c).clientId != "" {
      added := OwnStep(s, step, c, h);
    } else {
      added := StepLog(s, step);
      if step.c == c {
        StepGivesClientId(s, step, c);
      }
    }
    LogGrows(s.log, added, c, h);
  }

  lemma StepKeepsJoins(s: Relay, step: Step, c: string, h: string)
    requires Sound(s) && Legal(s, step) && JoinsOnly(Apply(s, step).log, c, h)
    ensures JoinsOnly(s.log, c, h)
  {
    hide Sound, Apply, OnlyTo, JoinsOnly;
    var added := StepLog(s, step);
    LogGrows(s.log, added, c, h);
  }

  lemma NothingYet(s: Relay, c: string, h: string)
    requires Sound(s) && LogOk(s) && InfoOf(s, c).username == ""
    ensures OnlyTo(s.log, c, h) && InfoOf(s, c).clientId == ""
  {
    NoEventsBy(s, c);
    assert c in s.info ==> InfoOk(s, c);
  }

  /** One step of a run, seen from a client that is or may become a group client. */
  lemma StepOnlyTo(s: Relay, step: Step, c: string, h: string)
    requires Sound(s) && LogOk(s) && Legal(s, step) && JoinsOnly(Apply(s, step).log, c, h)
    requires Sound(Apply(s, step)) && LogOk(Apply(s, step))
    requires InfoOf(Apply(s, step), c).username == "" || InfoOf(Apply(s, step), c).clientId != ""
    ensures JoinsOnly(s.log, c, h) && (InfoOf(s, c).username == "" || InfoOf(s, c).clientId != "")
    ensures OnlyTo(Apply(s, step).log, c, h) <==> OnlyTo(s.log, c, h) && !Strays(s, step, c, h)
  {
    hide Sound, LogOk, Apply, OnlyTo, JoinsOnly, Legal;
    StepKeepsJoins(s, step, c, h);
    if InfoOf(s, c).username != "" {
      StepKeepsInfo(s, step, c);
    } else {
      NothingYet(s, c, h);
    }
    if InfoOf(Apply(s, step), c).username == "" {
      NothingYet(Apply(s, step), c, h);
    } else {
      StepStrays(s, step, c, h);
    }
  }

  /** What a group client causes stays with its host exactly as long as no step strays. */
  lemma {:induction false} OnlyToIff(steps: seq<Step>, c: string, h: string)
    requires LegalRun(INITIAL, steps) && JoinsOnly(Run(INITIAL, steps).log, c, h)
    requires InfoOf(Run(INITIAL, steps), c).username == "" || InfoOf(Run(INITIAL, steps), c).clientId != ""
    ensures OnlyTo(Run(INITIAL, steps).log, c, h) <==> NeverStrays(INITIAL, steps, c, h)
  {
    if steps != [] {
      hide Inv, Sound, LogOk, Apply, OnlyTo, JoinsOnly, Legal, Strays;
      var before, step := steps[..|steps| - 1], steps[|steps| - 1];
      ReachableInv(before);
      ReachableInv(steps);
      RunKeepsLog(before);
      RunKeepsLog(steps);
      StepOnlyTo(Run(INITIAL, before), step, c, h);
      OnlyToIff(before, c, h);
    } else {
      assert INITIAL.log == [];
    }
  }

  lemma NoticesReachSomebody(s: Relay, c: string)
    requires LogOk(s)
    ensures forall e :: e in s.log && e.msg.cause == c && !e.msg.Frame? ==> e.targets != {}
  {
    forall e | e in s.log && e.msg.cause == c && !e.msg.Frame? ensures e.targets != {} {
      assert EventOk(s, e);
    }
  }

  lemma HostStays(log: seq<Event>, added: seq<Event>, c: string, h: string)
    requires Hosts(log, c, h)
    ensures Hosts(log + added, c, h)
  {
    var e :| e in log && e.msg.Joined? && e.msg.cause == c && e.targets == {h};
    assert e in log + added;
  }

  lemma StepKeepsHosts(s: Relay, step: Step, c: string, h: string)
    requires Sound(s) && Legal(s, step) && Hosts(s.log, c, h)
    ensures Hosts(Apply(s, step).log, c, h)
  {
    hide Sound, Legal, Apply, Hosts;
    var added := StepLog(s, step);
    HostStays(s.log, added, c, h);
  }

  /** Joining a group is announced to the server that waits. */
  lemma StepHosts(s: Relay, step: Step, c: string) returns (h: string)
    requires Sound(s) && Legal(s, step) && InfoOf(s, c).clientId == "" && InfoOf(Apply(s, step), c).clientId != ""
    ensures Hosts(Apply(s, step).log, c, h)
  {
    StepGivesClientId(s, step, c);
    h := s.store.waiting[step.username];
    var log := Apply(s, step).log;
    assert log[|log| - 1] == Event({h}, Joined(c, step.newId));
  }

  /** Every group client has a host: the server that was told that it joined. */
  lemma {:induction false} ClientHasHost(steps: seq<Step>, c: string) returns (h: string)
    requires LegalRun(INITIAL, steps) && InfoOf(Run(INITIAL, steps), c).clientId != ""
    ensures Hosts(Run(INITIAL, steps).log, c, h)
  {
    assert steps != [];
    hide Sound, Legal, Apply, Hosts;
    var before, step := steps[..|steps| - 1], steps[|steps| - 1];
    ReachableInv(before);
    if InfoOf(Run(INITIAL, before), c).clientId != "" {
      h := ClientHasHost(before, c);
      StepKeepsHosts(Run(INITIAL, before), step, c, h);
    } else {
      h := StepHosts(Run(INITIAL, before), step, c);
    }
  }

  /** Over any run with any number of servers: no connection sees a group client's messages
      out of place exactly when none of the client's steps strays; then its host sees the
      whole stream, and nobody else anything. Where a message goes astray, it is out of
      place. */
  lemma StreamsWholeIff(steps: seq<Step>, c: string, h: string)
    requires LegalRun(INITIAL, steps) && InfoOf(Run(INITIAL, steps), c).clientId != ""
    requires Hosts(Run(INITIAL, steps).log, c, h)
    ensures var s := Run(INITIAL, steps);
            && ((forall t :: StreamAt(s.log, t, c) != Broken) <==> NeverStrays(INITIAL, steps, c, h))
            && (NeverStrays(INITIAL, steps, c, h) ==>
                  && StreamAt(s.log, h, c) == StreamOf(s.log, c)
                  && (StreamOf(s.log, c) == Live || (StreamOf(s.log, c) == Over && c in s.closed))
                  && (forall t :: t != h ==> StreamAt(s.log, t, c) == Silent))
  {
    hide Sound, EventOk, StreamAt, OnlyTo, Hosts, NeverStrays, LegalRun;
    var s := Run(INITIAL, steps);
    RunKeepsLog(steps);
    ClientStream(steps, c);
    NoticesReachSomebody(s, c);
    OneHost(s.log, c, h);
    OnlyToIff(steps, c, h);
    StreamsFromLog(s.log, c, h);
  }

  // ----- After a takeover -----

  /** While a group lasts, its server stays the same. */
  lemma StepKeepsServer(s: Relay, step: Step, u: string)
    requires u in s.groups && u in Apply(s, step).groups
    ensures Apply(s, step).groups[u].server == s.groups[u].server
  {
  }

  lemma GroupMeansHeld(s: Relay, c: string)
    requires Inv(s) && c in s.info && s.info[c].clientId != ""
    ensures InGroup(s, c) <==> c in s.conns
  {
    ClientsHaveNoTable(s, c);
    assert c in s.conns ==> HasRole(s, c);
    assert InGroup(s, c) ==> GroupOk(s, s.info[c].username) && MemberOk(s, s.info[c].username, s.info[c].clientId, c);
  }

  lemma StaysOutOfGroup(s: Relay, step: Step, c: string)
    requires Inv(s) && Legal(s, step) && c in s.info && s.info[c].username != "" && !InGroup(s, c)
    ensures !InGroup(Apply(s, step), c)
  {
    StepKeepsInfo(s, step, c);
    if s.info[c].clientId != "" {
      GroupMeansHeld(s, c);
      StepKeepsGone(s, step, c);
      StepKeeps(s, step);
      GroupMeansHeld(Apply(s, step), c);
    }
  }

  /** A client in a group after a step was in it before, under the same server. */
  lemma StepServer(s: Relay, step: Step, c: string, u: string)
    requires Inv(s) && Legal(s, step) && c in s.info && s.info[c].username == u != "" && InGroup(Apply(s, step), c)
    ensures InGroup(s, c) && u in Apply(s, step).groups
    ensures Apply(s, step).groups[u].server == s.groups[u].server
  {
    if !InGroup(s, c) {
      StaysOutOfGroup(s, step, c);
    }
    StepKeepsInfo(s, step, c);
    StepKeepsServer(s, step, u);
  }

  lemma {:induction false} RunKeepsServer(s: Relay, steps: seq<Step>, c: string, u: string)
    requires Inv(s) && LegalRun(s, steps) && c in s.info && s.info[c].username == u != "" && InGroup(Run(s, steps), c)
    ensures InGroup(s, c) && u in Run(s, steps).groups
    ensures Run(s, steps).groups[u].server == s.groups[u].server
  {
    if steps != [] {
      var before := steps[..|steps| - 1];
      RunKeeps(s, before);
      RunKeepsInfo(s, before, c);
      StepServer(Run(s, before), steps[|steps| - 1], c, u);
      RunKeepsServer(s, before, c, u);
    }
  }

  lemma MemberTargets(s: Relay, c: string, u: string, msgType: MessageType, data: seq<byte>)
    requires InGroup(s, c) && InfoOf(s, c).username == u
    ensures Targets(s, c, msgType, data) == {s.groups[u].server}
  {
  }

  lemma StaysWithServer(s: Relay, steps: seq<Step>, c: string, u: string, msgType: MessageType, data: seq<byte>)
    requires Inv(s) && LegalRun(s, steps) && c in s.info && s.info[c].username == u != "" && InGroup(Run(s, steps), c)
    ensures u in s.groups && Targets(Run(s, steps), c, msgType, data) == {s.groups[u].server}
  {
    hide Inv, Targets, LegalRun;
    RunKeepsServer(s, steps, c, u);
    RunKeepsInfo(s, steps, c);
    MemberTargets(Run(s, steps), c, u, msgType, data);
  }

  lemma JoinsAsMember(s: Relay, c: string, username: string, newId: string)
    requires Inv(s) && Idle(s, c) && newId != "" && UnusedClientId(s, newId)
    requires username in s.store.waiting && InfoOf(s, s.store.waiting[username]).multiClient
    ensures var joined := JoinGroup(s, c, username, s.store.waiting[username], newId);
            && Inv(joined) && username != ""
            && c in joined.info && joined.info[c] == ConnInfo(username, false, false, newId)
            && username in joined.groups
            && joined.groups[username].server
               == if username in s.groups then s.groups[username].server else s.store.waiting[username]
  {
    RolelessIsUnplaced(s, c);
    JoinGroupKeeps(s, c, username, newId);
    assert WaitingOk(s, username);
  }

  /** A client's frames go to the server that was told it joined, now and for as long as it
      stays in the group, exactly when no group was left behind by an earlier server. */
  lemma JoinedServerIff(s: Relay, c: string, username: string, newId: string, steps: seq<Step>, msgType: MessageType,
                        data: seq<byte>)
    requires Inv(s) && Idle(s, c) && newId != "" && UnusedClientId(s, newId)
    requires username in s.store.waiting && InfoOf(s, s.store.waiting[username]).multiClient
    requires var joined := JoinGroup(s, c, username, s.store.waiting[username], newId);
             LegalRun(joined, steps) && InGroup(Run(joined, steps), c)
    ensures var joined := JoinGroup(s, c, username, s.store.waiting[username], newId);
            Targets(Run(joined, steps), c, msgType, data) == {s.store.waiting[username]}
            <==> username !in s.groups || s.groups[username].server == s.store.waiting[username]
  {
    hide Inv, JoinGroup, InGroup, Targets, UnusedClientId, Run, LegalRun, Idle, InfoOf;
    JoinsAsMember(s, c, username, newId);
    StaysWithServer(JoinGroup(s, c, username, s.store.waiting[username], newId), steps, c, username, msgType, data);
  }

  /** While a client is in its group, its steps stray exactly when the group belonged to
      another server than its host already when it joined. */
  lemma StraysInGroupIff(joined: Relay, steps: seq<Step>, step: Step, c: string, h: string)
    requires Inv(joined) && LegalRun(joined, steps) && InGroup(Run(joined, steps), c) && c in joined.info
    requires joined.info[c].username != "" && step.c == c
    ensures InGroup(joined, c)
    ensures var server := joined.groups[joined.info[c].username].server;
            Strays(Run(joined, steps), step, c, h)
            <==> server != h && (step.Closes? || (step.Sends? && step.permitted && server !in step.slow))
  {
    RunKeepsInfo(joined, steps, c);
    RunKeepsServer(joined, steps, c, joined.info[c].username);
  }
}
