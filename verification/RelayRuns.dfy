/** What holds from one state of a run to any later one. */
module RelayRuns {
  import opened Basics
  import opened FrameCodec
  import opened RelayInvariant
  import opened RelayMachine
  import opened Uuid

  // ----- Identities do not change -----

  lemma StepKeepsInfo(s: Relay, step: Step, c: string)
    requires Legal(s, step) && c in s.info && s.info[c].username != ""
    ensures c in Apply(s, step).info && Apply(s, step).info[c] == s.info[c]
  {
  }

  lemma {:induction false} RunKeepsInfo(s: Relay, steps: seq<Step>, c: string)
    requires LegalRun(s, steps) && c in s.info && s.info[c].username != ""
    ensures c in Run(s, steps).info && Run(s, steps).info[c] == s.info[c]
  {
    if steps != [] {
      RunKeepsInfo(s, steps[..|steps| - 1], c);
      StepKeepsInfo(Run(s, steps[..|steps| - 1]), steps[|steps| - 1], c);
    }
  }

  lemma StepKeepsClosed(s: Relay, step: Step)
    ensures s.closed <= Apply(s, step).closed
    ensures step.Closes? ==> step.c in Apply(s, step).closed
  {
  }

  lemma {:induction false} RunAppend(s: Relay, a: seq<Step>, b: seq<Step>)
    ensures Run(s, a + b) == Run(Run(s, a), b)
    ensures LegalRun(s, a + b) ==> LegalRun(s, a) && LegalRun(Run(s, a), b)
  {
    hide Apply, Legal;
    if b == [] {
      assert a + b == a;
    } else {
      var front := b[..|b| - 1];
      RunAppend(s, a, front);
      assert (a + b)[..|a + b| - 1] == a + front;
    }
  }

  /** A run can be taken up where a shorter one ended. */
  lemma RunSplit(s: Relay, steps: seq<Step>, n: nat)
    requires n <= |steps|
    ensures Run(s, steps) == Run(Run(s, steps[..n]), steps[n..])
    ensures LegalRun(s, steps) ==> LegalRun(s, steps[..n]) && LegalRun(Run(s, steps[..n]), steps[n..])
  {
    RunAppend(s, steps[..n], steps[n..]);
    assert steps[..n] + steps[n..] == steps;
  }

  lemma LegalAt(s: Relay, steps: seq<Step>, n: nat)
    requires LegalRun(s, steps) && n < |steps|
    ensures LegalRun(s, steps[..n]) && Legal(Run(s, steps[..n]), steps[n])
    ensures Run(s, steps[..n + 1]) == Apply(Run(s, steps[..n]), steps[n])
  {
    hide Apply, Legal;
    RunSplit(s, steps, n + 1);
    assert steps[..n + 1][..n] == steps[..n];
  }

  // ----- Ownership of usernames -----

  lemma StepKeepsOwner(s: Relay, step: Step, u: string)
    requires u in s.registry
    ensures u in Apply(s, step).registry && Apply(s, step).registry[u] == s.registry[u]
  {
  }

  lemma {:induction false} RunKeepsOwner(s: Relay, steps: seq<Step>, u: string)
    requires u in s.registry
    ensures u in Run(s, steps).registry && Run(s, steps).registry[u] == s.registry[u]
  {
    hide Apply;
    if steps != [] {
      RunKeepsOwner(s, steps[..|steps| - 1], u);
      StepKeepsOwner(Run(s, steps[..|steps| - 1]), steps[|steps| - 1], u);
    }
  }

  ghost predicate Succeeds(s: Relay, step: Step) {
    step.Registers? && Register(s, step.c, step.username, step.install, step.multi).1 == Registered
  }

  /** Any two successful registrations of a username carry the same install ID. */
  lemma OneOwner(s: Relay, steps: seq<Step>, i: nat, j: nat)
    requires LegalRun(s, steps) && i < j < |steps|
    requires Succeeds(Run(s, steps[..i]), steps[i]) && Succeeds(Run(s, steps[..j]), steps[j])
    requires steps[i].username == steps[j].username
    ensures steps[i].install == steps[j].install
  {
    LegalAt(s, steps, i);
    var mid := Run(s, steps[..i + 1]);
    RunSplit(s, steps[..j], i + 1);
    assert steps[..j][..i + 1] == steps[..i + 1];
    RunKeepsOwner(mid, steps[..j][i + 1..], steps[i].username);
  }

  // ----- Once out of the tables, always out -----

  /** A connection that had a role and lost it. */
  ghost predicate Gone(s: Relay, c: string) {
    c in s.info && s.info[c].username != "" && c !in s.conns
  }

  lemma StepKeepsGone(s: Relay, step: Step, c: string)
    requires Legal(s, step) && Gone(s, c)
    ensures Gone(Apply(s, step), c)
  {
  }

  lemma {:induction false} RunKeepsGone(s: Relay, steps: seq<Step>, c: string)
    requires LegalRun(s, steps) && Gone(s, c)
    ensures Gone(Run(s, steps), c)
  {
    if steps != [] {
      RunKeepsGone(s, steps[..|steps| - 1], c);
      StepKeepsGone(Run(s, steps[..|steps| - 1]), steps[|steps| - 1], c);
    }
  }

  /** A client ID in a group belongs to a held connection. */
  lemma GroupOwner(s: Relay, u: string, c: string)
    requires Inv(s) && u in s.groups && c in s.info && s.info[c].clientId in s.groups[u].clients
    ensures s.groups[u].clients[s.info[c].clientId] == c && InGroup(s, c) && s.info[c].username == u
  {
    var k := s.info[c].clientId;
    assert GroupOk(s, u) && MemberOk(s, u, k, s.groups[u].clients[k]);
  }

  // ----- Stale closes -----

  /** What a close does that finds nothing of its own. */
  ghost predicate ClosesNothing(s: Relay, c: string)
    requires c in s.info
  {
    var (t, broke) := Close(s, c);
    var u := s.info[c].username;
    && t.store == s.store && t.registry == s.registry && t.info == s.info && t.sent == s.sent
    && t.closed == s.closed + {c}
    && t.log == s.log + (if s.info[c].clientId != "" && u in s.groups
                         then [Event({s.groups[u].server}, Left(c, s.info[c].clientId))] else [])
    && (broke <==> s.info[c].multiClient && u in s.groups)
    && (!broke ==> t.conns == s.conns && t.groups == s.groups)
    && (broke ==> t.groups == Without(s.groups, u) && t.conns == s.conns - s.groups[u].clients.Values)
  }

  lemma UnheldClose(s: Relay, c: string)
    requires c in s.info && c != "" && c !in s.conns && c !in s.store.peers && !Waits(s, c)
    requires s.info[c].multiClient ==> s.info[c].username != "" && s.info[c].clientId == ""
    requires s.info[c].clientId != "" && s.info[c].username in s.groups ==>
               var clients := s.groups[s.info[c].username].clients;
               clients != map[] && Without(clients, s.info[c].clientId) == clients
    ensures ClosesNothing(s, c)
  {
  }

  /** The close of a connection that is out of the tables leaves the store alone, and the
      other tables too unless it is a multi-client server: then the group of its username
      goes. Nothing is written, unless it is a group client whose username has a group by
      now: then that group's server is told that the client left. */
  lemma StaleClose(s: Relay, c: string)
    requires Inv(s) && c in s.info && c !in s.conns
    ensures ClosesNothing(s, c)
  {
    assert InfoOk(s, c);
    assert c !in s.store.peers by { assert c in s.store.peers ==> PeerOk(s, c); }
    assert !Waits(s, c) by { assert Waits(s, c) ==> WaitingOk(s, s.info[c].username); }
    if s.info[c].username in s.groups {
      StaleLeave(s, c);
    }
    UnheldClose(s, c);
  }

  lemma StaleLeave(s: Relay, c: string)
    requires Inv(s) && c in s.info && c !in s.conns
    requires s.info[c].username in s.groups
    ensures s.info[c].clientId !in s.groups[s.info[c].username].clients
    ensures var clients := s.groups[s.info[c].username].clients;
            clients != map[] && Without(clients, s.info[c].clientId) == clients
  {
    var u := s.info[c].username;
    assert GroupOk(s, u);
    hide Inv, GroupOk;
    if s.info[c].clientId in s.groups[u].clients {
      OwnerIsHeld(s, u, c);
    }
  }

  lemma OwnerIsHeld(s: Relay, u: string, c: string)
    requires Inv(s) && u in s.groups && c in s.info && s.info[c].clientId in s.groups[u].clients
    ensures c in s.conns
  {
    GroupOwner(s, u, c);
    hide InGroup;
    assert c in s.groups[u].clients.Values;
    MembersBelong(s, u, c);
  }

  /** What a close does to the store, whichever way it goes. */
  lemma CloseStore(s: Relay, c: string)
    requires c in s.info && c != ""
    ensures var store := Close(s, c).0.store;
            && store.waiting in {s.store.waiting, Without(s.store.waiting, s.info[c].username)}
            && (store.waiting != s.store.waiting ==> Waits(s, c))
            && (store.peers == s.store.peers
                || (c in s.store.peers && store.peers == Without(Without(s.store.peers, c), s.store.peers[c])))
  {
  }

  /** Nobody's close takes the waiting place of another server or breaks a pair it is not in. */
  lemma CloseSparesOthers(s: Relay, c: string)
    requires AllPeersOk(s) && c in s.info && InfoOk(s, c)
    ensures var t := Close(s, c).0;
            && (forall u :: u in s.store.waiting && s.store.waiting[u] != c ==>
                  u in t.store.waiting && t.store.waiting[u] == s.store.waiting[u])
            && (forall d :: d in s.store.peers && d != c && s.store.peers[d] != c ==>
                  d in t.store.peers && t.store.peers[d] == s.store.peers[d])
  {
    CloseStore(s, c);
    hide Close;
    forall d | d in s.store.peers && d != c && s.store.peers[d] != c
      ensures c in s.store.peers ==> s.store.peers[c] != d
    {
      assert PeerOk(s, d) && (c in s.store.peers ==> PeerOk(s, c));
    }
  }

  lemma {:induction false} PairPersists(s: Relay, steps: seq<Step>, a: string, b: string)
    requires Inv(s) && LegalRun(s, steps) && a in s.store.peers && s.store.peers[a] == b
    requires Closes(a) !in steps && Closes(b) !in steps
    ensures var t := Run(s, steps); a in t.store.peers && t.store.peers[a] == b
  {
    if steps != [] {
      var before := steps[..|steps| - 1];
      PairPersists(s, before, a, b);
      RunKeeps(s, before);
      StepSparesPair(Run(s, before), steps[|steps| - 1], a);
    }
  }

  lemma StepSparesPair(s: Relay, step: Step, a: string)
    requires Inv(s) && Legal(s, step) && a in s.store.peers && step != Closes(a) && step != Closes(s.store.peers[a])
    ensures a in Apply(s, step).store.peers && Apply(s, step).store.peers[a] == s.store.peers[a]
  {
    match step
    case Closes(c) => assert InfoOk(s, c); CloseSparesOthers(s, c);
    case Connects(c, username, newId) =>
      RolelessIsUnplaced(s, c);
      assert username in s.store.waiting ==> WaitingOk(s, username);
    case _ =>
  }

  lemma {:induction false} StaysClosed(s: Relay, steps: seq<Step>, c: string)
    requires Closes(c) in steps
    ensures c in Run(s, steps).closed
  {
    var before := steps[..|steps| - 1];
    StepKeepsClosed(Run(s, before), steps[|steps| - 1]);
    if steps[|steps| - 1] != Closes(c) {
      StaysClosed(s, before, c);
    }
  }

  lemma ClosedAtMostOnce(s: Relay, steps: seq<Step>, c: string, i: nat)
    requires LegalRun(s, steps) && i < |steps| && steps[i] == Closes(c)
    ensures Closes(c) !in steps[..i]
  {
    LegalAt(s, steps, i);
    if Closes(c) in steps[..i] {
      StaysClosed(s, steps[..i], c);
    }
  }

  lemma {:induction false} ClosesAt(steps: seq<Step>, c: string) returns (i: nat)
    requires Closes(c) in steps
    ensures i < |steps| && steps[i] == Closes(c) && Closes(c) !in steps[..i]
  {
    if steps[0] == Closes(c) {
      i := 0;
    } else {
      i := ClosesAt(steps[1..], c);
      i := i + 1;
      assert steps[..i] == [steps[0]] + steps[1..][..i - 1];
    }
  }

  lemma NotBefore<T>(steps: seq<T>, x: T, i: nat)
    requires x !in steps && i <= |steps|
    ensures x !in steps[..i]
  {
  }

  /** The close of the peer ends the pair for good. */
  lemma PeerClosed(s: Relay, steps: seq<Step>, a: string, b: string, i: nat)
    requires Inv(s) && LegalRun(s, steps) && a in s.store.peers && s.store.peers[a] == b
    requires i < |steps| && steps[i] == Closes(b) && Closes(a) !in steps[..i] && Closes(b) !in steps[..i]
    ensures a !in Run(s, steps).store.peers
  {
    hide Inv, Close, Gone, Legal;
    LegalAt(s, steps, i);
    BackAndForth(s, a, b);
    FirstBreaks(s, steps[..i], b, a);
    hide LegalRun, Run;
    RunSplit(s, steps, i + 1);
    RunKeeps(s, steps);
    RunKeepsGone(Run(s, steps[..i + 1]), steps[i + 1..], a);
    GoneHasNoPeer(Run(s, steps), a);
  }

  /** Seen from a connection that is not closed itself, its pair lasts exactly until its peer is. */
  lemma PairLastsIff(s: Relay, steps: seq<Step>, a: string, b: string)
    requires Inv(s) && LegalRun(s, steps) && a in s.store.peers && s.store.peers[a] == b
    requires Closes(a) !in steps
    ensures var peers := Run(s, steps).store.peers;
            if Closes(b) in steps then a !in peers else a in peers && peers[a] == b
  {
    hide Inv, LegalRun, Run;
    if Closes(b) in steps {
      var i := ClosesAt(steps, b);
      NotBefore(steps, Closes(a), i);
      PeerClosed(s, steps, a, b, i);
    } else {
      PairPersists(s, steps, a, b);
    }
  }

  lemma BackAndForth(s: Relay, a: string, b: string)
    requires Inv(s) && a in s.store.peers && s.store.peers[a] == b
    ensures b in s.store.peers && s.store.peers[b] == a
  {
    assert PeerOk(s, a);
  }

  lemma GoneHasNoPeer(s: Relay, a: string)
    requires Inv(s) && Gone(s, a)
    ensures a !in s.store.peers
  {
    assert a in s.store.peers ==> PeerOk(s, a);
  }

  lemma FirstBreaks(s: Relay, steps: seq<Step>, a: string, b: string)
    requires Inv(s) && LegalRun(s, steps) && a in s.store.peers && s.store.peers[a] == b
    requires Closes(a) !in steps && Closes(b) !in steps
    ensures var (t, broke) := Close(Run(s, steps), a); broke && Gone(t, b) && !t.info[b].multiClient
  {
    hide Inv;
    PairPersists(s, steps, a, b);
    RunKeeps(s, steps);
    FirstClose(Run(s, steps), a, b);
  }

  lemma GoneBreaksNothing(s: Relay, steps: seq<Step>, b: string)
    requires LegalRun(s, steps) && Gone(s, b) && !s.info[b].multiClient && Inv(Run(s, steps))
    ensures !Close(Run(s, steps), b).1
  {
    hide Inv;
    RunKeepsGone(s, steps, b);
    RunKeepsInfo(s, steps, b);
    StaleClose(Run(s, steps), b);
  }

  /** Of the two closes of a legacy pair, the first reports a broken pair and the second does not. */
  lemma PairBreaksOnce(s: Relay, steps: seq<Step>, a: string, b: string, i: nat, j: nat)
    requires Inv(s) && LegalRun(s, steps) && a in s.store.peers && s.store.peers[a] == b
    requires i < j < |steps| && steps[i] == Closes(a) && steps[j] == Closes(b)
    ensures Close(Run(s, steps[..i]), a).1 && !Close(Run(s, steps[..j]), b).1
  {
    hide Inv, Close, Gone;
    ClosedAtMostOnce(s, steps, a, i);
    ClosedAtMostOnce(s, steps, b, j);
    LegalAt(s, steps, i);
    LegalAt(s, steps, j);
    assert Closes(b) !in steps[..i] by { assert forall x :: x in steps[..i] ==> x in steps[..j]; }
    FirstBreaks(s, steps[..i], a, b);
    RunSplit(s, steps[..j], i + 1);
    assert steps[..j][..i + 1] == steps[..i + 1];
    RunKeeps(s, steps[..j]);
    GoneBreaksNothing(Run(s, steps[..i + 1]), steps[..j][i + 1..], b);
  }

  lemma FirstClose(s: Relay, a: string, b: string)
    requires Inv(s) && a in s.store.peers && s.store.peers[a] == b
    ensures Close(s, a).1 && Gone(Close(s, a).0, b) && !Close(s, a).0.info[b].multiClient
  {
    assert PeerOk(s, a) && PeerOk(s, b);
    assert Waits(s, a) ==> WaitingOk(s, s.info[a].username);
  }

  // ----- Echo -----

  ghost predicate CanonicalIds(s: Relay) {
    forall c :: c in s.info && s.info[c].clientId != "" ==> IsCanonical(s.info[c].clientId)
  }

  lemma StepKeepsCanonical(s: Relay, step: Step)
    requires CanonicalIds(s) && Legal(s, step)
    ensures CanonicalIds(Apply(s, step))
  {
    hide IsCanonical;
    var t := Apply(s, step);
    forall c | c in t.info && t.info[c].clientId != "" ensures IsCanonical(t.info[c].clientId) {
      if c !in s.info || s.info[c].clientId != t.info[c].clientId {
        assert step.Connects? && t.info[c].clientId == step.newId;
      }
    }
  }

  lemma {:induction false} RunKeepsCanonical(s: Relay, steps: seq<Step>)
    requires CanonicalIds(s) && LegalRun(s, steps)
    ensures CanonicalIds(Run(s, steps))
  {
    if steps != [] {
      RunKeepsCanonical(s, steps[..|steps| - 1]);
      StepKeepsCanonical(Run(s, steps[..|steps| - 1]), steps[|steps| - 1]);
    }
  }

  /** A server's frame with a client's ID in its header is for that client or for nobody. */
  lemma HeaderTarget(s: Relay, c: string, server: string, data: seq<byte>)
    requires Inv(s) && c in s.info && s.info[c].clientId != ""
    requires server in s.info && s.info[server] == ConnInfo(s.info[c].username, true, true, "")
    requires TargetHeader(Binary, data).Some? && TargetHeader(Binary, data).value.clientId == s.info[c].clientId
    ensures Targets(s, server, Binary, data) == if InGroup(s, c) then {c} else {}
  {
    assert InfoOk(s, server);
    var u := s.info[c].username;
    if u in s.groups && s.info[c].clientId in s.groups[u].clients {
      GroupOwner(s, u, c);
    }
  }

  /** A frame that a group client sends reaches the server wrapped. If later, after anything
      else has happened, a multi-client server of that username sends those bytes back, they
      go to that client with its own type and payload while it is in the group, and to
      nobody once it is not. */
  lemma Echo(s: Relay, c: string, msgType: MessageType, data: seq<byte>, steps: seq<Step>, server: string)
    requires Inv(s) && CanonicalIds(s) && c in s.info && InGroup(s, c)
    requires LegalRun(s, steps)
    requires server in s.info && s.info[server] == ConnInfo(s.info[c].username, true, true, "")
    ensures var t := Run(s, steps);
            var (wireType, wrapped) := Wire(s.info[c], msgType, data);
            && wireType == Binary
            && Targets(t, server, Binary, wrapped) == (if InGroup(t, c) then {c} else {})
            && Wire(InfoOf(t, server), Binary, wrapped) == (msgType, data)
  {
    var t := Run(s, steps);
    assert InfoOk(s, c);
    RunKeepsInfo(s, steps, c);
    RunKeepsInfo(s, steps, server);
    RunKeeps(s, steps);
    ParseWrap(s.info[c].clientId, msgType, data);
    HeaderTarget(t, c, server, Wrap(s.info[c].clientId, msgType, data));
  }
}
