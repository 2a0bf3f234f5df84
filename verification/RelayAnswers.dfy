/** What callers are told and what is written for them, said in terms of the run and of the frames
    as they were read. */
module RelayAnswers {
  import opened Basics
  import opened FrameCodec
  import opened Protocol
  import opened Registry
  import opened RelayDelivery
  import opened RelayInvariant
  import opened RelayMachine
  import opened RelayRuns
  import opened Uuid
  import Buffers = ReplayBuffer
  import Managers = Manager
  import Spec = StoreSpec

  // ----- Answers to a server -----

  /** ASCII lower-case letters and digits, by their codes. */
  predicate IsPlain(c: char) {
    48 <= c as int <= 57 || 97 <= c as int <= 122
  }

  /** A letter or digit, one to thirty letters, digits or hyphens, and a letter or digit. */
  ghost predicate Spells(first: char, middle: string, last: char, u: string) {
    && u == [first] + middle + [last] && IsPlain(first) && IsPlain(last) && 1 <= |middle| <= 30
    && forall c :: c in middle ==> IsPlain(c) || c == '-'
  }

  ghost predicate NameRule(u: string) {
    exists first: char, middle: string, last: char :: Spells(first, middle, last, u)
  }

  lemma PlainIsAlnum(c: char)
    ensures IsPlain(c) <==> IsAlnum(c)
  {
  }

  lemma ValidMeansRule(u: string)
    requires IsValidUsername(u)
    ensures NameRule(u)
  {
    hide IsPlain;
    var n := |u| - 1;
    var first, middle, last := u[0], u[1..n], u[n];
    assert u == [first] + middle + [last];
    PlainIsAlnum(first);
    PlainIsAlnum(last);
    forall c | c in middle ensures IsPlain(c) || c == '-' {
      var i :| 0 <= i < |middle| && middle[i] == c;
      assert u[i + 1] == c;
      PlainIsAlnum(c);
    }
    assert Spells(first, middle, last, u);
  }

  lemma RuleMeansValid(u: string)
    requires NameRule(u)
    ensures IsValidUsername(u)
  {
    hide IsPlain;
    var first: char, middle: string, last: char :| Spells(first, middle, last, u);
    PlainIsAlnum(first);
    PlainIsAlnum(last);
    forall i | 0 < i < |u| - 1 ensures IsAlnum(u[i]) || u[i] == '-' {
      assert u[i] == middle[i - 1] && middle[i - 1] in middle;
      PlainIsAlnum(u[i]);
    }
  }

  lemma ValidIffRule(u: string)
    ensures IsValidUsername(u) <==> NameRule(u)
  {
    if IsValidUsername(u) {
      ValidMeansRule(u);
    }
    if NameRule(u) {
      RuleMeansValid(u);
    }
  }

  /** The install that first asked for the username in the run, if anybody did. */
  ghost function FirstClaim(steps: seq<Step>, u: string): Option<string> {
    if steps == [] then None
    else
      var last := steps[|steps| - 1];
      var before := FirstClaim(steps[..|steps| - 1], u);
      if before == None && last.Registers? && last.username == u && NameRule(u) then Some(last.install) else before
  }

  lemma StepClaims(s: Relay, step: Step, u: string, before: Option<string>)
    requires if before.Some? then u in s.registry && s.registry[u] == before.value else u !in s.registry
    ensures var after := if before == None && step.Registers? && step.username == u && NameRule(u)
                         then Some(step.install) else before;
            var t := Apply(s, step);
            if after.Some? then u in t.registry && t.registry[u] == after.value else u !in t.registry
  {
    ValidIffRule(u);
    hide NameRule, IsValidUsername;
  }

  /** The registry is the record of first claims. */
  lemma {:induction false} OwnerIsFirstClaim(steps: seq<Step>, u: string)
    ensures var claim := FirstClaim(steps, u);
            var table := Run(INITIAL, steps).registry;
            if claim.Some? then u in table && table[u] == claim.value else u !in table
  {
    if steps != [] {
      hide Apply, NameRule;
      var before := steps[..|steps| - 1];
      OwnerIsFirstClaim(before, u);
      StepClaims(Run(INITIAL, before), steps[|steps| - 1], u, FirstClaim(before, u));
    }
  }

  /** A registration is told that its name is invalid exactly when the name breaks the rule, that it
      is taken exactly when another install was the first to ask for it, and is accepted otherwise. */
  lemma RegisterAnswers(steps: seq<Step>, c: string, u: string, install: string, multi: bool)
    ensures var answer := Register(Run(INITIAL, steps), c, u, install, multi).1;
            && (answer == InvalidUsername <==> !NameRule(u))
            && (answer == UsernameTaken <==> NameRule(u) && FirstClaim(steps, u) !in {None, Some(install)})
            && (answer == Registered <==> NameRule(u) && FirstClaim(steps, u) in {None, Some(install)})
  {
    ValidIffRule(u);
    OwnerIsFirstClaim(steps, u);
    hide NameRule, IsValidUsername, FirstClaim, Run;
  }

  /** Whoever asked first was let in. */
  lemma {:induction false} FirstClaimSucceeded(steps: seq<Step>, u: string) returns (i: nat)
    requires FirstClaim(steps, u).Some?
    ensures i < |steps| && Succeeds(Run(INITIAL, steps[..i]), steps[i])
    ensures steps[i].username == u && steps[i].install == FirstClaim(steps, u).value
  {
    hide Register, NameRule, Run;
    var n := |steps| - 1;
    if FirstClaim(steps[..n], u).Some? {
      i := FirstClaimSucceeded(steps[..n], u);
      assert steps[..n][..i] == steps[..i];
    } else {
      i := n;
      RegisterAnswers(steps[..n], steps[n].c, u, steps[n].install, steps[n].multi);
    }
  }

  /** Everybody let in is of the install that asked first. */
  lemma {:induction false} SuccessIsFirstClaim(steps: seq<Step>, u: string, i: nat)
    requires i < |steps| && Succeeds(Run(INITIAL, steps[..i]), steps[i]) && steps[i].username == u
    ensures FirstClaim(steps, u) == Some(steps[i].install)
  {
    hide Register, NameRule, Run;
    var n := |steps| - 1;
    if i < n {
      assert steps[..n][..i] == steps[..i];
      SuccessIsFirstClaim(steps[..n], u, i);
    } else {
      RegisterAnswers(steps[..n], steps[n].c, u, steps[n].install, steps[n].multi);
    }
  }

  // ----- Answers to a client -----

  /** A server of the username is held that has no peer. */
  ghost predicate ServerFree(s: Relay, u: string) {
    exists d :: d in s.conns && d !in s.store.peers && InfoOf(s, d).isServer && InfoOf(s, d).username == u
  }

  lemma FreeMeansWaiting(s: Relay, u: string)
    requires Inv(s) && u != ""
    ensures ServerFree(s, u) <==> u in s.store.waiting && s.store.waiting[u] in s.conns
  {
    if d :| d in s.conns && d !in s.store.peers && InfoOf(s, d).isServer && InfoOf(s, d).username == u {
      assert HasRole(s, d) && InfoOk(s, d);
    }
    if u in s.store.waiting {
      assert WaitingOk(s, u);
    }
  }

  /** A client is told that the username is unknown exactly when no registration of it has succeeded
      in the run, is connected exactly when one has and a server of it is free, and is told that the
      server is offline otherwise. */
  lemma ConnectAnswers(steps: seq<Step>, c: string, u: string, newId: string)
    requires LegalRun(INITIAL, steps)
    ensures var s := Run(INITIAL, steps);
            var answer := Connect(s, c, u, newId).1;
            && (answer == UnknownUsername <==> FirstClaim(steps, u) == None)
            && (answer == Connected <==> FirstClaim(steps, u).Some? && ServerFree(s, u))
            && (answer == ServerOffline <==> FirstClaim(steps, u).Some? && !ServerFree(s, u))
  {
    OwnerIsFirstClaim(steps, u);
    ReachableInv(steps);
    var s := Run(INITIAL, steps);
    assert u in s.registry ==> u != "";
    if u != "" {
      FreeMeansWaiting(s, u);
    }
    hide FirstClaim, Run, ServerFree;
  }

  // ----- Frames, as they were read -----

  /** How a frame reaches its targets. A group client's comes as a binary frame that names the client,
      with the type and the bytes that were read; a multi-client server's frame with a header comes
      as what the header and the bytes behind it say; any other comes as it was read. */
  ghost predicate Renders(i: ConnInfo, f: Sent, got: (MessageType, seq<byte>)) {
    if i.clientId != "" then
      got.0 == Binary && ParseHeader(got.1) == Some(Parsed(i.clientId, f.msgType, f.data))
    else if i.isServer && i.multiClient && f.msgType == Binary && ParseHeader(f.data).Some? then
      forall k, msgType, data :: IsCanonical(k) && f.data == Wrap(k, msgType, data) ==> got == (msgType, data)
    else got == (f.msgType, f.data)
  }

  lemma WireRenders(i: ConnInfo, f: Sent)
    requires i.clientId != "" ==> IsCanonical(i.clientId)
    requires i.multiClient ==> i.isServer && i.username != ""
    ensures Renders(i, f, Wire(i, f.msgType, f.data))
  {
    if i.clientId != "" {
      ParseWrap(i.clientId, f.msgType, f.data);
    } else if i.isServer && i.multiClient && f.msgType == Binary && ParseHeader(f.data).Some? {
      forall k, msgType, data | IsCanonical(k) && f.data == Wrap(k, msgType, data)
        ensures Wire(i, f.msgType, f.data) == (msgType, data)
      {
        ParseWrap(k, msgType, data);
      }
    }
  }

  ghost predicate RoleOk(i: ConnInfo) {
    && (i.clientId != "" ==> IsCanonical(i.clientId))
    && (i.multiClient ==> i.isServer && i.username != "")
  }

  lemma RolesAreOk(s: Relay, c: string)
    requires Sound(s) && CanonicalIds(s)
    ensures RoleOk(InfoOf(s, c))
  {
    assert c in s.info ==> InfoOk(s, c);
  }

  /** A frame within the rate limit is written once, as it was read; one beyond it is not written. */
  lemma FrameIsWrittenAsRead(s: Relay, c: string, msgType: MessageType, data: seq<byte>, permitted: bool,
                           slow: set<string>)
    requires Sound(s) && CanonicalIds(s)
    ensures var t := Forward(s, c, msgType, data, permitted, slow);
            if permitted then
              && |t.log| == |s.log| + 1 && t.log[..|s.log|] == s.log
              && var e := t.log[|s.log|];
                 && e.msg.Frame? && e.msg.cause == c
                 && Renders(InfoOf(s, c), Sent(c, msgType, data), (e.msg.msgType, e.msg.data))
            else t.log == s.log
  {
    RolesAreOk(s, c);
    WireRenders(InfoOf(s, c), Sent(c, msgType, data));
    hide Renders, Wire, Targets;
  }

  /** The frames that `c` sent, as they were read, oldest first. */
  function FramesOf(sent: seq<Sent>, c: string): seq<Sent> {
    if sent == [] then []
    else
      var f := sent[|sent| - 1];
      FramesOf(sent[..|sent| - 1], c) + if f.sender == c then [f] else []
  }

  /** Each of the frames got is one of those picked, in the same order. */
  ghost predicate AllRender(i: ConnInfo, picked: seq<Sent>, got: seq<(MessageType, seq<byte>)>) {
    |picked| == |got| && forall j :: 0 <= j < |got| ==> Renders(i, picked[j], got[j])
  }

  lemma RenderOneMore(i: ConnInfo, picked: seq<Sent>, got: seq<(MessageType, seq<byte>)>, f: Sent,
                      g: (MessageType, seq<byte>))
    requires AllRender(i, picked, got) && Renders(i, f, g)
    ensures AllRender(i, picked + [f], got + [g])
  {
    hide Renders;
  }

  lemma SentByLast(sent: seq<Sent>, c: string, i: ConnInfo)
    requires sent != []
    ensures var n := |sent| - 1;
            if sent[n].sender == c then
              && SentBy(sent, c, i) == SentBy(sent[..n], c, i) + [Wire(i, sent[n].msgType, sent[n].data)]
              && FramesOf(sent, c) == FramesOf(sent[..n], c) + [sent[n]]
            else
              SentBy(sent, c, i) == SentBy(sent[..n], c, i) && FramesOf(sent, c) == FramesOf(sent[..n], c)
  {
    hide Wire;
  }

  lemma NothingPicked<T>(frames: seq<T>)
    ensures Subsequence([], frames)
  {
  }

  lemma SubsequenceCases<T(!new)>(a: seq<T>, b: seq<T>, x: T)
    requires Subsequence(a, b + [x])
    ensures a == [] || Subsequence(a, b) || (a[|a| - 1] == x && Subsequence(a[..|a| - 1], b))
  {
    assert (b + [x])[..|b|] == b;
  }

  /** Whatever is, in order, some of what was sent in forwarded form, is some of the frames read. */
  lemma {:induction false} PickFrames(sent: seq<Sent>, c: string, i: ConnInfo, got: seq<(MessageType, seq<byte>)>)
    returns (picked: seq<Sent>)
    requires RoleOk(i) && Subsequence(got, SentBy(sent, c, i))
    ensures Subsequence(picked, FramesOf(sent, c)) && AllRender(i, picked, got)
  {
    hide Renders, Wire, RoleOk;
    if got == [] {
      picked := [];
      NothingPicked(FramesOf(sent, c));
    } else {
      assert sent != [];
      var n := |sent| - 1;
      SentByLast(sent, c, i);
      hide SentBy, FramesOf;
      if sent[n].sender != c {
        picked := PickFrames(sent[..n], c, i, got);
      } else {
        SubsequenceCases(got, SentBy(sent[..n], c, i), Wire(i, sent[n].msgType, sent[n].data));
        if Subsequence(got, SentBy(sent[..n], c, i)) {
          picked := PickFrames(sent[..n], c, i, got);
          SubsequenceSkip(picked, FramesOf(sent[..n], c), sent[n]);
        } else {
          var front := PickFrames(sent[..n], c, i, got[..|got| - 1]);
          SubsequenceTake(front, FramesOf(sent[..n], c), sent[n]);
          RoleRenders(i, sent[n]);
          RenderOneMore(i, front, got[..|got| - 1], sent[n], got[|got| - 1]);
          assert got == got[..|got| - 1] + [got[|got| - 1]];
          picked := front + [sent[n]];
        }
      }
    }
  }

  lemma RoleRenders(i: ConnInfo, f: Sent)
    requires RoleOk(i)
    ensures Renders(i, f, Wire(i, f.msgType, f.data))
  {
    WireRenders(i, f);
  }

  /** What a connection receives from a sender is, in order, some of the frames that were read from
      the sender, each rendered as it should be. */
  ghost predicate ReadInOrder(s: Relay, t: string, c: string) {
    exists picked ::
      Subsequence(picked, FramesOf(s.sent, c)) && AllRender(InfoOf(s, c), picked, Received(s.log, t, c))
  }

  lemma OrderIsAsRead(s: Relay, t: string, c: string)
    requires Sound(s) && CanonicalIds(s) && InOrder(s, t, c)
    ensures ReadInOrder(s, t, c)
  {
    RolesAreOk(s, c);
    hide Renders, Wire, RoleOk;
    var picked := PickFrames(s.sent, c, InfoOf(s, c), Received(s.log, t, c));
  }

  /** Over any run, that is how frames are received. */
  lemma ReceivedAsRead(steps: seq<Step>, t: string, c: string)
    requires LegalRun(INITIAL, steps)
    ensures ReadInOrder(Run(INITIAL, steps), t, c)
  {
    hide ReadInOrder, CanonicalIds, Sound, Inv, Run, LegalRun;
    ReachableInv(steps);
    NobodyIsCanonical();
    RunKeepsCanonical(INITIAL, steps);
    OrderedDelivery(steps, t, c);
    OrderIsAsRead(Run(INITIAL, steps), t, c);
  }

  lemma NobodyIsCanonical()
    ensures CanonicalIds(INITIAL)
  {
  }

  // ----- Closing -----

  /** A close reports that it broke something exactly when it takes others with it. */
  lemma CloseReportsIff(s: Relay, c: string)
    requires Inv(s) && c in s.info
    ensures var (t, broke) := Close(s, c); broke <==> t.conns != s.conns - {c}
  {
    var u := s.info[c].username;
    assert InfoOk(s, c);
    if s.info[c].clientId != "" && u in s.groups {
      Managers.CloseLeaves(s, c);
    } else if s.info[c].multiClient && u in s.groups {
      Managers.CloseDissolves(s, c);
      SomeMember(s, u, c);
    } else if u != "" && Spec.RemoveWaiting(s.store, u, c).1 {
      Managers.CloseStopsWaiting(s, c);
    } else {
      Managers.CloseUnpairs(s, c);
      assert c in s.store.peers ==> PeerOk(s, c) && PeerOk(s, s.store.peers[c]);
      assert c in s.store.peers ==> s.store.peers[c] in s.conns - {c};
    }
    hide Inv, Close;
  }

  lemma SomeMember(s: Relay, u: string, c: string)
    requires Inv(s) && u in s.groups && InfoOf(s, c).isServer
    ensures exists d :: d in s.groups[u].clients.Values && d in s.conns - {c}
  {
    assert GroupOk(s, u);
    var k :| k in s.groups[u].clients;
    assert MemberOk(s, u, k, s.groups[u].clients[k]);
    assert s.groups[u].clients[k] in s.groups[u].clients.Values;
  }

  /** The sockets closed in turn are those of the others that the close takes out of the tables. */
  lemma ClosedWithIsDropped(s: Relay, c: string)
    requires Inv(s) && c in s.info
    ensures Managers.Manager.ClosedWith(s, c) == s.conns - Close(s, c).0.conns - {c}
  {
    var u := s.info[c].username;
    assert InfoOk(s, c) && (Waits(s, c) ==> WaitingOk(s, u));
    assert c in s.store.peers ==> PeerOk(s, c) && PeerOk(s, s.store.peers[c]);
    if u in s.groups {
      GroupIsHeld(s, u);
    }
    hide Inv;
  }

  lemma GroupIsHeld(s: Relay, u: string)
    requires Inv(s) && u in s.groups
    ensures forall d :: d in s.groups[u].clients.Values ==> d in s.conns && !InfoOf(s, d).isServer
  {
    forall d | d in s.groups[u].clients.Values ensures d in s.conns && !InfoOf(s, d).isServer {
      MembersBelong(s, u, d);
    }
  }

  /** A group client that closes says goodbye to its group's server, once, exactly while its username
      has a group; no other close writes anything. */
  lemma GoodbyeIff(s: Relay, c: string)
    requires Sound(s) && c in s.info
    ensures var u, log := s.info[c].username, Close(s, c).0.log;
            if s.info[c].clientId != "" && u in s.groups
            then log == s.log + [Event({s.groups[u].server}, Left(c, s.info[c].clientId))]
            else log == s.log
  {
  }

  // ----- What is kept for replay -----

  lemma PushedLast(list: seq<Buffers.Stored>, maxSize: int, frame: Buffers.BufferedFrame)
    requires maxSize > 0
    ensures var kept := Buffers.Pushed(list, maxSize, frame); kept != [] && kept[|kept| - 1] == Buffers.Encoded(frame)
  {
  }

  lemma ListAfterSet(lists: map<string, seq<Buffers.Stored>>, u: string, list: seq<Buffers.Stored>)
    requires list != []
    ensures var after := Buffers.SetList(lists, u, list);
            && Buffers.ListOf(after, u) == list
            && forall v :: v != u ==> Buffers.ListOf(after, v) == Buffers.ListOf(lists, v)
  {
  }

  lemma LegacyIffPeer(s: Relay, c: string)
    requires Inv(s) && c in s.info
    ensures Managers.Manager.LegacyRoute(s, c) <==> c in s.store.peers
    ensures c in s.store.peers ==> (InfoOf(s, c).isServer <==> !InfoOf(s, s.store.peers[c]).isServer)
    ensures c in s.store.peers ==> s.store.peers[c] in s.info
  {
    assert c in s.store.peers ==> PeerOk(s, c) && PeerOk(s, s.store.peers[c]);
  }

  /** A frame is kept exactly when it goes from one side of a legacy pair to the other, as it was read,
      last in the list of its username, and marked with the way that it went. */
  lemma KeptIffLegacy(s: Relay, c: string, msgType: MessageType, data: seq<byte>,
                      lists: map<string, seq<Buffers.Stored>>, maxSize: int)
    requires Inv(s) && c in s.info && maxSize > 0
    ensures var after := Managers.Manager.Replay(s, c, msgType, data, lists, maxSize);
            if c in s.store.peers then
              var u := s.info[c].username;
              var kept := Buffers.ListOf(after, u);
              && (forall v :: v != u ==> Buffers.ListOf(after, v) == Buffers.ListOf(lists, v))
              && kept != [] && kept[|kept| - 1].Encoded?
              && var frame := kept[|kept| - 1].frame;
                 && frame.msgType == msgType && frame.data == data && frame.direction in {"c2s", "s2c"}
                 && (frame.direction == "c2s" <==> InfoOf(s, s.store.peers[c]).isServer)
            else after == lists
  {
    LegacyIffPeer(s, c);
    hide Inv, Buffers.Pushed, Buffers.SetList, Buffers.ListOf, Managers.Manager.LegacyRoute;
    var i := InfoOf(s, c);
    var frame := Buffers.BufferedFrame(if i.isServer then "s2c" else "c2s", msgType, data);
    PushedLast(Buffers.ListOf(lists, i.username), maxSize, frame);
    ListAfterSet(lists, i.username, Buffers.Pushed(Buffers.ListOf(lists, i.username), maxSize, frame));
  }
}
