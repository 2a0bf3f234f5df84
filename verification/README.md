# Relay server model

The relay connects servers that register a username with clients that ask for it, and passes their
WebSocket frames back and forth. A server is either legacy (one client at a time, stored as a pair) or
multi-client (a group of clients under client IDs that the relay generates, with a binary header on
each frame that says which client it belongs to). This project models that routing, the two stores
behind it, the rate limiter, the frame header, the backpressure counter, username ownership, the replay
buffer and the per-connection read loop, and proves what they keep over whole runs.

## How it is laid out

| file | content |
|---|---|
| `Basics.dfy` | `Option`, map helpers, `Subsequence` |
| `Store.dfy` | the store operations as functions (`StoreSpec`), and the in-memory store as a class |
| `Relay.dfy` | the relay as a state machine: tables, roles, sent frames, and a log of write attempts |
| `RelayInvariant.dfy` | the invariant that links the tables, kept by every step: soundness (what the tables say is so), and completeness (they say it of every held connection) |
| `RelayRoutes.dfy` | what the invariant means: disjoint roles, counts, routability, isolation |
| `RelayRuns.dfy` | one state and any later one: ownership, stale closes, pairs, echo |
| `RelayDelivery.dfy` | the log over whole runs: isolation, order, the stream of a group client |
| `RelayAnswers.dfy` | what callers are told and what is written and kept for them, said in terms of the run and of the frames as they were read |
| `RelayLimits.dfy` | where the guarantees end: second handshakes, takeovers and reconnects |
| `Manager.dfy` | `Conn` and `Manager` as classes with references, refining the state machine |
| `Handler.dfy` | the read loops of all connections, interleaved, refining runs of the state machine; one class for each call of `ServeWS` |
| `RelayTheorems.dfy` | the main routing results, for every run of the handlers from an empty relay |
| `Codec.dfy` | UUID text (section 4 of RFC 9562) and the multi-client frame header |
| `Limiter.dfy` | the sliding-window limiter against the full history of admissions |
| `RedisLimiter.dfy` | the sorted-set limiter against the in-memory one, shared scores included |
| `RedisStore.dfy` | the Redis store command by command on one flat keyspace, refining a view |
| `StoreRuns.dfy` | the two stores side by side without expiry |
| `StoreExpiry.dfy` | the Redis store with expiry |
| `RelayOnRedis.dfy` | the relay's steps with the answers that Redis gives, over whole runs with time passing: what carries over, and what expiry takes away |
| `RelayKeepAlive.dfy` | how long pairs and waiting servers last over Redis, in terms of the relay's own steps |
| `Backpressure.dfy` | concurrent writes to a connection, interleaved at each atomic action |
| `Registry.dfy` | the ownership table, and registrations that interleave |
| `Buffer.dfy` | the capped replay list of each username |

Code that updates state is a class here, and its methods are proved against functions; the theorems are
about those functions. `Manager.Manager` carries a ghost field `model` with the state-machine state that
its fields stand for, and each method says which step it takes. `RedisStore.RedisStore` does the same
with a ghost `view`.

## What is assumed of the environment

- Connection IDs are non-empty and never reused; generated client IDs are canonical UUID text and never
  reused.
- A connection completes at most one handshake. The handler only stops a second one on a connection that its
  check finds paired (`internal/handler/handler.go:48`), and the check can be out of date when the handshake
  acts (`RelayTheorems.StaleCheckRegisters`). `RelayLimits.ReregisterIff` and `RelayLimits.ReconnectIff` say,
  for any connection whose handshake is done and in whatever place it is by then, exactly when a second one
  breaks the tables.
- A read with its check for a pair, what the loop then does, and the deferred close are separate events, and
  the loops of other connections may act between them. Each call of a manager method is one step.
- `RegisterServer` and the role assignment in the handler are one step, and so are `ConnectClient` and
  the assignment that follows it. The invariants are about states between such steps.
- Usernames are deleted only before the first connection (`internal/server/server.go:112`). The
  ownership results say so where they need it.
- Times given to one limiter do not go backwards, and the clock read counts as part of the critical section.
- The limiter's verdict enters `Forward` as the argument `permitted`, and which targets are slow as a
  set; both are arbitrary.
- Redis commands succeed, and each store call happens at one instant.
- The runs of `Relay.dfy`, `RelayTheorems.dfy` and the classes `Manager` and `Session` are over the in-memory
  store, which forgets nothing. With Redis configured (`internal/server/server.go:121-129`) the manager reads its
  routing state from keys that expire. `RelayOnRedis.dfy` runs the same steps there: as long as no key reaches
  its deadline the runs are the same (`RelayOnRedis.QuietRunIsInMemory`), so that all results carry over; once
  one does, a held connection is in no table (`RelayOnRedis.ExpiryBreaksIff`), and the results that say where
  every held connection is (`TablesAddUp`, `LegacyRouteLastsIff` and what they rest on) no longer hold, while
  soundness, isolation, order and streams do (`RelayOnRedis.DeliveryIsSoundOnRedis`).
- The replay buffer exists only together with Redis (`internal/server/server.go:144`). The contracts of `Manager`
  and `Session` that mention it speak of one call, in which nothing expires, and each call does over Redis what it
  does over memory with the same live entries (`RelayOnRedis.TakeIsApply`).

A message that the relay writes counts as attempted: the log says what was handed to a socket, not what
arrived.

## What the code does that one might not expect

- While an evicted multi-client server's group is still there, new clients of its username join that old
  group: the new server is told that they joined, but their frames go to the old one
  (`RelayDelivery.JoinedServerIff`, `RelayLimits.TakeoverSplitsStream`).
- No takeover is needed for a message to go astray: when a group client's connection is closed only after
  its server has left and another server of the username has got a group of its own, the left notice goes
  to that other server, which was never told of the client (`RelayLimits.LateGoodbye`).
  `RelayDelivery.StreamsWholeIff` says exactly when no connection sees such a message.
- A frame whose check found a pair is lost when the pair or the group goes before the frame is forwarded
  (`RelayTheorems.CheckedReadIsRouted`).
- A waiting server that registers a second username leaves an entry behind that outlives it
  (`RelayLimits.OrphanedEntry`); one that connects to its own username becomes its own peer
  (`RelayLimits.OwnPeer`). A connection that is or was a group client breaks the tables by registering, and
  one that is or was a multi-client server by getting through as a client.
- In Redis, a server that nobody asks for disappears after five minutes of waiting
  (`RelayKeepAlive.ServerWaitsIffAskedFor`), and so does a legacy pair of which neither side has sent a frame for
  five minutes (`RelayKeepAlive.PairLivesIffSent`), although the connections are still held. Expired names stay in the index
  sets when their connections close, so that `Stats` keeps counting them
  (`StoreExpiry.StatsKeepsCountingTheExpired`). A username is counted wrongly from when it expires until it is
  next set waiting or paired, and a connection until it is next paired (`StoreExpiry.StatsRightIff`).
- Removing a waiting entry under the empty connection ID succeeds in memory when there is none and fails
  in Redis (`StoreRuns.AnswersAgreeIff`).
- A call that is about to drop its frame still occupies one of the hundred places, so a frame can be
  dropped with fewer than a hundred writes under way (`Backpressure.DroppedWithRoom`).
- Two requests with the same score are one member of the sorted set, so the Redis limiter can admit what
  the in-memory one refuses (`RedisLimiter.SharedScoreSlipsThrough`). It does so exactly when a request
  meets a full window that holds a time twice or its own time (`RedisLimiter.RunsAgreeIff`).
- A replay buffer with a maximum size of zero would never be trimmed (`ReplayBuffer.CappedIffPositive`);
  the server never creates one.

## Model

| member | source | states |
|---|---|---|
| RelayTheorems.TablesAddUp | internal/connections/connections.go:109-443 | In every state that the handlers can reach over the in-memory store, the held connections are exactly the disjoint union of waiting servers, paired connections and group clients, their numbers add up, and the reported pair count is the number of connected clients |
| RelayTheorems.CheckedReadIsRouted | internal/handler/handler.go:48-51 | In every such state, a frame whose check found a pair is forwarded within the rate limit, changes no role and goes only to the sender's username; unless it is a server's frame with a target header, it is lost for want of a route if and only if the pair or group has gone since, or for a group client, its username has no group |
| RelayTheorems.StaleCheckRegisters | internal/handler/handler.go:48-96 | A registration that was read before its connection was paired takes effect after it, and leaves the connection both waiting and paired |
| RelayTheorems.LegacyRouteLastsIff | internal/handler/handler.go:48-51 | Over the in-memory store, once a legacy pair was made and until the sender itself is closed, its frames go to the peer if and only if the peer has not been closed, and nowhere afterwards |
| RelayTheorems.DeliveryIsSound | internal/connections/connections.go:162-398 | Over every run of the handlers nothing crosses usernames and each sender's frames are attempted in order; every group client has a host that was told it joined, and no connection sees any of the client's messages out of place if and only if no step of the client strays, in which case the host sees joined, frames and at most one left, and nobody else anything |
| RelayTheorems.CheckedReadIsWrittenAsRead | internal/connections/connections.go:198-294 | Over every run of the handlers, a frame whose check found a pair is written once if the rate limit permits it and not at all otherwise: a group client's as a binary frame that names it, with the type and bytes read; a multi-client server's with a header as the type and payload behind the header; any other with exactly the type and bytes read |
| RelayTheorems.FramesComeAsRead | internal/connections/connections.go:198-316 | Over every run of the handlers, what a connection receives from a sender is, in order, some of the frames read from the sender, each rendered so |
| RelayTheorems.EchoComesBack | internal/connections/connections.go:242-294 | Over every run of the handlers, a wrapped frame that a server is read sending back is written to the client it came from and to nobody else, as that client first sent it, as long as the client is in the group |
| RelayInvariant.StepKeeps | internal/connections/connections.go:109-398 | Opening, registering, connecting, forwarding and closing each keep the invariant that links the store, the held connections, the groups and the connections' own fields |
| RelayInvariant.StepKeepsSound | internal/connections/connections.go:109-398 | Each step keeps the tables sound even when they are incomplete, and complete if they were |
| RelayInvariant.ReachableInv | internal/connections/connections.go:109-398 | Every state of every legal run satisfies that invariant; among other things no stored group is empty and every member is stored under its own client ID in its own username's group |
| RelayRoutes.Partition | internal/connections/connections.go:109-398 | The held connections are exactly the waiting servers, the paired connections and the group clients, and the three are disjoint: no leak, no double role |
| RelayRoutes.ConnCount | internal/connections/connections.go:109-398 | The number of held connections is the number of waiting servers plus the number of peer entries plus the sum of all group sizes |
| RelayRoutes.PeersAreEven | internal/connections/memstore.go:52-99 | The peer table is an involution without fixed points, and its size is twice the number of its clients |
| RelayRoutes.PairCountIsClientCount | internal/connections/connections.go:433-443 | Half the peer entries plus the group sizes is the number of clients connected in either mode |
| RelayRoutes.PairedMeansRoutable | internal/connections/connections.go:198-294 | A paired connection's frame goes to a real target: the live peer, the group's server, all members of a non-empty group, or exactly the member named in the header |
| RelayRoutes.RoutableIffPaired | internal/connections/connections.go:400-422 | A held connection is reported as paired if and only if its plain text frames have a target |
| RelayRoutes.RouteLostIff | internal/connections/connections.go:198-294 | For any connection with a role, a frame without a target header has no target if and only if the sender is not paired any more, or for a group client, its username has no group |
| RelayRoutes.TargetsShareUsername | internal/connections/connections.go:198-294 | Every target of a frame is another connection with the sender's own non-empty username |
| RelayRuns.OneOwner | internal/connections/connections.go:109-120 | Over a run, any two successful registrations of one username carry the same install ID |
| RelayRuns.RunKeepsGone | internal/connections/connections.go:124-132 | A connection that lost its place in the tables never gets back into them |
| RelayRuns.StaleClose | internal/connections/connections.go:318-398 | Closing a connection that is out of the tables leaves the store, the roles and the sent frames untouched, and the other tables too unless it is a multi-client server, in which case exactly the group of its username is dissolved; it writes nothing, unless it was a group client and its username has a group, whose server then gets one left notice |
| RelayRuns.CloseSparesOthers | internal/connections/connections.go:318-398 | No close removes another server's waiting entry or a pair that the closing connection is not in |
| RelayRuns.PairPersists | internal/connections/connections.go:318-398 | A pair stays until one of its two connections closes, whatever else happens |
| RelayRuns.PairLastsIff | internal/connections/connections.go:318-398 | Seen from a connection that is not closed itself, its pair lasts if and only if its peer has not been closed |
| RelayRuns.PairBreaksOnce | internal/connections/connections.go:373-397 | Of the two closes of a legacy pair, at any distance in a run, the first reports a broken pair and the second does not |
| RelayRuns.HeaderTarget | internal/connections/connections.go:257-276 | A server's frame with a client's ID in its header goes to that client while it is in the group and to nobody otherwise |
| RelayRuns.Echo | internal/connections/connections.go:242-276 | If a multi-client server sends back a wrapped frame after any further steps, the only possible target is the client that the frame came from, with its own type and payload |
| RelayRuns.RunKeepsCanonical | internal/connections/connections.go:162-167 | Every client ID in a run is canonical UUID text, which the echo result relies on |
| RelayDelivery.UsernameIsolation | internal/connections/connections.go:162-294 | Over a whole run, nothing that one connection causes, frame or notice, is written to a connection of another username |
| RelayDelivery.OrderedDelivery | internal/connections/connections.go:198-316 | The frames written to a target from one sender are, in order, a subsequence of the frames that the sender sent, in their forwarded form |
| RelayDelivery.ClientStream | internal/connections/connections.go:181-340 | What a group client causes is a joined notice, then frames, then at most one left notice, after which there is nothing more |
| RelayDelivery.StreamsWholeIff | internal/connections/connections.go:169-340 | With any number of servers over a run, no connection sees a group client's message out of place if and only if the client never sends or leaves while its username has a group of another server than its host; then the host sees the whole stream and nobody else anything |
| RelayDelivery.StraysInGroupIff | internal/connections/connections.go:169-178 | While the client is in its group, its messages stray if and only if that group belonged to another server than its host already when it joined |
| RelayDelivery.ClientHasHost | internal/connections/connections.go:177-182 | Every group client has a host: a connection that was told, alone, that it joined |
| RelayDelivery.SingleServerStream | internal/connections/connections.go:181-340 | In particular, if only one server ever served the username, that server is handed the whole of this stream |
| RelayDelivery.RunKeepsServer | internal/connections/connections.go:169-178 | While a client stays in a group, the group keeps its server, through any takeover |
| RelayDelivery.JoinedServerIff | internal/connections/connections.go:162-186 | A client's frames go to the server that was told it joined, for as long as it stays, if and only if no group of an earlier server was there when it joined |
| RelayAnswers.ValidIffRule | internal/protocol/protocol.go:8-12 | A username is valid if and only if it is a letter or digit, one to thirty letters, digits or hyphens, and a letter or digit |
| RelayAnswers.RegisterAnswers | internal/connections/connections.go:109-139 | After any run, a registration is told that its name is invalid if and only if it breaks that rule, that it is taken if and only if another install was the first in the run to ask for it, and is accepted otherwise |
| RelayAnswers.FirstClaimSucceeded | internal/registry/registry.go:95-120 | Whoever first asked for a valid name was let in |
| RelayAnswers.SuccessIsFirstClaim | internal/registry/registry.go:95-120 | Everybody let in under a name is of the install that asked for it first |
| RelayAnswers.ConnectAnswers | internal/connections/connections.go:141-196 | After any legal run, a client is told that the username is unknown if and only if no registration of it has succeeded, is connected if and only if one has and a server of it is held that has no peer, and is told that the server is offline otherwise |
| RelayAnswers.FrameIsWrittenAsRead | internal/connections/connections.go:198-294 | In any sound state, a frame is written once and as it was read within the rate limit, and not at all beyond it |
| RelayAnswers.ReceivedAsRead | internal/connections/connections.go:198-316 | Over any legal run, what is received from a sender is, in order, some of the frames as they were read |
| RelayAnswers.CloseReportsIff | internal/connections/connections.go:318-398 | A close returns true if and only if it takes other connections out of the tables |
| RelayAnswers.ClosedWithIsDropped | internal/connections/connections.go:356-396 | The sockets closed in turn are exactly those of the others that the close takes out of the tables |
| RelayAnswers.GoodbyeIff | internal/connections/connections.go:323-340 | A close writes one left notice if and only if it is a group client's whose username has a group, to that group's server, and nothing otherwise |
| RelayAnswers.KeptIffLegacy | internal/connections/connections.go:218-240 | A frame is kept for replay if and only if it goes between the sides of a legacy pair, as it was read, last in its username's list, and marked "c2s" if and only if it goes to the server |
| RelayLimits.ReregisterIff | internal/handler/handler.go:48-96 | A second handshake that registers, on any open connection whatever its place is by then, keeps the invariant if and only if the connection has not been a group client, has no peer, repeats its username if it waits, and registers as the multi-client server of its username if it heads that group |
| RelayLimits.OrphanedEntry | internal/connections/connections.go:109-160 | When a waiting server registers another username, the first waiting entry outlives the connection, until a client asks for it and is told that the server is offline |
| RelayLimits.ReconnectIff | internal/handler/handler.go:117-123 | A second handshake that asks for a server, on any open connection whatever its place is by then, keeps the invariant if and only if it is refused, or the connection neither waits nor has a peer, is in no group and has not been a multi-client server |
| RelayLimits.OwnPeer | internal/connections/connections.go:188-195 | A legacy server that asks for its own username is paired with itself and gets every frame back |
| RelayLimits.TakeoverKeepsOldGroup | internal/connections/connections.go:124-138 | A takeover leaves the groups as they were, so that the waiting server is not the server of the remaining group |
| RelayLimits.LateGoodbye | internal/connections/connections.go:318-340 | A concrete legal run without any takeover in which a client's left notice goes to a server that was never told of it, so that the stream there is broken |
| RelayLimits.TakeoverSplitsStream | internal/connections/connections.go:162-186 | A concrete legal run in which the joined notice goes to the new server and the frame to the old one |
| Manager.Manager.NewConn | internal/connections/connections.go:38-44 | A new connection has no role, and no table changes |
| Manager.Manager.RegisterServer | internal/connections/connections.go:109-139 | The class takes the registration step of the state machine, writes to no socket, and closes exactly the connection that the registration takes out of the tables; which refusal it answers is `RelayAnswers.RegisterAnswers` |
| Manager.Manager.ConnectClient | internal/connections/connections.go:141-196 | The class takes the connection step, including the removal of an entry whose server is gone, and writes exactly the joined notice that the step logs; what it answers is `RelayAnswers.ConnectAnswers` |
| Manager.Manager.WriteEach | internal/connections/connections.go:291-293 | In whatever order the map yields them, every client that is not slow gets the frame exactly once and nobody else gets anything |
| Manager.Manager.Broadcast | internal/connections/connections.go:278-294 | The same over all sockets and IDs, as one entry of the log |
| Manager.Manager.WriteToConn | internal/connections/connections.go:297-316 | Taken alone, a write either hands over the frame or notifies the sender, according to the count, and puts the count back |
| Manager.Manager.ForwardLegacy | internal/connections/connections.go:218-240 | A legacy frame goes to the live peer and is kept for replay with its direction, also when the peer was too slow to get it |
| Manager.Manager.Forward | internal/connections/connections.go:198-294 | The class takes the forwarding step: the sockets get the frame that the log gains, in the form that `RelayAnswers.FrameIsWrittenAsRead` says, and the replay lists change for legacy pairs only |
| Manager.Manager.HandleClose | internal/connections/connections.go:318-398 | The class takes the closing step, returns its verdict, writes at most the left notice, and closes exactly the sockets, all of known connections, of dissolved group members or of the broken pair's other half |
| Manager.Manager.IsPaired | internal/connections/connections.go:400-422 | The query answers what the state machine calls paired |
| Manager.Manager.GetPairCount | internal/connections/connections.go:433-443 | The count returned is the number of connected clients |
| HandlerSpec.HandlersRunLegally | internal/handler/handler.go:26-144 | Under the environment assumptions, whatever is read on whichever connection, and wherever other loops act between a read, its check and what follows, the handlers take only legal steps, so the invariant holds throughout |
| HandlerSpec.RegistrationTriedIff | internal/handler/handler.go:66-115 | A registration read on an unpaired connection is tried if and only if the read entitles the connection to serve, under its token's names if it came with a valid token and under its own otherwise; if not, the loop leaves |
| HandlerSpec.OtherReads | internal/handler/handler.go:48-63 | A client's request is always tried, a paired connection's frame is passed on whatever it says, and nothing else is acted on |
| HandlerSpec.KeptIffRole | internal/handler/handler.go:91-140 | After a first handshake the loop goes on if and only if the connection has got a role by it, and leaves otherwise |
| HandlerSpec.FailedReadCloses | internal/handler/handler.go:30-42 | A read that fails leads to the close of the connection and to nothing else |
| HandlerSpec.StepEntitles | internal/handler/handler.go:66-96 | A connection becomes a server, or one under another name, only by acting on a registration that it has read with a valid token for that username, a matching shared token, or no shared token configured, and only in the name of the install that owns the username |
| HandlerSpec.ServersAreEntitled | internal/handler/handler.go:66-96 | Over whole runs, every connection that serves a username has read such a registration |
| Handler.Session.Receive | internal/handler/handler.go:38-51 | After a read the loop knows whether the connection was paired at that moment |
| Handler.Session.Act | internal/handler/handler.go:48-143 | What the loop then does takes exactly the specified step: forwarding if the check found a pair, nothing for other frames, a handshake otherwise, the close at the end; the reply is "unauthorized" if and only if a registration was read that entitles its connection to no name |
| Handler.Session.HandleRegister | internal/handler/handler.go:66-115 | The reply tells unauthorized, rejected with the reason, and registered apart, and the relay and the loop take the handshake's step, which `HandlerSpec.RegistrationTriedIff` and `HandlerSpec.KeptIffRole` determine |
| Handler.Session.HandleConnect | internal/handler/handler.go:117-141 | A client that gets through is handed the kept frames of its username, which are then cleared; one that does not is sent to its close |
| FrameCodec.WrapMultiClientFrame | internal/connections/connections.go:497-508 | The buffer filled in place holds the marker, the sixteen octets and the payload |
| FrameCodec.ParseMultiClientHeader | internal/connections/connections.go:512-530 | Parsing succeeds if and only if the frame is long enough and starts with a marker |
| FrameCodec.ParseWrap | internal/connections/connections.go:497-530 | Parsing a wrapped frame gives back type and payload always, and the client ID if and only if it was canonical text |
| FrameCodec.WrapParse | internal/connections/connections.go:497-530 | Wrapping what a frame parsed to rebuilds the frame byte for byte |
| FrameCodec.WrapLayout | internal/connections/connections.go:18-23 | A wrapped frame is one octet, 1 for text and 2 for binary, the client ID in sixteen, and the payload |
| FrameCodec.WrapInjective | internal/connections/connections.go:497-508 | Different frames of clients with canonical IDs never wrap to the same bytes |
| Uuid.FormatExample | internal/connections/connections.go:520-522 | The text form of one UUID that uses every digit, in lower case, high digit first, with its hyphens |
| Uuid.ParseFormat | internal/connections/connections.go:520-522 | Reading the text of a UUID gives the UUID back |
| Uuid.FormatParse | internal/connections/connections.go:498-505 | Printing what a text reads as gives the text back if and only if it is canonical |
| Limiter.KeepAfter | internal/ratelimit/ratelimit.go:98-106 | The filter that writes into the array it reads keeps exactly the later entries, in order, and leaves what lies behind them as it was |
| Limiter.Clean | internal/ratelimit/ratelimit.go:130-145 | A cleaning pass filters every window and deletes the empty ones, in any key order |
| AdmissionSpec.AdmitIff | internal/ratelimit/ratelimit.go:91-115 | One more admission keeps every window within the limit if and only if fewer than the limit lie in the window before it |
| LimiterRuns.AdmitsIffRoom | internal/ratelimit/ratelimit.go:91-115 | After any run with cleaning passes anywhere, a request is admitted if and only if fewer than `limit` earlier admissions of its key, in the full history, lie in the window |
| LimiterRuns.NeverOverLimit | internal/ratelimit/ratelimit.go:91-115 | No window of the given length, wherever it ends, holds more than `limit` admissions of a key |
| LimiterRuns.CleaningIsInvisible | internal/ratelimit/ratelimit.go:117-145 | Taking the cleaning passes out of a run changes no admission |
| LimiterRuns.GreedyIsOptimal | internal/ratelimit/ratelimit.go:91-115 | No policy that keeps within the limit admits more requests of a key than the limiter, on any request sequence |
| LimiterRuns.GreedyStaysAhead | internal/ratelimit/ratelimit.go:91-115 | At every point the limiter has admitted at least as many, the n-th no later than the policy's n-th |
| RedisLimiter.RedisClient.Allow | internal/ratelimit/ratelimit.go:66-89 | Trim, add, count and undo together leave the live scores, with the new one if and only if it was admitted, and renew the expiry |
| RedisLimiter.DecisionsAgreeIff | internal/ratelimit/ratelimit.go:66-115 | From the same live entries, the two limiters decide a request alike if and only if it does not meet a full window that holds a time twice or the request's own time |
| RedisLimiter.RunsAgree | internal/ratelimit/ratelimit.go:66-115 | Over any run without such a request, scores shared or not, the sorted set holds exactly the times in the in-memory window, and expires two windows after its key's latest request |
| RedisLimiter.RunsAgreeIff | internal/ratelimit/ratelimit.go:66-115 | Over any run in the order of time, the two limiters make the same decisions if and only if there is no such request |
| RedisLimiter.CountsAgreeIff | internal/ratelimit/ratelimit.go:66-115 | They also hold equally many entries after every request if and only if no request comes at the time of an admitted one of its key that still counts; sharing a time with a refused one does no harm |
| RedisLimiter.RedisDecidesLikeMemory | internal/ratelimit/ratelimit.go:66-115 | Without such a request both have the same live entries at any later time too, expired key or not |
| RedisLimiter.SharedScoreSlipsThrough | internal/ratelimit/ratelimit.go:66-89 | A concrete pair of requests with one score on which the decisions differ |
| MemStore.MemStore.SetWaiting | internal/connections/memstore.go:24-33 | The newcomer waits, and the previous connection is returned if it is another one |
| MemStore.MemStore.RemoveWaiting | internal/connections/memstore.go:42-50 | The entry goes if and only if it matches, where a missing entry matches the empty ID |
| MemStore.MemStore.RemovePair | internal/connections/memstore.go:69-79 | Both directions of the pair go and the peer is returned, or nothing happens |
| RedisKeys.TextInjective | internal/connections/redisstore.go:11-18 | No two keys of the store, the limiter and the buffer share a text, whatever names they contain |
| RedisKeys.TextExamples | internal/connections/redisstore.go:11-18 | The key of each family, by example |
| RedisSpec.WriteRepresents | internal/connections/redisstore.go:11-18 | Writing one key of the flat keyspace changes what is behind that key and nothing else |
| RedisStore.RedisStore.SetWaiting | internal/connections/redisstore.go:24-31 | The first script, command by command, takes the view to the specified one |
| RedisStore.RedisStore.CreatePair | internal/connections/redisstore.go:100-112 | The five pipelined commands leave one pair with one deadline, no waiting entry, and both index sets adjusted |
| RedisStore.RedisStore.GetPeer | internal/connections/redisstore.go:114-125 | A peer that is found has both halves of its pair renewed |
| RedisStore.RedisStore.RemovePair | internal/connections/redisstore.go:48-55 | The third script removes both halves and both index entries |
| StoreRuns.LiveStep | internal/connections/redisstore.go:71-157 | Every operation does to the live part of the Redis store what it does to the in-memory store, expiry or not |
| StoreRuns.StoresHoldTheSame | internal/connections/redisstore.go:24-157 | As long as nothing expires, both stores hold the same after any operations, and the index sets are exactly the live keys |
| StoreRuns.AnswersAgreeIff | internal/connections/redisstore.go:35-136 | From equal contents every operation answers alike in both stores if and only if it is neither a removal of an absent entry under the empty ID nor the removal of a pair with the empty peer |
| StoreRuns.StoresAnswerTheSame | internal/connections/redisstore.go:71-157 | With non-empty connection IDs and no expiry, both stores give the same answers to every sequence of operations |
| StoreExpiry.PairsExpireTogether | internal/connections/redisstore.go:100-136 | However time passes, a live half of a pair has a live other half with the same deadline |
| StoreExpiry.RunKeepsCover | internal/connections/redisstore.go:24-136 | The index sets always contain the live keys |
| StoreExpiry.StatsNeverTooFew | internal/connections/redisstore.go:148-152 | The counts are never too low |
| StoreExpiry.IndexSizes | internal/connections/redisstore.go:148-157 | Over any run, each index set is larger than its live keys by exactly the names or connections that expired and have not been set, paired or removed since |
| StoreExpiry.StatsRightIff | internal/connections/redisstore.go:148-152 | Over any run with fresh pairs, the waiting count is right if and only if there is no such username, and the pair count if and only if there is at most one such connection |
| StoreExpiry.StatsExactIff | internal/connections/redisstore.go:148-152 | From exact index sets, both counts of `Stats` are right after some time has passed if and only if no waiting entry and no pair has reached its deadline |
| StoreExpiry.StatsExactAfterRun | internal/connections/redisstore.go:148-152 | The same at the end of any run from the empty store in which nothing had expired before |
| StoreExpiry.ElapseKeepsExactIff | internal/connections/redisstore.go:148-157 | Time passing leaves the index sets exact if and only if nothing expires |
| StoreExpiry.StatsKeepsCountingTheExpired | internal/connections/redisstore.go:35-56 | Expired entries stay in the counts even after all their connections have closed |
| StoreExpiry.PairLivesIffUsed | internal/connections/redisstore.go:114-125 | A pair is still there after a run if and only if one of its sides asked for its peer within every time-to-live |
| StoreExpiry.ServerWaitsIffAsked | internal/connections/redisstore.go:82-90 | A waiting entry is still there after a run if and only if somebody asked for it within every time-to-live |
| RelayOnRedis.TakeIsApply | internal/connections/connections.go:109-398 | Over the Redis store, with every store call answered by Redis and whatever has expired before, each step does to the relay what it does over memory with the same live entries; what it does to the deadlines is in the two rows that follow |
| RelayKeepAlive.PairLivesIffSent | internal/connections/connections.go:218-232 | Over any run on Redis, a legacy pair, from when it is made and while neither side closes, is still there if and only if one of its sides sends a frame within the rate limit in every five minutes |
| RelayKeepAlive.ServerWaitsIffAskedFor | internal/connections/connections.go:141-153 | Over any run on Redis, a server that registered, until it is closed, replaced or paired, still waits if and only if a client asks for its username in every five minutes |
| RelayOnRedis.QuietRunIsInMemory | internal/server/server.go:117-135 | As long as no key reaches its deadline, a run over Redis with time passing anywhere is the run over memory, and keeps the whole invariant |
| RelayOnRedis.HandlersInMemory | internal/server/server.go:117-135 | The same for the handlers: they leave the relay over Redis as they leave it over memory, so that every result about their runs carries over |
| RelayOnRedis.QuietTablesAddUp | internal/connections/connections.go:433-443 | Then the tables add up over Redis too, and the pair count taken from the index set is the number of connected clients |
| RelayOnRedis.RunOnIsSound | internal/connections/redisstore.go:71-157 | Over any run on Redis, whatever expires, what the tables still say is so, and both halves of every pair carry one deadline |
| RelayOnRedis.ExpiryBreaksIff | internal/connections/redisstore.go:71-157 | From a state with the whole invariant, time that passes keeps every held connection in its role if and only if no waiting entry and no pair reaches its deadline |
| RelayOnRedis.DeliveryIsSoundOnRedis | internal/connections/connections.go:162-398 | Over any run on Redis, whatever expires, nothing crosses usernames, each sender's frames are attempted in order, and no connection sees a group client's messages out of place if and only if no step of the client strays |
| RelayOnRedis.ReceivedAsReadOnRedis | internal/connections/connections.go:198-316 | Over any run on Redis, whatever expires, what is received from a sender is, in order, some of the frames as they were read |
| Backpressure.CounterIsInFlight | internal/connections/connections.go:297-316 | Under any interleaving the counter of a target is the number of its calls in flight, and at most a hundred of them write |
| Backpressure.DrainsToZero | internal/connections/connections.go:297-299 | When all calls have returned, every counter is zero |
| Backpressure.DropsIffCrowded | internal/connections/connections.go:297-305 | A frame is dropped if and only if at least a hundred other calls on its target were in flight when it was counted |
| Backpressure.DroppedWithRoom | internal/connections/connections.go:297-305 | An interleaving in which a frame is dropped although fewer than a hundred writes are under way |
| Registry.Registry.CanRegister | internal/registry/registry.go:76-93 | A username can be had if and only if it is valid and free or already the caller's |
| Registry.Registry.Register | internal/registry/registry.go:95-120 | Under the same condition the username becomes or stays the caller's; a refused call changes nothing |
| RegistryRuns.SingleInstall | internal/registry/registry.go:76-120 | However check, take and publish of different calls interleave, with waiting servers leaving or being paired anywhere in between, all holders of a username that is never deleted share one install ID, and so do an evicted server and its replacement |
| RegistryRuns.SecondTakerRefused | internal/registry/registry.go:95-110 | Of two calls that both passed the check with different installs, the second to take the name is refused |
| ReplayBuffer.Buffer.GetFrames | internal/connections/buffer.go:71-91 | The frames returned are those elements that decode, in list order |
| ReplayBuffer.FramesAreLastPushed | internal/connections/buffer.go:42-99 | For any interleaving of pushes and clears across usernames, a reader gets exactly the last `maxSize` frames pushed for the username since its last clear, in push order |
| ReplayBuffer.CappedIffPositive | internal/connections/buffer.go:60-64 | The cap holds if and only if the maximum size is positive |

## Left out

- The HTTP server, CORS, admin endpoints, listener, shutdown, configuration and command line: plumbing without routing state.
- Token issue and validation: whether a token is valid, and for whom, is an argument of the handler's read; `auth.ValidateToken` is not part of this model.
- JSON and base64: a message arrives parsed, and a stored frame either decodes to what was stored or does not.
- WebSocket reads, writes, pings, timeouts and close frames: a write is an attempt in the log, and a socket to be closed is a returned reference.
- Limiter.KeepAfter: models the filter on an array, but the map of windows holds values; arrays shared between a window and an older slice of it are not modelled, since nobody keeps an older slice.
- Control messages that the handler writes to its own connection: `Handler.Reply` says which, but they are not in the log of the relay.
- `CloseAll`: it empties the connection table and leaves the store as it is, so it is a terminal step after which no guarantee is claimed.
- Concurrency inside one manager call: each call is one step, although reads such as `forwardFromServer` release the lock before they write. The counter and the registry, where interleaving matters most, have models of their own.
- Manager.Manager.WriteToConn: the class runs calls one after another, so the count it sees is that of writes already under way; interleaved calls are in `Backpressure`.
- Manager.Manager.RegisterServer: the role fields are set in the same step, where the handler sets them just after.
- `last_seen` timestamps, inactive reclaim and the SQL engine: the table is a map whose insert fails for another owner.
- Registry.Registry.Register: does not model a failing database, which the program reports as a refusal.
- FrameCodec.ParseWrap: `uuid.Parse` also reads braces, a URN prefix and text without hyphens; and returns the octets before a bad digit; the library is not part of the repository, and here only the hyphenated form is read and anything else becomes the nil UUID.
- Redis and network errors, and with them the limiter's fall-back to memory: every command succeeds.
- The one-hour expiry of a replay list: lists live until they are cleared.
- Float rounding of scores: scores are integers of nanoseconds.
- Exactly-once replay: reading and clearing are separate calls, and delivered frames are kept too, so the program makes no such promise.
- `StoreRuns.GetWaitingUsernames`: names are compared as a set, since neither store fixes their order; the generated pair ID that `CreatePair` returns is dropped because nobody uses it.
- Liveness: nothing is said about when a socket is actually closed or a frame actually arrives.
