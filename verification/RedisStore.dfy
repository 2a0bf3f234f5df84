/** The flat keyspace that the store, the limiter and the replay buffer share. */
module RedisKeys {

  /** What a key is for. */
  datatype Key =
    | Waiting(username: string)
    | Peer(id: string)
    | WaitingIndex
    | PairedIndex
    | Frames(username: string)
    | ConnRate(ip: string)
    | MsgRate(pair: string)

  const WAITING_PREFIX := "relay:waiting:"
  const PEER_PREFIX := "relay:peer:"
  const FRAMES_PREFIX := "relay:buffer:"
  const CONN_RATE_PREFIX := "relay:ratelimit:conn:"
  const MSG_RATE_PREFIX := "relay:ratelimit:msg:"

  /** The key as Redis sees it. */
  function Text(k: Key): string {
    match k
    case Waiting(username) => WAITING_PREFIX + username
    case Peer(id) => PEER_PREFIX + id
    case WaitingIndex => "relay:waiting_usernames"
    case PairedIndex => "relay:paired_connids"
    case Frames(username) => FRAMES_PREFIX + username
    case ConnRate(ip) => CONN_RATE_PREFIX + ip
    case MsgRate(pair) => MSG_RATE_PREFIX + pair
  }

  /** The texts themselves, as other programs on the same Redis see them. */
  lemma TextExamples()
    ensures Text(Waiting("ann")) == "relay:waiting:ann" && Text(Peer("7f")) == "relay:peer:7f"
    ensures Text(WaitingIndex) == "relay:waiting_usernames" && Text(PairedIndex) == "relay:paired_connids"
    ensures Text(Frames("ann")) == "relay:buffer:ann"
    ensures Text(ConnRate("::1")) == "relay:ratelimit:conn:::1" && Text(MsgRate("7f")) == "relay:ratelimit:msg:7f"
  {
    assert Text(Waiting("ann")) == "relay:waiting:ann";
    assert Text(Peer("7f")) == "relay:peer:7f";
    assert Text(Frames("ann")) == "relay:buffer:ann";
    assert Text(ConnRate("::1")) == "relay:ratelimit:conn:::1";
    assert Text(MsgRate("7f")) == "relay:ratelimit:msg:7f";
  }

  /** The characters by which the families differ. */
  lemma TextMarks(k: Key)
    ensures var t := Text(k);
            match k
            case Waiting(username) => |t| >= 14 && t[6] == 'w' && t[13] == ':' && t[14..] == username
            case Peer(id) => |t| >= 11 && t[6] == 'p' && t[7] == 'e' && t[11..] == id
            case WaitingIndex => |t| >= 14 && t[6] == 'w' && t[13] == '_'
            case PairedIndex => |t| >= 11 && t[6] == 'p' && t[7] == 'a'
            case Frames(username) => |t| >= 13 && t[6] == 'b' && t[13..] == username
            case ConnRate(ip) => |t| >= 21 && t[6] == 'r' && t[16] == 'c' && t[21..] == ip
            case MsgRate(pair) => |t| >= 20 && t[6] == 'r' && t[16] == 'm' && t[20..] == pair
  {
  }

  /** No two keys, of one family or of two, share a text, whatever the names in them. */
  lemma TextInjective(a: Key, b: Key)
    requires Text(a) == Text(b)
    ensures a == b
  {
    hide Text;
    TextMarks(a);
    TextMarks(b);
  }
}

/** The Redis commands that the store uses, on one flat keyspace. */
module RedisCommands {
  import opened Basics

  /** `Other` stands for the sorted sets of the limiter and the lists of the buffer. */
  datatype Entry =
    | Str(value: string, deadline: int)
    | SetOf(members: set<string>)
    | Other(deadline: int)

  type Database = map<string, Entry>

  function At(db: Database, key: string): Option<Entry> {
    if key in db then Some(db[key]) else None
  }

  function Write(db: Database, key: string, entry: Option<Entry>): Database {
    match entry
    case Some(e) => db[key := e]
    case None => Without(db, key)
  }

  function Get(db: Database, key: string): Option<string> {
    if key in db && db[key].Str? then Some(db[key].value) else None
  }

  function SMembers(db: Database, key: string): set<string> {
    if key in db && db[key].SetOf? then db[key].members else {}
  }

  function Set(db: Database, key: string, value: string, deadline: int): Database {
    db[key := Str(value, deadline)]
  }

  function Del(db: Database, key: string): Database {
    Without(db, key)
  }

  function Expire(db: Database, key: string, deadline: int): Database {
    if key in db && db[key].Str? then db[key := Str(db[key].value, deadline)] else db
  }

  /** Redis keeps no empty set. */
  function NonEmpty(members: set<string>): Option<Entry> {
    if members == {} then None else Some(SetOf(members))
  }

  function SAdd(db: Database, key: string, members: set<string>): Database {
    Write(db, key, NonEmpty(SMembers(db, key) + members))
  }

  function SRem(db: Database, key: string, members: set<string>): Database {
    Write(db, key, NonEmpty(SMembers(db, key) - members))
  }

  predicate Expired(entry: Entry, now: int) {
    match entry
    case Str(_, deadline) => deadline <= now
    case SetOf(_) => false
    case Other(deadline) => deadline <= now
  }

  function Alive(entry: Option<Entry>, now: int): Option<Entry> {
    if entry.Some? && Expired(entry.value, now) then None else entry
  }

  function Purge(db: Database, now: int): (r: Database)
    ensures forall key :: At(r, key) == Alive(At(db, key), now)
  {
    map key | key in db && !Expired(db[key], now) :: db[key]
  }
}

/** The Redis store as its operations see it: what is behind each kind of key. */
module RedisSpec {
  import opened Basics
  import opened RedisKeys
  import opened RedisCommands

  /** Five minutes, in milliseconds. */
  const TTL := 300_000

  datatype Timed = Timed(value: string, deadline: int)

  datatype View = View(
    now: int,
    waiting: map<string, Timed>,
    peers: map<string, Timed>,
    waitingIndex: set<string>,
    pairedIndex: set<string>,
    others: map<Key, Entry>)

  const EMPTY_VIEW := View(0, map[], map[], {}, {}, map[])

  function Value(m: map<string, Timed>, key: string): Option<string> {
    if key in m then Some(m[key].value) else None
  }

  function Refresh(m: map<string, Timed>, key: string, deadline: int): map<string, Timed> {
    if key in m then m[key := Timed(m[key].value, deadline)] else m
  }

  function Unexpired(m: map<string, Timed>, now: int): map<string, Timed> {
    map key | key in m && now < m[key].deadline :: m[key]
  }

  function SetWaiting(v: View, username: string, id: string): (View, string) {
    var before := Value(v.waiting, username);
    (v.(waiting := v.waiting[username := Timed(id, v.now + TTL)], waitingIndex := v.waitingIndex + {username}),
     if before == None || before.value == id then "" else before.value)
  }

  function GetWaiting(v: View, username: string): (View, Option<string>) {
    (v.(waiting := Refresh(v.waiting, username, v.now + TTL)), Value(v.waiting, username))
  }

  function RemoveWaiting(v: View, username: string, id: string): (View, bool) {
    if Value(v.waiting, username) == Some(id) then
      (v.(waiting := Without(v.waiting, username), waitingIndex := v.waitingIndex - {username}), true)
    else (v, false)
  }

  function CreatePair(v: View, server: string, client: string, username: string): View {
    v.(waiting := Without(v.waiting, username),
       waitingIndex := v.waitingIndex - {username},
       peers := v.peers[server := Timed(client, v.now + TTL)][client := Timed(server, v.now + TTL)],
       pairedIndex := v.pairedIndex + {server, client})
  }

  function GetPeer(v: View, id: string): (View, Option<string>) {
    match Value(v.peers, id)
    case None => (v, None)
    case Some(peer) =>
      (v.(peers := Refresh(Refresh(v.peers, id, v.now + TTL), peer, v.now + TTL)), Some(peer))
  }

  function RemovePair(v: View, id: string): (View, Option<string>) {
    match Value(v.peers, id)
    case None => (v, None)
    case Some(peer) =>
      (v.(peers := Without(Without(v.peers, id), peer), pairedIndex := v.pairedIndex - {id, peer}),
       if peer == "" then None else Some(peer))
  }

  function Advance(v: View, elapsed: nat): View {
    var now := v.now + elapsed;
    v.(now := now, waiting := Unexpired(v.waiting, now), peers := Unexpired(v.peers, now),
       others := map key | key in v.others && !Expired(v.others[key], now) :: v.others[key])
  }

  // ----- The view and the keyspace -----

  function Stored(m: map<string, Timed>, key: string): Option<Entry> {
    if key in m then Some(Str(m[key].value, m[key].deadline)) else None
  }

  /** What the view says is stored under a key. */
  function Content(v: View, key: Key): Option<Entry> {
    match key
    case Waiting(username) => Stored(v.waiting, username)
    case Peer(id) => Stored(v.peers, id)
    case WaitingIndex => NonEmpty(v.waitingIndex)
    case PairedIndex => NonEmpty(v.pairedIndex)
    case _ => if key in v.others then Some(v.others[key]) else None
  }

  ghost predicate Represents(db: Database, v: View) {
    forall key: Key :: At(db, Text(key)) == Content(v, key)
  }

  /** One command that writes one key moves the keyspace from one view to the next. */
  lemma WriteRepresents(db: Database, v: View, key: Key, entry: Option<Entry>, after: View)
    requires Represents(db, v)
    requires forall k: Key :: Content(after, k) == if k == key then entry else Content(v, k)
    ensures Represents(Write(db, Text(key), entry), after)
  {
    hide Text, Content;
    forall k: Key ensures At(Write(db, Text(key), entry), Text(k)) == Content(after, k) {
      if Text(k) == Text(key) {
        TextInjective(k, key);
      }
    }
  }

  lemma ReadsView(db: Database, v: View, username: string, id: string)
    requires Represents(db, v)
    ensures Get(db, Text(Waiting(username))) == Value(v.waiting, username)
    ensures Get(db, Text(Peer(id))) == Value(v.peers, id)
    ensures SMembers(db, Text(WaitingIndex)) == v.waitingIndex
    ensures SMembers(db, Text(PairedIndex)) == v.pairedIndex
  {
    hide Text;
    assert At(db, Text(Waiting(username))) == Content(v, Waiting(username));
    assert At(db, Text(Peer(id))) == Content(v, Peer(id));
    assert At(db, Text(WaitingIndex)) == Content(v, WaitingIndex);
    assert At(db, Text(PairedIndex)) == Content(v, PairedIndex);
  }

  // Each command that the store issues, on the keyspace and on the view.

  lemma SetWaitingKey(db: Database, v: View, username: string, id: string, deadline: int)
    requires Represents(db, v)
    ensures Represents(Set(db, Text(Waiting(username)), id, deadline),
                       v.(waiting := v.waiting[username := Timed(id, deadline)]))
  {
    hide Text;
    WriteRepresents(db, v, Waiting(username), Some(Str(id, deadline)),
                    v.(waiting := v.waiting[username := Timed(id, deadline)]));
  }

  lemma SetPeerKey(db: Database, v: View, id: string, peer: string, deadline: int)
    requires Represents(db, v)
    ensures Represents(Set(db, Text(Peer(id)), peer, deadline), v.(peers := v.peers[id := Timed(peer, deadline)]))
  {
    hide Text;
    WriteRepresents(db, v, Peer(id), Some(Str(peer, deadline)),
                    v.(peers := v.peers[id := Timed(peer, deadline)]));
  }

  lemma ExpireWaitingKey(db: Database, v: View, username: string, deadline: int)
    requires Represents(db, v)
    ensures Represents(Expire(db, Text(Waiting(username)), deadline),
                       v.(waiting := Refresh(v.waiting, username, deadline)))
  {
    hide Text;
    assert At(db, Text(Waiting(username))) == Content(v, Waiting(username));
    if username in v.waiting {
      SetWaitingKey(db, v, username, v.waiting[username].value, deadline);
    }
  }

  lemma ExpirePeerKey(db: Database, v: View, id: string, deadline: int)
    requires Represents(db, v)
    ensures Represents(Expire(db, Text(Peer(id)), deadline), v.(peers := Refresh(v.peers, id, deadline)))
  {
    hide Text;
    assert At(db, Text(Peer(id))) == Content(v, Peer(id));
    if id in v.peers {
      SetPeerKey(db, v, id, v.peers[id].value, deadline);
    }
  }

  lemma DelWaitingKey(db: Database, v: View, username: string)
    requires Represents(db, v)
    ensures Represents(Del(db, Text(Waiting(username))), v.(waiting := Without(v.waiting, username)))
  {
    hide Text;
    WriteRepresents(db, v, Waiting(username), None, v.(waiting := Without(v.waiting, username)));
  }

  lemma DelPeerKey(db: Database, v: View, id: string)
    requires Represents(db, v)
    ensures Represents(Del(db, Text(Peer(id))), v.(peers := Without(v.peers, id)))
  {
    hide Text;
    WriteRepresents(db, v, Peer(id), None, v.(peers := Without(v.peers, id)));
  }

  lemma ChangeWaitingIndex(db: Database, v: View, members: set<string>)
    requires Represents(db, v)
    ensures Represents(SAdd(db, Text(WaitingIndex), members), v.(waitingIndex := v.waitingIndex + members))
    ensures Represents(SRem(db, Text(WaitingIndex), members), v.(waitingIndex := v.waitingIndex - members))
  {
    hide Text;
    ReadsView(db, v, "", "");
    WriteRepresents(db, v, WaitingIndex, NonEmpty(v.waitingIndex + members),
                    v.(waitingIndex := v.waitingIndex + members));
    WriteRepresents(db, v, WaitingIndex, NonEmpty(v.waitingIndex - members),
                    v.(waitingIndex := v.waitingIndex - members));
  }

  lemma ChangePairedIndex(db: Database, v: View, members: set<string>)
    requires Represents(db, v)
    ensures Represents(SAdd(db, Text(PairedIndex), members), v.(pairedIndex := v.pairedIndex + members))
    ensures Represents(SRem(db, Text(PairedIndex), members), v.(pairedIndex := v.pairedIndex - members))
  {
    hide Text;
    ReadsView(db, v, "", "");
    WriteRepresents(db, v, PairedIndex, NonEmpty(v.pairedIndex + members),
                    v.(pairedIndex := v.pairedIndex + members));
    WriteRepresents(db, v, PairedIndex, NonEmpty(v.pairedIndex - members),
                    v.(pairedIndex := v.pairedIndex - members));
  }

  lemma PurgeRepresents(db: Database, v: View, elapsed: nat)
    requires Represents(db, v)
    ensures Represents(Purge(db, v.now + elapsed), Advance(v, elapsed))
  {
    hide Text;
    forall key: Key
      ensures At(Purge(db, v.now + elapsed), Text(key)) == Content(Advance(v, elapsed), key)
    {
      assert At(db, Text(key)) == Content(v, key);
    }
  }
}

/** The Redis store: each operation as the commands that it sends, in their order. */
module RedisStore {
  import opened Basics
  import opened RedisKeys
  import opened RedisCommands
  import Spec = RedisSpec

  class RedisStore {
    var db: Database
    var clock: int
    ghost var view: Spec.View

    ghost predicate Valid()
      reads this
    {
      view.now == clock && Spec.Represents(db, view)
    }

    constructor ()
      ensures Valid() && view == Spec.EMPTY_VIEW
    {
      db, clock := map[], 0;
      view := Spec.EMPTY_VIEW;
    }

    /** Time goes by, and Redis forgets what has expired. */
    method Advance(elapsed: nat)
      requires Valid()
      modifies this
      ensures Valid() && view == Spec.Advance(old(view), elapsed)
    {
      Spec.PurgeRepresents(db, view, elapsed);
      clock := clock + elapsed;
      db := Purge(db, clock);
      view := Spec.Advance(view, elapsed);
    }

    /** The first script: read the old server, store the new one, index its username. */
    method SetWaiting(username: string, id: string) returns (evicted: string)
      requires Valid()
      modifies this
      ensures Valid() && (view, evicted) == Spec.SetWaiting(old(view), username, id)
    {
      hide Text, Spec.Represents;
      var key, deadline := Text(Waiting(username)), clock + Spec.TTL;
      Spec.ReadsView(db, view, username, "");
      var before := Get(db, key);
      Spec.SetWaitingKey(db, view, username, id, deadline);
      db := Set(db, key, id, deadline);
      view := view.(waiting := view.waiting[username := Spec.Timed(id, deadline)]);
      Spec.ChangeWaitingIndex(db, view, {username});
      db := SAdd(db, Text(WaitingIndex), {username});
      view := view.(waitingIndex := view.waitingIndex + {username});
      if before == None {
        return "";
      }
      if before.value == id {
        return "";
      }
      return before.value;
    }

    method GetWaiting(username: string) returns (found: Option<string>)
      requires Valid()
      modifies this
      ensures Valid() && (view, found) == Spec.GetWaiting(old(view), username)
    {
      hide Text, Spec.Represents;
      Spec.ReadsView(db, view, username, "");
      found := Get(db, Text(Waiting(username)));
      if found == None {
        return;
      }
      Spec.ExpireWaitingKey(db, view, username, clock + Spec.TTL);
      db := Expire(db, Text(Waiting(username)), clock + Spec.TTL);
      view := view.(waiting := Spec.Refresh(view.waiting, username, clock + Spec.TTL));
    }

    /** The second script: compare, then delete. */
    method RemoveWaiting(username: string, id: string) returns (removed: bool)
      requires Valid()
      modifies this
      ensures Valid() && (view, removed) == Spec.RemoveWaiting(old(view), username, id)
    {
      hide Text, Spec.Represents;
      Spec.ReadsView(db, view, username, "");
      if Get(db, Text(Waiting(username))) == Some(id) {
        Spec.DelWaitingKey(db, view, username);
        db := Del(db, Text(Waiting(username)));
        view := view.(waiting := Without(view.waiting, username));
        Spec.ChangeWaitingIndex(db, view, {username});
        db := SRem(db, Text(WaitingIndex), {username});
        view := view.(waitingIndex := view.waitingIndex - {username});
        return true;
      }
      return false;
    }

    method CreatePair(server: string, client: string, username: string)
      requires Valid()
      modifies this
      ensures Valid() && view == Spec.CreatePair(old(view), server, client, username)
    {
      hide Text, Spec.Represents;
      var deadline := clock + Spec.TTL;
      Spec.DelWaitingKey(db, view, username);
      db := Del(db, Text(Waiting(username)));
      view := view.(waiting := Without(view.waiting, username));
      Spec.ChangeWaitingIndex(db, view, {username});
      db := SRem(db, Text(WaitingIndex), {username});
      view := view.(waitingIndex := view.waitingIndex - {username});
      Spec.SetPeerKey(db, view, server, client, deadline);
      db := Set(db, Text(Peer(server)), client, deadline);
      view := view.(peers := view.peers[server := Spec.Timed(client, deadline)]);
      Spec.SetPeerKey(db, view, client, server, deadline);
      db := Set(db, Text(Peer(client)), server, deadline);
      view := view.(peers := view.peers[client := Spec.Timed(server, deadline)]);
      Spec.ChangePairedIndex(db, view, {server, client});
      db := SAdd(db, Text(PairedIndex), {server, client});
      view := view.(pairedIndex := view.pairedIndex + {server, client});
    }

    method GetPeer(id: string) returns (found: Option<string>)
      requires Valid()
      modifies this
      ensures Valid() && (view, found) == Spec.GetPeer(old(view), id)
    {
      hide Text, Spec.Represents;
      Spec.ReadsView(db, view, "", id);
      found := Get(db, Text(Peer(id)));
      if found == None {
        return;
      }
      var deadline := clock + Spec.TTL;
      Spec.ExpirePeerKey(db, view, id, deadline);
      db := Expire(db, Text(Peer(id)), deadline);
      view := view.(peers := Spec.Refresh(view.peers, id, deadline));
      Spec.ExpirePeerKey(db, view, found.value, deadline);
      db := Expire(db, Text(Peer(found.value)), deadline);
      view := view.(peers := Spec.Refresh(view.peers, found.value, deadline));
    }

    /** The third script, and how its empty answer is read. */
    method RemovePair(id: string) returns (found: Option<string>)
      requires Valid()
      modifies this
      ensures Valid() && (view, found) == Spec.RemovePair(old(view), id)
    {
      hide Text, Spec.Represents;
      Spec.ReadsView(db, view, "", id);
      var peer := Get(db, Text(Peer(id)));
      if peer == None {
        return None;
      }
      Spec.DelPeerKey(db, view, id);
      db := Del(db, Text(Peer(id)));
      view := view.(peers := Without(view.peers, id));
      Spec.DelPeerKey(db, view, peer.value);
      db := Del(db, Text(Peer(peer.value)));
      view := view.(peers := Without(view.peers, peer.value));
      Spec.ChangePairedIndex(db, view, {id, peer.value});
      db := SRem(db, Text(PairedIndex), {id, peer.value});
      view := view.(pairedIndex := view.pairedIndex - {id, peer.value});
      if peer.value == "" {
        return None;
      }
      return peer;
    }

    method IsPaired(id: string) returns (paired: bool)
      requires Valid()
      ensures paired <==> id in view.peers
    {
      Spec.ReadsView(db, view, "", id);
      paired := Text(Peer(id)) in db;
      assert At(db, Text(Peer(id))) == Spec.Content(view, Peer(id));
    }

    method IsWaiting(username: string) returns (waiting: bool)
      requires Valid()
      ensures waiting <==> username in view.waiting
    {
      waiting := Text(Waiting(username)) in db;
      assert At(db, Text(Waiting(username))) == Spec.Content(view, Waiting(username));
    }

    method Stats() returns (waiting: nat, pairs: nat)
      requires Valid()
      ensures waiting == |view.waitingIndex| && pairs == |view.pairedIndex| / 2
    {
      Spec.ReadsView(db, view, "", "");
      waiting := |SMembers(db, Text(WaitingIndex))|;
      pairs := |SMembers(db, Text(PairedIndex))| / 2;
    }

    method GetWaitingUsernames() returns (names: set<string>)
      requires Valid()
      ensures names == view.waitingIndex
    {
      Spec.ReadsView(db, view, "", "");
      names := SMembers(db, Text(WaitingIndex));
    }
  }
}
