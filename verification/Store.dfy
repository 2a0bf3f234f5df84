/** The routing state behind the `Store` interface and what each of its operations does to it. */
module StoreSpec {
  import opened Basics

  /** `waiting` maps a username to a connection; `peers` maps a connection to its peer. */
  datatype Store = Store(waiting: map<string, string>, peers: map<string, string>)

  const EMPTY_STORE := Store(map[], map[])

  function SetWaiting(s: Store, username: string, id: string): (Store, string) {
    var evicted := Lookup(s.waiting, username);
    (s.(waiting := s.waiting[username := id]), if evicted == id then "" else evicted)
  }

  function RemoveWaiting(s: Store, username: string, id: string): (Store, bool) {
    if Lookup(s.waiting, username) == id
    then (s.(waiting := Without(s.waiting, username)), true)
    else (s, false)
  }

  function CreatePair(s: Store, server: string, client: string, username: string): Store {
    Store(Without(s.waiting, username), s.peers[server := client][client := server])
  }

  function RemovePair(s: Store, id: string): (Store, Option<string>) {
    if id in s.peers
    then (s.(peers := Without(Without(s.peers, id), s.peers[id])), Some(s.peers[id]))
    else (s, None)
  }
}

/** The in-memory store: two maps updated in place under one lock. */
module MemStore {
  import opened Basics
  import Spec = StoreSpec

  class MemStore {
    var waiting: map<string, string>
    var peers: map<string, string>

    ghost function State(): Spec.Store
      reads this
    {
      Spec.Store(waiting, peers)
    }

    constructor ()
      ensures State() == Spec.EMPTY_STORE
    {
      waiting := map[];
      peers := map[];
    }

    method SetWaiting(username: string, id: string) returns (evicted: string)
      modifies this
      ensures (State(), evicted) == Spec.SetWaiting(old(State()), username, id)
    {
      evicted := Lookup(waiting, username);
      waiting := waiting[username := id];
      if evicted == id {
        evicted := "";
      }
    }

    method GetWaiting(username: string) returns (id: string, ok: bool)
      ensures ok <==> username in waiting
      ensures id == Lookup(waiting, username)
    {
      ok := username in waiting;
      id := if ok then waiting[username] else "";
    }

    method RemoveWaiting(username: string, id: string) returns (removed: bool)
      modifies this
      ensures (State(), removed) == Spec.RemoveWaiting(old(State()), username, id)
    {
      if Lookup(waiting, username) == id {
        waiting := waiting - {username};
        return true;
      }
      return false;
    }

    method CreatePair(server: string, client: string, username: string)
      modifies this
      ensures State() == Spec.CreatePair(old(State()), server, client, username)
    {
      waiting := waiting - {username};
      peers := peers[server := client];
      peers := peers[client := server];
    }

    method GetPeer(id: string) returns (peer: string, ok: bool)
      ensures ok <==> id in peers
      ensures peer == Lookup(peers, id)
    {
      ok := id in peers;
      peer := if ok then peers[id] else "";
    }

    method RemovePair(id: string) returns (peer: string, ok: bool)
      modifies this
      ensures State() == Spec.RemovePair(old(State()), id).0
      ensures Spec.RemovePair(old(State()), id).1 == if ok then Some(peer) else None
      ensures !ok ==> peer == ""
    {
      if id !in peers {
        return "", false;
      }
      peer := peers[id];
      peers := peers - {id};
      peers := peers - {peer};
      ok := true;
    }

    method IsPaired(id: string) returns (paired: bool)
      ensures paired <==> id in peers
    {
      paired := id in peers;
    }

    method IsWaiting(username: string) returns (waits: bool)
      ensures waits <==> username in waiting
    {
      waits := username in waiting;
    }

    method Stats() returns (waitingCount: nat, pairs: nat)
      ensures waitingCount == |waiting|
      ensures pairs == |peers| / 2
    {
      waitingCount, pairs := |waiting|, |peers| / 2;
    }

    method GetWaitingUsernames() returns (names: seq<string>)
      ensures |names| == |waiting|
      ensures forall u :: u in names <==> u in waiting
    {
      names := [];
      var todo := waiting.Keys;
      while todo != {}
        invariant todo <= waiting.Keys
        invariant |names| + |todo| == |waiting|
        invariant forall u :: u in names <==> u in waiting && u !in todo
      {
        var u :| u in todo;
        todo := todo - {u};
        names := names + [u];
      }
    }
  }
}
