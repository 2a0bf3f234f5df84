/** Recent frames per username, kept for replay when a client reconnects. */
module ReplayBuffer {
  import opened FrameCodec
  import opened Uuid

  datatype BufferedFrame = BufferedFrame(direction: string, msgType: MessageType, data: seq<byte>)

  /** A list element as stored: the text of a frame, or text that does not decode. */
  datatype Stored = Encoded(frame: BufferedFrame) | Garbled

  /** Resolves an index of a Redis list command; negative ones count from the end. */
  function ListIndex(length: nat, index: int): int {
    if index < 0 then length + index else index
  }

  /** The elements that Redis keeps for `LTRIM list start stop`. */
  function LTrim<T>(list: seq<T>, start: int, stop: int): seq<T> {
    var first := if ListIndex(|list|, start) < 0 then 0 else ListIndex(|list|, start);
    var last := if ListIndex(|list|, stop) >= |list| then |list| - 1 else ListIndex(|list|, stop);
    if first > last then [] else list[first..last + 1]
  }

  function ListOf(lists: map<string, seq<Stored>>, username: string): seq<Stored> {
    if username in lists then lists[username] else []
  }

  /** The list after a push, as the three pipelined commands leave it. */
  function Pushed(list: seq<Stored>, maxSize: int, frame: BufferedFrame): seq<Stored> {
    LTrim(list + [Encoded(frame)], -maxSize, -1)
  }

  function SetList(lists: map<string, seq<Stored>>, username: string, list: seq<Stored>): map<string, seq<Stored>> {
    if list == [] then lists - {username} else lists[username := list]
  }

  /** The frames that decode, in list order. */
  function Decoded(list: seq<Stored>): seq<BufferedFrame> {
    if list == [] then []
    else
      var last := list[|list| - 1];
      Decoded(list[..|list| - 1]) + if last.Encoded? then [last.frame] else []
  }

  class Buffer {
    var lists: map<string, seq<Stored>>
    const maxSize: int

    constructor (maxSize: int)
      ensures lists == map[] && this.maxSize == maxSize
    {
      lists := map[];
      this.maxSize := maxSize;
    }

    method Push(username: string, frame: BufferedFrame)
      modifies this
      ensures lists == SetList(old(lists), username, Pushed(ListOf(old(lists), username), maxSize, frame))
    {
      var list := ListOf(lists, username);
      list := list + [Encoded(frame)];
      list := LTrim(list, -maxSize, -1);
      lists := SetList(lists, username, list);
    }

    method GetFrames(username: string) returns (frames: seq<BufferedFrame>)
      ensures frames == Decoded(ListOf(lists, username))
    {
      var values := ListOf(lists, username);
      frames := [];
      for i := 0 to |values|
        invariant frames == Decoded(values[..i])
      {
        assert values[..i + 1][..i] == values[..i];
        if values[i].Encoded? {
          frames := frames + [values[i].frame];
        }
      }
      assert values[..|values|] == values;
    }

    method Clear(username: string)
      modifies this
      ensures lists == old(lists) - {username}
    {
      lists := lists - {username};
    }
  }

  // ----- Runs -----

  datatype Op = Push(username: string, frame: BufferedFrame) | Clear(username: string)

  function Run(ops: seq<Op>, maxSize: int): map<string, seq<Stored>> {
    if ops == [] then map[]
    else
      var lists := Run(ops[..|ops| - 1], maxSize);
      match ops[|ops| - 1]
      case Push(u, frame) => SetList(lists, u, Pushed(ListOf(lists, u), maxSize, frame))
      case Clear(u) => lists - {u}
  }

  /** Every frame pushed for `username` since it was last cleared. */
  function SinceClear(ops: seq<Op>, username: string): seq<BufferedFrame> {
    if ops == [] then []
    else
      var frames := SinceClear(ops[..|ops| - 1], username);
      match ops[|ops| - 1]
      case Push(u, frame) => if u == username then frames + [frame] else frames
      case Clear(u) => if u == username then [] else frames
  }

  /** The last `n` elements, or all of them if there are fewer. */
  function LastOf<T>(s: seq<T>, n: nat): seq<T> {
    if |s| <= n then s else s[|s| - n..]
  }


  lemma {:induction false} DecodeEncoded(list: seq<Stored>, frames: seq<BufferedFrame>)
    requires |list| == |frames| && forall i :: 0 <= i < |list| ==> list[i] == Encoded(frames[i])
    ensures Decoded(list) == frames
  {
    if list != [] {
      DecodeEncoded(list[..|list| - 1], frames[..|frames| - 1]);
      assert frames == frames[..|frames| - 1] + [frames[|frames| - 1]];
    }
  }

  /** Trimming to the last `maxSize` elements does that for a positive `maxSize`, and
      nothing at all for zero. */
  lemma TrimKeepsLast(list: seq<Stored>, maxSize: int)
    requires maxSize >= 0
    ensures LTrim(list, -maxSize, -1) == if maxSize == 0 then list else LastOf(list, maxSize)
  {
  }

  /** Each list holds the newest frames and nothing else, in push order. */
  ghost predicate HoldsLast(list: seq<Stored>, frames: seq<BufferedFrame>, maxSize: int)
    requires maxSize >= 0
  {
    var kept := if maxSize == 0 then frames else LastOf(frames, maxSize);
    |list| == |kept| && forall i :: 0 <= i < |list| ==> list[i] == Encoded(kept[i])
  }

  lemma PushHoldsLast(list: seq<Stored>, frames: seq<BufferedFrame>, maxSize: int, frame: BufferedFrame)
    requires maxSize >= 0 && HoldsLast(list, frames, maxSize)
    ensures HoldsLast(Pushed(list, maxSize, frame), frames + [frame], maxSize)
  {
    hide LTrim;
    TrimKeepsLast(list + [Encoded(frame)], maxSize);
  }

  lemma {:induction false} RunHoldsLast(ops: seq<Op>, maxSize: int, username: string)
    requires maxSize >= 0
    ensures HoldsLast(ListOf(Run(ops, maxSize), username), SinceClear(ops, username), maxSize)
  {
    if ops != [] {
      var before := ops[..|ops| - 1];
      RunHoldsLast(before, maxSize, username);
      var last := ops[|ops| - 1];
      if last.Push? && last.username == username {
        PushHoldsLast(ListOf(Run(before, maxSize), username), SinceClear(before, username), maxSize, last.frame);
      }
    }
  }

  /** A reader gets exactly the last `maxSize` frames pushed for the username since it was
      last cleared, in order, whatever happens to other usernames in between; with a
      `maxSize` of zero nothing is ever dropped. */
  lemma FramesAreLastPushed(ops: seq<Op>, maxSize: int, username: string)
    requires maxSize >= 0
    ensures Decoded(ListOf(Run(ops, maxSize), username))
            == if maxSize == 0 then SinceClear(ops, username) else LastOf(SinceClear(ops, username), maxSize)
  {
    RunHoldsLast(ops, maxSize, username);
    var frames := SinceClear(ops, username);
    DecodeEncoded(ListOf(Run(ops, maxSize), username), if maxSize == 0 then frames else LastOf(frames, maxSize));
  }

  /** The cap holds exactly for a positive `maxSize`. */
  lemma CappedIffPositive(maxSize: int)
    ensures (forall ops: seq<Op>, u :: |ListOf(Run(ops, maxSize), u)| <= maxSize) <==> maxSize > 0
  {
    if maxSize > 0 {
      forall ops: seq<Op>, u ensures |ListOf(Run(ops, maxSize), u)| <= maxSize {
        RunHoldsLast(ops, maxSize, u);
      }
    } else {
      var ops := if maxSize < 0 then [] else [Push("u", BufferedFrame("c2s", Text, []))];
      if maxSize == 0 {
        RunHoldsLast(ops, maxSize, "u");
        assert ops[..0] == [];
      }
      assert |ListOf(Run(ops, maxSize), "u")| > maxSize;
    }
  }
}
