/**
  The ring of the last error messages kept for a memory dump: five slots, each
  with a buffer that is reused while the new message fits the recorded size and
  replaced by a new one otherwise.
*/
module ErrorRing {

  const MAX_ERRORMSG_QUEUE: nat := 5
  const NUL: char := '\0'

  datatype Option<T> = None | Some(value: T)

  // What one call left in its slot; None when there was no memory for the message.
  datatype Message = Message(task: int, text: Option<string>)

  lemma SlotsDiffer(n: nat, k: nat)
    requires n < k + MAX_ERRORMSG_QUEUE && k < n
    ensures k % MAX_ERRORMSG_QUEUE != n % MAX_ERRORMSG_QUEUE
  {
  }

  // Slot k % 5 is known to hold message k, for each of the last five messages.
  ghost predicate LastFive(history: seq<Message>, slots: seq<Option<Message>>)
  {
    && |slots| == MAX_ERRORMSG_QUEUE
    && forall k :: 0 <= k < |history| && |history| <= k + MAX_ERRORMSG_QUEUE ==>
         slots[k % MAX_ERRORMSG_QUEUE] == Some(history[k])
  }

  lemma PushKeepsLastFive(history: seq<Message>, slots: seq<Option<Message>>, m: Message)
    requires LastFive(history, slots)
    ensures LastFive(history + [m], slots[|history| % MAX_ERRORMSG_QUEUE := Some(m)])
  {
    var n := |history|;
    var history', slots' := history + [m], slots[n % MAX_ERRORMSG_QUEUE := Some(m)];
    forall k | 0 <= k < n + 1 && n + 1 <= k + MAX_ERRORMSG_QUEUE
      ensures slots'[k % MAX_ERRORMSG_QUEUE] == Some(history'[k])
    {
      if k < n {
        SlotsDiffer(n, k);
      }
    }
  }

  // ---------- the buffers of the five slots ----------

  // The live buffers are exactly those in the slots, each in one slot only.
  ghost predicate Owned(bufs: seq<array?<char>>, live: set<array<char>>)
  {
    && |bufs| == MAX_ERRORMSG_QUEUE
    && (forall i :: 0 <= i < |bufs| && bufs[i] != null ==> bufs[i] in live)
    && (forall i, j :: 0 <= i < j < |bufs| && bufs[i] != null ==> bufs[i] != bufs[j])
    && (forall b: array<char> :: b in live ==> b in bufs)
  }

  // The recorded size never exceeds the real one, and 0 stands for no buffer.
  ghost predicate SizesHold(bufs: seq<array?<char>>, sizes: seq<int>)
  {
    && |sizes| == |bufs|
    && forall i :: 0 <= i < |bufs| ==> if bufs[i] == null then sizes[i] == 0 else 0 < sizes[i] <= bufs[i].Length
  }

  function Live(p: array?<char>): set<array<char>> { if p == null then {} else {p} }

  lemma ReplaceKeepsOwned(bufs: seq<array?<char>>, live: set<array<char>>, i: nat, p: array?<char>)
    requires Owned(bufs, live) && i < |bufs|
    requires p == null || p == bufs[i] || p !in live
    ensures Owned(bufs[i := p], live - Live(bufs[i]) + Live(p))
  {
    var bufs', live' := bufs[i := p], live - Live(bufs[i]) + Live(p);
    forall b: array<char> | b in live'
      ensures b in bufs'
    {
      if b == p {
        assert bufs'[i] == b;
      } else {
        var j :| 0 <= j < |bufs| && bufs[j] == b;
        assert bufs'[j] == b;
      }
    }
  }

  // All that is known of the queue besides the texts in the buffers.
  ghost predicate Sane(newPos: nat, bufs: seq<array?<char>>, sizes: seq<int>, live: set<array<char>>,
                       history: seq<Message>, slots: seq<Option<Message>>)
  {
    && newPos == |history| % MAX_ERRORMSG_QUEUE
    && Owned(bufs, live) && SizesHold(bufs, sizes)
    && LastFive(history, slots)
  }

  lemma AddKeepsSane(newPos: nat, bufs: seq<array?<char>>, sizes: seq<int>, live: set<array<char>>,
                     history: seq<Message>, slots: seq<Option<Message>>, p: array?<char>, size: int, m: Message)
    requires Sane(newPos, bufs, sizes, live, history, slots)
    requires p == null || p == bufs[newPos] || p !in live
    requires if p == null then size == 0 else 0 < size <= p.Length
    ensures Sane((newPos + 1) % MAX_ERRORMSG_QUEUE, bufs[newPos := p], sizes[newPos := size],
                 live - Live(bufs[newPos]) + Live(p), history + [m], slots[newPos := Some(m)])
  {
    ReplaceKeepsOwned(bufs, live, newPos, p);
    PushKeepsLastFive(history, slots, m);
  }

  class ErrMsgQueue {
    var initiate: int
    var newPos: nat
    const taskId: array<int>
    const allocSize: array<int>
    const errMsg: array<array?<char>>
    ghost var history: seq<Message>
    ghost var slots: seq<Option<Message>>
    ghost var live: set<array<char>>

    // The buffer holds exactly this text, NUL-terminated.
    static ghost predicate Holds(b: array?<char>, text: Option<string>)
      reads b
    {
      if b == null then text == None
      else text.Some? && |text.value| < b.Length && b[..|text.value|] == text.value && b[|text.value|] == NUL
    }

    ghost function Buffers(): set<array<char>>
      reads this, errMsg
    {
      set i | 0 <= i < errMsg.Length && errMsg[i] != null :: errMsg[i]
    }

    // Every slot that was written, other than `skip`, holds what was written.
    ghost predicate SlotsHold(skip: int)
      reads this, taskId, errMsg, Buffers()
      requires taskId.Length == errMsg.Length == MAX_ERRORMSG_QUEUE
    {
      && |slots| == MAX_ERRORMSG_QUEUE
      && forall i :: 0 <= i < MAX_ERRORMSG_QUEUE && i != skip && slots[i].Some? ==>
           taskId[i] == slots[i].value.task && Holds(errMsg[i], slots[i].value.text)
    }

    ghost predicate Valid()
      reads this, taskId, allocSize, errMsg, Buffers()
    {
      && taskId.Length == allocSize.Length == errMsg.Length == MAX_ERRORMSG_QUEUE && taskId != allocSize
      && Sane(newPos, errMsg[..], allocSize[..], live, history, slots)
      && SlotsHold(-1)
      && (initiate == 0 ==> history == [] && live == {} && slots == Unwritten())
    }

    constructor ()
      ensures Valid() && history == [] && live == {}
      ensures fresh(taskId) && fresh(allocSize) && fresh(errMsg)
    {
      initiate, newPos, history, live := 0, 0, [], {};
      slots := Unwritten();
      taskId := new int[MAX_ERRORMSG_QUEUE](_ => 0);
      allocSize := new int[MAX_ERRORMSG_QUEUE](_ => 0);
      errMsg := new array?<char>[MAX_ERRORMSG_QUEUE](_ => null);
    }

    /** Copy a string and its terminator; it fits. */
    static method StrCpy(p: array<char>, text: string)
      requires |text| < p.Length
      modifies p
      ensures Holds(p, Some(text))
    {
      var i := 0;
      while i < |text|
        invariant 0 <= i <= |text| && p[..i] == text[..i]
      {
        p[i] := text[i];
        i := i + 1;
      }
      p[i] := NUL;
      assert p[..|text|] == text;
    }

    // Wipe the queue before its first use.
    method Initiate()
      requires Valid() && initiate == 0
      modifies this`initiate, this`newPos, taskId, allocSize, errMsg
      ensures Valid() && initiate == 1
      ensures errMsg[..] == old(errMsg[..]) && allocSize[..] == old(allocSize[..])
    {
      newPos := 0;
      var i := 0;
      while i < MAX_ERRORMSG_QUEUE
        invariant 0 <= i <= MAX_ERRORMSG_QUEUE && newPos == 0
        invariant errMsg[..] == old(errMsg[..]) && allocSize[..] == old(allocSize[..])
      {
        assert errMsg[i] == null && allocSize[i] == 0;
        taskId[i], allocSize[i], errMsg[i] := 0, 0, null;
        i := i + 1;
      }
      initiate := 1;
    }

    // The buffer of the current slot takes a message of length len.
    predicate Reusable(len: nat)
      reads this, allocSize, errMsg
    {
      newPos < errMsg.Length == allocSize.Length && errMsg[newPos] != null && len < allocSize[newPos]
    }

    /** A buffer for a message of length len: the one of the current slot when it
        fits, else that one is given back and a new one taken if there is room. */
    method Prepare(len: nat, room: bool) returns (p: array?<char>)
      requires Valid()
      modifies this`live, errMsg, allocSize
      ensures p != null <==> room || old(Reusable(len))
      ensures p != null ==> len < p.Length
      ensures if old(Reusable(len)) then p == old(errMsg[newPos]) else p == null || fresh(p)
      ensures live == old(live) - Live(old(errMsg[newPos])) + Live(p)
      ensures forall i :: 0 <= i < MAX_ERRORMSG_QUEUE && i != newPos ==>
                errMsg[i] == old(errMsg[i]) && allocSize[i] == old(allocSize[i])
    {
      p := null;
      if errMsg[newPos] != null {
        if allocSize[newPos] <= len {
          live := live - {errMsg[newPos]};
          errMsg[newPos] := null;
          allocSize[newPos] := 0;
        } else {
          p := errMsg[newPos];
        }
      }
      if p == null && room {
        p := new char[len + 1];
        live := live + {p};
      }
    }

    /** Add a message. It becomes the newest of the last five, unless there was no
        room and no buffer to reuse; then its slot is empty. Every other slot keeps
        its message, no buffer is lost or shared, and the copy always fits. */
    method Add(pmsg: string, task: int, room: bool)
      requires Valid() && NUL !in pmsg
      modifies this, taskId, allocSize, errMsg, live
      ensures Valid() && initiate != 0
      ensures history == old(history) + [Message(task, if room || old(Reusable(|pmsg|)) then Some(pmsg) else None)]
      ensures fresh(live - old(live))
    {
      if initiate == 0 {
        Initiate();
      }
      AddReady(pmsg, task, room);
    }

    method AddReady(pmsg: string, task: int, room: bool)
      requires Valid() && NUL !in pmsg && initiate != 0
      modifies this, taskId, allocSize, errMsg, live
      ensures Valid() && initiate != 0
      ensures history == old(history) + [Message(task, if room || old(Reusable(|pmsg|)) then Some(pmsg) else None)]
      ensures fresh(live - old(live))
    {
      ghost var bufs, sizes, was := errMsg[..], allocSize[..], live;
      var p := Prepare(|pmsg|, room);
      ghost var m := Fill(p, pmsg, task);
      ghost var size := if p == null then 0 else |pmsg| + 1;
      assert errMsg[..] == bufs[newPos := p];
      assert allocSize[..] == sizes[newPos := size];
      AddKeepsSane(newPos, bufs, sizes, was, old(history), old(slots), p, size, m);
      newPos := (newPos + 1) % MAX_ERRORMSG_QUEUE;
    }

    // Put a message into the current slot, in the buffer prepared for it.
    method Fill(p: array?<char>, pmsg: string, task: int) returns (ghost m: Message)
      requires taskId.Length == allocSize.Length == errMsg.Length == MAX_ERRORMSG_QUEUE && taskId != allocSize
      requires newPos < MAX_ERRORMSG_QUEUE && SlotsHold(newPos)
      requires p != null ==>
                 |pmsg| < p.Length && forall i :: 0 <= i < MAX_ERRORMSG_QUEUE && i != newPos ==> errMsg[i] != p
      modifies this`slots, this`history, taskId, allocSize, errMsg, Live(p)
      ensures SlotsHold(-1) && m == Message(task, if p != null then Some(pmsg) else None)
      ensures slots == old(slots)[newPos := Some(m)] && history == old(history) + [m]
      ensures errMsg[..] == old(errMsg[..])[newPos := p]
      ensures allocSize[..] == old(allocSize[..])[newPos := if p == null then 0 else |pmsg| + 1]
    {
      m := Message(task, if p != null then Some(pmsg) else None);
      taskId[newPos] := task;
      if p != null {
        StrCpy(p, pmsg);
        errMsg[newPos], allocSize[newPos] := p, |pmsg| + 1;
      } else {
        errMsg[newPos], allocSize[newPos] := null, 0;
      }
      slots := slots[newPos := Some(m)];
      history := history + [m];
    }
  }

  function Unwritten(): seq<Option<Message>> { seq(MAX_ERRORMSG_QUEUE, _ => None) }
}
