/** The critical sections of OSMPlib.c and the initialisation of OSMPRun.c as
    methods on the shared memory. Each is proved to do to the value of its object
    what the corresponding step of OsmpProtocol does to the free list, to the
    message slots or to a ring. */
module OsmpShared {
  import opened OsmpMemory
  import opened OsmpProtocol

  /** struct process, without its semaphores. */
  class Process {
    var readIndex: int
    var writeIndex: int
    const msgSlots: array<int>

    ghost predicate Valid()
      reads this
    {
      msgSlots.Length == CELLS && 0 <= readIndex <= CELLS && 0 <= writeIndex <= CELLS
    }

    ghost function View(): (ring: Ring)
      requires Valid()
      reads this, msgSlots
      ensures ring.Valid()
    {
      Ring(msgSlots[..], readIndex, writeIndex)
    }

    constructor ()
      ensures Valid() && fresh(msgSlots)
    {
      msgSlots := new int[CELLS];
      readIndex, writeIndex := 0, 0;
    }

    /** OSMP_Send, lines 108-111. */
    method Enqueue(slot: int)
      requires Valid()
      modifies this`writeIndex, msgSlots
      ensures Valid() && View() == old(View()).AfterPut(slot)
    {
      writeIndex := writeIndex % CELLS;
      msgSlots[writeIndex] := slot;
      writeIndex := writeIndex + 1;
    }

    /** OSMP_Recv, lines 125-128. */
    method Dequeue() returns (slot: int)
      requires Valid()
      modifies this`readIndex
      ensures Valid() && slot == old(View()).Next() && View() == old(View()).AfterTake()
    {
      readIndex := readIndex % CELLS;
      slot := msgSlots[readIndex];
      readIndex := readIndex + 1;
    }
  }

  /** The part of struct shared_memory that all processes use: the head of the
      free list and the message slots, the last of which is for broadcasts. `tags`
      says which fill the pool's messages come from. */
  class SlotPool {
    var actualFreeSlot: int
    const next: array<int>
    const messages: array<Message>
    ghost var tags: seq<Tagged>

    ghost predicate Allocated() {
      next.Length == POOL && messages.Length == POOL + 1
    }

    ghost predicate Valid()
      reads this, next, messages
    {
      Allocated() && View().Valid() && Filled()
    }

    ghost predicate Filled()
      requires Allocated()
      reads this, messages
    {
      |tags| == POOL && forall k | 0 <= k < POOL :: tags[k].msg == messages[k] && Sound(messages[k])
    }

    ghost function View(): FreeList
      reads this, next
    {
      FreeList(actualFreeSlot, next[..])
    }

    constructor ()
      ensures Allocated() && Filled() && fresh(next) && fresh(messages)
    {
      actualFreeSlot := 0;
      next := new int[POOL](_ => 0);
      messages := new Message[POOL + 1](_ => Message(0, 0, []));
      tags := seq(POOL, _ => Tagged(0, 0, Message(0, 0, [])));
    }

    /** initMemory: the links form a cycle through the pool, and every process
        starts with an empty ring. */
    method InitMemory(processes: seq<Process>)
      requires Allocated() && Filled()
      requires forall p | p in processes :: p.msgSlots.Length == CELLS
      modifies this`actualFreeSlot, next, processes
      ensures Valid() && View() == InitialList() && tags == old(tags)
      ensures forall p | p in processes :: p.Valid() && Holds(p.View(), [])
    {
      var i := 0;
      while i < POOL
        invariant 0 <= i <= POOL
        invariant forall k | 0 <= k < i :: next[k] == (k + 1) % POOL
        modifies next
      {
        next[i] := (i + 1) % POOL;
        i := i + 1;
      }
      i := 0;
      while i < |processes|
        invariant 0 <= i <= |processes|
        invariant forall k | 0 <= k < i :: processes[k].readIndex == 0 && processes[k].writeIndex == 0
        modifies processes
      {
        processes[i].readIndex := 0;
        processes[i].writeIndex := 0;
        i := i + 1;
      }
      actualFreeSlot := 0;
    }

    /** OSMP_Send, lines 91-93. */
    method Pop() returns (slot: int)
      requires Valid()
      modifies this`actualFreeSlot
      ensures Valid() && slot == old(View()).head && View() == old(View()).Popped()
    {
      slot := actualFreeSlot;
      actualFreeSlot := next[slot];
    }

    /** OSMP_Send, lines 98-102, after the check of line 80. */
    method Write(slot: int, call: SendCall, ghost ticket: nat, ghost agent: nat)
      requires Valid() && 0 <= slot < POOL && call.Typed() && UlongProduct(call.datatyp, call.count) <= MAX_PAYLOAD
      modifies messages, this`tags
      ensures Valid() && View() == old(View())
      ensures 0 <= call.datatyp * call.count <= |call.buf|
      ensures var m := Message(call.rank, call.datatyp * call.count, call.buf[..call.datatyp * call.count]);
        tags == old(tags)[slot := Tagged(ticket, agent, m)]
      ensures forall k | 0 <= k < messages.Length && k != slot :: messages[k] == old(messages[k])
    {
      LengthCheck(call);
      var len := call.count * call.datatyp;
      messages[slot] := Message(call.rank, len, call.buf[..len]);
      tags := tags[slot := Tagged(ticket, agent, messages[slot])];
    }

    /** OSMP_Recv, lines 134-135. */
    method Push(slot: int)
      requires Valid() && 0 <= slot < POOL
      modifies this`actualFreeSlot, next
      ensures Valid() && View() == old(View()).Pushed(slot)
    {
      next[slot] := actualFreeSlot;
      actualFreeSlot := slot;
    }

    /** OSMP_Recv, lines 138-148, with nobody else at work: what the reads of CopyOut
        find. A message that is too long is not copied: the caller's buffer, source and
        length stay as they were. `rk` is the record of the receiving process. */
    method Read(slot: int, datatyp: int, count: int, buffer: Message, ghost rk: Rank)
      returns (accepted: bool, after: Message)
      requires Valid() && 0 <= slot < POOL
      requires 0 <= datatyp <= 7 && -0x8000_0000 <= count < 0x8000_0000
      requires RankOk(rk) && rk.receiver.RCopy? && rk.receiver.seen == []
      requires rk.receiver.slot == slot && rk.receiver.cap == UlongProduct(datatyp, count)
      ensures accepted <==> messages[slot].len <= datatyp * count || (count < 0 && datatyp > 0)
      ensures accepted ==> after == messages[slot]
      ensures var done := CopyAll(rk, tags);
        && |done.log| == |rk.log| + 1
        && (accepted <==> done.log[|rk.log|].Accepted() && done.receiver.RPostSlot?)
        && after == if accepted then done.log[|rk.log|].Got() else buffer
    {
      assert Sound(messages[slot]) && tags[slot].msg == messages[slot];
      ReceiveAccepts(messages[slot].len, datatyp, count);
      CopyAllFinds(rk, tags);
      accepted := messages[slot].len <= UlongProduct(datatyp, count);
      after := buffer;
      if accepted {
        var source := messages[slot].source;
        var len := messages[slot].len;
        after := Message(source, len, messages[slot].payload[..len]);
      }
    }
  }

  /** All reads of one receive. */
  function CopyAll(rk: Rank, msgs: seq<Tagged>): Rank
    requires rk.receiver.RCopy? && RankOk(rk) && |msgs| == POOL
    decreases READS - |rk.receiver.seen|
  {
    var next := CopyOut(rk, msgs);
    if next.receiver.RCopy? then CopyAll(next, msgs) else next
  }

  lemma CopyAllFinds(rk: Rank, msgs: seq<Tagged>)
    requires rk.receiver.RCopy? && RankOk(rk) && |msgs| == POOL && rk.receiver.seen == []
    ensures var rv := rk.receiver; var fits := msgs[rv.slot].msg.len <= rv.cap;
      CopyAll(rk, msgs) == rk.(
        receiver := if fits then RPostSlot else RIdle,
        log := rk.log + [Outcome(rv.expected, rv.cap, SameReads(rv.cap, msgs[rv.slot]))],
        failed := rk.failed + if fits then 0 else 1)
  {
    var now := msgs[rk.receiver.slot];
    assert [] + [now] == [now];
    if now.msg.len <= rk.receiver.cap {
      var r1 := CopyOut(rk, msgs);
      var r2 := CopyOut(r1, msgs);
      var r3 := CopyOut(r2, msgs);
      assert r3.receiver.seen == [now, now, now] && [now, now, now] + [now] == [now, now, now, now];
      assert CopyAll(r2, msgs) == CopyOut(r3, msgs);
    }
  }

  /** What a receive accepts. A count of zero or more accepts the lengths up to
      datatype times count; a negative one accepts every message there can be,
      unless the datatype has value zero. */
  lemma ReceiveAccepts(len: int, datatyp: int, count: int)
    requires 0 <= len <= MAX_PAYLOAD && 0 <= datatyp <= 7 && -0x8000_0000 <= count < 0x8000_0000
    ensures len <= UlongProduct(datatyp, count) <==> len <= datatyp * count || (count < 0 && datatyp > 0)
  {
    var product := datatyp * count;
    assert -0x5_0000_0000 <= product < 0x5_0000_0000;
    if product < 0 {
      assert product % 0x1_0000_0000_0000_0000 == product + 0x1_0000_0000_0000_0000;
    }
    if count < 0 && datatyp > 0 {
      assert product < 0;
    }
  }
}
