/** The interleavings in which a receiver gets a message that was never enqueued for it,
    or more bytes than its buffer holds, and the programs that have them. */
module OsmpRace {
  import opened OsmpMemory
  import opened OsmpProtocol
  import opened OsmpInvariant
  import opened OsmpTheorems
  import opened OsmpAlone

  // --------------------------------------------------------------- the bad runs

  /** A send of bytes, which are a datatype of size 1. */
  function SendBytes(rank: int, dest: int, bytes: Payload): SendCall {
    SendCall(rank, dest, 1, |bytes|, bytes)
  }

  function BytesFrom(rank: int, bytes: Payload): Message {
    Message(rank, |bytes|, bytes)
  }

  lemma BytesAreSent(rank: int, dest: int, bytes: Payload, size: int)
    requires |bytes| <= MAX_PAYLOAD && 0 <= dest < size && dest != rank
    ensures var call := SendBytes(rank, dest, bytes);
      call.Typed() && !call.Rejected(size) && MessageOf(call) == BytesFrom(rank, bytes)
    ensures UlongProduct(1, |bytes|) == |bytes|
  {
    assert bytes[..|bytes|] == bytes;
  }

  /** Rank 0 has sent a message to rank 1. */
  lemma RaceSend(n: nat, agents: nat, first: Payload) returns (p: seq<Step>, t: State)
    requires n >= 2 && agents >= 1 && |first| <= MAX_PAYLOAD
    ensures Path(Init(n, agents), p, t) && Inv(t)
    ensures |t.senders| == agents && t.senders[0] == SIdle && |t.ranks| == n && |t.msgs| == POOL
    ensures t.freeSlots == POOL - 1 && t.shmMutex == 1 && t.fills == 2
    ensures var rk := t.ranks[1];
      && rk.receiver == RIdle && rk.procFull == 1 && rk.procFree == CELLS - 1 && rk.queue == [0] && rk.log == []
      && rk.sent == [Tagged(1, 0, BytesFrom(0, first))]
  {
    InitHolds(n, agents);
    BytesAreSent(0, 1, first, n);
    p, t := SendAlone(Init(n, agents), 0, SendBytes(0, 1, first));
    PathKeepsInv(Init(n, agents), p, t);
  }

  /** Rank 1 has given the slot back and is about to read it. */
  lemma RaceGiveBack(n: nat, agents: nat, first: Payload) returns (p: seq<Step>, t: State)
    requires n >= 2 && agents >= 1 && |first| <= MAX_PAYLOAD
    ensures Path(Init(n, agents), p, t) && Inv(t)
    ensures |t.senders| == agents && t.senders[0] == SIdle && |t.ranks| == n && |t.msgs| == POOL
    ensures t.freeSlots > 0 && t.shmMutex == 1 && t.fills == 2 && t.fl.head == 0
    ensures var rk := t.ranks[1];
      && rk.procFree == CELLS - 1 && rk.log == [] && rk.sent == [Tagged(1, 0, BytesFrom(0, first))]
      && rk.receiver == RCopy(|first|, 0, rk.sent[0], [])
    ensures t.msgs[0] == t.ranks[1].sent[0]
  {
    var s;
    p, s := RaceSend(n, agents, first);
    BytesAreSent(0, 1, first, n);
    var q;
    q, t := RecvUntilGivenBack(s, 1, 1, |first|);
    PathKeepsInv(s, q, t);
    PathConcat(Init(n, agents), p, s, q, t);
    p := p + q;
  }

  /** The slot that rank 1 has given back and not yet read to the end is the next one
      to be filled. */
  lemma RaceRefill(s: State, second: Payload) returns (p: seq<Step>, t: State)
    requires Inv(s) && |second| <= MAX_PAYLOAD
    requires |s.senders| >= 1 && s.senders[0] == SIdle && |s.ranks| >= 2
    requires s.freeSlots > 0 && s.shmMutex == 1 && s.fills == 2 && s.fl.head == 0 && s.ranks[1].procFree > 0
    ensures Path(s, p, t) && Inv(t) && |t.msgs| == POOL && t.msgs[0] == Tagged(2, 0, BytesFrom(0, second))
    ensures |t.ranks| == |s.ranks| && t.ranks[1] == s.ranks[1].(procFree := t.ranks[1].procFree)
  {
    BytesAreSent(0, 1, second, |s.ranks|);
    p, t := SendUntilWritten(s, 0, SendBytes(0, 1, second));
    PathKeepsInv(s, p, t);
  }

  /** For any two payloads, the second not longer than the first, there is a run in
      which the receive of the first message returns successfully with the second. */
  lemma ReceiveCanDeliverTheWrongMessage(n: nat, agents: nat, first: Payload, second: Payload)
    returns (trace: seq<State>, steps: seq<Step>)
    requires n >= 2 && agents >= 1 && |second| <= |first| <= MAX_PAYLOAD
    ensures Run(n, agents, trace, steps) && |trace[|steps|].ranks| == n
    ensures var rk := trace[|steps|].ranks[1];
      && |rk.log| == 1 && rk.log[0].Accepted()
      && rk.log[0].expected.msg == BytesFrom(0, first) && rk.log[0].Got() == BytesFrom(0, second)
  {
    var start := Init(n, agents);
    var p1, s1 := RaceGiveBack(n, agents, first);
    var p2, s2 := RaceRefill(s1, second);
    PathConcat(start, p1, s1, p2, s2);
    var p3, s3 := Finish(s2, 1);
    PathConcat(start, p1 + p2, s2, p3, s3);
    assert second[..|second|] == second;
    steps := p1 + p2 + p3;
    trace := PathTrace(start, steps, s3);
  }

  /** For any two payloads, the second longer than the first, there is a run in which
      a receive with a buffer for the first one has the second one copied into it. */
  lemma ReceiveCanOverrunItsBuffer(n: nat, agents: nat, first: Payload, second: Payload)
    returns (trace: seq<State>, steps: seq<Step>)
    requires n >= 2 && agents >= 1 && |first| < |second| <= MAX_PAYLOAD
    ensures Run(n, agents, trace, steps) && |trace[|steps|].ranks| == n
    ensures var rk := trace[|steps|].ranks[1];
      && |rk.log| == 1 && rk.log[0].Accepted()
      && rk.log[0].cap == |first| && rk.log[0].Copied() == |second|
  {
    var start := Init(n, agents);
    var p1, s1 := RaceGiveBack(n, agents, first);
    var check := Recv(1);
    var s2 := Do(s1, check);
    KeepStep(s1, check);
    assert Path(s2, [check][1..], s2);
    PathConcat(start, p1, s1, [check], s2);
    var p3, s3 := RaceRefill(s2, second);
    PathConcat(start, p1 + [check], s2, p3, s3);
    var p4, s4 := CopyAndPost(s3, 1, s3.msgs[0]);
    PathConcat(start, p1 + [check] + p3, s3, p4, s4);
    steps := p1 + [check] + p3 + p4;
    trace := PathTrace(start, steps, s4);
  }

  // --------------------------------------------------- which programs have them

  /** A finished receive that has returned another message than the one it dequeued. */
  predicate WrongMessage(o: Outcome) {
    o.Accepted() && o.Got() != o.expected.msg
  }

  /** A finished receive that has copied more bytes than its buffer holds. */
  predicate Overrun(o: Outcome) {
    o.Accepted() && o.Copied() > o.cap
  }

  ghost predicate Logged(s: State, bad: Outcome -> bool) {
    exists r, j :: 0 <= r < |s.ranks| && 0 <= j < |s.ranks[r].log| && bad(s.ranks[r].log[j])
  }

  /** Some run of n processes and this many sending threads has such a receive. */
  ghost predicate CanHappen(n: nat, agents: nat, bad: Outcome -> bool) {
    exists trace: seq<State>, steps: seq<Step> :: Run(n, agents, trace, steps) && Logged(trace[|steps|], bad)
  }

  /** Nobody has ever sent anything. */
  ghost predicate Silent(s: State) {
    && (forall i | 0 <= i < |s.senders| :: s.senders[i].SIdle?)
    && (forall r | 0 <= r < |s.ranks| :: s.ranks[r].sent == [])
  }

  /** A process cannot send to itself, so one process alone sends nothing. */
  lemma {:induction false} NobodyToSendTo(n: nat, agents: nat, trace: seq<State>, steps: seq<Step>, m: nat)
    requires Run(n, agents, trace, steps) && m < |trace| && (n < 2 || agents == 0)
    ensures |trace[m].senders| == agents && |trace[m].ranks| == n && Silent(trace[m])
  {
    if m > 0 {
      NobodyToSendTo(n, agents, trace, steps, m - 1);
      assert Next(trace[m - 1], steps[m - 1], trace[m]);
    }
  }

  lemma SilentLogs(n: nat, agents: nat, trace: seq<State>, steps: seq<Step>, bad: Outcome -> bool)
    requires Run(n, agents, trace, steps) && Logged(trace[|steps|], bad)
    ensures n >= 2 && agents >= 1
  {
    var s := trace[|steps|];
    RunKeepsInv(n, agents, trace, steps, |steps|);
    var r, j :| 0 <= r < |s.ranks| && 0 <= j < |s.ranks[r].log| && bad(s.ranks[r].log[j]);
    assert RankData(s.ranks[r], s.msgs, s.fills);
    if n < 2 || agents == 0 {
      NobodyToSendTo(n, agents, trace, steps, |steps|);
      assert false;
    }
  }

  /** A receive can return the wrong message, and one can overrun its buffer, if and only
      if there are at least two processes and one sending thread. */
  lemma RacesExactly(n: nat, agents: nat)
    ensures CanHappen(n, agents, WrongMessage) <==> n >= 2 && agents >= 1
    ensures CanHappen(n, agents, Overrun) <==> n >= 2 && agents >= 1
  {
    if n >= 2 && agents >= 1 {
      var trace, steps := ReceiveCanDeliverTheWrongMessage(n, agents, [0], []);
      assert WrongMessage(trace[|steps|].ranks[1].log[0]);
      assert Logged(trace[|steps|], WrongMessage);
      trace, steps := ReceiveCanOverrunItsBuffer(n, agents, [], [0]);
      assert Overrun(trace[|steps|].ranks[1].log[0]);
      assert Logged(trace[|steps|], Overrun);
    }
    if CanHappen(n, agents, WrongMessage) {
      var trace: seq<State>, steps: seq<Step> :| Run(n, agents, trace, steps) && Logged(trace[|steps|], WrongMessage);
      SilentLogs(n, agents, trace, steps, WrongMessage);
    }
    if CanHappen(n, agents, Overrun) {
      var trace: seq<State>, steps: seq<Step> :| Run(n, agents, trace, steps) && Logged(trace[|steps|], Overrun);
      SilentLogs(n, agents, trace, steps, Overrun);
    }
  }
}
