/** What OSMP_Recv delivers. The receiver puts its slot back on the free list
    before it copies the message out of it, so the outcome depends on what the
    senders do in between. */
module OsmpDelivery {
  import opened Folds
  import opened OsmpMemory
  import opened OsmpProtocol
  import opened OsmpInvariant
  import opened OsmpTheorems

  /** The step writes a message into slot k. */
  ghost predicate FillsSlot(s: State, step: Step, k: int) {
    && step.Send? && step.agent < |s.senders|
    && s.senders[step.agent].SFill? && s.senders[step.agent].slot == k
  }

  // ------------------------------------------------------- one step, one slot

  lemma FillWrites(s: State, step: Step, k: int)
    requires Inv(s) && Enabled(s, step) && 0 <= k < POOL
    ensures |Do(s, step).msgs| == POOL
    ensures FillsSlot(s, step, k) ==> Do(s, step).msgs[k] == Tagged(s.fills, step.agent, s.senders[step.agent].msg)
    ensures !FillsSlot(s, step, k) ==> Do(s, step).msgs[k] == s.msgs[k]
    ensures s.fills + (if FillsSlot(s, step, k) then 1 else 0) <= Do(s, step).fills
  {
    match step
    case StartSend(_, _) =>
    case Send(i) => assert SenderOk(s.senders[i], |s.ranks|);
    case StartRecv(_, _, _) =>
    case Recv(r) => assert RankOk(s.ranks[r]);
  }

  // ------------------------------------------------------------- one receive

  /** From trace[a] to trace[b] rank r is on its way from line 134 to line 143
      with message e in slot k; at b it reads the slot. */
  ghost predicate Window(trace: seq<State>, a: nat, b: nat, r: nat, k: int, e: Tagged) {
    && a <= b < |trace| && r < |trace[a].ranks| && trace[a].ranks[r].receiver.RInShm?
    && r < |trace[b].ranks| && trace[b].ranks[r].receiver.RCopy?
    && forall m | a <= m <= b ::
         && r < |trace[m].ranks|
         && var rv := trace[m].ranks[r].receiver;
            (rv.RInShm? || rv.RPushed? || rv.RCopy?) && rv.slot == k && rv.expected == e
  }

  ghost predicate Refilled(trace: seq<State>, steps: seq<Step>, a: nat, b: nat, k: int)
    requires a <= b <= |steps| <= |trace|
  {
    exists m :: a <= m < b && FillsSlot(trace[m], steps[m], k)
  }

  /** After the window's state m: e, unless something newer was written over it. */
  ghost predicate SlotTells(s: State, k: int, e: Tagged, refilled: bool) {
    && 0 <= k < POOL && |s.msgs| == POOL && e.ticket < s.fills
    && if refilled then s.msgs[k].ticket > e.ticket else s.msgs[k] == e
  }

  lemma WindowOpens(s: State, r: nat)
    requires Inv(s) && r < |s.ranks| && s.ranks[r].receiver.RInShm?
    ensures SlotTells(s, s.ranks[r].receiver.slot, s.ranks[r].receiver.expected, false)
  {
    assert RankData(s.ranks[r], s.msgs, s.fills);
  }

  lemma {:induction false} WindowContents(n: nat, agents: nat, trace: seq<State>, steps: seq<Step>,
                                          a: nat, b: nat, m: nat, r: nat, k: int, e: Tagged)
    requires Run(n, agents, trace, steps) && Window(trace, a, b, r, k, e) && a <= m <= b
    ensures SlotTells(trace[m], k, e, Refilled(trace, steps, a, m, k))
    decreases m
  {
    if m == a {
      RunKeepsInv(n, agents, trace, steps, a);
      WindowOpens(trace[a], r);
    } else {
      WindowContents(n, agents, trace, steps, a, b, m - 1, r, k, e);
      RunKeepsInv(n, agents, trace, steps, m - 1);
      assert Next(trace[m - 1], steps[m - 1], trace[m]);
      FillWrites(trace[m - 1], steps[m - 1], k);
      RefilledLater(trace, steps, a, m, k);
    }
  }

  lemma RefilledLater(trace: seq<State>, steps: seq<Step>, a: nat, m: nat, k: int)
    requires a < m <= |steps| <= |trace|
    ensures Refilled(trace, steps, a, m, k) <==>
      Refilled(trace, steps, a, m - 1, k) || FillsSlot(trace[m - 1], steps[m - 1], k)
  {
    if Refilled(trace, steps, a, m, k) {
      var f :| a <= f < m && FillsSlot(trace[f], steps[f], k);
      assert f < m - 1 || f == m - 1;
    }
  }

  /** Between its lines 134 and 143. */
  ghost predicate MidReceive(rv: Receiver) {
    rv.RInShm? || rv.RPushed? || rv.RCopy?
  }

  lemma MidReceiveStep(s: State, step: Step, r: nat)
    requires Inv(s) && Enabled(s, step) && r < |s.ranks| == |Do(s, step).ranks|
    requires MidReceive(Do(s, step).ranks[r].receiver) && !Do(s, step).ranks[r].receiver.RInShm?
    ensures MidReceive(s.ranks[r].receiver)
    ensures s.ranks[r].receiver.slot == Do(s, step).ranks[r].receiver.slot
    ensures s.ranks[r].receiver.expected == Do(s, step).ranks[r].receiver.expected
  {
    match step
    case StartSend(_, _) =>
    case Send(i) => SendKeepsLog(s, i, r);
    case StartRecv(_, _, _) =>
    case Recv(q) => assert RankOk(s.ranks[q]);
  }

  /** Every receive that has reached its copy entered through a push. */
  lemma {:induction false} WindowStart(n: nat, agents: nat, trace: seq<State>, steps: seq<Step>, b: nat, r: nat)
    returns (a: nat)
    requires Run(n, agents, trace, steps) && b < |trace| && r < n
    requires |trace[b].ranks| == n && MidReceive(trace[b].ranks[r].receiver)
    ensures a <= b && |trace[a].ranks| == n && trace[a].ranks[r].receiver.RInShm?
    ensures forall m | a <= m <= b ::
      && |trace[m].ranks| == n && MidReceive(trace[m].ranks[r].receiver)
      && trace[m].ranks[r].receiver.slot == trace[b].ranks[r].receiver.slot
      && trace[m].ranks[r].receiver.expected == trace[b].ranks[r].receiver.expected
    decreases b
  {
    if trace[b].ranks[r].receiver.RInShm? {
      a := b;
    } else {
      assert b > 0;
      RunKeepsInv(n, agents, trace, steps, b - 1);
      assert Next(trace[b - 1], steps[b - 1], trace[b]);
      RanksStay(trace[b - 1], steps[b - 1]);
      MidReceiveStep(trace[b - 1], steps[b - 1], r);
      a := WindowStart(n, agents, trace, steps, b - 1, r);
    }
  }

  /** The step ends a receive of rank r that has reached its copy. */
  ghost predicate EndsReceive(s: State, step: Step, r: nat) {
    && r < |s.ranks| && s.ranks[r].receiver.RCopy? && RankOk(s.ranks[r]) && |s.msgs| == POOL
    && step == Recv(r) && !CopyOut(s.ranks[r], s.msgs).receiver.RCopy?
  }

  /** A receive finds nothing but the message it dequeued if and only if no sender
      fills its slot between the push (line 134) and its last read (line 143, or
      line 138 if the length check fails). */
  lemma DeliveryIsExact(n: nat, agents: nat, trace: seq<State>, steps: seq<Step>, b: nat, r: nat) returns (a: nat)
    requires Run(n, agents, trace, steps) && b < |steps| && r < n
    requires |trace[b].ranks| == n && EndsReceive(trace[b], steps[b], r)
    ensures var k, e := trace[b].ranks[r].receiver.slot, trace[b].ranks[r].receiver.expected;
      var before, after := trace[b].ranks[r], trace[b + 1].ranks;
      && Window(trace, a, b, r, k, e)
      && r < |after|
      && |after[r].log| == |before.log| + 1 <= |after[r].sent|
      && var o := after[r].log[|before.log|];
         && o.expected == e == after[r].sent[|before.log|]
         && ((forall x | x in o.seen :: x == e) <==> !Refilled(trace, steps, a, b, k))
         && (!Refilled(trace, steps, a, b, k) && o.Accepted() ==> o.Got() == e.msg)
  {
    a := WindowStart(n, agents, trace, steps, b, r);
    var s := trace[b];
    var k, e := s.ranks[r].receiver.slot, s.ranks[r].receiver.expected;
    WindowContents(n, agents, trace, steps, a, b, b, r, k, e);
    RunKeepsInv(n, agents, trace, steps, b);
    assert RankData(s.ranks[r], s.msgs, s.fills);
    assert Next(trace[b], steps[b], trace[b + 1]);
    assert trace[b + 1].ranks[r] == CopyOut(s.ranks[r], s.msgs);
    EndOfReceive(s.ranks[r], s.msgs, s.fills);
  }

  /** The last read decides: it finds e if and only if all reads do. */
  lemma EndOfReceive(rk: Rank, msgs: seq<Tagged>, fills: nat)
    requires |msgs| == POOL && RankData(rk, msgs, fills)
    requires rk.receiver.RCopy? && !CopyOut(rk, msgs).receiver.RCopy?
    ensures var done := CopyOut(rk, msgs);
      && |done.log| == |rk.log| + 1 <= |done.sent|
      && var o := done.log[|rk.log|];
         && o.expected == rk.receiver.expected == done.sent[|rk.log|] && o.cap == rk.receiver.cap
         && o.seen == rk.receiver.seen + [msgs[rk.receiver.slot]]
         && ((forall x | x in o.seen :: x == o.expected) <==> msgs[rk.receiver.slot] == o.expected)
         && (msgs[rk.receiver.slot] == o.expected && o.Accepted() ==> o.Got() == o.expected.msg)
  {
    var e, now := rk.receiver.expected, msgs[rk.receiver.slot];
    var seen := rk.receiver.seen + [now];
    assert seen[|rk.receiver.seen|] == now;
    if now == e {
      forall j | 0 <= j < |seen| ensures seen[j] == e {
        assert j == |rk.receiver.seen| || seen[j] == e;
      }
    }
    assert e == rk.sent[|rk.log|] && Sound(e.msg) && e.msg.payload[..e.msg.len] == e.msg.payload;
    assert now in seen;
    assert CopyOut(rk, msgs).log == rk.log + [Outcome(e, rk.receiver.cap, seen)];
  }

  // ------------------------------------------------------------------- all runs

  /** No sender fills a slot that some receiver has pushed and not yet copied. */
  ghost predicate Undisturbed(s: State, step: Step) {
    forall r | 0 <= r < |s.ranks| && (s.ranks[r].receiver.RPushed? || s.ranks[r].receiver.RCopy?) ::
      !FillsSlot(s, step, s.ranks[r].receiver.slot)
  }

  /** The receive found e and nothing else; it returned it if it fits into the buffer. */
  ghost predicate Faithful(o: Outcome, e: Tagged) {
    && o.expected == e && (forall x | x in o.seen :: x == e)
    && (o.Accepted() <==> e.msg.len <= o.cap)
    && (o.Accepted() ==> o.Got() == e.msg)
  }

  ghost predicate RankFaithful(rk: Rank, msgs: seq<Tagged>)
    requires |msgs| == POOL
  {
    && |rk.log| <= |rk.sent|
    && (forall j | 0 <= j < |rk.log| :: Faithful(rk.log[j], rk.sent[j]))
    && (rk.receiver.RPushed? || rk.receiver.RCopy? ==>
          0 <= rk.receiver.slot < POOL && msgs[rk.receiver.slot] == rk.receiver.expected)
  }

  /** Rank r after any step: itself, or moved by its own receiver or by a sender
      that enqueues, and with a log that only its own copy step extends. */
  lemma FaithfulStep(s: State, step: Step, r: nat)
    requires Inv(s) && Enabled(s, step) && Undisturbed(s, step) && r < |s.ranks| == |Do(s, step).ranks|
    requires RankFaithful(s.ranks[r], s.msgs)
    ensures |Do(s, step).msgs| == POOL && RankFaithful(Do(s, step).ranks[r], Do(s, step).msgs)
  {
    KeepStep(s, step);
    var t := Do(s, step);
    assert RankData(s.ranks[r], s.msgs, s.fills) && RankData(t.ranks[r], t.msgs, t.fills);
    match step
    case StartSend(_, _) =>
    case Send(i) =>
      assert SenderOk(s.senders[i], |s.ranks|);
      SendKeepsLog(s, i, r);
      if s.ranks[r].receiver.RPushed? || s.ranks[r].receiver.RCopy? {
        FillWrites(s, step, s.ranks[r].receiver.slot);
      }
    case StartRecv(_, _, _) =>
    case Recv(q) =>
      if q == r {
        RecvFaithful(s, r);
      }
  }

  lemma SendKeepsLog(s: State, i: nat, r: nat)
    requires Inv(s) && Enabled(s, Send(i)) && r < |s.ranks|
    ensures var t := DoSend(s, i);
      && |t.ranks| == |s.ranks|
      && t.ranks[r].log == s.ranks[r].log && t.ranks[r].receiver == s.ranks[r].receiver
      && s.ranks[r].sent <= t.ranks[r].sent
  {
    assert SenderOk(s.senders[i], |s.ranks|);
  }

  lemma RecvFaithful(s: State, r: nat)
    requires Inv(s) && Enabled(s, Recv(r)) && RankFaithful(s.ranks[r], s.msgs)
    ensures DoRecv(s, r).msgs == s.msgs && r < |DoRecv(s, r).ranks| && RankFaithful(DoRecv(s, r).ranks[r], s.msgs)
  {
    hide Counts, Sum;
    var rk := s.ranks[r];
    assert RankData(rk, s.msgs, s.fills);
    if rk.receiver.RCopy? && !CopyOut(rk, s.msgs).receiver.RCopy? {
      EndOfReceive(rk, s.msgs, s.fills);
      var o := CopyOut(rk, s.msgs).log[|rk.log|];
      assert o.seen[0] in o.seen && OutcomeOk(o);
    }
  }

  lemma RanksStay(s: State, step: Step)
    requires Inv(s) && Enabled(s, step)
    ensures |Do(s, step).ranks| == |s.ranks|
  {
    match step
    case StartSend(_, _) =>
    case Send(i) => assert SenderOk(s.senders[i], |s.ranks|);
    case StartRecv(_, _, _) =>
    case Recv(r) =>
  }

  lemma {:induction false} RunIsFaithful(n: nat, agents: nat, trace: seq<State>, steps: seq<Step>, m: nat, r: nat)
    requires Run(n, agents, trace, steps) && m < |trace| && r < n
    requires forall k | 0 <= k < m :: Undisturbed(trace[k], steps[k])
    ensures |trace[m].ranks| == n && |trace[m].msgs| == POOL && RankFaithful(trace[m].ranks[r], trace[m].msgs)
    decreases m
  {
    if m > 0 {
      RunIsFaithful(n, agents, trace, steps, m - 1, r);
      RunKeepsInv(n, agents, trace, steps, m - 1);
      assert Next(trace[m - 1], steps[m - 1], trace[m]);
      RanksStay(trace[m - 1], steps[m - 1]);
      FaithfulStep(trace[m - 1], steps[m - 1], r);
    }
  }

  /** If no slot is filled between its push and its last read, the messages are
      received in the order in which they were enqueued, none skipped and none
      twice. A receive returns its message, with source, length and payload, if and
      only if the message fits into the receive's buffer, and loses it otherwise;
      `failed` counts the lost ones. Messages of one sending thread were enqueued in
      the order in which it sent them. */
  lemma DeliveredInOrder(n: nat, agents: nat, trace: seq<State>, steps: seq<Step>, m: nat, r: nat)
    requires Run(n, agents, trace, steps) && m < |trace| && r < n
    requires forall k | 0 <= k < m :: Undisturbed(trace[k], steps[k])
    ensures |trace[m].ranks| == n
    ensures var rk := trace[m].ranks[r];
      && |rk.sent| == |rk.log| + |rk.queue| + (if Pending(rk.receiver) then 1 else 0)
      && (forall j | 0 <= j < |rk.log| :: rk.log[j].Accepted() <==> rk.sent[j].msg.len <= rk.log[j].cap)
      && (forall j | 0 <= j < |rk.log| && rk.log[j].Accepted() :: rk.log[j].Got() == rk.sent[j].msg)
      && rk.failed == Sum(Rejections, rk.log)
      && (rk.failed == 0 <==> forall j | 0 <= j < |rk.log| :: rk.log[j].Accepted())
      && (forall i, j | 0 <= i < j < |rk.sent| && rk.sent[i].agent == rk.sent[j].agent ::
            rk.sent[i].ticket < rk.sent[j].ticket)
      && (forall i, j | 0 <= i < j < |rk.sent| :: rk.sent[i] != rk.sent[j])
  {
    RunIsFaithful(n, agents, trace, steps, m, r);
    RunKeepsInv(n, agents, trace, steps, m);
    var rk := trace[m].ranks[r];
    assert RankData(rk, trace[m].msgs, trace[m].fills);
    forall j | 0 <= j < |rk.log| ensures Faithful(rk.log[j], rk.sent[j]) {
    }
    if rk.failed == 0 {
      forall j | 0 <= j < |rk.log| ensures rk.log[j].Accepted() {
        SumMember(Rejections, rk.log, j);
      }
    } else {
      var j := SumWitness(Rejections, rk.log);
      assert !rk.log[j].Accepted();
    }
  }

  /** The slots in the ring are, in order, the slots of the unread messages: the
      next dequeue yields the oldest message that was enqueued and not taken. */
  lemma RingIsFifo(n: nat, agents: nat, trace: seq<State>, steps: seq<Step>, m: nat, r: nat)
    requires Run(n, agents, trace, steps) && m < |trace| && r < |trace[m].ranks|
    ensures var s, rk := trace[m], trace[m].ranks[r];
      && |s.msgs| == POOL && Holds(rk.ring, rk.queue) && |rk.queue| <= |rk.sent|
      && forall j | 0 <= j < |rk.queue| ::
           && 0 <= Unread(rk.ring, j) < POOL
           && s.msgs[Unread(rk.ring, j)] == rk.sent[|rk.sent| - |rk.queue| + j]
  {
    RunKeepsInv(n, agents, trace, steps, m);
    var rk := trace[m].ranks[r];
    assert RankData(rk, trace[m].msgs, trace[m].fills);
    forall j | 0 <= j < |rk.queue| ensures Unread(rk.ring, j) == rk.queue[j] && 0 <= rk.queue[j] < POOL {
    }
  }
}
