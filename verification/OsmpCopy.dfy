/** The four reads of OSMP_Recv (lines 138-143) and what senders can do between
    them: how many bytes end up in the caller's buffer. */
module OsmpCopy {
  import opened OsmpMemory
  import opened OsmpProtocol
  import opened OsmpInvariant
  import opened OsmpTheorems
  import opened OsmpDelivery

  // ------------------------------------------------------------ when reads happen

  /** Where a receiver in its copy was one step before. */
  lemma CopyStep(s: State, step: Step, r: nat)
    requires Inv(s) && Enabled(s, step) && r < |s.ranks| == |Do(s, step).ranks|
    requires Do(s, step).ranks[r].receiver.RCopy? && Do(s, step).ranks[r].receiver.seen != []
    ensures var before, after := s.ranks[r].receiver, Do(s, step).ranks[r].receiver;
      || after == before
      || (&& step == Recv(r) && before.RCopy? && 0 <= before.slot < |s.msgs|
          && after == before.(seen := before.seen + [s.msgs[before.slot]]))
  {
    match step
    case StartSend(_, _) =>
    case Send(i) => SendKeepsLog(s, i, r);
    case StartRecv(_, _, _) =>
    case Recv(q) => assert RankOk(s.ranks[q]);
  }

  /** From c on, up to b, rank r is in its copy out of the same slot. */
  ghost predicate Copying(trace: seq<State>, c: nat, b: nat, r: nat, k: int) {
    && c <= b < |trace|
    && forall m | c <= m <= b ::
         r < |trace[m].ranks| && trace[m].ranks[r].receiver.RCopy? && trace[m].ranks[r].receiver.slot == k
  }

  /** Read j of a receive that is in its copy happened in step c. */
  lemma {:induction false} WhenRead(n: nat, agents: nat, trace: seq<State>, steps: seq<Step>, b: nat, r: nat, j: nat)
    returns (c: nat)
    requires Run(n, agents, trace, steps) && b < |trace| && r < n && |trace[b].ranks| == n
    requires trace[b].ranks[r].receiver.RCopy? && j < |trace[b].ranks[r].receiver.seen|
    ensures var rv := trace[b].ranks[r].receiver;
      && c < b && Copying(trace, c, b, r, rv.slot) && steps[c] == Recv(r) && |trace[c].ranks| == n
      && trace[c].ranks[r].receiver == rv.(seen := rv.seen[..j])
      && 0 <= rv.slot < |trace[c].msgs| && trace[c].msgs[rv.slot] == rv.seen[j]
    decreases b
  {
    var rv := trace[b].ranks[r].receiver;
    assert b > 0;
    RunKeepsInv(n, agents, trace, steps, b - 1);
    assert Next(trace[b - 1], steps[b - 1], trace[b]);
    RanksStay(trace[b - 1], steps[b - 1]);
    CopyStep(trace[b - 1], steps[b - 1], r);
    if j < |trace[b - 1].ranks[r].receiver.seen| {
      c := WhenRead(n, agents, trace, steps, b - 1, r, j);
      assert trace[b - 1].ranks[r].receiver.seen[..j] == rv.seen[..j];
    } else {
      c := b - 1;
      assert rv.seen[..j] == trace[c].ranks[r].receiver.seen;
    }
  }

  // ------------------------------------------------------- what a slot holds when

  /** No slot carries the number of a fill that is still to come. */
  lemma {:induction false} TicketsArePast(n: nat, agents: nat, trace: seq<State>, steps: seq<Step>, m: nat, k: int)
    requires Run(n, agents, trace, steps) && m < |trace| && 0 <= k < POOL
    ensures |trace[m].msgs| == POOL && trace[m].msgs[k].ticket < trace[m].fills
    decreases m
  {
    if m > 0 {
      TicketsArePast(n, agents, trace, steps, m - 1, k);
      RunKeepsInv(n, agents, trace, steps, m - 1);
      assert Next(trace[m - 1], steps[m - 1], trace[m]);
      FillWrites(trace[m - 1], steps[m - 1], k);
    }
  }

  /** Step f fills slot k with m, and it is the last one from c to d that does. */
  ghost predicate LastFill(trace: seq<State>, steps: seq<Step>, c: nat, d: nat, k: int, f: nat, m: Message)
    requires c <= d <= |steps| <= |trace|
  {
    && c <= f < d && FillsSlot(trace[f], steps[f], k)
    && !Refilled(trace, steps, f + 1, d, k)
    && trace[f].senders[steps[f].agent].msg == m
  }

  /** A slot holds what it held, with an older number than any fill since, or what
      the last fill has written. */
  lemma {:induction false} SlotSince(n: nat, agents: nat, trace: seq<State>, steps: seq<Step>, c: nat, d: nat, k: int)
    requires Run(n, agents, trace, steps) && c <= d < |trace| && 0 <= k < POOL
    ensures |trace[c].msgs| == |trace[d].msgs| == POOL && trace[c].fills <= trace[d].fills
    ensures !Refilled(trace, steps, c, d, k) ==> trace[d].msgs[k] == trace[c].msgs[k]
    ensures Refilled(trace, steps, c, d, k) ==> trace[d].msgs[k].ticket >= trace[c].fills
    ensures forall f: nat, m | LastFill(trace, steps, c, d, k, f, m) :: trace[d].msgs[k].msg == m
    decreases d
  {
    RunKeepsInv(n, agents, trace, steps, c);
    if d > c {
      SlotSince(n, agents, trace, steps, c, d - 1, k);
      RunKeepsInv(n, agents, trace, steps, d - 1);
      assert Next(trace[d - 1], steps[d - 1], trace[d]);
      FillWrites(trace[d - 1], steps[d - 1], k);
      RefilledLater(trace, steps, c, d, k);
      forall f: nat, m | LastFill(trace, steps, c, d, k, f, m) ensures trace[d].msgs[k].msg == m {
        if f < d - 1 {
          RefilledLater(trace, steps, f + 1, d, k);
          assert LastFill(trace, steps, c, d - 1, k, f, m);
        }
      }
    }
  }

  lemma {:induction false} SomeLastFill(trace: seq<State>, steps: seq<Step>, c: nat, d: nat, k: int) returns (f: nat)
    requires c <= d <= |steps| <= |trace| && Refilled(trace, steps, c, d, k)
    ensures c <= f < d && FillsSlot(trace[f], steps[f], k)
    ensures LastFill(trace, steps, c, d, k, f, trace[f].senders[steps[f].agent].msg)
    decreases d
  {
    RefilledLater(trace, steps, c, d, k);
    if FillsSlot(trace[d - 1], steps[d - 1], k) {
      f := d - 1;
    } else {
      f := SomeLastFill(trace, steps, c, d - 1, k);
      if f + 1 < d {
        RefilledLater(trace, steps, f + 1, d, k);
      }
    }
  }

  // ------------------------------------------------------------ the caller's buffer

  /** In step c a receive has passed its length check (line 138), in step d it has
      read the length again (line 141), and now it copies that many bytes (line 143).
      The two lengths are of the same message if and only if nobody has filled the slot
      in between; and the copy writes more than the caller's buffer holds if and only
      if the last such fill was with a message that is longer than the buffer. */
  lemma OverrunExactly(n: nat, agents: nat, trace: seq<State>, steps: seq<Step>, b: nat, r: nat)
    returns (c: nat, d: nat)
    requires Run(n, agents, trace, steps) && b < |steps| && r < n && |trace[b].ranks| == n
    requires trace[b].ranks[r].receiver.RCopy? && |trace[b].ranks[r].receiver.seen| == 3 && steps[b] == Recv(r)
    ensures c < d < b && steps[c] == steps[d] == Recv(r)
    ensures var k := trace[b].ranks[r].receiver.slot; var log := trace[b].ranks[r].log;
      && Copying(trace, c, b, r, k)
      && trace[c].ranks[r].receiver.seen == [] && |trace[d].ranks[r].receiver.seen| == 2
      && r < |trace[b + 1].ranks| && |trace[b + 1].ranks[r].log| == |log| + 1
      && var o := trace[b + 1].ranks[r].log[|log|];
         && o.Accepted() && o.seen[0].msg.len <= o.cap
         && (o.seen[2] == o.seen[0] <==> !Refilled(trace, steps, c, d, k))
         && (o.Copied() > o.cap <==> exists f: nat, m :: LastFill(trace, steps, c, d, k, f, m) && m.len > o.cap)
  {
    var rv := trace[b].ranks[r].receiver;
    var k := rv.slot;
    d := WhenRead(n, agents, trace, steps, b, r, 2);
    c := WhenRead(n, agents, trace, steps, d, r, 0);
    RunKeepsInv(n, agents, trace, steps, b);
    assert RankData(trace[b].ranks[r], trace[b].msgs, trace[b].fills);
    assert Next(trace[b], steps[b], trace[b + 1]);
    assert trace[b + 1].ranks[r] == CopyOut(trace[b].ranks[r], trace[b].msgs);
    EndOfReceive(trace[b].ranks[r], trace[b].msgs, trace[b].fills);
    assert trace[d].ranks[r].receiver.seen[0] == rv.seen[0];
    TicketsArePast(n, agents, trace, steps, c, k);
    SlotSince(n, agents, trace, steps, c, d, k);
    if rv.seen[2].msg.len > rv.cap {
      var f := SomeLastFill(trace, steps, c, d, k);
    }
  }

  /** What a read of slot k in step x finds that carried e in step a: e, or what the last
      fill in between has written. */
  ghost predicate Finds(trace: seq<State>, steps: seq<Step>, a: nat, x: nat, k: int, e: Message, m: Message)
    requires a <= x <= |steps| <= |trace|
  {
    && (!Refilled(trace, steps, a, x, k) ==> m == e)
    && forall f: nat, w | LastFill(trace, steps, a, x, k, f, w) :: m == w
  }

  lemma PushComesFirst(trace: seq<State>, a: nat, c: nat, b: nat, r: nat, k: int)
    requires Copying(trace, c, b, r, k) && a <= b && r < |trace[a].ranks| && trace[a].ranks[r].receiver.RInShm?
    ensures a < c
  {
  }

  /** A receive that ends well in step b has read the source in step c, the length in step
      d and the bytes in step b. What it returns is put together from what the slot held
      in these three steps. */
  lemma ReturnsExactly(n: nat, agents: nat, trace: seq<State>, steps: seq<Step>, b: nat, r: nat)
    returns (a: nat, c: nat, d: nat, m1: Message, m2: Message, m3: Message)
    requires Run(n, agents, trace, steps) && b < |steps| && r < n && |trace[b].ranks| == n
    requires trace[b].ranks[r].receiver.RCopy? && |trace[b].ranks[r].receiver.seen| == 3 && steps[b] == Recv(r)
    ensures var rv, log := trace[b].ranks[r].receiver, trace[b].ranks[r].log;
      && Window(trace, a, b, r, rv.slot, rv.expected) && a < c < d < b && steps[c] == steps[d] == Recv(r)
      && |trace[c].ranks| == n == |trace[d].ranks|
      && trace[c].ranks[r].receiver.RCopy? && |trace[c].ranks[r].receiver.seen| == 1
      && trace[d].ranks[r].receiver.RCopy? && |trace[d].ranks[r].receiver.seen| == 2
      && Finds(trace, steps, a, c, rv.slot, rv.expected.msg, m1)
      && Finds(trace, steps, a, d, rv.slot, rv.expected.msg, m2)
      && Finds(trace, steps, a, b, rv.slot, rv.expected.msg, m3)
      && r < |trace[b + 1].ranks| && |trace[b + 1].ranks[r].log| == |log| + 1
      && var o := trace[b + 1].ranks[r].log[|log|];
         && o.Accepted() && o.Got().source == m1.source && 0 <= m2.len == o.Got().len
         && o.Got().payload == if m2.len <= |m3.payload| then m3.payload[..m2.len] else m3.payload
  {
    var rv := trace[b].ranks[r].receiver;
    a := WindowStart(n, agents, trace, steps, b, r);
    d := WhenRead(n, agents, trace, steps, b, r, 2);
    c := WhenRead(n, agents, trace, steps, d, r, 1);
    assert trace[d].ranks[r].receiver.seen == rv.seen[..2] && rv.seen[..2][1] == rv.seen[1];
    PushComesFirst(trace, a, d, b, r, rv.slot);
    PushComesFirst(trace, a, c, d, r, rv.slot);
    RunKeepsInv(n, agents, trace, steps, b);
    RunKeepsInv(n, agents, trace, steps, a);
    assert RankData(trace[b].ranks[r], trace[b].msgs, trace[b].fills);
    assert RankData(trace[a].ranks[r], trace[a].msgs, trace[a].fills);
    m1, m2, m3 := rv.seen[1].msg, rv.seen[2].msg, trace[b].msgs[rv.slot].msg;
    SlotSince(n, agents, trace, steps, a, c, rv.slot);
    SlotSince(n, agents, trace, steps, a, d, rv.slot);
    SlotSince(n, agents, trace, steps, a, b, rv.slot);
    assert Next(trace[b], steps[b], trace[b + 1]);
    assert trace[b + 1].ranks[r] == CopyOut(trace[b].ranks[r], trace[b].msgs);
    SeenAreSound(n, agents, trace, steps, d, rv.slot);
  }

  /** Every slot keeps a message that has as many bytes as it says. */
  lemma {:induction false} SeenAreSound(n: nat, agents: nat, trace: seq<State>, steps: seq<Step>, m: nat, k: int)
    requires Run(n, agents, trace, steps) && m < |trace| && 0 <= k < POOL
    ensures |trace[m].msgs| == POOL && Sound(trace[m].msgs[k].msg)
    decreases m
  {
    if m > 0 {
      SeenAreSound(n, agents, trace, steps, m - 1, k);
      RunKeepsInv(n, agents, trace, steps, m - 1);
      assert Next(trace[m - 1], steps[m - 1], trace[m]);
      FillWrites(trace[m - 1], steps[m - 1], k);
      if FillsSlot(trace[m - 1], steps[m - 1], k) {
        assert SenderOk(trace[m - 1].senders[steps[m - 1].agent], |trace[m - 1].ranks|);
      }
    }
  }
}
