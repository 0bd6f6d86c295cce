/** OSMP_Send and OSMP_Recv run without interruption. */
module OsmpAlone {
  import opened OsmpMemory
  import opened OsmpProtocol
  import opened OsmpInvariant
  import opened OsmpTheorems

  /** The steps lead from s to t. */
  ghost predicate Path(s: State, steps: seq<Step>, t: State)
    decreases |steps|
  {
    if steps == [] then s == t else Shape(s) && Enabled(s, steps[0]) && Path(Do(s, steps[0]), steps[1..], t)
  }

  lemma {:induction false} PathConcat(s: State, p: seq<Step>, t: State, q: seq<Step>, u: State)
    requires Path(s, p, t) && Path(t, q, u)
    ensures Path(s, p + q, u)
    decreases |p|
  {
    if p == [] {
      assert p + q == q;
    } else {
      assert (p + q)[1..] == p[1..] + q;
      PathConcat(Do(s, p[0]), p[1..], t, q, u);
    }
  }

  lemma {:induction false} PathKeepsInv(s: State, p: seq<Step>, t: State)
    requires Inv(s) && Path(s, p, t)
    ensures Inv(t)
    decreases |p|
  {
    if p != [] {
      KeepStep(s, p[0]);
      PathKeepsInv(Do(s, p[0]), p[1..], t);
    }
  }

  // ------------------------------------------------------------- OSMP_Send alone

  function MessageOf(call: SendCall): Message
    requires 0 <= call.datatyp * call.count <= |call.buf|
  {
    Message(call.rank, call.datatyp * call.count, call.buf[..call.datatyp * call.count])
  }

  /** Lines 74-89: both counting semaphores are taken. */
  lemma Reserve(s: State, i: nat, call: SendCall) returns (t: State)
    requires Inv(s) && i < |s.senders| && s.senders[i].SIdle?
    requires call.Typed() && call.ByProcess(|s.ranks|) && !call.Rejected(|s.ranks|)
    requires s.ranks[call.dest].procFree > 0 && s.freeSlots > 0
    ensures 0 <= call.datatyp * call.count <= |call.buf|
    ensures Path(s, [StartSend(i, call), Send(i), Send(i)], t)
    ensures t == s.(freeSlots := s.freeSlots - 1,
                    senders := s.senders[i := SWantShm(call.dest, MessageOf(call))],
                    ranks := s.ranks[call.dest := s.ranks[call.dest].(procFree := s.ranks[call.dest].procFree - 1)])
  {
    LengthCheck(call);
    var s1 := Do(s, StartSend(i, call));
    KeepStep(s, StartSend(i, call));
    var s2 := Do(s1, Send(i));
    KeepStep(s1, Send(i));
    t := Do(s2, Send(i));
    assert Path(s2, [Send(i)], t);
    assert Path(s1, [Send(i), Send(i)], t);
  }

  /** Lines 90-94: the first free slot is taken. */
  lemma TakeSlot(s: State, i: nat) returns (t: State)
    requires Inv(s) && i < |s.senders| && s.senders[i].SWantShm? && s.shmMutex > 0
    ensures Path(s, [Send(i), Send(i), Send(i)], t)
    ensures t == s.(fl := s.fl.Popped(),
                    senders := s.senders[i := SFill(s.senders[i].dest, s.senders[i].msg, s.fl.head)])
  {
    var s1 := Do(s, Send(i));
    KeepStep(s, Send(i));
    var s2 := Do(s1, Send(i));
    KeepStep(s1, Send(i));
    t := Do(s2, Send(i));
    assert Path(s2, [Send(i)], t);
    assert Path(s1, [Send(i), Send(i)], t);
  }

  /** Lines 98-102: the message is written into it. */
  lemma Write(s: State, i: nat) returns (t: State)
    requires Inv(s) && i < |s.senders| && s.senders[i].SFill?
    ensures 0 <= s.senders[i].slot < POOL && Path(s, [Send(i)], t)
    ensures var p := s.senders[i]; var filled := Tagged(s.fills, i, p.msg);
      t == s.(msgs := s.msgs[p.slot := filled], fills := s.fills + 1,
              senders := s.senders[i := SWantRing(p.dest, filled, p.slot)])
  {
    assert SenderOk(s.senders[i], |s.ranks|);
    t := Do(s, Send(i));
    assert Path(t, [], t);
  }

  /** Lines 105-111: the slot is put into the ring. */
  lemma Put(s: State, i: nat) returns (t: State)
    requires Inv(s) && i < |s.senders| && s.senders[i].SWantRing? && s.senders[i].dest < |s.ranks|
    requires s.ranks[s.senders[i].dest].procMutex > 0
    ensures s.ranks[s.senders[i].dest].ring.Valid() && Path(s, [Send(i), Send(i)], t)
    ensures var p := s.senders[i]; var rk := s.ranks[p.dest];
      t == s.(senders := s.senders[i := SEnqueued(p.dest)],
              ranks := s.ranks[p.dest := rk.(ring := rk.ring.AfterPut(p.slot), queue := rk.queue + [p.slot],
                                             sent := rk.sent + [p.filled], procMutex := rk.procMutex - 1)])
  {
    assert RankOk(s.ranks[s.senders[i].dest]);
    var s1 := Do(s, Send(i));
    KeepStep(s, Send(i));
    t := Do(s1, Send(i));
    assert Path(s1, [Send(i)], t);
  }

  /** Lines 112-113: the ring is unlocked and the receiver told. */
  lemma Announce(s: State, i: nat) returns (t: State)
    requires Inv(s) && i < |s.senders| && s.senders[i].SEnqueued? && s.senders[i].dest < |s.ranks|
    ensures Path(s, [Send(i), Send(i)], t)
    ensures var d := s.senders[i].dest; var rk := s.ranks[d];
      t == s.(senders := s.senders[i := SIdle],
              ranks := s.ranks[d := rk.(procMutex := rk.procMutex + 1, procFull := rk.procFull + 1)])
  {
    var s1 := Do(s, Send(i));
    KeepStep(s, Send(i));
    t := Do(s1, Send(i));
    assert Path(s1, [Send(i)], t);
  }

  /** A send that nobody interrupts: the first free slot carries the message to
      the end of the receiver's queue, and all mutexes are as before. */
  lemma SendAlone(s: State, i: nat, call: SendCall) returns (p: seq<Step>, t: State)
    requires Inv(s) && i < |s.senders| && s.senders[i].SIdle?
    requires call.Typed() && call.ByProcess(|s.ranks|) && !call.Rejected(|s.ranks|)
    requires s.ranks[call.dest].procFree > 0 && s.freeSlots > 0 && s.shmMutex > 0 && s.ranks[call.dest].procMutex > 0
    ensures 0 <= call.datatyp * call.count <= |call.buf| && Path(s, p, t) && s.ranks[call.dest].ring.Valid()
    ensures t == Sent(s, call.dest, Tagged(s.fills, i, MessageOf(call)))
  {
    var s3;
    p, s3 := SendUntilWritten(s, i, call);
    PathKeepsInv(s, p, s3);
    var q;
    q, t := PutAndAnnounce(s3, i);
    PathConcat(s, p, s3, q, t);
    p := p + q;
    AnnouncedIsSent(s, i, call.dest, Tagged(s.fills, i, MessageOf(call)), s3, t);
  }

  lemma AnnouncedIsSent(s: State, i: nat, d: nat, filled: Tagged, s3: State, t: State)
    requires s.fl.Valid() && |s.msgs| == POOL && d < |s.ranks| && s.ranks[d].ring.Valid()
    requires s.freeSlots > 0 && s.ranks[d].procFree > 0 && i < |s.senders| && s.senders[i] == SIdle
    requires s3 == Written(s, i, d, filled) && t == Announced(s3, i)
    ensures t == Sent(s, d, filled)
  {
    assert t.senders == s.senders;
    assert t.ranks == s.ranks[d := t.ranks[d]];
  }

  /** The state when the message is in the slot that was first on the list. */
  ghost function Written(s: State, i: nat, d: nat, filled: Tagged): State
    requires s.fl.Valid() && |s.msgs| == POOL && i < |s.senders| && d < |s.ranks| && s.freeSlots > 0
    requires s.ranks[d].procFree > 0
  {
    s.(fl := s.fl.Popped(), msgs := s.msgs[s.fl.head := filled], fills := s.fills + 1, freeSlots := s.freeSlots - 1,
       senders := s.senders[i := SWantRing(d, filled, s.fl.head)],
       ranks := s.ranks[d := s.ranks[d].(procFree := s.ranks[d].procFree - 1)])
  }

  /** The state when that slot is in the ring and counted. */
  ghost function Announced(s: State, i: nat): State
    requires i < |s.senders| && s.senders[i].SWantRing? && s.senders[i].dest < |s.ranks|
    requires s.ranks[s.senders[i].dest].ring.Valid()
  {
    var w := s.senders[i];
    var rk := s.ranks[w.dest];
    s.(senders := s.senders[i := SIdle],
       ranks := s.ranks[w.dest := rk.(ring := rk.ring.AfterPut(w.slot), queue := rk.queue + [w.slot],
                                      sent := rk.sent + [w.filled], procFull := rk.procFull + 1)])
  }

  /** The state after a whole send of `filled` to d. */
  ghost function Sent(s: State, d: nat, filled: Tagged): State
    requires s.fl.Valid() && |s.msgs| == POOL && d < |s.ranks| && s.ranks[d].ring.Valid()
    requires s.freeSlots > 0 && s.ranks[d].procFree > 0
  {
    var rk, k := s.ranks[d], s.fl.head;
    s.(fl := s.fl.Popped(), msgs := s.msgs[k := filled], fills := s.fills + 1, freeSlots := s.freeSlots - 1,
       ranks := s.ranks[d := rk.(procFree := rk.procFree - 1, procFull := rk.procFull + 1,
                                 ring := rk.ring.AfterPut(k), queue := rk.queue + [k], sent := rk.sent + [filled])])
  }

  lemma PutAndAnnounce(s: State, i: nat) returns (p: seq<Step>, t: State)
    requires Inv(s) && i < |s.senders| && s.senders[i].SWantRing? && s.senders[i].dest < |s.ranks|
    requires s.ranks[s.senders[i].dest].procMutex > 0
    ensures s.ranks[s.senders[i].dest].ring.Valid() && Path(s, p, t)
    ensures t == Announced(s, i)
  {
    var s1 := Put(s, i);
    PathKeepsInv(s, [Send(i), Send(i)], s1);
    t := Announce(s1, i);
    PathConcat(s, [Send(i), Send(i)], s1, [Send(i), Send(i)], t);
    p := [Send(i), Send(i)] + [Send(i), Send(i)];
  }

  lemma SendUntilWritten(s: State, i: nat, call: SendCall) returns (p: seq<Step>, t: State)
    requires Inv(s) && i < |s.senders| && s.senders[i].SIdle?
    requires call.Typed() && call.ByProcess(|s.ranks|) && !call.Rejected(|s.ranks|)
    requires s.ranks[call.dest].procFree > 0 && s.freeSlots > 0 && s.shmMutex > 0
    ensures 0 <= call.datatyp * call.count <= |call.buf| && Path(s, p, t)
    ensures t == Written(s, i, call.dest, Tagged(s.fills, i, MessageOf(call)))
  {
    var s1 := Reserve(s, i, call);
    p := [StartSend(i, call), Send(i), Send(i)];
    PathKeepsInv(s, p, s1);
    var s2 := TakeSlot(s1, i);
    PathKeepsInv(s1, [Send(i), Send(i), Send(i)], s2);
    PathConcat(s, p, s1, [Send(i), Send(i), Send(i)], s2);
    p := p + [Send(i), Send(i), Send(i)];
    t := Write(s2, i);
    PathConcat(s, p, s2, [Send(i)], t);
    p := p + [Send(i)];
  }

  // ------------------------------------------------------------- OSMP_Recv alone

  /** Lines 121-128: the oldest slot is taken out of the ring. */
  lemma TakeOldest(s: State, r: nat, datatyp: int, count: int) returns (t: State)
    requires Inv(s) && r < |s.ranks| && s.ranks[r].receiver.RIdle? && s.ranks[r].procFull > 0
    ensures s.ranks[r].ring.Valid() && s.ranks[r].queue != [] && |s.msgs| == POOL
    ensures 0 <= s.ranks[r].ring.Next() < POOL && s.ranks[r].ring.Next() == s.ranks[r].queue[0]
    ensures |s.ranks[r].log| < |s.ranks[r].sent| && s.msgs[s.ranks[r].ring.Next()] == s.ranks[r].sent[|s.ranks[r].log|]
    ensures Path(s, [StartRecv(r, datatyp, count), Recv(r), Recv(r)], t)
    ensures var rk := s.ranks[r]; var k := rk.ring.Next();
      t == s.(ranks := s.ranks[r := rk.(procFull := rk.procFull - 1, ring := rk.ring.AfterTake(),
                                        queue := rk.queue[1..],
                                        receiver := RWantShm(UlongProduct(datatyp, count), k, s.msgs[k]))])
  {
    var rk := s.ranks[r];
    assert RankData(rk, s.msgs, s.fills) && Accounts(rk, r, s.senders);
    TakeHolds(rk.ring, rk.queue);
    assert s.msgs[rk.queue[0]] == rk.sent[|rk.sent| - |rk.queue| + 0];
    hide Counts, Data, RankData, Accounts;
    var s1 := Do(s, StartRecv(r, datatyp, count));
    KeepStep(s, StartRecv(r, datatyp, count));
    var s2 := Do(s1, Recv(r));
    KeepStep(s1, Recv(r));
    t := Do(s2, Recv(r));
    assert Path(s2, [Recv(r)], t);
    assert Path(s1, [Recv(r), Recv(r)], t);
  }

  /** Lines 133-136: the slot goes back to the front of the free list. */
  lemma GiveBack(s: State, r: nat) returns (t: State)
    requires Inv(s) && r < |s.ranks| && s.ranks[r].receiver.RWantShm? && s.shmMutex > 0
    ensures 0 <= s.ranks[r].receiver.slot < POOL
    ensures Path(s, [Recv(r), Recv(r), Recv(r)], t)
    ensures var rv := s.ranks[r].receiver;
      t == s.(fl := s.fl.Pushed(rv.slot),
              ranks := s.ranks[r := s.ranks[r].(receiver := RCopy(rv.cap, rv.slot, rv.expected, []))])
  {
    assert RankOk(s.ranks[r]);
    var s1 := Do(s, Recv(r));
    KeepStep(s, Recv(r));
    var s2 := Do(s1, Recv(r));
    KeepStep(s1, Recv(r));
    t := Do(s2, Recv(r));
    assert Path(s2, [Recv(r)], t);
    assert Path(s1, [Recv(r), Recv(r)], t);
  }

  /** The state of r after a receive that has found `seen` and given everything back. */
  ghost function Delivered(s: State, r: nat, seen: seq<Tagged>): State
    requires r < |s.ranks| && s.ranks[r].receiver.RCopy?
  {
    var rk, rv := s.ranks[r], s.ranks[r].receiver;
    s.(freeSlots := s.freeSlots + 1,
       ranks := s.ranks[r := rk.(receiver := RIdle, log := rk.log + [Outcome(rv.expected, rv.cap, seen)],
                                 procFree := rk.procFree + 1)])
  }

  /** The state of r after the length check has failed. */
  ghost function Refused(s: State, r: nat, seen: seq<Tagged>): State
    requires r < |s.ranks| && s.ranks[r].receiver.RCopy?
  {
    var rk, rv := s.ranks[r], s.ranks[r].receiver;
    s.(ranks := s.ranks[r := rk.(receiver := RIdle, log := rk.log + [Outcome(rv.expected, rv.cap, seen)],
                                 failed := rk.failed + 1)])
  }

  /** Lines 150-152: both counts are given back. */
  lemma PostBoth(s: State, r: nat) returns (t: State)
    requires Inv(s) && r < |s.ranks| && s.ranks[r].receiver.RPostSlot?
    ensures Path(s, [Recv(r), Recv(r)], t)
    ensures t == s.(freeSlots := s.freeSlots + 1,
                    ranks := s.ranks[r := s.ranks[r].(receiver := RIdle, procFree := s.ranks[r].procFree + 1)])
  {
    hide Counts, Data;
    var s1 := Do(s, Recv(r));
    KeepStep(s, Recv(r));
    t := Do(s1, Recv(r));
    assert Path(s1, [Recv(r)], t);
  }

  /** Lines 140-152, from whichever read comes next: all of them find `now`. */
  lemma {:induction false} CopyAndPost(s: State, r: nat, now: Tagged) returns (p: seq<Step>, t: State)
    requires Inv(s) && r < |s.ranks| && s.ranks[r].receiver.RCopy? && s.ranks[r].receiver.seen != []
    requires 0 <= s.ranks[r].receiver.slot < |s.msgs| && s.msgs[s.ranks[r].receiver.slot] == now
    ensures |s.ranks[r].receiver.seen| < READS && Path(s, p, t)
    ensures var seen := s.ranks[r].receiver.seen; t == Delivered(s, r, seen + seq(READS - |seen|, _ => now))
    decreases READS - |s.ranks[r].receiver.seen|
  {
    hide Counts, Data;
    assert RankOk(s.ranks[r]);
    var seen := s.ranks[r].receiver.seen;
    var s1 := Do(s, Recv(r));
    KeepStep(s, Recv(r));
    if |seen| + 1 < READS {
      p, t := CopyAndPost(s1, r, now);
      p := [Recv(r)] + p;
      assert Path(s1, p[1..], t);
      assert seen + [now] + seq(READS - |seen| - 1, _ => now) == seen + seq(READS - |seen|, _ => now);
    } else {
      assert seen + [now] == seen + seq(READS - |seen|, _ => now);
      t := PostBoth(s1, r);
      p := [Recv(r)] + [Recv(r), Recv(r)];
      assert p[1..] == [Recv(r), Recv(r)];
    }
  }

  /** Lines 138-152: the message is copied out, or the call fails. */
  lemma Finish(s: State, r: nat) returns (p: seq<Step>, t: State)
    requires Inv(s) && r < |s.ranks| && s.ranks[r].receiver.RCopy? && s.ranks[r].receiver.seen == []
    ensures 0 <= s.ranks[r].receiver.slot < POOL && |s.msgs| == POOL && Path(s, p, t)
    ensures var rv := s.ranks[r].receiver; var now := s.msgs[rv.slot];
      t == if now.msg.len <= rv.cap then Delivered(s, r, SameReads(rv.cap, now))
        else Refused(s, r, SameReads(rv.cap, now))
  {
    assert RankOk(s.ranks[r]);
    var rv := s.ranks[r].receiver;
    var now := s.msgs[rv.slot];
    var s1 := Do(s, Recv(r));
    KeepStep(s, Recv(r));
    assert [] + [now] == [now];
    if now.msg.len <= rv.cap {
      p, t := CopyAndPost(s1, r, now);
      assert [now] + seq(READS - 1, _ => now) == SameReads(rv.cap, now);
      p := [Recv(r)] + p;
      assert Path(s1, p[1..], t);
    } else {
      t := s1;
      p := [Recv(r)];
      assert Path(t, [], t);
    }
  }

  lemma RecvUntilGivenBack(s: State, r: nat, datatyp: int, count: int) returns (p: seq<Step>, t: State)
    requires Inv(s) && r < |s.ranks| && s.ranks[r].receiver.RIdle? && s.ranks[r].procFull > 0 && s.shmMutex > 0
    ensures s.ranks[r].ring.Valid() && s.ranks[r].queue != [] && |s.ranks[r].log| < |s.ranks[r].sent|
    ensures |s.msgs| == POOL
    ensures 0 <= s.ranks[r].ring.Next() < POOL && s.ranks[r].ring.Next() == s.ranks[r].queue[0]
    ensures s.msgs[s.ranks[r].ring.Next()] == s.ranks[r].sent[|s.ranks[r].log|] && Path(s, p, t)
    ensures var rk := s.ranks[r]; var k := rk.ring.Next();
      t == s.(fl := s.fl.Pushed(k),
              ranks := s.ranks[r := rk.(procFull := rk.procFull - 1, ring := rk.ring.AfterTake(),
                                        queue := rk.queue[1..],
                                        receiver := RCopy(UlongProduct(datatyp, count), k, rk.sent[|rk.log|], []))])
  {
    var s1 := TakeOldest(s, r, datatyp, count);
    p := [StartRecv(r, datatyp, count), Recv(r), Recv(r)];
    PathKeepsInv(s, p, s1);
    t := GiveBack(s1, r);
    PathConcat(s, p, s1, [Recv(r), Recv(r), Recv(r)], t);
    p := p + [Recv(r), Recv(r), Recv(r)];
  }

  /** A receive that nobody interrupts gets the oldest message not yet received
      and gives back its slot; if the buffer is too small it gives back neither
      the free_slots nor the proc_free count, and the message is lost. */
  lemma RecvAlone(s: State, r: nat, datatyp: int, count: int) returns (p: seq<Step>, t: State)
    requires Inv(s) && r < |s.ranks| && s.ranks[r].receiver.RIdle? && s.ranks[r].procFull > 0 && s.shmMutex > 0
    ensures s.ranks[r].ring.Valid() && s.ranks[r].queue != [] && |s.ranks[r].log| < |s.ranks[r].sent|
    ensures 0 <= s.ranks[r].ring.Next() < POOL && Path(s, p, t)
    ensures t == Received(s, r, UlongProduct(datatyp, count))
  {
    var s2;
    p, s2 := RecvUntilGivenBack(s, r, datatyp, count);
    PathKeepsInv(s, p, s2);
    var q;
    q, t := Finish(s2, r);
    PathConcat(s, p, s2, q, t);
    p := p + q;
    FinishedIsReceived(s, r, UlongProduct(datatyp, count), s2, t);
  }

  ghost function Received(s: State, r: nat, cap: int): State
    requires s.fl.Valid() && r < |s.ranks| && s.ranks[r].ring.Valid() && s.ranks[r].queue != []
    requires 0 <= s.ranks[r].ring.Next() < POOL && |s.ranks[r].log| < |s.ranks[r].sent|
  {
    var rk := s.ranks[r];
    var k, e := rk.ring.Next(), rk.sent[|rk.log|];
    var taken := rk.(procFull := rk.procFull - (if rk.procFull > 0 then 1 else 0), ring := rk.ring.AfterTake(),
                     queue := rk.queue[1..], log := rk.log + [Outcome(e, cap, SameReads(cap, e))]);
    if e.msg.len <= cap then
      s.(fl := s.fl.Pushed(k), freeSlots := s.freeSlots + 1, ranks := s.ranks[r := taken.(procFree := rk.procFree + 1)])
    else
      s.(fl := s.fl.Pushed(k), ranks := s.ranks[r := taken.(failed := rk.failed + 1)])
  }

  lemma FinishedIsReceived(s: State, r: nat, cap: int, s2: State, t: State)
    requires s.fl.Valid() && r < |s.ranks| && s.ranks[r].ring.Valid() && s.ranks[r].queue != []
    requires s.ranks[r].receiver.RIdle?
    requires 0 <= s.ranks[r].ring.Next() < POOL && |s.ranks[r].log| < |s.ranks[r].sent| && |s.msgs| == POOL
    requires s.ranks[r].procFull > 0
    requires s.msgs[s.ranks[r].ring.Next()] == s.ranks[r].sent[|s.ranks[r].log|]
    requires var rk := s.ranks[r]; var k := rk.ring.Next();
      s2 == s.(fl := s.fl.Pushed(k),
               ranks := s.ranks[r := rk.(procFull := rk.procFull - 1, ring := rk.ring.AfterTake(),
                                         queue := rk.queue[1..],
                                         receiver := RCopy(cap, k, rk.sent[|rk.log|], []))])
    requires var rv := s2.ranks[r].receiver; var now := s2.msgs[rv.slot];
      t == if now.msg.len <= rv.cap then Delivered(s2, r, SameReads(rv.cap, now))
        else Refused(s2, r, SameReads(rv.cap, now))
    ensures t == Received(s, r, cap)
  {
    assert t.ranks == s.ranks[r := t.ranks[r]];
  }

  /** Every path from the initial memory is a run. */
  lemma {:induction false} PathTrace(s: State, p: seq<Step>, t: State) returns (trace: seq<State>)
    requires Path(s, p, t)
    ensures |trace| == |p| + 1 && trace[0] == s && trace[|p|] == t
    ensures forall k | 0 <= k < |p| :: Next(trace[k], p[k], trace[k + 1])
    decreases |p|
  {
    if p == [] {
      trace := [s];
    } else {
      var rest := PathTrace(Do(s, p[0]), p[1..], t);
      trace := [s] + rest;
    }
  }
}
