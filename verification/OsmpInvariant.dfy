/** Every step of every thread keeps the invariant of OsmpProtocol. */
module OsmpInvariant {
  import opened Folds
  import opened OsmpMemory
  import opened OsmpProtocol

  /** t differs from s in at most sender i, rank d and the globals. */
  ghost predicate Touches(s: State, t: State, i: nat, d: nat) {
    && i < |s.senders| == |t.senders| && t.senders == s.senders[i := t.senders[i]]
    && d < |s.ranks| == |t.ranks| && t.ranks == s.ranks[d := t.ranks[d]]
  }

  /** t differs from s in at most rank r and the globals. */
  ghost predicate TouchesRank(s: State, t: State, r: nat) {
    && t.senders == s.senders
    && r < |s.ranks| == |t.ranks| && t.ranks == s.ranks[r := t.ranks[r]]
  }

  // -------------------------------------------------------------------- counts

  lemma ShmKept(s: State, t: State, i: nat, d: nat)
    requires Touches(s, t, i, d) && ShmExclusive(s)
    requires t.shmMutex + SenderInShm(t.senders[i]) + RankInShm(t.ranks[d])
          == s.shmMutex + SenderInShm(s.senders[i]) + RankInShm(s.ranks[d])
    ensures ShmExclusive(t)
  {
    SumUpdate(SenderInShm, s.senders, i, t.senders[i]);
    SumUpdate(RankInShm, s.ranks, d, t.ranks[d]);
  }

  lemma ShmKeptRank(s: State, t: State, r: nat)
    requires TouchesRank(s, t, r) && ShmExclusive(s)
    requires t.shmMutex + RankInShm(t.ranks[r]) == s.shmMutex + RankInShm(s.ranks[r])
    ensures ShmExclusive(t)
  {
    SumUpdate(RankInShm, s.ranks, r, t.ranks[r]);
  }

  lemma FreeCountMoves(s: State, t: State, i: nat, d: nat)
    requires Touches(s, t, i, d)
    ensures FreeCount(t) + s.freeSlots + Granted(s.senders[i]) + Unposted(s.ranks[d])
         == FreeCount(s) + t.freeSlots + Granted(t.senders[i]) + Unposted(t.ranks[d])
  {
    SumUpdate(Granted, s.senders, i, t.senders[i]);
    SumUpdate(Unposted, s.ranks, d, t.ranks[d]);
  }

  lemma FreeCountMovesRank(s: State, t: State, r: nat)
    requires TouchesRank(s, t, r)
    ensures FreeCount(t) + s.freeSlots + Unposted(s.ranks[r]) == FreeCount(s) + t.freeSlots + Unposted(t.ranks[r])
  {
    SumUpdate(Unposted, s.ranks, r, t.ranks[r]);
  }

  /** Slot for slot, what sender i, rank d and the free list lose they gain. */
  lemma PartitionKept(s: State, t: State, i: nat, d: nat)
    requires Touches(s, t, i, d) && s.fl.Valid() && t.fl.Valid() && Partition(s)
    requires forall k :: multiset(FreeWalk(t))[k] + SenderSlot(t.senders[i])[k] + RankSlots(t.ranks[d])[k]
                      == multiset(FreeWalk(s))[k] + SenderSlot(s.senders[i])[k] + RankSlots(s.ranks[d])[k]
    ensures Partition(t)
  {
    BagUpdate(SenderSlot, s.senders, i, t.senders[i]);
    BagUpdate(RankSlots, s.ranks, d, t.ranks[d]);
    forall k ensures Owners(t, k) == Owners(s, k) {
      var a, b := Bag(SenderSlot, s.senders), Bag(RankSlots, s.ranks);
      assert (Bag(SenderSlot, t.senders) + SenderSlot(s.senders[i]))[k] == (a + SenderSlot(t.senders[i]))[k];
      assert (Bag(RankSlots, t.ranks) + RankSlots(s.ranks[d]))[k] == (b + RankSlots(t.ranks[d]))[k];
    }
  }

  lemma PartitionKeptRank(s: State, t: State, r: nat)
    requires TouchesRank(s, t, r) && s.fl.Valid() && t.fl.Valid() && Partition(s)
    requires forall k :: multiset(FreeWalk(t))[k] + RankSlots(t.ranks[r])[k]
                      == multiset(FreeWalk(s))[k] + RankSlots(s.ranks[r])[k]
    ensures Partition(t)
  {
    BagUpdate(RankSlots, s.ranks, r, t.ranks[r]);
    forall k ensures Owners(t, k) == Owners(s, k) {
      var b := Bag(RankSlots, s.ranks);
      assert (Bag(RankSlots, t.ranks) + RankSlots(s.ranks[r]))[k] == (b + RankSlots(t.ranks[r]))[k];
    }
  }

  /** Sender i sends to d, or is idle. */
  ghost predicate Addresses(p: Sender, d: nat) {
    p.SIdle? || p.dest == d
  }

  lemma AccountsHere(rk: Rank, rk': Rank, d: nat, senders: seq<Sender>, i: nat, p: Sender)
    requires i < |senders| && Accounts(rk, d, senders)
    requires rk'.receiver == rk.receiver && rk'.failed == rk.failed
    requires rk'.procFree + CreditTo(d)(p) + |rk'.queue| == rk.procFree + CreditTo(d)(senders[i]) + |rk.queue|
    requires rk'.procFull + UnnotifiedTo(d)(p) - |rk'.queue| == rk.procFull + UnnotifiedTo(d)(senders[i]) - |rk.queue|
    requires rk'.procMutex + SenderInRing(d)(p) == rk.procMutex + SenderInRing(d)(senders[i])
    ensures Accounts(rk', d, senders[i := p])
  {
    SumUpdate(CreditTo(d), senders, i, p);
    SumUpdate(UnnotifiedTo(d), senders, i, p);
    SumUpdate(SenderInRing(d), senders, i, p);
  }

  lemma AccountsElsewhere(rk: Rank, r: nat, d: nat, senders: seq<Sender>, i: nat, p: Sender)
    requires i < |senders| && Accounts(rk, r, senders) && r != d
    requires Addresses(senders[i], d) && Addresses(p, d)
    ensures Accounts(rk, r, senders[i := p])
  {
    SumUpdate(CreditTo(r), senders, i, p);
    SumUpdate(UnnotifiedTo(r), senders, i, p);
    SumUpdate(SenderInRing(r), senders, i, p);
  }

  lemma AccountsKept(s: State, t: State, i: nat, d: nat)
    requires Touches(s, t, i, d)
    requires forall r {:trigger Accounts(s.ranks[r], r, s.senders)} | 0 <= r < |s.ranks| ::
      Accounts(s.ranks[r], r, s.senders)
    requires Addresses(s.senders[i], d) && Addresses(t.senders[i], d)
    requires Accounts(t.ranks[d], d, t.senders)
    ensures forall r {:trigger Accounts(t.ranks[r], r, t.senders)} | 0 <= r < |t.ranks| ::
      Accounts(t.ranks[r], r, t.senders)
  {
    forall r | 0 <= r < |t.ranks| ensures Accounts(t.ranks[r], r, t.senders) {
      if r != d {
        assert Accounts(s.ranks[r], r, s.senders);
        AccountsElsewhere(s.ranks[r], r, d, s.senders, i, t.senders[i]);
      }
    }
  }

  lemma AccountsKeptRank(s: State, t: State, r: nat)
    requires TouchesRank(s, t, r)
    requires forall q {:trigger Accounts(s.ranks[q], q, s.senders)} | 0 <= q < |s.ranks| ::
      Accounts(s.ranks[q], q, s.senders)
    requires Accounts(s.ranks[r], r, s.senders) ==> Accounts(t.ranks[r], r, s.senders)
    ensures forall q {:trigger Accounts(t.ranks[q], q, t.senders)} | 0 <= q < |t.ranks| ::
      Accounts(t.ranks[q], q, t.senders)
  {
    forall q | 0 <= q < |t.ranks| ensures Accounts(t.ranks[q], q, t.senders) {
      assert Accounts(s.ranks[q], q, s.senders);
    }
  }

  /** A step that moves no slot and no free place. */
  lemma CountsKept(s: State, t: State, i: nat, d: nat)
    requires Touches(s, t, i, d) && s.fl.Valid() && t.fl == s.fl && Counts(s)
    requires Addresses(s.senders[i], d) && Addresses(t.senders[i], d)
    requires t.ranks[d] ==
      s.ranks[d].(procFree := t.ranks[d].procFree, procFull := t.ranks[d].procFull, procMutex := t.ranks[d].procMutex)
    requires var p, p' := s.senders[i], t.senders[i]; var rk, rk' := s.ranks[d], t.ranks[d];
      && SenderSlot(p') == SenderSlot(p)
      && t.shmMutex + SenderInShm(p') == s.shmMutex + SenderInShm(p)
      && t.freeSlots + Granted(p') == s.freeSlots + Granted(p)
      && rk'.procFree + CreditTo(d)(p') == rk.procFree + CreditTo(d)(p)
      && rk'.procFull + UnnotifiedTo(d)(p') == rk.procFull + UnnotifiedTo(d)(p)
      && rk'.procMutex + SenderInRing(d)(p') == rk.procMutex + SenderInRing(d)(p)
    ensures Counts(t)
  {
    ShmKept(s, t, i, d);
    FreeCountMoves(s, t, i, d);
    PartitionKept(s, t, i, d);
    assert Accounts(s.ranks[d], d, s.senders);
    AccountsHere(s.ranks[d], t.ranks[d], d, s.senders, i, t.senders[i]);
    AccountsKept(s, t, i, d);
  }

  // ---------------------------------------------------------------------- data

  lemma ShapeKept(s: State, t: State, i: nat, d: nat)
    requires Shape(s) && Touches(s, t, i, d) && t.fl.Valid() && |t.msgs| == POOL
    requires SenderOk(t.senders[i], |t.ranks|) && RankOk(t.ranks[d])
    ensures Shape(t)
  {
    forall j | 0 <= j < |t.senders| ensures SenderOk(t.senders[j], |t.ranks|) {
      assert j == i || SenderOk(s.senders[j], |s.ranks|);
    }
    forall r | 0 <= r < |t.ranks| ensures RankOk(t.ranks[r]) {
      assert r == d || RankOk(s.ranks[r]);
    }
  }

  /** The same history and ring; only semaphores may differ. */
  ghost predicate SameData(rk: Rank, rk': Rank) {
    && rk'.ring == rk.ring && rk'.receiver == rk.receiver
    && rk'.queue == rk.queue && rk'.sent == rk.sent && rk'.log == rk.log && rk'.failed == rk.failed
  }

  lemma RankDataSame(rk: Rank, rk': Rank, msgs: seq<Tagged>, fills: nat)
    requires |msgs| == POOL && RankData(rk, msgs, fills) && SameData(rk, rk')
    ensures RankData(rk', msgs, fills)
  {
  }

  /** A step that writes no slot and moves no message. */
  lemma DataKept(s: State, t: State, i: nat, d: nat)
    requires Touches(s, t, i, d) && |s.msgs| == POOL && Data(s)
    requires t.msgs == s.msgs && t.fills == s.fills
    requires SameData(s.ranks[d], t.ranks[d])
    requires t.senders[i].SWantRing? || t.senders[i].SInRing? ==>
               && (s.senders[i].SWantRing? || s.senders[i].SInRing?)
               && t.senders[i].filled == s.senders[i].filled && t.senders[i].slot == s.senders[i].slot
    ensures Data(t)
  {
    hide RankData, Newest;
    forall r | 0 <= r < |t.ranks| ensures RankData(t.ranks[r], t.msgs, t.fills) {
      RankDataSame(s.ranks[r], t.ranks[r], s.msgs, s.fills);
    }
    forall j | 0 <= j < |t.senders| ensures SenderContents(t.senders[j], j, t) {
      assert SenderContents(s.senders[j], j, s);
      forall r | 0 <= r < |t.ranks| && (t.senders[j].SWantRing? || t.senders[j].SInRing?)
        ensures Newest(t.ranks[r].sent, t.senders[j].filled)
      {
        assert Newest(s.ranks[r].sent, s.senders[j].filled);
      }
    }
  }

  // -------------------------------------------------------------- sender steps

  lemma KeepCall(s: State, i: nat, call: SendCall)
    requires Inv(s) && Enabled(s, StartSend(i, call))
    ensures Inv(Call(s, i, call))
  {
    var t := Call(s, i, call);
    if !call.Rejected(|s.ranks|) {
      var d := call.dest;
      assert t.ranks == s.ranks[d := t.ranks[d]];
      ShapeKept(s, t, i, d);
      CountsKept(s, t, i, d);
      DataKept(s, t, i, d);
    }
  }

  lemma KeepTakeCredit(s: State, i: nat)
    requires Inv(s) && Enabled(s, Send(i)) && s.senders[i].SWantCredit?
    ensures Inv(DoSend(s, i))
  {
    var t, d := DoSend(s, i), s.senders[i].dest;
    assert SenderOk(s.senders[i], |s.ranks|) && RankOk(s.ranks[d]);
    ShapeKept(s, t, i, d);
    CountsKept(s, t, i, d);
    DataKept(s, t, i, d);
  }

  lemma KeepTakeGrant(s: State, i: nat)
    requires Inv(s) && Enabled(s, Send(i)) && s.senders[i].SWantSlot?
    ensures Inv(DoSend(s, i))
  {
    var t, d := DoSend(s, i), s.senders[i].dest;
    assert SenderOk(s.senders[i], |s.ranks|) && RankOk(s.ranks[d]);
    ShapeKept(s, t, i, d);
    CountsKept(s, t, i, d);
    DataKept(s, t, i, d);
  }

  lemma KeepLockShm(s: State, i: nat)
    requires Inv(s) && Enabled(s, Send(i)) && s.senders[i].SWantShm?
    ensures Inv(DoSend(s, i))
  {
    var t, d := DoSend(s, i), s.senders[i].dest;
    assert SenderOk(s.senders[i], |s.ranks|) && RankOk(s.ranks[d]);
    ShapeKept(s, t, i, d);
    CountsKept(s, t, i, d);
    DataKept(s, t, i, d);
  }

  lemma KeepUnlockShm(s: State, i: nat)
    requires Inv(s) && Enabled(s, Send(i)) && s.senders[i].SPopped?
    ensures Inv(DoSend(s, i))
  {
    var t, d := DoSend(s, i), s.senders[i].dest;
    assert SenderOk(s.senders[i], |s.ranks|) && RankOk(s.ranks[d]);
    ShapeKept(s, t, i, d);
    CountsKept(s, t, i, d);
    DataKept(s, t, i, d);
  }

  lemma KeepLockRing(s: State, i: nat)
    requires Inv(s) && Enabled(s, Send(i)) && s.senders[i].SWantRing?
    ensures Inv(DoSend(s, i))
  {
    var t, d := DoSend(s, i), s.senders[i].dest;
    assert SenderOk(s.senders[i], |s.ranks|) && RankOk(s.ranks[d]);
    ShapeKept(s, t, i, d);
    CountsKept(s, t, i, d);
    DataKept(s, t, i, d);
  }

  lemma KeepUnlockRing(s: State, i: nat)
    requires Inv(s) && Enabled(s, Send(i)) && s.senders[i].SEnqueued?
    ensures Inv(DoSend(s, i))
  {
    var t, d := DoSend(s, i), s.senders[i].dest;
    assert SenderOk(s.senders[i], |s.ranks|) && RankOk(s.ranks[d]);
    ShapeKept(s, t, i, d);
    CountsKept(s, t, i, d);
    DataKept(s, t, i, d);
  }

  lemma KeepNotify(s: State, i: nat)
    requires Inv(s) && Enabled(s, Send(i)) && s.senders[i].SNotify?
    ensures Inv(DoSend(s, i))
  {
    var t, d := DoSend(s, i), s.senders[i].dest;
    assert SenderOk(s.senders[i], |s.ranks|) && RankOk(s.ranks[d]);
    ShapeKept(s, t, i, d);
    CountsKept(s, t, i, d);
    DataKept(s, t, i, d);
  }

  /** The popped slot was free, and now it is the sender's. */
  lemma PopPartition(s: State, t: State, i: nat, d: nat)
    requires Touches(s, t, i, d) && s.fl.Valid() && Partition(s)
    requires s.senders[i].SInShm? && t.senders[i].SPopped? && t.senders[i].slot == s.fl.head
    requires t.fl == s.fl.Popped() && t.freeSlots == s.freeSlots && t.ranks == s.ranks
    ensures t.fl.Valid() && Partition(t)
  {
    FreeCountMoves(s, t, i, d);
    PopWalk(s.fl, FreeCount(s));
    var w := FreeWalk(t);
    assert FreeWalk(s) == [s.fl.head] + w;
    Prepend(s.fl.head, w);
    assert SenderSlot(s.senders[i]) == multiset{} && SenderSlot(t.senders[i]) == multiset{s.fl.head};
    PartitionKept(s, t, i, d);
  }

  lemma KeepPopSlot(s: State, i: nat)
    requires Inv(s) && Enabled(s, Send(i)) && s.senders[i].SInShm?
    ensures Inv(DoSend(s, i))
  {
    var t, d := DoSend(s, i), s.senders[i].dest;
    assert SenderOk(s.senders[i], |s.ranks|) && RankOk(s.ranks[d]);
    PopPartition(s, t, i, d);
    ShapeKept(s, t, i, d);
    DataKept(s, t, i, d);
    ShmKept(s, t, i, d);
    assert Accounts(s.ranks[d], d, s.senders);
    AccountsHere(s.ranks[d], t.ranks[d], d, s.senders, i, t.senders[i]);
    AccountsKept(s, t, i, d);
  }

  // ----------------------------------------------------------------- ownership

  /** A slot owned by sender i is nowhere else. */
  lemma SenderOwns(s: State, i: nat, k: int)
    requires s.fl.Valid() && Partition(s) && i < |s.senders| && k in SenderSlot(s.senders[i])
    ensures forall j {:trigger SenderSlot(s.senders[j])} | 0 <= j < |s.senders| && j != i ::
      k !in SenderSlot(s.senders[j])
    ensures forall r {:trigger RankSlots(s.ranks[r])} | 0 <= r < |s.ranks| :: k !in RankSlots(s.ranks[r])
    ensures k !in FreeWalk(s)
  {
    BagMember(SenderSlot, s.senders, i);
    assert Owners(s, k) <= 1;
    forall j | 0 <= j < |s.senders| && j != i ensures k !in SenderSlot(s.senders[j]) {
      if j < i {
        BagTwo(SenderSlot, s.senders, j, i);
      } else {
        BagTwo(SenderSlot, s.senders, i, j);
      }
    }
    forall r | 0 <= r < |s.ranks| ensures k !in RankSlots(s.ranks[r]) {
      BagMember(RankSlots, s.ranks, r);
    }
  }

  /** A slot owned by rank r is not free. */
  lemma RankOwns(s: State, r: nat, k: int)
    requires s.fl.Valid() && Partition(s) && r < |s.ranks| && k in RankSlots(s.ranks[r])
    ensures k !in FreeWalk(s)
  {
    BagMember(RankSlots, s.ranks, r);
    assert Owners(s, k) <= 1;
  }

  // ------------------------------------------------------------------- filling

  /** Overwriting a slot that rk does not own: what it may still be copying from
      that slot is replaced by something newer. */
  lemma FillRank(rk: Rank, msgs: seq<Tagged>, fills: nat, k: int, filled: Tagged)
    requires |msgs| == POOL && 0 <= k < POOL && RankData(rk, msgs, fills)
    requires k !in RankSlots(rk) && filled.ticket == fills
    ensures RankData(rk, msgs[k := filled], fills + 1)
  {
    forall j | 0 <= j < |rk.queue| ensures rk.queue[j] != k {
      assert rk.queue[j] in multiset(rk.queue);
    }
    if rk.receiver.RCopy? && rk.receiver.slot == k {
      ReadNewer(rk.receiver.seen, rk.receiver.expected, msgs[k], filled);
    }
  }

  lemma ReadNewer(seen: seq<Tagged>, e: Tagged, before: Tagged, after: Tagged)
    requires Reads(seen + [before], e) && after.ticket > e.ticket
    ensures Reads(seen + [after], e)
  {
    forall j | 0 <= j < |seen| ensures (seen + [before])[j] == seen[j] == (seen + [after])[j] {
    }
  }

  lemma FillData(s: State, i: nat)
    requires Shape(s) && Partition(s) && Data(s) && i < |s.senders| && s.senders[i].SFill?
    requires 0 <= s.senders[i].slot < POOL
    ensures Data(Fill(s, i))
  {
    var t, k := Fill(s, i), s.senders[i].slot;
    var filled := t.senders[i].filled;
    SenderOwns(s, i, k);
    forall r | 0 <= r < |t.ranks| ensures RankData(t.ranks[r], t.msgs, t.fills) {
      assert RankData(s.ranks[r], s.msgs, s.fills) && k !in RankSlots(s.ranks[r]);
      FillRank(s.ranks[r], s.msgs, s.fills, k, filled);
    }
    forall j | 0 <= j < |t.senders| ensures SenderContents(t.senders[j], j, t) {
      assert SenderContents(s.senders[j], j, s);
      assert j != i ==> k !in SenderSlot(s.senders[j]);
      forall r | 0 <= r < |t.ranks| && (t.senders[j].SWantRing? || t.senders[j].SInRing?)
        ensures Newest(t.ranks[r].sent, t.senders[j].filled)
      {
        assert RankData(s.ranks[r], s.msgs, s.fills);
        assert j == i || Newest(s.ranks[r].sent, s.senders[j].filled);
      }
    }
  }

  lemma KeepFill(s: State, i: nat)
    requires Inv(s) && Enabled(s, Send(i)) && s.senders[i].SFill?
    ensures Inv(DoSend(s, i))
  {
    var t, d := DoSend(s, i), s.senders[i].dest;
    assert SenderOk(s.senders[i], |s.ranks|) && RankOk(s.ranks[d]);
    ShapeKept(s, t, i, d);
    CountsKept(s, t, i, d);
    FillData(s, i);
  }

  // ----------------------------------------------------------------- enqueueing

  lemma EnqueueRing(rk: Rank, k: int)
    requires RankOk(rk) && Holds(rk.ring, rk.queue) && |rk.queue| < CELLS
    ensures Holds(rk.ring.AfterPut(k), rk.queue + [k])
    ensures rk.receiver.RDequeue? ==> rk.ring.AfterPut(k).Next() == rk.ring.Next()
  {
    PutHolds(rk.ring, rk.queue, k);
    if rk.receiver.RDequeue? {
      assert (rk.queue + [k])[0] == rk.queue[0];
      TakeHolds(rk.ring, rk.queue);
      TakeHolds(rk.ring.AfterPut(k), rk.queue + [k]);
    }
  }

  lemma EnqueueHistory(rk: Rank, rk': Rank, msgs: seq<Tagged>, fills: nat, k: int, filled: Tagged)
    requires |msgs| == POOL && 0 <= k < POOL && LogFollowsSent(rk) && RankContents(rk, msgs) && Ordered(rk.sent, fills)
    requires rk'.queue == rk.queue + [k] && rk'.sent == rk.sent + [filled] && rk'.log == rk.log
    requires rk'.receiver == rk.receiver && rk'.failed == rk.failed
    requires msgs[k] == filled && filled.ticket < fills && Newest(rk.sent, filled) && Sound(filled.msg)
    ensures LogFollowsSent(rk') && RankContents(rk', msgs) && Ordered(rk'.sent, fills)
  {
  }

  lemma EnqueueRank(rk: Rank, msgs: seq<Tagged>, fills: nat, k: int, filled: Tagged)
    requires |msgs| == POOL && 0 <= k < POOL && RankData(rk, msgs, fills)
    requires |rk.queue| < CELLS && msgs[k] == filled && filled.ticket < fills && Newest(rk.sent, filled)
    requires Sound(filled.msg)
    ensures RankData(rk.(ring := rk.ring.AfterPut(k), queue := rk.queue + [k], sent := rk.sent + [filled]), msgs, fills)
  {
    EnqueueRing(rk, k);
    EnqueueHistory(rk, rk.(ring := rk.ring.AfterPut(k), queue := rk.queue + [k], sent := rk.sent + [filled]),
                   msgs, fills, k, filled);
  }

  lemma EnqueueData(s: State, i: nat)
    requires Shape(s) && Data(s) && i < |s.senders| && s.senders[i].SInRing? && s.senders[i].dest < |s.ranks|
    requires |s.ranks[s.senders[i].dest].queue| < CELLS && RankOk(s.ranks[s.senders[i].dest])
    ensures Data(Enqueue(s, i))
  {
    var t, d := Enqueue(s, i), s.senders[i].dest;
    var filled := s.senders[i].filled;
    assert SenderContents(s.senders[i], i, s) && SenderOk(s.senders[i], |s.ranks|);
    forall r | 0 <= r < |t.ranks| ensures RankData(t.ranks[r], t.msgs, t.fills) {
      assert RankData(s.ranks[r], s.msgs, s.fills);
      if r == d {
        assert Newest(s.ranks[d].sent, filled);
        EnqueueRank(s.ranks[d], s.msgs, s.fills, s.senders[i].slot, filled);
      }
    }
    forall j | 0 <= j < |t.senders| ensures SenderContents(t.senders[j], j, t) {
      assert SenderContents(s.senders[j], j, s);
      forall r | 0 <= r < |t.ranks| && (t.senders[j].SWantRing? || t.senders[j].SInRing?)
        ensures Newest(t.ranks[r].sent, t.senders[j].filled)
      {
        assert Newest(s.ranks[r].sent, s.senders[j].filled);
      }
    }
  }

  /** The place in the ring was reserved, so no unread cell is overwritten. */
  lemma ReservedPlace(s: State, i: nat)
    requires Shape(s) && Counts(s) && i < |s.senders| && s.senders[i].SInRing? && s.senders[i].dest < |s.ranks|
    ensures |s.ranks[s.senders[i].dest].queue| < CELLS
  {
    var d := s.senders[i].dest;
    assert Accounts(s.ranks[d], d, s.senders);
    SumMember(CreditTo(d), s.senders, i);
  }

  lemma EnqueuePartition(s: State, t: State, i: nat, d: nat)
    requires Touches(s, t, i, d) && s.fl.Valid() && t.fl == s.fl && Partition(s)
    requires s.senders[i].SInRing? && t.senders[i].SEnqueued? && t.freeSlots == s.freeSlots
    requires t.ranks[d].queue == s.ranks[d].queue + [s.senders[i].slot]
    requires t.ranks[d].receiver == s.ranks[d].receiver && t.ranks[d].failed == s.ranks[d].failed
    ensures Partition(t)
  {
    FreeCountMoves(s, t, i, d);
    assert FreeWalk(t) == FreeWalk(s);
    hide Partition, FreeWalk;
    var k, rk := s.senders[i].slot, s.ranks[d];
    Append(rk.queue, k);
    PartitionKept(s, t, i, d);
  }

  lemma KeepEnqueue(s: State, i: nat)
    requires Inv(s) && Enabled(s, Send(i)) && s.senders[i].SInRing?
    ensures Inv(DoSend(s, i))
  {
    var t, d := DoSend(s, i), s.senders[i].dest;
    assert SenderOk(s.senders[i], |s.ranks|) && RankOk(s.ranks[d]);
    ReservedPlace(s, i);
    EnqueueData(s, i);
    assert RankData(t.ranks[d], t.msgs, t.fills);
    ShapeKept(s, t, i, d);
    EnqueuePartition(s, t, i, d);
    ShmKept(s, t, i, d);
    assert Accounts(s.ranks[d], d, s.senders);
    AccountsHere(s.ranks[d], t.ranks[d], d, s.senders, i, t.senders[i]);
    AccountsKept(s, t, i, d);
  }

  // ------------------------------------------------------------ receiver steps

  lemma RankShape(s: State, t: State, r: nat)
    requires Shape(s) && TouchesRank(s, t, r) && t.fl.Valid() && t.msgs == s.msgs
    requires RankOk(t.ranks[r])
    ensures Shape(t)
  {
    forall j | 0 <= j < |t.senders| ensures SenderOk(t.senders[j], |t.ranks|) {
      assert SenderOk(s.senders[j], |s.ranks|);
    }
    forall q | 0 <= q < |t.ranks| ensures RankOk(t.ranks[q]) {
      assert q == r || RankOk(s.ranks[q]);
    }
  }

  lemma RankDataKept(s: State, t: State, r: nat)
    requires TouchesRank(s, t, r) && |s.msgs| == POOL && Data(s)
    requires t.msgs == s.msgs && t.fills == s.fills && t.ranks[r].sent == s.ranks[r].sent
    requires RankData(t.ranks[r], t.msgs, t.fills)
    ensures Data(t)
  {
    forall q | 0 <= q < |t.ranks| ensures RankData(t.ranks[q], t.msgs, t.fills) {
      assert RankData(s.ranks[q], s.msgs, s.fills);
    }
    forall j | 0 <= j < |t.senders| ensures SenderContents(t.senders[j], j, t) {
      assert SenderContents(s.senders[j], j, s);
      forall q | 0 <= q < |t.ranks| && (t.senders[j].SWantRing? || t.senders[j].SInRing?)
        ensures Newest(t.ranks[q].sent, t.senders[j].filled)
      {
        assert Newest(s.ranks[q].sent, s.senders[j].filled);
      }
    }
  }

  /** A receiver step that moves no slot onto or off the free list. */
  lemma RankCounts(s: State, t: State, r: nat)
    requires TouchesRank(s, t, r) && s.fl.Valid() && t.fl == s.fl && Counts(s)
    requires t.shmMutex + RankInShm(t.ranks[r]) == s.shmMutex + RankInShm(s.ranks[r])
    requires t.freeSlots + Unposted(t.ranks[r]) == s.freeSlots + Unposted(s.ranks[r])
    requires RankSlots(t.ranks[r]) == RankSlots(s.ranks[r])
    requires Accounts(s.ranks[r], r, s.senders) ==> Accounts(t.ranks[r], r, s.senders)
    ensures Counts(t)
  {
    ShmKeptRank(s, t, r);
    FreeCountMovesRank(s, t, r);
    PartitionKeptRank(s, t, r);
    AccountsKeptRank(s, t, r);
  }

  /** A receiver step on its own record, given what it leaves true of it. */
  lemma RankStep(s: State, t: State, r: nat)
    requires Inv(s) && TouchesRank(s, t, r) && t.fl == s.fl && t.msgs == s.msgs && t.fills == s.fills
    requires t.ranks[r].sent == s.ranks[r].sent
    requires RankData(t.ranks[r], t.msgs, t.fills)
    requires t.shmMutex + RankInShm(t.ranks[r]) == s.shmMutex + RankInShm(s.ranks[r])
    requires t.freeSlots + Unposted(t.ranks[r]) == s.freeSlots + Unposted(s.ranks[r])
    requires RankSlots(t.ranks[r]) == RankSlots(s.ranks[r])
    requires Accounts(s.ranks[r], r, s.senders) ==> Accounts(t.ranks[r], r, s.senders)
    ensures Inv(t)
  {
    RankShape(s, t, r);
    RankCounts(s, t, r);
    RankDataKept(s, t, r);
  }

  lemma KeepStartRecv(s: State, r: nat, datatyp: int, count: int)
    requires Inv(s) && Enabled(s, StartRecv(r, datatyp, count))
    ensures Inv(Do(s, StartRecv(r, datatyp, count)))
  {
    assert RankData(s.ranks[r], s.msgs, s.fills);
    ReturnData(s.ranks[r], Do(s, StartRecv(r, datatyp, count)).ranks[r], s.msgs, s.fills);
    RankStep(s, Do(s, StartRecv(r, datatyp, count)), r);
  }

  lemma AwaitFullData(rk: Rank, msgs: seq<Tagged>, fills: nat)
    requires |msgs| == POOL && RankData(rk, msgs, fills) && rk.receiver.RWantFull? && rk.procFull > 0 && rk.queue != []
    ensures RankData(AwaitFull(rk), msgs, fills)
  {
    TakeHolds(rk.ring, rk.queue);
    assert 0 <= rk.queue[0] < POOL;
  }

  /** proc_full was positive, so there is an unread slot to dequeue. */
  lemma KeepAwaitFull(s: State, r: nat)
    requires Inv(s) && Enabled(s, Recv(r)) && s.ranks[r].receiver.RWantFull?
    ensures Inv(DoRecv(s, r))
  {
    var rk := s.ranks[r];
    assert RankData(rk, s.msgs, s.fills) && Accounts(rk, r, s.senders);
    AwaitFullData(rk, s.msgs, s.fills);
    RankStep(s, DoRecv(s, r), r);
  }

  lemma DequeueSlots(rk: Rank, msgs: seq<Tagged>)
    requires |msgs| == POOL && RankOk(rk) && rk.receiver.RDequeue? && rk.ring.Next() == rk.queue[0]
    ensures RankSlots(Dequeue(rk, msgs)) == RankSlots(rk)
  {
    var rest := rk.queue[1..];
    assert rk.queue == [rk.queue[0]] + rest;
    Prepend(rk.queue[0], rest);
  }

  lemma DequeueContents(rk: Rank, msgs: seq<Tagged>, fills: nat)
    requires |msgs| == POOL && RankData(rk, msgs, fills) && rk.receiver.RDequeue? && rk.ring.Next() == rk.queue[0]
    ensures RankContents(Dequeue(rk, msgs), msgs)
    ensures LogFollowsSent(Dequeue(rk, msgs))
  {
    var rest := rk.queue[1..];
    assert msgs[rk.queue[0]] == rk.sent[|rk.sent| - |rk.queue| + 0];
    forall j | 0 <= j < |rest| ensures 0 <= rest[j] < POOL && msgs[rest[j]] == rk.sent[|rk.sent| - |rest| + j] {
      assert rest[j] == rk.queue[j + 1];
    }
  }

  lemma DequeueData(rk: Rank, msgs: seq<Tagged>, fills: nat)
    requires |msgs| == POOL && RankData(rk, msgs, fills) && rk.receiver.RDequeue?
    ensures RankData(Dequeue(rk, msgs), msgs, fills)
    ensures RankSlots(Dequeue(rk, msgs)) == RankSlots(rk)
  {
    TakeHolds(rk.ring, rk.queue);
    DequeueSlots(rk, msgs);
    DequeueContents(rk, msgs, fills);
  }

  lemma KeepDequeue(s: State, r: nat)
    requires Inv(s) && Enabled(s, Recv(r)) && s.ranks[r].receiver.RDequeue?
    ensures Inv(DoRecv(s, r))
  {
    assert RankData(s.ranks[r], s.msgs, s.fills);
    DequeueData(s.ranks[r], s.msgs, s.fills);
    RankStep(s, DoRecv(s, r), r);
  }

  /** The receiver moves on between lines 133 and 138 with the same message. */
  lemma AdvanceData(rk: Rank, rk': Rank, msgs: seq<Tagged>, fills: nat)
    requires |msgs| == POOL && RankData(rk, msgs, fills) && rk' == rk.(receiver := rk'.receiver)
    requires Pending(rk.receiver) && Pending(rk'.receiver) && !rk'.receiver.RWantShm?
    requires rk'.receiver.RInShm? ==> rk.receiver.RWantShm?
    requires rk'.receiver.RCopy? ==> rk'.receiver.seen == []
    requires rk'.receiver.slot == rk.receiver.slot && rk'.receiver.expected == rk.receiver.expected
    ensures RankData(rk', msgs, fills)
  {
    assert LogFollowsSent(rk');
    assert RankContents(rk', msgs);
  }

  lemma KeepRecvLockShm(s: State, r: nat)
    requires Inv(s) && Enabled(s, Recv(r)) && s.ranks[r].receiver.RWantShm?
    ensures Inv(DoRecv(s, r))
  {
    assert RankData(s.ranks[r], s.msgs, s.fills);
    AdvanceData(s.ranks[r], DoRecv(s, r).ranks[r], s.msgs, s.fills);
    RankStep(s, DoRecv(s, r), r);
  }

  lemma KeepRecvUnlockShm(s: State, r: nat)
    requires Inv(s) && Enabled(s, Recv(r)) && s.ranks[r].receiver.RPushed?
    ensures Inv(DoRecv(s, r))
  {
    assert RankData(s.ranks[r], s.msgs, s.fills);
    AdvanceData(s.ranks[r], DoRecv(s, r).ranks[r], s.msgs, s.fills);
    RankStep(s, DoRecv(s, r), r);
  }

  /** A read of the slot keeps the order of what has been found there. */
  lemma ReadOn(seen: seq<Tagged>, e: Tagged, now: Tagged)
    requires Reads(seen + [now], e)
    ensures Reads(seen + [now] + [now], e)
  {
    var longer := seen + [now] + [now];
    forall i, j | 0 <= i < j < |longer| && longer[j] == e ensures longer[i] == e {
      assert (seen + [now])[|seen|] == now;
      if j == |seen| + 1 && i < |seen| {
        assert (seen + [now])[i] == e;
      } else if j <= |seen| {
        assert (seen + [now])[j] == e && (seen + [now])[i] == longer[i];
      }
    }
    forall j | 0 <= j < |longer| ensures longer[j] == e || longer[j].ticket > e.ticket {
      assert longer[j] == (seen + [now])[if j <= |seen| then j else |seen|];
    }
  }

  lemma CopyOutLog(rk: Rank, msgs: seq<Tagged>)
    requires |msgs| == POOL && RankOk(rk) && LogFollowsSent(rk) && RankContents(rk, msgs) && rk.receiver.RCopy?
    ensures LogFollowsSent(CopyOut(rk, msgs)) && RankContents(CopyOut(rk, msgs), msgs)
  {
    hide Sum;
    var rv, done := rk.receiver, CopyOut(rk, msgs);
    var now := msgs[rv.slot];
    assert (rv.seen + [now])[0] == if rv.seen == [] then now else rv.seen[0];
    if done.receiver.RCopy? {
      ReadOn(rv.seen, rv.expected, now);
    } else {
      var last := Outcome(rv.expected, rv.cap, rv.seen + [now]);
      assert OutcomeOk(last);
      SumAppend(Rejections, rk.log, last);
    }
  }

  lemma CopyOutData(rk: Rank, msgs: seq<Tagged>, fills: nat)
    requires |msgs| == POOL && RankData(rk, msgs, fills) && rk.receiver.RCopy?
    ensures RankData(CopyOut(rk, msgs), msgs, fills)
  {
    CopyOutLog(rk, msgs);
  }

  lemma KeepCopyOut(s: State, r: nat)
    requires Inv(s) && Enabled(s, Recv(r)) && s.ranks[r].receiver.RCopy?
    ensures Inv(DoRecv(s, r))
  {
    assert RankData(s.ranks[r], s.msgs, s.fills);
    CopyOutData(s.ranks[r], s.msgs, s.fills);
    hide RankData;
    RankStep(s, DoRecv(s, r), r);
  }

  lemma ReturnData(rk: Rank, rk': Rank, msgs: seq<Tagged>, fills: nat)
    requires |msgs| == POOL && RankData(rk, msgs, fills)
    requires rk' == rk.(receiver := rk'.receiver, procFree := rk'.procFree)
    requires !Pending(rk.receiver) && !Pending(rk'.receiver) && !rk'.receiver.RDequeue?
    ensures RankData(rk', msgs, fills)
  {
    assert LogFollowsSent(rk');
    assert RankContents(rk', msgs);
  }

  lemma KeepPostSlot(s: State, r: nat)
    requires Inv(s) && Enabled(s, Recv(r)) && s.ranks[r].receiver.RPostSlot?
    ensures Inv(DoRecv(s, r))
  {
    assert RankData(s.ranks[r], s.msgs, s.fills);
    ReturnData(s.ranks[r], DoRecv(s, r).ranks[r], s.msgs, s.fills);
    RankStep(s, DoRecv(s, r), r);
  }

  lemma KeepPostCredit(s: State, r: nat)
    requires Inv(s) && Enabled(s, Recv(r)) && s.ranks[r].receiver.RPostCredit?
    ensures Inv(DoRecv(s, r))
  {
    assert RankData(s.ranks[r], s.msgs, s.fills);
    ReturnData(s.ranks[r], DoRecv(s, r).ranks[r], s.msgs, s.fills);
    RankStep(s, DoRecv(s, r), r);
  }

  /** The pushed slot belonged to rank r alone, so the walk grows by it. */
  lemma PushPartition(s: State, t: State, r: nat)
    requires TouchesRank(s, t, r) && s.fl.Valid() && Partition(s)
    requires s.ranks[r].receiver.RInShm? && 0 <= s.ranks[r].receiver.slot < POOL
    requires t.fl == s.fl.Pushed(s.ranks[r].receiver.slot) && t.freeSlots == s.freeSlots
    requires t.ranks[r] == s.ranks[r].(receiver := t.ranks[r].receiver) && t.ranks[r].receiver.RPushed?
    ensures t.fl.Valid() && Partition(t)
  {
    var k := s.ranks[r].receiver.slot;
    RankOwns(s, r, k);
    FreeCountMovesRank(s, t, r);
    PushWalk(s.fl, FreeCount(s), k);
    var w := FreeWalk(s);
    assert FreeWalk(t) == [k] + w;
    Prepend(k, w);
    PartitionKeptRank(s, t, r);
  }

  lemma KeepPush(s: State, r: nat)
    requires Inv(s) && Enabled(s, Recv(r)) && s.ranks[r].receiver.RInShm?
    ensures Inv(DoRecv(s, r))
  {
    var t := DoRecv(s, r);
    assert RankOk(s.ranks[r]) && RankData(s.ranks[r], s.msgs, s.fills);
    AdvanceData(s.ranks[r], t.ranks[r], s.msgs, s.fills);
    PushPartition(s, t, r);
    RankShape(s, t, r);
    RankDataKept(s, t, r);
    ShmKeptRank(s, t, r);
    AccountsKeptRank(s, t, r);
  }

  // --------------------------------------------------------------- every step

  lemma KeepSend(s: State, i: nat)
    requires Inv(s) && Enabled(s, Send(i))
    ensures Inv(DoSend(s, i))
  {
    match s.senders[i]
    case SWantCredit(_, _) => KeepTakeCredit(s, i);
    case SWantSlot(_, _) => KeepTakeGrant(s, i);
    case SWantShm(_, _) => KeepLockShm(s, i);
    case SInShm(_, _) => KeepPopSlot(s, i);
    case SPopped(_, _, _) => KeepUnlockShm(s, i);
    case SFill(_, _, _) => KeepFill(s, i);
    case SWantRing(_, _, _) => KeepLockRing(s, i);
    case SInRing(_, _, _) => KeepEnqueue(s, i);
    case SEnqueued(_) => KeepUnlockRing(s, i);
    case SNotify(_) => KeepNotify(s, i);
  }

  lemma KeepRecv(s: State, r: nat)
    requires Inv(s) && Enabled(s, Recv(r))
    ensures Inv(DoRecv(s, r))
  {
    match s.ranks[r].receiver
    case RWantFull(_) => KeepAwaitFull(s, r);
    case RDequeue(_) => KeepDequeue(s, r);
    case RWantShm(_, _, _) => KeepRecvLockShm(s, r);
    case RInShm(_, _, _) => KeepPush(s, r);
    case RPushed(_, _, _) => KeepRecvUnlockShm(s, r);
    case RCopy(_, _, _, _) => KeepCopyOut(s, r);
    case RPostSlot => KeepPostSlot(s, r);
    case RPostCredit => KeepPostCredit(s, r);
  }

  lemma KeepStep(s: State, step: Step)
    requires Inv(s) && Enabled(s, step)
    ensures Inv(Do(s, step))
  {
    match step
    case StartSend(i, call) => KeepCall(s, i, call);
    case Send(i) => KeepSend(s, i);
    case StartRecv(r, datatyp, count) => KeepStartRecv(s, r, datatyp, count);
    case Recv(r) => KeepRecv(s, r);
  }

  lemma InitFreeCount(n: nat, agents: nat)
    ensures FreeCount(Init(n, agents)) == POOL && ShmExclusive(Init(n, agents))
  {
    var s := Init(n, agents);
    SumZero(SenderInShm, s.senders);
    SumZero(RankInShm, s.ranks);
    SumZero(Granted, s.senders);
    SumZero(Unposted, s.ranks);
  }

  lemma InitBags(n: nat, agents: nat)
    ensures Bag(SenderSlot, Init(n, agents).senders) == multiset{}
    ensures Bag(RankSlots, Init(n, agents).ranks) == multiset{}
  {
    BagEmpty(SenderSlot, Init(n, agents).senders);
    BagEmpty(RankSlots, Init(n, agents).ranks);
  }

  lemma InitialCover(n: nat)
    requires n <= POOL
    ensures InitialList().Valid()
    ensures forall k :: multiset(Walk(InitialList().next, 0, n))[k] == if 0 <= k < n then 1 else 0
  {
    InitialWalk(0, n);
    var w := seq(n, i => 0 + i);
    CountUp(w);
  }

  lemma PartitionFromWalk(s: State, w: seq<int>, n: nat)
    requires s.fl.Valid() && n == FreeCount(s) && w == Walk(s.fl.next, s.fl.head, n)
    requires forall k :: multiset(w)[k] == if 0 <= k < POOL then 1 else 0
    requires Bag(SenderSlot, s.senders) == multiset{} && Bag(RankSlots, s.ranks) == multiset{}
    ensures Partition(s)
  {
    forall k ensures Owners(s, k) == multiset(w)[k] {
    }
  }

  /** The cycle covers the pool exactly once when it is walked POOL steps. */
  lemma InitPartition(n: nat, agents: nat)
    ensures Init(n, agents).fl.Valid() && Partition(Init(n, agents))
  {
    var s := Init(n, agents);
    InitFreeCount(n, agents);
    InitBags(n, agents);
    var free := FreeCount(s);
    InitialCover(free);
    PartitionFromWalk(s, Walk(InitialList().next, 0, free), free);
  }

  lemma InitAccounts(n: nat, agents: nat, r: nat)
    requires r < n
    ensures Accounts(Init(n, agents).ranks[r], r, Init(n, agents).senders)
  {
    var senders := Init(n, agents).senders;
    SumZero(CreditTo(r), senders);
    SumZero(UnnotifiedTo(r), senders);
    SumZero(SenderInRing(r), senders);
  }

  lemma InitHolds(n: nat, agents: nat)
    ensures Inv(Init(n, agents))
  {
    var s := Init(n, agents);
    InitFreeCount(n, agents);
    InitPartition(n, agents);
    forall r | 0 <= r < |s.ranks| ensures Accounts(s.ranks[r], r, s.senders) {
      InitAccounts(n, agents, r);
    }
    InitData(n, agents);
    hide Data, RankData;
    assert Counts(s);
  }

  lemma InitData(n: nat, agents: nat)
    ensures |Init(n, agents).msgs| == POOL && Data(Init(n, agents))
  {
    var s := Init(n, agents);
    forall r | 0 <= r < |s.ranks| ensures RankData(s.ranks[r], s.msgs, s.fills) {
    }
  }

  lemma {:induction false} CountUp(w: seq<int>)
    requires forall j | 0 <= j < |w| :: w[j] == j
    ensures forall k :: multiset(w)[k] == if 0 <= k < |w| then 1 else 0
  {
    if w != [] {
      var n := |w| - 1;
      CountUp(w[..n]);
      assert w == w[..n] + [n];
    }
  }
}
