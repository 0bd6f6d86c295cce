/** What the invariant means for every run of OSMP_Send and OSMP_Recv. */
module OsmpTheorems {
  import opened Folds
  import opened OsmpMemory
  import opened OsmpProtocol
  import opened OsmpInvariant

  /** Any interleaving of the steps of any number of threads. */
  ghost predicate Run(n: nat, agents: nat, trace: seq<State>, steps: seq<Step>) {
    && |trace| == |steps| + 1
    && trace[0] == Init(n, agents)
    && forall k | 0 <= k < |steps| :: Next(trace[k], steps[k], trace[k + 1])
  }

  lemma {:induction false} RunKeepsInv(n: nat, agents: nat, trace: seq<State>, steps: seq<Step>, k: nat)
    requires Run(n, agents, trace, steps) && k < |trace|
    ensures Inv(trace[k])
  {
    if k == 0 {
      InitHolds(n, agents);
    } else {
      RunKeepsInv(n, agents, trace, steps, k - 1);
      assert Next(trace[k - 1], steps[k - 1], trace[k]);
      KeepStep(trace[k - 1], steps[k - 1]);
    }
  }

  // ---------------------------------------------------------- slots and places

  function SlotsOfSender(p: Sender): nat {
    if p.SPopped? || p.SFill? || p.SWantRing? || p.SInRing? then 1 else 0
  }

  function SlotsOfRank(rk: Rank): nat {
    |rk.queue| + if rk.receiver.RWantShm? || rk.receiver.RInShm? then 1 else 0
  }

  /** Each pool slot has exactly one owner; the free ones are met without
      repetition by following the links for FreeCount steps; and the four kinds
      of slots add up to the pool. */
  lemma SlotsArePartitioned(n: nat, agents: nat, trace: seq<State>, steps: seq<Step>, m: nat)
    requires Run(n, agents, trace, steps) && m < |trace|
    ensures var s := trace[m];
      && s.fl.Valid()
      && (forall k | 0 <= k < POOL :: Owners(s, k) == 1)
      && (forall i, j | 0 <= i < j < FreeCount(s) :: FreeWalk(s)[i] != FreeWalk(s)[j])
      && FreeCount(s) + Sum(SlotsOfSender, s.senders) + Sum(SlotsOfRank, s.ranks) == POOL
  {
    RunKeepsInv(n, agents, trace, steps, m);
    var s := trace[m];
    var w := FreeWalk(s);
    forall i, j | 0 <= i < j < |w| ensures w[i] != w[j] {
      assert Owners(s, w[i]) <= 1;
      if w[i] == w[j] {
        TwiceCounts(w, i, j);
      }
    }
    PoolSize(s);
  }

  lemma TwiceCounts(w: seq<int>, i: nat, j: nat)
    requires i < j < |w| && w[i] == w[j]
    ensures multiset(w)[w[i]] >= 2
  {
    assert w == w[..j] + [w[j]] + w[j + 1..];
    assert w[..j][i] == w[i];
    assert w[i] in multiset(w[..j]);
  }

  lemma PoolSize(s: State)
    requires s.fl.Valid() && Partition(s)
    ensures FreeCount(s) + Sum(SlotsOfSender, s.senders) + Sum(SlotsOfRank, s.ranks) == POOL
  {
    var f, a, b := multiset(FreeWalk(s)), Bag(SenderSlot, s.senders), Bag(RankSlots, s.ranks);
    forall k ensures f[k] + a[k] + b[k] == if 0 <= k < POOL then 1 else 0 {
      assert Owners(s, k) == f[k] + a[k] + b[k];
    }
    ThreeBagsSize(f, a, b, POOL);
    SlotCounts(s.senders, s.ranks);
  }

  lemma SlotCounts(senders: seq<Sender>, ranks: seq<Rank>)
    ensures |Bag(SenderSlot, senders)| == Sum(SlotsOfSender, senders)
    ensures |Bag(RankSlots, ranks)| == Sum(SlotsOfRank, ranks)
  {
    BagSize(SenderSlot, SlotsOfSender, senders);
    BagSize(RankSlots, SlotsOfRank, ranks);
  }

  /** The semaphore equations, and what they rule out: a sender inside the
      critical section never pops an empty list, and a sender about to enqueue
      never meets a full ring. */
  lemma SemaphoresAccountForEverything(n: nat, agents: nat, trace: seq<State>, steps: seq<Step>, m: nat)
    requires Run(n, agents, trace, steps) && m < |trace|
    ensures var s := trace[m];
      && s.fl.Valid()
      && |FreeWalk(s)| == s.freeSlots + Sum(Granted, s.senders) + Sum(Unposted, s.ranks)
      && (forall r | 0 <= r < |s.ranks| :: Accounts(s.ranks[r], r, s.senders))
      && (forall i | 0 <= i < |s.senders| && s.senders[i].SInShm? :: FreeCount(s) > 0 && s.fl.head == FreeWalk(s)[0])
      && (forall i | 0 <= i < |s.senders| && s.senders[i].SInRing? ::
            s.senders[i].dest < |s.ranks| && |s.ranks[s.senders[i].dest].queue| < CELLS)
  {
    RunKeepsInv(n, agents, trace, steps, m);
    var s := trace[m];
    forall i | 0 <= i < |s.senders| && s.senders[i].SInShm?
      ensures FreeCount(s) > 0 && s.fl.head == FreeWalk(s)[0]
    {
      SumMember(Granted, s.senders, i);
      PopWalk(s.fl, FreeCount(s));
    }
    forall i | 0 <= i < |s.senders| && s.senders[i].SInRing?
      ensures s.senders[i].dest < |s.ranks| && |s.ranks[s.senders[i].dest].queue| < CELLS
    {
      assert SenderOk(s.senders[i], |s.ranks|);
      ReservedPlace(s, i);
    }
  }

  // ---------------------------------------------------------- mutual exclusion

  /** Two threads are never in the same critical section, and no thread holds
      shm_mutex together with a proc_mutex. */
  lemma CriticalSectionsExclude(n: nat, agents: nat, trace: seq<State>, steps: seq<Step>, m: nat)
    requires Run(n, agents, trace, steps) && m < |trace|
    ensures var s := trace[m];
      && (forall i, j | 0 <= i < j < |s.senders| :: SenderInShm(s.senders[i]) + SenderInShm(s.senders[j]) <= 1)
      && (forall i, r | 0 <= i < |s.senders| && 0 <= r < |s.ranks| ::
        SenderInShm(s.senders[i]) + RankInShm(s.ranks[r]) <= 1)
      && (forall q, r | 0 <= q < r < |s.ranks| :: RankInShm(s.ranks[q]) + RankInShm(s.ranks[r]) <= 1)
      && (forall i, j, d: nat | 0 <= i < j < |s.senders| && d < |s.ranks| ::
            SenderInRing(d)(s.senders[i]) + SenderInRing(d)(s.senders[j]) <= 1)
      && (forall i, d: nat | 0 <= i < |s.senders| :: SenderInShm(s.senders[i]) + SenderInRing(d)(s.senders[i]) <= 1)
  {
    RunKeepsInv(n, agents, trace, steps, m);
    var s := trace[m];
    forall i, j | 0 <= i < j < |s.senders| ensures SenderInShm(s.senders[i]) + SenderInShm(s.senders[j]) <= 1 {
      SumTwo(SenderInShm, s.senders, i, j);
    }
    forall i, r | 0 <= i < |s.senders| && 0 <= r < |s.ranks|
      ensures SenderInShm(s.senders[i]) + RankInShm(s.ranks[r]) <= 1 {
      SumMember(SenderInShm, s.senders, i);
      SumMember(RankInShm, s.ranks, r);
    }
    forall q, r | 0 <= q < r < |s.ranks| ensures RankInShm(s.ranks[q]) + RankInShm(s.ranks[r]) <= 1 {
      SumTwo(RankInShm, s.ranks, q, r);
    }
    forall i, j, d: nat | 0 <= i < j < |s.senders| && d < |s.ranks|
      ensures SenderInRing(d)(s.senders[i]) + SenderInRing(d)(s.senders[j]) <= 1
    {
      assert Accounts(s.ranks[d], d, s.senders);
      SumTwo(SenderInRing(d), s.senders, i, j);
    }
  }

  // ------------------------------------------------------------ no capacity deadlock

  /** Every thread is idle or waits for one of the three counting semaphores. */
  ghost predicate AllWaiting(s: State) {
    && (forall i | 0 <= i < |s.senders| :: s.senders[i].SIdle? || s.senders[i].SWantCredit? || s.senders[i].SWantSlot?)
    && (forall r | 0 <= r < |s.ranks| :: s.ranks[r].receiver.RIdle? || s.ranks[r].receiver.RWantFull?)
  }

  ghost predicate NoneFailed(s: State) {
    forall r | 0 <= r < |s.ranks| :: s.ranks[r].failed == 0
  }

  /** Sender i waits for a semaphore that is zero. */
  ghost predicate Blocked(s: State, i: nat) {
    && i < |s.senders|
    && (|| (s.senders[i].SWantSlot? && s.freeSlots == 0)
        || (s.senders[i].SWantCredit? && s.senders[i].dest < |s.ranks| && s.ranks[s.senders[i].dest].procFree == 0))
  }

  lemma WaitingStateCounts(s: State)
    requires Inv(s) && AllWaiting(s) && NoneFailed(s)
    ensures s.freeSlots + Sum(SlotsOfRank, s.ranks) == POOL
    ensures forall r | 0 <= r < |s.ranks| :: s.ranks[r].procFull == |s.ranks[r].queue| == SlotsOfRank(s.ranks[r])
  {
    SumZero(Granted, s.senders);
    SumZero(Unposted, s.ranks);
    SumZero(SlotsOfSender, s.senders);
    PoolSize(s);
    forall r | 0 <= r < |s.ranks| ensures s.ranks[r].procFull == |s.ranks[r].queue| {
      assert Accounts(s.ranks[r], r, s.senders);
      SumZero(UnnotifiedTo(r), s.senders);
    }
  }

  /** A sender that holds a place in the ring of d and has got no slot yet. */
  lemma {:induction false} CreditMeansWaitingForSlot(senders: seq<Sender>, d: nat) returns (i: nat)
    requires forall j | 0 <= j < |senders| :: senders[j].SIdle? || senders[j].SWantCredit? || senders[j].SWantSlot?
    requires Sum(CreditTo(d), senders) > 0
    ensures i < |senders| && senders[i].SWantSlot?
  {
    i := SumWitness(CreditTo(d), senders);
  }

  /** If nothing can move but waits on counting semaphores, no receive has ever
      failed and some sender's semaphore is zero, then either another sender can
      go on or some process has an unread message that it is free to receive. */
  lemma NoCapacityDeadlock(n: nat, agents: nat, trace: seq<State>, steps: seq<Step>, m: nat, i: nat)
    requires Run(n, agents, trace, steps) && m < |trace|
    requires AllWaiting(trace[m]) && NoneFailed(trace[m]) && Blocked(trace[m], i)
    ensures var s := trace[m];
      && s.freeSlots + Sum(SlotsOfRank, s.ranks) == POOL
      && (s.senders[i].SWantSlot? ==> exists r :: 0 <= r < |s.ranks| && s.ranks[r].procFull > 0)
      && ((exists r :: 0 <= r < |s.ranks| && s.ranks[r].procFull > 0) ||
          (s.freeSlots > 0 && exists j :: 0 <= j < |s.senders| && s.senders[j].SWantSlot?))
  {
    RunKeepsInv(n, agents, trace, steps, m);
    var s := trace[m];
    WaitingStateCounts(s);
    if s.freeSlots == 0 {
      var r := SumWitness(SlotsOfRank, s.ranks);
      assert s.ranks[r].procFull > 0;
    } else {
      var d := s.senders[i].dest;
      assert Accounts(s.ranks[d], d, s.senders);
      if s.ranks[d].procFull == 0 {
        var j := CreditMeansWaitingForSlot(s.senders, d);
        assert s.senders[j].SWantSlot?;
      }
    }
  }

  /** What a failed receive costs: its place in the ring and its slot's post are
      never given back. Sixteen of them close the ring for good. */
  lemma FailedReceivesCloseTheRing(n: nat, agents: nat, trace: seq<State>, steps: seq<Step>, m: nat, r: nat)
    requires Run(n, agents, trace, steps) && m < |trace| && r < |trace[m].ranks|
    ensures trace[m].ranks[r].failed <= CELLS
    ensures trace[m].ranks[r].procFree <= CELLS - trace[m].ranks[r].failed
    ensures trace[m].ranks[r].failed == CELLS ==>
      forall k | m <= k < |trace| ::
        && r < |trace[k].ranks| && trace[k].ranks[r].procFree == 0 && trace[k].ranks[r].queue == []
        && trace[k].ranks[r].sent == trace[m].ranks[r].sent
  {
    RunKeepsInv(n, agents, trace, steps, m);
    assert Accounts(trace[m].ranks[r], r, trace[m].senders);
    if trace[m].ranks[r].failed == CELLS {
      forall k | m <= k < |trace|
        ensures r < |trace[k].ranks| && trace[k].ranks[r].procFree == 0 && trace[k].ranks[r].queue == []
        ensures trace[k].ranks[r].sent == trace[m].ranks[r].sent
      {
        ClosedStaysClosed(n, agents, trace, steps, m, r, k);
      }
    }
  }

  lemma ClosedRing(s: State, r: nat)
    requires Inv(s) && r < |s.ranks| && s.ranks[r].failed >= CELLS
    ensures s.ranks[r].failed == CELLS && s.ranks[r].procFree == 0 && s.ranks[r].queue == []
    ensures forall i | 0 <= i < |s.senders| :: CreditTo(r)(s.senders[i]) == 0
  {
    assert Accounts(s.ranks[r], r, s.senders);
    forall i | 0 <= i < |s.senders| ensures CreditTo(r)(s.senders[i]) == 0 {
      SumMember(CreditTo(r), s.senders, i);
    }
  }

  lemma {:induction false} ClosedStaysClosed(n: nat, agents: nat, trace: seq<State>, steps: seq<Step>,
                                                m: nat, r: nat, k: nat)
    requires Run(n, agents, trace, steps) && m <= k < |trace| && r < |trace[m].ranks|
    requires trace[m].ranks[r].failed == CELLS
    ensures r < |trace[k].ranks| && trace[k].ranks[r].failed == CELLS
    ensures trace[k].ranks[r].procFree == 0 && trace[k].ranks[r].queue == []
    ensures trace[k].ranks[r].sent == trace[m].ranks[r].sent
    decreases k
  {
    if k > m {
      ClosedStaysClosed(n, agents, trace, steps, m, r, k - 1);
      RunKeepsInv(n, agents, trace, steps, k - 1);
      assert Next(trace[k - 1], steps[k - 1], trace[k]);
      ClosedStep(trace[k - 1], steps[k - 1], r);
    }
    RunKeepsInv(n, agents, trace, steps, k);
    ClosedRing(trace[k], r);
  }

  lemma ClosedStep(s: State, step: Step, r: nat)
    requires Inv(s) && Enabled(s, step) && r < |s.ranks| && s.ranks[r].failed == CELLS
    ensures var t := Do(s, step);
      r < |t.ranks| && t.ranks[r].failed >= CELLS && t.ranks[r].sent == s.ranks[r].sent
  {
    ClosedRing(s, r);
    match step
    case StartSend(_, _) =>
    case Send(i) =>
      assert CreditTo(r)(s.senders[i]) == 0;
      SendTouches(s, i, r);
    case StartRecv(_, _, _) =>
    case Recv(q) =>
      assert RankOk(s.ranks[q]);
  }

  /** Only a sender that holds a place in the ring of r adds to what r was sent. */
  lemma SendTouches(s: State, i: nat, r: nat)
    requires Shape(s) && Enabled(s, Send(i)) && r < |s.ranks|
    ensures var t := DoSend(s, i);
      && |t.ranks| == |s.ranks|
      && t.ranks[r].failed == s.ranks[r].failed
      && (CreditTo(r)(s.senders[i]) == 0 ==> t.ranks[r].sent == s.ranks[r].sent)
  {
    assert SenderOk(s.senders[i], |s.ranks|);
  }
}
