/** What failed receives cost. Each takes a place of its process's ring and a slot of
    the pool out of circulation for good (lines 145-148). */
module OsmpCapacity {
  import opened Folds
  import opened OsmpMemory
  import opened OsmpProtocol
  import opened OsmpInvariant
  import opened OsmpTheorems
  import opened OsmpAlone

  function Failures(rk: Rank): nat {
    rk.failed
  }

  /** All places of r's ring are lost, or all slots of the pool. */
  ghost predicate Starved(s: State, r: nat) {
    r < |s.ranks| && (s.ranks[r].failed >= CELLS || Sum(Failures, s.ranks) >= POOL)
  }

  lemma {:induction false} SumGrows<T>(f: T -> nat, s: seq<T>, t: seq<T>)
    requires |s| == |t| && forall i | 0 <= i < |s| :: f(s[i]) <= f(t[i])
    ensures Sum(f, s) <= Sum(f, t)
  {
    if s != [] {
      SumGrows(f, s[1..], t[1..]);
    }
  }

  /** With 255 failures nothing of the pool is left: no grant, no slot in flight and no
      unread message anywhere. */
  lemma DeadPool(s: State)
    requires Inv(s) && Sum(Failures, s.ranks) >= POOL
    ensures Sum(Failures, s.ranks) == POOL && s.freeSlots == 0
    ensures forall i | 0 <= i < |s.senders| :: Granted(s.senders[i]) == 0 == SlotsOfSender(s.senders[i])
    ensures forall r | 0 <= r < |s.ranks| ::
      SlotsOfRank(s.ranks[r]) == 0 && s.ranks[r].queue == [] && Unposted(s.ranks[r]) == s.ranks[r].failed
  {
    PoolSize(s);
    UnpostedAndFailed(s.ranks);
    forall i | 0 <= i < |s.senders| ensures Granted(s.senders[i]) == 0 == SlotsOfSender(s.senders[i]) {
      SumMember(Granted, s.senders, i);
      SumMember(SlotsOfSender, s.senders, i);
    }
    forall r | 0 <= r < |s.ranks| ensures SlotsOfRank(s.ranks[r]) == 0 && Unposted(s.ranks[r]) == s.ranks[r].failed {
      SumMember(SlotsOfRank, s.ranks, r);
      SumMember(InGiveBack, s.ranks, r);
    }
  }

  /** Has put its slot back and not yet posted free_slots. */
  function InGiveBack(rk: Rank): nat {
    Unposted(rk) - rk.failed
  }

  lemma {:induction false} UnpostedAndFailed(ranks: seq<Rank>)
    ensures Sum(Unposted, ranks) == Sum(Failures, ranks) + Sum(InGiveBack, ranks)
  {
    if ranks != [] {
      UnpostedAndFailed(ranks[1..]);
    }
  }

  lemma FailuresStay(s: State, step: Step)
    requires Inv(s) && Enabled(s, step)
    ensures |Do(s, step).ranks| == |s.ranks|
    ensures forall r | 0 <= r < |s.ranks| :: s.ranks[r].failed <= Do(s, step).ranks[r].failed
    ensures Sum(Failures, s.ranks) <= Sum(Failures, Do(s, step).ranks)
  {
    match step {
      case StartSend(_, _) =>
      case Send(i) => assert SenderOk(s.senders[i], |s.ranks|);
      case StartRecv(_, _, _) =>
      case Recv(q) => assert RankOk(s.ranks[q]);
    }
    SumGrows(Failures, s.ranks, Do(s, step).ranks);
  }

  lemma StarvedStep(s: State, step: Step, r: nat)
    requires Inv(s) && Enabled(s, step) && Starved(s, r)
    ensures Starved(Do(s, step), r) && Do(s, step).ranks[r].sent == s.ranks[r].sent
  {
    FailuresStay(s, step);
    if s.ranks[r].failed >= CELLS {
      ClosedRing(s, r);
      ClosedStep(s, step, r);
    } else {
      DeadPool(s);
      match step
      case StartSend(_, _) =>
      case Send(i) => assert SenderOk(s.senders[i], |s.ranks|) && SlotsOfSender(s.senders[i]) == 0;
      case StartRecv(_, _, _) =>
      case Recv(q) => assert RankOk(s.ranks[q]);
    }
  }

  lemma {:induction false} StarvedPath(s: State, p: seq<Step>, t: State, r: nat)
    requires Inv(s) && Starved(s, r) && Path(s, p, t)
    ensures Starved(t, r) && t.ranks[r].sent == s.ranks[r].sent
    decreases |p|
  {
    if p != [] {
      KeepStep(s, p[0]);
      StarvedStep(s, p[0], r);
      StarvedPath(Do(s, p[0]), p[1..], t, r);
    }
  }

  // -------------------------------------------------- when nothing is on the way

  /** Every thread is idle and every message has been received. */
  ghost predicate Quiet(s: State) {
    && (forall i | 0 <= i < |s.senders| :: s.senders[i].SIdle?)
    && (forall r | 0 <= r < |s.ranks| :: s.ranks[r].receiver.RIdle? && s.ranks[r].queue == [])
  }

  lemma QuietCounts(s: State)
    requires Inv(s) && Quiet(s)
    ensures s.freeSlots + Sum(Failures, s.ranks) == POOL && s.shmMutex == 1
    ensures forall r | 0 <= r < |s.ranks| ::
      s.ranks[r].procFree + s.ranks[r].failed == CELLS && s.ranks[r].procMutex == 1
  {
    PoolSize(s);
    UnpostedAndFailed(s.ranks);
    SumZero(Granted, s.senders);
    SumZero(SlotsOfSender, s.senders);
    SumZero(SlotsOfRank, s.ranks);
    SumZero(InGiveBack, s.ranks);
    SumZero(SenderInShm, s.senders);
    SumZero(RankInShm, s.ranks);
    forall r | 0 <= r < |s.ranks|
      ensures s.ranks[r].procFree + s.ranks[r].failed == CELLS && s.ranks[r].procMutex == 1
    {
      assert Accounts(s.ranks[r], r, s.senders);
      SumZero(CreditTo(r), s.senders);
      SumZero(SenderInRing(r), s.senders);
    }
  }

  /** From s, some course of events adds a message to what r was sent. */
  ghost predicate CanBeSentTo(s: State, r: nat) {
    exists p, t :: Path(s, p, t) && r < |s.ranks| == |t.ranks| && |t.ranks[r].sent| > |s.ranks[r].sent|
  }

  lemma SentGrows(s: State, p: seq<Step>, t: State, r: nat)
    requires Path(s, p, t) && r < |s.ranks| == |t.ranks| && |t.ranks[r].sent| > |s.ranks[r].sent|
    ensures CanBeSentTo(s, r)
  {
  }

  /** In any reachable state with nothing on the way, a message for r can still be sent
      if and only if fewer than 16 receives of r and fewer than 255 receives of all
      processes have failed; and then any valid call of OSMP_Send for r can complete. */
  lemma SendCompletesExactly(n: nat, agents: nat, trace: seq<State>, steps: seq<Step>, m: nat,
                             i: nat, call: SendCall) returns (p: seq<Step>, t: State)
    requires Run(n, agents, trace, steps) && m < |trace| && Quiet(trace[m])
    requires i < |trace[m].senders| && call.Typed()
    requires call.ByProcess(|trace[m].ranks|) && !call.Rejected(|trace[m].ranks|)
    ensures var s, r := trace[m], call.dest;
      && (CanBeSentTo(s, r) <==> s.ranks[r].failed < CELLS && Sum(Failures, s.ranks) < POOL)
      && (CanBeSentTo(s, r) ==>
            && 0 <= call.datatyp * call.count <= |call.buf| && Path(s, p, t) && r < |t.ranks|
            && i < |t.senders| && t.senders[i].SIdle?
            && t.ranks[r].sent == s.ranks[r].sent + [Tagged(s.fills, i, MessageOf(call))])
  {
    RunKeepsInv(n, agents, trace, steps, m);
    var s, r := trace[m], call.dest;
    QuietCounts(s);
    p, t := [], s;
    if Starved(s, r) {
      forall q, u | Path(s, q, u) && r < |u.ranks| ensures |u.ranks[r].sent| <= |s.ranks[r].sent| {
        StarvedPath(s, q, u, r);
      }
    } else {
      p, t := SendAlone(s, i, call);
      SentGrows(s, p, t, r);
    }
  }
}
