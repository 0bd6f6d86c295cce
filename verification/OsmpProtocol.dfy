/** OSMP_Send and OSMP_Recv as a step system: every semaphore operation and every
    critical section is one step, and the steps of all processes interleave
    freely. A program counter names the source line that is executed next. */
module OsmpProtocol {
  import opened Folds
  import opened OsmpMemory

  /** A message together with the number of the fill that wrote it into its slot
      and the sending thread; both only serve to tell equal messages apart. */
  datatype Tagged = Tagged(ticket: nat, agent: nat, msg: Message)

  datatype Sender =
    | SIdle
    | SWantCredit(dest: nat, msg: Message)             // line 88
    | SWantSlot(dest: nat, msg: Message)               // line 89
    | SWantShm(dest: nat, msg: Message)                // line 90
    | SInShm(dest: nat, msg: Message)                  // lines 91-93
    | SPopped(dest: nat, msg: Message, slot: int)      // line 94
    | SFill(dest: nat, msg: Message, slot: int)        // lines 98-102
    | SWantRing(dest: nat, filled: Tagged, slot: int)  // line 105
    | SInRing(dest: nat, filled: Tagged, slot: int)    // lines 108-111
    | SEnqueued(dest: nat)                             // line 112
    | SNotify(dest: nat)                               // line 113

  /** `cap` is the product of datatype and count that the receiver passes, and
      `expected` the message its slot carried when the slot was dequeued. The slot
      is read four times outside of any critical section: for the length check
      (line 138), the source (140), the length (141) and the bytes (143). `seen` is
      what the reads so far have found there. */
  datatype Receiver =
    | RIdle
    | RWantFull(cap: int)                              // line 121
    | RDequeue(cap: int)                               // lines 125-128
    | RWantShm(cap: int, slot: int, expected: Tagged)  // line 133
    | RInShm(cap: int, slot: int, expected: Tagged)    // lines 134-135
    | RPushed(cap: int, slot: int, expected: Tagged)   // line 136
    | RCopy(cap: int, slot: int, expected: Tagged, seen: seq<Tagged>)  // lines 138-143
    | RPostSlot                                        // line 150
    | RPostCredit                                      // line 152

  /** One finished receive: `seen` is what its reads of the slot found, one read if
      the length check failed and four if it did not. */
  datatype Outcome = Outcome(expected: Tagged, cap: int, seen: seq<Tagged>) {
    predicate Accepted() {
      |seen| == READS
    }

    /** How many bytes line 143 writes into the caller's buffer. */
    function Copied(): int
      requires Accepted()
    {
      seen[2].msg.len
    }

    /** What the caller finds in its source, its length and its buffer. */
    function Got(): Message
      requires Accepted()
    {
      var bytes := seen[3].msg.payload;
      Message(seen[1].msg.source, Copied(), if 0 <= Copied() <= |bytes| then bytes[..Copied()] else bytes)
    }
  }

  const READS: nat := 4

  /** What a receive finds if the slot holds m all the time. */
  function SameReads(cap: int, m: Tagged): seq<Tagged> {
    if m.msg.len <= cap then [m, m, m, m] else [m]
  }

  /** The record of one process. `queue`, `sent`, `log` and `failed` are history:
      the slots now unread in the ring, every message ever enqueued, every
      outcome of a receive, and the number of receives that ended at line 147. */
  datatype Rank = Rank(
    ring: Ring, procFree: nat, procFull: nat, procMutex: nat, receiver: Receiver,
    queue: seq<int>, sent: seq<Tagged>, log: seq<Outcome>, failed: nat)

  datatype State = State(
    fl: FreeList, msgs: seq<Tagged>, freeSlots: nat, shmMutex: nat,
    senders: seq<Sender>, ranks: seq<Rank>, fills: nat)

  // --------------------------------------------------------------- the program

  /** An int times an unsigned long wraps modulo 2^64. */
  function UlongProduct(datatyp: int, count: int): int {
    (datatyp * count) % 0x1_0000_0000_0000_0000
  }

  const MAX_PAYLOAD: int := 1024

  /** The arguments of OSMP_Send as called by the process `rank`. */
  datatype SendCall = SendCall(rank: int, dest: int, datatyp: int, count: int, buf: Payload) {
    predicate Rejected(size: int) {
      || dest >= size || dest < 0 || dest == rank
      || UlongProduct(datatyp, count) > MAX_PAYLOAD
    }

    /** The caller is one of the processes. */
    predicate ByProcess(size: int) {
      0 <= rank < size
    }

    /** OSMP_Datatype has the values 0..7, count is a C int, and the buffer
        holds what the caller says it holds. */
    ghost predicate Typed() {
      && 0 <= datatyp <= 7 && -0x8000_0000 <= count < 0x8000_0000
      && datatyp * count <= |buf|
    }
  }

  /** The length check accepts exactly the lengths between 0 and the maximum,
      negative counts included. */
  lemma LengthCheck(call: SendCall)
    requires call.Typed()
    ensures UlongProduct(call.datatyp, call.count) > MAX_PAYLOAD
       <==> !(0 <= call.datatyp * call.count <= MAX_PAYLOAD)
  {
    var product := call.datatyp * call.count;
    assert -0x5_0000_0000 <= product < 0x5_0000_0000;
    if product < 0 {
      assert product % 0x1_0000_0000_0000_0000 == product + 0x1_0000_0000_0000_0000;
    }
  }

  datatype Step =
    | StartSend(agent: nat, call: SendCall)
    | Send(agent: nat)
    | StartRecv(rank: nat, datatyp: int, count: int)
    | Recv(rank: nat)

  /** As many bytes as it says, and not too many. */
  predicate Sound(m: Message) {
    0 <= m.len <= MAX_PAYLOAD && |m.payload| == m.len
  }

  ghost predicate SenderOk(p: Sender, n: nat) {
    && (p.SIdle? || p.dest < n)
    && (p.SWantCredit? || p.SWantSlot? || p.SWantShm? || p.SInShm? || p.SPopped? || p.SFill? ==> Sound(p.msg))
    && (p.SWantRing? || p.SInRing? ==> Sound(p.filled.msg))
    && (p.SPopped? || p.SFill? || p.SWantRing? || p.SInRing? ==> 0 <= p.slot < POOL)
  }

  predicate RankOk(rk: Rank) {
    && rk.ring.Valid()
    && (rk.receiver.RDequeue? ==> 0 <= rk.ring.Next() < POOL)
    && (rk.receiver.RWantShm? || rk.receiver.RInShm? || rk.receiver.RPushed? || rk.receiver.RCopy? ==>
          0 <= rk.receiver.slot < POOL)
    && (rk.receiver.RCopy? ==> |rk.receiver.seen| < READS)
    && (rk.receiver.RDequeue? ==> rk.queue != [])
  }

  /** What makes every step well defined. */
  ghost predicate Shape(s: State) {
    && s.fl.Valid()
    && |s.msgs| == POOL
    && (forall i {:trigger SenderOk(s.senders[i], |s.ranks|)} | 0 <= i < |s.senders| ::
      SenderOk(s.senders[i], |s.ranks|))
    && (forall r {:trigger RankOk(s.ranks[r])} | 0 <= r < |s.ranks| :: RankOk(s.ranks[r]))
  }

  ghost predicate Enabled(s: State, step: Step)
    requires Shape(s)
  {
    match step
    case StartSend(i, call) =>
      i < |s.senders| && s.senders[i].SIdle? && call.Typed() && call.ByProcess(|s.ranks|)
    case Send(i) =>
      && i < |s.senders|
      && (assert SenderOk(s.senders[i], |s.ranks|);
          match s.senders[i]
          case SIdle => false
          case SWantCredit(d, _) => s.ranks[d].procFree > 0
          case SWantSlot(_, _) => s.freeSlots > 0
          case SWantShm(_, _) => s.shmMutex > 0
          case SWantRing(d, _, _) => s.ranks[d].procMutex > 0
          case _ => true)
    case StartRecv(r, datatyp, count) =>
      r < |s.ranks| && s.ranks[r].receiver.RIdle?
    case Recv(r) =>
      && r < |s.ranks|
      && (match s.ranks[r].receiver
          case RIdle => false
          case RWantFull(_) => s.ranks[r].procFull > 0
          case RWantShm(_, _, _) => s.shmMutex > 0
          case _ => true)
  }

  ghost function At(s: State, i: nat, p: Sender): State
    requires i < |s.senders|
  {
    s.(senders := s.senders[i := p])
  }

  ghost function AtRank(s: State, r: nat, rk: Rank): State
    requires r < |s.ranks|
  {
    s.(ranks := s.ranks[r := rk])
  }

  // The steps of OSMP_Send.

  ghost function Call(s: State, i: nat, call: SendCall): State
    requires i < |s.senders| && call.Typed()
  {
    if call.Rejected(|s.ranks|) then
      s
    else
      LengthCheck(call);
      var len := call.datatyp * call.count;
      At(s, i, SWantCredit(call.dest, Message(call.rank, len, call.buf[..len])))
  }

  ghost function TakeCredit(s: State, i: nat): State
    requires i < |s.senders| && s.senders[i].SWantCredit? && s.senders[i].dest < |s.ranks|
    requires s.ranks[s.senders[i].dest].procFree > 0
  {
    var p := s.senders[i];
    var rk := s.ranks[p.dest];
    At(AtRank(s, p.dest, rk.(procFree := rk.procFree - 1)), i, SWantSlot(p.dest, p.msg))
  }

  ghost function TakeGrant(s: State, i: nat): State
    requires i < |s.senders| && s.senders[i].SWantSlot? && s.freeSlots > 0
  {
    var p := s.senders[i];
    At(s.(freeSlots := s.freeSlots - 1), i, SWantShm(p.dest, p.msg))
  }

  ghost function LockShm(s: State, i: nat): State
    requires i < |s.senders| && s.senders[i].SWantShm? && s.shmMutex > 0
  {
    var p := s.senders[i];
    At(s.(shmMutex := s.shmMutex - 1), i, SInShm(p.dest, p.msg))
  }

  ghost function PopSlot(s: State, i: nat): State
    requires i < |s.senders| && s.senders[i].SInShm? && s.fl.Valid()
  {
    var p := s.senders[i];
    At(s.(fl := s.fl.Popped()), i, SPopped(p.dest, p.msg, s.fl.head))
  }

  ghost function UnlockShm(s: State, i: nat): State
    requires i < |s.senders| && s.senders[i].SPopped?
  {
    var p := s.senders[i];
    At(s.(shmMutex := s.shmMutex + 1), i, SFill(p.dest, p.msg, p.slot))
  }

  ghost function Fill(s: State, i: nat): State
    requires i < |s.senders| && s.senders[i].SFill? && 0 <= s.senders[i].slot < |s.msgs|
  {
    var p := s.senders[i];
    var filled := Tagged(s.fills, i, p.msg);
    At(s.(msgs := s.msgs[p.slot := filled], fills := s.fills + 1), i, SWantRing(p.dest, filled, p.slot))
  }

  ghost function LockRing(s: State, i: nat): State
    requires i < |s.senders| && s.senders[i].SWantRing? && s.senders[i].dest < |s.ranks|
    requires s.ranks[s.senders[i].dest].procMutex > 0
  {
    var p := s.senders[i];
    var rk := s.ranks[p.dest];
    At(AtRank(s, p.dest, rk.(procMutex := rk.procMutex - 1)), i, SInRing(p.dest, p.filled, p.slot))
  }

  ghost function Enqueue(s: State, i: nat): State
    requires i < |s.senders| && s.senders[i].SInRing? && s.senders[i].dest < |s.ranks|
    requires s.ranks[s.senders[i].dest].ring.Valid()
  {
    var p := s.senders[i];
    var rk := s.ranks[p.dest];
    var after := rk.(ring := rk.ring.AfterPut(p.slot), queue := rk.queue + [p.slot], sent := rk.sent + [p.filled]);
    At(AtRank(s, p.dest, after), i, SEnqueued(p.dest))
  }

  ghost function UnlockRing(s: State, i: nat): State
    requires i < |s.senders| && s.senders[i].SEnqueued? && s.senders[i].dest < |s.ranks|
  {
    var p := s.senders[i];
    var rk := s.ranks[p.dest];
    At(AtRank(s, p.dest, rk.(procMutex := rk.procMutex + 1)), i, SNotify(p.dest))
  }

  ghost function Notify(s: State, i: nat): State
    requires i < |s.senders| && s.senders[i].SNotify? && s.senders[i].dest < |s.ranks|
  {
    var p := s.senders[i];
    var rk := s.ranks[p.dest];
    At(AtRank(s, p.dest, rk.(procFull := rk.procFull + 1)), i, SIdle)
  }

  ghost function DoSend(s: State, i: nat): State
    requires Shape(s) && Enabled(s, Send(i))
  {
    assert SenderOk(s.senders[i], |s.ranks|);
    match s.senders[i]
    case SWantCredit(_, _) => TakeCredit(s, i)
    case SWantSlot(_, _) => TakeGrant(s, i)
    case SWantShm(_, _) => LockShm(s, i)
    case SInShm(_, _) => PopSlot(s, i)
    case SPopped(_, _, _) => UnlockShm(s, i)
    case SFill(_, _, _) => Fill(s, i)
    case SWantRing(_, _, _) => LockRing(s, i)
    case SInRing(_, _, _) =>
      assert RankOk(s.ranks[s.senders[i].dest]);
      Enqueue(s, i)
    case SEnqueued(_) => UnlockRing(s, i)
    case SNotify(_) => Notify(s, i)
  }

  // The steps of OSMP_Recv. Only rank r's own record and the globals change.

  function AwaitFull(rk: Rank): Rank
    requires rk.receiver.RWantFull? && rk.procFull > 0
  {
    rk.(procFull := rk.procFull - 1, receiver := RDequeue(rk.receiver.cap))
  }

  function Dequeue(rk: Rank, msgs: seq<Tagged>): Rank
    requires rk.receiver.RDequeue? && RankOk(rk) && |msgs| == POOL
  {
    var k := rk.ring.Next();
    rk.(ring := rk.ring.AfterTake(), queue := rk.queue[1..], receiver := RWantShm(rk.receiver.cap, k, msgs[k]))
  }

  /** One read of the slot; the first one is the length check. */
  function CopyOut(rk: Rank, msgs: seq<Tagged>): Rank
    requires rk.receiver.RCopy? && RankOk(rk) && |msgs| == POOL
  {
    var rv := rk.receiver;
    var seen := rv.seen + [msgs[rv.slot]];
    var outcome := Outcome(rv.expected, rv.cap, seen);
    if |seen| == 1 && seen[0].msg.len > rv.cap then
      rk.(receiver := RIdle, log := rk.log + [outcome], failed := rk.failed + 1)
    else if |seen| < READS then
      rk.(receiver := RCopy(rv.cap, rv.slot, rv.expected, seen))
    else
      rk.(receiver := RPostSlot, log := rk.log + [outcome])
  }

  ghost function DoRecv(s: State, r: nat): State
    requires Shape(s) && Enabled(s, Recv(r))
  {
    var rk := s.ranks[r];
    assert RankOk(rk);
    match rk.receiver
    case RWantFull(_) => AtRank(s, r, AwaitFull(rk))
    case RDequeue(_) => AtRank(s, r, Dequeue(rk, s.msgs))
    case RWantShm(cap, k, t) => AtRank(s.(shmMutex := s.shmMutex - 1), r, rk.(receiver := RInShm(cap, k, t)))
    case RInShm(cap, k, t) => AtRank(s.(fl := s.fl.Pushed(k)), r, rk.(receiver := RPushed(cap, k, t)))
    case RPushed(cap, k, t) => AtRank(s.(shmMutex := s.shmMutex + 1), r, rk.(receiver := RCopy(cap, k, t, [])))
    case RCopy(_, _, _, _) => AtRank(s, r, CopyOut(rk, s.msgs))
    case RPostSlot => AtRank(s.(freeSlots := s.freeSlots + 1), r, rk.(receiver := RPostCredit))
    case RPostCredit => AtRank(s, r, rk.(procFree := rk.procFree + 1, receiver := RIdle))
  }

  ghost function Do(s: State, step: Step): State
    requires Shape(s) && Enabled(s, step)
  {
    match step
    case StartSend(i, call) => Call(s, i, call)
    case Send(i) => DoSend(s, i)
    case StartRecv(r, datatyp, count) =>
      AtRank(s, r, s.ranks[r].(receiver := RWantFull(UlongProduct(datatyp, count))))
    case Recv(r) => DoRecv(s, r)
  }

  ghost predicate Next(s: State, step: Step, t: State) {
    Shape(s) && Enabled(s, step) && t == Do(s, step)
  }

  /** The memory as initMemory and initChild leave it, with all threads idle. */
  ghost function Init(n: nat, agents: nat): State {
    State(
      InitialList(), seq(POOL, _ => Tagged(0, 0, Message(0, 0, []))), POOL, 1,
      seq(agents, _ => SIdle),
      seq(n, _ => Rank(Ring(seq(CELLS, _ => 0), 0, 0), CELLS, 0, 1, RIdle, [], [], [], 0)), 1)
  }

  /** OSMP_Send refuses a call exactly if the receiver does not exist or is the caller, or
      if the length is negative or over the maximum; it then changes nothing at all. Any
      other call goes on with its message, cut to its length. */
  lemma RefusedExactly(s: State, i: nat, call: SendCall)
    requires Shape(s) && Enabled(s, StartSend(i, call))
    ensures var t, len := Do(s, StartSend(i, call)), call.datatyp * call.count;
      if 0 <= call.dest < |s.ranks| && call.dest != call.rank && 0 <= len <= 1024
      then t == s.(senders := s.senders[i := SWantCredit(call.dest, Message(call.rank, len, call.buf[..len]))])
      else t == s
  {
    LengthCheck(call);
  }

  // ---------------------------------------------------------------- accounting

  /** Holds a grant of free_slots that it has not yet turned into a slot. */
  function Granted(p: Sender): nat {
    if p.SWantShm? || p.SInShm? then 1 else 0
  }

  function SenderInShm(p: Sender): nat {
    if p.SInShm? || p.SPopped? then 1 else 0
  }

  /** The slot a sender owns between taking it and enqueueing it. */
  function SenderSlot(p: Sender): multiset<int> {
    if p.SPopped? || p.SFill? || p.SWantRing? || p.SInRing? then multiset{p.slot} else multiset{}
  }

  /** Holds one of the 16 places in the ring of d without having used it. */
  function CreditTo(d: nat): Sender -> nat {
    (p: Sender) =>
      if !p.SIdle? && !p.SWantCredit? && !p.SEnqueued? && !p.SNotify? && p.dest == d then 1 else 0
  }

  /** Has enqueued a message for d that proc_full does not count yet. */
  function UnnotifiedTo(d: nat): Sender -> nat {
    (p: Sender) => if (p.SEnqueued? || p.SNotify?) && p.dest == d then 1 else 0
  }

  function SenderInRing(d: nat): Sender -> nat {
    (p: Sender) => if (p.SInRing? || p.SEnqueued?) && p.dest == d then 1 else 0
  }

  function RankInShm(rk: Rank): nat {
    if rk.receiver.RInShm? || rk.receiver.RPushed? then 1 else 0
  }

  /** Slots that rk put back on the list without posting free_slots. */
  function Unposted(rk: Rank): nat {
    rk.failed + if rk.receiver.RPushed? || rk.receiver.RCopy? || rk.receiver.RPostSlot? then 1 else 0
  }

  /** The slots rk owns: unread ones and the one dequeued but not yet pushed. */
  function RankSlots(rk: Rank): multiset<int> {
    multiset(rk.queue) + ReceiverSlot(rk.receiver)
  }

  function ReceiverSlot(rv: Receiver): multiset<int> {
    if rv.RWantShm? || rv.RInShm? then multiset{rv.slot} else multiset{}
  }

  /** A receive of rk that has dequeued but not posted proc_free. */
  function Unreturned(rk: Rank): nat {
    if rk.receiver.RIdle? || rk.receiver.RWantFull? || rk.receiver.RDequeue? then 0 else 1
  }

  /** The length of the free list, read off the semaphore and the counters. */
  ghost function FreeCount(s: State): nat {
    s.freeSlots + Sum(Granted, s.senders) + Sum(Unposted, s.ranks)
  }

  ghost function FreeWalk(s: State): seq<int>
    requires s.fl.Valid()
  {
    Walk(s.fl.next, s.fl.head, FreeCount(s))
  }

  // ----------------------------------------------------------------- invariants

  ghost predicate ShmExclusive(s: State) {
    s.shmMutex + Sum(SenderInShm, s.senders) + Sum(RankInShm, s.ranks) == 1
  }

  /** How often slot k is free, with a sender, unread or with a receiver. */
  ghost function Owners(s: State, k: int): nat
    requires s.fl.Valid()
  {
    multiset(FreeWalk(s))[k] + Bag(SenderSlot, s.senders)[k] + Bag(RankSlots, s.ranks)[k]
  }

  /** Every pool slot is in exactly one of these places, exactly once. */
  ghost predicate Partition(s: State)
    requires s.fl.Valid()
  {
    forall k :: Owners(s, k) == if 0 <= k < POOL then 1 else 0
  }

  /** The three semaphores of one process against its ring. */
  ghost predicate Accounts(rk: Rank, d: nat, senders: seq<Sender>) {
    && CELLS == rk.procFree + Sum(CreditTo(d), senders) + |rk.queue| + Unreturned(rk) + rk.failed
    && |rk.queue| == rk.procFull + Sum(UnnotifiedTo(d), senders) + (if rk.receiver.RDequeue? then 1 else 0)
    && 1 == rk.procMutex + Sum(SenderInRing(d), senders)
  }

  /** A dequeued message that has not been copied out. */
  predicate Pending(rv: Receiver) {
    rv.RWantShm? || rv.RInShm? || rv.RPushed? || rv.RCopy?
  }

  ghost predicate Ordered(sent: seq<Tagged>, fills: nat) {
    && (forall j | 0 <= j < |sent| :: sent[j].ticket < fills && Sound(sent[j].msg))
    && (forall j, k | 0 <= j < k < |sent| && sent[j].agent == sent[k].agent :: sent[j].ticket < sent[k].ticket)
  }

  /** The log is the record of the messages sent, in order, as far as received. */
  ghost predicate LogFollowsSent(rk: Rank) {
    && |rk.sent| == |rk.log| + |rk.queue| + (if Pending(rk.receiver) then 1 else 0)
    && (forall j | 0 <= j < |rk.log| :: rk.log[j].expected == rk.sent[j])
    && (Pending(rk.receiver) ==> rk.receiver.expected == rk.sent[|rk.log|])
    && (forall j | 0 <= j < |rk.log| :: OutcomeOk(rk.log[j]))
    && rk.failed == Sum(Rejections, rk.log)
  }

  function Rejections(o: Outcome): nat {
    if o.Accepted() then 0 else 1
  }

  /** Once a read has found something newer than e, so have all later ones. */
  ghost predicate Reads(seen: seq<Tagged>, e: Tagged) {
    && (forall j | 0 <= j < |seen| :: seen[j] == e || seen[j].ticket > e.ticket)
    && (forall i, j | 0 <= i < j < |seen| && seen[j] == e :: seen[i] == e)
  }

  ghost predicate OutcomeOk(o: Outcome) {
    && o.seen != [] && (|o.seen| == 1 || o.Accepted())
    && (o.Accepted() <==> o.seen[0].msg.len <= o.cap)
    && Reads(o.seen, o.expected)
  }

  ghost predicate RankInv(rk: Rank, fills: nat) {
    && RankOk(rk)
    && Holds(rk.ring, rk.queue)
    && Ordered(rk.sent, fills)
    && LogFollowsSent(rk)
  }

  /** What the slots of rk contain. */
  ghost predicate RankContents(rk: Rank, msgs: seq<Tagged>)
    requires |msgs| == POOL
  {
    && (forall j | 0 <= j < |rk.queue| ::
          0 <= rk.queue[j] < POOL && |rk.queue| <= |rk.sent|
          && msgs[rk.queue[j]] == rk.sent[|rk.sent| - |rk.queue| + j])
    && (rk.receiver.RWantShm? || rk.receiver.RInShm? ==>
          0 <= rk.receiver.slot < POOL && msgs[rk.receiver.slot] == rk.receiver.expected)
    && (rk.receiver.RPushed? || rk.receiver.RCopy? ==>
          && 0 <= rk.receiver.slot < POOL
          && (msgs[rk.receiver.slot] == rk.receiver.expected
              || msgs[rk.receiver.slot].ticket > rk.receiver.expected.ticket))
    && (rk.receiver.RCopy? ==>
          && Reads(rk.receiver.seen + [msgs[rk.receiver.slot]], rk.receiver.expected)
          && (rk.receiver.seen != [] ==> rk.receiver.seen[0].msg.len <= rk.receiver.cap))
  }

  /** The agent that filled `filled` has sent nothing newer. */
  ghost predicate Newest(sent: seq<Tagged>, filled: Tagged) {
    forall j | 0 <= j < |sent| && sent[j].agent == filled.agent :: sent[j].ticket < filled.ticket
  }

  /** A filled message is in its slot and is the newest one of its agent. */
  ghost predicate SenderContents(p: Sender, i: nat, s: State)
    requires |s.msgs| == POOL
  {
    (p.SWantRing? || p.SInRing?) ==>
      && 0 <= p.slot < POOL
      && s.msgs[p.slot] == p.filled
      && p.filled.agent == i
      && p.filled.ticket < s.fills
      && forall r {:trigger Newest(s.ranks[r].sent, p.filled)} | 0 <= r < |s.ranks| ::
           Newest(s.ranks[r].sent, p.filled)
  }

  ghost predicate Counts(s: State)
    requires s.fl.Valid()
  {
    && ShmExclusive(s)
    && Partition(s)
    && forall r {:trigger Accounts(s.ranks[r], r, s.senders)} | 0 <= r < |s.ranks| :: Accounts(s.ranks[r], r, s.senders)
  }

  ghost predicate RankData(rk: Rank, msgs: seq<Tagged>, fills: nat)
    requires |msgs| == POOL
  {
    RankInv(rk, fills) && RankContents(rk, msgs)
  }

  ghost predicate Data(s: State)
    requires |s.msgs| == POOL
  {
    && (forall r {:trigger RankData(s.ranks[r], s.msgs, s.fills)} | 0 <= r < |s.ranks| ::
          RankData(s.ranks[r], s.msgs, s.fills))
    && (forall i {:trigger SenderContents(s.senders[i], i, s)} | 0 <= i < |s.senders| ::
          SenderContents(s.senders[i], i, s))
  }

  ghost predicate Inv(s: State) {
    Shape(s) && Counts(s) && Data(s)
  }
}
