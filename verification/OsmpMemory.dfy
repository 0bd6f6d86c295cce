/** The shared memory of OSMP: the index-linked list of free message slots, the
    message slots themselves and one ring of slot numbers per process. Each
    datatype is the value of a class below it; each method of the classes is one
    critical section of OSMPlib.c or one initialisation routine of OSMPRun.c. */
module OsmpMemory {

  /** OSMP_MAX_SLOTS - 1: slot 255 is reserved for broadcasts. */
  const POOL: nat := 255

  /** OSMP_MAX_MESSAGES_PROC. */
  const CELLS: nat := 16

  type Payload = seq<bv8>

  datatype Message = Message(source: int, len: int, payload: Payload)

  // ---------------------------------------------------------------- free list

  /** `head` is actual_free_slot, `next[k]` is messages[k].next_free_msg_slot. */
  datatype FreeList = FreeList(head: int, next: seq<int>) {
    ghost predicate Valid() {
      && |next| == POOL
      && 0 <= head < POOL
      && forall j | 0 <= j < POOL :: 0 <= next[j] < POOL
    }

    function Popped(): FreeList
      requires Valid()
    {
      FreeList(next[head], next)
    }

    function Pushed(slot: int): FreeList
      requires Valid() && 0 <= slot < POOL
    {
      FreeList(slot, next[slot := head])
    }
  }

  /** The list initMemory leaves behind: a cycle through all the pool's slots. */
  function InitialList(): FreeList {
    FreeList(0, seq(POOL, i => (i + 1) % POOL))
  }

  /** The first k slots met when following the links from `from`. */
  ghost function Walk(next: seq<int>, from: int, k: nat): (w: seq<int>)
    requires FreeList(from, next).Valid()
    ensures |w| == k && forall j | 0 <= j < k :: 0 <= w[j] < POOL
    decreases k
  {
    if k == 0 then [] else [from] + Walk(next, next[from], k - 1)
  }

  /** Each slot on the walk is the link stored in the slot before it. */
  lemma {:induction false} WalkFollowsLinks(next: seq<int>, from: int, k: nat, j: nat)
    requires FreeList(from, next).Valid() && j < k
    ensures Walk(next, from, k)[j] == if j == 0 then from else next[Walk(next, from, k)[j - 1]]
    decreases k
  {
    if j > 0 {
      WalkFollowsLinks(next, next[from], k - 1, j - 1);
    }
  }

  /** Relinking a slot that is not on the walk leaves the walk alone. */
  lemma {:induction false} WalkFrame(next: seq<int>, from: int, k: nat, slot: int, link: int)
    requires FreeList(from, next).Valid()
    requires 0 <= slot < POOL && 0 <= link < POOL
    requires slot !in Walk(next, from, k)
    ensures Walk(next[slot := link], from, k) == Walk(next, from, k)
    decreases k
  {
    if k > 0 {
      assert Walk(next, from, k)[0] == from;
      assert Walk(next, from, k)[1..] == Walk(next, next[from], k - 1);
      WalkFrame(next, next[from], k - 1, slot, link);
    }
  }

  /** A pop takes the first slot of the walk and leaves the rest of it. */
  lemma PopWalk(fl: FreeList, k: nat)
    requires fl.Valid() && k > 0
    ensures fl.Popped().Valid()
    ensures Walk(fl.next, fl.head, k) == [fl.head] + Walk(fl.Popped().next, fl.Popped().head, k - 1)
  {
  }

  /** A push of a slot that is not free puts it in front of the walk. */
  lemma PushWalk(fl: FreeList, k: nat, slot: int)
    requires fl.Valid() && 0 <= slot < POOL
    requires slot !in Walk(fl.next, fl.head, k)
    ensures fl.Pushed(slot).Valid()
    ensures Walk(fl.Pushed(slot).next, fl.Pushed(slot).head, k + 1) == [slot] + Walk(fl.next, fl.head, k)
  {
    WalkFrame(fl.next, fl.head, k, slot, fl.head);
    assert fl.Pushed(slot).next[slot] == fl.head;
  }

  lemma {:induction false} InitialWalk(from: nat, k: nat)
    requires from < POOL && from + k <= POOL
    ensures InitialList().Valid()
    ensures Walk(InitialList().next, from, k) == seq(k, i => from + i)
    decreases k
  {
    if k > 1 {
      InitialWalk(from + 1, k - 1);
      assert Walk(InitialList().next, from, k) == [from] + seq(k - 1, i => from + 1 + i);
    } else if k == 1 {
      assert Walk(InitialList().next, InitialList().next[from], 0) == [];
    }
  }

  // -------------------------------------------------------------------- rings

  /** `read` and `write` are wrapped only when they are next used, so each runs
      through 0..16 rather than 0..15. */
  datatype Ring = Ring(cells: seq<int>, read: int, write: int) {
    predicate Valid() {
      |cells| == CELLS && 0 <= read <= CELLS && 0 <= write <= CELLS
    }

    function AfterPut(slot: int): Ring
      requires Valid()
    {
      var w := write % CELLS;
      Ring(cells[w := slot], read, w + 1)
    }

    function Next(): int
      requires Valid()
    {
      cells[read % CELLS]
    }

    function AfterTake(): Ring
      requires Valid()
    {
      Ring(cells, read % CELLS + 1, write)
    }
  }

  /** The cell j places after the next one to read. */
  function Unread(ring: Ring, j: nat): int
    requires ring.Valid()
  {
    ring.cells[(ring.read + j) % CELLS]
  }

  /** The ring holds exactly the queue `q`, oldest slot first. */
  ghost predicate Holds(ring: Ring, q: seq<int>) {
    && ring.Valid()
    && |q| <= CELLS
    && ring.write % CELLS == (ring.read + |q|) % CELLS
    && forall j | 0 <= j < |q| :: Unread(ring, j) == q[j]
  }

  /** Within one lap, different offsets name different cells. */
  lemma OffsetsDiffer(read: nat, i: nat, j: nat)
    requires i < j < CELLS
    ensures (read + i) % CELLS != (read + j) % CELLS
  {
  }

  lemma PutHolds(ring: Ring, q: seq<int>, slot: int)
    requires Holds(ring, q) && |q| < CELLS
    ensures Holds(ring.AfterPut(slot), q + [slot])
  {
    var after := ring.AfterPut(slot);
    forall j | 0 <= j < |q + [slot]| ensures Unread(after, j) == (q + [slot])[j] {
      if j < |q| {
        OffsetsDiffer(ring.read, j, |q|);
      }
    }
  }

  /** Wrapping the index first makes no difference. */
  lemma WrapFirst(read: nat, j: nat)
    requires read <= CELLS && j < CELLS
    ensures (read % CELLS + 1 + j) % CELLS == (read + 1 + j) % CELLS
  {
  }

  lemma TakeHolds(ring: Ring, q: seq<int>)
    requires Holds(ring, q) && q != []
    ensures ring.Next() == q[0]
    ensures Holds(ring.AfterTake(), q[1..])
  {
    assert Unread(ring, 0) == q[0];
    WrapFirst(ring.read, |q| - 1);
    forall j | 0 <= j < |q[1..]| ensures Unread(ring.AfterTake(), j) == q[1..][j] {
      WrapFirst(ring.read, j);
      assert Unread(ring, j + 1) == q[j + 1];
    }
  }
}
