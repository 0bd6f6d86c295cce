/** A read session: tftp_handle_read of the server against getCommand of the
    client, over a network that may lose, repeat and reorder every packet. */
module TftpRead {
  import opened Basics
  import opened Tftp

  /** Wire packets; block numbers are below 2^16. An ERROR packet has its code where
      the others have their block. */
  datatype Packet = Data(block: nat, bytes: File) | Ack(block: nat) | Error(block: nat)

  // -------------------------------------------------------------- the server

  datatype ServerStatus = Open | TornDown | GivenUp

  /** connector, as set up for a read request. `pos` is the file position. */
  datatype Server = Server(status: ServerStatus, file: File, pos: nat, block: nat, lastRead: nat, sizeInBlocks: nat,
                           retransmits: nat)

  /** MAX_TIMEOUTS of the server. */
  const MAX_TIMEOUTS: nat := 3

  /** tftp_send_data. Block 0 asks fseek for a negative offset; fseek then fails
      and leaves the position where it is. */
  function SendData(c: Server): (Server, Packet) {
    var at := if c.block == 0 then c.pos else (c.block - 1) * BLOCK;
    var bytes := ReadAt(c.file, at);
    (c.(pos := at + |bytes|, lastRead := |bytes|), Data(c.block, bytes))
  }

  /** tftp_connection_init for a read request, and its first packet. */
  function OpenRead(file: File): (Server, Packet) {
    SendData(Server(Open, file, 0, 1, 0, (|file| + BLOCK - 1) / BLOCK, 0))
  }

  /** tftp_handle_read. */
  function OnAck(c: Server, ack: nat): (Server, Option<Packet>) {
    if ack >= c.sizeInBlocks && c.lastRead < BLOCK then
      (c.(status := TornDown), None)
    else
      var (next, packet) := SendData(c.(block := (ack + 1) % WIRE, retransmits := 0));
      (next, Some(packet))
  }

  /** timeout_handling of a read session. */
  function OnServerTimeout(c: Server): (Server, Option<Packet>) {
    if c.retransmits >= MAX_TIMEOUTS then
      (c.(status := GivenUp), None)
    else
      var (next, packet) := SendData(c.(retransmits := c.retransmits + 1));
      (next, Some(packet))
  }

  // -------------------------------------------------------------- the client

  datatype Status = Running | Done | GaveUp

  /** tftpSession of a get command. `resend` is what timeout() sends again, if it
      is an acknowledgement and not the request. */
  datatype Client = Client(status: Status, file: File, block: nat, timeouts: nat, resend: Option<Packet>)

  /** MAXTIMEOUTS of the client. */
  const MAXTIMEOUTS: nat := 3

  function OpenGet(): Client {
    Client(Running, [], 0, 0, None)
  }

  /** getCommand for a DATA packet. */
  function OnData(c: Client, block: nat, bytes: File): (Client, Option<Packet>) {
    if block != c.block + 1 then
      (c, None)
    else
      var ack := Ack((c.block + 1) % WIRE);
      var after := if bytes == [] then c
        else c.(file := c.file + bytes, block := c.block + 1, timeouts := 0, resend := Some(ack));
      (if |bytes| < BLOCK then after.(status := Done) else after, if bytes == [] then None else Some(ack))
  }

  /** timeout(): the last packet once more and, when the client gives up, an ERROR
      packet with code 0. */
  function OnClientTimeout(c: Client): (Client, Option<Packet>, Option<Packet>) {
    var giveUp := c.timeouts > MAXTIMEOUTS;
    (c.(timeouts := c.timeouts + 1, status := if giveUp then GaveUp else c.status), c.resend,
     if giveUp then Some(Error(0)) else None)
  }

  // -------------------------------------------------------------- the network

  /** `net` holds every packet ever sent. Delivering any of them at any time, any
      number of times or never, covers loss, repetition and reordering. */
  datatype State = State(server: Server, client: Client, net: set<Packet>)

  datatype Step = ToServer(p: Packet) | ToClient(p: Packet) | ServerTimeout | ClientTimeout

  function Sent(net: set<Packet>, p: Option<Packet>): set<Packet> {
    match p case None => net case Some(packet) => net + {packet}
  }

  function Init(file: File): State {
    var (server, first) := OpenRead(file);
    State(server, OpenGet(), {first})
  }

  /** The server of a read session does not look at the opcode of what it gets. */
  predicate Enabled(s: State, step: Step) {
    match step
    case ToServer(p) => p in s.net && !p.Data? && s.server.status.Open?
    case ToClient(p) => p in s.net && p.Data? && s.client.status.Running?
    case ServerTimeout => s.server.status.Open?
    case ClientTimeout => s.client.status.Running?
  }

  function Do(s: State, step: Step): State
    requires Enabled(s, step)
  {
    match step
    case ToServer(p) =>
      var (server, out) := OnAck(s.server, p.block);
      State(server, s.client, Sent(s.net, out))
    case ToClient(p) =>
      var (client, out) := OnData(s.client, p.block, p.bytes);
      State(s.server, client, Sent(s.net, out))
    case ServerTimeout =>
      var (server, out) := OnServerTimeout(s.server);
      State(server, s.client, Sent(s.net, out))
    case ClientTimeout =>
      var (client, out, error) := OnClientTimeout(s.client);
      State(s.server, client, Sent(Sent(s.net, out), error))
  }

  // --------------------------------------------------------------- invariants

  ghost predicate ServerInv(c: Server, file: File, acked: nat) {
    && c.file == file && c.block < WIRE
    && c.block <= acked + 1
    && (c.block == 0 ==> acked >= WIRE - 1)
    && c.sizeInBlocks == (|file| + BLOCK - 1) / BLOCK
  }

  /** The server has read the block it is at, unless its number has wrapped. */
  ghost predicate HasRead(c: Server, file: File) {
    c.block > 0 ==>
      c.lastRead == |Chunk(file, c.block)| && (c.lastRead > 0 ==> c.pos == (c.block - 1) * BLOCK + c.lastRead)
  }

  ghost predicate ClientInv(c: Client, file: File) {
    && c.block < WIRE
    && c.file == Prefix(file, c.block)
    && (c.status.Running? ==> c.block < LastBlock(file))
    && (c.block > 0 ==> (c.block - 1) * BLOCK < |file|)
    && (c.status.Done? ==> c.file == file && LastBlock(file) < WIRE)
    && c.resend == (if c.block > 0 then Some(Ack(c.block)) else None)
  }

  /** Block 0 only ever appears after the number has wrapped, and the client never
      waits for it. */
  ghost predicate PacketInv(p: Packet, file: File, acked: nat) {
    match p
    case Ack(b) => 1 <= b <= acked
    case Error(code) => code == 0
    case Data(b, bytes) => b < WIRE && (b > 0 ==> b <= acked + 1 && bytes == Chunk(file, b))
  }

  ghost predicate Inv(s: State, file: File) {
    && ServerInv(s.server, file, s.client.block)
    && HasRead(s.server, file)
    && ClientInv(s.client, file)
    && (forall p | p in s.net :: PacketInv(p, file, s.client.block))
    && (s.server.status.TornDown? ==> s.client.block * BLOCK >= |file|)
  }

  /** A state of some run that transfers `file`. */
  ghost predicate Reachable(file: File, t: State) {
    exists steps :: Path(Init(file), steps, t)
  }

  lemma InitHolds(file: File)
    ensures Inv(Init(file), file)
  {
  }

  lemma KeepOnData(c: Client, file: File, b: nat)
    requires ClientInv(c, file) && c.status.Running? && b < WIRE && b > 0
    ensures var (after, out) := OnData(c, b, Chunk(file, b));
      && ClientInv(after, file)
      && c.block <= after.block
      && (out.Some? ==> PacketInv(out.value, file, after.block))
  {
    if b == c.block + 1 {
      PrefixGrows(file, c.block);
      ShortEndsFile(file, b);
      hide Prefix, Chunk;
      assert Prefix(file, b) == c.file + Chunk(file, b);
    }
  }

  /** Whatever block the server is at, it sends that one. */
  lemma KeepSendData(c: Server, file: File, acked: nat)
    requires ServerInv(c, file, acked)
    ensures ServerInv(SendData(c).0, file, acked) && HasRead(SendData(c).0, file)
    ensures PacketInv(SendData(c).1, file, acked)
  {
  }

  lemma KeepToServer(s: State, p: Packet, file: File)
    requires Inv(s, file) && Enabled(s, ToServer(p))
    ensures Inv(Do(s, ToServer(p)), file)
  {
    assert PacketInv(p, file, s.client.block);
    KeepSendData(s.server.(block := (p.block + 1) % WIRE, retransmits := 0), file, s.client.block);
  }

  lemma KeepToClient(s: State, p: Packet, file: File)
    requires Inv(s, file) && Enabled(s, ToClient(p))
    ensures Inv(Do(s, ToClient(p)), file) && s.client.block <= Do(s, ToClient(p)).client.block
  {
    assert PacketInv(p, file, s.client.block);
    if p.block > 0 {
      KeepOnData(s.client, file, p.block);
    }
  }

  lemma KeepStep(s: State, step: Step, file: File)
    requires Inv(s, file) && Enabled(s, step)
    ensures Inv(Do(s, step), file)
    ensures s.client.block <= Do(s, step).client.block
  {
    match step
    case ToServer(p) => KeepToServer(s, p, file);
    case ToClient(p) => KeepToClient(s, p, file);
    case ServerTimeout => KeepSendData(s.server.(retransmits := s.server.retransmits + 1), file, s.client.block);
    case ClientTimeout =>
  }

  // --------------------------------------------------------------------- runs

  /** The steps lead from s to t. */
  ghost predicate Path(s: State, steps: seq<Step>, t: State)
    decreases |steps|
  {
    if steps == [] then s == t else Enabled(s, steps[0]) && Path(Do(s, steps[0]), steps[1..], t)
  }

  lemma {:induction false} PathKeepsInv(s: State, steps: seq<Step>, t: State, file: File)
    requires Inv(s, file) && Path(s, steps, t)
    ensures Inv(t, file) && s.client.block <= t.client.block
    decreases |steps|
  {
    if steps != [] {
      KeepStep(s, steps[0], file);
      PathKeepsInv(Do(s, steps[0]), steps[1..], t, file);
    }
  }

  /** Whatever the network does, the client's file consists of the first blocks of
      the server's, and when the client closes on a short block it has all of it.
      This holds for files of every size. */
  lemma ClientFileIsPrefix(file: File, t: State)
    requires Reachable(file, t)
    ensures t.client.file == Prefix(file, t.client.block)
    ensures t.client.status.Done? ==> t.client.file == file
  {
    ReachableInv(file, t);
  }

  lemma ReachableInv(file: File, t: State)
    requires Reachable(file, t)
    ensures Inv(t, file)
  {
    var steps :| Path(Init(file), steps, t);
    InitHolds(file);
    PathKeepsInv(Init(file), steps, t, file);
  }

  /** Block numbers in the network never run ahead of the client by more than one,
      even though a stale acknowledgement can move the server's block back, and so can
      the client's ERROR packet, which the server takes for an acknowledgement of 0. */
  lemma NumbersStayClose(file: File, t: State)
    requires Reachable(file, t)
    ensures t.server.block <= t.client.block + 1
    ensures forall p | p in t.net && p.Ack? :: 1 <= p.block <= t.client.block
    ensures forall p | p in t.net && p.Error? :: p.block == 0
    ensures forall p | p in t.net && p.Data? :: p.block <= t.client.block + 1
  {
    ReachableInv(file, t);
    forall p | p in t.net ensures PacketInv(p, file, t.client.block) {
    }
  }

  // --------------------------------------------------- which files get through

  lemma {:induction false} PathConcat(s: State, p: seq<Step>, t: State, q: seq<Step>, u: State)
    requires Path(s, p, t) && Path(t, q, u)
    ensures Path(s, p + q, u)
    decreases |p|
  {
    if p == [] {
      assert p + q == q;
    } else {
      assert (p + q)[1..] == p[1..] + q;
      PathConcat(Do(s, p[0]), p[1..], t, q, u);
    }
  }

  lemma PathOne(s: State, step: Step)
    requires Enabled(s, step)
    ensures Path(s, [step], Do(s, step))
  {
    assert Path(Do(s, step), [], Do(s, step));
  }

  /** After k undisturbed exchanges: the server has just sent block k+1 and every
      acknowledgement up to k is still around. */
  ghost predicate Exchanged(s: State, file: File, k: nat) {
    && Inv(s, file) && s.server.status.Open? && s.client.status.Running?
    && s.client.block == k && k + 1 < WIRE
    && s.server.block == k + 1 && s.server.lastRead == |Chunk(file, k + 1)|
    && Data(k + 1, Chunk(file, k + 1)) in s.net
    && forall j | 1 <= j <= k :: Ack(j) in s.net
  }

  lemma ExchangeOnce(s: State, file: File, k: nat) returns (steps: seq<Step>, t: State)
    requires Exchanged(s, file, k) && k + 2 < WIRE && k + 1 < LastBlock(file)
    ensures Path(s, steps, t) && Exchanged(t, file, k + 1)
  {
    var s1 := TakeBlock(s, file, k);
    var a := ToServer(Ack(k + 1));
    t := Do(s1, a);
    KeepStep(s1, a, file);
    var d := ToClient(Data(k + 1, Chunk(file, k + 1)));
    PathOne(s, d);
    PathOne(s1, a);
    PathConcat(s, [d], s1, [a], t);
    steps := [d] + [a];
  }

  /** The client takes a full block. */
  lemma TakeBlock(s: State, file: File, k: nat) returns (t: State)
    requires Exchanged(s, file, k) && k + 1 < LastBlock(file)
    ensures Enabled(s, ToClient(Data(k + 1, Chunk(file, k + 1))))
    ensures t == Do(s, ToClient(Data(k + 1, Chunk(file, k + 1)))) && Inv(t, file) && t.server == s.server
    ensures t.client.status.Running? && t.client.block == k + 1 && t.server.lastRead == BLOCK
    ensures t.net == s.net + {Ack(k + 1)}
  {
    ShortEndsFile(file, k + 1);
    var d := ToClient(Data(k + 1, Chunk(file, k + 1)));
    t := Do(s, d);
    KeepStep(s, d, file);
  }

  lemma {:induction false} ExchangeTo(file: File, k: nat) returns (steps: seq<Step>, t: State)
    requires k + 1 < WIRE && k < LastBlock(file)
    ensures Path(Init(file), steps, t) && Exchanged(t, file, k)
  {
    if k == 0 {
      InitHolds(file);
      steps, t := [], Init(file);
      assert Path(t, [], t);
    } else {
      var before, s := ExchangeTo(file, k - 1);
      var more;
      more, t := ExchangeOnce(s, file, k - 1);
      PathConcat(Init(file), before, s, more, t);
      steps := before + more;
    }
  }

  /** The client can finish a transfer exactly when the number of the first short
      block fits in 16 bits: when the file has fewer than 65535 * 512 bytes. */
  lemma CompletesExactly(file: File)
    ensures |file| < 65535 * BLOCK <==> exists t :: Reachable(file, t) && t.client.status.Done?
  {
    if |file| < 65535 * BLOCK {
      var k := LastBlock(file) - 1;
      var steps, s := ExchangeTo(file, k);
      ShortEndsFile(file, k + 1);
      var d := ToClient(Data(k + 1, Chunk(file, k + 1)));
      PathOne(s, d);
      PathConcat(Init(file), steps, s, [d], Do(s, d));
      assert Reachable(file, Do(s, d)) && Do(s, d).client.status.Done?;
    }
    forall t | Reachable(file, t) && t.client.status.Done? ensures |file| < 65535 * BLOCK {
      ReachableInv(file, t);
    }
  }

  /** The server's 16-bit block number never wraps to 0 exactly when the file has at
      most 65534 * 512 bytes. A longer one has a block 65535 whose acknowledgement,
      after a stale one has made the server send a full block, wraps it. */
  lemma WrapsExactly(file: File)
    ensures |file| <= 65534 * BLOCK <==> forall t | Reachable(file, t) :: t.server.block > 0
  {
    if |file| <= 65534 * BLOCK {
      forall t | Reachable(file, t) ensures t.server.block > 0 {
        var steps :| Path(Init(file), steps, t);
        InitHolds(file);
        PathNeverWraps(Init(file), steps, t, file);
      }
    } else {
      var steps, t := WrapRun(file);
      assert Reachable(file, t) && t.server.block == 0;
    }
  }

  lemma {:induction false} PathNeverWraps(s: State, steps: seq<Step>, t: State, file: File)
    requires Inv(s, file) && Path(s, steps, t) && |file| <= 65534 * BLOCK && s.server.block > 0
    ensures t.server.block > 0
    decreases |steps|
  {
    if steps != [] {
      var step := steps[0];
      if step.ToServer? {
        assert PacketInv(step.p, file, s.client.block);
      }
      KeepStep(s, step, file);
      PathNeverWraps(Do(s, step), steps[1..], t, file);
    }
  }

  lemma WrapRun(file: File) returns (steps: seq<Step>, t: State)
    requires |file| > 65534 * BLOCK
    ensures Path(Init(file), steps, t) && t.server.block == 0
  {
    var s;
    steps, s := ExchangeTo(file, 65534);
    var d := ToClient(Data(65535, Chunk(file, 65535)));
    var s1 := Do(s, d);
    PathOne(s, d);
    PathConcat(Init(file), steps, s, [d], s1);
    steps := steps + [d];
    ShortEndsFile(file, 2);
    var stale := ToServer(Ack(1));
    assert s1.server.sizeInBlocks > 1;
    var s2 := Do(s1, stale);
    PathOne(s1, stale);
    PathConcat(Init(file), steps, s1, [stale], s2);
    steps := steps + [stale];
    assert s2.server.lastRead == BLOCK;
    var last := ToServer(Ack(65535));
    t := Do(s2, last);
    PathOne(s2, last);
    PathConcat(Init(file), steps, s2, [last], t);
    steps := steps + [last];
  }
  // ------------------------------------------------------- how the server's session ends

  /** A server that an acknowledgement has torn down leaves a client with the whole file
      behind; for files of every size. */
  lemma TeardownMeansComplete(file: File, t: State)
    requires Reachable(file, t) && t.server.status.TornDown?
    ensures t.client.file == file
  {
    ReachableInv(file, t);
  }

  /** An acknowledgement tears the session down if and only if the acknowledged blocks are
      the whole file and the server is at a short block. */
  lemma TeardownExactly(file: File, s: State, p: Packet)
    requires Reachable(file, s) && Enabled(s, ToServer(p)) && s.server.block > 0
    ensures Do(s, ToServer(p)).server.status.TornDown?
      <==> Prefix(file, p.block) == file && |Chunk(file, s.server.block)| < BLOCK
  {
    ReachableInv(file, s);
  }

  lemma Extend(s: State, p: seq<Step>, t: State, step: Step)
    requires Path(s, p, t) && Enabled(t, step)
    ensures Path(s, p + [step], Do(t, step))
  {
    PathOne(t, step);
    PathConcat(s, p, t, [step], Do(t, step));
  }

  /** The client has written block k and the server not yet heard of it. */
  lemma WrittenRun(file: File, k: nat) returns (steps: seq<Step>, t: State)
    requires 0 < k < WIRE && (k - 1) * BLOCK < |file|
    ensures Path(Init(file), steps, t) && Inv(t, file) && Ack(k) in t.net
    ensures t.server.status.Open? && t.server.block == k
  {
    var s;
    steps, s := ExchangeTo(file, k - 1);
    var d := ToClient(Data(k, Chunk(file, k)));
    KeepStep(s, d, file);
    Extend(Init(file), steps, s, d);
    steps, t := steps + [d], Do(s, d);
  }

  /** This delivery of an acknowledgement ends the server's session. */
  predicate EndsBy(s: State, b: nat) {
    Enabled(s, ToServer(Ack(b))) && Do(s, ToServer(Ack(b))).server.status.TornDown?
  }

  lemma EndingRun(file: File) returns (s: State, k: nat)
    requires 0 < |file| <= 65535 * BLOCK
    ensures Reachable(file, s) && EndsBy(s, k)
  {
    k := (|file| + BLOCK - 1) / BLOCK;
    var steps;
    steps, s := WrittenRun(file, k);
    var a := ToServer(Ack(k));
    if |file| % BLOCK == 0 {
      Extend(Init(file), steps, s, a);
      PastTheEnd(file, s, k);
      steps, s := steps + [a], Do(s, a);
    }
  }

  /** The server has read the last full block and finds nothing behind it. */
  lemma PastTheEnd(file: File, s: State, k: nat)
    requires Inv(s, file) && s.server.block == k > 0 && |file| == k * BLOCK && s.server.status.Open?
    requires Enabled(s, ToServer(Ack(k)))
    ensures var t := Do(s, ToServer(Ack(k))); t.net >= s.net && t.server.status.Open? && t.server.lastRead == 0
    ensures Do(s, ToServer(Ack(k))).server.sizeInBlocks == k
  {
    assert |Chunk(file, k)| == BLOCK;
  }

  /** An acknowledgement can tear the session down exactly for files that are not empty
      and have at most 65535 * 512 bytes. The client of an empty file never acknowledges
      anything. If the size is a multiple of 512, it takes a second copy of the last
      acknowledgement, because the client does not acknowledge the empty final block. */
  lemma AcknowledgedTeardownExactly(file: File)
    ensures 0 < |file| <= 65535 * BLOCK <==> exists s, b :: Reachable(file, s) && EndsBy(s, b)
  {
    if 0 < |file| <= 65535 * BLOCK {
      var s, k := EndingRun(file);
    }
    forall s, b | Reachable(file, s) && EndsBy(s, b) ensures 0 < |file| <= 65535 * BLOCK {
      ReachableInv(file, s);
      assert PacketInv(Ack(b), file, s.client.block);
    }
  }

  /** The final block of a file is ever acknowledged if and only if it is not empty and
      its number fits in 16 bits. */
  lemma FinalBlockIsAcknowledgedExactly(file: File)
    ensures |file| % BLOCK != 0 && |file| < 65535 * BLOCK
      <==> exists t :: Reachable(file, t) && Ack(LastBlock(file)) in t.net
  {
    if |file| % BLOCK != 0 && |file| < 65535 * BLOCK {
      var steps, t := WrittenRun(file, LastBlock(file));
    }
    forall t | Reachable(file, t) && Ack(LastBlock(file)) in t.net
      ensures |file| % BLOCK != 0 && |file| < 65535 * BLOCK
    {
      ReachableInv(file, t);
      assert PacketInv(Ack(LastBlock(file)), file, t.client.block);
    }
  }
}
