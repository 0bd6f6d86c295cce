/** A write session: putCommand of the client against tftp_handle_write of the
    server. DATA is a block number and the block's bytes; both programs put only
    the lowest 16 bits of the number on the wire and compare only those. */
module TftpWrite {
  import opened Basics
  import opened Tftp

  /** `number` of DATA is the full block number; its wire value is number % 2^16. */
  datatype Packet = Data(number: nat, bytes: File) | Ack(block: nat) | Error

  /** DATA_MAX + TFTP_HDR_SIZE: a full packet, and the server's receive buffer. */
  const PACKET: nat := 516

  /** sendData sends, and returns, 12 bytes more than a header and the block. */
  function DatagramSize(bytes: File): nat {
    16 + |bytes|
  }

  /** What recv makes of it: at most the buffer. */
  function ReceivedSize(bytes: File): nat {
    Min(DatagramSize(bytes), PACKET)
  }

  /** A block that ends the transfer, as the client sees it. */
  predicate Short(bytes: File) {
    DatagramSize(bytes) < PACKET
  }

  /** The number of the first block with fewer than 500 bytes. */
  function FinalBlock(file: File): nat {
    if |file| % BLOCK < 500 then |file| / BLOCK + 1 else |file| / BLOCK + 2
  }

  lemma FinalIsShort(file: File, n: nat)
    requires n > 0
    ensures Short(Chunk(file, n)) <==> n >= FinalBlock(file)
    ensures n >= FinalBlock(file) ==> Prefix(file, n) == file
    ensures n + 1 < FinalBlock(file) ==> Prefix(file, n) != file
  {
  }

  /** All block numbers, up to the last one, differ in their lowest 16 bits. */
  ghost predicate Fits(file: File) {
    FinalBlock(file) <= WIRE
  }

  lemma FitsExactly(file: File)
    ensures Fits(file) <==> |file| < 65535 * BLOCK + 500
    ensures FinalBlock(file) < WIRE <==> |file| < 65534 * BLOCK + 500
    ensures FinalBlock(file) == 1 <==> |file| < 500
  {
  }

  // -------------------------------------------------------------- the server

  /** Killed: error_handling ends the whole program. */
  datatype ServerStatus = Open | TornDown | GivenUp | Killed

  /** connector, as set up for a write request. `block` is a 16-bit number: the
      block it expects next. `appended` is history: the numbers of the blocks that
      were written to the file. */
  datatype Server = Server(status: ServerStatus, file: File, block: nat, retransmits: nat, appended: seq<nat>)

  const MAX_TIMEOUTS: nat := 3

  /** tftp_connection_init for a write request; it also sends ACK 0. */
  function OpenWrite(): Server {
    Server(Open, [], 1, 0, [])
  }

  /** tftp_handle_write: every block is acknowledged, only the expected one is
      written, and any short one ends the session. */
  function OnData(c: Server, number: nat, bytes: File): (Server, Packet) {
    var w := number % WIRE;
    var after := if c.block == w
                 then c.(file := c.file + bytes, block := (c.block + 1) % WIRE, appended := c.appended + [number])
                 else c;
    (if ReceivedSize(bytes) < PACKET then after.(status := TornDown) else after, Ack(w))
  }

  /** Anything else than DATA is an invalid opcode. */
  function OnPacket(c: Server, p: Packet): (Server, Packet) {
    if p.Data? then OnData(c, p.number, p.bytes) else (c.(status := Killed), Error)
  }

  /** timeout_handling of a write session. It acknowledges the block that the
      server is still waiting for. */
  function OnServerTimeout(c: Server): (Server, Option<Packet>) {
    if c.retransmits >= MAX_TIMEOUTS then
      (c.(status := GivenUp), None)
    else
      (c.(retransmits := c.retransmits + 1), Some(Ack(c.block)))
  }

  // -------------------------------------------------------------- the client

  datatype ClientStatus = Running | Done | GaveUp

  /** tftpSession of a put command. `last` is lastBlockSended, `pos` the position
      in the local file, `resend` what timeout() sends again. */
  datatype Client = Client(status: ClientStatus, file: File, pos: nat, block: nat, last: bool, timeouts: nat,
                           resend: Option<Packet>)

  const MAXTIMEOUTS: nat := 3

  function OpenPut(file: File): Client {
    Client(Running, file, 0, 0, false, 0, None)
  }

  /** putCommand for an ACK packet, and sendData. The client tests what sendData
      returns against 516, which asks for fewer than 500 bytes. */
  function OnAck(c: Client, ack: nat): (Client, Option<Packet>) {
    if ack != c.block then
      (c, None)
    else if c.last then
      (c.(status := Done), None)
    else
      var bytes := ReadAt(c.file, c.pos);
      var packet := Data(c.block + 1, bytes);
      (c.(pos := c.pos + |bytes|, block := c.block + 1, last := Short(bytes), timeouts := 0, resend := Some(packet)),
       Some(packet))
  }

  /** timeout(): the last packet once more and, when the client gives up, ERROR. */
  function OnClientTimeout(c: Client): (Client, Option<Packet>, Option<Packet>) {
    var giveUp := c.timeouts > MAXTIMEOUTS;
    (c.(timeouts := c.timeouts + 1, status := if giveUp then GaveUp else c.status), c.resend,
     if giveUp then Some(Error) else None)
  }

  // -------------------------------------------------------------- the network

  datatype State = State(client: Client, server: Server, net: set<Packet>)

  datatype Step = ToServer(p: Packet) | ToClient(p: Packet) | ServerTimeout | ClientTimeout

  function Sent(net: set<Packet>, p: Option<Packet>): set<Packet> {
    match p case None => net case Some(packet) => net + {packet}
  }

  function Init(file: File): State {
    State(OpenPut(file), OpenWrite(), {Ack(0)})
  }

  predicate Enabled(s: State, step: Step) {
    match step
    case ToServer(p) => p in s.net && !p.Ack? && s.server.status.Open?
    case ToClient(p) => p in s.net && p.Ack? && s.client.status.Running?
    case ServerTimeout => s.server.status.Open?
    case ClientTimeout => s.client.status.Running?
  }

  function Do(s: State, step: Step): State
    requires Enabled(s, step)
  {
    match step
    case ToServer(p) =>
      var (server, out) := OnPacket(s.server, p);
      State(s.client, server, s.net + {out})
    case ToClient(p) =>
      var (client, out) := OnAck(s.client, p.block);
      State(client, s.server, Sent(s.net, out))
    case ServerTimeout =>
      var (server, out) := OnServerTimeout(s.server);
      State(s.client, server, Sent(s.net, out))
    case ClientTimeout =>
      var (client, out, error) := OnClientTimeout(s.client);
      State(client, s.server, Sent(Sent(s.net, out), error))
  }

  ghost predicate Path(s: State, steps: seq<Step>, t: State)
    decreases |steps|
  {
    if steps == [] then s == t else Enabled(s, steps[0]) && Path(Do(s, steps[0]), steps[1..], t)
  }

  ghost predicate Reachable(file: File, t: State) {
    exists steps :: Path(Init(file), steps, t)
  }

  // --------------------------------------------------------------- invariants

  /** How many blocks the server has written. */
  function Written(c: Server): nat {
    |c.appended|
  }

  ghost predicate CountsUp(appended: seq<nat>) {
    forall j | 0 <= j < |appended| :: appended[j] == j + 1
  }

  /** The client's number never gets past 2^16: an acknowledgement carries at most
      2^16 - 1 and the client compares it with its full number. */
  ghost predicate ClientInv(c: Client, file: File) {
    && c.file == file
    && c.block <= WIRE && c.block <= FinalBlock(file)
    && c.pos == Min(c.block * BLOCK, |file|)
    && c.resend == (if c.block > 0 then Some(Data(c.block, Chunk(file, c.block))) else None)
    && (c.last <==> c.block == FinalBlock(file))
    && (c.status.Done? ==> c.last && c.block < WIRE)
  }

  ghost predicate PacketInv(p: Packet, c: Client, file: File) {
    match p
    case Ack(b) => b < WIRE
    case Data(n, bytes) => 1 <= n <= c.block && bytes == Chunk(file, n)
    case Error => c.status.GaveUp?
  }

  /** What the client and the network keep, for files of every size. A server is torn
      down only by a final block and killed only after the client has given up. */
  ghost predicate NetInv(s: State, file: File) {
    && ClientInv(s.client, file)
    && (forall p | p in s.net :: PacketInv(p, s.client, file))
    && s.server.block < WIRE
    && (s.server.status.TornDown? ==> Fits(file))
    && (s.server.status.Killed? ==> s.client.status.GaveUp?)
  }

  ghost predicate ServerInv(c: Server, file: File, sent: nat) {
    && CountsUp(c.appended)
    && Written(c) <= sent
    && c.block == (Written(c) + 1) % WIRE
    && c.file == Prefix(file, Written(c))
    && (c.status.Open? ==> Written(c) < FinalBlock(file))
  }

  ghost predicate Inv(s: State, file: File) {
    NetInv(s, file) && ServerInv(s.server, file, s.client.block)
  }

  lemma KeepNet(s: State, step: Step, file: File)
    requires NetInv(s, file) && Enabled(s, step)
    ensures NetInv(Do(s, step), file)
  {
    match step
    case ToServer(p) =>
      assert PacketInv(p, s.client, file);
      if p.Data? {
        FinalIsShort(file, p.number);
      }
    case ToClient(p) => KeepToClient(s, p, file);
    case ServerTimeout =>
    case ClientTimeout => KeepClientTimeout(s, file);
  }

  lemma KeepToClient(s: State, p: Packet, file: File)
    requires NetInv(s, file) && Enabled(s, ToClient(p))
    ensures NetInv(Do(s, ToClient(p)), file)
  {
    assert PacketInv(p, s.client, file);
    var t := Do(s, ToClient(p));
    if p.block == s.client.block && !s.client.last {
      assert ReadAt(file, s.client.pos) == Chunk(file, s.client.block + 1);
      FinalIsShort(file, s.client.block + 1);
    }
    forall q | q in t.net ensures PacketInv(q, t.client, file) {
      assert q in s.net ==> PacketInv(q, s.client, file);
    }
  }

  lemma KeepClientTimeout(s: State, file: File)
    requires NetInv(s, file) && Enabled(s, ClientTimeout)
    ensures NetInv(Do(s, ClientTimeout), file)
  {
    var t := Do(s, ClientTimeout);
    forall q | q in t.net ensures PacketInv(q, t.client, file) {
      assert q in s.net ==> PacketInv(q, s.client, file);
    }
  }

  /** Block numbers up to 2^16 are told apart by their lowest 16 bits. */
  lemma WireTellsApart(a: nat, b: nat)
    requires 1 <= a <= WIRE && 1 <= b <= WIRE && a % WIRE == b % WIRE
    ensures a == b
  {
  }

  lemma NextWire(n: nat)
    ensures (n % WIRE + 1) % WIRE == (n + 1) % WIRE
  {
  }

  lemma KeepAppend(c: Server, file: File, sent: nat)
    requires ServerInv(c, file, sent) && Written(c) < sent && c.status.Open?
    ensures ServerInv(OnData(c, Written(c) + 1, Chunk(file, Written(c) + 1)).0, file, sent)
    ensures Written(OnData(c, Written(c) + 1, Chunk(file, Written(c) + 1)).0) == Written(c) + 1
  {
    var n := Written(c) + 1;
    NextWire(n);
    FinalIsShort(file, n);
    PrefixGrows(file, n - 1);
  }

  /** An open server that gets block n: it is written if and only if it is next. */
  lemma KeepOnData(c: Server, file: File, n: nat, sent: nat)
    requires ServerInv(c, file, sent) && c.status.Open? && Fits(file)
    requires 1 <= n <= sent <= WIRE
    ensures ServerInv(OnData(c, n, Chunk(file, n)).0, file, sent)
    ensures OnData(c, n, Chunk(file, n)).0.appended == if n == Written(c) + 1 then c.appended + [n] else c.appended
  {
    if c.block == n % WIRE {
      WireTellsApart(Written(c) + 1, n);
      KeepAppend(c, file, sent);
    }
  }

  lemma KeepStep(s: State, step: Step, file: File)
    requires Inv(s, file) && Enabled(s, step) && Fits(file)
    ensures Inv(Do(s, step), file)
  {
    KeepNet(s, step, file);
    if step.ToServer? && step.p.Data? {
      assert PacketInv(step.p, s.client, file);
      KeepOnData(s.server, file, step.p.number, s.client.block);
    }
  }

  lemma {:induction false} PathKeepsNet(s: State, steps: seq<Step>, t: State, file: File)
    requires NetInv(s, file) && Path(s, steps, t)
    ensures NetInv(t, file)
    decreases |steps|
  {
    if steps != [] {
      KeepNet(s, steps[0], file);
      PathKeepsNet(Do(s, steps[0]), steps[1..], t, file);
    }
  }

  lemma {:induction false} PathKeepsInv(s: State, steps: seq<Step>, t: State, file: File)
    requires Inv(s, file) && Path(s, steps, t) && Fits(file)
    ensures Inv(t, file)
    decreases |steps|
  {
    if steps != [] {
      KeepStep(s, steps[0], file);
      PathKeepsInv(Do(s, steps[0]), steps[1..], t, file);
    }
  }

  lemma ReachableNet(file: File, t: State)
    requires Reachable(file, t)
    ensures NetInv(t, file)
  {
    var steps :| Path(Init(file), steps, t);
    PathKeepsNet(Init(file), steps, t, file);
  }

  lemma ReachableInv(file: File, t: State)
    requires Reachable(file, t) && Fits(file)
    ensures Inv(t, file)
  {
    var steps :| Path(Init(file), steps, t);
    PathKeepsInv(Init(file), steps, t, file);
  }

  // ------------------------------------------------------------------- safety

  /** Whatever the network and the timers do, the server writes blocks 1, 2, 3, ...
      each exactly once and in this order, as long as the file has fewer than
      65535 * 512 + 500 bytes. */
  lemma BlocksInOrder(file: File, t: State)
    requires Reachable(file, t) && |file| < 65535 * BLOCK + 500
    ensures CountsUp(t.server.appended)
    ensures t.server.file == Prefix(file, |t.server.appended|)
  {
    FitsExactly(file);
    ReachableInv(file, t);
  }

  /** A short block that ends the session leaves the whole file behind exactly when
      it is the block that the server was waiting for. */
  lemma TeardownExactly(file: File, s: State, p: Packet)
    requires Reachable(file, s) && Enabled(s, ToServer(p)) && p.Data? && Short(p.bytes)
    ensures var t := Do(s, ToServer(p));
      && t.server.status.TornDown?
      && (t.server.file == file <==> s.server.block == p.number % WIRE)
  {
    ReachableNet(file, s);
    assert PacketInv(p, s.client, file);
    FinalIsShort(file, p.number);
    ReachableInv(file, s);
    KeepOnData(s.server, file, p.number, s.client.block);
    var w := Written(s.server);
    if s.server.block == p.number % WIRE {
      WireTellsApart(w + 1, p.number);
    } else if w > 0 {
      FinalIsShort(file, w);
    } else {
      FinalIsNotSecond(file);
    }
  }

  /** A file that takes two blocks is not empty. */
  lemma FinalIsNotSecond(file: File)
    ensures FinalBlock(file) > 1 ==> file != []
  {
  }

  // ---------------------------------------------- sessions without server resends

  /** The server's timer has not fired: nothing is acknowledged before it is
      received. */
  ghost predicate Honest(s: State) {
    && (s.server.status.Open? ==>
          && s.client.block <= Written(s.server) + 1
          && forall p | p in s.net && p.Ack? :: p.block <= Written(s.server) && p.block < WIRE)
    && !s.server.status.GivenUp?
    && (s.server.status.TornDown? ==> s.server.file == s.client.file)
    && (s.client.status.Done? ==> s.server.file == s.client.file)
  }

  lemma HonestToServer(s: State, p: Packet, file: File)
    requires Inv(s, file) && Honest(s) && Enabled(s, ToServer(p)) && Fits(file)
    ensures Honest(Do(s, ToServer(p)))
  {
    assert PacketInv(p, s.client, file);
    if p.Data? {
      KeepOnData(s.server, file, p.number, s.client.block);
      FinalIsShort(file, p.number);
      HonestAck(s, p);
    }
  }

  lemma HonestToClient(s: State, p: Packet, file: File)
    requires Inv(s, file) && Honest(s) && Enabled(s, ToClient(p))
    ensures Honest(Do(s, ToClient(p)))
  {
    if s.client.block > 0 {
      FinalIsShort(file, s.client.block);
    }
  }

  lemma HonestStep(s: State, step: Step, file: File)
    requires Inv(s, file) && Honest(s) && Enabled(s, step) && Fits(file) && !step.ServerTimeout?
    ensures Honest(Do(s, step))
  {
    match step
    case ToServer(p) => HonestToServer(s, p, file);
    case ToClient(p) => HonestToClient(s, p, file);
    case ClientTimeout =>
      forall q | q in Do(s, step).net && q.Ack? ensures q in s.net {
      }
  }

  lemma HonestAck(s: State, p: Packet)
    requires Enabled(s, ToServer(p)) && p.Data? && p.number <= Written(s.server) + 1
    ensures p.number % WIRE <= p.number
    ensures forall q | q in Do(s, ToServer(p)).net :: q in s.net || q == Ack(p.number % WIRE)
  {
  }

  lemma {:induction false} PathStaysHonest(s: State, steps: seq<Step>, t: State, file: File)
    requires Inv(s, file) && Honest(s) && Path(s, steps, t) && Fits(file)
    requires forall k | 0 <= k < |steps| :: !steps[k].ServerTimeout?
    ensures Inv(t, file) && Honest(t)
    decreases |steps|
  {
    if steps != [] {
      HonestStep(s, steps[0], file);
      KeepStep(s, steps[0], file);
      PathStaysHonest(Do(s, steps[0]), steps[1..], t, file);
    }
  }

  lemma {:induction false} PathDoesNotGiveUp(s: State, steps: seq<Step>, t: State)
    requires Path(s, steps, t) && !s.server.status.GivenUp?
    requires forall k | 0 <= k < |steps| :: !steps[k].ServerTimeout?
    ensures !t.server.status.GivenUp?
    decreases |steps|
  {
    if steps != [] {
      PathDoesNotGiveUp(Do(s, steps[0]), steps[1..], t);
    }
  }

  /** While the server's timer does not fire, the session can only be torn down with
      the whole file written, and a client that is done has got it across. This holds
      for files of every size. */
  lemma TeardownMeansComplete(file: File, steps: seq<Step>, t: State)
    requires Path(Init(file), steps, t)
    requires forall k | 0 <= k < |steps| :: !steps[k].ServerTimeout?
    ensures !t.server.status.GivenUp?
    ensures t.server.status.TornDown? ==> t.server.file == file
    ensures t.client.status.Done? ==> t.server.file == file
  {
    PathKeepsNet(Init(file), steps, t, file);
    PathDoesNotGiveUp(Init(file), steps, t);
    if Fits(file) {
      PathStaysHonest(Init(file), steps, t, file);
    }
  }

  // ------------------------------------------------------------- paths to trouble

  lemma {:induction false} PathConcat(s: State, p: seq<Step>, t: State, q: seq<Step>, u: State)
    requires Path(s, p, t) && Path(t, q, u)
    ensures Path(s, p + q, u)
    decreases |p|
  {
    if p == [] {
      assert p + q == q;
    } else {
      assert (p + q)[1..] == p[1..] + q;
      PathConcat(Do(s, p[0]), p[1..], t, q, u);
    }
  }

  lemma Extend(s: State, p: seq<Step>, t: State, step: Step)
    requires Path(s, p, t) && Enabled(t, step)
    ensures Path(s, p + [step], Do(t, step))
  {
    assert Path(Do(t, step), [], Do(t, step));
    PathConcat(s, p, t, [step], Do(t, step));
  }

  /** k blocks, none of them short, have been sent, written and acknowledged. */
  ghost predicate InStep(s: State, file: File, k: nat) {
    && s.client.status.Running? && s.client.file == file && s.client.block == k && !s.client.last
    && s.client.pos == Min(k * BLOCK, |file|)
    && s.server.status.Open? && s.server.block == (k + 1) % WIRE
    && CountsUp(s.server.appended) && |s.server.appended| == k
    && Ack(k % WIRE) in s.net
  }

  ghost predicate Exchanged(s: State, file: File, k: nat) {
    InStep(s, file, k) && (k > 0 ==> Data(1, Chunk(file, 1)) in s.net)
  }

  lemma ExchangeOnce(file: File, s: State, k: nat) returns (a: Step, d: Step)
    requires 0 < k < FinalBlock(file) && k <= WIRE && InStep(s, file, k - 1)
    ensures Enabled(s, a) && Enabled(Do(s, a), d) && InStep(Do(Do(s, a), d), file, k)
    ensures k == 1 || Data(1, Chunk(file, 1)) in s.net ==> Data(1, Chunk(file, 1)) in Do(Do(s, a), d).net
  {
    FinalIsShort(file, k);
    assert ReadAt(file, s.client.pos) == Chunk(file, k);
    a, d := ToClient(Ack(k - 1)), ToServer(Data(k, Chunk(file, k)));
    NextWire(k);
  }

  lemma {:induction false} ExchangeTo(file: File, k: nat) returns (steps: seq<Step>, t: State)
    requires k < FinalBlock(file) && k <= WIRE
    ensures Path(Init(file), steps, t) && Exchanged(t, file, k)
  {
    if k == 0 {
      steps, t := [], Init(file);
    } else {
      steps, t := ExchangeTo(file, k - 1);
      var a, d := ExchangeOnce(file, t, k);
      Extend(Init(file), steps, t, a);
      Extend(Init(file), steps + [a], Do(t, a), d);
      steps, t := steps + [a] + [d], Do(Do(t, a), d);
    }
  }

  /** Blocks are written once each and in order on every run exactly when the file
      has fewer than 65535 * 512 + 500 bytes. In a longer one the server's block number
      comes round to 1 and a late copy of block 1 is written again. */
  lemma InOrderExactly(file: File)
    ensures |file| < 65535 * BLOCK + 500 <==> forall t | Reachable(file, t) :: CountsUp(t.server.appended)
  {
    FitsExactly(file);
    if Fits(file) {
      forall t | Reachable(file, t) ensures CountsUp(t.server.appended) {
        ReachableInv(file, t);
      }
    } else {
      var steps, s := ExchangeTo(file, WIRE);
      var d := ToServer(Data(1, Chunk(file, 1)));
      Extend(Init(file), steps, s, d);
      var t := Do(s, d);
      assert t.server.appended[WIRE] == 1;
      assert Reachable(file, t) && !CountsUp(t.server.appended);
    }
  }

  // ------------------------------------------------------- sessions that complete

  /** From a state in step, everything can be sent and written. */
  lemma {:induction false} CompleteFrom(file: File, s: State, k: nat) returns (steps: seq<Step>, t: State)
    requires InStep(s, file, k) && k < FinalBlock(file) < WIRE
    ensures Path(s, steps, t) && t.client.status.Done? && t.server.status.TornDown?
    ensures |t.server.appended| == FinalBlock(file) && CountsUp(t.server.appended)
    decreases FinalBlock(file) - k
  {
    var a, d;
    if k + 1 < FinalBlock(file) {
      a, d := ExchangeOnce(file, s, k + 1);
      steps, t := CompleteFrom(file, Do(Do(s, a), d), k + 1);
    } else {
      a, d := SendLastBlock(file, s);
      var last := ToClient(Ack(k + 1));
      steps, t := [last], Do(Do(Do(s, a), d), last);
    }
    assert [a, d][1..] == [d] && Path(Do(s, a), [d], Do(Do(s, a), d));
    PathConcat(s, [a, d], Do(Do(s, a), d), steps, t);
    steps := [a, d] + steps;
  }

  lemma SendLastBlock(file: File, s: State) returns (a: Step, d: Step)
    requires FinalBlock(file) < WIRE && InStep(s, file, FinalBlock(file) - 1)
    ensures Enabled(s, a) && Enabled(Do(s, a), d)
    ensures var t := Do(Do(s, a), d); var k := FinalBlock(file);
      && t.client.status.Running? && t.client.last && t.client.block == k && Ack(k) in t.net
      && t.server.status.TornDown? && |t.server.appended| == k && CountsUp(t.server.appended)
  {
    var k := FinalBlock(file);
    FinalIsShort(file, k);
    assert ReadAt(file, s.client.pos) == Chunk(file, k);
    a, d := ToClient(Ack(k - 1)), ToServer(Data(k, Chunk(file, k)));
  }

  lemma CompleteRun(file: File) returns (t: State)
    requires FinalBlock(file) < WIRE
    ensures Reachable(file, t) && t.client.status.Done? && t.server.status.TornDown? && t.server.file == file
  {
    var steps;
    steps, t := CompleteFrom(file, Init(file), 0);
    FinalIsShort(file, FinalBlock(file));
    ReachableInv(file, t);
  }

  /** The client can finish exactly when the number of its final block fits in 16 bits:
      when the file has fewer than 65534 * 512 + 500 bytes. Every such file can be
      transferred completely. */
  lemma CompletesExactly(file: File)
    ensures |file| < 65534 * BLOCK + 500 <==> exists t :: Reachable(file, t) && t.client.status.Done?
    ensures |file| < 65534 * BLOCK + 500 ==>
      exists t :: Reachable(file, t) && t.client.status.Done? && t.server.status.TornDown? && t.server.file == file
  {
    FitsExactly(file);
    if FinalBlock(file) < WIRE {
      var t := CompleteRun(file);
    }
    forall t | Reachable(file, t) && t.client.status.Done? ensures FinalBlock(file) < WIRE {
      ReachableNet(file, t);
    }
  }

  // ------------------------------------------------------- sessions that lose data

  /** The server still waits for block 1, while the client has gone on to block k. */
  ghost predicate RunAway(s: State, file: File, k: nat) {
    && s.client.status.Running? && s.client.file == file && s.client.block == k
    && s.client.pos == Min(k * BLOCK, |file|)
    && k >= 1
    && (s.client.last <==> k >= FinalBlock(file))
    && s.server.status.Open? && s.server.block == 1 && s.server.file == []
    && Data(k, Chunk(file, k)) in s.net
    && (k == 1 ==> Ack(1) in s.net)
  }

  /** The server resends its acknowledgement, of the block that it waits for. */
  lemma RunAwayStart(file: File) returns (steps: seq<Step>, t: State)
    ensures Path(Init(file), steps, t) && RunAway(t, file, 1)
  {
    FinalIsShort(file, 1);
    var s0 := Init(file);
    var s1 := Do(s0, ServerTimeout);
    t := Do(s1, ToClient(Ack(0)));
    assert Path(s0, [], s0);
    Extend(s0, [], s0, ServerTimeout);
    Extend(s0, [] + [ServerTimeout], s1, ToClient(Ack(0)));
    steps := [] + [ServerTimeout] + [ToClient(Ack(0))];
    assert ReadAt(file, 0) == Chunk(file, 1);
  }

  /** Block k is acknowledged although the server waits for block 1. */
  lemma RunAwayOnce(file: File, before: seq<Step>, s: State, k: nat) returns (steps: seq<Step>, t: State)
    requires Path(Init(file), before, s) && RunAway(s, file, k) && k < WIRE && k < FinalBlock(file)
    ensures Path(Init(file), steps, t) && RunAway(t, file, k + 1)
  {
    FinalIsShort(file, k);
    FinalIsShort(file, k + 1);
    assert ReadAt(file, s.client.pos) == Chunk(file, k + 1);
    var u;
    steps, u := before, s;
    if k > 1 {
      var d := ToServer(Data(k, Chunk(file, k)));
      Extend(Init(file), steps, u, d);
      steps, u := steps + [d], Do(u, d);
    }
    var a := ToClient(Ack(k));
    Extend(Init(file), steps, u, a);
    steps, t := steps + [a], Do(u, a);
  }

  lemma {:induction false} RunAwayTo(file: File, k: nat) returns (steps: seq<Step>, t: State)
    requires 1 <= k <= WIRE && k <= FinalBlock(file)
    ensures Path(Init(file), steps, t) && RunAway(t, file, k)
    decreases k
  {
    if k == 1 {
      steps, t := RunAwayStart(file);
    } else {
      var s;
      steps, s := RunAwayTo(file, k - 1);
      steps, t := RunAwayOnce(file, steps, s, k - 1);
    }
  }

  /** The client runs away to its final block, which is not the first one, and with it
      the server tears the session down over an empty file. */
  lemma LossyRun(file: File) returns (steps: seq<Step>, t: State)
    requires 2 <= FinalBlock(file) <= WIRE
    ensures Path(Init(file), steps, t) && t.server.status.TornDown? && t.server.file == []
    ensures t.client.status.Running? && t.client.last && t.client.block == FinalBlock(file)
    ensures Ack(FinalBlock(file) % WIRE) in t.net
  {
    var k := FinalBlock(file);
    var s;
    steps, s := RunAwayTo(file, k);
    FinalIsShort(file, k);
    var d := ToServer(Data(k, Chunk(file, k)));
    Extend(Init(file), steps, s, d);
    steps, t := steps + [d], Do(s, d);
  }

  /** A server that resends its acknowledgement acknowledges a block that it has not
      received, so the client can run away from it. Some such run ends with the
      session torn down over an incomplete file exactly when the client sends at least
      two blocks, the last of which the server can get. */
  lemma LossyTeardownExactly(file: File)
    ensures 500 <= |file| < 65535 * BLOCK + 500
      <==> exists t :: Reachable(file, t) && t.server.status.TornDown? && t.server.file != file
  {
    FitsExactly(file);
    if 2 <= FinalBlock(file) <= WIRE {
      var steps, t := LossyRun(file);
      assert Reachable(file, t);
    }
    forall t | Reachable(file, t) && t.server.status.TornDown? && t.server.file != file
      ensures 2 <= FinalBlock(file) <= WIRE
    {
      ReachableNet(file, t);
      ReachableInv(file, t);
      if FinalBlock(file) == 1 {
        var steps :| Path(Init(file), steps, t);
        SmallFilesArrive(Init(file), steps, t, file);
      }
    }
  }

  lemma {:induction false} SmallFilesArrive(s: State, steps: seq<Step>, t: State, file: File)
    requires Inv(s, file) && Path(s, steps, t) && FinalBlock(file) == 1
    requires s.server.status.TornDown? ==> s.server.file == file
    ensures t.server.status.TornDown? ==> t.server.file == file
    decreases |steps|
  {
    if steps != [] {
      var step := steps[0];
      KeepStep(s, step, file);
      if step.ToServer? {
        assert PacketInv(step.p, s.client, file);
        FinalIsShort(file, 1);
      }
      SmallFilesArrive(Do(s, step), steps[1..], t, file);
    }
  }

  /** The smallest loss: a client that sends one block, which never arrives, and takes
      the server's resent acknowledgement for the one of this block. */
  lemma LostOnlyBlock(file: File) returns (steps: seq<Step>, t: State)
    requires FinalBlock(file) == 1
    ensures Path(Init(file), steps, t) && t.client.status.Done? && t.server.status.Open? && t.server.file == []
  {
    var s;
    steps, s := RunAwayStart(file);
    var a := ToClient(Ack(1));
    Extend(Init(file), steps, s, a);
    steps, t := steps + [a], Do(s, a);
  }

  /** A client can be done although the server's file is incomplete exactly for files
      that are not empty and that a client can finish at all. */
  lemma LossyFinishExactly(file: File)
    ensures 0 < |file| < 65534 * BLOCK + 500
      <==> exists t :: Reachable(file, t) && t.client.status.Done? && t.server.file != file
  {
    FitsExactly(file);
    if |file| > 0 && FinalBlock(file) < WIRE {
      if FinalBlock(file) == 1 {
        var steps, t := LostOnlyBlock(file);
        assert Reachable(file, t);
      } else {
        var steps, s := LossyRun(file);
        var last := ToClient(Ack(FinalBlock(file)));
        Extend(Init(file), steps, s, last);
        assert Reachable(file, Do(s, last));
      }
    }
    forall t | Reachable(file, t) && t.client.status.Done? && t.server.file != file
      ensures |file| > 0 && FinalBlock(file) < WIRE
    {
      ReachableNet(file, t);
      ReachableInv(file, t);
    }
  }
}
