/** A write session, packet by packet: what is sent in answer to every packet and every
    timer event, and when a session survives the loss of everything on the way. */
module TftpWriteAnswers {
  import opened Basics
  import opened Tftp
  import opened TftpWrite

  // ------------------------------------------------------------------ answers

  /** The packet with block n of the file. */
  function Block(file: File, n: nat): Packet
    requires n > 0
  {
    Data(n, Chunk(file, n))
  }

  /** How a session starts: the acknowledgement of the request is on the way, and nobody
      has waited yet. */
  lemma StartsWithAckZero(file: File)
    ensures var s := Init(file);
      && s.net == {Ack(0)} && s.server.status.Open? && s.client.status.Running?
      && s.server.file == [] && s.server.appended == [] && s.server.block == 1 && s.server.retransmits == 0
      && s.client.file == file && s.client.block == 0 && s.client.timeouts == 0 && s.client.resend.None?
  {
  }

  /** Every block is acknowledged. It is written if it is the next one, which also shows in
      the file, and ends the session if it is final; a repeated one changes nothing else.
      The server does not reset its count of resends. */
  lemma ServerAnswers(file: File, s: State, p: Packet)
    requires Reachable(file, s) && |file| < 65535 * BLOCK + 500 && Enabled(s, ToServer(p)) && p.Data?
    ensures p.number > 0 && p == Block(file, p.number)
    ensures var (c, out) := OnPacket(s.server, p); var w := |s.server.appended|;
      && out == Ack(p.number % WIRE) && c.retransmits == s.server.retransmits
      && c.appended == (if p.number == w + 1 then s.server.appended + [w + 1] else s.server.appended)
      && c.file == Prefix(file, |c.appended|) && c.block == (|c.appended| + 1) % WIRE
      && c.status == (if p.number >= FinalBlock(file) then TornDown else Open)
  {
    FitsExactly(file);
    ReachableInv(file, s);
    assert PacketInv(p, s.client, file);
    KeepOnData(s.server, file, p.number, s.client.block);
    FinalIsShort(file, p.number);
  }

  /** Anything but a block ends the server: it answers with ERROR and writes nothing. */
  lemma ServerRejects(file: File, s: State, p: Packet)
    requires Reachable(file, s) && Enabled(s, ToServer(p)) && !p.Data?
    ensures var (c, out) := OnPacket(s.server, p);
      c.status.Killed? && out == Error && c.file == s.server.file && c.appended == s.server.appended
    ensures s.client.status.GaveUp?
  {
    ReachableNet(file, s);
    assert PacketInv(p, s.client, file);
  }

  /** The server's timer: up to three times in a session it acknowledges the block that it
      waits for; then it gives up without a word. */
  lemma ServerResends(file: File, s: State)
    requires Reachable(file, s) && |file| < 65535 * BLOCK + 500 && s.server.status.Open?
    ensures var (c, out) := OnServerTimeout(s.server);
      && c.appended == s.server.appended && c.file == s.server.file && c.block == s.server.block
      && (s.server.retransmits < 3 ==>
            && c.status.Open? && c.retransmits == s.server.retransmits + 1
            && out == Some(Ack((|c.appended| + 1) % WIRE)))
      && (s.server.retransmits >= 3 ==> c.status.GivenUp? && out.None?)
  {
    FitsExactly(file);
    ReachableInv(file, s);
  }

  /** The client goes on to the next block when its current one is acknowledged, and is done
      if that was the final one. Other acknowledgements are ignored altogether. */
  lemma ClientAnswers(file: File, s: State, p: Packet)
    requires Reachable(file, s) && Enabled(s, ToClient(p))
    ensures var (c, out) := OnAck(s.client, p.block); var n := s.client.block + 1;
      if p.block != s.client.block then c == s.client && out.None?
      else if s.client.block == FinalBlock(file) then c == s.client.(status := Done) && out.None?
      else
        && c.status.Running? && c.block == n && c.timeouts == 0
        && out == Some(Block(file, n)) == c.resend && (c.last <==> n == FinalBlock(file))
  {
    ReachableNet(file, s);
    assert PacketInv(p, s.client, file);
    assert ReadAt(file, s.client.pos) == Chunk(file, s.client.block + 1) || s.client.last;
    FinalIsShort(file, s.client.block + 1);
  }

  /** The client's timer: the current block is sent again. The fifth time without news the
      client also sends ERROR and gives up. */
  lemma ClientResends(file: File, s: State)
    requires Reachable(file, s) && s.client.status.Running?
    ensures var (c, out, error) := OnClientTimeout(s.client);
      && c.block == s.client.block && c.pos == s.client.pos && c.last == s.client.last
      && c.timeouts == s.client.timeouts + 1
      && out == (if c.block > 0 then Some(Block(file, c.block)) else None)
      && (s.client.timeouts <= 3 ==> c.status.Running? && error.None?)
      && (s.client.timeouts > 3 ==> c.status.GaveUp? && error == Some(Error))
  {
    ReachableNet(file, s);
  }

  // -------------------------------------------------------- everything gets lost

  /** The same session after all packets on the way have been lost. */
  function Cut(s: State): State {
    s.(net := {})
  }

  /** Some course of events ends with the client done and every block written. */
  ghost predicate CanFinish(s: State, file: File) {
    exists steps, t :: Path(s, steps, t) && t.client.status.Done? && |t.server.appended| == FinalBlock(file)
  }

  /** The client can still send its block, and the server lacks no earlier one. */
  predicate Recovers(s: State) {
    s.client.timeouts <= 3 && s.client.block <= |s.server.appended| + 1
  }

  /** The current block is sent again and written, unless it has been, and acknowledged. */
  lemma SendAgain(s: State, file: File) returns (steps: seq<Step>, t: State)
    requires Inv(s, file) && s.server.status.Open? && s.client.status.Running? && FinalBlock(file) < WIRE
    requires s.client.block > 0 && Recovers(s)
    ensures Path(s, steps, t) && t.client == s.client.(timeouts := t.client.timeouts)
    ensures Ack(s.client.block) in t.net && |t.server.appended| == s.client.block && CountsUp(t.server.appended)
    ensures t.server.block == (s.client.block + 1) % WIRE
    ensures s.client.block < FinalBlock(file) ==> t.server.status.Open?
  {
    var n := s.client.block;
    var s1 := Do(s, ClientTimeout);
    KeepStep(s, ClientTimeout, file);
    assert Path(s1, [], s1) && Path(s, [ClientTimeout], s1);
    var d := ToServer(Block(file, n));
    KeepOnData(s.server, file, n, n);
    KeepStep(s1, d, file);
    FinalIsShort(file, n);
    t := Do(s1, d);
    Extend(s, [ClientTimeout], s1, d);
    steps := [ClientTimeout] + [d];
  }

  lemma FinishFrom(s: State, file: File) returns (steps: seq<Step>, t: State)
    requires Inv(s, file) && s.server.status.Open? && s.client.status.Running? && FinalBlock(file) < WIRE
    requires s.client.block > 0 && Recovers(s)
    ensures Path(s, steps, t) && t.client.status.Done? && |t.server.appended| == FinalBlock(file)
  {
    var n := s.client.block;
    var s2;
    steps, s2 := SendAgain(s, file);
    if n < FinalBlock(file) {
      assert InStep(s2, file, n);
      var more;
      more, t := CompleteFrom(file, s2, n);
      PathConcat(s, steps, s2, more, t);
      steps := steps + more;
    } else {
      var last := ToClient(Ack(n));
      t := Do(s2, last);
      Extend(s, steps, s2, last);
      steps := steps + [last];
    }
  }

  /** The block that the server waits for is neither on the way nor with the client any
      more. */
  ghost predicate Missing(s: State, file: File) {
    && |s.server.appended| < FinalBlock(file)
    && (s.client.block > |s.server.appended| + 1 || s.client.status.Done?)
    && forall p | p in s.net && p.Data? :: p.number > |s.server.appended| + 1
  }

  /** The client has one timer event left, no block is on the way, and no acknowledgement
      but the one of the block that the server waits for. */
  ghost predicate Exhausted(s: State) {
    && s.client.status.Running? && s.client.timeouts > 3 && s.client.block > 0
    && forall p | p in s.net :: p == Ack((|s.server.appended| + 1) % WIRE)
  }

  ghost predicate Hopeless(s: State, file: File) {
    Inv(s, file) && (s.client.status.GaveUp? || Missing(s, file) || Exhausted(s))
  }

  lemma HopelessToServer(s: State, p: Packet, file: File)
    requires Hopeless(s, file) && Enabled(s, ToServer(p)) && FinalBlock(file) < WIRE
    ensures Hopeless(Do(s, ToServer(p)), file)
  {
    KeepStep(s, ToServer(p), file);
    assert PacketInv(p, s.client, file);
    if p.Data? {
      KeepOnData(s.server, file, p.number, s.client.block);
    }
  }

  lemma HopelessToClient(s: State, p: Packet, file: File)
    requires Hopeless(s, file) && Enabled(s, ToClient(p)) && FinalBlock(file) < WIRE
    ensures Hopeless(Do(s, ToClient(p)), file)
  {
    KeepStep(s, ToClient(p), file);
    var t := Do(s, ToClient(p));
    if Exhausted(s) && p.block == s.client.block {
      assert (|s.server.appended| + 1) % WIRE == s.client.block;
      assert |s.server.appended| + 1 == s.client.block;
      assert Missing(t, file);
    }
  }

  lemma {:induction false} HopelessPath(s: State, steps: seq<Step>, t: State, file: File)
    requires Hopeless(s, file) && Path(s, steps, t) && FinalBlock(file) < WIRE
    ensures Hopeless(t, file)
    decreases |steps|
  {
    if steps != [] {
      match steps[0] {
        case ToServer(p) => HopelessToServer(s, p, file);
        case ToClient(p) => HopelessToClient(s, p, file);
        case ServerTimeout => KeepStep(s, steps[0], file);
        case ClientTimeout => KeepStep(s, steps[0], file);
      }
      HopelessPath(Do(s, steps[0]), steps[1..], t, file);
    }
  }

  /** When everything on the way has been lost, a session whose two ends are still there,
      and whose client has sent a block, can be completed if and only if the client can
      still send its current block, the server lacks no earlier one, and the number of the
      final block fits in 16 bits. */
  lemma RecoversExactly(file: File, s: State)
    requires Reachable(file, s) && s.server.status.Open? && s.client.status.Running? && s.client.block > 0
    ensures CanFinish(Cut(s), file) <==> Recovers(s) && |file| < 65534 * BLOCK + 500
  {
    FitsExactly(file);
    ReachableNet(file, s);
    var cut := Cut(s);
    if FinalBlock(file) < WIRE {
      ReachableInv(file, s);
    }
    if FinalBlock(file) >= WIRE {
      forall steps, t | Path(cut, steps, t) ensures !t.client.status.Done? {
        PathKeepsNet(cut, steps, t, file);
      }
    } else if Recovers(s) {
      var steps, t := FinishFrom(cut, file);
    } else {
      assert Hopeless(cut, file);
      forall steps, t | Path(cut, steps, t)
        ensures !(t.client.status.Done? && |t.server.appended| == FinalBlock(file))
      {
        HopelessPath(cut, steps, t, file);
      }
    }
  }
}
