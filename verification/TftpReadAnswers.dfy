/** A read session, packet by packet: what is sent in answer to every packet and every
    timer event, and when a session survives the loss of everything on the way. */
module TftpReadAnswers {
  import opened Basics
  import opened Tftp
  import opened TftpRead

  // ------------------------------------------------------------------ answers

  /** The packet with block n of the file. */
  function Block(file: File, n: nat): Packet
    requires n > 0
  {
    Data(n, Chunk(file, n))
  }

  /** How a session starts: block 1 is on the way, and nobody has waited yet. */
  lemma StartsWithBlockOne(file: File)
    ensures var s := Init(file);
      && s.net == {Block(file, 1)} && s.server.status.Open? && s.client.status.Running?
      && s.server.block == 1 && s.server.retransmits == 0
      && s.client.file == [] && s.client.block == 0 && s.client.timeouts == 0 && s.client.resend.None?
  {
    ReachableStart(file);
    ReachableInv(file, Init(file));
    assert Data(1, ReadAt(file, 0)) == Block(file, 1);
  }

  lemma ReachableStart(file: File)
    ensures Reachable(file, Init(file))
  {
    assert Path(Init(file), [], Init(file));
  }

  /** The server's timer: the current block is sent again, unchanged, up to three times
      without an acknowledgement; then the server gives up without a word. */
  lemma ServerResends(file: File, s: State)
    requires Reachable(file, s) && s.server.status.Open?
    ensures var (c, out) := OnServerTimeout(s.server);
      && c.block == s.server.block
      && (s.server.retransmits < 3 ==>
            && c.status.Open? && c.retransmits == s.server.retransmits + 1
            && out == Some(Data(c.block, if c.block > 0 then Chunk(file, c.block) else ReadAt(file, s.server.pos))))
      && (s.server.retransmits >= 3 ==> c.status.GivenUp? && out.None?)
  {
    ReachableInv(file, s);
  }

  /** An acknowledgement of n blocks that does not end the session is answered with block
      n + 1, and the server may send it again three times. When the number wraps, the packet
      of number 0 has the bytes behind those that were read last. */
  lemma ServerAnswers(file: File, s: State, p: Packet)
    requires Reachable(file, s) && Enabled(s, ToServer(p))
    ensures var (c, out) := OnAck(s.server, p.block);
      if c.status.TornDown? then out.None?
      else
        && c.status.Open? && c.retransmits == 0 && c.block == (p.block + 1) % WIRE
        && (p.block + 1 < WIRE ==> out == Some(Block(file, p.block + 1)))
        && (p.block + 1 == WIRE ==> out == Some(Data(0, ReadAt(file, s.server.pos))))
  {
    ReachableInv(file, s);
    assert PacketInv(p, file, s.client.block);
  }

  /** The client takes the next block and no other one: it writes and acknowledges it if it
      is not empty, and is done if it is short. Other blocks are ignored altogether. */
  lemma ClientAnswers(file: File, s: State, p: Packet)
    requires Reachable(file, s) && Enabled(s, ToClient(p))
    ensures var (c, out) := OnData(s.client, p.block, p.bytes); var n := s.client.block + 1;
      if p.block != n then c == s.client && out.None?
      else
        && p.bytes == Chunk(file, n) && c.file == Prefix(file, n)
        && (c.status.Done? <==> |Chunk(file, n)| < BLOCK) && (c.status.Running? <==> |Chunk(file, n)| == BLOCK)
        && (Chunk(file, n) != [] ==> c.block == n && c.timeouts == 0 && out == Some(Ack(n)) == c.resend)
        && (Chunk(file, n) == [] ==> c.block == s.client.block && out.None?)
  {
    ReachableInv(file, s);
    assert PacketInv(p, file, s.client.block);
    PrefixGrows(file, s.client.block);
  }

  /** The client's timer: the last acknowledgement is sent again. The fifth time without
      news the client also sends ERROR and gives up. */
  lemma ClientResends(file: File, s: State)
    requires Reachable(file, s) && s.client.status.Running?
    ensures var (c, out, error) := OnClientTimeout(s.client);
      && c.block == s.client.block && c.file == s.client.file && c.timeouts == s.client.timeouts + 1
      && out == (if c.block > 0 then Some(Ack(c.block)) else None)
      && (s.client.timeouts <= 3 ==> c.status.Running? && error.None?)
      && (s.client.timeouts > 3 ==> c.status.GaveUp? && error == Some(Error(0)))
  {
    ReachableInv(file, s);
  }

  // -------------------------------------------------------- everything gets lost

  /** The same session after all packets on the way have been lost. */
  function Cut(s: State): State {
    s.(net := {})
  }

  ghost predicate CanFinish(s: State) {
    exists steps, t :: Path(s, steps, t) && t.client.status.Done?
  }

  /** Either the server can still send the block that the client waits for, or the client
      can still send an acknowledgement that does not end the server's session. */
  predicate Recovers(s: State, file: File) {
    || (s.server.block == s.client.block + 1 && s.server.retransmits < 3)
    || (s.client.block > 0 && s.client.timeouts <= 3
        && !(s.client.block * BLOCK >= |file| && s.server.block == s.client.block + 1))
  }

  /** The block that the client waits for is on the way. */
  ghost predicate OnTheWay(s: State, file: File) {
    && Inv(s, file) && s.server.status.Open? && s.client.status.Running?
    && s.server.block == s.client.block + 1
    && Block(file, s.client.block + 1) in s.net
  }

  lemma {:induction false} FinishFrom(s: State, file: File) returns (steps: seq<Step>, t: State)
    requires OnTheWay(s, file) && LastBlock(file) < WIRE
    ensures Path(s, steps, t) && t.client.status.Done?
    decreases LastBlock(file) - s.client.block
  {
    var n := s.client.block + 1;
    ShortEndsFile(file, n);
    var d := ToClient(Block(file, n));
    var s1 := Do(s, d);
    KeepStep(s, d, file);
    PathOne(s, d);
    if n < LastBlock(file) {
      var a := ToServer(Ack(n));
      var s2 := Do(s1, a);
      KeepStep(s1, a, file);
      PathOne(s1, a);
      PathConcat(s, [d], s1, [a], s2);
      steps, t := FinishFrom(s2, file);
      PathConcat(s, [d] + [a], s2, steps, t);
      steps := [d] + [a] + steps;
    } else {
      steps, t := [d], s1;
    }
  }

  lemma RecoversByServer(s: State, file: File) returns (t: State)
    requires Inv(s, file) && s.server.status.Open? && s.client.status.Running?
    requires s.server.block == s.client.block + 1 && s.server.retransmits < 3
    ensures Enabled(s, ServerTimeout) && t == Do(s, ServerTimeout) && OnTheWay(t, file)
  {
    t := Do(s, ServerTimeout);
    KeepStep(s, ServerTimeout, file);
  }

  lemma RecoversByClient(s: State, file: File) returns (steps: seq<Step>, t: State)
    requires Inv(s, file) && s.server.status.Open? && s.client.status.Running? && LastBlock(file) < WIRE
    requires s.client.block > 0 && s.client.timeouts <= 3
    requires !(s.client.block * BLOCK >= |file| && s.server.block == s.client.block + 1)
    ensures Path(s, steps, t) && OnTheWay(t, file)
  {
    var s1 := Do(s, ClientTimeout);
    KeepStep(s, ClientTimeout, file);
    PathOne(s, ClientTimeout);
    var a := ToServer(Ack(s.client.block));
    ShortEndsFile(file, s.server.block);
    t := Do(s1, a);
    KeepStep(s1, a, file);
    PathOne(s1, a);
    PathConcat(s, [ClientTimeout], s1, [a], t);
    steps := [ClientTimeout] + [a];
  }

  /** A session that has lost everything and cannot recover. While the client runs, the
      block that it waits for is not on the way and the server cannot send it again; and
      all acknowledgements, if there are any, end the server's session. */
  ghost predicate Hopeless(s: State, file: File) {
    && Inv(s, file) && !s.client.status.Done?
    && (s.client.status.Running? ==>
          && (forall p | p in s.net :: !p.Error? && (p.Data? ==> p.block != s.client.block + 1))
          && (s.server.status.Open? ==> s.server.block != s.client.block + 1 || s.server.retransmits >= 3)
          && (|| (&& (s.client.block == 0 || s.client.timeouts > 3)
                  && forall p | p in s.net :: !p.Ack?)
              || (&& s.client.block * BLOCK >= |file| && s.server.block == s.client.block + 1
                  && forall p | p in s.net && p.Ack? :: p.block == s.client.block)))
  }

  lemma HopelessToServer(s: State, p: Packet, file: File)
    requires Hopeless(s, file) && Enabled(s, ToServer(p))
    ensures Hopeless(Do(s, ToServer(p)), file)
  {
    KeepStep(s, ToServer(p), file);
    if s.client.status.Running? {
      ShortEndsFile(file, s.server.block);
      assert OnAck(s.server, p.block).0.status.TornDown?;
    }
  }

  lemma {:induction false} HopelessPath(s: State, steps: seq<Step>, t: State, file: File)
    requires Hopeless(s, file) && Path(s, steps, t)
    ensures Hopeless(t, file)
    decreases |steps|
  {
    if steps != [] {
      match steps[0] {
        case ToServer(p) => HopelessToServer(s, p, file);
        case ToClient(p) => KeepStep(s, steps[0], file);
        case ServerTimeout => KeepStep(s, steps[0], file);
        case ClientTimeout => KeepStep(s, steps[0], file);
      }
      HopelessPath(Do(s, steps[0]), steps[1..], t, file);
    }
  }

  /** When everything on the way has been lost, a session whose two ends are still there can
      be finished if and only if one of them can still send what the other one needs, and
      the number of the final block fits in 16 bits. */
  lemma RecoversExactly(file: File, s: State)
    requires Reachable(file, s) && s.server.status.Open? && s.client.status.Running?
    ensures CanFinish(Cut(s)) <==> Recovers(s, file) && |file| < 65535 * BLOCK
  {
    ReachableInv(file, s);
    var cut := Cut(s);
    if |file| >= 65535 * BLOCK {
      forall steps, t | Path(cut, steps, t) ensures !t.client.status.Done? {
        PathKeepsInv(cut, steps, t, file);
      }
    } else if s.server.block == s.client.block + 1 && s.server.retransmits < 3 {
      var t := RecoversByServer(cut, file);
      PathOne(cut, ServerTimeout);
      var more, u := FinishFrom(t, file);
      PathConcat(cut, [ServerTimeout], t, more, u);
    } else if Recovers(s, file) {
      var steps, t := RecoversByClient(cut, file);
      var more, u := FinishFrom(t, file);
      PathConcat(cut, steps, t, more, u);
    } else {
      assert Hopeless(cut, file);
      forall steps, t | Path(cut, steps, t) ensures !t.client.status.Done? {
        HopelessPath(cut, steps, t, file);
      }
    }
  }
}
