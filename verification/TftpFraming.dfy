/** What sendData of the client really puts into a DATA packet, and what the server of a
    write session makes of it. TftpWrite says which blocks are written and in which
    order; here is what their bytes become. */
module TftpFraming {
  import opened Basics
  import opened Tftp
  import opened TftpWrite

  /** Where the first byte of value one is, or the length. */
  function FirstOne(bytes: File): (k: nat)
    ensures k <= |bytes| && (forall i | 0 <= i < k :: bytes[i] != 1) && (k < |bytes| ==> bytes[k] == 1)
  {
    if bytes == [] || bytes[0] == 1 then 0 else 1 + FirstOne(bytes[1..])
  }

  /** memccpy(p, bytes, sizeof(char), |bytes|): it stops behind the first byte whose value
      is sizeof(char). */
  function Copied(bytes: File): File {
    bytes[..Min(FirstOne(bytes) + 1, |bytes|)]
  }

  const HEADER: nat := 4

  /** The packet behind its header: a buffer of zeros, 12 bytes longer than the block,
      into which the block has been copied. */
  function Payload(bytes: File): File {
    Copied(bytes) + seq(DatagramSize(bytes) - HEADER - |Copied(bytes)|, _ => 0)
  }

  /** What fwrite adds to the server's file: the packet as received, without its header. */
  function Stored(bytes: File): File
    requires |bytes| <= BLOCK
  {
    Payload(bytes)[..ReceivedSize(bytes) - HEADER]
  }

  /** Behind a byte of value one there is nothing but zeros. */
  ghost predicate Intact(bytes: File) {
    forall i, j | 0 <= i < j < |bytes| && bytes[i] == 1 :: bytes[j] == 0
  }

  /** A block arrives with its own bytes in front if and only if it is intact, and with
      zeros behind them: 12, or as many as the server's buffer has room for. */
  lemma StoredExactly(bytes: File)
    requires |bytes| <= BLOCK
    ensures |Stored(bytes)| == Min(|bytes| + 12, BLOCK)
    ensures Stored(bytes)[..|bytes|] == bytes <==> Intact(bytes)
    ensures forall i | |bytes| <= i < |Stored(bytes)| :: Stored(bytes)[i] == 0
  {
    var s, k := Stored(bytes), FirstOne(bytes);
    if Intact(bytes) {
      forall i | 0 <= i < |bytes| ensures s[i] == bytes[i] {
        assert i > k ==> bytes[k] == 1;
      }
    } else {
      var i, j :| 0 <= i < j < |bytes| && bytes[i] == 1 && bytes[j] != 0;
      assert k <= i && s[j] == 0;
    }
  }

  /** The server's file after it has written these blocks of the client's. */
  function OnDisk(file: File, appended: seq<nat>): File
    requires forall k | 0 <= k < |appended| :: appended[k] > 0
  {
    if appended == [] then []
    else OnDisk(file, appended[..|appended| - 1]) + Stored(Chunk(file, appended[|appended| - 1]))
  }

  /** Every DATA packet is a block of the client's file, and what the server writes down,
      or not, goes to the end of its file. */
  lemma ServerStores(file: File, s: State, p: Packet)
    requires Reachable(file, s) && |file| < 65535 * BLOCK + 500 && Enabled(s, ToServer(p)) && p.Data?
    ensures |p.bytes| <= BLOCK
    ensures forall k | 0 <= k < |s.server.appended| :: s.server.appended[k] > 0
    ensures var t := Do(s, ToServer(p));
      && (forall k | 0 <= k < |t.server.appended| :: t.server.appended[k] > 0)
      && OnDisk(file, t.server.appended) == OnDisk(file, s.server.appended)
           + if s.server.block == p.number % WIRE then Stored(p.bytes) else []
  {
    FitsExactly(file);
    ReachableInv(file, s);
    assert PacketInv(p, s.client, file);
    KeepOnData(s.server, file, p.number, s.client.block);
    var w := Written(s.server);
    if s.server.block == p.number % WIRE {
      WireTellsApart(w + 1, p.number);
      assert (s.server.appended + [p.number])[..w] == s.server.appended;
    }
  }

  /** Block n stands at its place in d if and only if it is intact. */
  ghost predicate BlockAt(d: File, file: File, n: nat) {
    && n > 0 && (n - 1) * BLOCK + |Chunk(file, n)| <= |d|
    && (Slice(d, (n - 1) * BLOCK, |Chunk(file, n)|) == Chunk(file, n) <==> Intact(Chunk(file, n)))
  }

  function Slice(d: File, from: nat, len: nat): File
    requires from + len <= |d|
  {
    d[from..from + len]
  }

  lemma BlockStays(d: File, more: File, file: File, n: nat)
    requires BlockAt(d, file, n)
    ensures BlockAt(d + more, file, n)
  {
    var from, len := (n - 1) * BLOCK, |Chunk(file, n)|;
    assert Slice(d + more, from, len) == Slice(d, from, len);
  }

  lemma ChunkFits(file: File, n: nat)
    requires n > 0
    ensures |Chunk(file, n)| <= BLOCK
  {
  }

  lemma BlockAdded(d: File, file: File, n: nat)
    requires n > 0 && |d| == (n - 1) * BLOCK
    ensures BlockAt(d + Stored(Chunk(file, n)), file, n)
  {
    hide Chunk, Stored;
    ChunkFits(file, n);
    var chunk := Chunk(file, n);
    StoredExactly(chunk);
    assert Slice(d + Stored(chunk), |d|, |chunk|) == Stored(chunk)[..|chunk|];
  }

  /** Up to the block before the final one, every block fills 512 bytes. */
  lemma {:induction false} DiskBlocks(file: File, appended: seq<nat>)
    requires CountsUp(appended) && |appended| <= FinalBlock(file)
    ensures |appended| < FinalBlock(file) ==> |OnDisk(file, appended)| == |appended| * BLOCK
    ensures |appended| > 0 && |appended| == FinalBlock(file) ==>
      |OnDisk(file, appended)| == (|appended| - 1) * BLOCK + |Chunk(file, |appended|)| + 12
    ensures forall n | 0 < n <= |appended| :: BlockAt(OnDisk(file, appended), file, n)
  {
    hide FinalBlock, BlockAt, Stored, Chunk, Intact;
    if appended != [] {
      var m := |appended|;
      var before := appended[..m - 1];
      DiskBlocks(file, before);
      FinalIsShort(file, m);
      ChunkFits(file, m);
      StoredExactly(Chunk(file, m));
      BlockAdded(OnDisk(file, before), file, m);
      forall n | 0 < n < m ensures BlockAt(OnDisk(file, appended), file, n) {
        BlockStays(OnDisk(file, before), Stored(Chunk(file, m)), file, n);
      }
    }
  }

  lemma FinalLength(file: File)
    ensures FinalBlock(file) > 0
    ensures (FinalBlock(file) - 1) * BLOCK + |Chunk(file, FinalBlock(file))| >= |file|
  {
  }

  /** Where byte i of a file is. */
  lemma Place(file: File, i: nat) returns (n: nat)
    requires i < |file|
    ensures 0 < n <= FinalBlock(file) && (n - 1) * BLOCK <= i < (n - 1) * BLOCK + |Chunk(file, n)|
    ensures Chunk(file, n)[i - (n - 1) * BLOCK] == file[i]
  {
    n := i / BLOCK + 1;
  }

  lemma ChunkInFile(file: File, n: nat)
    requires n > 0 && Chunk(file, n) != []
    ensures (n - 1) * BLOCK + |Chunk(file, n)| <= |file|
    ensures Slice(file, (n - 1) * BLOCK, |Chunk(file, n)|) == Chunk(file, n)
  {
  }

  ghost predicate AllIntact(file: File) {
    forall n | 0 < n <= FinalBlock(file) :: Intact(Chunk(file, n))
  }

  /** If every block is at its place, so is the file; and the other way round. */
  lemma BlocksMakeFile(file: File, d: File)
    requires |d| >= |file| && forall n | 0 < n <= FinalBlock(file) :: BlockAt(d, file, n)
    ensures d[..|file|] == file <==> AllIntact(file)
  {
    hide FinalBlock, Chunk, Intact;
    if AllIntact(file) {
      forall i | 0 <= i < |file| ensures d[i] == file[i] {
        var n := Place(file, i);
        assert BlockAt(d, file, n) && Intact(Chunk(file, n));
        assert d[i] == Slice(d, (n - 1) * BLOCK, |Chunk(file, n)|)[i - (n - 1) * BLOCK];
      }
    }
    if d[..|file|] == file {
      forall n | 0 < n <= FinalBlock(file) ensures Intact(Chunk(file, n)) {
        assert BlockAt(d, file, n);
        var from, len := (n - 1) * BLOCK, |Chunk(file, n)|;
        if len > 0 {
          ChunkInFile(file, n);
          assert Slice(d[..|file|], from, len) == Slice(d, from, len);
        } else {
          assert Slice(d, from, len) == Chunk(file, n);
        }
      }
    }
  }

  /** A server that has written all the client's blocks, each once and in order, never has
      the client's file: at least 12 zeros follow it. The client's file stands in front of
      them if and only if every block of it is intact. */
  lemma NeverTheSameFile(file: File, t: State)
    requires Reachable(file, t) && |file| < 65535 * BLOCK + 500 && |t.server.appended| == FinalBlock(file)
    ensures CountsUp(t.server.appended)
    ensures |OnDisk(file, t.server.appended)| >= |file| + 12
    ensures OnDisk(file, t.server.appended)[..|file|] == file <==> AllIntact(file)
  {
    hide OnDisk, FinalBlock, Chunk, AllIntact;
    BlocksInOrder(file, t);
    DiskBlocks(file, t.server.appended);
    FinalLength(file);
    BlocksMakeFile(file, OnDisk(file, t.server.appended));
  }

  // ------------------------------------------------------------ the client's buffer

  /** sendData copies the whole datagram to session->buf, which has room for PACKET
      bytes. */
  ghost predicate InsideBuffer(c: Client) {
    c.resend.Some? && c.resend.value.Data? ==> DatagramSize(c.resend.value.bytes) <= PACKET
  }

  /** A client stays inside its buffer on every run if and only if its file has at most
      500 bytes. */
  lemma InsideBufferExactly(file: File)
    ensures |file| <= 500 <==> forall t | Reachable(file, t) :: InsideBuffer(t.client)
  {
    if |file| <= 500 {
      forall t | Reachable(file, t) ensures InsideBuffer(t.client) {
        ReachableNet(file, t);
      }
    } else {
      var s, step := Init(file), ToClient(Ack(0));
      assert Path(Do(s, step), [], Do(s, step));
      assert Path(s, [step], Do(s, step));
      assert Reachable(file, Do(s, step)) && !InsideBuffer(Do(s, step).client);
    }
  }
}
