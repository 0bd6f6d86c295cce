/** The handlers of tftp_server.c and client.c as methods on the records that they
    update. Each is proved to take the step that TftpRead and TftpWrite analyse. */
module TftpEndpoints {
  import opened Basics
  import opened Tftp
  import R = TftpRead
  import W = TftpWrite

  /** struct connector of the server. `gone`, `givenUp` and `killed` tell how a session
      has ended; `appended` is history. */
  class Connector {
    var gone: bool
    var givenUp: bool
    var killed: bool
    var file: File
    var pos: nat
    var sizeInBlocks: nat
    var block: nat
    var lastRead: nat
    const isAck: bool
    var retransmitCount: nat
    ghost var appended: seq<nat>

    ghost function Reading(): R.Server
      reads this
    {
      var status := if givenUp then R.GivenUp else if gone then R.TornDown else R.Open;
      R.Server(status, file, pos, block, lastRead, sizeInBlocks, retransmitCount)
    }

    ghost function Writing(): W.Server
      reads this
    {
      var status := if killed then W.Killed else if givenUp then W.GivenUp else if gone then W.TornDown else W.Open;
      W.Server(status, file, block, retransmitCount, appended)
    }

    /** A read request, before its first block is sent. */
    constructor Rrq(file: File)
      ensures !isAck && !gone && !givenUp
      ensures Reading() == R.Server(R.Open, file, 0, 1, 0, (|file| + BLOCK - 1) / BLOCK, 0)
    {
      gone, givenUp, killed, isAck := false, false, false, false;
      this.file, pos, lastRead, retransmitCount, appended := file, 0, 0, 0, [];
      sizeInBlocks := (|file| + BLOCK - 1) / BLOCK;
      block := 1;
    }

    /** A write request. */
    constructor Wrq()
      ensures isAck && Writing() == W.OpenWrite()
    {
      gone, givenUp, killed, isAck := false, false, false, true;
      file, pos, lastRead, sizeInBlocks, retransmitCount, appended := [], 0, 0, 0, 0, [];
      block := 1;
    }

    /** tftp_send_data. */
    method SendData() returns (packet: R.Packet)
      modifies this`pos, this`lastRead
      ensures (Reading(), packet) == R.SendData(old(Reading()))
    {
      if block > 0 {
        pos := (block - 1) * BLOCK;
      }
      var bytes := ReadAt(file, pos);
      pos := pos + |bytes|;
      lastRead := |bytes|;
      packet := R.Data(block, bytes);
    }

    /** tftp_handle_read; `ack` is what stands where an ACK packet has its block. */
    method HandleRead(ack: nat) returns (out: Option<R.Packet>)
      requires !gone && !givenUp
      modifies this
      ensures (Reading(), out) == R.OnAck(old(Reading()), ack)
    {
      out := None;
      if ack >= sizeInBlocks && lastRead < BLOCK {
        gone := true;
        return;
      }
      block := (ack + 1) % WIRE;
      retransmitCount := 0;
      var packet := SendData();
      out := Some(packet);
    }

    /** tftp_handle_write. */
    method HandleWrite(packet: W.Packet) returns (out: W.Packet)
      requires !gone && !givenUp && !killed
      modifies this
      ensures (Writing(), out) == W.OnPacket(old(Writing()), packet)
    {
      if !packet.Data? {
        killed := true;
        return W.Error;
      }
      var packetSize := W.ReceivedSize(packet.bytes);
      if block == packet.number % WIRE {
        file := file + packet.bytes;
        block := (block + 1) % WIRE;
        appended := appended + [packet.number];
      }
      out := W.Ack(packet.number % WIRE);
      if packetSize < W.PACKET {
        gone := true;
      }
    }

    /** timeout_handling: a data block or an acknowledgement is sent again. */
    method TimeoutHandling() returns (data: Option<R.Packet>, ack: Option<W.Packet>)
      requires !gone && !givenUp && !killed
      modifies this
      ensures !isAck ==> (Reading(), data) == R.OnServerTimeout(old(Reading())) && ack.None?
      ensures isAck ==> (Writing(), ack) == W.OnServerTimeout(old(Writing())) && data.None?
    {
      data, ack := None, None;
      if retransmitCount >= R.MAX_TIMEOUTS {
        gone, givenUp := true, true;
        return;
      }
      retransmitCount := retransmitCount + 1;
      if !isAck {
        var packet := SendData();
        data := Some(packet);
      } else {
        ack := Some(W.Ack(block));
      }
    }
  }

  /** struct tftpSession of the client. `done` and `gaveUp` tell how it was closed. */
  class Session {
    var done: bool
    var gaveUp: bool
    var file: File
    var pos: nat
    var block: nat
    var lastBlockSended: bool
    var timeOutCounter: nat
    var ackBuffer: Option<R.Packet>
    var dataBuffer: Option<W.Packet>

    ghost function Getting(): R.Client
      reads this
    {
      R.Client(if done then R.Done else if gaveUp then R.GaveUp else R.Running, file, block, timeOutCounter, ackBuffer)
    }

    ghost function Putting(): W.Client
      reads this
    {
      var status := if done then W.Done else if gaveUp then W.GaveUp else W.Running;
      W.Client(status, file, pos, block, lastBlockSended, timeOutCounter, dataBuffer)
    }

    constructor (file: File)
      ensures Putting() == W.OpenPut(file)
      ensures file == [] ==> Getting() == R.OpenGet()
    {
      done, gaveUp, lastBlockSended := false, false, false;
      this.file, pos, block, timeOutCounter := file, 0, 0, 0;
      ackBuffer, dataBuffer := None, None;
    }

    /** sendAck. */
    method SendAck() returns (packet: R.Packet)
      modifies this`timeOutCounter, this`ackBuffer
      ensures packet == R.Ack(block % WIRE) && timeOutCounter == 0 && ackBuffer == Some(packet)
    {
      packet := R.Ack(block % WIRE);
      ackBuffer := Some(packet);
      timeOutCounter := 0;
    }

    /** getCommand for a DATA packet. */
    method GetCommand(number: nat, bytes: File) returns (out: Option<R.Packet>)
      requires !done && !gaveUp
      modifies this
      ensures (Getting(), out) == R.OnData(old(Getting()), number, bytes)
    {
      out := None;
      if number == block + 1 {
        if bytes != [] {
          file := file + bytes;
          block := block + 1;
          var packet := SendAck();
          out := Some(packet);
        }
        if BLOCK > |bytes| {
          done := true;
        }
      }
    }

    /** sendData: the result is what the source returns, 16 more than was read. The source
        also copies that many bytes to a buffer of PACKET bytes, which has room for them
        if and only if the block has at most 500. */
    method SendData() returns (count: nat, packet: W.Packet)
      modifies this`block, this`pos, this`timeOutCounter, this`dataBuffer
      ensures packet == W.Data(old(block) + 1, ReadAt(file, old(pos))) && dataBuffer == Some(packet)
      ensures count == 16 + |packet.bytes| && block == old(block) + 1 && pos == old(pos) + |packet.bytes|
      ensures timeOutCounter == 0 && (count <= W.PACKET <==> |packet.bytes| <= 500)
    {
      block := block + 1;
      var bytes := ReadAt(file, pos);
      pos := pos + |bytes|;
      packet := W.Data(block, bytes);
      dataBuffer := Some(packet);
      timeOutCounter := 0;
      count := 16 + |bytes|;
    }

    /** putCommand for an ACK packet. */
    method PutCommand(ack: nat) returns (out: Option<W.Packet>)
      requires !done && !gaveUp
      modifies this
      ensures (Putting(), out) == W.OnAck(old(Putting()), ack)
    {
      out := None;
      if ack == block {
        if lastBlockSended {
          done := true;
          return;
        }
        var count, packet := SendData();
        out := Some(packet);
        lastBlockSended := count < 516;
      }
    }

    /** timeout(). `error` says whether an ERROR packet with code 0 is sent. The next
        delay is given in milliseconds; 0 means that the session has been closed and no
        timer is running. */
    method Timeout() returns (ack: Option<R.Packet>, data: Option<W.Packet>, error: bool, delay: int)
      requires !done && !gaveUp
      modifies this
      ensures (Getting(), ack, if error then Some(R.Error(0)) else None) == R.OnClientTimeout(old(Getting()))
      ensures (Putting(), data, if error then Some(W.Error) else None) == W.OnClientTimeout(old(Putting()))
      ensures delay == if gaveUp then 0 else TIMEOUT * Pow(2, timeOutCounter)
    {
      ack, data := ackBuffer, dataBuffer;
      var before := timeOutCounter;
      timeOutCounter := timeOutCounter + 1;
      error, delay := before > R.MAXTIMEOUTS, 0;
      if before > R.MAXTIMEOUTS {
        gaveUp := true;
        return;
      }
      var factor := IntPow(2, timeOutCounter);
      delay := TIMEOUT * factor;
    }
  }

  /** TIMEOUT of the client, in milliseconds. */
  const TIMEOUT: int := 20000

  // ------------------------------------------------------------- silent peers

  /** The session after n timer events with nothing received in between. */
  function ReadAfter(c: R.Server, n: nat): R.Server {
    if n == 0 then c
    else var before := ReadAfter(c, n - 1); if before.status.Open? then R.OnServerTimeout(before).0 else before
  }

  function WriteAfter(c: W.Server, n: nat): W.Server {
    if n == 0 then c
    else var before := WriteAfter(c, n - 1); if before.status.Open? then W.OnServerTimeout(before).0 else before
  }

  function GetAfter(c: R.Client, n: nat): R.Client {
    if n == 0 then c
    else var before := GetAfter(c, n - 1); if before.status.Running? then R.OnClientTimeout(before).0 else before
  }

  function PutAfter(c: W.Client, n: nat): W.Client {
    if n == 0 then c
    else var before := PutAfter(c, n - 1); if before.status.Running? then W.OnClientTimeout(before).0 else before
  }

  /** A server session survives exactly the timer events that its retransmission
      count still allows, then closes. */
  lemma {:induction false} ServersGiveUp(r: R.Server, w: W.Server, n: nat)
    requires r.status.Open? && r.retransmits <= R.MAX_TIMEOUTS
    requires w.status.Open? && w.retransmits <= W.MAX_TIMEOUTS
    ensures ReadAfter(r, n).status.Open? <==> r.retransmits + n <= R.MAX_TIMEOUTS
    ensures ReadAfter(r, n).retransmits == Min(r.retransmits + n, R.MAX_TIMEOUTS)
    ensures WriteAfter(w, n).status.Open? <==> w.retransmits + n <= W.MAX_TIMEOUTS
    ensures WriteAfter(w, n).retransmits == Min(w.retransmits + n, W.MAX_TIMEOUTS)
    ensures !ReadAfter(r, n).status.TornDown? && !WriteAfter(w, n).status.TornDown?
  {
    if n > 0 {
      ServersGiveUp(r, w, n - 1);
    }
  }

  /** A client session that has just sent something sends it five times more, after
      delays that double, and closes with the fifth. */
  lemma {:induction false} ClientsGiveUp(g: R.Client, p: W.Client, n: nat)
    requires g.status.Running? && g.timeouts == 0 && p.status.Running? && p.timeouts == 0
    ensures GetAfter(g, n).status == if n <= R.MAXTIMEOUTS + 1 then R.Running else R.GaveUp
    ensures PutAfter(p, n).status == if n <= W.MAXTIMEOUTS + 1 then W.Running else W.GaveUp
    ensures n <= R.MAXTIMEOUTS + 2 ==> GetAfter(g, n).timeouts == n
    ensures n <= W.MAXTIMEOUTS + 2 ==> PutAfter(p, n).timeouts == n
    ensures GetAfter(g, n).resend == g.resend && PutAfter(p, n).resend == p.resend
  {
    if n > 0 {
      ClientsGiveUp(g, p, n - 1);
    }
  }

  /** The time from sending to closing: the first delay is TIMEOUT, the one after
      the k-th timer event TIMEOUT * 2^k, for the four events that do not close. */
  function WaitUntil(n: nat): int {
    if n == 0 then TIMEOUT else WaitUntil(n - 1) + TIMEOUT * Pow(2, n)
  }

  lemma {:induction false} TotalWait(n: nat)
    ensures WaitUntil(n) == 20000 * (Pow(2, n + 1) - 1)
  {
    if n > 0 {
      TotalWait(n - 1);
      assert Pow(2, n + 1) == 2 * Pow(2, n);
    } else {
      assert Pow(2, 1) == 2 * Pow(2, 0);
    }
  }
}
