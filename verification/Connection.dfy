/** Sending and receiving a message over a socket that delivers one part per call
    (cidbconnection.c). */
module Connection {
  import opened Machine
  import opened Headers
  import opened Fragments
  import opened Messages
  import opened MessageCodec

  /** The peer's view of a socket: the packets sent, and the packets still to be received. */
  class Socket {
    var sent: seq<bytes>
    var incoming: seq<bytes>

    constructor (incoming: seq<bytes>)
      ensures sent == [] && this.incoming == incoming
    {
      sent := [];
      this.incoming := incoming;
    }

    /** The kernel may take all of it, some of it, or fail. */
    method Send(buffer: array<u8>, bytes: u32) returns (rc: int)
      requires bytes <= buffer.Length
      modifies this`sent
      ensures rc <= bytes
      ensures sent == old(sent) + (if rc > 0 then [buffer[..rc]] else [])
    {
      rc := *;
      if rc > bytes {
        rc := bytes;
      }
      if rc > 0 {
        sent := sent + [buffer[..rc]];
      }
    }

    /** The next packet, cut to the buffer; 0 when the peer has closed. */
    method Recv(buffer: array<u8>) returns (rc: u32)
      requires buffer.Length < B32
      modifies this`incoming, buffer
      ensures old(incoming) == [] ==> rc == 0 && incoming == []
      ensures old(incoming) != [] ==>
                && incoming == old(incoming)[1..]
                && rc == (if |old(incoming)[0]| < buffer.Length then |old(incoming)[0]| else buffer.Length)
                && buffer[..rc] == old(incoming)[0][..rc]
    {
      rc := 0;
      if incoming != [] {
        rc := if |incoming[0]| < buffer.Length then |incoming[0]| else buffer.Length;
        Memcpy(buffer, 0, incoming[0][..rc]);
        incoming := incoming[1..];
      }
    }
  }

  /** Not all of the parts were sent: some of the first ones, and at most a proper prefix of the
      next. */
  ghost predicate CutShort(sent: seq<bytes>, before: seq<bytes>, parts: seq<bytes>) {
    exists k, torn: seq<bytes> | 0 <= k < |parts| && sent == before + parts[..k] + torn ::
      torn == [] || (|torn| == 1 && torn[0] < parts[k])
  }

  /** `cidbcon_send_message`: on success exactly the parts of the message went out, in order; on
      failure some first parts and at most a proper prefix of the next. */
  method SendMessage(sock: Socket, m: Message) returns (rc: int, ghost data: bytes)
    requires Defined(m) && FitsBlock(m) && Size(m) < B32
    modifies sock`sent
    ensures |data| == Size(m) && Written(m) <= data
    ensures rc == 0 || rc == 1
    ensures rc == 0 ==> sock.sent == old(sock.sent) + Parts(HeaderOf(m), data)
    ensures rc == 1 ==> CutShort(sock.sent, old(sock.sent), Parts(HeaderOf(m), data))
  {
    hide Written, Size, Defined, HeaderBytes;
    DefinedIsWritable(m);
    var garbage: Header := *;
    var msg := new Msg(garbage);
    var size := WriteMessage(m, msg);
    SwitchesAgree(m);
    HeaderOfSize(m);
    var tmsg := new Transmission(msg);
    data := tmsg.Data();
    rc := SendParts(sock, tmsg, HeaderOf(m));
  }

  /** The send loop: the first part, then one part after another until none is left. */
  method SendParts(sock: Socket, tmsg: Transmission, ghost h: Header) returns (rc: int)
    requires tmsg.Loaded() && tmsg.completeMsg.header.(offset := 0) == h.(offset := 0)
    modifies sock`sent, tmsg, tmsg.completeMsg`header
    ensures tmsg.Data() == old(tmsg.Data()) && h.dataSize == |tmsg.Data()|
    ensures rc == 0 || rc == 1
    ensures rc == 0 ==> sock.sent == old(sock.sent) + Parts(h, tmsg.Data())
    ensures rc == 1 ==> CutShort(sock.sent, old(sock.sent), Parts(h, tmsg.Data()))
  {
    hide HeaderBytes, Part, PartEnd, PartCount;
    ghost var data, before := tmsg.Data(), sock.sent;
    ghost var parts := Parts(h, data);
    var buffer := new u8[TOTAL_SIZE];
    assert PartHeader(tmsg.completeMsg.header, 0) == PartHeader(h, 0);
    FirstPart(tmsg.completeMsg.header, h, data);
    var bytes := tmsg.Start(buffer);
    ghost var k := 0;
    assert before + parts[..0] == before;
    while bytes > 0
      invariant 0 <= k < PartCount(|data|)
      invariant fresh(buffer) && buffer != tmsg.completeMsg.data
      invariant bytes > 0 ==> bytes <= TOTAL_SIZE && buffer[..bytes] == parts[k]
      invariant sock.sent == before + if bytes > 0 then parts[..k] else parts
      invariant tmsg.Loaded() && tmsg.Data() == data
      invariant tmsg.completeMsg.header == PartHeader(h, k) && tmsg.offset == PartEnd(|data|, k)
      decreases PartCount(|data|) - k, bytes
    {
      var done := sock.Send(buffer, bytes);
      if done != bytes {
        ghost var torn := if done > 0 then [buffer[..done]] else [];
        assert sock.sent == before + parts[..k] + torn;
        assert done > 0 ==> buffer[..done] == parts[k][..done];
        return 1;
      }
      assert parts[..k] + [parts[k]] == parts[..k + 1];
      bytes := tmsg.Continue(buffer, h, k);
      if bytes > 0 {
        k := k + 1;
      }
    }
    rc := 0;
  }

  lemma FirstPart(g: Header, h: Header, data: bytes)
    requires g.(offset := 0) == h.(offset := 0) && h.dataSize == |data|
    ensures Part(g, data, 0) == Part(h, data, 0)
  {
    assert PartHeader(g, 0) == PartHeader(h, 0);
  }

  lemma HeaderOfSize(m: Message)
    requires Defined(m) && Size(m) < B32
    ensures HeaderOf(m).dataSize == Size(m)
  {
  }

  // ---- receiving ----

  /** How the receive loop ends: with a message, and the packets it left, or without. */
  datatype Receipt = Done(header: Header, data: bytes, rest: seq<bytes>) | Failed(rest: seq<bytes>)

  /** The packet as it arrives in the buffer. */
  function Cut(packet: bytes): bytes {
    if |packet| < TOTAL_SIZE then packet else packet[..TOTAL_SIZE]
  }

  /** The part's payload arrived with it and lies inside the block. */
  predicate Fits(packet: bytes, size: nat) {
    && |packet| >= HEADER_SIZE
    && var h := ParseHeader(packet);
       && HEADER_SIZE + h.partSize <= |packet|
       && h.offset + h.partSize <= size
  }

  function Place(data: bytes, packet: bytes): (r: bytes)
    requires Fits(packet, |data|)
    ensures |r| == |data|
  {
    var h := ParseHeader(packet);
    Splice(data, h.offset, packet[HEADER_SIZE..HEADER_SIZE + h.partSize])
  }

  /** Every packet that the loop would place can be placed. */
  predicate AllFit(header: Header, got: u32, packets: seq<bytes>)
    decreases |packets|
  {
    got >= header.dataSize || packets == [] || |Cut(packets[0])| < HEADER_SIZE
    || (Fits(Cut(packets[0]), header.dataSize)
        && AllFit(header, (got + ParseHeader(Cut(packets[0])).partSize) % B32, packets[1..]))
  }

  /** The receive loop: `got` bytes have been counted, `data` is the block so far. */
  function Collect(header: Header, data: bytes, got: u32, packets: seq<bytes>): Receipt
    requires |data| == header.dataSize && AllFit(header, got, packets)
    decreases |packets|
  {
    if got >= header.dataSize then Done(header.(partSize := got, offset := 0), data, packets)
    else if packets == [] then Failed([])
    else if |Cut(packets[0])| < HEADER_SIZE then Failed(packets[1..])
    else
      var p := Cut(packets[0]);
      Collect(header, Place(data, p), (got + ParseHeader(p).partSize) % B32, packets[1..])
  }

  predicate Receivable(packets: seq<bytes>) {
    packets == [] || |Cut(packets[0])| < HEADER_SIZE
    || var h := ParseHeader(Cut(packets[0]));
       h.dataSize > 0 ==> Fits(Cut(packets[0]), h.dataSize) && AllFit(h, h.partSize, packets[1..])
  }

  /** The whole of `cidbcon_recv_message` up to the reading of the message; `junk` is what the
      fresh block holds. */
  function ReceiveSpec(packets: seq<bytes>, junk: bytes): Receipt
    requires Receivable(packets)
    requires JunkFor(packets, junk)
  {
    if packets == [] then Failed([])
    else if |Cut(packets[0])| < HEADER_SIZE then Failed(packets[1..])
    else
      var p := Cut(packets[0]);
      var h := ParseHeader(p);
      if h.dataSize == 0 then Done(h.(partSize := 0, offset := 0), [], packets[1..])
      else Collect(h, Place(junk, p), h.partSize, packets[1..])
  }

  /** `recv` into the buffer, read as a part. */
  method RecvPart(sock: Socket, buffer: array<u8>) returns (bytes: u32, header: Header)
    requires buffer.Length == TOTAL_SIZE
    modifies sock`incoming, buffer
    ensures old(sock.incoming) == [] ==> bytes < HEADER_SIZE && sock.incoming == []
    ensures old(sock.incoming) != [] ==>
              && sock.incoming == old(sock.incoming)[1..]
              && bytes == |Cut(old(sock.incoming)[0])| && buffer[..bytes] == Cut(old(sock.incoming)[0])
    ensures bytes <= TOTAL_SIZE
    ensures bytes >= HEADER_SIZE ==> header == ParseHeader(buffer[..bytes])
  {
    hide LE16, LE32;
    bytes := sock.Recv(buffer);
    header := Header(0, 0, 0, 0, 0, 0, 0, 0);
    if bytes >= HEADER_SIZE {
      header := ReadHeader(buffer);
      ParsePrefix(buffer[..], bytes);
      assert buffer[..][..bytes] == buffer[..bytes];
    }
  }

  lemma ParsePrefix(s: bytes, n: nat)
    requires HEADER_SIZE <= n <= |s|
    ensures ParseHeader(s[..n]) == ParseHeader(s)
  {
  }

  method PlacePart(buffer: array<u8>, header: Header, block: array<u8>, ghost bytes: nat)
    requires buffer != block && bytes <= buffer.Length && Fits(buffer[..bytes], block.Length)
    requires header == ParseHeader(buffer[..bytes])
    modifies block
    ensures block[..] == Place(old(block[..]), buffer[..bytes])
  {
    hide ParseHeader;
    assert buffer[..bytes][HEADER_SIZE..HEADER_SIZE + header.partSize]
        == buffer[HEADER_SIZE..HEADER_SIZE + header.partSize];
    Memcpy(block, header.offset, buffer[HEADER_SIZE..HEADER_SIZE + header.partSize]);
  }

  /** The loop of `cidbcon_recv_message`. */
  method CollectParts(sock: Socket, buffer: array<u8>, header: Header, block: array<u8>, first: u32)
    returns (ok: bool, got: u32)
    requires buffer.Length == TOTAL_SIZE && buffer != block && block.Length == header.dataSize
    requires AllFit(header, first, sock.incoming)
    modifies sock`incoming, buffer, block
    ensures var r := Collect(header, old(block[..]), first, old(sock.incoming));
            && ok == r.Done? && sock.incoming == r.rest
            && (ok ==> block[..] == r.data && r.header == header.(partSize := got, offset := 0))
  {
    hide ParseHeader, Place, Fits, Cut;
    got := first;
    while got < header.dataSize
      invariant AllFit(header, got, sock.incoming)
      invariant Collect(header, block[..], got, sock.incoming)
             == Collect(header, old(block[..]), first, old(sock.incoming))
      decreases |sock.incoming|
    {
      ghost var arriving := sock.incoming;
      var bytes, h := RecvPart(sock, buffer);
      if bytes < HEADER_SIZE {
        return false, got;
      }
      assert buffer[..bytes] == Cut(arriving[0]);
      PlacePart(buffer, h, block, bytes);
      got := (got + h.partSize) % B32;
    }
    ok := true;
  }

  /** `cidbcon_recv_message`: it fails exactly when the peer closes or sends less than a header
      too early, and otherwise reads the message that the collected block holds. */
  method RecvMessage(sock: Socket) returns (rc: int, dbmsg: Message, ghost junk: bytes)
    requires Receivable(sock.incoming)
    requires forall j: bytes | JunkFor(sock.incoming, j) && ReceiveSpec(sock.incoming, j).Done? ::
               var r := ReceiveSpec(sock.incoming, j);
               Decode(r.header.cmd, r.header.subcmd, r.data).Some?
    modifies sock`incoming
    ensures JunkFor(old(sock.incoming), junk)
    ensures var r := ReceiveSpec(old(sock.incoming), junk);
            && sock.incoming == r.rest && rc == (if r.Done? then 0 else 1)
            && (r.Done? ==> Decode(r.header.cmd, r.header.subcmd, r.data) == Some(dbmsg))
  {
    hide ParseHeader, Place, Fits, Cut, Decode, AllFit, Collect;
    ghost var arriving := sock.incoming;
    dbmsg := Zero(0, 0);
    junk := [];
    var buffer := new u8[TOTAL_SIZE];
    var bytes, header := RecvPart(sock, buffer);
    if bytes < HEADER_SIZE {
      junk := [];
      return 1, dbmsg, junk;
    }
    var msg := new Msg(header);
    var got: u32 := 0;
    ghost var first := Cut(arriving[0]);
    assert buffer[..bytes] == first && header == ParseHeader(first);
    if header.dataSize > 0 {
      assert Fits(first, header.dataSize);
      var block := new u8[header.dataSize];
      junk := block[..];
      PlacePart(buffer, header, block, bytes);
      var ok;
      ok, got := CollectParts(sock, buffer, header, block, header.partSize);
      if !ok {
        return 1, dbmsg, junk;
      }
      msg.data := block;
    }
    msg.header := header.(partSize := got, offset := 0);
    ghost var r := ReceiveSpec(arriving, junk);
    assert r.Done? && r.header == msg.header && r.data == Contents(msg.data);
    dbmsg := ReadMessage(msg);
    rc := 0;
  }

  predicate JunkFor(packets: seq<bytes>, junk: bytes) {
    packets != [] && |Cut(packets[0])| >= HEADER_SIZE ==> |junk| == ParseHeader(Cut(packets[0])).dataSize
  }
}
