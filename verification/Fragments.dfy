/** Cutting a message into parts (cidbmessages.c:243-278). */
module Fragments {
  import opened Machine
  import opened Headers

  /** Number of parts of a message of `size` data bytes; an empty message has one. */
  function PartCount(size: nat): (n: nat)
    ensures n >= 1
  {
    if size == 0 then 1 else (size + DATA_SIZE - 1) / DATA_SIZE
  }

  function PartStart(k: nat): nat {
    DATA_SIZE * k
  }

  function PartEnd(size: nat, k: nat): nat {
    if size < PartStart(k + 1) then size else PartStart(k + 1)
  }

  lemma PartBounds(size: nat, k: nat)
    requires k < PartCount(size)
    ensures PartStart(k) <= PartEnd(size, k) <= size
    ensures PartEnd(size, k) - PartStart(k) <= DATA_SIZE
    ensures size > 0 ==> PartStart(k) < PartEnd(size, k)
    ensures PartEnd(size, k) == size <==> k + 1 == PartCount(size)
    ensures k + 1 < PartCount(size) ==> PartEnd(size, k) == PartStart(k + 1)
  {
  }

  function PartHeader(h: Header, k: nat): Header
    requires k < PartCount(h.dataSize)
  {
    PartBounds(h.dataSize, k);
    h.(partSize := PartEnd(h.dataSize, k) - PartStart(k), offset := PartStart(k))
  }

  function Payload(data: bytes, k: nat): bytes
    requires k < PartCount(|data|)
  {
    PartBounds(|data|, k);
    data[PartStart(k)..PartEnd(|data|, k)]
  }

  function Part(h: Header, data: bytes, k: nat): bytes
    requires h.dataSize == |data| && k < PartCount(|data|)
  {
    HeaderBytes(PartHeader(h, k)) + Payload(data, k)
  }

  function Parts(h: Header, data: bytes): (r: seq<bytes>)
    requires h.dataSize == |data|
    ensures |r| == PartCount(|data|)
  {
    seq(PartCount(|data|), k requires 0 <= k < PartCount(|data|) => Part(h, data, k))
  }

  function Joined(data: bytes, k: nat): bytes
    requires k <= PartCount(|data|)
  {
    if k == 0 then [] else Joined(data, k - 1) + Payload(data, k - 1)
  }

  predicate InPart(size: nat, p: nat, k: nat) {
    PartStart(k) <= p < PartEnd(size, k)
  }

  lemma InOnePart(size: nat, p: nat, k: nat)
    requires p < size && k < PartCount(size)
    ensures p / DATA_SIZE < PartCount(size)
    ensures InPart(size, p, k) <==> k == p / DATA_SIZE
  {
  }

  /** The parts tile the data: every byte lies in exactly one part, in order the payloads
      concatenate to the data, no part exceeds a datagram, and only an empty message has an
      empty part. */
  lemma PartsTile(h: Header, data: bytes)
    requires h.dataSize == |data|
    ensures Joined(data, PartCount(|data|)) == data
    ensures forall k | 0 <= k < |Parts(h, data)| ::
              HEADER_SIZE + (if data == [] then 0 else 1) <= |Parts(h, data)[k]| <= TOTAL_SIZE
    ensures forall p: nat, k: nat | p < |data| && k < PartCount(|data|) ::
              InPart(|data|, p, k) <==> k == p / DATA_SIZE
  {
    hide HeaderBytes, InPart, PartCount, PartEnd;
    var n := PartCount(|data|);
    JoinedPrefix(data, n);
    PartBounds(|data|, n - 1);
    forall k | 0 <= k < |Parts(h, data)|
      ensures HEADER_SIZE + (if data == [] then 0 else 1) <= |Parts(h, data)[k]| <= TOTAL_SIZE
    {
      PartBounds(|data|, k);
    }
    forall p: nat, k: nat | p < |data| && k < PartCount(|data|)
      ensures InPart(|data|, p, k) <==> k == p / DATA_SIZE
    {
      InOnePart(|data|, p, k);
    }
  }

  lemma {:induction false} JoinedPrefix(data: bytes, k: nat)
    requires k <= PartCount(|data|)
    ensures k == 0 ==> Joined(data, k) == []
    ensures k > 0 ==> Joined(data, k) == data[..PartEnd(|data|, k - 1)]
  {
    if k > 0 {
      JoinedPrefix(data, k - 1);
      PartBounds(|data|, k - 1);
      if k > 1 {
        PartBounds(|data|, k - 2);
      }
    }
  }

  /** `CIDBMsgTransmission`: a message and how far it has been cut. */
  class Transmission {
    const completeMsg: Msg
    var offset: u32

    constructor (msg: Msg)
      ensures completeMsg == msg
    {
      completeMsg := msg;
      offset := 0;
    }

    /** The block holds the announced number of bytes. */
    predicate Loaded()
      reads completeMsg
    {
      if completeMsg.data == null then completeMsg.header.dataSize == 0
      else completeMsg.data.Length == completeMsg.header.dataSize
    }

    function Data(): bytes
      reads completeMsg, if completeMsg.data == null then {} else {completeMsg.data}
    {
      if completeMsg.data == null then [] else completeMsg.data[..]
    }

    method Start(part: array<u8>) returns (bytes: u32)
      requires Loaded() && part.Length == TOTAL_SIZE && part != completeMsg.data
      modifies part, this, completeMsg`header
      ensures Loaded() && Data() == old(Data())
      ensures completeMsg.header == PartHeader(old(completeMsg.header), 0)
      ensures HEADER_SIZE <= bytes <= TOTAL_SIZE
      ensures part[..bytes] == Part(old(completeMsg.header), Data(), 0)
      ensures offset == PartEnd(|Data()|, 0)
    {
      hide HeaderBytes;
      var size := completeMsg.header.dataSize;
      var partSize: u32 := if DATA_SIZE < size then DATA_SIZE else size;
      completeMsg.header := completeMsg.header.(partSize := partSize, offset := 0);
      var head := PrepareHeader(part, completeMsg.header);
      if completeMsg.data != null {
        Memcpy(part, HEADER_SIZE, completeMsg.data[..partSize]);
      }
      offset := partSize;
      bytes := partSize + HEADER_SIZE;
    }

    /** Returns 0 when everything has been cut, otherwise the next part. */
    method Continue(part: array<u8>, ghost h: Header, ghost k: nat) returns (bytes: u32)
      requires Loaded() && part.Length == TOTAL_SIZE && part != completeMsg.data
      requires h.dataSize == completeMsg.header.dataSize && k < PartCount(h.dataSize)
      requires completeMsg.header == PartHeader(h, k) && offset == PartEnd(h.dataSize, k)
      modifies part, this, completeMsg`header
      ensures Loaded() && Data() == old(Data())
      ensures bytes == 0 <==> k + 1 == PartCount(h.dataSize)
      ensures bytes == 0 ==> completeMsg.header == old(completeMsg.header) && offset == old(offset)
      ensures bytes > 0 ==>
                && completeMsg.header == PartHeader(h, k + 1) && offset == PartEnd(h.dataSize, k + 1)
                && bytes <= TOTAL_SIZE && part[..bytes] == Part(h, Data(), k + 1)
    {
      hide HeaderBytes, PartCount, PartEnd;
      PartBounds(h.dataSize, k);
      var size := completeMsg.header.dataSize;
      if size <= offset {
        return 0;
      }
      PartBounds(h.dataSize, k + 1);
      var partSize: u32 := if DATA_SIZE <= size - offset then DATA_SIZE else size - offset;
      completeMsg.header := completeMsg.header.(partSize := partSize, offset := offset);
      var head := PrepareHeader(part, completeMsg.header);
      Memcpy(part, HEADER_SIZE, completeMsg.data[offset..offset + partSize]);
      offset := offset + partSize;
      bytes := partSize + HEADER_SIZE;
    }
  }
}
