/** The 22-byte part header (cidbmessages.h:119-162, cidbmessages.c:12-79). */
module Headers {
  import opened Machine

  const HEADER_SIZE := 22
  const TOTAL_SIZE := 2048
  const DATA_SIZE := TOTAL_SIZE - HEADER_SIZE

  datatype Header = Header(
    clientid: u16, cmd: u8, subcmd: u8, msgid: u32, flags: u16, dataSize: u32, partSize: u32, offset: u32)

  function HeaderBytes(h: Header): (r: bytes)
    ensures |r| == HEADER_SIZE
  {
    IdentityBytes(h) + LE32(h.dataSize) + LE32(h.partSize) + LE32(h.offset)
  }

  function ParseHeader(s: bytes): Header
    requires |s| >= HEADER_SIZE
  {
    Header(Get16(s, 0), s[2], s[3], Get32(s, 4), Get16(s, 8), Get32(s, 10), Get32(s, 14), Get32(s, 18))
  }

  /** The header codec is a bijection between headers and 22-byte prefixes. */
  lemma ParseHeaderBytes(h: Header, rest: bytes)
    ensures ParseHeader(HeaderBytes(h) + rest) == h
  {
    hide LE16, LE32, Get16, Get32;
    var s := HeaderBytes(h) + rest;
    Get16At(s, 0, h.clientid);
    Get32At(s, 4, h.msgid);
    Get16At(s, 8, h.flags);
    Get32At(s, 10, h.dataSize);
    Get32At(s, 14, h.partSize);
    Get32At(s, 18, h.offset);
  }

  lemma Get16At(s: bytes, off: nat, v: u16)
    requires off + 2 <= |s| && s[off..off + 2] == LE16(v)
    ensures Get16(s, off) == v
  {
    assert s == s[..off] + LE16(v) + s[off + 2..];
    Get16OfLE16(s[..off], v, s[off + 2..]);
  }

  lemma Get32At(s: bytes, off: nat, v: u32)
    requires off + 4 <= |s| && s[off..off + 4] == LE32(v)
    ensures Get32(s, off) == v
  {
    assert s == s[..off] + LE32(v) + s[off + 4..];
    Get32OfLE32(s[..off], v, s[off + 4..]);
  }

  lemma HeaderBytesOfParse(s: bytes)
    requires |s| >= HEADER_SIZE
    ensures HeaderBytes(ParseHeader(s)) == s[..HEADER_SIZE]
  {
    hide LE16, LE32, Get16, Get32;
    LEOfGet(s, 0);
    LEOfGet(s, 4);
    LEOfGet(s, 8);
    LEOfGet(s, 10);
    LEOfGet(s, 14);
    LEOfGet(s, 18);
  }

  method PrepareHeader(dst: array<u8>, h: Header) returns (bytes: u32)
    requires dst.Length >= HEADER_SIZE
    modifies dst
    ensures bytes == HEADER_SIZE
    ensures dst[..] == Splice(old(dst[..]), 0, HeaderBytes(h))
  {
    hide Splice, LE16, LE32;
    ghost var was := dst[..];
    PrepareIdentity(dst, h);
    SetUlong(dst, 10, h.dataSize);
    SpliceSplice(was, 0, IdentityBytes(h), LE32(h.dataSize));
    SetUlong(dst, 14, h.partSize);
    SpliceSplice(was, 0, IdentityBytes(h) + LE32(h.dataSize), LE32(h.partSize));
    SetUlong(dst, 18, h.offset);
    SpliceSplice(was, 0, IdentityBytes(h) + LE32(h.dataSize) + LE32(h.partSize), LE32(h.offset));
    bytes := HEADER_SIZE;
  }

  function IdentityBytes(h: Header): (r: bytes)
    ensures |r| == 10
  {
    LE16(h.clientid) + [h.cmd, h.subcmd] + LE32(h.msgid) + LE16(h.flags)
  }

  /** The fields that are the same in every part. */
  method PrepareIdentity(dst: array<u8>, h: Header)
    requires dst.Length >= HEADER_SIZE
    modifies dst
    ensures dst[..] == Splice(old(dst[..]), 0, IdentityBytes(h))
  {
    hide Splice, LE16, LE32;
    ghost var was, kind := dst[..], LE16(h.clientid) + [h.cmd, h.subcmd];
    SetUshort(dst, 0, h.clientid);
    assert h.cmd % 256 == h.cmd && h.subcmd % 256 == h.subcmd;
    SetUchar(dst, 2, h.cmd);
    SpliceSplice(was, 0, LE16(h.clientid), [h.cmd]);
    assert dst[..] == Splice(was, 0, LE16(h.clientid) + [h.cmd]);
    SetUchar(dst, 3, h.subcmd);
    SpliceSplice(was, 0, LE16(h.clientid) + [h.cmd], [h.subcmd]);
    assert LE16(h.clientid) + [h.cmd] + [h.subcmd] == kind;
    assert dst[..] == Splice(was, 0, kind);
    SetUlong(dst, 4, h.msgid);
    SpliceSplice(was, 0, kind, LE32(h.msgid));
    assert dst[..] == Splice(was, 0, kind + LE32(h.msgid));
    SetUshort(dst, 8, h.flags);
    SpliceSplice(was, 0, kind + LE32(h.msgid), LE16(h.flags));
  }

  method ReadHeader(src: array<u8>) returns (h: Header)
    requires src.Length >= HEADER_SIZE
    ensures h == ParseHeader(src[..])
  {
    h := Header(
      Word(src, 0), src[2], src[3], Long(src, 4), Word(src, 8), Long(src, 10), Long(src, 14), Long(src, 18));
  }

  /** `CIDBMsg`: a header and the block that holds the data of the whole message. */
  class Msg {
    var header: Header
    var data: array?<u8>

    /** `malloc` of the structure: nothing is known of its contents. */
    constructor (garbage: Header)
      ensures header == garbage && data == null
    {
      header := garbage;
      data := null;
    }
  }
}
