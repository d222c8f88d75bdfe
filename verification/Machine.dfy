/** Fixed-width integers, byte buffers and their little-endian encoding
    (cidbmessages.h). Values are integers with their C range as a subset type, so
    every assignment below also proves that no machine addition wraps. */
module Machine {
  const B16 := 0x1_0000
  const B32 := 0x1_0000_0000

  type u8 = n: int | 0 <= n < 0x100
  type u16 = n: int | 0 <= n < 0x1_0000
  type u32 = n: int | 0 <= n < 0x1_0000_0000
  type bytes = seq<u8>

  datatype Option<+T> = None | Some(value: T)

  function LE16(v: u16): (r: bytes)
    ensures |r| == 2
  {
    [v % 256, v / 256]
  }

  function LE32(v: u32): (r: bytes)
    ensures |r| == 4
  {
    [v % 256, v / 256 % 256, v / 0x1_0000 % 256, v / 0x100_0000]
  }

  function Get16(s: bytes, off: nat): u16
    requires off + 2 <= |s|
  {
    s[off] as int + 256 * (s[off + 1] as int)
  }

  function Get32(s: bytes, off: nat): u32
    requires off + 4 <= |s|
  {
    s[off] as int + 256 * (s[off + 1] as int)
    + 0x1_0000 * (s[off + 2] as int) + 0x100_0000 * (s[off + 3] as int)
  }

  /** `CIDB_GET_USHORT` and `CIDB_GET_ULONG` on a buffer. */
  function Word(src: array<u8>, off: nat): (v: u16)
    requires off + 2 <= src.Length
    reads src
    ensures v == Get16(src[..], off)
  {
    src[off] as int + 256 * (src[off + 1] as int)
  }

  function Long(src: array<u8>, off: nat): (v: u32)
    requires off + 4 <= src.Length
    reads src
    ensures v == Get32(src[..], off)
  {
    src[off] as int + 256 * (src[off + 1] as int)
    + 0x1_0000 * (src[off + 2] as int) + 0x100_0000 * (src[off + 3] as int)
  }

  /** Reading inverts writing wherever the two bytes lie in a buffer ... */
  lemma Get16OfLE16(pre: bytes, v: u16, rest: bytes)
    ensures Get16(pre + LE16(v) + rest, |pre|) == v
  {
    var s := pre + LE16(v) + rest;
    assert s[|pre|] == v % 256 && s[|pre| + 1] == v / 256;
  }

  lemma Get32OfLE32(pre: bytes, v: u32, rest: bytes)
    ensures Get32(pre + LE32(v) + rest, |pre|) == v
  {
    var s := pre + LE32(v) + rest;
    assert forall i | 0 <= i < 4 :: s[|pre| + i] == LE32(v)[i];
    assert v / 256 / 256 == v / 0x1_0000 && v / 0x1_0000 / 256 == v / 0x100_0000;
  }

  lemma BytesOf(a: u8, b: u8, c: u8, d: u8)
    ensures LE16(a as int + 256 * (b as int)) == [a, b]
    ensures LE32(a as int + 256 * (b as int) + 0x1_0000 * (c as int) + 0x100_0000 * (d as int)) == [a, b, c, d]
  {
    var v: int := a as int + 256 * (b as int) + 0x1_0000 * (c as int) + 0x100_0000 * (d as int);
    assert v / 0x1_0000 == c as int + 256 * (d as int);
    assert v / 256 == b as int + 256 * (c as int + 256 * (d as int));
  }

  /** ... and writing inverts reading, so the encoding is a bijection on byte pairs and quadruples. */
  lemma LEOfGet(s: bytes, off: nat)
    requires off + 4 <= |s|
    ensures LE16(Get16(s, off)) == s[off..off + 2]
    ensures LE32(Get32(s, off)) == s[off..off + 4]
  {
    BytesOf(s[off], s[off + 1], s[off + 2], s[off + 3]);
  }

  lemma SliceOfTail<T>(s: seq<T>, at: nat, i: nat, j: nat)
    requires at <= |s| && i <= j <= |s| - at
    ensures s[at..][i..j] == s[at + i..at + j]
  {
  }

  /** The buffer `s` with the bytes from `at` on overwritten by `e`. */
  function Splice<T>(s: seq<T>, at: nat, e: seq<T>): (r: seq<T>)
    requires at + |e| <= |s|
    ensures |r| == |s|
    ensures r[at..at + |e|] == e && r[..at] == s[..at] && r[at + |e|..] == s[at + |e|..]
  {
    s[..at] + e + s[at + |e|..]
  }

  /** Two adjacent writes are one write of the concatenation. */
  lemma SpliceSplice<T>(s: seq<T>, at: nat, a: seq<T>, b: seq<T>)
    requires at + |a| + |b| <= |s|
    ensures Splice(Splice(s, at, a), at + |a|, b) == Splice(s, at, a + b)
  {
  }

  /** One more element behind a write. */
  lemma SpliceSnoc<T>(s: seq<T>, at: nat, a: seq<T>, x: T)
    requires at + |a| < |s|
    ensures Splice(s, at, a)[at + |a| := x] == Splice(s, at, a + [x])
  {
  }

  method SetUchar(dst: array<u8>, off: nat, val: u16)
    requires off < dst.Length
    modifies dst
    ensures dst[..] == Splice(old(dst[..]), off, [val % 256])
  {
    dst[off] := val % 256;
  }

  method SetUshort(dst: array<u8>, off: nat, val: u16)
    requires off + 2 <= dst.Length
    modifies dst
    ensures dst[..] == Splice(old(dst[..]), off, LE16(val))
  {
    dst[off] := val % 256;
    dst[off + 1] := val / 256 % 256;
  }

  method SetUlong(dst: array<u8>, off: nat, val: u32)
    requires off + 4 <= dst.Length
    modifies dst
    ensures dst[..] == Splice(old(dst[..]), off, LE32(val))
  {
    dst[off] := val % 256;
    dst[off + 1] := val / 256 % 256;
    dst[off + 2] := val / 0x1_0000 % 256;
    dst[off + 3] := val / 0x100_0000 % 256;
  }

  /** `memcpy` of a block of values that does not overlap the destination. */
  method Memcpy<T>(dst: array<T>, off: nat, src: seq<T>)
    requires off + |src| <= dst.Length
    modifies dst
    ensures dst[..] == Splice(old(dst[..]), off, src)
  {
    forall k | 0 <= k < |src| {
      dst[off + k] := src[k];
    }
  }
}
