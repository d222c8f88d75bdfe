/** NUL-terminated strings and their length-prefixed form on the wire
    (cidbmessages.c:203-241, 286-334). */
module CStrings {
  import opened Machine

  /** A `char *`: never assigned since `malloc`, null, or pointing at a block whose
      bytes before the closing NUL are `chars`. */
  datatype CPtr = Uninit | Null | Text(chars: bytes)

  /** `strlen` of a block: the distance to the first NUL. */
  function Strlen(chars: bytes): (n: nat)
    ensures n <= |chars|
    ensures 0 !in chars[..n]
    ensures n < |chars| ==> chars[n] == 0
  {
    if chars == [] || chars[0] == 0 then 0
    else
      var n := 1 + Strlen(chars[1..]);
      assert chars[..n] == [chars[0]] + chars[1..][..n - 1];
      n
  }

  lemma StrlenOfPrefix(chars: bytes, k: nat)
    requires k <= Strlen(chars)
    ensures Strlen(chars[..k]) == k
  {
    var n := Strlen(chars[..k]);
    assert chars[..k] == chars[..Strlen(chars)][..k];
  }

  /** The characters that travel: `len` is an unsigned short, so only `strlen` modulo 2^16 of them. */
  function WireText(p: CPtr): (r: bytes)
    ensures |r| < B16
  {
    if p.Text? then p.chars[..Strlen(p.chars) % B16] else []
  }

  /** What a string becomes by travelling. */
  function NormPtr(p: CPtr): CPtr {
    Text(WireText(p))
  }

  function NormPtrs(ps: seq<CPtr>): (r: seq<CPtr>)
    ensures |r| == |ps|
  {
    seq(|ps|, i requires 0 <= i < |ps| => NormPtr(ps[i]))
  }

  lemma WireTextOfNorm(p: CPtr)
    ensures WireText(NormPtr(p)) == WireText(p)
  {
    if p.Text? {
      StrlenOfPrefix(p.chars, Strlen(p.chars) % B16);
    }
  }

  /** A C string that is NUL-free and short enough survives unchanged, and only such a string does. */
  lemma NormPtrIdentity(p: CPtr)
    ensures NormPtr(p) == p <==> p.Text? && 0 !in p.chars && |p.chars| < B16
  {
    if p.Text? && 0 !in p.chars && |p.chars| < B16 {
      assert Strlen(p.chars) == |p.chars|;
    }
  }

  function EncLen(n: u16): bytes {
    if n >= 255 then [255] + LE16(n) else [n]
  }

  function EncStr(p: CPtr): bytes {
    EncLen(|WireText(p)|) + WireText(p)
  }

  function EncStrs(ps: seq<CPtr>): bytes {
    if ps == [] then [] else EncStr(ps[0]) + EncStrs(ps[1..])
  }

  lemma EncStrsConcat(a: seq<CPtr>, b: seq<CPtr>)
    ensures EncStrs(a + b) == EncStrs(a) + EncStrs(b)
  {
    hide EncStr;
    if a == [] {
      assert a + b == b;
    } else {
      EncStrsConcat(a[1..], b);
      assert (a + b)[1..] == a[1..] + b;
    }
  }

  lemma EncStrsAt(ps: seq<CPtr>, i: nat)
    requires i < |ps|
    ensures EncStrs(ps[i..]) == EncStr(ps[i]) + EncStrs(ps[i + 1..])
  {
    hide EncStr;
    assert ps[i..][1..] == ps[i + 1..];
  }

  lemma EncStrsOfNorm(ps: seq<CPtr>)
    ensures EncStrs(NormPtrs(ps)) == EncStrs(ps)
  {
    if ps != [] {
      WireTextOfNorm(ps[0]);
      EncStrsOfNorm(ps[1..]);
      assert NormPtrs(ps)[1..] == NormPtrs(ps[1..]);
    }
  }

  lemma NormPtrsStable(ps: seq<CPtr>)
    ensures NormPtrs(NormPtrs(ps)) == NormPtrs(ps)
  {
    hide WireText;
    forall i | 0 <= i < |ps| ensures NormPtrs(NormPtrs(ps))[i] == NormPtrs(ps)[i] {
      WireTextOfNorm(ps[i]);
    }
  }

  /** A parsed value and the number of bytes it took. */
  datatype Parsed<+T> = Parsed(value: T, size: nat)

  function ParseLen(s: bytes): Option<Parsed<u16>> {
    if |s| < 1 then None
    else if s[0] != 255 then Some(Parsed(s[0], 1))
    else if |s| < 3 then None
    else Some(Parsed(Get16(s, 1), 3))
  }

  /** None when the string does not end inside the block. */
  function ParseStr(s: bytes): (r: Option<Parsed<CPtr>>)
    ensures r.Some? ==> 1 <= r.value.size <= |s|
  {
    var len := ParseLen(s);
    if len.None? || len.value.size + len.value.value > |s| then None
    else
      var end := len.value.size + len.value.value;
      Some(Parsed(Text(s[len.value.size..end]), end))
  }

  function ParseStrs(s: bytes, n: nat): (r: Option<Parsed<seq<CPtr>>>)
    ensures r.Some? ==> |r.value.value| == n && r.value.size <= |s|
  {
    if n == 0 then Some(Parsed([], 0))
    else
      var p := ParseStr(s);
      if p.None? then None
      else
        var q := ParseStrs(s[p.value.size..], n - 1);
        if q.None? then None
        else Some(Parsed([p.value.value] + q.value.value, p.value.size + q.value.size))
  }

  /** The string codec round trip, for every string and whatever follows it. */
  lemma ParseEncStr(p: CPtr, rest: bytes)
    ensures ParseStr(EncStr(p) + rest) == Some(Parsed(NormPtr(p), |EncStr(p)|))
  {
    var t := WireText(p);
    var s := EncStr(p) + rest;
    if |t| >= 255 {
      assert s == [255] + LE16(|t|) + (t + rest);
      Get16OfLE16([255], |t|, t + rest);
    } else {
      assert s[0] == |t|;
    }
    assert ParseLen(s) == Some(Parsed(|t|, |EncLen(|t|)|));
    assert s[|EncLen(|t|)|..|EncStr(p)|] == t;
  }

  lemma {:induction false} ParseEncStrs(ps: seq<CPtr>, rest: bytes)
    ensures ParseStrs(EncStrs(ps) + rest, |ps|) == Some(Parsed(NormPtrs(ps), |EncStrs(ps)|))
  {
    hide EncStr, ParseStr, NormPtr;
    if ps != [] {
      var s := EncStrs(ps) + rest;
      assert s == EncStr(ps[0]) + (EncStrs(ps[1..]) + rest);
      ParseEncStr(ps[0], EncStrs(ps[1..]) + rest);
      assert s[|EncStr(ps[0])|..] == EncStrs(ps[1..]) + rest;
      ParseEncStrs(ps[1..], rest);
      assert [NormPtr(ps[0])] + NormPtrs(ps[1..]) == NormPtrs(ps);
    }
  }

  /** The strings at an offset are the string there and the strings behind it. */
  lemma ParseStrsStep(s: bytes, off: nat, n: nat)
    requires off <= |s| && n > 0 && ParseStrs(s[off..], n).Some?
    ensures ParseStr(s[off..]).Some?
    ensures var p := ParseStr(s[off..]).value;
            && off + p.size <= |s|
            && var q := ParseStrs(s[off + p.size..], n - 1);
            && q.Some?
            && ParseStrs(s[off..], n) == Some(Parsed([p.value] + q.value.value, p.size + q.value.size))
  {
    hide ParseStr;
    var p := ParseStr(s[off..]).value;
    assert s[off..][p.size..] == s[off + p.size..];
  }

  // ---- the buffer operations ----

  method SetStrlen(msg: array<u8>, at: nat, len: u16) returns (bytes: u32)
    requires at + |EncLen(len)| <= msg.Length
    modifies msg
    ensures bytes == |EncLen(len)| <= 3
    ensures msg[..] == Splice(old(msg[..]), at, EncLen(len))
  {
    if len >= 255 {
      SetUchar(msg, at, 0xff);
      SetUshort(msg, at + 1, len);
      SpliceSplice(old(msg[..]), at, [255], LE16(len));
      bytes := 3;
    } else {
      SetUchar(msg, at, len);
      bytes := 1;
    }
  }

  method GetStrlen(msg: array<u8>, at: nat) returns (len: u16, bytes: u32)
    requires at <= msg.Length && ParseLen(msg[at..]).Some?
    ensures ParseLen(msg[at..]) == Some(Parsed(len, bytes))
  {
    len := msg[at];
    bytes := 1;
    if len == 255 {
      len := msg[at + 1] as int + 256 * (msg[at + 2] as int);
      bytes := 3;
    }
  }

  method WriteString(msg: array<u8>, at: nat, str: CPtr) returns (bytes: u32)
    requires str != Uninit
    requires at + |EncStr(str)| <= msg.Length
    modifies msg
    ensures bytes == |EncStr(str)|
    ensures msg[..] == Splice(old(msg[..]), at, EncStr(str))
  {
    hide Splice, Strlen, WireText, EncLen, EncStr;
    WireLength(str);
    var len: u16 := if str.Text? then Strlen(str.chars) % B16 else 0;
    bytes := SetStrlen(msg, at, len);
    if len > 0 {
      CopyChars(msg, at + bytes, str.chars, len);
      SpliceSplice(old(msg[..]), at, EncLen(len), WireText(str));
    } else {
      assert EncStr(str) == EncLen(len);
    }
    bytes := bytes + len;
  }

  lemma WireLength(p: CPtr)
    ensures |WireText(p)| == if p.Text? then Strlen(p.chars) % B16 else 0
    ensures p.Text? ==> |WireText(p)| <= |p.chars| && WireText(p) == p.chars[..|WireText(p)|]
    ensures EncStr(p) == EncLen(|WireText(p)|) + WireText(p)
  {
    if p.Text? {
      assert Strlen(p.chars) % B16 <= Strlen(p.chars);
    }
  }

  /** The character loop of `cidbmsg_write_string`. */
  method CopyChars(msg: array<u8>, at: nat, str: bytes, len: u16)
    requires len <= |str| && at + len <= msg.Length
    modifies msg
    ensures msg[..] == Splice(old(msg[..]), at, str[..len])
  {
    var i := 0;
    while i < len
      invariant 0 <= i <= len
      invariant msg[..] == Splice(old(msg[..]), at, str[..i])
    {
      msg[at + i] := str[i];
      i := i + 1;
    }
  }

  method ReadString(msg: array<u8>, at: nat) returns (bytes: u32, str: CPtr)
    requires at <= msg.Length < B32 && ParseStr(msg[at..]).Some?
    ensures ParseStr(msg[at..]) == Some(Parsed(str, bytes))
  {
    var len;
    len, bytes := GetStrlen(msg, at);
    var head := bytes;
    ghost var s := msg[at..];
    var block := [];
    var i := 0;
    while i < len
      invariant 0 <= i <= len
      invariant bytes == head + i
      invariant block == s[head..bytes]
    {
      block := block + [msg[at + bytes]];
      i, bytes := i + 1, bytes + 1;
    }
    str := Text(block);
  }

  /** `_cidbmsg_read_str`: the characters only, their length already known. */
  method ReadChars(msg: array<u8>, at: nat, len: u16) returns (str: CPtr)
    requires at + len <= msg.Length
    ensures str == Text(msg[at..at + len])
  {
    var buffer := [];
    var k := 0;
    while k < len
      invariant 0 <= k <= len
      invariant buffer == msg[at..at + k]
    {
      buffer := buffer + [msg[at + k]];
      k := k + 1;
    }
    str := Text(buffer);
  }
}
