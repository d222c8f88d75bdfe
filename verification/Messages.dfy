/** Messages, their wire grammar and what travelling does to them
    (cidbmessages.h:7-88, 171-187; cidbmessages.c:336-855). */
module Messages {
  import opened Machine
  import opened CStrings
  import opened Tables

  const REGISTER: u8 := 0x01
  const CALLER_LIST: u8 := 0x02
  const READ_CALLER: u8 := 0x03
  const WRITE_CALLER: u8 := 0x04
  const WRITE_CALL: u8 := 0x05
  const CALL_LIST: u8 := 0x06
  const SHOWTABLES: u8 := 0x07
  const DESCRIBE_TABLE: u8 := 0x08
  const DELETE_CALLER: u8 := 0x09
  const LIST_INFO: u8 := 0x0a
  const LISTEN: u8 := 0x0b
  const QUERY: u8 := 0x80
  const RESP: u8 := 0x81

  /** `CIDBMessage`; a null string list is None. */
  datatype Message = Message(
    cmd: u8, subcmd: u8, msgid: u32, clientid: u16, errcode: u16, userid: u16, flags: u32,
    nstrings: u16, strings: Option<seq<CPtr>>, table: Table,
    index: u32, offset: u32, count: u16, mask: u32, maxentries: u32)

  function Zero(cmd: u8, subcmd: u8): Message {
    Message(cmd, subcmd, 0, 0, 0, 0, 0, 0, None, NO_TABLE, 0, 0, 0, 0, 0)
  }

  // ---- the documented grammar ----

  datatype Field =
    | Errcode | ClientId | UserId | Flags | Index | Offset | Count | Mask | MaxEntries
    | Str      // one string
    | Strings  // a count and that many strings
    | Tab      // a table

  predicate IsSub(subcmd: u8) {
    subcmd == QUERY || subcmd == RESP
  }

  predicate Known(cmd: u8, subcmd: u8) {
    REGISTER <= cmd <= LISTEN && IsSub(subcmd)
  }

  /** The data part of each message, as documented beside the command codes. */
  function Layout(cmd: u8, subcmd: u8): seq<Field>
    requires Known(cmd, subcmd)
  {
    if subcmd == QUERY then
      if cmd == CALLER_LIST then [UserId, Str]
      else if cmd == READ_CALLER then [UserId, Flags, Str]
      else if cmd == WRITE_CALLER then [UserId, Flags, Tab]
      else if cmd == WRITE_CALL then [Tab]
      else if cmd == CALL_LIST then [Offset, Count]
      else if cmd == DESCRIBE_TABLE then [Str]
      else if cmd == DELETE_CALLER then [UserId, Strings]
      else if cmd == LISTEN then [Mask]
      else []  // REGISTER, SHOWTABLES, LIST_INFO
    else
      if cmd == REGISTER then [Errcode, ClientId]
      else if cmd == CALLER_LIST || cmd == READ_CALLER || cmd == CALL_LIST then [Errcode, Tab]
      else if cmd == WRITE_CALLER || cmd == WRITE_CALL then [Errcode, Index]
      else if cmd == SHOWTABLES || cmd == DESCRIBE_TABLE then [Errcode, Strings]
      else if cmd == LIST_INFO then [Errcode, MaxEntries]
      else [Errcode]  // DELETE_CALLER, LISTEN
  }

  /** What the writer accepts: it takes any subcommand of LISTEN but QUERY for a response. */
  predicate Writable(cmd: u8, subcmd: u8) {
    Known(cmd, subcmd) || cmd == LISTEN
  }

  function WriteLayout(cmd: u8, subcmd: u8): seq<Field>
    requires Writable(cmd, subcmd)
  {
    if Known(cmd, subcmd) then Layout(cmd, subcmd) else [Errcode]
  }

  // ---- encoding ----

  function First(m: Message): CPtr {
    if m.strings.Some? && m.strings.value != [] then m.strings.value[0] else Null
  }

  function Listed(m: Message): seq<CPtr>
    requires m.strings.Some? ==> m.nstrings <= |m.strings.value|
  {
    if m.strings.Some? then m.strings.value[..m.nstrings] else []
  }

  /** The pointers that the field's code follows may be followed. */
  predicate Readable(m: Message, f: Field) {
    match f
    case Str => m.strings.Some? ==> m.strings.value != [] && m.strings.value[0] != Uninit
    case Strings => m.strings.Some? ==>
      m.nstrings <= |m.strings.value| && Uninit !in m.strings.value[..m.nstrings]
    case Tab => ValidTable(m.table) && Null !in m.table.columns[..m.table.ncols]
    case _ => true
  }

  predicate AllReadable(m: Message, fs: seq<Field>) {
    forall f | f in fs :: Readable(m, f)
  }

  function EncField(m: Message, f: Field): bytes
    requires Readable(m, f)
  {
    match f
    case Errcode => LE16(m.errcode)
    case ClientId => LE16(m.clientid)
    case UserId => LE16(m.userid)
    case Flags => LE16(m.flags % B16)
    case Index => LE32(m.index)
    case Offset => LE32(m.offset)
    case Count => LE16(m.count)
    case Mask => LE32(m.mask)
    case MaxEntries => LE32(m.maxentries)
    case Str => EncStr(First(m))
    case Strings => LE16(|Listed(m)|) + EncStrs(Listed(m))
    case Tab => EncTable(m.table)
  }

  function EncFields(m: Message, fs: seq<Field>): bytes
    requires AllReadable(m, fs)
  {
    if fs == [] then []
    else if |fs| == 1 then EncField(m, fs[0])
    else EncField(m, fs[0]) + EncFields(m, fs[1..])
  }

  /** A DELETE_CALLER query is sized from its first two strings, whatever `nstrings` says. */
  predicate DeleteReadable(m: Message) {
    if m.strings.Some? then |m.strings.value| >= 2 && m.strings.value[0] != Uninit && m.strings.value[1] != Uninit
    else m.nstrings == 0
  }

  /** Every pointer that sizing and writing the message follow may be followed. */
  predicate Defined(m: Message) {
    && Writable(m.cmd, m.subcmd)
    && AllReadable(m, WriteLayout(m.cmd, m.subcmd))
    && (m.cmd == DELETE_CALLER && m.subcmd == QUERY ==> DeleteReadable(m))
  }

  function Nth(m: Message, i: nat): CPtr {
    if m.strings.Some? && i < |m.strings.value| then m.strings.value[i] else Null
  }

  /** What the sizing switch adds up, before 32-bit wrapping. */
  function Size(m: Message): nat
    requires Defined(m)
  {
    if m.cmd == DELETE_CALLER && m.subcmd == QUERY then 4 + |EncStr(Nth(m, 0))| + |EncStr(Nth(m, 1))|
    else |EncFields(m, WriteLayout(m.cmd, m.subcmd))|
  }

  /** What the writing switch stores. */
  function Written(m: Message): bytes
    requires Defined(m)
  {
    if m.cmd == DESCRIBE_TABLE && m.subcmd == QUERY && m.strings.None? then [0, 0]
    else EncFields(m, WriteLayout(m.cmd, m.subcmd))
  }

  /** The conditions under which the two switches agree. */
  predicate FitsBlock(m: Message) {
    && (m.cmd == DELETE_CALLER && m.subcmd == QUERY ==> m.nstrings <= 2)
    && (m.cmd == DESCRIBE_TABLE && m.subcmd == QUERY ==> m.strings.Some?)
  }

  predicate FillsBlock(m: Message) {
    FitsBlock(m) && (m.cmd == DELETE_CALLER && m.subcmd == QUERY ==> m.nstrings == 2)
  }

  lemma EncStrNonEmpty(p: CPtr)
    ensures |EncStr(p)| >= 1
  {
  }

  lemma EncStrsTwo(ps: seq<CPtr>)
    ensures |ps| == 1 ==> EncStrs(ps) == EncStr(ps[0])
    ensures |ps| >= 2 ==> EncStrs(ps) == EncStr(ps[0]) + EncStr(ps[1]) + EncStrs(ps[2..])
    ensures |EncStrs(ps)| >= |ps|
  {
    hide EncStr;
    if ps != [] {
      EncStrNonEmpty(ps[0]);
      EncStrsTwo(ps[1..]);
      if |ps| >= 2 {
        assert ps[1..][1..] == ps[2..];
      }
    }
  }

  /** The sizing and the writing switch agree: the writer stays inside the block exactly when a
      DELETE_CALLER query has at most two strings and a DESCRIBE_TABLE query has a list, and it
      fills the block exactly when that query has two. */
  lemma SwitchesAgree(m: Message)
    requires Defined(m)
    ensures |Written(m)| <= Size(m) <==> FitsBlock(m)
    ensures |Written(m)| == Size(m) <==> FillsBlock(m)
  {
    hide EncStr, EncStrs;
    if m.cmd == DELETE_CALLER && m.subcmd == QUERY {
      assert Strings in WriteLayout(m.cmd, m.subcmd);
      var ps := Listed(m);
      EncStrsTwo(ps);
      EncStrNonEmpty(Nth(m, 0));
      EncStrNonEmpty(Nth(m, 1));
      assert |EncFields(m, [UserId, Strings])| == 4 + |EncStrs(ps)| by { DeleteLayout(m); }
      assert |Written(m)| == 4 + |EncStrs(ps)|;
      if |ps| == 0 {
        EncStrsEmpty();
      } else if |ps| == 2 {
        assert ps[2..] == [];
        EncStrsEmpty();
      } else if |ps| > 2 {
        EncStrsTwo(ps[2..]);
      }
    } else if m.cmd == DESCRIBE_TABLE && m.subcmd == QUERY && m.strings.None? {
      assert |EncStr(Null)| == 1 by { EncNull(); }
    }
  }

  lemma DeleteLayout(m: Message)
    requires AllReadable(m, [UserId, Strings]) && Strings in [UserId, Strings]
    ensures EncFields(m, [UserId, Strings]) == LE16(m.userid) + (LE16(|Listed(m)|) + EncStrs(Listed(m)))
  {
    hide EncStrs;
    assert [UserId, Strings][1..] == [Strings];
  }

  lemma EncNull()
    ensures EncStr(Null) == [0]
  {
  }

  // ---- decoding ----

  function ParseField(f: Field, s: bytes, acc: Message): (r: Option<Parsed<Message>>)
    ensures r.Some? ==> r.value.size <= |s|
  {
    match f
    case Str =>
      var p := ParseStr(s);
      if p.None? then None
      else Some(Parsed(acc.(nstrings := 1, strings := Some([p.value.value])), p.value.size))
    case Strings =>
      if |s| < 2 then None
      else
        var p := ParseStrs(s[2..], Get16(s, 0));
        if p.None? then None
        else Some(Parsed(acc.(nstrings := Get16(s, 0),
                              strings := if Get16(s, 0) == 0 then None else Some(p.value.value)),
                         2 + p.value.size))
    case Tab =>
      var p := ParseTable(s);
      if p.None? then None else Some(Parsed(acc.(table := p.value.value), p.value.size))
    case Index => if |s| < 4 then None else Some(Parsed(acc.(index := Get32(s, 0)), 4))
    case Offset => if |s| < 4 then None else Some(Parsed(acc.(offset := Get32(s, 0)), 4))
    case Mask => if |s| < 4 then None else Some(Parsed(acc.(mask := Get32(s, 0)), 4))
    case MaxEntries => if |s| < 4 then None else Some(Parsed(acc.(maxentries := Get32(s, 0)), 4))
    case Errcode => if |s| < 2 then None else Some(Parsed(acc.(errcode := Get16(s, 0)), 2))
    case ClientId => if |s| < 2 then None else Some(Parsed(acc.(clientid := Get16(s, 0)), 2))
    case UserId => if |s| < 2 then None else Some(Parsed(acc.(userid := Get16(s, 0)), 2))
    case Flags => if |s| < 2 then None else Some(Parsed(acc.(flags := Get16(s, 0)), 2))
    case Count => if |s| < 2 then None else Some(Parsed(acc.(count := Get16(s, 0)), 2))
  }

  function ParseFields(fs: seq<Field>, s: bytes, acc: Message): Option<Message> {
    if fs == [] then Some(acc)
    else
      var p := ParseField(fs[0], s, acc);
      if p.None? then None else ParseFields(fs[1..], s[p.value.size..], p.value.value)
  }

  /** What the reader makes of a command, a subcommand and a data block; None when it would
      read behind the block. */
  function Decode(cmd: u8, subcmd: u8, data: bytes): Option<Message> {
    if !Known(cmd, subcmd) then Some(Zero(cmd, subcmd))
    else ParseFields(Layout(cmd, subcmd), data, Zero(cmd, subcmd))
  }

  // ---- the normal form ----

  function WireFields(m: Message): seq<Field> {
    if Known(m.cmd, m.subcmd) then Layout(m.cmd, m.subcmd) else []
  }

  /** The message the other side sees: the fields its grammar names and nothing else, 16 bits
      of flags, null strings as empty ones, an empty list as a null list. */
  function Norm(m: Message): Message
    requires Defined(m)
  {
    Only(m, WireFields(m))
  }

  function Only(m: Message, fs: seq<Field>): Message
    requires AllReadable(m, fs)
  {
    Message(
      m.cmd, m.subcmd, 0,
      if ClientId in fs then m.clientid else 0,
      if Errcode in fs then m.errcode else 0,
      if UserId in fs then m.userid else 0,
      if Flags in fs then m.flags % B16 else 0,
      if Str in fs then 1 else if Strings in fs then |Listed(m)| else 0,
      if Str in fs then Some([NormPtr(First(m))])
      else if Strings in fs && Listed(m) != [] then Some(NormPtrs(Listed(m))) else None,
      if Tab in fs then NormTable(m.table) else NO_TABLE,
      if Index in fs then m.index else 0,
      if Offset in fs then m.offset else 0,
      if Count in fs then m.count else 0,
      if Mask in fs then m.mask else 0,
      if MaxEntries in fs then m.maxentries else 0)
  }

  predicate RowsFit(m: Message) {
    Tab in WireFields(m) ==> IndexFits(m.table)
  }

  // ---- the round trip ----

  /** The field's effect on the receiving message. */
  function Carry(f: Field, m: Message, acc: Message): Message
    requires Readable(m, f)
  {
    match f
    case Errcode => acc.(errcode := m.errcode)
    case ClientId => acc.(clientid := m.clientid)
    case UserId => acc.(userid := m.userid)
    case Flags => acc.(flags := m.flags % B16)
    case Index => acc.(index := m.index)
    case Offset => acc.(offset := m.offset)
    case Count => acc.(count := m.count)
    case Mask => acc.(mask := m.mask)
    case MaxEntries => acc.(maxentries := m.maxentries)
    case Str => acc.(nstrings := 1, strings := Some([NormPtr(First(m))]))
    case Strings => acc.(nstrings := |Listed(m)|,
                         strings := if Listed(m) == [] then None else Some(NormPtrs(Listed(m))))
    case Tab => acc.(table := ReadBack(m.table))
  }

  function CarryAll(fs: seq<Field>, m: Message, acc: Message): Message
    requires AllReadable(m, fs)
  {
    if fs == [] then acc else CarryAll(fs[1..], m, Carry(fs[0], m, acc))
  }

  lemma Get16First(v: u16, rest: bytes)
    ensures Get16(LE16(v) + rest, 0) == v
  {
    Get16OfLE16([], v, rest);
    assert [] + LE16(v) + rest == LE16(v) + rest;
  }

  lemma Get32First(v: u32, rest: bytes)
    ensures Get32(LE32(v) + rest, 0) == v
  {
    Get32OfLE32([], v, rest);
    assert [] + LE32(v) + rest == LE32(v) + rest;
  }

  /** One field, whatever follows it. */
  lemma ParseEncField(f: Field, m: Message, rest: bytes, acc: Message)
    requires Readable(m, f)
    ensures ParseField(f, EncField(m, f) + rest, acc) == Some(Parsed(Carry(f, m, acc), |EncField(m, f)|))
  {
    hide LE16, LE32, Get16, Get32, EncStr, EncStrs, ParseStr, ParseStrs, ParseTable, EncTable, ReadBack, ValidTable,
         NormPtr;
    match f
    case Str => ParseEncStr(First(m), rest);
    case Strings =>
      var n, e := |Listed(m)|, EncStrs(Listed(m));
      Get16First(n, e + rest);
      assert EncField(m, f) + rest == LE16(n) + (e + rest);
      assert (LE16(n) + (e + rest))[2..] == e + rest;
      ParseEncStrs(Listed(m), rest);
    case Tab => ParseEncTable(m.table, rest);
    case Errcode => Get16First(m.errcode, rest);
    case ClientId => Get16First(m.clientid, rest);
    case UserId => Get16First(m.userid, rest);
    case Flags => Get16First(m.flags % B16, rest);
    case Count => Get16First(m.count, rest);
    case Index => Get32First(m.index, rest);
    case Offset => Get32First(m.offset, rest);
    case Mask => Get32First(m.mask, rest);
    case MaxEntries => Get32First(m.maxentries, rest);
  }

  /** Any list of fields, whatever follows it. */
  lemma {:induction false} ParseEncFields(fs: seq<Field>, m: Message, rest: bytes, acc: Message)
    requires AllReadable(m, fs)
    ensures ParseFields(fs, EncFields(m, fs) + rest, acc) == Some(CarryAll(fs, m, acc))
  {
    hide ParseField, EncField, Carry, Readable;
    if fs != [] {
      var e := EncField(m, fs[0]);
      var s := EncFields(m, fs[1..]) + rest;
      assert EncFields(m, fs) + rest == e + s;
      ParseEncField(fs[0], m, s, acc);
      assert (e + s)[|e|..] == s;
      ParseEncFields(fs[1..], m, rest, Carry(fs[0], m, acc));
    }
  }

  /** The message read: its normal form but for the table, which is what was read back. */
  function Received(m: Message, fs: seq<Field>): Message
    requires AllReadable(m, fs)
  {
    Only(m, fs).(table := if Tab in fs then ReadBack(m.table) else NO_TABLE)
  }

  lemma {:induction false} CarryIsReceived(done: seq<Field>, fs: seq<Field>, m: Message)
    requires AllReadable(m, done + fs) && AllReadable(m, done) && AllReadable(m, fs)
    requires Str in done + fs ==> Strings !in done + fs
    ensures CarryAll(fs, m, Received(m, done)) == Received(m, done + fs)
    decreases |fs|
  {
    hide Readable, Carry, Received;
    if fs == [] {
      assert done + fs == done;
    } else {
      assert done + fs == done + [fs[0]] + fs[1..];
      CarryStep(done, fs[0], m);
      CarryIsReceived(done + [fs[0]], fs[1..], m);
    }
  }

  lemma CarryStep(done: seq<Field>, f: Field, m: Message)
    requires AllReadable(m, done + [f]) && AllReadable(m, done) && Readable(m, f)
    requires Str in done + [f] ==> Strings !in done + [f]
    ensures Carry(f, m, Received(m, done)) == Received(m, done + [f])
  {
    hide Received, Carry, Readable;
    assert forall g: Field :: g in done + [f] <==> g in done || g == f;
    if f.Str? || f.Strings? || f.Tab? {
      CarryList(done, done + [f], f, m);
    } else {
      CarryWord(done, done + [f], f, m);
    }
  }

  lemma CarryWord(done: seq<Field>, next: seq<Field>, f: Field, m: Message)
    requires AllReadable(m, next) && AllReadable(m, done) && !f.Str? && !f.Strings? && !f.Tab?
    requires forall g: Field :: g in next <==> g in done || g == f
    ensures Carry(f, m, Received(m, done)) == Received(m, next)
  {
    hide NormPtr, NormPtrs, NormTable, ReadBack, ValidTable, Readable, AllReadable, Listed, First;
  }

  lemma CarryList(done: seq<Field>, next: seq<Field>, f: Field, m: Message)
    requires AllReadable(m, next) && AllReadable(m, done) && Readable(m, f) && (f.Str? || f.Strings? || f.Tab?)
    requires forall g: Field :: g in next <==> g in done || g == f
    requires Str in next ==> Strings !in next
    ensures Carry(f, m, Received(m, done)) == Received(m, next)
  {
    hide NormPtr, NormPtrs, NormTable, ReadBack, ValidTable;
  }

  lemma CarryIsNorm(m: Message)
    requires Defined(m) && Known(m.cmd, m.subcmd)
    ensures CarryAll(WireFields(m), m, Zero(m.cmd, m.subcmd)) == Norm(m) <==> RowsFit(m)
  {
    hide NormPtr, NormPtrs, NormTable, ReadBack, ValidTable, IndexFits, Readable;
    var fs := WireFields(m);
    assert [] + fs == fs;
    CarryIsReceived([], fs, m);
    if Tab in fs {
      assert Readable(m, Tab);
      TabReadBack(m);
    }
  }

  lemma TabReadBack(m: Message)
    requires Readable(m, Tab)
    ensures ReadBack(m.table) == NormTable(m.table) <==> IndexFits(m.table)
  {
    ReadBackIsNorm(m.table);
  }

  /** Decoding what was written, whatever the rest of the block holds, gives the normal form
      if and only if the rows of a table it carries fit their index. */
  lemma MessageRoundTrip(m: Message, rest: bytes)
    requires Defined(m) && FitsBlock(m)
    ensures Decode(m.cmd, m.subcmd, Written(m) + rest).Some?
    ensures Decode(m.cmd, m.subcmd, Written(m) + rest) == Some(Norm(m)) <==> RowsFit(m)
  {
    hide EncFields, ParseFields, CarryAll, Readable, NormTable, NormPtr, NormPtrs;
    if Known(m.cmd, m.subcmd) {
      var fs := WireFields(m);
      ParseEncFields(fs, m, rest, Zero(m.cmd, m.subcmd));
      CarryIsNorm(m);
    }
  }
}
