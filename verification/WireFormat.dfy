/** The wire format spelled out: for every command in either direction the bytes that are
    written and the message that is read (cidbmessages.h:7-162), as laws about the codec. */
module WireFormat {
  import opened Machine
  import opened CStrings
  import opened Tables
  import opened Messages
  import opened MessageCodec
  import opened Headers
  import opened Fragments

  // ---- numbers and strings ----

  /** Numbers are little-endian. */
  lemma LittleEndian(v: u16, w: u32)
    ensures var b := LE16(v); |b| == 2 && v == b[0] as int + 256 * (b[1] as int)
    ensures var b := LE32(w);
            |b| == 4
            && w == b[0] as int + 256 * (b[1] as int) + 65536 * (b[2] as int) + 16777216 * (b[3] as int)
  {
    assert w / 256 / 256 == w / 65536 && w / 65536 / 256 == w / 16777216;
  }

  /** The string of a pointer: n is the place of its first NUL. */
  predicate EndsAt(p: CPtr, n: nat) {
    p.Text? && n <= |p.chars| && 0 !in p.chars[..n] && (n < |p.chars| ==> p.chars[n] == 0)
  }

  lemma FirstNul(chars: bytes, n: nat)
    requires n <= |chars| && 0 !in chars[..n] && (n < |chars| ==> chars[n] == 0)
    ensures Strlen(chars) == n
  {
    var k := Strlen(chars);
    assert forall i | 0 <= i < n :: chars[i] in chars[..n];
    assert forall i | 0 <= i < k :: chars[i] in chars[..k];
  }

  /** A string travels as its length modulo 65536, in one byte below 255 and else in two behind
      a 255, and that many characters; the reader gets those. A null pointer travels empty. */
  lemma StringFormat(p: CPtr, n: nat)
    requires p == Null || EndsAt(p, n)
    ensures var text := if p == Null then [] else p.chars[..n % 65536];
            && NormPtr(p) == Text(text)
            && (|text| < 255 ==> EncStr(p) == [|text|] + text)
            && (|text| >= 255 ==> EncStr(p) == [255, |text| % 256, |text| / 256] + text)
  {
    if p != Null {
      FirstNul(p.chars, n);
    }
  }

  /** Strings follow one another. */
  lemma StringsFormat(p: CPtr, ps: seq<CPtr>)
    ensures EncStrs([]) == [] && EncStrs([p]) == EncStr(p) && EncStrs([p] + ps) == EncStr(p) + EncStrs(ps)
  {
    hide EncStr;
    assert [p][1..] == [] && ([p] + ps)[1..] == ps;
  }

  // ---- tables ----

  /** A row's cells are those from its index, cut to 16 bits, on. */
  lemma RowFormat(t: Table, i: nat, j: nat)
    requires ValidTable(t) && i < t.nrows && j < t.ncols
    ensures i * t.ncols % 65536 + j < |t.fields| && |RowAt(t, i)| == t.ncols
    ensures RowAt(t, i)[j] == t.fields[i * t.ncols % 65536 + j]
  {
    RowFits(i, t.nrows, t.ncols);
  }

  /** The dimensions, the column names and the rows. */
  lemma TableFormat(t: Table)
    requires ValidTable(t)
    ensures EncTable(t) == LE16(t.nrows) + LE16(t.ncols) + EncStrs(t.columns[..t.ncols]) + EncStrs(WireRows(t, 0))
    ensures WireRows(t, t.nrows) == []
    ensures forall i: nat | i < t.nrows :: WireRows(t, i) == RowAt(t, i) + WireRows(t, i + 1)
    ensures t.nrows == 0 || (t.nrows - 1) * t.ncols <= 65535 ==> WireRows(t, 0) == t.fields[..t.nrows * t.ncols]
    ensures IndexFits(t) <==> t.nrows == 0 || (t.nrows - 1) * t.ncols <= 65535
  {
    hide LE16, EncStrs, RowAt;
    if IndexFits(t) {
      RowsInOrder(t, 0);
    }
  }

  lemma {:induction false} RowsInOrder(t: Table, i: nat)
    requires ValidTable(t) && IndexFits(t) && i <= t.nrows
    ensures 0 <= i * t.ncols <= t.nrows * t.ncols
    ensures WireRows(t, i) == t.fields[i * t.ncols..t.nrows * t.ncols]
    decreases t.nrows - i
  {
    hide RowAt;
    if i < t.nrows {
      RowsInOrder(t, i + 1);
      RowInOrder(t, i);
    }
  }

  lemma RowInOrder(t: Table, i: nat)
    requires ValidTable(t) && IndexFits(t) && i < t.nrows
    ensures 0 <= i * t.ncols && i * t.ncols + t.ncols == (i + 1) * t.ncols <= t.nrows * t.ncols
    ensures RowAt(t, i) == t.fields[i * t.ncols..(i + 1) * t.ncols]
  {
    RowFits(i, t.nrows, t.ncols);
    assert i * t.ncols <= (t.nrows - 1) * t.ncols by { assert (t.nrows - 1 - i) * t.ncols >= 0; }
  }

  /** The table that is read has the same dimensions, names and cells. */
  lemma TableNorm(t: Table)
    requires ValidTable(t)
    ensures var n := NormTable(t);
            && n.nrows == t.nrows && n.ncols == t.ncols && |n.columns| == t.ncols && |n.fields| == t.nrows * t.ncols
            && (forall i | 0 <= i < |n.columns| :: n.columns[i] == NormPtr(t.columns[i]))
            && (forall i | 0 <= i < |n.fields| :: n.fields[i] == NormPtr(t.fields[i]))
  {
    hide NormPtr;
  }

  // ---- the kinds of messages ----

  lemma Kinds(cmd: u8, subcmd: u8)
    ensures Known(cmd, subcmd) <==> 0x01 <= cmd <= 0x0b && (subcmd == 0x80 || subcmd == 0x81)
    ensures Writable(cmd, subcmd) <==> Known(cmd, subcmd) || cmd == 0x0b
  {
  }

  /** A message before anything is read into it. */
  lemma Blank(cmd: u8, subcmd: u8)
    ensures var z := Zero(cmd, subcmd);
            && z.cmd == cmd && z.subcmd == subcmd && z.msgid == 0 && z.clientid == 0 && z.errcode == 0
            && z.userid == 0 && z.flags == 0 && z.nstrings == 0 && z.strings == None
            && z.table.nrows == 0 && z.table.ncols == 0 && z.table.columns == [] && z.table.fields == []
            && z.index == 0 && z.offset == 0 && z.count == 0 && z.mask == 0 && z.maxentries == 0
  {
  }

  /** Nothing is read into a message of an unknown kind. */
  lemma UnknownKind(cmd: u8, subcmd: u8, data: bytes)
    requires !(0x01 <= cmd <= 0x0b && (subcmd == 0x80 || subcmd == 0x81))
    ensures Decode(cmd, subcmd, data) == Some(Zero(cmd, subcmd))
  {
  }

  /** `p` is the first string, null if there is no list. */
  predicate FirstIs(m: Message, p: CPtr) {
    p != Uninit && if m.strings.Some? then m.strings.value != [] && m.strings.value[0] == p else p == Null
  }

  /** `ps` are the listed strings, none if there is no list. */
  predicate ListIs(m: Message, ps: seq<CPtr>) {
    && Uninit !in ps
    && if m.strings.Some? then m.nstrings <= |m.strings.value| && ps == m.strings.value[..m.nstrings] else ps == []
  }

  /** A table that can be written: its column names are not null. */
  predicate TableIs(t: Table) {
    ValidTable(t) && Null !in t.columns[..t.ncols]
  }

  /** What a list becomes: an empty one is no list. */
  function ListRead(ps: seq<CPtr>): Option<seq<CPtr>> {
    if |ps| == 0 then None else Some(seq(|ps|, i requires 0 <= i < |ps| => NormPtr(ps[i])))
  }

  lemma ListReadIs(m: Message, ps: seq<CPtr>)
    requires ListIs(m, ps)
    ensures Readable(m, Strings) && Listed(m) == ps
    ensures ListRead(ps) == if ps == [] then None else Some(NormPtrs(ps))
  {
    hide NormPtr;
  }

  // ---- queries ----

  /** REGISTER, SHOWTABLES and LIST_INFO. */
  lemma PlainQuery(m: Message)
    requires m.subcmd == 0x80 && m.cmd in {0x01, 0x07, 0x0a}
    ensures Defined(m) && Written(m) == [] && Size(m) == 0 && Norm(m) == Zero(m.cmd, 0x80)
  {
  }

  lemma CallerListQuery(m: Message, p: CPtr)
    requires m.cmd == 0x02 && m.subcmd == 0x80 && FirstIs(m, p)
    ensures Defined(m) && Written(m) == LE16(m.userid) + EncStr(p) && Size(m) == |Written(m)|
    ensures Norm(m) == Zero(0x02, 0x80).(userid := m.userid, nstrings := 1, strings := Some([NormPtr(p)]))
  {
    hide EncStr, NormPtr, LE16;
    TwoFields(m, UserId, Str);
  }

  lemma ReadCallerQuery(m: Message, p: CPtr)
    requires m.cmd == 0x03 && m.subcmd == 0x80 && FirstIs(m, p)
    ensures Defined(m) && Size(m) == |Written(m)|
    ensures Written(m) == LE16(m.userid) + LE16(m.flags % 65536) + EncStr(p)
    ensures Norm(m) == Zero(0x03, 0x80).(userid := m.userid, flags := m.flags % 65536, nstrings := 1,
                                         strings := Some([NormPtr(p)]))
  {
    hide EncStr, NormPtr, LE16;
    ThreeFields(m, UserId, Flags, Str);
  }

  lemma WriteCallerQuery(m: Message)
    requires m.cmd == 0x04 && m.subcmd == 0x80 && TableIs(m.table)
    ensures Defined(m) && Size(m) == |Written(m)|
    ensures Written(m) == LE16(m.userid) + LE16(m.flags % 65536) + EncTable(m.table)
    ensures Norm(m) == Zero(0x04, 0x80).(userid := m.userid, flags := m.flags % 65536, table := NormTable(m.table))
  {
    hide EncTable, NormTable, ValidTable, LE16;
    ThreeFields(m, UserId, Flags, Tab);
  }

  lemma WriteCallQuery(m: Message)
    requires m.cmd == 0x05 && m.subcmd == 0x80 && TableIs(m.table)
    ensures Defined(m) && Written(m) == EncTable(m.table) && Size(m) == |Written(m)|
    ensures Norm(m) == Zero(0x05, 0x80).(table := NormTable(m.table))
  {
    hide EncTable, NormTable, ValidTable;
    assert forall f | f in [Tab] :: Readable(m, f);
  }

  lemma CallListQuery(m: Message)
    requires m.cmd == 0x06 && m.subcmd == 0x80
    ensures Defined(m) && Written(m) == LE32(m.offset) + LE16(m.count) && Size(m) == 6
    ensures Norm(m) == Zero(0x06, 0x80).(offset := m.offset, count := m.count)
  {
    hide LE16, LE32;
    TwoFields(m, Offset, Count);
  }

  /** Without a list two bytes are written where one was sized. */
  lemma DescribeTableQuery(m: Message, p: CPtr)
    requires m.cmd == 0x08 && m.subcmd == 0x80 && FirstIs(m, p)
    ensures Defined(m) && Size(m) == |EncStr(p)|
    ensures Written(m) == if m.strings.Some? then EncStr(p) else [0, 0]
    ensures Norm(m) == Zero(0x08, 0x80).(nstrings := 1, strings := Some([NormPtr(p)]))
  {
    hide EncStr, NormPtr;
    assert forall f | f in [Str] :: Readable(m, f);
  }

  /** The size counts the first two strings, the data holds the listed ones. */
  lemma DeleteCallerQuery(m: Message, ps: seq<CPtr>, p: CPtr, q: CPtr)
    requires m.cmd == 0x09 && m.subcmd == 0x80 && ListIs(m, ps) && p != Uninit && q != Uninit
    requires if m.strings.Some? then |m.strings.value| >= 2 && m.strings.value[..2] == [p, q]
             else m.nstrings == 0 && p == q == Null
    ensures Defined(m) && Size(m) == 4 + |EncStr(p)| + |EncStr(q)|
    ensures Written(m) == LE16(m.userid) + (LE16(m.nstrings) + EncStrs(ps))
    ensures Norm(m) == Zero(0x09, 0x80).(userid := m.userid, nstrings := |ps|, strings := ListRead(ps))
  {
    hide ListRead, ListIs, Written, Size, Norm, LE16, EncStr, EncStrs;
    ListReadIs(m, ps);
    DeletePair(m, p, q);
    DeleteWritten(m);
    DeleteNorm(m);
    ListLength(m, ps);
  }

  lemma ListLength(m: Message, ps: seq<CPtr>)
    requires ListIs(m, ps)
    ensures |ps| == if m.strings.Some? then m.nstrings else 0
  {
  }

  lemma DeletePair(m: Message, p: CPtr, q: CPtr)
    requires p != Uninit && q != Uninit
    requires if m.strings.Some? then |m.strings.value| >= 2 && m.strings.value[..2] == [p, q]
             else m.nstrings == 0 && p == q == Null
    ensures DeleteReadable(m) && Nth(m, 0) == p && Nth(m, 1) == q
  {
    if m.strings.Some? {
      assert m.strings.value[..2][0] == p && m.strings.value[..2][1] == q;
    }
  }

  lemma DeleteWritten(m: Message)
    requires m.cmd == 0x09 && m.subcmd == 0x80 && Readable(m, Strings) && DeleteReadable(m)
    ensures Defined(m) && Size(m) == 4 + |EncStr(Nth(m, 0))| + |EncStr(Nth(m, 1))|
    ensures Written(m) == LE16(m.userid) + (LE16(|Listed(m)|) + EncStrs(Listed(m)))
  {
    hide EncStr, EncStrs, LE16, Listed, Nth, DeleteReadable;
    TwoFields(m, UserId, Strings);
  }

  lemma DeleteNorm(m: Message)
    requires m.cmd == 0x09 && m.subcmd == 0x80 && Defined(m) && Readable(m, Strings)
    ensures Norm(m) == Zero(0x09, 0x80).(userid := m.userid, nstrings := |Listed(m)|,
                         strings := if Listed(m) == [] then None else Some(NormPtrs(Listed(m))))
  {
    hide NormPtrs, Listed, EncFields, DeleteReadable;
  }

  lemma ListenQuery(m: Message)
    requires m.cmd == 0x0b && m.subcmd == 0x80
    ensures Defined(m) && Written(m) == LE32(m.mask) && Size(m) == 4
    ensures Norm(m) == Zero(0x0b, 0x80).(mask := m.mask)
  {
    hide LE32;
    assert forall f | f in [Mask] :: Readable(m, f);
  }

  // ---- responses ----

  lemma RegisterResponse(m: Message)
    requires m.cmd == 0x01 && m.subcmd == 0x81
    ensures Defined(m) && Written(m) == LE16(m.errcode) + LE16(m.clientid) && Size(m) == 4
    ensures Norm(m) == Zero(0x01, 0x81).(errcode := m.errcode, clientid := m.clientid)
  {
    hide LE16;
    TwoFields(m, Errcode, ClientId);
  }

  /** CALLER_LIST, READ_CALLER and CALL_LIST. */
  lemma TableResponse(m: Message)
    requires m.cmd in {0x02, 0x03, 0x06} && m.subcmd == 0x81 && TableIs(m.table)
    ensures Defined(m) && Written(m) == LE16(m.errcode) + EncTable(m.table) && Size(m) == |Written(m)|
    ensures Norm(m) == Zero(m.cmd, 0x81).(errcode := m.errcode, table := NormTable(m.table))
  {
    hide EncTable, NormTable, ValidTable, LE16;
    TwoFields(m, Errcode, Tab);
  }

  /** WRITE_CALLER and WRITE_CALL. */
  lemma IndexResponse(m: Message)
    requires m.cmd in {0x04, 0x05} && m.subcmd == 0x81
    ensures Defined(m) && Written(m) == LE16(m.errcode) + LE32(m.index) && Size(m) == 6
    ensures Norm(m) == Zero(m.cmd, 0x81).(errcode := m.errcode, index := m.index)
  {
    hide LE16, LE32;
    TwoFields(m, Errcode, Index);
  }

  /** SHOWTABLES and DESCRIBE_TABLE. */
  lemma ListResponse(m: Message, ps: seq<CPtr>)
    requires m.cmd in {0x07, 0x08} && m.subcmd == 0x81 && ListIs(m, ps)
    ensures Defined(m) && Written(m) == LE16(m.errcode) + (LE16(|ps|) + EncStrs(ps)) && Size(m) == |Written(m)|
    ensures Norm(m) == Zero(m.cmd, 0x81).(errcode := m.errcode, nstrings := |ps|, strings := ListRead(ps))
  {
    hide ListRead, ListIs, Written, Size, Norm, LE16, EncStrs;
    ListReadIs(m, ps);
    ListWritten(m);
    ListNorm(m);
  }

  lemma ListWritten(m: Message)
    requires m.cmd in {0x07, 0x08} && m.subcmd == 0x81 && Readable(m, Strings)
    ensures Defined(m) && Size(m) == |Written(m)|
    ensures Written(m) == LE16(m.errcode) + (LE16(|Listed(m)|) + EncStrs(Listed(m)))
  {
    hide EncStrs, LE16, Layout, Listed;
    ListLayout(m.cmd);
    TwoFields(m, Errcode, Strings);
  }

  lemma ListNorm(m: Message)
    requires m.cmd in {0x07, 0x08} && m.subcmd == 0x81 && Defined(m) && Readable(m, Strings)
    ensures Norm(m) == Zero(m.cmd, 0x81).(errcode := m.errcode, nstrings := |Listed(m)|,
                         strings := if Listed(m) == [] then None else Some(NormPtrs(Listed(m))))
  {
    hide NormPtrs, Listed, Layout, EncFields;
    ListLayout(m.cmd);
  }

  lemma ListLayout(cmd: u8)
    requires cmd in {0x07, 0x08}
    ensures Layout(cmd, 0x81) == [Errcode, Strings]
  {
  }

  lemma ListInfoResponse(m: Message)
    requires m.cmd == 0x0a && m.subcmd == 0x81
    ensures Defined(m) && Written(m) == LE16(m.errcode) + LE32(m.maxentries) && Size(m) == 6
    ensures Norm(m) == Zero(0x0a, 0x81).(errcode := m.errcode, maxentries := m.maxentries)
  {
    hide LE16, LE32;
    TwoFields(m, Errcode, MaxEntries);
  }

  /** DELETE_CALLER and LISTEN. */
  lemma PlainResponse(m: Message)
    requires m.cmd in {0x09, 0x0b} && m.subcmd == 0x81
    ensures Defined(m) && Written(m) == LE16(m.errcode) && Size(m) == 2
    ensures Norm(m) == Zero(m.cmd, 0x81).(errcode := m.errcode)
  {
    hide LE16;
    assert forall f | f in [Errcode] :: Readable(m, f);
  }

  /** LISTEN is written as a response whatever its subcommand, and read only as one of the two. */
  lemma OddListen(m: Message)
    requires m.cmd == 0x0b && m.subcmd != 0x80 && m.subcmd != 0x81
    ensures Defined(m) && Written(m) == LE16(m.errcode) && Size(m) == 2 && Norm(m) == Zero(0x0b, m.subcmd)
  {
    hide LE16;
    assert forall f | f in [Errcode] :: Readable(m, f);
  }

  // ---- parts ----

  /** Where each field lies in the 22 bytes of a header. */
  lemma HeaderFormat(h: Header)
    ensures var b := HeaderBytes(h);
            && |b| == 22 && b[0..2] == LE16(h.clientid) && b[2] == h.cmd && b[3] == h.subcmd
            && b[4..8] == LE32(h.msgid) && b[8..10] == LE16(h.flags)
            && b[10..14] == LE32(h.dataSize) && b[14..18] == LE32(h.partSize) && b[18..22] == LE32(h.offset)
  {
    hide LE16, LE32;
  }

  /** The header of a written message. */
  lemma MessageHeader(m: Message)
    requires Defined(m) && Size(m) < B32
    ensures var h := HeaderOf(m);
            && h.cmd == m.cmd && h.subcmd == m.subcmd && h.clientid == m.clientid && h.msgid == m.msgid
            && h.flags == 0 && h.dataSize == Size(m)
  {
  }

  /** Part k carries the bytes from 2026 k on, 2026 of them or what is left, behind a header that
      says so; a message of no bytes has one part. */
  lemma PartFormat(h: Header, data: bytes, k: nat)
    requires h.dataSize == |data|
    ensures |Parts(h, data)| == if data == [] then 1 else (|data| + 2025) / 2026
    ensures k < |Parts(h, data)| ==>
              var end := if |data| <= 2026 * k + 2026 then |data| else 2026 * k + 2026;
              && 2026 * k <= end && end - 2026 * k <= 2026
              && Parts(h, data)[k]
                 == HeaderBytes(h.(partSize := end - 2026 * k, offset := 2026 * k)) + data[2026 * k..end]
              && |Parts(h, data)[k]| <= 2048
  {
    hide HeaderBytes;
  }
}
