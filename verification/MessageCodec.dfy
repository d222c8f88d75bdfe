/** Writing and reading a message: the sizing switch, the writing switch and the reading switch
    (cidbmessages.c:336-855), each proved against the documented grammar. */
module MessageCodec {
  import opened Machine
  import opened CStrings
  import opened Tables
  import opened TableCodec
  import opened Messages
  import opened Headers

  /** The two branches that size a single string behind a fixed part. */
  method SizeOneString(m: Message, fixed: u32) returns (size: u32)
    requires Readable(m, Str)
    ensures size == (fixed + |EncStr(First(m))|) % B32
  {
    hide EncStr;
    EncNull();
    size := (fixed + 1) % B32;
    if m.strings.Some? && m.strings.value[0] != Null {
      size := AddText(m.strings.value[0], size);
    }
  }

  /** The list loop of SHOWTABLES and DESCRIBE_TABLE responses. */
  method SizeList(m: Message) returns (size: u32)
    requires Readable(m, Strings)
    ensures size == (4 + |EncStrs(Listed(m))|) % B32
  {
    hide EncStrs;
    size := 4;
    EncStrsEmpty();
    if m.strings.Some? {
      size := AddCells(m.strings.value[..m.nstrings], size);
    }
  }

  /** The DELETE_CALLER branch looks at the first two strings. */
  method SizeTwoStrings(m: Message) returns (size: u32)
    requires DeleteReadable(m)
    ensures size == (4 + |EncStr(Nth(m, 0))| + |EncStr(Nth(m, 1))|) % B32
  {
    hide EncStr;
    EncNull();
    size := 6;
    if m.strings.Some? {
      if m.strings.value[0] != Null {
        size := AddText(m.strings.value[0], size);
      }
      if m.strings.value[1] != Null {
        size := AddText(m.strings.value[1], size);
      }
    }
  }

  method SizeTable(m: Message, fixed: u32) returns (size: u32)
    requires Readable(m, Tab)
    ensures size == (fixed + |EncTable(m.table)|) % B32
  {
    hide EncTable, ValidTable;
    size := TableGetSize(m.table);
    size := (fixed + size) % B32;
  }

  lemma TwoFields(m: Message, a: Field, b: Field)
    requires Readable(m, a) && Readable(m, b)
    ensures AllReadable(m, [a, b]) && EncFields(m, [a, b]) == EncField(m, a) + EncField(m, b)
  {
    hide EncField, Readable;
    assert [a, b][1..] == [b];
  }

  lemma ThreeFields(m: Message, a: Field, b: Field, c: Field)
    requires Readable(m, a) && Readable(m, b) && Readable(m, c)
    ensures AllReadable(m, [a, b, c])
    ensures EncFields(m, [a, b, c]) == EncField(m, a) + EncField(m, b) + EncField(m, c)
  {
    hide EncField, Readable;
    assert [a, b, c][1..] == [b, c];
    TwoFields(m, b, c);
  }

  /** The sizing switch for queries and responses. */
  method SizeQuery(m: Message) returns (size: u32)
    requires Defined(m) && m.subcmd == QUERY
    ensures size == Size(m) % B32
  {
    hide EncStr, EncStrs, EncTable, ValidTable, Strlen;
    size := 0;
    assert forall f | f in WriteLayout(m.cmd, m.subcmd) :: Readable(m, f);
    if m.cmd == CALLER_LIST {
      assert Str in [UserId, Str];
      TwoFields(m, UserId, Str);
      size := SizeOneString(m, 2);
    } else if m.cmd == READ_CALLER {
      assert Str in [UserId, Flags, Str];
      ThreeFields(m, UserId, Flags, Str);
      size := SizeOneString(m, 4);
    } else if m.cmd == WRITE_CALLER {
      assert Tab in [UserId, Flags, Tab];
      ThreeFields(m, UserId, Flags, Tab);
      size := SizeTable(m, 4);
    } else if m.cmd == WRITE_CALL {
      assert Tab in [Tab];
      size := SizeTable(m, 0);
    } else if m.cmd == CALL_LIST {
      TwoFields(m, Offset, Count);
      size := 6;
    } else if m.cmd == DELETE_CALLER {
      size := SizeTwoStrings(m);
    } else if m.cmd == DESCRIBE_TABLE {
      assert Str in [Str];
      size := SizeOneString(m, 0);
    } else if m.cmd == LISTEN {
      size := 4;
    }
  }

  method SizeResponse(m: Message) returns (size: u32)
    requires Defined(m) && m.subcmd != QUERY
    ensures size == Size(m) % B32
  {
    hide EncStr, EncStrs, EncTable, ValidTable, Strlen;
    assert forall f | f in WriteLayout(m.cmd, m.subcmd) :: Readable(m, f);
    if m.cmd == REGISTER {
      TwoFields(m, Errcode, ClientId);
      size := 4;
    } else if m.cmd == CALLER_LIST || m.cmd == READ_CALLER || m.cmd == CALL_LIST {
      assert Tab in [Errcode, Tab];
      TwoFields(m, Errcode, Tab);
      size := SizeTable(m, 2);
    } else if m.cmd == WRITE_CALLER || m.cmd == WRITE_CALL {
      TwoFields(m, Errcode, Index);
      size := 6;
    } else if m.cmd == SHOWTABLES || m.cmd == DESCRIBE_TABLE {
      assert Strings in [Errcode, Strings];
      TwoFields(m, Errcode, Strings);
      size := SizeList(m);
    } else if m.cmd == LIST_INFO {
      TwoFields(m, Errcode, MaxEntries);
      size := 6;
    } else {
      size := 2;
    }
  }

  // ---- the writing switch ----

  /** The guarded single string of CALLER_LIST and READ_CALLER. */
  method PutFirst(data: array<u8>, at: nat, m: Message)
    requires Readable(m, Str) && at + |EncStr(First(m))| <= data.Length
    modifies data
    ensures data[..] == Splice(old(data[..]), at, EncStr(First(m)))
  {
    hide EncStr;
    EncNull();
    if m.strings.Some? && m.strings.value[0] != Null {
      var used := WriteString(data, at, m.strings.value[0]);
    } else {
      SetUchar(data, at, 0);
      assert EncStr(First(m)) == [0];
    }
  }

  /** The `pos` loop that writes a list of strings. */
  method PutStrings(data: array<u8>, at: nat, ps: seq<CPtr>) returns (pos: u32)
    requires Uninit !in ps && at + |EncStrs(ps)| <= data.Length < B32
    modifies data
    ensures pos == at + |EncStrs(ps)|
    ensures data[..] == Splice(old(data[..]), at, EncStrs(ps))
  {
    hide Splice, EncStr, EncStrs;
    ghost var was, done := data[..], [];
    pos := at;
    var i := 0;
    assert ps[0..] == ps;
    while i < |ps|
      invariant 0 <= i <= |ps|
      invariant done + EncStrs(ps[i..]) == EncStrs(ps)
      invariant pos == at + |done|
      invariant data[..] == Splice(was, at, done)
    {
      EncStrsAt(ps, i);
      var used := WriteString(data, pos, ps[i]);
      SpliceSplice(was, at, done, EncStr(ps[i]));
      done := done + EncStr(ps[i]);
      pos := pos + used;
      i := i + 1;
    }
    assert ps[i..] == [];
    EncStrsEmpty();
  }

  /** A count and a list, behind a 16-bit word. */
  method PutWordAndList(data: array<u8>, word: u16, ps: seq<CPtr>)
    requires Uninit !in ps && |ps| < B16 && 4 + |EncStrs(ps)| <= data.Length < B32
    modifies data
    ensures data[..] == Splice(old(data[..]), 0, LE16(word) + (LE16(|ps|) + EncStrs(ps)))
  {
    hide Splice, EncStrs, LE16;
    ghost var was := data[..];
    SetUshort(data, 0, word);
    SetUshort(data, 2, |ps|);
    SpliceSplice(was, 0, LE16(word), LE16(|ps|));
    var pos := PutStrings(data, 4, ps);
    SpliceSplice(was, 0, LE16(word) + LE16(|ps|), EncStrs(ps));
    assert LE16(word) + LE16(|ps|) + EncStrs(ps) == LE16(word) + (LE16(|ps|) + EncStrs(ps));
  }

  method PutWordAndTable(data: array<u8>, word: u16, table: Table)
    requires ValidTable(table) && 2 + |EncTable(table)| <= data.Length < B32
    modifies data
    ensures data[..] == Splice(old(data[..]), 0, LE16(word) + EncTable(table))
  {
    hide Splice, EncTable, ValidTable;
    ghost var was := data[..];
    SetUshort(data, 0, word);
    var used := WriteTable(data, 2, table);
    SpliceSplice(was, 0, LE16(word), EncTable(table));
  }

  method PutWordAndLong(data: array<u8>, word: u16, long: u32)
    requires 6 <= data.Length
    modifies data
    ensures data[..] == Splice(old(data[..]), 0, LE16(word) + LE32(long))
  {
    hide Splice;
    ghost var was := data[..];
    SetUshort(data, 0, word);
    SetUlong(data, 2, long);
    SpliceSplice(was, 0, LE16(word), LE32(long));
  }

  method PutTwoWords(data: array<u8>, a: u16, b: u16)
    requires 4 <= data.Length
    modifies data
    ensures data[..] == Splice(old(data[..]), 0, LE16(a) + LE16(b))
  {
    hide Splice;
    ghost var was := data[..];
    SetUshort(data, 0, a);
    SetUshort(data, 2, b);
    SpliceSplice(was, 0, LE16(a), LE16(b));
  }

  method PutWordAndFirst(data: array<u8>, word: u16, m: Message)
    requires Readable(m, Str) && 2 + |EncStr(First(m))| <= data.Length
    modifies data
    ensures data[..] == Splice(old(data[..]), 0, LE16(word) + EncStr(First(m)))
  {
    hide Splice, EncStr;
    ghost var was := data[..];
    SetUshort(data, 0, word);
    PutFirst(data, 2, m);
    SpliceSplice(was, 0, LE16(word), EncStr(First(m)));
  }

  method PutTwoWordsAndFirst(data: array<u8>, a: u16, b: u16, m: Message)
    requires Readable(m, Str) && 4 + |EncStr(First(m))| <= data.Length
    modifies data
    ensures data[..] == Splice(old(data[..]), 0, LE16(a) + LE16(b) + EncStr(First(m)))
  {
    hide Splice, EncStr;
    ghost var was := data[..];
    PutTwoWords(data, a, b);
    PutFirst(data, 4, m);
    SpliceSplice(was, 0, LE16(a) + LE16(b), EncStr(First(m)));
  }

  method PutTwoWordsAndTable(data: array<u8>, a: u16, b: u16, table: Table)
    requires ValidTable(table) && 4 + |EncTable(table)| <= data.Length < B32
    modifies data
    ensures data[..] == Splice(old(data[..]), 0, LE16(a) + LE16(b) + EncTable(table))
  {
    hide Splice, EncTable, ValidTable;
    ghost var was := data[..];
    PutTwoWords(data, a, b);
    var used := WriteTable(data, 4, table);
    SpliceSplice(was, 0, LE16(a) + LE16(b), EncTable(table));
  }

  method PutLongAndWord(data: array<u8>, long: u32, word: u16)
    requires 6 <= data.Length
    modifies data
    ensures data[..] == Splice(old(data[..]), 0, LE32(long) + LE16(word))
  {
    hide Splice;
    ghost var was := data[..];
    SetUlong(data, 0, long);
    SetUshort(data, 4, word);
    SpliceSplice(was, 0, LE32(long), LE16(word));
  }

  lemma ReadableFields(m: Message, f: Field)
    requires Defined(m) && f in WriteLayout(m.cmd, m.subcmd)
    ensures Readable(m, f)
  {
  }

  method WriteQuery(m: Message, data: array<u8>)
    requires Defined(m) && m.subcmd == QUERY && |Written(m)| <= data.Length < B32
    modifies data
    ensures data[..] == Splice(old(data[..]), 0, Written(m))
  {
    hide Splice, EncStr, EncStrs, EncTable, ValidTable, LE16, LE32, Defined;
    DefinedIsWritable(m);
    if m.cmd == CALLER_LIST {
      ReadableFields(m, Str);
      TwoFields(m, UserId, Str);
      PutWordAndFirst(data, m.userid, m);
    } else if m.cmd == READ_CALLER {
      ReadableFields(m, Str);
      ThreeFields(m, UserId, Flags, Str);
      PutTwoWordsAndFirst(data, m.userid, m.flags % B16, m);
    } else if m.cmd == WRITE_CALLER {
      ReadableFields(m, Tab);
      ThreeFields(m, UserId, Flags, Tab);
      assert ValidTable(m.table) by { TabValid(m); }
      PutTwoWordsAndTable(data, m.userid, m.flags % B16, m.table);
    } else if m.cmd == WRITE_CALL {
      ReadableFields(m, Tab);
      assert ValidTable(m.table) by { TabValid(m); }
      var used := WriteTable(data, 0, m.table);
    } else if m.cmd == CALL_LIST {
      TwoFields(m, Offset, Count);
      PutLongAndWord(data, m.offset, m.count);
    } else if m.cmd == DESCRIBE_TABLE {
      ReadableFields(m, Str);
      if m.strings.Some? {
        var used := WriteString(data, 0, m.strings.value[0]);
      } else {
        SetUshort(data, 0, 0);
        LEZero();
      }
    } else if m.cmd == DELETE_CALLER {
      ReadableFields(m, Strings);
      assert m.strings.None? ==> m.nstrings == 0 by { DeleteDefined(m); }
      TwoFields(m, UserId, Strings);
      PutWordAndList(data, m.userid, Listed(m));
    } else if m.cmd == LISTEN {
      SetUlong(data, 0, m.mask);
    } else {
      SpliceNothing(data[..]);
    }
  }

  lemma DefinedIsWritable(m: Message)
    requires Defined(m)
    ensures Writable(m.cmd, m.subcmd)
  {
  }

  lemma TabValid(m: Message)
    requires Readable(m, Tab)
    ensures ValidTable(m.table)
  {
  }

  lemma DeleteDefined(m: Message)
    requires Defined(m) && m.cmd == DELETE_CALLER && m.subcmd == QUERY
    ensures DeleteReadable(m)
  {
  }

  lemma LEZero()
    ensures LE16(0) == [0, 0]
  {
  }

  lemma SpliceNothing(s: bytes)
    ensures Splice(s, 0, []) == s
  {
  }

  method WriteResponse(m: Message, data: array<u8>)
    requires Defined(m) && m.subcmd != QUERY && |Written(m)| <= data.Length < B32
    modifies data
    ensures data[..] == Splice(old(data[..]), 0, Written(m))
  {
    hide Splice, EncStr, EncStrs, EncTable, ValidTable, LE16, LE32, Defined;
    DefinedIsWritable(m);
    if m.cmd == REGISTER {
      TwoFields(m, Errcode, ClientId);
      PutTwoWords(data, m.errcode, m.clientid);
    } else if m.cmd == CALLER_LIST || m.cmd == READ_CALLER || m.cmd == CALL_LIST {
      ReadableFields(m, Tab);
      TwoFields(m, Errcode, Tab);
      assert ValidTable(m.table) by { TabValid(m); }
      PutWordAndTable(data, m.errcode, m.table);
    } else if m.cmd == WRITE_CALLER || m.cmd == WRITE_CALL {
      TwoFields(m, Errcode, Index);
      PutWordAndLong(data, m.errcode, m.index);
    } else if m.cmd == SHOWTABLES || m.cmd == DESCRIBE_TABLE {
      ReadableFields(m, Strings);
      TwoFields(m, Errcode, Strings);
      PutWordAndList(data, m.errcode, Listed(m));
    } else if m.cmd == LIST_INFO {
      TwoFields(m, Errcode, MaxEntries);
      PutWordAndLong(data, m.errcode, m.maxentries);
    } else {
      SetUshort(data, 0, m.errcode);
    }
  }

  /** `cidbmsg_write_message`. A command or subcommand the writer does not know is refused with
      only the identifying header fields set. `memset` clears 22 bytes of a 24-byte structure, so
      the offset keeps its upper half; the first part resets it. */
  method WriteMessage(m: Message, msg: Msg) returns (size: u32)
    requires Writable(m.cmd, m.subcmd) ==> Defined(m) && FitsBlock(m) && Size(m) < B32
    modifies msg
    ensures msg.header.cmd == m.cmd && msg.header.subcmd == m.subcmd
    ensures msg.header.clientid == m.clientid && msg.header.msgid == m.msgid
    ensures !Writable(m.cmd, m.subcmd) ==>
              && size == 0 && msg.data == old(msg.data)
              && msg.header.dataSize == old(msg.header.dataSize)
    ensures Writable(m.cmd, m.subcmd) ==>
              && size == Size(m) && msg.header.(offset := 0) == HeaderOf(m)
              && (msg.data == null <==> size == 0)
              && (size > 0 ==> fresh(msg.data) && msg.data.Length == size >= |Written(m)|
                               && msg.data[..|Written(m)|] == Written(m))
  {
    hide Written, Size, Defined;
    msg.header := msg.header.(cmd := m.cmd, subcmd := m.subcmd, clientid := m.clientid, msgid := m.msgid);
    if !Known(m.cmd, m.subcmd) && m.cmd != LISTEN {
      return 0;
    }
    SwitchesAgree(m);
    if m.subcmd == QUERY {
      size := SizeQuery(m);
    } else {
      size := SizeResponse(m);
    }
    var upper := msg.header.offset / B16 * B16;
    msg.header := Header(m.clientid, m.cmd, m.subcmd, m.msgid, 0, size, 0, upper);
    if size == 0 {
      msg.data := null;
      return;
    }
    var block := new u8[size];
    if m.subcmd == QUERY {
      WriteQuery(m, block);
    } else {
      WriteResponse(m, block);
    }
    msg.data := block;
  }

  function HeaderOf(m: Message): Header
    requires Defined(m) && Size(m) < B32
  {
    Header(m.clientid, m.cmd, m.subcmd, m.msgid, 0, Size(m), 0, 0)
  }

  // ---- the reading switch ----

  /** The loop that reads a list of strings, one pointer at a time. */
  method ReadStrings(data: array<u8>, at: nat, n: u16) returns (list: seq<CPtr>)
    requires at <= data.Length < B32 && ParseStrs(data[at..], n).Some?
    ensures list == ParseStrs(data[at..], n).value.value
  {
    hide ParseStr, ParseStrs;
    ghost var s := data[..];
    list := [];
    var pos := at;
    var i := 0;
    assert ParseStrs(s[at..], n).value.value == list + ParseStrs(s[at..], n).value.value;
    while i < n
      invariant 0 <= i <= n && at <= pos <= |s|
      invariant data[..] == s
      invariant var q := ParseStrs(s[pos..], n - i);
                q.Some? && ParseStrs(s[at..], n).value.value == list + q.value.value
    {
      ParseStrsStep(s, pos, n - i);
      assert data[pos..] == s[pos..];
      var used, str := ReadString(data, pos);
      ghost var later := ParseStrs(s[pos + used..], n - i - 1).value.value;
      assert list + ([str] + later) == list + [str] + later;
      list := list + [str];
      pos := pos + used;
      i := i + 1;
    }
    ParseNone(s[pos..]);
  }

  lemma ParseOneField(f: Field, s: bytes, acc: Message)
    ensures ParseFields([f], s, acc)
         == (if ParseField(f, s, acc).None? then None else Some(ParseField(f, s, acc).value.value))
  {
    hide ParseField;
  }

  lemma ParseTwoFields(f: Field, g: Field, s: bytes, acc: Message)
    ensures ParseFields([f, g], s, acc)
         == (var p := ParseField(f, s, acc);
             if p.None? then None else ParseFields([g], s[p.value.size..], p.value.value))
  {
    hide ParseField;
    assert [f, g][1..] == [g];
  }

  lemma ParseThreeFields(f: Field, g: Field, h: Field, s: bytes, acc: Message)
    ensures ParseFields([f, g, h], s, acc)
         == (var p := ParseField(f, s, acc);
             if p.None? then None else ParseFields([g, h], s[p.value.size..], p.value.value))
  {
    hide ParseField;
    assert [f, g, h][1..] == [g, h];
  }

  /** A 16-bit word and then one more field. */
  lemma ParseWordThen(f: Field, g: Field, s: bytes, acc: Message)
    requires f in {Errcode, ClientId, UserId, Flags, Count}
    requires ParseFields([f, g], s, acc).Some?
    ensures |s| >= 2
    ensures var p := ParseField(f, s, acc);
            && p.Some?
            && ParseField(g, s[2..], p.value.value).Some?
            && ParseFields([f, g], s, acc) == Some(ParseField(g, s[2..], p.value.value).value.value)
  {
    hide ParseFields, ParseStr, ParseStrs, ParseTable;
    ParseTwoFields(f, g, s, acc);
    if |s| >= 2 {
      ParseOneField(g, s[2..], ParseField(f, s, acc).value.value);
    }
  }

  method ReadOneString(data: array<u8>, at: nat, acc: Message) returns (r: Message)
    requires at <= data.Length < B32 && ParseField(Str, data[..][at..], acc).Some?
    ensures r == ParseField(Str, data[..][at..], acc).value.value
  {
    hide ParseStr;
    assert data[..][at..] == data[at..];
    var used, str := ReadString(data, at);
    r := acc.(nstrings := 1, strings := Some([str]));
  }

  method ReadTableField(data: array<u8>, at: nat, acc: Message) returns (r: Message)
    requires at <= data.Length < B32 && ParseField(Tab, data[..][at..], acc).Some?
    ensures r == ParseField(Tab, data[..][at..], acc).value.value
  {
    hide ParseTable;
    assert data[..][at..] == data[at..];
    var used, table := ReadTable(data, at);
    r := acc.(table := table);
  }

  method ReadList(data: array<u8>, acc: Message) returns (r: Message)
    requires 2 <= data.Length < B32 && ParseField(Strings, data[..][2..], acc).Some?
    ensures r == ParseField(Strings, data[..][2..], acc).value.value
  {
    hide ParseStrs;
    ghost var s := data[..][2..];
    var n := Word(data, 2);
    assert n == Get16(s, 0) && s[2..] == data[4..];
    r := acc.(nstrings := n);
    if n > 0 {
      var list := ReadStrings(data, 4, n);
      r := r.(strings := Some(list));
    } else {
      r := r.(strings := None);
    }
  }

  method ReadQuery(cmd: u8, data: array<u8>) returns (r: Message)
    requires data.Length < B32 && Known(cmd, QUERY) && Decode(cmd, QUERY, data[..]).Some?
    ensures Decode(cmd, QUERY, data[..]) == Some(r)
  {
    hide ParseStr, ParseStrs, ParseTable, ParseFields, Get16, Get32;
    ghost var s := data[..];
    r := Zero(cmd, QUERY);
    ghost var z := r;
    if cmd == CALLER_LIST {
      ParseWordThen(UserId, Str, s, z);
      var userid := Word(data, 0);
      r := ReadOneString(data, 2, r.(userid := userid));
    } else if cmd == READ_CALLER || cmd == WRITE_CALLER {
      r := ReadUserAndFlags(cmd, data, r);
    } else if cmd == WRITE_CALL {
      ParseOneField(Tab, s, z);
      assert s[0..] == s;
      r := ReadTableField(data, 0, r);
    } else if cmd == CALL_LIST {
      r := ReadOffsetAndCount(data, r);
    } else if cmd == DESCRIBE_TABLE {
      ParseOneField(Str, s, z);
      assert s[0..] == s;
      r := ReadOneString(data, 0, r);
    } else if cmd == DELETE_CALLER {
      ParseWordThen(UserId, Strings, s, z);
      var userid := Word(data, 0);
      r := ReadList(data, r.(userid := userid));
    } else if cmd == LISTEN {
      ParseOneField(Mask, s, z);
      var mask := Long(data, 0);
      r := r.(mask := mask);
    } else {
      ParseNoField(s, z);
    }
  }

  lemma ParseNoField(s: bytes, acc: Message)
    ensures ParseFields([], s, acc) == Some(acc)
  {
  }

  method ReadUserAndFlags(cmd: u8, data: array<u8>, acc: Message) returns (r: Message)
    requires data.Length < B32 && (cmd == READ_CALLER || cmd == WRITE_CALLER)
    requires ParseFields(Layout(cmd, QUERY), data[..], acc).Some?
    ensures ParseFields(Layout(cmd, QUERY), data[..], acc) == Some(r)
  {
    hide ParseStr, ParseStrs, ParseTable, ParseFields, Get16, Get32;
    ghost var s := data[..];
    ghost var last := if cmd == READ_CALLER then Str else Tab;
    ParseThreeFields(UserId, Flags, last, s, acc);
    assert |s| >= 2;
    ghost var one := acc.(userid := Get16(s, 0));
    ParseWordThen(Flags, last, s[2..], one);
    assert s[2..][2..] == s[4..];
    var userid := Word(data, 0);
    var flags := Word(data, 2);
    assert flags == Get16(s[2..], 0) by { Get16Tail(s, 2); }
    r := acc.(userid := userid, flags := flags);
    if cmd == READ_CALLER {
      r := ReadOneString(data, 4, r);
    } else {
      r := ReadTableField(data, 4, r);
    }
  }

  lemma Get16Tail(s: bytes, off: nat)
    requires off + 2 <= |s|
    ensures Get16(s[off..], 0) == Get16(s, off)
  {
  }

  lemma Get32Tail(s: bytes, off: nat)
    requires off + 4 <= |s|
    ensures Get32(s[off..], 0) == Get32(s, off)
  {
  }

  method ReadOffsetAndCount(data: array<u8>, acc: Message) returns (r: Message)
    requires data.Length < B32 && ParseFields([Offset, Count], data[..], acc).Some?
    ensures ParseFields([Offset, Count], data[..], acc) == Some(r)
  {
    hide ParseFields, Get16, Get32;
    ghost var s := data[..];
    ParseTwoFields(Offset, Count, s, acc);
    ghost var one := acc.(offset := Get32(s, 0));
    ParseOneField(Count, s[4..], one);
    var offset := Long(data, 0);
    var count := Word(data, 4);
    Get16Tail(s, 4);
    r := acc.(offset := offset, count := count);
  }

  method ReadResponse(cmd: u8, data: array<u8>) returns (r: Message)
    requires data.Length < B32 && Known(cmd, RESP) && Decode(cmd, RESP, data[..]).Some?
    ensures Decode(cmd, RESP, data[..]) == Some(r)
  {
    hide ParseStr, ParseStrs, ParseTable, ParseFields, Get16, Get32;
    ghost var s := data[..];
    ghost var z := Zero(cmd, RESP);
    ghost var fs := Layout(cmd, RESP);
    if |fs| == 2 {
      ParseWordThen(Errcode, fs[1], s, z);
      assert fs == [Errcode, fs[1]];
    } else {
      ParseOneField(Errcode, s, z);
    }
    var errcode := Word(data, 0);
    r := Zero(cmd, RESP).(errcode := errcode);
    if cmd == REGISTER {
      var clientid := Word(data, 2);
      Get16Tail(s, 2);
      r := r.(clientid := clientid);
    } else if cmd == CALLER_LIST || cmd == READ_CALLER || cmd == CALL_LIST {
      r := ReadTableField(data, 2, r);
    } else if cmd == WRITE_CALLER || cmd == WRITE_CALL {
      var index := Long(data, 2);
      Get32Tail(s, 2);
      r := r.(index := index);
    } else if cmd == SHOWTABLES || cmd == DESCRIBE_TABLE {
      r := ReadList(data, r);
    } else if cmd == LIST_INFO {
      var maxentries := Long(data, 2);
      Get32Tail(s, 2);
      r := r.(maxentries := maxentries);
    }
  }

  function Contents(data: array?<u8>): bytes
    reads if data == null then {} else {data}
  {
    if data == null then [] else data[..]
  }

  /** `cidbmsg_read_message`, on a block that holds what the command's grammar asks for. */
  method ReadMessage(msg: Msg) returns (r: Message)
    requires msg.data != null ==> msg.data.Length < B32
    requires Decode(msg.header.cmd, msg.header.subcmd, Contents(msg.data)).Some?
    ensures Decode(msg.header.cmd, msg.header.subcmd, Contents(msg.data)) == Some(r)
  {
    var cmd, subcmd := msg.header.cmd, msg.header.subcmd;
    hide ParseFields;
    r := Zero(cmd, subcmd);
    if !IsSub(subcmd) || !(REGISTER <= cmd <= LISTEN) {
      return;
    }
    if msg.data == null {
      EmptyBlock(Layout(cmd, subcmd), r);
    } else if subcmd == QUERY {
      r := ReadQuery(cmd, msg.data);
    } else {
      r := ReadResponse(cmd, msg.data);
    }
  }

  /** Nothing is read from a missing block. */
  lemma EmptyBlock(fs: seq<Field>, acc: Message)
    requires ParseFields(fs, [], acc).Some?
    ensures ParseFields(fs, [], acc) == Some(acc)
  {
  }
}
