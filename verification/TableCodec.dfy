/** The table operations on buffers (cidbmessages.c:87-196). */
module TableCodec {
  import opened Machine
  import opened CStrings
  import opened Tables

  /** `_cidbmsg_strlen` followed by `_cidbmsg_read_str`. */
  method ReadCell(msg: array<u8>, at: nat) returns (bytes: u32, str: CPtr)
    requires at <= msg.Length < B32 && ParseStr(msg[at..]).Some?
    ensures ParseStr(msg[at..]) == Some(Parsed(str, bytes))
  {
    var len, offset := GetStrlen(msg, at);
    SliceOfTail(msg[..], at, offset, offset + len);
    assert msg[..][at..] == msg[at..];
    str := ReadChars(msg, at + offset, len);
    bytes := offset + len;
  }

  /** One pass of the cell loops: `n` strings from the buffer into `dst[start..]`. */
  method ReadCells(msg: array<u8>, at: nat, dst: array<CPtr>, start: nat, n: u16) returns (bytes: u32)
    requires at <= msg.Length < B32 && ParseStrs(msg[at..], n).Some?
    requires start + n <= dst.Length
    modifies dst
    ensures var p := ParseStrs(msg[at..], n).value;
            && bytes == p.size
            && dst[..] == Splice(old(dst[..]), start, p.value)
  {
    hide ParseStr, ParseStrs, Splice;
    ghost var s, was, done := msg[..], dst[..], [];
    bytes := 0;
    var j := 0;
    assert ParseStrs(s[at..], n).value.value == done + ParseStrs(s[at..], n).value.value;
    while j < n
      invariant 0 <= j <= n && |done| == j && at + bytes <= |s| == msg.Length
      invariant msg[..] == s
      invariant dst[..] == Splice(was, start, done)
      invariant var q := ParseStrs(s[at + bytes..], n - j);
                && q.Some?
                && ParseStrs(s[at..], n) == Some(Parsed(done + q.value.value, bytes + q.value.size))
    {
      ParseStrsStep(s, at + bytes, n - j);
      assert msg[at + bytes..] == s[at + bytes..];
      var used, str := ReadCell(msg, at + bytes);
      dst[start + j] := str;
      SpliceSnoc(was, start, done, str);
      ghost var later := ParseStrs(s[at + bytes + used..], n - j - 1).value.value;
      assert done + ([str] + later) == done + [str] + later;
      done := done + [str];
      bytes := bytes + used;
      j := j + 1;
    }
    ParseNone(s[at + bytes..]);
    assert done + [] == done;
  }

  lemma ParseNone(s: bytes)
    ensures ParseStrs(s, 0) == Some(Parsed([], 0))
  {
  }

  method ReadTable(msg: array<u8>, at: nat) returns (bytes: u32, table: Table)
    requires at <= msg.Length < B32 && ParseTable(msg[at..]).Some?
    ensures ParseTable(msg[at..]) == Some(Parsed(table, bytes))
  {
    hide ParseStrs, ParseRows, Area;
    ghost var s := msg[at..];
    var nrows, ncols := Word(msg, at), Word(msg, at + 2);
    assert nrows == Get16(s, 0) && ncols == Get16(s, 2) && s[4..] == msg[at + 4..];
    var columns := new CPtr[ncols](_ => Uninit);
    bytes := 4;
    var used := ReadCells(msg, at + bytes, columns, 0, ncols);
    bytes := bytes + used;
    assert columns[..] == ParseStrs(s[4..], ncols).value.value;
    var fields;
    used, fields := ReadRows(msg, at + bytes, nrows, ncols);
    assert s[bytes..] == msg[at + bytes..];
    bytes := bytes + used;
    table := Table(nrows, ncols, columns[..], fields);
  }

  /** The row loop of `cidbmsg_read_table`. */
  method ReadRows(msg: array<u8>, at: nat, nrows: u16, ncols: u16) returns (bytes: u32, cells: seq<CPtr>)
    requires at <= msg.Length < B32
    requires ParseRows(msg[at..], 0, nrows, ncols, Fresh(Area(nrows, ncols))).Some?
    ensures ParseRows(msg[at..], 0, nrows, ncols, Fresh(Area(nrows, ncols))) == Some(Parsed(cells, bytes))
  {
    hide ParseStrs, ParseRows, Area, RowIdx, Splice;
    ghost var s := msg[..];
    var fields := new CPtr[Area(nrows, ncols)](_ => Uninit);
    assert fields[..] == Fresh(Area(nrows, ncols));
    bytes := 0;
    var i := 0;
    while i < nrows
      invariant 0 <= i <= nrows && at + bytes <= |s|
      invariant msg[..] == s
      invariant var q := ParseRows(s[at + bytes..], i, nrows, ncols, fields[..]);
                && q.Some?
                && ParseRows(s[at..], 0, nrows, ncols, Fresh(Area(nrows, ncols)))
                == Some(Parsed(q.value.value, bytes + q.value.size))
    {
      ParseRowsStep(s, at + bytes, i, nrows, ncols, fields[..]);
      assert msg[at + bytes..] == s[at + bytes..];
      var rowidx: u16 := RowIdx(i, ncols);
      var used := ReadCells(msg, at + bytes, fields, rowidx, ncols);
      bytes := bytes + used;
      i := i + 1;
    }
    cells := fields[..];
    ParseRowsEnd(s[at + bytes..], nrows, ncols, cells);
  }

  /** `size` plus the long-length escape plus the characters, in wrapping 32-bit arithmetic. */
  method AddText(p: CPtr, start: u32) returns (size: u32)
    requires p != Uninit
    ensures size == (start + |EncStr(p)| - 1) % B32
  {
    var len: u16 := if p.Text? then Strlen(p.chars) % B16 else 0;
    size := start;
    if len >= 255 {
      size := (size + 2) % B32;
    }
    size := (size + len) % B32;
    EncStrSize(p);
  }

  lemma EncStrSize(p: CPtr)
    ensures |EncStr(p)| == (if |WireText(p)| >= 255 then 3 else 1) + |WireText(p)|
  {
  }

  /** The string-size loops; `bytes` is an unsigned int and wraps. */
  method AddCells(cells: seq<CPtr>, start: u32) returns (bytes: u32)
    requires Uninit !in cells
    ensures bytes == (start + |EncStrs(cells)|) % B32
  {
    hide EncStr, EncStrs;
    bytes := start;
    ghost var size := 0;
    var j := 0;
    assert cells[0..] == cells;
    while j < |cells|
      invariant 0 <= j <= |cells|
      invariant size + |EncStrs(cells[j..])| == |EncStrs(cells)|
      invariant bytes == (start + size) % B32
    {
      EncStrsAt(cells, j);
      bytes := AddText(cells[j], (bytes + 1) % B32);
      size := size + |EncStr(cells[j])|;
      j := j + 1;
    }
    assert cells[j..] == [];
    EncStrsEmpty();
  }

  lemma TableSize(table: Table)
    requires ValidTable(table)
    ensures |EncTable(table)| == 4 + |EncStrs(table.columns[..table.ncols])| + |EncStrs(WireRows(table, 0))|
    ensures table.ncols <= |table.columns| && Uninit !in table.columns[..table.ncols]
  {
  }

  /** The column loop dereferences every name; the cell loop tests for null. */
  method TableGetSize(table: Table) returns (bytes: u32)
    requires ValidTable(table) && Null !in table.columns[..table.ncols]
    ensures bytes == |EncTable(table)| % B32
  {
    hide EncStrs, RowAt, ValidTable, EncTable;
    TableSize(table);
    bytes := AddCells(table.columns[..table.ncols], 4);
    ghost var size := 4 + |EncStrs(table.columns[..table.ncols])|;
    var i := 0;
    while i < table.nrows
      invariant 0 <= i <= table.nrows
      invariant size + |EncStrs(WireRows(table, i))| == |EncTable(table)|
      invariant bytes == size % B32
    {
      EncStrsConcat(RowAt(table, i), WireRows(table, i + 1));
      bytes := AddCells(RowAt(table, i), bytes);
      size := size + |EncStrs(RowAt(table, i))|;
      i := i + 1;
    }
    EncStrsEmpty();
  }

  method WriteCells(msg: array<u8>, at: nat, cells: seq<CPtr>) returns (bytes: u32)
    requires Uninit !in cells
    requires at + |EncStrs(cells)| <= msg.Length < B32
    modifies msg
    ensures bytes == |EncStrs(cells)|
    ensures msg[..] == Splice(old(msg[..]), at, EncStrs(cells))
  {
    hide EncStr, EncStrs, WireText, Splice;
    bytes := 0;
    var j := 0;
    ghost var was, done := msg[..], [];
    assert cells[0..] == cells;
    while j < |cells|
      invariant 0 <= j <= |cells|
      invariant done + EncStrs(cells[j..]) == EncStrs(cells)
      invariant bytes == |done|
      invariant msg[..] == Splice(was, at, done)
    {
      EncStrsAt(cells, j);
      var used := WriteString(msg, at + bytes, cells[j]);
      SpliceSplice(was, at, done, EncStr(cells[j]));
      done := done + EncStr(cells[j]);
      bytes := bytes + used;
      j := j + 1;
    }
    assert cells[j..] == [];
    EncStrsEmpty();
  }

  method WriteTable(msg: array<u8>, at: nat, table: Table) returns (bytes: u32)
    requires ValidTable(table)
    requires at + |EncTable(table)| <= msg.Length < B32
    modifies msg
    ensures bytes == |EncTable(table)|
    ensures msg[..] == Splice(old(msg[..]), at, EncTable(table))
  {
    hide EncStrs, WireRows, Splice, LE16;
    ghost var was := msg[..];
    SetUshort(msg, at, table.nrows);
    SetUshort(msg, at + 2, table.ncols);
    SpliceSplice(was, at, LE16(table.nrows), LE16(table.ncols));
    var names := table.columns[..table.ncols];
    bytes := 4;
    var used := WriteCells(msg, at + bytes, names);
    SpliceSplice(was, at, Dims(table), EncStrs(names));
    bytes := bytes + used;
    used := WriteRows(msg, at + bytes, table);
    SpliceSplice(was, at, Dims(table) + EncStrs(names), EncStrs(WireRows(table, 0)));
    bytes := bytes + used;
  }

  /** The row loop of `cidbmsg_write_table`. */
  method WriteRows(msg: array<u8>, at: nat, table: Table) returns (bytes: u32)
    requires ValidTable(table)
    requires at + |EncStrs(WireRows(table, 0))| <= msg.Length < B32
    modifies msg
    ensures bytes == |EncStrs(WireRows(table, 0))|
    ensures msg[..] == Splice(old(msg[..]), at, EncStrs(WireRows(table, 0)))
  {
    hide EncStrs, RowAt, Splice, ValidTable;
    ghost var was, done, total := msg[..], [], EncStrs(WireRows(table, 0));
    bytes := 0;
    var i := 0;
    while i < table.nrows
      invariant 0 <= i <= table.nrows
      invariant done + EncStrs(WireRows(table, i)) == total
      invariant bytes == |done|
      invariant msg[..] == Splice(was, at, done)
    {
      ghost var row := EncStrs(RowAt(table, i));
      EncStrsConcat(RowAt(table, i), WireRows(table, i + 1));
      assert total == done + row + EncStrs(WireRows(table, i + 1));
      var used := WriteCells(msg, at + bytes, RowAt(table, i));
      SpliceSplice(was, at, done, row);
      done := done + row;
      bytes := bytes + used;
      i := i + 1;
    }
    EncStrsEmpty();
  }
}
