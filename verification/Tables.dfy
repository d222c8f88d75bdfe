/** Rectangular string tables (cidbmessages.c:81-196). */
module Tables {
  import opened Machine
  import opened CStrings

  /** `columns` and `fields` are the two pointer arrays; a null array is an empty sequence. */
  datatype Table = Table(nrows: u16, ncols: u16, columns: seq<CPtr>, fields: seq<CPtr>)

  function Area(nrows: nat, ncols: nat): nat {
    nrows * ncols
  }

  /** The arrays have the announced dimensions and every cell was assigned. */
  predicate ValidTable(t: Table) {
    && t.ncols <= |t.columns|
    && Area(t.nrows, t.ncols) <= |t.fields|
    && Uninit !in t.columns[..t.ncols]
    && Uninit !in t.fields[..Area(t.nrows, t.ncols)]
  }

  /** `rowidx`, an unsigned short. */
  function RowIdx(i: nat, ncols: u16): u16 {
    i * ncols % B16
  }

  lemma RowFits(i: nat, nrows: nat, ncols: u16)
    requires i < nrows
    ensures 0 <= i * ncols
    ensures i * ncols + ncols == (i + 1) * ncols <= Area(nrows, ncols)
    ensures RowIdx(i, ncols) <= i * ncols
  {
    var more: nat := nrows - i - 1;
    assert nrows * ncols == i * ncols + ncols + more * ncols;
    ModAtMost(i * ncols);
  }

  lemma ModAtMost(x: nat)
    ensures x % B16 <= x
  {
  }

  lemma SubAssigned(s: seq<CPtr>, n: nat, at: nat, len: nat)
    requires at + len <= n <= |s| && Uninit !in s[..n]
    ensures Uninit !in s[at..at + len]
  {
    assert s[at..at + len] == s[..n][at..at + len];
  }

  /** The cells that row `i` of the loops at cidbmessages.c:146 and 184 touches. */
  function RowAt(t: Table, i: nat): (r: seq<CPtr>)
    requires ValidTable(t) && i < t.nrows
    ensures |r| == t.ncols && Uninit !in r
  {
    RowFits(i, t.nrows, t.ncols);
    var at := RowIdx(i, t.ncols);
    SubAssigned(t.fields, Area(t.nrows, t.ncols), at, t.ncols);
    t.fields[at..at + t.ncols]
  }

  /** The cells written by the row loop from row `i` on. */
  function WireRows(t: Table, i: nat): (r: seq<CPtr>)
    requires ValidTable(t) && i <= t.nrows
    decreases t.nrows - i
  {
    if i == t.nrows then [] else RowAt(t, i) + WireRows(t, i + 1)
  }

  function Dims(t: Table): bytes {
    LE16(t.nrows) + LE16(t.ncols)
  }

  function EncTable(t: Table): bytes
    requires ValidTable(t)
  {
    Dims(t) + EncStrs(t.columns[..t.ncols]) + EncStrs(WireRows(t, 0))
  }

  /** What a table becomes by travelling: same dimensions, same cells in row-major order. */
  function NormTable(t: Table): (r: Table)
    requires ValidTable(t)
    ensures ValidTable(r)
  {
    var n := Area(t.nrows, t.ncols);
    Table(t.nrows, t.ncols, NormPtrs(t.columns[..t.ncols]), NormPtrs(t.fields[..n]))
  }

  const NO_TABLE := Table(0, 0, [], [])

  /** The row loop of the reader: each row's cells land at its `rowidx` in the block. */
  function ParseRows(s: bytes, i: nat, nrows: u16, ncols: u16, block: seq<CPtr>)
    : (r: Option<Parsed<seq<CPtr>>>)
    requires i <= nrows && |block| == Area(nrows, ncols)
    ensures r.Some? ==> r.value.size <= |s| && |r.value.value| == |block|
    decreases nrows - i
  {
    if i == nrows then Some(Parsed(block, 0))
    else
      var p := ParseStrs(s, ncols);
      if p.None? then None
      else
        RowFits(i, nrows, ncols);
        var q := ParseRows(s[p.value.size..], i + 1, nrows, ncols,
                           Splice(block, RowIdx(i, ncols), p.value.value));
        if q.None? then None else Some(Parsed(q.value.value, p.value.size + q.value.size))
  }

  lemma ParseRowsStep(s: bytes, off: nat, i: nat, nrows: u16, ncols: u16, block: seq<CPtr>)
    requires off <= |s| && i < nrows && |block| == Area(nrows, ncols)
    requires ParseRows(s[off..], i, nrows, ncols, block).Some?
    ensures ParseStrs(s[off..], ncols).Some? && RowIdx(i, ncols) + ncols <= |block|
    ensures var p := ParseStrs(s[off..], ncols).value;
            && off + p.size <= |s|
            && var q := ParseRows(s[off + p.size..], i + 1, nrows, ncols, Splice(block, RowIdx(i, ncols), p.value));
            && q.Some?
            && ParseRows(s[off..], i, nrows, ncols, block) == Some(Parsed(q.value.value, p.size + q.value.size))
  {
    hide ParseStrs, RowIdx, Area, Splice;
    RowFits(i, nrows, ncols);
    var p := ParseStrs(s[off..], ncols).value;
    assert s[off..][p.size..] == s[off + p.size..];
  }

  function Fresh(n: nat): (r: seq<CPtr>)
    ensures |r| == n
  {
    seq(n, _ => Uninit)
  }

  function ParseTable(s: bytes): (r: Option<Parsed<Table>>)
    ensures r.Some? ==> r.value.size <= |s|
  {
    if |s| < 4 then None
    else
      var nrows, ncols := Get16(s, 0), Get16(s, 2);
      var c := ParseStrs(s[4..], ncols);
      if c.None? then None
      else
        var f := ParseRows(s[4 + c.value.size..], 0, nrows, ncols, Fresh(Area(nrows, ncols)));
        if f.None? then None
        else Some(Parsed(Table(nrows, ncols, c.value.value, f.value.value),
                         4 + c.value.size + f.value.size))
  }

  // ---- the round trip ----

  /** Where the reader puts the written rows. */
  function Scatter(t: Table, i: nat, block: seq<CPtr>): (r: seq<CPtr>)
    requires ValidTable(t) && i <= t.nrows && |block| == Area(t.nrows, t.ncols)
    ensures |r| == |block|
    decreases t.nrows - i
  {
    if i == t.nrows then block
    else
      RowFits(i, t.nrows, t.ncols);
      Scatter(t, i + 1, Splice(block, RowIdx(i, t.ncols), NormPtrs(RowAt(t, i))))
  }

  lemma {:induction false} ParseEncRows(t: Table, i: nat, block: seq<CPtr>, rest: bytes)
    requires ValidTable(t) && i <= t.nrows && |block| == Area(t.nrows, t.ncols)
    ensures ParseRows(EncStrs(WireRows(t, i)) + rest, i, t.nrows, t.ncols, block)
         == Some(Parsed(Scatter(t, i, block), |EncStrs(WireRows(t, i))|))
    decreases t.nrows - i
  {
    hide ParseStrs, EncStrs, NormPtrs, RowAt, ValidTable, RowIdx, Area, ParseRows, Splice;
    if i < t.nrows {
      var row, later := RowAt(t, i), WireRows(t, i + 1);
      RowFits(i, t.nrows, t.ncols);
      EncStrsConcat(row, later);
      ParseEncStrs(row, EncStrs(later) + rest);
      var block' := Splice(block, RowIdx(i, t.ncols), NormPtrs(row));
      ParseEncRows(t, i + 1, block', rest);
      var all := EncStrs(WireRows(t, i)) + rest;
      assert all == EncStrs(row) + (EncStrs(later) + rest);
      assert all[|EncStrs(row)|..] == EncStrs(later) + rest;
      ParseRowsTurn(all, i, t.nrows, t.ncols, block);
    } else {
      EncStrsEmpty();
      ParseRowsEnd(EncStrs(WireRows(t, i)) + rest, t.nrows, t.ncols, block);
    }
  }

  lemma ParseRowsEnd(s: bytes, nrows: u16, ncols: u16, block: seq<CPtr>)
    requires |block| == Area(nrows, ncols)
    ensures ParseRows(s, nrows, nrows, ncols, block) == Some(Parsed(block, 0))
  {
  }

  /** One turn of the row loop. */
  lemma ParseRowsTurn(s: bytes, i: nat, nrows: u16, ncols: u16, block: seq<CPtr>)
    requires i < nrows && |block| == Area(nrows, ncols) && ParseStrs(s, ncols).Some?
    ensures RowIdx(i, ncols) + ncols <= |block|
    ensures var p := ParseStrs(s, ncols).value;
            var q := ParseRows(s[p.size..], i + 1, nrows, ncols, Splice(block, RowIdx(i, ncols), p.value));
            q.Some? ==> ParseRows(s, i, nrows, ncols, block) == Some(Parsed(q.value.value, p.size + q.value.size))
  {
    hide ParseStrs, RowIdx, Area, Splice;
    RowFits(i, nrows, ncols);
  }

  lemma EncStrsEmpty()
    ensures EncStrs([]) == []
  {
  }

  /** The table the reader builds from a written one; cells no row reaches stay unassigned. */
  function ReadBack(t: Table): Table
    requires ValidTable(t)
  {
    Table(t.nrows, t.ncols, NormPtrs(t.columns[..t.ncols]), Scatter(t, 0, Fresh(Area(t.nrows, t.ncols))))
  }

  /** Reading a written table, whatever follows it, takes exactly the bytes that were written. */
  lemma {:induction false} ParseEncTable(t: Table, rest: bytes)
    requires ValidTable(t)
    ensures ParseTable(EncTable(t) + rest) == Some(Parsed(ReadBack(t), |EncTable(t)|))
  {
    hide ParseTable, EncTable, Scatter, WireRows, ParseRows, EncStrs, ParseStrs, NormPtrs;
    var cols := t.columns[..t.ncols];
    var c, f := EncStrs(cols), EncStrs(WireRows(t, 0));
    var block := Fresh(Area(t.nrows, t.ncols));
    ParseEncStrs(cols, f + rest);
    ParseEncRows(t, 0, block, rest);
    ParseTableParts(t.nrows, t.ncols, c, NormPtrs(cols), f, Scatter(t, 0, block), rest);
    EncTableParts(t, rest);
  }

  lemma EncTableParts(t: Table, rest: bytes)
    requires ValidTable(t)
    ensures var c, f := EncStrs(t.columns[..t.ncols]), EncStrs(WireRows(t, 0));
            && EncTable(t) + rest == LE16(t.nrows) + LE16(t.ncols) + (c + (f + rest))
            && |EncTable(t)| == 4 + |c| + |f|
  {
    hide EncStrs, WireRows;
  }

  lemma ParseTableParts(nrows: u16, ncols: u16, c: bytes, columns: seq<CPtr>, f: bytes, fields: seq<CPtr>,
                        rest: bytes)
    requires ParseStrs(c + (f + rest), ncols) == Some(Parsed(columns, |c|))
    requires ParseRows(f + rest, 0, nrows, ncols, Fresh(Area(nrows, ncols))) == Some(Parsed(fields, |f|))
    ensures ParseTable(LE16(nrows) + LE16(ncols) + (c + (f + rest)))
         == Some(Parsed(Table(nrows, ncols, columns, fields), 4 + |c| + |f|))
  {
    hide ParseStrs, ParseRows, LE16, Get16, Fresh;
    DimsFirst(nrows, ncols, c + (f + rest));
    var s := LE16(nrows) + LE16(ncols) + (c + (f + rest));
    assert s[4 + |c|..] == f + rest;
  }

  lemma DimsFirst(a: u16, b: u16, body: bytes)
    ensures var s := LE16(a) + LE16(b) + body; Get16(s, 0) == a && Get16(s, 2) == b && s[4..] == body
  {
    assert LE16(a) + LE16(b) + body == [] + LE16(a) + (LE16(b) + body);
    Get16OfLE16([], a, LE16(b) + body);
    Get16OfLE16(LE16(a), b, body);
  }

  /** While `rowidx` does not wrap, the rows tile the block. */
  lemma {:induction false} ScatterExact(t: Table, i: nat, block: seq<CPtr>)
    requires ValidTable(t) && i <= t.nrows && |block| == Area(t.nrows, t.ncols)
    requires t.nrows == 0 || (t.nrows - 1) * t.ncols < B16
    requires 0 <= i * t.ncols <= |block|
    requires block[..i * t.ncols] == NormPtrs(t.fields[..i * t.ncols])
    ensures Scatter(t, i, block) == NormPtrs(t.fields[..Area(t.nrows, t.ncols)])
    decreases t.nrows - i
  {
    hide NormPtrs, Splice;
    if i < t.nrows {
      var at, next := i * t.ncols, (i + 1) * t.ncols;
      RowFits(i, t.nrows, t.ncols);
      assert at <= (t.nrows - 1) * t.ncols by { assert (t.nrows - 1 - i) * t.ncols >= 0; }
      TileRow(t.fields, block, at, next);
      ScatterExact(t, i + 1, Splice(block, at, NormPtrs(RowAt(t, i))));
    }
  }

  lemma TileRow(fields: seq<CPtr>, block: seq<CPtr>, at: nat, next: nat)
    requires at <= next <= |block| <= |fields|
    requires block[..at] == NormPtrs(fields[..at])
    ensures Splice(block, at, NormPtrs(fields[at..next]))[..next] == NormPtrs(fields[..next])
  {
    hide NormPtr;
    assert NormPtrs(fields[..next]) == NormPtrs(fields[..at]) + NormPtrs(fields[at..next]);
  }

  /** Once `rowidx` wraps, no row reaches the last cell of the block. */
  lemma {:induction false} ScatterMissesLast(t: Table, i: nat, block: seq<CPtr>)
    requires ValidTable(t) && i <= t.nrows && |block| == Area(t.nrows, t.ncols)
    requires t.nrows > 0 && (t.nrows - 1) * t.ncols >= B16
    requires |block| > 0
    ensures Scatter(t, i, block)[|block| - 1] == block[|block| - 1]
    decreases t.nrows - i
  {
    if i < t.nrows {
      RowFits(i, t.nrows, t.ncols);
      RowFits(t.nrows - 1, t.nrows, t.ncols);
      ScatterMissesLast(t, i + 1, Splice(block, RowIdx(i, t.ncols), NormPtrs(RowAt(t, i))));
    }
  }

  /** What is read back is the table's normal form if and only if the last row's index fits
      the unsigned short that holds it. */
  lemma ReadBackIsNorm(t: Table)
    requires ValidTable(t)
    ensures ReadBack(t) == NormTable(t) <==> IndexFits(t)
  {
    hide NormPtr, Scatter;
    var n := Area(t.nrows, t.ncols);
    if IndexFits(t) {
      ScatterExact(t, 0, Fresh(n));
    } else {
      RowFits(t.nrows - 1, t.nrows, t.ncols);
      ScatterMissesLast(t, 0, Fresh(n));
      assert NormTable(t).fields[n - 1] == NormPtr(t.fields[..n][n - 1]);
      NormPtrIsText(t.fields[..n][n - 1]);
    }
  }

  lemma NormPtrIsText(p: CPtr)
    ensures NormPtr(p).Text?
  {
  }

  predicate IndexFits(t: Table) {
    t.nrows == 0 || (t.nrows - 1) * t.ncols < B16
  }

  /** Normal forms encode like the tables they come from, wrapped rows included. */
  lemma {:induction false} RowsOfNorm(t: Table, i: nat)
    requires ValidTable(t) && i <= t.nrows
    ensures EncStrs(WireRows(NormTable(t), i)) == EncStrs(WireRows(t, i))
    decreases t.nrows - i
  {
    hide EncStrs, NormPtr;
    if i < t.nrows {
      RowsOfNorm(t, i + 1);
      RowFits(i, t.nrows, t.ncols);
      assert RowAt(NormTable(t), i) == NormPtrs(RowAt(t, i));
      EncStrsOfNorm(RowAt(t, i));
      EncStrsConcat(RowAt(t, i), WireRows(t, i + 1));
      EncStrsConcat(RowAt(NormTable(t), i), WireRows(NormTable(t), i + 1));
    }
  }

  lemma NormTableStable(t: Table)
    requires ValidTable(t)
    ensures NormTable(NormTable(t)) == NormTable(t)
    ensures EncTable(NormTable(t)) == EncTable(t)
  {
    hide EncStrs, NormPtr, WireRows;
    var cols, cells := t.columns[..t.ncols], t.fields[..Area(t.nrows, t.ncols)];
    NormPtrsStable(cols);
    NormPtrsStable(cells);
    EncStrsOfNorm(cols);
    RowsOfNorm(t, 0);
    assert NormPtrs(cols)[..t.ncols] == NormPtrs(cols);
    assert NormPtrs(cells)[..Area(t.nrows, t.ncols)] == NormPtrs(cells);
  }
}
