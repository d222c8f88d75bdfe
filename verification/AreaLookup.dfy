/** The index build and the lookup as the program runs them: an index array filled in a loop,
    output buffers overwritten in place (ci_areacodes.c:24-166). */
module AreaLookup {
  import opened TextFiles
  import opened AreaCodes

  const UNKNOWN: string := "<unknown>"

  /** The area name behind a code: white space is skipped, the line's end cuts it. */
  function SkipSpaces(s: string): string {
    if s != [] && IsSpace(s[0]) then SkipSpaces(s[1..]) else s
  }

  function UntilEnd(s: string): string {
    if s == [] || s[0] == NUL || s[0] == '\n' then [] else [s[0]] + UntilEnd(s[1..])
  }

  /** It is the longest prefix without a line end. */
  lemma UntilEndIs(s: string)
    ensures var r := UntilEnd(s);
            && r <= s && NUL !in r && '\n' !in r
            && (|r| < |s| ==> s[|r|] == NUL || s[|r|] == '\n')
  {
  }

  function AreaOf(line: string, code: nat): string
    requires code <= |line|
  {
    UntilEnd(SkipSpaces(line[code..]))
  }

  /** White space, then the area, then nothing more or a line end: how the text behind a code
      is made up, in just one way. */
  predicate MadeUpOf(text: string, blanks: string, area: string, tail: string) {
    && text == blanks + area + tail
    && (forall i | 0 <= i < |blanks| :: blanks[i] as int in {9, 10, 12, 13, 32})
    && (area + tail != [] ==> (area + tail)[0] as int !in {9, 10, 12, 13, 32})
    && '\n' !in area && '\0' !in area
    && (tail != [] ==> tail[0] == '\n' || tail[0] == '\0')
  }

  /** `area` is what stands behind a code of that length. */
  ghost predicate NamesArea(line: string, code: nat, area: string) {
    code <= |line| && exists blanks, tail :: MadeUpOf(line[code..], blanks, area, tail)
  }

  lemma {:induction false} SpacesSkipped(s: string) returns (blanks: string)
    ensures s == blanks + SkipSpaces(s) && forall i | 0 <= i < |blanks| :: blanks[i] as int in {9, 10, 12, 13, 32}
    ensures SkipSpaces(s) != [] ==> SkipSpaces(s)[0] as int !in {9, 10, 12, 13, 32}
  {
    if s != [] && IsSpace(s[0]) {
      blanks := SpacesSkipped(s[1..]);
      blanks := [s[0]] + blanks;
    } else {
      blanks := [];
    }
  }

  /** The text behind a code is white space, the area, and what the line end cuts. */
  lemma AreaIsNamed(line: string, code: nat)
    requires code <= |line|
    ensures NamesArea(line, code, AreaOf(line, code))
  {
    hide SkipSpaces, UntilEnd;
    var rest := SkipSpaces(line[code..]);
    var blanks := SpacesSkipped(line[code..]);
    UntilEndIs(rest);
    var area := UntilEnd(rest);
    var tail := rest[|area|..];
    assert area + tail == rest && blanks + area + tail == blanks + rest;
    assert MadeUpOf(line[code..], blanks, area, tail);
  }

  /** There is only one such area. */
  lemma AreaIsUnique(line: string, code: nat, a: string, b: string)
    requires NamesArea(line, code, a) && NamesArea(line, code, b)
    ensures a == b
  {
    var text := line[code..];
    var p, s :| MadeUpOf(text, p, a, s);
    var q, t :| MadeUpOf(text, q, b, t);
    SameBlanks(text, p, a + s, q, b + t);
    assert a + s == text[|p|..] == text[|q|..] == b + t;
    assert forall i | 0 <= i < |a| :: a[i] == (a + s)[i];
    assert forall i | 0 <= i < |b| :: b[i] == (b + t)[i];
    assert |a| < |a + s| ==> (a + s)[|a|] == s[0];
    assert |b| < |b + t| ==> (b + t)[|b|] == t[0];
    assert a == (a + s)[..|a|] && b == (b + t)[..|b|];
  }

  lemma SameBlanks(text: string, p: string, s: string, q: string, t: string)
    requires text == p + s == q + t
    requires forall i | 0 <= i < |p| :: p[i] as int in {9, 10, 12, 13, 32}
    requires forall i | 0 <= i < |q| :: q[i] as int in {9, 10, 12, 13, 32}
    requires (s != [] ==> s[0] as int !in {9, 10, 12, 13, 32}) && (t != [] ==> t[0] as int !in {9, 10, 12, 13, 32})
    ensures |p| == |q|
  {
    assert forall i | 0 <= i < |p| :: text[i] == p[i];
    assert forall i | 0 <= i < |q| :: text[i] == q[i];
    assert s != [] ==> text[|p|] == s[0];
    assert t != [] ==> text[|q|] == t[0];
  }

  /** `strcpy`. */
  method Strcpy(dst: array<char>, src: string)
    requires NUL !in src && |src| < dst.Length
    modifies dst
    ensures CStr(dst[..]) == src
    ensures dst[..] == src + [NUL] + old(dst[..])[|src| + 1..]
  {
    forall j | 0 <= j < |src| {
      dst[j] := src[j];
    }
    dst[|src|] := NUL;
    CStrIs(dst[..], src);
  }

  // ---- what a lookup gives ----

  /** Whether the file name has been set, what opening the file gives, and the index. */
  datatype Directory = Directory(known: bool, disk: Disk, slots: seq<int>)

  predicate Usable(d: Directory) {
    |d.slots| == 100 && (d.disk.Present? ==> InFile(d.slots, d.disk.content))
  }

  type UsableDirectory = d: Directory | Usable(d) witness Directory(false, Missing, seq(100, _ => 0))

  /** The outcome of a lookup, whether or not the file can be opened. */
  function Resolve(d: UsableDirectory, buffer: seq<char>): (o: Outcome)
    requires |buffer| >= 3
    ensures o.Found? ==> o.code <= |o.line| && o.code <= |CStr(buffer)|
  {
    if d.disk.Present? then Lookup(d.disk.content, d.slots, buffer)
    else if !IsDigit(buffer[0]) then NoNumber
    else if Slot(buffer) > 0 && d.slots[Slot(buffer)] == 0 then NotIndexed
    else AtEnd
  }

  /** The three output strings. */
  datatype Parts = Parts(areacode: string, number: string, area: string)

  /** On success the area code and the rest concatenate to the number; on failure the rest is
      the whole number, and when the file ends before a candidate is passed only the first
      character of the "<unknown>" in the area code has been replaced. */
  function Divide(number: string, o: Outcome): Parts
    requires o.Found? ==> o.code <= |o.line| && o.code <= |number|
  {
    if o.Found? then Parts(number[..o.code], number[o.code..], AreaOf(o.line, o.code))
    else Parts(if o.AtEnd? then [At(number, 0)] + UNKNOWN[1..] else UNKNOWN, number, UNKNOWN)
  }

  class Areas {
    const indizes: array<int>
    var known: bool  // the file name has been set

    constructor ()
      ensures fresh(indizes) && indizes.Length == 100 && !known
      ensures forall k | 0 <= k < 100 :: indizes[k] == 0
    {
      indizes := new int[100](_ => 0);
      known := false;
    }

    /** Builds the index; `disk` is the file's content, None when it cannot be opened. */
    method ReadFromFile(disk: TextFiles.Disk) returns (rc: int)
      requires indizes.Length == 100
      modifies this, indizes
      ensures known && rc == (if disk.Missing? then 1 else 0)
      ensures disk.Missing? ==> indizes[..] == old(indizes[..])
      ensures disk.Present? ==> forall k | 0 <= k < 100 ::
                indizes[k] == if old(indizes[k]) != 0 then old(indizes[k])
                              else FirstWithKey(Records(disk.content, 0), k)
      ensures disk.Present? && old(forall k | 0 <= k < 100 :: indizes[k] == 0) ==>
                Indexed(indizes[..], disk.content)
    {
      hide Records, Run;
      known := true;
      if disk.Missing? {
        return 1;
      }
      var f := new File(disk.content);
      assert forall k | 0 <= k < 100 :: indizes[k] == old(indizes[k]);
      while !f.eof
        invariant known && f.Valid() && f.content == disk.content && fresh(f)
        invariant forall k | 0 <= k < 100 ::
          (if indizes[k] != 0 then indizes[k] else FirstWithKey(Records(disk.content, f.pos), k))
          == (if old(indizes[k]) != 0 then old(indizes[k]) else FirstWithKey(Records(disk.content, 0), k))
        decreases |f.content| - f.pos, !f.eof
      {
        var pos := f.pos;
        var ok, buffer := f.Gets();
        if ok {
          StartsWithThree(buffer);
          ghost var recs := Records(disk.content, pos);
          assert recs[0] == Rec(pos, buffer) && recs[1..] == Records(disk.content, f.pos);
          if |buffer| >= 3 && IsDigit(buffer[0]) && IsDigit(buffer[1]) && IsDigit(buffer[2]) {
            var index := 10 * DigitValue(buffer[1]) + DigitValue(buffer[2]);
            if indizes[index] == 0 {
              indizes[index] := pos;
            }
          }
        }
      }
      NoRecords(disk.content);
      rc := 0;
    }

    /** What a lookup depends on now, when opening the file gives `disk`. */
    function Book(disk: Disk): Directory
      reads this, indizes
    {
      Directory(known, disk, indizes[..])
    }

    /** `ci_get_area_code`. The number and its rest may share one buffer. */
    method GetAreaCode(disk: Disk, numComplete: array<char>, numAreaCode: array<char>, numNumber: array<char>,
                       strArea: array<char>)
      returns (rc: int)
      requires indizes.Length == 100 && Usable(Book(disk))
      requires numComplete.Length >= 3 && |CStr(numComplete[..])| < numComplete.Length
      requires numAreaCode != numComplete && numAreaCode != numNumber && numAreaCode != strArea
      requires strArea != numComplete && strArea != numNumber
      requires |CStr(numComplete[..])| < numNumber.Length
      requires numAreaCode.Length > |UNKNOWN| && strArea.Length > LINE_MAX
      requires var o := Resolve(Book(disk), numComplete[..]); o.Found? ==> o.code < numAreaCode.Length
      modifies numAreaCode, numNumber, strArea
      ensures !known ==> rc == 1 && numAreaCode[..] == old(numAreaCode[..]) && numNumber[..] == old(numNumber[..])
                         && strArea[..] == old(strArea[..])
      ensures known ==>
                var number := old(CStr(numComplete[..]));
                var o := old(Resolve(Book(disk), numComplete[..]));
                && rc == (if o.Found? then 0 else 1)
                && Parts(CStr(numAreaCode[..]), CStr(numNumber[..]), CStr(strArea[..])) == Divide(number, o)
                && (o.Found? ==> NamesArea(o.line, o.code, CStr(strArea[..])))
    {
      hide Scan, Records, Slot, AreaOf, CStr, NamesArea;
      if !known {
        return 1;
      }
      Preset(numComplete, numAreaCode, numNumber, strArea);
      if !IsDigit(numComplete[0]) {
        return 1;
      }
      FirstCharacter(numComplete[..]);
      SetFirst(numAreaCode, numComplete[0]);
      var index := SlotOf(numComplete);
      if index > 0 && indizes[index] == 0 {
        Strcpy(numAreaCode, UNKNOWN);
        return 1;
      }
      if disk.Missing? {
        return 1;
      }
      ghost var o := Scan(Records(disk.content, indizes[index]), CStr(numComplete[..]));
      rc := Search(disk.content, indizes[index], numComplete, numAreaCode, numNumber, strArea);
      if o.Found? {
        AreaIsNamed(o.line, o.code);
      }
    }
  }

  lemma FirstCharacter(a: seq<char>)
    requires a != [] && a[0] != NUL
    ensures CStr(a) != [] && CStr(a)[0] == a[0]
  {
  }

  /** The outputs are preset to the whole number and "<unknown>". */
  method Preset(numComplete: array<char>, numAreaCode: array<char>, numNumber: array<char>, strArea: array<char>)
    requires |CStr(numComplete[..])| < numComplete.Length && |CStr(numComplete[..])| < numNumber.Length
    requires numAreaCode != numComplete && numAreaCode != numNumber && numAreaCode != strArea
    requires strArea != numComplete && strArea != numNumber
    requires numAreaCode.Length > |UNKNOWN| && strArea.Length > |UNKNOWN|
    modifies numAreaCode, numNumber, strArea
    ensures numComplete[..] == old(numComplete[..]) && CStr(numNumber[..]) == CStr(numComplete[..])
    ensures CStr(numAreaCode[..]) == UNKNOWN && CStr(strArea[..]) == UNKNOWN
  {
    if numComplete != numNumber {
      CopyNumber(numNumber, numComplete);
    }
    Strcpy(numAreaCode, UNKNOWN);
    Strcpy(strArea, UNKNOWN);
  }

  method SetFirst(a: array<char>, c: char)
    requires c != NUL && CStr(a[..]) == UNKNOWN && |UNKNOWN| < a.Length
    modifies a
    ensures CStr(a[..]) == [c] + UNKNOWN[1..]
  {
    a[0] := c;
    CStrIs(a[..], [c] + UNKNOWN[1..]);
  }

  /** Scans from an offset and, on a hit, splits the number and names the area. */
  method Search(content: string, start: nat, numComplete: array<char>, numAreaCode: array<char>,
                numNumber: array<char>, strArea: array<char>)
    returns (rc: int)
    requires start <= |content|
    requires |CStr(numComplete[..])| < numComplete.Length && |CStr(numComplete[..])| < numNumber.Length
    requires numAreaCode != numComplete && numAreaCode != numNumber && numAreaCode != strArea
    requires strArea != numComplete && strArea != numNumber
    requires numAreaCode.Length > |UNKNOWN| && strArea.Length > LINE_MAX
    requires var o := Scan(Records(content, start), CStr(numComplete[..])); o.Found? ==> o.code < numAreaCode.Length
    modifies numAreaCode, numNumber, strArea
    ensures var number := old(CStr(numComplete[..]));
            var o := Scan(Records(content, start), number);
            && rc == (if o.Found? then 0 else 1)
            && (o.Found? ==>
                && CStr(numAreaCode[..]) == number[..o.code]
                && CStr(numNumber[..]) == number[o.code..]
                && CStr(strArea[..]) == AreaOf(o.line, o.code))
            && (!o.Found? ==> numNumber[..] == old(numNumber[..]) && strArea[..] == old(strArea[..]))
            && (o.Passed? ==> CStr(numAreaCode[..]) == UNKNOWN)
            && (o.AtEnd? ==> numAreaCode[..] == old(numAreaCode[..]))
  {
    hide Scan, Records, AreaOf;
    rc := 1;
    var found := FindLine(content, start, numComplete);
    if found.Found? {
      Split(found.line, found.code, numComplete, numAreaCode, numNumber);
      FillArea(strArea, found.line, found.code);
      rc := 0;
    } else if found.Passed? {
      Strcpy(numAreaCode, UNKNOWN);
    }
  }

  method SlotOf(numComplete: array<char>) returns (index: nat)
    requires numComplete.Length >= 3
    ensures index == Slot(numComplete[..])
  {
    index := 0;
    if IsDigit(numComplete[1]) {
      index := DigitValue(numComplete[1]);
    }
    if IsDigit(numComplete[2]) {
      index := 10 * index + DigitValue(numComplete[2]);
    }
  }

  method CopyNumber(dst: array<char>, src: array<char>)
    requires dst != src && |CStr(src[..])| < src.Length && |CStr(src[..])| < dst.Length
    modifies dst
    ensures CStr(dst[..]) == CStr(src[..])
  {
    ghost var number := CStr(src[..]);
    var j := 0;
    while src[j] != NUL
      invariant 0 <= j <= |number| && number[..j] == dst[..j]
      invariant CStr(src[..]) == number
      decreases |number| - j
    {
      dst[j] := src[j];
      j := j + 1;
    }
    dst[j] := NUL;
    CStrIs(dst[..], number);
  }

  /** The scan loop of `ci_get_area_code`. */
  method FindLine(content: string, start: nat, numComplete: array<char>) returns (o: Outcome)
    requires start <= |content| && |CStr(numComplete[..])| < numComplete.Length
    ensures o == Scan(Records(content, start), CStr(numComplete[..]))
    ensures o.Found? ==> o.code <= |o.line| <= LINE_MAX && o.code <= |CStr(numComplete[..])|
  {
    hide Records, Common;
    ghost var number := CStr(numComplete[..]);
    var f := new File(content);
    f.Seek(start);
    while !f.eof
      invariant f.Valid() && f.content == content && fresh(f) && CStr(numComplete[..]) == number
      invariant Scan(Records(content, f.pos), number) == Scan(Records(content, start), number)
      decreases |content| - f.pos, !f.eof
    {
      ghost var recs := Records(content, f.pos);
      RecordsSorted(content, f.pos);
      var ok, buffer := f.Gets();
      if ok {
        assert recs[0].text == buffer && recs[1..] == Records(content, f.pos);
        var i := Compare(buffer, numComplete);
        if i > 2 && !IsDigit(At(buffer, i)) {
          return Found(buffer, i);
        } else if DigitValue(At(buffer, i)) > DigitValue(numComplete[i]) {
          return Passed;
        }
      }
    }
    EndOfRecords(content);
    o := AtEnd;
  }

  method Compare(buffer: string, numComplete: array<char>) returns (i: nat)
    requires |CStr(numComplete[..])| < numComplete.Length
    ensures i == Common(buffer, CStr(numComplete[..]))
    ensures i < numComplete.Length && numComplete[i] == At(CStr(numComplete[..]), i)
  {
    ghost var number := CStr(numComplete[..]);
    i := 0;
    while IsDigit(At(buffer, i)) && DigitValue(At(buffer, i)) == DigitValue(numComplete[i])
      invariant i <= |buffer| && i <= |number|
      invariant Common(buffer, number) == i + Common(buffer[i..], number[i..])
      decreases |buffer| - i
    {
      assert i < |number|;
      assert buffer[i..][1..] == buffer[i + 1..] && number[i..][1..] == number[i + 1..];
      i := i + 1;
    }
  }

  /** Copies the code and moves the rest of the number to the front, in place if need be. */
  method Split(line: string, code: nat, numComplete: array<char>, numAreaCode: array<char>, numNumber: array<char>)
    requires |CStr(numComplete[..])| < numComplete.Length && |CStr(numComplete[..])| < numNumber.Length
    requires code <= |CStr(numComplete[..])| && code < numAreaCode.Length
    requires numAreaCode != numComplete && numAreaCode != numNumber
    modifies numAreaCode, numNumber
    ensures CStr(numAreaCode[..]) == old(CStr(numComplete[..]))[..code]
    ensures CStr(numNumber[..]) == old(CStr(numComplete[..]))[code..]
  {
    ghost var number := CStr(numComplete[..]);
    var j := 0;
    while j < code
      invariant 0 <= j <= code && numAreaCode[..j] == number[..j]
      invariant numComplete[..] == old(numComplete[..])
    {
      numAreaCode[j] := numComplete[j];
      j := j + 1;
    }
    numAreaCode[code] := NUL;
    CStrIs(numAreaCode[..], number[..code]);
    ShiftRest(code, numComplete, numNumber);
  }

  method ShiftRest(code: nat, numComplete: array<char>, numNumber: array<char>)
    requires |CStr(numComplete[..])| < numComplete.Length && |CStr(numComplete[..])| < numNumber.Length
    requires code <= |CStr(numComplete[..])|
    modifies numNumber
    ensures CStr(numNumber[..]) == old(CStr(numComplete[..]))[code..]
  {
    ghost var number := CStr(numComplete[..]);
    ghost var rest := number[code..];
    assert forall t | 0 <= t <= |number| :: numComplete[t] == At(number, t);
    var j := 0;
    while numComplete[j + code] != NUL
      invariant 0 <= j <= |rest|
      invariant numNumber[..j] == rest[..j]
      invariant forall t | j <= t <= |number| :: numComplete[t] == At(number, t)
      decreases |rest| - j
    {
      numNumber[j] := numComplete[j + code];
      j := j + 1;
    }
    numNumber[j] := NUL;
    CStrIs(numNumber[..], rest);
  }

  method FillArea(strArea: array<char>, line: string, code: nat)
    requires code <= |line| <= LINE_MAX < strArea.Length
    modifies strArea
    ensures CStr(strArea[..]) == AreaOf(line, code) && NamesArea(line, code, CStr(strArea[..]))
  {
    hide UntilEnd;
    AreaIsNamed(line, code);
    var i := code;
    while IsSpace(At(line, i))
      invariant code <= i <= |line|
      invariant SkipSpaces(line[code..]) == SkipSpaces(line[i..])
      decreases |line| - i
    {
      assert line[i..][1..] == line[i + 1..];
      i := i + 1;
    }
    CopyLine(strArea, line, i);
  }

  lemma UntilEndTurn(line: string, k: nat)
    requires k <= |line|
    ensures UntilEnd(line[k..]) == if At(line, k) == '\n' || At(line, k) == NUL then []
                                   else [line[k]] + UntilEnd(line[k + 1..])
  {
    assert k < |line| ==> line[k..][1..] == line[k + 1..];
  }

  /** Copies up to the end of the line. */
  method CopyLine(dst: array<char>, line: string, from: nat)
    requires from <= |line| < dst.Length
    modifies dst
    ensures CStr(dst[..]) == UntilEnd(line[from..])
  {
    UntilEndIs(line[from..]);
    var j := CopyCharacters(dst, line, from);
    dst[j] := NUL;
    CStrIs(dst[..], UntilEnd(line[from..]));
  }

  method CopyCharacters(dst: array<char>, line: string, from: nat) returns (j: nat)
    requires from <= |line| < dst.Length
    modifies dst
    ensures j == |UntilEnd(line[from..])| && j < dst.Length && dst[..j] == UntilEnd(line[from..])
  {
    hide UntilEnd;
    ghost var done := "";
    j := 0;
    while At(line, from + j) != '\n' && At(line, from + j) != NUL
      invariant j == |done| && from + j <= |line|
      invariant dst[..j] == done
      invariant UntilEnd(line[from..]) == done + UntilEnd(line[from + j..])
      decreases |line| - from - j
    {
      UntilEndTurn(line, from + j);
      dst[j] := line[from + j];
      Regroup(done, [line[from + j]], UntilEnd(line[from + j + 1..]));
      done := done + [line[from + j]];
      j := j + 1;
    }
    UntilEndTurn(line, from + j);
  }

  lemma StartsWithThree(s: string)
    ensures IsCode(s) <==> |s| >= 3 && IsDigit(s[0]) && IsDigit(s[1]) && IsDigit(s[2])
  {
    if |s| >= 3 {
      assert s[1..][1..] == s[2..];
    }
  }

  lemma NoRecords(content: string)
    ensures forall k :: FirstWithKey(Records(content, |content|), k) == 0
  {
  }
}
