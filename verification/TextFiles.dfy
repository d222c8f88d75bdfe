/** Line-wise reading of a text file through a 256-byte buffer, and C strings in character
    arrays, as ci_areacodes.c uses them. */
module TextFiles {
  const NUL: char := '\0'
  const LINE_MAX := 255

  predicate IsDigit(c: char) {
    '0' <= c <= '9'
  }

  /** `g_ascii_digit_value`: -1 for anything but a digit. */
  function DigitValue(c: char): int {
    if IsDigit(c) then c as int - '0' as int else -1
  }

  predicate IsSpace(c: char) {
    c == ' ' || c == '\t' || c == '\n' || c == '\r' || c as int == 12
  }

  /** The character at `i` of a terminated buffer holding `s`. */
  function At(s: string, i: nat): char {
    if i < |s| then s[i] else NUL
  }

  /** The string in a character array: everything before the first NUL. */
  function CStr(a: seq<char>): (s: string)
    ensures |s| <= |a| && s == a[..|s|]
    ensures NUL !in s
    ensures |s| < |a| ==> a[|s|] == NUL
  {
    if a == [] || a[0] == NUL then [] else [a[0]] + CStr(a[1..])
  }

  /** A string that C can hold. */
  type CString = s: string | NUL !in s

  lemma CStrIs(a: seq<char>, s: string)
    requires |s| < |a| && a[..|s|] == s && NUL !in s && a[|s|] == NUL
    ensures CStr(a) == s
  {
    if s != [] {
      assert a[0] == a[..|s|][0] && a[1..][..|s| - 1] == s[1..];
      CStrIs(a[1..], s[1..]);
    }
  }

  lemma Regroup(a: string, b: string, c: string)
    ensures a + (b + c) == a + b + c
  {
  }

  /** How many characters `fgets` takes at `pos`: up to and including a newline, at most `room`. */
  function FgetsLen(content: string, pos: nat, room: nat): (n: nat)
    requires pos <= |content|
    ensures n <= room && pos + n <= |content|
    ensures room > 0 && pos < |content| ==> n > 0
    decreases room
  {
    if room == 0 || pos == |content| then 0
    else if content[pos] == '\n' then 1
    else 1 + FgetsLen(content, pos + 1, room - 1)
  }

  /** One successful `fgets`: where it started and what it stored. */
  datatype Rec = Rec(pos: nat, text: string)

  /** Everything a loop of `fgets` reads from `pos` on. */
  function Records(content: string, pos: nat): seq<Rec>
    requires pos <= |content|
    decreases |content| - pos
  {
    if pos == |content| then []
    else
      var n := FgetsLen(content, pos, LINE_MAX);
      [Rec(pos, content[pos..pos + n])] + Records(content, pos + n)
  }

  lemma RecordsSorted(content: string, pos: nat)
    requires pos <= |content|
    ensures forall j | 0 <= j < |Records(content, pos)| ::
              var r := Records(content, pos)[j];
              pos <= r.pos < |content| && 0 < |r.text| <= LINE_MAX && (r.pos == pos <==> j == 0)
    decreases |content| - pos
  {
    if pos < |content| {
      RecordsSorted(content, pos + FgetsLen(content, pos, LINE_MAX));
    }
  }

  /** The first record: it ends behind the first newline, after 255 characters, or with the
      file, whichever comes first; and the others follow. */
  lemma {:induction false} RecordShape(content: string, pos: nat)
    requires pos < |content|
    ensures var recs := Records(content, pos);
            && recs != [] && recs[0].pos == pos && 1 <= |recs[0].text| <= 255
            && pos + |recs[0].text| <= |content| && recs[0].text == content[pos..pos + |recs[0].text|]
            && (forall i | 0 <= i < |recs[0].text| - 1 :: recs[0].text[i] != '\n')
            && (recs[0].text[|recs[0].text| - 1] == '\n' || |recs[0].text| == 255
                || pos + |recs[0].text| == |content|)
            && recs[1..] == Records(content, pos + |recs[0].text|)
  {
    NoNewlineInside(content, pos, LINE_MAX);
    FgetsEnd(content, pos, LINE_MAX);
  }

  lemma {:induction false} NoNewlineInside(content: string, pos: nat, room: nat)
    requires pos <= |content|
    ensures forall i | pos <= i < pos + FgetsLen(content, pos, room) - 1 :: content[i] != '\n'
    decreases room
  {
    if room > 0 && pos < |content| && content[pos] != '\n' {
      NoNewlineInside(content, pos + 1, room - 1);
    }
  }

  /** Seeking to a record's offset resumes with exactly that record and its successors. */
  lemma {:induction false} SeekResumes(content: string, pos: nat, j: nat)
    requires pos <= |content| && j < |Records(content, pos)|
    ensures Records(content, pos)[j].pos <= |content|
    ensures Records(content, Records(content, pos)[j].pos) == Records(content, pos)[j..]
    decreases j
  {
    hide FgetsLen;
    if j > 0 {
      var n := FgetsLen(content, pos, LINE_MAX);
      SeekResumes(content, pos + n, j - 1);
      assert Records(content, pos)[j..] == Records(content, pos + n)[j - 1..];
    }
  }

  /** The file cut at its newlines. */
  function Lines(content: string, pos: nat): seq<Rec>
    requires pos <= |content|
    decreases |content| - pos
  {
    if pos == |content| then []
    else
      var n := FgetsLen(content, pos, |content|);
      [Rec(pos, content[pos..pos + n])] + Lines(content, pos + n)
  }

  lemma {:induction false} FgetsLenGrows(content: string, pos: nat, small: nat, large: nat)
    requires pos <= |content| && small <= large && (|content| - pos <= small || FgetsLen(content, pos, large) <= small)
    ensures FgetsLen(content, pos, small) == FgetsLen(content, pos, large)
    decreases large
  {
    if pos < |content| && content[pos] != '\n' && small > 0 {
      FgetsLenGrows(content, pos + 1, small - 1, large - 1);
    }
  }

  /** When no line exceeds the buffer, what the program reads are the lines of the file. */
  lemma {:induction false} RecordsAreLines(content: string, pos: nat)
    requires pos <= |content|
    requires forall j | 0 <= j < |Lines(content, pos)| :: |Lines(content, pos)[j].text| <= LINE_MAX
    ensures Records(content, pos) == Lines(content, pos)
    decreases |content| - pos
  {
    hide FgetsLen;
    if pos < |content| {
      var n := FgetsLen(content, pos, |content|);
      assert Lines(content, pos)[0].text == content[pos..pos + n];
      if |content| <= LINE_MAX {
        FgetsLenGrows(content, pos, |content|, LINE_MAX);
      } else {
        FgetsLenGrows(content, pos, LINE_MAX, |content|);
      }
      var rest := Lines(content, pos + n);
      assert Lines(content, pos)[1..] == rest;
      forall j | 0 <= j < |rest| ensures |rest[j].text| <= LINE_MAX {
        assert rest[j] == Lines(content, pos)[j + 1];
      }
      RecordsAreLines(content, pos + n);
    }
  }

  lemma RecordsTurn(content: string, pos: nat)
    requires pos < |content|
    ensures var n := FgetsLen(content, pos, LINE_MAX);
            Records(content, pos) == [Rec(pos, content[pos..pos + n])] + Records(content, pos + n)
  {
  }

  lemma EndOfRecords(content: string)
    ensures Records(content, |content|) == []
  {
  }

  /** The record of a line of `n` characters. */
  lemma RecordIs(content: string, pos: nat, n: nat)
    requires 0 < n <= LINE_MAX && pos + n <= |content| && content[pos + n - 1] == '\n'
    requires forall i | pos <= i < pos + n - 1 :: content[i] != '\n'
    ensures Records(content, pos) == [Rec(pos, content[pos..pos + n])] + Records(content, pos + n)
  {
    LineLength(content, pos, n, LINE_MAX);
  }

  lemma {:induction false} LineLength(content: string, pos: nat, n: nat, room: nat)
    requires 0 < n <= room && pos + n <= |content| && content[pos + n - 1] == '\n'
    requires forall i | pos <= i < pos + n - 1 :: content[i] != '\n'
    ensures FgetsLen(content, pos, room) == n
    decreases n
  {
    if n > 1 {
      LineLength(content, pos + 1, n - 1, room - 1);
    }
  }

  /** A read that stops early without a newline has reached the end. */
  lemma {:induction false} FgetsEnd(content: string, pos: nat, room: nat)
    requires pos <= |content|
    ensures var n := FgetsLen(content, pos, room);
            n < room && (n == 0 || content[pos + n - 1] != '\n') ==> pos + n == |content|
    decreases room
  {
    if room > 0 && pos < |content| && content[pos] != '\n' {
      FgetsEnd(content, pos + 1, room - 1);
    }
  }

  method Take(content: string, pos: nat) returns (n: nat)
    requires pos <= |content|
    ensures n == FgetsLen(content, pos, LINE_MAX)
  {
    n := 0;
    while n < LINE_MAX && pos + n < |content|
      invariant 0 <= n <= LINE_MAX && pos + n <= |content|
      invariant FgetsLen(content, pos, LINE_MAX) == n + FgetsLen(content, pos + n, LINE_MAX - n)
    {
      n := n + 1;
      if content[pos + n - 1] == '\n' {
        return;
      }
    }
  }

  /** What `fopen` finds. */
  datatype Disk = Missing | Present(content: string)

  class File {
    const content: string
    var pos: nat
    var eof: bool

    predicate Valid()
      reads this
    {
      pos <= |content| && (eof ==> pos == |content|)
    }

    constructor (content: string)
      ensures this.content == content && pos == 0 && !eof && Valid()
    {
      this.content := content;
      pos := 0;
      eof := false;
    }

    method Seek(to: nat)
      requires to <= |content|
      modifies this
      ensures Valid() && pos == to && !eof
    {
      pos := to;
      eof := false;
    }

    /** The end-of-file flag is set only by a read that runs into the end. */
    method Gets() returns (ok: bool, buffer: string)
      requires Valid()
      modifies this
      ensures Valid()
      ensures ok <==> old(pos) < |content|
      ensures !ok ==> eof && pos == old(pos)
      ensures ok ==> Records(content, old(pos)) == [Rec(old(pos), buffer)] + Records(content, pos)
      ensures ok ==> pos > old(pos)
    {
      hide FgetsLen, Records;
      if pos == |content| {
        eof := true;
        return false, "";
      }
      RecordsTurn(content, pos);
      var n := Take(content, pos);
      FgetsEnd(content, pos, LINE_MAX);
      buffer := content[pos..pos + n];
      eof := n < LINE_MAX && content[pos + n - 1] != '\n';
      pos := pos + n;
      ok := true;
    }
  }
}
