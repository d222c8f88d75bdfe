/** Area code lookup: what the index and the early-exit scan compute, and why that is the
    first code of the file that prefixes the number (ci_areacodes.c). */
module AreaCodes {
  import opened TextFiles

  /** Number of leading digits. */
  function Run(s: string): (n: nat)
    ensures n <= |s|
    ensures forall j | 0 <= j < n :: IsDigit(s[j])
    ensures n < |s| ==> !IsDigit(s[n])
  {
    if s == [] || !IsDigit(s[0]) then 0 else 1 + Run(s[1..])
  }

  function Digits(s: string): string {
    s[..Run(s)]
  }

  /** A line that carries a code: at least three leading digits. */
  predicate IsCode(s: string) {
    Run(s) >= 3
  }

  /** The slot of a line or number: its second and third digit. */
  function Key(s: string): (k: nat)
    requires IsCode(s)
    ensures k < 100
  {
    10 * DigitValue(s[1]) + DigitValue(s[2])
  }

  /** The line's code is a prefix of the number. */
  predicate Matches(line: string, number: string) {
    IsCode(line) && Digits(line) <= number
  }

  /** The plain scan: the first line of the file whose code prefixes the number, or -1. */
  function FirstMatch(recs: seq<Rec>, number: string): (j: int)
    ensures -1 <= j < |recs|
    ensures j >= 0 ==> Matches(recs[j].text, number)
    ensures forall i | 0 <= i < (if j >= 0 then j else |recs|) :: !Matches(recs[i].text, number)
  {
    if recs == [] then -1
    else if Matches(recs[0].text, number) then 0
    else
      var j := FirstMatch(recs[1..], number);
      if j < 0 then -1 else j + 1
  }

  /** A line matches when at least three digits, and then no more, lead it and the number. */
  lemma MatchMeans(line: string, number: string)
    ensures Matches(line, number) <==>
              exists n | 3 <= n <= |line| && n <= |number| ::
                && line[..n] == number[..n] && (forall j | 0 <= j < n :: '0' <= line[j] <= '9')
                && (n == |line| || !('0' <= line[n] <= '9'))
  {
    if Matches(line, number) {
      assert line[..Run(line)] == number[..Run(line)];
    }
    forall n | 3 <= n <= |line| && n <= |number| && line[..n] == number[..n]
        && (forall j | 0 <= j < n :: '0' <= line[j] <= '9') && (n == |line| || !('0' <= line[n] <= '9'))
      ensures Matches(line, number)
    {
      RunEnds(line, n);
    }
  }

  lemma {:induction false} RunEnds(s: string, n: nat)
    requires n <= |s| && (forall j | 0 <= j < n :: IsDigit(s[j])) && (n < |s| ==> !IsDigit(s[n]))
    ensures Run(s) == n
  {
    if n > 0 {
      RunEnds(s[1..], n - 1);
    }
  }

  /** Two codes share a slot when their second and third digits are the same. */
  lemma KeyMeans(s: string, t: string)
    requires IsCode(s) && IsCode(t)
    ensures Key(s) == Key(t) <==> s[1] == t[1] && s[2] == t[2]
  {
  }

  // ---- the index ----

  predicate Indexable(r: Rec, k: nat) {
    IsCode(r.text) && Key(r.text) == k && r.pos != 0
  }

  /** The offset of the first line with key `k` that does not start the file, or 0. */
  function FirstWithKey(recs: seq<Rec>, k: nat): int {
    if recs == [] then 0
    else if Indexable(recs[0], k) then recs[0].pos
    else FirstWithKey(recs[1..], k)
  }

  /** One slot for each key, each an offset inside the file. */
  predicate InFile(slots: seq<int>, content: string) {
    |slots| == 100 && forall k | 0 <= k < 100 :: 0 <= slots[k] <= |content|
  }

  /** The index that a file gives a zeroed array. */
  predicate Indexed(slots: seq<int>, content: string)
    ensures Indexed(slots, content) ==> InFile(slots, content)
  {
    OffsetsInFile(content);
    |slots| == 100 && forall k | 0 <= k < 100 :: slots[k] == FirstWithKey(Records(content, 0), k)
  }

  lemma OffsetsInFile(content: string)
    ensures forall k :: 0 <= FirstWithKey(Records(content, 0), k) <= |content|
  {
    RecordsSorted(content, 0);
    forall k ensures 0 <= FirstWithKey(Records(content, 0), k) <= |content| {
      if FirstWithKey(Records(content, 0), k) != 0 {
        var a := FirstWithKeySound(Records(content, 0), k);
      }
    }
  }

  // ---- the lookup ----

  /** How far the comparison loop runs. */
  function Common(line: string, number: string): (i: nat)
    ensures i <= |line| && i <= |number|
    ensures line[..i] == number[..i]
    ensures forall j | 0 <= j < i :: IsDigit(line[j])
    ensures !IsDigit(At(line, i)) || DigitValue(At(line, i)) != DigitValue(At(number, i))
  {
    if line != [] && IsDigit(line[0]) && number != [] && DigitValue(line[0]) == DigitValue(number[0])
    then 1 + Common(line[1..], number[1..])
    else 0
  }

  datatype Outcome =
    | Found(line: string, code: nat)  // the line and the length of its code
    | NoNumber | NotIndexed | Passed  // the number, or a line behind every candidate, was met
    | AtEnd

  /** The scan loop from the first line of `recs` on. */
  function Scan(recs: seq<Rec>, number: string): (o: Outcome)
    ensures o.Found? || o.Passed? || o.AtEnd?
    ensures o.Found? ==> 3 <= o.code <= |number| && number[..o.code] <= o.line
  {
    if recs == [] then AtEnd
    else
      var line := recs[0].text;
      var i := Common(line, number);
      if i > 2 && !IsDigit(At(line, i)) then Found(line, i)
      else if DigitValue(At(line, i)) > DigitValue(At(number, i)) then Passed
      else Scan(recs[1..], number)
  }

  /** The slot computed from the characters behind the first, digits or not. */
  function Slot(number: seq<char>): (k: nat)
    requires |number| >= 3
    ensures k < 100
  {
    var one := if IsDigit(number[1]) then DigitValue(number[1]) else 0;
    if IsDigit(number[2]) then 10 * one + DigitValue(number[2]) else one
  }

  /** `buffer` is the character array that holds the number. */
  function Lookup(content: string, slots: seq<int>, buffer: seq<char>): (o: Outcome)
    requires InFile(slots, content) && |buffer| >= 3
    ensures o.Found? ==> o.code <= |o.line| && o.code <= |CStr(buffer)|
  {
    if !IsDigit(buffer[0]) then NoNumber
    else if Slot(buffer) > 0 && slots[Slot(buffer)] == 0 then NotIndexed
    else Scan(Records(content, slots[Slot(buffer)]), CStr(buffer))
  }

  // ---- one line ----

  lemma {:induction false} CommonIsRun(line: string, number: string)
    ensures Common(line, number) <= Run(line)
    ensures Common(line, number) == Run(line) <==> Digits(line) <= number
  {
    if line != [] && IsDigit(line[0]) {
      assert Digits(line) == [line[0]] + Digits(line[1..]);
      if number != [] {
        CommonIsRun(line[1..], number[1..]);
        assert number == [number[0]] + number[1..];
      }
    }
  }

  /** The loop's test for success is that the line's code prefixes the number. */
  lemma HitIsMatch(line: string, number: string)
    ensures Common(line, number) > 2 && !IsDigit(At(line, Common(line, number))) <==> Matches(line, number)
    ensures Matches(line, number) ==> Common(line, number) == Run(line)
  {
    CommonIsRun(line, number);
  }

  // ---- the early exit ----

  /** Lexicographic order. */
  predicate LexLeq(s: string, t: string) {
    s == [] || (t != [] && (s[0] < t[0] || (s[0] == t[0] && LexLeq(s[1..], t[1..]))))
  }

  /** A string is behind none that it begins, and none that has the greater character where the
      two first differ. */
  lemma {:induction false} LexMeans(s: string, t: string)
    ensures LexLeq(s, t) <==>
              s <= t || exists k | 0 <= k < |s| && k < |t| :: s[..k] == t[..k] && s[k] < t[k]
  {
    forall k | 0 < k <= |s| && k <= |t| && s[..k] == t[..k] ensures s[0] == t[0] {
      assert s[..k][0] == t[..k][0];
    }
    if s != [] && t != [] && s[0] == t[0] {
      LexMeans(s[1..], t[1..]);
      assert s == [s[0]] + s[1..] && t == [t[0]] + t[1..];
      forall k | 0 <= k < |s[1..]| && k < |t[1..]| && s[1..][..k] == t[1..][..k] && s[1..][k] < t[1..][k]
        ensures s[..k + 1] == t[..k + 1] && s[k + 1] < t[k + 1]
      {
        assert s[..k + 1] == [s[0]] + s[1..][..k] && t[..k + 1] == [t[0]] + t[1..][..k];
      }
      forall k | 0 <= k < |s| && k < |t| && s[..k] == t[..k] && s[k] < t[k]
        ensures k > 0 && s[1..][..k - 1] == t[1..][..k - 1] && s[1..][k - 1] < t[1..][k - 1]
      {
        assert s[1..][..k - 1] == s[..k][1..] && t[1..][..k - 1] == t[..k][1..];
      }
    } else if s != [] && t != [] && s[0] < t[0] {
      assert s[..0] == t[..0];
    }
  }

  /** A line makes the loop give up if and only if its digits lie behind those of the number. */
  lemma {:induction false} PassedIsBehind(line: string, number: string)
    ensures var i := Common(line, number);
            DigitValue(At(line, i)) > DigitValue(At(number, i)) <==> !LexLeq(Digits(line), Digits(number))
  {
    if line != [] && IsDigit(line[0]) {
      assert Digits(line)[1..] == Digits(line[1..]);
      if number != [] && IsDigit(number[0]) {
        assert Digits(number)[1..] == Digits(number[1..]);
        PassedIsBehind(line[1..], number[1..]);
      }
    }
  }

  /** No line in front of the first match lies behind the number. */
  predicate Unblocked(recs: seq<Rec>, number: string) {
    forall a | 0 <= a < FirstMatch(recs, number) :: LexLeq(Digits(recs[a].text), Digits(number))
  }

  /** The early-exit scan finds the first matching line if and only if no line in front of it
      lies behind the number; without a matching line it fails, whatever the order. */
  lemma {:induction false} ScanIsFirstMatch(recs: seq<Rec>, number: string)
    ensures var j := FirstMatch(recs, number);
            && (j >= 0 && Unblocked(recs, number) ==> Scan(recs, number) == Found(recs[j].text, Run(recs[j].text)))
            && (j < 0 || !Unblocked(recs, number) ==> Scan(recs, number) in {Passed, AtEnd})
  {
    hide LexLeq, Matches;
    if recs != [] {
      var line, rest := recs[0].text, recs[1..];
      HitIsMatch(line, number);
      PassedIsBehind(line, number);
      if !Matches(line, number) {
        ScanIsFirstMatch(rest, number);
        assert forall a | 0 <= a < |rest| :: rest[a] == recs[a + 1];
        if Unblocked(rest, number) && LexLeq(Digits(line), Digits(number)) {
          assert forall a | 0 < a < |recs| :: recs[a] == rest[a - 1];
          assert Unblocked(recs, number);
        } else if Unblocked(recs, number) {
          forall a | 0 <= a < FirstMatch(rest, number) ensures LexLeq(Digits(rest[a].text), Digits(number)) {
            assert rest[a] == recs[a + 1];
          }
        }
      }
    }
  }

  /** The scan runs to the end of the file when no line matches and none lies behind the number. */
  lemma {:induction false} ScanEnds(recs: seq<Rec>, number: string)
    ensures Scan(recs, number) == AtEnd <==>
              forall a | 0 <= a < |recs| ::
                !Matches(recs[a].text, number) && LexLeq(Digits(recs[a].text), Digits(number))
  {
    hide LexLeq, Matches;
    if recs != [] {
      HitIsMatch(recs[0].text, number);
      PassedIsBehind(recs[0].text, number);
      ScanEnds(recs[1..], number);
      assert forall a | 0 < a < |recs| :: recs[a] == recs[1..][a - 1];
      assert forall a | 0 <= a < |recs[1..]| :: recs[1..][a] == recs[a + 1];
    }
  }

  // ---- the index leads to the match ----

  lemma {:induction false} FirstWithKeyFinds(recs: seq<Rec>, k: nat, j: nat) returns (a: nat)
    requires j < |recs| && Indexable(recs[j], k)
    ensures a <= j && Indexable(recs[a], k) && FirstWithKey(recs, k) == recs[a].pos
    ensures forall c | 0 <= c < a :: !Indexable(recs[c], k)
  {
    if Indexable(recs[0], k) {
      a := 0;
    } else {
      var b := FirstWithKeyFinds(recs[1..], k, j - 1);
      a := b + 1;
      assert forall c | 0 < c < a :: recs[c] == recs[1..][c - 1];
    }
  }

  lemma {:induction false} FirstWithKeySound(recs: seq<Rec>, k: nat) returns (a: nat)
    requires FirstWithKey(recs, k) != 0
    ensures a < |recs| && Indexable(recs[a], k) && FirstWithKey(recs, k) == recs[a].pos
  {
    if Indexable(recs[0], k) {
      a := 0;
    } else {
      var b := FirstWithKeySound(recs[1..], k);
      a := b + 1;
    }
  }

  lemma MatchHasSlot(line: string, buffer: seq<char>)
    requires |buffer| >= 3 && Matches(line, CStr(buffer))
    ensures IsDigit(buffer[0]) && Key(line) == Slot(buffer)
  {
    var number := CStr(buffer);
    assert forall i | 0 <= i < 3 :: Digits(line)[i] == line[i] == number[i] == buffer[i];
  }

  lemma FirstMatchIs(recs: seq<Rec>, number: string, j: nat)
    requires j < |recs| && Matches(recs[j].text, number)
    requires forall i | 0 <= i < j :: !Matches(recs[i].text, number)
    ensures FirstMatch(recs, number) == j
  {
  }

  /** A scan that starts at or before the first match. */
  lemma ScanFrom(recs: seq<Rec>, a: nat, number: string)
    requires a <= |recs|
    ensures var j := FirstMatch(recs, number);
            && (j >= a && ClearFrom(recs, a, number) ==>
                  Scan(recs[a..], number) == Found(recs[j].text, Run(recs[j].text)))
            && (j < 0 || (j >= a && !ClearFrom(recs, a, number)) ==> !Scan(recs[a..], number).Found?)
  {
    hide Matches, Scan, LexLeq;
    var j, tail := FirstMatch(recs, number), recs[a..];
    ScanIsFirstMatch(tail, number);
    assert forall i | 0 <= i < |tail| :: tail[i] == recs[a + i];
    if j >= a {
      assert tail[j - a] == recs[j];
      FirstMatchIs(tail, number, j - a);
      assert forall i | a <= i < j :: recs[i] == tail[i - a];
    }
  }

  /** No line from `a` up to the first match lies behind the number. */
  predicate ClearFrom(recs: seq<Rec>, a: nat, number: string) {
    forall i | a <= i < FirstMatch(recs, number) :: LexLeq(Digits(recs[i].text), Digits(number))
  }

  // ---- when the lookup agrees with the plain scan ----

  /** The indexed lookup gives the plain scan's answer. */
  predicate Agrees(content: string, slots: seq<int>, buffer: seq<char>)
    requires InFile(slots, content) && |buffer| >= 3
  {
    var recs := Records(content, 0);
    var j := FirstMatch(recs, CStr(buffer));
    if j >= 0 then Lookup(content, slots, buffer) == Found(recs[j].text, Run(recs[j].text))
    else !Lookup(content, slots, buffer).Found?
  }

  /** Offset 0 means "unset": a code on the file's first line is out of reach, unless its slot
      is slot 0 and no later line claims it. */
  predicate FirstLineHidden(content: string, slots: seq<int>, buffer: seq<char>)
    requires |slots| == 100 && |buffer| >= 3
  {
    && content != []
    && Matches(Records(content, 0)[0].text, CStr(buffer))
    && (Slot(buffer) > 0 || slots[0] != 0)
  }

  /** From the first line of its slot up to its first match, no line lies behind the number. */
  predicate SlotInOrder(recs: seq<Rec>, number: string) {
    var j := FirstMatch(recs, number);
    forall c, a | 0 <= c <= a < j && Indexable(recs[c], Key(recs[j].text)) ::
      LexLeq(Digits(recs[a].text), Digits(number))
  }

  /** For every file and every number that the hidden first line does not match, the indexed,
      early-exit lookup agrees with a plain scan of the whole file if and only if, from the
      first line of the number's slot up to the match, no line lies behind the number. */
  lemma LookupIsFirstMatch(content: string, slots: seq<int>, buffer: seq<char>)
    requires Indexed(slots, content) && |buffer| >= 3
    requires !FirstLineHidden(content, slots, buffer)
    ensures Agrees(content, slots, buffer) <==> SlotInOrder(Records(content, 0), CStr(buffer))
  {
    hide Scan, Slot, Key, Records, FirstMatch, FirstWithKey, Run, LexLeq, Indexable, CStr;
    var recs, number, k := Records(content, 0), CStr(buffer), Slot(buffer);
    var j := FirstMatch(recs, number);
    RecordsSorted(content, 0);
    HasFirst(content);
    if j > 0 {
      MatchHasSlot(recs[j].text, buffer);
      IndexableIs(recs[j], k);
      var a := FirstWithKeyFinds(recs, k, j);
      IndexableIs(recs[a], k);
      SeekResumes(content, 0, a);
      ScanFrom(recs, a, number);
    } else if slots[k] != 0 {
      var a := FirstWithKeySound(recs, k);
      SeekResumes(content, 0, a);
      ScanFrom(recs, a, number);
    } else {
      assert recs[0..] == recs;
      ScanFrom(recs, 0, number);
      if j == 0 {
        MatchHasSlot(recs[0].text, buffer);
      }
    }
  }

  lemma IndexableIs(r: Rec, k: nat)
    ensures Indexable(r, k) <==> IsCode(r.text) && Key(r.text) == k && r.pos != 0
  {
  }

  lemma HasFirst(content: string)
    ensures content == [] <==> Records(content, 0) == []
  {
  }

  /** A lookup ends with the file when the number begins with a digit, its slot is set or is slot
      0, and from there on no line matches or lies behind the number. */
  lemma LookupEnds(content: string, slots: seq<int>, buffer: seq<char>)
    requires InFile(slots, content) && |buffer| >= 3
    ensures Lookup(content, slots, buffer) == AtEnd <==>
              && '0' <= buffer[0] <= '9' && (Slot(buffer) == 0 || slots[Slot(buffer)] != 0)
              && var recs := Records(content, slots[Slot(buffer)]);
                 forall a | 0 <= a < |recs| ::
                   !Matches(recs[a].text, CStr(buffer)) && LexLeq(Digits(recs[a].text), Digits(CStr(buffer)))
  {
    hide Scan, Slot, Matches, LexLeq, Records;
    ScanEnds(Records(content, slots[Slot(buffer)]), CStr(buffer));
  }

  // ---- exactness ----

  /** No code of the file is a prefix of another. */
  predicate PrefixFree(recs: seq<Rec>) {
    forall a, b | 0 <= a < |recs| && 0 <= b < |recs| && a != b && IsCode(recs[a].text) && IsCode(recs[b].text) ::
      !(Digits(recs[a].text) <= Digits(recs[b].text))
  }

  /** In a prefix-free file at most one line matches. */
  lemma MatchIsUnique(recs: seq<Rec>, number: string, a: nat, b: nat)
    requires PrefixFree(recs) && a < |recs| && b < |recs|
    requires Matches(recs[a].text, number) && Matches(recs[b].text, number)
    ensures a == b
  {
    PrefixesCompare(Digits(recs[a].text), Digits(recs[b].text), number);
  }

  lemma PrefixesCompare(s: string, t: string, number: string)
    requires s <= number && t <= number
    ensures s <= t || t <= s
  {
    if |s| <= |t| {
      assert s == number[..|t|][..|s|];
    } else {
      assert t == number[..|s|][..|t|];
    }
  }

  /** In a prefix-free file the hidden first line is never found. */
  lemma HiddenIsLost(content: string, slots: seq<int>, buffer: seq<char>)
    requires Indexed(slots, content) && |buffer| >= 3 && PrefixFree(Records(content, 0))
    requires FirstLineHidden(content, slots, buffer)
    ensures !Agrees(content, slots, buffer)
  {
    hide Scan, Slot, PrefixFree, Key, Records, FirstWithKey, Run, Digits;
    var recs, number, k := Records(content, 0), CStr(buffer), Slot(buffer);
    HasFirst(content);
    assert FirstMatch(recs, number) == 0;
    MatchHasSlot(recs[0].text, buffer);
    if slots[k] != 0 {
      RecordsSorted(content, 0);
      var a := FirstWithKeySound(recs, k);
      SeekResumes(content, 0, a);
      ScanIsFirstMatch(recs[a..], number);
      var i := FirstMatch(recs[a..], number);
      if i >= 0 {
        assert recs[a..][i] == recs[a + i];
        MatchIsUnique(recs, number, 0, a + i);
        assert false;
      }
    }
  }

  /** In a prefix-free file the lookup agrees with the plain scan if and only if the match is
      not the hidden first line and no line of the slot in front of it lies behind the number. */
  lemma LookupExact(content: string, slots: seq<int>, buffer: seq<char>)
    requires Indexed(slots, content) && |buffer| >= 3 && PrefixFree(Records(content, 0))
    ensures Agrees(content, slots, buffer) <==>
              !FirstLineHidden(content, slots, buffer) && SlotInOrder(Records(content, 0), CStr(buffer))
  {
    hide Agrees, FirstLineHidden, SlotInOrder, PrefixFree, Indexed, Records;
    if FirstLineHidden(content, slots, buffer) {
      HiddenIsLost(content, slots, buffer);
    } else {
      LookupIsFirstMatch(content, slots, buffer);
    }
  }

  // ---- files on which every lookup is right ----

  /** The first line carries no code, or the code of a slot 0 that no later line claims. */
  predicate FirstLineFindable(content: string, slots: seq<int>)
    requires |slots| == 100
  {
    content == [] || (var first := Records(content, 0)[0].text;
                      IsCode(first) ==> Key(first) == 0 && slots[0] == 0)
  }

  /** Between the first line of a slot and a code of that slot no line lies behind the code. */
  predicate SlotOrdered(recs: seq<Rec>) {
    forall c, a, b | 0 <= c <= a < b < |recs| && IsCode(recs[b].text) && Indexable(recs[c], Key(recs[b].text)) ::
      LexLeq(Digits(recs[a].text), Digits(recs[b].text))
  }

  /** A prefix-free file gives the right answer for every number if and only if its first line
      can be found and each of its slots is in order. */
  lemma EveryNumberFound(content: string, slots: seq<int>)
    requires Indexed(slots, content) && PrefixFree(Records(content, 0))
    ensures (forall buffer: seq<char> | |buffer| >= 3 :: Agrees(content, slots, buffer))
            <==> FirstLineFindable(content, slots) && SlotOrdered(Records(content, 0))
  {
    hide Agrees, SlotOrdered, FirstLineFindable, Records, Indexed, PrefixFree;
    var recs := Records(content, 0);
    if FirstLineFindable(content, slots) && SlotOrdered(recs) {
      forall buffer: seq<char> | |buffer| >= 3 ensures Agrees(content, slots, buffer) {
        OrderedAgrees(content, slots, buffer);
      }
    } else if !FirstLineFindable(content, slots) {
      var buffer := FirstLineLost(content, slots);
    } else {
      var buffer := DisorderLost(content, slots);
    }
  }

  lemma OrderedAgrees(content: string, slots: seq<int>, buffer: seq<char>)
    requires Indexed(slots, content) && |buffer| >= 3 && PrefixFree(Records(content, 0))
    requires FirstLineFindable(content, slots) && SlotOrdered(Records(content, 0))
    ensures Agrees(content, slots, buffer)
  {
    hide Agrees, Indexed, PrefixFree, Records, LexLeq, FirstMatch, Run, Slot, Key, CStr;
    var recs, number := Records(content, 0), CStr(buffer);
    var j := FirstMatch(recs, number);
    if j >= 0 {
      forall c, a | 0 <= c <= a < j && Indexable(recs[c], Key(recs[j].text))
        ensures LexLeq(Digits(recs[a].text), Digits(number))
      {
        LeqPrefix(Digits(recs[a].text), Digits(recs[j].text), number);
      }
    }
    if FirstLineHidden(content, slots, buffer) {
      HasFirst(content);
      MatchHasSlot(recs[0].text, buffer);
    }
    LookupExact(content, slots, buffer);
  }

  lemma {:induction false} LeqPrefix(s: string, code: string, number: string)
    requires LexLeq(s, code) && code <= number && forall j | 0 <= j < |code| :: IsDigit(code[j])
    ensures LexLeq(s, Digits(number))
  {
    if code != [] {
      assert Digits(number) == [number[0]] + Digits(number[1..]);
      if s != [] && s[0] == code[0] {
        LeqPrefix(s[1..], code[1..], number[1..]);
      }
    }
  }

  /** The code of a line, as a number of its own. */
  lemma CodeAsNumber(recs: seq<Rec>, b: nat) returns (buffer: seq<char>)
    requires PrefixFree(recs) && b < |recs| && IsCode(recs[b].text)
    ensures buffer == Digits(recs[b].text) + [NUL] && CStr(buffer) == Digits(recs[b].text)
    ensures FirstMatch(recs, CStr(buffer)) == b && Digits(CStr(buffer)) == CStr(buffer)
    ensures Matches(recs[b].text, CStr(buffer))
  {
    hide PrefixFree, Run;
    var code := Digits(recs[b].text);
    buffer := code + [NUL];
    CStrIs(buffer, code);
    AllDigits(code);
    var j := FirstMatch(recs, code);
    if j >= 0 {
      MatchIsUnique(recs, code, j, b);
    }
  }

  lemma {:induction false} AllDigits(s: string)
    requires forall j | 0 <= j < |s| :: IsDigit(s[j])
    ensures Run(s) == |s|
  {
    if s != [] {
      AllDigits(s[1..]);
    }
  }

  lemma FirstLineLost(content: string, slots: seq<int>) returns (buffer: seq<char>)
    requires Indexed(slots, content) && PrefixFree(Records(content, 0))
    requires !FirstLineFindable(content, slots)
    ensures |buffer| >= 3 && !Agrees(content, slots, buffer)
  {
    hide Agrees, PrefixFree, Indexed, Records, Run, FirstMatch, CStr, Slot, Key;
    HasFirst(content);
    var recs := Records(content, 0);
    buffer := CodeAsNumber(recs, 0);
    MatchHasSlot(recs[0].text, buffer);
    HiddenIsLost(content, slots, buffer);
  }

  lemma DisorderLost(content: string, slots: seq<int>) returns (buffer: seq<char>)
    requires Indexed(slots, content) && PrefixFree(Records(content, 0))
    requires !SlotOrdered(Records(content, 0))
    ensures |buffer| >= 3 && !Agrees(content, slots, buffer)
  {
    hide Agrees, PrefixFree, Indexed, Records, Run, FirstMatch, CStr, Slot, Key, LexLeq, FirstLineHidden;
    var recs := Records(content, 0);
    var c, a, b :| 0 <= c <= a < b < |recs| && IsCode(recs[b].text) && Indexable(recs[c], Key(recs[b].text))
                   && !LexLeq(Digits(recs[a].text), Digits(recs[b].text));
    buffer := CodeAsNumber(recs, b);
    assert !SlotInOrder(recs, CStr(buffer));
    LookupExact(content, slots, buffer);
  }

  // ---- files on which lookups fail ----

  /** A line that carries no code, and two lines in the order in which share/vorwahl.dat has
      them. */
  const OUT_OF_ORDER: string := "#\n09090 R\n09080 H\n"

  lemma OutOfOrderRecords()
    ensures Records(OUT_OF_ORDER, 0) == [Rec(0, "#\n"), Rec(2, "09090 R\n"), Rec(10, "09080 H\n")]
  {
    hide Records;
    var s := OUT_OF_ORDER;
    assert |s| == 18;
    RecordIs(s, 0, 2);
    RecordIs(s, 2, 8);
    RecordIs(s, 10, 8);
    EndOfRecords(s);
    assert s[0..2] == "#\n" && s[2..10] == "09090 R\n" && s[10..18] == "09080 H\n";
  }

  /** Its second code is not found, although a plain scan finds it. */
  lemma OrderMatters(slots: seq<int>)
    requires Indexed(slots, OUT_OF_ORDER)
    ensures FirstMatch(Records(OUT_OF_ORDER, 0), "0908012") == 2
    ensures !Agrees(OUT_OF_ORDER, slots, "0908012\0")
  {
    hide Records, Run, Agrees, Indexed, CStr, FirstMatch, LexLeq, Slot;
    OutOfOrderRecords();
    var recs, number, buffer := Records(OUT_OF_ORDER, 0), "0908012", "0908012\0";
    CStrIs(buffer, number);
    RunEnds("#\n", 0);
    RunEnds("09090 R\n", 5);
    RunEnds("09080 H\n", 5);
    AllDigits(number);
    assert "09080 H\n"[..5] == number[..5];
    assert "09090 R\n"[..5][3] != number[..5][3];
    FirstMatchIs(recs, number, 2);
    assert "09090 R\n"[..5] == "09090";
    Behind("09090", number, 3);
    assert Indexable(recs[1], Key(recs[2].text));
    assert Digits(recs[1].text) == "09090" && Digits(number) == number;
    assert !SlotInOrder(recs, number);
    assert !FirstLineHidden(OUT_OF_ORDER, slots, buffer);
    LookupIsFirstMatch(OUT_OF_ORDER, slots, buffer);
  }

  /** A file whose first line carries a code. */
  const CODE_FIRST: string := "089 M\n"

  /** It is not found. */
  lemma FirstLineMatters(slots: seq<int>)
    requires Indexed(slots, CODE_FIRST)
    ensures FirstMatch(Records(CODE_FIRST, 0), "0891") == 0
    ensures !Agrees(CODE_FIRST, slots, "0891\0")
  {
    hide Records, Run, Agrees, Indexed, CStr, FirstMatch;
    var recs, number, buffer := Records(CODE_FIRST, 0), "0891", "0891\0";
    RecordIs(CODE_FIRST, 0, 6);
    EndOfRecords(CODE_FIRST);
    assert CODE_FIRST[0..6] == CODE_FIRST && recs == [Rec(0, CODE_FIRST)];
    CStrIs(buffer, number);
    RunEnds("089 M\n", 3);
    assert "089 M\n"[..3] == number[..3];
    FirstMatchIs(recs, number, 0);
    HiddenIsLost(CODE_FIRST, slots, buffer);
  }

  lemma {:induction false} Behind(s: string, t: string, n: nat)
    requires n < |s| && n < |t| && s[..n] == t[..n] && s[n] > t[n]
    ensures !LexLeq(s, t)
  {
    if n > 0 {
      assert s[0] == s[..n][0] && t[0] == t[..n][0];
      assert s[1..][..n - 1] == s[..n][1..] && t[1..][..n - 1] == t[..n][1..];
      Behind(s[1..], t[1..], n - 1);
    }
  }
}
