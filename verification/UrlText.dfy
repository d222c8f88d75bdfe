/** Query URLs and escapes (lookup.c:469-577). */
module UrlText {
  import opened TextFiles
  import opened Machine

  const PLACEHOLDER: string := "%NUMBER%"
  const PATTERN_SIZE := 32
  const INT_MAX := 0x7fff_ffff

  type gint = n: int | -0x8000_0000 <= n <= 0x7fff_ffff

  /** The next characters open a placeholder: a percent sign that no digit follows. */
  predicate Opens(s: string) {
    s != [] && s[0] == '%' && !IsDigit(At(s, 1))
  }

  /** Every placeholder is the number's. */
  predicate OnlyNumbers(s: string) {
    if s == [] then true
    else if Opens(s) then PLACEHOLDER <= s && OnlyNumbers(s[|PLACEHOLDER|..])
    else OnlyNumbers(s[1..])
  }

  /** The left-to-right substitution. */
  function Expand(s: string, number: string): string
    requires OnlyNumbers(s)
  {
    if s == [] then []
    else if Opens(s) then number + Expand(s[|PLACEHOLDER|..], number)
    else [s[0]] + Expand(s[1..], number)
  }

  /** What the substitutions add to the length. */
  function Gain(s: string, number: string): int
    requires OnlyNumbers(s)
  {
    |Expand(s, number)| - |s|
  }

  lemma GainSteps(s: string, number: string)
    requires OnlyNumbers(s) && s != []
    ensures Opens(s) ==> Gain(s, number) == |number| - |PLACEHOLDER| + Gain(s[|PLACEHOLDER|..], number)
    ensures !Opens(s) ==> Gain(s, number) == Gain(s[1..], number)
  {
  }

  lemma {:induction false} GainSign(s: string, number: string)
    requires OnlyNumbers(s)
    ensures |number| >= |PLACEHOLDER| ==> Gain(s, number) >= 0
    ensures |number| <= |PLACEHOLDER| ==> Gain(s, number) <= 0
  {
    if s != [] {
      GainSteps(s, number);
      GainSign(if Opens(s) then s[|PLACEHOLDER|..] else s[1..], number);
    }
  }

  /** A url without placeholders is its own expansion, percent signs before digits included. */
  lemma {:induction false} ExpandPlain(s: string, number: string)
    requires OnlyNumbers(s) && forall i | 0 <= i <= |s| :: !Opens(s[i..])
    ensures Expand(s, number) == s
  {
    if s != [] {
      assert s[0..] == s;
      forall i | 0 <= i <= |s[1..]| ensures !Opens(s[1..][i..]) {
        assert s[1..][i..] == s[i + 1..];
      }
      ExpandPlain(s[1..], number);
    }
  }

  lemma ExpandOpen(v: string, number: string)
    requires OnlyNumbers(v)
    ensures OnlyNumbers(PLACEHOLDER + v) && Expand(PLACEHOLDER + v, number) == number + Expand(v, number)
  {
    var u := PLACEHOLDER + v;
    assert u[0] == '%' && u[1] == 'N';
    assert u[|PLACEHOLDER|..] == v;
  }

  lemma PlainHead(s: string, v: string, number: string)
    requires OnlyNumbers(s) && s != [] && !Opens(s) && OnlyNumbers(s[1..] + v)
    ensures OnlyNumbers(s + v) && Expand(s + v, number) == [s[0]] + Expand(s[1..] + v, number)
  {
    assert (s + v)[1..] == s[1..] + v;
    assert |s| > 1 ==> At(s + v, 1) == At(s, 1);
    assert |s| == 1 ==> s[0] != '%';
  }

  /** Expansion works piece by piece. */
  lemma {:induction false} ExpandConcat(s: string, t: string, number: string)
    requires OnlyNumbers(s) && OnlyNumbers(t)
    ensures OnlyNumbers(s + (PLACEHOLDER + t))
    ensures Expand(s + (PLACEHOLDER + t), number) == Expand(s, number) + (number + Expand(t, number))
  {
    ExpandOpen(t, number);
    ExpandBefore(s, PLACEHOLDER + t, number);
  }

  lemma {:induction false} ExpandBefore(s: string, v: string, number: string)
    requires OnlyNumbers(s) && OnlyNumbers(v)
    ensures OnlyNumbers(s + v) && Expand(s + v, number) == Expand(s, number) + Expand(v, number)
  {
    hide OnlyNumbers, Expand;
    ExpandNothing(number);
    if s == [] {
      assert s + v == v;
    } else if Opens(s) {
      ExpandSteps(s, number);
      var r := s[|PLACEHOLDER|..];
      assert s == PLACEHOLDER + r;
      ExpandBefore(r, v, number);
      ExpandOpen(r + v, number);
      assert s + v == PLACEHOLDER + (r + v);
    } else {
      assert (s + v)[1..] == s[1..] + v;
      ExpandSteps(s, number);
      ExpandBefore(s[1..], v, number);
      PlainHead(s, v, number);
    }
  }

  /** A url in which a digit follows every percent sign has no placeholder. */
  lemma {:induction false} DigitsOnlyPlain(s: string)
    requires forall i | 0 <= i < |s| && s[i] == '%' :: i + 1 < |s| && '0' <= s[i + 1] <= '9'
    ensures OnlyNumbers(s)
    ensures forall number :: Expand(s, number) == s
  {
    if s != [] {
      assert forall i | 0 <= i < |s[1..]| :: s[1..][i] == s[i + 1];
      DigitsOnlyPlain(s[1..]);
    }
  }

  /** Behind such a piece, the literal placeholder becomes the number. */
  lemma PlaceholderExpands(s: string, t: string, number: string)
    requires forall i | 0 <= i < |s| && s[i] == '%' :: i + 1 < |s| && '0' <= s[i + 1] <= '9'
    requires OnlyNumbers(t)
    ensures OnlyNumbers(s + ("%NUMBER%" + t))
    ensures Expand(s + ("%NUMBER%" + t), number) == s + (number + Expand(t, number))
  {
    DigitsOnlyPlain(s);
    ExpandConcat(s, t, number);
  }

  // ---- the two passes ----

  /** `_getsubstitutediff` on a placeholder of the number. */
  method SubstituteDiff(url: string, at: nat, number: string) returns (diff: int)
    requires at <= |url| && PLACEHOLDER <= url[at..]
    ensures diff == |number| - |PLACEHOLDER|
  {
    var pattern := "";
    var i := 1;
    assert forall k | 0 <= k < 8 :: url[at + k] == PLACEHOLDER[k];
    while At(url, at + i) != '%'
      invariant 1 <= i <= 7 && pattern == PLACEHOLDER[1..i]
      decreases 7 - i
    {
      pattern := pattern + [url[at + i]];
      i := i + 1;
    }
    diff := |number| - |pattern| - 2;
  }

  /** The first pass: how much longer the url gets. */
  method MeasureUrl(url: string, number: string) returns (diff: gint)
    requires OnlyNumbers(url) && -INT_MAX <= Gain(url, number) <= INT_MAX
    ensures diff == Gain(url, number)
  {
    hide OnlyNumbers, Expand;
    diff := 0;
    var i := 0;
    assert url[0..] == url;
    while i < |url|
      invariant 0 <= i <= |url| && OnlyNumbers(url[i..])
      invariant diff + Gain(url[i..], number) == Gain(url, number)
      invariant |number| >= |PLACEHOLDER| ==> diff >= 0
      invariant |number| <= |PLACEHOLDER| ==> diff <= 0
      decreases |url| - i
    {
      OnlyNumbersSteps(url, i);
      GainSteps(url[i..], number);
      if url[i] == '%' && !IsDigit(At(url, i + 1)) {
        var d := SubstituteDiff(url, i, number);
        GainSign(url[i + |PLACEHOLDER|..], number);
        diff := diff + d;
        i := SkipPlaceholder(url, i);
      } else {
        i := i + 1;
      }
    }
    assert url[i..] == [];
    ExpandNothing(number);
  }

  lemma ExpandNothing(number: string)
    ensures OnlyNumbers([]) && Expand([], number) == []
  {
  }

  lemma OnlyNumbersSteps(url: string, i: nat)
    requires i < |url| && OnlyNumbers(url[i..])
    ensures Opens(url[i..]) <==> url[i] == '%' && !IsDigit(At(url, i + 1))
    ensures Opens(url[i..]) ==> PLACEHOLDER <= url[i..] && i + |PLACEHOLDER| <= |url|
                                && url[i..][|PLACEHOLDER|..] == url[i + |PLACEHOLDER|..]
                                && OnlyNumbers(url[i + |PLACEHOLDER|..])
    ensures !Opens(url[i..]) ==> url[i..][1..] == url[i + 1..] && OnlyNumbers(url[i + 1..])
  {
  }

  /** The `do` loop to the closing percent sign. */
  method SkipPlaceholder(url: string, at: nat) returns (i: nat)
    requires at <= |url| && PLACEHOLDER <= url[at..]
    ensures i == at + |PLACEHOLDER|
  {
    assert forall k | 0 <= k < 8 :: url[at + k] == PLACEHOLDER[k];
    i := at + 1;
    while url[i] != '%'
      invariant at + 1 <= i <= at + 7
      decreases at + 7 - i
    {
      i := i + 1;
    }
    i := i + 1;
  }

  /** `_cirlw_prepare_url`: the second pass fills exactly the space the first one measured, with
      the expanded url and its terminator. */
  method PrepareUrl(url: string, number: string) returns (out: array<char>)
    requires OnlyNumbers(url) && -INT_MAX <= Gain(url, number) <= INT_MAX
    requires NUL !in url && NUL !in number
    ensures fresh(out) && out.Length == |url| + 1 + Gain(url, number)
    ensures out[..] == Expand(url, number) + [NUL]
    ensures CStr(out[..]) == Expand(url, number)
  {
    hide OnlyNumbers, Expand;
    var diff := MeasureUrl(url, number);
    ghost var all, done := Expand(url, number), "";
    out := new char[|url| + 1 + diff];
    var i, j := 0, 0;
    assert url[0..] == url;
    while i < |url|
      invariant 0 <= i <= |url| && OnlyNumbers(url[i..])
      invariant j == |done| && j + |Expand(url[i..], number)| == |all| == out.Length - 1
      invariant out[..j] == done
      invariant all == done + Expand(url[i..], number)
      decreases |url| - i
    {
      OnlyNumbersSteps(url, i);
      ExpandSteps(url[i..], number);
      if url[i] == '%' && !IsDigit(At(url, i + 1)) {
        var close := SkipPlaceholder(url, i);
        PutString(out, j, number);
        Regroup(done, number, Expand(url[close..], number));
        done := done + number;
        j := j + |number|;
        i := close;
      } else {
        out[j] := url[i];
        Regroup(done, [url[i]], Expand(url[i + 1..], number));
        done := done + [url[i]];
        i, j := i + 1, j + 1;
      }
    }
    assert url[i..] == [];
    ExpandNothing(number);
    out[j] := NUL;
    NulFree(url, number);
    CStrIs(out[..], all);
  }

  /** The number of characters before the next percent sign, or all of them. */
  function NameLength(s: string): (k: nat)
    ensures k <= |s| && (k < |s| ==> s[k] == '%')
    ensures forall m | 0 <= m < k :: s[m] != '%'
  {
    if s == [] || s[0] == '%' then 0 else 1 + NameLength(s[1..])
  }

  /** Where one turn of the second pass leaves the read index: behind a plain character or the
      number's placeholder; an unknown placeholder gets its length added and taken away again.
      None when a name is not closed or does not fit the pattern buffer. */
  function Advance(url: string, i: nat): Option<nat>
    requires i < |url|
  {
    if !Opens(url[i..]) then Some(i + 1)
    else
      var k := NameLength(url[i + 1..]);
      if i + 1 + k == |url| || k >= PATTERN_SIZE then None
      else if url[i + 1..i + 1 + k] == PLACEHOLDER[1..7] then Some(i + k + 2)
      else Some(i + k + 2 - (k + 2))
  }

  /** The pass from read index i ends at the end of the url within n turns. */
  predicate EndsWithin(url: string, i: nat, n: nat)
    requires i <= |url|
    decreases n
  {
    i == |url|
    || (n > 0 && Advance(url, i).Some? && Advance(url, i).value <= |url|
        && EndsWithin(url, Advance(url, i).value, n - 1))
  }

  lemma AdvanceOpen(url: string, i: nat)
    requires i < |url| && Opens(url[i..])
    ensures Advance(url, i) in [None, Some(i), Some(i + |PLACEHOLDER|)]
    ensures PLACEHOLDER <= url[i..] <==> Advance(url, i) == Some(i + |PLACEHOLDER|)
  {
    var rest := url[i + 1..];
    var k := NameLength(rest);
    assert url[i..] == [url[i]] + rest && url[i + 1..i + 1 + k] == rest[..k];
    var name := PLACEHOLDER[1..7];
    assert PLACEHOLDER == ['%'] + name + ['%'] && |name| == 6 && forall m | 0 <= m < 6 :: name[m] != '%';
    if PLACEHOLDER <= url[i..] {
      assert forall m | 0 <= m < 7 :: rest[m] == PLACEHOLDER[m + 1];
      assert k == 6;
      assert rest[..6] == name;
    }
  }

  lemma OnlyNumbersTurn(url: string, i: nat)
    requires i < |url|
    ensures Advance(url, i).Some? ==> i <= Advance(url, i).value <= |url|
    ensures OnlyNumbers(url[i..])
            <==> Advance(url, i).Some? && Advance(url, i).value > i && OnlyNumbers(url[Advance(url, i).value..])
  {
    assert url[i..][1..] == url[i + 1..];
    if Opens(url[i..]) {
      AdvanceOpen(url, i);
      if PLACEHOLDER <= url[i..] {
        assert url[i..][|PLACEHOLDER|..] == url[i + |PLACEHOLDER|..];
      }
    }
  }

  lemma {:induction false} EndingUrls(url: string, i: nat, n: nat)
    requires i <= |url|
    ensures OnlyNumbers(url[i..]) && n >= |url| - i ==> EndsWithin(url, i, n)
    ensures EndsWithin(url, i, n) ==> OnlyNumbers(url[i..])
    decreases n
  {
    hide OnlyNumbers, Advance;
    if i == |url| {
      assert url[i..] == [];
      ExpandNothing("");
    } else {
      OnlyNumbersTurn(url, i);
      if n > 0 && Advance(url, i).Some? {
        EndingUrls(url, Advance(url, i).value, n - 1);
      }
    }
  }

  /** The second pass comes to an end, inside the url and its pattern buffer, if and only if
      every placeholder is the number's. */
  lemma SecondPassEnds(url: string)
    ensures (exists n: nat :: EndsWithin(url, 0, n)) <==> OnlyNumbers(url)
  {
    assert url[0..] == url;
    EndingUrls(url, 0, |url|);
    forall n: nat | EndsWithin(url, 0, n) ensures OnlyNumbers(url) {
      EndingUrls(url, 0, n);
    }
  }

  /** At an unknown placeholder the pass goes on for ever. */
  lemma UnknownNeverEnds(n: nat)
    ensures !EndsWithin("%X%", 0, n)
  {
    var url := "%X%";
    assert Opens(url) && !(PLACEHOLDER <= url);
    SecondPassEnds(url);
  }

  lemma ExpandSteps(s: string, number: string)
    requires OnlyNumbers(s) && s != []
    ensures Opens(s) ==> PLACEHOLDER <= s && OnlyNumbers(s[|PLACEHOLDER|..])
                         && Expand(s, number) == number + Expand(s[|PLACEHOLDER|..], number)
    ensures !Opens(s) ==> OnlyNumbers(s[1..]) && Expand(s, number) == [s[0]] + Expand(s[1..], number)
  {
  }

  lemma {:induction false} NulFree(s: string, number: string)
    requires OnlyNumbers(s) && NUL !in s && NUL !in number
    ensures NUL !in Expand(s, number)
  {
    hide OnlyNumbers;
    if s != [] {
      ExpandSteps(s, number);
      NulFree(if Opens(s) then s[|PLACEHOLDER|..] else s[1..], number);
    } else {
      ExpandNothing(number);
    }
  }

  /** `strcpy` into the middle of the output, terminator included. */
  method PutString(out: array<char>, at: nat, s: string)
    requires at + |s| < out.Length
    modifies out
    ensures out[..at + |s|] == old(out[..at]) + s && out[at + |s|] == NUL
  {
    forall k | 0 <= k < |s| {
      out[at + k] := s[k];
    }
    out[at + |s|] := NUL;
  }

  // ---- escapes ----

  /** The left-to-right replacement of `%20` by a space. */
  function Unescape(s: string): string {
    if s == [] then []
    else if EscapeAt(s, 0) then [' '] + Unescape(s[3..])
    else [s[0]] + Unescape(s[1..])
  }

  predicate EscapeAt(s: string, i: nat) {
    i + 3 <= |s| && s[i] == '%' && s[i + 1] == '2' && s[i + 2] == '0'
  }

  ghost predicate HasEscape(s: string) {
    exists i: nat :: EscapeAt(s, i)
  }

  /** Replacements made. */
  function Escapes(s: string): nat {
    if s == [] then 0 else if EscapeAt(s, 0) then 1 + Escapes(s[3..]) else Escapes(s[1..])
  }

  lemma {:induction false} UnescapeLength(s: string)
    ensures |Unescape(s)| == |s| - 2 * Escapes(s)
    ensures Escapes(s) == 0 ==> Unescape(s) == s
  {
    if s != [] {
      UnescapeLength(if EscapeAt(s, 0) then s[3..] else s[1..]);
    }
  }

  lemma {:induction false} EscapesCount(s: string)
    ensures Escapes(s) > 0 <==> HasEscape(s)
  {
    if s != [] && !EscapeAt(s, 0) {
      EscapesCount(s[1..]);
      if HasEscape(s) {
        var i: nat :| EscapeAt(s, i);
        assert EscapeAt(s[1..], i - 1);
      } else if HasEscape(s[1..]) {
        var i: nat :| EscapeAt(s[1..], i);
        assert EscapeAt(s, i + 1);
      }
    }
  }

  /** The first escape becomes a space, what is in front of it stays, what is behind it is
      treated alike. */
  lemma {:induction false} UnescapeFirst(s: string, i: nat)
    requires EscapeAt(s, i) && forall k | 0 <= k < i :: !EscapeAt(s, k)
    ensures Unescape(s) == s[..i] + [' '] + Unescape(s[i + 3..])
  {
    if i > 0 {
      assert !EscapeAt(s, 0);
      forall k | 0 <= k < i - 1 ensures !EscapeAt(s[1..], k) {
        assert !EscapeAt(s, k + 1);
      }
      UnescapeFirst(s[1..], i - 1);
      assert s[1..][i + 2..] == s[i + 3..];
    }
  }

  lemma EscapeMeans(s: string, i: nat)
    ensures EscapeAt(s, i) <==> i + 3 <= |s| && s[i..i + 3] == "%20"
  {
    if i + 3 <= |s| {
      var e := s[i..i + 3];
      assert e[0] == s[i] && e[1] == s[i + 1] && e[2] == s[i + 2];
    }
  }

  /** The replacement leaves no escape behind. */
  lemma {:induction false} UnescapeClean(s: string)
    ensures !HasEscape(Unescape(s))
  {
    if s != [] {
      var rest := if EscapeAt(s, 0) then s[3..] else s[1..];
      UnescapeClean(rest);
      var u := Unescape(s);
      forall i: nat ensures !EscapeAt(u, i) {
        if i > 0 && EscapeAt(u, i) {
          assert EscapeAt(Unescape(rest), i - 1);
        } else if i == 0 && EscapeAt(u, 0) && !EscapeAt(s, 0) {
          UnescapeHead(s[1..], u[1..]);
        }
      }
    }
  }

  /** Two plain leading characters of the result were leading characters of the input. */
  lemma UnescapeHead(t: string, u: string)
    requires u == Unescape(t) && |u| >= 2 && u[0] == '2' && u[1] == '0'
    ensures |t| >= 2 && t[0] == '2' && t[1] == '0'
  {
    assert !EscapeAt(t, 0);
    assert u[1..] == Unescape(t[1..]);
  }

  /** So it is idempotent, shortens by twice the number of escapes, and changes a string if and
      only if it has one. */
  lemma UnescapeStable(s: string)
    ensures Unescape(Unescape(s)) == Unescape(s)
    ensures Unescape(s) == s <==> !HasEscape(s)
  {
    UnescapeClean(s);
    EscapesCount(Unescape(s));
    UnescapeLength(Unescape(s));
    EscapesCount(s);
    UnescapeLength(s);
  }

  /** `_cirlw_remove_escapes`, in place. */
  method RemoveEscapes(str: array<char>)
    requires |CStr(str[..])| < str.Length
    modifies str
    ensures CStr(str[..]) == Unescape(old(CStr(str[..])))
  {
    hide Unescape, EscapeAt, Moving;
    ghost var s, done := CStr(str[..]), [];
    var i, d := 0, 0;
    MovingFirst(str[..]);
    while str[i + d] != NUL
      invariant 0 <= i && 0 <= d && i + d <= |s| < str.Length && (str[i + d] == NUL <==> i + d == |s|)
      invariant Moving(str[..], s, done, i, d)
      decreases |s| - i - d
    {
      MovingTurn(str[..], s, done, i, d);
      done := done + [if EscapeAt(str[..], i + d) then ' ' else str[i + d]];
      d := MoveOne(str, i, d);
      i := i + 1;
    }
    MovingLast(str[..], s, done, i, d);
    str[i] := NUL;
    CStrIs(str[..], Unescape(s));
  }

  /** The loop invariant: `done` has been produced from `s[..i + d]`, the rest is untouched. */
  predicate Moving(buffer: seq<char>, s: string, done: string, i: nat, d: nat) {
    && |done| == i && i + d <= |s| < |buffer| && NUL !in s
    && buffer[..i] == done
    && (forall k | i + d <= k <= |s| :: buffer[k] == At(s, k))
    && Unescape(s) == done + Unescape(s[i + d..])
  }

  lemma MovingFirst(buffer: seq<char>)
    requires |CStr(buffer)| < |buffer|
    ensures Moving(buffer, CStr(buffer), [], 0, 0)
    ensures buffer[0] == NUL <==> |CStr(buffer)| == 0
  {
    assert CStr(buffer)[0..] == CStr(buffer);
  }

  lemma MovingTurn(buffer: seq<char>, s: string, done: string, i: nat, d: nat)
    requires Moving(buffer, s, done, i, d) && i + d < |s|
    ensures buffer[i + d] == '%' ==> i + d + 1 < |buffer| && (buffer[i + d + 1] == '2' ==> i + d + 2 < |buffer|)
    ensures var escaped := EscapeAt(buffer, i + d);
            var c := if escaped then ' ' else buffer[i + d];
            var d' := if escaped then d + 2 else d;
            && i + 1 + d' <= |s| && Moving(buffer[i := c], s, done + [c], i + 1, d')
            && (buffer[i := c][i + 1 + d'] == NUL <==> i + 1 + d' == |s|)
  {
    hide Unescape, EscapeAt;
    UnescapeStep(s, i + d);
    SameEscape(buffer, s, i + d);
    var escaped := EscapeAt(buffer, i + d);
    var c := if escaped then ' ' else buffer[i + d];
    Regroup(done, [c], Unescape(s[if escaped then i + d + 3 else i + d + 1..]));
  }

  lemma MovingLast(buffer: seq<char>, s: string, done: string, i: nat, d: nat)
    requires Moving(buffer, s, done, i, d) && i + d == |s|
    ensures |Unescape(s)| == i && buffer[..i] == Unescape(s) && NUL !in Unescape(s)
  {
    hide Unescape;
    UnescapeNothing(s[i + d..]);
    UnescapeNulFree(s);
  }

  /** One turn of the loop: a character, or a space for an escape, moves down by `d`. */
  method MoveOne(str: array<char>, i: nat, d: nat) returns (next: nat)
    requires i + d < str.Length
    requires str[i + d] == '%' ==> i + d + 1 < str.Length && (str[i + d + 1] == '2' ==> i + d + 2 < str.Length)
    modifies str
    ensures next == d + if EscapeAt(old(str[..]), i + d) then 2 else 0
    ensures str[..] == old(str[..])[i := if EscapeAt(old(str[..]), i + d) then ' ' else old(str[i + d])]
  {
    next := d;
    if str[i + d] == '%' {
      if str[i + d + 1] == '2' && str[i + d + 2] == '0' {
        str[i] := ' ';
        next := d + 2;
      } else if d > 0 {
        str[i] := str[i + d];
      }
    } else if d > 0 {
      str[i] := str[i + d];
    }
  }

  lemma UnescapeNothing(s: string)
    requires s == []
    ensures Unescape(s) == []
  {
  }

  lemma SameEscape(buffer: seq<char>, s: string, k: nat)
    requires k < |s| < |buffer| && NUL !in s
    requires forall j | k <= j <= |s| :: buffer[j] == At(s, j)
    ensures EscapeAt(buffer, k) <==> EscapeAt(s, k)
  {
  }

  lemma UnescapeStep(s: string, k: nat)
    requires k < |s|
    ensures EscapeAt(s, k) <==> At(s, k) == '%' && At(s, k + 1) == '2' && At(s, k + 2) == '0'
    ensures EscapeAt(s, k) ==> k + 3 <= |s| && Unescape(s[k..]) == [' '] + Unescape(s[k + 3..])
    ensures !EscapeAt(s, k) ==> Unescape(s[k..]) == [s[k]] + Unescape(s[k + 1..])
  {
    assert s[k..][1..] == s[k + 1..] && (k + 3 <= |s| ==> s[k..][3..] == s[k + 3..]);
  }

  lemma {:induction false} UnescapeNulFree(s: string)
    requires NUL !in s
    ensures NUL !in Unescape(s)
  {
    if s != [] {
      UnescapeNulFree(if EscapeAt(s, 0) then s[3..] else s[1..]);
    }
  }
}
