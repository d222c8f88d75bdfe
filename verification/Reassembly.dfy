/** Parts may arrive in any order: the receive loop still ends with the data that was cut. */
module Reassembly {
  import opened Machine
  import opened Headers
  import opened Fragments
  import opened Connection

  lemma PartFacts(h: Header, data: bytes, k: nat)
    requires h.dataSize == |data| && k < PartCount(|data|)
    ensures var p := Part(h, data, k);
            && Cut(p) == p && |p| >= HEADER_SIZE && ParseHeader(p) == PartHeader(h, k)
            && |p| == HEADER_SIZE + PartHeader(h, k).partSize
            && Fits(p, |data|)
            && p[HEADER_SIZE..] == Payload(data, k)
  {
    hide HeaderBytes, ParseHeader, PartCount;
    ParseHeaderBytes(PartHeader(h, k), Payload(data, k));
    PartBounds(|data|, k);
  }

  /** Placing a part sets its own bytes and no others. */
  lemma PlaceAt(h: Header, data: bytes, k: nat, cur: bytes, pos: nat)
    requires h.dataSize == |data| == |cur| && k < PartCount(|data|) && pos < |data|
    ensures Fits(Part(h, data, k), |cur|)
    ensures Place(cur, Part(h, data, k))[pos] == if InPart(|data|, pos, k) then data[pos] else cur[pos]
  {
    PartFacts(h, data, k);
    hide Part, PartCount, Fits, ParseHeader;
    PartBounds(|data|, k);
    var p := Part(h, data, k);
    assert p[HEADER_SIZE..HEADER_SIZE + PartHeader(h, k).partSize] == Payload(data, k);
  }

  // ---- counting bytes ----

  function Total(ps: seq<bytes>): int {
    if ps == [] then 0 else Total(ps[..|ps| - 1]) + |ps[|ps| - 1]| - HEADER_SIZE
  }

  lemma TotalSnoc(ps: seq<bytes>, j: nat)
    requires j < |ps|
    ensures Total(ps[..j + 1]) == Total(ps[..j]) + |ps[j]| - HEADER_SIZE
  {
    assert ps[..j + 1][..j] == ps[..j];
  }

  lemma {:induction false} TotalWithout(ps: seq<bytes>, i: nat)
    requires i < |ps|
    ensures Total(ps) == Total(ps[..i] + ps[i + 1..]) + |ps[i]| - HEADER_SIZE
  {
    var n := |ps| - 1;
    if i < n {
      var init := ps[..n];
      TotalWithout(init, i);
      var less := ps[..i] + ps[i + 1..];
      assert less[..n - 1] == init[..i] + init[i + 1..];
    } else {
      assert ps[..i] + ps[i + 1..] == ps[..n];
    }
  }

  /** The last element of one order, taken out of the other. */
  lemma LastElsewhere(a: seq<bytes>, b: seq<bytes>) returns (i: nat)
    requires multiset(a) == multiset(b) && a != []
    ensures i < |b| && b[i] == a[|a| - 1]
    ensures multiset(a[..|a| - 1]) == multiset(b[..i] + b[i + 1..])
  {
    var n := |a| - 1;
    assert a == a[..n] + [a[n]];
    assert a[n] in multiset(a);
    assert a[n] in b;
    i :| 0 <= i < |b| && b[i] == a[n];
    WithoutOne(b, i);
    WithoutOne(a, n);
    assert a[..n] + a[n + 1..] == a[..n];
  }

  lemma WithoutOne(s: seq<bytes>, i: nat)
    requires i < |s|
    ensures multiset(s[..i] + s[i + 1..]) == multiset(s) - multiset{s[i]}
  {
    assert s == s[..i] + [s[i]] + s[i + 1..];
  }

  /** The byte count does not depend on the order. */
  lemma {:induction false} TotalOfPermutation(a: seq<bytes>, b: seq<bytes>)
    requires multiset(a) == multiset(b)
    ensures Total(a) == Total(b)
    decreases |a|
  {
    if a == [] {
      assert |multiset(b)| == 0;
    } else {
      var n := |a| - 1;
      var i := LastElsewhere(a, b);
      TotalWithout(b, i);
      TotalOfPermutation(a[..n], b[..i] + b[i + 1..]);
    }
  }

  lemma {:induction false} TotalOfParts(h: Header, data: bytes, k: nat)
    requires h.dataSize == |data| && k <= PartCount(|data|)
    ensures Total(Parts(h, data)[..k]) == if k == 0 then 0 else PartEnd(|data|, k - 1)
  {
    hide Part, PartCount;
    if k > 0 {
      TotalOfParts(h, data, k - 1);
      TotalSnoc(Parts(h, data), k - 1);
      PartFacts(h, data, k - 1);
      PartBounds(|data|, k - 1);
      if k > 1 {
        PartBounds(|data|, k - 2);
      }
    }
  }

  // ---- the loop ----

  ghost predicate Shuffled(h: Header, data: bytes, arrival: seq<bytes>) {
    h.dataSize == |data| && multiset(arrival) == multiset(Parts(h, data))
  }

  lemma ArrivalIsPart(h: Header, data: bytes, arrival: seq<bytes>, i: nat) returns (k: nat)
    requires Shuffled(h, data, arrival) && i < |arrival|
    ensures h.dataSize == |data| && k < PartCount(|data|) && arrival[i] == Part(h, data, k)
  {
    hide Part, PartCount;
    assert arrival[i] in multiset(arrival);
    assert arrival[i] in Parts(h, data);
    k :| 0 <= k < |Parts(h, data)| && Parts(h, data)[k] == arrival[i];
  }

  lemma PartArrives(h: Header, data: bytes, arrival: seq<bytes>, k: nat) returns (i: nat)
    requires Shuffled(h, data, arrival) && k < PartCount(|data|)
    ensures h.dataSize == |data| && i < |arrival| && arrival[i] == Part(h, data, k)
  {
    hide Part, PartCount;
    assert Parts(h, data)[k] in multiset(Parts(h, data));
    assert Parts(h, data)[k] in arrival;
    i :| 0 <= i < |arrival| && arrival[i] == Parts(h, data)[k];
  }

  /** The bytes of the part are in place. */
  ghost predicate Landed(h: Header, data: bytes, cur: bytes, packet: bytes)
    requires |cur| == |data| == h.dataSize
  {
    forall k: nat, pos: nat | k < PartCount(|data|) && pos < |data| && InPart(|data|, pos, k)
        && packet == Part(h, data, k) ::
      cur[pos] == data[pos]
  }

  lemma LandedAfterPlace(h: Header, data: bytes, k: nat, cur: bytes, packet: bytes)
    requires h.dataSize == |data| == |cur| && k < PartCount(|data|)
    requires packet == Part(h, data, k) || Landed(h, data, cur, packet)
    ensures Fits(Part(h, data, k), |cur|)
    ensures Landed(h, data, Place(cur, Part(h, data, k)), packet)
  {
    hide PartCount, InPart, Place, Fits, Part;
    PartFacts(h, data, k);
    var next := Place(cur, Part(h, data, k));
    forall k': nat, pos: nat | k' < PartCount(|data|) && pos < |data| && InPart(|data|, pos, k')
        && packet == Part(h, data, k')
      ensures next[pos] == data[pos]
    {
      PlaceAt(h, data, k, cur, pos);
      if packet == Part(h, data, k) {
        SamePart(h, data, k, k');
      }
    }
  }

  lemma SamePart(h: Header, data: bytes, k: nat, k': nat)
    requires h.dataSize == |data| && k < PartCount(|data|) && k' < PartCount(|data|)
    requires Part(h, data, k) == Part(h, data, k')
    ensures k == k'
  {
    PartFacts(h, data, k);
    PartFacts(h, data, k');
  }

  /** When every part has landed the block is the data. */
  lemma AllLanded(h: Header, data: bytes, arrival: seq<bytes>, cur: bytes)
    requires Shuffled(h, data, arrival) && |cur| == |data|
    requires forall i | 0 <= i < |arrival| :: Landed(h, data, cur, arrival[i])
    ensures cur == data
  {
    hide Part, PartCount, Shuffled;
    forall pos: nat | pos < |data| ensures cur[pos] == data[pos] {
      SomePart(|data|, pos);
      var i := PartArrives(h, data, arrival, pos / DATA_SIZE);
      assert Landed(h, data, cur, arrival[i]);
    }
  }

  lemma SomePart(size: nat, pos: nat)
    requires pos < size
    ensures pos / DATA_SIZE < PartCount(size) && InPart(size, pos, pos / DATA_SIZE)
  {
  }

  lemma TotalBounds(h: Header, data: bytes, arrival: seq<bytes>, j: nat)
    requires Shuffled(h, data, arrival) && j <= |arrival|
    ensures 0 <= Total(arrival[..j]) <= |data|
    ensures j == |arrival| ==> Total(arrival[..j]) == |data|
    ensures j < |arrival| && |data| > 0 ==> Total(arrival[..j]) < |data|
    decreases |arrival| - j
  {
    hide Part, Parts, Shuffled, Total;
    if j == |arrival| {
      assert arrival[..j] == arrival;
      TotalAll(h, data, arrival);
    } else {
      TotalBounds(h, data, arrival, j + 1);
      TotalSnoc(arrival, j);
      var k := ArrivalIsPart(h, data, arrival, j);
      PartFacts(h, data, k);
      PartBounds(|data|, k);
      TotalNonNegative(h, data, arrival, j);
    }
  }

  lemma TotalAll(h: Header, data: bytes, arrival: seq<bytes>)
    requires Shuffled(h, data, arrival)
    ensures Total(arrival) == |data|
  {
    hide Part, PartCount, Total;
    TotalOfPermutation(arrival, Parts(h, data));
    TotalOfParts(h, data, PartCount(|data|));
    PartBounds(|data|, PartCount(|data|) - 1);
    assert Parts(h, data)[..PartCount(|data|)] == Parts(h, data);
  }

  lemma TotalNonNegative(h: Header, data: bytes, arrival: seq<bytes>, j: nat)
    requires Shuffled(h, data, arrival) && j <= |arrival|
    ensures 0 <= Total(arrival[..j])
  {
    hide Part, Parts, Shuffled;
    if j > 0 {
      TotalNonNegative(h, data, arrival, j - 1);
      TotalSnoc(arrival, j - 1);
      var k := ArrivalIsPart(h, data, arrival, j - 1);
      PartFacts(h, data, k);
    }
  }

  lemma CollectEnd(g: Header, cur: bytes, got: u32, packets: seq<bytes>)
    requires |cur| == g.dataSize <= got
    ensures AllFit(g, got, packets) && Collect(g, cur, got, packets)
                                    == Done(g.(partSize := got, offset := 0), cur, packets)
  {
  }

  lemma CollectStep(g: Header, cur: bytes, got: u32, packets: seq<bytes>)
    requires |cur| == g.dataSize > got && packets != [] && Cut(packets[0]) == packets[0]
    requires Fits(packets[0], g.dataSize) && |packets[0]| >= HEADER_SIZE
    requires AllFit(g, (got + ParseHeader(packets[0]).partSize) % B32, packets[1..])
    ensures AllFit(g, got, packets)
    ensures Collect(g, cur, got, packets)
         == Collect(g, Place(cur, packets[0]), (got + ParseHeader(packets[0]).partSize) % B32, packets[1..])
  {
    hide Cut, Fits, Place, ParseHeader;
  }

  /** The loop invariant of reassembly: `j` parts have landed and been counted, in whatever
      order they came; the rest of the loop ends with the data. */
  lemma {:induction false} CollectShuffled(g: Header, h: Header, data: bytes, arrival: seq<bytes>, rest: seq<bytes>,
                                           j: nat, cur: bytes)
    requires Shuffled(h, data, arrival) && j <= |arrival| && |cur| == |data| == h.dataSize > 0
    requires g.(partSize := 0, offset := 0) == h.(partSize := 0, offset := 0)
    requires forall i | 0 <= i < j :: Landed(h, data, cur, arrival[i])
    ensures 0 <= Total(arrival[..j]) < B32
    ensures AllFit(g, Total(arrival[..j]), arrival[j..] + rest)
    ensures Collect(g, cur, Total(arrival[..j]), arrival[j..] + rest)
         == Done(h.(partSize := |data|, offset := 0), data, rest)
    decreases |arrival| - j
  {
    hide Part, PartCount, Shuffled, Total, Landed, Fits, Place, Cut, ParseHeader, Collect, AllFit;
    TotalBounds(h, data, arrival, j);
    var packets := arrival[j..] + rest;
    if j == |arrival| {
      AllLanded(h, data, arrival, cur);
      assert packets == rest;
      CollectEnd(g, cur, Total(arrival[..j]), packets);
    } else {
      var k := ArrivalIsPart(h, data, arrival, j);
      PartFacts(h, data, k);
      assert packets[0] == arrival[j] && packets[1..] == arrival[j + 1..] + rest;
      LandedAfterPlace(h, data, k, cur, arrival[j]);
      var next := Place(cur, arrival[j]);
      forall i | 0 <= i < j + 1 ensures Landed(h, data, next, arrival[i]) {
        LandedAfterPlace(h, data, k, cur, arrival[i]);
      }
      TotalSnoc(arrival, j);
      TotalBounds(h, data, arrival, j + 1);
      CollectShuffled(g, h, data, arrival, rest, j + 1, next);
      CollectStep(g, cur, Total(arrival[..j]), packets);
    }
  }

  /** Reassembly does not depend on order: whichever part comes first and however the others
      follow, each once, the receiver ends with the data, the full byte count and the
      identifying header fields, and leaves the packets behind the message alone. */
  lemma AnyOrder(h: Header, data: bytes, arrival: seq<bytes>, rest: seq<bytes>, junk: bytes)
    requires Shuffled(h, data, arrival) && |junk| == |data|
    ensures JunkFor(arrival + rest, junk) && Receivable(arrival + rest)
    ensures ReceiveSpec(arrival + rest, junk) == Done(h.(partSize := |data|, offset := 0), data, rest)
  {
    hide Part, Fits, Place, Cut, ParseHeader, Collect, AllFit, Total;
    assert |multiset(Parts(h, data))| == PartCount(|data|) == |multiset(arrival)| == |arrival|;
    var packets := arrival + rest;
    var k := ArrivalIsPart(h, data, arrival, 0);
    PartFacts(h, data, k);
    assert packets[0] == arrival[0] && packets[1..] == arrival[1..] + rest;
    if |data| == 0 {
      assert arrival[1..] + rest == rest;
    } else {
      LandedAfterPlace(h, data, k, junk, arrival[0]);
      FirstTotal(arrival);
      CollectShuffled(ParseHeader(packets[0]), h, data, arrival, rest, 1, Place(junk, packets[0]));
    }
  }

  lemma FirstTotal(ps: seq<bytes>)
    requires ps != []
    ensures Total(ps[..1]) == |ps[0]| - HEADER_SIZE
  {
    assert ps[..1][..0] == [];
  }
}
