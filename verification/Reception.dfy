/** When a message is received at all: what a cut-off or disturbed arrival makes of the receive
    loop (cidbconnection.c:43-81). */
module Reception {
  import opened Machine
  import opened Headers
  import opened Fragments
  import opened Connection
  import opened Reassembly

  /** The part sizes that the first n packets announce, added up in 32 bits. */
  function Counted(packets: seq<bytes>, n: nat): u32
    requires n <= |packets| && forall i | 0 <= i < n :: |packets[i]| >= 22
  {
    if n == 0 then 0 else (Counted(packets, n - 1) + Get32(packets[n - 1], 14)) % 0x1_0000_0000
  }

  /** The first n packets have a header each and announce as many bytes as the first one says
      the message has. */
  predicate Enough(packets: seq<bytes>, n: nat) {
    && 1 <= n <= |packets|
    && (forall i | 0 <= i < n :: |packets[i]| >= 22)
    && Counted(packets, n) >= Get32(packets[0], 10)
  }

  predicate FirstEnough(packets: seq<bytes>, n: nat) {
    Enough(packets, n) && forall m: nat | m < n :: !Enough(packets, m)
  }

  /** The packets end, or one without a header comes, before enough has arrived. */
  predicate BreaksOff(packets: seq<bytes>, n: nat) {
    && n <= |packets| && (n < |packets| ==> |packets[n]| < 22)
    && (forall i | 0 <= i < n :: |packets[i]| >= 22)
    && forall m: nat | m <= n :: !Enough(packets, m)
  }

  lemma OneOrTheOther(packets: seq<bytes>, n: nat, m: nat)
    requires Enough(packets, n)
    ensures !BreaksOff(packets, m)
  {
  }

  lemma CutHeader(p: bytes)
    ensures |Cut(p)| >= HEADER_SIZE <==> |p| >= 22
    ensures |p| >= 22 ==> ParseHeader(Cut(p)).partSize == Get32(p, 14)
                          && ParseHeader(Cut(p)).dataSize == Get32(p, 10)
  {
  }

  lemma {:induction false} CollectExactly(g: Header, block: bytes, packets: seq<bytes>, k: nat)
    requires 1 <= k <= |packets| && forall i | 0 <= i < k :: |packets[i]| >= 22
    requires g.dataSize == Get32(packets[0], 10) == |block|
    requires forall m: nat | m < k :: !Enough(packets, m)
    requires AllFit(g, Counted(packets, k), packets[k..])
    ensures var r := Collect(g, block, Counted(packets, k), packets[k..]);
            if r.Done?
            then exists n: nat | FirstEnough(packets, n) ::
                   r.rest == packets[n..] && r.header == g.(partSize := Counted(packets, n), offset := 0)
            else exists n: nat | BreaksOff(packets, n) :: r.rest == if n < |packets| then packets[n + 1..] else []
    decreases |packets| - k
  {
    hide Place, Cut, ParseHeader, Get32;
    var got := Counted(packets, k);
    if got >= g.dataSize {
      assert FirstEnough(packets, k);
    } else if k == |packets| || |packets[k]| < 22 {
      assert !Enough(packets, k);
      assert BreaksOff(packets, k);
      if k < |packets| {
        CutHeader(packets[k]);
        assert packets[k..][1..] == packets[k + 1..];
      }
    } else {
      CutHeader(packets[k]);
      var p := Cut(packets[k]);
      assert packets[k..][0] == packets[k] && packets[k..][1..] == packets[k + 1..];
      CollectExactly(g, Place(block, p), packets, k + 1);
    }
  }

  /** A message is received if and only if some first packets announce enough bytes; then what
      lies behind the least number of them is left. Otherwise the packets end, or one is too
      short, before that, and nothing behind that packet is touched. */
  lemma ReceivesExactly(packets: seq<bytes>, junk: bytes)
    requires Receivable(packets) && JunkFor(packets, junk)
    ensures ReceiveSpec(packets, junk).Done? <==> exists n: nat :: Enough(packets, n)
    ensures var r := ReceiveSpec(packets, junk);
            if r.Done? then exists n: nat :: FirstEnough(packets, n) && r.rest == packets[n..]
            else exists n: nat | BreaksOff(packets, n) :: r.rest == if n < |packets| then packets[n + 1..] else []
  {
    hide Place, Cut, ParseHeader, Get32, Collect, AllFit, Enough, BreaksOff;
    if packets == [] || |packets[0]| < 22 {
      NothingFirst(packets);
      if packets != [] {
        CutHeader(packets[0]);
      }
    } else {
      CutHeader(packets[0]);
      var h := ParseHeader(Cut(packets[0]));
      FirstCounted(packets);
      if h.dataSize > 0 {
        CollectExactly(h, Place(junk, Cut(packets[0])), packets, 1);
      }
    }
    var r := ReceiveSpec(packets, junk);
    if !r.Done? {
      var n: nat :| BreaksOff(packets, n) && r.rest == if n < |packets| then packets[n + 1..] else [];
      forall m: nat | Enough(packets, m) ensures false {
        OneOrTheOther(packets, m, n);
      }
    }
  }

  lemma NothingFirst(packets: seq<bytes>)
    requires packets == [] || |packets[0]| < 22
    ensures BreaksOff(packets, 0)
  {
  }

  lemma FirstCounted(packets: seq<bytes>)
    requires packets != [] && |packets[0]| >= 22
    ensures Counted(packets, 1) == Get32(packets[0], 14) && !Enough(packets, 0)
    ensures Get32(packets[0], 10) == 0 ==> FirstEnough(packets, 1)
  {
    assert Counted(packets, 0) == 0;
  }

  // ---- an arrival that lacks a part ----

  /** `arrival` and `missing` are the parts of the message, in any order. */
  ghost predicate Lacks(h: Header, data: bytes, arrival: seq<bytes>, missing: seq<bytes>) {
    data != [] && missing != [] && Shuffled(h, data, arrival + missing)
  }

  lemma LackingPart(h: Header, data: bytes, arrival: seq<bytes>, missing: seq<bytes>, i: nat)
    requires Lacks(h, data, arrival, missing) && i < |arrival|
    ensures |arrival[i]| >= 22 && Cut(arrival[i]) == arrival[i] && Fits(arrival[i], |data|)
    ensures Get32(arrival[i], 14) == |arrival[i]| - 22 && Get32(arrival[i], 10) == |data|
  {
    hide Part, Fits;
    var k := ArrivalIsPart(h, data, arrival + missing, i);
    PartFacts(h, data, k);
    CutHeader(arrival[i]);
  }

  lemma {:induction false} LackingFit(g: Header, h: Header, data: bytes, arrival: seq<bytes>, missing: seq<bytes>,
                                      tail: seq<bytes>, j: nat, got: u32)
    requires Lacks(h, data, arrival, missing) && j <= |arrival| && g.dataSize == |data|
    requires tail == [] || |tail[0]| < 22
    ensures AllFit(g, got, arrival[j..] + tail)
    decreases |arrival| - j
  {
    hide Lacks, Fits, Cut, ParseHeader;
    var packets := arrival[j..] + tail;
    if j == |arrival| {
      assert packets == tail;
      if tail != [] {
        CutHeader(tail[0]);
      }
    } else {
      LackingPart(h, data, arrival, missing, j);
      assert packets[0] == arrival[j] && packets[1..] == arrival[j + 1..] + tail;
      LackingFit(g, h, data, arrival, missing, tail, j + 1, (got + ParseHeader(Cut(arrival[j])).partSize) % B32);
    }
  }

  lemma {:induction false} LackingCount(h: Header, data: bytes, arrival: seq<bytes>, missing: seq<bytes>,
                                        tail: seq<bytes>, n: nat)
    requires Lacks(h, data, arrival, missing) && n <= |arrival|
    ensures forall i | 0 <= i < n :: |(arrival + tail)[i]| >= 22
    ensures Counted(arrival + tail, n) == Total((arrival + missing)[..n]) < |data|
  {
    hide Get32, Shuffled, Total;
    var all := arrival + missing;
    TotalBounds(h, data, all, n);
    if n > 0 {
      LackingCount(h, data, arrival, missing, tail, n - 1);
      LackingPart(h, data, arrival, missing, n - 1);
      TotalSnoc(all, n - 1);
    } else {
      assert all[..0] == [];
      NoTotal();
    }
  }

  lemma NoTotal()
    ensures Total([]) == 0
  {
  }

  /** A message of which a part is missing, followed by nothing or by a packet without a header,
      is not received, whatever the block held before. */
  lemma LackingFails(h: Header, data: bytes, arrival: seq<bytes>, missing: seq<bytes>, tail: seq<bytes>, junk: bytes)
    requires Lacks(h, data, arrival, missing) && (tail == [] || |tail[0]| < 22)
    requires JunkFor(arrival + tail, junk)
    ensures Receivable(arrival + tail)
    ensures ReceiveSpec(arrival + tail, junk) == Failed(if tail == [] then [] else tail[1..])
  {
    hide Lacks, Fits, ParseHeader, AllFit, Collect, Place, Counted, Get32, Cut;
    var packets := arrival + tail;
    LackingReceivable(h, data, arrival, missing, tail);
    ReceivesExactly(packets, junk);
    assert forall i | 0 <= i < |arrival| :: packets[i] == arrival[i];
    assert tail != [] ==> packets[|arrival|] == tail[0];
    forall n: nat | Enough(packets, n) ensures false {
      if n <= |arrival| {
        LackingCount(h, data, arrival, missing, tail, n);
        LackingPart(h, data, arrival, missing, 0);
      }
    }
    var r := ReceiveSpec(packets, junk);
    var n: nat :| BreaksOff(packets, n) && r.rest == if n < |packets| then packets[n + 1..] else [];
    if n < |arrival| {
      LackingPart(h, data, arrival, missing, n);
    }
    assert n == |arrival| && (tail != [] ==> packets[n + 1..] == tail[1..]);
  }

  lemma LackingReceivable(h: Header, data: bytes, arrival: seq<bytes>, missing: seq<bytes>, tail: seq<bytes>)
    requires Lacks(h, data, arrival, missing) && (tail == [] || |tail[0]| < 22)
    ensures Receivable(arrival + tail)
  {
    hide Lacks, Fits, ParseHeader, AllFit, Cut;
    var packets := arrival + tail;
    if packets != [] {
      CutHeader(packets[0]);
      if arrival != [] {
        LackingPart(h, data, arrival, missing, 0);
        var g := ParseHeader(Cut(packets[0]));
        LackingFit(g, h, data, arrival, missing, tail, 1, g.partSize);
        assert packets[1..] == arrival[1..] + tail;
      }
    }
  }

  /** `RecvMessage` on such an arrival. */
  method ReceiveLacking(sock: Socket, ghost h: Header, ghost data: bytes, ghost arrival: seq<bytes>,
                        ghost missing: seq<bytes>, ghost tail: seq<bytes>)
    returns (rc: int)
    requires Lacks(h, data, arrival, missing) && (tail == [] || |tail[0]| < 22)
    requires sock.incoming == arrival + tail
    modifies sock`incoming
    ensures rc == 1 && sock.incoming == if tail == [] then [] else tail[1..]
  {
    hide Lacks, Receivable, ReceiveSpec;
    LackingReceivable(h, data, arrival, missing, tail);
    forall j: bytes | JunkFor(sock.incoming, j) ensures !ReceiveSpec(sock.incoming, j).Done? {
      LackingFails(h, data, arrival, missing, tail, j);
    }
    var dbmsg;
    ghost var junk;
    rc, dbmsg, junk := RecvMessage(sock);
    LackingFails(h, data, arrival, missing, tail, junk);
  }
}
