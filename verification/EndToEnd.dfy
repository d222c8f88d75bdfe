/** Writing, cutting, sending, reassembling in any order and reading a message gives its
    normal form; the normal form is a fixed point. */
module EndToEnd {
  import opened Machine
  import opened CStrings
  import opened Tables
  import opened Headers
  import opened Fragments
  import opened Messages
  import opened MessageCodec
  import opened Connection
  import opened Reassembly

  /** The parts of a message, in any order, in front of any packets and into a block of any
      content, are collected into a block that decodes to the normal form of the message, for
      every command in either direction, if and only if the rows of a table it carries fit
      their 16-bit index. */
  lemma SendThenReceive(m: Message, data: bytes, arrival: seq<bytes>, rest: seq<bytes>, junk: bytes)
    requires Defined(m) && FitsBlock(m) && Size(m) < B32
    requires |data| == Size(m) == |junk| && Written(m) <= data
    requires multiset(arrival) == multiset(Parts(HeaderOf(m), data))
    ensures JunkFor(arrival + rest, junk) && Receivable(arrival + rest)
    ensures var r := ReceiveSpec(arrival + rest, junk);
            && r == Done(HeaderOf(m).(partSize := Size(m)), data, rest)
            && Decode(r.header.cmd, r.header.subcmd, r.data).Some?
            && (Decode(r.header.cmd, r.header.subcmd, r.data) == Some(Norm(m)) <==> RowsFit(m))
  {
    hide Written, Size, Defined, Decode, Norm, Parts, ReceiveSpec, Receivable, RowsFit;
    HeaderOfSize(m);
    AnyOrder(HeaderOf(m), data, arrival, rest, junk);
    assert data == Written(m) + data[|Written(m)|..];
    MessageRoundTrip(m, data[|Written(m)|..]);
  }

  /** Receiving the parts of a message in any order, with any packets behind them. */
  method ReceiveParts(sock: Socket, ghost m: Message, ghost data: bytes, ghost arrival: seq<bytes>,
                      ghost rest: seq<bytes>)
    returns (rc: int, dbmsg: Message)
    requires Defined(m) && FitsBlock(m) && Size(m) < B32
    requires |data| == Size(m) && Written(m) <= data
    requires multiset(arrival) == multiset(Parts(HeaderOf(m), data)) && sock.incoming == arrival + rest
    modifies sock`incoming
    ensures rc == 0 && sock.incoming == rest && (dbmsg == Norm(m) <==> RowsFit(m))
  {
    hide Written, Size, Defined, Decode, Norm, Parts, ReceiveSpec, Receivable, RowsFit, FitsBlock;
    SendThenReceive(m, data, arrival, rest, data);
    forall j: bytes | JunkFor(sock.incoming, j) && ReceiveSpec(sock.incoming, j).Done?
      ensures |j| == |data|
    {
      FirstSaysSize(sock.incoming, data, j);
    }
    forall j: bytes | |j| == |data|
      ensures ReceiveSpec(sock.incoming, j).Done?
      ensures var r := ReceiveSpec(sock.incoming, j); Decode(r.header.cmd, r.header.subcmd, r.data).Some?
    {
      SendThenReceive(m, data, arrival, rest, j);
    }
    ghost var junk;
    rc, dbmsg, junk := RecvMessage(sock);
    FirstSaysSize(arrival + rest, data, junk);
    SendThenReceive(m, data, arrival, rest, junk);
  }

  /** Two blocks for the same first packet are equally long. */
  lemma FirstSaysSize(packets: seq<bytes>, a: bytes, b: bytes)
    requires JunkFor(packets, a) && JunkFor(packets, b)
    requires Receivable(packets) && ReceiveSpec(packets, a).Done?
    ensures |a| == |b|
  {
    hide Receivable, Collect, AllFit, Place;
  }

  /** Sending a message to a peer that receives it over a network which may reorder its packets
      and deliver others behind them. */
  method Transfer(m: Message, network: seq<bytes> -> seq<bytes>, rest: seq<bytes>)
    returns (sent: bool, received: Message, left: seq<bytes>)
    requires Defined(m) && FitsBlock(m) && Size(m) < B32
    requires forall packets: seq<bytes> :: multiset(network(packets)) == multiset(packets)
    ensures sent ==> left == rest && (received == Norm(m) <==> RowsFit(m))
  {
    hide Written, Size, Defined, Norm, Parts, RowsFit, FitsBlock;
    var near := new Socket([]);
    var rc, data := SendMessage(near, m);
    sent, received, left := rc == 0, m, [];
    if sent {
      assert near.sent == Parts(HeaderOf(m), data);
      var far := new Socket(network(near.sent) + rest);
      rc, received := ReceiveParts(far, m, data, network(near.sent), rest);
      left := far.incoming;
    }
  }

  // ---- stability of the normal form ----

  predicate OneList(fs: seq<Field>) {
    Str in fs ==> Strings !in fs
  }

  /** A field of the normal form encodes as it did, and is normal. */
  lemma StableField(m: Message, fs: seq<Field>, f: Field)
    requires AllReadable(m, fs) && OneList(fs) && f in fs
    ensures var n := Only(m, fs);
            && Readable(n, f) && EncField(n, f) == EncField(m, f)
            && (f.Str? ==> NormPtr(First(n)) == NormPtr(First(m)))
            && (f.Strings? ==> Listed(n) == NormPtrs(Listed(m)) && NormPtrs(Listed(n)) == NormPtrs(Listed(m)))
            && (f.Tab? ==> NormTable(n.table) == NormTable(m.table))
  {
    hide EncTable, EncStrs, WireText, LE16, LE32, NormTable;
    assert Readable(m, f);
    match f
    case Str => WireTextOfNorm(First(m));
    case Strings =>
      EncStrsOfNorm(Listed(m));
      NormPtrsStable(Listed(m));
      assert Listed(m) != [] ==> NormPtrs(Listed(m))[..|Listed(m)|] == NormPtrs(Listed(m));
    case Tab =>
      NormTableStable(m.table);
      NormColumns(m.table);
    case _ =>
  }

  lemma NormColumns(t: Table)
    requires ValidTable(t)
    ensures var n := NormTable(t); ValidTable(n) && Null !in n.columns[..n.ncols]
  {
    hide WireText;
  }

  lemma {:induction false} StableFields(m: Message, all: seq<Field>, fs: seq<Field>)
    requires AllReadable(m, all) && OneList(all) && forall f | f in fs :: f in all
    ensures AllReadable(m, fs) && AllReadable(Only(m, all), fs)
    ensures EncFields(Only(m, all), fs) == EncFields(m, fs)
  {
    hide Readable, EncField, Only;
    forall f | f in fs ensures Readable(Only(m, all), f) {
      StableField(m, all, f);
    }
    if fs != [] {
      StableField(m, all, fs[0]);
      StableFields(m, all, fs[1..]);
    }
  }

  lemma LayoutHasOneList(m: Message)
    ensures OneList(WireFields(m))
  {
  }

  lemma StableOnly(m: Message, fs: seq<Field>)
    requires AllReadable(m, fs) && OneList(fs) && AllReadable(Only(m, fs), fs)
    ensures Only(Only(m, fs), fs) == Only(m, fs)
  {
    hide Readable, NormPtr, NormPtrs, NormTable, EncField;
    if Str in fs {
      StableField(m, fs, Str);
    }
    if Strings in fs {
      StableField(m, fs, Strings);
    }
    if Tab in fs {
      StableField(m, fs, Tab);
    }
  }

  predicate LoneDelete(m: Message) {
    m.cmd == DELETE_CALLER && m.subcmd == QUERY && m.nstrings == 1
  }

  predicate NullDescribe(m: Message) {
    m.cmd == DESCRIBE_TABLE && m.subcmd == QUERY && m.strings.None?
  }

  /** The normal form is a fixed point of travelling, and it encodes to the same bytes as the
      message itself, null lists, null cells and wide flags included. The exceptions are exact:
      a DELETE_CALLER query with one string comes back as a message the sizing switch cannot
      read, and a DESCRIBE_TABLE query without a list is written one byte longer. */
  lemma NormIsStable(m: Message)
    requires Defined(m) && Known(m.cmd, m.subcmd)
    ensures Defined(Norm(m)) <==> !LoneDelete(m)
    ensures Defined(Norm(m)) ==>
              && Norm(Norm(m)) == Norm(m)
              && (Written(Norm(m)) == Written(m) <==> !NullDescribe(m))
  {
    hide Readable, EncField, Only;
    LayoutHasOneList(m);
    var fs := WireFields(m);
    StableFields(m, fs, fs);
    StableOnly(m, fs);
    if m.cmd == DELETE_CALLER && m.subcmd == QUERY {
      DeleteStable(m);
    }
    SameKind(m, fs);
    if NullDescribe(m) {
      EncNull();
      NullDescribeShort(m);
    }
  }

  lemma NullDescribeShort(m: Message)
    requires Defined(m) && NullDescribe(m)
    ensures EncFields(m, WireFields(m)) == [0]
  {
    EncNull();
  }

  lemma SameKind(m: Message, fs: seq<Field>)
    requires AllReadable(m, fs)
    ensures var n := Only(m, fs);
            n.cmd == m.cmd && n.subcmd == m.subcmd && (Str in fs ==> n.strings.Some?)
  {
  }

  lemma DeleteStable(m: Message)
    requires Defined(m) && m.cmd == DELETE_CALLER && m.subcmd == QUERY
    ensures DeleteReadable(Norm(m)) <==> m.nstrings != 1
  {
    hide WireText;
    assert Strings in [UserId, Strings] && Str !in [UserId, Strings];
    assert Readable(m, Strings);
  }

  // ---- inputs at which the exactness conditions fail ----

  /** Three rows of 32768 columns: the last row's index is 65536. */
  function WideTable(): Table {
    Table(3, 32768, seq(32768, _ => Text([])), seq(98304, _ => Text([])))
  }

  lemma WideTableIsLost()
    ensures ValidTable(WideTable()) && ReadBack(WideTable()) != NormTable(WideTable())
  {
    assert ValidTable(WideTable());
    ReadBackIsNorm(WideTable());
  }

  /** A DELETE_CALLER query with a third string is written behind its block. */
  lemma ThirdStringOverflows()
    ensures var m := Zero(DELETE_CALLER, QUERY).(nstrings := 3, strings := Some([Null, Null, Null]));
            Defined(m) && |Written(m)| > Size(m)
  {
    var m := Zero(DELETE_CALLER, QUERY).(nstrings := 3, strings := Some([Null, Null, Null]));
    assert forall f | f in [UserId, Strings] :: Readable(m, f);
    SwitchesAgree(m);
  }

  /** A DELETE_CALLER query with one string, in an array of two as the sizing switch needs it,
      comes back with an array of one. */
  lemma LoneDeleteIsLost()
    ensures var m := Zero(DELETE_CALLER, QUERY).(nstrings := 1, strings := Some([Null, Null]));
            Defined(m) && !Defined(Norm(m))
  {
    var m := Zero(DELETE_CALLER, QUERY).(nstrings := 1, strings := Some([Null, Null]));
    assert forall f | f in [UserId, Strings] :: Readable(m, f);
    assert LoneDelete(m);
    NormIsStable(m);
  }

  /** A DESCRIBE_TABLE query without a list is written behind its block. */
  lemma NullListOverflows()
    ensures var m := Zero(DESCRIBE_TABLE, QUERY); Defined(m) && |Written(m)| > Size(m)
  {
    SwitchesAgree(Zero(DESCRIBE_TABLE, QUERY));
  }
}
