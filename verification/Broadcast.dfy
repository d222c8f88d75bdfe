/** The broadcast server as atomic, lock-protected steps of two threads, and what holds over
    every interleaving of them (ci-server.c). */
module Broadcast {
  import opened Machine

  // ---- versions ----

  /** `CI_MAKE_VERSION`. */
  function MakeVersion(maj: bv32, min: bv32, pat: bv32): bv32 {
    ((maj << 16) | (min << 8) | pat) & 0x00ff_ffff
  }

  function Major(v: bv32): bv32 { (v >> 16) & 0xff }
  function Minor(v: bv32): bv32 { (v >> 8) & 0xff }
  function Patch(v: bv32): bv32 { v & 0xff }

  /** `CI_CHECK_VERSION`, which compares component by component. */
  predicate CheckVersion(v: bv32, min: bv32) {
    Major(v) >= Major(min) && Minor(v) >= Minor(min) && Patch(v) >= Patch(min)
  }

  predicate Modern(v: bv32) {
    CheckVersion(v, MakeVersion(3, 0, 0))
  }

  /** The components are read back if and only if each fits its byte. */
  lemma VersionRoundTrip(maj: bv32, min: bv32, pat: bv32)
    ensures (var v := MakeVersion(maj, min, pat); Major(v) == maj && Minor(v) == min && Patch(v) == pat)
            <==> maj < 256 && min < 256 && pat < 256
  {
  }

  /** Against a minimum without minor and patch parts the check is the order on versions. */
  lemma ModernIsOrder(v: bv32)
    ensures MakeVersion(3, 0, 0) == 0x03_0000
    ensures Modern(v) <==> v & 0xff_ffff >= 0x03_0000
  {
  }

  // ---- state ----

  /** A list entry: the client, and what the broadcasts have put on its wire since it last
      became a version-3 client (`since` is the length of the log then). */
  datatype Client = Client(sock: int, marked: bool, version: bv32)
  datatype History = History(since: nat, stream: bytes, torn: bool)
  datatype Entry = Entry(client: Client, hist: History)

  datatype FdEvent = Opened(fd: int) | Closed(fd: int)

  /** `sweeping` holds while the broadcasting thread is between its send loop and its removal
      of marked clients. */
  datatype Server = Server(list: seq<Entry>, log: seq<bytes>, fds: seq<FdEvent>, sweeping: bool)

  function Initial(): Server {
    Server([], [], [], false)
  }

  // ---- steps ----

  /** What a client's message does to its entry. */
  datatype Handling = Ignored | Reports(version: bv32) | Leaves

  /** How the kernel answered: bytes taken of a frame in all, or the result of a legacy send. */
  datatype Sending = Took(bytes: nat) | Returned(rc: int)

  const LEGACY_SIZE: nat := 1409  // sizeof(CINetMessage): a code and the character arrays of CIDataSet

  datatype Step =
    | Accept(fd: int)
    | Handle(handlings: seq<Handling>)
    | Sweep(broadcaster: bool)
    | Send(frame: bytes, call: bool, sendings: seq<Sending>)
    | CloseAll

  function HandleOne(e: Entry, how: Handling, now: nat): Entry {
    match how
    case Ignored => e
    case Leaves => e.(client := e.client.(marked := true))
    case Reports(v) =>
      e.(client := e.client.(version := v),
         hist := if Modern(v) && !Modern(e.client.version) then e.hist.(since := now, stream := []) else e.hist)
  }

  predicate SendingFits(e: Entry, frame: bytes, how: Sending) {
    if Modern(e.client.version) then how.Took? && how.bytes <= |frame| else how.Returned?
  }

  /** A version-3 client whose send fell short is marked. A legacy client is marked on a short
      count only: the comparison is unsigned, so a failed send looks large. */
  function SendOne(e: Entry, frame: bytes, call: bool, how: Sending): Entry
    requires SendingFits(e, frame, how)
  {
    if Modern(e.client.version) then
      var short := how.bytes < |frame|;
      Entry(e.client.(marked := e.client.marked || short),
            History(e.hist.since, e.hist.stream + frame[..how.bytes], e.hist.torn || short))
    else if !call && 0 <= how.rc < LEGACY_SIZE then e.(client := e.client.(marked := true))
    else e
  }

  function Unmarked(list: seq<Entry>): seq<Entry> {
    if list == [] then []
    else if list[0].client.marked then Unmarked(list[1..])
    else [list[0]] + Unmarked(list[1..])
  }

  function ClosedMarked(list: seq<Entry>): seq<FdEvent> {
    if list == [] then []
    else if list[0].client.marked then [Closed(list[0].client.sock)] + ClosedMarked(list[1..])
    else ClosedMarked(list[1..])
  }

  function Closing(list: seq<Entry>): seq<FdEvent> {
    if list == [] then [] else [Closed(list[0].client.sock)] + Closing(list[1..])
  }

  predicate Enabled(s: Server, step: Step) {
    match step
    case Accept(fd) => fd !in Socks(s.list)  // the kernel hands out descriptors that are not open
    case Handle(hs) => |hs| == |s.list|
    case Sweep(_) => true
    case Send(frame, _, how) =>
      !s.sweeping && |how| == |s.list| && forall i | 0 <= i < |how| :: SendingFits(s.list[i], frame, how[i])
    case CloseAll => !s.sweeping
  }

  function Apply(s: Server, step: Step): Server
    requires Enabled(s, step)
  {
    match step
    case Accept(fd) =>
      s.(list := s.list + [Entry(Client(fd, false, MakeVersion(2, 0, 0)), History(0, [], false))],
         fds := s.fds + [Opened(fd)])
    case Handle(hs) =>
      s.(list := seq(|s.list|, i requires 0 <= i < |s.list| => HandleOne(s.list[i], hs[i], |s.log|)))
    case Sweep(broadcaster) =>
      s.(list := Unmarked(s.list), fds := s.fds + ClosedMarked(s.list), sweeping := s.sweeping && !broadcaster)
    case Send(frame, call, how) =>
      s.(list := seq(|s.list|, i requires 0 <= i < |s.list| => SendOne(s.list[i], frame, call, how[i])),
         log := s.log + [frame], sweeping := true)
    case CloseAll =>
      s.(list := [], fds := s.fds + Closing(s.list))
  }

  function Socks(list: seq<Entry>): seq<int> {
    seq(|list|, i requires 0 <= i < |list| => list[i].client.sock)
  }

  // ---- the broadcast invariant ----

  function Concat(frames: seq<bytes>): bytes {
    if frames == [] then [] else Concat(frames[..|frames| - 1]) + frames[|frames| - 1]
  }

  /** A version-3 client has been sent a prefix of the frames logged since it became one, and
      all of them unless a send was cut short; then it is marked, and the broadcasting thread
      has yet to remove it. */
  predicate EntryOk(e: Entry, log: seq<bytes>, sweeping: bool) {
    && (Modern(e.client.version) ==>
        && e.hist.since <= |log|
        && e.hist.stream <= Concat(log[e.hist.since..])
        && (!e.hist.torn ==> e.hist.stream == Concat(log[e.hist.since..])))
    && (e.hist.torn ==> e.client.marked && sweeping)
  }

  predicate StreamsOk(s: Server) {
    forall i | 0 <= i < |s.list| :: EntryOk(s.list[i], s.log, s.sweeping)
  }

  lemma ConcatSnoc(log: seq<bytes>, since: nat, frame: bytes)
    requires since <= |log|
    ensures Concat((log + [frame])[since..]) == Concat(log[since..]) + frame
    ensures Concat((log + [frame])[|log| + 1..]) == []
  {
    var s := (log + [frame])[since..];
    assert s[..|s| - 1] == log[since..];
  }

  lemma SendKeeps(e: Entry, log: seq<bytes>, frame: bytes, call: bool, how: Sending)
    requires EntryOk(e, log, false) && SendingFits(e, frame, how)
    ensures EntryOk(SendOne(e, frame, call, how), log + [frame], true)
  {
    if Modern(e.client.version) {
      ConcatSnoc(log, e.hist.since, frame);
    }
  }

  lemma {:induction false} UnmarkedKeeps(list: seq<Entry>, log: seq<bytes>, sweeping: bool, after: bool)
    requires forall i | 0 <= i < |list| :: EntryOk(list[i], log, sweeping)
    ensures forall i | 0 <= i < |Unmarked(list)| :: EntryOk(Unmarked(list)[i], log, after)
    ensures forall i | 0 <= i < |Unmarked(list)| :: !Unmarked(list)[i].client.marked && Unmarked(list)[i] in list
  {
    hide EntryOk;
    if list != [] {
      UnmarkedKeeps(list[1..], log, sweeping, after);
      if !list[0].client.marked {
        UntornKeeps(list[0], log, sweeping, after);
      }
    }
  }

  lemma UntornKeeps(e: Entry, log: seq<bytes>, sweeping: bool, after: bool)
    requires EntryOk(e, log, sweeping) && !e.client.marked
    ensures EntryOk(e, log, after)
  {
  }

  lemma StepKeepsStreams(s: Server, step: Step)
    requires StreamsOk(s) && Enabled(s, step)
    ensures StreamsOk(Apply(s, step))
  {
    hide Modern, Concat;
    match step
    case Send(frame, call, how) =>
      var t := Apply(s, step);
      forall i | 0 <= i < |t.list| ensures EntryOk(t.list[i], t.log, t.sweeping) {
        SweepingIsOff(s.list[i], s.log, s.sweeping);
        SendKeeps(s.list[i], s.log, frame, call, how[i]);
      }
    case Handle(hs) =>
      var t := Apply(s, step);
      forall i | 0 <= i < |t.list| ensures EntryOk(t.list[i], t.log, t.sweeping) {
        HandleKeeps(s.list[i], s.log, hs[i], s.sweeping);
      }
    case Sweep(broadcaster) =>
      UnmarkedKeeps(s.list, s.log, s.sweeping, s.sweeping && !broadcaster);
    case Accept(fd) =>
      assert !Modern(MakeVersion(2, 0, 0)) by { TwoIsLegacy(); }
    case CloseAll =>
  }

  lemma TwoIsLegacy()
    ensures !Modern(MakeVersion(2, 0, 0))
  {
  }

  lemma SweepingIsOff(e: Entry, log: seq<bytes>, sweeping: bool)
    requires EntryOk(e, log, sweeping) && !sweeping
    ensures EntryOk(e, log, false)
  {
  }

  lemma HandleKeeps(e: Entry, log: seq<bytes>, how: Handling, sweeping: bool)
    requires EntryOk(e, log, sweeping)
    ensures EntryOk(HandleOne(e, how, |log|), log, sweeping)
  {
    assert log[|log|..] == [];
  }

  // ---- the registry invariant ----

  /** The descriptors that are open after the events, None if one was opened while open or
      closed while not. */
  function OpenAfter(fds: seq<FdEvent>): Option<set<int>> {
    if fds == [] then Some({})
    else
      var before := OpenAfter(fds[..|fds| - 1]);
      match fds[|fds| - 1]
      case Opened(fd) => if before.None? || fd in before.value then None else Some(before.value + {fd})
      case Closed(fd) => if before.None? || fd !in before.value then None else Some(before.value - {fd})
  }

  predicate Distinct(s: seq<int>) {
    forall i, j | 0 <= i < j < |s| :: s[i] != s[j]
  }

  function Elements(s: seq<int>): set<int> {
    set x | x in s
  }

  /** Open sockets and list entries correspond one to one, and no socket was ever closed twice
      or opened twice. */
  predicate RegistryOk(s: Server) {
    Distinct(Socks(s.list)) && OpenAfter(s.fds) == Some(Elements(Socks(s.list)))
  }

  lemma NothingOpen()
    ensures OpenAfter([]) == Some({})
  {
  }

  lemma OpenSnoc(fds: seq<FdEvent>, e: FdEvent)
    ensures OpenAfter(fds + [e])
         == (var before := OpenAfter(fds);
             match e
             case Opened(fd) => if before.None? || fd in before.value then None else Some(before.value + {fd})
             case Closed(fd) => if before.None? || fd !in before.value then None else Some(before.value - {fd}))
  {
    assert (fds + [e])[..|fds|] == fds;
  }

  lemma {:induction false} UnmarkedConcat(a: seq<Entry>, b: seq<Entry>)
    ensures Unmarked(a + b) == Unmarked(a) + Unmarked(b)
    ensures ClosedMarked(a + b) == ClosedMarked(a) + ClosedMarked(b)
  {
    if a == [] {
      assert a + b == b;
    } else {
      assert (a + b)[1..] == a[1..] + b;
      UnmarkedConcat(a[1..], b);
    }
  }

  function Kept(e: Entry): seq<Entry> {
    if e.client.marked then [] else [e]
  }

  lemma UnmarkedOne(e: Entry)
    ensures Unmarked([e]) == Kept(e)
  {
  }

  lemma CutAt<T>(s: seq<T>, i: nat)
    requires i < |s|
    ensures s[..i + 1] == s[..i] + [s[i]]
    ensures s == s[..i + 1] + s[i + 1..]
  {
  }

  lemma UnmarkedSplit(list: seq<Entry>, i: nat)
    requires i < |list|
    ensures Unmarked(list) == Unmarked(list[..i]) + Kept(list[i]) + Unmarked(list[i + 1..])
    ensures Unmarked(list[..i + 1]) == Unmarked(list[..i]) + Kept(list[i])
  {
    hide Unmarked, ClosedMarked, Kept;
    UnmarkedOne(list[i]);
    CutAt(list, i);
    UnmarkedConcat(list[..i], [list[i]]);
    UnmarkedConcat(list[..i + 1], list[i + 1..]);
  }

  /** Removal keeps every unmarked entry and the order: the one at i moves to the place that
      counts the unmarked entries in front of it, and so stays in front of any later j. */
  lemma RemovalKeepsUnmarked(list: seq<Entry>, i: nat, j: nat)
    requires i < j <= |list| && !list[i].client.marked
    ensures |Unmarked(list[..i])| < |Unmarked(list[..j])| <= |Unmarked(list)|
    ensures Unmarked(list)[|Unmarked(list[..i])|] == list[i]
  {
    hide Unmarked, ClosedMarked;
    assert list[..j][..i] == list[..i];
    UnmarkedSplit(list, i);
    UnmarkedSplit(list[..j], i);
    assert list == list[..j] + list[j..];
    UnmarkedConcat(list[..j], list[j..]);
  }

  /** Removal keeps nothing else: every place holds the unmarked entry that moved there. */
  lemma RemovalKeepsOnlyUnmarked(list: seq<Entry>, p: nat) returns (i: nat)
    requires p < |Unmarked(list)|
    ensures i < |list| && !list[i].client.marked && |Unmarked(list[..i])| == p && Unmarked(list)[p] == list[i]
  {
    hide Unmarked;
    assert list[..|list|] == list;
    i := PlaceFilled(list, p, |list|);
    UnmarkedSplit(list, i);
  }

  lemma {:induction false} PlaceFilled(list: seq<Entry>, p: nat, n: nat) returns (i: nat)
    requires n <= |list| && p < |Unmarked(list[..n])|
    ensures i < n && !list[i].client.marked && |Unmarked(list[..i])| == p
  {
    UnmarkedSplit(list, n - 1);
    if p < |Unmarked(list[..n - 1])| {
      i := PlaceFilled(list, p, n - 1);
    } else {
      i := n - 1;
    }
  }

  /** Removal closes the sockets of the marked entries and no others. */
  lemma {:induction false} RemovalClosesMarked(list: seq<Entry>, fd: int)
    ensures Closed(fd) in ClosedMarked(list)
            <==> exists i | 0 <= i < |list| :: list[i].client.marked && list[i].client.sock == fd
  {
    if list != [] {
      RemovalClosesMarked(list[1..], fd);
      assert forall i | 0 < i < |list| :: list[i] == list[1..][i - 1];
      assert forall i | 0 <= i < |list[1..]| :: list[1..][i] == list[i + 1];
    }
  }

  /** Closing the marked entries' sockets leaves exactly the kept entries' sockets open. */
  lemma {:induction false} SweepFds(fds: seq<FdEvent>, list: seq<Entry>, others: set<int>)
    requires OpenAfter(fds) == Some(others + Elements(Socks(list)))
    requires Distinct(Socks(list)) && others !! Elements(Socks(list))
    ensures OpenAfter(fds + ClosedMarked(list)) == Some(others + Elements(Socks(Unmarked(list))))
    ensures Distinct(Socks(Unmarked(list))) && Elements(Socks(Unmarked(list))) <= Elements(Socks(list))
    decreases |list|
  {
    hide OpenAfter;
    if list == [] {
      assert fds + ClosedMarked(list) == fds;
    } else {
      var sock, rest := list[0].client.sock, list[1..];
      SocksOfCons(list[0], rest);
      assert list == [list[0]] + rest;
      if list[0].client.marked {
        OpenSnoc(fds, Closed(sock));
        assert others + Elements(Socks(list)) - {sock} == others + Elements(Socks(rest));
        SweepFds(fds + [Closed(sock)], rest, others);
        assert fds + ClosedMarked(list) == fds + [Closed(sock)] + ClosedMarked(rest);
      } else {
        assert others + {sock} + Elements(Socks(rest)) == others + Elements(Socks(list));
        SweepFds(fds, rest, others + {sock});
        SocksOfCons(list[0], Unmarked(rest));
        assert others + {sock} + Elements(Socks(Unmarked(rest))) == others + Elements(Socks(Unmarked(list)));
      }
    }
  }

  lemma SocksOfCons(e: Entry, rest: seq<Entry>)
    ensures Socks([e] + rest) == [e.client.sock] + Socks(rest)
    ensures Elements(Socks([e] + rest)) == {e.client.sock} + Elements(Socks(rest))
    ensures Distinct(Socks([e] + rest)) <==>
              Distinct(Socks(rest)) && e.client.sock !in Elements(Socks(rest))
  {
    var s, t := Socks([e] + rest), Socks(rest);
    assert s == [e.client.sock] + t;
    if Distinct(s) {
      forall i, j | 0 <= i < j < |t| ensures t[i] != t[j] {
        assert s[i + 1] == t[i] && s[j + 1] == t[j];
      }
      forall i | 0 <= i < |t| ensures t[i] != e.client.sock {
        assert s[0] != s[i + 1];
      }
    }
  }

  lemma {:induction false} CloseFds(fds: seq<FdEvent>, list: seq<Entry>)
    requires OpenAfter(fds) == Some(Elements(Socks(list))) && Distinct(Socks(list))
    ensures OpenAfter(fds + Closing(list)) == Some({})
    decreases |list|
  {
    hide OpenAfter;
    if list == [] {
      assert fds + Closing(list) == fds;
      assert Elements(Socks(list)) == {};
    } else {
      var sock, rest := list[0].client.sock, list[1..];
      assert list == [list[0]] + rest;
      SocksOfCons(list[0], rest);
      OpenSnoc(fds, Closed(sock));
      assert Elements(Socks(list)) - {sock} == Elements(Socks(rest));
      CloseFds(fds + [Closed(sock)], rest);
      assert fds + Closing(list) == fds + [Closed(sock)] + Closing(rest);
    }
  }

  lemma StepKeepsRegistry(s: Server, step: Step)
    requires RegistryOk(s) && Enabled(s, step)
    ensures RegistryOk(Apply(s, step))
    ensures step.CloseAll? ==> Apply(s, step).list == [] && OpenAfter(Apply(s, step).fds) == Some({})
  {
    hide OpenAfter, Modern;
    var t := Apply(s, step);
    match step
    case Accept(fd) =>
      OpenSnoc(s.fds, Opened(fd));
      assert Socks(t.list) == Socks(s.list) + [fd];
      assert Elements(Socks(t.list)) == Elements(Socks(s.list)) + {fd};
    case Sweep(_) =>
      assert {} + Elements(Socks(s.list)) == Elements(Socks(s.list));
      SweepFds(s.fds, s.list, {});
      assert {} + Elements(Socks(t.list)) == Elements(Socks(t.list));
    case CloseAll =>
      CloseFds(s.fds, s.list);
      assert Elements(Socks(t.list)) == {};
    case Handle(hs) =>
      assert Socks(t.list) == Socks(s.list);
    case Send(frame, call, how) =>
      assert Socks(t.list) == Socks(s.list);
  }

  // ---- every run ----

  /** The state after the steps, None when one of them was not enabled. */
  function Run(s: Server, steps: seq<Step>): Option<Server>
    decreases |steps|
  {
    if steps == [] then Some(s)
    else if !Enabled(s, steps[0]) then None
    else Run(Apply(s, steps[0]), steps[1..])
  }

  lemma {:induction false} RunKeeps(s: Server, steps: seq<Step>)
    requires StreamsOk(s) && RegistryOk(s) && Run(s, steps).Some?
    ensures StreamsOk(Run(s, steps).value) && RegistryOk(Run(s, steps).value)
    decreases |steps|
  {
    hide StreamsOk, RegistryOk, Apply, Enabled;
    if steps != [] {
      StepKeepsStreams(s, steps[0]);
      StepKeepsRegistry(s, steps[0]);
      RunKeeps(Apply(s, steps[0]), steps[1..]);
    }
  }

  /** Over every interleaving: the open client sockets are exactly those in the list, each was
      closed at most once per opening, and whenever the broadcasting thread is not between its
      sends and its removals, every version-3 client has been sent exactly one contiguous slice
      of the broadcast log, the one from its becoming a version-3 client up to now, in whole
      frames. */
  lemma EveryRun(steps: seq<Step>)
    requires Run(Initial(), steps).Some?
    ensures var s := Run(Initial(), steps).value;
            && RegistryOk(s)
            && (forall e | e in s.list && Modern(e.client.version) ::
                  && e.hist.since <= |s.log|
                  && e.hist.stream <= Concat(s.log[e.hist.since..])
                  && (!s.sweeping ==> e.hist.stream == Concat(s.log[e.hist.since..])))
  {
    hide Run, Concat;
    assert Socks([]) == [] && Elements([]) == {};
    RunKeeps(Initial(), steps);
    var s := Run(Initial(), steps).value;
    forall e | e in s.list && Modern(e.client.version)
      ensures e.hist.since <= |s.log| && e.hist.stream <= Concat(s.log[e.hist.since..])
      ensures !s.sweeping ==> e.hist.stream == Concat(s.log[e.hist.since..])
    {
      var i :| 0 <= i < |s.list| && s.list[i] == e;
      assert EntryOk(s.list[i], s.log, s.sweeping);
    }
  }

  predicate ListenerStep(step: Step) {
    step.Accept? || step.Handle? || (step.Sweep? && !step.broadcaster)
  }

  lemma {:induction false} ListenerKeepsLog(s: Server, steps: seq<Step>)
    requires (forall i | 0 <= i < |steps| :: ListenerStep(steps[i])) && Run(s, steps).Some?
    ensures Run(s, steps).value.log == s.log && Run(s, steps).value.sweeping == s.sweeping
    decreases |steps|
  {
    if steps != [] {
      ListenerKeepsLog(Apply(s, steps[0]), steps[1..]);
    }
  }

  lemma {:induction false} RunConcat(s: Server, a: seq<Step>, b: seq<Step>)
    ensures Run(s, a + b) == if Run(s, a).None? then None else Run(Run(s, a).value, b)
    decreases |a|
  {
    hide Apply, Enabled;
    if a == [] {
      assert a + b == b;
    } else {
      assert (a + b)[1..] == a[1..] + b;
      if Enabled(s, a[0]) {
        RunConcat(Apply(s, a[0]), a[1..], b);
      }
    }
  }

  lemma RunNothing(s: Server)
    ensures Run(s, []) == Some(s)
  {
  }

  lemma RunOne(s: Server, step: Step)
    ensures Run(s, [step]) == if Enabled(s, step) then Some(Apply(s, step)) else None
  {
    hide Apply, Enabled;
    assert [step][1..] == [];
  }

  /** What a listed entry has been sent, once the frame behind `log` has been broadcast and the
      marked clients are gone. */
  predicate Delivered(e: Entry, log: seq<bytes>, frame: bytes) {
    && !e.client.marked
    && (Modern(e.client.version) ==>
        if e.hist.since <= |log| then e.hist.stream == Concat(log[e.hist.since..]) + frame
        else e.hist.stream == [])
  }

  /** Between broadcasts a version-3 client has been sent all frames logged since it became one. */
  lemma SettledEntry(s: Server, i: nat)
    requires StreamsOk(s) && !s.sweeping && i < |s.list| && Modern(s.list[i].client.version)
    ensures var h := s.list[i].hist; h.since <= |s.log| && h.stream == Concat(s.log[h.since..])
  {
    hide Concat, Modern;
    assert EntryOk(s.list[i], s.log, s.sweeping);
  }

  lemma SweepDelivers(u: Server, log: seq<bytes>, frame: bytes)
    requires StreamsOk(u) && u.log == log + [frame]
    ensures forall e | e in Unmarked(u.list) :: Delivered(e, log, frame)
  {
    hide Modern, Concat, Unmarked;
    UnmarkedKeeps(u.list, u.log, u.sweeping, false);
    forall e | e in Unmarked(u.list) ensures Delivered(e, log, frame) {
      var i :| 0 <= i < |Unmarked(u.list)| && Unmarked(u.list)[i] == e;
      assert EntryOk(Unmarked(u.list)[i], u.log, false);
      ConcatSnoc(log, if e.hist.since <= |log| then e.hist.since else 0, frame);
    }
  }

  /** One broadcast, with any steps of the listening thread between its sends and its removals:
      afterwards no listed client is marked, and every listed version-3 client either has been
      sent exactly this one whole frame behind what it had, or became a version-3 client after
      the sends. Whoever got less is gone. */
  lemma BroadcastDelivers(s: Server, send: Step, listener: seq<Step>)
    requires StreamsOk(s) && RegistryOk(s) && send.Send?
    requires forall i | 0 <= i < |listener| :: ListenerStep(listener[i])
    requires Run(s, [send] + listener + [Sweep(true)]).Some?
    ensures var t := Run(s, [send] + listener + [Sweep(true)]).value;
            && t.log == s.log + [send.frame] && !t.sweeping
            && forall e | e in t.list :: Delivered(e, s.log, send.frame)
  {
    hide Delivered, StreamsOk, RegistryOk, Enabled;
    var steps := [send] + listener;
    assert steps[1..] == listener;
    RunConcat(s, steps, [Sweep(true)]);
    ListenerKeepsLog(Apply(s, send), listener);
    RunKeeps(s, steps);
    var u := Run(s, steps).value;
    RunOne(u, Sweep(true));
    SweepDelivers(u, s.log, send.frame);
  }

  // ---- what becomes of a listed client ----

  /** Along the steps the client with the socket sends a message that is handled in this way. */
  ghost predicate Hears(s: Server, steps: seq<Step>, fd: int, what: Handling -> bool)
    requires Run(s, steps).Some?
    decreases |steps|
  {
    steps != [] && (HearsNow(s, steps[0], fd, what) || Hears(Apply(s, steps[0]), steps[1..], fd, what))
  }

  ghost predicate HearsNow(s: Server, step: Step, fd: int, what: Handling -> bool)
    requires Enabled(s, step)
  {
    step.Handle? && exists k | 0 <= k < |s.list| :: s.list[k].client.sock == fd && what(step.handlings[k])
  }

  function Quits(): Handling -> bool {
    (how: Handling) => how.Leaves?
  }

  function Demotes(): Handling -> bool {
    (how: Handling) => how.Reports? && !Modern(how.version)
  }

  /** An unmarked entry with the socket is listed; as a version-3 client with this history, if
      one is given. */
  predicate Listed(s: Server, fd: int, hist: Option<History>) {
    exists j | 0 <= j < |s.list| :: Sits(s.list[j], fd, hist)
  }

  predicate Sits(e: Entry, fd: int, hist: Option<History>) {
    && e.client.sock == fd && !e.client.marked
    && (hist.Some? ==> Modern(e.client.version) && e.hist == hist.value)
  }

  /** A marked entry with the socket is listed. */
  predicate Doomed(s: Server, fd: int) {
    exists j | 0 <= j < |s.list| :: s.list[j].client.marked && s.list[j].client.sock == fd
  }

  predicate ClosedBetween(s: Server, t: Server, fd: int) {
    s.fds <= t.fds && Closed(fd) in t.fds[|s.fds|..]
  }

  /** One step of the listening thread, for a client that is listed. */
  lemma ListenerStepListed(s: Server, step: Step, fd: int, hist: Option<History>)
    requires RegistryOk(s) && Enabled(s, step) && ListenerStep(step) && Listed(s, fd, hist)
    ensures var t := Apply(s, step);
            && s.fds <= t.fds && !ClosedBetween(s, t, fd)
            && (HearsNow(s, step, fd, Quits()) ==> Doomed(t, fd))
            && (!HearsNow(s, step, fd, Quits()) ==>
                  Listed(t, fd, if HearsNow(s, step, fd, Demotes()) then None else hist))
  {
    hide Modern, OpenAfter, Unmarked, ClosedMarked, Hears;
    var t := Apply(s, step);
    var j :| 0 <= j < |s.list| && Sits(s.list[j], fd, hist);
    OnlyOne(s, fd, j);
    match step
    case Accept(other) =>
      assert t.list[j] == s.list[j];
    case Sweep(_) =>
      SweepListed(s, step.broadcaster, fd, hist, j);
    case Handle(hs) =>
      assert t.list[j] == HandleOne(s.list[j], hs[j], |s.log|);
      HandleListed(s.list[j], hs[j], |s.log|, fd, hist);
  }

  lemma HandleListed(e: Entry, how: Handling, now: nat, fd: int, hist: Option<History>)
    requires Sits(e, fd, hist)
    ensures var r := HandleOne(e, how, now);
            && (Quits()(how) ==> r.client.marked && r.client.sock == fd)
            && (!Quits()(how) ==> Sits(r, fd, if Demotes()(how) then None else hist))
  {
    hide Modern;
  }

  lemma OnlyOne(s: Server, fd: int, j: nat)
    requires RegistryOk(s) && j < |s.list| && s.list[j].client.sock == fd
    ensures forall k | 0 <= k < |s.list| && s.list[k].client.sock == fd :: k == j
  {
    assert forall k | 0 <= k < |s.list| :: Socks(s.list)[k] == s.list[k].client.sock;
  }

  lemma SweepListed(s: Server, broadcaster: bool, fd: int, hist: Option<History>, j: nat)
    requires RegistryOk(s) && j < |s.list| && Sits(s.list[j], fd, hist)
    ensures var t := Apply(s, Sweep(broadcaster));
            s.fds <= t.fds && !ClosedBetween(s, t, fd) && Listed(t, fd, hist)
  {
    hide RegistryOk, Unmarked, ClosedMarked, Modern;
    OnlyOne(s, fd, j);
    RemovalKeepsUnmarked(s.list, j, |s.list|);
    assert Sits(Unmarked(s.list)[|Unmarked(s.list[..j])|], fd, hist);
    RemovalClosesMarked(s.list, fd);
  }

  lemma SweepDoomed(s: Server, broadcaster: bool, fd: int)
    requires Doomed(s, fd)
    ensures ClosedBetween(s, Apply(s, Sweep(broadcaster)), fd)
  {
    hide Unmarked, ClosedMarked;
    RemovalClosesMarked(s.list, fd);
  }

  /** One step of the listening thread, for a client that is marked. */
  lemma ListenerStepDoomed(s: Server, step: Step, fd: int)
    requires Enabled(s, step) && ListenerStep(step) && Doomed(s, fd)
    ensures var t := Apply(s, step); s.fds <= t.fds && (Doomed(t, fd) || ClosedBetween(s, t, fd))
  {
    hide Modern, Unmarked, ClosedMarked;
    var j :| 0 <= j < |s.list| && s.list[j].client.marked && s.list[j].client.sock == fd;
    match step
    case Sweep(_) => SweepDoomed(s, step.broadcaster, fd);
    case Accept(_) => assert Apply(s, step).list[j] == s.list[j];
    case Handle(hs) => assert Apply(s, step).list[j] == HandleOne(s.list[j], hs[j], |s.log|);
  }

  lemma ClosedLater(s: Server, u: Server, t: Server, fd: int)
    requires s.fds <= u.fds <= t.fds
    ensures ClosedBetween(s, t, fd) <==> ClosedBetween(s, u, fd) || ClosedBetween(u, t, fd)
  {
    assert t.fds[|s.fds|..] == u.fds[|s.fds|..] + t.fds[|u.fds|..];
  }

  lemma {:induction false} ListenerRunDoomed(s: Server, steps: seq<Step>, fd: int)
    requires (forall i | 0 <= i < |steps| :: ListenerStep(steps[i])) && Run(s, steps).Some?
    ensures var t := Run(s, steps).value;
            s.fds <= t.fds && (Doomed(s, fd) ==> Doomed(t, fd) || ClosedBetween(s, t, fd))
    decreases |steps|
  {
    hide Apply, Enabled, Doomed, ClosedBetween;
    if steps != [] {
      var u := Apply(s, steps[0]);
      ListenerStepGrows(s, steps[0]);
      ListenerRunDoomed(u, steps[1..], fd);
      ClosedLater(s, u, Run(s, steps).value, fd);
      if Doomed(s, fd) {
        ListenerStepDoomed(s, steps[0], fd);
      }
    }
  }

  lemma ListenerStepGrows(s: Server, step: Step)
    requires Enabled(s, step) && ListenerStep(step)
    ensures s.fds <= Apply(s, step).fds
  {
  }

  lemma {:induction false} ListenerRunListed(s: Server, steps: seq<Step>, fd: int, hist: Option<History>)
    requires (forall i | 0 <= i < |steps| :: ListenerStep(steps[i])) && Run(s, steps).Some?
    requires RegistryOk(s) && Listed(s, fd, hist)
    ensures var t := Run(s, steps).value;
            && s.fds <= t.fds
            && (Hears(s, steps, fd, Quits()) ==> Doomed(t, fd) || ClosedBetween(s, t, fd))
            && (!Hears(s, steps, fd, Quits()) ==>
                  && !ClosedBetween(s, t, fd)
                  && Listed(t, fd, if Hears(s, steps, fd, Demotes()) then None else hist))
    decreases |steps|
  {
    hide Apply, Enabled, Doomed, Listed, HearsNow, RegistryOk;
    if steps != [] {
      var u := Apply(s, steps[0]);
      ListenerStepListed(s, steps[0], fd, hist);
      StepKeepsRegistry(s, steps[0]);
      ListenerRunDoomed(u, steps[1..], fd);
      if !HearsNow(s, steps[0], fd, Quits()) {
        ListenerRunListed(u, steps[1..], fd, if HearsNow(s, steps[0], fd, Demotes()) then None else hist);
      }
      ClosedLater(s, u, Run(s, steps).value, fd);
    }
  }

  /** The kernel took less than it was given: of a frame, or of a legacy message of 1409 bytes,
      which no call is told in; a failed legacy send is not noticed. */
  predicate Short(how: Sending, frame: bytes, call: bool) {
    match how
    case Took(n) => n < |frame|
    case Returned(rc) => !call && 0 <= rc < 1409
  }

  /** Each client that is listed when a broadcast takes the lock either stays, a version-3 client
      with the one whole frame added, or is removed and its socket closed: it stays if and only
      if it was not marked, the kernel did not take less than it was given, and no step of the
      listening thread before the removal made it leave. */
  lemma BroadcastSplits(s: Server, send: Step, listener: seq<Step>, i: nat)
    requires StreamsOk(s) && RegistryOk(s) && send.Send?
    requires forall k | 0 <= k < |listener| :: ListenerStep(listener[k])
    requires Enabled(s, send) && Run(Apply(s, send), listener).Some? && i < |s.list|
    ensures var u := Apply(s, send);
            var t := Apply(Run(u, listener).value, Sweep(true));
            var e, fd := s.list[i], s.list[i].client.sock;
            var stays := !e.client.marked && !Short(send.sendings[i], send.frame, send.call)
                         && !Hears(u, listener, fd, Quits());
            && (ClosedBetween(s, t, fd) <==> !stays)
            && (stays ==> Listed(t, fd,
                  if !Modern(e.client.version) || Hears(u, listener, fd, Demotes()) then None
                  else Some(History(e.hist.since, e.hist.stream + send.frame, false))))
  {
    hide Modern, Hears, Run, StreamsOk, RegistryOk, Unmarked, ClosedMarked;
    var u, e, fd := Apply(s, send), s.list[i], s.list[i].client.sock;
    var v := Run(u, listener).value;
    var t := Apply(v, Sweep(true));
    StepKeepsRegistry(s, send);
    RunKeepsRegistry(u, listener);
    ListenerRunDoomed(u, listener, fd);
    SendSplits(s, send, i);
    if !e.client.marked && !Short(send.sendings[i], send.frame, send.call) {
      var hist := if Modern(e.client.version) then Some(History(e.hist.since, e.hist.stream + send.frame, false))
                  else None;
      ListenerRunListed(u, listener, fd, hist);
      if !Hears(u, listener, fd, Quits()) {
        var h := if Hears(u, listener, fd, Demotes()) then None else hist;
        var j :| 0 <= j < |v.list| && Sits(v.list[j], fd, h);
        SweepListed(v, true, fd, h, j);
      }
    }
    if Doomed(v, fd) {
      SweepDoomed(v, true, fd);
    }
    ClosedLater(s, v, t, fd);
  }

  lemma {:induction false} RunKeepsRegistry(s: Server, steps: seq<Step>)
    requires RegistryOk(s) && Run(s, steps).Some?
    ensures RegistryOk(Run(s, steps).value)
    decreases |steps|
  {
    hide RegistryOk, Apply, Enabled;
    if steps != [] {
      StepKeepsRegistry(s, steps[0]);
      RunKeepsRegistry(Apply(s, steps[0]), steps[1..]);
    }
  }

  /** The locked send loop either leaves a client listed, a version-3 client with the frame added
      to its stream, or marks it. */
  lemma SendSplits(s: Server, send: Step, i: nat)
    requires StreamsOk(s) && send.Send? && Enabled(s, send) && i < |s.list|
    ensures var u := Apply(s, send);
            var e, fd := s.list[i], s.list[i].client.sock;
            if !e.client.marked && !Short(send.sendings[i], send.frame, send.call)
            then Listed(u, fd, if Modern(e.client.version)
                               then Some(History(e.hist.since, e.hist.stream + send.frame, false)) else None)
            else Doomed(u, fd)
  {
    hide Modern;
    var u, e := Apply(s, send), s.list[i];
    assert u.list[i] == SendOne(e, send.frame, send.call, send.sendings[i]);
    assert EntryOk(e, s.log, s.sweeping);
    assert SendingFits(e, send.frame, send.sendings[i]);
    assert Modern(e.client.version) && !Short(send.sendings[i], send.frame, send.call) ==>
        send.frame[..send.sendings[i].bytes] == send.frame;
  }

  /** A version-3 client that the send loop leaves unmarked was one before, and got the frame. */
  lemma WholeFrame(s: Server, frame: bytes, call: bool, sendings: seq<Sending>, i: nat)
    requires Enabled(s, Send(frame, call, sendings)) && i < |s.list|
    requires var e := Apply(s, Send(frame, call, sendings)).list[i]; !e.client.marked && Modern(e.client.version)
    ensures var e := Apply(s, Send(frame, call, sendings)).list[i];
            && !s.list[i].client.marked && Modern(s.list[i].client.version) && e.hist.since == s.list[i].hist.since
            && e.hist.stream == s.list[i].hist.stream + frame
  {
    hide Modern;
    assert SendingFits(s.list[i], frame, sendings[i]);
  }

  // ---- a client that keeps listening is served ----

  /** Along the steps a send to the client with the socket falls short. */
  ghost predicate FallsShort(s: Server, steps: seq<Step>, fd: int)
    requires Run(s, steps).Some?
    decreases |steps|
  {
    steps != [] && (ShortNow(s, steps[0], fd) || FallsShort(Apply(s, steps[0]), steps[1..], fd))
  }

  ghost predicate ShortNow(s: Server, step: Step, fd: int)
    requires Enabled(s, step)
  {
    step.Send? && exists k | 0 <= k < |s.list| ::
      s.list[k].client.sock == fd && Short(step.sendings[k], step.frame, step.call)
  }

  /** The history behind some more frames. */
  function Longer(h: History, frames: seq<bytes>): History {
    h.(stream := h.stream + Concat(frames))
  }

  lemma LogGrows(s: Server, step: Step)
    requires Enabled(s, step)
    ensures Apply(s, step).log == s.log + if step.Send? then [step.frame] else []
  {
  }

  /** One step of either thread, for a version-3 client that listens on. */
  lemma StepServes(s: Server, step: Step, fd: int, h: History)
    requires StreamsOk(s) && RegistryOk(s) && Enabled(s, step) && !step.CloseAll?
    requires Listed(s, fd, Some(h))
    requires !HearsNow(s, step, fd, Quits()) && !HearsNow(s, step, fd, Demotes()) && !ShortNow(s, step, fd)
    ensures Listed(Apply(s, step), fd, Some(if step.Send? then h.(stream := h.stream + step.frame) else h))
  {
    hide Modern, StreamsOk, RegistryOk, Unmarked, ClosedMarked;
    var j :| 0 <= j < |s.list| && Sits(s.list[j], fd, Some(h));
    if step.Send? {
      UntornEntry(s, j);
      SendSplits(s, step, j);
    } else if step.Sweep? {
      SweepListed(s, step.broadcaster, fd, Some(h), j);
    } else {
      ListenerStepListed(s, step, fd, Some(h));
    }
  }

  lemma UntornEntry(s: Server, j: nat)
    requires StreamsOk(s) && j < |s.list| && !s.list[j].client.marked
    ensures !s.list[j].hist.torn
  {
    assert EntryOk(s.list[j], s.log, s.sweeping);
  }

  /** A version-3 client that is listed, neither leaves nor demotes itself, and takes what it is
      sent, has every further frame of the log added to its stream. */
  lemma {:induction false} ListenerIsServed(s: Server, steps: seq<Step>, fd: int, h: History)
    requires StreamsOk(s) && RegistryOk(s) && Run(s, steps).Some? && Listed(s, fd, Some(h))
    requires forall i | 0 <= i < |steps| :: !steps[i].CloseAll?
    requires !Hears(s, steps, fd, Quits()) && !Hears(s, steps, fd, Demotes()) && !FallsShort(s, steps, fd)
    ensures var t := Run(s, steps).value;
            s.log <= t.log && Listed(t, fd, Some(Longer(h, t.log[|s.log|..])))
    decreases |steps|
  {
    hide StreamsOk, RegistryOk, Apply, Enabled, Listed, HearsNow, ShortNow, Concat;
    if steps == [] {
      NothingMore(h, s.log);
    } else {
      var step := steps[0];
      var u := Apply(s, step);
      var g := if step.Send? then h.(stream := h.stream + step.frame) else h;
      StepServes(s, step, fd, h);
      StepKeepsStreams(s, step);
      StepKeepsRegistry(s, step);
      ListenerIsServed(u, steps[1..], fd, g);
      LogGrows(s, step);
      MoreFrames(h, s.log, if step.Send? then [step.frame] else [], Run(s, steps).value.log);
    }
  }

  lemma NothingMore(h: History, log: seq<bytes>)
    ensures Longer(h, log[|log|..]) == h
  {
    assert log[|log|..] == [] && Concat([]) == [];
  }

  lemma MoreFrames(h: History, log: seq<bytes>, next: seq<bytes>, after: seq<bytes>)
    requires log + next <= after && |next| <= 1
    ensures log <= after
    ensures Longer(h, after[|log|..])
         == Longer(if next == [] then h else h.(stream := h.stream + next[0]), after[|log + next|..])
  {
    if next != [] {
      ConcatCons(after[|log|..]);
      assert after[|log|..][1..] == after[|log + next|..] && after[|log|..][0] == next[0];
    }
  }

  lemma {:induction false} ConcatCons(frames: seq<bytes>)
    requires frames != []
    ensures Concat(frames) == frames[0] + Concat(frames[1..])
  {
    if |frames| > 1 {
      var n := |frames| - 1;
      ConcatCons(frames[..n]);
      assert frames[..n][1..] == frames[1..][..n - 1];
    } else {
      assert frames[..0] == [] && frames[1..] == [];
    }
  }

  /** A listed, unmarked client that reports version 3.0.0 or later is from then on sent every
      frame that is broadcast, until it leaves, demotes itself, or does not take a frame whole:
      a legacy client starts with nothing at that moment, a version-3 client goes on. */
  lemma ReportingClientIsServed(s: Server, hs: seq<Handling>, i: nat, steps: seq<Step>)
    requires StreamsOk(s) && RegistryOk(s) && Enabled(s, Handle(hs)) && i < |s.list|
    requires !s.list[i].client.marked && hs[i].Reports? && Modern(hs[i].version)
    requires Run(Apply(s, Handle(hs)), steps).Some? && forall k | 0 <= k < |steps| :: !steps[k].CloseAll?
    requires var u, fd := Apply(s, Handle(hs)), s.list[i].client.sock;
             !Hears(u, steps, fd, Quits()) && !Hears(u, steps, fd, Demotes()) && !FallsShort(u, steps, fd)
    ensures var t := Run(Apply(s, Handle(hs)), steps).value;
            var e := s.list[i];
            var h := if Modern(e.client.version) then e.hist else History(|s.log|, [], false);
            s.log <= t.log && Listed(t, e.client.sock, Some(Longer(h, t.log[|s.log|..])))
  {
    hide Modern, StreamsOk, RegistryOk, Run, Hears, FallsShort, Longer;
    var u, e := Apply(s, Handle(hs)), s.list[i];
    var h := if Modern(e.client.version) then e.hist else History(|s.log|, [], false);
    UntornEntry(s, i);
    assert u.list[i] == HandleOne(e, hs[i], |s.log|);
    assert Sits(u.list[i], e.client.sock, Some(h));
    StepKeepsStreams(s, Handle(hs));
    StepKeepsRegistry(s, Handle(hs));
    ListenerIsServed(u, steps, e.client.sock, h);
  }

  // ---- a client that is accepted stays ----

  /** What each step needs: accepting a descriptor that is not open, an outcome for each listed
      client, and for sending and closing that no removal is outstanding. */
  lemma Permitted(s: Server, fd: int, hs: seq<Handling>, broadcaster: bool)
    ensures Enabled(s, Accept(fd)) <==> forall i | 0 <= i < |s.list| :: s.list[i].client.sock != fd
    ensures Enabled(s, Handle(hs)) <==> |hs| == |s.list|
    ensures Enabled(s, Sweep(broadcaster)) && (Enabled(s, CloseAll) <==> !s.sweeping)
  {
    assert forall i | 0 <= i < |s.list| :: Socks(s.list)[i] == s.list[i].client.sock;
  }

  /** An accepted client is the last on the list, unmarked, as version 2.0.0, and has been sent
      nothing; nothing else changes. */
  lemma AcceptLists(s: Server, fd: int)
    requires Enabled(s, Accept(fd))
    ensures var t := Apply(s, Accept(fd));
            && |t.list| == |s.list| + 1 && t.list[..|s.list|] == s.list
            && (var e := t.list[|s.list|];
                && e.client.sock == fd && !e.client.marked && e.client.version == 0x02_0000
                && !Modern(e.client.version) && e.hist.stream == [])
            && t.log == s.log && t.sweeping == s.sweeping && t.fds == s.fds + [Opened(fd)]
  {
  }

  /** What the messages of a handling step do, entry by entry: one that leaves is marked, one that
      reports has that version from then on, and its stream begins anew when it becomes a
      version-3 client by it; nothing else changes. */
  lemma HandleLists(s: Server, hs: seq<Handling>, i: nat)
    requires Enabled(s, Handle(hs)) && i < |s.list|
    ensures var t := Apply(s, Handle(hs));
            var e, f := s.list[i], t.list[i];
            && |t.list| == |s.list| && t.log == s.log && t.fds == s.fds && t.sweeping == s.sweeping
            && f.client.sock == e.client.sock
            && (f.client.marked <==> e.client.marked || hs[i].Leaves?)
            && f.client.version == (if hs[i].Reports? then hs[i].version else e.client.version)
            && (if !Modern(e.client.version) && Modern(f.client.version) then f.hist.stream == [] else f.hist == e.hist)
  {
  }

  function Reporting(): Handling -> bool {
    (how: Handling) => how.Reports?
  }

  /** An unmarked entry with the socket is listed, of version 2.0.0 if so asked. */
  predicate OnList(s: Server, fd: int, legacy: bool) {
    exists j | 0 <= j < |s.list| :: Stands(s.list[j], fd, legacy)
  }

  predicate Stands(e: Entry, fd: int, legacy: bool) {
    e.client.sock == fd && !e.client.marked && (legacy ==> e.client.version == 0x02_0000)
  }

  lemma StepKeepsListed(s: Server, step: Step, fd: int, legacy: bool)
    requires RegistryOk(s) && Enabled(s, step) && !step.CloseAll? && OnList(s, fd, legacy)
    requires !HearsNow(s, step, fd, Quits()) && !ShortNow(s, step, fd)
    ensures OnList(Apply(s, step), fd, legacy && !HearsNow(s, step, fd, Reporting()))
  {
    hide Modern, Unmarked, ClosedMarked, RegistryOk;
    var t := Apply(s, step);
    var j :| 0 <= j < |s.list| && Stands(s.list[j], fd, legacy);
    match step
    case Accept(_) => assert t.list[j] == s.list[j];
    case Sweep(_) =>
      RemovalKeepsUnmarked(s.list, j, |s.list|);
      assert Stands(t.list[|Unmarked(s.list[..j])|], fd, legacy);
    case Handle(hs) =>
      assert t.list[j] == HandleOne(s.list[j], hs[j], |s.log|);
      assert !Quits()(hs[j]);
      assert legacy && !HearsNow(s, step, fd, Reporting()) ==> !Reporting()(hs[j]);
    case Send(frame, call, how) =>
      assert t.list[j] == SendOne(s.list[j], frame, call, how[j]);
      assert !Short(how[j], frame, call);
  }

  /** A listed client that does not leave and takes what it is sent stays listed and unmarked,
      and of version 2.0.0 as long as it does not report another. */
  lemma {:induction false} ClientStays(s: Server, steps: seq<Step>, fd: int, legacy: bool)
    requires RegistryOk(s) && Run(s, steps).Some? && OnList(s, fd, legacy)
    requires forall i | 0 <= i < |steps| :: !steps[i].CloseAll?
    requires !Hears(s, steps, fd, Quits()) && !FallsShort(s, steps, fd)
    ensures OnList(Run(s, steps).value, fd, legacy && !Hears(s, steps, fd, Reporting()))
    decreases |steps|
  {
    hide RegistryOk, Apply, Enabled, OnList, HearsNow, ShortNow;
    if steps != [] {
      StepKeepsListed(s, steps[0], fd, legacy);
      StepKeepsRegistry(s, steps[0]);
      ClientStays(Apply(s, steps[0]), steps[1..], fd, legacy && !HearsNow(s, steps[0], fd, Reporting()));
    }
  }

  /** From its being accepted, a client stays listed and unmarked over any steps in which it does
      not leave and takes what it is sent, until all clients are closed. */
  lemma AcceptedClientStays(s: Server, fd: int, steps: seq<Step>)
    requires RegistryOk(s) && Enabled(s, Accept(fd)) && Run(Apply(s, Accept(fd)), steps).Some?
    requires forall i | 0 <= i < |steps| :: !steps[i].CloseAll?
    requires var u := Apply(s, Accept(fd)); !Hears(u, steps, fd, Quits()) && !FallsShort(u, steps, fd)
    ensures var u := Apply(s, Accept(fd)); OnList(Run(u, steps).value, fd, !Hears(u, steps, fd, Reporting()))
  {
    hide RegistryOk, Run, Hears, FallsShort, Modern;
    var u := Apply(s, Accept(fd));
    AcceptLists(s, fd);
    assert Stands(u.list[|s.list|], fd, true);
    StepKeepsRegistry(s, Accept(fd));
    ClientStays(u, steps, fd, true);
  }

  /** And once it reports version 3.0.0 or later it is sent every further frame: accepted, some
      steps, the report, some more steps. If that is its first report, its stream begins there. */
  lemma AcceptedReporterIsServed(s: Server, fd: int, before: seq<Step>, hs: seq<Handling>, i: nat, later: seq<Step>)
    requires StreamsOk(s) && RegistryOk(s) && Enabled(s, Accept(fd))
    requires forall k | 0 <= k < |before| :: !before[k].CloseAll?
    requires forall k | 0 <= k < |later| :: !later[k].CloseAll?
    requires Run(Apply(s, Accept(fd)), before).Some?
    requires var u := Apply(s, Accept(fd)); !Hears(u, before, fd, Quits()) && !FallsShort(u, before, fd)
    requires var v := Run(Apply(s, Accept(fd)), before).value;
             && Enabled(v, Handle(hs)) && i < |v.list| && v.list[i].client.sock == fd
             && hs[i].Reports? && Modern(hs[i].version) && Run(Apply(v, Handle(hs)), later).Some?
             && var w := Apply(v, Handle(hs));
                !Hears(w, later, fd, Quits()) && !Hears(w, later, fd, Demotes()) && !FallsShort(w, later, fd)
    ensures var v := Run(Apply(s, Accept(fd)), before).value;
            var t := Run(Apply(v, Handle(hs)), later).value;
            && v.log <= t.log
            && (exists h :: Listed(t, fd, Some(Longer(h, t.log[|v.log|..]))))
            && (!Hears(Apply(s, Accept(fd)), before, fd, Reporting()) ==>
                  Listed(t, fd, Some(Longer(History(|v.log|, [], false), t.log[|v.log|..]))))
  {
    hide RegistryOk, StreamsOk, Run, Hears, FallsShort, Longer, Modern;
    var u := Apply(s, Accept(fd));
    var v := Run(u, before).value;
    AcceptedClientStays(s, fd, before);
    var first := !Hears(u, before, fd, Reporting());
    var j :| 0 <= j < |v.list| && Stands(v.list[j], fd, first);
    StepKeepsRegistry(s, Accept(fd));
    StepKeepsStreams(s, Accept(fd));
    RunKeeps(u, before);
    OnlyOne(v, fd, j);
    assert first ==> !Modern(v.list[i].client.version) by { TwoIsLegacy(); TwoIsPacked(); }
    ReportingClientIsServed(v, hs, i, later);
  }

  lemma TwoIsPacked()
    ensures MakeVersion(2, 0, 0) == 0x02_0000
  {
  }
}
