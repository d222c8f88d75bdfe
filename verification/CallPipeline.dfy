/** What a call does: its broadcasts and its database record, over whole runs of the Fritz
    thread up to shutdown (main.c:143-259). */
module CallPipeline {
  import opened Machine
  import opened CallerCache
  import opened TextFiles
  import opened AreaCodes
  import opened AreaLookup

  /** `CIDataSet`. */
  datatype DataSet = DataSet(
    number: string, complete: string, name: string, date: string, time: string, msn: string,
    alias: string, service: string, fix: string, area: string, areacode: string)

  const EMPTY_SET := DataSet("", "", "", "", "", "", "", "", "", "", "")

  datatype Kind = Call | Ring | Connect | Disconnect
  datatype Notice = Notice(kind: Kind, calling: CString, called: string)

  /** What the rest of the world contributes to one call: the message id and the formatted date
      and time, the area directory, the alias lookup's result, the online answer, and whether the
      inserts into the caller cache and the call database succeed. */
  datatype World = World(
    id: string, shortDate: string, isoDate: string, time: string, directory: UsableDirectory, alias: string,
    online: Option<Details>, cached: bool, dbOk: bool)

  datatype Event =
    | Init(id: string, ds: DataSet) | Update(id: string, ds: DataSet) | Complete(id: string, ds: DataSet)
    | Outgoing(ds: DataSet) | Shutdown

  datatype State = State(
    rows: seq<Row>, database: seq<DataSet>, queue: seq<DataSet>, backup: seq<DataSet>, log: seq<Event>)

  function Start(): State {
    State([], [], [], [], [])
  }

  // ---- one call ----

  /** The number in a zeroed character array. */
  function Buffer(calling: CString): (buffer: seq<char>)
    ensures |buffer| >= 3 && CStr(buffer) == calling
  {
    var buffer := calling + [NUL, NUL, NUL];
    CStrIs(buffer, calling);
    buffer
  }

  /** What the area lookup stores in a zeroed set: nothing before the directory is known. */
  function AreaParts(calling: CString, d: UsableDirectory): Parts {
    if d.known then Divide(calling, Resolve(d, Buffer(calling))) else Parts("", "", "")
  }

  /** The set as first broadcast: the area stands in for the name. */
  function RingSet(n: Notice, w: World): DataSet {
    var p := AreaParts(n.calling, w.directory);
    DataSet(p.number, n.calling, p.area, w.isoDate, w.time, n.called, w.alias, "Telefonie", "Fix",
            p.area, p.areacode)
  }

  function QueryOf(n: Notice, w: World): Query {
    Query(n.calling, w.online, w.cached)
  }

  function Named(ds: DataSet, found: Option<Details>): DataSet {
    if found.Some? then ds.(name := found.value.name) else ds
  }

  function Step(s: State, n: Notice, w: World): State {
    match n.kind
    case Ring =>
      var found := Answer(s.rows, QueryOf(n, w));
      var ds := Named(RingSet(n, w), found);
      var written := s.queue == [] && w.dbOk;
      State(
        After(s.rows, QueryOf(n, w)),
        if written then s.database + [ds] else s.database,
        if written then s.queue else s.queue + [ds],
        s.backup + [RingSet(n, w).(date := w.shortDate)],
        s.log + [Init(w.id, RingSet(n, w))] + (if found.Some? then [Update(w.id, ds)] else [])
        + [Complete(w.id, ds)])
    case Call =>
      s.(log := s.log + [Outgoing(EMPTY_SET.(time := w.time, date := w.isoDate, complete := n.called,
                                            msn := n.calling, alias := w.alias))])
    case _ => s
  }

  function Run(s: State, calls: seq<(Notice, World)>): State
    decreases |calls|
  {
    if calls == [] then s else Run(Step(s, calls[0].0, calls[0].1), calls[1..])
  }

  // ---- the shape of the broadcast log ----

  /** The broadcasts of one ring: one id, and a last set that differs from the first at most in
      the name, and in that only behind an update. */
  predicate RingGroup(g: seq<Event>) {
    || (|g| == 2 && g[0].Init? && g[1] == Complete(g[0].id, g[0].ds))
    || (|g| == 3 && g[0].Init? && g[1].Update? && g[1].id == g[0].id
        && g[1].ds == g[0].ds.(name := g[1].ds.name) && g[2] == Complete(g[0].id, g[1].ds))
  }

  /** (Init Update? Complete | Call)* */
  predicate Sessions(log: seq<Event>)
    decreases |log|
  {
    || log == []
    || (log[0].Outgoing? && Sessions(log[1..]))
    || (|log| >= 2 && RingGroup(log[..2]) && Sessions(log[2..]))
    || (|log| >= 3 && RingGroup(log[..3]) && Sessions(log[3..]))
  }

  lemma {:induction false} SessionsConcat(a: seq<Event>, b: seq<Event>)
    requires Sessions(a) && Sessions(b)
    ensures Sessions(a + b)
    decreases |a|
  {
    if a == [] {
      assert a + b == b;
    } else if a[0].Outgoing? && Sessions(a[1..]) {
      assert (a + b)[1..] == a[1..] + b;
      SessionsConcat(a[1..], b);
    } else if |a| >= 2 && RingGroup(a[..2]) && Sessions(a[2..]) {
      assert (a + b)[2..] == a[2..] + b && (a + b)[..2] == a[..2];
      SessionsConcat(a[2..], b);
    } else {
      assert (a + b)[3..] == a[3..] + b && (a + b)[..3] == a[..3];
      SessionsConcat(a[3..], b);
    }
  }

  /** The rings that were completed, and what is recorded of them. */
  function Completed(log: seq<Event>): seq<DataSet> {
    if log == [] then []
    else (if log[0].Complete? then [log[0].ds] else []) + Completed(log[1..])
  }

  lemma {:induction false} CompletedConcat(a: seq<Event>, b: seq<Event>)
    ensures Completed(a + b) == Completed(a) + Completed(b)
  {
    if a == [] {
      assert a + b == b;
    } else {
      assert (a + b)[1..] == a[1..] + b;
      CompletedConcat(a[1..], b);
      var first := if a[0].Complete? then [a[0].ds] else [];
      assert Completed(a) == first + Completed(a[1..]);
      assert Completed(a + b) == first + (Completed(a[1..]) + Completed(b));
    }
  }

  /** The complete numbers of the incoming calls, in arrival order. */
  function RingNumbers(calls: seq<(Notice, World)>): seq<string> {
    if calls == [] then []
    else (if calls[0].0.kind.Ring? then [calls[0].0.calling] else []) + RingNumbers(calls[1..])
  }

  function Numbers(sets: seq<DataSet>): seq<string> {
    seq(|sets|, i requires 0 <= i < |sets| => sets[i].complete)
  }

  predicate Good(s: State) {
    Sessions(s.log) && Completed(s.log) == s.database + s.queue
  }

  /** What one call adds to the log. */
  lemma StepGroup(s: State, n: Notice, w: World) returns (g: seq<Event>)
    ensures Step(s, n, w).log == s.log + g && Sessions(g)
    ensures |Completed(g)| == if n.kind.Ring? then 1 else 0
    ensures Step(s, n, w).database + Step(s, n, w).queue == s.database + s.queue + Completed(g)
    ensures Numbers(Completed(g)) == if n.kind.Ring? then [n.calling] else []
    ensures n.kind.Ring? ==> RecordOf(Completed(g)[0], (n, w))
  {
    match n.kind
    case Ring =>
      var found := Answer(s.rows, QueryOf(n, w));
      var ds := Named(RingSet(n, w), found);
      if found.Some? {
        g := [Init(w.id, RingSet(n, w)), Update(w.id, ds), Complete(w.id, ds)];
        assert g[..3] == g && g[3..] == [];
        assert g[1..] == [Update(w.id, ds), Complete(w.id, ds)];
      } else {
        g := [Init(w.id, RingSet(n, w)), Complete(w.id, ds)];
        assert g[..2] == g && g[2..] == [];
      }
      assert Completed(g) == [ds] by { LastOnly(g, ds); }
    case Call =>
      g := [Step(s, n, w).log[|s.log|]];
      assert g[1..] == [];
    case _ =>
      g := [];
  }

  lemma LastOnly(g: seq<Event>, ds: DataSet)
    requires |g| == 2 || |g| == 3
    requires g[0].Init? && (|g| == 3 ==> g[1].Update?) && g[|g| - 1].Complete? && g[|g| - 1].ds == ds
    ensures Completed(g) == [ds]
  {
    var last := g[|g| - 1..];
    assert last[1..] == [] && Completed(last) == [ds];
    if |g| == 3 {
      assert g[1..][1..] == last;
      assert Completed(g[1..]) == Completed(last);
    }
  }

  /** Over every run: the log keeps its shape, the database followed by the queue holds exactly
      the completed calls in order, none lost and none doubled, and these are the incoming calls
      in arrival order. */
  lemma {:induction false} RunKeeps(s: State, calls: seq<(Notice, World)>)
    requires Good(s)
    ensures Good(Run(s, calls))
    ensures Numbers(Completed(Run(s, calls).log)) == Numbers(Completed(s.log)) + RingNumbers(calls)
    decreases |calls|
  {
    hide Step, Sessions, Completed, Numbers;
    if calls != [] {
      var n, w := calls[0].0, calls[0].1;
      var g := StepGroup(s, n, w);
      SessionsConcat(s.log, g);
      CompletedConcat(s.log, g);
      var t := Step(s, n, w);
      NumbersConcat(Completed(s.log), Completed(g));
      RunKeeps(t, calls[1..]);
    }
  }

  lemma NumbersConcat(a: seq<DataSet>, b: seq<DataSet>)
    ensures Numbers(a + b) == Numbers(a) + Numbers(b)
  {
  }

  /** Once a write has failed the written calls never grow again. */
  lemma {:induction false} FailureIsFinal(s: State, calls: seq<(Notice, World)>)
    requires s.queue != []
    ensures Run(s, calls).database == s.database && s.queue <= Run(s, calls).queue
    decreases |calls|
  {
    if calls != [] {
      FailureIsFinal(Step(s, calls[0].0, calls[0].1), calls[1..]);
    }
  }

  /** The database only grows. */
  lemma {:induction false} DatabaseGrows(s: State, calls: seq<(Notice, World)>)
    ensures s.database <= Run(s, calls).database
    decreases |calls|
  {
    if calls != [] {
      DatabaseGrows(Step(s, calls[0].0, calls[0].1), calls[1..]);
    }
  }

  /** How many rings come before the first one whose database write fails. */
  function WrittenRings(calls: seq<(Notice, World)>): nat {
    if calls == [] || (calls[0].0.kind.Ring? && !calls[0].1.dbOk) then 0
    else (if calls[0].0.kind.Ring? then 1 else 0) + WrittenRings(calls[1..])
  }

  /** No database write would fail. */
  predicate AllWritable(calls: seq<(Notice, World)>) {
    forall i | 0 <= i < |calls| && calls[i].0.kind.Ring? :: calls[i].1.dbOk
  }

  lemma {:induction false} WritesUntilFailure(s: State, calls: seq<(Notice, World)>)
    requires s.queue == []
    ensures |Run(s, calls).database| == |s.database| + WrittenRings(calls)
    decreases |calls|
  {
    if calls != [] {
      var t := Step(s, calls[0].0, calls[0].1);
      if t.queue == [] {
        WritesUntilFailure(t, calls[1..]);
      } else {
        FailureIsFinal(t, calls[1..]);
      }
    }
  }

  lemma {:induction false} AllRingsWritten(calls: seq<(Notice, World)>)
    ensures WrittenRings(calls) <= |RingNumbers(calls)|
    ensures WrittenRings(calls) == |RingNumbers(calls)| <==> AllWritable(calls)
  {
    if calls != [] {
      AllRingsWritten(calls[1..]);
      assert forall i | 0 <= i < |calls[1..]| :: calls[1..][i] == calls[i + 1];
      assert forall i | 0 < i < |calls| :: calls[i] == calls[1..][i - 1];
    }
  }

  /** Over every run the database holds exactly the completed calls in front of the first ring
      whose write fails, and the queue exactly the others, in order. */
  lemma DatabaseSplit(calls: seq<(Notice, World)>)
    ensures var s, n := Run(Start(), calls), WrittenRings(calls);
            && n <= |Completed(s.log)|
            && s.database == Completed(s.log)[..n] && s.queue == Completed(s.log)[n..]
  {
    hide Run, Sessions, WrittenRings;
    StartIsGood();
    RunKeeps(Start(), calls);
    WritesUntilFailure(Start(), calls);
  }

  lemma {:induction false} RunConcat(s: State, a: seq<(Notice, World)>, b: seq<(Notice, World)>)
    ensures Run(s, a + b) == Run(Run(s, a), b)
    decreases |a|
  {
    hide Step;
    if a == [] {
      assert a + b == b;
    } else {
      assert (a + b)[1..] == a[1..] + b;
      RunConcat(Step(s, a[0].0, a[0].1), a[1..], b);
    }
  }

  /** While no write fails all completed calls are in the database and none is queued. */
  lemma AllInDatabase(calls: seq<(Notice, World)>)
    requires AllWritable(calls)
    ensures var s := Run(Start(), calls); s.database == Completed(s.log) && s.queue == []
  {
    hide Run, Completed, WrittenRings, AllWritable, Sessions;
    DatabaseSplit(calls);
    AllRingsWritten(calls);
    StartIsGood();
    RunKeeps(Start(), calls);
  }

  /** The first failing write: the database keeps the calls completed before it, whatever comes. */
  lemma FirstFailureStops(before: seq<(Notice, World)>, call: (Notice, World), later: seq<(Notice, World)>)
    requires AllWritable(before) && call.0.kind.Ring? && !call.1.dbOk
    ensures Run(Start(), before + [call] + later).database == Completed(Run(Start(), before).log)
  {
    hide Run, Completed, AllWritable;
    var s := Run(Start(), before);
    AllInDatabase(before);
    RunConcat(Start(), before + [call], later);
    RunConcat(Start(), before, [call]);
    RunOne(s, call);
    FailureIsFinal(Step(s, call.0, call.1), later);
  }

  lemma RunOne(s: State, call: (Notice, World))
    ensures Run(s, [call]) == Step(s, call.0, call.1)
  {
    hide Step;
    assert [call][1..] == [];
  }

  lemma StartIsGood()
    ensures Good(Start()) && Completed(Start().log) == [] && Numbers([]) == []
  {
  }

  // ---- the area of every call ----

  /** The incoming calls. */
  function Rings(calls: seq<(Notice, World)>): seq<(Notice, World)> {
    if calls == [] then []
    else (if calls[0].0.kind.Ring? then [calls[0]] else []) + Rings(calls[1..])
  }

  /** The set is that of the call: its number, divided as the area lookup divides it. */
  predicate RecordOf(ds: DataSet, call: (Notice, World)) {
    && ds.complete == call.0.calling
    && Parts(ds.areacode, ds.number, ds.area) == AreaParts(call.0.calling, call.1.directory)
  }

  predicate AllRecords(sets: seq<DataSet>, rings: seq<(Notice, World)>) {
    |sets| == |rings| && forall i | 0 <= i < |sets| :: RecordOf(sets[i], rings[i])
  }

  lemma {:induction false} RecordsOfRun(s: State, calls: seq<(Notice, World)>, rings: seq<(Notice, World)>)
    requires AllRecords(Completed(s.log), rings)
    ensures AllRecords(Completed(Run(s, calls).log), rings + Rings(calls))
    decreases |calls|
  {
    hide Step, Completed, Sessions, RecordOf;
    if calls == [] {
      assert rings + [] == rings;
    } else {
      var n, w := calls[0].0, calls[0].1;
      var g := StepGroup(s, n, w);
      CompletedConcat(s.log, g);
      var more := if n.kind.Ring? then [calls[0]] else [];
      assert rings + more + Rings(calls[1..]) == rings + Rings(calls);
      RecordsOfRun(Step(s, n, w), calls[1..], rings + more);
    }
  }

  /** How a set holds its number: nothing while no area file is set; on a hit the area code found
      and the rest, which concatenate to the whole, and the area behind the code; otherwise the
      whole as the rest and "<unknown>" for the area, and for the area code too, whose first
      character is the number's if the file could not be read or ended before it was passed. */
  ghost predicate Divided(ds: DataSet, calling: CString, d: UsableDirectory) {
    && ds.complete == calling
    && if !d.known then ds.areacode == ds.number == ds.area == ""
       else
         var o := Resolve(d, Buffer(calling));
         if o.Found? then
           && d.disk.Present? && ds.areacode + ds.number == calling && |ds.areacode| == o.code
           && NamesArea(o.line, o.code, ds.area)
         else
           && ds.number == calling && ds.area == "<unknown>"
           && ds.areacode == (if o.AtEnd? then [At(calling, 0)] + "unknown>" else "<unknown>")
  }

  lemma RecordIsDivided(ds: DataSet, call: (Notice, World))
    requires RecordOf(ds, call)
    ensures Divided(ds, call.0.calling, call.1.directory)
  {
    hide AreaOf, NamesArea, Lookup;
    var d := call.1.directory;
    if d.known {
      var o := Resolve(d, Buffer(call.0.calling));
      if o.Found? {
        AreaIsNamed(o.line, o.code);
      }
      assert UNKNOWN[1..] == "unknown>";
    }
  }

  /** Over every run each completed set is that of its incoming call, with its number divided. */
  lemma RingsAreDivided(calls: seq<(Notice, World)>)
    ensures var sets := Completed(Run(Start(), calls).log);
            && |sets| == |Rings(calls)|
            && forall i | 0 <= i < |sets| :: Divided(sets[i], Rings(calls)[i].0.calling, Rings(calls)[i].1.directory)
  {
    hide Completed, Run, Rings, Divided, RecordOf;
    StartIsGood();
    RecordsOfRun(Start(), calls, []);
    assert [] + Rings(calls) == Rings(calls);
    var sets := Completed(Run(Start(), calls).log);
    forall i | 0 <= i < |sets|
      ensures Divided(sets[i], Rings(calls)[i].0.calling, Rings(calls)[i].1.directory)
    {
      RecordIsDivided(sets[i], Rings(calls)[i]);
    }
  }

  /** With an indexed file at hand, the area code of every completed set is that of the first
      line of the whole file whose code prefixes the number, and the area is the one behind it;
      "<unknown>" stands for the area if there is none; the hidden first line and slots out of
      order aside. */
  lemma RingsGetFirstMatch(calls: seq<(Notice, World)>, content: string, i: nat)
    requires i < |Rings(calls)|
    requires var d := Rings(calls)[i].1.directory; d.known && d.disk == Present(content) && Indexed(d.slots, content)
    requires var buffer := Buffer(Rings(calls)[i].0.calling);
             && !FirstLineHidden(content, Rings(calls)[i].1.directory.slots, buffer)
             && SlotInOrder(Records(content, 0), CStr(buffer))
    ensures var sets := Completed(Run(Start(), calls).log);
            var recs := Records(content, 0);
            && i < |sets|
            && var j := FirstMatch(recs, sets[i].complete);
               if j >= 0 then
                 && sets[i].areacode == Digits(recs[j].text) && sets[i].areacode + sets[i].number == sets[i].complete
                 && NamesArea(recs[j].text, |sets[i].areacode|, sets[i].area)
               else sets[i].area == "<unknown>" && sets[i].number == sets[i].complete
  {
    hide Completed, Run, Rings, AreaOf, Lookup, FirstLineHidden, SlotInOrder, Records, Indexed, FirstMatch, Digits,
         NamesArea;
    RingsAreDivided(calls);
    var call, ds := Rings(calls)[i], Completed(Run(Start(), calls).log)[i];
    assert Divided(ds, call.0.calling, call.1.directory);
    LookupIsFirstMatch(content, call.1.directory.slots, Buffer(call.0.calling));
    var j := FirstMatch(Records(content, 0), ds.complete);
    if j >= 0 {
      MatchedDigits(Records(content, 0)[j].text, ds.complete);
      assert ds.areacode == ds.complete[..|ds.areacode|];
    }
  }

  lemma MatchedDigits(line: string, number: string)
    requires Matches(line, number)
    ensures AreaCodes.Run(line) <= |number| && number[..AreaCodes.Run(line)] == Digits(line)
  {
  }

  // ---- the process ----

  /** `_shutdown` after the Fritz thread has been joined: what is still queued is dropped, and a
      server that ran says goodbye. */
  function Stop(s: State, served: bool): State {
    s.(queue := [], log := s.log + if served then [Shutdown] else [])
  }

  /** Over every run of the process the broadcast log lies in
      (Init Update? Complete | Call)* Shutdown?, with nothing behind the shutdown; every
      incoming call is in the database at the end if and only if no write failed. */
  lemma EveryRun(calls: seq<(Notice, World)>, served: bool)
    ensures var s := Run(Start(), calls);
            && Sessions(s.log) && Shutdown !in s.log
            && Stop(s, served).log == s.log + (if served then [Shutdown] else [])
            && Stop(s, served).queue == [] && Stop(s, served).database == s.database
            && Numbers(s.database + s.queue) == RingNumbers(calls)
            && (Numbers(Stop(s, served).database) == RingNumbers(calls) <==> AllWritable(calls))
  {
    hide Run, WrittenRings, RingNumbers, Completed, AllWritable, Sessions;
    var s := Run(Start(), calls);
    StartIsGood();
    RunKeeps(Start(), calls);
    NoShutdown(s.log);
    WritesUntilFailure(Start(), calls);
    AllRingsWritten(calls);
    assert |s.database + s.queue| == |RingNumbers(calls)|;
    assert s.queue == [] ==> s.database + s.queue == s.database;
  }

  lemma {:induction false} NoShutdown(log: seq<Event>)
    requires Sessions(log)
    ensures Shutdown !in log
    decreases |log|
  {
    if log != [] {
      if log[0].Outgoing? && Sessions(log[1..]) {
        NoShutdown(log[1..]);
        assert log == [log[0]] + log[1..];
      } else if |log| >= 2 && RingGroup(log[..2]) && Sessions(log[2..]) {
        NoShutdown(log[2..]);
        assert log == log[..2] + log[2..];
      } else {
        NoShutdown(log[3..]);
        assert log == log[..3] + log[3..];
      }
    }
  }

  /** The lookups a run makes. */
  function Queries(calls: seq<(Notice, World)>): seq<Query> {
    if calls == [] then []
    else (if calls[0].0.kind.Ring? then [QueryOf(calls[0].0, calls[0].1)] else []) + Queries(calls[1..])
  }

  lemma {:induction false} RowsOfRun(s: State, calls: seq<(Notice, World)>)
    ensures Run(s, calls).rows == AfterAll(s.rows, Queries(calls))
    decreases |calls|
  {
    if calls != [] {
      var n, w := calls[0].0, calls[0].1;
      RowsOfRun(Step(s, n, w), calls[1..]);
      if n.kind.Ring? {
        assert Queries(calls)[0] == QueryOf(n, w) && Queries(calls)[1..] == Queries(calls[1..]);
      } else {
        assert Queries(calls) == Queries(calls[1..]);
      }
    }
  }

  /** A caller who has been cached is announced under the same name ever after. */
  lemma SameNameAfterCaching(before: seq<(Notice, World)>, between: seq<(Notice, World)>, n: Notice, w: World)
    requires n.kind.Ring? && Find(Run(Start(), before).rows, n.calling).Some?
    ensures var s := Run(Run(Start(), before), between);
            var details := Find(Run(Start(), before).rows, n.calling).value;
            var t := Step(s, n, w);
            && t.log == s.log + [Init(w.id, RingSet(n, w)), Update(w.id, RingSet(n, w).(name := details.name)),
                                 Complete(w.id, RingSet(n, w).(name := details.name))]
            && t.rows == s.rows
  {
    var s0 := Run(Start(), before);
    RowsOfRun(s0, between);
    CachedStays(s0.rows, Queries(between), n.calling);
  }

  /** Calls the area lookup on the zeroed character arrays of a set. */
  method LookUpArea(areas: Areas, disk: Disk, calling: CString) returns (parts: Parts)
    requires areas.indizes.Length == 100 && Usable(areas.Book(disk))
    ensures parts == AreaParts(calling, areas.Book(disk))
  {
    hide Resolve, Divide;
    var n := |calling|;
    var complete := new char[n + 3](i => if 0 <= i < n then calling[i] else NUL);
    var number := new char[n + 1](_ => NUL);
    var areacode := new char[n + |UNKNOWN| + 1](_ => NUL);
    var area := new char[LINE_MAX + 1](_ => NUL);
    assert complete[..] == Buffer(calling);
    var rc := areas.GetAreaCode(disk, complete, areacode, number, area);
    parts := Parts(CStr(areacode[..]), CStr(number[..]), CStr(area[..]));
  }

  class Process {
    const cache: Cache
    const areas: Areas
    var todo: seq<DataSet>      // _db_data_todo
    var database: seq<DataSet>  // the call table
    var backup: seq<DataSet>    // the backup file
    var log: seq<Event>         // what has been broadcast

    constructor ()
      ensures fresh(cache) && fresh(areas) && areas.indizes.Length == 100 && !areas.known && View() == Start()
    {
      cache := new Cache();
      areas := new Areas();
      todo, database, backup, log := [], [], [], [];
    }

    function View(): State
      reads this, cache
    {
      State(cache.rows, database, todo, backup, log)
    }

    /** `dbhandler_add_data`. */
    method AddData(ds: DataSet, ok: bool) returns (rc: int)
      modifies this`database
      ensures rc == (if ok then 0 else 1) && database == old(database) + if ok then [ds] else []
    {
      rc := 1;
      if ok {
        database := database + [ds];
        rc := 0;
      }
    }

    /** `handle_fritz_message`; None is a null pointer. */
    method HandleFritzMessage(notice: Option<Notice>, w: World)
      requires areas.indizes.Length == 100 && w.directory == areas.Book(w.directory.disk)
      modifies this, cache
      ensures View() == if notice.Some? then Step(old(View()), notice.value, w) else old(View())
    {
      if notice.None? {
        return;
      }
      var n := notice.value;
      if n.kind != Call && n.kind != Ring {
        return;
      }
      var ds := EMPTY_SET;
      if n.kind == Ring {
        ds := ds.(time := w.time, complete := n.calling, msn := n.called, service := "Telefonie", fix := "Fix");
        var parts := LookUpArea(areas, w.directory.disk, n.calling);
        ds := ds.(areacode := parts.areacode, number := parts.number, area := parts.area);
        ds := ds.(name := ds.area, alias := w.alias, date := w.shortDate);
        backup := backup + [ds];
        ds := ds.(date := w.isoDate);
        log := log + [Init(w.id, ds)];
        var rc, details := cache.GetCallerData(Query(ds.complete, w.online, w.cached));
        if rc == 0 {
          ds := ds.(name := details.value.name);
        }
        if todo == [] {
          var dbrc := AddData(ds, w.dbOk);
          if dbrc != 0 {
            todo := todo + [ds];
          }
        } else {
          todo := todo + [ds];
        }
        if rc == 0 {
          log := log + [Update(w.id, ds)];
        }
        log := log + [Complete(w.id, ds)];
      } else {
        ds := ds.(time := w.time, date := w.isoDate, complete := n.called, msn := n.calling, alias := w.alias);
        log := log + [Outgoing(ds)];
      }
    }

    /** The part of `_shutdown` behind joining the Fritz thread; counts the dropped sets. */
    method Finish(served: bool) returns (cnt: nat)
      modifies this
      ensures View() == Stop(old(View()), served) && cnt == |old(todo)|
    {
      if served {
        log := log + [Shutdown];
      }
      cnt := 0;
      while todo != []
        invariant cnt + |todo| == |old(todo)|
        invariant log == old(log) + if served then [Shutdown] else []
        invariant database == old(database) && backup == old(backup)
        decreases |todo|
      {
        todo := todo[1..];
        cnt := cnt + 1;
      }
    }
  }
}
