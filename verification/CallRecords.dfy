/** What each notice is told as, over whole runs (main.c:190-259). */
module CallRecords {
  import opened Machine
  import opened CallerCache
  import opened AreaLookup
  import opened CallPipeline

  // ---- what is known of a caller ----

  /** The answer cached for a number: the first one that an incoming call of the number got from
      the online source and could store. */
  function Cached(calls: seq<(Notice, World)>, number: string): Option<Details> {
    if calls == [] then None
    else
      var last := calls[|calls| - 1];
      var earlier := Cached(calls[..|calls| - 1], number);
      if earlier.None? && last.0.kind.Ring? && last.0.calling == number && last.1.cached then last.1.online
      else earlier
  }

  function Caller(before: seq<(Notice, World)>, call: (Notice, World)): Option<Details> {
    if Cached(before, call.0.calling).Some? then Cached(before, call.0.calling) else call.1.online
  }

  lemma RunSnoc(calls: seq<(Notice, World)>)
    requires calls != []
    ensures var n := |calls| - 1;
            Run(Start(), calls) == Step(Run(Start(), calls[..n]), calls[n].0, calls[n].1)
  {
    hide Step, Run;
    var n := |calls| - 1;
    assert calls == calls[..n] + [calls[n]];
    RunConcat(Start(), calls[..n], [calls[n]]);
    RunOne(Run(Start(), calls[..n]), calls[n]);
  }

  lemma {:induction false} CacheHolds(calls: seq<(Notice, World)>, number: string)
    ensures Find(Run(Start(), calls).rows, number) == Cached(calls, number)
  {
    hide Run, RingSet;
    if calls == [] {
      NothingRun();
    } else {
      var n := |calls| - 1;
      CacheHolds(calls[..n], number);
      RunSnoc(calls);
      OneLookup(Run(Start(), calls[..n]).rows, QueryOf(calls[n].0, calls[n].1), number);
    }
  }

  lemma NothingRun()
    ensures Run(Start(), []).log == [] && Run(Start(), []).backup == []
    ensures forall number :: Find(Run(Start(), []).rows, number) == None
  {
  }

  // ---- what a notice is told as ----

  /** The set of an incoming call before the caller is looked up: the area stands in for the name. */
  ghost predicate FirstSet(ds: DataSet, n: Notice, w: World, date: string) {
    && Divided(ds, n.calling, w.directory) && ds.name == ds.area
    && ds.msn == n.called && ds.alias == w.alias && ds.service == "Telefonie" && ds.fix == "Fix"
    && ds.time == w.time && ds.date == date
  }

  /** An incoming call: that set, with the caller's name as an update if it is known, and the set
      as it is then; all under one id. */
  ghost predicate TellsRing(g: seq<Event>, n: Notice, w: World, caller: Option<Details>) {
    && |g| == (if caller.Some? then 3 else 2)
    && g[0].Init? && g[0].id == w.id && FirstSet(g[0].ds, n, w, w.isoDate)
    && var last := if caller.Some? then g[0].ds.(name := caller.value.name) else g[0].ds;
       && (caller.Some? ==> g[1] == Update(w.id, last))
       && g[|g| - 1] == Complete(w.id, last)
  }

  /** An outgoing call: one event, with the called number as the complete one. */
  predicate TellsCall(g: seq<Event>, n: Notice, w: World) {
    && |g| == 1 && g[0].Outgoing?
    && var ds := g[0].ds;
       && ds.complete == n.called && ds.msn == n.calling && ds.alias == w.alias
       && ds.time == w.time && ds.date == w.isoDate
       && ds.number == "" && ds.name == "" && ds.service == "" && ds.fix == "" && ds.area == "" && ds.areacode == ""
  }

  ghost predicate Tells(g: seq<Event>, before: seq<(Notice, World)>, call: (Notice, World)) {
    match call.0.kind
    case Ring => TellsRing(g, call.0, call.1, Caller(before, call))
    case Call => TellsCall(g, call.0, call.1)
    case _ => g == []
  }

  function Joined(groups: seq<seq<Event>>): seq<Event> {
    if groups == [] then [] else Joined(groups[..|groups| - 1]) + groups[|groups| - 1]
  }

  lemma StepTells(s: State, n: Notice, w: World) returns (g: seq<Event>)
    ensures Step(s, n, w).log == s.log + g
    ensures n.kind.Ring? ==>
              TellsRing(g, n, w, if Find(s.rows, n.calling).Some? then Find(s.rows, n.calling) else w.online)
    ensures n.kind.Call? ==> TellsCall(g, n, w)
    ensures n.kind.Connect? || n.kind.Disconnect? ==> g == []
  {
    hide Divided, Find, RingSet, AreaParts;
    match n.kind
    case Ring =>
      var found := Answer(s.rows, QueryOf(n, w));
      var first := RingSet(n, w);
      FirstSetOf(n, w);
      var last := Named(first, found);
      g := [Init(w.id, first)] + (if found.Some? then [Update(w.id, last)] else []) + [Complete(w.id, last)];
      assert Step(s, n, w).log == s.log + g;
    case Call =>
      g := [Step(s, n, w).log[|s.log|]];
    case _ =>
      g := [];
  }

  lemma FirstSetOf(n: Notice, w: World)
    ensures FirstSet(RingSet(n, w), n, w, w.isoDate)
    ensures FirstSet(RingSet(n, w).(date := w.shortDate), n, w, w.shortDate)
  {
    hide Divided, AreaParts;
    RecordIsDivided(RingSet(n, w), (n, w));
    RecordIsDivided(RingSet(n, w).(date := w.shortDate), (n, w));
  }

  /** Over every run the broadcast log is cut into one group for each notice, in arrival order:
      that of an incoming call, with the caller as cached or found online; that of an outgoing
      call; or nothing for the other kinds. */
  lemma {:induction false} EveryNoticeIsTold(calls: seq<(Notice, World)>) returns (groups: seq<seq<Event>>)
    ensures |groups| == |calls| && Run(Start(), calls).log == Joined(groups)
    ensures forall i | 0 <= i < |calls| :: Tells(groups[i], calls[..i], calls[i])
  {
    hide Run, Step, Tells, Cached;
    if calls == [] {
      groups := [];
      NothingRun();
    } else {
      var n := |calls| - 1;
      var before, call := calls[..n], calls[n];
      var earlier := EveryNoticeIsTold(before);
      var g := StepTells(Run(Start(), before), call.0, call.1);
      CacheHolds(before, call.0.calling);
      RunSnoc(calls);
      groups := earlier + [g];
      assert groups[..n] == earlier;
      TellsIs(g, before, call);
      forall i | 0 <= i < |calls| ensures Tells(groups[i], calls[..i], calls[i]) {
        if i < n {
          assert before[..i] == calls[..i] && before[i] == calls[i];
          assert Tells(earlier[i], before[..i], before[i]);
        }
      }
    }
  }

  lemma TellsIs(g: seq<Event>, before: seq<(Notice, World)>, call: (Notice, World))
    requires call.0.kind.Ring? ==> TellsRing(g, call.0, call.1, Caller(before, call))
    requires call.0.kind.Call? ==> TellsCall(g, call.0, call.1)
    requires call.0.kind.Connect? || call.0.kind.Disconnect? ==> g == []
    ensures Tells(g, before, call)
  {
    hide TellsRing, TellsCall, Caller;
  }

  /** Over every run the backup holds the set of each incoming call before the caller was looked
      up, under the short date, in arrival order. */
  lemma {:induction false} EveryRingIsSaved(s: State, calls: seq<(Notice, World)>, rings: seq<(Notice, World)>)
    requires |s.backup| == |rings|
    requires forall i | 0 <= i < |rings| :: FirstSet(s.backup[i], rings[i].0, rings[i].1, rings[i].1.shortDate)
    ensures var all, saved := rings + Rings(calls), Run(s, calls).backup;
            && |saved| == |all|
            && forall i | 0 <= i < |all| :: FirstSet(saved[i], all[i].0, all[i].1, all[i].1.shortDate)
    decreases |calls|
  {
    hide FirstSet, RingSet;
    if calls == [] {
      assert rings + [] == rings;
    } else {
      var call := calls[0];
      var more := if call.0.kind.Ring? then [call] else [];
      assert rings + more + Rings(calls[1..]) == rings + Rings(calls);
      FirstSetOf(call.0, call.1);
      EveryRingIsSaved(Step(s, call.0, call.1), calls[1..], rings + more);
    }
  }
}
