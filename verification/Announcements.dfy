/** What a connected client is told about the calls: the Fritz thread's events go out through
    the server, with the listening thread's steps at any point. */
module Announcements {
  import opened Machine
  import P = CallPipeline
  import B = Broadcast

  /** The frames of the events; how an event becomes a frame is left open. */
  function Frames(frame: P.Event -> bytes, events: seq<P.Event>): (r: seq<bytes>)
    ensures |r| == |events|
  {
    seq(|events|, i requires 0 <= i < |events| => frame(events[i]))
  }

  // ---- the whole process ----

  datatype System = System(calls: P.State, server: B.Server)

  /** How one event is broadcast: the kernel's answers under the lock, and the steps of the
      listening thread before and after the broadcasting thread removes the marked clients. */
  datatype Cast = Cast(sendings: seq<B.Sending>, during: seq<B.Step>, after: seq<B.Step>)

  /** A step of the listening thread, or a call that the Fritz thread handles. */
  datatype Happening =
    | Listening(step: B.Step)
    | Calling(notice: P.Notice, world: P.World, casts: seq<Cast>)

  function Beginning(): System {
    System(P.Start(), B.Initial())
  }

  predicate OnlyListens(steps: seq<B.Step>) {
    forall i | 0 <= i < |steps| :: B.ListenerStep(steps[i])
  }

  /** The server's steps for one event. */
  function CastSteps(frame: P.Event -> bytes, event: P.Event, cast: Cast): seq<B.Step> {
    [B.Send(frame(event), event.Outgoing?, cast.sendings)] + cast.during + [B.Sweep(true)] + cast.after
  }

  /** The server's steps for the events of a call; None when a cast does not belong to them. */
  function Casting(frame: P.Event -> bytes, events: seq<P.Event>, casts: seq<Cast>): Option<seq<B.Step>> {
    if |events| != |casts| then None
    else if events == [] then Some([])
    else
      var rest := Casting(frame, events[1..], casts[1..]);
      if rest.None? || !OnlyListens(casts[0].during) || !OnlyListens(casts[0].after) then None
      else Some(CastSteps(frame, events[0], casts[0]) + rest.value)
  }

  function Events(s: P.State, notice: P.Notice, world: P.World): seq<P.Event> {
    P.Step(s, notice, world).log[|s.log|..]
  }

  /** One happening, None when the server cannot make its steps. */
  function Next(frame: P.Event -> bytes, sys: System, h: Happening): Option<System> {
    match h
    case Listening(step) =>
      if B.ListenerStep(step) && B.Enabled(sys.server, step)
      then Some(sys.(server := B.Apply(sys.server, step))) else None
    case Calling(n, w, casts) =>
      var steps := Casting(frame, Events(sys.calls, n, w), casts);
      if steps.None? || B.Run(sys.server, steps.value).None? then None
      else Some(System(P.Step(sys.calls, n, w), B.Run(sys.server, steps.value).value))
  }

  function Play(frame: P.Event -> bytes, sys: System, hs: seq<Happening>): Option<System>
    decreases |hs|
  {
    if hs == [] then Some(sys)
    else
      var next := Next(frame, sys, hs[0]);
      if next.None? then None else Play(frame, next.value, hs[1..])
  }

  function Calls(hs: seq<Happening>): seq<(P.Notice, P.World)> {
    if hs == [] then []
    else (if hs[0].Calling? then [(hs[0].notice, hs[0].world)] else []) + Calls(hs[1..])
  }

  // ---- what every step keeps ----

  /** The server has logged the frames of exactly the events that the calls have produced. */
  predicate Told(frame: P.Event -> bytes, sys: System) {
    && sys.server.log == Frames(frame, sys.calls.log)
    && !sys.server.sweeping && B.StreamsOk(sys.server) && B.RegistryOk(sys.server)
  }

  lemma CastLogs(frame: P.Event -> bytes, event: P.Event, cast: Cast, s: B.Server)
    requires OnlyListens(cast.during) && OnlyListens(cast.after)
    requires B.Run(s, CastSteps(frame, event, cast)).Some?
    ensures var t := B.Run(s, CastSteps(frame, event, cast)).value;
            t.log == s.log + [frame(event)] && !t.sweeping
  {
    hide B.Run, B.Enabled;
    var send := B.Send(frame(event), event.Outgoing?, cast.sendings);
    B.RunConcat(s, [send] + cast.during + [B.Sweep(true)], cast.after);
    B.RunConcat(s, [send] + cast.during, [B.Sweep(true)]);
    B.RunConcat(s, [send], cast.during);
    B.RunOne(s, send);
    var u := B.Apply(s, send);
    B.ListenerKeepsLog(u, cast.during);
    var v := B.Run(u, cast.during).value;
    B.RunOne(v, B.Sweep(true));
    B.ListenerKeepsLog(B.Apply(v, B.Sweep(true)), cast.after);
  }

  lemma {:induction false} CastingLogs(frame: P.Event -> bytes, events: seq<P.Event>, casts: seq<Cast>, s: B.Server)
    requires var steps := Casting(frame, events, casts); steps.Some? && B.Run(s, steps.value).Some?
    requires !s.sweeping
    ensures var t := B.Run(s, Casting(frame, events, casts).value).value;
            t.log == s.log + Frames(frame, events) && !t.sweeping
    decreases |events|
  {
    hide B.Run, CastSteps, OnlyListens;
    if events == [] {
      B.RunNothing(s);
    } else {
      var first, rest := CastSteps(frame, events[0], casts[0]), Casting(frame, events[1..], casts[1..]).value;
      B.RunConcat(s, first, rest);
      CastLogs(frame, events[0], casts[0], s);
      CastingLogs(frame, events[1..], casts[1..], B.Run(s, first).value);
      assert Frames(frame, events) == [frame(events[0])] + Frames(frame, events[1..]);
    }
  }

  lemma NextTells(frame: P.Event -> bytes, sys: System, h: Happening)
    requires Told(frame, sys) && Next(frame, sys, h).Some?
    ensures Told(frame, Next(frame, sys, h).value)
  {
    hide B.Run, B.StreamsOk, B.RegistryOk, B.Apply, B.Enabled, Casting, P.Step;
    match h
    case Listening(step) =>
      B.StepKeepsStreams(sys.server, step);
      B.StepKeepsRegistry(sys.server, step);
      B.RunOne(sys.server, step);
      B.ListenerKeepsLog(sys.server, [step]);
    case Calling(n, w, casts) =>
      var g := P.StepGroup(sys.calls, n, w);
      assert Events(sys.calls, n, w) == g;
      CastingLogs(frame, g, casts, sys.server);
      B.RunKeeps(sys.server, Casting(frame, g, casts).value);
      assert Frames(frame, sys.calls.log + g) == Frames(frame, sys.calls.log) + Frames(frame, g);
  }

  lemma {:induction false} HistoryTells(frame: P.Event -> bytes, sys: System, hs: seq<Happening>)
    requires Told(frame, sys) && Play(frame, sys, hs).Some?
    ensures var after := Play(frame, sys, hs).value;
            Told(frame, after) && after.calls == P.Run(sys.calls, Calls(hs))
    decreases |hs|
  {
    hide Told, P.Step, Casting, B.Run, B.Enabled, B.Apply;
    if hs != [] {
      var next := Next(frame, sys, hs[0]).value;
      NextTells(frame, sys, hs[0]);
      HistoryTells(frame, next, hs[1..]);
      if hs[0].Calling? {
        assert Calls(hs)[1..] == Calls(hs[1..]);
      } else {
        assert Calls(hs) == Calls(hs[1..]);
      }
    }
  }

  /** A client has been sent, frame by frame, the events from some moment on. */
  predicate Hears(frame: P.Event -> bytes, e: B.Entry, events: seq<P.Event>) {
    e.hist.since <= |events| && e.hist.stream == B.Concat(Frames(frame, events[e.hist.since..]))
  }

  lemma ToldHears(frame: P.Event -> bytes, sys: System)
    requires Told(frame, sys)
    ensures forall e | e in sys.server.list && B.Modern(e.client.version) :: Hears(frame, e, sys.calls.log)
  {
    hide B.StreamsOk, B.RegistryOk, B.Modern, B.Concat;
    forall e | e in sys.server.list && B.Modern(e.client.version) ensures Hears(frame, e, sys.calls.log) {
      var i :| 0 <= i < |sys.server.list| && sys.server.list[i] == e;
      B.SettledEntry(sys.server, i);
      assert sys.server.log[e.hist.since..] == Frames(frame, sys.calls.log[e.hist.since..]);
    }
  }

  /** Over every history of calls and listener steps: what the server has broadcast are the
      events of the calls, complete groups in order; and every version-3 client has been sent,
      frame by frame, a contiguous slice of them, from its becoming one up to now. */
  lemma ClientHearsCalls(frame: P.Event -> bytes, hs: seq<Happening>)
    requires Play(frame, Beginning(), hs).Some?
    ensures var sys := Play(frame, Beginning(), hs).value;
            && sys.calls == P.Run(P.Start(), Calls(hs)) && P.Sessions(sys.calls.log)
            && Told(frame, sys)
            && forall e | e in sys.server.list && B.Modern(e.client.version) :: Hears(frame, e, sys.calls.log)
  {
    hide Play, P.Run, B.OpenAfter;
    assert B.Socks([]) == [] && B.Elements([]) == {};
    assert B.OpenAfter([]) == Some({}) by { B.NothingOpen(); }
    HistoryTells(frame, Beginning(), hs);
    P.EveryRun(Calls(hs), false);
    ToldHears(frame, Play(frame, Beginning(), hs).value);
  }

  /** When the server says goodbye behind any such history, its listening thread has been
      joined: every version-3 client that is still listed has then been sent the events from
      some moment on and, as its last frame, the farewell. */
  lemma ClientHearsShutdown(frame: P.Event -> bytes, hs: seq<Happening>, sendings: seq<B.Sending>)
    requires Play(frame, Beginning(), hs).Some?
    requires B.Enabled(Play(frame, Beginning(), hs).value.server, B.Send(frame(P.Shutdown), false, sendings))
    ensures var sys := Play(frame, Beginning(), hs).value;
            var t := B.Apply(B.Apply(sys.server, B.Send(frame(P.Shutdown), false, sendings)), B.Sweep(true));
            && t.log == Frames(frame, P.Stop(sys.calls, true).log)
            && forall e | e in t.list && B.Modern(e.client.version) ::
                 && e.hist.since <= |sys.calls.log|
                 && e.hist.stream == B.Concat(Frames(frame, sys.calls.log[e.hist.since..])) + frame(P.Shutdown)
  {
    hide Play, P.Run, B.StreamsOk, B.RegistryOk, B.Modern, B.Concat, Hears;
    ClientHearsCalls(frame, hs);
    var sys, goodbye := Play(frame, Beginning(), hs).value, frame(P.Shutdown);
    var s := sys.server;
    var u := B.Apply(s, B.Send(goodbye, false, sendings));
    var t := B.Apply(u, B.Sweep(true));
    assert Frames(frame, sys.calls.log + [P.Shutdown]) == Frames(frame, sys.calls.log) + [goodbye];
    forall e | e in t.list && B.Modern(e.client.version)
      ensures e.hist.since <= |sys.calls.log|
      ensures e.hist.stream == B.Concat(Frames(frame, sys.calls.log[e.hist.since..])) + goodbye
    {
      var p :| 0 <= p < |t.list| && t.list[p] == e;
      var i := B.RemovalKeepsOnlyUnmarked(u.list, p);
      B.WholeFrame(s, goodbye, false, sendings, i);
      B.SettledEntry(s, i);
      assert s.log[e.hist.since..] == Frames(frame, sys.calls.log[e.hist.since..]);
    }
  }
}
