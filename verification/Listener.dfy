/** Starting and stopping the server: when its thread listens (ci-server.c:72-137, 558-596,
    netutils.c:118-159). */
module Listener {
  datatype State = Uninitialized | Initialized | Connected | Running

  /** The listening thread, until it is joined: still binding the socket, in its loop, or
      returned. */
  datatype Thread = NoThread | Binding | Looping | Over

  /** `open` tells whether the listening socket is one; a disconnect sets it to -1. */
  datatype Lifecycle = Lifecycle(state: State, open: bool, thread: Thread)

  /** A start, with the kernel's answers to the pipe and the thread; the outcome of the thread's
      bind and listen; a failing select; a disconnect. */
  datatype Deed = Start(pipeOk: bool, threadOk: bool) | Bound(ok: bool) | Break | Stop

  /** What `cisrv_init` leaves when it gets its socket. */
  function Fresh(): Lifecycle {
    Lifecycle(Initialized, true, NoThread)
  }

  /** The result of `cisrv_run`. */
  function StartResult(l: Lifecycle, pipeOk: bool, threadOk: bool): int {
    if l.state == Uninitialized then 1 else if l.state == Running then 2
    else if !pipeOk then 3 else if !threadOk then 4 else 0
  }

  function Did(l: Lifecycle, deed: Deed): Lifecycle {
    match deed
    case Start(pipeOk, threadOk) =>
      if StartResult(l, pipeOk, threadOk) == 0 then l.(state := Running, thread := Binding) else l
    case Bound(ok) =>
      if l.thread == Binding then l.(thread := if l.open && ok then Looping else Over) else l
    case Break =>
      if l.thread == Looping then l.(thread := Over) else l
    case Stop =>
      if l.state == Uninitialized then l
      else if l.state == Running then Lifecycle(Initialized, false, NoThread)
      else l.(state := Initialized, open := false)
  }

  /** What the deeds leave, one after another. */
  function Done(deeds: seq<Deed>): Lifecycle {
    if deeds == [] then Fresh() else Did(Done(deeds[..|deeds| - 1]), deeds[|deeds| - 1])
  }

  lemma DoneSnoc(deeds: seq<Deed>, deed: Deed)
    ensures Done(deeds + [deed]) == Did(Done(deeds), deed)
  {
    assert (deeds + [deed])[..|deeds|] == deeds;
  }

  /** A working start, the first one; then the thread binds, and its select never fails. */
  predicate Listens(before: seq<Deed>, binding: seq<Deed>, looping: seq<Deed>) {
    && Start(true, true) !in before
    && Bound(true) !in binding && Bound(false) !in binding
    && Break !in looping
  }

  function Timeline(before: seq<Deed>, binding: seq<Deed>, looping: seq<Deed>): seq<Deed> {
    before + [Start(true, true)] + binding + [Bound(true)] + looping
  }

  /** However often the server is started and stopped, there is a thread to join exactly while
      the state says running, and the socket is one exactly until the first disconnect. */
  lemma {:induction false} OneThread(deeds: seq<Deed>)
    ensures var l := Done(deeds);
            && (l.thread != NoThread <==> l.state == Running)
            && (l.open <==> Stop !in deeds)
            && (l.thread == Looping ==> l.open) && (l.state in {Initialized, Running})
  {
    hide Did;
    if deeds != [] {
      var n := |deeds| - 1;
      OneThread(deeds[..n]);
      StepKeepsThread(Done(deeds[..n]), deeds[n]);
      assert deeds == deeds[..n] + [deeds[n]];
    }
  }

  lemma StepKeepsThread(l: Lifecycle, deed: Deed)
    requires (l.thread != NoThread <==> l.state == Running) && (l.thread == Looping ==> l.open)
    requires l.state in {Initialized, Running}
    ensures var m := Did(l, deed);
            && (m.thread != NoThread <==> m.state == Running) && (m.thread == Looping ==> m.open)
            && m.state in {Initialized, Running} && (m.open <==> l.open && deed != Stop)
  {
  }

  /** What a start answers: 2 while there is a thread to join, else 3 without a pipe, 4 without a
      thread, and 0 when it leaves a thread that binds. */
  lemma StartAnswers(deeds: seq<Deed>, pipeOk: bool, threadOk: bool)
    ensures var l, rc := Done(deeds), StartResult(Done(deeds), pipeOk, threadOk);
            && rc == (if l.thread != NoThread then 2 else if !pipeOk then 3 else if !threadOk then 4 else 0)
            && Done(deeds + [Start(pipeOk, threadOk)])
               == if rc == 0 then l.(state := Running, thread := Binding) else l
  {
    OneThread(deeds);
    DoneSnoc(deeds, Start(pipeOk, threadOk));
  }

  /** Such a timeline makes the server listen. */
  lemma {:induction false} TimelineListens(before: seq<Deed>, binding: seq<Deed>, looping: seq<Deed>)
    requires Listens(before, binding, looping) && Stop !in Timeline(before, binding, looping)
    ensures Done(Timeline(before, binding, looping)).thread == Looping
    decreases |looping|
  {
    hide Listens;
    if looping == [] {
      var started := before + [Start(true, true)] + binding;
      StillBinding(before, binding, []);
      DoneSnoc(started, Bound(true));
      OneThread(started);
      assert Timeline(before, binding, []) == started + [Bound(true)];
    } else {
      var m := |looping| - 1;
      var shorter := Timeline(before, binding, looping[..m]);
      assert Timeline(before, binding, looping) == shorter + [looping[m]];
      ShorterListens(before, binding, looping, m);
      TimelineListens(before, binding, looping[..m]);
      DoneSnoc(shorter, looping[m]);
      OneThread(shorter);
    }
  }

  lemma ShorterListens(before: seq<Deed>, binding: seq<Deed>, looping: seq<Deed>, m: nat)
    requires Listens(before, binding, looping) && m < |looping|
    ensures Listens(before, binding, looping[..m]) && looping[m] != Break
  {
  }

  lemma {:induction false} StillBinding(before: seq<Deed>, binding: seq<Deed>, looping: seq<Deed>)
    requires Listens(before, binding, looping) && Stop !in before && Stop !in binding
    ensures Done(before + [Start(true, true)] + binding).thread == Binding
    decreases |binding|
  {
    var started := before + [Start(true, true)];
    if binding == [] {
      NotStarted(before);
      DoneSnoc(before, Start(true, true));
      assert started + binding == started;
    } else {
      var m := |binding| - 1;
      StillBinding(before, binding[..m], looping);
      OneThread(started + binding[..m]);
      DoneSnoc(started + binding[..m], binding[m]);
      assert started + binding == started + binding[..m] + [binding[m]];
      assert binding[m] in binding;
    }
  }

  lemma {:induction false} NotStarted(deeds: seq<Deed>)
    requires Start(true, true) !in deeds && Stop !in deeds
    ensures Done(deeds) == Fresh()
  {
    if deeds != [] {
      NotStarted(deeds[..|deeds| - 1]);
      assert deeds[|deeds| - 1] in deeds;
    }
  }

  /** A server that listens, or whose thread is binding its socket, has such a timeline. */
  lemma {:induction false} ListeningHasTimeline(deeds: seq<Deed>)
    returns (before: seq<Deed>, binding: seq<Deed>, looping: seq<Deed>)
    requires Stop !in deeds
    ensures Listens(before, binding, looping)
    ensures Done(deeds).thread == NoThread ==> Start(true, true) !in deeds
    ensures Done(deeds).thread == Binding ==> deeds == before + [Start(true, true)] + binding
    ensures Done(deeds).thread == Looping ==> deeds == Timeline(before, binding, looping)
  {
    before, binding, looping := [], [], [];
    if deeds != [] {
      var n := |deeds| - 1;
      var was, deed := Done(deeds[..n]), deeds[n];
      assert deeds == deeds[..n] + [deed];
      OneThread(deeds[..n]);
      before, binding, looping := ListeningHasTimeline(deeds[..n]);
      match was.thread
      case NoThread =>
        before, binding, looping := deeds[..n], [], [];
      case Binding =>
        looping := [];
        if !deed.Bound? {
          binding := binding + [deed];
        }
      case Looping =>
        if deed != Break {
          looping := looping + [deed];
        }
      case Over =>
    }
  }

  /** The server listens if and only if it was never disconnected, its first working start has
      been followed by a successful bind and listen as the first outcome, and no select has
      failed since. */
  lemma ListensExactly(deeds: seq<Deed>)
    ensures Done(deeds).thread == Looping <==>
              Stop !in deeds
              && exists before, binding, looping ::
                   Listens(before, binding, looping) && deeds == Timeline(before, binding, looping)
  {
    OneThread(deeds);
    if Done(deeds).thread == Looping {
      var before, binding, looping := ListeningHasTimeline(deeds);
    } else if Stop !in deeds {
      forall before, binding, looping | Listens(before, binding, looping) && deeds == Timeline(before, binding, looping)
        ensures false
      {
        TimelineListens(before, binding, looping);
      }
    }
  }

  /** A server that is started again after a disconnect says that it runs, and never listens. */
  lemma RestartIsDeaf(later: seq<Deed>)
    ensures var again := [Start(true, true), Bound(true), Stop];
            && StartResult(Done(again), true, true) == 0
            && Done(again + [Start(true, true)]).state == Running
            && Done(again + [Start(true, true)] + later).thread != Looping
  {
    hide Done;
    var again := [Start(true, true), Bound(true), Stop];
    OneThread(again);
    DoneSnoc(again, Start(true, true));
    assert Done(again).state == Initialized by { StoppedLast(again); }
    OneThread(again + [Start(true, true)] + later);
    assert (again + [Start(true, true)] + later)[2] == Stop;
  }

  lemma StoppedLast(deeds: seq<Deed>)
    requires deeds != [] && deeds[|deeds| - 1] == Stop
    ensures Done(deeds).state in {Initialized, Uninitialized}
  {
  }
}
