/** The server object: its lock-protected regions as methods, each one step of the protocol
    (ci-server.c:166-182, 450-654). */
module BroadcastServer {
  import opened Machine
  import opened Broadcast
  import opened Listener

  function Zip(clients: seq<Client>, hist: seq<History>): (r: seq<Entry>)
    requires |clients| == |hist|
    ensures |r| == |clients|
  {
    seq(|clients|, i requires 0 <= i < |clients| => Entry(clients[i], hist[i]))
  }

  class CIServer {
    var state: State
    var open: bool      // the listening socket is not -1
    var thread: Thread  // how far the listening thread is
    var clientlist: seq<Client>
    ghost var hist: seq<History>
    ghost var log: seq<bytes>
    ghost var fds: seq<FdEvent>
    ghost var sweeping: bool

    ghost predicate Valid()
      reads this
    {
      |clientlist| == |hist|
    }

    ghost function View(): Server
      requires Valid()
      reads this
    {
      Server(Zip(clientlist, hist), log, fds, sweeping)
    }

    ghost function Life(): Lifecycle
      reads this
    {
      Lifecycle(state, open, thread)
    }

    constructor ()
      ensures Valid() && View() == Initial() && Life() == Fresh()
    {
      state, open, thread := Initialized, true, NoThread;
      clientlist, hist, log, fds, sweeping := [], [], [], [], false;
    }

    /** `cisrv_run`. */
    method StartListening(pipeOk: bool, threadOk: bool) returns (rc: int)
      requires Valid()
      modifies `state, `thread
      ensures rc == StartResult(old(Life()), pipeOk, threadOk)
      ensures Life() == Did(old(Life()), Start(pipeOk, threadOk))
    {
      if state == Uninitialized {
        return 1;
      }
      if state == Running {
        return 2;
      }
      if !pipeOk {
        return 3;
      }
      if !threadOk {
        return 4;
      }
      thread := Binding;
      state := Running;
      rc := 0;
    }

    /** The listening thread up to its loop: it returns when there is no socket, or when the
        bind or the listen fails. */
    method BindSocket(ok: bool)
      requires thread == Binding
      modifies `thread
      ensures Life() == Did(old(Life()), Bound(ok))
    {
      thread := Over;
      if !open {
        return;
      }
      if ok {
        thread := Looping;
      }
    }

    method AddClient(sock: int)
      requires Valid() && Enabled(View(), Accept(sock))
      modifies this
      ensures Valid() && View() == Apply(old(View()), Accept(sock)) && Life() == old(Life())
    {
      clientlist := clientlist + [Client(sock, false, MakeVersion(2, 0, 0))];
      hist := hist + [History(0, [], false)];
      fds := fds + [Opened(sock)];
      assert View().list == old(View().list) + [Entry(clientlist[|clientlist| - 1], hist[|hist| - 1])];
    }

    /** One pass of the listening loop over the clients with input. */
    method HandleClients(messages: seq<Handling>)
      requires Valid() && |messages| == |clientlist|
      modifies this
      ensures Valid() && View() == Apply(old(View()), Handle(messages)) && Life() == old(Life())
    {
      ghost var was := View();
      var i := 0;
      while i < |clientlist|
        invariant 0 <= i <= |clientlist| == |messages| && Valid() && Life() == old(Life())
        invariant log == was.log && fds == was.fds && sweeping == was.sweeping
        invariant |was.list| == |clientlist|
        invariant forall k | 0 <= k < |clientlist| ::
          View().list[k] == if k < i then HandleOne(was.list[k], messages[k], |was.log|) else was.list[k]
      {
        assert View().list[i] == was.list[i];
        match messages[i] {
          case Ignored =>
          case Leaves => clientlist := clientlist[i := clientlist[i].(marked := true)];
          case Reports(v) =>
            if Modern(v) && !Modern(clientlist[i].version) {
              hist := hist[i := hist[i].(since := |log|, stream := [])];
            }
            clientlist := clientlist[i := clientlist[i].(version := v)];
        }
        i := i + 1;
      }
      assert View().list == Apply(was, Handle(messages)).list;
    }

    /** Shuts the socket down and takes the entry out of the list. */
    method RemoveClient(i: nat)
      requires Valid() && i < |clientlist|
      modifies `clientlist, `hist, `fds
      ensures Valid() && fds == old(fds) + [Closed(old(clientlist[i].sock))]
      ensures View().list == old(View().list)[..i] + old(View().list)[i + 1..]
    {
      ZipWithout(clientlist, hist, i);
      fds := fds + [Closed(clientlist[i].sock)];
      clientlist := clientlist[..i] + clientlist[i + 1..];
      hist := hist[..i] + hist[i + 1..];
    }

    /** One turn of the removal loop; `next` is the index it goes on with. */
    method RemoveIfMarked(i: nat, ghost was: seq<Entry>, ghost k: nat, ghost before: seq<FdEvent>) returns (next: nat)
      requires Valid() && i < |clientlist| && Swept(was, View().list, i, k)
      requires k <= |was| && fds == before + ClosedMarked(was[..k])
      modifies `clientlist, `hist, `fds
      ensures Valid() && k < |was| && next <= |clientlist| && Swept(was, View().list, next, k + 1)
      ensures fds == before + ClosedMarked(was[..k + 1])
    {
      hide Unmarked, ClosedMarked, Zip, Swept;
      SweepStep(was, View().list, i, k);
      ZipWithout(clientlist, hist, i);
      next := i;
      if clientlist[i].marked {
        RemoveClient(i);
      } else {
        next := i + 1;
      }
    }

    method RemoveMarkedClients(ghost broadcaster: bool)
      requires Valid()
      modifies `clientlist, `hist, `fds, `sweeping
      ensures Valid() && View() == Apply(old(View()), Sweep(broadcaster))
    {
      hide Unmarked, ClosedMarked, Zip, Swept, Apply, Modern;
      ghost var was := View().list;
      SweepIs(View(), broadcaster);
      ghost var k: nat := 0;
      var i: nat := 0;
      SweepBegins(was);
      while i < |clientlist|
        invariant Valid() && sweeping == old(sweeping)
        invariant k <= |was| && i <= |clientlist| && Swept(was, View().list, i, k)
        invariant fds == old(fds) + ClosedMarked(was[..k])
        decreases |was| - k
      {
        i := RemoveIfMarked(i, was, k, old(fds));
        k := k + 1;
      }
      SweepEnds(was, View().list, i, k);
      sweeping := sweeping && !broadcaster;
    }

    /** `send`: the kernel takes any positive part of the data, or refuses. */
    method Take(data: bytes) returns (rc: int, ghost taken: bytes)
      requires data != []
      ensures rc <= |data| && taken == if rc > 0 then data[..rc] else []
    {
      rc := *;
      if rc > |data| {
        rc := |data|;
      }
      taken := if rc > 0 then data[..rc] else [];
    }

    /** `send` until the frame is out or the kernel refuses; `wire` is all the kernel took. */
    method SendFrame(frame: bytes) returns (written: nat, ghost wire: bytes, ghost refused: bool)
      ensures written <= |frame| && wire == frame[..written]
      ensures refused <==> written < |frame|
    {
      written, wire, refused := 0, [], false;
      while written < |frame|
        invariant written <= |frame| && wire == frame[..written] && !refused
        decreases |frame| - written
      {
        var rc, taken := Take(frame[written..]);
        if rc <= 0 {
          refused := true;
          return;
        }
        wire := wire + taken;
        written := written + rc;
      }
    }

    /** The locked loop of `cisrv_broadcast_message`. */
    method SendToAll(frame: bytes, call: bool) returns (ghost sendings: seq<Sending>)
      requires Valid() && !sweeping
      modifies this
      ensures Valid() && Enabled(old(View()), Send(frame, call, sendings))
      ensures View() == Apply(old(View()), Send(frame, call, sendings)) && Life() == old(Life())
    {
      ghost var was := View();
      sendings := [];
      var i := 0;
      while i < |clientlist|
        invariant 0 <= i <= |clientlist| == |was.list| && Valid() && Life() == old(Life())
        invariant log == was.log && fds == was.fds && !sweeping && |sendings| == i
        invariant forall k | 0 <= k < i :: SendingFits(was.list[k], frame, sendings[k])
        invariant forall k | 0 <= k < |clientlist| ::
          View().list[k] == if k < i then SendOne(was.list[k], frame, call, sendings[k]) else was.list[k]
      {
        assert View().list[i] == was.list[i];
        var client := clientlist[i];
        if Modern(client.version) {
          var written, wire, refused := SendFrame(frame);
          if written < |frame| {
            client := client.(marked := true);
          }
          hist := hist[i := History(hist[i].since, hist[i].stream + wire, hist[i].torn || refused)];
          sendings := sendings + [Took(written)];
        } else {
          var rc: int := *;
          if !call && 0 <= rc < LEGACY_SIZE {
            client := client.(marked := true);
          }
          sendings := sendings + [Returned(rc)];
        }
        clientlist := clientlist[i := client];
        i := i + 1;
      }
      log := log + [frame];
      sweeping := true;
      assert View().list == Apply(was, Send(frame, call, sendings)).list;
    }

    /** `cisrv_broadcast_message`, when no step of the other thread comes between. */
    method BroadcastMessage(frame: bytes, call: bool) returns (ghost sendings: seq<Sending>)
      requires Valid() && !sweeping
      modifies this
      ensures Valid() && Enabled(old(View()), Send(frame, call, sendings))
      ensures View() == Apply(Apply(old(View()), Send(frame, call, sendings)), Sweep(true)) && Life() == old(Life())
    {
      sendings := SendToAll(frame, call);
      RemoveMarkedClients(true);
    }

    method CloseAllClients()
      requires Valid() && !sweeping
      modifies this
      ensures Valid() && View() == Apply(old(View()), CloseAll) && Life() == old(Life())
    {
      hide Zip, Closing;
      ghost var was, rest := View().list, View().list;
      while clientlist != []
        invariant Valid() && Life() == old(Life()) && log == old(log) && !sweeping
        invariant View().list == rest && fds + Closing(rest) == old(fds) + Closing(was)
        decreases |clientlist|
      {
        ZipWithout(clientlist, hist, 0);
        CloseStep(rest, fds);
        RemoveClient(0);
        rest := rest[1..];
      }
      CloseNothing(rest);
    }

    /** `cisrv_disconnect`, after the listening thread has been joined: a server that ran tells
        its clients, and every initialized server ends with an empty list and no open client
        socket. */
    method Disconnect(shutdown: bytes)
      requires Valid() && !sweeping && RegistryOk(View())
      modifies this
      ensures Valid()
      ensures Life() == Did(old(Life()), Stop)
      ensures old(state) == Uninitialized ==> View() == old(View())
      ensures old(state) != Uninitialized ==>
                && clientlist == [] && OpenAfter(fds) == Some({})
                && log == old(log) + if old(state) == Initialized then [] else [shutdown]
    {
      hide RegistryOk, OpenAfter, Apply, Unmarked, SendOne, Enabled;
      if state == Running {
        thread := NoThread;  // joined
        state := Connected;
      }
      if state == Connected {
        ghost var was := View();
        ghost var sendings := BroadcastMessage(shutdown, false);
        SendThenSweep(was, shutdown, sendings);
        state := Initialized;
      }
      if state != Uninitialized {
        state := Initialized;
        ghost var was := View();
        AlwaysClosable(was);
        StepKeepsRegistry(was, CloseAll);
        CloseAllClients();
        ClosesAll(was);
        assert |View().list| == |clientlist|;
        open := false;
      }
    }
  }

  /** The removal has dealt with the first k entries of `was` and goes on at entry i of `now`. */
  predicate Swept(was: seq<Entry>, now: seq<Entry>, i: nat, k: nat) {
    k <= |was| && i == |Unmarked(was[..k])| && now == Unmarked(was[..k]) + was[k..]
  }

  lemma SweepIs(s: Server, broadcaster: bool)
    ensures Apply(s, Sweep(broadcaster))
         == Server(Unmarked(s.list), s.log, s.fds + ClosedMarked(s.list), s.sweeping && !broadcaster)
  {
  }

  lemma SweepBegins(was: seq<Entry>)
    ensures Swept(was, was, 0, 0) && ClosedMarked(was[..0]) == []
  {
    assert was == [] + was[0..];
  }

  lemma SweepStep(was: seq<Entry>, now: seq<Entry>, i: nat, k: nat)
    requires Swept(was, now, i, k) && i < |now|
    ensures k < |was| && now[i] == was[k]
    ensures now[i].client.marked ==> Swept(was, now[..i] + now[i + 1..], i, k + 1)
    ensures !now[i].client.marked ==> Swept(was, now, i + 1, k + 1)
    ensures ClosedMarked(was[..k + 1])
         == ClosedMarked(was[..k]) + if now[i].client.marked then [Closed(now[i].client.sock)] else []
  {
    assert was[..k + 1] == was[..k] + [was[k]];
    UnmarkedConcat(was[..k], [was[k]]);
  }

  lemma SweepEnds(was: seq<Entry>, now: seq<Entry>, i: nat, k: nat)
    requires Swept(was, now, i, k) && i >= |now|
    ensures now == Unmarked(was) && was[..k] == was
  {
    assert was[..k] == was;
  }

  lemma CloseStep(rest: seq<Entry>, fds: seq<FdEvent>)
    requires rest != []
    ensures rest[..0] + rest[1..] == rest[1..]
    ensures fds + Closing(rest) == fds + [Closed(rest[0].client.sock)] + Closing(rest[1..])
  {
  }

  lemma CloseNothing(list: seq<Entry>)
    requires list == []
    ensures Closing(list) == []
  {
  }

  lemma ZipWithout(clients: seq<Client>, hist: seq<History>, i: nat)
    requires |clients| == |hist| && i < |clients|
    ensures Zip(clients, hist)[i].client == clients[i]
    ensures Zip(clients[..i] + clients[i + 1..], hist[..i] + hist[i + 1..])
         == Zip(clients, hist)[..i] + Zip(clients, hist)[i + 1..]
  {
  }

  lemma SendThenSweep(s: Server, frame: bytes, sendings: seq<Sending>)
    requires RegistryOk(s) && Enabled(s, Send(frame, false, sendings))
    ensures var t := Apply(Apply(s, Send(frame, false, sendings)), Sweep(true));
            RegistryOk(t) && t.log == s.log + [frame] && !t.sweeping
  {
    hide RegistryOk;
    StepKeepsRegistry(s, Send(frame, false, sendings));
    StepKeepsRegistry(Apply(s, Send(frame, false, sendings)), Sweep(true));
  }

  lemma AlwaysClosable(s: Server)
    ensures Enabled(s, CloseAll) <==> !s.sweeping
  {
  }

  lemma ClosesAll(s: Server)
    requires !s.sweeping
    ensures Apply(s, CloseAll).log == s.log && Apply(s, CloseAll).list == []
  {
  }
}
