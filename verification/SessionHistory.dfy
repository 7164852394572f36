/** The sessions of the forwarder against the history of a run: when they live, when they count as used. */
module SessionHistory {
  import opened Keys
  import opened Options
  import opened ChangeDetector
  import opened Words
  import opened PublicPort
  import opened Forwarder
  import opened ForwarderFacts

  /** A datagram from this client. */
  function Asking(key: Key): Event -> bool {
    (ev: Event) => ev.Recv? && ev.key == key
  }

  /** The client task begins a new window. */
  function Clearing(key: Key): Event -> bool {
    (ev: Event) => (ev.ClientStart? || ev.ClientTimeout? || ev.ClientData?) && ev.key == key
  }

  /** A datagram has come from this client since its task last began a window. */
  ghost predicate Used(evs: seq<Event>, key: Key) {
    StillOn(evs, Asking(key), Clearing(key))
  }

  /** A server socket is open at the end of this history. */
  ghost predicate Listening(evs: seq<Event>) {
    StillOn(evs, GetsSocket, EndsServer)
  }

  /** At index `k` the connect for this client succeeds. */
  ghost predicate Born(c: Config, evs: seq<Event>, k: nat, key: Key) {
    && k < |evs| && evs[k].Connected? && evs[k].ok
    && var o := RunAll(c, evs[..k]);
    o.Fine? && evs[k].i < |o.sys.s.servers| && o.sys.s.servers[evs[k].i].Connecting?
    && o.sys.s.servers[evs[k].i].key == key
  }

  /**
   * At index `j` the client task of this session ends: its receive fails, or times out though no datagram has come
   * from the client in the window, or there is a datagram from the target that cannot be sent on.
   */
  ghost predicate Dies(evs: seq<Event>, j: nat, key: Key) {
    j < |evs| &&
    match evs[j]
    case ClientFail(k) => k == key
    case ClientTimeout(k) => k == key && !Used(evs[..j], key)
    case ClientData(k, _, sent) => k == key && !(sent && Listening(evs[..j]))
    case _ => false
  }

  /** A session of this client was made in the run and has not ended. */
  ghost predicate Lives(c: Config, evs: seq<Event>, key: Key) {
    exists k: nat :: Born(c, evs, k, key) && forall j: nat :: k < j < |evs| ==> !Dies(evs, j, key)
  }

  // ----- one step -----

  /** The same as `Dies`, told by the state before the event. */
  predicate Ends(s: State, ev: Event, key: Key) {
    match ev
    case ClientFail(k) => k == key
    case ClientTimeout(k) => k == key && !(key in s.table && s.table[key].active)
    case ClientData(k, _, sent) => k == key && !(sent && s.sfd >= 0)
    case _ => false
  }

  predicate Makes(s: State, ev: Event, key: Key) {
    ev.Connected? && ev.ok && ev.i < |s.servers| && s.servers[ev.i].Connecting? && s.servers[ev.i].key == key
  }

  lemma TableStep(c: Config, s: State, ev: Event, key: Key)
    requires s.pub.memory.Valid() && Allowed(c, s, ev)
    ensures key in Step(c, s, ev).0.table <==> Makes(s, ev, key) || (key in s.table && !Ends(s, ev, key))
  {
    hide Bind, Reply, Aim, Without;
  }

  lemma FlagStep(c: Config, s: State, ev: Event, key: Key)
    requires s.pub.memory.Valid() && Coherent(c, s) && Allowed(c, s, ev)
    requires var t := Step(c, s, ev).0.table; key in t && t[key].started
    ensures var t := Step(c, s, ev).0.table;
            if Clearing(key)(ev) then !t[key].active
            else key in s.table && s.table[key].started && (t[key].active <==> Asking(key)(ev) || s.table[key].active)
  {
    if ev.Connected? {
      ServerKeyIsNew(c, s, ev.i);
    }
    hide Bind, Reply, Aim, Without, Coherent;
  }

  // ----- runs -----

  /** The flag of a session tells whether it was used in the current window. */
  lemma {:induction false} ActiveIffUsed(c: Config, evs: seq<Event>, key: Key)
    requires RunAll(c, evs).Fine?
    requires var t := RunAll(c, evs).sys.s.table; key in t && t[key].started
    ensures RunAll(c, evs).sys.s.table[key].active <==> Used(evs, key)
  {
    assert evs != [];
    var front, ev := evs[..|evs| - 1], evs[|evs| - 1];
    LastStep(c, evs);
    RunsAreSafe(c, front);
    FlagStep(c, RunAll(c, front).sys.s, ev, key);
    StillOnSnoc(evs, Asking(key), Clearing(key));
    assert !(Asking(key)(ev) && Clearing(key)(ev));
    hide RunAll, Step, Inv, StillOn, Asking, Clearing;
    if !Clearing(key)(ev) {
      ActiveIffUsed(c, front, key);
    }
  }

  /** `Ends` and `Dies` agree along a run. */
  lemma {:induction false} EndIsDeath(c: Config, evs: seq<Event>, key: Key)
    requires RunAll(c, evs).Fine? && evs != []
    ensures RunAll(c, evs[..|evs| - 1]).Fine?
    ensures Ends(RunAll(c, evs[..|evs| - 1]).sys.s, evs[|evs| - 1], key) <==> Dies(evs, |evs| - 1, key)
  {
    var front, ev := evs[..|evs| - 1], evs[|evs| - 1];
    LastStep(c, evs);
    StaticsTellHistory(c, front);
    hide RunAll, Step, StillOn, Used;
    if ev.ClientTimeout? && ev.key == key {
      ActiveIffUsed(c, front, key);
    }
  }

  lemma SamePast(c: Config, evs: seq<Event>, k: nat, key: Key)
    requires k < |evs| - 1
    ensures var front := evs[..|evs| - 1];
            Born(c, evs, k, key) == Born(c, front, k, key) && Dies(evs, k, key) == Dies(front, k, key)
  {
    var front := evs[..|evs| - 1];
    assert front[..k] == evs[..k] && front[k] == evs[k];
    hide RunAll, Used, Listening;
  }

  lemma {:induction false} LivesOn(c: Config, evs: seq<Event>, key: Key)
    requires evs != [] && Lives(c, evs[..|evs| - 1], key) && !Dies(evs, |evs| - 1, key)
    ensures Lives(c, evs, key)
  {
    hide Born, Dies, RunAll;
    var front := evs[..|evs| - 1];
    var k: nat :| Born(c, front, k, key) && forall j: nat :: k < j < |front| ==> !Dies(front, j, key);
    InRange(c, front, k, key);
    SamePast(c, evs, k, key);
    forall j: nat | k < j < |evs| ensures !Dies(evs, j, key) {
      if j < |front| {
        SamePast(c, evs, j, key);
      }
    }
  }

  lemma {:induction false} LivedBefore(c: Config, evs: seq<Event>, key: Key)
    requires evs != [] && Lives(c, evs, key) && !Born(c, evs, |evs| - 1, key)
    ensures Lives(c, evs[..|evs| - 1], key) && !Dies(evs, |evs| - 1, key)
  {
    hide Born, Dies, RunAll;
    var front := evs[..|evs| - 1];
    var k: nat :| Born(c, evs, k, key) && forall j: nat :: k < j < |evs| ==> !Dies(evs, j, key);
    InRange(c, evs, k, key);
    SamePast(c, evs, k, key);
    forall j: nat | k < j < |front| ensures !Dies(front, j, key) {
      SamePast(c, evs, j, key);
    }
  }

  lemma {:induction false} LivesSnoc(c: Config, evs: seq<Event>, key: Key)
    requires evs != []
    ensures var front, n := evs[..|evs| - 1], |evs| - 1;
            Lives(c, evs, key) <==> Born(c, evs, n, key) || (Lives(c, front, key) && !Dies(evs, n, key))
  {
    if Born(c, evs, |evs| - 1, key) {
      hide Born, Dies;
      assert Lives(c, evs, key);
    } else {
      hide Born, Dies, Lives;
      if Lives(c, evs, key) {
        LivedBefore(c, evs, key);
      } else if Lives(c, evs[..|evs| - 1], key) && !Dies(evs, |evs| - 1, key) {
        LivesOn(c, evs, key);
      }
    }
  }

  lemma InRange(c: Config, evs: seq<Event>, k: nat, key: Key)
    requires Born(c, evs, k, key)
    ensures k < |evs|
  {}

  lemma {:induction false} BirthIsMaking(c: Config, evs: seq<Event>, key: Key)
    requires RunAll(c, evs).Fine? && evs != []
    ensures RunAll(c, evs[..|evs| - 1]).Fine?
    ensures Makes(RunAll(c, evs[..|evs| - 1]).sys.s, evs[|evs| - 1], key) <==> Born(c, evs, |evs| - 1, key)
  {
    LastStep(c, evs);
    hide RunAll;
  }

  /**
   * After any run, kills and restarts of the server included: a client is in the table if and only if a connect
   * for it has succeeded in the run and its task has not ended since; and a session whose task has started is
   * marked active if and only if a datagram has come from its client in the current window.
   */
  lemma {:induction false} SessionsTellHistory(c: Config, evs: seq<Event>, key: Key)
    requires RunAll(c, evs).Fine?
    ensures var t := RunAll(c, evs).sys.s.table;
            && (key in t <==> Lives(c, evs, key))
            && (key in t && t[key].started ==> (t[key].active <==> Used(evs, key)))
  {
    if evs != [] {
      var front, ev := evs[..|evs| - 1], evs[|evs| - 1];
      LastStep(c, evs);
      SessionsTellHistory(c, front, key);
      TableStep(c, RunAll(c, front).sys.s, ev, key);
      EndIsDeath(c, evs, key);
      BirthIsMaking(c, evs, key);
      LivesSnoc(c, evs, key);
      hide RunAll, Step, Lives, Used, Makes, Ends, Born, Dies;
      if key in RunAll(c, evs).sys.s.table && RunAll(c, evs).sys.s.table[key].started {
        ActiveIffUsed(c, evs, key);
      }
    }
  }

  // ----- what the outside sees of one event, from any reachable state -----

  /** A run with one more event. */
  lemma {:induction false} OneMore(c: Config, evs: seq<Event>, ev: Event)
    requires RunAll(c, evs + [ev]).Fine?
    ensures RunAll(c, evs).Fine?
    ensures var o, p := RunAll(c, evs).sys, RunAll(c, evs + [ev]).sys;
            && Allowed(c, o.s, ev) && p.s == Step(c, o.s, ev).0 && p.log == o.log + Step(c, o.s, ev).1
            && ApplyAll(o.n, Step(c, o.s, ev).1) == Some(p.n) && Inv(c, o.s, o.n) && Inv(c, p.s, p.n)
  {
    assert (evs + [ev])[..|evs|] == evs;
    RunsAreSafe(c, evs);
    RunsAreSafe(c, evs + [ev]);
    hide Step, Apply, ApplyAll, Inv, Allowed, Fresh;
  }

  /** The descriptor of a session that has left the table is closed. */
  lemma ClosedWith(c: Config, s: State, n: Net, t: State, m: Net, key: Key)
    requires Inv(c, s, n) && Inv(c, t, m) && key in s.table && t.table == s.table - {key}
    requires t.servers == s.servers && t.sfd == s.sfd
    ensures s.table[key].fd in n.fds && s.table[key].fd !in m.fds
  {
    hide Port;
    var fd := s.table[key].fd;
    assert For(n.fds[fd].purpose, key);
    assert forall k <- t.table :: t.table[k].fd != fd;
    assert forall p <- t.servers :: p.Connecting? ==> p.fd != fd;
  }

  lemma EndStep(c: Config, s: State, ev: Event, key: Key)
    requires s.pub.memory.Valid() && Allowed(c, s, ev) && Ends(s, ev, key)
    ensures key in s.table
    ensures var (t, acts) := Step(c, s, ev);
            var fd := s.table[key].fd;
            var answer := if !ev.ClientData? then []
                          else [FromTarget(fd, ev.data),
                                if s.sfd >= 0 then Refused(s.sfd, fd, key, ev.data) else Lost(fd, ev.data)];
            t == s.(table := s.table - {key}) && acts == answer + [DelFd(ClientTask(key), fd), Close(fd)]
  {}

  /**
   * From any reachable state: when a client task ends, for whatever reason, its session and nothing else leaves
   * the table, its descriptor is deregistered and closed, and an answer that could not be sent is accounted for.
   */
  lemma {:induction false} SessionEnds(c: Config, evs: seq<Event>, ev: Event, key: Key)
    requires RunAll(c, evs + [ev]).Fine? && Dies(evs + [ev], |evs|, key)
    ensures RunAll(c, evs).Fine? && key in RunAll(c, evs).sys.s.table
    ensures var o, p := RunAll(c, evs).sys, RunAll(c, evs + [ev]).sys;
            var fd := o.s.table[key].fd;
            var answer := if !ev.ClientData? then []
                          else [FromTarget(fd, ev.data),
                                if o.s.sfd >= 0 then Refused(o.s.sfd, fd, key, ev.data) else Lost(fd, ev.data)];
            && p.s == o.s.(table := o.s.table - {key})
            && fd in o.n.fds && fd !in p.n.fds
            && p.log == o.log + (answer + [DelFd(ClientTask(key), fd), Close(fd)])
  {
    OneMore(c, evs, ev);
    EndIsDeath(c, evs + [ev], key);
    assert (evs + [ev])[..|evs|] == evs;
    var o, p := RunAll(c, evs).sys, RunAll(c, evs + [ev]).sys;
    EndStep(c, o.s, ev, key);
    hide RunAll, Step, Inv, Dies, Ends, Allowed, ApplyAll;
    ClosedWith(c, o.s, o.n, p.s, p.n, key);
  }

  lemma GoOnStep(c: Config, s: State, ev: Event, key: Key)
    requires s.pub.memory.Valid() && Allowed(c, s, ev) && !Ends(s, ev, key)
    requires (ev.ClientTimeout? || ev.ClientData?) && ev.key == key
    ensures key in s.table && (ev.ClientData? ==> s.sfd >= 0)
    ensures var (t, acts) := Step(c, s, ev);
            var x := s.table[key];
            && t == s.(table := s.table[key := Sess(x.fd, false, true)])
            && acts == if ev.ClientData? then [FromTarget(x.fd, ev.data), SendClient(s.sfd, x.fd, key, ev.data)] else []
  {}

  /** From any reachable state: what else times out or comes back leaves the session, unused, and all else alone. */
  lemma {:induction false} SessionGoesOn(c: Config, evs: seq<Event>, ev: Event, key: Key)
    requires RunAll(c, evs + [ev]).Fine? && !Dies(evs + [ev], |evs|, key)
    requires (ev.ClientTimeout? || ev.ClientData?) && ev.key == key
    ensures RunAll(c, evs).Fine? && key in RunAll(c, evs).sys.s.table
    ensures ev.ClientData? ==> RunAll(c, evs).sys.s.sfd >= 0
    ensures var o, p := RunAll(c, evs).sys, RunAll(c, evs + [ev]).sys;
            var fd := o.s.table[key].fd;
            && p.s == o.s.(table := o.s.table[key := Sess(fd, false, true)])
            && p.log == o.log + if ev.ClientData? then [FromTarget(fd, ev.data), SendClient(o.s.sfd, fd, key, ev.data)]
                                else []
  {
    OneMore(c, evs, ev);
    EndIsDeath(c, evs + [ev], key);
    assert (evs + [ev])[..|evs|] == evs;
    GoOnStep(c, RunAll(c, evs).sys.s, ev, key);
    hide RunAll, Step, Inv, Dies, Ends, Allowed, ApplyAll;
  }

  /** From any reachable state: a datagram from a tabled client leaves at once on its session's descriptor. */
  lemma {:induction false} KnownIsForwarded(c: Config, evs: seq<Event>, i: nat, key: Key, data: Data)
    requires RunAll(c, evs + [Recv(i, key, data)]).Fine?
    ensures RunAll(c, evs).Fine?
    ensures var o, p := RunAll(c, evs).sys, RunAll(c, evs + [Recv(i, key, data)]).sys;
            key in o.s.table ==>
              var x := o.s.table[key];
              && p.log == o.log + [Received(key, data), SendTarget(x.fd, key, data)]
              && p.s == o.s.(table := o.s.table[key := Sess(x.fd, true, x.started)])
  {
    OneMore(c, evs, Recv(i, key, data));
    RecvIs(c, RunAll(c, evs).sys.s, i, key, data);
    hide RunAll, Step, Inv, Allowed, ApplyAll;
  }

  /** From any reachable state: a connect that succeeds tables its client and passes the datagram in hand on. */
  lemma {:induction false} ConnectTables(c: Config, evs: seq<Event>, i: nat)
    requires RunAll(c, evs + [Event.Connected(i, true)]).Fine?
    ensures RunAll(c, evs).Fine? && i < |RunAll(c, evs).sys.s.servers| && RunAll(c, evs).sys.s.servers[i].Connecting?
    ensures var o, p := RunAll(c, evs).sys, RunAll(c, evs + [Event.Connected(i, true)]).sys;
            var h := o.s.servers[i];
            && o.n.pending == Some((h.key, h.data)) && h.key !in o.s.table
            && p.log == o.log + [DelFd(ServerTask, h.fd), SendTarget(h.fd, h.key, h.data)]
            && p.s == o.s.(servers := [Receiving], table := o.s.table[h.key := Sess(h.fd, true, false)])
  {
    OneMore(c, evs, Event.Connected(i, true));
    var o := RunAll(c, evs).sys;
    ConnectedIs(c, o.s, i, true);
    ConnectedAccounted(c, o.s, o.n, i);
    ServerKeyIsNew(c, o.s, i);
    hide RunAll, Step, Port, Accounted, ApplyAll;
    assert o.s.servers[i := Receiving] == [Receiving];
  }

  /**
   * From any reachable state: when resolving or connecting fails, the server receives again, the datagram in hand
   * is given up, a descriptor in hand is closed, and the sessions stay.
   */
  lemma {:induction false} GivesUp(c: Config, evs: seq<Event>, ev: Event)
    requires RunAll(c, evs + [ev]).Fine? && ((ev.Resolved? && ev.fd.None?) || (ev.Connected? && !ev.ok))
    ensures RunAll(c, evs).Fine? && ev.i < |RunAll(c, evs).sys.s.servers|
    ensures var o, p := RunAll(c, evs).sys, RunAll(c, evs + [ev]).sys;
            var h := o.s.servers[ev.i];
            && p.s == o.s.(servers := [Receiving]) && p.n.pending == None
            && (if ev.Resolved? then h.Resolving? && p.log == o.log + [Dropped(h.key, h.data)] && p.n.fds == o.n.fds
                else h.Connecting? && p.log == o.log + [DelFd(ServerTask, h.fd), Close(h.fd), Dropped(h.key, h.data)]
                     && p.n.fds == o.n.fds - {h.fd})
  {
    OneMore(c, evs, ev);
    var o := RunAll(c, evs).sys;
    var h := o.s.servers[ev.i];
    assert h in o.s.servers;
    assert o.s.servers[ev.i := Receiving] == [Receiving];
    GivenUpAccounted(c, o.s, o.n, ev.i);
    if ev.Resolved? {
      ResolvedIs(c, o.s, ev.i, None);
      ApplyOne(o.n, Dropped(h.key, h.data));
    } else {
      ConnectedIs(c, o.s, ev.i, false);
      DelClose(o.n, ServerTask, h.fd);
      ApplyThree(o.n, DelFd(ServerTask, h.fd), Close(h.fd), Dropped(h.key, h.data));
    }
    hide RunAll, Step, Port, Coherent, Accounted, ApplyAll;
  }

  /** From any reachable state: the server's end closes its socket and leaves every session and descriptor else. */
  lemma {:induction false} ServerEnds(c: Config, evs: seq<Event>, i: nat, err: bool)
    requires RunAll(c, evs + [Stop(i, err)]).Fine?
    ensures RunAll(c, evs).Fine? && RunAll(c, evs).sys.s.sfd >= 0
    ensures var o, p := RunAll(c, evs).sys, RunAll(c, evs + [Stop(i, err)]).sys;
            && p.log == o.log + [DelFd(ServerTask, o.s.sfd), Close(o.s.sfd)] && p.n.fds == o.n.fds - {o.s.sfd}
            && p.s == o.s.(servers := [], task := false, sfd := -1)
  {
    OneMore(c, evs, Stop(i, err));
    var o := RunAll(c, evs).sys;
    assert Without(o.s.servers, i) == [];
    DelClose(o.n, ServerTask, o.s.sfd);
    hide RunAll, Port, ApplyAll;
  }

  /** What no one outside sees: a binding, a kill, a wake, and a start that fails. */
  lemma {:induction false} SilentEvents(c: Config, evs: seq<Event>, ev: Event)
    requires RunAll(c, evs + [ev]).Fine?
    requires ev.Binding? || ev.Kill? || ev.ClientWake? || (ev.Start? && ev.fd.None?)
    ensures RunAll(c, evs).Fine?
    ensures var o, p := RunAll(c, evs).sys, RunAll(c, evs + [ev]).sys;
            p.log == o.log && p.n == o.n && p.s.table == o.s.table
  {
    OneMore(c, evs, ev);
    ApplyNone(RunAll(c, evs).sys.n);
    hide RunAll, Inv, ApplyAll, Bind;
  }

  /** From any reachable state: a datagram from a new client is taken, and the server resolves for it. */
  lemma {:induction false} NewIsParked(c: Config, evs: seq<Event>, i: nat, key: Key, data: Data)
    requires RunAll(c, evs + [Recv(i, key, data)]).Fine?
    ensures RunAll(c, evs).Fine?
    ensures var o, p := RunAll(c, evs).sys, RunAll(c, evs + [Recv(i, key, data)]).sys;
            key !in o.s.table ==>
              && p.log == o.log + [Received(key, data)]
              && p.s == o.s.(servers := [Resolving(key, data, Aim(c, o.s))])
  {
    OneMore(c, evs, Recv(i, key, data));
    var o := RunAll(c, evs).sys;
    RecvIs(c, o.s, i, key, data);
    assert o.s.servers[i := Resolving(key, data, Aim(c, o.s))] == [Resolving(key, data, Aim(c, o.s))];
    hide RunAll, Step, Inv, Aim, ApplyAll;
  }

  /** From any reachable state: the upstream socket is opened for the client resolved, with the server's task. */
  lemma {:induction false} OpensUpstream(c: Config, evs: seq<Event>, i: nat, fd: nat)
    requires RunAll(c, evs + [Event.Resolved(i, Some(fd))]).Fine?
    ensures RunAll(c, evs).Fine? && i < |RunAll(c, evs).sys.s.servers| && RunAll(c, evs).sys.s.servers[i].Resolving?
    ensures var o, p := RunAll(c, evs).sys, RunAll(c, evs + [Event.Resolved(i, Some(fd))]).sys;
            var h := o.s.servers[i];
            && p.log == o.log + [Open(fd, Upstream(h.key, h.aim)), AddFd(ServerTask, fd)]
            && p.s == o.s.(servers := [Connecting(h.key, h.data, fd)])
  {
    OneMore(c, evs, Event.Resolved(i, Some(fd)));
    var o := RunAll(c, evs).sys;
    ResolvedIs(c, o.s, i, Some(fd));
    var h := o.s.servers[i];
    assert o.s.servers[i := Connecting(h.key, h.data, fd)] == [Connecting(h.key, h.data, fd)];
    hide RunAll, Step, Inv, ApplyAll;
  }

  /** From any reachable state: a server task gets its socket, forgets a kill and receives; the sessions stay. */
  lemma {:induction false} ServerStarts(c: Config, evs: seq<Event>, i: nat, fd: nat)
    requires RunAll(c, evs + [Event.Start(i, Some(fd))]).Fine?
    ensures RunAll(c, evs).Fine?
    ensures var o, p := RunAll(c, evs).sys, RunAll(c, evs + [Event.Start(i, Some(fd))]).sys;
            && p.log == o.log + [Open(fd, Listen), AddFd(ServerTask, fd)]
            && p.s == o.s.(servers := [Receiving], sfd := fd, quit := false)
  {
    OneMore(c, evs, Event.Start(i, Some(fd)));
    var o := RunAll(c, evs).sys;
    StartIs(c, o.s, i, fd);
    assert o.s.servers[i := Receiving] == [Receiving];
    hide RunAll, Step, Inv, ApplyAll;
  }

  lemma StartStep(c: Config, s: State, key: Key)
    requires s.pub.memory.Valid() && Allowed(c, s, Event.ClientStart(key))
    ensures key in s.table && !s.table[key].started
    ensures var fd := s.table[key].fd;
            Step(c, s, Event.ClientStart(key))
            == (s.(table := s.table[key := Sess(fd, false, true)]), [AddFd(ClientTask(key), fd)])
  {}

  /** From any reachable state: a client task takes its descriptor over and begins its first window. */
  lemma {:induction false} ClientStarts(c: Config, evs: seq<Event>, key: Key)
    requires RunAll(c, evs + [Event.ClientStart(key)]).Fine?
    ensures RunAll(c, evs).Fine? && key in RunAll(c, evs).sys.s.table && !RunAll(c, evs).sys.s.table[key].started
    ensures var o, p := RunAll(c, evs).sys, RunAll(c, evs + [Event.ClientStart(key)]).sys;
            var fd := o.s.table[key].fd;
            && p.log == o.log + [AddFd(ClientTask(key), fd)]
            && p.s == o.s.(table := o.s.table[key := Sess(fd, false, true)])
  {
    OneMore(c, evs, Event.ClientStart(key));
    StartStep(c, RunAll(c, evs).sys.s, key);
    hide RunAll, Step, Inv, ApplyAll;
  }

  // ----- the public port of a run -----

  /** What STUN has reported. */
  function Bindings(evs: seq<Event>): seq<Obs> {
    if evs == [] then []
    else
      var ev := evs[|evs| - 1];
      Bindings(evs[..|evs| - 1]) + if ev.Binding? then [ev.obs] else []
  }

  lemma PubStep(c: Config, s: State, ev: Event)
    requires s.pub.memory.Valid() && Allowed(c, s, ev)
    ensures Step(c, s, ev).0.pub == if ev.Binding? then Bind(c.e, s.pub, ev.obs) else s.pub
  {
    hide Bind, Reply, Aim, Without;
  }

  /**
   * After any run the stored port and the memory are those of its bindings alone: no client, kill or restart
   * between them matters.
   */
  lemma {:induction false} PubIsBindings(c: Config, evs: seq<Event>)
    requires RunAll(c, evs).Fine?
    ensures forall o <- Bindings(evs) :: o.Valid()
    ensures RunAll(c, evs).sys.s.pub == BindAll(c.e, Bindings(evs))
  {
    if evs != [] {
      var front, ev := evs[..|evs| - 1], evs[|evs| - 1];
      LastStep(c, evs);
      PubStep(c, RunAll(c, front).sys.s, ev);
      PubIsBindings(c, front);
      hide RunAll, Step, Inv;
      if ev.Binding? {
        BindsOneMore(c.e, Bindings(front), ev.obs);
      } else {
        assert Bindings(evs) == Bindings(front);
      }
    }
  }

  lemma {:induction false} BindsOneMore(e: Endian, os: seq<Obs>, o: Obs)
    requires (forall x <- os :: x.Valid()) && o.Valid()
    ensures BindAll(e, os + [o]) == Bind(e, BindAll(e, os), o)
  {
    assert (os + [o])[..|os|] == os;
    hide Bind;
  }

  // ----- the datagrams of a run -----

  /** The datagrams that the actions say were received, and those that came back from the target. */
  function Taken(acts: seq<Action>): seq<(Key, Data)> {
    if acts == [] then []
    else
      var a := acts[|acts| - 1];
      Taken(acts[..|acts| - 1]) + if a.Received? then [(a.key, a.data)] else []
  }

  function Returned(acts: seq<Action>): seq<Data> {
    if acts == [] then []
    else
      var a := acts[|acts| - 1];
      Returned(acts[..|acts| - 1]) + if a.FromTarget? then [a.data] else []
  }

  /** The datagrams that the events brought. */
  function Arriving(evs: seq<Event>): seq<(Key, Data)> {
    if evs == [] then []
    else
      var ev := evs[|evs| - 1];
      Arriving(evs[..|evs| - 1]) + if ev.Recv? then [(ev.key, ev.data)] else []
  }

  function Returning(evs: seq<Event>): seq<Data> {
    if evs == [] then []
    else
      var ev := evs[|evs| - 1];
      Returning(evs[..|evs| - 1]) + if ev.ClientData? then [ev.data] else []
  }

  /** How many clients could not be resolved or connected. */
  function Failing(evs: seq<Event>): nat {
    if evs == [] then 0
    else
      var ev := evs[|evs| - 1];
      Failing(evs[..|evs| - 1]) + if (ev.Resolved? && ev.fd.None?) || (ev.Connected? && !ev.ok) then 1 else 0
  }

  lemma {:induction false} TakenConcat(a: seq<Action>, b: seq<Action>)
    ensures Taken(a + b) == Taken(a) + Taken(b) && Returned(a + b) == Returned(a) + Returned(b)
    ensures Count(a + b, GivenUp) == Count(a, GivenUp) + Count(b, GivenUp)
  {
    if b == [] {
      assert a + b == a;
    } else {
      var front, x := b[..|b| - 1], b[|b| - 1];
      assert (a + b)[..|a + b| - 1] == a + front;
      TakenConcat(a, front);
      assert (Taken(a) + Taken(front)) + (if x.Received? then [(x.key, x.data)] else [])
          == Taken(a) + (Taken(front) + if x.Received? then [(x.key, x.data)] else []);
      assert (Returned(a) + Returned(front)) + (if x.FromTarget? then [x.data] else [])
          == Returned(a) + (Returned(front) + if x.FromTarget? then [x.data] else []);
    }
  }

  lemma TakenOne(a: Action)
    ensures Taken([a]) == (if a.Received? then [(a.key, a.data)] else [])
    ensures Returned([a]) == (if a.FromTarget? then [a.data] else [])
    ensures Count([a], GivenUp) == if a.Dropped? then 1 else 0
  {
    assert [a][..0] == [];
  }

  /** Actions that take, return and drop nothing. */
  lemma {:induction false} TakesNone(acts: seq<Action>)
    requires forall a <- acts :: Plain(a)
    ensures Taken(acts) == [] && Returned(acts) == [] && Count(acts, GivenUp) == 0
  {
    if acts != [] {
      assert Plain(acts[|acts| - 1]);
      TakesNone(acts[..|acts| - 1]);
    }
  }

  predicate Plain(a: Action) {
    !a.Received? && !a.FromTarget? && !a.Dropped?
  }

  /** At most one of the actions counts, and it comes first or last. */
  lemma {:induction false} TakenAt(acts: seq<Action>, k: nat)
    requires k < |acts| && (k == 0 || k == |acts| - 1) && forall j :: 0 <= j < |acts| && j != k ==> Plain(acts[j])
    ensures Taken(acts) == (if acts[k].Received? then [(acts[k].key, acts[k].data)] else [])
    ensures Returned(acts) == (if acts[k].FromTarget? then [acts[k].data] else [])
    ensures Count(acts, GivenUp) == if acts[k].Dropped? then 1 else 0
  {
    TakenOne(acts[k]);
    hide Taken, Returned, Count;
    var rest := if k == 0 then acts[1..] else acts[..k];
    TakesNone(rest);
    if k == 0 {
      assert acts == [acts[0]] + rest;
      TakenConcat([acts[0]], rest);
    } else {
      assert acts == rest + [acts[k]];
      TakenConcat(rest, [acts[k]]);
    }
  }

  lemma StepPlain(c: Config, s: State, ev: Event)
    requires s.pub.memory.Valid() && Allowed(c, s, ev)
    requires !ev.Recv? && !ev.ClientData? && !ev.Resolved? && !ev.Connected?
    ensures forall a <- Step(c, s, ev).1 :: Plain(a)
  {
    hide Bind, Without, Expire;
  }

  lemma DataPlain(c: Config, s: State, ev: Event)
    requires s.pub.memory.Valid() && Allowed(c, s, ev) && ev.ClientData?
    ensures var acts := Step(c, s, ev).1;
            && |acts| > 0 && acts[0] == FromTarget(s.table[ev.key].fd, ev.data)
            && forall j :: 0 < j < |acts| ==> Plain(acts[j])
  {}

  lemma StepTaken(c: Config, s: State, ev: Event)
    requires s.pub.memory.Valid() && Allowed(c, s, ev)
    ensures var acts := Step(c, s, ev).1;
            && Taken(acts) == (if ev.Recv? then [(ev.key, ev.data)] else [])
            && Returned(acts) == (if ev.ClientData? then [ev.data] else [])
            && Count(acts, GivenUp) == if (ev.Resolved? && ev.fd.None?) || (ev.Connected? && !ev.ok) then 1 else 0
  {
    hide Taken, Returned, Count, Step, Aim;
    var acts := Step(c, s, ev).1;
    match ev
    case Recv(i, key, data) =>
      RecvIs(c, s, i, key, data);
      TakenAt(acts, 0);
    case ClientData(_, _, _) =>
      DataPlain(c, s, ev);
      TakenAt(acts, 0);
    case Resolved(i, fd) =>
      ResolvedIs(c, s, i, fd);
      TakenAt(acts, 0);
    case Connected(i, ok) =>
      ConnectedIs(c, s, i, ok);
      TakenAt(acts, |acts| - 1);
    case _ =>
      StepPlain(c, s, ev);
      TakesNone(acts);
  }

  /**
   * Over every run: the datagrams taken are those that arrived, in their order and unchanged; the datagrams that
   * came back are those the target sent; and as many are given up as clients could not be resolved or connected.
   */
  lemma {:induction false} DatagramsAreEvents(c: Config, evs: seq<Event>)
    requires RunAll(c, evs).Fine?
    ensures var log := RunAll(c, evs).sys.log;
            && Taken(log) == Arriving(evs) && Returned(log) == Returning(evs)
            && Count(log, GivenUp) == Failing(evs)
  {
    if evs == [] {
      assert RunAll(c, evs).sys.log == [];
    } else {
      hide *;
      LogGrows(c, evs);
      DatagramsAreEvents(c, evs[..|evs| - 1]);
      EventsGrow(evs);
    }
  }

  lemma {:induction false} EventsGrow(evs: seq<Event>)
    requires evs != []
    ensures var front, ev := evs[..|evs| - 1], evs[|evs| - 1];
            && Arriving(evs) == Arriving(front) + (if ev.Recv? then [(ev.key, ev.data)] else [])
            && Returning(evs) == Returning(front) + (if ev.ClientData? then [ev.data] else [])
            && Failing(evs) == Failing(front)
               + if (ev.Resolved? && ev.fd.None?) || (ev.Connected? && !ev.ok) then 1 else 0
  {}

  lemma {:induction false} LogGrows(c: Config, evs: seq<Event>)
    requires RunAll(c, evs).Fine? && evs != []
    ensures RunAll(c, evs[..|evs| - 1]).Fine?
    ensures var ev, old_, new_ := evs[|evs| - 1], RunAll(c, evs[..|evs| - 1]).sys.log, RunAll(c, evs).sys.log;
            && Taken(new_) == Taken(old_) + (if ev.Recv? then [(ev.key, ev.data)] else [])
            && Returned(new_) == Returned(old_) + (if ev.ClientData? then [ev.data] else [])
            && Count(new_, GivenUp) == Count(old_, GivenUp)
               + if (ev.Resolved? && ev.fd.None?) || (ev.Connected? && !ev.ok) then 1 else 0
  {
    var front, ev := evs[..|evs| - 1], evs[|evs| - 1];
    assert front + [ev] == evs;
    OneMore(c, front, ev);
    var o := RunAll(c, front).sys;
    hide *;
    StepTaken(c, o.s, ev);
    TakenConcat(o.log, Step(c, o.s, ev).1);
  }
}
