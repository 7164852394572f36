/** What the invariant of the forwarder means for every run. */
module ForwarderFacts {
  import opened Keys
  import opened Words
  import opened Options
  import opened ChangeDetector
  import opened PublicPort
  import opened Text
  import opened Forwarder

  /** The upstream descriptors open. */
  function UpstreamFds(n: Net): set<nat> {
    set fd | fd in n.fds && n.fds[fd].purpose.Upstream?
  }

  function TableFds(t: map<Key, Sess>): set<nat> {
    set key | key in t :: t[key].fd
  }

  /** The one descriptor that `session_new` has open and not yet tabled. */
  function HandFds(s: State): set<nat> {
    if |s.servers| == 1 && s.servers[0].Connecting? then {s.servers[0].fd} else {}
  }

  lemma {:induction false} InjectiveSize(t: map<Key, Sess>)
    requires forall a <- t, b <- t :: t[a].fd == t[b].fd ==> a == b
    ensures |TableFds(t)| == |t|
    decreases |t|
  {
    if t != map[] {
      var k :| k in t;
      var u := t - {k};
      InjectiveSize(u);
      forall fd | fd in TableFds(t) ensures fd in TableFds(u) + {t[k].fd} {
        var a :| a in t && t[a].fd == fd;
        assert a != k ==> a in u && u[a] == t[a];
      }
      forall a | a in u ensures t[a].fd in TableFds(t) && u[a] == t[a] {}
      assert t[k].fd in TableFds(t);
      assert TableFds(t) == TableFds(u) + {t[k].fd};
      assert t.Keys == u.Keys + {k};
      assert |t.Keys| == |u.Keys| + 1;
    } else {
      assert TableFds(t) == {};
    }
  }

  /** What the accounts of one state say about its upstream descriptors. */
  lemma UpstreamsAccounted(c: Config, s: State, n: Net)
    requires Coherent(c, s) && Accounted(s, n)
    ensures forall a <- s.table, b <- s.table :: s.table[a].fd == s.table[b].fd ==> a == b
    ensures TableFds(s.table) !! HandFds(s)
    ensures UpstreamFds(n) == TableFds(s.table) + HandFds(s)
  {
    forall fd | fd in UpstreamFds(n) ensures fd in TableFds(s.table) + HandFds(s) {
      assert Owned(s, fd, n.fds[fd].purpose.key);
    }
    if |s.servers| == 1 && s.servers[0].Connecting? {
      assert s.servers[0] in s.servers;
    }
  }

  /**
   * In every state a run reaches, the table is a bijection between client addresses and the open upstream
   * descriptors that are not under construction, and descriptors are neither lost nor shared: the open upstream
   * ones number the sessions plus at most one.
   */
  lemma {:induction false} TableIsBijection(c: Config, evs: seq<Event>)
    requires RunAll(c, evs).Fine?
    ensures var s, n := RunAll(c, evs).sys.s, RunAll(c, evs).sys.n;
            && (forall a <- s.table, b <- s.table :: s.table[a].fd == s.table[b].fd ==> a == b)
            && UpstreamFds(n) == TableFds(s.table) + HandFds(s) && TableFds(s.table) !! HandFds(s)
            && |UpstreamFds(n)| == |s.table| + |HandFds(s)| && |HandFds(s)| <= 1
            && (forall key <- s.table :: s.table[key].fd in n.fds && For(n.fds[s.table[key].fd].purpose, key))
  {
    RunsAreSafe(c, evs);
    var s, n := RunAll(c, evs).sys.s, RunAll(c, evs).sys.n;
    assert forall key <- s.table :: s.table[key].fd in n.fds && For(n.fds[s.table[key].fd].purpose, key);
    hide RunAll, Port, Coherent, Accounted, For, UpstreamFds, TableFds;
    UpstreamsAccounted(c, s, n);
    InjectiveSize(s.table);
  }

  /**
   * At most one server task ever exists, and the absence that `session_find` found still holds when
   * `session_add` runs, although client tasks ran meanwhile: its descent always ends.
   */
  lemma {:induction false} AddFindsAbsence(c: Config, evs: seq<Event>, i: nat, ok: bool)
    requires RunAll(c, evs).Fine? && Allowed(c, RunAll(c, evs).sys.s, Connected(i, ok))
    ensures var s := RunAll(c, evs).sys.s;
            |s.servers| == 1 && s.servers[i].key !in s.table && |s.servers[i].key| == c.klen
            && forall key <- s.table :: |key| == c.klen
  {
    hide RunAll, Port;
    RunsAreSafe(c, evs);
    assert RunAll(c, evs).sys.s.servers[i] in RunAll(c, evs).sys.s.servers;
  }

  // ----- where a session aims -----

  /** A server task starts to resolve when a datagram from a new client arrives, and at no other time. */
  lemma ResolvingStep(c: Config, s: State, ev: Event, i: nat)
    requires Coherent(c, s) && s.pub.memory.Valid() && Allowed(c, s, ev)
    requires var t := Step(c, s, ev).0; i < |t.servers| && t.servers[i].Resolving?
    ensures var p := Step(c, s, ev).0.servers[i];
            || Step(c, s, ev).0.servers == s.servers
            || (ev == Recv(i, p.key, p.data) && p.key !in s.table && p.aim == Aim(c, s))
  {
    hide Bind, Reply, Aim;
  }

  /** The last step of a run. */
  lemma {:induction false} LastStep(c: Config, evs: seq<Event>)
    requires RunAll(c, evs).Fine? && evs != []
    ensures var o := RunAll(c, evs[..|evs| - 1]);
            && o.Fine? && Allowed(c, o.sys.s, evs[|evs| - 1])
            && RunAll(c, evs).sys.s == Step(c, o.sys.s, evs[|evs| - 1]).0
  {
    hide Step, Apply, ApplyAll, Allowed, Fresh;
  }

  /** The arrival that a server task is resolving for, and the state it came in. */
  lemma {:induction false} ParkedAt(c: Config, evs: seq<Event>, i: nat) returns (k: nat)
    requires RunAll(c, evs).Fine?
    requires var s := RunAll(c, evs).sys.s; i < |s.servers| && s.servers[i].Resolving?
    ensures k < |evs| && RunAll(c, evs[..k]).Fine?
    ensures var p, s := RunAll(c, evs).sys.s.servers[i], RunAll(c, evs[..k]).sys.s;
            evs[k] == Recv(i, p.key, p.data) && Allowed(c, s, evs[k]) && p.key !in s.table && p.aim == Aim(c, s)
  {
    assert evs != [];
    var front, ev := evs[..|evs| - 1], evs[|evs| - 1];
    LastStep(c, evs);
    RunsAreSafe(c, front);
    var s := RunAll(c, front).sys.s;
    ResolvingStep(c, s, ev, i);
    hide RunAll, Step, Inv, Aim, Allowed;
    if RunAll(c, evs).sys.s.servers == s.servers {
      k := ParkedAt(c, front, i);
      assert front[..k] == evs[..k];
    } else {
      k := |evs| - 1;
    }
  }

  lemma {:induction false} LatestChanges(c: Config, evs: seq<Event>)
    requires RunAll(c, evs).Fine? && RunAll(c, evs).sys.s.latest.Some?
    ensures evs != []
    ensures var o, ev := RunAll(c, evs[..|evs| - 1]), evs[|evs| - 1];
            o.Fine? && RunAll(c, evs).sys.s.latest == if ev.Binding? then Some(ev.obs) else o.sys.s.latest
  {
    assert evs != [];
    LastStep(c, evs);
    LatestStep(c, RunAll(c, evs[..|evs| - 1]).sys.s, evs[|evs| - 1]);
    hide RunAll, Step, Allowed;
  }

  /** What STUN last reported is the last binding of the run. */
  lemma {:induction false} LatestBinding(c: Config, evs: seq<Event>) returns (m: nat)
    requires RunAll(c, evs).Fine? && RunAll(c, evs).sys.s.latest.Some?
    ensures m < |evs| && evs[m].Binding? && evs[m].obs == RunAll(c, evs).sys.s.latest.value
    ensures forall j :: m < j < |evs| ==> !evs[j].Binding?
  {
    hide *;
    LatestChanges(c, evs);
    if evs[|evs| - 1].Binding? {
      m := |evs| - 1;
    } else {
      m := LatestBinding(c, evs[..|evs| - 1]);
    }
  }

  lemma LatestStep(c: Config, s: State, ev: Event)
    requires s.pub.memory.Valid() && Allowed(c, s, ev)
    ensures Step(c, s, ev).0.latest == if ev.Binding? then Some(ev.obs) else s.latest
  {
    hide Bind, Reply, Expire, Without, Aim;
  }

  /**
   * The descriptor opened for a client aims at the `-p` port or, with `-p 0`, at the public port of the last
   * binding before the client's datagram arrived, unless that port is 0. There always is such a binding: the
   * forwarder starts before the port is stored, but not before a binding.
   */
  lemma {:induction false} AimIsLatest(c: Config, evs: seq<Event>, i: nat, fd: nat) returns (k: nat, m: nat)
    requires RunAll(c, evs).Fine? && Allowed(c, RunAll(c, evs).sys.s, Event.Resolved(i, Some(fd)))
    ensures m < k < |evs| && evs[m].Binding? && forall j :: m < j < k ==> !evs[j].Binding?
    ensures var p := RunAll(c, evs).sys.s.servers[i];
            && p.Resolving? && evs[k] == Recv(i, p.key, p.data)
            && Step(c, RunAll(c, evs).sys.s, Event.Resolved(i, Some(fd))).1[..1] == [Open(fd, Upstream(p.key, p.aim))]
            && (c.fixed.Some? ==> p.aim == c.fixed.value)
            && (c.fixed.None? && PortOf(c.e, evs[m].obs) != 0 ==> p.aim == Decimal(PortOf(c.e, evs[m].obs)))
  {
    k := ParkedAt(c, evs, i);
    StoredAtArrival(c, evs[..k], evs[k]);
    hide RunAll, Decimal, Ntohs;
    m := LatestBinding(c, evs[..k]);
    assert forall j :: m < j < k ==> evs[..k][j] == evs[j];
  }

  /** When a datagram arrives the stored port is that of the latest binding, unless that is 0. */
  lemma {:induction false} StoredAtArrival(c: Config, evs: seq<Event>, ev: Event)
    requires RunAll(c, evs).Fine? && Allowed(c, RunAll(c, evs).sys.s, ev) && ev.Recv?
    ensures var s := RunAll(c, evs).sys.s;
            s.latest.Some? && var port := PortOf(c.e, s.latest.value); port != 0 ==> s.pub.mport == Decimal(port)
  {
    hide RunAll, Decimal, Ntohs;
    RunsAreSafe(c, evs);
  }

  // ----- the log, read alone -----

  function Opens(acts: seq<Action>, fd: nat): nat {
    if acts == [] then 0
    else Opens(acts[..|acts| - 1], fd) + (var a := acts[|acts| - 1]; if a.Open? && a.fd == fd then 1 else 0)
  }

  function Closes(acts: seq<Action>, fd: nat): nat {
    if acts == [] then 0
    else Closes(acts[..|acts| - 1], fd) + (var a := acts[|acts| - 1]; if a.Close? && a.fd == fd then 1 else 0)
  }

  /** What can become of a datagram, on either side. */
  datatype Fate = Arrives | Forwarded | GivenUp | ComesBack | Delivered | Missed

  function FateOf(a: Action): Option<Fate> {
    match a
    case Received(_, _) => Some(Arrives)
    case SendTarget(_, _, _) => Some(Forwarded)
    case Dropped(_, _) => Some(GivenUp)
    case FromTarget(_, _) => Some(ComesBack)
    case SendClient(_, _, _, _) => Some(Delivered)
    case Refused(_, _, _, _) => Some(Missed)
    case Lost(_, _) => Some(Missed)
    case _ => None
  }

  function Count(acts: seq<Action>, fate: Fate): nat {
    if acts == [] then 0
    else Count(acts[..|acts| - 1], fate) + (if FateOf(acts[|acts| - 1]) == Some(fate) then 1 else 0)
  }

  function One<T>(x: Option<T>): nat {
    if x.Some? then 1 else 0
  }

  lemma {:induction false} LogBalances(acts: seq<Action>, fd: nat)
    requires ApplyAll(QUIET, acts).Some?
    ensures var n := ApplyAll(QUIET, acts).value;
            && Opens(acts, fd) == Closes(acts, fd) + (if fd in n.fds then 1 else 0)
            && Count(acts, Arrives) == Count(acts, Forwarded) + Count(acts, GivenUp) + One(n.pending)
            && Count(acts, ComesBack) == Count(acts, Delivered) + Count(acts, Missed) + One(n.reply)
  {
    hide Apply, FateOf;
    if acts != [] {
      LogBalances(acts[..|acts| - 1], fd);
      OneAction(ApplyAll(QUIET, acts[..|acts| - 1]).value, acts[|acts| - 1], fd);
    }
  }

  function Tally(a: Action, fate: Fate): nat {
    if FateOf(a) == Some(fate) then 1 else 0
  }

  /** What one action does to the descriptors and to the datagrams in hand. */
  lemma OneAction(n: Net, a: Action, fd: nat)
    requires Apply(n, a).Some?
    ensures var m := Apply(n, a).value;
            && (if fd in m.fds then 1 else 0) + (if a.Close? && a.fd == fd then 1 else 0)
               == (if fd in n.fds then 1 else 0) + (if a.Open? && a.fd == fd then 1 else 0)
            && One(m.pending) + Tally(a, Forwarded) + Tally(a, GivenUp) == One(n.pending) + Tally(a, Arrives)
            && One(m.reply) + Tally(a, Delivered) + Tally(a, Missed) == One(n.reply) + Tally(a, ComesBack)
  {}

  /**
   * Over every run each descriptor is closed once for every time it was opened, except the open ones, which
   * await one close; each datagram received is forwarded once, given up once, or in hand; and each datagram that
   * comes back is sent to its client once, or missed once: refused by the server socket or lost for want of one.
   */
  lemma {:induction false} Conservation(c: Config, evs: seq<Event>, fd: nat)
    requires RunAll(c, evs).Fine?
    ensures var y := RunAll(c, evs).sys;
            && Opens(y.log, fd) == Closes(y.log, fd) + (if fd in y.n.fds then 1 else 0)
            && Count(y.log, Arrives) == Count(y.log, Forwarded) + Count(y.log, GivenUp) + One(y.n.pending)
            && Count(y.log, ComesBack) == Count(y.log, Delivered) + Count(y.log, Missed)
            && (fd in y.n.fds <==> fd == y.s.sfd || fd in TableFds(y.s.table) + HandFds(y.s))
  {
    hide RunAll, Step, Apply, Port, Opens, Closes, Count, ApplyAll;
    RunsAreSafe(c, evs);
    TableIsBijection(c, evs);
    var y := RunAll(c, evs).sys;
    LogBalances(y.log, fd);
    if fd in y.n.fds && y.n.fds[fd].purpose.Upstream? {
      assert fd in UpstreamFds(y.n);
    }
  }

  // ----- the statics against the history -----

  /** Something was switched on in this history, and nothing has switched it off since. */
  ghost predicate StillOn(evs: seq<Event>, on: Event -> bool, off: Event -> bool) {
    exists k :: 0 <= k < |evs| && on(evs[k]) && forall j :: k < j < |evs| ==> !off(evs[j])
  }

  predicate Binds(ev: Event) {
    ev.Binding?
  }

  predicate GetsSocket(ev: Event) {
    ev.Start? && ev.fd.Some?
  }

  predicate EndsServer(ev: Event) {
    ev.Stop? || (ev.Start? && ev.fd.None?)
  }

  predicate Kills(ev: Event) {
    ev.Kill?
  }

  lemma StillOnSnoc(evs: seq<Event>, on: Event -> bool, off: Event -> bool)
    requires evs != []
    ensures var front, ev := evs[..|evs| - 1], evs[|evs| - 1];
            StillOn(evs, on, off) <==> on(ev) || (StillOn(front, on, off) && !off(ev))
  {
    var front, ev := evs[..|evs| - 1], evs[|evs| - 1];
    if StillOn(front, on, off) && !off(ev) {
      var k :| 0 <= k < |front| && on(front[k]) && forall j :: k < j < |front| ==> !off(front[j]);
      assert forall j :: k < j < |front| ==> front[j] == evs[j];
      assert on(evs[k]);
    }
    if StillOn(evs, on, off) && !on(ev) {
      var k :| 0 <= k < |evs| && on(evs[k]) && forall j :: k < j < |evs| ==> !off(evs[j]);
      assert k < |front| && on(front[k]);
      assert forall j :: k < j < |front| ==> front[j] == evs[j];
    }
  }

  /** One step of the statics. */
  lemma StaticsStep(c: Config, s: State, ev: Event)
    requires Allowed(c, s, ev) && s.pub.memory.Valid()
    ensures var t := Step(c, s, ev).0;
            && (t.task <==> Binds(ev) || (s.task && !EndsServer(ev)))
            && (t.sfd >= 0 <==> GetsSocket(ev) || (s.sfd >= 0 && !EndsServer(ev)))
            && (t.quit <==> Kills(ev) || (s.quit && !GetsSocket(ev)))
  {
    hide Bind, Reply, Expire, Without;
  }

  /**
   * After any run: `task` is set if and only if a binding has come and no server task has ended since; `sfd` is
   * open if and only if a server task has got its socket and none has ended since; `quit` is set if and only if
   * a kill has come and no server task has got its socket since.
   */
  lemma {:induction false} StaticsTellHistory(c: Config, evs: seq<Event>)
    requires RunAll(c, evs).Fine?
    ensures var s := RunAll(c, evs).sys.s;
            && (s.task <==> StillOn(evs, Binds, EndsServer))
            && (s.sfd >= 0 <==> StillOn(evs, GetsSocket, EndsServer))
            && (s.quit <==> StillOn(evs, Kills, GetsSocket))
  {
    if evs != [] {
      StaticsTellHistory(c, evs[..|evs| - 1]);
      StaticsStep(c, RunAll(c, evs[..|evs| - 1]).sys.s, evs[|evs| - 1]);
      StillOnSnoc(evs, Binds, EndsServer);
      StillOnSnoc(evs, GetsSocket, EndsServer);
      StillOnSnoc(evs, Kills, GetsSocket);
    }
    hide Step, ApplyAll, StillOn, Binds, GetsSocket, EndsServer, Kills;
  }

  /**
   * The last kill of a run is forgotten if and only if a server task gets its socket after it. A server task that
   * receives can stop without an error if and only if it is not forgotten.
   */
  lemma {:induction false} KillForgottenIff(c: Config, evs: seq<Event>, k: nat)
    requires RunAll(c, evs).Fine? && k < |evs| && evs[k].Kill? && forall j :: k < j < |evs| ==> !evs[j].Kill?
    ensures var s := RunAll(c, evs).sys.s;
            && (!s.quit <==> exists j :: k < j < |evs| && GetsSocket(evs[j]))
            && forall i: nat :: i < |s.servers| && s.servers[i].Receiving? ==>
                 (Allowed(c, s, Stop(i, false)) <==> forall j :: k < j < |evs| ==> !GetsSocket(evs[j]))
  {
    StaticsTellHistory(c, evs);
    hide RunAll;
    assert Kills(evs[k]);
    if RunAll(c, evs).sys.s.quit {
      var m :| 0 <= m < |evs| && Kills(evs[m]) && forall j :: m < j < |evs| ==> !GetsSocket(evs[j]);
      assert m <= k;
    }
  }

  // ----- progress: a datagram from a new client and its answer -----

  /** What a run does with one more event that can happen. */
  lemma {:induction false} Extend(c: Config, evs: seq<Event>, ev: Event)
    requires RunAll(c, evs).Fine? && Allowed(c, RunAll(c, evs).sys.s, ev) && Fresh(RunAll(c, evs).sys.n, ev)
    ensures var o, p := RunAll(c, evs).sys, RunAll(c, evs + [ev]);
            var (t, acts) := Step(c, o.s, ev);
            p.Fine? && p.sys.s == t && p.sys.log == o.log + acts && ApplyAll(o.n, acts) == Some(p.sys.n)
  {
    RunsAreSafe(c, evs + [ev]);
    assert (evs + [ev])[..|evs|] == evs;
    hide Step, Apply, ApplyAll, Inv;
  }

  /**
   * It happens: a kill between a binding that starts the forwarder and the first block of its task. The server
   * task receives, and cannot be stopped without another kill or an error.
   */
  lemma {:induction false} KillBeforeSocketIsLost(c: Config, evs: seq<Event>, o: Obs, fd: nat)
    requires RunAll(c, evs).Fine? && !RunAll(c, evs).sys.s.task
    requires o.Valid() && fd !in RunAll(c, evs).sys.n.fds
    ensures var r := RunAll(c, evs + [Binding(o)] + [Kill] + [Event.Start(0, Some(fd))]);
            && r.Fine? && !r.sys.s.quit && r.sys.s.sfd == fd && r.sys.s.servers == [Receiving]
            && !Allowed(c, r.sys.s, Stop(0, false))
  {
    var z := RunAll(c, evs).sys;
    RunsAreSafe(c, evs);
    ApplyNone(z.n);
    KillSteps(c, z.s, o, fd);
    hide RunAll, ApplyAll, Step, Inv;
    Extend(c, evs, Binding(o));
    Extend(c, evs + [Binding(o)], Kill);
    Extend(c, evs + [Binding(o)] + [Kill], Event.Start(0, Some(fd)));
  }

  lemma KillSteps(c: Config, s: State, o: Obs, fd: nat)
    requires Coherent(c, s) && s.pub.memory.Valid() && !s.task && o.Valid()
    ensures var (s1, a1) := Step(c, s, Binding(o));
            && a1 == [] && s1.pub.memory.Valid() && Step(c, s1, Kill) == (s1.(quit := true), [])
            && Allowed(c, s1.(quit := true), Event.Start(0, Some(fd)))
            && var t := Step(c, s1.(quit := true), Event.Start(0, Some(fd))).0;
            !t.quit && t.sfd == fd && t.servers == [Receiving]
  {
    hide Bind;
    assert s.servers == [];
    assert [Starting][0 := Receiving] == [Receiving];
  }

  /** A server task opens a session for a new client and passes its datagram on. */
  function Opening(i: nat, key: Key, data: Data, fd: nat): seq<Event> {
    [Recv(i, key, data)] + [Event.Resolved(i, Some(fd))] + [Event.Connected(i, true)]
  }

  function Outbound(key: Key, aim: string, data: Data, fd: nat): seq<Action> {
    [Action.Received(key, data)] + [Open(fd, Upstream(key, aim)), AddFd(ServerTask, fd)]
    + [DelFd(ServerTask, fd), SendTarget(fd, key, data)]
  }

  /** The states between the three events, and what each of them emits. */
  lemma OpeningSteps(c: Config, s: State, i: nat, key: Key, data: Data, fd: nat) returns (s1: State, s2: State)
    requires s.pub.memory.Valid() && Allowed(c, s, Recv(i, key, data)) && key !in s.table
    ensures s1.pub == s2.pub == s.pub
    ensures Step(c, s, Recv(i, key, data)) == (s1, [Action.Received(key, data)])
    ensures Allowed(c, s1, Event.Resolved(i, Some(fd)))
    ensures Step(c, s1, Event.Resolved(i, Some(fd))) 
         == (s2, [Open(fd, Upstream(key, Aim(c, s))), AddFd(ServerTask, fd)])
    ensures Allowed(c, s2, Event.Connected(i, true))
    ensures Step(c, s2, Event.Connected(i, true))
         == (s.(table := s.table[key := Sess(fd, true, false)]), [DelFd(ServerTask, fd), SendTarget(fd, key, data)])
  {
    s1 := s.(servers := s.servers[i := Resolving(key, data, Aim(c, s))]);
    s2 := s.(servers := s.servers[i := Connecting(key, data, fd)]);
    hide Aim;
    assert s1.servers[i := Connecting(key, data, fd)] == s2.servers;
    assert s2.servers[i := Receiving] == s.servers;
  }

  lemma {:induction false} SessionOpens(c: Config, evs: seq<Event>, i: nat, key: Key, data: Data, fd: nat)
    requires RunAll(c, evs).Fine? && Allowed(c, RunAll(c, evs).sys.s, Recv(i, key, data))
    requires key !in RunAll(c, evs).sys.s.table && fd !in RunAll(c, evs).sys.n.fds
    ensures var o, p := RunAll(c, evs).sys, RunAll(c, evs + Opening(i, key, data, fd));
            && p.Fine? && p.sys.s == o.s.(table := o.s.table[key := Sess(fd, true, false)])
            && p.sys.log == o.log + Outbound(key, Aim(c, o.s), data, fd)
  {
    var e1, e2, e3 := Recv(i, key, data), Event.Resolved(i, Some(fd)), Event.Connected(i, true);
    var o := RunAll(c, evs).sys;
    var s1, s2 := OpeningSteps(c, o.s, i, key, data, fd);
    ApplyOne(o.n, Action.Received(key, data));
    assert ApplyAll(o.n, [Action.Received(key, data)]).Some? ==>
        ApplyAll(o.n, [Action.Received(key, data)]).value.fds == o.n.fds;
    hide RunAll, ApplyAll, Apply, Step, Allowed;
    Extend(c, evs, e1);
    Extend(c, evs + [e1], e2);
    Extend(c, evs + [e1] + [e2], e3);
    Joins(evs, [e1], [e2], [e3]);
    Joins(o.log, [Action.Received(key, data)], [Open(fd, Upstream(key, Aim(c, o.s))), AddFd(ServerTask, fd)],
          [DelFd(ServerTask, fd), SendTarget(fd, key, data)]);
  }

  /** The client task starts, and the answer of the target comes back. */
  function Answering(key: Key, reply: Data): seq<Event> {
    [Event.ClientStart(key)] + [Event.ClientData(key, reply, true)]
  }

  function Inbound(key: Key, fd: nat, listen: nat, reply: Data): seq<Action> {
    [AddFd(ClientTask(key), fd)] + [FromTarget(fd, reply), SendClient(listen, fd, key, reply)]
  }

  lemma AnsweringSteps(c: Config, s: State, key: Key, fd: nat, reply: Data) returns (t: State)
    requires s.pub.memory.Valid() && s.sfd >= 0 && key in s.table && s.table[key] == Sess(fd, true, false)
    ensures t == s.(table := s.table[key := Sess(fd, false, true)])
    ensures Step(c, s, Event.ClientStart(key)) == (t, [AddFd(ClientTask(key), fd)])
    ensures Step(c, t, Event.ClientData(key, reply, true))
         == (t, [FromTarget(fd, reply), SendClient(s.sfd, fd, key, reply)])
  {
    t := s.(table := s.table[key := Sess(fd, false, true)]);
    assert t.table[key := Sess(fd, false, true)] == t.table;
  }

  lemma {:induction false} AnswerComes(c: Config, evs: seq<Event>, key: Key, fd: nat, reply: Data)
    requires RunAll(c, evs).Fine? && RunAll(c, evs).sys.s.sfd >= 0
    requires key in RunAll(c, evs).sys.s.table && RunAll(c, evs).sys.s.table[key] == Sess(fd, true, false)
    ensures var o, p := RunAll(c, evs).sys, RunAll(c, evs + Answering(key, reply));
            && p.Fine? && p.sys.s == o.s.(table := o.s.table[key := Sess(fd, false, true)])
            && p.sys.log == o.log + Inbound(key, fd, o.s.sfd, reply)
  {
    var o := RunAll(c, evs).sys;
    var s := AnsweringSteps(c, o.s, key, fd, reply);
    hide RunAll, ApplyAll, Step;
    Extend(c, evs, Event.ClientStart(key));
    Extend(c, evs + [Event.ClientStart(key)], Event.ClientData(key, reply, true));
    Joins(evs, [], [Event.ClientStart(key)], [Event.ClientData(key, reply, true)]);
    Joins(o.log, [], [AddFd(ClientTask(key), fd)], [FromTarget(fd, reply), SendClient(o.s.sfd, fd, key, reply)]);
  }

  lemma Joins<T>(x: seq<T>, a: seq<T>, b: seq<T>, d: seq<T>)
    ensures x + a + b + d == x + (a + b + d)
    ensures a == [] ==> x + a == x && a + b == b
  {}

  /** A server task that receives has its socket. */
  lemma {:induction false} ServerListens(c: Config, evs: seq<Event>, i: nat, key: Key, data: Data)
    requires RunAll(c, evs).Fine? && Allowed(c, RunAll(c, evs).sys.s, Recv(i, key, data))
    ensures RunAll(c, evs).sys.s.sfd >= 0
  {
    RunsAreSafe(c, evs);
    hide RunAll, Port, Accounted;
  }

  /**
   * In any reachable state a datagram from a new client can get through and be answered: if resolving, connecting
   * and sending succeed, it leaves on a descriptor opened for the client, unchanged, and the answer goes back to
   * the client on the server's descriptor.
   */
  lemma {:induction false} GetsThrough(c: Config, evs: seq<Event>, i: nat, key: Key, data: Data, fd: nat, reply: Data)
    requires RunAll(c, evs).Fine? && Allowed(c, RunAll(c, evs).sys.s, Recv(i, key, data))
    requires key !in RunAll(c, evs).sys.s.table && fd !in RunAll(c, evs).sys.n.fds
    ensures var o, p := RunAll(c, evs).sys, RunAll(c, evs + Opening(i, key, data, fd) + Answering(key, reply));
            && p.Fine? && p.sys.s == o.s.(table := o.s.table[key := Sess(fd, false, true)]) && o.s.sfd >= 0
            && p.sys.log == o.log + Outbound(key, Aim(c, o.s), data, fd) + Inbound(key, fd, o.s.sfd, reply)
  {
    hide *;
    ServerListens(c, evs, i, key, data);
    SessionOpens(c, evs, i, key, data, fd);
    var t := RunAll(c, evs).sys.s.table;
    AnswerComes(c, evs + Opening(i, key, data, fd), key, fd, reply);
    assert t[key := Sess(fd, true, false)][key := Sess(fd, false, true)] == t[key := Sess(fd, false, true)];
  }

  // ----- draining -----

  /** What is left to do before the table is empty: 1 + active + not yet started, summed over the sessions. */
  function Load(t: map<Key, Sess>): nat {
    |t| + |set k | k in t && t[k].active| + |set k | k in t && !t[k].started|
  }

  predicate Draining(ev: Event) {
    ev.ClientStart? || ev.ClientTimeout? || ev.ClientData? || ev.ClientFail?
  }

  lemma RemoveLoad(t: map<Key, Sess>, key: Key)
    requires key in t
    ensures Load(t - {key}) < Load(t)
  {
    var u := t - {key};
    SubsetSize(u.Keys, t.Keys);
    assert key in t.Keys && key !in u.Keys;
    SubsetSize(set k | k in u && u[k].active, set k | k in t && t[k].active);
    SubsetSize(set k | k in u && !u[k].started, set k | k in t && !t[k].started);
  }

  lemma SubsetSize<T>(a: set<T>, b: set<T>)
    requires a <= b
    ensures |a| <= |b| && (a != b ==> |a| < |b|)
  {
    if a != b {
      assert |b - a| == |b| - |a|;
      assert b - a != {};
    } else {
      assert a == b;
    }
  }

  /** A session only ever loses its flag or its wait. */
  lemma LowerLoad(t: map<Key, Sess>, key: Key, x: Sess)
    requires key in t && (x.active ==> t[key].active) && (t[key].started ==> x.started)
    ensures Load(t[key := x]) <= Load(t)
    ensures x.active != t[key].active || x.started != t[key].started ==> Load(t[key := x]) < Load(t)
  {
    var u := t[key := x];
    assert u.Keys == t.Keys;
    var a, b := (set k | k in u && u[k].active), (set k | k in t && t[k].active);
    var p, q := (set k | k in u && !u[k].started), (set k | k in t && !t[k].started);
    assert key in a <==> x.active;
    assert key in b <==> t[key].active;
    assert key in p <==> !x.started;
    assert key in q <==> !t[key].started;
    SubsetSize(a, b);
    SubsetSize(p, q);
  }

  /** With no server, every start, timeout, target packet or failure lowers the load. */
  lemma DrainStep(c: Config, s: State, ev: Event)
    requires s.pub.memory.Valid() && s.sfd < 0 && s.servers == [] && Allowed(c, s, ev) && Draining(ev)
    ensures var t := Step(c, s, ev).0;
            t.sfd < 0 && t.servers == [] && t.pub == s.pub && Load(t.table) < Load(s.table)
  {
    hide Load;
    var x := s.table[ev.key];
    RemoveLoad(s.table, ev.key);
    LowerLoad(s.table, ev.key, x.(active := false));
    LowerLoad(s.table, ev.key, Sess(x.fd, false, true));
  }

  /** The forwarder's own steps, without the descriptors. */
  function Steps(c: Config, s: State, evs: seq<Event>): (r: Option<State>)
    requires s.pub.memory.Valid()
    ensures r.Some? ==> r.value.pub.memory.Valid()
  {
    if evs == [] then Some(s)
    else
      var r := Steps(c, s, evs[..|evs| - 1]);
      if r.None? || !Allowed(c, r.value, evs[|evs| - 1]) then None
      else Some(Step(c, r.value, evs[|evs| - 1]).0)
  }

  /**
   * With no server running the table drains: no run of client events is longer than the load, one as long has
   * emptied the table, and until then some such event can happen.
   */
  lemma {:induction false} Drains(c: Config, s: State, evs: seq<Event>)
    requires s.pub.memory.Valid() && s.sfd < 0 && s.servers == []
    requires Steps(c, s, evs).Some? && forall ev <- evs :: Draining(ev)
    ensures var t := Steps(c, s, evs).value;
            && t.sfd < 0 && t.servers == [] && Load(t.table) + |evs| <= Load(s.table)
            && (|evs| == Load(s.table) ==> t.table == map[])
            && (t.table != map[] ==> exists ev :: Draining(ev) && Allowed(c, t, ev))
  {
    hide Step;
    if evs != [] {
      var r := Steps(c, s, evs[..|evs| - 1]).value;
      Drains(c, s, evs[..|evs| - 1]);
      DrainStep(c, r, evs[|evs| - 1]);
    }
    var t := Steps(c, s, evs).value;
    if t.table != map[] {
      var key :| key in t.table;
      assert t.table.Keys != {};
      var ev := if t.table[key].started then ClientTimeout(key) else ClientStart(key);
      assert Draining(ev) && Allowed(c, t, ev);
    }
  }
}
